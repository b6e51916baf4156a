/** The plug-in's example component, `SampleScript`, walked with the checks
    the editor loads. */
module Sample {
  import opened Values
  import opened Registry
  import opened SanityChecker
  import opened Startup

  /** `SampleScript.TestClass`: one `[NotNull]` game object field. */
  function TestClass(obj2: Value): Value {
    Ref("SampleScript+TestClass", Managed, [Field("obj2", obj2, [NotNull])])
  }

  /** A live `SampleScript` MonoBehaviour with the given field values. */
  function SampleScript(obj: Value, cls: Value, x: Value, y: Value, z: Value): Value {
    Ref("SampleScript", UnityObject(true, true), [
      Field("obj", obj, [NotNull]),
      Field("cls", cls, [CheckInside]),
      Field("x", x, [NotNegative]),
      Field("y", y, [GreaterThanOrEquals(5.0), LessThan(8.0)]),
      Field("z", z, [OtherAttribute("UnityEngine.SerializeField"), NotNullOrEmpty])
    ])
  }

  /** The nested `TestClass` instance with its reference unassigned: one
      logged failure, against no Unity object. */
  lemma UnassignedTestClass()
    ensures Walk(DefaultChecks(), TestClass(Null), true, NoContext) == Ok([
              LogEntry(MissingReferenceException(Report("obj2", "SampleScript+TestClass", MissingReference, NoContext)),
                       NoTarget)])
  {
    var checks := DefaultChecks();
    var tc := TestClass(Null);
    var e := MissingReferenceException(Report("obj2", "SampleScript+TestClass", MissingReference, NoContext));
    assert checks[NotNullType] == NotNullCheck;
    assert Dispatch(checks, tc, tc.fields[0], [NotNull][1..], NoContext) == None;
    assert TryField(checks, tc, 0, true, NoContext) == FieldRun([], Some(e));
    assert WalkFields(checks, tc, 1, true, NoContext) == Ok([]);
    assert [] + [LogEntry(e, NoTarget)] + [] == [LogEntry(e, NoTarget)];
  }

  function Fresh(): Value {
    SampleScript(Null, TestClass(Null), Num(0.0), Num(6.0), Str("", None))
  }

  lemma FreshFieldOutcomes()
    ensures TryField(DefaultChecks(), Fresh(), 0, true, NoContext)
         == FieldRun([], Some(MissingReferenceException(Report("obj", "SampleScript", MissingReference, NoContext))))
    ensures TryField(DefaultChecks(), Fresh(), 0, false, NoContext)
         == FieldRun([], Some(MissingReferenceException(Report("obj", "SampleScript", MissingReference, NoContext))))
  {
    var checks := DefaultChecks();
    var f := Fresh().fields;
    assert checks[NotNullType] == NotNullCheck;
    assert Dispatch(checks, Fresh(), f[0], f[0].attributes[1..], NoContext) == None;
  }

  lemma FreshNested()
    ensures TryField(DefaultChecks(), Fresh(), 1, true, NoContext)
         == FieldRun([LogEntry(MissingReferenceException(Report("obj2", "SampleScript+TestClass", MissingReference, NoContext)),
                               NoTarget)], None)
  {
    UnassignedTestClass();
    DefaultChecksShape();
    var f := Fresh().fields;
    assert Dispatch(DefaultChecks(), Fresh(), f[1], f[1].attributes[1..], NoContext) == None;
  }

  lemma FreshNumbers()
    ensures TryField(DefaultChecks(), Fresh(), 2, true, NoContext) == FieldRun([], None)
    ensures TryField(DefaultChecks(), Fresh(), 3, true, NoContext) == FieldRun([], None)
  {
    var checks := DefaultChecks();
    DefaultChecksShape();
    var f := Fresh().fields;
    assert checks[NotNegativeType] == NotNegativeCheck && checks[LessThanType] == LessThanCheck;
    assert Dispatch(checks, Fresh(), f[2], f[2].attributes[1..], NoContext) == None;
    assert Dispatch(checks, Fresh(), f[3], f[3].attributes[1..][1..], NoContext) == None;
    assert Dispatch(checks, Fresh(), f[3], f[3].attributes[1..], NoContext) == None;
  }

  lemma FreshString()
    ensures TryField(DefaultChecks(), Fresh(), 4, true, NoContext)
         == FieldRun([], Some(InvalidValueException(Report("z", "SampleScript", MustNotBeEmptyString, NoContext))))
  {
    var checks := DefaultChecks();
    var f := Fresh().fields;
    assert checks[NotNullOrEmptyType] == NotNullOrEmptyCheck;
    assert OtherType("UnityEngine.SerializeField") !in checks;
    assert Dispatch(checks, Fresh(), f[4], f[4].attributes[1..], NoContext)
        == Some(InvalidValueException(Report("z", "SampleScript", MustNotBeEmptyString, NoContext)));
  }

  /** A freshly added component: nothing assigned, the serialized class
      instance present with its own reference unassigned, the numbers at
      their initial values and the serialized string empty. The interactive
      walk logs three failures, the nested one in between, each against the
      right object; the automated walk throws the first. */
  lemma FreshSampleScript()
    ensures var first := MissingReferenceException(Report("obj", "SampleScript", MissingReference, NoContext));
            Walk(DefaultChecks(), Fresh(), true, NoContext) == Ok([
              LogEntry(first, GameObjectOf(Fresh())),
              LogEntry(MissingReferenceException(Report("obj2", "SampleScript+TestClass", MissingReference, NoContext)),
                       NoTarget),
              LogEntry(InvalidValueException(Report("z", "SampleScript", MustNotBeEmptyString, NoContext)),
                       GameObjectOf(Fresh()))])
            && Walk(DefaultChecks(), Fresh(), false, NoContext) == Err(first)
  {
    var checks := DefaultChecks();
    var sample := Fresh();
    var first := MissingReferenceException(Report("obj", "SampleScript", MissingReference, NoContext));
    var nested := LogEntry(MissingReferenceException(Report("obj2", "SampleScript+TestClass", MissingReference, NoContext)),
                           NoTarget);
    var last := LogEntry(InvalidValueException(Report("z", "SampleScript", MustNotBeEmptyString, NoContext)),
                         GameObjectOf(sample));
    DefaultChecksShape();
    FreshFieldOutcomes();
    FreshNested();
    FreshNumbers();
    FreshString();
    var head := LogEntry(first, GameObjectOf(sample));
    assert ([] + [last]) + [] == [last] && [] + [last] == [last];
    assert [nested] + [last] == [nested, last];
    assert ([] + [head]) + [nested, last] == [head, nested, last];
    assert WalkFields(checks, sample, 5, true, NoContext) == Ok([]);
    assert WalkFields(checks, sample, 4, true, NoContext) == Ok([last]);
    assert WalkFields(checks, sample, 3, true, NoContext) == Ok([last]);
    assert WalkFields(checks, sample, 2, true, NoContext) == Ok([last]);
    assert WalkFields(checks, sample, 1, true, NoContext) == Ok([nested, last]);
    assert WalkFields(checks, sample, 0, true, NoContext) == Ok([LogEntry(first, GameObjectOf(sample)), nested, last]);
    assert WalkFields(checks, sample, 0, false, NoContext) == Err(first);
  }

  function NegativeBesideString(): Value {
    Ref("Example", Managed, [Field("x", Num(-1.0), [NotNegative]), Field("y", Str("ok", None), [NotNullOrEmpty])])
  }

  /** A negative number under `[NotNegative]` beside a non-empty string under
      `[NotNullOrEmpty]`: exactly one failure, for the number. */
  lemma NegativeNumberBesideString()
    ensures Walk(DefaultChecks(), NegativeBesideString(), true, NoContext)
         == Ok([LogEntry(InvalidValueException(Report("x", "Example", MustNotBeNegative, NoContext)), NoTarget)])
  {
    var checks := DefaultChecks();
    var obj := NegativeBesideString();
    var e := LogEntry(InvalidValueException(Report("x", "Example", MustNotBeNegative, NoContext)), NoTarget);
    var none: seq<LogEntry> := [];
    assert checks[NotNegativeType] == NotNegativeCheck && checks[NotNullOrEmptyType] == NotNullOrEmptyCheck;
    assert TryField(checks, obj, 0, true, NoContext) == FieldRun([], Some(e.exception));
    assert Dispatch(checks, obj, obj.fields[1], obj.fields[1].attributes[1..], NoContext) == None;
    assert TryField(checks, obj, 1, true, NoContext) == FieldRun([], None);
    assert WalkFields(checks, obj, 2, true, NoContext) == Ok([]);
    assert none + none == none;
    assert WalkFields(checks, obj, 1, true, NoContext) == Ok([]);
    assert ([] + [e]) + [] == [e];
  }

  function DestroyedTarget(): Value {
    Ref("Example", Managed, [Field("target", Ref("UnityEngine.GameObject", UnityObject(false, false), []), [NotNull])])
  }

  /** `[NotNull]` on a reference to a destroyed game object: exactly one
      failure, although the reference itself is not null. */
  lemma DestroyedReference()
    ensures Walk(DefaultChecks(), DestroyedTarget(), true, NoContext)
         == Ok([LogEntry(MissingReferenceException(Report("target", "Example", MissingReference, NoContext)), NoTarget)])
  {
    var checks := DefaultChecks();
    var obj := DestroyedTarget();
    var e := LogEntry(MissingReferenceException(Report("target", "Example", MissingReference, NoContext)), NoTarget);
    assert checks[NotNullType] == NotNullCheck;
    assert TryField(checks, obj, 0, true, NoContext) == FieldRun([], Some(e.exception));
    assert ([] + [e]) + [] == [e];
  }
}

/** What the walk of `PerformChecks` guarantees: how its two modes relate,
    what happens around a `[CheckInside]` field, and which annotations run. */
module WalkProperties {
  import opened Values
  import opened Registry
  import opened SanityChecker

  /** What automated mode makes of an interactive run: the first logged
      exception is thrown instead. */
  function FirstFailure(r: Result<seq<LogEntry>, Exception>): Result<seq<LogEntry>, Exception> {
    match r
    case Err(e) => Err(e)
    case Ok(log) => if log == [] then Ok([]) else Err(log[0].exception)
  }

  /** The first exception a field's block logs or throws. */
  function FirstThrown(run: FieldRun): Option<Exception> {
    if run.log != [] then Some(run.log[0].exception) else run.thrown
  }

  /** Automated (non-interactive) mode throws exactly the first exception
      that interactive mode logs, wherever in the tree it arises, and succeeds
      exactly when interactive mode logs nothing. */
  lemma {:induction false} FailFastThrowsFirstLogged(checks: Checks, obj: Value, context: Context)
    ensures Walk(checks, obj, false, context) == FirstFailure(Walk(checks, obj, true, context))
    decreases obj, 2, 0
  {
    if |checks| > 0 && obj.Ref? {
      FieldsFailFast(checks, obj, 0, context);
    }
  }

  lemma {:induction false} FieldsFailFast(checks: Checks, obj: Value, i: nat, context: Context)
    requires obj.Ref? && i <= |obj.fields|
    ensures WalkFields(checks, obj, i, false, context) == FirstFailure(WalkFields(checks, obj, i, true, context))
    decreases obj, 1, |obj.fields| - i
  {
    if i < |obj.fields| {
      TryFieldFailFast(checks, obj, i, context);
      FieldsFailFast(checks, obj, i + 1, context);
      var run := TryField(checks, obj, i, true, context);
      var rest := WalkFields(checks, obj, i + 1, true, context);
      var here := if run.thrown.Some? then run.log + [LogEntry(run.thrown.value, LogTargetOf(obj))] else run.log;
      assert WalkFields(checks, obj, i, true, context) == Then(here, rest);
      InteractiveFieldsNeverThrow(checks, obj, i + 1, context);
      if here == [] {
        ThenEmpty(rest);
        ThenEmpty(WalkFields(checks, obj, i + 1, false, context));
      } else {
        assert here[0].exception == FirstThrown(run).value;
        if rest.Ok? {
          assert (here + rest.value)[0] == here[0];
        }
      }
    }
  }

  lemma {:induction false} TryFieldFailFast(checks: Checks, obj: Value, i: nat, context: Context)
    requires obj.Ref? && i < |obj.fields|
    ensures TryField(checks, obj, i, false, context).log == []
    ensures TryField(checks, obj, i, false, context).thrown == FirstThrown(TryField(checks, obj, i, true, context))
    decreases obj, 0, 0
  {
    if HasCheckInside(obj.fields[i]) {
      FailFastThrowsFirstLogged(checks, obj.fields[i].value, context);
    }
  }

  /** Automated mode never logs: it returns an empty log or throws. */
  lemma FailFastLogsNothing(checks: Checks, obj: Value, context: Context)
    ensures Walk(checks, obj, false, context).Ok? ==> Walk(checks, obj, false, context).value == []
  {
    FailFastThrowsFirstLogged(checks, obj, context);
  }

  lemma {:induction false} InteractiveFieldsNeverThrow(checks: Checks, obj: Value, i: nat, context: Context)
    requires obj.Ref? && i <= |obj.fields|
    ensures WalkFields(checks, obj, i, true, context).Ok?
    decreases |obj.fields| - i
  {
    if i < |obj.fields| {
      InteractiveFieldsNeverThrow(checks, obj, i + 1, context);
    }
  }

  /** In interactive mode the only exceptions that leave a walk are the two
      raised before its loop: an empty registry and a null object. Whatever
      a field or a nested walk throws is logged. */
  lemma InteractiveNeverThrows(checks: Checks, obj: Value, context: Context)
    ensures Walk(checks, obj, true, context).Err? <==> |checks| == 0 || obj.Null?
  {
    if |checks| > 0 && obj.Ref? {
      InteractiveFieldsNeverThrow(checks, obj, 0, context);
    }
  }

  /** An empty registry throws before any field is read, in both modes and
      whatever the object (null included). */
  lemma EmptyRegistryThrows(checks: Checks, obj: Value, interactive: bool, context: Context)
    requires |checks| == 0
    ensures Walk(checks, obj, interactive, context) == Err(NoChecksLoadedException)
  {
  }

  /** A `[CheckInside]` field holding null is not skipped: the nested walk
      throws a NullReferenceException, which the field's own block catches,
      so none of the field's own annotations run. Automated mode rethrows it;
      interactive mode logs it against the enclosing object and goes on. */
  lemma NullCheckInsideField(checks: Checks, obj: Value, i: nat, context: Context)
    requires obj.Ref? && i < |obj.fields| && |checks| > 0
    requires HasCheckInside(obj.fields[i]) && obj.fields[i].value.Null?
    ensures forall interactive :: TryField(checks, obj, i, interactive, context) == FieldRun([], Some(NullReferenceException))
    ensures WalkFields(checks, obj, i, false, context) == Err(NullReferenceException)
    ensures WalkFields(checks, obj, i, true, context)
         == Then([LogEntry(NullReferenceException, LogTargetOf(obj))], WalkFields(checks, obj, i + 1, true, context))
  {
    assert Walk(checks, obj.fields[i].value, false, context) == Err(NullReferenceException);
    assert Walk(checks, obj.fields[i].value, true, context) == Err(NullReferenceException);
    assert TryField(checks, obj, i, false, context) == FieldRun([], Some(NullReferenceException));
    assert TryField(checks, obj, i, true, context) == FieldRun([], Some(NullReferenceException));
    assert [] + [LogEntry(NullReferenceException, LogTargetOf(obj))] == [LogEntry(NullReferenceException, LogTargetOf(obj))];
  }

  /** The nested walk of a `[CheckInside]` field runs before the field's own
      annotations: in interactive mode everything it logs comes first in what
      the walk logs from that field on, ahead of the entry for any of the
      field's own failures; and when it throws (automated mode), the field's
      own checks are not run at all. */
  lemma NestedWalkComesFirst(checks: Checks, obj: Value, i: nat, context: Context)
    requires obj.Ref? && i < |obj.fields| && |checks| > 0
    requires HasCheckInside(obj.fields[i])
    ensures var nested := Walk(checks, obj.fields[i].value, true, context);
            nested.Ok? ==>
              WalkFields(checks, obj, i, true, context).Ok?
              && nested.value <= WalkFields(checks, obj, i, true, context).value
    ensures var nested := Walk(checks, obj.fields[i].value, false, context);
            nested.Err? ==> WalkFields(checks, obj, i, false, context) == Err(nested.error)
  {
    InteractiveFieldsNeverThrow(checks, obj, i + 1, context);
  }

  /** The annotations of one field run in order up to the first one that
      raises; its exception is the field's, and the annotations after it are
      skipped. */
  lemma {:induction false} DispatchStopsAtFirstFailure(checks: Checks, obj: Value, field: Field,
      before: seq<Attribute>, failing: Attribute, after: seq<Attribute>, context: Context)
    requires obj.Ref?
    requires forall k :: 0 <= k < |before| ==> Passes(checks, obj, field, before[k], context)
    requires !Passes(checks, obj, field, failing, context)
    ensures Dispatch(checks, obj, field, before + [failing] + after, context)
         == RunCheck(checks[failing.Type()], obj, field, failing, context)
    decreases |before|
  {
    var all := before + [failing] + after;
    if before == [] {
      assert all[0] == failing;
    } else {
      assert all[0] == before[0];
      assert all[1..] == before[1..] + [failing] + after;
      DispatchStopsAtFirstFailure(checks, obj, field, before[1..], failing, after, context);
    }
  }

  /** A field's annotations raise nothing exactly when each of them passes
      on its own. */
  lemma {:induction false} DispatchPassesIffAllPass(checks: Checks, obj: Value, field: Field,
      attributes: seq<Attribute>, context: Context)
    requires obj.Ref?
    ensures Dispatch(checks, obj, field, attributes, context).None?
        <==> forall k :: 0 <= k < |attributes| ==> Passes(checks, obj, field, attributes[k], context)
    decreases |attributes|
  {
    if attributes != [] {
      DispatchPassesIffAllPass(checks, obj, field, attributes[1..], context);
      if Passes(checks, obj, field, attributes[0], context) {
        forall k | 0 <= k < |attributes[1..]|
          ensures attributes[1..][k] == attributes[k + 1]
        {
        }
        assert (forall k :: 0 <= k < |attributes| ==> Passes(checks, obj, field, attributes[k], context))
           <==> (forall k :: 0 <= k < |attributes[1..]| ==> Passes(checks, obj, field, attributes[1..][k], context));
      }
    }
  }

  /** An annotation whose type is not registered causes no check and no
      exception: removing it changes nothing. */
  lemma {:induction false} DispatchIgnoresUnregistered(checks: Checks, obj: Value, field: Field,
      before: seq<Attribute>, unregistered: Attribute, after: seq<Attribute>, context: Context)
    requires obj.Ref?
    requires unregistered.Type() !in checks
    ensures Dispatch(checks, obj, field, before + [unregistered] + after, context)
         == Dispatch(checks, obj, field, before + after, context)
    decreases |before|
  {
    var all := before + [unregistered] + after;
    if before == [] {
      assert all[0] == unregistered && all[1..] == after;
      assert before + after == after;
    } else {
      assert all[0] == before[0];
      assert all[1..] == before[1..] + [unregistered] + after;
      assert (before + after)[0] == before[0];
      assert (before + after)[1..] == before[1..] + after;
      DispatchIgnoresUnregistered(checks, obj, field, before[1..], unregistered, after, context);
    }
  }
}

/** `PerformChecks`: the recursive walk over an object's fields that runs the
    registered check of every annotation, with its two failure modes. */
module SanityChecker {
  import opened Values
  import opened Registry
  import NotNullCheck
  import NotNullOrEmptyCheck
  import GreaterThanCheck
  import LessThanCheck
  import LessThanOrEqualsCheck
  import NotNegativeCheck

  type Checks = map<AttributeType, Validator>

  /** The object `Debug.LogException` is given with an exception: the game
      object of a MonoBehaviour, any other Unity object itself, or none. */
  datatype LogTarget = GameObjectOf(component: Value) | UnityObjectTarget(obj: Value) | NoTarget

  /** One `Debug.LogException` call. */
  datatype LogEntry = LogEntry(exception: Exception, target: LogTarget)

  /** What one field's `try` block leaves behind: the entries logged by the
      nested walk of a `[CheckInside]` field, and the exception that left the
      block, if any. */
  datatype FieldRun = FieldRun(log: seq<LogEntry>, thrown: Option<Exception>)

  function LogTargetOf(obj: Value): LogTarget {
    if obj.Ref? && obj.unity.UnityObject? then
      if obj.unity.isMonoBehaviour then GameObjectOf(obj) else UnityObjectTarget(obj)
    else
      NoTarget
  }

  /** `checks[attributeType].Check(obj, field, attribute, context)` */
  function RunCheck(v: Validator, obj: Value, field: Field, attribute: Attribute, context: Context): Option<Exception>
    requires obj.Ref?
  {
    match v
    case NotNullCheck => NotNullCheck.Check(obj, field, attribute, context)
    case NotNullOrEmptyCheck => NotNullOrEmptyCheck.Check(obj, field, attribute, context)
    case GreaterThanCheck => GreaterThanCheck.Check(obj, field, attribute, context)
    case LessThanCheck => LessThanCheck.Check(obj, field, attribute, context)
    case LessThanOrEqualsCheck => LessThanOrEqualsCheck.Check(obj, field, attribute, context)
    case NotNegativeCheck => NotNegativeCheck.Check(obj, field, attribute, context)
  }

  /** An annotation raises nothing: its type is not registered, or its check passes. */
  predicate Passes(checks: Checks, obj: Value, field: Field, attribute: Attribute, context: Context)
    requires obj.Ref?
  {
    attribute.Type() !in checks || RunCheck(checks[attribute.Type()], obj, field, attribute, context).None?
  }

  predicate HasCheckInside(field: Field) {
    CheckInside in field.attributes
  }

  /** The inner `foreach` over a field's annotations: the first exception a
      registered check raises, in annotation order; unregistered annotations
      are skipped. */
  function Dispatch(checks: Checks, obj: Value, field: Field, attributes: seq<Attribute>, context: Context)
    : Option<Exception>
    requires obj.Ref?
    decreases |attributes|
  {
    if attributes == [] then None
    else if Passes(checks, obj, field, attributes[0], context) then
      Dispatch(checks, obj, field, attributes[1..], context)
    else
      RunCheck(checks[attributes[0].Type()], obj, field, attributes[0], context)
  }

  /** Field `i`'s `try` block: first the nested walk of a `[CheckInside]`
      field, then, if that threw nothing, the field's own annotations. */
  function TryField(checks: Checks, obj: Value, i: nat, interactive: bool, context: Context): FieldRun
    requires obj.Ref? && i < |obj.fields|
    decreases obj, 0, 0
  {
    var field := obj.fields[i];
    var nested := if HasCheckInside(field) then Walk(checks, field.value, interactive, context) else Ok([]);
    match nested
    case Err(e) => FieldRun([], Some(e))
    case Ok(log) => FieldRun(log, Dispatch(checks, obj, field, field.attributes, context))
  }

  /** Entries logged before a walk that goes on as `rest`. */
  function Then(log: seq<LogEntry>, rest: Result<seq<LogEntry>, Exception>): Result<seq<LogEntry>, Exception> {
    match rest
    case Ok(more) => Ok(log + more)
    case Err(e) => Err(e)
  }

  lemma ThenEmpty(rest: Result<seq<LogEntry>, Exception>)
    ensures Then([], rest) == rest
  {
    if rest.Ok? {
      assert [] + rest.value == rest.value;
    }
  }

  lemma ThenThen(log: seq<LogEntry>, more: seq<LogEntry>, rest: Result<seq<LogEntry>, Exception>)
    ensures Then(log, Then(more, rest)) == Then(log + more, rest)
  {
    if rest.Ok? {
      assert log + (more + rest.value) == (log + more) + rest.value;
    }
  }

  /** The outer `foreach` from field `i` on: an exception leaving a field's
      block is rethrown in automated mode, and logged (after what the nested
      walk logged) in interactive mode, where the walk goes on. */
  function WalkFields(checks: Checks, obj: Value, i: nat, interactive: bool, context: Context)
    : Result<seq<LogEntry>, Exception>
    requires obj.Ref? && i <= |obj.fields|
    decreases obj, 1, |obj.fields| - i
  {
    if i == |obj.fields| then Ok([])
    else
      var run := TryField(checks, obj, i, interactive, context);
      match run.thrown
      case None => Then(run.log, WalkFields(checks, obj, i + 1, interactive, context))
      case Some(e) =>
        if !interactive then Err(e)
        else Then(run.log + [LogEntry(e, LogTargetOf(obj))], WalkFields(checks, obj, i + 1, interactive, context))
  }

  /** The walk of `PerformChecks(obj, interactive, context)`: the entries it
      logs, or the exception it throws. An empty registry throws before
      anything else; a null object throws when its type is asked for; strings
      and numbers have no annotated fields. */
  function Walk(checks: Checks, obj: Value, interactive: bool, context: Context): Result<seq<LogEntry>, Exception>
    decreases obj, 2, 0
  {
    if |checks| == 0 then Err(NoChecksLoadedException)
    else
      match obj
      case Null => Err(NullReferenceException)
      case Ref(_, _, _) => WalkFields(checks, obj, 0, interactive, context)
      case _ => Ok([])
  }

  /** `PerformChecks`, as the source runs it: a loop over the fields with a
      `try` block around each, a recursive call for `[CheckInside]` fields
      and an inner loop over the annotations. It computes `Walk`. */
  method PerformChecks(registry: CheckRegistry, obj: Value, interactiveMode: bool, context: Context)
    returns (r: Result<seq<LogEntry>, Exception>)
    ensures r == Walk(registry.checks, obj, interactiveMode, context)
    decreases obj
  {
    if |registry.checks| == 0 {
      return Err(NoChecksLoadedException);
    }
    if obj.Null? {
      return Err(NullReferenceException);
    }
    if !obj.Ref? {
      return Ok([]);
    }
    var fields := obj.fields;
    var log: seq<LogEntry> := [];
    var i := 0;
    ThenEmpty(WalkFields(registry.checks, obj, 0, interactiveMode, context));
    while i < |fields|
      invariant 0 <= i <= |fields|
      invariant Walk(registry.checks, obj, interactiveMode, context)
             == Then(log, WalkFields(registry.checks, obj, i, interactiveMode, context))
    {
      var field := fields[i];
      var nestedLog: seq<LogEntry> := [];
      var thrown: Option<Exception> := None;
      if CheckInside in field.attributes {
        var nested := PerformChecks(registry, field.value, interactiveMode, context);
        match nested
        case Err(e) => thrown := Some(e);
        case Ok(l) => nestedLog := l;
      }
      if thrown.None? {
        var j := 0;
        while j < |field.attributes| && thrown.None?
          invariant 0 <= j <= |field.attributes|
          invariant Dispatch(registry.checks, obj, field, field.attributes, context)
                 == if thrown.None? then Dispatch(registry.checks, obj, field, field.attributes[j..], context)
                    else thrown
        {
          var attribute := field.attributes[j];
          var attributeType := attribute.Type();
          if attributeType in registry.checks {
            thrown := RunCheck(registry.checks[attributeType], obj, field, attribute, context);
          }
          assert field.attributes[j..][1..] == field.attributes[j + 1..];
          j := j + 1;
        }
      }
      assert TryField(registry.checks, obj, i, interactiveMode, context) == FieldRun(nestedLog, thrown);
      if thrown.Some? {
        if !interactiveMode {
          return Err(thrown.value);
        }
        ThenThen(log, nestedLog + [LogEntry(thrown.value, LogTargetOf(obj))],
                 WalkFields(registry.checks, obj, i + 1, interactiveMode, context));
        log := log + (nestedLog + [LogEntry(thrown.value, LogTargetOf(obj))]);
      } else {
        ThenThen(log, nestedLog, WalkFields(registry.checks, obj, i + 1, interactiveMode, context));
        log := log + nestedLog;
      }
      i := i + 1;
    }
    assert log + [] == log;
    return Ok(log);
  }
}

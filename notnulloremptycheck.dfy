/** `NotNullOrEmptyCheck`: a string field must hold a non-empty string. */
module NotNullOrEmptyCheck {
  import opened Values
  import opened Registry

  /** Null is a value violation (tested before the type, so null never gives
      the type error); any other non-string is an InvalidOperationException;
      the empty string is a value violation; every non-empty string passes. */
  function Check(obj: Value, field: Field, attribute: Attribute, context: Context): (r: Option<Exception>)
    requires obj.Ref?
    ensures r.None? <==> field.value.Str? && field.value.s != ""
    ensures field.value.Null? ==>
      r == Some(InvalidValueException(Report(field.name, obj.typeName, MustNotBeNullString, context)))
    ensures !field.value.Null? && !field.value.Str? ==>
      r == Some(InvalidOperationException(Report(field.name, obj.typeName, NotAString, context)))
    ensures field.value.Str? && field.value.s == "" ==>
      r == Some(InvalidValueException(Report(field.name, obj.typeName, MustNotBeEmptyString, context)))
  {
    var val := field.value;
    if val.Null? then
      Some(InvalidValueException(Report(field.name, obj.typeName, MustNotBeNullString, context)))
    else if !val.Str? then
      Some(InvalidOperationException(Report(field.name, obj.typeName, NotAString, context)))
    else if val.s == "" then
      Some(InvalidValueException(Report(field.name, obj.typeName, MustNotBeEmptyString, context)))
    else
      None
  }

  /** Registers this check under `NotNullOrEmptyAttribute`. */
  method Init(registry: CheckRegistry)
    modifies registry
    ensures registry.checks == Registered(old(registry.checks), NotNullOrEmptyType, NotNullOrEmptyCheck)
  {
    registry.RegisterCheck(NotNullOrEmptyType, NotNullOrEmptyCheck);
  }
}

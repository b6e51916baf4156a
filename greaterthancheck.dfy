/** `GreaterThanCheck`: a number must be strictly greater than the attribute's value. */
module GreaterThanCheck {
  import opened Values
  import opened Registry

  /** A value that is not IConvertible (null included) is an
      InvalidOperationException. Otherwise the attribute is read as a
      `GreaterThanAttribute` (an InvalidCastException when the check was registered
      under another attribute type) and the value converted to a number (a
      FormatException for a string that is not one). The value then passes
      exactly when it is strictly greater than the bound, and otherwise is an
      InvalidValueException quoting the bound. */
  function Check(obj: Value, field: Field, attribute: Attribute, context: Context): (r: Option<Exception>)
    requires obj.Ref?
    ensures r.None? <==>
      (IsConvertible(field.value) && attribute.GreaterThan? && ToDouble(field.value).Some?
       && ToDouble(field.value).value > attribute.value)
    ensures !IsConvertible(field.value) ==>
      r == Some(InvalidOperationException(Report(field.name, obj.typeName, GreaterThanNotComparable, context)))
    ensures IsConvertible(field.value) && !attribute.GreaterThan? ==> r == Some(InvalidCastException)
    ensures (IsConvertible(field.value) && attribute.GreaterThan? && ToDouble(field.value).None?) ==>
      r == Some(FormatException)
    ensures (IsConvertible(field.value) && attribute.GreaterThan? && ToDouble(field.value).Some?
             && !(ToDouble(field.value).value > attribute.value)) ==>
      r == Some(InvalidValueException(Report(field.name, obj.typeName, MustBeGreaterThan(attribute.value), context)))
  {
    var val := field.value;
    if !IsConvertible(val) then
      Some(InvalidOperationException(Report(field.name, obj.typeName, GreaterThanNotComparable, context)))
    else if !attribute.GreaterThan? then
      Some(InvalidCastException)
    else
      var comparedValue := attribute.value;
      match ToDouble(val)
      case None => Some(FormatException)
      case Some(d) =>
        if !(d > comparedValue) then
          Some(InvalidValueException(Report(field.name, obj.typeName, MustBeGreaterThan(comparedValue), context)))
        else
          None
  }

  /** Registers this check under `GreaterThanAttribute`. */
  method Init(registry: CheckRegistry)
    modifies registry
    ensures registry.checks == Registered(old(registry.checks), GreaterThanType, GreaterThanCheck)
  {
    registry.RegisterCheck(GreaterThanType, GreaterThanCheck);
  }
}

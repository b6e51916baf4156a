/** `NotNegativeCheck`: a number must not be below zero. */
module NotNegativeCheck {
  import opened Values
  import opened Registry

  /** A value that is not IConvertible (null included) is an
      InvalidOperationException; one whose conversion throws is a
      FormatException; a converted value below zero is an
      InvalidValueException; zero and positive values pass. The attribute is
      never read. */
  function Check(obj: Value, field: Field, attribute: Attribute, context: Context): (r: Option<Exception>)
    requires obj.Ref?
    ensures r.None? <==> IsConvertible(field.value) && ToDouble(field.value).Some? && ToDouble(field.value).value >= 0.0
    ensures !IsConvertible(field.value) ==>
      r == Some(InvalidOperationException(Report(field.name, obj.typeName, NotNegativeNotComparable, context)))
    ensures IsConvertible(field.value) && ToDouble(field.value).None? ==> r == Some(FormatException)
    ensures IsConvertible(field.value) && ToDouble(field.value).Some? && ToDouble(field.value).value < 0.0 ==>
      r == Some(InvalidValueException(Report(field.name, obj.typeName, MustNotBeNegative, context)))
  {
    var val := field.value;
    if !IsConvertible(val) then
      Some(InvalidOperationException(Report(field.name, obj.typeName, NotNegativeNotComparable, context)))
    else
      match ToDouble(val)
      case None => Some(FormatException)
      case Some(d) =>
        if d < 0.0 then
          Some(InvalidValueException(Report(field.name, obj.typeName, MustNotBeNegative, context)))
        else
          None
  }

  /** The outcome does not depend on the attribute the check is invoked with. */
  lemma AttributeIgnored(obj: Value, field: Field, a1: Attribute, a2: Attribute, context: Context)
    requires obj.Ref?
    ensures Check(obj, field, a1, context) == Check(obj, field, a2, context)
  {
  }

  /** Registers this check under `NotNegativeAttribute`. */
  method Init(registry: CheckRegistry)
    modifies registry
    ensures registry.checks == Registered(old(registry.checks), NotNegativeType, NotNegativeCheck)
  {
    registry.RegisterCheck(NotNegativeType, NotNegativeCheck);
  }
}

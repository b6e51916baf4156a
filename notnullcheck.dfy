/** `NotNullCheck`: a reference must be assigned, and a Unity object must not
    have been destroyed. */
module NotNullCheck {
  import opened Values
  import opened Registry

  /** Fails exactly on a null reference and on a destroyed Unity object (a
      "pseudo-null" reference); both failures raise the same
      MissingReferenceException. Every other value, live Unity objects
      included, passes. The attribute is not consulted. */
  function Check(obj: Value, field: Field, attribute: Attribute, context: Context): (r: Option<Exception>)
    requires obj.Ref?
    ensures r.Some? <==> field.value.Null? || IsDestroyedUnityObject(field.value)
    ensures r.Some? ==> r.value == MissingReferenceException(Report(field.name, obj.typeName, MissingReference, context))
  {
    var val := field.value;
    var missing := MissingReferenceException(Report(field.name, obj.typeName, MissingReference, context));
    if !val.Null? && val.Ref? && val.unity.UnityObject? && !val.unity.alive then
      Some(missing)
    else if val.Null? then
      Some(missing)
    else
      None
  }

  /** Registers this check under JetBrains' `NotNullAttribute`. */
  method Init(registry: CheckRegistry)
    modifies registry
    ensures registry.checks == Registered(old(registry.checks), NotNullType, NotNullCheck)
  {
    registry.RegisterCheck(NotNullType, NotNullCheck);
  }
}

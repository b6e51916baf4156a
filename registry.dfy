/** The process-wide `checks` dictionary of the sanity checker: one check per
    attribute type, filled at editor load by every check's `Init`. */
module Registry {
  import opened Values

  /** The checks the plug-in ships, one per check class. */
  datatype Validator =
    | NotNullCheck
    | NotNullOrEmptyCheck
    | GreaterThanCheck
    | LessThanCheck
    | LessThanOrEqualsCheck
    | NotNegativeCheck

  /** The dictionary after `Remove(type)` then `Add(type, check)`: the type
      maps to the check and every other key is as before. */
  function Registered(checks: map<AttributeType, Validator>, t: AttributeType, check: Validator)
    : (r: map<AttributeType, Validator>)
    ensures t in r && r[t] == check
    ensures forall k :: k != t ==> (k in r <==> k in checks)
    ensures forall k :: k != t && k in checks ==> r[k] == checks[k]
  {
    (checks - {t})[t := check]
  }

  /** The dictionary grows only when the type was not yet registered. */
  lemma RegisteringDoesNotGrow(checks: map<AttributeType, Validator>, t: AttributeType, check: Validator)
    ensures |Registered(checks, t, check)| == if t in checks then |checks| else |checks| + 1
  {
    var removed := checks - {t};
    if t in checks {
      assert checks.Keys == removed.Keys + {t};
    } else {
      assert checks.Keys == removed.Keys;
    }
    assert Registered(checks, t, check).Keys == removed.Keys + {t};
  }

  /** `Remove` then `Add` is a plain map update. */
  lemma RegisteredIsUpdate(checks: map<AttributeType, Validator>, t: AttributeType, check: Validator)
    ensures Registered(checks, t, check) == checks[t := check]
  {
    var r := Registered(checks, t, check);
    assert r.Keys == checks[t := check].Keys;
  }

  /** Registering the same type twice: the second registration wins, and
      the first leaves no trace. */
  lemma LastRegistrationWins(checks: map<AttributeType, Validator>, t: AttributeType, first: Validator, second: Validator)
    ensures Registered(Registered(checks, t, first), t, second) == Registered(checks, t, second)
  {
    RegisteredIsUpdate(checks, t, first);
    RegisteredIsUpdate(checks[t := first], t, second);
    RegisteredIsUpdate(checks, t, second);
    assert checks[t := first][t := second] == checks[t := second];
  }

  /** Registrations of different types commute, so the order in which the
      editor runs the `Init` methods does not matter. */
  lemma RegistrationsCommute(checks: map<AttributeType, Validator>, t1: AttributeType, c1: Validator,
                             t2: AttributeType, c2: Validator)
    requires t1 != t2
    ensures Registered(Registered(checks, t1, c1), t2, c2) == Registered(Registered(checks, t2, c2), t1, c1)
  {
    RegisteredIsUpdate(checks, t1, c1);
    RegisteredIsUpdate(checks[t1 := c1], t2, c2);
    RegisteredIsUpdate(checks, t2, c2);
    RegisteredIsUpdate(checks[t2 := c2], t1, c1);
    assert checks[t1 := c1][t2 := c2] == checks[t2 := c2][t1 := c1];
  }

  class CheckRegistry {
    var checks: map<AttributeType, Validator>

    /** The dictionary starts empty. */
    constructor ()
      ensures checks == map[]
    {
      checks := map[];
    }

    /** `RegisterCheck<T>(check)`: removes any check for `T`, then adds the
        new one. `Dictionary.Add` throws on a key that is present; the
        preceding `Remove` makes sure it never is. */
    method RegisterCheck(t: AttributeType, check: Validator)
      modifies this
      ensures checks == Registered(old(checks), t, check)
    {
      checks := checks - {t};
      assert t !in checks;
      checks := checks[t := check];
    }
  }
}

/** What the editor does at load: every check's `[InitializeOnLoadMethod]`
    `Init` registers it. */
module Startup {
  import opened Values
  import opened Registry
  import NotNullCheck
  import NotNullOrEmptyCheck
  import GreaterThanCheck
  import LessThanCheck
  import LessThanOrEqualsCheck
  import NotNegativeCheck

  /** The six checks under the attribute types their `Init` methods name. */
  function DefaultChecks(): map<AttributeType, Validator> {
    map[NotNullType := NotNullCheck, NotNullOrEmptyType := NotNullOrEmptyCheck,
        GreaterThanType := GreaterThanCheck, LessThanType := LessThanCheck,
        LessThanOrEqualsType := LessThanOrEqualsCheck, NotNegativeType := NotNegativeCheck]
  }

  /** The loaded registry has six entries; `[GreaterThanOrEquals]` and
      `[CheckInside]` have no check, so a walk passes over them. */
  lemma DefaultChecksShape()
    ensures |DefaultChecks()| == 6
    ensures GreaterThanOrEqualsType !in DefaultChecks() && CheckInsideType !in DefaultChecks()
    ensures forall name :: OtherType(name) !in DefaultChecks()
  {
    var keys := {NotNullType, NotNullOrEmptyType, GreaterThanType, LessThanType, LessThanOrEqualsType, NotNegativeType};
    assert DefaultChecks().Keys == keys;
  }

  /** Runs every `Init`. Whatever the registry held, afterwards the six
      shipped types map to their checks and every other entry is kept. */
  method LoadChecks(registry: CheckRegistry)
    modifies registry
    ensures registry.checks == old(registry.checks) + DefaultChecks()
  {
    ghost var m0 := registry.checks;
    NotNullCheck.Init(registry);
    RegisteredIsUpdate(m0, NotNullType, NotNullCheck);
    ghost var m1 := registry.checks;
    NotNullOrEmptyCheck.Init(registry);
    RegisteredIsUpdate(m1, NotNullOrEmptyType, NotNullOrEmptyCheck);
    ghost var m2 := registry.checks;
    GreaterThanCheck.Init(registry);
    RegisteredIsUpdate(m2, GreaterThanType, GreaterThanCheck);
    ghost var m3 := registry.checks;
    LessThanCheck.Init(registry);
    RegisteredIsUpdate(m3, LessThanType, LessThanCheck);
    ghost var m4 := registry.checks;
    LessThanOrEqualsCheck.Init(registry);
    RegisteredIsUpdate(m4, LessThanOrEqualsType, LessThanOrEqualsCheck);
    ghost var m5 := registry.checks;
    NotNegativeCheck.Init(registry);
    RegisteredIsUpdate(m5, NotNegativeType, NotNegativeCheck);
    LoadedIsUnion(m0);
  }

  lemma LoadedIsUnion(m: map<AttributeType, Validator>)
    ensures m[NotNullType := NotNullCheck][NotNullOrEmptyType := NotNullOrEmptyCheck]
             [GreaterThanType := GreaterThanCheck][LessThanType := LessThanCheck]
             [LessThanOrEqualsType := LessThanOrEqualsCheck][NotNegativeType := NotNegativeCheck]
         == m + DefaultChecks()
  {
    var a := m[NotNullType := NotNullCheck][NotNullOrEmptyType := NotNullOrEmptyCheck]
             [GreaterThanType := GreaterThanCheck][LessThanType := LessThanCheck]
             [LessThanOrEqualsType := LessThanOrEqualsCheck][NotNegativeType := NotNegativeCheck];
    var b := m + DefaultChecks();
    assert a.Keys == b.Keys;
    forall k | k in a
      ensures a[k] == b[k]
    {
    }
  }
}

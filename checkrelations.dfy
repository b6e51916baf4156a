/** How the shipped checks relate to one another: the bound checks are
    complementary or nested exactly as their comparisons are, and they agree
    on which values are type errors. */
module CheckRelations {
  import opened Values
  import NotNullCheck
  import NotNullOrEmptyCheck
  import GreaterThanCheck
  import LessThanCheck
  import LessThanOrEqualsCheck
  import NotNegativeCheck

  /** A value the bound checks can compare: IConvertible, and converting it
      does not throw. */
  predicate IsNumber(v: Value) {
    IsConvertible(v) && ToDouble(v).Some?
  }

  /** Whatever passes `[LessThan(b)]` passes `[LessThanOrEquals(b)]`. */
  lemma StrictBoundImpliesNonStrict(obj: Value, field: Field, b: real, context: Context)
    requires obj.Ref?
    ensures LessThanCheck.Check(obj, field, LessThan(b), context).None?
        ==> LessThanOrEqualsCheck.Check(obj, field, LessThanOrEquals(b), context).None?
  {
  }

  /** On a number, exactly one of `[GreaterThan(b)]` and
      `[LessThanOrEquals(b)]` passes, and the other is a value violation. */
  lemma GreaterThanComplementsLessThanOrEquals(obj: Value, field: Field, b: real, context: Context)
    requires obj.Ref? && IsNumber(field.value)
    ensures GreaterThanCheck.Check(obj, field, GreaterThan(b), context).None?
        <==> LessThanOrEqualsCheck.Check(obj, field, LessThanOrEquals(b), context).Some?
    ensures GreaterThanCheck.Check(obj, field, GreaterThan(b), context).Some?
        ==> GreaterThanCheck.Check(obj, field, GreaterThan(b), context).value.IsValueViolation()
    ensures LessThanOrEqualsCheck.Check(obj, field, LessThanOrEquals(b), context).Some?
        ==> LessThanOrEqualsCheck.Check(obj, field, LessThanOrEquals(b), context).value.IsValueViolation()
  {
  }

  /** On a number, `[NotNegative]` fails exactly when `[LessThan(0)]` passes. */
  lemma NotNegativeMirrorsLessThanZero(obj: Value, field: Field, a: Attribute, context: Context)
    requires obj.Ref? && IsNumber(field.value)
    ensures NotNegativeCheck.Check(obj, field, a, context).Some?
        <==> LessThanCheck.Check(obj, field, LessThan(0.0), context).None?
  {
  }

  /** A value equal to the bound fails both strict checks, with a value
      violation that names the bound, and passes the non-strict one. */
  lemma ValueAtBound(obj: Value, field: Field, b: real, context: Context)
    requires obj.Ref? && field.value == Num(b)
    ensures GreaterThanCheck.Check(obj, field, GreaterThan(b), context)
         == Some(InvalidValueException(Report(field.name, obj.typeName, MustBeGreaterThan(b), context)))
    ensures LessThanCheck.Check(obj, field, LessThan(b), context)
         == Some(InvalidValueException(Report(field.name, obj.typeName, MustBeLessThan(b), context)))
    ensures LessThanOrEqualsCheck.Check(obj, field, LessThanOrEquals(b), context).None?
  {
  }

  /** An outcome that is the checks' type error. */
  predicate IsTypeError(r: Option<Exception>) {
    r.Some? && r.value.InvalidOperationException?
  }

  /** The four numeric checks call exactly the same values type errors: those
      that are not IConvertible, null included. */
  lemma NumericChecksAgreeOnTypeErrors(obj: Value, field: Field, a: Attribute, context: Context)
    requires obj.Ref?
    ensures IsTypeError(GreaterThanCheck.Check(obj, field, a, context)) <==> !IsConvertible(field.value)
    ensures IsTypeError(LessThanCheck.Check(obj, field, a, context)) <==> !IsConvertible(field.value)
    ensures IsTypeError(LessThanOrEqualsCheck.Check(obj, field, a, context)) <==> !IsConvertible(field.value)
    ensures IsTypeError(NotNegativeCheck.Check(obj, field, a, context)) <==> !IsConvertible(field.value)
  {
  }

  /** A field that passes `[NotNullOrEmpty]` passes `[NotNull]`. */
  lemma NotNullOrEmptyImpliesNotNull(obj: Value, field: Field, a: Attribute, context: Context)
    requires obj.Ref?
    ensures NotNullOrEmptyCheck.Check(obj, field, a, context).None? ==> NotNullCheck.Check(obj, field, a, context).None?
  {
  }
}

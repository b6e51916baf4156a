/** The data the sanity checker inspects: runtime values, reflected fields, the
    annotations on them, the contexts that are shown next to a failure, and the
    exceptions the checks raise. */
module Values {

  datatype Option<T> = None | Some(value: T)

  datatype Result<T, E> = Ok(value: T) | Err(error: E)

  /** The runtime type of an annotation: the key of the check registry. */
  datatype AttributeType =
    | NotNullType
    | NotNullOrEmptyType
    | GreaterThanType
    | GreaterThanOrEqualsType
    | LessThanType
    | LessThanOrEqualsType
    | NotNegativeType
    | CheckInsideType
    | OtherType(fullName: string)

  /** An annotation attached to a field. The bound annotations hold one
      `double Value`, modelled as a real. `NotNull` is the JetBrains
      annotation, not one of the plug-in's own. `OtherAttribute` is any
      annotation the checker knows nothing about (`SerializeField`, say). */
  datatype Attribute =
    | NotNull
    | NotNullOrEmpty
    | GreaterThan(value: real)
    | GreaterThanOrEquals(value: real)
    | LessThan(value: real)
    | LessThanOrEquals(value: real)
    | NotNegative
    | CheckInside
    | OtherAttribute(fullName: string)
  {
    /** `attribute.GetType()` */
    function Type(): AttributeType {
      match this
      case NotNull => NotNullType
      case NotNullOrEmpty => NotNullOrEmptyType
      case GreaterThan(_) => GreaterThanType
      case GreaterThanOrEquals(_) => GreaterThanOrEqualsType
      case LessThan(_) => LessThanType
      case LessThanOrEquals(_) => LessThanOrEqualsType
      case NotNegative => NotNegativeType
      case CheckInside => CheckInsideType
      case OtherAttribute(name) => OtherType(name)
    }
  }

  /** Whether a reference is a Unity object, and if so whether it is still
      alive (a destroyed Unity object compares equal to null although the
      reference itself is not null) and whether it is a MonoBehaviour. */
  datatype UnityKind = Managed | UnityObject(alive: bool, isMonoBehaviour: bool)

  /** The runtime value of a field.
      - `Str`: a string. Strings are IConvertible; what `Convert.ToDouble`
        makes of the text is library behaviour and is carried with the value
        (`None` when the conversion throws a FormatException).
      - `Num`: any other IConvertible value the checks can compare (the
        integer and floating-point types, bool), as its `Convert.ToDouble`.
      - `Ref`: an instance that is not IConvertible, with its runtime type's
        full name and its instance fields in reflection order. */
  datatype Value =
    | Null
    | Str(s: string, asDouble: Option<real>)
    | Num(x: real)
    | Ref(typeName: string, unity: UnityKind, fields: seq<Field>)

  /** A reflected instance field: its name, its current value and its
      custom attributes in declaration order. */
  datatype Field = Field(name: string, value: Value, attributes: seq<Attribute>)

  /** `val is IConvertible` */
  predicate IsConvertible(v: Value) {
    v.Str? || v.Num?
  }

  /** `Convert.ToDouble(val)` on an IConvertible value; `None` means it throws. */
  function ToDouble(v: Value): Option<real>
    requires IsConvertible(v)
  {
    if v.Num? then Some(v.x) else v.asDouble
  }

  /** A destroyed Unity object: not a null reference, but equal to null under
      Unity's overloaded comparison. */
  predicate IsDestroyedUnityObject(v: Value) {
    v.Ref? && v.unity.UnityObject? && !v.unity.alive
  }

  /** A game object in a hierarchy: its name and the game object of its
      transform's parent, if any. */
  datatype GameObject = GameObject(name: string, parent: Option<GameObject>)

  /** Unity's classification of a game object with respect to prefabs. */
  datatype PrefabType =
    | NoPrefab
    | Prefab
    | ModelPrefab
    | PrefabInstance
    | ModelPrefabInstance
    | MissingPrefabInstance
    | DisconnectedPrefabInstance
    | DisconnectedModelPrefabInstance

  /** The context object handed to a walk and shown next to every failure.
      For a game object the editor's answers about it (its prefab type, the
      path of its scene, its asset path and that of the prefab it is linked
      to) are given as data. `OtherContext` is any other non-null object,
      carried as what its `ToString` returns. */
  datatype Context =
    | NoContext
    | GameObjectContext(go: GameObject, prefabType: PrefabType, scenePath: string,
                        assetPath: string, prefabParentPath: string)
    | ScriptableObjectContext
    | OtherContext(text: string)

  /** Which rule a check found broken; each has one fixed message text. */
  datatype Rule =
    | MissingReference
    | MustNotBeNullString
    | NotAString
    | MustNotBeEmptyString
    | GreaterThanNotComparable
    | LessThanNotComparable
    | LessThanOrEqualsNotComparable
    | NotNegativeNotComparable
    | MustBeGreaterThan(bound: real)
    | MustBeLessThan(bound: real)
    | MustBeLessThanOrEqualTo(bound: real)
    | MustNotBeNegative

  /** The arguments of one `CreateExceptionMessage` call: the field's name,
      the full name of the offending object's type, the rule and the context. */
  datatype Report = Report(field: string, owner: string, rule: Rule, context: Context)

  /** The exceptions a walk can raise. */
  datatype Exception =
    | InvalidValueException(report: Report)
    | InvalidOperationException(report: Report)
    | MissingReferenceException(report: Report)
    | InvalidCastException
    | FormatException
    | NullReferenceException
    | NoChecksLoadedException
  {
    /** A value that breaks its constraint, as opposed to a misuse of a check. */
    predicate IsValueViolation() {
      InvalidValueException? || MissingReferenceException?
    }
  }
}

/** The texts of the checker's exceptions: `CreateExceptionMessage` and the
    hierarchy path of a game object it shows. */
module Messages {
  import opened Values

  /** `Environment.NewLine`, as `StringBuilder.AppendLine` writes it. */
  const NewLine := "\n"

  /** What every exception message built for a field starts with, up to the
      field's name. */
  const Lead := "[SanityChecker] The field '"

  /** The message of the exception thrown when a walk starts on an empty registry. */
  const NoChecksLoadedMessage :=
    "[SanityChecker] No checks were loaded. You might have to restart the Unity editor to fix this."

  /** The first line of a message: which field, on which type, broke which rule. */
  function Header(fieldName: string, typeName: string, message: string): string {
    Lead + fieldName + "' on '" + typeName + "' " + message
  }

  /** The names of the game objects from the root of the hierarchy down to `go`. */
  function Ancestry(go: GameObject): (names: seq<string>)
    decreases go
  {
    match go.parent
    case None => [go.name]
    case Some(parent) => Ancestry(parent) + [go.name]
  }

  /** Every name preceded by a slash. */
  function JoinPath(names: seq<string>): string {
    if names == [] then "" else "/" + names[0] + JoinPath(names[1..])
  }

  /** `GetGameObjectPath`: the path of a game object in its hierarchy, built by
      recursion on the parent. It always starts with a slash and always ends
      with a slash and the object's own name. */
  function GameObjectPath(go: GameObject): (p: string)
    decreases go
    ensures |p| > |go.name| && p[|p| - |go.name| - 1..] == "/" + go.name
    ensures p[0] == '/'
  {
    match go.parent
    case None => "/" + go.name
    case Some(parent) => GameObjectPath(parent) + ("/" + go.name)
  }

  lemma {:induction false} JoinPathAppend(names: seq<string>, name: string)
    ensures JoinPath(names + [name]) == JoinPath(names) + "/" + name
  {
    if names == [] {
      assert names + [name] == [name];
    } else {
      assert (names + [name])[1..] == names[1..] + [name];
      JoinPathAppend(names[1..], name);
    }
  }

  /** The recursive path is the slash-joined chain of names from the root. */
  lemma {:induction false} PathJoinsAncestry(go: GameObject)
    ensures GameObjectPath(go) == JoinPath(Ancestry(go))
    decreases go
  {
    match go.parent
    case None =>
      assert JoinPath([go.name]) == "/" + go.name + JoinPath([]);
    case Some(parent) =>
      PathJoinsAncestry(parent);
      JoinPathAppend(Ancestry(parent), go.name);
  }

  /** How the scene of a game object is named in a message. */
  function SceneDescription(scenePath: string): string {
    if scenePath != "" then "Scene '<i>" + scenePath + "</i>' " else "your currently unsaved scene"
  }

  /** The second line of a message whose context is a game object. */
  function Location(context: Context): string
    requires context.GameObjectContext?
  {
    var inScene := "The offending object is located inside " + SceneDescription(context.scenePath)
      + " at the following path: <b>" + GameObjectPath(context.go) + "</b>";
    match context.prefabType
    case NoPrefab => inScene
    case MissingPrefabInstance => inScene
    case DisconnectedPrefabInstance => inScene
    case Prefab => "The offending prefab is located at: <b>" + context.assetPath + "</b>"
    case PrefabInstance =>
      inScene + ". " + "The prefab this object is linked to is located at: <b>" + context.prefabParentPath + "</b>"
    case _ => ""
  }

  /** `CreateExceptionMessage`. The message always starts with the header;
      it is exactly the header when, and only when, there is no context;
      otherwise a new line follows, then where the object lives (game object),
      nothing (scriptable object) or "Context: " and the context's text. */
  function CreateExceptionMessage(fieldName: string, typeName: string, message: string, context: Context): (m: string)
    ensures Header(fieldName, typeName, message) <= m
    ensures m[|Lead|..|Lead| + |fieldName|] == fieldName
    ensures m == Header(fieldName, typeName, message) <==> context.NoContext?
    ensures context.OtherContext? ==>
      m[|Header(fieldName, typeName, message)|..] == NewLine + "Context: " + context.text
    ensures context.ScriptableObjectContext? ==>
      m[|Header(fieldName, typeName, message)|..] == NewLine
    ensures context.GameObjectContext? ==>
      m[|Header(fieldName, typeName, message)|..] == NewLine + Location(context)
  {
    var header := Header(fieldName, typeName, message);
    assert header[|Lead|..|Lead| + |fieldName|] == fieldName;
    match context
    case NoContext => header
    case GameObjectContext(_, _, _, _, _) => header + NewLine + Location(context)
    case ScriptableObjectContext => header + NewLine
    case OtherContext(text) => header + NewLine + "Context: " + text
  }

  /** The text a check passes to `CreateExceptionMessage` for a rule; the
      formatting of a bound (`double.ToString`) is given as a parameter. */
  function RuleText(rule: Rule, formatNumber: real -> string): string {
    match rule
    case MissingReference => "is missing a reference. Please assign it in the editor."
    case MustNotBeNullString => "must not be null. Please assign a value to the string."
    case NotAString => "is not a string."
    case MustNotBeEmptyString => "must not be empty. Please assign a value to the string."
    case GreaterThanNotComparable =>
      "is required to be greater than a given value but its type cannot be compared to numbers."
    case LessThanNotComparable =>
      "is required to be less than a given value but its type cannot be compared to numbers."
    case LessThanOrEqualsNotComparable =>
      "is required to be less than or equal to given value but its type cannot be compared to numbers."
    case NotNegativeNotComparable =>
      "is required to be non-negative but its type cannot be compared to numbers."
    case MustBeGreaterThan(b) => "must be greater than " + formatNumber(b) + "."
    case MustBeLessThan(b) => "must be less than " + formatNumber(b) + "."
    case MustBeLessThanOrEqualTo(b) => "must be less than or equal to " + formatNumber(b) + "."
    case MustNotBeNegative => "must not be negative."
  }

  /** The message of an exception that a check raises for a report. */
  function Text(report: Report, formatNumber: real -> string): string {
    CreateExceptionMessage(report.field, report.owner, RuleText(report.rule, formatNumber), report.context)
  }

  /** The bound of a rule that compares against one. */
  function BoundOf(rule: Rule): Option<real> {
    match rule
    case MustBeGreaterThan(b) => Some(b)
    case MustBeLessThan(b) => Some(b)
    case MustBeLessThanOrEqualTo(b) => Some(b)
    case _ => None
  }

  /** A bound violation's message quotes the bound, formatted, right before
      the full stop that ends the rule. */
  lemma ThresholdInMessage(report: Report, formatNumber: real -> string)
    requires BoundOf(report.rule).Some?
    ensures var m := Text(report, formatNumber);
            var rule := RuleText(report.rule, formatNumber);
            var at := |Header(report.field, report.owner, rule)| - 1 - |formatNumber(BoundOf(report.rule).value)|;
            0 <= at && m[at..at + |formatNumber(BoundOf(report.rule).value)|] == formatNumber(BoundOf(report.rule).value)
  {
    var f := formatNumber(BoundOf(report.rule).value);
    var rule := RuleText(report.rule, formatNumber);
    var header := Header(report.field, report.owner, rule);
    var m := Text(report, formatNumber);
    var pre := Lead + report.field + "' on '" + report.owner + "' ";
    var phrase := match report.rule
      case MustBeGreaterThan(_) => "must be greater than "
      case MustBeLessThan(_) => "must be less than "
      case _ => "must be less than or equal to ";
    assert rule == phrase + f + ".";
    assert header == (pre + phrase) + f + ".";
    var at := |pre + phrase|;
    assert header[at..at + |f|] == f;
    assert header <= m;
  }
}

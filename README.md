# Sanity Checker rule engine, in Dafny

This project models the rule engine at the heart of the SkaillZ Sanity Checker, a Unity editor plug-in. The engine checks the fields of components for declarative annotations (`[NotNull]`, `[NotNullOrEmpty]`, `[GreaterThan(v)]`, `[LessThan(v)]`, `[LessThanOrEquals(v)]`, `[NotNegative]`, `[CheckInside]`) and reports the fields that break them. It has three parts:

- **The check registry.** A process-wide dictionary from annotation type to check. Every check's `[InitializeOnLoadMethod] Init` fills it, and `RegisterCheck` replaces an existing entry (`registry.dfy`, `startup.dfy`).
- **The checks.** Each one decides, from a field's runtime value, between three outcomes: pass, a value violation, or a type error. A few further exceptions come from the runtime itself: a failed attribute cast and a failed string conversion. There is one module per check class (`notnullcheck.dfy`, `notnulloremptycheck.dfy`, `greaterthancheck.dfy`, `lessthancheck.dfy`, `lessthanorequalscheck.dfy`, `notnegativecheck.dfy`). `checkrelations.dfy` proves how the checks relate to each other.
- **The walk, `PerformChecks`.** For each field it:
  1. descends into `[CheckInside]` fields;
  2. runs the registered check of every annotation and skips annotations whose type is not registered;
  3. on failure, either rethrows (automated mode) or logs the exception and moves on to the next field (interactive mode).

  `sanitychecker.dfy` holds two versions of it. `Walk`, `WalkFields`, `TryField` and `Dispatch` are a recursive specification. `PerformChecks` is the imperative method: a loop over the fields with a recursive call and an inner loop over the annotations, proved to compute `Walk`. `walkproperties.dfy` proves what the walk guarantees. `sample.dfy` runs it on the plug-in's example component.

The message builder `CreateExceptionMessage` and the hierarchy path `GetGameObjectPath` are in `messages.dfy`.

Values are a datatype (`values.dfy`) with four cases:
- `Null`;
- `Str`, a string;
- `Num`, any other IConvertible, held as its `Convert.ToDouble`;
- `Ref`, an object that is not IConvertible, with its type name, whether it is a live or destroyed Unity object, and its fields in reflection order.

Each field carries its value and its annotations in declaration order. The editor's own answers appear as data: what `Convert.ToDouble` makes of a string, and a game object's prefab type, scene path and asset paths. Exceptions carry a tagged report (field, owner type, broken rule, context), which `Messages.Text` renders with a number formatter given as a parameter. `Debug.LogException` becomes a log entry: the exception plus the object it is logged against.

The model follows the code in four places where a design-level reading of the engine might expect otherwise:
- A `[CheckInside]` field holding null is not skipped. The nested call dereferences null, and the enclosing field's `catch` handles the resulting exception, so that field's other annotations never run (`WalkProperties.NullCheckInsideField`).
- An annotation whose type has no registered check is ignored silently. It is not an error (`WalkProperties.DispatchIgnoresUnregistered`).
- Interactive mode does not collect a report. It logs each exception, one per field at most besides those of nested walks.
- Type errors (InvalidOperationException) are handled exactly like value violations: rethrown or logged.

## Model

| member | source | states |
|---|---|---|
| Messages.GameObjectPath | Assets/Plugins/SkaillZ/SanityChecker/Editor/SanityChecker.cs:358-362 | the path starts with a slash and ends with a slash and the object's own name |
| Messages.PathJoinsAncestry | Assets/Plugins/SkaillZ/SanityChecker/Editor/SanityChecker.cs:358-362 | the recursive path equals the names from the root down to the object, each preceded by a slash |
| Messages.CreateExceptionMessage | Assets/Plugins/SkaillZ/SanityChecker/Editor/SanityChecker.cs:311-356 | the message starts with "[SanityChecker] The field '<name>' on '<type>' <message>"; it is exactly that header if and only if the context is null; otherwise a new line follows, then the location (game object), nothing (scriptable object) or "Context: " and the context's text |
| Messages.ThresholdInMessage | Assets/Plugins/SkaillZ/SanityChecker/Editor/Checks/GreaterThanCheck.cs:25-26 | the message of a bound violation quotes the formatted bound just before the final full stop of the rule |
| Registry.Registered | Assets/Plugins/SkaillZ/SanityChecker/Editor/SanityChecker.cs:266-270 | after Remove then Add, the type maps to the new check and every other entry is unchanged |
| Registry.RegisteringDoesNotGrow | Assets/Plugins/SkaillZ/SanityChecker/Editor/SanityChecker.cs:268-269 | the dictionary grows by one only when the type was not registered yet; re-registration keeps its size |
| Registry.RegisteredIsUpdate | Assets/Plugins/SkaillZ/SanityChecker/Editor/SanityChecker.cs:268-269 | Remove followed by Add is a plain map update |
| Registry.LastRegistrationWins | Assets/Plugins/SkaillZ/SanityChecker/Editor/SanityChecker.cs:266-270 | registering a type twice leaves only the second check, as if the first had never been registered |
| Registry.RegistrationsCommute | Assets/Plugins/SkaillZ/SanityChecker/Editor/SanityChecker.cs:266-270 | registrations of different types commute, so the order the editor runs the Init methods in is irrelevant |
| Registry.CheckRegistry.constructor | Assets/Plugins/SkaillZ/SanityChecker/Editor/SanityChecker.cs:19 | the registry starts empty |
| Registry.CheckRegistry.RegisterCheck | Assets/Plugins/SkaillZ/SanityChecker/Editor/SanityChecker.cs:266-270 | the new dictionary is the old one with the type registered; the Add after the Remove never meets the key |
| NotNullCheck.Check | Assets/Plugins/SkaillZ/SanityChecker/Editor/Checks/NotNullCheck.cs:17-28 | fails exactly on null and on a destroyed Unity object, both times with the same MissingReferenceException; live Unity objects and every other value pass |
| NotNullCheck.Init | Assets/Plugins/SkaillZ/SanityChecker/Editor/Checks/NotNullCheck.cs:11-15 | registers the check under JetBrains' NotNull attribute type |
| NotNullOrEmptyCheck.Check | Assets/Plugins/SkaillZ/SanityChecker/Editor/Checks/NotNullOrEmptyCheck.cs:16-30 | passes exactly on a non-empty string; null gives the "must not be null" value violation (never the type error), any other non-string gives the "is not a string." InvalidOperationException, and the empty string gives the "must not be empty" value violation |
| NotNullOrEmptyCheck.Init | Assets/Plugins/SkaillZ/SanityChecker/Editor/Checks/NotNullOrEmptyCheck.cs:10-14 | registers the check under NotNullOrEmptyAttribute |
| GreaterThanCheck.Check | Assets/Plugins/SkaillZ/SanityChecker/Editor/Checks/GreaterThanCheck.cs:16-27 | passes exactly when the value is IConvertible, the attribute is a GreaterThan one, the value converts and it is strictly greater than the bound; a non-convertible value (null too) is the type error; a foreign attribute gives a cast failure; an unconvertible string gives a format failure; any other value is a violation naming the bound |
| GreaterThanCheck.Init | Assets/Plugins/SkaillZ/SanityChecker/Editor/Checks/GreaterThanCheck.cs:10-14 | registers the check under GreaterThanAttribute |
| LessThanCheck.Check | Assets/Plugins/SkaillZ/SanityChecker/Editor/Checks/LessThanCheck.cs:16-27 | the same as GreaterThanCheck.Check with the comparison strictly less than |
| LessThanCheck.Init | Assets/Plugins/SkaillZ/SanityChecker/Editor/Checks/LessThanCheck.cs:10-14 | registers the check under LessThanAttribute |
| LessThanOrEqualsCheck.Check | Assets/Plugins/SkaillZ/SanityChecker/Editor/Checks/LessThanOrEqualsCheck.cs:16-27 | the same as GreaterThanCheck.Check with the comparison less than or equal; a value equal to the bound passes |
| LessThanOrEqualsCheck.Init | Assets/Plugins/SkaillZ/SanityChecker/Editor/Checks/LessThanOrEqualsCheck.cs:10-14 | registers the check under LessThanOrEqualsAttribute |
| NotNegativeCheck.Check | Assets/Plugins/SkaillZ/SanityChecker/Editor/Checks/NotNegativeCheck.cs:16-27 | a non-convertible value is the type error; an unconvertible string gives a format failure; a negative number gives "must not be negative"; zero and positive numbers pass |
| NotNegativeCheck.AttributeIgnored | Assets/Plugins/SkaillZ/SanityChecker/Editor/Checks/NotNegativeCheck.cs:16-25 | the outcome does not depend on the attribute argument |
| NotNegativeCheck.Init | Assets/Plugins/SkaillZ/SanityChecker/Editor/Checks/NotNegativeCheck.cs:10-14 | registers the check under NotNegativeAttribute |
| CheckRelations.StrictBoundImpliesNonStrict | Assets/Plugins/SkaillZ/SanityChecker/Editor/Checks/LessThanCheck.cs:23-24 | whatever passes LessThan(b) passes LessThanOrEquals(b) |
| CheckRelations.GreaterThanComplementsLessThanOrEquals | Assets/Plugins/SkaillZ/SanityChecker/Editor/Checks/GreaterThanCheck.cs:23-26 | on a number exactly one of GreaterThan(b) and LessThanOrEquals(b) passes, and the other is a value violation |
| CheckRelations.NotNegativeMirrorsLessThanZero | Assets/Plugins/SkaillZ/SanityChecker/Editor/Checks/NotNegativeCheck.cs:23-25 | on a number NotNegative fails exactly when LessThan(0) passes |
| CheckRelations.ValueAtBound | Assets/Plugins/SkaillZ/SanityChecker/Editor/Checks/GreaterThanCheck.cs:24-26 | a value equal to the bound fails GreaterThan and LessThan with a violation naming the bound, and passes LessThanOrEquals |
| CheckRelations.NumericChecksAgreeOnTypeErrors | Assets/Plugins/SkaillZ/SanityChecker/Editor/Checks/LessThanOrEqualsCheck.cs:19-21 | each of the four numeric checks raises the type error exactly on the values that are not IConvertible |
| CheckRelations.NotNullOrEmptyImpliesNotNull | Assets/Plugins/SkaillZ/SanityChecker/Editor/Checks/NotNullOrEmptyCheck.cs:19-29 | a field that passes NotNullOrEmpty passes NotNull |
| Startup.DefaultChecksShape | Assets/Plugins/SkaillZ/SanityChecker/Example/SampleScript.cs:17 | the loaded registry has six entries and none for GreaterThanOrEquals, CheckInside or foreign annotations, so a walk passes over those |
| Startup.LoadChecks | Assets/Plugins/SkaillZ/SanityChecker/Editor/Checks/NotNullCheck.cs:11-15 | running every Init keeps the existing entries and maps the six shipped annotation types to their checks |
| SanityChecker.PerformChecks | Assets/Plugins/SkaillZ/SanityChecker/Editor/SanityChecker.cs:220-264 | the field loop with its try/catch, recursive call and inner annotation loop computes exactly the recursive specification Walk |
| WalkProperties.FailFastThrowsFirstLogged | Assets/Plugins/SkaillZ/SanityChecker/Editor/SanityChecker.cs:247-262 | automated mode throws exactly the first exception interactive mode logs, nested or direct, and succeeds exactly when interactive mode logs nothing |
| WalkProperties.FailFastLogsNothing | Assets/Plugins/SkaillZ/SanityChecker/Editor/SanityChecker.cs:249-250 | automated mode never logs: it returns an empty log or throws |
| WalkProperties.InteractiveNeverThrows | Assets/Plugins/SkaillZ/SanityChecker/Editor/SanityChecker.cs:222-262 | in interactive mode a walk throws if and only if the registry is empty or the object is null |
| WalkProperties.EmptyRegistryThrows | Assets/Plugins/SkaillZ/SanityChecker/Editor/SanityChecker.cs:222-226 | with an empty registry a walk throws "no checks loaded" before reading any field, in both modes, null object included |
| WalkProperties.NullCheckInsideField | Assets/Plugins/SkaillZ/SanityChecker/Editor/SanityChecker.cs:228-250 | a CheckInside field holding null throws a NullReferenceException that the field's own catch handles, so its other annotations do not run; automated mode rethrows it and interactive mode logs it and goes on |
| WalkProperties.NestedWalkComesFirst | Assets/Plugins/SkaillZ/SanityChecker/Editor/SanityChecker.cs:233-243 | in interactive mode the nested walk's log entries come first among the entries logged from that field on; in automated mode a nested exception is the field's, before its own checks |
| WalkProperties.DispatchStopsAtFirstFailure | Assets/Plugins/SkaillZ/SanityChecker/Editor/SanityChecker.cs:238-250 | the annotations run in order up to the first one that raises; its exception is the field's and the later annotations are skipped |
| WalkProperties.DispatchPassesIffAllPass | Assets/Plugins/SkaillZ/SanityChecker/Editor/SanityChecker.cs:238-245 | a field's annotations raise nothing exactly when each of them passes (or is unregistered) on its own |
| WalkProperties.DispatchIgnoresUnregistered | Assets/Plugins/SkaillZ/SanityChecker/Editor/SanityChecker.cs:238-244 | an annotation whose type is not a registry key causes no check and no exception: removing it changes nothing |
| Sample.UnassignedTestClass | Assets/Plugins/SkaillZ/SanityChecker/Example/SampleScript.cs:22-26 | the nested TestClass with its reference unassigned logs one missing reference, against no Unity object |
| Sample.FreshSampleScript | Assets/Plugins/SkaillZ/SanityChecker/Example/SampleScript.cs:6-27 | a fresh SampleScript logs, in order, the missing obj, the nested missing obj2 and the empty z, while GreaterThanOrEquals is passed over; automated mode throws the first of these |
| Sample.NegativeNumberBesideString | Assets/Plugins/SkaillZ/SanityChecker/Editor/Checks/NotNegativeCheck.cs:16-27 | -1 under NotNegative beside "ok" under NotNullOrEmpty logs exactly one violation, for the number |
| Sample.DestroyedReference | Assets/Plugins/SkaillZ/SanityChecker/Editor/Checks/NotNullCheck.cs:20-23 | NotNull on a reference to a destroyed game object logs exactly one missing reference |

## Left out

- Editor integration is not modelled: menu items, dialogs, saving, opening and restoring scenes, finding prefabs through the asset database, and progress bars (SanityChecker.cs:21-218, 272-309). These are host I/O and UI. The host's answers that messages use are modelled as data.
- The user-interrupt flow (`UserInterruptedException`) is not modelled. It comes from the cancel button of a progress bar.
- Reflection is not modelled. `GetFields` and `GetCustomAttributes` become explicit lists of fields and annotations in declaration order. .NET does not promise that order, and the model does not cover annotation types derived from `CheckInsideAttribute`.
- Objects are finite trees. A cyclic `[CheckInside]` graph, on which the source recurses until the stack overflows, cannot be represented. Neither can two fields sharing one object; a shared object is walked once per path, as the source does.
- Numbers are reals: there is no NaN, infinity or rounding. The text of a number in a message (`double.ToString`) is a parameter of `Messages.RuleText`.
- `Convert.ToDouble` on a string is library behaviour. Its result is carried with the string value (`Str.asDouble`). IConvertible types whose conversion throws InvalidCastException (char, DateTime) are not modelled: `Num` holds only values that convert.
- The texts of runtime exceptions are not modelled: NullReferenceException, InvalidCastException and FormatException carry no message.
- `Environment.NewLine` is fixed to "\n".
- Messages.CreateExceptionMessage: the modelled `AppendLine` writes a new line, where the Windows editor writes "\r\n".
- The log target of a destroyed MonoBehaviour is recorded as its game object. The source reads `gameObject` of a destroyed component at that point, which Unity refuses.
- A check registered by user code is not modelled: the registry holds only the six shipped checks.
- The GreaterThanOrEquals check's implementation is not part of this model. Its attribute is carried, and the loaded registry has no entry for it.
- The attribute classes `NotNullOrEmptyAttribute`, `NotNegativeAttribute` and `CheckInsideAttribute` are not part of this model. They are taken to be parameterless markers.
- A check is always invoked in the model with a field of the object it inspects. The source's `field.GetValue(obj)` on a foreign object is not modelled.

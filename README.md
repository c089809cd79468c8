# IronVelocity core, modelled in Dafny

IronVelocity compiles Velocity templates to .NET expression trees and binds
template references to host objects at run time through the Dynamic Language
Runtime. This project models the decision logic at the heart of that
compiler and runtime binder, and proves properties of it:

- **Conversion and overload resolution** (`HostTypes`, `ReflectionHelper`,
  `Elimination`, `ArgumentConverter`). These cover the implicit-conversion oracle built on
  the numeric-widening table of section 6.1.2 of the C# 5.0 Language
  Specification (ECMA-334), method applicability, the better-function-member
  comparison, elimination of beaten candidates, and member lookup with its
  case-insensitive retry and string-indexer fallback. The host's type system
  is a table of types, subtype edges, primitive kinds and member signatures.
- **Call-site fallbacks** (`Binding`, `GetMemberBinder`,
  `InvokeMemberBinder`). Each one gives a deferral or a binding restricted to
  the target's runtime type. For invocation the binding carries the
  argument plan: the fixed arguments converted, a params array passed through
  or the trailing arguments packed, `""` for a void method and a boxed result.
  The argument array is filled slot by slot in a method over an `array`.
- **Directive lowering** (`SetDirective`, `ForeachDirective`,
  `UnrecognisedDirective`, `ForeachExpression`, `LegacyForeachExpression`). This covers
  the assignment decision tree with its null-suppressed store, the
  partitioning of a `#foreach` body into nine sections by marker directives,
  the save/loop/restore around the loop and the no-data path, and the two
  enumerator loops. The `src` loop is modelled as a method over an
  `Enumerator` object that advances in place.
- **Dictionary literals** (`DictionaryString`). The character state machine
  of `%{key=value, ...}` literals is modelled as a step function plus a loop over
  a character array that recurses into nested dictionaries. Quoting, escapes,
  brace counting and typed values are all modelled.
- **The hand-written parser** (`Tokens`, `VelocityParser`,
  `VelocityParserProperties`). A `Parser` class advances over a token
  sequence. Each parsing method is proved equal to a functional
  specification over token positions. The properties cover text coalescing,
  the reference grammar, number literals, lists and ranges, and the
  operator-precedence tree built by the grafting loop of
  `CompoundExpression`.
- **Tree translations** (`NVelocityAst`, `IfStatement`, `AntlrCompiler`,
  `DynamicInvoke`, `ExpressionTree`, `Strings`). These cover if/elseif/else chain
  folding (both the NVelocity-tree and the ANTLR-tree versions), the
  reference-chain fold, the operator visitors, `VisitMany`, custom directive
  dispatch and the dynamic-invoke argument array.

Each loop of the source that the model runs is a Dafny `method` with the
same loop, proved to compute a specification function. The source's
properties are proved about those functions as lemmas. The exception is
`ForeachDirective.Run`. The sectioned loop it reduces to, and the running of
each block, are parameters there. So for that directive only the lowering
around the loop is modelled: the no-data path, and the restoring of the item
and the index.

## Model

| member | source | states |
|---|---|---|
| ReflectionHelper.InterfaceTargetIsHostEdge | IronVelocity/Binders/ReflectionHelper.cs:282-300 | any type, a primitive, string or array type included, converts to an interface exactly when the host says it implements that interface |
| HostTypes.WideningIrreflexive | IronVelocity/Binders/ReflectionHelper.cs:22-33 | no type appears among its own widening targets, so the table only ever widens to a different type |
| ReflectionHelper.CanBeImplicitlyConvertedChecked | IronVelocity/Binders/ReflectionHelper.cs:282-300 | a null target type is an `ArgumentNullException` for `to` and nothing else is; a null source converts exactly to non-primitive targets; every type converts to itself |
| ReflectionHelper.CanBeImplicitlyConverted | IronVelocity/Binders/ReflectionHelper.cs:282-300 | every type converts to itself, and a primitive target is reached only from the same type or through the widening table |
| ReflectionHelper.NullConvertsExactlyToNonPrimitives | IronVelocity/Binders/ReflectionHelper.cs:289-290 | a null source type converts to a target if and only if the target is not primitive |
| ReflectionHelper.AssignableIsConvertible | IronVelocity/Binders/ReflectionHelper.cs:292-293 | every pair accepted by `IsAssignableFrom` converts, and conversion is reflexive |
| ReflectionHelper.ConversionOutsideAssignabilityIsTheTable | IronVelocity/Binders/ReflectionHelper.cs:295-299 | for a pair that is not assignable, conversion holds if and only if the pair is in the widening table |
| ReflectionHelper.PrimitiveTargetConversions | IronVelocity/Binders/ReflectionHelper.cs:282-300 | a primitive target is reached only from the same type or from a source that widens to it in the table |
| ReflectionHelper.IntWidensToLongOnly | IronVelocity/Binders/ReflectionHelper.cs:27-29 | `int` converts to `long` but `long` does not convert to `int` |
| ReflectionHelper.IsMethodApplicable | IronVelocity/Binders/ReflectionHelper.cs:234-274 | the loop with early returns decides exactly the applicability predicate: not generic, the argument count fits, and each argument is compatible with its parameter or with the params array |
| ReflectionHelper.GenericNeverApplicable | IronVelocity/Binders/ReflectionHelper.cs:243-244 | a generic method is applicable to no argument list |
| ReflectionHelper.ApplicableArity | IronVelocity/Binders/ReflectionHelper.cs:257-260 | without a params array the argument count equals the parameter count; with one it is at least the number of fixed parameters |
| ReflectionHelper.ExtraArgumentsFitParamsArray | IronVelocity/Binders/ReflectionHelper.cs:263-271 | an argument beyond the declared parameters is only accepted when there is a params array, and it must convert to its element type |
| ReflectionHelper.ExtraArrayArgumentAccepted | IronVelocity/Binders/ReflectionHelper.cs:265-269 | an extra argument that converts only to the params array type, not to its element type, is still accepted, because it is compared with the params parameter itself first |
| ReflectionHelper.MoreSpecificSomewhereIff | IronVelocity/Binders/ReflectionHelper.cs:204-214 | the accumulated flag is set exactly when some position has different types and the left one converts to the right one |
| ReflectionHelper.IsBetterFunctionMember | IronVelocity/Binders/ReflectionHelper.cs:191-225 | the method with its flag loop returns the specification comparison: more parameters is Better, fewer is Worse, and equal arity compares the positions that differ |
| ReflectionHelper.MoreParametersIsBetter | IronVelocity/Binders/ReflectionHelper.cs:196-199 | the member with more parameters is Better, and the other comparison order gives Worse |
| ReflectionHelper.Compare | IronVelocity/Binders/ReflectionHelper.cs:191-225 | a member with more parameters is Better, and two members are Incomparable only when they have as many parameters |
| ReflectionHelper.BetterIffReverseWorse | IronVelocity/Binders/ReflectionHelper.cs:191-225 | Better in one order holds exactly when Worse holds in the other, and Incomparable is symmetric |
| ReflectionHelper.EqualArityComparison | IronVelocity/Binders/ReflectionHelper.cs:201-221 | at equal arity the result is Better if and only if some differing position converts left to right and none converts right to left, Worse in the mirror case, and Incomparable otherwise |
| ReflectionHelper.IdenticalParametersIncomparable | IronVelocity/Binders/ReflectionHelper.cs:208-217 | identical parameter lists are Incomparable, because equal positions are skipped |
| ReflectionHelper.NoMemberBeatsItself | IronVelocity/Binders/ReflectionHelper.cs:208-217 | a member compared with itself is Incomparable |
| ReflectionHelper.GetBestFunctionMember | IronVelocity/Binders/ReflectionHelper.cs:147-189 | the nested loops that add to and remove from `best` compute the elimination result: the sole survivor, or an ambiguity |
| ReflectionHelper.CompareOnMirrors | IronVelocity/Binders/ReflectionHelper.cs:191-225 | the comparison used for elimination turns every Worse into Better when the arguments are swapped |
| ReflectionHelper.DominantCandidateWins | IronVelocity/Binders/ReflectionHelper.cs:147-189 | a candidate that is Better than every other candidate is the best function member, whatever the order of the candidates |
| ReflectionHelper.ApplicableCandidates | IronVelocity/Binders/ReflectionHelper.cs:132-135 | filtering keeps no more methods than it is given |
| ReflectionHelper.ApplicableCandidatesMembers | IronVelocity/Binders/ReflectionHelper.cs:132-135 | the candidates are exactly the methods whose name matches case-insensitively and that apply to the arguments |
| ReflectionHelper.ResolveMethod | IronVelocity/Binders/ReflectionHelper.cs:126-145 | the method returns the specification resolution: no method, the single candidate, or the elimination result |
| ReflectionHelper.Resolution | IronVelocity/Binders/ReflectionHelper.cs:126-145 | resolution fails only with an ambiguity among two or more applicable methods, and a single applicable method is the one resolved |
| ReflectionHelper.ResolutionNoneIffNothingApplicable | IronVelocity/Binders/ReflectionHelper.cs:138-142 | resolution gives no method exactly when no method of that name is applicable |
| ReflectionHelper.ResolvedMethodIsApplicable | IronVelocity/Binders/ReflectionHelper.cs:132-144 | a resolved method belongs to the type, matches the name case-insensitively and applies to the arguments |
| ReflectionHelper.ResolutionOfSeveralCandidates | IronVelocity/Binders/ReflectionHelper.cs:180-188 | with two or more candidates, resolution returns the single survivor of elimination, or an `AmbiguousMatchException` when there is not exactly one |
| ReflectionHelper.NarrowerParameterIsBetter | IronVelocity.Tests/Binders/ReflectionHelper/BetterFunctionMemberTests.cs:15-16 | `f(string)` is Better than `f(object)` and `f(int)` is Better than `f(long)` on every host |
| ReflectionHelper.GuidOverloadsCompared | IronVelocity.Tests/Binders/ReflectionHelper/BetterFunctionMemberTests.cs:17-19 | `f(Guid, Guid)` is Better than `f(object, Guid)` and than `f(params Guid[])` |
| ReflectionHelper.CrossedOverloadsIncomparable | IronVelocity.Tests/Binders/ReflectionHelper/BetterFunctionMemberTests.cs:32-43 | `f(object, string)` and `f(string, object)` are Incomparable in both orders |
| ReflectionHelper.GuidCallResolvesToExactMatch | IronVelocity/Binders/ReflectionHelper.cs:126-189 | a call with `(Guid, Guid)` resolves to `f(Guid, Guid)` rather than `f(object, Guid)` |
| ReflectionHelper.CrossedCallIsAmbiguous | IronVelocity/Binders/ReflectionHelper.cs:180-188 | a call with `(string, string)` against `f(object, string)` and `f(string, object)` is an ambiguous match |
| ReflectionHelper.CrossedCallWithObjectResolves | IronVelocity/Binders/ReflectionHelper.cs:132-139 | a call with `(string, object)` has a single applicable candidate, `f(string, object)`, which is returned |
| ReflectionHelper.MatchingProperties | IronVelocity/Binders/ReflectionHelper.cs:42 | the matches are exactly the properties whose name matches, case-sensitively or not as asked |
| ReflectionHelper.MatchingFields | IronVelocity/Binders/ReflectionHelper.cs:47 | the matches are exactly the fields whose name matches, case-sensitively or not as asked |
| ReflectionHelper.GetMember | IronVelocity/Binders/ReflectionHelper.cs:36-57 | a case-sensitive property match returns that property without looking at fields; with no property match the result is the field lookup |
| ReflectionHelper.StringIndexer | IronVelocity/Binders/ReflectionHelper.cs:85 | the result is an `Item` indexer whose single index parameter a string can be passed to (a `this[object]` indexer qualifies); one taking exactly a string is chosen whenever the type has it, and none is found only when no indexer qualifies |
| ReflectionHelper.FirstTakingString | IronVelocity/Binders/ReflectionHelper.cs:85 | the result is an `Item` indexer of the type whose one index parameter accepts a string, and none is found only when no such indexer exists |
| ReflectionHelper.ExactStringIndexer | IronVelocity/Binders/ReflectionHelper.cs:85 | the result is an `Item` indexer taking exactly one string, and none is found only when there is no such indexer |
| ReflectionHelper.MemberExpression | IronVelocity/Binders/ReflectionHelper.cs:59-123 | a null target is an `ArgumentNullException` for `target`; on any other target the read fails only with an `ArgumentException` for a member that was found, and a property access is only ever compiled for a property without index parameters |
| ReflectionHelper.IndexedPropertyIsRefused | IronVelocity/Binders/ReflectionHelper.cs:102-108 | a property found by name is an `ArgumentException` exactly when it takes index parameters, because `Expression.Property` cannot read it without arguments; a property without them is read as that property |
| ReflectionHelper.PropertyAndFieldAreAmbiguous | IronVelocity/Binders/ReflectionHelper.cs:49-50 | a case-insensitive lookup matching one property and one field is an ambiguous match |
| ReflectionHelper.AmbiguityRetriedCaseSensitively | IronVelocity/Binders/ReflectionHelper.cs:69-74 | after an ambiguous case-insensitive lookup, the case-sensitive retry returns the exactly named property, which is read when it takes no index parameters |
| ReflectionHelper.NotFoundWithoutIndexer | IronVelocity/Binders/ReflectionHelper.cs:82-90 | with no member found and no indexer a string can be passed to, the read compiles to nothing (null) |
| ReflectionHelper.NotFoundFallsBackToIndexer | IronVelocity/Binders/ReflectionHelper.cs:82-98 | with no member found but an indexer present whose parameter accepts a string, the read becomes an indexer applied to the member name, and it is the exact string indexer whenever the type has one |
| Elimination.NotBeatenByMembers | IronVelocity/Binders/ReflectionHelper.cs:157-164 | the members kept after a candidate is compared with `best` are exactly those it is not Better than |
| Elimination.NotBeatenByAllBeaten | IronVelocity/Binders/ReflectionHelper.cs:161-164 | a candidate Better than every member of `best` removes all of them |
| Elimination.BeatenBySomeIff | IronVelocity/Binders/ReflectionHelper.cs:167-169 | `lessSpecific` is set exactly when the candidate is Worse than some member of `best` |
| Elimination.EliminateBeaten | IronVelocity/Binders/ReflectionHelper.cs:156-173 | the loop over the snapshot of `best` removes exactly the members the candidate beats, keeps the rest in order, and reports whether some member beats the candidate |
| Elimination.SurvivorsAreCandidates | IronVelocity/Binders/ReflectionHelper.cs:152-178 | every member left in `best` is one of the candidates |
| Elimination.SurvivorsNonEmpty | IronVelocity/Binders/ReflectionHelper.cs:152-178 | when Worse one way is Better the other way, elimination over a non-empty candidate list leaves at least one member |
| Elimination.DominantCandidateSurvives | IronVelocity/Binders/ReflectionHelper.cs:152-182 | a candidate that beats every other candidate, which never beats it back, is the only survivor, wherever it stands in the list |
| ArgumentConverter.GetConverter | IronVelocity/Reflection/ArgumentConverter.cs:33-62 | a null target type is an `ArgumentNullException` for `to`, and every other call returns a converter or none |
| ArgumentConverter.CanBeConverted | IronVelocity/Reflection/ArgumentConverter.cs:27-30 | conversion holds exactly when `GetConverter` finds a converter, and fails only for a null target type |
| ArgumentConverter.NullConvertsToReferenceTypes | IronVelocity/Reflection/ArgumentConverter.cs:39-42 | a null source converts exactly to the types that are not value types |
| ArgumentConverter.ConvertsToItselfAndObject | IronVelocity/Reflection/ArgumentConverter.cs:44-45 | every type converts to itself and to `object` |
| ArgumentConverter.PrimitiveWidening | IronVelocity/Reflection/ArgumentConverter.cs:52-61 | outside assignability, a primitive source converts exactly to the targets its widening-table row lists |
| ArgumentConverter.AgreesWithResolver | IronVelocity/Reflection/ArgumentConverter.cs:33-62 | the converter and the resolver's conversion test agree on every pair except a null source and a non-primitive value-type target, where the resolver accepts and the converter refuses |
| ArgumentConverter.NullDecimalDisagreement | IronVelocity/Reflection/ArgumentConverter.cs:39-42 | a null value passed as `decimal` is refused by the converter and accepted by the resolver |
| Binding.RuntimeType | IronVelocity/Binders/VelocityInvokeMemberBinder.cs:51-54 | an operand contributes a runtime type exactly when its value is known and not null; a null value contributes a null type |
| InvokeMemberBinder.FallbackInvoke | IronVelocity/Binders/VelocityInvokeMemberBinder.cs:20-24 | invoking without a member always fails with `NotImplementedException` |
| InvokeMemberBinder.ArgTypes | IronVelocity/Binders/VelocityInvokeMemberBinder.cs:52-54 | one entry per argument, in order, each the argument's runtime type or null for a null value |
| InvokeMemberBinder.Range | IronVelocity/Binders/VelocityInvokeMemberBinder.cs:99 | the argument indices from the params position to the end, in order |
| InvokeMemberBinder.PlanArguments | IronVelocity/Binders/VelocityInvokeMemberBinder.cs:78-104 | the argument array has exactly one entry per declared parameter |
| InvokeMemberBinder.UsedArgumentsOfConversions | IronVelocity/Binders/VelocityInvokeMemberBinder.cs:83-87 | the fixed parameters read arguments 0 to n-1, in order |
| InvokeMemberBinder.PlanUsesEachArgumentOnce | IronVelocity/Binders/VelocityInvokeMemberBinder.cs:78-104 | for a method applicable to the arguments, the plan reads every argument exactly once and in order, whether the params array is passed through or packed |
| InvokeMemberBinder.PlanArgumentExpressions | IronVelocity/Binders/VelocityInvokeMemberBinder.cs:74-104 | the array filled by the loop over the fixed parameters, and then the params slot, is the argument plan: the conversions of arguments 0 to n-1, then either the last argument passed through or the rest packed into a new array |
| InvokeMemberBinder.ChosenMethod | IronVelocity/Binders/VelocityInvokeMemberBinder.cs:56-65 | a method chosen by resolution, with an ambiguity caught and treated as none, applies to the arguments and has no more fixed parameters than there are arguments |
| InvokeMemberBinder.FallbackInvokeMember | IronVelocity/Binders/VelocityInvokeMemberBinder.cs:27-134 | the method, filling its argument array slot by slot and then overwriting the params slot, returns the specification binding |
| InvokeMemberBinder.TargetWithoutValue | IronVelocity/Binders/VelocityInvokeMemberBinder.cs:38-49 | a target without a value defers; a target whose value is null binds to the null result under an instance-is-null restriction, with no resolution |
| InvokeMemberBinder.BindingGuardedByTargetType | IronVelocity/Binders/VelocityInvokeMemberBinder.cs:130-133 | every binding for a non-null target is restricted to the target's runtime type |
| InvokeMemberBinder.UnresolvedCallIsUnresolvable | IronVelocity/Binders/VelocityInvokeMemberBinder.cs:58-71 | no method or an ambiguous one binds to the unresolvable result, and no exception escapes |
| InvokeMemberBinder.ResolvedCallShape | IronVelocity/Binders/VelocityInvokeMemberBinder.cs:74-127 | a resolved call targets the resolved method with one argument expression per parameter, reads each argument once in order, yields "" for a void method and boxes a value-type result |
| InvokeMemberBinder.ParamsArrayPassing | IronVelocity/Binders/VelocityInvokeMemberBinder.cs:88-103 | when the counts match and the last argument converts to the array type, it is passed through; otherwise all arguments from the last index on are packed into a new array of the element type |
| GetMemberBinder.AllMembers | IronVelocity/Binders/VelocityGetMemberBinder.cs:24 | the public instance members of the type: all its methods, properties and fields (events and nested types are left out) |
| GetMemberBinder.NamedIgnoringCase | IronVelocity/Binders/VelocityGetMemberBinder.cs:24 | the matches are exactly the members whose name equals the requested one ignoring case |
| GetMemberBinder.NamedExactly | IronVelocity/Binders/VelocityGetMemberBinder.cs:30 | the narrowed matches are exactly those whose name equals the requested one including case |
| GetMemberBinder.FallbackGetMember | IronVelocity/Binders/VelocityGetMemberBinder.cs:17-59 | every binding is restricted to the target's runtime type, and the only failure is the argument error from building an access to a method or an indexed property |
| GetMemberBinder.DefersWithoutValue | IronVelocity/Binders/VelocityGetMemberBinder.cs:20-21 | a target without a value defers |
| GetMemberBinder.NoMatchIsUnresolvable | IronVelocity/Binders/VelocityGetMemberBinder.cs:33-37 | with no member of that name in any case, the binding is the unresolvable result |
| GetMemberBinder.SingleMatchIsRead | IronVelocity/Binders/VelocityGetMemberBinder.cs:43-54 | a single case-insensitive match that is a field or an unindexed property is read on the target converted to the member's declaring type, whatever the case of its name; a single match that is a method or an indexed property is an error |
| GetMemberBinder.SeveralMatchesNarrowToExactCase | IronVelocity/Binders/VelocityGetMemberBinder.cs:27-54 | with several matches, only exact-case names stay: none gives the unresolvable result, several the ambiguous result, and one field or unindexed property is read while one method or indexed property is an error |
| GetMemberBinder.ReadMemberBelongsToType | IronVelocity/Binders/VelocityGetMemberBinder.cs:24-54 | a member read always names a field or property of the target's type whose name matches ignoring case |
| GetMemberBinder.MethodMatchFails | IronVelocity/Binders/VelocityGetMemberBinder.cs:47-53 | a single match that is a method cannot be read as a member access, so the binding fails |
| SetDirective.Update | src/Compilation/AST/SetDirective.cs:23-32 | unchanged operands return the same node; a changed node whose new left side is a global variable is `NotSupportedException`; any other change gives a new node with the new operands |
| SetDirective.AdaptRight | src/Compilation/AST/SetDirective.cs:67-84 | an adapted right side always has the left side's type |
| SetDirective.Reduce | src/Compilation/AST/SetDirective.cs:35-106 | lowering fails only for a global-variable target or when a run-time `as` check would target a value type |
| SetDirective.GlobalTargetRejected | src/Compilation/AST/SetDirective.cs:40-44 | a global variable on the left, named directly or through a reference, is `NotSupportedException` |
| SetDirective.PropertyTargetBecomesSetMember | src/Compilation/AST/SetDirective.cs:46-50 | a property access on the left becomes a member store on its target, using the property's name |
| SetDirective.IndexerTargetBecomesSetIndex | src/Compilation/AST/SetDirective.cs:52-56 | an indexer on the left becomes an index store on its target with the same index arguments, and the binder's arity equals their number |
| SetDirective.UnassignableTargetIsNoOp | src/Compilation/AST/SetDirective.cs:64-65 | a method invocation, method call or constant on the left lowers to the empty expression |
| SetDirective.TypeRelationDecides | src/Compilation/AST/SetDirective.cs:67-84 | unrelated types give the empty expression; when only the left type is assignable to the right one, the right side gets a run-time `as` check; when the right type is assignable to the left one, it is converted |
| SetDirective.StoreKindFollowsNullability | src/Compilation/AST/SetDirective.cs:88-105 | variables and non-nullable right sides are assigned unconditionally; any other target goes through a temporary of the right side's type |
| SetDirective.GuardedStoreSkipsNull | src/Compilation/AST/SetDirective.cs:97-105 | the guarded store evaluates the right side once: a null value leaves the target unchanged, and any other value is stored |
| SetDirective.NarrowingMismatch | src/Compilation/AST/SetDirective.cs:71-105 | a narrowed right value of the wrong run-time type converts to null; a non-variable target is then left unchanged by the null check, while a variable target's lowering is the unconditional store, handed the converted null value |
| ForeachDirective.ParseSection | src/Directives/ForeachDirective.cs:58-59 | a directive name that parses as a section equals that section's name, ignoring case |
| ForeachDirective.SectionNamesRoundTrip | src/Directives/ForeachDirective.cs:58-59 | each of the nine section names parses back to its own section |
| ForeachDirective.GetParts | src/Directives/ForeachDirective.cs:48-73 | the nine slots hold, for each section, null while nothing was appended to it, else the non-marker nodes met while it was current, in body order |
| ForeachDirective.UnmarkedBodyIsEach | src/Directives/ForeachDirective.cs:51-68 | a non-empty body without section markers lands entirely in the Each section, and every other section stays null |
| ForeachDirective.PartsHoldBodyNodesOnly | src/Directives/ForeachDirective.cs:53-68 | every node in a section comes from the body, and no section-marker directive is ever kept |
| ForeachDirective.PartsAppend | src/Directives/ForeachDirective.cs:53-68 | appending marker-free nodes keeps the current section, extends that section by exactly those nodes and leaves the other sections unchanged |
| ForeachDirective.ExpressionBlock | src/Directives/ForeachDirective.cs:39-46 | a section with no content gives null; any other section gives a rendered block of its nodes |
| ForeachDirective.Create | src/Directives/ForeachDirective.cs:22-36 | the item is reduced when it is a reference; a global-variable item is `NotSupportedException`, any other gives a node whose index is `velocityCount` |
| ForeachDirective.SectionBlocks | src/Directives/ForeachDirective.cs:86-100 | the lowered loop receives one block per section, nine in all |
| ForeachDirective.Run | src/Directives/ForeachDirective.cs:75-127 | lowering fails exactly when the body is not a rendered block |
| ForeachDirective.NotEnumerableRunsNoData | src/Directives/ForeachDirective.cs:116-124 | a value that is not enumerable runs the no-data section when there is one and otherwise changes nothing |
| ForeachDirective.LoopRestoresItemAndIndex | src/Directives/ForeachDirective.cs:105-113 | after the loop, the item and the index are back to their values from before it, and every other variable is as the loop left it |
| UnrecognisedDirective.Create | src/Compilation/AST/UnrecognisedDirective.cs:13-23 | a directive is built exactly when both the name and the literal are non-blank; a blank name is rejected first, as `ArgumentOutOfRangeException` on `name`, then a blank literal, on `literal` |
| UnrecognisedDirective.Reduce | src/Compilation/AST/UnrecognisedDirective.cs:9-27 | the directive is string-typed, and so is its lowering |
| UnrecognisedDirective.RendersItsLiteral | src/Compilation/AST/UnrecognisedDirective.cs:13-27 | a directive built from a non-blank name and literal keeps the name and lowers to exactly the literal text |
| UnrecognisedDirective.EmptyRejected | src/Compilation/AST/UnrecognisedDirective.cs:15-19 | an empty name or an empty literal is never accepted |
| ForeachExpression.Create | src/Compilation/AST/ForeachExpression.cs:24-44 | a missing enumerable is `ArgumentNullException`, and one not statically an `IEnumerable` is `ArgumentOutOfRangeException`; the node is built exactly when the enumerable is valid and the body and the item are present; it keeps its operands, and a missing label becomes a fresh `break` or `continue` label |
| ForeachExpression.Enumerator.MoveNext | src/Compilation/AST/ForeachExpression.cs:57 | `MoveNext` answers true exactly while an item is left, and then moves to it; otherwise it stays past the end |
| ForeachExpression.Iterate | src/Compilation/AST/ForeachExpression.cs:55-63 | the body runs on at most every item; when no body breaks out it runs on every item, and when one does, the last body run is the one that jumped to the break label |
| ForeachExpression.IterateAppend | src/Compilation/AST/ForeachExpression.cs:55-63 | running the loop over a concatenation is running it over the first part and then, unless a body there broke out, over the second part from the state reached |
| ForeachExpression.ContinueIsFallthrough | src/Compilation/AST/ForeachExpression.cs:55-63 | a jump to the continue label goes back to `MoveNext` just as reaching the end of the body does |
| ForeachExpression.NoBreakRunsAll | src/Compilation/AST/ForeachExpression.cs:55-63 | a body that never jumps to the break label runs once for every item |
| ForeachExpression.IterateCounts | src/Compilation/AST/ForeachExpression.cs:55-63 | a counting body that breaks out once it reaches a limit runs once per item up to that limit and no further, and breaks out exactly when the items reach the limit |
| ForeachExpression.RunLoop | src/Compilation/AST/ForeachExpression.cs:46-72 | the item is assigned each element in order until the elements run out or a body jumps to the break label; the state is that of `Iterate`, the item ends as the last element a body ran on (or unchanged when none ran), and `MoveNext` is called once per body run, plus once more to find the end when no body broke out |
| ForeachExpression.Execute | src/Compilation/AST/ForeachExpression.cs:65-71 | a null enumerable fails with a null reference when its enumerator is requested; any other value runs the loop over its elements until they run out or a body breaks out, giving the final item and state |
| LegacyForeachExpression.Create | IronVelocity/Compilation/AST/ForeachExpression.cs:19-37 | all four operands, the break label included, are required, checked in order, each missing one giving `ArgumentNullException` with its name; the node keeps them as given |
| LegacyForeachExpression.EnumerableOperand | IronVelocity/Compilation/AST/ForeachExpression.cs:58 | the reduction enumerates an `IEnumerable`: the enumerable itself when it already has that type, else a conversion of it |
| LegacyForeachExpression.Execute | IronVelocity/Compilation/AST/ForeachExpression.cs:39-65 | a null enumerable fails with a null reference; a non-null value that is not enumerable fails the conversion; an enumerable value runs the loop over its elements until they run out or a body breaks out |
| DictionaryString.EntryValueMeaning | src/Compilation/AST/DictionaryStringExpression.cs:214-266 | a trimmed value holding `$` goes to the interpolation callback, and a single part is unwrapped while null stays null; otherwise a quoted value is text, an unquoted one with `.` is a Single exactly when it is an optionally signed decimal number with one point and at least one digit, followed by an optional exponent (`e` or `E`, an optional sign, digits), and any other unquoted one is an Int32 exactly when it parses as one; a failed conversion is an `ArgumentException` |
| DictionaryString.EntryValue | src/Compilation/AST/DictionaryStringExpression.cs:214-266 | only an unquoted value can fail, and then with an `ArgumentException`; a Single is kept only for text `Convert.ToSingle` accepts, an Int32 is within the 32-bit range, and text constants come only from quoted values without `$` |
| DictionaryString.SingleTextShapes | src/Compilation/AST/DictionaryStringExpression.cs:244 | an optional sign, a mantissa with one point and a digit, and an optional exponent make a text `Convert.ToSingle` accepts |
| DictionaryString.LonePointIsNoSingle | src/Compilation/AST/DictionaryStringExpression.cs:244 | a point with no digit, with or without an exponent, is not a Single |
| DictionaryString.FloatValueAccepted | src/Compilation/AST/DictionaryStringExpression.cs:240-250 | an unquoted mantissa with an optional exponent, such as `1.5e3`, becomes that Single constant |
| DictionaryString.IntegerValueRoundTrip | src/Compilation/AST/DictionaryStringExpression.cs:254-264 | an unquoted Int32 written in decimal becomes that integer |
| DictionaryString.AddEntryMeaning | src/Compilation/AST/DictionaryStringExpression.cs:190-212 | a trimmed key starting with `$` is `NotImplementedException`; any other key is stored under its trimmed, case-folded form, which is how the source's case-insensitive dictionary looks keys up; it replaces the entry with the same folded key and keeps every other entry |
| DictionaryString.AddEntry | src/Compilation/AST/DictionaryStringExpression.cs:190-212 | a key is refused exactly when its trimmed text starts with `$`; otherwise no key is lost and the value is stored |
| DictionaryString.LaterKeyWins | src/Compilation/AST/DictionaryStringExpression.cs:190-209 | keys that differ only in case or surrounding blanks name one entry, and the later value replaces the earlier one |
| DictionaryString.StoreKeepsEntries | src/Compilation/AST/DictionaryStringExpression.cs:209 | storing an entry never removes a key |
| DictionaryString.EndCheck | src/Compilation/AST/DictionaryStringExpression.cs:169-184 | at the last character a pending entry is flushed and the scan goes on, unless its key is blank, in which case the scan stops; elsewhere the scan goes on at the next index |
| DictionaryString.ValueChar | src/Compilation/AST/DictionaryStringExpression.cs:110-166 | a value character moves the scan forward by one index, or by two for an escape that has a next character, and never opens a nested dictionary |
| DictionaryString.Step | src/Compilation/AST/DictionaryStringExpression.cs:51-184 | each character moves the scan forward by one or two indices, and the scanner records no index other than the one it is at |
| DictionaryString.CharStepAdvances | src/Compilation/AST/DictionaryStringExpression.cs:51-184 | the loop body applied at any index of the input moves forward and records no other index |
| DictionaryString.EscapesDecoded | src/Compilation/AST/DictionaryStringExpression.cs:110-135 | inside a value, a backslash before `r`, `'`, `"` or `n` appends the decoded character and skips both; a backslash as the last character reads past the end of the input |
| DictionaryString.InnerBracesKept | src/Compilation/AST/DictionaryStringExpression.cs:154-166 | inside a value, `{` is kept and deepens the brace count, and a `}` within inner braces is kept and closes one of them |
| DictionaryString.ClosingBraceEndsDictionary | src/Compilation/AST/DictionaryStringExpression.cs:137-152 | inside a value, a `}` outside inner braces flushes the entry and ends the dictionary at that index |
| DictionaryString.LastCharacterFlushes | src/Compilation/AST/DictionaryStringExpression.cs:165-184 | a plain last character is added to the value, which is then flushed unless the key is blank, in which case the scan stops without it |
| DictionaryString.RescanFromIndexOne | src/Compilation/AST/DictionaryStringExpression.cs:39-106 | as written, the scan of `%{a={` that comes back to index 1 reads key `{a`, recurses at the end of the input, gets index 0 back and restarts at index 1, at any nesting depth |
| DictionaryString.AsWrittenNestedAtEndDiverges | src/Compilation/AST/DictionaryStringExpression.cs:39-106 | as written, `%{a={` never finishes scanning |
| DictionaryString.AsWrittenFuelMonotone | src/Compilation/AST/DictionaryStringExpression.cs:39-106 | the nesting bound only cuts the as-written scan off: a scan that ends with some fuel ends the same way with more |
| DictionaryString.Scan | src/Compilation/AST/DictionaryStringExpression.cs:35-188 | the corrected scan always ends, and any index it reports is the one it started with or at or after where it started |
| DictionaryString.Nest | src/Compilation/AST/DictionaryStringExpression.cs:98-107 | a nested dictionary is scanned, stored under the pending key, and the corrected scan resumes after it and always ends |
| DictionaryString.BuildDictionary | src/Compilation/AST/DictionaryStringExpression.cs:35-188 | the character-array loop, recursing into nested dictionaries, computes the corrected scan |
| DictionaryString.Reduce | src/Compilation/AST/DictionaryStringExpression.cs:27-32 | lowering scans the literal's characters from index 2 and gives the corrected scan's entries, or its error |
| DictionaryString.Parse | src/Compilation/AST/DictionaryStringExpression.cs:27-32 | a literal with nothing after its two-character opener is the empty dictionary |
| DictionaryString.CorrectedNestedAtEndEnds | src/Compilation/AST/DictionaryStringExpression.cs:100-106 | corrected, `%{a={` ends with `a` mapped to an empty nested dictionary |
| DictionaryString.CharStepIsLocal | src/Compilation/AST/DictionaryStringExpression.cs:53-112 | the loop body reads only the current character and the next one |
| DictionaryString.ScanIsLocal | src/Compilation/AST/DictionaryStringExpression.cs:51-185 | a scan from an index depends only on the input from some earlier index on |
| DictionaryString.NestIsLocal | src/Compilation/AST/DictionaryStringExpression.cs:98-107 | a nested scan from an index depends only on the input from some earlier index on |
| DictionaryString.ParseIgnoresOpener | src/Compilation/AST/DictionaryStringExpression.cs:29-31 | lowering never looks at the two characters of the `%{` opener |
| DictionaryString.CharStepKeepsKeys | src/Compilation/AST/DictionaryStringExpression.cs:51-184 | a loop body whose store keeps keys never drops an entry |
| DictionaryString.ScanKeepsKeys | src/Compilation/AST/DictionaryStringExpression.cs:51-187 | a finished scan holds every key it started with |
| DictionaryString.NestKeepsKeys | src/Compilation/AST/DictionaryStringExpression.cs:98-107 | a finished scan after a nested dictionary holds every key the outer scan had |
| DictionaryString.QuotedEntryParses | src/Compilation/AST/DictionaryStringExpression.cs:93-152 | `%{a='x'}` gives `a` the text `x` |
| DictionaryString.AfterNestedEntry | src/Compilation/AST/DictionaryStringExpression.cs:55-152 | after a nested dictionary, a separator is skipped and the next quoted entry is read up to the closing brace |
| DictionaryString.NestedDictionaryResumesAfterClose | src/Compilation/AST/DictionaryStringExpression.cs:98-107 | `%{a={},b='x'}` gives `a` an empty nested dictionary and `b` the text `x` |
| VelocityParser.ExpressionAt | IronVelocity/Parser/VelocityParser.cs:244-288 | a parsed expression consumes at least one token and stays within the input |
| VelocityParser.PrimaryAt | IronVelocity/Parser/VelocityParser.cs:249-283 | every branch of the switch that succeeds consumes at least one token |
| VelocityParser.ParenthesisedAt | IronVelocity/Parser/VelocityParser.cs:232-242 | a parenthesised expression consumes at least one token |
| VelocityParser.NotAt | IronVelocity/Parser/VelocityParser.cs:221-230 | a negation consumes at least one token |
| VelocityParser.StringAt | IronVelocity/Parser/VelocityParser.cs:200-219 | a string literal consumes its token |
| VelocityParser.NumberAt | IronVelocity/Parser/VelocityParser.cs:168-198 | a number consumes at least one token |
| VelocityParser.BooleanLiteralOrWordAt | IronVelocity/Parser/VelocityParser.cs:355-365 | succeeds exactly on an identifier and consumes only it; the result is `true` or `false` exactly for those words, and a word node for any other name |
| VelocityParser.RangeOrListAt | IronVelocity/Parser/VelocityParser.cs:367-386 | a list or range consumes at least its opening bracket |
| VelocityParser.ListAt | IronVelocity/Parser/VelocityParser.cs:388-396 | the rest of a list never moves the parser backwards |
| VelocityParser.RangeAt | IronVelocity/Parser/VelocityParser.cs:398-404 | the upper bound and the `]` of a range consume at least one token |
| VelocityParser.ArgumentListAt | IronVelocity/Parser/VelocityParser.cs:158-166 | an argument list never moves the parser backwards |
| VelocityParser.RemainingArgumentsAt | IronVelocity/Parser/VelocityParser.cs:145-156 | the remaining arguments never move the parser backwards |
| VelocityParser.ArgumentsLoopAt | IronVelocity/Parser/VelocityParser.cs:149-154 | the argument loop and its closer consume at least one token |
| VelocityParser.ReferenceAt | IronVelocity/Parser/VelocityParser.cs:80-119 | a reference consumes at least its `$` |
| VelocityParser.ReferenceTailAt | IronVelocity/Parser/VelocityParser.cs:93-117 | the parts and the closing brace of a reference never move the parser backwards |
| VelocityParser.PartsAt | IronVelocity/Parser/VelocityParser.cs:93-143 | the `.name` and `.name(args)` parts never move the parser backwards |
| VelocityParser.OperatorChainAt | IronVelocity/Parser/VelocityParser.cs:302-327 | the operator chain never moves the parser backwards |
| VelocityParser.CompoundAt | IronVelocity/Parser/VelocityParser.cs:298-353 | a compound expression consumes at least one token |
| VelocityParser.ChainStep | IronVelocity/Parser/VelocityParser.cs:304-327 | an operator token is followed by one operand expression and then the rest of the chain |
| VelocityParser.EatAt | IronVelocity/Parser/VelocityParser.cs:406-415 | the current token is consumed exactly when it has the expected kind, and the parser moves one token on (staying put at the end of input); any other kind is the unexpected-token error |
| VelocityParser.TryEatAt | IronVelocity/Parser/VelocityParser.cs:417-428 | the parser moves on by one token exactly when the current token has the kind, and otherwise stays |
| VelocityParser.SkipWhitespace | IronVelocity/Parser/VelocityParser.cs:442-445 | at most one whitespace token is skipped, exactly when the current token is whitespace |
| VelocityParser.PrecedenceClasses | IronVelocity/Parser/VelocityParser.cs:290-296 | outranking is a strict order: `* / %` outrank `+ -`, and operators of the same class never outrank each other |
| VelocityParser.OperationOf | IronVelocity/Parser/VelocityParser.cs:306-325 | an operator token stands for an operation that is never a range, multiplicative exactly for `*`, `/` and `%` and additive exactly for `+` and `-` |
| VelocityParser.Combine | IronVelocity/Parser/VelocityParser.cs:329-350 | one iteration builds a binary node that, read left to right, is the tree so far followed by the operator and the operand: the graft regroups but never reorders |
| VelocityParser.Fold | IronVelocity/Parser/VelocityParser.cs:300-352 | the tree after the loop, read left to right, is the first operand followed by every operator and operand in the order parsed, and it is binary once there is an operator |
| VelocityParser.Flushed | IronVelocity/Parser/VelocityParser.cs:50-54 | pending text is appended as one text node after the children so far exactly when it is not empty |
| VelocityParser.ParseLoop | IronVelocity/Parser/VelocityParser.cs:41-74 | the template loop only appends to the children so far, and never adds an empty text node |
| VelocityParser.ParseAt | IronVelocity/Parser/VelocityParser.cs:35-76 | a parsed template never has an empty text node |
| VelocityParser.FoldAppend | IronVelocity/Parser/VelocityParser.cs:329-350 | the tree after one more operator is the previous tree combined with it, grafting only once a binary node exists |
| VelocityParser.Parser.constructor | IronVelocity/Parser/VelocityParser.cs:23-27 | a new parser is positioned at the lexer's first token |
| VelocityParser.Parser.MoveNext | IronVelocity/Parser/VelocityParser.cs:30-33 | moves to the next token; at the end of the input it stays at `EndOfFile` |
| VelocityParser.Parser.Eat | IronVelocity/Parser/VelocityParser.cs:406-415 | succeeds exactly when the current token has the expected kind, and then returns it and moves past it; otherwise it is an unexpected-token error and the position is kept |
| VelocityParser.Parser.TryEat | IronVelocity/Parser/VelocityParser.cs:417-428 | answers whether the current token has the kind, and moves past it exactly then |
| VelocityParser.Parser.TryEatWhitespace | IronVelocity/Parser/VelocityParser.cs:442-445 | skips at most one whitespace token |
| VelocityParser.Parser.Parse | IronVelocity/Parser/VelocityParser.cs:35-76 | the template loop computes the template parse of the tokens from the current one |
| VelocityParser.Parser.Reference | IronVelocity/Parser/VelocityParser.cs:80-119 | agrees with the reference parse, in result and in final position |
| VelocityParser.Parser.Parts | IronVelocity/Parser/VelocityParser.cs:93-105 | the part loop agrees with the parts parse, in result and in final position |
| VelocityParser.Parser.ArgumentList | IronVelocity/Parser/VelocityParser.cs:158-166 | agrees with the argument-list parse |
| VelocityParser.Parser.AddRemainingArguments | IronVelocity/Parser/VelocityParser.cs:145-156 | the `do … while` loop agrees with the remaining-arguments parse |
| VelocityParser.Parser.Number | IronVelocity/Parser/VelocityParser.cs:168-198 | agrees with the number parse |
| VelocityParser.Parser.StringLiteral | IronVelocity/Parser/VelocityParser.cs:200-208 | agrees with the plain string-literal parse |
| VelocityParser.Parser.InterpolatedString | IronVelocity/Parser/VelocityParser.cs:210-219 | agrees with the interpolated string-literal parse |
| VelocityParser.Parser.Not | IronVelocity/Parser/VelocityParser.cs:221-230 | agrees with the negation parse |
| VelocityParser.Parser.Parenthesised | IronVelocity/Parser/VelocityParser.cs:232-242 | agrees with the parenthesised-expression parse |
| VelocityParser.Parser.Expression | IronVelocity/Parser/VelocityParser.cs:244-288 | agrees with the expression parse, including its three error messages |
| VelocityParser.Parser.CompoundExpression | IronVelocity/Parser/VelocityParser.cs:298-353 | the operator loop builds the fold of the operator chain |
| VelocityParser.Parser.BooleanLiteralOrWord | IronVelocity/Parser/VelocityParser.cs:355-365 | agrees with the identifier parse |
| VelocityParser.Parser.RangeOrList | IronVelocity/Parser/VelocityParser.cs:367-386 | agrees with the list-or-range parse |
| VelocityParser.Parser.List | IronVelocity/Parser/VelocityParser.cs:388-396 | agrees with the list-tail parse |
| VelocityParser.Parser.Range | IronVelocity/Parser/VelocityParser.cs:398-404 | agrees with the range-tail parse |
| VelocityParserProperties.LastAdditive | IronVelocity.Tests/ParserTests/MathematicalExpressionTests.cs:63-108 | a helper of the independent two-level reference grammar, not of the parser: it finds the last additive operator of a chain, and every operator after it is multiplicative |
| VelocityParserProperties.TextbookStep | IronVelocity/Parser/VelocityParser.cs:329-350 | one iteration of the grafting loop turns the two-level precedence tree of a chain into the tree of that chain with one more operator |
| VelocityParserProperties.FoldIsTextbook | IronVelocity/Parser/VelocityParser.cs:298-353 | the grafting loop builds exactly the two-level precedence tree: `* / %` bind tighter than `+ -`, and each level associates to the left |
| VelocityParserProperties.ChainFacts | IronVelocity/Parser/VelocityParser.cs:302-327 | the operator chain holds only arithmetic operators and stops at the first token that is not `+ - * / %` |
| VelocityParserProperties.CompoundExpressionFollowsPrecedence | IronVelocity/Parser/VelocityParser.cs:298-353 | a compound expression is the precedence tree of its first operand and operator chain, and the next token is not an operator |
| VelocityParserProperties.EqualPrecedenceAssociatesLeft | IronVelocity.Tests/ParserTests/MathematicalExpressionTests.cs:33-58 | operators of one precedence level nest to the left, as `1 + 2 + 3` is `(1 + 2) + 3` |
| VelocityParserProperties.ThreeOperands | IronVelocity.Tests/ParserTests/MathematicalExpressionTests.cs:63-108 | with three operands, a multiplicative operator after an additive one becomes its right child; in every other case the first pair becomes the left operand |
| VelocityParserProperties.ParseLoopCoalesces | IronVelocity/Parser/VelocityParser.cs:41-74 | the template loop keeps its output free of empty and adjacent text nodes |
| VelocityParserProperties.ParseCoalescesText | IronVelocity/Parser/VelocityParser.cs:35-76 | a parsed template never has an empty text node or two text nodes in a row |
| VelocityParserProperties.StrayEmptyTokenThrows | IronVelocity/Parser/VelocityParser.cs:67-69 | a token other than text, `$` or end of file whose value is empty aborts the parse with "Token value not defined" |
| VelocityParserProperties.PlainTemplateIsOneTextNode | IronVelocity/Parser/VelocityParser.cs:41-74 | a template without references becomes a single text node holding all of its text, or no node when the text is empty |
| VelocityParserProperties.TextAroundReference | IronVelocity/Parser/VelocityParser.cs:46-66 | in `a$x b` the text before the reference is flushed before it, and the text after it at the end of the input |
| VelocityParserProperties.ArgumentsLoopFacts | IronVelocity/Parser/VelocityParser.cs:145-156 | the argument loop ends just after its closer and appends at least one argument to those it was given, keeping them |
| VelocityParserProperties.ArgumentListFacts | IronVelocity/Parser/VelocityParser.cs:145-166 | an argument list ends with its closer, and it is empty exactly when the closer comes at once, after optional whitespace |
| VelocityParserProperties.PartsFacts | IronVelocity/Parser/VelocityParser.cs:93-105 | each part wraps the value read so far, and the parts end where they began or just after an identifier or a `)` |
| VelocityParserProperties.MethodPartFacts | IronVelocity/Parser/VelocityParser.cs:97-135 | a `.name(args)` part wraps the value read so far, and the parts end after an identifier or a `)` |
| VelocityParserProperties.ReferenceTailFacts | IronVelocity/Parser/VelocityParser.cs:93-117 | after the root identifier, the parts nest on it, the silence flag is kept, and the reference ends with `}` exactly when it is formal |
| VelocityParserProperties.ReferenceFacts | IronVelocity/Parser/VelocityParser.cs:80-119 | a reference's parts nest on its root variable; it is silent exactly when `!` follows the `$`, and formal exactly when it ends with `}` |
| VelocityParserProperties.PartsNestLeftToRight | IronVelocity/Parser/VelocityParser.cs:93-105 | `$a.b.c()` is the method `c` on the property `b` of the variable `a` |
| VelocityParserProperties.FormalReferenceNeedsClosingBrace | IronVelocity/Parser/VelocityParser.cs:84-110 | `${a` without its closing brace is rejected, and `$!{a}` is silent and formal |
| VelocityParserProperties.ParseNegated | IronVelocity/Parser/VelocityParser.cs:174-188 | a minus sign followed by the digits of a number up to 2147483648 parses to its negation |
| VelocityParserProperties.IntegerLiteralRoundTrip | IronVelocity/Parser/VelocityParser.cs:168-188 | every 32-bit integer written as an optional minus sign and its digits, with no `.` after, reads back as that integer, consuming exactly those tokens |
| VelocityParserProperties.FloatingPointLiteralKeepsText | IronVelocity/Parser/VelocityParser.cs:168-198 | digits, `.` and digits make a floating-point literal whose text is the sign, the whole part, `.` and the fraction |
| VelocityParserProperties.OutOfRangeLiteralOverflows | IronVelocity/Parser/VelocityParser.cs:184-188 | an integer literal whose magnitude is above 2147483647 (or above 2147483648 after a minus sign), with no `.` after it, is an overflow, not a wrap-around |
| VelocityParserProperties.RangeOrListShape | IronVelocity/Parser/VelocityParser.cs:367-404 | square brackets give a list or a range, ending with the closing `]` |
| VelocityParserProperties.ListNeedsSeparator | IronVelocity/Parser/VelocityParser.cs:376-385 | a first element followed by anything but `..`, `,` or `]` is an unexpected-token error |
| VelocityParserProperties.SeparatedLoop | IronVelocity/Parser/VelocityParser.cs:149-154 | the argument loop reads a comma-separated run of expressions and its closer, appending exactly those expressions in order |
| VelocityParserProperties.SeparatedStartsWithExpression | IronVelocity/Parser/VelocityParser.cs:249-283 | a run of expressions never starts with `]` or `)`, since no expression starts with either |
| VelocityParserProperties.ListLiteral | IronVelocity/Parser/VelocityParser.cs:367-396 | `[`, comma-separated expressions and `]` give the list of exactly those expressions, in order |
| VelocityParserProperties.EmptyList | IronVelocity.Tests/ParserTests/ListExpressionTests.cs:10-24 | `[]` is the empty list and consumes all the input |
| VelocityParserProperties.SingletonList | IronVelocity.Tests/ParserTests/ListExpressionTests.cs:11-24 | `[123]` is a list of one integer and consumes all the input |
| VelocityParserProperties.MixedList | IronVelocity.Tests/ParserTests/ListExpressionTests.cs:12-24 | `['test',4.5,$variable,true]`, and any list of that shape whatever its string, digits and variable name, is a list of a string, a float, a reference and `true`, and consumes all the input |
| VelocityParserProperties.NestedList | IronVelocity.Tests/ParserTests/ListExpressionTests.cs:27-52 | `[[123]]` is a list holding a list holding the integer 123 |
| VelocityParserProperties.IntegerRange | IronVelocity/Parser/VelocityParser.cs:378-404 | `[a..b]` for any two naturals up to 2147483647, such as `[1..2]`, is a range node between the integers a and b, consuming all five tokens |
| NVelocityAst.GetChild | IronVelocity/Compilation/AST/IfStatement.cs:27-28 | a child exists exactly for an index below the child count; past the last one, the lookup is an index error |
| IfStatement.If | IronVelocity/Compilation/AST/IfStatement.cs:64-74 | the statement is an if-then-else exactly when there is false content, and otherwise an if-then; it is void; the condition is kept when it is boolean and coerced to boolean otherwise |
| IfStatement.FoldBackwards | IronVelocity/Compilation/AST/IfStatement.cs:29-55 | the loop from the last child down to index 2 computes the fold of the trailing children: the else-if chain over the else block, or the first error met |
| IfStatement.FoldChild | IronVelocity/Compilation/AST/IfStatement.cs:34-54 | an else is accepted exactly when nothing follows it, it has one child and that block converts; an else-if exactly when it has a condition and a block and both convert. A second else is "Cannot have two 'else' statements". The converter's exception is passed on. A condition that fails to convert wins over a missing block, because the condition is converted first. A missing child is an index error. Any other child is "Expected: ASTElseStatement" |
| IfStatement.FoldTrailing | IronVelocity/Compilation/AST/IfStatement.cs:29-55 | folding the trailing children from the last back yields false content exactly when there is at least one trailing child |
| IfStatement.Build | IronVelocity/Compilation/AST/IfStatement.cs:27-56 | child 0 is converted before child 1 is looked up: no children, or one child whose condition converts, is an index error. A condition or true block that fails to convert passes the converter's exception on, and so does a failing fold. The statement is built exactly when the condition and the true block convert and the trailing children fold |
| IfStatement.Create | IronVelocity/Compilation/AST/IfStatement.cs:15-57 | a null node or converter is `ArgumentNullException` and a node that is not an if statement is `ArgumentOutOfRangeException`; otherwise it converts the condition, looks up and converts the true block, and runs the backward loop over children from the last down to index 2, ending with the first exception met: the statement or error the node stands for |
| IfStatement.TrailingErrorPropagates | IronVelocity/Compilation/AST/IfStatement.cs:32-55 | an error met while folding a later child ends the whole fold with that error |
| IfStatement.NonEmptyFoldIsSome | IronVelocity/Compilation/AST/IfStatement.cs:32-55 | folding at least one trailing child always yields false content |
| IfStatement.FoldAcceptsExactly | IronVelocity/Compilation/AST/IfStatement.cs:32-55 | the trailing children fold without error exactly when all are else-ifs with a condition and a block, except that the last may instead be an else with exactly one child, and every one of those conditions and blocks converts |
| IfStatement.ElseMustBeLast | IronVelocity/Compilation/AST/IfStatement.cs:35-38 | an else followed by any other trailing child is an error, namely "Cannot have two 'else' statements" when the children after it are well formed |
| IfStatement.TrailingErrorSources | IronVelocity/Compilation/AST/IfStatement.cs:37-54 | every error of the fold is one of three: an `InvalidOperationException` of the constructor's own, a missing child of an else-if, or the exception the converter threw for a child of one of the trailing children |
| IfStatement.FirstElseIfIsOutermost | IronVelocity/Compilation/AST/IfStatement.cs:31-50 | the first else-if is the outermost test of the false content: its true branch is its converted block, its condition is its converted condition when that is boolean, and it has a false branch exactly when more children follow it |
| IfStatement.BuiltStatementIsVoid | IronVelocity/Compilation/AST/IfStatement.cs:56-80 | the built statement is void, its condition is boolean, and its true branch is the converted block of child 1 |
| DynamicInvoke.Create | IronVelocity/Compilation/AST/DynamicInvokeExpression.cs:19-38 | a null node or target is `ArgumentNullException`, and a node without children is rejected by the list capacity; otherwise the node is built exactly when the operand of every child after the first converts, and the first child whose operand conversion throws ends it with that exception. A built node keeps the target, takes its name from the first token, and has one argument per child after the first, each the converted operand of that child, in order |
| DynamicInvoke.ReduceInternal | IronVelocity/Compilation/AST/DynamicInvokeExpression.cs:40-56 | the reduction is an object-typed dynamic invoke of the name, told the number of arguments, over the target followed by the arguments |
| DynamicInvoke.OperandsFollowChildren | IronVelocity/Compilation/AST/DynamicInvokeExpression.cs:29-48 | the target is the first operand of the call, operand `i` is the converted operand of child `i`, and there are as many operands as children |
| Strings.Trim | src/Compilation/AST/DictionaryStringExpression.cs:192 | the trimmed text is no longer than the input and neither starts nor ends with white space; it equals the input exactly when the input has no white space at either end |
| Strings.TrimIdempotent | src/Compilation/AST/DictionaryStringExpression.cs:192 | trimming twice is trimming once |
| Strings.TrimIsSlice | src/Compilation/AST/DictionaryStringExpression.cs:192 | the trimmed text is a slice of the input, and every character cut away before or after it is white space in the sense of `Char.IsWhiteSpace` |
| Strings.TrimmedSliceAfterHead | src/Compilation/AST/DictionaryStringExpression.cs:192 | a leading white-space character is cut away, and the rest trims to the same slice one position further on |
| Strings.TrimmedSliceBeforeLast | src/Compilation/AST/DictionaryStringExpression.cs:192 | a trailing white-space character is cut away, and the rest trims to the same slice |
| Strings.TrimNumberBlanks | IronVelocity/Parser/VelocityParser.cs:186 | the text loses only the blanks number parsing skips (the space and U+0009 to U+000D), is unchanged exactly when it has none at either end, and has none left at either end |
| Strings.ParseInt32 | IronVelocity/Parser/VelocityParser.cs:184-188 | a parsed integer is within the 32-bit range, and a failure is a format error or an overflow |
| Strings.ParseShowRoundTrip | IronVelocity/Parser/VelocityParser.cs:184-188 | every 32-bit integer written in decimal parses back to itself |
| Strings.SignAloneIsFormatError | IronVelocity/Parser/VelocityParser.cs:184-188 | the empty text, a lone `-` and `1.5` are format errors |
| Strings.PastRangeOverflows | IronVelocity/Parser/VelocityParser.cs:184-188 | every number above 2147483647, and every negated number below -2147483648, is an overflow rather than a wrapped-around value |
| AntlrCompiler.Compiler | IronVelocity/Parser/AntlrToExpressionTreeCompiler.cs:20-24 | a null list of custom directives is treated as an empty one; any other list is kept |
| AntlrCompiler.VisitBoolean | IronVelocity/Parser/AntlrToExpressionTreeCompiler.cs:121-133 | exactly the texts `true` and `false` are booleans, with those values; any other text is `InvalidOperationException` |
| AntlrCompiler.Unquote | IronVelocity/Parser/AntlrToExpressionTreeCompiler.cs:135-140 | a string literal loses exactly its first and last character |
| AntlrCompiler.UnquoteOfQuoted | IronVelocity/Parser/AntlrToExpressionTreeCompiler.cs:135-140 | unquoting a quoted string gives the string back, whatever the quote characters |
| AntlrCompiler.MathOperation | IronVelocity/Parser/AntlrToExpressionTreeCompiler.cs:261-282 | a token that is not an arithmetic operator is `ArgumentOutOfRangeException` on `context` |
| AntlrCompiler.ComparisonOperation | IronVelocity/Parser/AntlrToExpressionTreeCompiler.cs:305-330 | a token that is not a comparison operator is `ArgumentOutOfRangeException` on `context` |
| AntlrCompiler.OperatorTokensAreExact | IronVelocity/Parser/AntlrToExpressionTreeCompiler.cs:261-330 | each operator is read from exactly the token that spells it, and no token is both an arithmetic and a comparison operator |
| AntlrCompiler.Visit | IronVelocity/Parser/AntlrToExpressionTreeCompiler.cs:26-446 | visiting fails only with the exceptions the visitor raises (an unimplemented visit, an invalid operation, a bad operator context or cast, a missing block, or an `int.Parse` failure) or with an exception a registered directive builder threw; a block visits to a rendered block and a list to an object array, each with one expression per child |
| AntlrCompiler.VisitAll | IronVelocity/Parser/AntlrToExpressionTreeCompiler.cs:174-191 | visiting contexts in order fails only with a visitor exception or a directive builder's exception, and otherwise gives exactly one expression per context |
| AntlrCompiler.ApplyPart | IronVelocity/Parser/AntlrToExpressionTreeCompiler.cs:74-93 | applying one property or method part to a reference fails only with a visitor exception or a directive builder's exception |
| AntlrCompiler.FoldReferenceParts | IronVelocity/Parser/AntlrToExpressionTreeCompiler.cs:68-96 | folding the parts of a reference body fails only with a visitor exception or a directive builder's exception |
| AntlrCompiler.VisitAssignment | IronVelocity/Parser/AntlrToExpressionTreeCompiler.cs:198-211 | a left side that visits to a method invocation is the `InvalidOperationException` "Cannot assign to a method", whatever the right side; otherwise the assignment is built exactly when the right side visits, and a built assignment never has a method invocation on its left |
| AntlrCompiler.ElseIfChain | IronVelocity/Parser/AntlrToExpressionTreeCompiler.cs:221-228 | with no else-ifs the false content stays as it is; otherwise the chain is an if-then-else on a condition coerced to boolean; it fails only with a visitor exception or a directive builder's exception |
| AntlrCompiler.VisitElseIf | IronVelocity/Parser/AntlrToExpressionTreeCompiler.cs:223-227 | an else-if becomes an if-then-else on its condition coerced to boolean, over the content built from the else-ifs after it; it fails only with a visitor exception or a directive builder's exception |
| AntlrCompiler.IfBlock | IronVelocity/Parser/AntlrToExpressionTreeCompiler.cs:213-234 | a visited `#if` is an if-then-else whose condition is the visited condition coerced to boolean and whose true branch is the visited if block; it fails only with a visitor exception or a directive builder's exception |
| AntlrCompiler.CustomDirective | IronVelocity/Parser/AntlrToExpressionTreeCompiler.cs:361-377 | an unregistered name gives the unrecognised directive over the full text, and two or more handlers give "Sequence contains more than one matching element"; with one handler, a failed argument visit is the result, a block handler without a block is a null reference, a non-block handler succeeds exactly when its builder returns a non-null value given no body, and the exception its builder throws is the result; every success is a value the handler built |
| AntlrCompiler.Matching | IronVelocity/Parser/AntlrToExpressionTreeCompiler.cs:364 | only handlers registered under exactly the directive's name are considered, each one of the registered handlers |
| AntlrCompiler.MatchingEmptyIff | IronVelocity/Parser/AntlrToExpressionTreeCompiler.cs:364-367 | no handler matches exactly when none is registered under the name |
| AntlrCompiler.VisitMany | IronVelocity/Parser/AntlrToExpressionTreeCompiler.cs:174-191 | a null or empty list gives no expressions; otherwise the array loop computes the in-order visit of the list |
| AntlrCompiler.VisitAllPointwise | IronVelocity/Parser/AntlrToExpressionTreeCompiler.cs:174-191 | visiting a list succeeds exactly when every context visits, and then gives their results, one per context, in order |
| AntlrCompiler.VisitAllFirstError | IronVelocity/Parser/AntlrToExpressionTreeCompiler.cs:181-188 | the first context that fails to visit decides the error of the list |
| AntlrCompiler.VisitReferenceBody | IronVelocity/Parser/AntlrToExpressionTreeCompiler.cs:68-96 | the loop over the parts computes the left-to-right fold of property and method parts over the variable |
| AntlrCompiler.ReferencePartsKeepOrder | IronVelocity/Parser/AntlrToExpressionTreeCompiler.cs:74-93 | the names along the built chain are the start's names followed by the property and method names, in source order |
| AntlrCompiler.ReferenceBodyNames | IronVelocity/Parser/AntlrToExpressionTreeCompiler.cs:68-101 | a reference body visits to a chain whose names are the variable and then each part's name, in order |
| AntlrCompiler.VisitIfBlock | IronVelocity/Parser/AntlrToExpressionTreeCompiler.cs:213-234 | the backward loop over the else-ifs computes the `#if` block: the else block or the empty expression, the else-ifs over it, then the condition and the true block |
| AntlrCompiler.ChainErrorPropagates | IronVelocity/Parser/AntlrToExpressionTreeCompiler.cs:221-228 | a failure in a later else-if is the failure of the whole chain |
| AntlrCompiler.ElseIfsNestInOrder | IronVelocity/Parser/AntlrToExpressionTreeCompiler.cs:221-228 | the else-ifs nest in source order: the k-th false branch tests the k-th else-if's coerced condition, and below the last lies the false content |
| AntlrCompiler.IfBlockShape | IronVelocity/Parser/AntlrToExpressionTreeCompiler.cs:213-234 | an `#if` block is an if-then-else on the coerced condition whose false branch is the else-if chain over the else block, or over the empty expression when there is none |
| AntlrCompiler.BinaryChildCount | IronVelocity/Parser/AntlrToExpressionTreeCompiler.cs:253-303 | an operator context with one child is that child, and one with neither one nor three children is `ArgumentOutOfRangeException` |
| AntlrCompiler.MathematicalVisit | IronVelocity/Parser/AntlrToExpressionTreeCompiler.cs:253-289 | an arithmetic context of three children, the middle one an arithmetic operator token, visits to that operation over the visits of the outer two children |
| AntlrCompiler.ComparisonVisit | IronVelocity/Parser/AntlrToExpressionTreeCompiler.cs:297-337 | a comparison context of three children, the middle one a comparison operator token, visits to that comparison over the visits of the outer two children |
| AntlrCompiler.CrossedOperatorRefused | IronVelocity/Parser/AntlrToExpressionTreeCompiler.cs:263-330 | a comparison token in an arithmetic context, and an arithmetic token in a comparison context, are `ArgumentOutOfRangeException` on `context` |
| AntlrCompiler.BinaryOperation | IronVelocity/Parser/AntlrToExpressionTreeCompiler.cs:253-337 | with three children, the middle token picks the operation and the outer children are its operands; a comparison token in an arithmetic context, or the reverse, is refused |
| AntlrCompiler.LogicalVisit | IronVelocity/Parser/AntlrToExpressionTreeCompiler.cs:339-359 | or- and and-expression contexts with one child pass it through; with two, both sides are coerced to boolean and joined by `OrElse` or `AndAlso`, and a failing left side fails the whole |
| AntlrCompiler.AssignmentToMethodRefused | IronVelocity/Parser/AntlrToExpressionTreeCompiler.cs:198-206 | a left side that visits to a method invocation is "Cannot assign to a method", whatever the right side is |
| AntlrCompiler.AssignedMethodCallIsNoOp | IronVelocity/Parser/AntlrToExpressionTreeCompiler.cs:198-211 | a `#set` whose left side is a reference ending in a method call is never refused, since a reference visits to a reference node and not to a method call; the `SetDirective` lowering of src/Compilation/AST/SetDirective.cs then reduces such an assignment to nothing |
| AntlrCompiler.UnknownDirectiveIsUnrecognised | IronVelocity/Parser/AntlrToExpressionTreeCompiler.cs:361-367 | a directive nobody registered becomes an unrecognised directive carrying its name and full text |
| AntlrCompiler.DuplicateHandlersRefused | IronVelocity/Parser/AntlrToExpressionTreeCompiler.cs:364 | when two distinct registered handlers carry the directive's name, visiting the directive is the `InvalidOperationException` "Sequence contains more than one matching element" |
| AntlrCompiler.MatchingFrom | IronVelocity/Parser/AntlrToExpressionTreeCompiler.cs:364 | a handler registered under the name is matched, counted ahead of every match registered after it |
| AntlrCompiler.TwoRegisteredMatchTwice | IronVelocity/Parser/AntlrToExpressionTreeCompiler.cs:364 | two handlers registered under one name give at least two matches |
| AntlrCompiler.InlineDirectiveIgnoresBlock | IronVelocity/Parser/AntlrToExpressionTreeCompiler.cs:369-375 | a handler that is not a block directive is given its visited arguments and no body, whatever the block holds; its builder's exception is the visit's, and a null result fails the visit |
| AntlrCompiler.BlockDirectiveGetsBody | IronVelocity/Parser/AntlrToExpressionTreeCompiler.cs:369-375 | a block directive is given its visited block as a rendered block, and fails when it has none; its builder's exception or null result decides the visit as for an inline one |

## Left out

- Reflection and the DLR are abstracted. `Type.GetMethods`, `ParamArrayAttribute`, `DynamicMetaObject`, binding restrictions and call-site caching become a host table, a params marker on a parameter, and a "valid for runtime type T" tag.
- Generated expressions are trees of `ExpressionTree.Expr`, not code. The enumerator loops run over a sequence of items with the body as a parameter. For `ForeachDirective`, the sectioned loop and the running of a block are parameters too.
- The lexers behind both parsers are not modelled. `VelocityParser` reads a token sequence and `AntlrCompiler` reads a parse-tree datatype.
- The numeric values of token kinds and ANTLR token types are not modelled. Each kind is a distinct integer constant, and only distinctness matters.
- Floating-point values are kept as the text of the literal (`float.Parse` and `Convert.ToSingle`). The float's value and rounding are not computed. A magnitude beyond the range of a Single is not checked.
- Case-insensitive comparison folds ASCII letters only. The culture-invariant folding of other characters is not modelled.
- `Enum.TryParse` accepts numeric and comma-separated section names. Only the case-insensitive section names are modelled.
- Boxing of a value-type call result is a `boxed` flag on the call plan. Unboxing, and what boxing does at run time, are not modelled.
- The interpolation callback of dictionary literals and `ParseTemplate` are parameters, not implementations.
- `VisitInterpolated_string` is not modelled, because it re-parses its text with `ParseTemplate`.
- `TemplatedForeachExpression` is not part of this model. It is the per-iteration section dispatch, and it is not in the source.
- Visitors that always throw `NotImplementedException` are a single error value each.
- `VelocityASTConverter.Expr` and `Block`, and `ConversionHelpers.Operand`, are parameters of the `#if` statement and the dynamic invoke, and any of them may throw. Which nodes they refuse, and with which exception, is not modelled.
- A custom directive whose `Build` returns null fails the visit at once. The model does not follow the null through the later reduction.
- `SourceInfo` positions are not modelled.
- SetDirective.NarrowingMismatch: a variable target is lowered to the unconditional store, and the lemma says what that store is handed. `SetDirective.SlotAfter` treats a variable as a plain slot; how `VelocityContext` stores a null into a variable is not part of this model.
- GetMemberBinder.AllMembers: the host table lists methods, properties and fields only. `GetMember` also returns public events and nested types, and a single such match makes `MakeMemberAccess` throw; that case is not modelled.
- Exception messages that embed a formatted kind or type name keep only the fixed part of the message.
- DictionaryString.AddEntry: the entries are keyed by the trimmed, case-folded key. The source's case-insensitive dictionary also keeps the spelling last written for the key, and that spelling is not modelled.
- DictionaryString.IsSingleText: trailing NUL characters, which `Convert.ToSingle` also skips, are not accepted.
- ReflectionHelper.StringIndexer: when several indexers accept a string and none takes exactly a string, the default binder picks the most specific parameter type or throws `AmbiguousMatchException`. The model takes the first one declared.
- AntlrCompiler.AssignedMethodCallIsNoOp: the compiler builds the three-argument `SetDirective` of the IronVelocity tree, and that class is not part of this model. The lemma hands the compiler's assignment to the lowering of the four-argument `SetDirective` in src/Compilation/AST/SetDirective.cs, assuming the two lower alike. That assumption is not proved.
- ArgumentConverter.GetConverter: the converter is a token saying that an implicit conversion applies. The conversion expression it would build is not modelled.
- DictionaryString.RescanFromIndexOne and DictionaryString.AsWrittenNestedAtEndDiverges: the as-written scan runs on a fuel bound, and divergence is stated as "out of fuel for every fuel".
- VelocityParserProperties.EmptyList, SingletonList and NestedList: these are stated over the tokens the lexer gives for the test inputs, not over the text.

## Notes on the source

- `IsMethodApplicable` checks an extra argument against the params parameter itself (IronVelocity/Binders/ReflectionHelper.cs:265-269). So an argument that converts to the array type is accepted, not only one that converts to the element type (`ReflectionHelper.ExtraArrayArgumentAccepted`).
- The order of the nine foreach sections is not declared in the source files modelled here. The model uses BeforeAll, Before, Each, Odd, Even, Between, After, AfterAll, NoData. Only the names and their distinctness are used.
- The source's `BinaryOperation.Adddition` (IronVelocity/Parser/VelocityParser.cs:309) is `Addition` in the model.
- The null-source rules of the two conversion oracles differ for a null value and a non-primitive value type (`ArgumentConverter.NullDecimalDisagreement`).

## Findings

| source | as written | input that shows it | evidently intended | confidence | as-written member | corrected member |
|---|---|---|---|---|---|---|
| src/Compilation/AST/DictionaryStringExpression.cs:39-106 | `lastIndex` starts at 0, and a nested dictionary that reaches the end of the input without `}` returns it unchanged. The outer loop then resumes at index 1 (`out i`, then `i++`) and scans the opener again. | `%{a={`: from index 1 the key `{a` is read, the nested scan at the end returns 0, and the scan restarts at index 1 forever | a nested dictionary left open at the end of the input ends the scan, so `%{a={` maps `a` to an empty dictionary | not executed | DictionaryString.AsWrittenNestedAtEndDiverges | DictionaryString.CorrectedNestedAtEndEnds |

# reactive-value-suffix, modelled in Dafny

A model of the ESLint rule `reactive-value-suffix` from the
`eslint-plugin-reactive-value-suffix` package. The rule walks a TypeScript
file and reports any read of a Vue reactive reference that lacks `.value`.
A reactive reference is a variable initialised by `ref`, `toRefs`,
`storeToRefs` or `computed`, or destructured from one of those calls.

The model covers three parts of the rule:

- **Name collection.** Three append-only lists are built as the linter meets
  nodes:
  - reactive names, from declarators;
  - parameter names, from function declarations and arrow functions;
  - names of functions destructured from `use[A-Z]…` composables.
- **The context predicates.** These exempt an identifier occurrence from the
  check. There are two independent helper libraries with deliberately
  different meanings:
  - `astHelpers.ts` (module `AstHelpers`), which the rule uses. Its guards
    accept an absent node.
  - `function-checks.ts` (module `FunctionChecks`), built on the factory
    guards of `ast-helpers.ts` (module `AstGuards`). Those guards need a
    present node.
- **The listener state machine** of `create` (module `ReactiveValueSuffix`).
  It is a class holding the three lists and the reports sent to
  `context.report`. Each listener method is proved against `Step`, a pure
  function of the old state. `Run` is `Step` folded over a whole walk. The
  lemmas in `RuleProperties` prove the following about `Run`:
  - the lists only grow;
  - the reactive list holds exactly the names declared so far;
  - reports are well formed;
  - the exempt contexts never report.

How the model represents the source:

- **AST.** A tagged union (`Eslint.Node`) with a `uid` on every node.
  JavaScript object identity (`===`, `indexOf`, `includes`) is node equality.
  Two occurrences of the same name are distinct nodes when the input gives
  them distinct uids, as a parser does.
- **Parent chain.** Each node comes with its ancestors, nearest first.
  `Eslint.NearestCall` specifies both upward walks.
- **Type checker.** The TypeScript checker is an input: the rule receives the
  printed type of each node as the function `typeOf`.
- **Scenarios.** `Scenarios` drives the class through whole small programs,
  node by node in the linter's visit order.

Behaviour of the code that a reader of the rule's one-line purpose might not
expect, and that the model keeps:

- A destructuring of ANY of the four reactive factories adds names
  (astHelpers.ts:142-155), not only a destructuring of `storeToRefs`.
- Every `VariableDeclarator` the linter visits adds names, nested ones
  included, not only top-level ones.
- There is no pre-scan of the file. Names are collected as their declarators
  are visited, so a read before the declaration is not reported
  (`RuleProperties.ForwardReferenceNotReported`).
- A `watch` call's arity is never checked: any call whose callee is `watch`
  exempts its first argument.

## Model

| member | source | states |
|---|---|---|
| `Eslint.NearestCall` | src/rules/helpers/function-checks.ts:17-28 | the upward walk returns only a call, and only one of the node's ancestors |
| `Eslint.NearestCallIsInnermost` | src/rules/helpers/astHelpers.ts:253-259 | the walk finds a call exactly when some ancestor is one, and then the innermost one |
| `Eslint.At` | src/rules/reactive-value-suffix.ts:84-85 | JavaScript indexing: `s[i]` when `i` is in range, undefined past the end; gives `node.parent`, `parent?.parent` and `arguments[0]` |
| `Constants.ComposablePatternIsPrefixTest` | src/rules/constants/constant.ts:11 | `^use[A-Z]` holds exactly when `use` plus one capital letter is a prefix of the name |
| `Constants.ComposablePatternIgnoresSuffix` | src/rules/constants/constant.ts:9-11 | characters after the fourth never change the match |
| `Constants.ComposablePatternIsAnchored` | src/rules/constants/constant.ts:11 | a name not starting with `u` never matches, whatever follows |
| `Constants.ReactiveFunctions` | src/rules/constants/constant.ts:4 | the four factories `ref`, `toRefs`, `storeToRefs` and `computed` |
| `Constants.MatchesComposablePattern` | src/rules/constants/constant.ts:11 | `/^use[A-Z]/.test(name)`: at least four characters, the first three `use`, the fourth an ASCII capital |
| `Constants.ComposablePatternExamples` | src/rules/constants/constant.ts:9-11 | `useSomething` and `useA` match; `doSomething`, `use`, `useful` and `user` do not |
| `ArrayUtils.AddToList` | src/rules/utils/arrayUtils.ts:10-12 | the result is the old list followed by the items: its length is the sum, and both parts keep their order |
| `ArrayUtils.AddToListKeepsMembers` | src/rules/utils/arrayUtils.ts:1-12 | a name in the old list is in the new one |
| `ArrayUtils.AddToListExamples` | test/rules/utils/arrayUtils.spec.ts:4-40 | the tested cases, including empty items and both lists empty |
| `AstGuards.GuardsNarrow` | src/rules/helpers/ast-helpers.ts:3-23 | each factory guard holds exactly for the node kind of its tag |
| `AstGuards.NodeTypeGuardFactory` | src/rules/helpers/ast-helpers.ts:3-5 | the guard built for a tag compares a present node's `type` with that tag |
| `AstGuards.GuardsTestTheirTags` | src/rules/helpers/ast-helpers.ts:7-23 | guard i compares `node.type` with tag i |
| `AstGuards.GuardsPairwiseExclusive` | src/rules/helpers/ast-helpers.ts:10-23 | no two guards hold of one node, `isVariableDeclaration` and `isVariableDeclarator` included; some guard holds exactly for a guarded kind |
| `AstGuards.GuardExamples` | test/helpers/ast-helpers.spec.ts:30-39 | `isIdentifier` is false on a Literal and `isMemberExpression` is false on an Identifier; the two declaration guards tell each other's kinds apart |
| `AstHelpers.GuardsNarrow` | src/rules/helpers/astHelpers.ts:39-103 | `isNodeOfType` is false on an absent node; each guard holds exactly for a present node of its kind |
| `AstHelpers.IsNodeOfType` | src/rules/helpers/astHelpers.ts:39-41 | false for undefined, otherwise `node.type` equals the tag |
| `AstHelpers.IsParentNonNullAssertion` | src/rules/helpers/astHelpers.ts:110-111 | the node's parent exists and is a `TSNonNullExpression` |
| `AstHelpers.SelectNamesMembership` | src/rules/helpers/astHelpers.ts:147-152 | the reduce-with-push collects a name exactly when some node yields it |
| `AstHelpers.AddArgumentsToList` | src/rules/helpers/astHelpers.ts:119-124 | the old list is a prefix; the appended names are exactly the names of identifier parameters; at most one name per parameter |
| `AstHelpers.AddReactiveVariables` | src/rules/helpers/astHelpers.ts:132-134 | appends the declared name when the initialiser calls a reactive factory and the id is an identifier; otherwise the list is unchanged |
| `AstHelpers.IsFunctionCall` | src/rules/helpers/astHelpers.ts:240-246 | the declarator's initialiser is a call whose callee is an identifier named in the list |
| `AstHelpers.AddToVariablesListFromCalleeWithArgument` | src/rules/helpers/astHelpers.ts:142-155 | the loop appends, in order, the identifier values of the entries of an object pattern bound to a reactive factory call, and nothing otherwise |
| `AstHelpers.DestructuredReactiveNamesMembership` | src/rules/helpers/astHelpers.ts:142-155 | a name is added exactly when the factory is called, the id is an object pattern, and some Property entry has that identifier as value; rest elements add nothing |
| `AstHelpers.AddDestructuredFunctionNames` | src/rules/helpers/astHelpers.ts:163-181 | the loop appends, in order, the identifier keys of the Property entries of an object pattern bound to a `use[A-Z]` call, and nothing otherwise |
| `AstHelpers.DestructuredFunctionNamesMembership` | src/rules/helpers/astHelpers.ts:163-181 | a name is added exactly when the declarator destructures a composable call and some Property entry has that identifier key |
| `AstHelpers.GetAncestorCallExpression` | src/rules/helpers/astHelpers.ts:253-259 | the loop returns the nearest ancestor call, or none |
| `AstHelpers.IsMatchingFunctionName` | src/rules/helpers/astHelpers.ts:211-213 | the name matches `^use[A-Z]` or is in the ignore list |
| `AstHelpers.IsArgumentOfFunction` | src/rules/helpers/astHelpers.ts:189-203 | the nearest call's callee is an identifier with a matching name, and some argument is an identifier spelled like the node |
| `AstHelpers.IsWatchArgument` | src/rules/helpers/astHelpers.ts:220-232 | the nearest call's callee is the identifier `watch`, and the node is its first argument or an element of an array literal given first; a call without arguments gives false |
| `AstHelpers.IsPropertyValue` | src/rules/helpers/astHelpers.ts:266-268 | the node is a member expression whose property is the identifier `value` |
| `AstHelpers.IsFunctionArgument` | src/rules/helpers/astHelpers.ts:276-278 | the identifier's name is among the collected parameter names |
| `AstHelpers.IsObjectKey` | src/rules/helpers/astHelpers.ts:286-288 | the node is a Property whose key is an identifier spelled like the given identifier |
| `AstHelpers.IsOriginalDeclaration` | src/rules/helpers/astHelpers.ts:295-297 | the node is a member expression or a Property |
| `AstHelpers.IsNodeDestructuredFunction` | src/rules/helpers/astHelpers.ts:327-332 | the node is a call whose identifier callee is a destructured composable function |
| `AstHelpers.IsDestructuredFunctionArgument` | src/rules/helpers/astHelpers.ts:306-320 | the parent, or else an existing grandparent, is such a call |
| `AstHelpers.ArgumentOfFunctionNeedsMatchingCallee` | src/rules/helpers/astHelpers.ts:189-213 | `isArgumentOfFunction` is false unless the nearest call's identifier callee is a composable name or an ignored name |
| `AstHelpers.ArgumentOfFunctionComparesNames` | src/rules/helpers/astHelpers.ts:189-203 | under such a callee, it holds exactly when some argument is an identifier spelled like the node; same-named identifiers get the same answer |
| `AstHelpers.WatchArgumentShape` | src/rules/helpers/astHelpers.ts:220-232 | `isWatchArgument` holds only under a `watch` call, for its first argument or an element of an array literal in first position |
| `AstHelpers.GuardTestExamples` | test/rules/helpers/astHelpers.spec.ts:17-65 | the ten tested guard cases (Identifier, ObjectPattern and Property both ways; CallExpression, VariableDeclarator, MemberExpression and AssignmentPattern), plus false on an absent node |
| `AstHelpers.HelperExamples` | test/rules/helpers/astHelpers.spec.ts:68-107 | the tested `addArgumentsToList`, `addReactiveVariables` and `isMatchingFunctionName` cases |
| `FunctionChecks.FindAncestorCallExpression` | src/rules/helpers/function-checks.ts:17-28 | the loop with its early return yields the nearest ancestor call, or null |
| `FunctionChecks.IsPropertyValue` | src/rules/helpers/function-checks.ts:15 | the node is a Property whose parent is an object literal |
| `FunctionChecks.IsWatchArgumentAsWritten` | src/rules/helpers/function-checks.ts:30-43 | the code as written: false without a nearest call or with another callee, true for the first argument, a TypeError (none) when the `watch` call has no arguments, otherwise membership in an array literal given first |
| `FunctionChecks.IsWatchArgument` | src/rules/helpers/function-checks.ts:30-43 | the corrected predicate: the nearest call is `watch` with at least one argument, and the node is the first argument or an element of an array literal given first |
| `FunctionChecks.IsSpecialFunctionArgument` | src/rules/helpers/function-checks.ts:45-54 | the nearest call's callee is an identifier in the list, and the node itself is one of its arguments |
| `FunctionChecks.IsComposablesFunctionArgument` | src/rules/helpers/function-checks.ts:56-65 | the nearest call's callee is an identifier matching `^use[A-Z]`, and the node itself is one of its arguments |
| `FunctionChecks.IsArgumentOfFunction` | src/rules/helpers/function-checks.ts:67-77 | the direct parent is a call with the node itself among its arguments and an identifier callee in the ignore list |
| `FunctionChecks.IsInDeclarationContext` | src/rules/helpers/function-checks.ts:85-88 | the parent is a declarator, an array pattern, or a Property inside an object pattern |
| `FunctionChecks.IsPropertyAccess` | src/rules/helpers/function-checks.ts:90-94 | the parent is `x.value`, a member expression whose property is another node, a Property keyed by the node, or an object-literal entry |
| `FunctionChecks.IsSpecialArgument` | src/rules/helpers/function-checks.ts:96-100 | the node is a watch argument, a special-function argument, an ignored-function argument or a composable argument |
| `FunctionChecks.ShouldSuppressWarning` | src/rules/helpers/function-checks.ts:79-105 | the disjunction of the declaration, property-access, special-argument and array-literal contexts, with the corrected watch test |
| `FunctionChecks.ShouldSuppressWarningAsWritten` | src/rules/helpers/function-checks.ts:79-105 | the code as written throws exactly when the nearest call is `watch` with no arguments; wherever it returns, it returns `ShouldSuppressWarning` |
| `FunctionChecks.SuppressionThrowsOnWatchWithoutArguments` | src/rules/helpers/function-checks.ts:96-104 | on the callee of `watch()` the suppression check as written throws, and the corrected one answers "report" |
| `FunctionChecks.WatchWithoutArgumentsThrows` | src/rules/helpers/function-checks.ts:38-42 | on the callee of `watch()`, the code as written throws, where the corrected predicate answers false |
| `FunctionChecks.WatchArgumentCorrectionAgrees` | src/rules/helpers/function-checks.ts:30-43 | wherever the code as written returns, the corrected `isWatchArgument` returns the same answer |
| `FunctionChecks.WatchArgumentThrowsOnlyWithoutArguments` | src/rules/helpers/function-checks.ts:38-42 | the code as written fails exactly under a `watch` call with no arguments |
| `FunctionChecks.SuppressedContexts` | src/rules/helpers/function-checks.ts:85-102 | a declarator or array-pattern parent, a Property in an object pattern, a member expression whose property is another node, a Property key, an array-literal parent, and a watch argument all suppress |
| `FunctionChecks.SuppressionIsMonotone` | src/rules/helpers/function-checks.ts:96-104 | enlarging the composable list or the ignore list can only turn "report" into "suppress" |
| `FunctionChecks.ArgumentOfFunctionIsSpecialArgument` | src/rules/helpers/function-checks.ts:67-77 | an argument of an ignored direct-parent call is a special-function argument for the same list |
| `FunctionChecks.SpecialArgumentsAreArgumentsOfNearestCall` | src/rules/helpers/function-checks.ts:45-65 | both call-argument tests hold only for a node that is itself an argument of the nearest call, whose callee is an identifier |
| `FunctionChecks.ComposablesArgumentIsSpecialArgument` | src/rules/helpers/function-checks.ts:45-65 | the composable test is exactly the special-function test for the callee's own name, when that name matches `^use[A-Z]` |
| `FunctionChecks.ComposablesArgumentComparesNodes` | src/rules/helpers/function-checks.ts:56-65 | membership is by identity: another identifier with the argument's name is not an argument |
| `LibraryComparison.PropertyValueMeaningsDiffer` | src/rules/helpers/function-checks.ts:15 | one `isPropertyValue` is an `x.value` access, the other an object-literal entry, and no node is both |
| `LibraryComparison.ArgumentOfFunctionDirectImpliesNearest` | src/rules/helpers/function-checks.ts:67-77 | the direct-parent test of function-checks implies the nearest-call test of astHelpers |
| `LibraryComparison.ArgumentOfFunctionNearestNotDirect` | src/rules/helpers/astHelpers.ts:189-213 | the converse fails: for `useFoo(count)` with no ignore list, and for a same-named identifier that is not the argument |
| `LibraryComparison.WatchArgumentLibrariesAgree` | src/rules/helpers/astHelpers.ts:220-232 | the corrected function-checks `isWatchArgument` equals the astHelpers one |
| `LibraryComparison.BothWalksAgree` | src/rules/helpers/function-checks.ts:17-28 | the two upward walks return the same innermost call |
| `LibraryComparison.GuardsAgree` | src/rules/helpers/ast-helpers.ts:7-23 | the two libraries' guards agree on present nodes; only the astHelpers guards accept an absent one |
| `TypeHelpers.CreateReportData` | src/rules/helpers/types.ts:15-22 | the payload keeps the node and message id, and names the identifier |
| `TypeHelpers.CreateReportDataExample` | test/helpers/types.spec.ts:37-56 | the tested payload |
| `TypeHelpers.MemoCall` | src/rules/helpers/types.ts:26-31 | with a value cached, a call changes nothing; otherwise it invokes `fn` once and caches its answer |
| `TypeHelpers.MemoRetriesUndefined` | src/rules/helpers/types.ts:27-29 | while `fn` answers undefined, nothing is cached and every call invokes it again |
| `TypeHelpers.MemoKeepsFirstDefined` | src/rules/helpers/types.ts:26-31 | after `fn`'s first defined answer, every later call returns it and `fn` is never invoked again |
| `TypeHelpers.MemoFirstAnswerIsFinal` | test/helpers/types.spec.ts:67-87 | a defined first answer is returned by every call, and `fn` runs exactly once |
| `TypeHelpers.MemoIgnoresFnOnceCached` | test/helpers/types.spec.ts:89-103 | once a value is cached, swapping `fn`'s implementation changes nothing |
| `TypeHelpers.Memoized.constructor` | src/rules/helpers/types.ts:24-25 | a fresh memoiser has nothing cached and has invoked nothing |
| `TypeHelpers.Memoized.Call` | src/rules/helpers/types.ts:26-31 | a call performs `MemoCall` on the closure state and returns the cached value |
| `TypeHelpers.MemoizeExample` | test/helpers/types.spec.ts:58-87 | three calls with a first answer of 42 all return 42, with one invocation |
| `ReactiveValueSuffix.IncludesIffOccursAt` | src/rules/reactive-value-suffix.ts:50-51 | `includes` holds exactly when the substring occurs at some offset |
| `ReactiveValueSuffix.IncludesNeedsFirstChar` | src/rules/reactive-value-suffix.ts:51 | a string without `sub`'s first character does not include `sub` |
| `ReactiveValueSuffix.IgnoredFunctionNames` | src/rules/reactive-value-suffix.ts:155-156 | a missing option object or field gives an empty ignore list; a given list is used as is |
| `ReactiveValueSuffix.ReportsFor` | src/rules/reactive-value-suffix.ts:50-59 | at most one report, and one exactly when the type mentions `Ref`, lacks `.value`, and the parent is not `x!`; it carries the node, `requireValueSuffix` and the name |
| `ReactiveValueSuffix.IdentifierIsChecked` | src/rules/reactive-value-suffix.ts:84-98 | the guard of `checkIdentifier`: all nine exemptions fail, in source order, and the name is reactive |
| `ReactiveValueSuffix.MemberIsChecked` | src/rules/reactive-value-suffix.ts:118 | the guard of `checkMemberExpression`: not `x.value`, and the object is an identifier with a reactive name |
| `ReactiveValueSuffix.Step` | src/rules/reactive-value-suffix.ts:163-190 | one listener call: a declarator runs the three collectors in order, a function appends its parameter names, an identifier or member expression may append `ReportsFor`, any other node changes nothing |
| `ReactiveValueSuffix.Run` | src/rules/reactive-value-suffix.ts:154-191 | the listener calls of a walk applied in order |
| `ReactiveValueSuffix.ReactiveValueSuffixRule.constructor` | src/rules/reactive-value-suffix.ts:154-159 | reads the ignore-list default and starts with three empty lists and no reports |
| `ReactiveValueSuffix.ReactiveValueSuffixRule.CheckNodeAndReport` | src/rules/reactive-value-suffix.ts:39-61 | appends `ReportsFor` to the sink and changes nothing else |
| `ReactiveValueSuffix.ReactiveValueSuffixRule.CheckIdentifier` | src/rules/reactive-value-suffix.ts:74-101 | the Identifier listener performs `Step` |
| `ReactiveValueSuffix.ReactiveValueSuffixRule.CheckMemberExpression` | src/rules/reactive-value-suffix.ts:111-121 | the MemberExpression listener performs `Step`, checking the object with the member expression as its parent |
| `ReactiveValueSuffix.ReactiveValueSuffixRule.OnVariableDeclarator` | src/rules/reactive-value-suffix.ts:164-168 | the three collectors, run in the source's order, perform `Step` |
| `ReactiveValueSuffix.ReactiveValueSuffixRule.OnFunction` | src/rules/reactive-value-suffix.ts:169-174 | both function listeners append the parameter names, performing `Step` |
| `ReactiveValueSuffix.ReactiveValueSuffixRule.Listen` | src/rules/reactive-value-suffix.ts:163-190 | dispatch on the node kind performs `Step` |
| `RuleProperties.StepGrows` | src/rules/reactive-value-suffix.ts:164-174 | after any listener call each old list and the old reports are prefixes of the new ones |
| `RuleProperties.RunGrows` | src/rules/reactive-value-suffix.ts:157-190 | the state after any prefix of a walk is a prefix of the final state |
| `RuleProperties.DeclaratorStep` | src/rules/reactive-value-suffix.ts:164-168 | the declarator listener appends the declared reactive names and destructured function names, and changes nothing else |
| `RuleProperties.StepAddsReactiveNames` | src/rules/reactive-value-suffix.ts:165-166 | one listener call appends exactly the names its node declares |
| `RuleProperties.ReactiveNamesCollected` | src/rules/reactive-value-suffix.ts:157-168 | after a walk, a name is reactive exactly when some visited declarator declared it |
| `RuleProperties.ForwardReferenceNotReported` | src/rules/reactive-value-suffix.ts:87-101 | an identifier visited before any declarator of its name is not reported |
| `RuleProperties.ReportsWellFormed` | src/rules/reactive-value-suffix.ts:55-59 | every report is `createReportData` of an identifier with `requireValueSuffix` |
| `RuleProperties.StepReportsAtMostOnce` | src/rules/reactive-value-suffix.ts:54-60 | a listener call adds at most one report, and only the Identifier and MemberExpression listeners add any |
| `RuleProperties.UnlistenedKindsChangeNothing` | src/rules/reactive-value-suffix.ts:163-190 | a node kind without a listener changes nothing |
| `RuleProperties.IdentifierExemptions` | src/rules/reactive-value-suffix.ts:87-98 | a non-reactive name, a declarator, member or Property parent, a parameter name, a watch argument, or an ignored or composable call's argument never reports |
| `RuleProperties.DestructuredFunctionArgumentExempt` | src/rules/reactive-value-suffix.ts:96 | an argument of a call to a destructured composable function, as parent or grandparent, never reports |
| `RuleProperties.ComposableArgumentExempt` | src/rules/reactive-value-suffix.ts:95 | an identifier spelled like an argument of the nearest `use[A-Z]` call never reports, whatever the ignore list |
| `RuleProperties.IdentifierReportedIffTypeTest` | src/rules/reactive-value-suffix.ts:87-100 | outside the exemptions, one report exactly when the type test passes, and no other change |
| `RuleProperties.IdentifierGuardRedundancy` | src/rules/reactive-value-suffix.ts:87-98 | `isObjectKey` and `isPropertyValue` in the identifier guard never decide anything |
| `RuleProperties.PlainReadIsChecked` | src/rules/reactive-value-suffix.ts:84-98 | a read under a plain parent and inside no call is checked exactly when it names a reactive reference that is not a function parameter |
| `RuleProperties.MemberExemptions` | src/rules/reactive-value-suffix.ts:118-120 | `x.value`, a non-identifier object, or a non-reactive name never reports |
| `RuleProperties.MemberReportedIffTypeTest` | src/rules/reactive-value-suffix.ts:118-119 | otherwise the object is reported exactly when its type mentions `Ref` and lacks `.value`; the non-null exemption cannot apply |
| `RuleProperties.OptionsDefault` | src/rules/reactive-value-suffix.ts:155-156 | no options, or options without the field, give an empty ignore list |
| `RuleProperties.RefTypeNeedsSuffix` | src/rules/reactive-value-suffix.ts:50-51 | the printed type `Ref<number>` passes the type test |
| `Scenarios.StoreRefsNames` | src/rules/helpers/astHelpers.ts:142-155 | `const { x, y } = storeToRefs(store)` declares `x` and `y` |
| `Scenarios.UseApiNames` | src/rules/helpers/astHelpers.ts:163-181 | `const { fetchData } = useApi()` declares the composable function `fetchData` and no reference |
| `Scenarios.LogCount` | src/rules/reactive-value-suffix.ts:154-190 | `const count = ref(0); console.log(count);` gives one report, at the read, naming `count` |
| `Scenarios.LogCountValue` | src/rules/reactive-value-suffix.ts:111-121 | `console.log(count.value)` gives no report |
| `Scenarios.DeclareStoreRefs` | src/rules/reactive-value-suffix.ts:163-168 | visiting every node of `const { x, y } = storeToRefs(store)` from the initial state adds `x` and `y` to the reactive list and nothing else |
| `Scenarios.ReadStoreRefs` | src/rules/reactive-value-suffix.ts:164-190 | `return x + y` after destructuring `storeToRefs` reports both reads and neither declaration |
| `Scenarios.CallComposableFunction` | src/rules/reactive-value-suffix.ts:164-186 | `fetchData()` after destructuring `useApi()` gives no report |
| `Scenarios.WatchFlag` | src/rules/reactive-value-suffix.ts:94 | `watch(flag, () => {})` gives no report |
| `Scenarios.PassIdTo` | src/rules/reactive-value-suffix.ts:95 | `doSomething(id)` is reported unless `doSomething` is in the ignore list |
| `Scenarios.IgnoreListDecides` | src/rules/reactive-value-suffix.ts:155-156 | configured with `['doSomething']`, no report; with no options, one |

## Left out

- Node identity is a uid that the input supplies. The model assumes, without checking, that a parsed program gives distinct nodes distinct uids, as it assumes the ancestors are the node's parents.
- The TypeScript checker and parser services (`esTreeNodeToTSNodeMap`, `getTypeAtLocation`, `typeToString`) are foreign calls. The printed type is the input `typeOf`. `getTypeString` in types.ts only chains these three calls, so it is not modelled.
- Parsing and ESLint's traversal driver are not modelled. The rule is given each visited node with its ancestors, in visit order. The model does not check that the ancestors really are the node's parents.
- Rule metadata, the JSON-schema option validation and the `{{name}}` interpolation of the message text are host configuration. The model keeps the message id and `data.name`, and the option default.
- src/index.ts, the type-only files and the tool configuration have no behaviour.
- `null` holes in array literals and patterns, spread arguments and every other node kind the code never tests are `OtherNode`.
- General regular expressions are left out: only the fixed `^use[A-Z]` test is modelled.
- Idempotence is not stated as a lemma. `Run` is a function of the file, the options and the types, so two runs agree by construction.
- AstHelpers.AddArgumentsToList: its contract states the prefix, the bounds and the membership of the appended names. The order of the appended names is fixed by the definition of `SelectNames`, not by an ensures.
- FunctionChecks.IsPropertyValue, FunctionChecks.IsArgumentOfFunction and FunctionChecks.ShouldSuppressWarning require the parents they read. A parsed program always has them; without them the factory guards would throw.
- FunctionChecks.ShouldSuppressWarning: uses the corrected `IsWatchArgument`; the code as written throws on the callee of `watch()`. `FunctionChecks.ShouldSuppressWarningAsWritten` models that throw.
- FunctionChecks.ShouldSuppressWarning: the separate `parent` parameter is taken to be `node.parent`, as every other helper it calls assumes.
- TypeHelpers.Memoized: `fn` is modelled as its answer on each successive invocation, with `None` for `undefined`. Side effects of `fn` other than its answer are not modelled.

## Findings

| source | as written | input that shows it | evidently intended | confidence | as-written member | corrected member |
|---|---|---|---|---|---|---|
| src/rules/helpers/function-checks.ts:38-42 | `callExpression.arguments[0]` is undefined when the nearest `watch` call has no arguments. `isArrayExpression` then reads `.type` of undefined and throws a TypeError, which also escapes `shouldSuppressWarning` (lines 96-104). | the callee identifier `watch` in the statement `watch();` | answer false, as the astHelpers `isWatchArgument` does for the same input | not executed; the guard reads `node.type` unconditionally | `FunctionChecks.WatchWithoutArgumentsThrows` | `FunctionChecks.WatchArgumentCorrectionAgrees` |

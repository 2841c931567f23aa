/** The second helper library (function-checks.ts), built on the guards of
    `AstGuards`, which need a present node. It decides whether a warning on
    an identifier should be suppressed. Its predicates differ on purpose from
    the like-named ones of `AstHelpers`: `IsPropertyValue` tests an object
    literal entry rather than a `.value` access, and `IsArgumentOfFunction`
    looks at the direct parent and compares nodes rather than names. */
module FunctionChecks {
  import opened Eslint
  import opened Constants
  import opened AstGuards

  /** `isPropertyValue(node)`: an entry of an object literal. The guard on the
      parent reads `node.parent.type`, so a Property must have a parent (it
      always has one in a parsed program). */
  predicate IsPropertyValue(node: Node, nodeAncestors: seq<Node>)
    requires IsProperty(node) ==> |nodeAncestors| >= 1
  {
    IsProperty(node) && IsObjectExpression(nodeAncestors[0])
  }

  /** `findAncestorCallExpression(node)`: walk up from `node.parent`, returning
      the first call met. */
  method FindAncestorCallExpression(ancestors: seq<Node>) returns (r: Option<Node>)
    ensures r == NearestCall(ancestors)
    ensures r.Some? ==> r.value in ancestors
  {
    var i := 0;
    var currentNode := At(ancestors, 0);
    while currentNode.Some?
      invariant 0 <= i <= |ancestors|
      invariant currentNode == At(ancestors, i)
      invariant NearestCall(ancestors[i..]) == NearestCall(ancestors)
      decreases |ancestors| - i
    {
      if IsCallExpression(currentNode.value) {
        return currentNode;
      }
      assert ancestors[i..][1..] == ancestors[i + 1..];
      i := i + 1;
      currentNode := At(ancestors, i);
    }
    return None;
  }

  /** A call (the only kind `findAncestorCallExpression` returns) whose callee
      is an identifier named `watch`. */
  predicate IsWatchCall(call: Option<Node>) {
    call.Some? && call.value.CallExpression? && IsIdentifier(call.value.callee) && call.value.callee.name == "watch"
  }

  /** `isWatchArgument(node)` as written: `None` is the TypeError raised when
      the watch call has no arguments, because `arguments[0]` is then
      undefined and the guard `isArrayExpression` reads its `type`. */
  function IsWatchArgumentAsWritten(node: Node, ancestors: seq<Node>): Option<bool> {
    var callExpression := NearestCall(ancestors);
    if callExpression.None? then Some(false)
    else if !IsWatchCall(callExpression) then Some(false)
    else
      var arguments := callExpression.value.arguments;
      if At(arguments, 0) == Some(node) then Some(true)
      else if |arguments| == 0 then None
      else Some(IsArrayExpression(arguments[0]) && node in arguments[0].elements)
  }

  /** `isWatchArgument(node)` with the missing first argument read as "not an
      array literal", as the like-named predicate of `AstHelpers` does: the
      nearest enclosing call is `watch(...)` and the node is its first
      argument or an element of an array literal given as its first argument. */
  predicate IsWatchArgument(node: Node, ancestors: seq<Node>) {
    var callExpression := NearestCall(ancestors);
    IsWatchCall(callExpression) &&
    var arguments := callExpression.value.arguments;
    |arguments| > 0 &&
    (arguments[0] == node || (IsArrayExpression(arguments[0]) && node in arguments[0].elements))
  }

  /** The identifier `watch` in the statement `watch();` makes the code as
      written throw, where the corrected predicate answers false. */
  lemma WatchWithoutArgumentsThrows()
    ensures var callee := Identifier(1, "watch");
            var call := CallExpression(0, callee, []);
            IsWatchArgumentAsWritten(callee, [call]) == None && !IsWatchArgument(callee, [call])
  {
  }

  /** Wherever the code as written returns, the corrected predicate returns
      the same answer. */
  lemma WatchArgumentCorrectionAgrees(node: Node, ancestors: seq<Node>)
    requires IsWatchArgumentAsWritten(node, ancestors).Some?
    ensures IsWatchArgumentAsWritten(node, ancestors).value == IsWatchArgument(node, ancestors)
  {
  }

  /** The code as written fails exactly on a node under a `watch()` call
      without arguments. */
  lemma WatchArgumentThrowsOnlyWithoutArguments(node: Node, ancestors: seq<Node>)
    ensures IsWatchArgumentAsWritten(node, ancestors).None? <==>
      IsWatchCall(NearestCall(ancestors)) && NearestCall(ancestors).value.arguments == []
  {
  }

  /** `isSpecialFunctionArgument(node, specialFunctions)`: the node itself is
      an argument of the nearest enclosing call, whose callee is an
      identifier named in the list. */
  predicate IsSpecialFunctionArgument(node: Node, ancestors: seq<Node>, specialFunctions: seq<string>) {
    var callExpression := NearestCall(ancestors);
    callExpression.Some? &&
    IsIdentifier(callExpression.value.callee) && callExpression.value.callee.name in specialFunctions &&
    node in callExpression.value.arguments
  }

  /** `isComposablesFunctionArgument(node)`: the node itself is an argument of
      the nearest enclosing call, whose callee is an identifier matching
      `^use[A-Z]`. */
  predicate IsComposablesFunctionArgument(node: Node, ancestors: seq<Node>) {
    var callExpression := NearestCall(ancestors);
    callExpression.Some? &&
    IsIdentifier(callExpression.value.callee) && MatchesComposablePattern(callExpression.value.callee.name) &&
    node in callExpression.value.arguments
  }

  /** `isArgumentOfFunction(node, ignoredFunctionNames)`: only the direct
      parent counts; it must be a call that has the node itself among its
      arguments and whose callee is an identifier in the ignore list. An
      identifier always has a parent. */
  predicate IsArgumentOfFunction(node: Node, ancestors: seq<Node>, ignoredFunctionNames: seq<string>)
    requires |ancestors| >= 1
  {
    var parent := ancestors[0];
    IsCallExpression(parent) &&
    node in parent.arguments && IsIdentifier(parent.callee) && parent.callee.name in ignoredFunctionNames
  }

  /** The identifier binds a name rather than reading one. */
  predicate IsInDeclarationContext(ancestors: seq<Node>)
    requires |ancestors| >= 1
  {
    var parent := ancestors[0];
    IsVariableDeclarator(parent) || IsArrayPattern(parent) ||
    (IsProperty(parent) && |ancestors| >= 2 && IsObjectPattern(ancestors[1]))
  }

  /** The identifier sits in a property position. */
  predicate IsPropertyAccess(node: Node, ancestors: seq<Node>)
    requires |ancestors| >= 1
    requires ancestors[0].Property? && ancestors[0].key != node ==> |ancestors| >= 2
  {
    var parent := ancestors[0];
    (IsMemberExpression(parent) && IsIdentifier(parent.property) && parent.property.name == "value") ||
    (IsMemberExpression(parent) && parent.property != node) ||
    (IsProperty(parent) && parent.key == node) ||
    IsPropertyValue(parent, ancestors[1..])
  }

  /** The identifier is an argument that a called function unwraps itself. */
  predicate IsSpecialArgument(node: Node, ancestors: seq<Node>, composableFunctions: seq<string>,
                              ignoredFunctionNames: seq<string>)
    requires |ancestors| >= 1
  {
    IsWatchArgument(node, ancestors) ||
    IsSpecialFunctionArgument(node, ancestors, composableFunctions) ||
    IsArgumentOfFunction(node, ancestors, ignoredFunctionNames) ||
    IsComposablesFunctionArgument(node, ancestors)
  }

  /** `shouldSuppressWarning(node, parent, composableFunctions,
      ignoredFunctionNames)`, with `parent` the node's parent: the
      disjunction of the four context groups. A Property parent whose key is
      not the node must itself have a parent, as `isPropertyValue` reads it. */
  predicate ShouldSuppressWarning(node: Node, ancestors: seq<Node>, composableFunctions: seq<string>,
                                  ignoredFunctionNames: seq<string>)
    requires |ancestors| >= 1
    requires ancestors[0].Property? && ancestors[0].key != node ==> |ancestors| >= 2
  {
    var isInLiteral := IsArrayExpression(ancestors[0]);
    IsInDeclarationContext(ancestors) || IsPropertyAccess(node, ancestors) ||
    IsSpecialArgument(node, ancestors, composableFunctions, ignoredFunctionNames) || isInLiteral
  }

  /** `shouldSuppressWarning` as written: the four context groups are
      evaluated eagerly and `isWatchArgument` comes first in the third, so
      the TypeError of `IsWatchArgumentAsWritten` escapes from every call;
      wherever the code returns, it returns the corrected answer. */
  function ShouldSuppressWarningAsWritten(node: Node, ancestors: seq<Node>, composableFunctions: seq<string>,
                                          ignoredFunctionNames: seq<string>): (r: Option<bool>)
    requires |ancestors| >= 1
    requires ancestors[0].Property? && ancestors[0].key != node ==> |ancestors| >= 2
    ensures r.None? <==> IsWatchCall(NearestCall(ancestors)) && NearestCall(ancestors).value.arguments == []
    ensures r.Some? ==> r.value == ShouldSuppressWarning(node, ancestors, composableFunctions, ignoredFunctionNames)
  {
    var isInDeclarationContext := IsInDeclarationContext(ancestors);
    var isPropertyAccess := IsPropertyAccess(node, ancestors);
    var isWatchArgument := IsWatchArgumentAsWritten(node, ancestors);
    if isWatchArgument.None? then None
    else
      WatchArgumentThrowsOnlyWithoutArguments(node, ancestors);
      WatchArgumentCorrectionAgrees(node, ancestors);
      var isSpecialArgument :=
        isWatchArgument.value ||
        IsSpecialFunctionArgument(node, ancestors, composableFunctions) ||
        IsArgumentOfFunction(node, ancestors, ignoredFunctionNames) ||
        IsComposablesFunctionArgument(node, ancestors);
      var isInLiteral := IsArrayExpression(ancestors[0]);
      Some(isInDeclarationContext || isPropertyAccess || isSpecialArgument || isInLiteral)
  }

  /** On the identifier `watch` in `watch();` the suppression check as
      written throws, where the corrected one answers "report". */
  lemma SuppressionThrowsOnWatchWithoutArguments()
    ensures var callee := Identifier(1, "watch");
            var call := CallExpression(0, callee, []);
            ShouldSuppressWarningAsWritten(callee, [call], [], []) == None &&
            !ShouldSuppressWarning(callee, [call], [], [])
  {
  }

  /** The contexts that always suppress, whatever the lists say. */
  lemma SuppressedContexts(node: Node, ancestors: seq<Node>, composableFunctions: seq<string>,
                           ignoredFunctionNames: seq<string>)
    requires |ancestors| >= 1
    requires ancestors[0].Property? && ancestors[0].key != node ==> |ancestors| >= 2
    requires || ancestors[0].VariableDeclarator?
             || ancestors[0].ArrayPattern?
             || (ancestors[0].Property? && |ancestors| >= 2 && ancestors[1].ObjectPattern?)
             || (ancestors[0].MemberExpression? && ancestors[0].property != node)
             || (ancestors[0].Property? && ancestors[0].key == node)
             || ancestors[0].ArrayExpression?
             || IsWatchArgument(node, ancestors)
    ensures ShouldSuppressWarning(node, ancestors, composableFunctions, ignoredFunctionNames)
  {
  }

  /** Enlarging the composable list or the ignore list can only turn "report"
      into "suppress", never the other way round. */
  lemma SuppressionIsMonotone(node: Node, ancestors: seq<Node>,
                              composables: seq<string>, ignored: seq<string>,
                              composables': seq<string>, ignored': seq<string>)
    requires |ancestors| >= 1
    requires ancestors[0].Property? && ancestors[0].key != node ==> |ancestors| >= 2
    requires forall f :: f in composables ==> f in composables'
    requires forall f :: f in ignored ==> f in ignored'
    requires ShouldSuppressWarning(node, ancestors, composables, ignored)
    ensures ShouldSuppressWarning(node, ancestors, composables', ignored')
  {
  }

  /** A direct-parent ignored call is also the nearest enclosing call, so an
      ignored-function argument is a special-function argument for the same
      list. */
  lemma ArgumentOfFunctionIsSpecialArgument(node: Node, ancestors: seq<Node>, names: seq<string>)
    requires |ancestors| >= 1
    requires IsArgumentOfFunction(node, ancestors, names)
    ensures IsSpecialFunctionArgument(node, ancestors, names)
  {
  }

  /** Both call-argument tests look at the nearest enclosing call only, and
      hold only for a node that is itself one of its arguments. */
  lemma SpecialArgumentsAreArgumentsOfNearestCall(node: Node, ancestors: seq<Node>, specialFunctions: seq<string>)
    requires IsSpecialFunctionArgument(node, ancestors, specialFunctions) || IsComposablesFunctionArgument(node, ancestors)
    ensures NearestCall(ancestors).Some? && node in NearestCall(ancestors).value.arguments
    ensures NearestCall(ancestors).value.callee.Identifier?
  {
  }

  /** The composable test is the special-function test for the list holding
      just the callee's name, when that name matches `^use[A-Z]`. */
  lemma ComposablesArgumentIsSpecialArgument(node: Node, ancestors: seq<Node>)
    ensures IsComposablesFunctionArgument(node, ancestors) <==>
      NearestCall(ancestors).Some? && NearestCall(ancestors).value.callee.Identifier? &&
      MatchesComposablePattern(NearestCall(ancestors).value.callee.name) &&
      IsSpecialFunctionArgument(node, ancestors, [NearestCall(ancestors).value.callee.name])
  {
  }

  /** Identity, not spelling: in `useFoo(count)` the argument is a composable
      argument, another identifier `count` under the same call is not. */
  lemma ComposablesArgumentComparesNodes()
    ensures var count := Identifier(2, "count");
            var call := CallExpression(0, Identifier(1, "useFoo"), [count]);
            IsComposablesFunctionArgument(count, [call]) && !IsComposablesFunctionArgument(Identifier(3, "count"), [call])
  {
    assert "useFoo"[..3] == "use";
  }
}

/** The helper library the rule uses (astHelpers.ts): guards that tolerate an
    absent node, the name collectors run on every declarator and function,
    and the context predicates that exempt an identifier from the check. */
module AstHelpers {
  import opened Eslint
  import opened Constants
  import opened ArrayUtils
  import T = AstNodeTypes

  // ---------------------------------------------------------------- guards

  /** `isNodeOfType(node, type)`: false for undefined/null, otherwise a
      comparison of `node.type` with the tag. */
  predicate IsNodeOfType(node: Option<Node>, t: T.AstNodeType) {
    node.Some? && TypeOf(node.value) == t
  }

  predicate IsIdentifier(node: Option<Node>) { IsNodeOfType(node, T.Identifier) }
  predicate IsObjectPattern(node: Option<Node>) { IsNodeOfType(node, T.ObjectPattern) }
  predicate IsProperty(node: Option<Node>) { IsNodeOfType(node, T.Property) }
  predicate IsCallExpression(node: Option<Node>) { IsNodeOfType(node, T.CallExpression) }
  predicate IsVariableDeclarator(node: Option<Node>) { IsNodeOfType(node, T.VariableDeclarator) }
  predicate IsMemberExpression(node: Option<Node>) { IsNodeOfType(node, T.MemberExpression) }
  predicate IsAssignmentPattern(node: Option<Node>) { IsNodeOfType(node, T.AssignmentPattern) }
  predicate IsArrayExpression(node: Option<Node>) { IsNodeOfType(node, T.ArrayExpression) }

  /** `isParentNonNullAssertion(node)`: the node's parent is a `x!` wrapper. */
  predicate IsParentNonNullAssertion(ancestors: seq<Node>) {
    IsNodeOfType(At(ancestors, 0), T.TSNonNullExpression)
  }

  /** Each guard is false on an absent node and, on a present one, holds
      exactly for the constructor of its tag (so its fields may be read). */
  lemma GuardsNarrow(node: Option<Node>)
    ensures node.None? ==> forall t :: !IsNodeOfType(node, t)
    ensures IsIdentifier(node) <==> node.Some? && node.value.Identifier?
    ensures IsObjectPattern(node) <==> node.Some? && node.value.ObjectPattern?
    ensures IsProperty(node) <==> node.Some? && node.value.Property?
    ensures IsCallExpression(node) <==> node.Some? && node.value.CallExpression?
    ensures IsVariableDeclarator(node) <==> node.Some? && node.value.VariableDeclarator?
    ensures IsMemberExpression(node) <==> node.Some? && node.value.MemberExpression?
    ensures IsAssignmentPattern(node) <==> node.Some? && node.value.AssignmentPattern?
    ensures IsArrayExpression(node) <==> node.Some? && node.value.ArrayExpression?
  {
  }

  // ------------------------------------------------------- name collection

  /** The names a `reduce` over `nodes` collects when it keeps `select(n)` for
      each node in order and skips the nodes where `select` gives nothing.
      Defined from the end, as a left fold is. */
  function SelectNames(nodes: seq<Node>, select: Node -> Option<string>): (r: seq<string>)
    ensures |r| <= |nodes|
  {
    if nodes == [] then []
    else SelectNames(nodes[..|nodes| - 1], select) + Picked(nodes[|nodes| - 1], select)
  }

  /** A name is collected exactly when some node selects it. */
  lemma {:induction false} SelectNamesMembership(nodes: seq<Node>, select: Node -> Option<string>, x: string)
    ensures x in SelectNames(nodes, select) <==> exists i :: 0 <= i < |nodes| && select(nodes[i]) == Some(x)
    decreases |nodes|
  {
    if nodes != [] {
      var init := nodes[..|nodes| - 1];
      SelectNamesMembership(init, select, x);
      assert forall i :: 0 <= i < |init| ==> init[i] == nodes[i];
    }
  }

  /** What one node adds to a collection: its selected name, if any. */
  function Picked(node: Node, select: Node -> Option<string>): seq<string> {
    match select(node)
    case Some(x) => [x]
    case None => []
  }

  /** One more step of the `reduce`: collecting over the first `i + 1` nodes
      adds what node `i` contributes. */
  lemma SelectNamesStep(nodes: seq<Node>, i: nat, select: Node -> Option<string>)
    requires i < |nodes|
    ensures SelectNames(nodes[..i + 1], select) == SelectNames(nodes[..i], select) + Picked(nodes[i], select)
  {
    assert nodes[..i + 1][..i] == nodes[..i];
  }

  /** Collecting over two nodes keeps what each contributes, in order. */
  lemma SelectNamesPair(a: Node, b: Node, select: Node -> Option<string>)
    ensures SelectNames([a, b], select) == Picked(a, select) + Picked(b, select)
  {
    assert [a, b][..1] == [a];
    assert [a][..0] == [];
  }

  /** Collecting over a concatenation is concatenating the collections: the
      order of the nodes is the order of the names. */
  lemma {:induction false} SelectNamesConcat(a: seq<Node>, b: seq<Node>, select: Node -> Option<string>)
    ensures SelectNames(a + b, select) == SelectNames(a, select) + SelectNames(b, select)
    decreases |b|
  {
    if b == [] {
      assert a + b == a;
    } else {
      var b' := b[..|b| - 1];
      assert (a + b)[..|a + b| - 1] == a + b';
      SelectNamesConcat(a, b', select);
    }
  }

  /** A parameter contributes its name when it is a plain identifier. */
  function ParamName(param: Node): Option<string> {
    if IsIdentifier(Some(param)) then Some(param.name) else None
  }

  /** `property.value`: undefined on a rest element. */
  function PropertyValue(property: Node): Option<Node> {
    if property.Property? then Some(property.value) else None
  }

  /** A destructured entry contributes the identifier it binds. */
  function PropertyValueName(property: Node): Option<string> {
    var value := PropertyValue(property);
    if IsIdentifier(value) then Some(value.value.name) else None
  }

  /** A destructured entry contributes its key when it is a Property with an
      identifier key. */
  function PropertyKeyName(property: Node): Option<string> {
    if IsProperty(Some(property)) && IsIdentifier(Some(property.key)) then Some(property.key.name) else None
  }

  /** `addArgumentsToList(node, list)`: the identifier parameters of a function
      appended, in order, to the existing list. */
  function AddArgumentsToList(node: Node, list: seq<string>): (r: seq<string>)
    requires node.FunctionDeclaration? || node.ArrowFunctionExpression?
    ensures |list| <= |r| <= |list| + |node.params|
    ensures r[..|list|] == list
    ensures forall x :: x in r[|list|..] <==>
      exists i :: 0 <= i < |node.params| && node.params[i].Identifier? && node.params[i].name == x
  {
    var names := SelectNames(node.params, ParamName);
    forall x ensures x in names <==> exists i :: 0 <= i < |node.params| && ParamName(node.params[i]) == Some(x) {
      SelectNamesMembership(node.params, ParamName, x);
    }
    AddToList(names, list)
  }

  /** `isFunctionCall(node, functionNames)`: the declarator is initialised by a
      call whose callee is an identifier named in `functionNames`. */
  predicate IsFunctionCall(node: Node, functionNames: seq<string>)
    requires node.VariableDeclarator?
  {
    IsCallExpression(node.init) && IsIdentifier(Some(node.init.value.callee)) &&
    node.init.value.callee.name in functionNames
  }

  /** `addReactiveVariables(node, list)`: `const x = ref(...)` and the like
      append `x`; every other declarator leaves the list as it is. */
  function AddReactiveVariables(node: Node, list: seq<string>): (r: seq<string>)
    requires node.VariableDeclarator?
    ensures IsFunctionCall(node, ReactiveFunctions) && node.id.Identifier? ==> r == list + [node.id.name]
    ensures !(IsFunctionCall(node, ReactiveFunctions) && node.id.Identifier?) ==> r == list
  {
    if IsFunctionCall(node, ReactiveFunctions) && IsIdentifier(Some(node.id))
    then AddToList([node.id.name], list)
    else list
  }

  /** The names `addToVariablesListFromCalleeWithArgument` appends: for an
      object pattern bound to a call of any reactive factory, the identifier
      bound by each entry, in order; nothing otherwise. */
  function DestructuredReactiveNames(node: Node): seq<string>
    requires node.VariableDeclarator?
  {
    if IsFunctionCall(node, ReactiveFunctions) && IsObjectPattern(Some(node.id))
    then SelectNames(node.id.properties, PropertyValueName)
    else []
  }

  /** `addToVariablesListFromCalleeWithArgument(node, list)`; the `reduce` that
      pushes into an accumulator is the loop. */
  method AddToVariablesListFromCalleeWithArgument(node: Node, list: seq<string>) returns (r: seq<string>)
    requires node.VariableDeclarator?
    ensures r == AddToList(DestructuredReactiveNames(node), list)
  {
    if !IsFunctionCall(node, ReactiveFunctions) || !IsObjectPattern(Some(node.id)) {
      return list;
    }
    var properties := node.id.properties;
    var variableNames: seq<string> := [];
    for i := 0 to |properties|
      invariant variableNames == SelectNames(properties[..i], PropertyValueName)
    {
      SelectNamesStep(properties, i, PropertyValueName);
      var value := PropertyValue(properties[i]);
      if IsIdentifier(value) {
        variableNames := variableNames + [value.value.name];
      }
    }
    assert properties[..|properties|] == properties;
    return AddToList(variableNames, list);
  }

  /** The names `addDestructuredFunctionNames` appends: for an object pattern
      bound to a call of a `use[A-Z]` function, the identifier key of each
      Property entry, in order; nothing otherwise. */
  function DestructuredFunctionNames(node: Node): seq<string>
    requires node.VariableDeclarator?
  {
    if IsComposableDestructuring(node) then SelectNames(node.id.properties, PropertyKeyName) else []
  }

  /** `const { ... } = useXxx(...)`: an object pattern bound to a call whose
      callee is an identifier matching `^use[A-Z]`. */
  predicate IsComposableDestructuring(node: Node)
    requires node.VariableDeclarator?
  {
    IsObjectPattern(Some(node.id)) && IsCallExpression(node.init) &&
    IsIdentifier(Some(node.init.value.callee)) && MatchesComposablePattern(node.init.value.callee.name)
  }

  /** `addDestructuredFunctionNames(node, list)`; the `reduce` that pushes into
      an accumulator is the loop. */
  method AddDestructuredFunctionNames(node: Node, list: seq<string>) returns (r: seq<string>)
    requires node.VariableDeclarator?
    ensures r == AddToList(DestructuredFunctionNames(node), list)
  {
    if !IsComposableDestructuring(node) {
      return list;
    }
    var properties := node.id.properties;
    var functionNames: seq<string> := [];
    for i := 0 to |properties|
      invariant functionNames == SelectNames(properties[..i], PropertyKeyName)
    {
      SelectNamesStep(properties, i, PropertyKeyName);
      var property := properties[i];
      if IsProperty(Some(property)) && IsIdentifier(Some(property.key)) {
        functionNames := functionNames + [property.key.name];
      }
    }
    assert properties[..|properties|] == properties;
    return AddToList(functionNames, list);
  }

  // ------------------------------------------------------ context predicates

  /** `getAncestorCallExpression(node)`: walk up from `node.parent` while the
      current node is present and not a call. */
  method GetAncestorCallExpression(ancestors: seq<Node>) returns (r: Option<Node>)
    ensures r == NearestCall(ancestors)
    ensures r.Some? ==> r.value in ancestors
  {
    var i := 0;
    var currentNode := At(ancestors, 0);
    while currentNode.Some? && !IsCallExpression(currentNode)
      invariant 0 <= i <= |ancestors|
      invariant currentNode == At(ancestors, i)
      invariant NearestCall(ancestors[i..]) == NearestCall(ancestors)
      decreases |ancestors| - i
    {
      assert ancestors[i..][1..] == ancestors[i + 1..];
      i := i + 1;
      currentNode := At(ancestors, i);
    }
    r := if IsCallExpression(currentNode) then currentNode else None;
  }

  /** The callee of an optional call (`callExpression?.callee`). */
  function CalleeOf(call: Option<Node>): Option<Node> {
    if call.Some? && call.value.CallExpression? then Some(call.value.callee) else None
  }

  /** `isMatchingFunctionName(name, ignoredFunctionNames)`. */
  predicate IsMatchingFunctionName(name: string, ignoredFunctionNames: seq<string>) {
    MatchesComposablePattern(name) || name in ignoredFunctionNames
  }

  /** `isArgumentOfFunction(node, ignoredFunctionNames)`: the nearest enclosing
      call names a composable or an ignored function, and one of its
      arguments is an identifier with the same name as `node` (a name
      comparison, not an identity one). */
  predicate IsArgumentOfFunction(node: Node, ancestors: seq<Node>, ignoredFunctionNames: seq<string>)
    requires node.Identifier?
  {
    var callExpression := NearestCall(ancestors);
    if !IsIdentifier(CalleeOf(callExpression)) then false
    else if !IsMatchingFunctionName(callExpression.value.callee.name, ignoredFunctionNames) then false
    else
      var arguments := callExpression.value.arguments;
      exists i :: 0 <= i < |arguments| && IsIdentifier(Some(arguments[i])) &&
        TypeOf(arguments[i]) == TypeOf(node) && arguments[i].name == node.name
  }

  /** `isWatchArgument(node)`: the nearest enclosing call is `watch(...)` and
      the node is its first argument or an element of an array literal given
      as its first argument. */
  predicate IsWatchArgument(node: Node, ancestors: seq<Node>) {
    var callExpression := NearestCall(ancestors);
    if !IsIdentifier(CalleeOf(callExpression)) || callExpression.value.callee.name != "watch" then false
    else
      var arguments := callExpression.value.arguments;
      // `arguments.indexOf(node) === 0`
      var isFirstArgument := |arguments| > 0 && arguments[0] == node;
      var isInArrayExpression :=
        IsArrayExpression(At(arguments, 0)) && node in arguments[0].elements;
      isFirstArgument || isInArrayExpression
  }

  /** `isPropertyValue(node)`: an access `x.value`. */
  predicate IsPropertyValue(node: Option<Node>) {
    IsMemberExpression(node) && IsIdentifier(Some(node.value.property)) && node.value.property.name == "value"
  }

  /** `isFunctionArgument(node, functionArguments)`: the name was collected as
      a parameter name of some function seen so far. */
  predicate IsFunctionArgument(node: Node, functionArguments: seq<string>)
    requires node.Identifier?
  {
    node.name in functionArguments
  }

  /** `isObjectKey(node, identifierNode)`: `node` is a Property whose key is an
      identifier spelled like `identifierNode`. */
  predicate IsObjectKey(node: Option<Node>, identifierNode: Node)
    requires identifierNode.Identifier?
  {
    IsProperty(node) && IsIdentifier(Some(node.value.key)) && node.value.key.name == identifierNode.name
  }

  /** `isOriginalDeclaration(node)`. */
  predicate IsOriginalDeclaration(node: Option<Node>) {
    IsMemberExpression(node) || IsProperty(node)
  }

  /** `isNodeDestructuredFunction(node, destructuredFunctions)`: a call of one
      of the functions destructured from a composable. */
  predicate IsNodeDestructuredFunction(node: Option<Node>, destructuredFunctions: seq<string>) {
    IsCallExpression(node) && IsIdentifier(Some(node.value.callee)) &&
    node.value.callee.name in destructuredFunctions
  }

  /** `isDestructuredFunctionArgument(parent, grandParent, destructuredFunctions)`:
      the parent or, failing that, the grandparent is such a call. */
  predicate IsDestructuredFunctionArgument(parent: Option<Node>, grandParent: Option<Node>,
                                           destructuredFunctions: seq<string>)
  {
    if IsNodeDestructuredFunction(parent, destructuredFunctions) then true
    else if grandParent.None? then false
    else IsNodeDestructuredFunction(grandParent, destructuredFunctions)
  }

  // ---------------------------------------------------------- properties

  /** A destructuring of a reactive factory contributes exactly the names
      bound by its entries whose value is an identifier; any other
      declarator contributes nothing. */
  lemma DestructuredReactiveNamesMembership(node: Node, x: string)
    requires node.VariableDeclarator?
    ensures x in DestructuredReactiveNames(node) <==>
      IsFunctionCall(node, ReactiveFunctions) && node.id.ObjectPattern? &&
      exists i :: 0 <= i < |node.id.properties| && node.id.properties[i].Property? &&
        node.id.properties[i].value.Identifier? && node.id.properties[i].value.name == x
  {
    if IsFunctionCall(node, ReactiveFunctions) && node.id.ObjectPattern? {
      var properties := node.id.properties;
      SelectNamesMembership(properties, PropertyValueName, x);
      forall i | 0 <= i < |properties|
        ensures PropertyValueName(properties[i]) == Some(x) <==>
                properties[i].Property? && properties[i].value.Identifier? && properties[i].value.name == x
      {
      }
    }
  }

  /** A destructuring of a `use[A-Z]` call contributes exactly the identifier
      keys of its Property entries; any other declarator contributes nothing. */
  lemma DestructuredFunctionNamesMembership(node: Node, x: string)
    requires node.VariableDeclarator?
    ensures x in DestructuredFunctionNames(node) <==>
      IsComposableDestructuring(node) &&
      exists i :: 0 <= i < |node.id.properties| && node.id.properties[i].Property? &&
        node.id.properties[i].key.Identifier? && node.id.properties[i].key.name == x
  {
    if IsComposableDestructuring(node) {
      SelectNamesMembership(node.id.properties, PropertyKeyName, x);
    }
  }

  /** `isArgumentOfFunction` is false unless the nearest enclosing call has an
      identifier callee that is a composable name or an ignored name. */
  lemma ArgumentOfFunctionNeedsMatchingCallee(node: Node, ancestors: seq<Node>, ignoredFunctionNames: seq<string>)
    requires node.Identifier?
    requires IsArgumentOfFunction(node, ancestors, ignoredFunctionNames)
    ensures NearestCall(ancestors).Some? && NearestCall(ancestors).value.callee.Identifier?
    ensures IsMatchingFunctionName(NearestCall(ancestors).value.callee.name, ignoredFunctionNames)
  {
  }

  /** Under a matching callee, `isArgumentOfFunction` compares names: it holds
      exactly when some argument is an identifier spelled like the node, so
      another identifier with the same name (another node) gets the same
      answer. */
  lemma ArgumentOfFunctionComparesNames(node: Node, other: Node, ancestors: seq<Node>, ignoredFunctionNames: seq<string>)
    requires node.Identifier? && other.Identifier? && other.name == node.name
    ensures IsArgumentOfFunction(node, ancestors, ignoredFunctionNames) ==
            IsArgumentOfFunction(other, ancestors, ignoredFunctionNames)
    ensures IsArgumentOfFunction(node, ancestors, ignoredFunctionNames) <==>
      var call := NearestCall(ancestors);
      call.Some? && call.value.callee.Identifier? &&
      IsMatchingFunctionName(call.value.callee.name, ignoredFunctionNames) &&
      exists i :: 0 <= i < |call.value.arguments| && call.value.arguments[i].Identifier? &&
        call.value.arguments[i].name == node.name
  {
  }

  /** `isWatchArgument` holds only under a `watch(...)` call, for its first
      argument or an element of an array literal in first position. */
  lemma WatchArgumentShape(node: Node, ancestors: seq<Node>)
    requires IsWatchArgument(node, ancestors)
    ensures NearestCall(ancestors).Some?
    ensures var call := NearestCall(ancestors).value;
            call.callee.Identifier? && call.callee.name == "watch" && |call.arguments| > 0 &&
            (call.arguments[0] == node || (call.arguments[0].ArrayExpression? && node in call.arguments[0].elements))
  {
  }

  /** The guard cases of the helper tests, and an absent node. */
  lemma GuardTestExamples()
    ensures IsIdentifier(Some(Identifier(0, "myVar")))
    ensures !IsIdentifier(Some(CallExpression(0, Identifier(1, "f"), [])))
    ensures IsObjectPattern(Some(ObjectPattern(0, [])))
    ensures !IsObjectPattern(Some(Identifier(0, "x")))
    ensures IsProperty(Some(Property(0, Identifier(1, "k"), Identifier(2, "v"))))
    ensures !IsProperty(Some(VariableDeclarator(0, Identifier(1, "x"), None)))
    ensures IsCallExpression(Some(CallExpression(0, Identifier(1, "f"), [])))
    ensures IsVariableDeclarator(Some(VariableDeclarator(0, Identifier(1, "x"), None)))
    ensures IsMemberExpression(Some(MemberExpression(0, Identifier(1, "a"), Identifier(2, "b"))))
    ensures IsAssignmentPattern(Some(AssignmentPattern(0, Identifier(1, "a"), Literal(2))))
    ensures !IsIdentifier(None)
  {
  }

  /** The list cases of the helper tests. */
  lemma HelperExamples()
    ensures AddArgumentsToList(FunctionDeclaration(0, [Identifier(1, "arg1"), Identifier(2, "arg2")]), ["existing"])
            == ["existing", "arg1", "arg2"]
    ensures AddReactiveVariables(VariableDeclarator(0, Identifier(1, "myReactiveVar"),
                                                    Some(CallExpression(2, Identifier(3, "ref"), []))),
                                 ["existingVar"])
            == ["existingVar", "myReactiveVar"]
    ensures IsMatchingFunctionName("useSomething", ["useSomethingElse"])
    ensures !IsMatchingFunctionName("doSomething", ["useSomethingElse"])
  {
    ComposablePatternExamples();
    var params := [Identifier(1, "arg1"), Identifier(2, "arg2")];
    assert params[..1] == [Identifier(1, "arg1")] && params[..1][..0] == [];
    assert SelectNames(params, ParamName) == ["arg1", "arg2"];
  }
}

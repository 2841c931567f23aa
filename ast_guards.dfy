/** The type guards built by a factory (ast-helpers.ts). Unlike the guards of
    `AstHelpers`, these read `node.type` directly and are therefore defined
    only for a present node: the parameter type `Node` is that precondition. */
module AstGuards {
  import opened Eslint
  import T = AstNodeTypes

  /** `nodeTypeGuardFactory(type)`: a guard that compares `node.type` with a
      fixed tag. */
  function NodeTypeGuardFactory(t: T.AstNodeType): Node -> bool {
    (node: Node) => TypeOf(node) == t
  }

  predicate IsIdentifier(node: Node) { NodeTypeGuardFactory(T.Identifier)(node) }
  predicate IsMemberExpression(node: Node) { NodeTypeGuardFactory(T.MemberExpression)(node) }
  predicate IsProperty(node: Node) { NodeTypeGuardFactory(T.Property)(node) }
  predicate IsVariableDeclarator(node: Node) { NodeTypeGuardFactory(T.VariableDeclarator)(node) }
  predicate IsArrayPattern(node: Node) { NodeTypeGuardFactory(T.ArrayPattern)(node) }
  predicate IsArrayExpression(node: Node) { NodeTypeGuardFactory(T.ArrayExpression)(node) }
  predicate IsCallExpression(node: Node) { NodeTypeGuardFactory(T.CallExpression)(node) }
  predicate IsObjectPattern(node: Node) { NodeTypeGuardFactory(T.ObjectPattern)(node) }
  predicate IsObjectExpression(node: Node) { NodeTypeGuardFactory(T.ObjectExpression)(node) }
  predicate IsTSNonNullExpression(node: Node) { NodeTypeGuardFactory(T.TSNonNullExpression)(node) }
  predicate IsVariableDeclaration(node: Node) { NodeTypeGuardFactory(T.VariableDeclaration)(node) }

  /** The eleven guards applied to one node, in declaration order. */
  function Guards(node: Node): seq<bool> {
    [IsIdentifier(node), IsMemberExpression(node), IsProperty(node), IsVariableDeclarator(node),
     IsArrayPattern(node), IsArrayExpression(node), IsCallExpression(node), IsObjectPattern(node),
     IsObjectExpression(node), IsTSNonNullExpression(node), IsVariableDeclaration(node)]
  }

  /** The tags the eleven guards test, in the same order. */
  const GuardedTypes: seq<T.AstNodeType> :=
    [T.Identifier, T.MemberExpression, T.Property, T.VariableDeclarator,
     T.ArrayPattern, T.ArrayExpression, T.CallExpression, T.ObjectPattern,
     T.ObjectExpression, T.TSNonNullExpression, T.VariableDeclaration]

  /** Each guard narrows: when it holds, the node is the constructor of its
      tag, so the fields of that kind may be read; when it fails the node is
      of another kind. */
  lemma GuardsNarrow(node: Node)
    ensures IsIdentifier(node) <==> node.Identifier?
    ensures IsMemberExpression(node) <==> node.MemberExpression?
    ensures IsProperty(node) <==> node.Property?
    ensures IsVariableDeclarator(node) <==> node.VariableDeclarator?
    ensures IsArrayPattern(node) <==> node.ArrayPattern?
    ensures IsArrayExpression(node) <==> node.ArrayExpression?
    ensures IsCallExpression(node) <==> node.CallExpression?
    ensures IsObjectPattern(node) <==> node.ObjectPattern?
    ensures IsObjectExpression(node) <==> node.ObjectExpression?
    ensures IsTSNonNullExpression(node) <==> node.TSNonNullExpression?
    ensures IsVariableDeclaration(node) <==> node.VariableDeclaration?
  {
  }

  /** The eleven tag comparisons of a node type `t`, in guard order. */
  function TagTests(t: T.AstNodeType): seq<bool> {
    [t == T.Identifier, t == T.MemberExpression, t == T.Property, t == T.VariableDeclarator,
     t == T.ArrayPattern, t == T.ArrayExpression, t == T.CallExpression, t == T.ObjectPattern,
     t == T.ObjectExpression, t == T.TSNonNullExpression, t == T.VariableDeclaration]
  }

  lemma TagTestsInOrder(t: T.AstNodeType)
    ensures |TagTests(t)| == |GuardedTypes|
    ensures forall i :: 0 <= i < |GuardedTypes| ==> (TagTests(t)[i] <==> t == GuardedTypes[i])
  {
  }

  /** Guard `i` tests exactly tag `i`. */
  lemma GuardsTestTheirTags(node: Node)
    ensures |Guards(node)| == |GuardedTypes|
    ensures forall i :: 0 <= i < |GuardedTypes| ==> (Guards(node)[i] <==> TypeOf(node) == GuardedTypes[i])
  {
    assert Guards(node) == TagTests(TypeOf(node));
    TagTestsInOrder(TypeOf(node));
  }

  /** The guards are pairwise exclusive because their tags are distinct (in
      particular `IsVariableDeclaration` and `IsVariableDeclarator`), and some
      guard holds exactly for a node of a guarded kind. */
  lemma GuardsPairwiseExclusive(node: Node)
    ensures forall i, j :: 0 <= i < j < |Guards(node)| ==> !(Guards(node)[i] && Guards(node)[j])
    ensures (exists i :: 0 <= i < |Guards(node)| && Guards(node)[i]) <==> TypeOf(node) in GuardedTypes
  {
    GuardsTestTheirTags(node);
    assert forall i, j :: 0 <= i < j < |GuardedTypes| ==> GuardedTypes[i] != GuardedTypes[j];
  }

  lemma GuardExamples()
    ensures !IsIdentifier(Literal(0))
    ensures IsIdentifier(Identifier(0, "testIdentifier"))
    ensures !IsMemberExpression(Identifier(0, "test"))
    ensures !IsVariableDeclarator(VariableDeclaration(0, []))
    ensures !IsVariableDeclaration(VariableDeclarator(0, Identifier(1, "x"), None))
  {
  }
}

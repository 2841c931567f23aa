/** The two helper libraries side by side. They share names but not meaning;
    these lemmas pin down where they agree and where they part. */
module LibraryComparison {
  import opened Eslint
  import opened Constants
  import AH = AstHelpers
  import FC = FunctionChecks
  import G = AstGuards

  /** `isPropertyValue` means an `x.value` access in one library and an entry
      of an object literal in the other, so no node satisfies both. */
  lemma PropertyValueMeaningsDiffer(node: Node, nodeAncestors: seq<Node>)
    requires node.Property? ==> |nodeAncestors| >= 1
    ensures AH.IsPropertyValue(Some(node)) <==>
              node.MemberExpression? && node.property.Identifier? && node.property.name == "value"
    ensures FC.IsPropertyValue(node, nodeAncestors) <==> node.Property? && nodeAncestors[0].ObjectExpression?
    ensures !(AH.IsPropertyValue(Some(node)) && FC.IsPropertyValue(node, nodeAncestors))
  {
  }

  /** The direct-parent test of function-checks implies the nearest-call test
      of astHelpers: the parent call is the nearest call, its callee is an
      ignored name, and the node itself is an argument with its own name. */
  lemma ArgumentOfFunctionDirectImpliesNearest(node: Node, ancestors: seq<Node>, ignored: seq<string>)
    requires node.Identifier? && |ancestors| >= 1
    requires FC.IsArgumentOfFunction(node, ancestors, ignored)
    ensures AH.IsArgumentOfFunction(node, ancestors, ignored)
  {
    var call := ancestors[0];
    assert NearestCall(ancestors) == Some(call);
    var i :| 0 <= i < |call.arguments| && call.arguments[i] == node;
    assert AH.IsIdentifier(Some(call.arguments[i])) && call.arguments[i].name == node.name;
  }

  /** The converse fails twice over: astHelpers also accepts a composable
      callee that is not in the ignore list (`useFoo(count)`), and compares
      names, so an identifier that is not the argument but is spelled like it
      also passes. */
  lemma ArgumentOfFunctionNearestNotDirect()
    ensures var count := Identifier(2, "count");
            var call := CallExpression(0, Identifier(1, "useFoo"), [count]);
            AH.IsArgumentOfFunction(count, [call], []) && !FC.IsArgumentOfFunction(count, [call], [])
    ensures var count := Identifier(2, "count");
            var other := Identifier(3, "count");
            var call := CallExpression(0, Identifier(1, "doSomething"), [count]);
            AH.IsArgumentOfFunction(other, [call], ["doSomething"]) &&
            !FC.IsArgumentOfFunction(other, [call], ["doSomething"])
  {
    ComposablePatternExamples();
    assert MatchesComposablePattern("useFoo") by {
      assert "useFoo"[..3] == "use";
    }
    var count := Identifier(2, "count");
    var call := CallExpression(0, Identifier(1, "useFoo"), [count]);
    assert AH.IsIdentifier(Some(call.arguments[0]));
  }

  /** The corrected `isWatchArgument` of function-checks and the one of
      astHelpers decide the same thing. */
  lemma WatchArgumentLibrariesAgree(node: Node, ancestors: seq<Node>)
    ensures FC.IsWatchArgument(node, ancestors) == AH.IsWatchArgument(node, ancestors)
  {
  }

  /** The two upward walks find the same call. */
  method BothWalksAgree(ancestors: seq<Node>) returns (fromHelpers: Option<Node>, fromChecks: Option<Node>)
    ensures fromHelpers == fromChecks
    ensures fromHelpers.Some? ==>
              fromHelpers.value.CallExpression? &&
              exists k :: InnermostCallAt(ancestors, k) && ancestors[k] == fromHelpers.value
  {
    fromHelpers := AH.GetAncestorCallExpression(ancestors);
    fromChecks := FC.FindAncestorCallExpression(ancestors);
    NearestCallIsInnermost(ancestors);
  }

  /** Where both libraries test a node kind, their guards agree on a present
      node; the astHelpers guards alone also answer for an absent one. */
  lemma GuardsAgree(node: Node)
    ensures AH.IsIdentifier(Some(node)) == G.IsIdentifier(node)
    ensures AH.IsProperty(Some(node)) == G.IsProperty(node)
    ensures AH.IsCallExpression(Some(node)) == G.IsCallExpression(node)
    ensures AH.IsObjectPattern(Some(node)) == G.IsObjectPattern(node)
    ensures AH.IsVariableDeclarator(Some(node)) == G.IsVariableDeclarator(node)
    ensures AH.IsMemberExpression(Some(node)) == G.IsMemberExpression(node)
    ensures AH.IsArrayExpression(Some(node)) == G.IsArrayExpression(node)
    ensures !AH.IsIdentifier(None)
  {
  }
}

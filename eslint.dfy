/** The node-type tags (`AST_NODE_TYPES`) of the ESTree dialect the rule is
    written against, restricted to the tags that the rule and its helpers test;
    every other tag (Program, BinaryExpression, ...) is `Other`. */
module AstNodeTypes {
  datatype AstNodeType =
    | Identifier
    | CallExpression
    | MemberExpression
    | Property
    | VariableDeclarator
    | ObjectPattern
    | ObjectExpression
    | ArrayPattern
    | ArrayExpression
    | AssignmentPattern
    | TSNonNullExpression
    | VariableDeclaration
    | Literal
    | RestElement
    | FunctionDeclaration
    | ArrowFunctionExpression
    | Other
}

/** The shapes the host linter hands to the rule: syntax nodes, the parent
    chain of a node, and the report descriptor. */
module Eslint {
  import T = AstNodeTypes

  /** `undefined`/`null` versus a present value. */
  datatype Option<+A> = None | Some(value: A)

  /** A syntax node with the children the rule reads. Every node carries a
      `uid`: the parser creates a distinct object per occurrence, and object
      identity (`===`, `indexOf`, `includes`) is node equality here. */
  datatype Node =
    | Identifier(uid: nat, name: string)
    | CallExpression(uid: nat, callee: Node, arguments: seq<Node>)
    | MemberExpression(uid: nat, obj: Node, property: Node)
    | Property(uid: nat, key: Node, value: Node)
    | VariableDeclarator(uid: nat, id: Node, init: Option<Node>)
    | ObjectPattern(uid: nat, properties: seq<Node>)
    | ObjectExpression(uid: nat, properties: seq<Node>)
    | ArrayPattern(uid: nat, elements: seq<Node>)
    | ArrayExpression(uid: nat, elements: seq<Node>)
    | AssignmentPattern(uid: nat, left: Node, right: Node)
    | TSNonNullExpression(uid: nat, expression: Node)
    | VariableDeclaration(uid: nat, declarations: seq<Node>)
    | Literal(uid: nat)
    | RestElement(uid: nat, argument: Node)
    | FunctionDeclaration(uid: nat, params: seq<Node>)
    | ArrowFunctionExpression(uid: nat, params: seq<Node>)
    | OtherNode(uid: nat, children: seq<Node>)

  /** `node.type` */
  function TypeOf(node: Node): T.AstNodeType {
    match node
    case Identifier(_, _) => T.Identifier
    case CallExpression(_, _, _) => T.CallExpression
    case MemberExpression(_, _, _) => T.MemberExpression
    case Property(_, _, _) => T.Property
    case VariableDeclarator(_, _, _) => T.VariableDeclarator
    case ObjectPattern(_, _) => T.ObjectPattern
    case ObjectExpression(_, _) => T.ObjectExpression
    case ArrayPattern(_, _) => T.ArrayPattern
    case ArrayExpression(_, _) => T.ArrayExpression
    case AssignmentPattern(_, _, _) => T.AssignmentPattern
    case TSNonNullExpression(_, _) => T.TSNonNullExpression
    case VariableDeclaration(_, _) => T.VariableDeclaration
    case Literal(_) => T.Literal
    case RestElement(_, _) => T.RestElement
    case FunctionDeclaration(_, _) => T.FunctionDeclaration
    case ArrowFunctionExpression(_, _) => T.ArrowFunctionExpression
    case OtherNode(_, _) => T.Other
  }

  /** `s[i]`, or undefined past the end, as JavaScript indexing reads it.
      Over a node's ancestors (nearest first), `At(ancestors, 0)` is
      `node.parent` and `At(ancestors, 1)` is `node.parent.parent`; over call
      arguments, `At(arguments, 0)` is `arguments[0]`. */
  function At(s: seq<Node>, i: nat): Option<Node> {
    if i < |s| then Some(s[i]) else None
  }

  /** `ancestors[k]` is a call and no nearer ancestor is one. */
  ghost predicate InnermostCallAt(ancestors: seq<Node>, k: int) {
    0 <= k < |ancestors| && ancestors[k].CallExpression? &&
    forall j :: 0 <= j < k ==> !ancestors[j].CallExpression?
  }

  /** The nearest strict ancestor that is a CallExpression, or undefined: the
      upward walk that both helper libraries perform. */
  function NearestCall(ancestors: seq<Node>): (r: Option<Node>)
    ensures r.Some? ==> r.value.CallExpression? && r.value in ancestors
  {
    if ancestors == [] then None
    else if ancestors[0].CallExpression? then Some(ancestors[0])
    else NearestCall(ancestors[1..])
  }

  /** The walk finds a call exactly when some ancestor is one, and then it
      finds the innermost. */
  lemma {:induction false} NearestCallIsInnermost(ancestors: seq<Node>)
    ensures NearestCall(ancestors).Some? <==> exists i :: 0 <= i < |ancestors| && ancestors[i].CallExpression?
    ensures NearestCall(ancestors).Some? ==>
              exists k :: InnermostCallAt(ancestors, k) && ancestors[k] == NearestCall(ancestors).value
  {
    if ancestors != [] && !ancestors[0].CallExpression? {
      var rest := ancestors[1..];
      NearestCallIsInnermost(rest);
      assert forall i :: 1 <= i < |ancestors| ==> ancestors[i] == rest[i - 1];
      if NearestCall(rest).Some? {
        var k :| InnermostCallAt(rest, k) && rest[k] == NearestCall(rest).value;
        assert InnermostCallAt(ancestors, k + 1);
      }
    }
  }

  /** What `context.report` receives. */
  datatype ReportData = ReportData(name: string)
  datatype Report = Report(node: Node, messageId: string, data: ReportData)
}

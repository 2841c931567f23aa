/** The rule `reactive-value-suffix` (reactive-value-suffix.ts): while the
    linter walks a file, the declarator and function listeners collect the
    names of reactive references, of function parameters and of functions
    destructured from composables; the identifier and member-expression
    listeners report a reactive reference read without `.value`.

    The printed type of a node comes from the TypeScript checker, which is
    outside the model: the rule is given it as the function `typeOf`. */
module ReactiveValueSuffix {
  import opened Eslint
  import opened Constants
  import opened ArrayUtils
  import opened AstHelpers

  /** The rule's only message id. */
  const MessageId: string := "requireValueSuffix"

  // ---------------------------------------------------------------- strings

  /** `s.includes(sub)`, searched from the left. */
  predicate Includes(s: string, sub: string)
    decreases |s|
  {
    sub <= s || (|s| > 0 && Includes(s[1..], sub))
  }

  /** `sub` occurs in `s` at offset `i`. */
  predicate OccursAt(s: string, sub: string, i: int) {
    0 <= i <= |s| - |sub| && s[i..i + |sub|] == sub
  }

  /** `includes` holds exactly when `sub` occurs at some offset of `s`. */
  lemma {:induction false} IncludesIffOccursAt(s: string, sub: string)
    ensures Includes(s, sub) <==> exists i :: OccursAt(s, sub, i)
    decreases |s|
  {
    if sub <= s {
      assert OccursAt(s, sub, 0);
    } else if |s| > 0 {
      IncludesIffOccursAt(s[1..], sub);
      if Includes(s[1..], sub) {
        var i :| OccursAt(s[1..], sub, i);
        assert s[i + 1..i + 1 + |sub|] == s[1..][i..i + |sub|];
        assert OccursAt(s, sub, i + 1);
      }
      if i :| OccursAt(s, sub, i) {
        assert i != 0;
        assert s[1..][i - 1..i - 1 + |sub|] == s[i..i + |sub|];
        assert OccursAt(s[1..], sub, i - 1);
      }
    }
  }

  /** A string without the first character of `sub` does not include `sub`;
      so a type without `.` never includes `.value`. */
  lemma {:induction false} IncludesNeedsFirstChar(s: string, sub: string)
    requires |sub| > 0 && sub[0] !in s
    ensures !Includes(s, sub)
    decreases |s|
  {
    if |s| > 0 {
      IncludesNeedsFirstChar(s[1..], sub);
    }
  }

  // ---------------------------------------------------------------- options

  /** The rule's option object; the field may be left out. */
  datatype Options = Options(functionNamesToIgnoreValueCheck: Option<seq<string>>)

  /** `context.options[0] || {}` and then `functionNamesToIgnoreValueCheck || []`. */
  function IgnoredFunctionNames(contextOptions: seq<Options>): (r: seq<string>)
    ensures |contextOptions| == 0 ==> r == []
    ensures |contextOptions| > 0 && contextOptions[0].functionNamesToIgnoreValueCheck.None? ==> r == []
    ensures |contextOptions| > 0 && contextOptions[0].functionNamesToIgnoreValueCheck.Some? ==>
              r == contextOptions[0].functionNamesToIgnoreValueCheck.value
  {
    if |contextOptions| == 0 then []
    else
      var options := contextOptions[0];
      if options.functionNamesToIgnoreValueCheck.Some? then options.functionNamesToIgnoreValueCheck.value else []
  }

  // ------------------------------------------------------- the three checks

  /** The type-string test of `checkNodeAndReport`: a printed type mentioning
      `Ref` but not `.value`, on a node not wrapped in `x!`. */
  predicate NeedsValueSuffix(typeName: string, ancestors: seq<Node>) {
    Includes(typeName, "Ref") && !Includes(typeName, ".value") && !IsParentNonNullAssertion(ancestors)
  }

  /** `checkNodeAndReport(node, name, ...)`: the reports it emits, at most one. */
  function ReportsFor(node: Node, ancestors: seq<Node>, name: string, typeName: string): (r: seq<Report>)
    ensures |r| <= 1
    ensures |r| == 1 <==> NeedsValueSuffix(typeName, ancestors)
    ensures forall report :: report in r ==>
              report.node == node && report.messageId == MessageId && report.data.name == name
  {
    if NeedsValueSuffix(typeName, ancestors) then [Report(node, MessageId, ReportData(name))] else []
  }

  /** The guard of `checkIdentifier`: every exemption fails and the name is a
      collected reactive name. */
  predicate IdentifierIsChecked(node: Node, ancestors: seq<Node>, reactiveVariables: seq<string>,
                                functionArguments: seq<string>, destructuredFunctions: seq<string>,
                                ignoredFunctionNames: seq<string>)
    requires node.Identifier?
  {
    var parent := At(ancestors, 0);
    var grandParent := At(ancestors, 1);
    !IsVariableDeclarator(parent) &&
    !IsMemberExpression(parent) &&
    !IsObjectKey(parent, node) &&
    !IsFunctionArgument(node, functionArguments) &&
    !IsPropertyValue(parent) &&
    !IsOriginalDeclaration(parent) &&
    !IsWatchArgument(node, ancestors) &&
    !IsArgumentOfFunction(node, ancestors, ignoredFunctionNames) &&
    !IsDestructuredFunctionArgument(parent, grandParent, destructuredFunctions) &&
    node.name in reactiveVariables
  }

  /** The guard of `checkMemberExpression`: not an `x.value` access, and the
      object is an identifier naming a reactive reference. */
  predicate MemberIsChecked(node: Node, reactiveVariables: seq<string>)
    requires node.MemberExpression?
  {
    !IsPropertyValue(Some(node)) && IsIdentifier(Some(node.obj)) && node.obj.name in reactiveVariables
  }

  // ------------------------------------------------- listener state machine

  /** One listener call: a node and its ancestors, nearest first. */
  datatype Visit = Visit(node: Node, ancestors: seq<Node>)

  /** The rule's closure state: the three `let` lists and the reports sent to
      `context.report` so far. */
  datatype RuleState = RuleState(reactiveVariables: seq<string>, functionArguments: seq<string>,
                                 destructuredFunctions: seq<string>, reports: seq<Report>)

  const Initial: RuleState := RuleState([], [], [], [])

  /** Every list of `s` is a prefix of the matching list of `t`. */
  predicate Grows(s: RuleState, t: RuleState) {
    s.reactiveVariables <= t.reactiveVariables && s.functionArguments <= t.functionArguments &&
    s.destructuredFunctions <= t.destructuredFunctions && s.reports <= t.reports
  }

  /** The names the VariableDeclarator listener adds to the reactive list. */
  function DeclaredReactiveNames(node: Node): seq<string>
    requires node.VariableDeclarator?
  {
    AddReactiveVariables(node, []) + DestructuredReactiveNames(node)
  }

  /** What one listener call does to the state. */
  function Step(ignoredFunctionNames: seq<string>, typeOf: Node -> string, s: RuleState, v: Visit): RuleState {
    var node := v.node;
    match node
    case VariableDeclarator(_, _, _) =>
      s.(reactiveVariables := AddToList(DestructuredReactiveNames(node), AddReactiveVariables(node, s.reactiveVariables)),
         destructuredFunctions := AddToList(DestructuredFunctionNames(node), s.destructuredFunctions))
    case FunctionDeclaration(_, _) =>
      s.(functionArguments := AddArgumentsToList(node, s.functionArguments))
    case ArrowFunctionExpression(_, _) =>
      s.(functionArguments := AddArgumentsToList(node, s.functionArguments))
    case Identifier(_, name) =>
      if IdentifierIsChecked(node, v.ancestors, s.reactiveVariables, s.functionArguments,
                             s.destructuredFunctions, ignoredFunctionNames)
      then s.(reports := s.reports + ReportsFor(node, v.ancestors, name, typeOf(node)))
      else s
    case MemberExpression(_, obj, _) =>
      if MemberIsChecked(node, s.reactiveVariables)
      then s.(reports := s.reports + ReportsFor(obj, [node] + v.ancestors, obj.name, typeOf(obj)))
      else s
    case _ => s
  }

  /** The state after the listener calls `visits`, in order, starting from `s`. */
  function Run(ignoredFunctionNames: seq<string>, typeOf: Node -> string, s: RuleState, visits: seq<Visit>): RuleState
  {
    if visits == [] then s
    else Step(ignoredFunctionNames, typeOf, Run(ignoredFunctionNames, typeOf, s, visits[..|visits| - 1]), visits[|visits| - 1])
  }

  // ------------------------------------------------------------- the rule

  /** The closure `create(context)` returns, with the checker's printed types
      given as `typeOf`. */
  class ReactiveValueSuffixRule {
    const functionNamesToIgnoreValueCheck: seq<string>
    const typeOf: Node -> string
    var variableFromReactiveFunctions: seq<string>
    var functionArguments: seq<string>
    var destructuredFunctions: seq<string>
    var reports: seq<Report>

    function State(): RuleState
      reads this
    {
      RuleState(variableFromReactiveFunctions, functionArguments, destructuredFunctions, reports)
    }

    /** `create(context)`: read the option default, start with empty lists. */
    constructor(contextOptions: seq<Options>, typeOf: Node -> string)
      ensures functionNamesToIgnoreValueCheck == IgnoredFunctionNames(contextOptions)
      ensures this.typeOf == typeOf
      ensures State() == Initial
    {
      functionNamesToIgnoreValueCheck := IgnoredFunctionNames(contextOptions);
      this.typeOf := typeOf;
      variableFromReactiveFunctions := [];
      functionArguments := [];
      destructuredFunctions := [];
      reports := [];
    }

    /** `checkNodeAndReport(node, name, context, ...)`. */
    method CheckNodeAndReport(node: Node, ancestors: seq<Node>, name: string)
      modifies this
      ensures State() == old(State()).(reports := old(reports) + ReportsFor(node, ancestors, name, typeOf(node)))
    {
      var typeName := typeOf(node);
      var isRefType := Includes(typeName, "Ref");
      var hasMissingValueSuffix := !Includes(typeName, ".value");
      var isNotNonNullAssertion := !IsParentNonNullAssertion(ancestors);
      if isRefType && hasMissingValueSuffix && isNotNonNullAssertion {
        reports := reports + [Report(node, MessageId, ReportData(name))];
      }
    }

    /** The `Identifier` listener, `checkIdentifier`. */
    method CheckIdentifier(node: Node, ancestors: seq<Node>)
      requires node.Identifier?
      modifies this
      ensures State() == Step(functionNamesToIgnoreValueCheck, typeOf, old(State()), Visit(node, ancestors))
    {
      if IdentifierIsChecked(node, ancestors, variableFromReactiveFunctions, functionArguments,
                             destructuredFunctions, functionNamesToIgnoreValueCheck) {
        CheckNodeAndReport(node, ancestors, node.name);
      }
    }

    /** The `MemberExpression` listener, `checkMemberExpression`. */
    method CheckMemberExpression(node: Node, ancestors: seq<Node>)
      requires node.MemberExpression?
      modifies this
      ensures State() == Step(functionNamesToIgnoreValueCheck, typeOf, old(State()), Visit(node, ancestors))
    {
      if MemberIsChecked(node, variableFromReactiveFunctions) {
        CheckNodeAndReport(node.obj, [node] + ancestors, node.obj.name);
      }
    }

    /** The `VariableDeclarator` listener. */
    method OnVariableDeclarator(node: Node, ancestors: seq<Node>)
      requires node.VariableDeclarator?
      modifies this
      ensures State() == Step(functionNamesToIgnoreValueCheck, typeOf, old(State()), Visit(node, ancestors))
    {
      variableFromReactiveFunctions := AddReactiveVariables(node, variableFromReactiveFunctions);
      variableFromReactiveFunctions := AddToVariablesListFromCalleeWithArgument(node, variableFromReactiveFunctions);
      destructuredFunctions := AddDestructuredFunctionNames(node, destructuredFunctions);
    }

    /** The `FunctionDeclaration` and `ArrowFunctionExpression` listeners. */
    method OnFunction(node: Node, ancestors: seq<Node>)
      requires node.FunctionDeclaration? || node.ArrowFunctionExpression?
      modifies this
      ensures State() == Step(functionNamesToIgnoreValueCheck, typeOf, old(State()), Visit(node, ancestors))
    {
      functionArguments := AddArgumentsToList(node, functionArguments);
    }

    /** The linter calling the listener registered for the node's kind, if any. */
    method Listen(v: Visit)
      modifies this
      ensures State() == Step(functionNamesToIgnoreValueCheck, typeOf, old(State()), v)
    {
      match v.node
      case VariableDeclarator(_, _, _) => OnVariableDeclarator(v.node, v.ancestors);
      case FunctionDeclaration(_, _) => OnFunction(v.node, v.ancestors);
      case ArrowFunctionExpression(_, _) => OnFunction(v.node, v.ancestors);
      case Identifier(_, _) => CheckIdentifier(v.node, v.ancestors);
      case MemberExpression(_, _, _) => CheckMemberExpression(v.node, v.ancestors);
      case _ =>
    }
  }
}

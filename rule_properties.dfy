/** What the rule's listener state machine guarantees over a whole walk: the
    lists only grow, the reactive list holds exactly the names declared so
    far, reports are well formed, and the exempt contexts never report. */
module RuleProperties {
  import opened Eslint
  import opened Constants
  import opened ArrayUtils
  import opened AstHelpers
  import opened TypeHelpers
  import opened ReactiveValueSuffix

  // ------------------------------------------------------- growing lists

  /** One listener call never shrinks or reorders a list: each old list is a
      prefix of the new one. */
  lemma StepGrows(ignored: seq<string>, typeOf: Node -> string, s: RuleState, v: Visit)
    ensures Grows(s, Step(ignored, typeOf, s, v))
  {
    var t := Step(ignored, typeOf, s, v);
    match v.node
    case VariableDeclarator(_, _, _) =>
      var afterRef := AddReactiveVariables(v.node, s.reactiveVariables);
      assert s.reactiveVariables <= afterRef;
      assert afterRef <= t.reactiveVariables;
    case FunctionDeclaration(_, _) =>
    case ArrowFunctionExpression(_, _) =>
    case Identifier(_, _) =>
    case MemberExpression(_, _, _) =>
    case _ =>
  }

  /** The state after any prefix of a walk is a prefix of the final state. */
  lemma {:induction false} RunGrows(ignored: seq<string>, typeOf: Node -> string, s: RuleState,
                                    visits: seq<Visit>, i: nat)
    requires i <= |visits|
    ensures Grows(Run(ignored, typeOf, s, visits[..i]), Run(ignored, typeOf, s, visits))
    decreases |visits|
  {
    if i < |visits| {
      var front := visits[..|visits| - 1];
      assert visits[..i] == front[..i];
      RunGrows(ignored, typeOf, s, front, i);
      StepGrows(ignored, typeOf, Run(ignored, typeOf, s, front), visits[|visits| - 1]);
    } else {
      assert visits[..i] == visits;
    }
  }

  // ---------------------------------------------------- collected names

  /** The names one listener call adds to the reactive list. */
  function AddedReactiveNames(v: Visit): seq<string> {
    if v.node.VariableDeclarator? then DeclaredReactiveNames(v.node) else []
  }

  /** One listener call appends exactly `AddedReactiveNames(v)`. */
  lemma StepAddsReactiveNames(ignored: seq<string>, typeOf: Node -> string, s: RuleState, v: Visit)
    ensures Step(ignored, typeOf, s, v).reactiveVariables == s.reactiveVariables + AddedReactiveNames(v)
  {
    if v.node.VariableDeclarator? {
      var node := v.node;
      if IsFunctionCall(node, ReactiveFunctions) && node.id.Identifier? {
        assert AddReactiveVariables(node, s.reactiveVariables) == s.reactiveVariables + AddReactiveVariables(node, []);
      }
    }
  }

  /** The declarator listener appends the declared reactive names and the
      functions destructured from a composable, and changes nothing else. */
  lemma DeclaratorStep(ignored: seq<string>, typeOf: Node -> string, s: RuleState, v: Visit)
    requires v.node.VariableDeclarator?
    ensures Step(ignored, typeOf, s, v) ==
            s.(reactiveVariables := s.reactiveVariables + DeclaredReactiveNames(v.node),
               destructuredFunctions := s.destructuredFunctions + DestructuredFunctionNames(v.node))
  {
    StepAddsReactiveNames(ignored, typeOf, s, v);
  }

  /** A name is in the reactive list after a walk exactly when it was there
      at the start or some declarator visited so far declared it. */
  lemma {:induction false} ReactiveNamesCollected(ignored: seq<string>, typeOf: Node -> string, s: RuleState,
                                                  visits: seq<Visit>, x: string)
    ensures x in Run(ignored, typeOf, s, visits).reactiveVariables <==>
      x in s.reactiveVariables || exists j :: 0 <= j < |visits| && x in AddedReactiveNames(visits[j])
    decreases |visits|
  {
    if visits != [] {
      var front := visits[..|visits| - 1];
      var last := visits[|visits| - 1];
      ReactiveNamesCollected(ignored, typeOf, s, front, x);
      StepAddsReactiveNames(ignored, typeOf, Run(ignored, typeOf, s, front), last);
      if j :| 0 <= j < |visits| && x in AddedReactiveNames(visits[j]) {
        if j < |visits| - 1 {
          assert front[j] == visits[j];
        }
      }
      if j :| 0 <= j < |front| && x in AddedReactiveNames(front[j]) {
        assert visits[j] == front[j];
      }
    }
  }

  /** The code collects names as it meets their declarators, without a
      pre-scan: an identifier visited before any declarator of its name is
      not reported. */
  lemma ForwardReferenceNotReported(ignored: seq<string>, typeOf: Node -> string, visits: seq<Visit>, i: nat)
    requires i < |visits| && visits[i].node.Identifier?
    requires forall j :: 0 <= j < i ==> visits[i].node.name !in AddedReactiveNames(visits[j])
    ensures Run(ignored, typeOf, Initial, visits[..i + 1]).reports == Run(ignored, typeOf, Initial, visits[..i]).reports
  {
    var x := visits[i].node.name;
    var front := visits[..i];
    ReactiveNamesCollected(ignored, typeOf, Initial, front, x);
    assert visits[..i + 1][..i] == front;
  }

  // ------------------------------------------------------------ reports

  /** A report as `createReportData` builds it for the rule's message. */
  predicate WellFormedReport(r: Report) {
    r.node.Identifier? && r == CreateReportData(r.node, MessageId)
  }

  /** Every report is about an identifier, carries `requireValueSuffix` and
      names that identifier. */
  lemma {:induction false} ReportsWellFormed(ignored: seq<string>, typeOf: Node -> string, s: RuleState,
                                             visits: seq<Visit>)
    requires forall r :: r in s.reports ==> WellFormedReport(r)
    ensures forall r :: r in Run(ignored, typeOf, s, visits).reports ==> WellFormedReport(r)
    decreases |visits|
  {
    if visits != [] {
      var front := visits[..|visits| - 1];
      ReportsWellFormed(ignored, typeOf, s, front);
      var before := Run(ignored, typeOf, s, front);
      var v := visits[|visits| - 1];
      var after := Step(ignored, typeOf, before, v);
      forall r | r in after.reports
        ensures WellFormedReport(r)
      {
        if r !in before.reports {
          match v.node
          case Identifier(_, name) =>
            assert r in ReportsFor(v.node, v.ancestors, name, typeOf(v.node));
          case MemberExpression(_, obj, _) =>
            assert r in ReportsFor(obj, [v.node] + v.ancestors, obj.name, typeOf(obj));
        }
      }
    }
  }

  /** The walk reports at most once per identifier or member-expression
      visit: every other listener leaves the reports alone. */
  lemma StepReportsAtMostOnce(ignored: seq<string>, typeOf: Node -> string, s: RuleState, v: Visit)
    ensures var t := Step(ignored, typeOf, s, v);
            |s.reports| <= |t.reports| <= |s.reports| + 1 &&
            (!(v.node.Identifier? || v.node.MemberExpression?) ==> t.reports == s.reports)
  {
  }

  /** A node of a kind the rule registers no listener for changes nothing. */
  lemma UnlistenedKindsChangeNothing(ignored: seq<string>, typeOf: Node -> string, s: RuleState, v: Visit)
    requires !(v.node.VariableDeclarator? || v.node.FunctionDeclaration? || v.node.ArrowFunctionExpression? ||
               v.node.Identifier? || v.node.MemberExpression?)
    ensures Step(ignored, typeOf, s, v) == s
  {
  }

  // ------------------------------------------------- identifier listener

  /** The exemptions of `checkIdentifier`: none of these occurrences is
      reported, whatever its type. */
  lemma IdentifierExemptions(ignored: seq<string>, typeOf: Node -> string, s: RuleState, node: Node, ancestors: seq<Node>)
    requires node.Identifier?
    requires || node.name !in s.reactiveVariables
             || (|ancestors| > 0 && (ancestors[0].VariableDeclarator? || ancestors[0].MemberExpression? ||
                                     ancestors[0].Property?))
             || node.name in s.functionArguments
             || IsWatchArgument(node, ancestors)
             || IsArgumentOfFunction(node, ancestors, ignored)
    ensures Step(ignored, typeOf, s, Visit(node, ancestors)) == s
  {
  }

  /** An argument of a call to a function destructured from a composable is
      not reported, when that call is its parent or its grandparent. */
  lemma DestructuredFunctionArgumentExempt(ignored: seq<string>, typeOf: Node -> string, s: RuleState,
                                           node: Node, ancestors: seq<Node>, k: nat)
    requires node.Identifier?
    requires k < 2 && k < |ancestors|
    requires ancestors[k].CallExpression? && ancestors[k].callee.Identifier?
    requires ancestors[k].callee.name in s.destructuredFunctions
    ensures Step(ignored, typeOf, s, Visit(node, ancestors)) == s
  {
  }

  /** Any argument, under the nearest call, of a `use[A-Z]` function is exempt,
      whatever the ignore list. */
  lemma ComposableArgumentExempt(ignored: seq<string>, typeOf: Node -> string, s: RuleState,
                                 node: Node, ancestors: seq<Node>, i: nat)
    requires node.Identifier?
    requires NearestCall(ancestors).Some?
    requires var call := NearestCall(ancestors).value;
             call.callee.Identifier? && MatchesComposablePattern(call.callee.name) &&
             i < |call.arguments| && call.arguments[i].Identifier? && call.arguments[i].name == node.name
    ensures Step(ignored, typeOf, s, Visit(node, ancestors)) == s
  {
    assert IsArgumentOfFunction(node, ancestors, ignored);
  }

  /** Outside the exemptions, a reactive name is reported exactly when the
      type-string test passes. */
  lemma IdentifierReportedIffTypeTest(ignored: seq<string>, typeOf: Node -> string, s: RuleState,
                                      node: Node, ancestors: seq<Node>)
    requires node.Identifier?
    requires IdentifierIsChecked(node, ancestors, s.reactiveVariables, s.functionArguments,
                                 s.destructuredFunctions, ignored)
    ensures Step(ignored, typeOf, s, Visit(node, ancestors)) ==
            s.(reports := s.reports + (if NeedsValueSuffix(typeOf(node), ancestors)
                                       then [CreateReportData(node, MessageId)] else []))
  {
  }

  /** `isObjectKey` and `isPropertyValue` in the guard of `checkIdentifier`
      never decide anything: `isOriginalDeclaration` and the member-expression
      test already exclude every parent they match. */
  lemma IdentifierGuardRedundancy(node: Node, ancestors: seq<Node>, reactiveVariables: seq<string>,
                                  functionArguments: seq<string>, destructuredFunctions: seq<string>,
                                  ignored: seq<string>)
    requires node.Identifier?
    ensures var parent := At(ancestors, 0);
            IdentifierIsChecked(node, ancestors, reactiveVariables, functionArguments, destructuredFunctions, ignored)
            <==>
            !IsVariableDeclarator(parent) && !IsOriginalDeclaration(parent) &&
            !IsFunctionArgument(node, functionArguments) && !IsWatchArgument(node, ancestors) &&
            !IsArgumentOfFunction(node, ancestors, ignored) &&
            !IsDestructuredFunctionArgument(parent, At(ancestors, 1), destructuredFunctions) &&
            node.name in reactiveVariables
  {
  }

  /** A read whose parent is plain code and that sits inside no call meets
      every exemption's negation: it is checked exactly when it names a
      reactive reference and is not a function parameter. */
  lemma PlainReadIsChecked(node: Node, ancestors: seq<Node>, reactiveVariables: seq<string>,
                           functionArguments: seq<string>, destructuredFunctions: seq<string>,
                           ignored: seq<string>)
    requires node.Identifier?
    requires |ancestors| > 0 && ancestors[0].OtherNode?
    requires NearestCall(ancestors).None?
    ensures IdentifierIsChecked(node, ancestors, reactiveVariables, functionArguments, destructuredFunctions, ignored)
            <==> node.name in reactiveVariables && node.name !in functionArguments
  {
  }

  // ------------------------------------------ member-expression listener

  /** `x.value` is never reported, and neither is a member expression whose
      object is not an identifier naming a reactive reference. */
  lemma MemberExemptions(ignored: seq<string>, typeOf: Node -> string, s: RuleState, node: Node, ancestors: seq<Node>)
    requires node.MemberExpression?
    requires || (node.property.Identifier? && node.property.name == "value")
             || !node.obj.Identifier?
             || node.obj.name !in s.reactiveVariables
    ensures Step(ignored, typeOf, s, Visit(node, ancestors)) == s
  {
  }

  /** Otherwise the object is checked, with the member expression as its
      parent: the non-null exemption can never apply, so the report depends
      on the type string alone. */
  lemma MemberReportedIffTypeTest(ignored: seq<string>, typeOf: Node -> string, s: RuleState,
                                  node: Node, ancestors: seq<Node>)
    requires node.MemberExpression? && node.obj.Identifier? && node.obj.name in s.reactiveVariables
    requires !(node.property.Identifier? && node.property.name == "value")
    ensures var typeName := typeOf(node.obj);
            Step(ignored, typeOf, s, Visit(node, ancestors)).reports ==
            s.reports + (if Includes(typeName, "Ref") && !Includes(typeName, ".value")
                         then [CreateReportData(node.obj, MessageId)] else [])
  {
    assert !IsParentNonNullAssertion([node] + ancestors);
  }

  // ------------------------------------------------------------ options

  /** No option object, or one without `functionNamesToIgnoreValueCheck`,
      means an empty ignore list; a given list is used as is. */
  lemma OptionsDefault(names: seq<string>, rest: seq<Options>)
    ensures IgnoredFunctionNames([]) == []
    ensures IgnoredFunctionNames([Options(None)] + rest) == []
    ensures IgnoredFunctionNames([Options(Some(names))] + rest) == names
  {
  }

  /** A printed `Ref<number>` passes the type-string test. */
  lemma RefTypeNeedsSuffix()
    ensures Includes("Ref<number>", "Ref") && !Includes("Ref<number>", ".value")
  {
    IncludesNeedsFirstChar("Ref<number>", ".value");
  }
}

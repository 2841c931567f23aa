/** Whole-file runs of the rule on small programs, listener by listener in the
    order the linter visits the nodes (depth first, parents before children).
    Every program is the `OtherNode` root of its statements; the printed type
    of a reference is a precondition, since it comes from the checker. */
module Scenarios {
  import opened Eslint
  import opened TypeHelpers
  import opened ReactiveValueSuffix
  import opened RuleProperties
  import AstHelpers
  import Constants

  /** The checker prints the type of `node` as a reference without `.value`. */
  predicate PrintedAsRef(typeOf: Node -> string, node: Node) {
    Includes(typeOf(node), "Ref") && !Includes(typeOf(node), ".value")
  }

  // ------------------------------------------------ one listener call each

  /** A node without a listener. */
  method VisitQuiet(rule: ReactiveValueSuffixRule, node: Node, ancestors: seq<Node>)
    requires !(node.VariableDeclarator? || node.FunctionDeclaration? || node.ArrowFunctionExpression? ||
               node.Identifier? || node.MemberExpression?)
    modifies rule
    ensures rule.State() == old(rule.State())
  {
    UnlistenedKindsChangeNothing(rule.functionNamesToIgnoreValueCheck, rule.typeOf, rule.State(), Visit(node, ancestors));
    rule.Listen(Visit(node, ancestors));
  }

  /** An identifier in one of the exempt contexts. */
  method VisitExempt(rule: ReactiveValueSuffixRule, node: Node, ancestors: seq<Node>)
    requires node.Identifier?
    requires || node.name !in rule.variableFromReactiveFunctions
             || (|ancestors| > 0 && (ancestors[0].VariableDeclarator? || ancestors[0].MemberExpression? ||
                                     ancestors[0].Property?))
             || AstHelpers.IsWatchArgument(node, ancestors)
             || AstHelpers.IsArgumentOfFunction(node, ancestors, rule.functionNamesToIgnoreValueCheck)
             || (|ancestors| > 0 && ancestors[0].CallExpression? && ancestors[0].callee.Identifier? &&
                 ancestors[0].callee.name in rule.destructuredFunctions)
    modifies rule
    ensures rule.State() == old(rule.State())
  {
    if |ancestors| > 0 && ancestors[0].CallExpression? && ancestors[0].callee.Identifier? &&
       ancestors[0].callee.name in rule.destructuredFunctions {
      DestructuredFunctionArgumentExempt(rule.functionNamesToIgnoreValueCheck, rule.typeOf, rule.State(), node, ancestors, 0);
    } else {
      IdentifierExemptions(rule.functionNamesToIgnoreValueCheck, rule.typeOf, rule.State(), node, ancestors);
    }
    rule.Listen(Visit(node, ancestors));
  }

  /** A member expression that is not checked. */
  method VisitMemberExempt(rule: ReactiveValueSuffixRule, node: Node, ancestors: seq<Node>)
    requires node.MemberExpression?
    requires || (node.property.Identifier? && node.property.name == "value")
             || !node.obj.Identifier?
             || node.obj.name !in rule.variableFromReactiveFunctions
    modifies rule
    ensures rule.State() == old(rule.State())
  {
    MemberExemptions(rule.functionNamesToIgnoreValueCheck, rule.typeOf, rule.State(), node, ancestors);
    rule.Listen(Visit(node, ancestors));
  }

  /** A read of a reactive reference outside every exemption, printed as a
      reference: one report. */
  method VisitReported(rule: ReactiveValueSuffixRule, node: Node, ancestors: seq<Node>)
    requires node.Identifier?
    requires IdentifierIsChecked(node, ancestors, rule.variableFromReactiveFunctions, rule.functionArguments,
                                 rule.destructuredFunctions, rule.functionNamesToIgnoreValueCheck)
    requires PrintedAsRef(rule.typeOf, node)
    requires |ancestors| > 0 && !ancestors[0].TSNonNullExpression?
    modifies rule
    ensures rule.State() == old(rule.State()).(reports := old(rule.reports) + [CreateReportData(node, MessageId)])
  {
    IdentifierReportedIffTypeTest(rule.functionNamesToIgnoreValueCheck, rule.typeOf, rule.State(), node, ancestors);
    rule.Listen(Visit(node, ancestors));
  }

  /** A read of a reactive reference in plain code outside every call,
      printed as a reference: one report. */
  method ReadReference(rule: ReactiveValueSuffixRule, node: Node, ancestors: seq<Node>)
    requires node.Identifier? && PrintedAsRef(rule.typeOf, node)
    requires |ancestors| > 0 && ancestors[0].OtherNode? && NearestCall(ancestors).None?
    requires node.name in rule.variableFromReactiveFunctions && node.name !in rule.functionArguments
    modifies rule
    ensures rule.State() == old(rule.State()).(reports := old(rule.reports) + [CreateReportData(node, MessageId)])
  {
    PlainReadIsChecked(node, ancestors, rule.variableFromReactiveFunctions, rule.functionArguments,
                       rule.destructuredFunctions, rule.functionNamesToIgnoreValueCheck);
    VisitReported(rule, node, ancestors);
  }

  /** A variable declarator. */
  method VisitDeclarator(rule: ReactiveValueSuffixRule, node: Node, ancestors: seq<Node>)
    requires node.VariableDeclarator?
    modifies rule
    ensures rule.State() == old(rule.State()).(
              reactiveVariables := old(rule.variableFromReactiveFunctions) + DeclaredReactiveNames(node),
              destructuredFunctions := old(rule.destructuredFunctions) + AstHelpers.DestructuredFunctionNames(node))
  {
    DeclaratorStep(rule.functionNamesToIgnoreValueCheck, rule.typeOf, rule.State(), Visit(node, ancestors));
    rule.Listen(Visit(node, ancestors));
  }

  /** `const <x> = <f>(<literal>);` with `f` a reactive factory, visited under
      `program`: `x` joins the reactive list. */
  method DeclareReference(rule: ReactiveValueSuffixRule, declaration: Node, program: Node, literal: Node)
    requires declaration.VariableDeclaration? && |declaration.declarations| == 1
    requires var declarator := declaration.declarations[0];
             declarator.VariableDeclarator? && declarator.id.Identifier? &&
             declarator.init.Some? && declarator.init.value.CallExpression? &&
             declarator.init.value.callee.Identifier? &&
             declarator.init.value.callee.name in Constants.ReactiveFunctions &&
             declarator.init.value.callee.name !in rule.variableFromReactiveFunctions + [declarator.id.name] &&
             literal.Literal? && declarator.init.value.arguments == [literal]
    modifies rule
    ensures rule.State() == old(rule.State()).(reactiveVariables :=
              old(rule.variableFromReactiveFunctions) + [declaration.declarations[0].id.name])
  {
    var declarator := declaration.declarations[0];
    var call := declarator.init.value;
    var path := [declarator, declaration, program];
    VisitQuiet(rule, declaration, [program]);
    rule.Listen(Visit(declarator, path[1..]));
    VisitExempt(rule, declarator.id, path);
    VisitQuiet(rule, call, path);
    VisitExempt(rule, call.callee, [call] + path);
    VisitQuiet(rule, literal, [call] + path);
  }

  // ------------------------------------------------------------ scenarios

  /** `const count = ref(0); console.log(count);`: one report, at the read,
      naming `count`. */
  method LogCount(typeOf: Node -> string) returns (reports: seq<Report>)
    requires PrintedAsRef(typeOf, Identifier(11, "count"))
    ensures reports == [CreateReportData(Identifier(11, "count"), MessageId)]
  {
    var countUse := Identifier(11, "count");
    var consoleId, logId := Identifier(9, "console"), Identifier(10, "log");
    var consoleLog := MemberExpression(8, consoleId, logId);
    var logCall := CallExpression(7, consoleLog, [countUse]);
    var statement := OtherNode(6, [logCall]);
    var declaration := VariableDeclaration(0, [VariableDeclarator(1, Identifier(2, "count"),
                                                                  Some(CallExpression(3, Identifier(4, "ref"), [Literal(5)])))]);
    var program := OtherNode(100, [declaration, statement]);
    var rule := new ReactiveValueSuffixRule([], typeOf);
    VisitQuiet(rule, program, []);
    DeclareReference(rule, declaration, program, Literal(5));
    VisitQuiet(rule, statement, [program]);
    var callPath := [logCall, statement, program];
    VisitQuiet(rule, logCall, callPath[1..]);
    VisitMemberExempt(rule, consoleLog, callPath);
    VisitExempt(rule, consoleId, [consoleLog] + callPath);
    VisitExempt(rule, logId, [consoleLog] + callPath);
    assert NearestCall(callPath) == Some(logCall);
    VisitReported(rule, countUse, callPath);
    reports := rule.reports;
  }

  /** `const count = ref(0); console.log(count.value);`: no report, whatever
      the types. */
  method LogCountValue(typeOf: Node -> string) returns (reports: seq<Report>)
    ensures reports == []
  {
    var countUse, valueId := Identifier(11, "count"), Identifier(12, "value");
    var countValue := MemberExpression(13, countUse, valueId);
    var consoleId, logId := Identifier(9, "console"), Identifier(10, "log");
    var consoleLog := MemberExpression(8, consoleId, logId);
    var logCall := CallExpression(7, consoleLog, [countValue]);
    var statement := OtherNode(6, [logCall]);
    var declaration := VariableDeclaration(0, [VariableDeclarator(1, Identifier(2, "count"),
                                                                  Some(CallExpression(3, Identifier(4, "ref"), [Literal(5)])))]);
    var program := OtherNode(100, [declaration, statement]);
    var rule := new ReactiveValueSuffixRule([], typeOf);
    VisitQuiet(rule, program, []);
    DeclareReference(rule, declaration, program, Literal(5));
    VisitQuiet(rule, statement, [program]);
    var callPath := [logCall, statement, program];
    VisitQuiet(rule, logCall, callPath[1..]);
    VisitMemberExempt(rule, consoleLog, callPath);
    VisitExempt(rule, consoleId, [consoleLog] + callPath);
    VisitExempt(rule, logId, [consoleLog] + callPath);
    VisitMemberExempt(rule, countValue, callPath);
    VisitExempt(rule, countUse, [countValue] + callPath);
    VisitExempt(rule, valueId, [countValue] + callPath);
    reports := rule.reports;
  }

  /** The entries of a destructuring pattern `{ <a>: <b>, ... }`: the
      pattern, each Property, and its key and value identifiers. A name bound
      by the pattern is exempt because its parent is a Property. */
  method VisitPattern(rule: ReactiveValueSuffixRule, pattern: Node, path: seq<Node>)
    requires pattern.ObjectPattern?
    requires forall p :: p in pattern.properties ==> p.Property? && p.key.Identifier? && p.value.Identifier?
    modifies rule
    ensures rule.State() == old(rule.State())
  {
    VisitQuiet(rule, pattern, path);
    for i := 0 to |pattern.properties|
      invariant rule.State() == old(rule.State())
    {
      var property := pattern.properties[i];
      assert property in pattern.properties;
      VisitQuiet(rule, property, [pattern] + path);
      VisitExempt(rule, property.key, [property, pattern] + path);
      VisitExempt(rule, property.value, [property, pattern] + path);
    }
  }

  /** `const { x, y } = storeToRefs(store);` visited under `program`. */
  method DeclareStoreRefs(rule: ReactiveValueSuffixRule, declaration: Node, program: Node)
    requires declaration == VariableDeclaration(0, [VariableDeclarator(1,
               ObjectPattern(2, [Property(3, Identifier(4, "x"), Identifier(5, "x")),
                                 Property(6, Identifier(7, "y"), Identifier(8, "y"))]),
               Some(CallExpression(9, Identifier(10, "storeToRefs"), [Identifier(11, "store")])))])
    requires rule.State() == Initial
    modifies rule
    ensures rule.State() == Initial.(reactiveVariables := ["x", "y"])
  {
    var declarator := declaration.declarations[0];
    var call := declarator.init.value;
    var path := [declarator, declaration, program];
    VisitQuiet(rule, declaration, [program]);
    StoreRefsNames(declarator);
    VisitDeclarator(rule, declarator, path[1..]);
    VisitPattern(rule, declarator.id, path);
    VisitStoreCall(rule, call, path);
  }

  /** `storeToRefs(store)` read while only `x` and `y` are references:
      neither identifier is one, so nothing changes. */
  method VisitStoreCall(rule: ReactiveValueSuffixRule, call: Node, path: seq<Node>)
    requires call == CallExpression(9, Identifier(10, "storeToRefs"), [Identifier(11, "store")])
    requires rule.variableFromReactiveFunctions == ["x", "y"]
    modifies rule
    ensures rule.State() == old(rule.State())
  {
    VisitQuiet(rule, call, path);
    VisitExempt(rule, call.callee, [call] + path);
    VisitExempt(rule, call.arguments[0], [call] + path);
  }

  /** Destructuring `storeToRefs(store)` declares the references `x` and `y`. */
  lemma StoreRefsNames(declarator: Node)
    requires declarator == VariableDeclarator(1,
               ObjectPattern(2, [Property(3, Identifier(4, "x"), Identifier(5, "x")),
                                 Property(6, Identifier(7, "y"), Identifier(8, "y"))]),
               Some(CallExpression(9, Identifier(10, "storeToRefs"), [Identifier(11, "store")])))
    ensures DeclaredReactiveNames(declarator) == ["x", "y"]
    ensures AstHelpers.DestructuredFunctionNames(declarator) == []
  {
    assert AstHelpers.IsFunctionCall(declarator, Constants.ReactiveFunctions) by {
      assert Constants.ReactiveFunctions[2] == "storeToRefs";
    }
    assert !Constants.MatchesComposablePattern("storeToRefs") by {
      assert "storeToRefs"[..3][0] != "use"[0];
    }
    var properties := declarator.id.properties;
    assert AstHelpers.PropertyValueName(properties[0]) == Some("x");
    assert AstHelpers.PropertyValueName(properties[1]) == Some("y");
    AstHelpers.SelectNamesPair(properties[0], properties[1], AstHelpers.PropertyValueName);
  }

  /** Destructuring `useApi()` declares the composable function `fetchData`
      and no reference. */
  lemma UseApiNames(declarator: Node)
    requires declarator == VariableDeclarator(7, ObjectPattern(1, [Property(2, Identifier(3, "fetchData"),
                                                                            Identifier(4, "fetchData"))]),
                                              Some(CallExpression(5, Identifier(6, "useApi"), [])))
    ensures DeclaredReactiveNames(declarator) == []
    ensures AstHelpers.DestructuredFunctionNames(declarator) == ["fetchData"]
  {
    assert Constants.MatchesComposablePattern("useApi") by {
      assert "useApi"[..3] == "use";
    }
    assert "useApi" !in Constants.ReactiveFunctions by {
      assert forall f :: f in Constants.ReactiveFunctions ==> f[0] != 'u';
    }
    var properties := declarator.id.properties;
    assert AstHelpers.PropertyKeyName(properties[0]) == Some("fetchData");
    assert properties[..0] == [];
  }

  /** `const { x, y } = storeToRefs(store); return x + y;`: both destructured
      references are reported where they are read, neither where it is
      declared. */
  method ReadStoreRefs(typeOf: Node -> string) returns (reports: seq<Report>)
    requires PrintedAsRef(typeOf, Identifier(14, "x")) && PrintedAsRef(typeOf, Identifier(15, "y"))
    ensures reports == [CreateReportData(Identifier(14, "x"), MessageId), CreateReportData(Identifier(15, "y"), MessageId)]
  {
    var declaration := VariableDeclaration(0, [VariableDeclarator(1,
               ObjectPattern(2, [Property(3, Identifier(4, "x"), Identifier(5, "x")),
                                 Property(6, Identifier(7, "y"), Identifier(8, "y"))]),
               Some(CallExpression(9, Identifier(10, "storeToRefs"), [Identifier(11, "store")])))]);
    var xUse, yUse := Identifier(14, "x"), Identifier(15, "y");
    var sum := OtherNode(13, [xUse, yUse]);
    var returnStatement := OtherNode(12, [sum]);
    var program := OtherNode(100, [declaration, returnStatement]);
    var rule := new ReactiveValueSuffixRule([], typeOf);
    VisitQuiet(rule, program, []);
    DeclareStoreRefs(rule, declaration, program);
    ReturnSum(rule, returnStatement, program);
    reports := rule.reports;
  }

  /** `return x + y;` with `x` and `y` the references: each read is reported,
      in order. */
  method ReturnSum(rule: ReactiveValueSuffixRule, returnStatement: Node, program: Node)
    requires returnStatement == OtherNode(12, [OtherNode(13, [Identifier(14, "x"), Identifier(15, "y")])])
    requires program.OtherNode?
    requires rule.State() == Initial.(reactiveVariables := ["x", "y"])
    requires PrintedAsRef(rule.typeOf, Identifier(14, "x")) && PrintedAsRef(rule.typeOf, Identifier(15, "y"))
    modifies rule
    ensures rule.State() == old(rule.State()).(reports := [CreateReportData(Identifier(14, "x"), MessageId),
                                                           CreateReportData(Identifier(15, "y"), MessageId)])
  {
    var xUse, yUse := Identifier(14, "x"), Identifier(15, "y");
    var sum := OtherNode(13, [xUse, yUse]);
    VisitQuiet(rule, returnStatement, [program]);
    VisitQuiet(rule, sum, [returnStatement, program]);
    var usePath := [sum, returnStatement, program];
    assert NearestCall(usePath) == None;
    ReadReference(rule, xUse, usePath);
    ReadReference(rule, yUse, usePath);
  }

  /** `const { fetchData } = useApi(); fetchData();`: the function is
      collected as destructured from a composable, not as a reactive
      reference, and calling it reports nothing. */
  method CallComposableFunction(typeOf: Node -> string) returns (reports: seq<Report>, destructured: seq<string>)
    ensures reports == [] && destructured == ["fetchData"]
  {
    var key, value := Identifier(3, "fetchData"), Identifier(4, "fetchData");
    var property := Property(2, key, value);
    var pattern := ObjectPattern(1, [property]);
    var useApiId := Identifier(6, "useApi");
    var useApiCall := CallExpression(5, useApiId, []);
    var declarator := VariableDeclarator(7, pattern, Some(useApiCall));
    var declaration := VariableDeclaration(0, [declarator]);
    var fetchDataId := Identifier(10, "fetchData");
    var fetchDataCall := CallExpression(9, fetchDataId, []);
    var statement := OtherNode(8, [fetchDataCall]);
    var program := OtherNode(100, [declaration, statement]);
    var rule := new ReactiveValueSuffixRule([], typeOf);
    VisitQuiet(rule, program, []);
    VisitQuiet(rule, declaration, [program]);
    var path := [declarator, declaration, program];
    UseApiNames(declarator);
    VisitDeclarator(rule, declarator, path[1..]);
    VisitQuiet(rule, pattern, path);
    VisitQuiet(rule, property, [pattern] + path);
    VisitExempt(rule, key, [property, pattern] + path);
    VisitExempt(rule, value, [property, pattern] + path);
    VisitQuiet(rule, useApiCall, path);
    VisitExempt(rule, useApiId, [useApiCall] + path);
    VisitQuiet(rule, statement, [program]);
    VisitQuiet(rule, fetchDataCall, [statement, program]);
    VisitExempt(rule, fetchDataId, [fetchDataCall, statement, program]);
    reports := rule.reports;
    destructured := rule.destructuredFunctions;
  }

  /** `const flag = ref(false); watch(flag, () => {});`: the first argument of
      `watch` is exempt, whatever its type. */
  method WatchFlag(typeOf: Node -> string) returns (reports: seq<Report>)
    ensures reports == []
  {
    var declaration := VariableDeclaration(0, [VariableDeclarator(1, Identifier(2, "flag"),
                                                                  Some(CallExpression(3, Identifier(4, "ref"), [Literal(5)])))]);
    var statement := OtherNode(6, [CallExpression(7, Identifier(8, "watch"),
                                                  [Identifier(9, "flag"), ArrowFunctionExpression(10, [])])]);
    var program := OtherNode(100, [declaration, statement]);
    var rule := new ReactiveValueSuffixRule([], typeOf);
    VisitQuiet(rule, program, []);
    DeclareReference(rule, declaration, program, Literal(5));
    WatchStatement(rule, statement, program);
    reports := rule.reports;
  }

  /** `watch(flag, () => {});` with `flag` the one reactive reference:
      nothing changes. */
  method WatchStatement(rule: ReactiveValueSuffixRule, statement: Node, program: Node)
    requires statement == OtherNode(6, [CallExpression(7, Identifier(8, "watch"),
                                                       [Identifier(9, "flag"), ArrowFunctionExpression(10, [])])])
    requires program.OtherNode?
    requires rule.variableFromReactiveFunctions == ["flag"]
    modifies rule
    ensures rule.State() == old(rule.State())
  {
    var watchId, flagUse := Identifier(8, "watch"), Identifier(9, "flag");
    var callback := ArrowFunctionExpression(10, []);
    var body := OtherNode(11, []);
    var watchCall := CallExpression(7, watchId, [flagUse, callback]);
    VisitQuiet(rule, statement, [program]);
    var callPath := [watchCall, statement, program];
    VisitQuiet(rule, watchCall, callPath[1..]);
    VisitExempt(rule, watchId, callPath);
    assert NearestCall(callPath) == Some(watchCall);
    VisitExempt(rule, flagUse, callPath);
    rule.Listen(Visit(callback, callPath));
    VisitQuiet(rule, body, [callback] + callPath);
  }

  /** `doSomething(id);` with `id` the one reactive reference: the read of
      `id` is reported unless `doSomething` is ignored. */
  method CallDoSomething(rule: ReactiveValueSuffixRule, statement: Node, program: Node)
    requires statement == OtherNode(6, [CallExpression(7, Identifier(8, "doSomething"), [Identifier(9, "id")])])
    requires rule.State() == Initial.(reactiveVariables := ["id"])
    requires PrintedAsRef(rule.typeOf, Identifier(9, "id"))
    modifies rule
    ensures "doSomething" in rule.functionNamesToIgnoreValueCheck ==> rule.State() == old(rule.State())
    ensures "doSomething" !in rule.functionNamesToIgnoreValueCheck ==>
              rule.State() == old(rule.State()).(reports := [CreateReportData(Identifier(9, "id"), MessageId)])
  {
    var doSomethingCall := statement.children[0];
    var doSomethingId, idUse := doSomethingCall.callee, doSomethingCall.arguments[0];
    VisitQuiet(rule, statement, [program]);
    var callPath := [doSomethingCall, statement, program];
    VisitQuiet(rule, doSomethingCall, callPath[1..]);
    VisitExempt(rule, doSomethingId, callPath);
    assert NearestCall(callPath) == Some(doSomethingCall);
    assert !Constants.MatchesComposablePattern("doSomething") by { assert "doSomething"[..3][0] != "use"[0]; }
    if "doSomething" in rule.functionNamesToIgnoreValueCheck {
      assert AstHelpers.IsIdentifier(Some(doSomethingCall.arguments[0]));
      VisitExempt(rule, idUse, callPath);
    } else {
      VisitReported(rule, idUse, callPath);
    }
  }

  /** `const id = ref(1); doSomething(id);` under the given options: the read
      of `id` is reported unless `doSomething` is ignored. */
  method PassIdTo(contextOptions: seq<Options>, typeOf: Node -> string) returns (reports: seq<Report>)
    requires PrintedAsRef(typeOf, Identifier(9, "id"))
    ensures "doSomething" in IgnoredFunctionNames(contextOptions) ==> reports == []
    ensures "doSomething" !in IgnoredFunctionNames(contextOptions) ==>
              reports == [CreateReportData(Identifier(9, "id"), MessageId)]
  {
    var declaration := VariableDeclaration(0, [VariableDeclarator(1, Identifier(2, "id"),
                                                                  Some(CallExpression(3, Identifier(4, "ref"), [Literal(5)])))]);
    var statement := OtherNode(6, [CallExpression(7, Identifier(8, "doSomething"), [Identifier(9, "id")])]);
    var program := OtherNode(100, [declaration, statement]);
    var rule := new ReactiveValueSuffixRule(contextOptions, typeOf);
    VisitQuiet(rule, program, []);
    assert Constants.ReactiveFunctions[0] == "ref";
    DeclareReference(rule, declaration, program, Literal(5));
    CallDoSomething(rule, statement, program);
    reports := rule.reports;
  }

  /** With `functionNamesToIgnoreValueCheck: ['doSomething']` nothing is
      reported; with no options the read of `id` is. */
  method IgnoreListDecides(typeOf: Node -> string) returns (configured: seq<Report>, unconfigured: seq<Report>)
    requires PrintedAsRef(typeOf, Identifier(9, "id"))
    ensures configured == []
    ensures unconfigured == [CreateReportData(Identifier(9, "id"), MessageId)]
  {
    configured := PassIdTo([Options(Some(["doSomething"]))], typeOf);
    unconfigured := PassIdTo([], typeOf);
  }
}

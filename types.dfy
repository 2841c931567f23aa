/** The small utilities of types.ts: the report payload builder and a
    memoiser for a function of no arguments. */
module TypeHelpers {
  import opened Eslint

  /** `createReportData(node, messageId)`: the payload for `context.report`,
      naming the identifier it is about. */
  function CreateReportData(node: Node, messageId: string): (r: Report)
    requires node.Identifier?
    ensures r.node == node && r.messageId == messageId
    ensures r.data.name == node.name
  {
    Report(node, messageId, ReportData(node.name))
  }

  lemma CreateReportDataExample()
    ensures var node := Identifier(0, "testVariable");
            CreateReportData(node, "testMessageId") == Report(node, "testMessageId", ReportData("testVariable"))
  {
  }

  // ---------------------------------------------------------------- memoize

  /* The wrapped function may answer differently each time it is invoked (the
     tests swap its implementation between calls), so it is modelled as
     `fn(k)`, its answer on its k-th invocation counting from 0, with `None`
     for `undefined`. */

  /** The closure's state: the `cached` variable and how often `fn` ran. */
  datatype MemoState<T> = MemoState(cached: Option<T>, invocations: nat)

  /** One call of the memoised function: invoke `fn` only while nothing is
      cached; the call returns the new `cached`. */
  function MemoCall<T>(fn: nat -> Option<T>, s: MemoState<T>): (r: MemoState<T>)
    ensures s.cached.Some? ==> r == s
    ensures s.cached.None? ==> r.invocations == s.invocations + 1 && r.cached == fn(s.invocations)
  {
    if s.cached.None? then MemoState(fn(s.invocations), s.invocations + 1) else s
  }

  /** The state after `n` calls of a freshly memoised function. */
  function MemoAfter<T>(fn: nat -> Option<T>, n: nat): MemoState<T> {
    if n == 0 then MemoState(None, 0) else MemoCall(fn, MemoAfter(fn, n - 1))
  }

  /** `fn` answers `undefined` on its invocations before `k` and a value on
      invocation `k`. */
  predicate FirstDefinedAt<T>(fn: nat -> Option<T>, k: nat) {
    fn(k).Some? && forall i :: 0 <= i < k ==> fn(i).None?
  }

  /** While `fn` keeps answering `undefined`, nothing is cached and every call
      invokes `fn` again. */
  lemma {:induction false} MemoRetriesUndefined<T>(fn: nat -> Option<T>, n: nat)
    requires forall i :: 0 <= i < n ==> fn(i).None?
    ensures MemoAfter(fn, n) == MemoState(None, n)
  {
    if n > 0 {
      MemoRetriesUndefined(fn, n - 1);
    }
  }

  /** Once `fn` has answered a value, on its k-th invocation, every later call
      returns that value and `fn` is never invoked again. */
  lemma {:induction false} MemoKeepsFirstDefined<T>(fn: nat -> Option<T>, k: nat, n: nat)
    requires FirstDefinedAt(fn, k)
    requires n > k
    ensures MemoAfter(fn, n) == MemoState(fn(k), k + 1)
  {
    if n == k + 1 {
      MemoRetriesUndefined(fn, k);
    } else {
      MemoKeepsFirstDefined(fn, k, n - 1);
    }
  }

  /** The common case of the tests: a first answer that is not `undefined` is
      what every call returns, and `fn` runs exactly once. */
  lemma MemoFirstAnswerIsFinal<T>(fn: nat -> Option<T>, n: nat)
    requires fn(0).Some?
    requires n >= 1
    ensures MemoAfter(fn, n).cached == fn(0)
    ensures MemoAfter(fn, n).invocations == 1
  {
    MemoKeepsFirstDefined(fn, 0, n);
  }

  /** With a value cached, the call does not depend on `fn` at all: swapping
      the implementation afterwards changes nothing. */
  lemma MemoIgnoresFnOnceCached<T>(fn: nat -> Option<T>, other: nat -> Option<T>, s: MemoState<T>)
    requires s.cached.Some?
    ensures MemoCall(fn, s) == MemoCall(other, s) == s
  {
  }

  /** `memoize(fn)`: the closure with its captured `cached` variable, plus a
      count of the invocations of `fn`. */
  class Memoized<T> {
    const fn: nat -> Option<T>
    var cached: Option<T>
    var invocations: nat

    function State(): MemoState<T>
      reads this
    {
      MemoState(cached, invocations)
    }

    constructor(fn: nat -> Option<T>)
      ensures this.fn == fn
      ensures State() == MemoAfter(fn, 0)
    {
      this.fn := fn;
      cached := None;
      invocations := 0;
    }

    /** Calling the memoised function. */
    method Call() returns (r: Option<T>)
      modifies this
      ensures State() == MemoCall(fn, old(State()))
      ensures r == cached
    {
      if cached.None? {
        cached := fn(invocations);
        invocations := invocations + 1;
      }
      r := cached;
    }
  }

  /** Three calls in a row, as the tests make them: with a first answer of 42
      all three return 42 and `fn` ran once. */
  method MemoizeExample() returns (results: seq<Option<int>>, invocations: nat)
    ensures results == [Some(42), Some(42), Some(42)] && invocations == 1
  {
    var memoizedFn := new Memoized((k: nat) => if k == 0 then Some(42) else Some(100));
    var result1 := memoizedFn.Call();
    var result2 := memoizedFn.Call();
    var result3 := memoizedFn.Call();
    results := [result1, result2, result3];
    invocations := memoizedFn.invocations;
  }
}

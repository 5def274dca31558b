/** Properties of Run: state threading, the success path as a left fold, the
    ordering of handler and rollback calls after a failure, the contents of
    the error list under both rollback policies, and how Step extends a run. */
module TransactionProperties {
  import opened Wrappers
  import opened Arrays
  import opened Transactions

  // ---------------------------------------------------------------- the rollback scan

  /** The scan calls rollbacks only, at indices `from`, `from - 1`, ... in
      that order, and always calls rollback `from` when there is one. */
  lemma {:induction false} ScanShape<T, E>(steps: seq<TxnStep<T, E>>, from: int, s: T, failFast: bool)
    requires -1 <= from < |steps|
    ensures var rb := RollbackScan(steps, from, s, failFast);
            && (from >= 0 ==> 1 <= |rb.calls|)
            && |rb.calls| <= from + 1
            && (forall q :: 0 <= q < |rb.calls| ==> rb.calls[q].RollbackCall? && rb.calls[q].index == from - q)
    decreases from + 1
  {
    if from >= 0 {
      var r := steps[from].rollback(s);
      var rb := RollbackScan(steps, from, s, failFast);
      if r.1.Some? && failFast {
        assert rb.calls == [RollbackCall(from, s, r.0, r.1)];
      } else {
        var rest := RollbackScan(steps, from - 1, r.0, failFast);
        ScanShape(steps, from - 1, r.0, failFast);
        assert rb.calls == [RollbackCall(from, s, r.0, r.1)] + rest.calls;
        forall q | 1 <= q < |rb.calls|
          ensures rb.calls[q] == rest.calls[q - 1]
        {}
      }
    }
  }

  /** Each rollback the scan calls receives the previous call's output, the
      first one receives `s`, the scan returns the last output, and every
      recorded call is a real invocation of its rollback. */
  lemma {:induction false} ScanThreads<T, E>(steps: seq<TxnStep<T, E>>, from: int, s: T, failFast: bool)
    requires -1 <= from < |steps|
    ensures var rb := RollbackScan(steps, from, s, failFast);
            Threads(rb.calls, s, rb.state) && Genuine(rb.calls, steps)
    decreases from + 1
  {
    if from >= 0 {
      var r := steps[from].rollback(s);
      var call := RollbackCall(from, s, r.0, r.1);
      var rb := RollbackScan(steps, from, s, failFast);
      if r.1.Some? && failFast {
        assert rb.calls == [call];
      } else {
        var rest := RollbackScan(steps, from - 1, r.0, failFast);
        ScanThreads(steps, from - 1, r.0, failFast);
        assert rb.calls == [call] + rest.calls;
        forall q | 1 <= q < |rb.calls|
          ensures rb.calls[q] == rest.calls[q - 1]
        {}
      }
    }
  }

  /** Without fail-fast the scan invokes every rollback from `from` down to 0
      and never aborts; its error list holds one entry per failing rollback,
      in call order. */
  lemma {:induction false} ScanCollects<T, E>(steps: seq<TxnStep<T, E>>, from: int, s: T)
    requires -1 <= from < |steps|
    ensures var rb := RollbackScan(steps, from, s, false);
            && rb.abort == None
            && |rb.calls| == from + 1
            && rb.errors == RollbackErrors(rb.calls)
    decreases from + 1
  {
    if from >= 0 {
      var r := steps[from].rollback(s);
      var rest := RollbackScan(steps, from - 1, r.0, false);
      ScanCollects(steps, from - 1, r.0);
      var rb := RollbackScan(steps, from, s, false);
      assert rb.calls == [RollbackCall(from, s, r.0, r.1)] + rest.calls;
      assert rb.calls[1..] == rest.calls;
    }
  }

  /** With fail-fast the scan appends no error of its own: it stops right
      after the first failing rollback and returns that failure as its abort
      error; if no rollback fails it visits every index down to 0. */
  lemma {:induction false} ScanFailFast<T, E>(steps: seq<TxnStep<T, E>>, from: int, s: T)
    requires -1 <= from < |steps|
    ensures var rb := RollbackScan(steps, from, s, true);
            var n := |rb.calls|;
            && rb.errors == []
            && (forall q :: 0 <= q < n - 1 ==> !Failed(rb.calls[q]))
            && (rb.abort.Some? <==> n > 0 && Failed(rb.calls[n - 1]))
            && (rb.abort.Some? ==> rb.abort.value == RollbackFailed(rb.calls[n - 1].index + 1, rb.calls[n - 1].err.value))
            && (rb.abort.None? ==> n == from + 1)
    decreases from + 1
  {
    if from >= 0 {
      var r := steps[from].rollback(s);
      if r.1.None? {
        var rest := RollbackScan(steps, from - 1, r.0, true);
        ScanFailFast(steps, from - 1, r.0);
        var rb := RollbackScan(steps, from, s, true);
        assert rb.errors == rest.errors && rb.abort == rest.abort;
        assert rb.calls == [RollbackCall(from, s, r.0, r.1)] + rest.calls;
        forall q | 1 <= q < |rb.calls|
          ensures rb.calls[q] == rest.calls[q - 1]
        {}
      }
    }
  }

  /** The error list RollbackErrors derives from a call list has one entry per
      failing call. */
  lemma {:induction false} RollbackErrorsCount<T, E>(calls: seq<Call<T, E>>)
    ensures |RollbackErrors(calls)| == |Filter(calls, c => Failed(c))|
    decreases |calls|
  {
    if |calls| > 0 {
      RollbackErrorsCount(calls[1..]);
    }
  }

  // ---------------------------------------------------------------- the forward loop

  /** Folding one more handler extends the fold by that handler's output. */
  lemma FoldStep<T, E>(steps: seq<TxnStep<T, E>>, s: T, i: nat)
    requires i < |steps|
    ensures steps[i].handler(Fold(steps, i, s)) == (Fold(steps, i + 1, s), HandlerError(steps, s, i))
  {}

  /** The fold of the first `n` handlers depends on those handlers only:
      steps registered later do not change it. */
  lemma {:induction false} FoldPrefix<T, E>(a: seq<TxnStep<T, E>>, b: seq<TxnStep<T, E>>, n: nat, s: T)
    requires n <= |a| && n <= |b|
    requires a[..n] == b[..n]
    ensures Fold(a, n, s) == Fold(b, n, s)
    decreases n
  {
    if n > 0 {
      assert a[..n - 1] == a[..n][..n - 1] == b[..n][..n - 1] == b[..n - 1];
      assert a[n - 1] == a[..n][n - 1] == b[..n][n - 1] == b[n - 1];
      FoldPrefix(a, b, n - 1, s);
    }
  }

  /** The call handler `j` makes when the handlers before it ran in order
      from `s`: on their fold, returning the next fold and its own error. */
  ghost function FoldCall<T, E>(steps: seq<TxnStep<T, E>>, s: T, j: nat): Call<T, E>
    requires j < |steps|
  {
    HandlerCall(j, Fold(steps, j, s), Fold(steps, j + 1, s), HandlerError(steps, s, j))
  }

  /** Once every remaining handler succeeds, the handler loop from `i` calls
      each remaining handler once, in order, on the fold of the handlers
      before it, and ends on the full fold without a failure. */
  lemma {:induction false} HandlersSucceed<T, E>(steps: seq<TxnStep<T, E>>, s: T, i: nat)
    requires i <= |steps|
    requires forall j :: i <= j < |steps| ==> HandlerError(steps, s, j).None?
    ensures var f := Handlers(steps, i, Fold(steps, i, s));
            && f.state == Fold(steps, |steps|, s)
            && f.failure == None
            && |f.calls| == |steps| - i
            && forall j :: i <= j < |steps| ==> f.calls[j - i] == FoldCall(steps, s, j)
    decreases |steps| - i
  {
    if i < |steps| {
      var si := Fold(steps, i, s);
      var f := Handlers(steps, i, si);
      var r := steps[i].handler(si);
      assert r.0 == Fold(steps, i + 1, s);
      assert HandlerError(steps, s, i).None?;
      var rest := Handlers(steps, i + 1, r.0);
      assert f.state == rest.state && f.failure == rest.failure;
      assert f.calls == [HandlerCall(i, si, r.0, None)] + rest.calls;
      HandlersSucceed(steps, s, i + 1);
      forall j | i < j < |steps|
        ensures f.calls[j - i] == FoldCall(steps, s, j)
      {
        var d := j - (i + 1);
        assert f.calls[d + 1] == rest.calls[d];
      }
    }
  }

  /** When handler `k` is the first to fail, the handler loop from `i <= k`
      calls handlers `i..k` in order, each on the fold of the handlers before
      it, and stops at handler `k`'s failure, on that handler's output. */
  lemma {:induction false} HandlersFail<T, E>(steps: seq<TxnStep<T, E>>, s: T, i: nat, k: nat)
    requires i <= k
    requires FailsFirstAt(steps, s, k)
    ensures var f := Handlers(steps, i, Fold(steps, i, s));
            && f.state == Fold(steps, k + 1, s)
            && f.failure == Some(Failure(k, HandlerError(steps, s, k).value))
            && |f.calls| == k - i + 1
            && forall j :: i <= j <= k ==> f.calls[j - i] == FoldCall(steps, s, j)
    decreases k - i
  {
    var si := Fold(steps, i, s);
    var f := Handlers(steps, i, si);
    var r := steps[i].handler(si);
    assert r.0 == Fold(steps, i + 1, s);
    if i < k {
      assert HandlerError(steps, s, i).None?;
      var rest := Handlers(steps, i + 1, r.0);
      assert f.state == rest.state && f.failure == rest.failure;
      assert f.calls == [HandlerCall(i, si, r.0, None)] + rest.calls;
      HandlersFail(steps, s, i + 1, k);
      forall j | i < j <= k
        ensures f.calls[j - i] == FoldCall(steps, s, j)
      {
        var d := j - (i + 1);
        assert f.calls[d + 1] == rest.calls[d];
      }
    } else {
      assert f.calls == [HandlerCall(i, si, r.0, r.1)];
    }
  }

  /** The handler loop from any index and state threads the state through
      every call it makes, each recorded call being a real invocation. */
  lemma {:induction false} HandlersThreads<T, E>(steps: seq<TxnStep<T, E>>, i: nat, s: T)
    requires i <= |steps|
    ensures var f := Handlers(steps, i, s);
            Threads(f.calls, s, f.state) && Genuine(f.calls, steps)
    decreases |steps| - i
  {
    if i < |steps| {
      var r := steps[i].handler(s);
      if r.1.None? {
        var f := Handlers(steps, i, s);
        var rest := Handlers(steps, i + 1, r.0);
        HandlersThreads(steps, i + 1, r.0);
        assert f.calls == [HandlerCall(i, s, r.0, r.1)] + rest.calls;
        forall q | 1 <= q < |f.calls|
          ensures f.calls[q] == rest.calls[q - 1]
        {}
      }
    }
  }

  /** A call list ending in `mid` followed by one starting from `mid` is one
      call list threaded from the first's start to the second's end, and it
      is genuine when both parts are. */
  lemma ThreadsAppend<T, E>(a: seq<Call<T, E>>, b: seq<Call<T, E>>, from: T, mid: T, to: T, steps: seq<TxnStep<T, E>>)
    requires Threads(a, from, mid) && Threads(b, mid, to)
    requires Genuine(a, steps) && Genuine(b, steps)
    ensures Threads(a + b, from, to) && Genuine(a + b, steps)
  {}

  /** If some handler fails, one of them fails first. */
  lemma FirstFailure<T, E>(steps: seq<TxnStep<T, E>>, s: T) returns (k: nat)
    requires !AllSucceed(steps, s)
    ensures FailsFirstAt(steps, s, k)
  {
    k :| 0 <= k < |steps| && HandlerError(steps, s, k).Some?;
    while exists j :: 0 <= j < k && HandlerError(steps, s, j).Some?
      invariant k < |steps| && HandlerError(steps, s, k).Some?
      decreases k
    {
      var j :| 0 <= j < k && HandlerError(steps, s, j).Some?;
      k := j;
    }
  }

  // ---------------------------------------------------------------- Run

  /** A transaction without steps returns its initial state, no error and
      makes no call. */
  lemma RunNewTxn<T, E>(s: T, failFast: bool)
    ensures Run(NewTxn<T, E>(s, failFast)) == Outcome(s, [], [])
  {}

  /** Every call Run makes receives the state the previous call returned,
      even when that call reported an error; the first receives the initial
      state and Run returns the last state produced. */
  lemma RunThreadsState<T, E>(t: Txn<T, E>)
    ensures Threads(Run(t).calls, t.state, Run(t).state)
    ensures Genuine(Run(t).calls, t.steps)
  {
    var f := Handlers(t.steps, 0, t.state);
    HandlersThreads(t.steps, 0, t.state);
    if f.failure.Some? {
      var rb := RollbackScan(t.steps, f.failure.value.index, f.state, t.failFast);
      ScanThreads(t.steps, f.failure.value.index, f.state, t.failFast);
      ThreadsAppend(f.calls, rb.calls, t.state, f.state, rb.state, t.steps);
    }
  }

  /** When every handler succeeds, Run returns the left fold of the handlers
      over the initial state with no error, calling each handler once in
      order and no rollback. */
  lemma RunAllSucceed<T, E>(t: Txn<T, E>)
    requires AllSucceed(t.steps, t.state)
    ensures var o := Run(t);
            && o.errors == []
            && o.state == Fold(t.steps, |t.steps|, t.state)
            && |o.calls| == |t.steps|
            && forall q :: 0 <= q < |o.calls| ==>
                 o.calls[q] == HandlerCall(q, Fold(t.steps, q, t.state), Fold(t.steps, q + 1, t.state), None)
  {
    HandlersSucceed(t.steps, t.state, 0);
    forall q | 0 <= q < |t.steps|
      ensures Run(t).calls[q] == HandlerCall(q, Fold(t.steps, q, t.state), Fold(t.steps, q + 1, t.state), None)
    {
      assert Run(t).calls[q] == FoldCall(t.steps, t.state, q);
      assert HandlerError(t.steps, t.state, q).None?;
    }
  }

  /** When handler `k` is the first to fail, Run calls handlers 0..k in
      order, each on the fold of the ones before it, and then the rollback
      scan from `k` on handler `k`'s output: the scan's calls follow the
      handler calls, and its errors follow the step failure. */
  lemma RunFailsAt<T, E>(t: Txn<T, E>, k: nat)
    requires FailsFirstAt(t.steps, t.state, k)
    ensures var o := Run(t);
            var rb := RollbackScan(t.steps, k, Fold(t.steps, k + 1, t.state), t.failFast);
            && |o.calls| == k + 1 + |rb.calls|
            && (forall j :: 0 <= j <= k ==> o.calls[j] == FoldCall(t.steps, t.state, j))
            && o.calls[k + 1..] == rb.calls
            && o.state == rb.state
            && o.errors == [StepFailed(k + 1, HandlerError(t.steps, t.state, k).value)] + rb.errors + AbortErrors(rb.abort)
  {
    HandlersFail(t.steps, t.state, 0, k);
    var f := Handlers(t.steps, 0, t.state);
    var rb := RollbackScan(t.steps, k, f.state, t.failFast);
    assert Run(t).calls == f.calls + rb.calls;
  }

  /** When handler `k` is the first to fail: handlers 0..k ran in order, no
      handler after `k` ever runs, the step failure at position k + 1 leads
      the error list, and rollback `k` is called next, on the failing
      handler's output. */
  lemma RunFailure<T, E>(t: Txn<T, E>, k: nat)
    requires FailsFirstAt(t.steps, t.state, k)
    ensures var o := Run(t);
            && |o.errors| >= 1
            && o.errors[0] == StepFailed(k + 1, HandlerError(t.steps, t.state, k).value)
            && k + 2 <= |o.calls|
            && (forall q :: 0 <= q <= k ==> o.calls[q].HandlerCall? && o.calls[q].index == q)
            && (forall q :: k < q < |o.calls| ==> o.calls[q].RollbackCall?)
            && (forall q :: 0 <= q < |o.calls| && o.calls[q].HandlerCall? ==> o.calls[q].index <= k)
            && o.calls[k + 1].index == k
            && o.calls[k + 1].input == o.calls[k].output
  {
    var s' := Fold(t.steps, k + 1, t.state);
    RunFailsAt(t, k);
    ScanShape(t.steps, k, s', t.failFast);
    var o := Run(t);
    var rb := RollbackScan(t.steps, k, s', t.failFast);
    forall q | k < q < |o.calls|
      ensures o.calls[q] == rb.calls[q - k - 1]
    {}
    assert rb.calls[0].input == s';
  }

  /** Run reports no error exactly when every handler succeeds. */
  lemma RunErrorFreeIff<T, E>(t: Txn<T, E>)
    ensures Run(t).errors == [] <==> AllSucceed(t.steps, t.state)
  {
    if AllSucceed(t.steps, t.state) {
      RunAllSucceed(t);
    } else {
      var k := FirstFailure(t.steps, t.state);
      RunFailure(t, k);
    }
  }

  /** Without fail-fast, after handler `k` fails first the rollbacks
      k, k-1, ..., 0 each run exactly once, in that order, whatever they
      return; the errors are the step failure followed by one rollback
      failure per failing rollback, in call order, so there are one plus as
      many errors as failing rollbacks. */
  lemma RunRollsBackEveryStep<T, E>(t: Txn<T, E>, k: nat)
    requires !t.failFast
    requires FailsFirstAt(t.steps, t.state, k)
    ensures var o := Run(t);
            && |o.calls| == 2 * k + 2
            && (forall q :: k < q < |o.calls| ==> o.calls[q].RollbackCall? && o.calls[q].index == 2 * k + 1 - q)
            && o.errors == [StepFailed(k + 1, HandlerError(t.steps, t.state, k).value)] + RollbackErrors(o.calls[k + 1..])
            && |o.errors| == 1 + |Filter(o.calls[k + 1..], c => Failed(c))|
  {
    var s' := Fold(t.steps, k + 1, t.state);
    RunFailsAt(t, k);
    ScanShape(t.steps, k, s', false);
    ScanCollects(t.steps, k, s');
    var o := Run(t);
    RollbackErrorsCount(o.calls[k + 1..]);
  }

  /** With fail-fast, after handler `k` fails first the rollbacks run from
      `k` downwards, each at most once, and every one but the last succeeds. */
  lemma RunFailFastCalls<T, E>(t: Txn<T, E>, k: nat)
    requires t.failFast
    requires FailsFirstAt(t.steps, t.state, k)
    ensures var o := Run(t);
            && k + 2 <= |o.calls| <= 2 * k + 2
            && (forall q :: k < q < |o.calls| ==> o.calls[q].RollbackCall? && o.calls[q].index == 2 * k + 1 - q)
            && (forall q :: k < q < |o.calls| - 1 ==> !Failed(o.calls[q]))
  {
    var s' := Fold(t.steps, k + 1, t.state);
    RunFailsAt(t, k);
    ScanShape(t.steps, k, s', true);
    ScanFailFast(t.steps, k, s');
    var o := Run(t);
    var rb := RollbackScan(t.steps, k, s', true);
    forall q | k < q < |o.calls|
      ensures o.calls[q] == rb.calls[q - k - 1]
    {}
  }

  /** The error shape of a fail-fast run, read off its call list: the calls
      end with the rollback calls of a fail-fast scan, whose abort error, if
      any, is the failure of its last call. */
  lemma FailFastTail<T, E>(o: Outcome<T, E>, rb: RollbackResult<T, E>, k: nat, e: TxnError<E>)
    requires |o.calls| == k + 1 + |rb.calls|
    requires o.calls[k + 1..] == rb.calls
    requires o.errors == [e] + rb.errors + AbortErrors(rb.abort)
    requires rb.errors == []
    requires var n := |rb.calls|;
             && (rb.abort.Some? <==> n > 0 && Failed(rb.calls[n - 1]))
             && (rb.abort.Some? ==> rb.abort.value == RollbackFailed(rb.calls[n - 1].index + 1, rb.calls[n - 1].err.value))
             && (rb.abort.None? ==> n == k + 1)
    ensures k + 2 <= |o.calls|
    ensures var last := o.calls[|o.calls| - 1];
            if Failed(last) then o.errors == [e, RollbackFailed(last.index + 1, last.err.value)]
            else |o.calls| == 2 * k + 2 && o.errors == [e]
  {}

  /** With fail-fast, after handler `k` fails first the errors are the step
      failure followed by the failure of the last rollback called, if it
      failed; when it did not fail, every rollback from `k` down to 0 ran. */
  lemma RunFailFastErrors<T, E>(t: Txn<T, E>, k: nat)
    requires t.failFast
    requires FailsFirstAt(t.steps, t.state, k)
    ensures var o := Run(t);
            var e := StepFailed(k + 1, HandlerError(t.steps, t.state, k).value);
            && k + 2 <= |o.calls|
            && var last := o.calls[|o.calls| - 1];
               if Failed(last) then o.errors == [e, RollbackFailed(last.index + 1, last.err.value)]
               else |o.calls| == 2 * k + 2 && o.errors == [e]
  {
    HandlersFail(t.steps, t.state, 0, k);
    var f := Handlers(t.steps, 0, t.state);
    var rb := RollbackScan(t.steps, k, f.state, true);
    ScanFailFast(t.steps, k, f.state);
    var o := Run(t);
    assert o.calls == f.calls + rb.calls;
    FailFastTail(o, rb, k, StepFailed(k + 1, HandlerError(t.steps, t.state, k).value));
  }

  /** With fail-fast, after handler `k` fails first the rollbacks run from
      `k` downwards and stop right after the first failing one, say at index
      j: no rollback below j runs and the errors are exactly the step failure
      and that rollback failure. If no rollback fails, all of k..0 run and
      the step failure is the only error. */
  lemma RunFailFastStops<T, E>(t: Txn<T, E>, k: nat)
    requires t.failFast
    requires FailsFirstAt(t.steps, t.state, k)
    ensures var o := Run(t);
            var e := StepFailed(k + 1, HandlerError(t.steps, t.state, k).value);
            && k + 2 <= |o.calls| <= 2 * k + 2
            && (forall q :: k < q < |o.calls| ==> o.calls[q].RollbackCall? && o.calls[q].index == 2 * k + 1 - q)
            && (forall q :: k < q < |o.calls| - 1 ==> !Failed(o.calls[q]))
            && var last := o.calls[|o.calls| - 1];
               && (forall q :: k < q < |o.calls| ==> o.calls[q].index >= last.index)
               && if Failed(last) then o.errors == [e, RollbackFailed(last.index + 1, last.err.value)]
                  else |o.calls| == 2 * k + 2 && o.errors == [e]
  {
    RunFailFastCalls(t, k);
    RunFailFastErrors(t, k);
  }

  /** Registering a step after handlers that all succeed extends the run:
      the earlier calls are unchanged, the new handler receives the state
      the earlier steps produced, and then either the run ends on its output
      or its own rollback runs next on that output. */
  lemma RunAfterStep<T, E>(t: Txn<T, E>, handler: TxnFunc<T, E>, rollback: TxnFunc<T, E>)
    requires AllSucceed(t.steps, t.state)
    ensures var o := Run(t);
            var n := |t.steps|;
            var r := handler(o.state);
            var o' := Run(Step(t, handler, rollback));
            && n < |o'.calls|
            && o'.calls[..n] == o.calls
            && o'.calls[n] == HandlerCall(n, o.state, r.0, r.1)
            && (r.1.None? ==> o'.state == r.0 && o'.errors == [] && |o'.calls| == n + 1)
            && (r.1.Some? ==>
                  && 1 <= |o'.errors|
                  && n + 1 < |o'.calls|
                  && o'.errors[0] == StepFailed(n + 1, r.1.value)
                  && o'.calls[n + 1].RollbackCall?
                  && o'.calls[n + 1].index == n
                  && o'.calls[n + 1].input == r.0)
  {
    var n := |t.steps|;
    var t' := Step(t, handler, rollback);
    var steps' := t'.steps;
    forall j | 0 <= j <= n
      ensures Fold(steps', j, t.state) == Fold(t.steps, j, t.state)
    {
      assert steps'[..j] == t.steps[..j];
      FoldPrefix(steps', t.steps, j, t.state);
    }
    assert forall j :: 0 <= j < n ==> HandlerError(steps', t.state, j) == HandlerError(t.steps, t.state, j);
    RunAllSucceed(t);
    var o := Run(t);
    FoldStep(steps', t.state, n);
    var o' := Run(t');
    if HandlerError(steps', t.state, n).None? {
      RunAllSucceed(t');
    } else {
      RunFailure(t', n);
      RunFailsAt(t', n);
    }
    forall q | 0 <= q < n
      ensures o'.calls[q] == o.calls[q]
    {
      assert Fold(steps', q, t.state) == Fold(t.steps, q, t.state);
      assert Fold(steps', q + 1, t.state) == Fold(t.steps, q + 1, t.state);
    }
    assert o'.calls[..n] == o.calls;
  }
}

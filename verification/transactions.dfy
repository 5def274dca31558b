/** The transaction (saga) engine of transactions.go.

    A transaction owns a state value, an ordered list of steps (each a
    forward handler with its compensating rollback) and a fail-fast flag.
    Run applies the handlers in order; on the first handler error it records
    a positioned step failure and scans the rollbacks from the failed index
    down to 0, collecting rollback errors or, under fail-fast, stopping at the
    first one. Run is modelled as a pure function that also returns the
    sequence of calls it made, so that call order can be stated. */
module Transactions {
  import opened Wrappers

  /** A step function: receives the current state and returns the next state
      together with an optional error. */
  type TxnFunc<!T, E> = T -> (T, Option<E>)

  /** A registered step: its forward handler and its rollback. */
  datatype TxnStep<!T, E> = TxnStep(handler: TxnFunc<T, E>, rollback: TxnFunc<T, E>)

  /** A transaction before it runs: the initial state, the steps in
      registration order and the rollback policy. */
  datatype Txn<!T, E> = Txn(state: T, steps: seq<TxnStep<T, E>>, failFast: bool)

  /** An error recorded by Run, carrying the 1-based position of its step
      and the cause the step function returned. */
  datatype TxnError<E> =
    | StepFailed(step: nat, cause: E)
    | RollbackFailed(step: nat, cause: E)

  /** One invocation of a step function: which function, at which index, the
      state it received, the state it returned and the error it reported. */
  datatype Call<T, E> =
    | HandlerCall(index: nat, input: T, output: T, err: Option<E>)
    | RollbackCall(index: nat, input: T, output: T, err: Option<E>)

  /** What Run returns: the last state produced and the errors in the order
      they were recorded (the Go code joins them into one error; an empty
      list is the nil error), plus the calls it made, in order. */
  datatype Outcome<T, E> = Outcome(state: T, errors: seq<TxnError<E>>, calls: seq<Call<T, E>>)

  /** What the rollback scan produces: the state, the rollback errors it
      appended while continuing, the error it aborted with under fail-fast,
      and the rollback calls it made. */
  datatype RollbackResult<T, E> =
    RollbackResult(state: T, errors: seq<TxnError<E>>, abort: Option<TxnError<E>>, calls: seq<Call<T, E>>)

  // ---------------------------------------------------------------- operations

  /** A transaction over `state` with no steps. */
  function NewTxn<T, E>(state: T, failFast: bool): Txn<T, E>
  {
    Txn(state, [], failFast)
  }

  /** Registers one more step after the existing ones. */
  function Step<T, E>(t: Txn<T, E>, handler: TxnFunc<T, E>, rollback: TxnFunc<T, E>): (r: Txn<T, E>)
    ensures |r.steps| == |t.steps| + 1
    ensures r.steps[..|t.steps|] == t.steps
    ensures r.steps[|t.steps|].handler == handler && r.steps[|t.steps|].rollback == rollback
    ensures r.state == t.state && r.failFast == t.failFast
  {
    t.(steps := t.steps + [TxnStep(handler, rollback)])
  }

  /** The error the fail-fast scan returned, as a list to append. */
  function AbortErrors<E>(abort: Option<TxnError<E>>): seq<TxnError<E>>
  {
    match abort
    case None => []
    case Some(e) => [e]
  }

  /** The private rollback: scans the rollbacks from index `from` down to 0,
      each receiving the state the previous call produced. */
  function RollbackScan<T, E>(steps: seq<TxnStep<T, E>>, from: int, s: T, failFast: bool): RollbackResult<T, E>
    requires -1 <= from < |steps|
    decreases from + 1
  {
    if from < 0 then RollbackResult(s, [], None, [])
    else
      var r := steps[from].rollback(s);
      var call := RollbackCall(from, s, r.0, r.1);
      if r.1.None? then
        var rest := RollbackScan(steps, from - 1, r.0, failFast);
        RollbackResult(rest.state, rest.errors, rest.abort, [call] + rest.calls)
      else
        var e := RollbackFailed(from + 1, r.1.value);
        if failFast then RollbackResult(r.0, [], Some(e), [call])
        else
          var rest := RollbackScan(steps, from - 1, r.0, failFast);
          RollbackResult(rest.state, [e] + rest.errors, rest.abort, [call] + rest.calls)
  }

  /** The handler `index` that failed first and the cause it returned. */
  datatype Failure<E> = Failure(index: nat, cause: E)

  /** What the handler half of Run's loop produces: the state after the last
      handler it called, the failure it stopped at, if any, and its calls. */
  datatype Forward<T, E> = Forward(state: T, failure: Option<Failure<E>>, calls: seq<Call<T, E>>)

  /** The handler half of Run's loop from step `index` on, with current state
      `s`: each handler receives the previous one's output, and the loop stops
      right after the first handler that reports an error. */
  function Handlers<T, E>(steps: seq<TxnStep<T, E>>, index: nat, s: T): (r: Forward<T, E>)
    requires index <= |steps|
    ensures r.failure.Some? ==> index <= r.failure.value.index < |steps|
    decreases |steps| - index
  {
    if index == |steps| then Forward(s, None, [])
    else
      var r := steps[index].handler(s);
      var call := HandlerCall(index, s, r.0, r.1);
      if r.1.None? then
        var rest := Handlers(steps, index + 1, r.0);
        Forward(rest.state, rest.failure, [call] + rest.calls)
      else
        Forward(r.0, Some(Failure(index, r.1.value)), [call])
  }

  /** Runs the transaction once: the handlers in order and, if one fails, its
      step failure followed by the rollback scan from that step down, on the
      state the failing handler returned. */
  function Run<T, E>(t: Txn<T, E>): Outcome<T, E>
  {
    var f := Handlers(t.steps, 0, t.state);
    match f.failure
    case None => Outcome(f.state, [], f.calls)
    case Some(failure) =>
      var rb := RollbackScan(t.steps, failure.index, f.state, t.failFast);
      Outcome(rb.state, [StepFailed(failure.index + 1, failure.cause)] + rb.errors + AbortErrors(rb.abort),
              f.calls + rb.calls)
  }

  /** Go's errors.Is on the joined error: some recorded error wraps `cause`. */
  predicate Is<E(==)>(errors: seq<TxnError<E>>, cause: E)
  {
    exists i :: 0 <= i < |errors| && errors[i].cause == cause
  }

  // ---------------------------------------------------------------- reference definitions

  /** The left fold of the first `n` handlers over `s`: the state after
      handlers 0..n-1 ran in order, each on its predecessor's output. */
  ghost function Fold<T, E>(steps: seq<TxnStep<T, E>>, n: nat, s: T): T
    requires n <= |steps|
    decreases n
  {
    if n == 0 then s
    else steps[n - 1].handler(Fold(steps, n - 1, s)).0
  }

  /** The error handler `k` reports when the handlers before it ran from `s`. */
  ghost function HandlerError<T, E>(steps: seq<TxnStep<T, E>>, s: T, k: nat): Option<E>
    requires k < |steps|
  {
    steps[k].handler(Fold(steps, k, s)).1
  }

  /** Every handler succeeds when run in order from `s`. */
  ghost predicate AllSucceed<T, E>(steps: seq<TxnStep<T, E>>, s: T)
  {
    forall k :: 0 <= k < |steps| ==> HandlerError(steps, s, k).None?
  }

  /** Handler `k` is the first one to fail when run in order from `s`. */
  ghost predicate FailsFirstAt<T, E>(steps: seq<TxnStep<T, E>>, s: T, k: nat)
  {
    && k < |steps|
    && HandlerError(steps, s, k).Some?
    && forall j :: 0 <= j < k ==> HandlerError(steps, s, j).None?
  }

  /** Each call's input is the previous call's output; the first receives
      `from` and the last one's output is `to`. With no calls, `from == to`. */
  ghost predicate Threads<T, E>(calls: seq<Call<T, E>>, from: T, to: T)
  {
    if |calls| == 0 then from == to
    else
      && calls[0].input == from
      && calls[|calls| - 1].output == to
      && forall q :: 0 <= q < |calls| - 1 ==> calls[q].output == calls[q + 1].input
  }

  /** Every recorded call is a real invocation of the named step function:
      its output and error are what that function returns on its input. */
  ghost predicate Genuine<T, E>(calls: seq<Call<T, E>>, steps: seq<TxnStep<T, E>>)
  {
    forall q :: 0 <= q < |calls| ==>
      && calls[q].index < |steps|
      && (calls[q].output, calls[q].err) ==
         (if calls[q].HandlerCall? then steps[calls[q].index].handler(calls[q].input)
          else steps[calls[q].index].rollback(calls[q].input))
  }

  /** The call reported an error. */
  predicate Failed<T, E>(c: Call<T, E>)
  {
    c.err.Some?
  }

  /** The errors a sequence of rollback calls reports, in call order. */
  function RollbackErrors<T, E>(calls: seq<Call<T, E>>): seq<TxnError<E>>
    decreases |calls|
  {
    if |calls| == 0 then []
    else
      (match calls[0].err
       case None => []
       case Some(cause) => [RollbackFailed(calls[0].index + 1, cause)])
      + RollbackErrors(calls[1..])
  }
}

/** Run and the private rollback of transactions.go written as the loops the
    Go code uses: a cursor over the steps, the state replaced after every
    call, errors appended to a list and an early return under fail-fast.
    Each loop is proved to compute what the functional definitions compute. */
module TxnExec {
  import opened Wrappers
  import opened Transactions

  /** The rollback loop: rollbacks `current` down to 0, appending each
      rollback failure to `errors` unless fail-fast is set, in which case the
      first failure is returned as `abort` and the scan stops. */
  method RollbackLoop<T, E>(steps: seq<TxnStep<T, E>>, current: nat, state: T, failFast: bool,
                            errors: seq<TxnError<E>>)
    returns (state': T, errors': seq<TxnError<E>>, abort: Option<TxnError<E>>)
    requires current < |steps|
    ensures var rb := RollbackScan(steps, current, state, failFast);
            && state' == rb.state
            && errors' == errors + rb.errors
            && abort == rb.abort
  {
    var i: int := current;
    state' := state;
    errors' := errors;
    while i >= 0
      invariant -1 <= i <= current
      invariant var rest := RollbackScan(steps, i, state', failFast);
                var goal := RollbackScan(steps, current, state, failFast);
                && rest.state == goal.state
                && errors' + rest.errors == errors + goal.errors
                && rest.abort == goal.abort
      decreases i + 1
    {
      var (s, err) := steps[i].rollback(state');
      state' := s;
      if err.Some? {
        var e := RollbackFailed(i + 1, err.value);
        if failFast {
          abort := Some(e);
          return;
        }
        assert errors' + [e] + RollbackScan(steps, i - 1, state', failFast).errors
            == errors' + ([e] + RollbackScan(steps, i - 1, state', failFast).errors);
        errors' := errors' + [e];
      }
      i := i - 1;
    }
    abort := None;
  }

  /** The failure branch of Run's loop: handler `index` reported `cause` and
      left `state`. The step failure is recorded with its 1-based position,
      the rollback loop runs from that step down, and a fail-fast error is
      appended last. */
  method Compensate<T, E>(t: Txn<T, E>, index: nat, state: T, cause: E) returns (state': T, errors: seq<TxnError<E>>)
    requires index < |t.steps|
    ensures var rb := RollbackScan(t.steps, index, state, t.failFast);
            && state' == rb.state
            && errors == [StepFailed(index + 1, cause)] + rb.errors + AbortErrors(rb.abort)
  {
    errors := [StepFailed(index + 1, cause)];
    var abort;
    state', errors, abort := RollbackLoop(t.steps, index, state, t.failFast, errors);
    if abort.Some? {
      errors := errors + [abort.value];
    }
  }

  /** The loop of Run: each handler replaces the state, even when it fails;
      the first failure is recorded with its 1-based position, the rollback
      loop runs from that step down, a fail-fast error is appended last, and
      the loop returns at once. The empty error list stands for nil. */
  method Execute<T, E>(t: Txn<T, E>) returns (state: T, errors: seq<TxnError<E>>)
    ensures state == Run(t).state
    ensures errors == Run(t).errors
  {
    state := t.state;
    errors := [];
    var index := 0;
    while index < |t.steps|
      invariant 0 <= index <= |t.steps|
      invariant Handlers(t.steps, index, state).state == Handlers(t.steps, 0, t.state).state
      invariant Handlers(t.steps, index, state).failure == Handlers(t.steps, 0, t.state).failure
      invariant errors == []
      decreases |t.steps| - index
    {
      var currentStep := index;
      var (s, err) := t.steps[index].handler(state);
      state := s;
      if err.Some? {
        state, errors := Compensate(t, currentStep, state, err.value);
        return;
      }
      index := index + 1;
    }
  }
}

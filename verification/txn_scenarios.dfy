/** The scenarios of transactions_test.go, stated about the model with a
    record state holding a name and errors given by their message. */
module TxnScenarios {
  import opened Wrappers
  import opened Transactions

  datatype TestState = TestState(name: string)

  /** A step function that sets the name and reports `err`. */
  function SetName(name: string, err: Option<string>): TxnFunc<TestState, string>
  {
    (s: TestState) => (s.(name := name), err)
  }

  /** A step function that keeps the state and reports `err`. */
  function Keep(err: Option<string>): TxnFunc<TestState, string>
  {
    (s: TestState) => (s, err)
  }

  /** How many rollbacks were invoked (the tests count them in a closure). */
  function RollbackCount<T, E>(calls: seq<Call<T, E>>): nat
    decreases |calls|
  {
    if |calls| == 0 then 0
    else (if calls[0].RollbackCall? then 1 else 0) + RollbackCount(calls[1..])
  }

  /** One succeeding step: its result is returned and no error is reported. */
  lemma ScenarioSingleStep()
    ensures var t := Step(NewTxn(TestState("hello"), false), SetName("world", None), SetName("failed", None));
            Run(t).state == TestState("world") && Run(t).errors == []
  {}

  /** Two succeeding steps: the second handler sees the first one's output
      and the run ends on the second one's. */
  lemma ScenarioStateCarriesOver()
    ensures var t0 := NewTxn(TestState("hello"), false);
            var t := Step(Step(t0, SetName("bin", None), SetName("failed", None)),
                          SetName("world", None), SetName("failed", None));
            var o := Run(t);
            && |o.calls| == 2
            && o.calls[1].input == TestState("bin")
            && o.state == TestState("world")
            && o.errors == []
  {}

  /** A failing single step: its own rollback runs on its output and the
      step failure at position 1 is the only error. */
  lemma ScenarioFailureRollsBack()
    ensures var t := Step(NewTxn(TestState("hello"), false),
                          SetName("world", Some("expected failure")), SetName("failed", None));
            var o := Run(t);
            && o.state == TestState("failed")
            && o.errors == [StepFailed(1, "expected failure")]
            && o.calls[1] == RollbackCall(0, TestState("world"), TestState("failed"), None)
  {}

  /** A failing first step: the second handler is never invoked. */
  lemma ScenarioNoLaterHandler()
    ensures var t0 := NewTxn(TestState("hello"), false);
            var t := Step(Step(t0, SetName("world", Some("expected failure")), SetName("failed", None)),
                          SetName("bin", None), SetName("failed2", None));
            var o := Run(t);
            && o.state == TestState("failed")
            && o.errors == [StepFailed(1, "expected failure")]
            && forall q :: 0 <= q < |o.calls| ==> !(o.calls[q].HandlerCall? && o.calls[q].index == 1)
  {}

  /** The second of two steps fails: both rollbacks run. */
  lemma ScenarioBothRollbacks()
    ensures var t0 := NewTxn(TestState("hello"), false);
            var t := Step(Step(t0, SetName("world", None), Keep(None)),
                          SetName("bin", Some("expected failure")), Keep(None));
            var o := Run(t);
            && o.errors == [StepFailed(2, "expected failure")]
            && RollbackCount(o.calls) == 2
  {
    var t0 := NewTxn(TestState("hello"), false);
    var t := Step(Step(t0, SetName("world", None), Keep(None)),
                  SetName("bin", Some("expected failure")), Keep(None));
    var steps := t.steps;
    var hello, world, bin := TestState("hello"), TestState("world"), TestState("bin");
    var r0 := RollbackCall(0, bin, bin, None);
    var r1 := RollbackCall(1, bin, bin, None);
    assert RollbackScan(steps, 0, bin, false) == RollbackResult(bin, [], None, [r0]);
    assert RollbackScan(steps, 1, bin, false) == RollbackResult(bin, [], None, [r1, r0]);
    var h1 := HandlerCall(1, world, bin, Some("expected failure"));
    var h0 := HandlerCall(0, hello, world, None);
    assert Handlers(steps, 0, hello) == Forward(bin, Some(Failure(1, "expected failure")), [h0, h1]);
    var o := Run(t);
    assert o == Outcome(bin, [StepFailed(2, "expected failure")], [h0, h1, r1, r0]);
    assert o.calls[1..] == [h1, r1, r0] && [h1, r1, r0][1..] == [r1, r0];
    assert [r1, r0][1..] == [r0] && [r0][1..] == [];
    assert RollbackCount([r0]) == 1;
    assert RollbackCount([r1, r0]) == 2;
  }

  /** Fail-fast: the second step fails, its rollback fails too, and the scan
      stops there. The joined error wraps that rollback's cause but not the
      first rollback's, which never runs. */
  lemma ScenarioFailFast()
    ensures var t0 := NewTxn(TestState("hello"), true);
            var t := Step(Step(t0, SetName("world", None), Keep(Some("rollback fail step 1"))),
                          SetName("bin", Some("expected failure")), Keep(Some("rollback fail step 2")));
            var o := Run(t);
            && Is(o.errors, "rollback fail step 2")
            && !Is(o.errors, "rollback fail step 1")
            && RollbackCount(o.calls) == 1
  {
    var t0 := NewTxn(TestState("hello"), true);
    var t := Step(Step(t0, SetName("world", None), Keep(Some("rollback fail step 1"))),
                  SetName("bin", Some("expected failure")), Keep(Some("rollback fail step 2")));
    var steps := t.steps;
    var hello, world, bin := TestState("hello"), TestState("world"), TestState("bin");
    var r1 := RollbackCall(1, bin, bin, Some("rollback fail step 2"));
    var abort := RollbackFailed(2, "rollback fail step 2");
    assert RollbackScan(steps, 1, bin, true) == RollbackResult(bin, [], Some(abort), [r1]);
    var h1 := HandlerCall(1, world, bin, Some("expected failure"));
    var errors := [StepFailed(2, "expected failure"), abort];
    var h0 := HandlerCall(0, hello, world, None);
    assert Handlers(steps, 0, hello) == Forward(bin, Some(Failure(1, "expected failure")), [h0, h1]);
    var o := Run(t);
    assert o == Outcome(bin, errors, [h0, h1, r1]);
    assert o.errors[1].cause == "rollback fail step 2";
    assert o.errors[0].cause != "rollback fail step 1";
    assert o.calls[1..] == [h1, r1] && [h1, r1][1..] == [r1] && [r1][1..] == [];
    assert RollbackCount([r1]) == 1;
  }
}

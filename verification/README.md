# mewl in Dafny: the transaction engine and the collection helpers

This project models the core of `mewl`, a generic Go utility library:

- **The transaction (saga) engine** (`transactions.go`). A transaction owns a
  state value and an ordered list of steps. Each step is a forward handler
  paired with a compensating rollback. `Run` applies the handlers in order.
  On the first handler error it records a positioned step failure. It then
  calls the rollbacks from the failed index down to 0, and the failed step's
  own rollback is included. A rollback error is either collected while the
  scan continues (the default) or ends the scan (fail-fast). `Run` returns
  the last state produced and all recorded errors.
- **The list helpers** of `array.go` (`Filter`, `Map`, `ForEach`, `Unique`,
  `Find`, `Every`), the **map helpers** of `maps.go` (`MapKeys`, `MapValues`)
  and **`Pipe`**, the left-to-right composition of `functions.go`. `Pipe` is
  also defined, identically, in `array.go`; it is modelled once.

Layout, one module per source file plus the proofs about the engine:

| file | module | models |
|---|---|---|
| `wrappers.dfy` | `Wrappers` | `Option`, standing for Go's nil-or-error results |
| `types.dfy` | `Types` | the arrow-type aliases of `types.go` |
| `functions.dfy` | `Functions` | `Pipe` |
| `arrays.dfy` | `Arrays` | the list helpers of `array.go` |
| `maps.dfy` | `Maps` | `MapKeys`, `MapValues` |
| `transactions.dfy` | `Transactions` | the data, `NewTxn`, `Step`, `Run` and the private `rollback` |
| `transaction_properties.dfy` | `TransactionProperties` | the properties of `Run` |
| `txn_exec.dfy` | `TxnExec` | `Run` and `rollback` as the Go loops, proved equal to the functional model |
| `txn_scenarios.dfy` | `TxnScenarios` | the scenarios of `transactions_test.go` |

How the engine is modelled:

- Handlers and rollbacks are total functions `T -> (T, Option<E>)`. A
  `Some` error is Go's non-nil `error`.
- The state is a value. A `Txn` is immutable; `Step` returns the extended
  transaction, and `Run` is a pure function returning an `Outcome`.
- `Run` is written in two halves. `Handlers` is the handler loop: it stops
  after the first failing handler and reports where it stopped.
  `RollbackScan` is the private `rollback`. `Run` joins them.
  `TxnExec.Execute` is the single Go loop, with its early return, and it is
  proved to compute the same state and errors.
- An `Outcome` has three parts. `state` is the last state produced.
  `errors` lists the recorded errors in order; the empty list is the nil
  error. `calls` records every handler and rollback call: index, input
  state, output state and reported error.
- Errors are tagged values. `StepFailed(n, cause)` and
  `RollbackFailed(n, cause)` carry the 1-based step number the Go code
  formats (`index+1`). `errors.Is` on the joined error is `Is`: some
  recorded error has that cause.
- Fail-fast is a parameter of `NewTxn`.
- `Fold`, `HandlerError`, `AllSucceed` and `FailsFirstAt` are reference
  definitions, written independently of `Run`. `Fold(steps, n, s)` is the
  state after the first `n` handlers ran in order from `s`. `HandlerError`
  is the error handler `k` reports on that fold, and `FoldCall` is the call
  handler `k` makes on it. The lemmas relate `Run` to these definitions.

Where the code differs from what one might expect, the model follows the
code:

- Under fail-fast, the returned error does not carry only the failing
  rollback's cause. The joined error always starts with the step failure
  (`transactions.go:72-73`, `transactions.go:77`, `transactions.go:80`). So
  `RunFailFastStops` states that the errors are exactly the step failure
  followed by that rollback failure.
- `transactions_test.go:84` expects the message text
  `step failed: step 1: …`, but the code formats `step failed at step 1: …`.
  Message texts are not modelled. Only the structure (kind, step number,
  cause) is.
- `array_test.go:187` expects `Unique` to drop every repeated value
  (`[{bin baz}]`). The code keeps one copy of each value, at its first
  occurrence, and so does `Unique`.

## Model

| member | source | states |
|---|---|---|
| `Functions.Pipe` | functions.go:4-12 | With no functions, the composed function is the identity. With one function, it is that function. |
| `Functions.PipeSnoc` | functions.go:7-9 | A function appended to the list runs last, on the output of the functions before it. |
| `Functions.PipeTwo` | functions.go:7-9 | Functions run left to right: `Pipe(f, g)(x) == g(f(x))`. |
| `Functions.PipeConcat` | functions.go:4-12 | Pipe composes over concatenation: `Pipe(fs + gs)(x) == Pipe(gs)(Pipe(fs)(x))`. |
| `Functions.PipeIncThenDouble` | functions_test.go:19-31 | Adding one and then doubling maps 1 to 4. |
| `Arrays.Filter` | array.go:4-13 | The result is no longer than the input, and every kept element satisfies the predicate. |
| `Arrays.FilterCount` | array.go:4-13 | Every occurrence of a value the predicate accepts is kept, and no occurrence of any other value: counted as multisets, the result is the input restricted to accepted values. |
| `Arrays.FilterSubsequence` | array.go:6-10 | The kept elements keep their relative order: the result is a subsequence of the input. |
| `Arrays.Map` | array.go:16-23 | Same length as the input, and `result[i] == fn(list[i])` at every index. |
| `Arrays.MapFusion` | array.go:16-23 | Mapping with `f` and then with `g` equals one mapping with their composition. |
| `Arrays.ForEach` | array.go:26-30 | The callback applied to each element in order, as a left fold over an explicit world state. `Arrays.ForEachConcat` and `Arrays.ForEachVisitsInOrder` state its contract. |
| `Arrays.ForEachConcat` | array.go:26-30 | Iterating over `a + b` visits all of `a`, then all of `b`. |
| `Arrays.ForEachVisitsInOrder` | array.go:26-30 | A recording callback sees exactly the list: each element once, in index order. |
| `Arrays.UniqueFrom` | array.go:33-46 | The cache loop yields a duplicate-free list. It holds exactly the list's elements that are not already cached. |
| `Arrays.UniqueFromOrder` | array.go:37-45 | The cache loop keeps elements in the order of their first occurrence in the list. |
| `Arrays.Unique` | array.go:33-46 | No duplicates. Exactly the input's elements. Ordered by first occurrence. |
| `Arrays.UniqueFromKeepsFresh` | array.go:37-45 | A duplicate-free list with no cached element passes through the loop unchanged. |
| `Arrays.UniqueOfDistinct` | array.go:33-46 | A list already free of duplicates comes back unchanged. |
| `Arrays.UniqueIdempotent` | array.go:33-46 | `Unique(Unique(l)) == Unique(l)`. |
| `Arrays.Find` | array.go:50-59 | Found exactly when some element satisfies the predicate. The element found is the first one that does. When not found, the result is the zero value. |
| `Arrays.Every` | array.go:62-70 | True exactly when every element satisfies the predicate, so true on the empty list and false when any element fails. |
| `Arrays.EveryIffFilterKeepsAll` | array.go:4-13 | `Every` holds exactly when `Filter` keeps the whole list. |
| `Arrays.FindIsFirstOfFilter` | array.go:50-59 | `Find` returns the head of what `Filter` keeps. It fails exactly when `Filter` keeps nothing. |
| `Maps.ValuesOfMembers` | maps.go:13-19 | A value is among the map's values exactly when some key maps to it. There are as many values as keys. |
| `Maps.ValuesOnRemove` | maps.go:15-17 | Taking out any one key removes exactly that key's value from the values. Iteration order therefore does not matter. |
| `Maps.MapKeys` | maps.go:4-10 | In any iteration order: every key, only keys, no duplicates, length equal to the map's size (so empty for an empty map). |
| `Maps.MapValues` | maps.go:13-19 | In any iteration order: the multiset of results is the map's values, one per key, and the length is the map's size. |
| `Transactions.NewTxn` | transactions.go:42-49 | Builds a transaction with the given state and policy and no steps. Its contract is stated by `TransactionProperties.RunNewTxn`: running it returns the initial state with no error and no call. |
| `Transactions.Handlers` | transactions.go:65-82 | The forward loop over the handlers from `index`, stopping at the first failure. A reported failure is at a real step, no earlier than `index`. `TransactionProperties.HandlersSucceed`, `HandlersFail` and `HandlersThreads` state what it calls and returns. |
| `Transactions.RollbackScan` | transactions.go:89-107 | The private `rollback` loop, from index `from` down to 0. `TransactionProperties.ScanShape`, `ScanThreads`, `ScanCollects` and `ScanFailFast` state its calls, its errors and where fail-fast stops it. |
| `Transactions.Run` | transactions.go:62-85 | The handler loop, then on a failure the compensation scan from the failing step, with the step failure leading the errors. Its contract is stated by the `TransactionProperties.Run…` lemmas, against the reference definitions `Fold`, `HandlerError` and `FailsFirstAt`, and `TxnExec.Execute` proves the Go loop computes the same. |
| `Transactions.Is` | transactions_test.go:182-183 | `errors.Is` on the joined error: true exactly when some recorded step or rollback error carries the given cause. `TxnScenarios.ScenarioFailFast` uses it in both directions. |
| `Transactions.Step` | transactions.go:53-56 | Exactly one step is appended, holding the given handler and rollback. Earlier steps, the state and the policy are unchanged. |
| `TransactionProperties.ScanShape` | transactions.go:89-107 | The scan calls only rollbacks, at indices `from`, `from-1`, … in that order, at most `from+1` of them, and always calls rollback `from`. |
| `TransactionProperties.ScanThreads` | transactions.go:91-94 | Each rollback receives the previous call's output and the first receives the scan's input. The scan returns the last output, and every recorded call is a real invocation of its rollback. |
| `TransactionProperties.ScanCollects` | transactions.go:91-104 | Without fail-fast, every rollback from `from` down to 0 runs and the scan never aborts. Its errors are one per failing rollback, in call order. |
| `TransactionProperties.ScanFailFast` | transactions.go:95-99 | With fail-fast, the scan appends no error itself. It stops right after the first failing rollback and returns that failure, with its 1-based step. If none fails, it visits every index. |
| `TransactionProperties.RollbackErrorsCount` | transactions.go:100-103 | The errors derived from the rollback calls are as many as the failing calls. |
| `TransactionProperties.FoldPrefix` | transactions.go:53-56 | Steps registered later do not change the fold of the first `n` handlers. |
| `TransactionProperties.HandlersSucceed` | transactions.go:65-84 | When every remaining handler succeeds, the handler loop calls each remaining handler once, in order, on the fold of the handlers before it. It ends on the full fold without a failure. |
| `TransactionProperties.HandlersFail` | transactions.go:65-73 | When handler `k` fails first, the handler loop from `i <= k` calls handlers `i..k` in order, each on the fold of those before it. It stops at `k`'s failure, on `k`'s output, and no later handler is called. |
| `TransactionProperties.HandlersThreads` | transactions.go:65-69 | Each handler receives the previous handler's output, the loop ends on the last output, and every recorded call is a real invocation. |
| `TransactionProperties.RunFailsAt` | transactions.go:65-80 | When handler `k` fails first, `Run` calls handlers `0..k`, each on the fold of those before it. The rollback scan from `k` then runs on `k`'s output, and its calls come next. The final state is the scan's. The errors are the step failure, then the scan's errors, then its abort error. |
| `TransactionProperties.RunThreadsState` | transactions.go:69 | Each call receives the state the previous call returned, even one that reported an error. The first call gets the initial state, and `Run` returns the last state produced. |
| `TransactionProperties.RunAllSucceed` | transactions.go:65-84 | If every handler succeeds, including with no steps, `Run` returns the left fold of the handlers with no error. Each handler runs once, in order, and no rollback runs. |
| `TransactionProperties.RunFailure` | transactions.go:69-80 | If handler `k` fails first: handlers 0..k ran in order and no later handler ever runs. `StepFailed(k+1, cause)` leads a non-empty error list. Rollback `k` runs next, on the failing handler's output. |
| `TransactionProperties.RunErrorFreeIff` | transactions.go:71-84 | `Run` reports no error exactly when every handler succeeds. |
| `TransactionProperties.RunRollsBackEveryStep` | transactions.go:91-104 | Without fail-fast, rollbacks `k..0` each run exactly once, in descending order, whatever they return. The errors are the step failure plus one `RollbackFailed(i+1, cause)` per failing rollback, in descending `i`, so there are 1 plus as many as failing rollbacks. |
| `TransactionProperties.RunFailFastCalls` | transactions.go:91-99 | With fail-fast, after handler `k` fails first, between 1 and `k+1` rollbacks run, from `k` downwards, and every one but the last succeeds. |
| `TransactionProperties.RunFailFastErrors` | transactions.go:75-80 | With fail-fast, the errors are the step failure followed by the last rollback's failure, if it failed. If it did not fail, every rollback from `k` down to 0 ran and the step failure is the only error. |
| `TransactionProperties.RunFailFastStops` | transactions.go:75-80 | With fail-fast, rollbacks run from `k` down and stop after the first failing one, `j`; none below `j` runs. The errors are exactly `[StepFailed(k+1), RollbackFailed(j+1)]`. If no rollback fails, all of `k..0` run and the step failure is the only error. |
| `TransactionProperties.RunAfterStep` | transactions.go:53-56 | Extending a transaction whose handlers all succeed leaves the earlier calls unchanged. The new handler receives the state they produced. The run then either ends on its output or runs its own rollback next, on that output. |
| `TransactionProperties.RunNewTxn` | transactions.go:42-49 | A transaction without steps returns its initial state with no error and makes no call. |
| `TxnExec.RollbackLoop` | transactions.go:89-107 | The Go rollback loop appends the same errors, returns the same abort error and ends on the same state as the functional scan. |
| `TxnExec.Compensate` | transactions.go:71-80 | The failure branch of the Go loop returns the scan's state. Its errors are the step failure, then the rollback errors the loop appended, then a fail-fast error last. |
| `TxnExec.Execute` | transactions.go:62-85 | The Go `Run` loop, with its cursor and early return, returns the same state and error list as `Run`. |
| `TxnScenarios.ScenarioSingleStep` | transactions_test.go:24-40 | One succeeding step: the result is `{world}` and there is no error. |
| `TxnScenarios.ScenarioStateCarriesOver` | transactions_test.go:41-70 | The second handler sees `{bin}` and the result is `{world}`, with no error. |
| `TxnScenarios.ScenarioFailureRollsBack` | transactions_test.go:72-87 | A failing handler's rollback runs on its output. The result is `{failed}` and the only error is the step-1 failure. |
| `TxnScenarios.ScenarioNoLaterHandler` | transactions_test.go:89-120 | After step 1 fails, handler 2 is never invoked. |
| `TxnScenarios.ScenarioBothRollbacks` | transactions_test.go:122-151 | Step 2 fails, both rollbacks run, and the only error is the step-2 failure. |
| `TxnScenarios.ScenarioFailFast` | transactions_test.go:153-186 | With fail-fast, the error wraps rollback 2's cause but not rollback 1's, and exactly one rollback runs. |

## Left out

- Console output: `fmt.Println("count", index)` (`transactions.go:66`) and
  the verbose narration have no effect on results.
- Error message texts and the `errors.Join` / `errors.Is` machinery. Errors
  are tagged values, the joined error is the ordered list, and `errors.Is`
  is cause membership.
- `Transactions.Is`: compares only the recorded causes, by value. Go's
  `errors.Is` compares the error values the step functions returned (for
  `fmt.Errorf` values, identity), and it also follows each cause's own
  `Unwrap` chain and calls any `Is` method on the way. So a cause
  `fmt.Errorf("read: %w", io.EOF)` matches `io.EOF` in Go but not here.
- Panicking handlers or rollbacks, including a nil step function
  (`Step` at `transactions.go:53-56` never checks for nil): step functions
  are total Dafny functions. In Go a panic unwinds out of `Run`, which has
  no `recover`, so no compensation scan runs and no state is returned.
- `Arrays.Unique`: assumes element equality is reflexive and never panics.
  Go's `==` on `comparable` is neither: a NaN is never found in the cache,
  so Go's `Unique([NaN, NaN])` returns both, and an unhashable value held
  in an `any` element makes the cache lookup at `array.go:38` panic.
- `Maps.MapKeys` and `Maps.MapValues`: assume the same reflexive,
  never-panicking key equality. A Go map can hold several NaN keys, which a
  Dafny `map` cannot.
- The option constructors `TxnOptVerbose` and `TxnOptFailFast`:
  `transactions.go` has no setter for `failFast`, and their definitions are
  not part of this model. Fail-fast is a parameter of `NewTxn`, and verbose
  mode is not modelled.
- Calling `Run` twice on one transaction. The Go code never resets
  `errors` or `currentStep`, so a second run is unspecified. Here `Run` is a
  pure function of an immutable `Txn`, so each run starts fresh.
- Aliasing through the `state *T` field: the state is a value.
- `Transactions.Step`: the Go `Step` has a pointer receiver
  (`transactions.go:53-56`). It appends to the shared `*Txn` and returns the
  same pointer, so every handle to the transaction sees the new step. Here a
  transaction is a value that the caller threads through, and `Step`
  returns a new one. Aliased `*Txn` handles are not modelled: in Go,
  `b := a.Step(h1, r1); a.Step(h2, r2); b.Run()` calls both handlers, while
  `Run(b)` in the model calls only `h1`.
- `Arrays.Filter`, `Arrays.Map`, `Arrays.Find`, `Arrays.Every`,
  `Functions.Pipe`: callbacks are pure Dafny functions. Go's
  `PredicateFunc`, `MapperFunc` and `ComposeFunc` are closures that may hold
  state and have effects, as the tests' `total += item`
  (`array_test.go:119`) and `rollbackCall++` (`transactions_test.go:132`)
  do. Stateful closures are not modelled. For example, Go's `Map([a, a],
  counter)` returns `[1, 2]`, and a predicate true only on its first call
  keeps one copy in `Filter([a, a], fn)`. Neither is the number of callback
  calls modelled, including the early returns of `Find`
  (`array.go:53`) and `Every` (`array.go:65`) that skip the remaining
  elements. Only `ForEach` models an effect, through its explicit world
  state.
- `ForEach`: the Go callback returns nothing. Its effect is modelled as a
  transformer of an explicit world state, so `ForEach` is a left fold.
- `Find`: the Go zero value of the element type is an explicit `zero`
  parameter.
- `MapKeys` and `MapValues`: Go's map iteration order is arbitrary. The
  loops pick each next key nondeterministically, and the properties hold for
  every order. No particular order is modelled.
- Helpers that appear only in the tests, with no source here (`Union`,
  `Reverse`, `Chunk`, `Difference`, `Without`, `Some`, `Reduce`, `Once`,
  `Before`, `MapOmitKeys`, `MapPickKeys`, `MapOmitBy`, `MapPickBy`,
  `MapClone`), are not part of this model.
- Test expectations written for other versions of the library: the
  three-argument callbacks and slice-mutation checks of `slices_test.go`,
  and the `Unique` output expected at `array_test.go:187`.

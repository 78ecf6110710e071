# gofuture: a verified model of `Future[T]`

`Future[T]` from package gofuture is a single-assignment cell. One goroutine
fills it with `Set`, and any number of goroutines wait for it with `Get`. A
future made by `MakeFutureWithTimeout` also has a deadline. When the deadline
has fired, a `Get` moves a future that is still IDLE to ERROR. The state word
takes four values: IDLE (0), WAIT (1), READY (2) and ERROR (3). Only two guarded
transitions leave IDLE. `Set` does a compare-and-swap IDLE→WAIT, stores the
value and then stores READY. An expiring `Get` does a compare-and-swap
IDLE→ERROR. READY and ERROR are terminal.

The model has three modules:

- `FutureSteps` (future_steps.dfy) holds the two shared fields as a value
  `Cell(val, state)` and describes the steps on them as functions.
  `GetIteration` is one pass of `Get`'s `for` loop, `Set` is an
  uninterrupted `Set`, and `GetLoop` is `Get` run over a finite sequence of
  deadline readings. The lemmas cover terminal states, the single successful
  `Set`, expiry, and spinning.
- `FutureTraces` (future_traces.dfy) covers concurrency. Each atomic
  statement of `Set` is its own event: the CAS, `f.val = val` and the store of
  READY. Each iteration of some `Get` is also an event. An execution is any
  interleaving of these events. The lemmas hold for every execution that
  starts from a reachable state:
  - at most one `Set` returns true;
  - every `Get` that returns gets the same pair;
  - `(v, true)` is returned only after `Set(v)` has won its CAS and then
    stored READY, so only once that `Set` has completed;
  - once a `Get` has failed, no `Set` succeeds;
  - a `Set` that wins makes every returning `Get` see `(v, true)`, before it or
    after it;
  - after the store of READY, every `Get` iteration returns at once.
- `Gofuture` (gofuture.dfy) holds `class Future<T>` with the fields `val` and
  `state` and the following members:
  - the constants `hasDeadline` and `zero`;
  - one constructor for each of `MakeFuture` and `MakeFutureWithTimeout`;
  - `Set`;
  - `GetStep`, which is one loop iteration;
  - `Get`, which has a `while` loop.

  Every method is proved against the matching `FutureSteps` function. The
  client methods `FutureTaskScenario`, `FutureTaskWithDurationScenario` and
  `FutureTaskWithTimeoutScenario` each run one schedule of a test in
  future_task_test.go. The third one goes on past the end of its test, with
  the late `Set` and a later `Get`.

Modelling choices:

- Go's zero value of `T` is passed to the constructor as `zero`.
- `ctx.Done()` being ready is a boolean input: `expired` for `GetStep`, and
  one element of `expiries` per iteration for `Get`. A future from `MakeFuture`
  has `context.Background()` as its context, which is never done, so its `Get`
  ignores these flags. The flags are not constrained: a later flag may be false
  after an earlier one was true, and in the interleaving model `Iterate(true)`
  may occur on any future. Go allows fewer behaviours, because `ctx.Done()`
  stays closed once the timer fires and `context.Background()` never fires.
  The lemmas quantify over all flag sequences, so they hold for Go's smaller
  set too.
- `Get`'s loop is unbounded. `Get(expiries)` returns `None` when it would
  still be spinning after the last iteration it was given.
- The code returns `f.val` from an ERROR future, not a separate default value.
  The model does the same and proves that this value is the zero value
  (`FutureSteps.GetIterationKeepsInv`, `FutureTraces.FailedReadingIsFinal`).

## Model

| member | source | states |
|---|---|---|
| `FutureSteps.CompareAndSwap` | future.go:60 | The CAS of Get at line 60 and of Set at line 84. The swap happens exactly when the state word holds the expected value. Only the state word changes, to the desired value when the swap happens. |
| `FutureSteps.Resolve` | future.go:63-77 | A loaded state returns exactly when it is READY or ERROR, and then gives (val, state is READY). IDLE and WAIT give `None` (retry). |
| `FutureSteps.GetIteration` | future.go:58-79 | One iteration never writes val. It changes the state only by expiring an IDLE future when ctx is done. It returns exactly when the state it leaves is READY or ERROR, and then returns (val, state is READY). |
| `FutureSteps.Set` | future.go:83-90 | Succeeds exactly on an IDLE future and leaves it READY holding the new value. A Set that fails changes nothing. |
| `FutureSteps.GetLoop` | future.go:56-81 | Get never writes val and never makes a future READY. The only change it can make is to expire an IDLE future that has a deadline. While it is still spinning nothing has changed. When it returns, the state is terminal and is reported. |
| `FutureSteps.GetIterationKeepsInv` | future.go:59-77 | A Get step keeps "IDLE or ERROR implies val is the zero value", and a failed reading carries the zero value. |
| `FutureSteps.SetKeepsInv` | future.go:83-87 | Set keeps the same invariant. |
| `FutureSteps.TerminalIsFinal` | future.go:56-90 | On a READY or ERROR future, Set returns false and changes nothing. A Get step changes nothing and returns (val, state is READY). |
| `FutureSteps.SecondSetFails` | future.go:84-89 | After a successful Set(v), another Set(w) returns false and the future stays READY with v. |
| `FutureSteps.ExpiryDropsLateSet` | future.go:59-89 | A Get step with the deadline fired on an IDLE future makes it ERROR and returns (zero, false). A later Set returns false and changes nothing, and later Get steps keep returning (zero, false). |
| `FutureSteps.GetExpires` | future.go:57-61 | With a deadline, Get on an IDLE future returns (val, false) and leaves it ERROR once some iteration sees the deadline fired. |
| `FutureSteps.GetSpins` | future.go:57-79 | Get on a WAIT future spins without changing anything, whether or not the deadline has fired. The same holds for an IDLE future whose deadline never fires, including one without a deadline. |
| `FutureSteps.GetOnTerminal` | future.go:63-76 | Get on a READY or ERROR future returns at its first iteration and changes nothing. |
| `FutureTraces.Initial` | future.go:42-48 | The future MakeFuture returns is IDLE, holds the zero value, has no Set under way and satisfies the invariant. |
| `FutureTraces.Step` | future.go:58-86 | In the interleaving, only the winner's store writes val. A Set wins exactly when its CAS finds IDLE. The state moves only IDLE→WAIT (CAS), WAIT→READY (store) and IDLE→ERROR (expiry). |
| `FutureTraces.Run` | future.go:56-90 | Every sequence of events has an execution from every state. |
| `FutureTraces.StepKeepsGood` | future.go:83-87 | Every event keeps the invariant: WAIT exactly while a winning Set is unfinished, and val still zero until the winner stores into it. |
| `FutureTraces.GoodThroughout` | future.go:83-87 | Every state of an execution from a good state is good. |
| `FutureTraces.FollowsThroughout` | future.go:59-86 | After a winner's CAS, the future can only be in that winner's later phases. READY and ERROR never change again. |
| `FutureTraces.SingleWinner` | future.go:84-89 | In any interleaving, at most one call of Set returns true. |
| `FutureTraces.ConsistentReadings` | future.go:56-81 | In any interleaving, all Gets that return get the same pair. |
| `FutureTraces.HeldSinceWinner` | future.go:84-86 | If the future holds v on behalf of a Set, some earlier Set(v) won its CAS. |
| `FutureTraces.ReadyNeedsStore` | future.go:85-86 | A future that started IDLE is READY only after a store of READY has run, and the Set that stored it had stored the value the future now holds. |
| `FutureTraces.ReadingHasWinner` | future.go:67-87 | From a fresh future, a Get returns (v, true) only after some Set(v) has won its CAS and, later, stored READY. That is the point where Set returns true. |
| `FutureTraces.FailedReadingIsFinal` | future.go:59-65 | A Get that fails reports the zero value, and no later Set succeeds. |
| `FutureTraces.SetBeatsDeadline` | future.go:59-86 | Once Set(v) has won its CAS, every Get in the execution that returns, earlier or later, returns (v, true). The race with the deadline has a single winner. |
| `FutureTraces.ReadAfterWrite` | future.go:71-86 | After the winning Set(v) has stored READY, every later Get iteration returns (v, true). |
| `FutureTraces.UninterruptedSet` | future.go:83-90 | Set's three events run back to back give exactly `FutureSteps.Set`. A Set that loses its CAS takes no further step. |
| `Gofuture.Future.constructor` | future.go:42-48 | MakeFuture: IDLE, val is the zero value, no deadline. |
| `Gofuture.Future.WithTimeout` | future.go:50-54 | MakeFutureWithTimeout: IDLE, val is the zero value, with a deadline. |
| `Gofuture.Future.Set` | future.go:83-90 | Returns true exactly when the future was IDLE, and then it is READY with the value. Otherwise val and state are unchanged. |
| `Gofuture.Future.GetStep` | future.go:57-79 | One loop iteration, as `FutureSteps.GetIteration` with done = hasDeadline and expired. A valid reading comes only from READY, a failed one holds zero, and `None` only on IDLE or WAIT. |
| `Gofuture.Future.Get` | future.go:56-81 | The loop, as `FutureSteps.GetLoop` over the given deadline readings. |
| `Gofuture.FutureTaskScenario` | future_task_test.go:14-22 | One schedule of TestFutureTask: Set(1) runs first and returns true, then Get returns (1, true). |
| `Gofuture.FutureTaskWithDurationScenario` | future_task_test.go:24-36 | One schedule of TestFutureTaskWithDuration on a future with a deadline: Set(1) returns true, Get returns (1, true), and a Get after the deadline has fired still returns (1, true). |
| `Gofuture.FutureTaskWithTimeoutScenario` | future_task_test.go:38-47 | One schedule of TestFutureTaskWithTimeout: a Get that sees the deadline fired on its third iteration returns (0, false). The schedule then goes on: the late Set(1) returns false and a later Get still returns (0, false). |

## Left out

- Memory ordering of `sync/atomic` (acquire and release on the state word): each atomic operation is one indivisible step of the interleaving.
- In the interleaving, the CAS IDLE→ERROR and the following `atomic.LoadInt32` in Get's expired branch are one event. The state never returns to IDLE, so the load can only see a state that a later iteration would also see.
- Each Get iteration also merges its load of the state with the plain read of `f.val` that comes after the load (future.go:61, 65, 68, 73, 76). This loses nothing, because val never changes once the state is READY or ERROR (`FutureTraces.FollowsThroughout`).
- `runtime.Gosched()` and the unbounded `for` loop of Get: `Get` runs over a finite sequence of iterations, and `None` stands for "still spinning".
- `context.WithTimeout`, `ctx.Done()`, `time.Duration` and the clock: the deadline is the boolean "has fired" input of each iteration. The `cancel` function is never called in the source and is not modelled.
- future_task.go (`MakeFutureTask`, `MakeFutureTaskWithTimeout`): each one constructs a future and starts a goroutine that runs `Set(task())`. In the interleaving model that goroutine is a `TrySet` event followed, if it wins, by `StoreVal` and `StoreReady`. The `go` statement itself is not modelled.
- The sleeps and goroutines in future_task_test.go: each scenario method runs one fixed schedule of its test; other schedules are covered by the interleaving lemmas.

/** The state word and value of one future, and the atomic steps that
    Get and Set perform on them, as functions on values. */
module FutureSteps {

  /** The lifecycle flag; in the Go code these are the iota constants
      FUTURE_IDLE = 0, FUTURE_WAIT = 1, FUTURE_READY = 2, FUTURE_ERROR = 3. */
  datatype State = Idle | Wait | Ready | Error

  /** READY and ERROR: no guarded transition leaves them. */
  predicate Terminal(s: State) {
    s == Ready || s == Error
  }

  datatype Option<T> = None | Some(value: T)

  /** The pair `(T, bool)` that Get returns. */
  datatype Reading<T> = Reading(val: T, ok: bool)

  /** The two fields of a future that Get and Set share. */
  datatype Cell<T> = Cell(val: T, state: State)

  /** atomic.CompareAndSwapInt32 on the state word. */
  function CompareAndSwap<T>(c: Cell<T>, expected: State, desired: State): (r: (Cell<T>, bool))
    // It swaps exactly when the state word holds the expected value ...
    ensures r.1 <==> c.state == expected
    // ... and only the state word changes.
    ensures r.0.val == c.val && r.0.state == (if r.1 then desired else c.state)
  {
    if c.state == expected then (c.(state := desired), true) else (c, false)
  }

  /** What Get does with a state it has loaded: it returns on READY and
      ERROR and retries on IDLE and WAIT. */
  function Resolve<T>(c: Cell<T>): (r: Option<Reading<T>>)
    // It returns exactly on a terminal state, valid exactly on READY.
    ensures r.Some? <==> Terminal(c.state)
    ensures r.Some? ==> r.value == Reading(c.val, c.state == Ready)
  {
    match c.state
    case Ready => Some(Reading(c.val, true))
    case Error => Some(Reading(c.val, false))
    case _ => None
  }

  /** One iteration of the loop in Get; `done` is whether ctx.Done() is
      ready. `None` means the iteration fell through to runtime.Gosched()
      and the loop goes round again. */
  function GetIteration<T>(c: Cell<T>, done: bool): (r: (Cell<T>, Option<Reading<T>>))
    // Get never writes val.
    ensures r.0.val == c.val
    // The only state change is the expiry of an IDLE future.
    ensures r.0.state == if done && c.state == Idle then Error else c.state
    // It returns exactly when the state it leaves behind is terminal ...
    ensures r.1.Some? <==> Terminal(r.0.state)
    // ... and then reports val, valid exactly when that state is READY.
    ensures r.1.Some? ==> r.1.value == Reading(c.val, r.0.state == Ready)
  {
    if done then
      var (c1, swapped) := CompareAndSwap(c, Idle, Error);
      if swapped then (c1, Some(Reading(c1.val, false))) else (c1, Resolve(c1))
    else
      (c, Resolve(c))
  }

  /** Set without interference: CAS IDLE -> WAIT, store val, store READY. */
  function Set<T>(c: Cell<T>, v: T): (r: (Cell<T>, bool))
    // Set succeeds exactly on an IDLE future ...
    ensures r.1 <==> c.state == Idle
    // ... which it leaves READY holding v; otherwise nothing changes.
    ensures r.0 == if r.1 then Cell(v, Ready) else c
  {
    var (c1, won) := CompareAndSwap(c, Idle, Wait);
    if won then (c1.(val := v).(state := Ready), true) else (c1, false)
  }

  /** While no Set has won, val is still the zero value the future was
      made with (an ERROR future is one that expired while IDLE). */
  ghost predicate Inv<T>(c: Cell<T>, zero: T) {
    (c.state == Idle || c.state == Error) ==> c.val == zero
  }

  /** Get, run for one iteration per element of `expiries` (whether the
      deadline had fired at that iteration); `None` when it is still
      spinning after the last one. Without a deadline ctx.Done() is
      never ready. */
  function GetLoop<T>(c: Cell<T>, hasDeadline: bool, expiries: seq<bool>): (r: (Cell<T>, Option<Reading<T>>))
    // Get never writes val and never makes a future READY.
    ensures r.0.val == c.val
    ensures r.0.state == Ready ==> c.state == Ready
    // The only change Get can make is the expiry of an IDLE future with a deadline.
    ensures r.0 != c ==> hasDeadline && c.state == Idle && r.0.state == Error
    // A Get that is still spinning has changed nothing.
    ensures r.1.None? ==> r.0 == c
    // A Get that returns leaves a terminal state and reports it.
    ensures r.1.Some? ==> Terminal(r.0.state) && r.1.value == Reading(c.val, r.0.state == Ready)
    decreases |expiries|
  {
    if expiries == [] then (c, None)
    else
      var (c1, res) := GetIteration(c, hasDeadline && expiries[0]);
      if res.Some? then (c1, res) else GetLoop(c1, hasDeadline, expiries[1..])
  }

  /** A step of Get keeps the invariant, and a failed reading carries the
      zero value. */
  lemma GetIterationKeepsInv<T>(c: Cell<T>, zero: T, done: bool)
    requires Inv(c, zero)
    ensures Inv(GetIteration(c, done).0, zero)
    ensures GetIteration(c, done).1.Some? && !GetIteration(c, done).1.value.ok
            ==> GetIteration(c, done).1.value.val == zero
  {
  }

  /** Set keeps the invariant. */
  lemma SetKeepsInv<T>(c: Cell<T>, zero: T, v: T)
    requires Inv(c, zero)
    ensures Inv(Set(c, v).0, zero)
  {
  }

  /** Neither Set nor a step of Get moves a future out of READY or ERROR. */
  lemma TerminalIsFinal<T>(c: Cell<T>, v: T, done: bool)
    requires Terminal(c.state)
    ensures Set(c, v) == (c, false)
    ensures GetIteration(c, done) == (c, Some(Reading(c.val, c.state == Ready)))
  {
  }

  /** At most one Set succeeds: after a successful Set every further Set
      fails and leaves the value of the first in place. */
  lemma SecondSetFails<T>(c: Cell<T>, v: T, w: T)
    requires Set(c, v).1
    ensures Set(Set(c, v).0, w) == (Cell(v, Ready), false)
  {
  }

  /** Once the deadline has made a future fail, a late Set is dropped and
      every later step of Get still fails with the zero value. */
  lemma ExpiryDropsLateSet<T>(c: Cell<T>, zero: T, v: T, done: bool)
    requires Inv(c, zero) && c.state == Idle
    ensures GetIteration(c, true) == (Cell(zero, Error), Some(Reading(zero, false)))
    ensures Set(Cell(zero, Error), v) == (Cell(zero, Error), false)
    ensures GetIteration(Cell(zero, Error), done) == (Cell(zero, Error), Some(Reading(zero, false)))
  {
  }

  /** Get on a future with a deadline returns as soon as the deadline has
      fired, failing with the value it found, when no Set intervenes. */
  lemma {:induction false} GetExpires<T>(c: Cell<T>, expiries: seq<bool>, k: nat)
    requires c.state == Idle
    requires k < |expiries| && expiries[k]
    ensures GetLoop(c, true, expiries) == (c.(state := Error), Some(Reading(c.val, false)))
  {
    if !expiries[0] {
      GetExpires(c, expiries[1..], k - 1);
    }
  }

  /** Get keeps spinning, and changes nothing, on a future whose Set is
      between its CAS and its store of READY, whatever the deadline does;
      and on an IDLE future whose deadline never fires. */
  lemma {:induction false} GetSpins<T>(c: Cell<T>, hasDeadline: bool, expiries: seq<bool>)
    requires c.state == Wait || (c.state == Idle && forall k :: 0 <= k < |expiries| ==> !(hasDeadline && expiries[k]))
    ensures GetLoop(c, hasDeadline, expiries) == (c, None)
  {
    if expiries != [] {
      assert !(c.state == Idle && hasDeadline && expiries[0]);
      GetSpins(c, hasDeadline, expiries[1..]);
    }
  }

  /** Get on a READY or ERROR future returns at its first iteration. */
  lemma GetOnTerminal<T>(c: Cell<T>, hasDeadline: bool, expiries: seq<bool>)
    requires Terminal(c.state) && expiries != []
    ensures GetLoop(c, hasDeadline, expiries) == (c, Some(Reading(c.val, c.state == Ready)))
  {
  }
}

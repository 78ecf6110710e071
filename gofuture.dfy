/** The Future type of package gofuture: a single-assignment cell that Get
    waits on and Set fills, with an optional deadline. */
module Gofuture {
  import opened FutureSteps

  class Future<T> {
    /** The result Get retrieves. */
    var val: T
    /** The lifecycle flag. */
    var state: State
    /** Whether ctx is a context.WithTimeout context; context.Background()
        is never done. */
    const hasDeadline: bool
    /** The zero value of T, which val holds until a Set succeeds. */
    const zero: T

    /** The two shared fields, as a value. */
    function Snapshot(): Cell<T>
      reads this
    {
      Cell(val, state)
    }

    ghost predicate Valid()
      reads this
    {
      Inv(Snapshot(), zero)
    }

    /** MakeFuture: IDLE, no deadline, val the zero value. */
    constructor (zero: T)
      ensures Valid()
      ensures Snapshot() == Cell(zero, Idle) && this.zero == zero && !hasDeadline
    {
      val := zero;
      state := Idle;
      hasDeadline := false;
      this.zero := zero;
    }

    /** MakeFutureWithTimeout: as MakeFuture, but Get can expire it. */
    constructor WithTimeout(zero: T)
      ensures Valid()
      ensures Snapshot() == Cell(zero, Idle) && this.zero == zero && hasDeadline
    {
      val := zero;
      state := Idle;
      hasDeadline := true;
      this.zero := zero;
    }

    /** Set: true exactly when it moved the future out of IDLE; it then
        holds v and is READY. A Set that fails loses v and changes nothing. */
    method Set(v: T) returns (ok: bool)
      requires Valid()
      modifies this
      ensures Valid()
      ensures (Snapshot(), ok) == FutureSteps.Set(old(Snapshot()), v)
      ensures ok <==> old(state) == Idle
      ensures ok ==> state == Ready && val == v
      ensures !ok ==> state == old(state) && val == old(val)
    {
      if state == Idle {
        // the CAS IDLE -> WAIT has won
        state := Wait;
        val := v;
        state := Ready;
        ok := true;
      } else {
        ok := false;
      }
    }

    /** One iteration of Get's loop; `expired` is whether the deadline
        has fired. `None` means it would yield and retry. */
    method GetStep(expired: bool) returns (res: Option<Reading<T>>)
      requires Valid()
      modifies this
      ensures Valid()
      ensures (Snapshot(), res) == GetIteration(old(Snapshot()), hasDeadline && expired)
      // Only the expiry of an IDLE future with a deadline changes anything.
      ensures state == (if hasDeadline && expired && old(state) == Idle then Error else old(state))
      ensures val == old(val)
      // A reading is valid only from a READY future, and a failed one holds zero.
      ensures res.Some? ==> res.value == Reading(val, state == Ready)
      ensures res.Some? && !res.value.ok ==> res.value.val == zero
      ensures res.None? <==> state == Idle || state == Wait
    {
      if hasDeadline && expired {
        if state == Idle {
          // the CAS IDLE -> ERROR has won
          state := Error;
          return Some(Reading(val, false));
        }
        var s := state;
        if s == Error {
          return Some(Reading(val, false));
        }
        if s == Ready {
          return Some(Reading(val, true));
        }
      } else {
        var s := state;
        if s == Ready {
          return Some(Reading(val, true));
        }
        if s == Error {
          return Some(Reading(val, false));
        }
      }
      res := None;
    }

    /** Get, for as many iterations as `expiries` has elements (whether the
        deadline had fired at each); `None` when it would still be
        spinning after the last one. */
    method Get(expiries: seq<bool>) returns (res: Option<Reading<T>>)
      requires Valid()
      modifies this
      ensures Valid()
      ensures (Snapshot(), res) == GetLoop(old(Snapshot()), hasDeadline, expiries)
    {
      res := None;
      var i := 0;
      while i < |expiries| && res.None?
        invariant 0 <= i <= |expiries|
        invariant Valid()
        invariant GetLoop(old(Snapshot()), hasDeadline, expiries)
                  == if res.Some? then (Snapshot(), res) else GetLoop(Snapshot(), hasDeadline, expiries[i..])
      {
        assert expiries[i..][0] == expiries[i] && expiries[i..][1..] == expiries[i + 1..];
        res := GetStep(expiries[i]);
        i := i + 1;
      }
    }
  }

  /** One schedule of TestFutureTask (future_task_test.go): the task's
      Set runs before Get, which then returns the task's value. */
  method FutureTaskScenario() returns (ok: bool, got: Option<Reading<int>>)
    ensures ok && got == Some(Reading(1, true))
  {
    var f := new Future<int>(0);
    ok := f.Set(1);
    got := f.Get([false]);
  }

  /** One schedule of TestFutureTaskWithDuration: the value arrives before
      the deadline, and a Get after the deadline has fired still sees it. */
  method FutureTaskWithDurationScenario() returns (ok: bool, first: Option<Reading<int>>, later: Option<Reading<int>>)
    ensures ok && first == Some(Reading(1, true)) && later == Some(Reading(1, true))
  {
    var f := new Future<int>.WithTimeout(0);
    ok := f.Set(1);
    first := f.Get([false]);
    later := f.Get([true]);
  }

  /** One schedule of TestFutureTaskWithTimeout: Get expires the future
      before the task's Set. The schedule goes on with the late Set, which
      is dropped, and a later Get, which still fails. */
  method FutureTaskWithTimeoutScenario() returns (first: Option<Reading<int>>, late: bool, later: Option<Reading<int>>)
    ensures first == Some(Reading(0, false)) && !late && later == Some(Reading(0, false))
  {
    var f := new Future<int>.WithTimeout(0);
    first := f.Get([false, false, true]);
    late := f.Set(1);
    later := f.Get([false]);
  }
}

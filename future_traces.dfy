/** Set and Get running concurrently on one future. Every atomic step that
    Set takes (the CAS to WAIT, the store of val, the store of READY) and
    every iteration of Get's loop is an event; an execution is any
    interleaving of events, and the lemmas hold of all of them. */
module FutureTraces {
  import opened FutureSteps

  /** How far the Set that won the CAS has got: nowhere (no Set has won,
      or the winner has finished), past the CAS, or past `f.val = val`. */
  datatype Phase<T> = Absent | Committing(v: T) | Written(v: T)

  /** The future's fields together with the progress of its winning Set. */
  datatype Sys<T> = Sys(cell: Cell<T>, phase: Phase<T>)

  /** TrySet(v): the CAS of some call Set(v); StoreVal and StoreReady: the
      next statement of the Set that won; Iterate(done): one iteration of
      some call of Get, with ctx.Done() ready or not. */
  datatype Event<T> = TrySet(v: T) | StoreVal | StoreReady | Iterate(done: bool)

  /** What an event yields: Set's boolean result (a lost CAS is the end of
      that Set), a step of the winner taken, an event of the winner that
      cannot occur at this point (no winner, or not at that statement), or
      what a Get iteration returned. */
  datatype Outcome<T> = SetResult(ok: bool) | Stepped | Skipped | GetResult(res: Option<Reading<T>>)

  /** The states an execution passes through and the outcome of every event. */
  datatype Execution<T> = Execution(states: seq<Sys<T>>, outcomes: seq<Outcome<T>>)

  /** A future as MakeFuture and MakeFutureWithTimeout return it: IDLE,
      holding the zero value, with no Set under way. */
  function Initial<T>(zero: T): (s: Sys<T>)
    ensures Good(s, zero) && s.cell.state == Idle && s.cell.val == zero && s.phase.Absent?
  {
    Sys(Cell(zero, Idle), Absent)
  }

  /** The invariant of every reachable configuration: WAIT is exactly the
      state between the winner's CAS and its store of READY, and val is
      still zero until the winner has stored into it. */
  ghost predicate Good<T>(s: Sys<T>, zero: T) {
    && (s.cell.state == Wait <==> !s.phase.Absent?)
    && (s.phase.Committing? || s.cell.state == Idle || s.cell.state == Error ==> s.cell.val == zero)
    && (s.phase.Written? ==> s.cell.val == s.phase.v)
  }

  function Step<T>(s: Sys<T>, e: Event<T>): (r: (Sys<T>, Outcome<T>))
    // val is written only by the Set that won the CAS, and only once.
    ensures r.0.cell.val != s.cell.val ==> e == StoreVal && s.phase.Committing?
    // A Set wins exactly when its CAS finds the future IDLE.
    ensures r.1 == SetResult(true) <==> e.TrySet? && s.cell.state == Idle
    // The state moves only along IDLE -> WAIT -> READY and IDLE -> ERROR.
    ensures r.0.cell.state != s.cell.state ==>
              (e.TrySet? && s.cell.state == Idle && r.0.cell.state == Wait)
              || (e == StoreReady && s.phase.Written? && r.0.cell.state == Ready)
              || (e == Iterate(true) && s.cell.state == Idle && r.0.cell.state == Error)
  {
    match e
    case TrySet(v) =>
      var (c1, won) := CompareAndSwap(s.cell, Idle, Wait);
      if won then (Sys(c1, Committing(v)), SetResult(true)) else (s, SetResult(false))
    case StoreVal =>
      if s.phase.Committing? then (Sys(s.cell.(val := s.phase.v), Written(s.phase.v)), Stepped)
      else (s, Skipped)
    case StoreReady =>
      if s.phase.Written? then (Sys(s.cell.(state := Ready), Absent), Stepped)
      else (s, Skipped)
    case Iterate(done) =>
      var (c1, res) := GetIteration(s.cell, done);
      (Sys(c1, s.phase), GetResult(res))
  }

  /** x is an execution of es: every event takes the state before it to
      the state after it with the outcome recorded. */
  ghost predicate IsExecution<T>(es: seq<Event<T>>, x: Execution<T>) {
    && |x.states| == |es| + 1
    && |x.outcomes| == |es|
    && forall i :: 0 <= i < |es| ==> (x.states[i + 1], x.outcomes[i]) == Step(x.states[i], es[i])
  }

  /** Run the events in order from s. */
  function Run<T>(s: Sys<T>, es: seq<Event<T>>): (x: Execution<T>)
    ensures IsExecution(es, x) && x.states[0] == s
    decreases |es|
  {
    if es == [] then Execution([s], [])
    else
      var (s1, o) := Step(s, es[0]);
      var rest := Run(s1, es[1..]);
      assert forall i :: 1 <= i < |es| ==>
        (rest.states[i], rest.outcomes[i - 1]) == Step(rest.states[i - 1], es[1..][i - 1]);
      Execution([s] + rest.states, [o] + rest.outcomes)
  }

  /** The event at i takes the state before it to the state after it. */
  lemma StepAt<T>(es: seq<Event<T>>, x: Execution<T>, i: nat)
    requires IsExecution(es, x) && i < |es|
    ensures (x.states[i + 1], x.outcomes[i]) == Step(x.states[i], es[i])
  {
  }

  /** Whether an event's outcome is a Get iteration that returned. */
  predicate Returned<T>(o: Outcome<T>) {
    o.GetResult? && o.res.Some?
  }

  /** Every event keeps the invariant. */
  lemma StepKeepsGood<T>(s: Sys<T>, e: Event<T>, zero: T)
    requires Good(s, zero)
    ensures Good(Step(s, e).0, zero)
  {
  }

  /** Every state of an execution from a good state is good. */
  lemma {:induction false} GoodThroughout<T>(es: seq<Event<T>>, x: Execution<T>, zero: T, i: nat)
    requires IsExecution(es, x) && Good(x.states[0], zero) && i <= |es|
    ensures Good(x.states[i], zero)
  {
    if i > 0 {
      GoodThroughout(es, x, zero, i - 1);
      StepKeepsGood(x.states[i - 1], es[i - 1], zero);
    }
  }

  /** What a later configuration can be, given an earlier one: after the
      winner's CAS only the winner moves the future, and READY and ERROR
      are final. */
  ghost predicate Follows<T>(a: Sys<T>, b: Sys<T>) {
    match a.phase
    case Committing(v) => b.phase == Committing(v) || b.phase == Written(v) || b == Sys(Cell(v, Ready), Absent)
    case Written(v) => b == a || b == Sys(Cell(v, Ready), Absent)
    case Absent => a.cell.state == Idle || b == a
  }

  lemma FollowsStep<T>(a: Sys<T>, b: Sys<T>, e: Event<T>, zero: T)
    requires Good(a, zero) && Good(b, zero) && Follows(a, b)
    ensures Follows(a, Step(b, e).0)
  {
  }

  lemma {:induction false} FollowsThroughout<T>(es: seq<Event<T>>, x: Execution<T>, zero: T, i: nat, j: nat)
    requires IsExecution(es, x) && Good(x.states[0], zero) && i <= j <= |es|
    ensures Follows(x.states[i], x.states[j])
  {
    GoodThroughout(es, x, zero, i);
    if i < j {
      FollowsThroughout(es, x, zero, i, j - 1);
      GoodThroughout(es, x, zero, j - 1);
      FollowsStep(x.states[i], x.states[j - 1], es[j - 1], zero);
    }
  }

  /** At most one call of Set returns true in any execution. */
  lemma SingleWinner<T>(es: seq<Event<T>>, x: Execution<T>, zero: T, i: nat, j: nat)
    requires IsExecution(es, x) && Good(x.states[0], zero) && i < |es| && j < |es|
    requires x.outcomes[i] == SetResult(true) && x.outcomes[j] == SetResult(true)
    ensures i == j
  {
    if i != j {
      var (k, m) := if i < j then (i, j) else (j, i);
      StepAt(es, x, k);
      StepAt(es, x, m);
      FollowsThroughout(es, x, zero, k + 1, m);
      GoodThroughout(es, x, zero, m);
    }
  }

  /** Every Get that returns, in any context and at any time, returns the
      same pair: readers never disagree on the outcome. */
  lemma ConsistentReadings<T>(es: seq<Event<T>>, x: Execution<T>, zero: T, i: nat, j: nat)
    requires IsExecution(es, x) && Good(x.states[0], zero) && i < |es| && j < |es|
    requires Returned(x.outcomes[i]) && Returned(x.outcomes[j])
    ensures x.outcomes[i] == x.outcomes[j]
  {
    if i != j {
      var (k, m) := if i < j then (i, j) else (j, i);
      StepAt(es, x, k);
      StepAt(es, x, m);
      GoodThroughout(es, x, zero, k + 1);
      FollowsThroughout(es, x, zero, k + 1, m);
      assert x.states[m] == x.states[k + 1];
    }
  }

  /** The future holds x on behalf of Set(x): its CAS has won, or it is READY with x. */
  ghost predicate Holds<T>(a: Sys<T>, v: T) {
    a.phase == Committing(v) || a.phase == Written(v) || (a.cell.state == Ready && a.cell.val == v)
  }

  lemma {:induction false} HeldSinceWinner<T>(es: seq<Event<T>>, x: Execution<T>, zero: T, i: nat, v: T)
    requires IsExecution(es, x) && Good(x.states[0], zero) && x.states[0].cell.state == Idle && i <= |es|
    requires Holds(x.states[i], v)
    ensures exists j :: 0 <= j < i && es[j] == TrySet(v) && x.outcomes[j] == SetResult(true)
  {
    if i > 0 {
      GoodThroughout(es, x, zero, i - 1);
      StepAt(es, x, i - 1);
      if es[i - 1] == TrySet(v) && x.outcomes[i - 1] == SetResult(true) {
      } else {
        assert Holds(x.states[i - 1], v);
        HeldSinceWinner(es, x, zero, i - 1, v);
      }
    }
  }

  /** A future that started IDLE is READY only after the winner's store
      of READY has run, and that winner had stored the value it now holds. */
  lemma {:induction false} ReadyNeedsStore<T>(es: seq<Event<T>>, x: Execution<T>, zero: T, i: nat)
    requires IsExecution(es, x) && Good(x.states[0], zero) && x.states[0].cell.state == Idle && i <= |es|
    requires x.states[i].cell.state == Ready
    ensures exists k :: 0 <= k < i && es[k] == StoreReady && x.outcomes[k] == Stepped
                        && x.states[k].phase == Written(x.states[i].cell.val)
  {
    if i > 0 {
      GoodThroughout(es, x, zero, i - 1);
      StepAt(es, x, i - 1);
      if x.states[i - 1].cell.state == Ready {
        assert x.states[i - 1] == x.states[i];
        ReadyNeedsStore(es, x, zero, i - 1);
      }
    }
  }

  /** No false positives: a Get on a fresh future returns (v, true) only
      after some Set(v) has won its CAS and then stored READY, that is,
      only after that Set has completed. */
  lemma ReadingHasWinner<T>(es: seq<Event<T>>, x: Execution<T>, zero: T, i: nat, v: T)
    requires IsExecution(es, x) && x.states[0] == Initial(zero) && i < |es|
    requires x.outcomes[i] == GetResult(Some(Reading(v, true)))
    ensures exists j, k :: 0 <= j < k < i && es[j] == TrySet(v) && x.outcomes[j] == SetResult(true)
                          && es[k] == StoreReady && x.outcomes[k] == Stepped
  {
    GoodThroughout(es, x, zero, i);
    StepAt(es, x, i);
    ReadyNeedsStore(es, x, zero, i);
    var k :| 0 <= k < i && es[k] == StoreReady && x.outcomes[k] == Stepped && x.states[k].phase == Written(v);
    GoodThroughout(es, x, zero, k);
    assert Holds(x.states[k], v);
    HeldSinceWinner(es, x, zero, k, v);
    var j :| 0 <= j < k && es[j] == TrySet(v) && x.outcomes[j] == SetResult(true);
  }

  /** A Get that fails reports the zero value, and once one has failed no
      Set ever succeeds: the late value is dropped. */
  lemma FailedReadingIsFinal<T>(es: seq<Event<T>>, x: Execution<T>, zero: T, i: nat, j: nat, v: T)
    requires IsExecution(es, x) && Good(x.states[0], zero) && i < j < |es|
    requires x.outcomes[i] == GetResult(Some(Reading(v, false)))
    ensures v == zero
    ensures x.outcomes[j] != SetResult(true)
  {
    StepAt(es, x, i);
    StepAt(es, x, j);
    GoodThroughout(es, x, zero, i);
    GoodThroughout(es, x, zero, i + 1);
    FollowsThroughout(es, x, zero, i + 1, j);
    assert x.states[j] == x.states[i + 1];
  }

  /** The race between a Set and the deadline has one winner: once a
      Set(v) has won its CAS, every Get that returns, before or after it,
      returns (v, true); none fails. */
  lemma SetBeatsDeadline<T>(es: seq<Event<T>>, x: Execution<T>, zero: T, w: nat, i: nat, v: T)
    requires IsExecution(es, x) && Good(x.states[0], zero) && w < |es| && i < |es|
    requires es[w] == TrySet(v) && x.outcomes[w] == SetResult(true)
    requires Returned(x.outcomes[i])
    ensures x.outcomes[i] == GetResult(Some(Reading(v, true)))
  {
    StepAt(es, x, w);
    StepAt(es, x, i);
    if i < w {
      GoodThroughout(es, x, zero, i + 1);
      FollowsThroughout(es, x, zero, i + 1, w);
      assert false;
    } else {
      GoodThroughout(es, x, zero, i);
      FollowsThroughout(es, x, zero, w + 1, i);
    }
  }

  /** Read-after-write: once the winner Set(v) has stored READY, every
      later Get iteration returns (v, true) at once. */
  lemma ReadAfterWrite<T>(es: seq<Event<T>>, x: Execution<T>, zero: T, w: nat, k: nat, j: nat, v: T)
    requires IsExecution(es, x) && Good(x.states[0], zero) && w < k < j < |es|
    requires es[w] == TrySet(v) && x.outcomes[w] == SetResult(true)
    requires es[k] == StoreReady && x.outcomes[k] == Stepped
    requires es[j].Iterate?
    ensures x.outcomes[j] == GetResult(Some(Reading(v, true)))
  {
    StepAt(es, x, w);
    StepAt(es, x, k);
    StepAt(es, x, j);
    GoodThroughout(es, x, zero, k);
    FollowsThroughout(es, x, zero, w + 1, k);
    GoodThroughout(es, x, zero, k + 1);
    FollowsThroughout(es, x, zero, k + 1, j);
  }

  /** A Set that runs without interruption is the atomic Set of
      FutureSteps; a Set that loses the CAS takes no further step. */
  lemma UninterruptedSet<T>(c: Cell<T>, zero: T, v: T)
    requires Good(Sys(c, Absent), zero)
    ensures Run(Sys(c, Absent), [TrySet(v), StoreVal, StoreReady]).states[3] == Sys(Set(c, v).0, Absent)
    ensures Run(Sys(c, Absent), [TrySet(v), StoreVal, StoreReady]).outcomes
            == if Set(c, v).1 then [SetResult(true), Stepped, Stepped] else [SetResult(false), Skipped, Skipped]
  {
  }
}

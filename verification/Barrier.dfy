/** The barrier: `n` threads call `block`, one more calls `releaseThreads(n)`; all leave together. */
module Barrier {
  import opened Options

  /** Where a thread is: before the lock, inside with the mutex, in the condition wait without it, woken and waiting
      for the mutex, about to unlock, finished. */
  datatype Pc = Start | Inside | Waiting | Woken | Leaving | Done

  /** The last thread of `pcs` is the one that calls `releaseThreads`. */
  datatype State = State(n: nat, waitFor: nat, owner: Option<nat>, pcs: seq<Pc>) {
    function Threads(): nat
      requires pcs != []
    {
      |pcs| - 1
    }
  }

  // ---------------------------------------------------------------- steps

  /** `pthread_cond_broadcast` */
  function WakeAll(pcs: seq<Pc>): (r: seq<Pc>)
    ensures |r| == |pcs| && forall t | 0 <= t < |r| :: r[t] == if pcs[t] == Waiting then Woken else pcs[t]
  {
    seq(|pcs|, t requires 0 <= t < |pcs| => if pcs[t] == Waiting then Woken else pcs[t])
  }

  /** What thread `t` does between taking the mutex and unlocking it or waiting. */
  function Act(s: State, t: nat): State
    requires t < |s.pcs|
  {
    if t < s.Threads() then
      var n := s.n + 1;
      if s.waitFor > 0 && n == s.waitFor then State(0, 0, s.owner, WakeAll(s.pcs[t := Leaving]))
      else State(n, s.waitFor, None, s.pcs[t := Waiting])
    else if s.n >= s.Threads() then State(0, 0, s.owner, WakeAll(s.pcs[t := Leaving]))
    else State(s.n, s.Threads(), None, s.pcs[t := Waiting])
  }

  /** `assert( waitFor == 0 || n <= waitFor )` in `block` */
  predicate AssertionHolds(s: State, t: nat)
    requires t < |s.pcs|
  {
    t < s.Threads() ==> s.waitFor == 0 || s.n + 1 <= s.waitFor
  }

  predicate CanStep(s: State, t: nat) {
    t < |s.pcs| &&
    match s.pcs[t]
    case Start => s.owner == None
    case Inside => true
    case Waiting => false
    case Woken => s.owner == None
    case Leaving => true
    case Done => false
  }

  /** The step of thread `t`. */
  function Step(s: State, t: nat): State
    requires CanStep(s, t)
  {
    match s.pcs[t]
    case Start => s.(owner := Some(t), pcs := s.pcs[t := Inside])
    case Inside => Act(s, t)
    case Woken => s.(owner := Some(t), pcs := s.pcs[t := Leaving])
    case Leaving => s.(owner := None, pcs := s.pcs[t := Done])
  }

  function Initial(threads: nat): State {
    State(0, 0, None, seq(threads + 1, _ => Start))
  }

  // ---------------------------------------------------------------- the class

  /** The shared object; `state` also says where its callers are. */
  class WaitForThreads {
    var n: nat
    var waitFor: nat
    var owner: Option<nat>
    var pcs: seq<Pc>

    ghost function Now(): State
      reads this
    {
      State(n, waitFor, owner, pcs)
    }

    constructor (threads: nat)
      ensures Now() == Initial(threads)
    {
      n, waitFor, owner := 0, 0, None;
      pcs := seq(threads + 1, _ => Start);
    }

    /** The body of `block` for thread `t`, which holds the mutex. */
    method Block(t: nat)
      requires t + 1 < |pcs| && pcs[t] == Inside && Invariant(Now())
      modifies this
      ensures Now() == Act(old(Now()), t)
    {
      n := n + 1;
      InvariantAsserts(old(Now()), t);
      assert waitFor == 0 || n <= waitFor;
      if waitFor > 0 && n == waitFor {
        UnblockThreads(t);
      } else {
        owner, pcs := None, pcs[t := Waiting];
      }
    }

    /** The body of `releaseThreads` for the last thread. */
    method ReleaseThreads(num: nat)
      requires |pcs| == num + 1 && pcs[num] == Inside
      modifies this
      ensures Now() == Act(old(Now()), num)
    {
      if n >= num {
        UnblockThreads(num);
      } else {
        waitFor := num;
        owner, pcs := None, pcs[num := Waiting];
      }
    }

    method UnblockThreads(t: nat)
      requires t < |pcs|
      modifies this
      ensures Now() == State(0, 0, old(owner), WakeAll(old(pcs)[t := Leaving]))
    {
      n := 0;
      waitFor := 0;
      pcs := WakeAll(pcs[t := Leaving]);
    }
  }

  // ---------------------------------------------------------------- the invariant

  function CountWaiting(pcs: seq<Pc>): nat {
    if pcs == [] then 0 else CountWaiting(pcs[..|pcs| - 1]) + if pcs[|pcs| - 1] == Waiting then 1 else 0
  }

  /** Through the barrier. */
  predicate Past(pc: Pc) {
    pc == Woken || pc == Leaving || pc == Done
  }

  /** The mutex is held exactly by the thread inside. */
  ghost predicate OwnerOk(s: State) {
    && (s.owner.Some? ==> s.owner.value < |s.pcs|)
    && forall t: nat | t < |s.pcs| :: s.pcs[t] == Inside || s.pcs[t] == Leaving <==> s.owner == Some(t)
  }

  /** Not all have come: nobody is through, and the counter counts those who wait in `block`. */
  ghost predicate Gathering(s: State)
    requires s.pcs != []
  {
    && (forall t | 0 <= t < |s.pcs| :: !Past(s.pcs[t]))
    && s.n == CountWaiting(s.pcs[..s.Threads()])
    && (if s.pcs[s.Threads()] == Waiting then s.waitFor == s.Threads() && s.n < s.waitFor else s.waitFor == 0)
  }

  /** All have come, and all are released. */
  ghost predicate Released(s: State) {
    s.n == 0 && s.waitFor == 0 && forall t | 0 <= t < |s.pcs| :: Past(s.pcs[t])
  }

  ghost predicate Invariant(s: State) {
    s.pcs != [] && OwnerOk(s) && (Gathering(s) || Released(s))
  }

  lemma {:induction false} CountBound(pcs: seq<Pc>)
    ensures CountWaiting(pcs) <= |pcs|
    ensures CountWaiting(pcs) == |pcs| <==> forall t | 0 <= t < |pcs| :: pcs[t] == Waiting
  {
    if pcs != [] {
      CountBound(pcs[..|pcs| - 1]);
      if CountWaiting(pcs) == |pcs| {
        forall t | 0 <= t < |pcs|
          ensures pcs[t] == Waiting
        {
          if t < |pcs| - 1 {
            assert pcs[t] == pcs[..|pcs| - 1][t];
          }
        }
      }
    }
  }

  lemma {:induction false} CountUpdate(pcs: seq<Pc>, t: nat, pc: Pc)
    requires t < |pcs|
    ensures CountWaiting(pcs[t := pc]) ==
            CountWaiting(pcs) - (if pcs[t] == Waiting then 1 else 0) + if pc == Waiting then 1 else 0
  {
    var rest := pcs[..|pcs| - 1];
    if t < |rest| {
      CountUpdate(rest, t, pc);
      assert pcs[t := pc][..|pcs| - 1] == rest[t := pc];
    } else {
      assert pcs[t := pc][..|pcs| - 1] == rest;
    }
  }

  lemma {:induction false} CountNone(pcs: seq<Pc>)
    requires forall t | 0 <= t < |pcs| :: pcs[t] != Waiting
    ensures CountWaiting(pcs) == 0
  {
    if pcs != [] {
      CountNone(pcs[..|pcs| - 1]);
    }
  }

  lemma InitialIsFine(threads: nat)
    ensures Invariant(Initial(threads))
  {
    CountNone(Initial(threads).pcs[..threads]);
  }

  /** The assertion in `block` never fails. */
  lemma InvariantAsserts(s: State, t: nat)
    requires Invariant(s) && t < |s.pcs| && s.pcs[t] == Inside
    ensures AssertionHolds(s, t)
  {
  }

  lemma OwnerStep(s: State, t: nat)
    requires OwnerOk(s) && CanStep(s, t)
    ensures OwnerOk(Step(s, t))
  {
  }

  /** Every step of every thread keeps the invariant. */
  lemma StepKeepsInvariant(s: State, t: nat)
    requires Invariant(s) && CanStep(s, t)
    ensures Invariant(Step(s, t))
  {
    OwnerStep(s, t);
    if s.pcs[t] == Inside {
      if t < s.Threads() {
        BlockKeeps(s, t);
      } else {
        ReleaseKeeps(s, t);
      }
    } else if s.pcs[t] == Start {
      ArrivalKeeps(s, t);
    }
  }

  lemma ArrivalKeeps(s: State, t: nat)
    requires s.pcs != [] && Gathering(s) && t < |s.pcs| && s.pcs[t] == Start
    ensures Gathering(s.(owner := Some(t), pcs := s.pcs[t := Inside]))
  {
    var front := s.pcs[..s.Threads()];
    if t < s.Threads() {
      CountUpdate(front, t, Inside);
      assert s.pcs[t := Inside][..s.Threads()] == front[t := Inside];
    } else {
      assert s.pcs[t := Inside][..s.Threads()] == front;
    }
  }

  lemma BlockKeeps(s: State, t: nat)
    requires s.pcs != [] && Gathering(s) && t < s.Threads() && s.pcs[t] == Inside
    ensures Gathering(Act(s, t)) || Released(Act(s, t))
  {
    if s.waitFor > 0 && s.n + 1 == s.waitFor {
      LastReleases(s, t);
    } else {
      var front := s.pcs[..s.Threads()];
      CountUpdate(front, t, Waiting);
      assert s.pcs[t := Waiting][..s.Threads()] == front[t := Waiting];
    }
  }

  /** The last thread to arrive finds all others waiting. */
  lemma LastReleases(s: State, t: nat)
    requires s.pcs != [] && Gathering(s) && t < s.Threads() && s.pcs[t] == Inside && s.waitFor > 0 && s.n + 1 == s.waitFor
    ensures Released(Act(s, t))
  {
    var front := s.pcs[..s.Threads()];
    CountUpdate(front, t, Waiting);
    CountBound(front[t := Waiting]);
    forall k | 0 <= k < |s.pcs|
      ensures Past(Act(s, t).pcs[k])
    {
      if k < s.Threads() && k != t {
        assert front[t := Waiting][k] == s.pcs[k];
      }
    }
  }

  lemma ReleaseKeeps(s: State, t: nat)
    requires s.pcs != [] && Gathering(s) && t == s.Threads() && s.pcs[t] == Inside
    ensures Gathering(Act(s, t)) || Released(Act(s, t))
  {
    var front := s.pcs[..t];
    CountBound(front);
    assert s.pcs[t := Waiting][..t] == front;
    if s.n >= s.Threads() {
      forall k | 0 <= k < |s.pcs|
        ensures Past(Act(s, t).pcs[k])
      {
        if k < t {
          assert front[k] == s.pcs[k];
        }
      }
    }
  }

  // ---------------------------------------------------------------- whole runs

  /** The states of a run under the given schedule. */
  ghost predicate IsRun(states: seq<State>, schedule: seq<nat>, threads: nat) {
    && |states| == |schedule| + 1 && states[0] == Initial(threads)
    && forall i | 0 <= i < |schedule| :: CanStep(states[i], schedule[i]) && states[i + 1] == Step(states[i], schedule[i])
  }

  lemma {:induction false} RunKeepsInvariant(states: seq<State>, schedule: seq<nat>, threads: nat, i: nat)
    requires IsRun(states, schedule, threads) && i < |states|
    ensures Invariant(states[i]) && |states[i].pcs| == threads + 1
  {
    if i == 0 {
      InitialIsFine(threads);
    } else {
      RunKeepsInvariant(states, schedule, threads, i - 1);
      StepKeepsInvariant(states[i - 1], schedule[i - 1]);
    }
  }

  /** In every run: no thread is through the barrier before all have arrived and the release was requested. */
  lemma AllOrNone(states: seq<State>, schedule: seq<nat>, threads: nat, i: nat, t: nat, u: nat)
    requires IsRun(states, schedule, threads) && i < |states| && t <= threads && u <= threads
    ensures |states[i].pcs| == threads + 1 && (Past(states[i].pcs[t]) ==> Past(states[i].pcs[u]))
    ensures t < threads && states[i].pcs[t] == Inside ==> AssertionHolds(states[i], t)
  {
    RunKeepsInvariant(states, schedule, threads, i);
    if states[i].pcs[t] == Inside {
      InvariantAsserts(states[i], t);
    }
  }

  predicate Finished(s: State) {
    forall t | 0 <= t < |s.pcs| :: s.pcs[t] == Done
  }

  /** No reachable state is deadlocked: unless all threads are finished, one can take a step. */
  lemma NoDeadlock(s: State)
    requires Invariant(s)
    ensures Finished(s) <==> forall t: nat | t < |s.pcs| :: !CanStep(s, t)
  {
    if forall t: nat | t < |s.pcs| :: !CanStep(s, t) {
      Stuck(s);
    }
  }

  lemma OwnerCanStep(s: State)
    requires OwnerOk(s)
    ensures s.owner.Some? ==> CanStep(s, s.owner.value)
  {
  }

  /** If nobody can step, nobody has the mutex, and either all are through or all wait; the latter cannot be. */
  lemma Stuck(s: State)
    requires Invariant(s) && forall t: nat | t < |s.pcs| :: !CanStep(s, t)
    ensures Finished(s)
  {
    forall t: nat | t < |s.pcs|
      ensures s.pcs[t] == Done || s.pcs[t] == Waiting
    {
      assert !CanStep(s, t);
      OwnerCanStep(s);
    }
    if Gathering(s) {
      CountBound(s.pcs[..s.Threads()]);
    }
  }

  function Rank(pc: Pc): nat {
    match pc
    case Start => 5
    case Inside => 4
    case Waiting => 3
    case Woken => 2
    case Leaving => 1
    case Done => 0
  }

  function Work(pcs: seq<Pc>): nat {
    if pcs == [] then 0 else Work(pcs[..|pcs| - 1]) + Rank(pcs[|pcs| - 1])
  }

  lemma {:induction false} WorkShrinks(before: seq<Pc>, after: seq<Pc>, t: nat)
    requires |before| == |after| && t < |before| && Rank(after[t]) < Rank(before[t])
    requires forall k | 0 <= k < |before| :: Rank(after[k]) <= Rank(before[k])
    ensures Work(after) < Work(before)
  {
    var a, b := after[..|after| - 1], before[..|before| - 1];
    if t < |b| {
      WorkShrinks(b, a, t);
    } else {
      WorkNoMore(b, a);
    }
  }

  lemma {:induction false} WorkNoMore(before: seq<Pc>, after: seq<Pc>)
    requires |before| == |after| && forall k | 0 <= k < |before| :: Rank(after[k]) <= Rank(before[k])
    ensures Work(after) <= Work(before)
  {
    if before != [] {
      WorkNoMore(before[..|before| - 1], after[..|after| - 1]);
    }
  }

  /** Every step makes progress. */
  lemma StepWorks(s: State, t: nat)
    requires CanStep(s, t)
    ensures Work(Step(s, t).pcs) < Work(s.pcs)
  {
    WorkShrinks(s.pcs, Step(s, t).pcs, t);
  }

  lemma {:induction false} InitialWork(pcs: seq<Pc>)
    requires forall t | 0 <= t < |pcs| :: pcs[t] == Start
    ensures Work(pcs) == 5 * |pcs|
  {
    if pcs != [] {
      InitialWork(pcs[..|pcs| - 1]);
    }
  }

  lemma {:induction false} WorkLeft(states: seq<State>, schedule: seq<nat>, threads: nat, i: nat)
    requires IsRun(states, schedule, threads) && i < |states|
    ensures Work(states[i].pcs) + i <= 5 * (threads + 1)
  {
    if i == 0 {
      InitialWork(states[0].pcs);
    } else {
      WorkLeft(states, schedule, threads, i - 1);
      StepWorks(states[i - 1], schedule[i - 1]);
    }
  }

  /** Whatever the scheduler does, after at most five steps per thread no step is left, and then all are finished. */
  lemma EveryRunFinishes(states: seq<State>, schedule: seq<nat>, threads: nat)
    requires IsRun(states, schedule, threads)
    ensures |schedule| <= 5 * (threads + 1)
    ensures var last := states[|states| - 1];
            (forall t: nat | t < |last.pcs| :: !CanStep(last, t)) <==> Finished(last)
  {
    WorkLeft(states, schedule, threads, |states| - 1);
    RunKeepsInvariant(states, schedule, threads, |states| - 1);
    NoDeadlock(states[|states| - 1]);
  }

  // ---------------------------------------------------------------- spurious wakeups

  /** A wakeup without broadcast, which POSIX allows. */
  function Spurious(s: State, t: nat): State
    requires t < |s.pcs| && s.pcs[t] == Waiting
  {
    s.(pcs := s.pcs[t := Woken])
  }

  /** The barrier's promise, in one state: all are through or none. */
  ghost predicate Together(s: State) {
    forall t, u | 0 <= t < |s.pcs| && 0 <= u < |s.pcs| && Past(s.pcs[t]) :: Past(s.pcs[u])
  }

  /** Since the wait is not in a loop that tests the condition, a spurious wakeup breaks the promise in every state in
      which it can happen: the thread is through, and some other has not been released. */
  lemma SpuriousBreaks(s: State, t: nat)
    requires Invariant(s) && t < |s.pcs| && s.pcs[t] == Waiting
    ensures Past(Spurious(s, t).pcs[t])
    ensures exists u: nat :: u < |s.pcs| && u != t && !Past(Spurious(s, t).pcs[u])
  {
    assert !Past(s.pcs[t]);
    assert Gathering(s);
    assert |s.pcs| > 1;
    var u: nat := if t == 0 then 1 else 0;
    assert !Past(Spurious(s, t).pcs[u]);
  }

  /** If the mutex is free, the thread can then leave `block`, or `releaseThreads`, alone. */
  lemma SpuriousLetsOut(s: State, t: nat)
    requires Invariant(s) && t < |s.pcs| && s.pcs[t] == Waiting && s.owner == None
    ensures CanStep(Spurious(s, t), t) && CanStep(Step(Spurious(s, t), t), t)
    ensures var after := Step(Step(Spurious(s, t), t), t);
            after.pcs[t] == Done && exists u: nat :: u < |s.pcs| && !Past(after.pcs[u])
  {
    SpuriousBreaks(s, t);
    var u: nat :| u < |s.pcs| && u != t && !Past(Spurious(s, t).pcs[u]);
    assert !Past(Step(Step(Spurious(s, t), t), t).pcs[u]);
  }

  /** What can happen next: a thread takes a step, or a waiting thread is woken by nobody. */
  datatype Event = Move(t: nat) | Wake(t: nat)

  predicate CanHappen(s: State, e: Event) {
    match e
    case Move(t) => CanStep(s, t)
    case Wake(t) => t < |s.pcs| && s.pcs[t] == Waiting
  }

  function After(s: State, e: Event): State
    requires CanHappen(s, e)
  {
    match e
    case Move(t) => Step(s, t)
    case Wake(t) => Spurious(s, t)
  }

  /** The states of a run in which spurious wakeups may occur. */
  ghost predicate IsWildRun(states: seq<State>, events: seq<Event>, threads: nat) {
    && |states| == |events| + 1 && states[0] == Initial(threads)
    && forall i | 0 <= i < |events| :: CanHappen(states[i], events[i]) && states[i + 1] == After(states[i], events[i])
  }

  lemma {:induction false} TameSoFar(states: seq<State>, events: seq<Event>, threads: nat, i: nat)
    requires IsWildRun(states, events, threads) && i < |states| && forall k | 0 <= k < i :: events[k].Move?
    ensures Invariant(states[i])
  {
    if i == 0 {
      InitialIsFine(threads);
    } else {
      TameSoFar(states, events, threads, i - 1);
      assert CanHappen(states[i - 1], events[i - 1]) && states[i - 1 + 1] == After(states[i - 1], events[i - 1]);
      StepKeepsInvariant(states[i - 1], events[i - 1].t);
    }
  }

  lemma {:induction false} FirstWake(events: seq<Event>, i: nat) returns (k: nat)
    requires i < |events| && events[i].Wake?
    ensures k <= i && events[k].Wake? && forall x | 0 <= x < k :: events[x].Move?
  {
    if x :| 0 <= x < i && events[x].Wake? {
      k := FirstWake(events, x);
    } else {
      k := i;
    }
  }

  /** A run keeps the barrier's promise throughout if and only if no spurious wakeup occurs on it. */
  lemma PromiseExactly(states: seq<State>, events: seq<Event>, threads: nat)
    requires IsWildRun(states, events, threads)
    ensures (forall i | 0 <= i < |states| :: Together(states[i])) <==> forall i | 0 <= i < |events| :: events[i].Move?
  {
    if i :| 0 <= i < |events| && events[i].Wake? {
      var k := FirstWake(events, i);
      TameSoFar(states, events, threads, k);
      assert CanHappen(states[k], events[k]) && states[k + 1] == After(states[k], events[k]);
      SpuriousBreaks(states[k], events[k].t);
      assert !Together(states[k + 1]);
    } else {
      forall i | 0 <= i < |states|
        ensures Together(states[i])
      {
        TameSoFar(states, events, threads, i);
      }
    }
  }

  /** For instance, one of two threads can be finished before the other and the release have come. */
  lemma SpuriousBreaksBarrier() returns (states: seq<State>, events: seq<Event>)
    ensures IsWildRun(states, events, 2) && states[|states| - 1].pcs == [Done, Start, Start]
  {
    var a := Initial(2);
    assert a.pcs == [Start, Start, Start];
    var b := Step(a, 0);
    assert b.pcs == [Inside, Start, Start];
    var c := Step(b, 0);
    assert c.pcs == [Waiting, Start, Start];
    var d := Spurious(c, 0);
    assert d.pcs == [Woken, Start, Start];
    var e := Step(d, 0);
    assert e.pcs == [Leaving, Start, Start];
    states, events := [a, b, c, d, e, Step(e, 0)], [Move(0), Move(0), Wake(0), Move(0), Move(0)];
    assert Step(e, 0).pcs == [Done, Start, Start];
  }
}

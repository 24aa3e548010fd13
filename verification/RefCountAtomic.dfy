/** The count kept by compare-and-exchange, with threads that interleave in any way. */
module RefCountAtomic {
  import opened Bytes
  import opened RefCount

  /** A thread between its calls, or about to try to exchange what it saw for the new value. */
  datatype Local = Idle | Trying(op: Op, expected: nat)

  datatype System = System(count: nat, threads: seq<Local>, history: seq<Event>, aborted: bool)

  /** The thread begins a call with a load, or it tries once, which may fail for no reason. */
  datatype Action = Begin(op: Op) | Try(spurious: bool)

  predicate Enabled(s: System, t: nat, a: Action) {
    !s.aborted && t < |s.threads| && match a
    case Begin(_) => s.threads[t].Idle?
    case Try(_) => s.threads[t].Trying?
  }

  function Finish(s: System, t: nat, op: Op, outcome: Outcome): System
    requires t < |s.threads|
  {
    s.(threads := s.threads[t := Idle], history := s.history + [Event(t, op, outcome)], aborted := outcome == Aborted)
  }

  /** What a thread does that has just read the count: the test is its own, so it is part of the step that reads. */
  function Look(s: System, t: nat, op: Op): System
    requires t < |s.threads|
  {
    match op
    case Increment =>
      if s.count != REFCOUNT_MAX then s.(threads := s.threads[t := Trying(op, s.count)])
      else Finish(s, t, op, Returned(false))
    case Decrement =>
      if s.count == 0 then Finish(s, t, op, Aborted)
      else if s.count == REFCOUNT_MAX then Finish(s, t, op, Returned(false))
      else s.(threads := s.threads[t := Trying(op, s.count)])
  }

  /** atomic_compare_exchange_weak: a failure, for whatever reason, reads the count again. */
  function Exchange(s: System, t: nat, op: Op, expected: nat, spurious: bool): System
    requires t < |s.threads| && (op.Decrement? ==> expected > 0)
  {
    if s.count != expected || spurious then Look(s, t, op)
    else
      var newValue := if op.Increment? then expected + 1 else expected - 1;
      Finish(s.(count := newValue), t, op, Returned(op.Decrement? && newValue == 0))
  }

  predicate Reachable(start: nat, s: System) {
    && Atomic(start, s.history) && s.count == After(start, s.history) && s.count <= REFCOUNT_MAX
    && (s.aborted <==> s.history != [] && s.history[|s.history| - 1].outcome == Aborted)
    && forall t :: 0 <= t < |s.threads| && s.threads[t].Trying? ==>
                     s.threads[t].expected < REFCOUNT_MAX && (s.threads[t].op.Decrement? ==> s.threads[t].expected > 0)
  }

  function Step(start: nat, s: System, t: nat, a: Action): System
    requires Reachable(start, s) && Enabled(s, t, a)
  {
    match a
    case Begin(op) => Look(s, t, op)
    case Try(spurious) => Exchange(s, t, s.threads[t].op, s.threads[t].expected, spurious)
  }

  /** The operation a thread is in. */
  function OpOf(s: System, t: nat, a: Action): Op
    requires Enabled(s, t, a)
  {
    if a.Begin? then a.op else s.threads[t].op
  }

  /** Nothing happened but to what the thread knows, or one operation of the atomic counter took effect. */
  ghost predicate Stutters(s: System, r: System) {
    r.count == s.count && r.history == s.history && !r.aborted
  }

  ghost predicate TakesEffect(s: System, t: nat, op: Op, r: System) {
    var after := Apply(s.count, op);
    && r.count == after.0 && r.history == s.history + [Event(t, op, after.1)]
    && (r.aborted <==> after.1 == Aborted)
  }

  lemma EffectIsReachable(start: nat, s: System, t: nat, op: Op, r: System)
    requires Reachable(start, s) && !s.aborted && t < |s.threads|
    requires TakesEffect(s, t, op, r) && r.threads == s.threads[t := Idle]
    ensures Reachable(start, r)
  {
    AtomicOneMore(start, s.history, Event(t, op, Apply(s.count, op).1));
  }

  lemma StepRefines(start: nat, s: System, t: nat, a: Action)
    requires Reachable(start, s) && Enabled(s, t, a)
    ensures Reachable(start, Step(start, s, t, a)) && |Step(start, s, t, a).threads| == |s.threads|
    ensures Stutters(s, Step(start, s, t, a)) || TakesEffect(s, t, OpOf(s, t, a), Step(start, s, t, a))
  {
    var r, op := Step(start, s, t, a), OpOf(s, t, a);
    if r.threads[t].Idle? {
      assert TakesEffect(s, t, op, r);
      EffectIsReachable(start, s, t, op, r);
    } else {
      assert Stutters(s, r);
    }
  }

  function Start(count: nat, threads: nat): System {
    System(count, seq(threads, _ => Idle), [], false)
  }

  /** Whether every action of a schedule is enabled when its turn comes, and where it leads to. */
  function RunFrom(start: nat, s: System, schedule: seq<(nat, Action)>): Option<System>
    requires Reachable(start, s)
    decreases |schedule|
  {
    if schedule == [] then Some(s)
    else
      var (t, a) := schedule[0];
      if !Enabled(s, t, a) then None
      else
        StepRefines(start, s, t, a);
        RunFrom(start, Step(start, s, t, a), schedule[1..])
  }

  lemma {:induction false} RunStaysReachable(start: nat, s: System, schedule: seq<(nat, Action)>)
    requires Reachable(start, s)
    ensures var r := RunFrom(start, s, schedule); r.Some? ==> Reachable(start, r.value)
    decreases |schedule|
  {
    if schedule != [] && Enabled(s, schedule[0].0, schedule[0].1) {
      StepRefines(start, s, schedule[0].0, schedule[0].1);
      RunStaysReachable(start, Step(start, s, schedule[0].0, schedule[0].1), schedule[1..]);
    }
  }

  /** Whatever the schedule and the spurious failures, the calls return what an atomic counter would have returned in
      the order they took effect, and it would now have the same count. */
  lemma EveryRunIsAtomic(start: nat, threads: nat, schedule: seq<(nat, Action)>)
    requires start <= REFCOUNT_MAX
    ensures var r := RunFrom(start, Start(start, threads), schedule);
            r.Some? ==> Atomic(start, r.value.history) && r.value.count == After(start, r.value.history)
                        && r.value.count <= REFCOUNT_MAX
  {
    RunStaysReachable(start, Start(start, threads), schedule);
  }

  /** So at most one drop frees the object, and it is the last thing to happen to the count. */
  lemma OneThreadFrees(start: nat, threads: nat, schedule: seq<(nat, Action)>)
    requires start < REFCOUNT_MAX && RunFrom(start, Start(start, threads), schedule).Some?
    requires var h := RunFrom(start, Start(start, threads), schedule).value.history;
             ByHolders(start, h) && Unsaturated(start, h)
    ensures var r := RunFrom(start, Start(start, threads), schedule).value;
            && !r.aborted && r.count == Holders(start, r.history)
            && forall i :: 0 <= i < |r.history| ==>
                 (r.history[i].outcome == Returned(true) <==> i == |r.history| - 1 && r.count == 0)
  {
    var r := RunFrom(start, Start(start, threads), schedule).value;
    RunStaysReachable(start, Start(start, threads), schedule);
    LastDropTellsZero(start, r.history);
    CountsHolders(start, r.history);
  }

  // ---------- The loops ----------

  class Cell {
    var count: nat

    constructor (count: nat)
      ensures this.count == count
    {
      this.count := count;
    }
  }

  /** What other threads do to the count before an attempt, and whether the attempt fails for no reason. */
  datatype Interference = Interference(others: seq<Event>, spurious: bool)

  function AfterAll(count: nat, script: seq<Interference>): nat {
    if script == [] then count else After(AfterAll(count, script[..|script| - 1]), script[|script| - 1].others)
  }

  /** CRYPTO_refcount_inc. What comes in between is a finite script, as in every run that returns; when it is over the
      exchange succeeds. The call takes effect once, after the first `k` parts of the script. */
  method IncrementCount(cell: Cell, script: seq<Interference>) returns (k: nat)
    requires cell.count <= REFCOUNT_MAX
    modifies cell
    ensures k <= |script|
    ensures cell.count == Apply(AfterAll(old(cell.count), script[..k]), Increment).0
  {
    var expected := cell.count;
    k := 0;
    while expected != REFCOUNT_MAX
      invariant k <= |script| && cell.count == AfterAll(old(cell.count), script[..k]) <= REFCOUNT_MAX
      invariant expected <= REFCOUNT_MAX && (expected == REFCOUNT_MAX ==> cell.count == REFCOUNT_MAX)
      invariant k == |script| ==> expected == cell.count
      decreases |script| - k, if expected == REFCOUNT_MAX then 0 else 1
    {
      var newValue := expected + 1;
      var spurious := false;
      if k < |script| {
        assert script[..k + 1][..k] == script[..k];
        NeverWraps(cell.count, script[k].others);
        cell.count := After(cell.count, script[k].others);
        spurious := script[k].spurious;
        k := k + 1;
      }
      if cell.count == expected && !spurious {
        cell.count := newValue;
        break;
      }
      expected := cell.count;
    }
  }

  /** CRYPTO_refcount_dec_and_test_zero, likewise. */
  method DecrementAndTestZero(cell: Cell, script: seq<Interference>) returns (outcome: Outcome, k: nat)
    requires cell.count <= REFCOUNT_MAX
    modifies cell
    ensures k <= |script|
    ensures (cell.count, outcome) == Apply(AfterAll(old(cell.count), script[..k]), Decrement)
  {
    var expected := cell.count;
    k := 0;
    while true
      invariant k <= |script| && cell.count == AfterAll(old(cell.count), script[..k]) <= REFCOUNT_MAX
      invariant expected == cell.count
      decreases |script| - k
    {
      if expected == 0 {
        return Aborted, k;
      } else if expected == REFCOUNT_MAX {
        return Returned(false), k;
      }
      var newValue := expected - 1;
      var spurious := false;
      if k < |script| {
        assert script[..k + 1][..k] == script[..k];
        NeverWraps(cell.count, script[k].others);
        cell.count := After(cell.count, script[k].others);
        spurious := script[k].spurious;
        k := k + 1;
      }
      if cell.count == expected && !spurious {
        cell.count := newValue;
        return Returned(newValue == 0), k;
      }
      expected := cell.count;
    }
  }
}

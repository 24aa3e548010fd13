/** The count kept under a lock, with threads that interleave in any way. */
module RefCountLocked {
  import opened Bytes
  import opened RefCount

  /** Where a thread is in its call. It has looked at the count, changed it, or only has to let go of the lock. */
  datatype Local =
    | Outside | Waiting(op: Op) | Entered(op: Op) | Looked(op: Op, room: bool) | Changed(op: Op) | Leaving

  datatype System = System(count: nat, owner: Option<nat>, threads: seq<Local>, history: seq<Event>, aborted: bool)

  datatype Action = Call(op: Op) | Go

  predicate Enabled(s: System, t: nat, a: Action) {
    && !s.aborted && t < |s.threads|
    && (a.Call? <==> s.threads[t].Outside?)
    && (s.threads[t].Waiting? ==> s.owner.None?)
  }

  function Move(s: System, t: nat, l: Local): System
    requires t < |s.threads|
  {
    s.(threads := s.threads[t := l])
  }

  function Record(s: System, t: nat, op: Op, outcome: Outcome): System {
    s.(history := s.history + [Event(t, op, outcome)], aborted := outcome == Aborted)
  }

  function Step(s: System, t: nat, a: Action): System
    requires Enabled(s, t, a)
  {
    match s.threads[t]
    case Outside => Move(s, t, Waiting(a.op))
    case Waiting(op) => Move(s, t, Entered(op)).(owner := Some(t))
    case Entered(op) =>
      if op.Decrement? && s.count == 0 then Record(s, t, op, Aborted)
      else Move(s, t, Looked(op, s.count < REFCOUNT_MAX))
    case Looked(op, room) =>
      var next := Move(s, t, Changed(op));
      if !room then next
      else next.(count := if op.Increment? then s.count + 1 else if s.count > 0 then s.count - 1 else REFCOUNT_MAX)
    case Changed(op) => Record(Move(s, t, Leaving), t, op, Returned(op.Decrement? && s.count == 0))
    case Leaving => Move(s, t, Outside).(owner := None)
  }

  predicate Inside(l: Local) {
    !l.Outside? && !l.Waiting?
  }

  /** The lock keeps all threads but one out. */
  predicate Exclusive(s: System) {
    && (forall t :: 0 <= t < |s.threads| ==> (Inside(s.threads[t]) <==> s.owner == Some(t)))
    && (s.owner.Some? ==> s.owner.value < |s.threads|)
  }

  function Owner(s: System): Local
    requires Exclusive(s)
  {
    if s.owner.Some? then s.threads[s.owner.value] else Outside
  }

  /** How the count stands to the atomic counter's, with the owner of the lock at `l`: only who changed it and did not
      yet return is ahead. */
  predicate Fits(l: Local, count: nat, atomic: nat) {
    match l
    case Looked(op, room) => count == atomic && room == (count < REFCOUNT_MAX) && Apply(atomic, op).1 != Aborted
    case Changed(op) => count == Apply(atomic, op).0 && Apply(atomic, op).1 != Aborted
    case _ => count == atomic
  }

  predicate Reachable(start: nat, s: System) {
    && Atomic(start, s.history) && After(start, s.history) <= REFCOUNT_MAX
    && (s.aborted <==> s.history != [] && s.history[|s.history| - 1].outcome == Aborted)
    && Exclusive(s) && Fits(Owner(s), s.count, After(start, s.history))
  }

  lemma StepKeepsOthersOut(s: System, t: nat, a: Action)
    requires Exclusive(s) && Enabled(s, t, a)
    ensures var r := Step(s, t, a);
            && Exclusive(r) && |r.threads| == |s.threads|
            && Owner(r) == if Inside(r.threads[t]) then r.threads[t]
                           else if s.threads[t].Leaving? then Outside else Owner(s)
    ensures Inside(s.threads[t]) ==> Owner(s) == s.threads[t]
  {
  }

  /** Whether the next step of a thread records an outcome. */
  predicate Records(s: System, l: Local) {
    l.Changed? || (l.Entered? && l.op.Decrement? && s.count == 0)
  }

  lemma SilentStep(start: nat, s: System, t: nat, a: Action)
    requires Reachable(start, s) && Enabled(s, t, a) && !Records(s, s.threads[t])
    ensures Step(s, t, a).history == s.history && Reachable(start, Step(s, t, a))
  {
    StepKeepsOthersOut(s, t, a);
    var r, atomic := Step(s, t, a), After(start, s.history);
    assert r.history == s.history && r.aborted == s.aborted;
    assert Fits(Owner(r), r.count, atomic);
  }

  lemma RecordedIsReachable(start: nat, s: System, r: System, e: Event)
    requires Reachable(start, s) && !s.aborted && e.outcome == Apply(After(start, s.history), e.op).1
    requires r.history == s.history + [e] && (r.aborted <==> e.outcome == Aborted)
    requires Exclusive(r) && Fits(Owner(r), r.count, Apply(After(start, s.history), e.op).0)
    ensures Reachable(start, r)
  {
    AtomicOneMore(start, s.history, e);
  }

  lemma RecordingStep(start: nat, s: System, t: nat, a: Action)
    requires Reachable(start, s) && Enabled(s, t, a) && Records(s, s.threads[t])
    ensures Step(s, t, a).history ==
            s.history + [Event(t, s.threads[t].op, Apply(After(start, s.history), s.threads[t].op).1)]
    ensures Reachable(start, Step(s, t, a))
  {
    StepKeepsOthersOut(s, t, a);
    var r, l, atomic := Step(s, t, a), s.threads[t], After(start, s.history);
    assert Fits(l, s.count, atomic);
    RecordedIsReachable(start, s, r, Event(t, l.op, Apply(atomic, l.op).1));
  }

  /** Only where a thread records an outcome does the atomic counter take a step, and it is the operation the thread
      is in. */
  lemma StepRefines(start: nat, s: System, t: nat, a: Action)
    requires Reachable(start, s) && Enabled(s, t, a)
    ensures Reachable(start, Step(s, t, a))
    ensures var l := s.threads[t];
            Step(s, t, a).history == s.history +
            if Records(s, l) then [Event(t, l.op, Apply(After(start, s.history), l.op).1)] else []
  {
    if Records(s, s.threads[t]) {
      RecordingStep(start, s, t, a);
    } else {
      SilentStep(start, s, t, a);
    }
  }

  function Start(count: nat, threads: nat): System {
    System(count, None, seq(threads, _ => Outside), [], false)
  }

  function RunFrom(start: nat, s: System, schedule: seq<(nat, Action)>): Option<System>
    decreases |schedule|
  {
    if schedule == [] then Some(s)
    else
      var (t, a) := schedule[0];
      if !Enabled(s, t, a) then None else RunFrom(start, Step(s, t, a), schedule[1..])
  }

  lemma {:induction false} RunStaysReachable(start: nat, s: System, schedule: seq<(nat, Action)>)
    requires Reachable(start, s)
    ensures var r := RunFrom(start, s, schedule); r.Some? ==> Reachable(start, r.value)
    decreases |schedule|
  {
    if schedule != [] && Enabled(s, schedule[0].0, schedule[0].1) {
      StepRefines(start, s, schedule[0].0, schedule[0].1);
      RunStaysReachable(start, Step(s, schedule[0].0, schedule[0].1), schedule[1..]);
    }
  }

  /** Whatever the schedule, the calls return what an atomic counter would have returned, and when nobody has the lock
      the count is that counter's. */
  lemma EveryRunIsAtomic(start: nat, threads: nat, schedule: seq<(nat, Action)>)
    requires start <= REFCOUNT_MAX
    ensures var r := RunFrom(start, Start(start, threads), schedule);
            r.Some? ==>
              && Atomic(start, r.value.history)
              && (r.value.owner.None? ==> r.value.count == After(start, r.value.history) <= REFCOUNT_MAX)
              && forall t, u :: 0 <= t < u < |r.value.threads| ==>
                   !(Inside(r.value.threads[t]) && Inside(r.value.threads[u]))
  {
    RunStaysReachable(start, Start(start, threads), schedule);
  }

  /** So here, too, at most one drop frees the object, and it is the last thing to happen to the count. */
  lemma OneThreadFrees(start: nat, threads: nat, schedule: seq<(nat, Action)>)
    requires start < REFCOUNT_MAX && RunFrom(start, Start(start, threads), schedule).Some?
    requires var h := RunFrom(start, Start(start, threads), schedule).value.history;
             ByHolders(start, h) && Unsaturated(start, h)
    ensures var r := RunFrom(start, Start(start, threads), schedule).value;
            && !r.aborted && (r.owner.None? ==> r.count == Holders(start, r.history))
            && forall i :: 0 <= i < |r.history| ==>
                 (r.history[i].outcome == Returned(true) <==> i == |r.history| - 1 && Holders(start, r.history) == 0)
  {
    var r := RunFrom(start, Start(start, threads), schedule).value;
    RunStaysReachable(start, Start(start, threads), schedule);
    LastDropTellsZero(start, r.history);
    CountsHolders(start, r.history);
  }

  // ---------- The calls, between locking and unlocking ----------

  class Cell {
    var count: nat

    constructor (count: nat)
      ensures this.count == count
    {
      this.count := count;
    }
  }

  /** CRYPTO_refcount_inc. */
  method IncrementCount(cell: Cell)
    requires cell.count <= REFCOUNT_MAX
    modifies cell
    ensures cell.count == Apply(old(cell.count), Increment).0
  {
    if cell.count < REFCOUNT_MAX {
      cell.count := cell.count + 1;
    }
  }

  /** CRYPTO_refcount_dec_and_test_zero. */
  method DecrementAndTestZero(cell: Cell) returns (outcome: Outcome)
    requires cell.count <= REFCOUNT_MAX
    modifies cell
    ensures (cell.count, outcome) == Apply(old(cell.count), Decrement)
  {
    if cell.count == 0 {
      return Aborted;
    }
    if cell.count < REFCOUNT_MAX {
      cell.count := cell.count - 1;
    }
    return Returned(cell.count == 0);
  }
}

/** What a reference count does, one operation at a time, and what follows for those who count by it. */
module RefCount {
  const REFCOUNT_MAX: nat := 0xFFFF_FFFF

  datatype Op = Increment | Decrement

  /** A decrement tells whether the count came to zero; on a count of zero it aborts the process. */
  datatype Outcome = Returned(zero: bool) | Aborted

  function Apply(count: nat, op: Op): (nat, Outcome) {
    match op
    case Increment => (if count == REFCOUNT_MAX then count else count + 1, Returned(false))
    case Decrement =>
      if count == 0 then (0, Aborted)
      else if count == REFCOUNT_MAX then (count, Returned(false))
      else (count - 1, Returned(count == 1))
  }

  /** An operation as it took effect. */
  datatype Event = Event(thread: nat, op: Op, outcome: Outcome)

  /** The count after operations that take effect one after the other. */
  function After(count: nat, h: seq<Event>): nat {
    if h == [] then count else Apply(After(count, h[..|h| - 1]), h[|h| - 1].op).0
  }

  /** Every outcome is the one of an atomic counter, and nothing happens after an abort. */
  predicate Atomic(count: nat, h: seq<Event>) {
    h != [] ==>
      var before, last := h[..|h| - 1], h[|h| - 1];
      && Atomic(count, before)
      && (before != [] ==> before[|before| - 1].outcome != Aborted)
      && last.outcome == Apply(After(count, before), last.op).1
  }

  lemma AtomicOneMore(count: nat, h: seq<Event>, e: Event)
    requires Atomic(count, h) && (h != [] ==> h[|h| - 1].outcome != Aborted)
    requires e.outcome == Apply(After(count, h), e.op).1
    ensures Atomic(count, h + [e]) && After(count, h + [e]) == Apply(After(count, h), e.op).0
  {
    assert (h + [e])[..|h|] == h;
  }

  lemma {:induction false} AtomicPrefix(count: nat, h: seq<Event>, k: nat)
    requires Atomic(count, h) && k <= |h|
    ensures Atomic(count, h[..k])
    decreases |h|
  {
    if k < |h| {
      AtomicPrefix(count, h[..|h| - 1], k);
      assert h[..|h| - 1][..k] == h[..k];
    } else {
      assert h[..k] == h;
    }
  }

  // ---------- Saturation ----------

  lemma {:induction false} NeverWraps(count: nat, h: seq<Event>)
    requires count <= 0xFFFF_FFFF
    ensures After(count, h) <= 0xFFFF_FFFF
  {
    if h != [] {
      NeverWraps(count, h[..|h| - 1]);
    }
  }

  /** A count that once came to the maximum stays there, and nothing that follows returns one or aborts. */
  lemma {:induction false} SaturationSticks(count: nat, h: seq<Event>, k: nat)
    requires Atomic(count, h) && k <= |h| && After(count, h[..k]) == 0xFFFF_FFFF
    ensures After(count, h) == 0xFFFF_FFFF
    ensures forall i :: k <= i < |h| ==> h[i].outcome == Returned(false)
    decreases |h|
  {
    if k == |h| {
      assert h[..k] == h;
    } else {
      var before := h[..|h| - 1];
      assert before[..k] == h[..k];
      SaturationSticks(count, before, k);
      assert forall i :: k <= i < |before| ==> h[i] == before[i];
    }
  }

  // ---------- Holders ----------

  /** How many references are held after the operations, each increment making one and each decrement dropping one. */
  function Holders(start: nat, h: seq<Event>): int {
    if h == [] then start
    else Holders(start, h[..|h| - 1]) + if h[|h| - 1].op.Increment? then 1 else -1
  }

  /** Only who holds a reference increments or decrements. */
  predicate ByHolders(start: nat, h: seq<Event>) {
    h != [] ==> ByHolders(start, h[..|h| - 1]) && Holders(start, h[..|h| - 1]) > 0
  }

  predicate Unsaturated(start: nat, h: seq<Event>) {
    After(start, h) < REFCOUNT_MAX && (h != [] ==> Unsaturated(start, h[..|h| - 1]))
  }

  /** The count is the number of references held. */
  lemma {:induction false} CountsHolders(start: nat, h: seq<Event>)
    requires ByHolders(start, h) && Unsaturated(start, h)
    ensures After(start, h) == Holders(start, h)
  {
    if h != [] {
      CountsHolders(start, h[..|h| - 1]);
    }
  }

  /** One decrement returns one if all references were dropped, none if not, and it is the last operation. None
      aborts. */
  lemma {:induction false} LastDropTellsZero(start: nat, h: seq<Event>)
    requires Atomic(start, h) && ByHolders(start, h) && Unsaturated(start, h)
    ensures forall i :: 0 <= i < |h| ==>
              (h[i].outcome == Returned(true) <==> i == |h| - 1 && Holders(start, h) == 0)
    ensures forall i :: 0 <= i < |h| ==> h[i].outcome != Aborted
  {
    if h != [] {
      var before := h[..|h| - 1];
      LastDropTellsZero(start, before);
      CountsHolders(start, before);
      assert Holders(start, before) > 0;
      assert forall i :: 0 <= i < |before| ==> h[i] == before[i];
    }
  }

  /** Past the maximum the rule fails the safe way: however many references are dropped, none of the drops returns
      one, and the object is never freed. */
  lemma SaturatedIsNeverFreed(start: nat, h: seq<Event>, k: nat)
    requires Atomic(start, h) && ByHolders(start, h) && k <= |h| && Unsaturated(start, h[..k])
    requires k < |h| && After(start, h[..k + 1]) == REFCOUNT_MAX
    ensures forall i :: 0 <= i < |h| ==> h[i].outcome == Returned(false)
  {
    SaturationSticks(start, h, k + 1);
    AtomicPrefix(start, h, k);
    ByHoldersPrefix(start, h, k);
    ByHoldersPrefix(start, h, k + 1);
    LastDropTellsZero(start, h[..k]);
    assert h[..k + 1][..k] == h[..k];
    assert forall i :: 0 <= i < k ==> h[i] == h[..k][i];
    AtomicPrefix(start, h, k + 1);
    assert h[..k + 1][k] == h[k];
  }

  lemma {:induction false} ByHoldersPrefix(start: nat, h: seq<Event>, k: nat)
    requires ByHolders(start, h) && k <= |h|
    ensures ByHolders(start, h[..k])
    decreases |h|
  {
    if k < |h| {
      ByHoldersPrefix(start, h[..|h| - 1], k);
      assert h[..|h| - 1][..k] == h[..k];
    } else {
      assert h[..k] == h;
    }
  }
}

/** The numbers of the records that a DTLS sender seals, and what a receiver's replay window makes of them. */
module DtlsNumbers {
  import opened DtlsCutting
  import opened DtlsFlight
  import Bits
  import DtlsReplay

  /** The numbers of the records of an epoch, in the order they were sealed. */
  function NumbersOf(rs: seq<SealedRecord>, epoch: nat): seq<nat> {
    if rs == [] then []
    else
      var last := rs[|rs| - 1];
      NumbersOf(rs[..|rs| - 1], epoch) + if last.emission.epoch == epoch then [last.number] else []
  }

  function AllRecords(ds: seq<Datagram>): seq<SealedRecord> {
    if ds == [] then [] else AllRecords(ds[..|ds| - 1]) + ds[|ds| - 1]
  }

  /** All records that a sending sealed: those it wrote, those of a datagram that broke off, and those of a datagram
      that the transport did not take. */
  function AllSealed(s: Sending): seq<SealedRecord> {
    AllRecords(s.sent) + s.lost + s.refused
  }

  /** The cipher that seals for an epoch. */
  function CipherOf(w: WriteState, epoch: nat): Channel {
    if epoch + 1 == w.epoch then w.last else w.current
  }

  predicate Writable(w: WriteState, epoch: nat) {
    epoch == w.epoch || epoch + 1 == w.epoch
  }

  /** From `start` on each record has the next number, and none the very last; `next` is the one that follows. */
  predicate CountsOn(start: nat, ns: seq<nat>, next: nat) {
    && next == start + |ns| < SEQUENCES
    && forall k :: 0 <= k < |ns| ==> ns[k] == start + k && ns[k] + 1 < SEQUENCES
  }

  /** The same, except that an attempt to use the very last number has made the count start again. */
  predicate CountedOn(start: nat, ns: seq<nat>, next: nat) {
    CountsOn(start, ns, next) || (next == 0 && CountsOn(start, ns, SEQUENCES - 1))
  }

  lemma OneMoreNumber(rs: seq<SealedRecord>, r: SealedRecord, epoch: nat)
    ensures NumbersOf(rs + [r], epoch) == NumbersOf(rs, epoch) + if r.emission.epoch == epoch then [r.number] else []
  {
    assert (rs + [r])[..|rs|] == rs;
  }

  lemma OneMoreDatagramSealed(ds: seq<Datagram>, d: Datagram)
    ensures AllRecords(ds + [d]) == AllRecords(ds) + d
  {
    assert (ds + [d])[..|ds|] == ds;
  }

  /** What one attempt to seal does to the numbers of an epoch. */
  lemma TryCounts(msgs: seq<FlightMessage>, p: Position, w: WriteState, room: nat, a: SealAnswer, epoch: nat, t: Try)
    requires At(msgs, p) && p.written < |msgs| && StateOk(w) && Writable(w, epoch) && t == TrySeal(msgs, p, w, room, a)
    ensures t.Seals? ==>
              && t.w.epoch == w.epoch
              && (if t.record.emission.epoch == epoch
                  then t.record.number == CipherOf(w, epoch).sequence && t.record.number + 1 < SEQUENCES
                       && CipherOf(t.w, epoch).sequence == CipherOf(w, epoch).sequence + 1
                  else CipherOf(t.w, epoch).sequence == CipherOf(w, epoch).sequence)
    ensures t.Fails? ==>
              var before, after := CipherOf(w, epoch).sequence, CipherOf(t.w, epoch).sequence;
              after == before || (after == 0 && before == SEQUENCES - 1)
  {
  }

  predicate Counts(w: WriteState, epoch: nat, start: nat, rs: seq<SealedRecord>) {
    CountsOn(start, NumbersOf(rs, epoch), CipherOf(w, epoch).sequence)
  }

  predicate Counted(w: WriteState, epoch: nat, start: nat, rs: seq<SealedRecord>) {
    CountedOn(start, NumbersOf(rs, epoch), CipherOf(w, epoch).sequence)
  }

  lemma SealCounts(msgs: seq<FlightMessage>, p: Position, w: WriteState, room: nat, a: SealAnswer, epoch: nat, t: Try,
                   start: nat, before: seq<SealedRecord>, packet: Datagram)
    requires At(msgs, p) && p.written < |msgs| && StateOk(w) && Writable(w, epoch) && t == TrySeal(msgs, p, w, room, a)
    requires Counts(w, epoch, start, before + packet)
    ensures t.Seals? ==> t.w.epoch == w.epoch && Counts(t.w, epoch, start, before + (packet + [t.record]))
    ensures t.Fails? ==> t.w.epoch == w.epoch && Counted(t.w, epoch, start, before + packet)
  {
    TryCounts(msgs, p, w, room, a, epoch, t);
    if t.Seals? {
      OneMoreNumber(before + packet, t.record, epoch);
      assert before + packet + [t.record] == before + (packet + [t.record]);
    }
  }

  ghost predicate PackCounts(w: WriteState, epoch: nat, start: nat, before: seq<SealedRecord>, r: Packing) {
    && r.w.epoch == w.epoch && Counted(r.w, epoch, start, before + r.packet)
    && (!r.end.Broken? ==> Counts(r.w, epoch, start, before + r.packet))
  }

  lemma {:induction false} PackIsCounted(msgs: seq<FlightMessage>, p: Position, w: WriteState, seals: seq<SealAnswer>,
                                         room: nat, packet: Datagram, r: Packing, epoch: nat, start: nat,
                                         before: seq<SealedRecord>)
    requires At(msgs, p) && StateOk(w) && r == Pack(msgs, p, w, seals, room, packet) && Writable(w, epoch)
    requires Counts(w, epoch, start, before + packet)
    ensures PackCounts(w, epoch, start, before, r)
    decreases |msgs| - p.written
  {
    if p.written < |msgs| {
      var t := TrySeal(msgs, p, w, room, First(seals));
      PackRound(msgs, p, w, seals, room, packet, t);
      SealCounts(msgs, p, w, room, First(seals), epoch, t, start, before, packet);
      if t.Seals? {
        var q, more := After(msgs, p, t.record.emission), packet + [t.record];
        if q.written > p.written {
          PackIsCounted(msgs, q, t.w, Rest(seals), room - t.record.length, more, r, epoch, start, before);
        }
      }
    }
  }

  lemma {:induction false} SendCounts(msgs: seq<FlightMessage>, p: Position, w: WriteState, seals: seq<SealAnswer>,
                                      writes: seq<int>, flushed: bool, mtu: nat, sent: seq<Datagram>, s: Sending,
                                      epoch: nat, start: nat)
    requires At(msgs, p) && StateOk(w) && s == Send(msgs, p, w, seals, writes, flushed, mtu, sent)
    requires Writable(w, epoch) && Counts(w, epoch, start, AllRecords(sent))
    ensures s.w.epoch == w.epoch && Counted(s.w, epoch, start, AllSealed(s))
    decreases Work(msgs, p)
  {
    NothingMore(AllRecords(sent), []);
    if p.written < |msgs| {
      var r := Pack(msgs, p, w, seals, mtu, []);
      SendRound(msgs, p, w, seals, writes, flushed, mtu, sent, r, s);
      PackIsCounted(msgs, p, w, seals, mtu, [], r, epoch, start, AllRecords(sent));
      NothingMore(AllRecords(sent), r.packet);
      if r.end.Filled? && !(writes != [] && writes[0] <= 0) {
        OneMoreDatagramSealed(sent, r.packet);
        SendCounts(msgs, r.next, r.w, r.seals, Rest(writes), flushed, mtu, sent + [r.packet], s, epoch, start);
      }
    }
  }

  lemma NothingMore(rs: seq<SealedRecord>, d: Datagram)
    ensures rs + [] == rs && rs + d + [] == rs + d && rs + [] + d == rs + d
  {
  }

  /** A sending gives the records it seals for an epoch the next numbers of that epoch, one after the other, those
      included that it loses or that are refused. */
  lemma SendingCountsOn(msgs: seq<FlightMessage>, p: Position, w: WriteState, seals: seq<SealAnswer>, writes: seq<int>,
                        flushed: bool, mtu: nat, epoch: nat)
    requires At(msgs, p) && StateOk(w) && Writable(w, epoch)
    ensures var s := Send(msgs, p, w, seals, writes, flushed, mtu, []);
            && s.w.epoch == w.epoch
            && CountedOn(CipherOf(w, epoch).sequence, NumbersOf(AllSealed(s), epoch), CipherOf(s.w, epoch).sequence)
  {
    SendCounts(msgs, p, w, seals, writes, flushed, mtu, [], Send(msgs, p, w, seals, writes, flushed, mtu, []), epoch,
               CipherOf(w, epoch).sequence);
  }

  // ---------- The life of an epoch ----------

  /** How many records an epoch has numbers for: the very last number is never used. */
  const CYCLE: int := SEQUENCES - 1

  /** All numbers sealed for an epoch so far, and the number that is next: the count goes round and round. */
  ghost predicate InCycle(ns: seq<nat>, next: nat) {
    && next <= CYCLE && next % CYCLE == |ns| % CYCLE
    && forall k :: 0 <= k < |ns| ==> ns[k] == k % CYCLE
  }

  lemma CycleParts(n: nat, next: nat) returns (q: nat)
    requires next < CYCLE && next % CYCLE == n % CYCLE
    ensures n == q * CYCLE + next
  {
    q := n / CYCLE;
  }

  lemma CyclePlace(q: nat, r: nat)
    requires r < CYCLE
    ensures (q * CYCLE + r) % CYCLE == r
  {
  }

  /** The k-th record sealed for an epoch has number k, modulo the cycle, over the whole life of the epoch. */
  lemma CycleGoesOn(ns: seq<nat>, start: nat, more: seq<nat>, next: nat)
    requires InCycle(ns, start) && CountedOn(start, more, next)
    ensures InCycle(ns + more, next)
  {
    if start < CYCLE {
      var q := CycleParts(|ns|, start);
      forall k | 0 <= k < |more|
        ensures more[k] == (|ns| + k) % CYCLE
      {
        assert more[k] == start + k;
        CyclePlace(q, start + k);
      }
      if start + |more| < CYCLE {
        CyclePlace(q, start + |more|);
      } else {
        assert more != [] ==> more[|more| - 1] + 1 < SEQUENCES;
        CyclePlace(q + 1, 0);
      }
    }
  }

  /** So after a sending. */
  lemma SendingGoesOn(msgs: seq<FlightMessage>, p: Position, w: WriteState, seals: seq<SealAnswer>, writes: seq<int>,
                      flushed: bool, mtu: nat, epoch: nat, s: Sending, ns: seq<nat>)
    requires At(msgs, p) && StateOk(w) && Writable(w, epoch)
    requires s == Send(msgs, p, w, seals, writes, flushed, mtu, []) && InCycle(ns, CipherOf(w, epoch).sequence)
    ensures s.w.epoch == w.epoch && InCycle(ns + NumbersOf(AllSealed(s), epoch), CipherOf(s.w, epoch).sequence)
  {
    SendingCountsOn(msgs, p, w, seals, writes, flushed, mtu, epoch);
    CycleGoesOn(ns, CipherOf(w, epoch).sequence, NumbersOf(AllSealed(s), epoch), CipherOf(s.w, epoch).sequence);
  }

  ghost predicate Distinct(ns: seq<nat>) {
    forall i, j :: 0 <= i < j < |ns| ==> ns[i] != ns[j]
  }

  ghost predicate Increasing(ns: seq<nat>) {
    forall i, j :: 0 <= i < j < |ns| ==> ns[i] < ns[j]
  }

  /** The numbers of an epoch differ, and then they increase, exactly as long as it has at most 2^48 - 1 records. */
  lemma NumbersDifferExactly(ns: seq<nat>, next: nat)
    requires InCycle(ns, next)
    ensures Distinct(ns) <==> |ns| <= 0xFFFF_FFFF_FFFF
    ensures |ns| <= 0xFFFF_FFFF_FFFF ==> Increasing(ns) && forall k :: 0 <= k < |ns| ==> ns[k] == k
  {
    if |ns| > CYCLE {
      CyclePlace(1, 0);
      assert ns[0] == 0 % CYCLE == 0 && ns[CYCLE] == CYCLE % CYCLE == 0;
    } else {
      forall k | 0 <= k < |ns|
        ensures ns[k] == k
      {
        CyclePlace(0, k);
      }
    }
  }

  // ---------- The replay window of the receiver ----------

  /** A record as the receiver's record layer sees it: the number holds the epoch in its top 16 bits. */
  function Seen(epoch: nat, n: nat): DtlsReplay.Event {
    DtlsReplay.Arrive(epoch * 0x1_0000_0000_0000 + n, true, 0)
  }

  function SeenAll(epoch: nat, ns: seq<nat>): (es: seq<DtlsReplay.Event>)
    ensures |es| == |ns| && forall k :: 0 <= k < |es| ==> es[k] == Seen(epoch, ns[k])
  {
    seq(|ns|, k requires 0 <= k < |ns| => Seen(epoch, ns[k]))
  }

  function NumbersSeen(epoch: nat, ns: seq<nat>): (r: seq<nat>)
    ensures |r| == |ns|
  {
    seq(|ns|, k requires 0 <= k < |ns| => Seen(epoch, ns[k]).number)
  }

  lemma EpochIs(epoch: nat, n: nat)
    requires n < SEQUENCES
    ensures DtlsReplay.Epoch(epoch * 0x1_0000_0000_0000 + n) == epoch
  {
  }

  /** The window has seen nothing of the epoch from `n` on. */
  ghost predicate ReadyFor(r: DtlsReplay.Reader, epoch: nat, n: nat) {
    && r.epoch == epoch
    && (r.bitmap.maxSeqNum < epoch * 0x1_0000_0000_0000 + n || r.bitmap == DtlsReplay.Bitmap(0, 0))
  }

  lemma NextIsAccepted(r: DtlsReplay.Reader, epoch: nat, n: nat)
    requires ReadyFor(r, epoch, n) && n < SEQUENCES
    ensures DtlsReplay.Accepts(r, Seen(epoch, n)) && ReadyFor(DtlsReplay.Step(r, Seen(epoch, n)), epoch, n + 1)
  {
    EpochIs(epoch, n);
    Bits.NoBits(0, 0);
    if r.bitmap == DtlsReplay.Bitmap(0, 0) && epoch * 0x1_0000_0000_0000 + n == 0 {
      Bits.MaskTestsBit(0, 0);
    }
  }

  /** After `es` the records with the numbers `ns` were seen, and each was accepted. */
  ghost predicate TookAll(es: seq<DtlsReplay.Event>, epoch: nat, ns: seq<nat>, all: seq<DtlsReplay.Event>) {
    && DtlsReplay.Accepted(all) == DtlsReplay.Accepted(es) + NumbersSeen(epoch, ns)
    && ReadyFor(DtlsReplay.Run(all), epoch, if ns == [] then 0 else ns[|ns| - 1] + 1)
  }

  lemma TookNone(es: seq<DtlsReplay.Event>, epoch: nat)
    requires DtlsReplay.Run(es) == DtlsReplay.Reader(epoch, DtlsReplay.Bitmap(0, 0))
    ensures TookAll(es, epoch, [], es)
  {
    assert DtlsReplay.Accepted(es) + NumbersSeen(epoch, []) == DtlsReplay.Accepted(es);
  }

  lemma TakesOneMore(es: seq<DtlsReplay.Event>, epoch: nat, ns: seq<nat>, n: nat, all: seq<DtlsReplay.Event>)
    requires TookAll(es, epoch, ns, all) && n < SEQUENCES && (ns != [] ==> ns[|ns| - 1] < n)
    ensures TookAll(es, epoch, ns + [n], all + [Seen(epoch, n)])
  {
    assert (all + [Seen(epoch, n)])[..|all|] == all;
    NextIsAccepted(DtlsReplay.Run(all), epoch, n);
    assert NumbersSeen(epoch, ns + [n]) == NumbersSeen(epoch, ns) + [Seen(epoch, n).number];
  }

  lemma SeenInTurn(es: seq<DtlsReplay.Event>, epoch: nat, ns: seq<nat>, n: nat)
    ensures es + SeenAll(epoch, ns + [n]) == es + SeenAll(epoch, ns) + [Seen(epoch, n)]
    ensures es + SeenAll(epoch, []) == es
  {
  }

  lemma {:induction false} IncreasingIsTaken(es: seq<DtlsReplay.Event>, epoch: nat, ns: seq<nat>,
                                             all: seq<DtlsReplay.Event>)
    requires DtlsReplay.Run(es) == DtlsReplay.Reader(epoch, DtlsReplay.Bitmap(0, 0))
    requires Increasing(ns) && (forall k :: 0 <= k < |ns| ==> ns[k] < SEQUENCES) && all == es + SeenAll(epoch, ns)
    ensures TookAll(es, epoch, ns, all)
    decreases |ns|
  {
    if ns == [] {
      SeenInTurn(es, epoch, [], 0);
      TookNone(es, epoch);
    } else {
      var fewer, n := ns[..|ns| - 1], ns[|ns| - 1];
      var before := es + SeenAll(epoch, fewer);
      assert ns == fewer + [n];
      SeenInTurn(es, epoch, fewer, n);
      IncreasingIsTaken(es, epoch, fewer, before);
      TakesOneMore(es, epoch, fewer, n, before);
    }
  }

  /** Records whose numbers increase, arriving in that order, are all accepted, each once, by a receiver that has just
      come to their epoch, whichever of them are missing. */
  lemma IncreasingIsAccepted(es: seq<DtlsReplay.Event>, epoch: nat, ns: seq<nat>)
    requires DtlsReplay.Run(es) == DtlsReplay.Reader(epoch, DtlsReplay.Bitmap(0, 0))
    requires Increasing(ns) && forall k :: 0 <= k < |ns| ==> ns[k] < SEQUENCES
    ensures DtlsReplay.Accepted(es + SeenAll(epoch, ns)) == DtlsReplay.Accepted(es) + NumbersSeen(epoch, ns)
  {
    IncreasingIsTaken(es, epoch, ns, es + SeenAll(epoch, ns));
  }

  /** So with at most 2^48 - 1 records each record of an epoch is accepted, once, when they arrive in order. */
  lemma EachIsAccepted(es: seq<DtlsReplay.Event>, epoch: nat, ns: seq<nat>, next: nat)
    requires DtlsReplay.Run(es) == DtlsReplay.Reader(epoch, DtlsReplay.Bitmap(0, 0))
    requires InCycle(ns, next) && |ns| <= 0xFFFF_FFFF_FFFF
    ensures DtlsReplay.Accepted(es + SeenAll(epoch, ns)) == DtlsReplay.Accepted(es) + NumbersSeen(epoch, ns)
    ensures Distinct(NumbersSeen(epoch, ns))
  {
    NumbersDifferExactly(ns, next);
    IncreasingIsAccepted(es, epoch, ns);
  }
}

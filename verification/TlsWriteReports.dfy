/** What a write reports, how it cuts its data into records, and which retries it refuses. */
module TlsWriteReports {
  import opened Bytes
  import opened TlsWrite
  import opened TlsWriteOnce

  // ---------- The cuts ----------

  function Least(a: int, b: int): int {
    if a < b then a else b
  }

  /** Where the record that begins at `from` ends: at the end of the data, after the largest fragment, or, for early
      data, where the ticket's allowance ends. */
  function CutEnd(data: seq<byte>, from: nat, fragment: nat, allowance: Option<int>): (to: nat)
    requires from <= |data|
    ensures from <= to <= |data|
  {
    var to := Least(|data|, from + fragment);
    if allowance.Some? then (if allowance.value < from then from else Least(to, allowance.value)) else to
  }

  /** The records are cut from the data one after the other, each as large as it may be. */
  predicate CutFrom(records: seq<Entry>, data: seq<byte>, from: nat, fragment: nat, allowance: Option<int>) {
    records == [] ||
    (from < |data| &&
     var to := CutEnd(data, from, fragment, allowance);
     && from < to <= from + 16384 && records[0] == Sealed(ApplicationData, data[from..to], allowance.Some?)
     && CutFrom(records[1..], data, to, fragment, allowance))
  }

  /** Up to which of its bytes the ticket lets a call send early data. */
  function Allowance(s: Session, c: Connection): Option<int> {
    if c.earlyOpen then Some(c.wnum + s.ticketMaxEarlyData - c.earlyWritten) else None
  }

  ghost predicate LogCut(before: seq<Entry>, after: seq<Entry>, data: seq<byte>, from: nat, fragment: nat,
                         allowance: Option<int>)
  {
    before <= after && CutFrom(after[|before|..], data, from, fragment, allowance)
  }

  /** In the loop: `end` is where the allowance ends, counted from the start of the data. */
  ghost predicate Within(s: Session, c: Connection, call: Call, tot: nat, end: Option<int>) {
    if call.early then end == Some(tot + s.ticketMaxEarlyData - c.earlyWritten) else end.None?
  }

  lemma ChunkIsCut(s: Session, c: Connection, call: Call, tot: nat, end: Option<int>)
    requires tot <= |call.data| && Within(s, c, call, tot, end)
    ensures Chunk(s, c, call, tot) == call.data[tot..CutEnd(call.data, tot, call.modes.maxSendFragment, end)]
  {
  }

  /** What one record of the loop comes to. */
  ghost predicate Cuts(c: Connection, call: Call, tot: nat, end: Option<int>, after: Connection, ret: int) {
    var to := if tot <= |call.data| then CutEnd(call.data, tot, call.modes.maxSendFragment, end) else tot;
    if c.pending.Some? then after.log == c.log && (ret > 0 ==> ret == PendingData(c) && after.pending.None?)
    else
      && (after.log == c.log
          || (tot < to <= tot + 16384
              && after.log == c.log + [Sealed(ApplicationData, call.data[tot..to], end.Some?)]))
      && (ret > 0 ==> after.log != c.log && ret == to - tot && after.pending.None?)
  }

  lemma DoWriteCuts(s: Session, c: Connection, call: Call, tot: nat, end: Option<int>, chunk: seq<byte>, bio: seq<int>,
                    written: (Connection, int, bool))
    requires tot <= |call.data| && call.early == end.Some?
    requires chunk == call.data[tot..CutEnd(call.data, tot, call.modes.maxSendFragment, end)]
    requires written == DoWrite(s, c, call.modes, ApplicationData, call.address + tot, chunk, call.early, bio)
    ensures Cuts(c, call, tot, end, written.0, written.1)
  {
  }

  lemma RoundCuts(s: Session, c: Connection, call: Call, tot: nat, end: Option<int>, flushes: seq<seq<int>>)
    requires tot <= |call.data| && Within(s, c, call, tot, end)
    ensures var (after, ret, _) := WriteChunk(s, c, call, tot, NextFlush(flushes));
            Cuts(c, call, tot, end, after, ret)
  {
    var chunk := Chunk(s, c, call, tot);
    ChunkIsCut(s, c, call, tot, end);
    var bio := NextFlush(flushes);
    var written := DoWrite(s, c, call.modes, ApplicationData, call.address + tot, chunk, call.early, bio);
    DoWriteCuts(s, c, call, tot, end, chunk, bio, written);
    ChunkIsWritten(s, c, call, tot, chunk, bio, written);
  }

  /** Where the next new record begins: behind the one that is pending. */
  function NewFrom(c: Connection, tot: nat): nat {
    tot + PendingData(c)
  }

  lemma CutsMore(before: seq<Entry>, middle: seq<Entry>, after: seq<Entry>, data: seq<byte>, from: nat, to: nat,
                 fragment: nat, end: Option<int>)
    requires LogCut(middle, after, data, to, fragment, end)
    requires if middle == before then to == from
             else from < |data| && to == CutEnd(data, from, fragment, end) && from < to <= from + 16384
                  && middle == before + [Sealed(ApplicationData, data[from..to], end.Some?)]
    ensures LogCut(before, after, data, from, fragment, end)
  {
    if middle != before {
      assert after[|before|..][0] == middle[|before|];
      assert after[|before|..][1..] == after[|middle|..];
    }
  }

  lemma LogUncut(log: seq<Entry>, data: seq<byte>, from: nat, fragment: nat, end: Option<int>)
    ensures LogCut(log, log, data, from, fragment, end)
  {
    assert log[|log|..] == [];
  }

  // ---------- Reports ----------

  /** What one round comes to: it ends the call, or the loop goes on behind the record. */
  ghost predicate RoundReports(s: Session, c: Connection, call: Call, tot: nat, end: Option<int>, r: Round)
    requires tot <= |call.data|
  {
    match r
    case Stop(o) =>
      && Cuts(c, call, tot, end, o.c, o.ret - tot) && |o.c.log| <= |c.log| + 1 && (o.ret > 0 ==> o.ret > tot)
      && (o.ret > 0 && !call.modes.partialWrite ==> o.ret == |call.data|)
    case Again(next, more, _) =>
      && !call.modes.partialWrite && tot < more <= |call.data|
      && Cuts(c, call, tot, end, next, more - tot) && Within(s, next, call, more, end)
  }

  lemma AfterWriteReports(s: Session, c: Connection, call: Call, tot: nat, end: Option<int>,
                          written: (Connection, int, bool), flushes: seq<seq<int>>)
    requires tot <= |call.data| && written.1 <= |call.data| - tot && Within(s, c, call, tot, end)
    requires Cuts(c, call, tot, end, written.0, written.1) && written.0.earlyWritten == c.earlyWritten
    ensures RoundReports(s, c, call, tot, end, AfterWrite(call, tot, written, flushes))
  {
  }

  lemma RoundIsReported(s: Session, c: Connection, call: Call, tot: nat, end: Option<int>, flushes: seq<seq<int>>)
    requires tot <= |call.data| && Within(s, c, call, tot, end)
    ensures RoundReports(s, c, call, tot, end, WriteRound(s, c, call, tot, flushes))
  {
    var written := WriteChunk(s, c, call, tot, NextFlush(flushes));
    RoundCuts(s, c, call, tot, end, flushes);
    AfterWriteReports(s, c, call, tot, end, written, flushes);
  }

  /** One record more or less: what a call with partial writes reports. */
  ghost predicate ReportsOneRecord(c: Connection, data: seq<byte>, from: nat, fragment: nat, end: Option<int>,
                                   after: Connection, ret: int)
  {
    if c.pending.Some? then after.log == c.log && ret == from + PendingData(c)
    else
      && from < ret <= |data| && ret == CutEnd(data, from, fragment, end)
      && after.log == c.log + [Sealed(ApplicationData, data[from..ret], end.Some?)]
  }

  ghost predicate LoopReports(c: Connection, call: Call, tot: nat, end: Option<int>, o: Outcome) {
    && LogCut(c.log, o.c.log, call.data, NewFrom(c, tot), call.modes.maxSendFragment, end)
    && (o.ret > 0 ==> o.c.pending.None?)
    && (o.ret > 0 && !call.modes.partialWrite ==> o.ret == |call.data|)
    && (o.ret > 0 && call.modes.partialWrite ==>
          ReportsOneRecord(c, call.data, tot, call.modes.maxSendFragment, end, o.c, o.ret))
    && (call.modes.partialWrite ==> |o.c.log| <= |c.log| + 1)
  }

  lemma StopReports(s: Session, c: Connection, call: Call, tot: nat, end: Option<int>, o: Outcome)
    requires tot <= |call.data| && RoundReports(s, c, call, tot, end, Stop(o))
    ensures LoopReports(c, call, tot, end, o)
  {
    var from := NewFrom(c, tot);
    var to := CutEnd(call.data, tot, call.modes.maxSendFragment, end);
    if o.c.log == c.log {
      LogUncut(c.log, call.data, from, call.modes.maxSendFragment, end);
    } else {
      LogUncut(o.c.log, call.data, to, call.modes.maxSendFragment, end);
      CutsMore(c.log, o.c.log, o.c.log, call.data, from, to, call.modes.maxSendFragment, end);
    }
  }

  lemma AgainReports(s: Session, c: Connection, call: Call, tot: nat, end: Option<int>, r: Round, o: Outcome)
    requires tot <= |call.data| && r.Again? && RoundReports(s, c, call, tot, end, r)
    requires LoopReports(r.c, call, r.tot, end, o)
    ensures LoopReports(c, call, tot, end, o)
  {
    CutsMore(c.log, r.c.log, o.c.log, call.data, NewFrom(c, tot), r.tot, call.modes.maxSendFragment, end);
  }

  lemma {:induction false} LoopIsReported(s: Session, c: Connection, call: Call, tot: nat, end: Option<int>,
                                          flushes: seq<seq<int>>)
    requires tot <= |call.data| && Within(s, c, call, tot, end)
    ensures LoopReports(c, call, tot, end, WriteFrom(s, c, call, tot, flushes))
    decreases |call.data| - tot
  {
    var r := WriteRound(s, c, call, tot, flushes);
    RoundIsReported(s, c, call, tot, end, flushes);
    LoopGoesOn(s, c, call, tot, flushes, r);
    if r.Stop? {
      StopReports(s, c, call, tot, end, r.outcome);
    } else {
      LoopIsReported(s, r.c, call, r.tot, end, r.flushes);
      AgainReports(s, c, call, tot, end, r, WriteFrom(s, r.c, call, r.tot, r.flushes));
    }
  }

  /** What a call seals is cut from its data behind the pending record, each record as large as the fragment size and
      the ticket allow. If it succeeds nothing is pending; without partial writes all the data is reported then, and
      with them just what was written before and one record, which is the pending one or a new one. */
  lemma CallReports(s: Session, c: Connection, m: Modes, address: int, data: seq<byte>, flushes: seq<seq<int>>)
    requires !c.shutdown && c.wnum <= |data|
    ensures var o := WriteAppData(s, c, m, address, data, flushes);
            && LogCut(c.log, o.c.log, data, NewFrom(c, c.wnum), m.maxSendFragment, Allowance(s, c))
            && (o.ret > 0 ==> o.c.pending.None?)
            && (o.ret > 0 && !m.partialWrite ==> o.ret == |data|)
            && (o.ret > 0 && m.partialWrite ==>
                  ReportsOneRecord(c, data, c.wnum, m.maxSendFragment, Allowance(s, c), o.c, o.ret))
            && (m.partialWrite ==> |o.c.log| <= |c.log| + 1)
  {
    var call := Call(m, address, data, c.earlyOpen);
    LoopIsReported(s, c.(wnum := 0), call, c.wnum, Allowance(s, c), flushes);
  }

  // ---------- Refusals ----------

  /** The next record of a call is of the kind of the pending one, not shorter, and from the same place unless buffers
      may move. */
  predicate Matches(p: Pending, m: Modes, address: int, n: nat) {
    p.kind.ApplicationData? && p.total <= n && (m.movingBuffer || p.address == address)
  }

  /** The ticket's allowance is used up, and it matters. */
  predicate UsedUp(s: Session, c: Connection, m: Modes) {
    c.earlyOpen && c.earlyWritten == s.ticketMaxEarlyData && m.maxSendFragment > 0
  }

  /** The first round of a retry. */
  lemma RetryRound(s: Session, c: Connection, call: Call, tot: nat, flushes: seq<seq<int>>, chunk: seq<byte>, r: Round)
    requires tot <= |call.data| && c.wnum == 0 && c.pending.Some? && chunk == Chunk(s, c, call, tot)
    requires !(LimitedByTicket(s, c, call) && s.ticketMaxEarlyData == c.earlyWritten)
    requires r == WriteRound(s, c, call, tot, flushes)
    ensures if !Matches(c.pending.value, call.modes, call.address + tot, |chunk|) then
              r == Stop(Outcome(c.(wnum := tot), -1, false))
            else
              var (after, ret) := Flush(c, NextFlush(flushes));
              if ret <= 0 then r == Stop(Outcome(after.(wnum := tot), ret, false))
              else if r.Stop? then r.outcome.ret > 0 else r.tot == tot + c.pending.value.total
  {
    var bio := NextFlush(flushes);
    var written := DoWrite(s, c, call.modes, ApplicationData, call.address + tot, chunk, call.early, bio);
    ChunkIsWritten(s, c, call, tot, chunk, bio, written);
    RetryFlushes(s, c, call.modes, call.address + tot, chunk, call.early, bio, written);
  }

  lemma RetryFlushes(s: Session, c: Connection, m: Modes, address: int, data: seq<byte>, early: bool, bio: seq<int>,
                     written: (Connection, int, bool))
    requires c.pending.Some? && written == DoWrite(s, c, m, ApplicationData, address, data, early, bio)
    ensures if !Matches(c.pending.value, m, address, |data|) then written == (c, -1, true)
            else
              var (after, ret) := Flush(c, bio);
              if ret <= 0 then written == (after, ret, true)
              else written == (after.(pending := None), c.pending.value.total, true)
  {
  }

  lemma RetryEnds(s: Session, c: Connection, call: Call, tot: nat, flushes: seq<seq<int>>, r: Round)
    requires tot <= |call.data| && r == WriteRound(s, c, call, tot, flushes)
    ensures var o := WriteFrom(s, c, call, tot, flushes);
            if r.Stop? then o == r.outcome else o.ret > 0 || o.c.wnum >= r.tot
  {
    LoopGoesOn(s, c, call, tot, flushes, r);
    if r.Again? {
      LoopKeepsCount(s, r.c, call, r.tot, r.flushes);
    }
  }

  lemma RetryOfLoop(s: Session, c: Connection, call: Call, tot: nat, flushes: seq<seq<int>>, chunk: seq<byte>)
    requires tot <= |call.data| && c.wnum == 0 && c.pending.Some? && chunk == Chunk(s, c, call, tot)
    requires !(LimitedByTicket(s, c, call) && s.ticketMaxEarlyData == c.earlyWritten)
    ensures var o := WriteFrom(s, c, call, tot, flushes);
            if !Matches(c.pending.value, call.modes, call.address + tot, |chunk|) then
              o == Outcome(c.(wnum := tot), -1, false)
            else
              var (after, ret) := Flush(c, NextFlush(flushes));
              if ret <= 0 then o == Outcome(after.(wnum := tot), ret, false)
              else o.ret > 0 || o.c.wnum >= tot + c.pending.value.total
  {
    var r := WriteRound(s, c, call, tot, flushes);
    RetryRound(s, c, call, tot, flushes, chunk, r);
    RetryEnds(s, c, call, tot, flushes, r);
  }

  /** A retry that does not match the pending record changes nothing. One that does flushes that record first: if that
      does not get through, the call returns what the transport answered, and otherwise the record counts. */
  lemma RetryMustMatch(s: Session, c: Connection, m: Modes, address: int, data: seq<byte>, flushes: seq<seq<int>>)
    requires !c.shutdown && c.wnum <= |data| && c.pending.Some? && !UsedUp(s, c, m)
    ensures var o := WriteAppData(s, c, m, address, data, flushes);
            var n := CutEnd(data, c.wnum, m.maxSendFragment, Allowance(s, c)) - c.wnum;
            if !Matches(c.pending.value, m, address + c.wnum, n) then o == Outcome(c, -1, false)
            else
              var (after, ret) := Flush(c, NextFlush(flushes));
              if ret <= 0 then o == Outcome(after, ret, false)
              else o.ret > 0 || o.c.wnum >= c.wnum + c.pending.value.total
  {
    var call, from := Call(m, address, data, c.earlyOpen), c.(wnum := 0);
    var chunk := data[c.wnum..CutEnd(data, c.wnum, m.maxSendFragment, Allowance(s, c))];
    ChunkIsCut(s, from, call, c.wnum, Allowance(s, c));
    RetryOfLoop(s, from, call, c.wnum, flushes, chunk);
    FlushWithout(c, NextFlush(flushes));
  }

  /** Flushing has nothing to do with how much was written. */
  lemma {:induction false} FlushWithout(c: Connection, bio: seq<int>)
    ensures Flush(c.(wnum := 0), bio) == (Flush(c, bio).0.(wnum := 0), Flush(c, bio).1)
    decreases |bio|
  {
    if c.unsent != [] && bio != [] && bio[0] > 0 {
      var k := if bio[0] < |c.unsent| then bio[0] else |c.unsent|;
      FlushWithout(c.(unsent := c.unsent[k..], wire := c.wire + c.unsent[..k]), bio[1..]);
    }
  }

  /** A call that fails remembers what was written before it did. */
  lemma {:induction false} LoopKeepsCount(s: Session, c: Connection, call: Call, tot: nat, flushes: seq<seq<int>>)
    requires tot <= |call.data|
    ensures var o := WriteFrom(s, c, call, tot, flushes); o.ret > 0 || o.c.wnum >= tot
    decreases |call.data| - tot
  {
    var r := WriteRound(s, c, call, tot, flushes);
    LoopGoesOn(s, c, call, tot, flushes, r);
    if r.Again? {
      LoopKeepsCount(s, r.c, call, r.tot, r.flushes);
    }
  }

  /** The calls that come to nothing. After a close nothing is written. A call with less than was already written makes
      that be forgotten. When the ticket's allowance is used up the handshake has to go on first. While handshake bytes
      are left in the write buffer nothing can be sealed, and without data there is nothing to seal. */
  lemma CallsForNothing(s: Session, c: Connection, m: Modes, address: int, data: seq<byte>, flushes: seq<seq<int>>)
    ensures var o := WriteAppData(s, c, m, address, data, flushes);
            && (c.shutdown ==> o == Outcome(c, -1, false))
            && (!c.shutdown && |data| < c.wnum ==> o == Outcome(c.(wnum := 0), -1, false))
            && (!c.shutdown && |data| >= c.wnum && UsedUp(s, c, m) ==> o == Outcome(c.(earlyOpen := false), -1, true))
            && (!c.shutdown && |data| >= c.wnum && !UsedUp(s, c, m) && c.pending.None? ==>
                  && (c.unsent != [] ==> o == Outcome(c, -1, false))
                  && (c.unsent == [] && |data| == c.wnum ==> o == Outcome(c, 0, false)))
  {
    if !c.shutdown && |data| >= c.wnum {
      var call, from := Call(m, address, data, c.earlyOpen), c.(wnum := 0);
      var r := WriteRound(s, from, call, c.wnum, flushes);
      LoopGoesOn(s, from, call, c.wnum, flushes, r);
      assert from.(wnum := c.wnum) == c;
      assert |data| == c.wnum ==> Chunk(s, from, call, c.wnum) == [];
    }
  }

  lemma {:induction false} LoopNeedsHandshake(s: Session, c: Connection, call: Call, tot: nat, flushes: seq<seq<int>>)
    requires tot <= |call.data| && call.early == c.earlyOpen
    ensures var o := WriteFrom(s, c, call, tot, flushes);
            && (o.needsHandshake <==> c.earlyOpen && !o.c.earlyOpen)
            && (o.needsHandshake ==> o.ret == -1 && o.c.earlyWritten == s.ticketMaxEarlyData)
            && (o.c.earlyOpen ==> c.earlyOpen)
    decreases |call.data| - tot
  {
    var r := WriteRound(s, c, call, tot, flushes);
    LoopGoesOn(s, c, call, tot, flushes, r);
    if r.Again? {
      LoopNeedsHandshake(s, r.c, call, r.tot, r.flushes);
    }
  }

  /** A call asks for the handshake exactly when it is the one that closes early data, which it does only with the
      allowance used up. */
  lemma NeedsHandshakeExactly(s: Session, c: Connection, m: Modes, address: int, data: seq<byte>,
                              flushes: seq<seq<int>>)
    ensures var o := WriteAppData(s, c, m, address, data, flushes);
            && (o.needsHandshake <==> c.earlyOpen && !o.c.earlyOpen)
            && (o.needsHandshake ==> o.ret == -1 && o.c.earlyWritten == s.ticketMaxEarlyData)
  {
    if !c.shutdown && |data| >= c.wnum {
      LoopNeedsHandshake(s, c.(wnum := 0), Call(m, address, data, c.earlyOpen), c.wnum, flushes);
    }
  }

  // ---------- Alerts and flights ----------

  ghost predicate StuckForGood(s: Session, c: Connection) {
    && (forall buffer, bio, last :: FlushFlight(c, buffer, bio, last) == (c, 1))
    && forall m: Modes, kind, address, data, early, bio ::
         DoWrite(s, c, m, kind, address, data, early, bio) == (c, -1, false)
  }

  /** A record that cannot be sealed is not noted, but the handshake bytes that waited are in the write buffer then. If
      there were any they stay there for good: no flight is there to be flushed, and no record is written before the
      buffer is empty. */
  lemma SealFailureIsForGood(s: Session, c: Connection, m: Modes, kind: ContentType, address: int, data: seq<byte>,
                             early: bool, bio: seq<int>)
    requires c.pending.None? && c.unsent == [] && 0 < |data| <= 16384 && s.seal(|c.log|, kind, data).None?
    ensures var (after, ret, flushed) := DoWrite(s, c, m, kind, address, data, early, bio);
            && after == c.(unsent := if c.flight.Some? then c.flight.value else [], flight := None)
            && ret == -1 && !flushed
            && (after.unsent != [] ==> StuckForGood(s, after))
  {
  }

  /** An alert goes out in one record of its own, now or, if it is pending already, when it is flushed; while data is
      pending it has to wait. */
  lemma AlertReports(s: Session, c: Connection, m: Modes, address: int, alert: seq<byte>, bio: seq<int>)
    ensures var (after, ret) := DispatchAlert(s, c, m, address, alert, bio);
            && (ret > 0 ==> ret == 1 && after.pending.None?)
            && (c.pending.Some? ==> after.log == c.log)
            && (c.pending.Some? && (!c.pending.value.kind.Alert? || c.pending.value.total > |alert|
                                    || (!m.movingBuffer && c.pending.value.address != address)) ==>
                  (after, ret) == (c, -1))
            && (c.pending.None? && ret > 0 ==> after.log == c.log + [Sealed(Alert, alert, false)])
            && (c.pending.None? ==> after.log == c.log || after.log == c.log + [Sealed(Alert, alert, false)])
  {
  }

  /** Flushing a flight succeeds with all of it on the wire, behind what was in the write buffer, or leaves it to be
      flushed; it succeeds if the transport takes everything. */
  lemma FlightReports(c: Connection, buffer: seq<int>, bio: seq<int>, flushed: int)
    ensures var (after, ret) := FlushFlight(c, buffer, bio, flushed);
            && (c.flight.None? ==> (after, ret) == (c, 1))
            && (c.flight.Some? && c.shutdown ==> (after, ret) == (c, -1))
            && (c.flight.Some? && ret > 0 ==>
                  after == c.(flight := None, unsent := [], wire := c.wire + c.unsent + c.flight.value))
            && (ret <= 0 ==> after.flight.Some?)
            && (c.flight.Some? && !c.shutdown && buffer == [] && bio == [] ==> (ret > 0 <==> flushed > 0))
            && (c.flight.Some? && ret > 0 ==> flushed > 0)
            && (ret == 1 || ret == -1 || (ret <= 0 && (ret in buffer || ret in bio)))
            && (ret <= 0 && !c.shutdown && buffer == [] && bio == [] ==> ret == -1 && after.flight == Some([]))
  {
    var (clear, ret) := Flush(c, buffer);
    FlushKeepsBytes(c, buffer);
    if c.flight.Some? && !c.shutdown && ret > 0 {
      assert clear.wire + [] == clear.wire;
      var flight := clear.(unsent := Waiting(clear), flight := None);
      FlushKeepsBytes(flight, bio);
      var gone := Flush(flight, bio).0;
      assert gone.wire + [] == gone.wire;
    }
  }
}

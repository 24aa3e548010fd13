/** What holds over all writes of a connection: nothing is sealed twice, lost or reordered, and early data is bounded.
    */
module TlsWriteOnce {
  import opened Bytes
  import opened TlsWrite

  // ---------- Everything goes out once and in order ----------

  function SealedBytes(s: Session, log: seq<Entry>): seq<byte> {
    if log == [] then []
    else
      var last := log[|log| - 1];
      SealedBytes(s, log[..|log| - 1]) +
      match last
      case Sealed(kind, plain, _) => SealOf(s, |log| - 1, kind, plain)
      case Handshake(bytes) => bytes
  }

  function SealOf(s: Session, n: nat, kind: ContentType, plain: seq<byte>): seq<byte> {
    var bytes := s.seal(n, kind, plain);
    if bytes.Some? then bytes.value else []
  }

  predicate InOrder(s: Session, c: Connection) {
    c.wire + c.unsent + Waiting(c) == SealedBytes(s, c.log)
  }

  /** However far a flush comes, no byte is lost or moved. */
  lemma {:induction false} FlushKeepsBytes(c: Connection, bio: seq<int>)
    ensures var r := Flush(c, bio).0; r.wire + r.unsent == c.wire + c.unsent
    decreases |bio|
  {
    if c.unsent != [] && bio != [] && bio[0] > 0 {
      var k := if bio[0] < |c.unsent| then bio[0] else |c.unsent|;
      assert (c.wire + c.unsent[..k]) + c.unsent[k..] == c.wire + c.unsent;
      FlushKeepsBytes(c.(unsent := c.unsent[k..], wire := c.wire + c.unsent[..k]), bio[1..]);
    }
  }

  lemma WritePendingInOrder(s: Session, c: Connection, m: Modes, kind: ContentType, address: int, len: nat,
                            bio: seq<int>)
    requires InOrder(s, c) && c.pending.Some?
    ensures InOrder(s, WritePending(c, m, kind, address, len, bio).0)
  {
    FlushKeepsBytes(c, bio);
  }

  lemma UncorkInOrder(s: Session, c: Connection)
    requires InOrder(s, c) && c.unsent == []
    ensures InOrder(s, Uncork(c))
  {
    assert c.wire + [] + Waiting(c) == c.wire + Waiting(c) + [];
  }

  lemma RecordSealedInOrder(s: Session, c: Connection, kind: ContentType, address: int, data: seq<byte>, early: bool)
    requires InOrder(s, c) && c.unsent == [] && data != [] && s.seal(|c.log|, kind, data).Some?
    ensures InOrder(s, RecordSealed(c, kind, address, data, early, s.seal(|c.log|, kind, data).value))
  {
    var bytes := s.seal(|c.log|, kind, data).value;
    var r := RecordSealed(c, kind, address, data, early, bytes);
    assert r.log[..|c.log|] == c.log;
    assert c.wire + [] + Waiting(c) == c.wire + Waiting(c);
    assert r.wire + r.unsent + Waiting(r) == (c.wire + Waiting(c)) + bytes;
  }

  lemma DoWriteInOrder(s: Session, c: Connection, m: Modes, kind: ContentType, address: int, data: seq<byte>,
                       early: bool, bio: seq<int>)
    requires InOrder(s, c)
    ensures InOrder(s, DoWrite(s, c, m, kind, address, data, early, bio).0)
  {
    if c.pending.Some? {
      WritePendingInOrder(s, c, m, kind, address, |data|, bio);
    } else if c.unsent == [] && data != [] {
      var bytes := s.seal(|c.log|, kind, data);
      if bytes.None? {
        UncorkInOrder(s, c);
      } else {
        RecordSealedInOrder(s, c, kind, address, data, early);
        WritePendingInOrder(s, RecordSealed(c, kind, address, data, early, bytes.value), m, kind, address, |data|, bio);
      }
    }
  }

  lemma AfterWriteInOrder(s: Session, call: Call, tot: nat, written: (Connection, int, bool), flushes: seq<seq<int>>)
    requires tot <= |call.data| && written.1 <= |call.data| - tot && InOrder(s, written.0)
    ensures var r := AfterWrite(call, tot, written, flushes); InOrder(s, if r.Stop? then r.outcome.c else r.c)
  {
  }

  lemma RoundInOrder(s: Session, c: Connection, call: Call, tot: nat, flushes: seq<seq<int>>)
    requires tot <= |call.data| && InOrder(s, c)
    ensures var r := WriteRound(s, c, call, tot, flushes); InOrder(s, if r.Stop? then r.outcome.c else r.c)
  {
    DoWriteInOrder(s, c, call.modes, ApplicationData, call.address + tot, Chunk(s, c, call, tot), call.early,
                   NextFlush(flushes));
    AfterWriteInOrder(s, call, tot, WriteChunk(s, c, call, tot, NextFlush(flushes)), flushes);
  }

  lemma {:induction false} LoopInOrder(s: Session, c: Connection, call: Call, tot: nat, flushes: seq<seq<int>>)
    requires tot <= |call.data| && InOrder(s, c)
    ensures InOrder(s, WriteFrom(s, c, call, tot, flushes).c)
    decreases |call.data| - tot
  {
    RoundInOrder(s, c, call, tot, flushes);
    var r := WriteRound(s, c, call, tot, flushes);
    if r.Again? {
      LoopInOrder(s, r.c, call, r.tot, r.flushes);
    }
  }

  lemma WriteInOrder(s: Session, c: Connection, m: Modes, address: int, data: seq<byte>, flushes: seq<seq<int>>)
    requires InOrder(s, c)
    ensures InOrder(s, WriteAppData(s, c, m, address, data, flushes).c)
  {
    if !c.shutdown && |data| >= c.wnum {
      LoopInOrder(s, c.(wnum := 0), Call(m, address, data, c.earlyOpen), c.wnum, flushes);
    }
  }

  lemma AddInOrder(s: Session, c: Connection, bytes: seq<byte>)
    requires InOrder(s, c)
    ensures InOrder(s, AddFlight(c, bytes))
  {
    assert AddFlight(c, bytes).log[..|c.log|] == c.log;
    assert c.wire + c.unsent + (Waiting(c) + bytes) == (c.wire + c.unsent + Waiting(c)) + bytes;
  }

  lemma FlushInOrder(s: Session, c: Connection, bio: seq<int>)
    requires InOrder(s, c)
    ensures InOrder(s, Flush(c, bio).0)
  {
    FlushKeepsBytes(c, bio);
  }

  /** What is left of a flight that was not flushed is a flight again. */
  lemma RecorkInOrder(s: Session, c: Connection)
    requires InOrder(s, c) && c.flight.None?
    ensures InOrder(s, c.(flight := Some(c.unsent), unsent := []))
  {
    assert c.wire + [] + c.unsent == c.wire + c.unsent + [];
  }

  lemma FlightInOrder(s: Session, c: Connection, buffer: seq<int>, bio: seq<int>, flushed: int)
    requires InOrder(s, c)
    ensures InOrder(s, FlushFlight(c, buffer, bio, flushed).0)
  {
    var (clear, ret) := Flush(c, buffer);
    FlushInOrder(s, c, buffer);
    if c.flight.Some? && !c.shutdown && ret > 0 {
      UncorkInOrder(s, clear);
      FlushInOrder(s, Uncork(clear), bio);
      RecorkInOrder(s, Flush(Uncork(clear), bio).0);
    }
  }

  // ---------- Application data is sealed once ----------

  function AppData(log: seq<Entry>): seq<byte> {
    if log == [] then []
    else
      var last := log[|log| - 1];
      AppData(log[..|log| - 1]) + if last.Sealed? && last.kind.ApplicationData? then last.plain else []
  }

  function PendingData(c: Connection): nat {
    if c.pending.Some? && c.pending.value.kind.ApplicationData? then c.pending.value.total else 0
  }

  /** Where in the stream the connection seals next: behind what was reported as written, what the last call wrote
      besides, and the one record that is pending. */
  function NextToSeal(c: Connection, accepted: nat): nat {
    accepted + c.wnum + PendingData(c)
  }

  /** The data in the log is `before` and then the stream from `from` to `to`. */
  predicate SealedFrom(log: seq<Entry>, before: seq<byte>, stream: seq<byte>, from: nat, to: nat) {
    from <= to <= |stream| && AppData(log) == before + stream[from..to]
  }

  /** What was sealed is `before` and then the stream from `from` up to where the connection is. */
  predicate Continues(c: Connection, stream: seq<byte>, accepted: nat, before: seq<byte>, from: nat) {
    SealedFrom(c.log, before, stream, from, NextToSeal(c, accepted))
  }

  /** Of a stream of data the first `accepted` bytes were reported as written. What was sealed is exactly the stream up
      to where the connection is. */
  predicate SealedOnce(c: Connection, stream: seq<byte>, accepted: nat) {
    NextToSeal(c, accepted) <= |stream| && AppData(c.log) == stream[..NextToSeal(c, accepted)]
  }

  lemma SealedOnceContinues(c: Connection, stream: seq<byte>, accepted: nat)
    ensures SealedOnce(c, stream, accepted) <==> Continues(c, stream, accepted, [], 0)
  {
    var next := NextToSeal(c, accepted);
    assert next <= |stream| ==> [] + stream[0..next] == stream[..next];
  }

  function Reported(ret: int): nat {
    if ret > 0 then ret else 0
  }

  lemma AppDataOneMore(log: seq<Entry>, kind: ContentType, data: seq<byte>, early: bool)
    ensures AppData(LogRecord(log, kind, data, early)) == AppData(log) + if kind.ApplicationData? then data else []
    ensures EarlyLength(LogRecord(log, kind, data, early)) ==
            EarlyLength(log) + if kind.ApplicationData? && early then |data| else 0
  {
    assert LogRecord(log, kind, data, early)[..|log|] == log;
  }

  /** Data that is what comes next in the stream. */
  predicate ComesNext(data: seq<byte>, stream: seq<byte>, accepted: nat) {
    accepted + |data| <= |stream| && data == stream[accepted..accepted + |data|]
  }

  /** A property of the log and of the place in the stream where the connection seals next. */
  type Tracker = (seq<Entry>, nat) -> bool

  predicate Tracked(holds: Tracker, c: Connection, accepted: nat) {
    holds(c.log, NextToSeal(c, accepted))
  }

  /** It goes on to hold if `data` is sealed at place `done`. */
  predicate OneMore(holds: Tracker, log: seq<Entry>, done: nat, data: seq<byte>, early: bool) {
    holds(log, done) ==> holds(LogRecord(log, ApplicationData, data, early), done + |data|)
  }

  predicate PartOf(part: seq<byte>, done: nat, data: seq<byte>, accepted: nat) {
    accepted <= done && done - accepted + |part| <= |data| && part == data[done - accepted..done - accepted + |part|]
  }

  ghost predicate GoesOn(holds: Tracker, data: seq<byte>, accepted: nat) {
    forall log, done, part, early :: PartOf(part, done, data, accepted) ==> OneMore(holds, log, done, part, early)
  }

  /** A new record carries on where the sealed data ends. */
  lemma RecordTracked(holds: Tracker, c: Connection, address: int, data: seq<byte>, early: bool, bytes: seq<byte>,
                      done: nat)
    requires c.wnum == 0 && c.pending.None? && data != []
    requires OneMore(holds, c.log, done, data, early) && Tracked(holds, c, done)
    ensures Tracked(holds, RecordSealed(c, ApplicationData, address, data, early, bytes), done)
  {
  }

  /** Flushing the record that is pending seals nothing. */
  lemma WritePendingTracked(holds: Tracker, c: Connection, m: Modes, address: int, len: nat, bio: seq<int>, done: nat)
    requires c.wnum == 0 && c.pending.Some? && Tracked(holds, c, done)
    ensures var r := WritePending(c, m, ApplicationData, address, len, bio);
            r.0.wnum == 0 && Tracked(holds, r.0, done + Reported(r.1))
  {
  }

  predicate DoneOnce(holds: Tracker, written: (Connection, int, bool), done: nat) {
    written.0.wnum == 0 && Tracked(holds, written.0, done + Reported(written.1))
  }

  lemma DoWriteTracked(holds: Tracker, s: Session, c: Connection, m: Modes, address: int, data: seq<byte>, early: bool,
                       bio: seq<int>, done: nat, written: (Connection, int, bool))
    requires c.wnum == 0 && OneMore(holds, c.log, done, data, early) && Tracked(holds, c, done)
    requires written == DoWrite(s, c, m, ApplicationData, address, data, early, bio)
    ensures DoneOnce(holds, written, done)
  {
    if c.pending.Some? {
      WritePendingTracked(holds, c, m, address, |data|, bio, done);
    } else if data != [] && s.seal(|c.log|, ApplicationData, data).Some? {
      var bytes := s.seal(|c.log|, ApplicationData, data).value;
      var sealed := RecordSealed(c, ApplicationData, address, data, early, bytes);
      RecordTracked(holds, c, address, data, early, bytes, done);
      WritePendingTracked(holds, sealed, m, address, |data|, bio, done);
    }
  }

  lemma ChunkIsWritten(s: Session, c: Connection, call: Call, tot: nat, chunk: seq<byte>, bio: seq<int>,
                       written: (Connection, int, bool))
    requires tot <= |call.data| && chunk == Chunk(s, c, call, tot)
    requires written == DoWrite(s, c, call.modes, ApplicationData, call.address + tot, chunk, call.early, bio)
    ensures WriteChunk(s, c, call, tot, bio) == written
  {
  }

  lemma ChunkTracked(holds: Tracker, s: Session, c: Connection, call: Call, tot: nat, chunk: seq<byte>, bio: seq<int>,
                     done: nat)
    requires tot <= |call.data| && c.wnum == 0 && chunk == Chunk(s, c, call, tot)
    requires OneMore(holds, c.log, done, chunk, call.early) && Tracked(holds, c, done)
    ensures DoneOnce(holds, WriteChunk(s, c, call, tot, bio), done)
  {
    var written := DoWrite(s, c, call.modes, ApplicationData, call.address + tot, chunk, call.early, bio);
    DoWriteTracked(holds, s, c, call.modes, call.address + tot, chunk, call.early, bio, done, written);
    ChunkIsWritten(s, c, call, tot, chunk, bio, written);
  }

  predicate RoundFine(holds: Tracker, r: Round, accepted: nat) {
    match r
    case Stop(o) => Tracked(holds, o.c, accepted + Reported(o.ret))
    case Again(next, more, _) => next.wnum == 0 && Tracked(holds, next, accepted + more)
  }

  lemma AfterWriteFine(holds: Tracker, call: Call, tot: nat, written: (Connection, int, bool), flushes: seq<seq<int>>,
                       accepted: nat)
    requires tot <= |call.data| && written.1 <= |call.data| - tot && DoneOnce(holds, written, accepted + tot)
    ensures RoundFine(holds, AfterWrite(call, tot, written, flushes), accepted)
  {
  }

  lemma RoundTracked(holds: Tracker, s: Session, c: Connection, call: Call, tot: nat, flushes: seq<seq<int>>,
                     accepted: nat)
    requires tot <= |call.data| && c.wnum == 0 && GoesOn(holds, call.data, accepted)
    requires Tracked(holds, c, accepted + tot)
    ensures RoundFine(holds, WriteRound(s, c, call, tot, flushes), accepted)
  {
    var chunk, bio := Chunk(s, c, call, tot), NextFlush(flushes);
    assert PartOf(chunk, accepted + tot, call.data, accepted);
    ChunkTracked(holds, s, c, call, tot, chunk, bio, accepted + tot);
    AfterWriteFine(holds, call, tot, WriteChunk(s, c, call, tot, bio), flushes, accepted);
  }

  lemma LoopGoesOn(s: Session, c: Connection, call: Call, tot: nat, flushes: seq<seq<int>>, r: Round)
    requires tot <= |call.data| && r == WriteRound(s, c, call, tot, flushes)
    ensures WriteFrom(s, c, call, tot, flushes) ==
            if r.Stop? then r.outcome else WriteFrom(s, r.c, call, r.tot, r.flushes)
  {
  }

  /** A round of the loop, and the loop from there. */
  lemma LoopRound(holds: Tracker, s: Session, c: Connection, call: Call, tot: nat, flushes: seq<seq<int>>,
                  accepted: nat)
    returns (r: Round)
    requires tot <= |call.data| && c.wnum == 0 && GoesOn(holds, call.data, accepted)
    requires Tracked(holds, c, accepted + tot)
    ensures RoundFine(holds, r, accepted) && (r.Again? ==> tot < r.tot <= |call.data|)
    ensures WriteFrom(s, c, call, tot, flushes) ==
            if r.Stop? then r.outcome else WriteFrom(s, r.c, call, r.tot, r.flushes)
  {
    r := WriteRound(s, c, call, tot, flushes);
    RoundTracked(holds, s, c, call, tot, flushes, accepted);
    LoopGoesOn(s, c, call, tot, flushes, r);
  }

  lemma {:induction false} LoopTracked(holds: Tracker, s: Session, c: Connection, call: Call, tot: nat,
                                       flushes: seq<seq<int>>, accepted: nat)
    requires tot <= |call.data| && c.wnum == 0 && GoesOn(holds, call.data, accepted)
    requires Tracked(holds, c, accepted + tot)
    ensures var o := WriteFrom(s, c, call, tot, flushes); Tracked(holds, o.c, accepted + Reported(o.ret))
    decreases |call.data| - tot
  {
    var r := LoopRound(holds, s, c, call, tot, flushes, accepted);
    if r.Again? {
      LoopTracked(holds, s, r.c, call, r.tot, r.flushes, accepted);
    }
  }

  /** What the last call wrote counts as done when the loop starts. */
  lemma LoopStarts(holds: Tracker, c: Connection, accepted: nat)
    requires Tracked(holds, c, accepted)
    ensures Tracked(holds, c.(wnum := 0), accepted + c.wnum)
  {
    assert NextToSeal(c.(wnum := 0), accepted + c.wnum) == NextToSeal(c, accepted);
  }

  lemma WriteTracked(holds: Tracker, s: Session, c: Connection, m: Modes, address: int, data: seq<byte>,
                     flushes: seq<seq<int>>, accepted: nat)
    requires GoesOn(holds, data, accepted) && Tracked(holds, c, accepted)
    requires c.shutdown || |data| >= c.wnum
    ensures var o := WriteAppData(s, c, m, address, data, flushes); Tracked(holds, o.c, accepted + Reported(o.ret))
  {
    if !c.shutdown {
      LoopStarts(holds, c, accepted);
      LoopTracked(holds, s, c.(wnum := 0), Call(m, address, data, c.earlyOpen), c.wnum, flushes, accepted);
    }
  }

  lemma LogGoesOn(log: seq<Entry>, data: seq<byte>, early: bool, before: seq<byte>, stream: seq<byte>, from: nat,
                  to: nat)
    requires SealedFrom(log, before, stream, from, to) && ComesNext(data, stream, to)
    ensures SealedFrom(LogRecord(log, ApplicationData, data, early), before, stream, from, to + |data|)
  {
    AppDataOneMore(log, ApplicationData, data, early);
    assert stream[from..to] + data == stream[from..to + |data|];
    assert before + stream[from..to] + data == before + (stream[from..to] + data);
  }

  function StreamTracker(before: seq<byte>, stream: seq<byte>, from: nat): Tracker {
    (log: seq<Entry>, to: nat) => SealedFrom(log, before, stream, from, to)
  }

  lemma SliceOfSlice(stream: seq<byte>, from: nat, to: nat, i: nat, j: nat)
    requires from <= to <= |stream| && i <= j <= to - from
    ensures stream[from..to][i..j] == stream[from + i..from + j]
  {
    assert forall k :: 0 <= k < j - i ==> stream[from..to][i..j][k] == stream[from + i..from + j][k];
  }

  lemma PartComesNext(part: seq<byte>, done: nat, data: seq<byte>, stream: seq<byte>, accepted: nat)
    requires ComesNext(data, stream, accepted) && PartOf(part, done, data, accepted)
    ensures ComesNext(part, stream, done)
  {
    SliceOfSlice(stream, accepted, accepted + |data|, done - accepted, done - accepted + |part|);
  }

  lemma PartGoesOn(log: seq<Entry>, done: nat, part: seq<byte>, early: bool, before: seq<byte>, stream: seq<byte>,
                   from: nat, data: seq<byte>, accepted: nat)
    requires ComesNext(data, stream, accepted) && PartOf(part, done, data, accepted)
    ensures OneMore(StreamTracker(before, stream, from), log, done, part, early)
  {
    PartComesNext(part, done, data, stream, accepted);
    if SealedFrom(log, before, stream, from, done) {
      LogGoesOn(log, part, early, before, stream, from, done);
    }
  }

  lemma StreamGoesOn(before: seq<byte>, stream: seq<byte>, from: nat, data: seq<byte>, accepted: nat)
    requires ComesNext(data, stream, accepted)
    ensures GoesOn(StreamTracker(before, stream, from), data, accepted)
  {
    forall log, done, part, early | PartOf(part, done, data, accepted)
      ensures OneMore(StreamTracker(before, stream, from), log, done, part, early)
    {
      PartGoesOn(log, done, part, early, before, stream, from, data, accepted);
    }
  }

  /** Whatever was sealed before, a call with the data that comes next, and no less than was already written, goes on
      sealing where the connection is. */
  lemma WriteContinues(s: Session, c: Connection, m: Modes, address: int, data: seq<byte>, flushes: seq<seq<int>>,
                       stream: seq<byte>, accepted: nat, before: seq<byte>, from: nat)
    requires Continues(c, stream, accepted, before, from) && ComesNext(data, stream, accepted)
    requires c.shutdown || |data| >= c.wnum
    ensures var o := WriteAppData(s, c, m, address, data, flushes);
            Continues(o.c, stream, accepted + Reported(o.ret), before, from)
  {
    StreamGoesOn(before, stream, from, data, accepted);
    WriteTracked(StreamTracker(before, stream, from), s, c, m, address, data, flushes, accepted);
  }

  /** A call with the data that comes next in the stream keeps to sealing it once, however the flushes go, exactly when
      it comes with at least as much data as was already written in the call it retries. */
  lemma WriteSealsOnceExactly(s: Session, c: Connection, m: Modes, address: int, data: seq<byte>,
                              flushes: seq<seq<int>>, stream: seq<byte>, accepted: nat)
    requires SealedOnce(c, stream, accepted) && ComesNext(data, stream, accepted)
    ensures var o := WriteAppData(s, c, m, address, data, flushes);
            SealedOnce(o.c, stream, accepted + Reported(o.ret)) <==> c.shutdown || |data| >= c.wnum
  {
    if c.shutdown || |data| >= c.wnum {
      var o := WriteAppData(s, c, m, address, data, flushes);
      SealedOnceContinues(c, stream, accepted);
      WriteContinues(s, c, m, address, data, flushes, stream, accepted, [], 0);
      SealedOnceContinues(o.c, stream, accepted + Reported(o.ret));
    }
  }

  /** Neither alerts nor handshake messages seal application data or move the connection in its stream. */
  ghost predicate SealsNoData(c: Connection, after: Connection) {
    && AppData(after.log) == AppData(c.log) && EarlyLength(after.log) == EarlyLength(c.log)
    && after.wnum == c.wnum && PendingData(after) == PendingData(c)
    && after.earlyOpen == c.earlyOpen && after.earlyWritten == c.earlyWritten
  }

  lemma AlertSealsNoData(s: Session, c: Connection, m: Modes, address: int, alert: seq<byte>, bio: seq<int>)
    ensures SealsNoData(c, DispatchAlert(s, c, m, address, alert, bio).0)
  {
    AppDataOneMore(c.log, Alert, alert, false);
  }

  lemma AddSealsNoData(c: Connection, bytes: seq<byte>)
    ensures SealsNoData(c, AddFlight(c, bytes))
  {
    assert AddFlight(c, bytes).log[..|c.log|] == c.log;
  }

  lemma FlightSealsNoData(c: Connection, buffer: seq<int>, bio: seq<int>, flushed: int)
    ensures SealsNoData(c, FlushFlight(c, buffer, bio, flushed).0)
  {
  }

  // ---------- Without obstacles all is written ----------

  /** Nothing is pending, data is left, and records are of a sensible size. */
  predicate Ready(c: Connection, call: Call, tot: nat) {
    && c.pending.None? && c.unsent == [] && tot < |call.data|
    && !call.early && !call.modes.partialWrite && 0 < call.modes.maxSendFragment <= MAX_PLAIN_LENGTH
  }

  /** Sealing does not fail. */
  ghost predicate AlwaysSeals(s: Session) {
    forall n: nat, kind, data :: s.seal(n, kind, data).Some?
  }

  lemma ReadyRound(s: Session, c: Connection, call: Call, tot: nat, flushes: seq<seq<int>>)
    requires Ready(c, call, tot) && flushes != [] && flushes[0] == [] && AlwaysSeals(s)
    ensures var r := WriteRound(s, c, call, tot, flushes);
            match r
            case Stop(o) => o.ret == |call.data| && o.c.pending.None? && o.c.unsent == []
            case Again(next, more, later) => Ready(next, call, more) && tot < more && later == flushes[1..]
  {
    var chunk := Chunk(s, c, call, tot);
    assert chunk != [] && |chunk| <= MAX_PLAIN_LENGTH && s.seal(|c.log|, ApplicationData, chunk).Some?;
  }

  /** If sealing does not fail and the transport takes every record, one call writes all the data, and nothing stays
      behind. */
  lemma {:induction false} ReadyWritesAll(s: Session, c: Connection, call: Call, tot: nat, flushes: seq<seq<int>>)
    requires Ready(c, call, tot) && |flushes| >= |call.data| - tot && AlwaysSeals(s)
    requires forall i :: 0 <= i < |flushes| ==> flushes[i] == []
    ensures var o := WriteFrom(s, c, call, tot, flushes);
            o.ret == |call.data| && o.c.pending.None? && o.c.unsent == []
    decreases |call.data| - tot
  {
    ReadyRound(s, c, call, tot, flushes);
    var r := WriteRound(s, c, call, tot, flushes);
    if r.Again? {
      ReadyWritesAll(s, r.c, call, r.tot, r.flushes);
    }
  }

  // ---------- Early data ----------

  /** How many bytes of application data were sealed as early data. */
  function EarlyLength(log: seq<Entry>): nat {
    if log == [] then 0
    else
      var last := log[|log| - 1];
      EarlyLength(log[..|log| - 1])
      + if last.Sealed? && last.kind.ApplicationData? && last.early then |last.plain| else 0
  }

  predicate EarlyBounded(c: Connection, ticketMax: nat) {
    && EarlyLength(c.log) <= ticketMax
    && (c.earlyOpen ==> EarlyLength(c.log) == c.earlyWritten + PendingData(c))
  }

  /** The count of early data goes up when a record is flushed, and by its length. */
  predicate BoundedAfter(s: Session, call: Call, written: (Connection, int, bool)) {
    EarlyBounded(Counted(written.0, call, Reported(written.1)), s.ticketMaxEarlyData)
  }

  /** There is room for the record in the ticket's allowance. */
  predicate RoomFor(s: Session, c: Connection, early: bool, data: seq<byte>) {
    early && c.pending.None? ==> c.earlyWritten + |data| <= s.ticketMaxEarlyData
  }

  lemma WritePendingBounded(s: Session, c: Connection, call: Call, address: int, len: nat, bio: seq<int>)
    requires EarlyBounded(c, s.ticketMaxEarlyData) && call.early == c.earlyOpen && c.pending.Some?
    ensures var r := WritePending(c, call.modes, ApplicationData, address, len, bio);
            BoundedAfter(s, call, (r.0, r.1, true))
  {
  }

  lemma RecordBounded(s: Session, c: Connection, address: int, data: seq<byte>, early: bool, bytes: seq<byte>)
    requires EarlyBounded(c, s.ticketMaxEarlyData) && early == c.earlyOpen && RoomFor(s, c, early, data)
    requires c.pending.None? && data != []
    ensures EarlyBounded(RecordSealed(c, ApplicationData, address, data, early, bytes), s.ticketMaxEarlyData)
  {
    AppDataOneMore(c.log, ApplicationData, data, early);
  }

  lemma DoWriteBoundsEarlyData(s: Session, c: Connection, call: Call, address: int, data: seq<byte>, bio: seq<int>,
                               written: (Connection, int, bool))
    requires EarlyBounded(c, s.ticketMaxEarlyData) && call.early == c.earlyOpen && RoomFor(s, c, call.early, data)
    requires written == DoWrite(s, c, call.modes, ApplicationData, address, data, call.early, bio)
    ensures BoundedAfter(s, call, written)
  {
    if c.pending.Some? {
      WritePendingBounded(s, c, call, address, |data|, bio);
    } else if data != [] && s.seal(|c.log|, ApplicationData, data).Some? {
      var bytes := s.seal(|c.log|, ApplicationData, data).value;
      RecordBounded(s, c, address, data, call.early, bytes);
      var sealed := RecordSealed(c, ApplicationData, address, data, call.early, bytes);
      WritePendingBounded(s, sealed, call, address, |data|, bio);
    }
  }

  lemma ChunkBoundsEarlyData(s: Session, c: Connection, call: Call, tot: nat, chunk: seq<byte>, bio: seq<int>)
    requires tot <= |call.data| && EarlyBounded(c, s.ticketMaxEarlyData) && call.early == c.earlyOpen
    requires chunk == Chunk(s, c, call, tot)
    ensures BoundedAfter(s, call, WriteChunk(s, c, call, tot, bio))
  {
    var written := DoWrite(s, c, call.modes, ApplicationData, call.address + tot, chunk, call.early, bio);
    DoWriteBoundsEarlyData(s, c, call, call.address + tot, chunk, bio, written);
    ChunkIsWritten(s, c, call, tot, chunk, bio, written);
  }

  lemma AfterWriteBounded(s: Session, call: Call, tot: nat, written: (Connection, int, bool), flushes: seq<seq<int>>)
    requires tot <= |call.data| && written.1 <= |call.data| - tot && BoundedAfter(s, call, written)
    ensures var r := AfterWrite(call, tot, written, flushes);
            EarlyBounded(if r.Stop? then r.outcome.c else r.c, s.ticketMaxEarlyData)
  {
  }

  lemma RoundBoundsEarlyData(s: Session, c: Connection, call: Call, tot: nat, flushes: seq<seq<int>>)
    requires tot <= |call.data| && EarlyBounded(c, s.ticketMaxEarlyData) && call.early == c.earlyOpen
    ensures var r := WriteRound(s, c, call, tot, flushes);
            EarlyBounded(if r.Stop? then r.outcome.c else r.c, s.ticketMaxEarlyData)
  {
    ChunkBoundsEarlyData(s, c, call, tot, Chunk(s, c, call, tot), NextFlush(flushes));
    AfterWriteBounded(s, call, tot, WriteChunk(s, c, call, tot, NextFlush(flushes)), flushes);
  }

  lemma {:induction false} LoopBoundsEarlyData(s: Session, c: Connection, call: Call, tot: nat, flushes: seq<seq<int>>)
    requires tot <= |call.data| && EarlyBounded(c, s.ticketMaxEarlyData) && call.early == c.earlyOpen
    ensures EarlyBounded(WriteFrom(s, c, call, tot, flushes).c, s.ticketMaxEarlyData)
    decreases |call.data| - tot
  {
    RoundBoundsEarlyData(s, c, call, tot, flushes);
    var r := WriteRound(s, c, call, tot, flushes);
    if r.Again? {
      LoopBoundsEarlyData(s, r.c, call, r.tot, r.flushes);
    }
  }

  /** Whatever is retried, no more is ever sealed as early data than the ticket allows. */
  lemma WriteBoundsEarlyData(s: Session, c: Connection, m: Modes, address: int, data: seq<byte>, flushes: seq<seq<int>>)
    requires EarlyBounded(c, s.ticketMaxEarlyData)
    ensures EarlyBounded(WriteAppData(s, c, m, address, data, flushes).c, s.ticketMaxEarlyData)
  {
    if !c.shutdown && |data| >= c.wnum {
      LoopBoundsEarlyData(s, c.(wnum := 0), Call(m, address, data, c.earlyOpen), c.wnum, flushes);
    }
  }

  // ---------- Whole runs ----------

  /** What can happen to the writing half of a connection. */
  datatype Event =
    | Write(modes: Modes, address: int, data: seq<byte>, flushes: seq<seq<int>>)
    | SendAlert(modes: Modes, address: int, alert: seq<byte>, bio: seq<int>)
    | Shutdown
    | Add(bytes: seq<byte>)
    | FlushHandshake(buffer: seq<int>, bio: seq<int>, flushed: int)
    | EndEarlyData

  function Step(s: Session, c: Connection, e: Event): (Connection, int) {
    match e
    case Write(modes, address, data, flushes) =>
      var o := WriteAppData(s, c, modes, address, data, flushes);
      (o.c, o.ret)
    case SendAlert(modes, address, alert, bio) => (DispatchAlert(s, c, modes, address, alert, bio).0, 0)
    case Shutdown => (c.(shutdown := true), 0)
    case Add(bytes) => (AddFlight(c, bytes), 0)
    case FlushHandshake(buffer, bio, flushed) => (FlushFlight(c, buffer, bio, flushed).0, 0)
    case EndEarlyData => (c.(earlyOpen := false), 0)
  }

  /** A call with less data than was already written in the one it retries. */
  predicate Short(c: Connection, e: Event) {
    e.Write? && !c.shutdown && |e.data| < c.wnum
  }

  /** The caller writes a stream: each call comes with data that begins where the last reported byte ends. What it tries
      to write beyond that, and from which buffer, is open. */
  predicate OfStream(e: Event, stream: seq<byte>, accepted: nat) {
    e.Write? ==> ComesNext(e.data, stream, accepted)
  }

  /** What a connection does at an event. */
  type Stepper = (Connection, Event) -> (Connection, int)

  function Steps(s: Session): Stepper {
    (c, e) => Step(s, c, e)
  }

  /** Where a run leads, and how much was reported as written. */
  function Run(step: Stepper, c: Connection, events: seq<Event>, accepted: nat): (Connection, nat)
    decreases |events|
  {
    if events == [] then (c, accepted)
    else
      var r := step(c, events[0]);
      Run(step, r.0, events[1..], accepted + Reported(r.1))
  }

  predicate AllOfStream(step: Stepper, c: Connection, events: seq<Event>, stream: seq<byte>, accepted: nat)
    decreases |events|
  {
    events != [] ==>
      && OfStream(events[0], stream, accepted)
      && var r := step(c, events[0]);
         AllOfStream(step, r.0, events[1..], stream, accepted + Reported(r.1))
  }

  /** No retry of the run comes with less data than was already written. */
  predicate NeverShort(step: Stepper, c: Connection, events: seq<Event>)
    decreases |events|
  {
    events != [] ==> !Short(c, events[0]) && NeverShort(step, step(c, events[0]).0, events[1..])
  }

  /** A step seals the stream from where the connection is to where it is then; a short retry seals nothing, and takes
      the connection back by what it makes it forget. */
  ghost predicate Moved(c: Connection, accepted: nat, after: Connection, acceptedAfter: nat, short: bool,
                        stream: seq<byte>)
  {
    var here, there := NextToSeal(c, accepted), NextToSeal(after, acceptedAfter);
    if short then there + c.wnum == here && AppData(after.log) == AppData(c.log)
    else here <= there <= |stream| && AppData(after.log) == AppData(c.log) + stream[here..there]
  }

  lemma StayedPut(c: Connection, accepted: nat, after: Connection, stream: seq<byte>)
    requires NextToSeal(c, accepted) <= |stream| && NextToSeal(after, accepted) == NextToSeal(c, accepted)
    requires AppData(after.log) == AppData(c.log)
    ensures Moved(c, accepted, after, accepted, false, stream)
  {
    var here := NextToSeal(c, accepted);
    assert AppData(c.log) + stream[here..here] == AppData(c.log);
  }

  lemma WriteMoves(s: Session, c: Connection, e: Event, stream: seq<byte>, accepted: nat)
    requires NextToSeal(c, accepted) <= |stream| && e.Write? && OfStream(e, stream, accepted)
    ensures var r := Step(s, c, e); Moved(c, accepted, r.0, accepted + Reported(r.1), Short(c, e), stream)
  {
    if !Short(c, e) {
      var here := NextToSeal(c, accepted);
      assert AppData(c.log) + stream[here..here] == AppData(c.log);
      WriteContinues(s, c, e.modes, e.address, e.data, e.flushes, stream, accepted, AppData(c.log), here);
    }
  }

  lemma StepMoves(s: Session, c: Connection, e: Event, stream: seq<byte>, accepted: nat)
    requires NextToSeal(c, accepted) <= |stream| && OfStream(e, stream, accepted)
    ensures var r := Step(s, c, e); Moved(c, accepted, r.0, accepted + Reported(r.1), Short(c, e), stream)
  {
    var after := Step(s, c, e).0;
    match e
    case Write(_, _, _, _) => WriteMoves(s, c, e, stream, accepted);
    case SendAlert(modes, address, alert, bio) =>
      AlertSealsNoData(s, c, modes, address, alert, bio);
      StayedPut(c, accepted, after, stream);
    case Add(bytes) =>
      AddSealsNoData(c, bytes);
      StayedPut(c, accepted, after, stream);
    case FlushHandshake(buffer, bio, flushed) =>
      FlightSealsNoData(c, buffer, bio, flushed);
      StayedPut(c, accepted, after, stream);
    case Shutdown => StayedPut(c, accepted, after, stream);
    case EndEarlyData => StayedPut(c, accepted, after, stream);
  }

  ghost predicate StepMovesFor(step: Stepper, c: Connection, e: Event, stream: seq<byte>, accepted: nat) {
    NextToSeal(c, accepted) <= |stream| && OfStream(e, stream, accepted) ==>
      Moved(c, accepted, step(c, e).0, accepted + Reported(step(c, e).1), Short(c, e), stream)
  }

  ghost predicate KeepsMoving(step: Stepper, stream: seq<byte>) {
    forall c, e, accepted: nat :: StepMovesFor(step, c, e, stream, accepted)
  }

  lemma StepsKeepMoving(s: Session, stream: seq<byte>)
    ensures KeepsMoving(Steps(s), stream)
  {
    forall c, e, accepted: nat
      ensures StepMovesFor(Steps(s), c, e, stream, accepted)
    {
      if NextToSeal(c, accepted) <= |stream| && OfStream(e, stream, accepted) {
        StepMoves(s, c, e, stream, accepted);
      }
    }
  }

  ghost predicate KeepsOrder(s: Session, step: Stepper) {
    forall c, e :: InOrder(s, c) && EarlyBounded(c, s.ticketMaxEarlyData) ==>
      InOrder(s, step(c, e).0) && EarlyBounded(step(c, e).0, s.ticketMaxEarlyData)
  }

  lemma StepInOrder(s: Session, c: Connection, e: Event)
    requires InOrder(s, c)
    ensures InOrder(s, Step(s, c, e).0)
  {
    match e
    case Write(modes, address, data, flushes) => WriteInOrder(s, c, modes, address, data, flushes);
    case SendAlert(modes, address, alert, bio) => DoWriteInOrder(s, c, modes, Alert, address, alert, false, bio);
    case Add(bytes) => AddInOrder(s, c, bytes);
    case FlushHandshake(buffer, bio, flushed) => FlightInOrder(s, c, buffer, bio, flushed);
    case Shutdown =>
    case EndEarlyData =>
  }

  lemma StepBoundsEarlyData(s: Session, c: Connection, e: Event)
    requires EarlyBounded(c, s.ticketMaxEarlyData)
    ensures EarlyBounded(Step(s, c, e).0, s.ticketMaxEarlyData)
  {
    match e
    case Write(modes, address, data, flushes) => WriteBoundsEarlyData(s, c, modes, address, data, flushes);
    case SendAlert(modes, address, alert, bio) => AlertSealsNoData(s, c, modes, address, alert, bio);
    case Add(bytes) => AddSealsNoData(c, bytes);
    case FlushHandshake(buffer, bio, flushed) => FlightSealsNoData(c, buffer, bio, flushed);
    case Shutdown =>
    case EndEarlyData =>
  }

  lemma StepsKeepOrder(s: Session)
    ensures KeepsOrder(s, Steps(s))
  {
    forall c, e | InOrder(s, c) && EarlyBounded(c, s.ticketMaxEarlyData)
      ensures InOrder(s, Steps(s)(c, e).0) && EarlyBounded(Steps(s)(c, e).0, s.ticketMaxEarlyData)
    {
      StepInOrder(s, c, e);
      StepBoundsEarlyData(s, c, e);
    }
  }

  function Fresh(earlyOpen: bool): Connection {
    Connection(0, None, 0, earlyOpen, false, [], [], None, [])
  }

  lemma {:induction false} RunKeepsOrder(s: Session, step: Stepper, c: Connection, events: seq<Event>, accepted: nat)
    requires KeepsOrder(s, step) && InOrder(s, c) && EarlyBounded(c, s.ticketMaxEarlyData)
    ensures var end := Run(step, c, events, accepted).0; InOrder(s, end) && EarlyBounded(end, s.ticketMaxEarlyData)
    decreases |events|
  {
    if events != [] {
      var r := step(c, events[0]);
      RunKeepsOrder(s, step, r.0, events[1..], accepted + Reported(r.1));
    }
  }

  /** By how much more was sealed than what lies before the connection in its stream. */
  function Excess(c: Connection, accepted: nat): int {
    |AppData(c.log)| - NextToSeal(c, accepted)
  }

  lemma MovedKeepsSealedOnce(c: Connection, accepted: nat, after: Connection, acceptedAfter: nat, short: bool,
                             stream: seq<byte>)
    requires Moved(c, accepted, after, acceptedAfter, short, stream) && NextToSeal(c, accepted) <= |stream|
    ensures Excess(after, acceptedAfter) == Excess(c, accepted) + if short then c.wnum else 0
    ensures SealedOnce(c, stream, accepted) && !short ==> SealedOnce(after, stream, acceptedAfter)
  {
    var here, there := NextToSeal(c, accepted), NextToSeal(after, acceptedAfter);
    if !short {
      assert stream[..here] + stream[here..there] == stream[..there];
    }
  }

  lemma RunFirst(step: Stepper, c: Connection, events: seq<Event>, stream: seq<byte>, accepted: nat, after: Connection,
                 more: nat)
    requires events != [] && AllOfStream(step, c, events, stream, accepted)
    requires after == step(c, events[0]).0 && more == accepted + Reported(step(c, events[0]).1)
    ensures Run(step, c, events, accepted) == Run(step, after, events[1..], more)
    ensures OfStream(events[0], stream, accepted) && AllOfStream(step, after, events[1..], stream, more)
  {
  }

  lemma StepIsMove(step: Stepper, c: Connection, e: Event, stream: seq<byte>, accepted: nat, after: Connection,
                   more: nat)
    requires KeepsMoving(step, stream) && NextToSeal(c, accepted) <= |stream| && OfStream(e, stream, accepted)
    requires after == step(c, e).0 && more == accepted + Reported(step(c, e).1)
    ensures Moved(c, accepted, after, more, Short(c, e), stream)
  {
    assert StepMovesFor(step, c, e, stream, accepted);
  }

  /** The first step of a run, and the run from there. */
  lemma FirstStep(step: Stepper, c: Connection, events: seq<Event>, stream: seq<byte>, accepted: nat,
                  after: Connection, more: nat)
    requires KeepsMoving(step, stream) && NextToSeal(c, accepted) <= |stream| && events != []
    requires AllOfStream(step, c, events, stream, accepted)
    requires after == step(c, events[0]).0 && more == accepted + Reported(step(c, events[0]).1)
    ensures Run(step, c, events, accepted) == Run(step, after, events[1..], more)
    ensures AllOfStream(step, after, events[1..], stream, more)
    ensures Moved(c, accepted, after, more, Short(c, events[0]), stream) && NextToSeal(after, more) <= |stream|
  {
    RunFirst(step, c, events, stream, accepted, after, more);
    StepIsMove(step, c, events[0], stream, accepted, after, more);
  }

  /** What a short retry makes the connection forget stays in excess for the rest of the run. */
  lemma {:induction false} ExcessStays(step: Stepper, c: Connection, events: seq<Event>, stream: seq<byte>,
                                       accepted: nat)
    requires KeepsMoving(step, stream) && NextToSeal(c, accepted) <= |stream|
    requires AllOfStream(step, c, events, stream, accepted)
    ensures var (end, total) := Run(step, c, events, accepted); Excess(end, total) >= Excess(c, accepted)
    decreases |events|
  {
    if events != [] {
      var after, more := step(c, events[0]).0, accepted + Reported(step(c, events[0]).1);
      FirstStep(step, c, events, stream, accepted, after, more);
      MovedKeepsSealedOnce(c, accepted, after, more, Short(c, events[0]), stream);
      ExcessStays(step, after, events[1..], stream, more);
    }
  }

  lemma {:induction false} RunSealsOnceExactly(step: Stepper, c: Connection, events: seq<Event>, stream: seq<byte>,
                                               accepted: nat)
    requires KeepsMoving(step, stream) && SealedOnce(c, stream, accepted)
    requires AllOfStream(step, c, events, stream, accepted)
    ensures var (end, total) := Run(step, c, events, accepted);
            SealedOnce(end, stream, total) <==> NeverShort(step, c, events)
    decreases |events|
  {
    if events != [] {
      var after, more := step(c, events[0]).0, accepted + Reported(step(c, events[0]).1);
      FirstStep(step, c, events, stream, accepted, after, more);
      MovedKeepsSealedOnce(c, accepted, after, more, Short(c, events[0]), stream);
      if Short(c, events[0]) {
        ExcessStays(step, after, events[1..], stream, more);
      } else {
        RunSealsOnceExactly(step, after, events[1..], stream, more);
      }
    }
  }

  /** Over any run, with sealing and flushes failing in any way and calls retried in any way: the data sealed is what
      was reported and at most what the last call left unreported, each byte once, exactly when no retry comes with
      less than was already written. In any case all that was sealed goes out in order, none of it twice; and the
      early data stays within the ticket's limit. */
  lemma EveryByteIsSealedOnce(s: Session, earlyOpen: bool, events: seq<Event>, stream: seq<byte>)
    requires AllOfStream(Steps(s), Fresh(earlyOpen), events, stream, 0)
    ensures var (c, accepted) := Run(Steps(s), Fresh(earlyOpen), events, 0);
            && (NeverShort(Steps(s), Fresh(earlyOpen), events) <==>
                accepted + c.wnum + PendingData(c) <= |stream|
                && AppData(c.log) == stream[..accepted + c.wnum + PendingData(c)])
            && c.wire + c.unsent + Waiting(c) == SealedBytes(s, c.log)
            && EarlyLength(c.log) <= s.ticketMaxEarlyData
  {
    StepsKeepMoving(s, stream);
    StepsKeepOrder(s);
    RunSealsOnceExactly(Steps(s), Fresh(earlyOpen), events, stream, 0);
    RunKeepsOrder(s, Steps(s), Fresh(earlyOpen), events, 0);
  }
}

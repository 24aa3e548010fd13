/** Writing application data without blocking: what a call seals, what stays pending, and what a retry makes of it. */
module TlsWrite {
  import opened Bytes

  /** SSL3_RT_MAX_PLAIN_LENGTH. */
  const MAX_PLAIN_LENGTH: nat := 16384

  datatype ContentType = ApplicationData | Alert

  /** What was put out, in order: a record, perhaps of early data, or handshake bytes that were sealed before. */
  datatype Entry = Sealed(kind: ContentType, plain: seq<byte>, early: bool) | Handshake(bytes: seq<byte>)

  type Positive = x: int | x > 0 witness 1

  /** The arguments of the write that sealed a record which is not flushed yet. A buffer is known by its address. */
  datatype Pending = Pending(kind: ContentType, address: int, total: Positive)

  /** How the connection seals its record number so and so, if it can, and how much early data its ticket allows. */
  datatype Session = Session(seal: (nat, ContentType, seq<byte>) -> Option<seq<byte>>, ticketMaxEarlyData: nat)

  /** The writing half of a connection. `wnum` is how much of the last call's data was written before it had to give
      up; `earlyOpen` tells that data may be sent early; `unsent` is the write buffer and `flight` what is left of
      the handshake messages that wait to go out, if there is a flight; one that has gone but was not flushed is empty.
      */
  datatype Connection = Connection(
    wnum: nat, pending: Option<Pending>, earlyWritten: nat, earlyOpen: bool, shutdown: bool,
    log: seq<Entry>, unsent: seq<byte>, flight: Option<seq<byte>>, wire: seq<byte>)

  /** The settings in force at a call; the ones of a retry may differ. */
  datatype Modes = Modes(maxSendFragment: nat, partialWrite: bool, movingBuffer: bool)

  // ---------- Flushing ----------

  /** tls_write_buffer_flush, given what the transport answers, one write after the other; after its last answer it
      takes whatever is left. */
  function Flush(c: Connection, bio: seq<int>): (r: (Connection, int))
    ensures r.1 > 0 <==> r.0.unsent == []
    ensures r.1 == 1 || (r.1 <= 0 && r.1 in bio)
    ensures r.0 == c.(unsent := r.0.unsent, wire := r.0.wire)
    decreases |bio|
  {
    if c.unsent == [] then (c, 1)
    else if bio == [] then (c.(unsent := [], wire := c.wire + c.unsent), 1)
    else if bio[0] <= 0 then (c, bio[0])
    else
      var k := if bio[0] < |c.unsent| then bio[0] else |c.unsent|;
      Flush(c.(unsent := c.unsent[k..], wire := c.wire + c.unsent[..k]), bio[1..])
  }

  /** The transport's answers to the next flush; without any it is not ready. */
  function NextFlush(flushes: seq<seq<int>>): seq<int> {
    if flushes == [] then [-1] else flushes[0]
  }

  function LaterFlushes(flushes: seq<seq<int>>): seq<seq<int>> {
    if flushes == [] then [] else flushes[1..]
  }

  // ---------- Writing ----------

  /** ssl3_write_pending: a retry has to be of the same kind, from the same place unless buffers may move, and not
      shorter. */
  function WritePending(c: Connection, m: Modes, kind: ContentType, address: int, len: nat, bio: seq<int>)
    : (r: (Connection, int))
    requires c.pending.Some?
    ensures r.1 > 0 ==> r.1 == c.pending.value.total <= len && r.0.pending.None? && c.pending.value.kind == kind
    ensures r.1 <= 0 ==> r.0.pending == c.pending
    ensures r.0.log == c.log
    ensures r.0 == c.(pending := r.0.pending, unsent := r.0.unsent, wire := r.0.wire)
  {
    var p := c.pending.value;
    if p.total > len || (!m.movingBuffer && p.address != address) || p.kind != kind then (c, -1)
    else
      var (flushed, ret) := Flush(c, bio);
      if ret <= 0 then (flushed, ret) else (flushed.(pending := None), p.total)
  }

  function LogRecord(log: seq<Entry>, kind: ContentType, data: seq<byte>, early: bool): seq<Entry> {
    log + [Sealed(kind, data, early)]
  }

  /** The handshake bytes that wait. */
  function Waiting(c: Connection): seq<byte> {
    if c.flight.Some? then c.flight.value else []
  }

  /** The handshake bytes that wait go into the empty write buffer. */
  function Uncork(c: Connection): Connection {
    c.(unsent := Waiting(c), flight := None)
  }

  /** Behind them, a record. */
  function RecordSealed(c: Connection, kind: ContentType, address: int, data: seq<byte>, early: bool, bytes: seq<byte>)
    : Connection
    requires data != []
  {
    Uncork(c).(log := LogRecord(c.log, kind, data, early),
               unsent := Waiting(c) + bytes,
               pending := Some(Pending(kind, address, |data|)))
  }

  /** do_ssl3_write, and whether it came to flushing. If sealing fails, the handshake bytes stay in the write buffer. */
  function DoWrite(s: Session, c: Connection, m: Modes, kind: ContentType, address: int, data: seq<byte>, early: bool,
                   bio: seq<int>): (r: (Connection, int, bool))
    ensures r.1 <= |data|
    ensures r.0.earlyOpen == c.earlyOpen && r.0.earlyWritten == c.earlyWritten
    ensures r.0.wnum == c.wnum && r.0.shutdown == c.shutdown
  {
    if c.pending.Some? then
      var (after, ret) := WritePending(c, m, kind, address, |data|, bio);
      (after, ret, true)
    else if |data| > MAX_PLAIN_LENGTH || c.unsent != [] then (c, -1, false)
    else if |data| == 0 then (c, 0, false)
    else
      match s.seal(|c.log|, kind, data)
      case None => (Uncork(c), -1, false)
      case Some(bytes) =>
        var sealed := RecordSealed(c, kind, address, data, early, bytes);
        var (after, ret) := WritePending(sealed, m, kind, address, |data|, bio);
        (after, ret, true)
  }

  /** A write of application data: where it is, and whether it is early data. */
  datatype Call = Call(modes: Modes, address: int, data: seq<byte>, early: bool)

  datatype Outcome = Outcome(c: Connection, ret: int, needsHandshake: bool)

  datatype Round = Stop(outcome: Outcome) | Again(c: Connection, tot: nat, flushes: seq<seq<int>>)

  /** Whether the ticket limits the next record more than its own size does, and how much it may hold. */
  predicate LimitedByTicket(s: Session, c: Connection, call: Call) {
    call.early && call.modes.maxSendFragment > s.ticketMaxEarlyData - c.earlyWritten
  }

  function RecordLength(s: Session, c: Connection, call: Call, n: nat): (nw: nat)
    ensures nw <= n
    ensures call.early && c.earlyWritten <= s.ticketMaxEarlyData ==> nw <= s.ticketMaxEarlyData - c.earlyWritten
  {
    var max := if LimitedByTicket(s, c, call) then s.ticketMaxEarlyData - c.earlyWritten
               else call.modes.maxSendFragment;
    if n > max then (if max < 0 then 0 else max) else n
  }

  function Chunk(s: Session, c: Connection, call: Call, tot: nat): seq<byte>
    requires tot <= |call.data|
  {
    call.data[tot..tot + RecordLength(s, c, call, |call.data| - tot)]
  }

  function Counted(c: Connection, call: Call, ret: nat): Connection {
    if call.early then c.(earlyWritten := c.earlyWritten + ret) else c
  }

  /** What the loop does when a record with the data from `tot` on was written or not. */
  function AfterWrite(call: Call, tot: nat, written: (Connection, int, bool), flushes: seq<seq<int>>): (r: Round)
    requires tot <= |call.data| && written.1 <= |call.data| - tot
    ensures r.Again? ==> tot < r.tot <= |call.data| && r.c.earlyOpen == written.0.earlyOpen
  {
    var (after, ret, flushed) := written;
    if ret <= 0 then Stop(Outcome(after.(wnum := tot), ret, false))
    else if ret == |call.data| - tot || call.modes.partialWrite then
      Stop(Outcome(Counted(after, call, ret), tot + ret, false))
    else Again(Counted(after, call, ret), tot + ret, if flushed then LaterFlushes(flushes) else flushes)
  }

  function WriteChunk(s: Session, c: Connection, call: Call, tot: nat, bio: seq<int>): (r: (Connection, int, bool))
    requires tot <= |call.data|
    ensures r.1 <= |call.data| - tot && r.0.earlyOpen == c.earlyOpen
  {
    DoWrite(s, c, call.modes, ApplicationData, call.address + tot, Chunk(s, c, call, tot), call.early, bio)
  }

  /** One round of the loop in ssl3_write_app_data, with `tot` bytes of the data written. */
  function WriteRound(s: Session, c: Connection, call: Call, tot: nat, flushes: seq<seq<int>>): (r: Round)
    requires tot <= |call.data|
    ensures r.Again? ==> tot < r.tot <= |call.data| && r.c.earlyOpen == c.earlyOpen
  {
    if LimitedByTicket(s, c, call) && s.ticketMaxEarlyData == c.earlyWritten then
      Stop(Outcome(c.(wnum := tot, earlyOpen := false), -1, true))
    else AfterWrite(call, tot, WriteChunk(s, c, call, tot, NextFlush(flushes)), flushes)
  }

  function WriteFrom(s: Session, c: Connection, call: Call, tot: nat, flushes: seq<seq<int>>): Outcome
    requires tot <= |call.data|
    decreases |call.data| - tot
  {
    match WriteRound(s, c, call, tot, flushes)
    case Stop(outcome) => outcome
    case Again(next, more, later) => WriteFrom(s, next, call, more, later)
  }

  /** ssl3_write_app_data. A call with less data than was already written fails, and what was written is forgotten. */
  function WriteAppData(s: Session, c: Connection, m: Modes, address: int, data: seq<byte>, flushes: seq<seq<int>>)
    : Outcome
  {
    if c.shutdown then Outcome(c, -1, false)
    else if |data| < c.wnum then Outcome(c.(wnum := 0), -1, false)
    else WriteFrom(s, c.(wnum := 0), Call(m, address, data, c.earlyOpen), c.wnum, flushes)
  }

  /** ssl3_dispatch_alert. */
  function DispatchAlert(s: Session, c: Connection, m: Modes, address: int, alert: seq<byte>, bio: seq<int>)
    : (Connection, int)
  {
    var (after, ret, _) := DoWrite(s, c, m, Alert, address, alert, false, bio);
    (after, if ret <= 0 then ret else 1)
  }

  /** Sealed handshake messages that join the flight. */
  function AddFlight(c: Connection, bytes: seq<byte>): Connection {
    c.(log := c.log + [Handshake(bytes)], flight := Some(Waiting(c) + bytes))
  }

  /** ssl3_flush_flight: the write buffer goes first. What the transport answers to its own final flush is `flushed`;
      if that fails, the flight stays, with nothing left of it to send. */
  function FlushFlight(c: Connection, buffer: seq<int>, bio: seq<int>, flushed: int): (Connection, int) {
    if c.flight.None? then (c, 1)
    else if c.shutdown then (c, -1)
    else
      var (clear, ret) := Flush(c, buffer);
      if ret <= 0 then (clear, ret)
      else
        var (gone, sent) := Flush(clear.(unsent := Waiting(clear), flight := None), bio);
        if sent > 0 && flushed > 0 then (gone, 1)
        else (gone.(flight := Some(gone.unsent), unsent := []), if sent <= 0 then sent else -1)
  }
}

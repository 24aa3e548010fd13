/** The writing half of a TLS connection as it runs. */
module TlsWriter {
  import opened Bytes
  import opened TlsWrite

  class Writer {
    const session: Session
    var wnum: nat
    var wpend: Option<Pending>
    var earlyDataWritten: nat
    var earlyOpen: bool
    var writeShutdown: bool
    var writeBuffer: seq<byte>
    var pendingFlight: Option<seq<byte>>
    var wire: seq<byte>
    ghost var log: seq<Entry>
    var sequence: nat

    ghost predicate Valid()
      reads this
    {
      sequence == |log|
    }

    ghost function Now(): Connection
      reads this
    {
      Connection(wnum, wpend, earlyDataWritten, earlyOpen, writeShutdown, log, writeBuffer, pendingFlight, wire)
    }

    constructor (session: Session, earlyOpen: bool)
      ensures Valid() && this.session == session
      ensures Now() == Connection(0, None, 0, earlyOpen, false, [], [], None, [])
    {
      this.session, this.earlyOpen := session, earlyOpen;
      wnum, wpend, earlyDataWritten, writeShutdown := 0, None, 0, false;
      writeBuffer, pendingFlight, wire, log, sequence := [], None, [], [], 0;
    }

    /** tls_write_buffer_flush. */
    method FlushBuffer(bio: seq<int>) returns (ret: int)
      requires Valid()
      modifies this`writeBuffer, this`wire
      ensures Valid() && (Now(), ret) == Flush(old(Now()), bio)
    {
      var i := 0;
      while writeBuffer != []
        invariant i <= |bio| && (writeBuffer != [] || Flush(old(Now()), bio) == (Now(), 1))
        invariant Flush(old(Now()), bio) == Flush(Now(), bio[i..])
        decreases |writeBuffer|
      {
        var taken := if i < |bio| then bio[i] else |writeBuffer|;
        if taken <= 0 {
          return taken;
        }
        if taken > |writeBuffer| {
          taken := |writeBuffer|;
        }
        assert i < |bio| ==> bio[i..][0] == bio[i] && bio[i..][1..] == bio[i + 1..];
        assert writeBuffer[..|writeBuffer|] == writeBuffer;
        wire, writeBuffer := wire + writeBuffer[..taken], writeBuffer[taken..];
        i := if i < |bio| then i + 1 else i;
      }
      return 1;
    }

    method WritePendingRecord(m: Modes, kind: ContentType, address: int, len: nat, bio: seq<int>) returns (ret: int)
      requires Valid() && wpend.Some?
      modifies this`wpend, this`writeBuffer, this`wire
      ensures Valid() && (Now(), ret) == WritePending(old(Now()), m, kind, address, len, bio)
    {
      if wpend.value.total > len || (!m.movingBuffer && wpend.value.address != address) || wpend.value.kind != kind {
        return -1;
      }
      ret := FlushBuffer(bio);
      if ret <= 0 {
        return;
      }
      ret := wpend.value.total;
      wpend := None;
    }

    /** Puts the handshake bytes that wait and one sealed record into the write buffer. */
    method SealRecord(kind: ContentType, address: int, data: seq<byte>, early: bool) returns (ok: bool)
      requires Valid() && writeBuffer == [] && data != []
      modifies this`wpend, this`writeBuffer, this`pendingFlight, this`log, this`sequence
      ensures Valid() && ok == session.seal(|old(log)|, kind, data).Some?
      ensures Now() == if ok then RecordSealed(old(Now()), kind, address, data, early,
                                               session.seal(|old(log)|, kind, data).value)
                       else Uncork(old(Now()))
    {
      if pendingFlight.Some? {
        writeBuffer, pendingFlight := pendingFlight.value, None;
      }
      var sealed := session.seal(sequence, kind, data);
      if sealed.None? {
        return false;
      }
      writeBuffer := writeBuffer + sealed.value;
      log, sequence := LogRecord(log, kind, data, early), sequence + 1;
      wpend := Some(Pending(kind, address, |data|));
      ok := true;
    }

    /** do_ssl3_write. */
    method DoWriteRecord(m: Modes, kind: ContentType, address: int, data: seq<byte>, early: bool, bio: seq<int>)
      returns (ret: int, flushed: bool)
      requires Valid()
      modifies this`wpend, this`writeBuffer, this`pendingFlight, this`wire, this`log, this`sequence
      ensures Valid() && (Now(), ret, flushed) == DoWrite(session, old(Now()), m, kind, address, data, early, bio)
    {
      if wpend.Some? {
        ret := WritePendingRecord(m, kind, address, |data|, bio);
        return ret, true;
      }
      if |data| > MAX_PLAIN_LENGTH || |writeBuffer| > 0 {
        return -1, false;
      }
      if |data| == 0 {
        return 0, false;
      }
      var ok := SealRecord(kind, address, data, early);
      if !ok {
        return -1, false;
      }
      ret := WritePendingRecord(m, kind, address, |data|, bio);
      return ret, true;
    }

    /** The next record of a write, as large as it may be. */
    method WriteNext(call: Call, tot: nat, bio: seq<int>) returns (ret: int, flushed: bool)
      requires Valid() && tot <= |call.data|
      modifies this`wpend, this`writeBuffer, this`pendingFlight, this`wire, this`log, this`sequence
      ensures Valid() && (Now(), ret, flushed) == WriteChunk(session, old(Now()), call, tot, bio)
    {
      var n, max: int := |call.data| - tot, call.modes.maxSendFragment;
      if call.early && max > session.ticketMaxEarlyData - earlyDataWritten {
        max := session.ticketMaxEarlyData - earlyDataWritten;
      }
      var nw := if n > max then (if max < 0 then 0 else max) else n;
      assert call.data[tot..tot + nw] == Chunk(session, Now(), call, tot);
      var chunk := call.data[tot..tot + nw];
      ret, flushed := DoWriteRecord(call.modes, ApplicationData, call.address + tot, chunk, call.early, bio);
    }

    /** The body of the loop in ssl3_write_app_data. It returns, or it goes on with more of the data written. */
    method WriteSome(call: Call, tot: nat, flushes: seq<seq<int>>)
      returns (stop: bool, ret: int, needsHandshake: bool, more: nat, later: seq<seq<int>>)
      requires Valid() && tot <= |call.data|
      modifies this
      ensures Valid()
      ensures WriteRound(session, old(Now()), call, tot, flushes) ==
              if stop then Stop(Outcome(Now(), ret, needsHandshake)) else Again(Now(), more, later)
    {
      needsHandshake, more, later := false, tot, flushes;
      if call.early && call.modes.maxSendFragment > session.ticketMaxEarlyData - earlyDataWritten
         && session.ticketMaxEarlyData == earlyDataWritten {
        wnum, earlyOpen := tot, false;
        return true, -1, true, tot, flushes;
      }
      var flushed;
      ret, flushed := WriteNext(call, tot, NextFlush(flushes));
      if ret <= 0 {
        wnum := tot;
        return true, ret, false, tot, flushes;
      }
      if call.early {
        earlyDataWritten := earlyDataWritten + ret;
      }
      if ret == |call.data| - tot || call.modes.partialWrite {
        return true, tot + ret, false, tot, flushes;
      }
      return false, ret, false, tot + ret, if flushed then LaterFlushes(flushes) else flushes;
    }

    /** ssl3_write_app_data. */
    method Write(m: Modes, address: int, data: seq<byte>, flushes: seq<seq<int>>) returns (ret: int,
                 needsHandshake: bool)
      requires Valid()
      modifies this
      ensures Valid()
              && Outcome(Now(), ret, needsHandshake) == WriteAppData(session, old(Now()), m, address, data, flushes)
    {
      if writeShutdown {
        return -1, false;
      }
      var tot := wnum;
      wnum := 0;
      if |data| < tot {
        return -1, false;
      }
      var call, rest := Call(m, address, data, earlyOpen), flushes;
      ghost var outcome := WriteFrom(session, Now(), call, tot, rest);
      while true
        invariant Valid() && tot <= |data| && WriteFrom(session, Now(), call, tot, rest) == outcome
        decreases |data| - tot
      {
        var stop;
        stop, ret, needsHandshake, tot, rest := WriteSome(call, tot, rest);
        if stop {
          return;
        }
      }
    }

    /** ssl3_dispatch_alert. */
    method SendAlert(m: Modes, address: int, alert: seq<byte>, bio: seq<int>) returns (ret: int)
      requires Valid()
      modifies this
      ensures Valid() && (Now(), ret) == DispatchAlert(session, old(Now()), m, address, alert, bio)
    {
      var flushed: bool;
      ret, flushed := DoWriteRecord(m, Alert, address, alert, false, bio);
      if ret > 0 {
        ret := 1;
      }
    }

    method AddToFlight(bytes: seq<byte>)
      requires Valid()
      modifies this
      ensures Valid() && Now() == AddFlight(old(Now()), bytes)
    {
      pendingFlight := Some((if pendingFlight.Some? then pendingFlight.value else []) + bytes);
      log, sequence := log + [Handshake(bytes)], sequence + 1;
    }

    /** ssl3_flush_flight, the offset into the flight being what is gone of it. */
    method FlushPendingFlight(buffer: seq<int>, bio: seq<int>, flushed: int) returns (ret: int)
      requires Valid()
      modifies this`writeBuffer, this`pendingFlight, this`wire
      ensures Valid() && (Now(), ret) == FlushFlight(old(Now()), buffer, bio, flushed)
    {
      if pendingFlight.None? {
        return 1;
      }
      if writeShutdown {
        return -1;
      }
      ret := FlushBuffer(buffer);
      if ret <= 0 {
        return;
      }
      writeBuffer, pendingFlight := pendingFlight.value, None;
      ret := FlushBuffer(bio);
      if ret > 0 && flushed > 0 {
        return 1;
      }
      writeBuffer, pendingFlight := [], Some(writeBuffer);
      if ret > 0 {
        ret := -1;
      }
    }
  }
}

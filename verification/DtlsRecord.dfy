/** The DTLS record layer as it runs: from a datagram to the contents of its next record. */
module DtlsRecord {
  import opened Bits
  import opened Bytes
  import opened DtlsReplay

  const RECORD_HEADER_LENGTH: nat := 13
  const MAJOR_VERSION: nat := 0xFE
  const MAX_WARNING_ALERTS: nat := 4

  // Section 6.2.1 of RFC 5246 and, for alerts, section 7.2.
  const RT_ALERT: byte := 21
  const LEVEL_WARNING: byte := 1
  const CLOSE_NOTIFY: byte := 0

  // ---------- Records ----------

  datatype Record = Record(recordType: byte, version: nat, sequence: seq<byte>, body: seq<byte>)

  predicate WireSized(r: Record) {
    r.version < 0x1_0000 && |r.sequence| == 8 && |r.body| < 0x1_0000
  }

  function RecordBytes(r: Record): (s: seq<byte>)
    requires WireSized(r)
    ensures |s| == RECORD_HEADER_LENGTH + |r.body|
  {
    [r.recordType] + ToBigEndian(r.version, 2) + r.sequence + ToBigEndian(|r.body|, 2) + r.body
  }

  lemma TwoBytes(s: seq<byte>)
    requires |s| == 2
    ensures BigEndian(s) < 0x1_0000
  {
    BigEndianBound(s);
    assert Pow256(2) == 0x1_0000;
  }

  /** The record at the front of a datagram. */
  function ParseRecord(s: seq<byte>): (r: Parse<Record>)
    ensures r.Ok? ==> WireSized(r.value) && |s| == RECORD_HEADER_LENGTH + |r.value.body| + |r.rest|
  {
    if |s| < RECORD_HEADER_LENGTH then Fail
    else
      var length := BigEndian(s[11..13]);
      if |s| - RECORD_HEADER_LENGTH < length then Fail
      else
        TwoBytes(s[1..3]);
        TwoBytes(s[11..13]);
        Ok(Record(s[0], BigEndian(s[1..3]), s[3..11], s[13..13 + length]), s[13 + length..])
  }

  /** A record that was written is read as it was, and what is behind it in the datagram comes next. */
  lemma RecordRoundTrip(r: Record, rest: seq<byte>)
    requires WireSized(r)
    ensures ParseRecord(RecordBytes(r) + rest) == Ok(r, rest)
  {
    var s := RecordBytes(r) + rest;
    assert Pow256(2) == 0x1_0000;
    BigEndianRoundTrip(r.version, 2);
    BigEndianRoundTrip(|r.body|, 2);
    assert s[1..3] == ToBigEndian(r.version, 2) && s[11..13] == ToBigEndian(|r.body|, 2);
    assert s[3..11] == r.sequence && s[13..13 + |r.body|] == r.body && s[13 + |r.body|..] == rest;
  }

  /** What is read is what the bytes at the front spell. */
  lemma ParsedIsSpelled(s: seq<byte>)
    requires ParseRecord(s).Ok?
    ensures s == RecordBytes(ParseRecord(s).value) + ParseRecord(s).rest
  {
    var r := ParseRecord(s).value;
    ToBigEndianOf(s[1..3]);
    ToBigEndianOf(s[11..13]);
    assert s[..13] == [s[0]] + s[1..3] + s[3..11] + s[11..13];
    assert s == s[..13] + r.body + ParseRecord(s).rest;
  }

  /** Without keys only the major version is checked. */
  datatype ReadCipher = NullCipher | Keyed(version: nat)

  predicate VersionFits(c: ReadCipher, version: nat) {
    match c
    case NullCipher => version / 256 == MAJOR_VERSION
    case Keyed(v) => version == v
  }

  /** The record that a datagram is taken to begin with; if there is none, the whole datagram is dropped. */
  function FirstRecord(packet: seq<byte>, cipher: ReadCipher, maxEncrypted: nat): (r: Parse<Record>)
    ensures r.Ok? ==> r == ParseRecord(packet)
  {
    var r := ParseRecord(packet);
    if r.Ok? && |r.value.body| <= maxEncrypted && VersionFits(cipher, r.value.version) then r else Fail
  }

  /** What the replay window gets to see of a record, given what its body decrypts to. */
  function Seen(r: Record, clear: Option<seq<byte>>): Event {
    Arrive(BigEndian(r.sequence), clear.Some?, if clear.Some? then |clear.value| else 0)
  }

  // ---------- Alerts ----------

  datatype OpenResult = Success | Discard | Partial | CloseNotify | Error

  /** The connection was not closed, or it was by a close_notify. */
  datatype Alerts = Alerts(warnings: nat, closed: bool)

  /** ssl_process_alert: one alert to a record; a few warnings in a row are ignored. */
  function ProcessAlert(a: Alerts, alert: seq<byte>): (Alerts, OpenResult) {
    if |alert| != 2 then (a, Error)
    else if alert[0] == LEVEL_WARNING && alert[1] == CLOSE_NOTIFY then (a.(closed := true), CloseNotify)
    else if alert[0] == LEVEL_WARNING then
      (a.(warnings := a.warnings + 1), if a.warnings + 1 > MAX_WARNING_ALERTS then Error else Discard)
    else (a, Error)
  }

  /** What the record layer makes of the plaintext of one accepted record after the other. */
  function AfterRecord(a: Alerts, recordType: byte, plain: seq<byte>): (Alerts, OpenResult) {
    if recordType == RT_ALERT then ProcessAlert(a, plain) else (a.(warnings := 0), Success)
  }

  predicate IsWarning(recordType: byte, plain: seq<byte>) {
    recordType == RT_ALERT && |plain| == 2 && plain[0] == LEVEL_WARNING && plain[1] != CLOSE_NOTIFY
  }

  /** The records accepted so far, the last one last, and what they made of the connection. */
  function AfterRecords(rs: seq<(byte, seq<byte>)>): Alerts {
    if rs == [] then Alerts(0, false)
    else
      var last := rs[|rs| - 1];
      AfterRecord(AfterRecords(rs[..|rs| - 1]), last.0, last.1).0
  }

  /** How many warnings there were since the last record that was no alert. */
  function WarningsInARow(rs: seq<(byte, seq<byte>)>): nat {
    if rs == [] then 0
    else
      var last, before := rs[|rs| - 1], WarningsInARow(rs[..|rs| - 1]);
      if last.0 != RT_ALERT then 0 else if IsWarning(last.0, last.1) then before + 1 else before
  }

  /** A warning is ignored exactly if at most four came in a row, itself included. */
  lemma WarningsIgnoredExactly(rs: seq<(byte, seq<byte>)>, plain: seq<byte>)
    requires IsWarning(RT_ALERT, plain)
    ensures AfterRecord(AfterRecords(rs), RT_ALERT, plain).1 ==
            if WarningsInARow(rs + [(RT_ALERT, plain)]) <= MAX_WARNING_ALERTS then Discard else Error
  {
    var all := rs + [(RT_ALERT, plain)];
    assert all[..|all| - 1] == rs;
    WarningsCounted(rs);
  }

  lemma {:induction false} WarningsCounted(rs: seq<(byte, seq<byte>)>)
    ensures AfterRecords(rs).warnings == WarningsInARow(rs)
  {
    if rs != [] {
      WarningsCounted(rs[..|rs| - 1]);
    }
  }

  /** An alert closes the connection exactly if it is a close_notify, is ignored exactly if it is another warning and at
      most the fourth in a row, and is an error otherwise: a fatal one, one of no known level, and what is no alert. */
  lemma AlertOutcomeExactly(rs: seq<(byte, seq<byte>)>, plain: seq<byte>)
    ensures var r := AfterRecord(AfterRecords(rs), 21, plain).1;
            && (r == CloseNotify <==> plain == [1, 0])
            && (r == Discard <==> |plain| == 2 && plain[0] == 1 && plain[1] != 0
                                  && WarningsInARow(rs + [(21, plain)]) <= 4)
            && (r == CloseNotify || r == Discard || r == Error)
  {
    if IsWarning(21, plain) {
      WarningsIgnoredExactly(rs, plain);
    }
  }

  function Joined(high: int, low: int): int {
    256 * high + low
  }

  lemma NumberOfTwo(s: seq<byte>)
    requires |s| == 2
    ensures BigEndian(s) == Joined(s[0], s[1]) && BigEndian(s) / 256 == s[0]
  {
    assert s[..1] == [s[0]] && s[..1][..0] == [];
    assert BigEndian(s[..1]) == s[0];
  }

  /** A datagram begins with a record exactly if it has the 13 bytes of a header, the body that the last two of them
      announce, and the version: any with major number 0xFE without keys, just the one in use with them. */
  lemma HeaderExactly(packet: seq<byte>, cipher: ReadCipher, maxEncrypted: nat)
    ensures FirstRecord(packet, cipher, maxEncrypted).Ok? <==>
            && |packet| >= 13
            && Joined(packet[11], packet[12]) <= maxEncrypted && 13 + Joined(packet[11], packet[12]) <= |packet|
            && match cipher
               case NullCipher => packet[1] == 0xFE
               case Keyed(v) => Joined(packet[1], packet[2]) == v
    ensures var r := FirstRecord(packet, cipher, maxEncrypted);
            r.Ok? ==>
              var n := 13 + Joined(packet[11], packet[12]);
              && r.value.recordType == packet[0] && r.value.sequence == packet[3..11]
              && r.value.body == packet[13..n] && r.rest == packet[n..]
  {
    if |packet| >= 13 {
      NumberOfTwo(packet[1..3]);
      NumberOfTwo(packet[11..13]);
    }
  }

  // ---------- The reader ----------

  /** A record that would be taken if it decrypted to no more than 16384 bytes. */
  predicate TooLong(r: Reader, e: Event) {
    e.Arrive? && e.length > 16384 && Accepts(r, e.(length := 0))
  }

  lemma ShiftInByte(ret: nat, b: byte)
    ensures BitOr(Scale(ret, 8), b) == 256 * ret + b
  {
    OrOfDisjointBitsAdds(b, ret, 8);
    BitOrCommutes(Scale(ret, 8), b);
    ScaleBySeven(ret, 0);
    ScaleBySeven(ret, 1);
    assert Scale(ret, 1) == 2 * ret;
    ScaleBySeven(1, 1);
  }

  /** to_u64_be. */
  method ToU64(bytes: seq<byte>) returns (ret: nat)
    requires |bytes| == 8
    ensures ret == BigEndian(bytes)
  {
    ret := 0;
    assert bytes[..0] == [];
    for i := 0 to 8
      invariant ret == BigEndian(bytes[..i])
    {
      ShiftInByte(ret, bytes[i]);
      ret := BitOr(Scale(ret, 8), bytes[i]);
      assert bytes[..i + 1][..i] == bytes[..i];
    }
    assert bytes[..8] == bytes;
  }

  lemma EpochOfBytes(s: seq<byte>)
    requires |s| == 8
    ensures Epoch(BigEndian(s)) == BigEndian(s[..2])
  {
    assert s == s[..2] + s[2..];
    BigEndianSplit(s[..2], s[2..]);
    BigEndianBound(s[2..]);
    assert Pow256(6) == TWO_TO_THE_48;
  }

  class RecordReader {
    /** SSL3_RT_MAX_ENCRYPTED_LENGTH; ssl3.h is not part of this model. */
    const maxEncrypted: nat
    var rEpoch: nat
    var bits: nat
    var maxSeqNum: nat
    var cipher: ReadCipher
    var closed: bool
    var warningAlertCount: nat
    /** What has happened so far to the window, and the records that were accepted. */
    ghost var events: seq<Event>
    ghost var records: seq<(byte, seq<byte>)>

    ghost predicate Counted()
      reads this`warningAlertCount, this`closed, this`records
    {
      Alerts(warningAlertCount, closed) == AfterRecords(records)
    }

    ghost predicate Valid()
      reads this
    {
      Reader(rEpoch, Bitmap(bits, maxSeqNum)) == Run(events) && Counted()
    }

    constructor (maxEncrypted: nat)
      ensures Valid() && events == [] && records == [] && cipher == NullCipher && this.maxEncrypted == maxEncrypted
    {
      this.maxEncrypted, cipher, closed, warningAlertCount := maxEncrypted, NullCipher, false, 0;
      rEpoch, bits, maxSeqNum, events, records := 0, 0, 0, [], [];
    }

    /** dtls1_bitmap_should_discard. */
    method BitmapShouldDiscard(sequence: seq<byte>) returns (discard: bool)
      requires |sequence| == 8
      ensures discard == ShouldDiscard(Bitmap(bits, maxSeqNum), BigEndian(sequence))
    {
      var seqNum := ToU64(sequence);
      if seqNum > maxSeqNum {
        return false;
      }
      var idx := maxSeqNum - seqNum;
      discard := idx >= WINDOW_SIZE || BitAnd(bits, Scale(1, idx)) != 0;
    }

    /** dtls1_bitmap_record. */
    method BitmapRecord(sequence: seq<byte>)
      requires |sequence| == 8
      modifies this`bits, this`maxSeqNum
      ensures Bitmap(bits, maxSeqNum) == DtlsReplay.Record(Bitmap(old(bits), old(maxSeqNum)), BigEndian(sequence))
    {
      var seqNum := ToU64(sequence);
      if seqNum > maxSeqNum {
        var shift := seqNum - maxSeqNum;
        if shift >= WINDOW_SIZE {
          bits := 0;
        } else {
          bits := ShiftInWord(bits, shift);
        }
        maxSeqNum := seqNum;
      }
      var idx := maxSeqNum - seqNum;
      if idx < WINDOW_SIZE {
        bits := BitOr(bits, Scale(1, idx));
      }
    }

    /** Epoch, replay window, decryption and length of a record with a good header, in this order. */
    method OpenBody(sequence: seq<byte>, clear: Option<seq<byte>>) returns (r: OpenResult)
      requires Valid() && |sequence| == 8
      modifies this`events, this`bits, this`maxSeqNum
      ensures Valid()
      ensures var e := Arrive(BigEndian(sequence), clear.Some?, if clear.Some? then |clear.value| else 0);
              && events == old(events) + [e]
              && (r.Success? <==> Accepts(Run(old(events)), e))
              && (r == Success || r == Discard || r == Error)
              && (r.Error? <==> TooLong(Run(old(events)), e))
    {
      ghost var e := Arrive(BigEndian(sequence), clear.Some?, if clear.Some? then |clear.value| else 0);
      assert (events + [e])[..|events|] == events;
      events := events + [e];
      EpochOfBytes(sequence);
      var epoch := BigEndian(sequence[..2]);
      if epoch != rEpoch {
        return Discard;
      }
      var replayed := BitmapShouldDiscard(sequence);
      if replayed || clear.None? {
        return Discard;
      }
      if |clear.value| > MAX_PLAIN_LENGTH {
        return Error;
      }
      BitmapRecord(sequence);
      r := Success;
    }

    /** ssl_process_alert. */
    method TakeAlert(alert: seq<byte>) returns (r: OpenResult)
      modifies this`closed, this`warningAlertCount
      ensures (Alerts(warningAlertCount, closed), r) ==
              ProcessAlert(Alerts(old(warningAlertCount), old(closed)), alert)
    {
      if |alert| != 2 {
        return Error;
      }
      if alert[0] == LEVEL_WARNING {
        if alert[1] == CLOSE_NOTIFY {
          closed := true;
          return CloseNotify;
        }
        warningAlertCount := warningAlertCount + 1;
        return if warningAlertCount > MAX_WARNING_ALERTS then Error else Discard;
      }
      r := Error;
    }

    /** What becomes of a record that is opened: alerts are processed, and any other ends a row of warnings. */
    method TakeRecord(recordType: byte, plain: seq<byte>) returns (r: OpenResult)
      requires Counted()
      modifies this`records, this`closed, this`warningAlertCount
      ensures Counted() && records == old(records) + [(recordType, plain)]
      ensures r == AfterRecord(AfterRecords(old(records)), recordType, plain).1
    {
      assert (records + [(recordType, plain)])[..|records|] == records;
      records := records + [(recordType, plain)];
      if recordType == RT_ALERT {
        r := TakeAlert(plain);
        return;
      }
      warningAlertCount := 0;
      r := Success;
    }

    /** dtls_open_record, given what the body of the record decrypts to, if it does. A record with a bad header takes
        the rest of the datagram with it; of any other just its own bytes are consumed. */
    method OpenRecord(packet: seq<byte>, clear: Option<seq<byte>>)
      returns (r: OpenResult, recordType: byte, plain: seq<byte>, consumed: nat)
      requires Valid()
      modifies this
      ensures Valid() && rEpoch == old(rEpoch) && cipher == old(cipher)
      ensures old(closed) ==> r == CloseNotify
      ensures !old(closed) && packet == [] ==> r == Partial
      ensures old(closed) || packet == [] ==> consumed == 0 && events == old(events) && records == old(records)
      ensures !old(closed) && packet != [] ==>
                var p := FirstRecord(packet, cipher, maxEncrypted);
                if p.Fail? then r == Discard && consumed == |packet| && events == old(events) && records == old(records)
                else
                  var e := Seen(p.value, clear);
                  && consumed == |packet| - |p.rest| && events == old(events) + [e]
                  && (Accepts(Run(old(events)), e) ==>
                        && records == old(records) + [(p.value.recordType, clear.value)]
                        && r == AfterRecord(AfterRecords(old(records)), p.value.recordType, clear.value).1
                        && (r.Success? ==> recordType == p.value.recordType && plain == clear.value))
                  && (!Accepts(Run(old(events)), e) ==>
                        records == old(records) && r == if TooLong(Run(old(events)), e) then Error else Discard)
    {
      recordType, plain, consumed := 0, [], 0;
      if closed {
        return CloseNotify, 0, [], 0;
      }
      if packet == [] {
        return Partial, 0, [], 0;
      }
      var p := FirstRecord(packet, cipher, maxEncrypted);
      if p.Fail? {
        return Discard, 0, [], |packet|;
      }
      consumed := |packet| - |p.rest|;
      r := OpenBody(p.value.sequence, clear);
      if !r.Success? {
        return;
      }
      recordType, plain := p.value.recordType, clear.value;
      r := TakeRecord(recordType, plain);
    }

    /** dtls1_set_read_state. */
    method SetReadState(leftover: bool, next: ReadCipher) returns (ok: bool)
      requires Valid()
      modifies this`events, this`rEpoch, this`bits, this`maxSeqNum, this`cipher
      ensures Valid() && events == old(events) + [ChangeReadState(leftover)] && ok == !leftover
      ensures cipher == if ok then next else old(cipher)
    {
      assert (events + [ChangeReadState(leftover)])[..|events|] == events;
      events := events + [ChangeReadState(leftover)];
      if leftover {
        return false;
      }
      rEpoch := NextEpoch(rEpoch);
      bits, maxSeqNum := 0, 0;
      cipher := next;
      ok := true;
    }
  }
}

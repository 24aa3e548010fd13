/** The DTLS receiver as it runs: buffers with bitmasks in a ring of slots, kept in step with the window of messages
    that DtlsReassembly describes. */
module DtlsReceiver {
  import opened Bytes
  import opened DtlsBitmask
  import opened DtlsFragment
  import opened DtlsReassembly
  import opened DtlsRuns
  import DtlsReplay

  const MT_CCS: byte := 1

  /** The buffer holds the bytes received. */
  ghost predicate Holds(data: seq<byte>, msgLen: nat, bytes: map<nat, byte>) {
    && |data| == HM_HEADER_LENGTH + msgLen
    && forall k :: k in bytes ==> k < msgLen && data[HM_HEADER_LENGTH + k] == bytes[k]
  }

  lemma CopiedHolds(before: seq<byte>, after: seq<byte>, msgLen: nat, bytes: map<nat, byte>, f: Fragment)
    requires Holds(before, msgLen, bytes) && f.fragOff + |f.body| <= msgLen
    requires after == before[..HM_HEADER_LENGTH + f.fragOff] + f.body
                      + before[HM_HEADER_LENGTH + f.fragOff + |f.body|..]
    ensures Holds(after, msgLen, bytes + Piece(f))
    ensures after[..HM_HEADER_LENGTH] == before[..HM_HEADER_LENGTH]
  {
  }

  method CopyBody(data: array<byte>, start: nat, body: seq<byte>)
    requires start + |body| <= data.Length
    modifies data
    ensures data[..] == old(data[..start]) + body + old(data[start + |body|..])
  {
    forall i | 0 <= i < |body| {
      data[start + i] := body[i];
    }
  }

  /** An incoming message, possibly not yet complete. */
  class HmFragment {
    const msgType: byte
    const number: nat
    const msgLen: nat
    const data: array<byte>
    var reassembly: array?<byte>
    /** The bytes received so far. */
    ghost var bytes: map<nat, byte>

    ghost function Abs(): Assembly
      reads this
    {
      Assembly(msgType, msgLen, bytes)
    }

    /** The objects a fragment is made of. */
    ghost const Footprint: set<object>

    /** The bitmask is the set of received positions, and is dropped exactly when that is all of them. */
    ghost predicate Valid()
      reads this, data, reassembly
    {
      && data.Length == HM_HEADER_LENGTH + msgLen && data != reassembly
      && this in Footprint && data in Footprint && (reassembly != null ==> reassembly in Footprint)
      && data[..HM_HEADER_LENGTH] == HeaderBytes(msgType, msgLen, number, 0, msgLen)
      && Holds(data[..], msgLen, bytes)
      && (reassembly == null <==> Complete(Abs()))
      && (reassembly != null ==> Notes(reassembly[..], msgLen, bytes.Keys))
    }

    /** dtls1_hm_fragment_new: an empty message needs no bitmask. */
    constructor (f: Fragment)
      ensures Valid() && Abs() == Start(f) && number == f.number && fresh(Footprint)
    {
      msgType, number, msgLen := f.msgType, f.number, f.msgLen;
      var header := HeaderBytes(f.msgType, f.msgLen, f.number, 0, f.msgLen);
      data := new byte[HM_HEADER_LENGTH + f.msgLen](i requires 0 <= i => if i < HM_HEADER_LENGTH then header[i] else 0);
      reassembly := null;
      bytes := map[];
      var mask := new byte[(f.msgLen + 7) / 8](_ => 0);
      if f.msgLen > 0 {
        reassembly := mask;
      }
      Footprint := {this, data, mask};
      new;
      NothingNoted(mask[..], msgLen);
      assert msgLen > 0 ==> 0 !in bytes;
    }

    /** dtls1_hm_fragment_mark. */
    method Mark(start: nat, end: nat, ghost got: set<nat>, ghost range: set<nat>)
      requires reassembly != null && Notes(reassembly[..], msgLen, got) && !AllOf(got, 0, msgLen)
      requires start <= end <= msgLen && forall k :: k in range <==> start <= k < end
      modifies this`reassembly, reassembly
      ensures reassembly == if AllOf(got + range, 0, msgLen) then null else old(reassembly)
      ensures reassembly != null ==> Notes(reassembly[..], msgLen, got + range)
    {
      if start == end {
        assert got + range == got;
        return;
      }
      SetRange(reassembly, start, end);
      RangeNoted(old(reassembly[..]), reassembly[..], msgLen, got, range, start, end);
      var full := IsFull(reassembly, msgLen, got + range);
      if full {
        reassembly := null;
      }
    }

    /** A fragment of an unfinished message: its body is copied and marked. */
    method Add(f: Fragment)
      requires Valid() && reassembly != null && f.fragOff + |f.body| <= msgLen
      modifies this, data, reassembly
      ensures Valid() && Abs() == Insert(old(Abs()), f)
    {
      ghost var got, range := bytes.Keys, Piece(f).Keys;
      assert !AllOf(got, 0, msgLen);
      CopyBody(data, HM_HEADER_LENGTH + f.fragOff, f.body);
      CopiedHolds(old(data[..]), data[..], msgLen, bytes, f);
      Mark(f.fragOff, f.fragOff + |f.body|, got, range);
      bytes := bytes + Piece(f);
      assert bytes.Keys == got + range;
      assert Complete(Abs()) <==> AllOf(got + range, 0, msgLen);
    }
  }

  datatype RecordType = ApplicationData | ChangeCipherSpec | Handshake | OtherType
  datatype OpenResult = Success | Discard | Error

  /** incoming_messages and handshake_read_seq. */
  class Ring {
    const incoming: array<HmFragment?>
    var readSeq: nat
    /** The window of messages the slots stand for. */
    ghost var window: Receiver
    ghost var Repr: set<object>

    ghost predicate Valid()
      reads this, Repr
    {
      && this in Repr && incoming in Repr && incoming.Length == MAX_HANDSHAKE_FLIGHT
      && window.readSeq == readSeq && Windowed(window)
      && (forall i :: 0 <= i < MAX_HANDSHAKE_FLIGHT ==> SlotValid(i))
      && (forall i :: 0 <= i < MAX_HANDSHAKE_FLIGHT && incoming[i] != null ==> incoming[i] in Repr)
      && (forall i, j :: 0 <= i < j < MAX_HANDSHAKE_FLIGHT && incoming[i] != null && incoming[j] != null ==>
            incoming[i].Footprint !! incoming[j].Footprint)
    }

    /** Slot `i` holds the message whose number in the window is congruent to it, and nothing else. */
    ghost predicate SlotValid(i: nat)
      requires i < incoming.Length == MAX_HANDSHAKE_FLIGHT && this in Repr && incoming in Repr
      reads this, Repr
    {
      var n, frag := NumberAt(readSeq, i), incoming[i];
      && (frag == null <==> n !in window.pending)
      && (frag != null ==> frag in Repr)
      && (frag != null ==>
            && frag.Footprint <= Repr && {this, incoming} !! frag.Footprint
            && frag.data in frag.Footprint && (frag.reassembly != null ==> frag.reassembly in frag.Footprint)
            && frag.Valid() && frag.number == n && frag.Abs() == window.pending[n])
    }

    constructor ()
      ensures Valid() && window == Receiver(0, map[]) && fresh(Repr)
    {
      incoming := new HmFragment?[MAX_HANDSHAKE_FLIGHT](_ => null);
      readSeq := 0;
      window := Receiver(0, map[]);
      new;
      Repr := {this, incoming};
    }

    /** dtls1_is_current_message_complete. */
    method IsCurrentMessageComplete() returns (b: bool)
      requires Valid()
      ensures b <==> Ready(window)
      ensures b ==> incoming[SlotOf(readSeq)] != null
    {
      var idx := SlotOf(readSeq);
      SlotsAreDistinct(readSeq, readSeq);
      assert SlotValid(idx);
      var frag := incoming[idx];
      b := frag != null && frag.reassembly == null;
    }

    /** The message that dtls1_get_message hands out, without and with its header. */
    method CurrentMessage() returns (msgType: byte, body: seq<byte>, raw: seq<byte>)
      requires Valid() && Ready(window)
      ensures msgType == window.pending[readSeq].msgType && body == Body(window.pending[readSeq])
      ensures raw == FragmentBytes(Fragment(msgType, |body|, readSeq, 0, body))
    {
      var idx := SlotOf(readSeq);
      SlotsAreDistinct(readSeq, readSeq);
      assert SlotValid(idx);
      var frag := incoming[idx];
      msgType, body, raw := frag.msgType, frag.data[HM_HEADER_LENGTH..], frag.data[..];
      assert body == Body(frag.Abs());
      assert raw == frag.data[..HM_HEADER_LENGTH] + body;
    }

    /** A slot whose neighbours have not been touched is still valid when only slot `idx` and its number changed. */
    twostate lemma OtherSlotsValid(idx: nat)
      requires old(Valid()) && idx < MAX_HANDSHAKE_FLIGHT
      requires this in Repr && incoming in Repr && old(Repr) <= Repr && readSeq == old(readSeq)
      requires forall i :: 0 <= i < MAX_HANDSHAKE_FLIGHT && i != idx ==> incoming[i] == old(incoming[i])
      requires forall i :: 0 <= i < MAX_HANDSHAKE_FLIGHT && i != idx && incoming[i] != null ==>
                 unchanged(incoming[i]) && unchanged(incoming[i].data)
                 && (incoming[i].reassembly != null ==> unchanged(incoming[i].reassembly))
      requires forall n :: n != NumberAt(readSeq, idx) ==>
                 (n in window.pending <==> n in old(window.pending))
                 && (n in window.pending ==> window.pending[n] == old(window.pending[n]))
      ensures forall i :: 0 <= i < MAX_HANDSHAKE_FLIGHT && i != idx ==> SlotValid(i)
    {
      forall i | 0 <= i < MAX_HANDSHAKE_FLIGHT && i != idx
        ensures SlotValid(i)
      {
        assert old(SlotValid(i));
      }
    }

    /** dtls1_get_incoming_message. The number of a message already in the slot is always the fragment's. */
    method GetIncomingMessage(f: Fragment) returns (frag: HmFragment?)
      requires Valid() && WireSized(f) && readSeq <= f.number
      modifies this, incoming
      ensures Valid() && readSeq == old(readSeq) && fresh(Repr - old(Repr))
      ensures frag == null <==>
                !InWindow(old(window), f.number)
                || (f.number in old(window).pending
                    && (old(window).pending[f.number].msgType != f.msgType
                        || old(window).pending[f.number].msgLen != f.msgLen))
      ensures frag == null ==> window == old(window)
      ensures frag != null ==> frag == incoming[SlotOf(f.number)] && frag.msgLen == f.msgLen
      ensures frag != null ==>
                window == if f.number in old(window).pending then old(window)
                          else old(window).(pending := old(window).pending[f.number := Start(f)])
    {
      if f.number - readSeq >= MAX_HANDSHAKE_FLIGHT {
        return null;
      }
      var idx := SlotOf(f.number);
      SlotsAreDistinct(readSeq, f.number);
      assert SlotValid(idx);
      frag := incoming[idx];
      if frag != null {
        assert frag.number == f.number;
        if frag.msgType != f.msgType || frag.msgLen != f.msgLen {
          return null;
        }
        return;
      }
      frag := new HmFragment(f);
      incoming[idx] := frag;
      window := window.(pending := window.pending[f.number := Start(f)]);
      Repr := Repr + frag.Footprint;
      OtherSlotsValid(idx);
    }

    /** Copies and marks a fragment in the slot of its unfinished message. */
    method AddToSlot(f: Fragment, frag: HmFragment, idx: nat)
      requires Valid() && idx < MAX_HANDSHAKE_FLIGHT && incoming[idx] == frag && f.number == NumberAt(readSeq, idx)
      requires frag.reassembly != null && f.fragOff + |f.body| <= frag.msgLen
      modifies this, Repr
      ensures Valid() && readSeq == old(readSeq) && Repr == old(Repr)
      ensures f.number in old(window).pending
      ensures window ==
              old(window).(pending := old(window).pending[f.number := Insert(old(window).pending[f.number], f)])
    {
      assert forall i :: 0 <= i < MAX_HANDSHAKE_FLIGHT && incoming[i] != null ==> SlotValid(i);
      InsertKeepsWindow(window, f);
      frag.Add(f);
      window := window.(pending := window.pending[f.number := frag.Abs()]);
      OtherSlotsValid(idx);
      assert SlotValid(idx);
    }

    /** One round of the loop in dtls1_open_handshake. */
    method TakeFragment(f: Fragment, epoch: nat, maxLen: nat) returns (ok: bool)
      requires Valid() && WireSized(f)
      modifies this, Repr
      ensures Valid() && fresh(Repr - old(Repr))
      ensures ok <==> Acceptable(old(window), f, epoch, maxLen)
      ensures window == if ok then Take(old(window), f) else old(window)
    {
      if f.fragOff > f.msgLen || f.fragOff + |f.body| > f.msgLen || f.msgLen > maxLen {
        return false;
      }
      if epoch == 1 && f.number != readSeq {
        return false;
      }
      if f.number < readSeq || f.number > readSeq + MAX_HANDSHAKE_FLIGHT {
        return true;
      }
      var frag := GetIncomingMessage(f);
      if frag == null {
        return false;
      }
      var idx := SlotOf(f.number);
      SlotsAreDistinct(readSeq, f.number);
      assert SlotValid(idx);
      if frag.reassembly != null {
        AddToSlot(f, frag, idx);
      }
      assert window.pending == Take(old(window), f).pending;
      ok := true;
    }

    /** The slot of the message let go is empty then, and every other slot stands for the message it stood for. */
    twostate lemma SlotsAfterNext(index: nat)
      requires old(Valid()) && index == SlotOf(old(readSeq))
      requires this in Repr && incoming in Repr && Repr == old(Repr)
      requires readSeq == NextNumber(old(readSeq)) && window == Next(old(window))
      requires forall i :: 0 <= i < MAX_HANDSHAKE_FLIGHT ==>
                 incoming[i] == if i == index then null else old(incoming[i])
      requires forall i :: 0 <= i < MAX_HANDSHAKE_FLIGHT && i != index && incoming[i] != null ==>
                 unchanged(incoming[i]) && unchanged(incoming[i].data)
                 && (incoming[i].reassembly != null ==> unchanged(incoming[i].reassembly))
      ensures forall i :: 0 <= i < MAX_HANDSHAKE_FLIGHT ==> SlotValid(i)
    {
      forall i | 0 <= i < MAX_HANDSHAKE_FLIGHT
        ensures SlotValid(i)
      {
        assert old(SlotValid(i));
        NumberAfterNext(old(window), i);
      }
    }

    /** The ring's part of dtls1_next_message. */
    method Advance()
      requires Valid() && Ready(window)
      modifies this, incoming
      ensures Valid() && window == Next(old(window)) && Repr == old(Repr)
    {
      var index := SlotOf(readSeq);
      assert forall i :: 0 <= i < MAX_HANDSHAKE_FLIGHT ==> SlotValid(i);
      NextKeepsWindow(window);
      incoming[index] := null;
      readSeq := NextNumber(readSeq);
      window := Next(window);
      SlotsAfterNext(index);
    }
  }

  /** A slot other than the one let go stands for the same number, unless the numbers start again; but then there is
      nothing in it. */
  lemma NumberAfterNext(r: Receiver, i: nat)
    requires Windowed(r) && i < MAX_HANDSHAKE_FLIGHT
    ensures var n, after := NumberAt(r.readSeq, i), NumberAt(Next(r).readSeq, i);
            if i == SlotOf(r.readSeq) then n == r.readSeq && after !in Next(r).pending
            else (after in Next(r).pending <==> n in r.pending)
                 && (n in r.pending ==> after == n && Next(r).pending[after] == r.pending[n])
  {
    var n := NumberAt(r.readSeq, i);
    if i != SlotOf(r.readSeq) && r.readSeq + 1 == TWO_TO_THE_16 {
      assert n !in r.pending;
      assert Next(r).pending == map[];
    }
  }

  /** What a record that was let through brings to the handshake, by its type. */
  function RecordBrings(recordType: RecordType, record: seq<byte>, nullCipher: bool, epoch: nat): (es: seq<Event>)
    ensures forall i :: 0 <= i < |es| ==> !es[i].Read?
  {
    match recordType
    case Handshake => RecordEvents(record, epoch)
    case ChangeCipherSpec => if nullCipher && record == [MT_CCS] then [] else [Broken]
    case ApplicationData => if nullCipher then [Broken] else []
    case OtherType => [Broken]
  }

  lemma OpenedAsBrought(es: seq<Event>, recordType: RecordType, record: seq<byte>, nullCipher: bool, epoch: nat,
                        maxLen: nat)
    requires !Run(es, maxLen).failed
    ensures var s, more := Run(es, maxLen), RecordBrings(recordType, record, nullCipher, epoch);
            if recordType.Handshake?
            then
              var (r, ok) := TakeAll(s.receiver, record, epoch, maxLen);
              TakenAs(r, ok, s.delivered, Run(es + more, maxLen))
            else TakenAs(s.receiver, more == [], s.delivered, Run(es + more, maxLen))
  {
    var more := RecordBrings(recordType, record, nullCipher, epoch);
    if recordType.Handshake? {
      RecordIsArrivals(es, record, epoch, maxLen);
    } else if more == [] {
      assert es + more == es;
    } else {
      RunOnce(es, Broken, maxLen);
    }
  }

  /** The receiving side of a DTLS connection. */
  class ReceiveState {
    const ring: Ring
    const maxLen: nat
    var rEpoch: nat
    var hasChangeCipherSpec: bool
    var hasMessage: bool
    /** After an error nothing more is read from the transport. */
    var readError: bool
    /** What has come in and what has been read, in order. */
    ghost var events: seq<Event>

    ghost predicate Valid()
      reads this, ring, ring.Repr
    {
      && ring.Valid() && this !in ring.Repr
      && (hasMessage ==> Ready(ring.window))
    }

    /** The state is where the events lead. */
    ghost predicate Historical()
      reads this, ring, ring.Repr
    {
      Valid() && ring.window == Run(events, maxLen).receiver && (readError <==> Run(events, maxLen).failed)
    }

    constructor (maxLen: nat)
      ensures Historical() && events == [] && ring.window == Receiver(0, map[]) && this.maxLen == maxLen
      ensures rEpoch == 0 && !hasMessage && !hasChangeCipherSpec && !readError && fresh(ring) && fresh(ring.Repr)
    {
      ring := new Ring();
      this.maxLen := maxLen;
      rEpoch, hasChangeCipherSpec, hasMessage, readError, events := 0, false, false, false, [];
    }

    /** dtls1_open_handshake, given a record that dtls_open_record has let through. */
    method OpenHandshake(recordType: RecordType, record: seq<byte>, nullCipher: bool) returns (r: OpenResult)
      requires Valid()
      modifies this, ring, ring.Repr
      ensures Valid() && fresh(ring.Repr - old(ring.Repr)) && rEpoch == old(rEpoch) && hasMessage == old(hasMessage)
      ensures recordType.Handshake? ==>
                (ring.window, r.Success?) == TakeAll(old(ring.window), record, rEpoch, maxLen) && !r.Discard?
      ensures !recordType.Handshake? ==> ring.window == old(ring.window)
      ensures recordType.ChangeCipherSpec? ==> r == if nullCipher && record == [MT_CCS] then Success else Error
      ensures recordType.ApplicationData? ==> r == if nullCipher then Error else Discard
      ensures recordType.OtherType? ==> r == Error
      ensures hasChangeCipherSpec == (old(hasChangeCipherSpec) || (recordType.ChangeCipherSpec? && r.Success?))
      ensures events == old(events) + RecordBrings(recordType, record, nullCipher, rEpoch)
              && readError == old(readError)
    {
      events := events + RecordBrings(recordType, record, nullCipher, rEpoch);
      match recordType {
        case ApplicationData =>
          return if nullCipher then Error else Discard;
        case ChangeCipherSpec =>
          if !nullCipher || record != [MT_CCS] {
            return Error;
          }
          hasChangeCipherSpec := true;
          return Success;
        case OtherType =>
          return Error;
        case Handshake =>
      }
      label Noted:
      var rest := record;
      while |rest| > 0
        invariant ring.Valid() && this !in ring.Repr && fresh(ring.Repr - old(ring.Repr)) && unchanged@Noted(this)
        invariant TakeAll(old(ring.window), record, rEpoch, maxLen) == TakeAll(ring.window, rest, rEpoch, maxLen)
        invariant Ready(old(ring.window)) ==> Ready(ring.window)
        decreases |rest|
      {
        var p := ParseFragment(rest);
        if p.Fail? {
          return Error;
        }
        ParsedIsWireSized(rest);
        var ok := ring.TakeFragment(p.value, rEpoch, maxLen);
        if !ok {
          return Error;
        }
        rest := p.rest;
      }
      r := Success;
    }

    /** ssl_open_handshake: an error is remembered, and after one no record is looked at. */
    method Open(recordType: RecordType, record: seq<byte>, nullCipher: bool) returns (r: OpenResult)
      requires Historical()
      modifies this, ring, ring.Repr
      ensures Historical() && fresh(ring.Repr - old(ring.Repr)) && rEpoch == old(rEpoch)
              && hasMessage == old(hasMessage)
      ensures events ==
              old(events) + if old(readError) then [] else RecordBrings(recordType, record, nullCipher, rEpoch)
      ensures (r.Error? <==> readError) && (r.Discard? <==> !readError && recordType.ApplicationData?)
      ensures hasChangeCipherSpec == (old(hasChangeCipherSpec) || (recordType.ChangeCipherSpec? && r.Success?))
    {
      if readError {
        return Error;
      }
      OpenedAsBrought(events, recordType, record, nullCipher, rEpoch, maxLen);
      r := OpenHandshake(recordType, record, nullCipher);
      if r.Error? {
        readError := true;
      }
    }

    /** dtls1_get_message. */
    method GetMessage() returns (ok: bool, msgType: byte, body: seq<byte>, raw: seq<byte>)
      requires Valid()
      modifies this`hasMessage
      ensures Valid() && (ok <==> Ready(ring.window)) && hasMessage == (ok || old(hasMessage))
      ensures ok ==>
                msgType == ring.window.pending[ring.readSeq].msgType && body == Body(ring.window.pending[ring.readSeq])
      ensures ok ==> raw == FragmentBytes(Fragment(msgType, |body|, ring.readSeq, 0, body))
      ensures old(Historical()) ==> Historical()
    {
      ok := ring.IsCurrentMessageComplete();
      if !ok {
        return false, 0, [], [];
      }
      msgType, body, raw := ring.CurrentMessage();
      hasMessage := true;
    }

    /** dtls1_next_message. */
    method NextMessage()
      requires Valid() && hasMessage
      modifies this`hasMessage, this`events, ring, ring.incoming
      ensures Valid() && ring.window == Next(old(ring.window)) && !hasMessage && ring.Repr == old(ring.Repr)
      ensures events == old(events) + [Read] && (old(Historical()) ==> Historical())
    {
      if Ready(Run(events, maxLen).receiver) {
        ReadOnce(events, maxLen);
      }
      events := events + [Read];
      ring.Advance();
      hasMessage := false;
    }

    /** dtls_has_unprocessed_handshake_data: a ChangeCipherSpec that was not asked for yet, or anything of a message
        besides the one now being read. */
    method HasUnprocessedHandshakeData() returns (b: bool)
      requires Valid()
      ensures b <==> hasChangeCipherSpec || exists n :: n in ring.window.pending && !(hasMessage && n == ring.readSeq)
    {
      if hasChangeCipherSpec {
        return true;
      }
      var current := SlotOf(ring.readSeq);
      for i := 0 to MAX_HANDSHAKE_FLIGHT
        invariant forall n :: n in ring.window.pending && SlotOf(n) < i ==> hasMessage && n == ring.readSeq
      {
        assert ring.SlotValid(i);
        if !(hasMessage && i == current) && ring.incoming[i] != null {
          assert NumberAt(ring.readSeq, i) in ring.window.pending;
          return true;
        }
        forall n | n in ring.window.pending && SlotOf(n) == i
          ensures hasMessage && n == ring.readSeq
        {
          SlotsAreDistinct(ring.readSeq, n);
          SlotsAreDistinct(ring.readSeq, ring.readSeq);
        }
      }
      b := false;
    }

    /** dtls1_open_change_cipher_spec, behind the check of ssl_open_change_cipher_spec: the ChangeCipherSpec that came
        earlier, or the one in this record. */
    method OpenChangeCipherSpec(recordType: RecordType, record: seq<byte>, nullCipher: bool) returns (r: OpenResult)
      requires Historical()
      modifies this, ring, ring.Repr
      ensures Historical() && fresh(ring.Repr - old(ring.Repr)) && rEpoch == old(rEpoch)
              && hasMessage == old(hasMessage)
      ensures events ==
              old(events) + if old(readError || hasChangeCipherSpec) then []
                            else RecordBrings(recordType, record, nullCipher, rEpoch)
      ensures (r.Error? <==> readError) && (r.Success? ==> !hasChangeCipherSpec)
      ensures r.Success? <==> !readError && (old(hasChangeCipherSpec) || recordType.ChangeCipherSpec?)
    {
      if readError {
        return Error;
      }
      if !hasChangeCipherSpec {
        r := Open(recordType, record, nullCipher);
        if !r.Success? {
          return;
        }
      }
      if hasChangeCipherSpec {
        hasChangeCipherSpec := false;
        return Success;
      }
      r := Discard;
    }

    /** The receiver's part of dtls1_set_read_state: refused as long as the old epoch has something left over. */
    method SetReadState() returns (ok: bool)
      requires Valid()
      modifies this`rEpoch
      ensures Valid() && (old(Historical()) ==> Historical())
      ensures ok <==> !hasChangeCipherSpec && forall n :: n in ring.window.pending ==> hasMessage && n == ring.readSeq
      ensures rEpoch == if ok then DtlsReplay.NextEpoch(old(rEpoch)) else old(rEpoch)
    {
      var leftover := HasUnprocessedHandshakeData();
      if leftover {
        return false;
      }
      rEpoch := DtlsReplay.NextEpoch(rEpoch);
      ok := true;
    }
  }
}

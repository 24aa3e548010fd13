/** The sending side of DTLS as it runs: messages are built and queued, cut to the MTU, sealed and written, and a
    packet that could not be written is cut again from the same place. */
module DtlsSender {
  import opened Bytes
  import opened DtlsCutting
  import opened DtlsFlight
  import opened DtlsFragment
  import opened DtlsHistory
  import opened DtlsNumbers

  // ---------- Building a message ----------

  datatype OutgoingMessage = OutgoingMessage(epoch: nat, isCcs: bool, data: seq<byte>)

  /** Written as a single fragment that is the whole message. */
  predicate Built(m: OutgoingMessage) {
    !m.isCcs ==>
      var p := ParseFragment(m.data);
      p.Ok? && p.rest == [] && p.value.fragOff == 0 && p.value.msgLen == |p.value.body|
  }

  function Parsed(m: OutgoingMessage): FlightMessage
    requires Built(m)
  {
    if m.isCcs then Ccs(m.epoch) else Message(m.epoch, ParseFragment(m.data).value)
  }

  predicate ParsesTo(m: OutgoingMessage, parsed: FlightMessage) {
    && m.epoch == parsed.epoch && m.isCcs == parsed.Ccs?
    && Built(m) && parsed == Parsed(m)
  }

  /** `msgs` is what is queued, message by message. */
  ghost predicate Parses(outgoing: seq<OutgoingMessage>, msgs: seq<FlightMessage>) {
    && |outgoing| == |msgs|
    && forall i {:trigger ParsesTo(outgoing[i], msgs[i])} :: 0 <= i < |msgs| ==> ParsesTo(outgoing[i], msgs[i])
  }

  /** dtls1_init_message and the body added to it: the total length is left at zero. */
  function InitMessage(msgType: byte, number: nat, body: seq<byte>): seq<byte> {
    HeaderBytes(msgType, 0, number, 0, |body|) + body
  }

  /** dtls1_finish_message: the fragment length is copied over the total length. */
  method FinishMessage(msg: array<byte>) returns (ok: bool)
    modifies msg
    ensures ok <==> msg.Length >= HM_HEADER_LENGTH
    ensures ok ==> msg[..] == old(msg[..1]) + old(msg[9..12]) + old(msg[4..])
  {
    if msg.Length < HM_HEADER_LENGTH {
      return false;
    }
    ghost var before := msg[..];
    msg[1], msg[2], msg[3] := msg[9], msg[10], msg[11];
    ghost var after := before[..1] + before[9..12] + before[4..];
    assert forall k :: 0 <= k < msg.Length ==> msg[k] == after[k];
    assert msg[..] == after;
    ok := true;
  }

  lemma FinishedParts(msgType: byte, total: seq<byte>, number: seq<byte>, offset: seq<byte>, length: seq<byte>,
                      body: seq<byte>)
    requires |total| == 3 && |number| == 2 && |offset| == 3 && |length| == 3
    ensures var init := [msgType] + total + number + offset + length + body;
            init[..1] + init[9..12] + init[4..] == [msgType] + length + number + offset + length + body
  {
    var init := [msgType] + total + number + offset + length + body;
    assert init[4..] == number + offset + length + body;
  }

  /** A finished message parses as a single fragment that is the whole message, so re-parsing it never fails. */
  lemma FinishedIsBuilt(msgType: byte, number: nat, body: seq<byte>, finished: seq<byte>, epoch: nat)
    requires number < TWO_TO_THE_16 && |body| < TWO_TO_THE_24
    requires var init := InitMessage(msgType, number, body); finished == init[..1] + init[9..12] + init[4..]
    ensures finished == FragmentBytes(Fragment(msgType, |body|, number, 0, body))
    ensures var m := OutgoingMessage(epoch, false, finished);
            Built(m) && Parsed(m) == Message(epoch, Fragment(msgType, |body|, number, 0, body))
  {
    var whole := Fragment(msgType, |body|, number, 0, body);
    FinishedParts(msgType, ToBigEndian(0, 3), ToBigEndian(number, 2), ToBigEndian(0, 3), ToBigEndian(|body|, 3), body);
    FragmentRoundTrip(whole, []);
    assert FragmentBytes(whole) + [] == FragmentBytes(whole);
  }

  lemma AtStaysAt(msgs: seq<FlightMessage>, m: FlightMessage, p: Position)
    requires At(msgs, p)
    ensures At(msgs + [m], p)
  {
  }

  // ---------- Message numbers ----------

  function NextSeq(writeSeq: nat): nat {
    if writeSeq + 1 == TWO_TO_THE_16 then 0 else writeSeq + 1
  }

  /** How long ago a 16-bit message number was given out. */
  function Age(number: nat, writeSeq: nat): int {
    if number < writeSeq then writeSeq - number else writeSeq + TWO_TO_THE_16 - number
  }

  /** The messages of the flight have the latest numbers, each its own. */
  ghost predicate Recent(msgs: seq<FlightMessage>, writeSeq: nat)
  {
    && writeSeq < TWO_TO_THE_16
    && (forall i :: 0 <= i < |msgs| && msgs[i].Message? ==>
          msgs[i].whole.number < TWO_TO_THE_16 && 1 <= Age(msgs[i].whole.number, writeSeq) <= |msgs| - i)
    && forall i, j :: 0 <= i < j < |msgs| && msgs[i].Message? && msgs[j].Message? ==>
         Age(msgs[i].whole.number, writeSeq) > Age(msgs[j].whole.number, writeSeq)
  }

  lemma AgeNext(number: nat, writeSeq: nat)
    requires number < TWO_TO_THE_16 && writeSeq < TWO_TO_THE_16 && Age(number, writeSeq) <= MAX_HANDSHAKE_FLIGHT
    ensures number != writeSeq && Age(number, NextSeq(writeSeq)) == Age(number, writeSeq) + 1
    ensures Age(writeSeq, NextSeq(writeSeq)) == 1
  {
  }

  lemma RecentGrows(msgs: seq<FlightMessage>, m: FlightMessage, writeSeq: nat, next: nat)
    requires Recent(msgs, writeSeq) && |msgs| < MAX_HANDSHAKE_FLIGHT
    requires m.Message? ==> m.whole.number == writeSeq && next == NextSeq(writeSeq)
    requires m.Ccs? ==> next == writeSeq
    ensures Recent(msgs + [m], next)
  {
    if m.Message? {
      AgeNext(if writeSeq > 0 then writeSeq - 1 else TWO_TO_THE_16 - 1, writeSeq);
      forall i | 0 <= i < |msgs| && msgs[i].Message?
        ensures Age(msgs[i].whole.number, next) == Age(msgs[i].whole.number, writeSeq) + 1
      {
        AgeNext(msgs[i].whole.number, writeSeq);
      }
    }
  }

  datatype SealResult = SealError | NoProgress | Partial | Complete

  /** As long as the 16-bit numbers last, all that is queued and all that was put out is of messages made here. */
  ghost predicate History(msgs: seq<FlightMessage>, made: seq<Sent>, put: seq<Transmission>, writeSeq: nat) {
    |made| < TWO_TO_THE_16 ==> writeSeq == |made| && Among(msgs, made) && AllFromHistory(put, made)
  }

  lemma HistoryWith(msgs: seq<FlightMessage>, m: FlightMessage, made: seq<Sent>, put: seq<Transmission>, writeSeq: nat)
    requires History(msgs, made, put, writeSeq)
    requires m.Message? ==> m.whole.number == writeSeq && m.whole.fragOff == 0 && m.whole.msgLen == |m.whole.body|
    ensures m.Message? ==>
              History(msgs + [m], made + [Sent(m.whole.msgType, m.whole.body)], put, NextSeq(writeSeq))
    ensures m.Ccs? ==> History(msgs + [m], made, put, writeSeq)
  {
    if m.Message? && |made| + 1 < TWO_TO_THE_16 {
      AmongMore(msgs, made, Sent(m.whole.msgType, m.whole.body));
      HistoryGrows(put, made, Sent(m.whole.msgType, m.whole.body));
    }
  }

  class Sender {
    var outgoing: seq<OutgoingMessage>
    /** The same, parsed. */
    ghost var flight: seq<FlightMessage>
    var written: nat
    var offset: nat
    var writeSeq: nat
    var mtu: nat
    var complete: bool
    var flightHasReply: bool
    /** The write epoch, and for it and the one before the cipher with its record numbers. */
    var wEpoch: nat
    var current: Channel
    var last: Channel
    /** What the cipher and the transport are going to answer. */
    var seals: seq<SealAnswer>
    var writes: seq<int>
    /** The messages made, and what was put out of them. */
    ghost var made: seq<Sent>
    ghost var put: seq<Transmission>
    /** The numbers of all records sealed for the write epoch, and for the one before. */
    ghost var numbers: seq<nat>
    ghost var lastNumbers: seq<nat>

    /** At most seven messages, each built as one fragment. */
    ghost predicate Queued()
      reads this`outgoing, this`flight
    {
      && Parses(outgoing, flight) && |flight| <= MAX_HANDSHAKE_FLIGHT
      && forall i :: 0 <= i < |flight| && flight[i].Message? ==> WireSized(flight[i].whole)
    }

    ghost predicate Valid()
      reads this`outgoing, this`flight, this`written, this`offset, this`wEpoch, this`current, this`last
    {
      Queued() && At(flight, Here()) && StateOk(State()) && wEpoch < TWO_TO_THE_16
    }

    /** Only add_outgoing gives out numbers. */
    ghost predicate NumbersRecent()
      reads this`flight, this`writeSeq
    {
      Recent(flight, writeSeq)
    }

    ghost predicate Historical()
      reads this`flight, this`writeSeq, this`made, this`put
    {
      History(flight, made, put, writeSeq)
    }

    /** Over its whole life, the k-th record sealed for an epoch has number k, until the numbers start again. */
    ghost predicate Numbered()
      reads this`wEpoch, this`current, this`last, this`numbers, this`lastNumbers
    {
      InCycle(numbers, current.sequence) && (wEpoch > 0 ==> InCycle(lastNumbers, last.sequence))
    }

    /** So the numbers of a flight differ. */
    lemma FlightNumbersDistinct()
      requires NumbersRecent()
      ensures NumbersDistinct(flight)
    {
    }

    ghost function Here(): Position
      reads this`written, this`offset
    {
      Position(written, offset)
    }

    ghost function State(): WriteState
      reads this`wEpoch, this`current, this`last
    {
      WriteState(wEpoch, current, last)
    }

    constructor (mtu: nat, overhead: nat, prefix: nat, seals: seq<SealAnswer>, writes: seq<int>)
      requires prefix <= overhead
      ensures Valid() && NumbersRecent() && Historical() && Numbered() && made == [] && put == [] && numbers == []
      ensures outgoing == [] && writeSeq == 0
      ensures State() == WriteState(0, Channel(overhead, prefix, 0), Channel(overhead, prefix, 0))
      ensures this.mtu == mtu && this.seals == seals && this.writes == writes
    {
      outgoing, flight, written, offset, made, put := [], [], 0, 0, [], [];
      wEpoch, writeSeq, complete, flightHasReply, numbers, lastNumbers := 0, 0, false, false, [], [];
      this.mtu, this.seals, this.writes := mtu, seals, writes;
      current, last := Channel(overhead, prefix, 0), Channel(overhead, prefix, 0);
    }

    /** dtls_seal_record. The number is used up even if it was the last one, which is an error. */
    method SealRecord(ghost m: FlightMessage, previous: bool, plainLength: nat, maxOut: nat)
      returns (ok: bool, number: nat, length: nat)
      requires previous <==> m.epoch + 1 == wEpoch
      requires StateOk(State()) && EpochKnown(State(), m) && plainLength + ChannelFor(State(), m).overhead <= maxOut
      modifies this`seals, this`current, this`last
      ensures StateOk(State()) && seals == Rest(old(seals))
      ensures ok <==> First(old(seals)).Adds? && NumbersLeft(old(State()), m)
      ensures State() == if First(old(seals)).Refuses? then old(State()) else UseNumber(old(State()), m)
      ensures ok ==> number == ChannelFor(old(State()), m).sequence && length <= maxOut
                     && length == plainLength + Added(ChannelFor(old(State()), m), First(old(seals)))
    {
      var a := First(seals);
      seals := Rest(seals);
      if a.Refuses? {
        return false, 0, 0;
      }
      var c := if previous then last else current;
      number, length := c.sequence, plainLength + Added(c, a);
      var next := if c.sequence + 1 == SEQUENCES then 0 else c.sequence + 1;
      if previous {
        last := c.(sequence := next);
      } else {
        current := c.(sequence := next);
      }
      ok := next != 0;
    }

    /** The outcome of an attempt that began at `p` in the state `w`. */
    ghost predicate Tried(t: Try, p: Position, w: WriteState, before: seq<SealAnswer>, r: SealResult,
                          record: SealedRecord)
      reads this
    {
      match t
      case UnknownEpoch => r.SealError? && Here() == p && State() == w && seals == before
      case NoRoom => r.NoProgress? && Here() == p && State() == w && seals == before
      case Fails(v) => r.SealError? && Here() == p && State() == v && seals == Rest(before)
      case Seals(sealed, v) =>
        && record == sealed && State() == v && seals == Rest(before) && written == p.written
        && Continues(flight, p, sealed.emission)
        && (if r.Complete? then offset == 0 && After(flight, p, sealed.emission) == Position(p.written + 1, 0)
            else r.Partial? && After(flight, p, sealed.emission) == Here())
    }

    /** The branch of seal_next_message for a ChangeCipherSpec. */
    method SealChangeCipherSpec(maxOut: nat) returns (r: SealResult, record: SealedRecord)
      requires Valid() && written < |outgoing| && flight[written].Ccs? && EpochKnown(State(), flight[written])
      modifies this`seals, this`current, this`last
      ensures Tried(TrySeal(flight, Here(), old(State()), maxOut, First(old(seals))), Here(), old(State()), old(seals),
                    r, record)
    {
      assert ParsesTo(outgoing[written], flight[written]);
      var msg := outgoing[written];
      record := SealedRecord(CcsRecord(msg.epoch), 0, 0);
      var previous := msg.epoch + 1 == wEpoch;
      var channel := if previous then last else current;
      if maxOut < 1 + channel.overhead {
        return NoProgress, record;
      }
      var ok, number, length := SealRecord(flight[written], previous, 1, maxOut);
      if !ok {
        return SealError, record;
      }
      return Complete, SealedRecord(CcsRecord(msg.epoch), number, length);
    }

    /** The branch of seal_next_message for a message. */
    method SealFragment(maxOut: nat) returns (r: SealResult, record: SealedRecord)
      requires Valid() && written < |outgoing| && flight[written].Message? && EpochKnown(State(), flight[written])
      modifies this`offset, this`seals, this`current, this`last
      ensures Tried(TrySeal(flight, old(Here()), old(State()), maxOut, First(old(seals))), old(Here()), old(State()),
                    old(seals), r, record)
    {
      assert ParsesTo(outgoing[written], flight[written]);
      var msg := outgoing[written];
      record := SealedRecord(CcsRecord(msg.epoch), 0, 0);
      var previous := msg.epoch + 1 == wEpoch;
      var channel := if previous then last else current;
      var parsed := ParseFragment(msg.data);
      assert parsed.Ok? && parsed.rest == [] && parsed.value == flight[written].whole;
      var hdr := parsed.value;
      var body := hdr.body[offset..];
      if maxOut < HM_HEADER_LENGTH + 1 + channel.overhead || maxOut < channel.prefix {
        return NoProgress, record;
      }
      var todo := |body|;
      if todo > maxOut - HM_HEADER_LENGTH - channel.overhead {
        todo := maxOut - HM_HEADER_LENGTH - channel.overhead;
      }
      var frag := hdr.(fragOff := offset, body := body[..todo]);
      assert frag == Slice(hdr, offset, todo);
      TryFragment(flight, Here(), State(), maxOut, First(seals), frag);
      var ok, number, length := SealRecord(flight[written], previous, HM_HEADER_LENGTH + todo, maxOut);
      if !ok {
        return SealError, record;
      }
      record := SealedRecord(FragmentRecord(msg.epoch, frag), number, length);
      AfterFragment(flight, Here(), frag, todo);
      if todo == |body| {
        offset := 0;
        return Complete, record;
      }
      offset := offset + todo;
      r := Partial;
    }

    /** seal_next_message. Once the message is one that was built here, only an unknown epoch, the cipher or the end
        of the record numbers make it fail; it makes no progress only if not one byte would fit. */
    method SealNextMessage(maxOut: nat) returns (r: SealResult, record: SealedRecord)
      requires Valid() && written < |outgoing|
      modifies this`offset, this`seals, this`current, this`last
      ensures r.SealError? ==>
                Here() == old(Here())
                && (!EpochKnown(old(State()), flight[written]) || First(old(seals)).Refuses?
                    || !NumbersLeft(old(State()), flight[written]))
      ensures r.NoProgress? ==> Here() == old(Here()) && !Fits(old(State()), flight[written], maxOut)
      ensures r.Partial? || r.Complete? ==>
                && record.length <= maxOut && Continues(flight, old(Here()), record.emission)
                && After(flight, old(Here()), record.emission) ==
                   (if r.Complete? then Position(written + 1, 0) else Here())
      ensures Tried(TrySeal(flight, old(Here()), old(State()), maxOut, First(old(seals))), old(Here()), old(State()),
                    old(seals), r, record)
    {
      assert ParsesTo(outgoing[written], flight[written]);
      var msg := outgoing[written];
      if !(wEpoch >= 1 && msg.epoch == wEpoch - 1) && msg.epoch != wEpoch {
        return SealError, SealedRecord(CcsRecord(msg.epoch), 0, 0);
      }
      if msg.isCcs {
        r, record := SealChangeCipherSpec(maxOut);
      } else {
        r, record := SealFragment(maxOut);
      }
    }

    /** What packing has come to so far: `all` is the end of it, if `full`, or goes on from here. */
    ghost predicate Packs(all: Packing, full: bool, room: nat, packet: Datagram)
      requires Valid()
      reads this`outgoing, this`flight, this`written, this`offset, this`wEpoch, this`current, this`last, this`seals
    {
      if full then all == Packing(Filled, packet, Here(), State(), seals)
      else all == Pack(flight, Here(), State(), seals, room, packet)
    }

    /** One round of the loop in seal_next_packet. */
    method SealAnother(room: nat, packet: Datagram, ghost all: Packing)
      returns (r: SealResult, left: nat, next: Datagram)
      requires Valid() && written < |outgoing| && Packs(all, false, room, packet)
      modifies this`written, this`offset, this`seals, this`current, this`last
      ensures Valid()
      ensures r.SealError? ==> all == Packing(Broken, packet, Here(), State(), seals)
      ensures r.NoProgress? ==>
                all == Packing(if packet == [] then TooSmall else Filled, packet, Here(), State(), seals)
      ensures r.Partial? || r.Complete? ==> next != [] && Packs(all, r.Partial?, left, next)
      ensures r.Complete? ==> written == old(written) + 1
      ensures !r.Complete? ==> written == old(written)
    {
      ghost var p, w, before := Here(), State(), seals;
      ghost var t := TrySeal(flight, p, w, room, First(before));
      if t.Seals? {
        RecordIsWork(flight, p, t.record.emission);
        PackGoesOn(flight, p, w, before, room, packet, t, After(flight, p, t.record.emission));
      }
      var record;
      r, record := SealNextMessage(room);
      if r.SealError? || r.NoProgress? {
        return r, room, packet;
      }
      left, next := room - record.length, packet + [record];
      if r.Complete? {
        written := written + 1;
      }
      assert Here() == After(flight, p, t.record.emission);
    }

    /** seal_next_packet. Whatever it returns, the position is where the sealed records have taken it. */
    method SealNextPacket(maxOut: nat) returns (ok: bool, packet: Datagram)
      requires Valid() && written < |outgoing|
      modifies this`written, this`offset, this`seals, this`current, this`last
      ensures Valid() && Length(packet) <= maxOut && Walk(flight, old(Here()), Emissions(packet), Here())
      ensures ok ==> packet != [] && Work(flight, Here()) < Work(flight, old(Here()))
      ensures var r := Pack(flight, old(Here()), old(State()), old(seals), maxOut, []);
              ok == r.end.Filled? && packet == r.packet && Here() == r.next && State() == r.w && seals == r.seals
    {
      packet := [];
      var room: nat, full := maxOut, false;
      ghost var all := Pack(flight, Here(), State(), seals, maxOut, []);
      PacketWalks(flight, Here(), State(), seals, maxOut);
      PackMovesOn(flight, Here(), State(), seals, maxOut);
      while !full && written < |outgoing|
        invariant Valid() && (full ==> packet != []) && (written == |outgoing| ==> packet != [])
        invariant Packs(all, full, room, packet)
        decreases !full, |outgoing| - written
      {
        var r, left, next := SealAnother(room, packet, all);
        if r.SealError? {
          return false, packet;
        }
        if r.NoProgress? {
          break;
        }
        room, packet, full := left, next, r.Partial?;
      }
      ok := packet != [];
    }

    /** The state that a sending leaves. */
    ghost predicate Reached(s: Sending, ret: int, sent: seq<Datagram>)
      reads this`written, this`offset, this`seals, this`writes, this`wEpoch, this`current, this`last
    {
      ret == s.ret && sent == s.sent && Here() == s.next && State() == s.w && seals == s.seals && writes == s.writes
    }

    /** One round of the loop in send_flight: a datagram that is not taken leaves the position where it was. */
    method SendAnother(flushed: bool, sent: seq<Datagram>, ghost all: Sending)
      returns (more: bool, ret: int, next: seq<Datagram>)
      requires Valid() && written < |outgoing|
      requires all == Send(flight, Here(), State(), seals, writes, flushed, mtu, sent)
      modifies this`written, this`offset, this`seals, this`writes, this`current, this`last
      ensures Valid()
      ensures more ==> all == Send(flight, Here(), State(), seals, writes, flushed, mtu, next)
      ensures more ==> Work(flight, Here()) < Work(flight, old(Here()))
      ensures !more ==> Reached(all, ret, next)
    {
      var oldWritten, oldOffset := written, offset;
      ghost var r := Pack(flight, Here(), State(), seals, mtu, []);
      SendRound(flight, Here(), State(), seals, writes, flushed, mtu, sent, r, all);
      var ok, packet := SealNextPacket(mtu);
      if !ok {
        return false, -1, sent;
      }
      var bioRet := if writes == [] then 1 else writes[0];
      writes := Rest(writes);
      if bioRet <= 0 {
        written, offset := oldWritten, oldOffset;
        return false, bioRet, sent;
      }
      return true, -1, sent + [packet];
    }

    /** The loop of send_flight: it computes what the answers of the cipher and of the transport come to. */
    method SendDatagrams(flushed: bool) returns (ret: int, sent: seq<Datagram>)
      requires Valid()
      modifies this`written, this`offset, this`seals, this`writes, this`current, this`last
      ensures Valid()
      ensures Reached(Send(flight, old(Here()), old(State()), old(seals), old(writes), flushed, mtu, []), ret, sent)
    {
      sent, ret := [], -1;
      ghost var all := Send(flight, Here(), State(), seals, writes, flushed, mtu, []);
      while written < |outgoing|
        invariant Valid() && all == Send(flight, Here(), State(), seals, writes, flushed, mtu, sent)
        decreases Work(flight, Here())
      {
        var more;
        more, ret, sent := SendAnother(flushed, sent, all);
        if !more {
          return;
        }
      }
      ret := if flushed then 1 else -1;
    }

    /** The sending accounts for the move of the position, and its datagrams are noted. */
    ghost predicate Noted(s: Sending, p: Position, before: seq<Transmission>)
      reads this
    {
      && Accounts(flight, p, mtu, s) && |put| == |before| + 1 && put[..|before|] == before
      && put[|before|].msgs == flight && put[|before|].first == p && put[|before|].es == AllEmissions(s.sent)
    }

    /** The records of a sending have the next numbers of their epochs. */
    ghost predicate NumbersNoted(s: Sending, before: seq<nat>, lastBefore: seq<nat>)
      reads this`wEpoch, this`numbers, this`lastNumbers
    {
      && numbers == before + NumbersOf(AllSealed(s), wEpoch)
      && lastNumbers == lastBefore + if wEpoch == 0 then [] else NumbersOf(AllSealed(s), wEpoch - 1)
    }

    /** Notes the numbers of a sending. */
    ghost method NoteNumbers(p: Position, w: WriteState, before: seq<SealAnswer>, answers: seq<int>, flushed: bool,
                             s: Sending)
      requires At(flight, p) && StateOk(w) && w.epoch == wEpoch && State() == s.w
      requires s == Send(flight, p, w, before, answers, flushed, mtu, [])
      requires InCycle(numbers, w.current.sequence) && (wEpoch > 0 ==> InCycle(lastNumbers, w.last.sequence))
      modifies this`numbers, this`lastNumbers
      ensures Numbered() && NumbersNoted(s, old(numbers), old(lastNumbers))
    {
      SendingGoesOn(flight, p, w, before, answers, flushed, mtu, wEpoch, s, numbers);
      numbers := numbers + NumbersOf(AllSealed(s), wEpoch);
      if wEpoch > 0 {
        SendingGoesOn(flight, p, w, before, answers, flushed, mtu, wEpoch - 1, s, lastNumbers);
        lastNumbers := lastNumbers + NumbersOf(AllSealed(s), wEpoch - 1);
      }
    }

    /** Notes the datagrams of a sending. */
    ghost method NoteSending(p: Position, s: Sending)
      requires Historical() && At(flight, p) && Accounts(flight, p, mtu, s)
      modifies this`put
      ensures Historical() && Noted(s, p, old(put))
    {
      var q := WalkSplit(flight, p, AllEmissions(s.sent), Emissions(s.lost), s.next);
      put := put + [Transmission(flight, p, AllEmissions(s.sent), q)];
    }

    /** Notes both. */
    ghost method NoteBoth(p: Position, w: WriteState, before: seq<SealAnswer>, answers: seq<int>, flushed: bool,
                          s: Sending)
      requires At(flight, p) && StateOk(w) && w.epoch == wEpoch && State() == s.w && Historical()
      requires s == Send(flight, p, w, before, answers, flushed, mtu, [])
      requires InCycle(numbers, w.current.sequence) && (wEpoch > 0 ==> InCycle(lastNumbers, w.last.sequence))
      modifies this`put, this`numbers, this`lastNumbers
      ensures Historical() && Numbered() && Noted(s, p, old(put))
      ensures NumbersNoted(s, old(numbers), old(lastNumbers))
    {
      SendAccounts(flight, p, p, w, before, answers, flushed, mtu, []);
      NoteSending(p, s);
      NoteNumbers(p, w, before, answers, flushed, s);
    }

    /** The sending of a flight while writing is open. */
    method SendOpen(flushed: bool) returns (ret: int, sent: seq<Datagram>)
      requires Valid() && Historical() && Numbered()
      modifies this`written, this`offset, this`seals, this`writes, this`current, this`last, this`put, this`numbers
      modifies this`lastNumbers
      ensures Valid() && Historical() && Numbered()
      ensures var s := Send(flight, old(Here()), old(State()), old(seals), old(writes), flushed, mtu, []);
              Reached(s, ret, sent) && Noted(s, old(Here()), old(put))
              && NumbersNoted(s, old(numbers), old(lastNumbers))
    {
      ghost var p, w, before, answers := Here(), State(), seals, writes;
      ghost var s := Send(flight, p, w, seals, writes, flushed, mtu, []);
      ret, sent := SendDatagrams(flushed);
      NoteBoth(p, w, before, answers, flushed, s);
    }

    /** send_flight. */
    method SendFlight(shutdown: bool, flushed: bool) returns (ret: int, sent: seq<Datagram>)
      requires Valid() && Historical() && Numbered()
      modifies this`written, this`offset, this`seals, this`writes, this`current, this`last, this`put, this`numbers
      modifies this`lastNumbers
      ensures Valid() && Historical() && Numbered()
      ensures shutdown ==> ret == -1 && sent == [] && Here() == old(Here()) && State() == old(State())
                           && put == old(put) && seals == old(seals) && writes == old(writes)
                           && numbers == old(numbers) && lastNumbers == old(lastNumbers)
      ensures var s := Send(flight, old(Here()), old(State()), old(seals), old(writes), flushed, mtu, []);
              !shutdown ==> Reached(s, ret, sent) && Noted(s, old(Here()), old(put))
                            && NumbersNoted(s, old(numbers), old(lastNumbers))
    {
      if shutdown {
        return -1, [];
      }
      ret, sent := SendOpen(flushed);
    }

    /** dtls1_flush_flight. */
    method FlushFlight(shutdown: bool, flushed: bool) returns (ret: int, sent: seq<Datagram>)
      requires Valid() && Historical() && Numbered()
      modifies this`written, this`offset, this`seals, this`writes, this`current, this`last, this`put, this`numbers
      modifies this`lastNumbers, this`complete
      ensures Valid() && Historical() && Numbered() && complete
      ensures shutdown ==> ret == -1 && sent == [] && Here() == old(Here()) && State() == old(State())
                           && put == old(put) && numbers == old(numbers) && lastNumbers == old(lastNumbers)
      ensures var s := Send(flight, old(Here()), old(State()), old(seals), old(writes), flushed, mtu, []);
              !shutdown ==> Reached(s, ret, sent) && Noted(s, old(Here()), old(put))
                            && NumbersNoted(s, old(numbers), old(lastNumbers))
    {
      complete := true;
      ret, sent := SendFlight(shutdown, flushed);
    }

    /** dtls1_retransmit_outgoing_messages: the whole flight again. */
    method Retransmit(shutdown: bool, flushed: bool) returns (ret: int, sent: seq<Datagram>)
      requires Valid() && Historical() && Numbered()
      modifies this`written, this`offset, this`seals, this`writes, this`current, this`last, this`put, this`numbers
      modifies this`lastNumbers
      ensures Valid() && Historical() && Numbered()
      ensures shutdown ==> ret == -1 && sent == [] && Here() == Position(0, 0) && State() == old(State())
                           && put == old(put) && numbers == old(numbers) && lastNumbers == old(lastNumbers)
      ensures var s := Send(flight, Position(0, 0), old(State()), old(seals), old(writes), flushed, mtu, []);
              !shutdown ==> Reached(s, ret, sent) && Noted(s, Position(0, 0), old(put))
                            && NumbersNoted(s, old(numbers), old(lastNumbers))
    {
      written, offset := 0, 0;
      ret, sent := SendFlight(shutdown, flushed);
    }

    /** dtls1_set_write_state: messages queued before it keep their epoch, its cipher and its record numbers, unless the
        16-bit epoch starts again. */
    method SetWriteState(overhead: nat, prefix: nat)
      requires Valid() && prefix <= overhead
      modifies this`wEpoch, this`current, this`last, this`numbers, this`lastNumbers
      ensures Valid() && last == old(current) && current == Channel(overhead, prefix, 0)
      ensures (old(Numbered()) ==> Numbered()) && lastNumbers == old(numbers) && numbers == []
      ensures wEpoch == if old(wEpoch) + 1 == TWO_TO_THE_16 then 0 else old(wEpoch) + 1
      ensures (forall i :: 0 <= i < |flight| ==> flight[i].epoch == old(wEpoch)) ==>
                (EpochsKnown(State(), flight) <==> flight == [] || wEpoch != 0)
    {
      wEpoch := if wEpoch + 1 == TWO_TO_THE_16 then 0 else wEpoch + 1;
      last, lastNumbers := current, numbers;
      current, numbers := Channel(overhead, prefix, 0), [];
      assert flight != [] ==>
               (EpochKnown(State(), flight[0]) <==> flight[0].epoch == wEpoch || flight[0].epoch == wEpoch - 1);
    }

    /** dtls_clear_outgoing_messages. */
    method ClearOutgoing()
      requires Valid() && Historical()
      modifies this`outgoing, this`flight, this`written, this`offset, this`complete, this`flightHasReply
      ensures Valid() && Historical() && flight == [] && Here() == Position(0, 0) && !complete && !flightHasReply
    {
      outgoing, flight, written, offset, complete, flightHasReply := [], [], 0, 0, false, false;
    }

    /** The message is queued, and takes its number. */
    method Append(m: OutgoingMessage)
      requires Valid() && NumbersRecent() && Historical() && Built(m) && |flight| < MAX_HANDSHAKE_FLIGHT
      requires !m.isCcs ==> WireSized(Parsed(m).whole) && Parsed(m).whole.number == writeSeq
      modifies this`outgoing, this`flight, this`writeSeq, this`made
      ensures Valid() && NumbersRecent() && Historical() && flight == old(flight) + [Parsed(m)]
      ensures writeSeq == if m.isCcs then old(writeSeq) else NextSeq(old(writeSeq))
      ensures made == old(made) + if m.isCcs then [] else [Sent(Parsed(m).whole.msgType, Parsed(m).whole.body)]
    {
      ghost var parsed := Parsed(m);
      RecentGrows(flight, parsed, writeSeq, if m.isCcs then writeSeq else NextSeq(writeSeq));
      AtStaysAt(flight, parsed, Here());
      HistoryWith(flight, parsed, made, put, writeSeq);
      if !m.isCcs {
        writeSeq := NextSeq(writeSeq);
        made := made + [Sent(parsed.whole.msgType, parsed.whole.body)];
      }
      outgoing, flight := outgoing + [m], flight + [parsed];
    }

    /** add_outgoing: a message starts a new flight if the last one is complete; a flight holds at most seven. */
    method AddOutgoing(m: OutgoingMessage) returns (ok: bool)
      requires Valid() && NumbersRecent() && Historical() && m.epoch == wEpoch && Built(m)
      requires !m.isCcs ==> WireSized(Parsed(m).whole) && Parsed(m).whole.number == writeSeq
      modifies this`outgoing, this`flight, this`written, this`offset, this`complete, this`flightHasReply, this`writeSeq
      modifies this`made
      ensures Valid() && NumbersRecent() && Historical()
      ensures ok <==> old(complete) || |old(flight)| < MAX_HANDSHAKE_FLIGHT
      ensures ok ==> flight == (if old(complete) then [] else old(flight)) + [Parsed(m)] && !complete
      ensures ok ==> Here() == if old(complete) then Position(0, 0) else old(Here())
      ensures writeSeq == if ok && !m.isCcs then NextSeq(old(writeSeq)) else old(writeSeq)
      ensures made ==
              old(made) + if ok && !m.isCcs then [Sent(Parsed(m).whole.msgType, Parsed(m).whole.body)] else []
      ensures !ok ==> flight == old(flight) && Here() == old(Here())
    {
      if complete {
        ClearOutgoing();
      }
      if |outgoing| >= MAX_HANDSHAKE_FLIGHT {
        return false;
      }
      Append(m);
      ok := true;
    }
  }
}

/** How a flight of DTLS messages is cut into records and datagrams, whatever the cipher and the transport answer. */
module DtlsCutting {
  import opened DtlsFragment
  import opened DtlsFlight

  const SEQUENCES: int := 0x1_0000_0000_0000

  /** A sealed record with its number and its length on the wire. */
  datatype SealedRecord = SealedRecord(emission: Emission, number: nat, length: nat)
  type Datagram = seq<SealedRecord>

  /** A cipher adds at least the prefix and at most the overhead; `sequence` is the number of its next record. */
  datatype Channel = Channel(overhead: nat, prefix: nat, sequence: nat)

  /** Records are sealed for the write epoch or, while its messages are repeated, for the one before. */
  datatype WriteState = WriteState(epoch: nat, current: Channel, last: Channel)

  /** What the cipher answers to an attempt to seal a record: how much it adds, or that it fails. */
  datatype SealAnswer = Refuses | Adds(n: nat)

  predicate ChannelOk(c: Channel) {
    c.prefix <= c.overhead && c.sequence < SEQUENCES
  }

  predicate StateOk(w: WriteState) {
    ChannelOk(w.current) && ChannelOk(w.last)
  }

  // ---------- One record ----------

  predicate EpochKnown(w: WriteState, m: FlightMessage) {
    m.epoch == w.epoch || m.epoch + 1 == w.epoch
  }

  function ChannelFor(w: WriteState, m: FlightMessage): Channel {
    if m.epoch + 1 == w.epoch then w.last else w.current
  }

  /** Room for the ChangeCipherSpec, or for the header and a byte of the message. */
  predicate Fits(w: WriteState, m: FlightMessage, room: nat) {
    room >= ChannelFor(w, m).overhead + if m.Ccs? then 1 else HM_HEADER_LENGTH + 1
  }

  /** The number is used up, even if it was the last one and sealing fails for that. */
  function UseNumber(w: WriteState, m: FlightMessage): WriteState {
    var c := ChannelFor(w, m);
    var used := c.(sequence := if c.sequence + 1 == SEQUENCES then 0 else c.sequence + 1);
    if m.epoch + 1 == w.epoch then w.(last := used) else w.(current := used)
  }

  predicate NumbersLeft(w: WriteState, m: FlightMessage) {
    ChannelFor(w, m).sequence + 1 < SEQUENCES
  }

  function Added(c: Channel, a: SealAnswer): nat
    requires a.Adds?
  {
    if c.prefix <= a.n <= c.overhead then a.n else c.overhead
  }

  function Min(a: int, b: int): int {
    if a < b then a else b
  }

  /** The ChangeCipherSpec, or as much of the message as fits. */
  function NextEmission(msgs: seq<FlightMessage>, p: Position, w: WriteState, room: nat): (e: Emission)
    requires At(msgs, p) && p.written < |msgs| && Fits(w, msgs[p.written], room)
    ensures Continues(msgs, p, e)
  {
    var m := msgs[p.written];
    if m.Ccs? then CcsRecord(m.epoch)
    else
      var left := |m.whole.body| - p.offset;
      var todo := Min(left, room - HM_HEADER_LENGTH - ChannelFor(w, m).overhead);
      FragmentRecord(m.epoch, Slice(m.whole, p.offset, todo))
  }

  datatype Try = UnknownEpoch | NoRoom | Fails(w: WriteState) | Seals(record: SealedRecord, w: WriteState)

  /** One attempt to seal the next record. */
  function TrySeal(msgs: seq<FlightMessage>, p: Position, w: WriteState, room: nat, a: SealAnswer): (t: Try)
    requires At(msgs, p) && p.written < |msgs| && StateOk(w)
    ensures t.Fails? || t.Seals? ==> StateOk(t.w)
    ensures t.Seals? ==> t.record.length <= room && Continues(msgs, p, t.record.emission)
  {
    var m := msgs[p.written];
    if !EpochKnown(w, m) then UnknownEpoch
    else if !Fits(w, m, room) then NoRoom
    else if a.Refuses? then Fails(w)
    else if !NumbersLeft(w, m) then Fails(UseNumber(w, m))
    else
      var e, c := NextEmission(msgs, p, w, room), ChannelFor(w, m);
      Seals(SealedRecord(e, c.sequence, PlainLength(e) + Added(c, a)), UseNumber(w, m))
  }

  /** An attempt to seal a fragment for which there is room. */
  lemma TryFragment(msgs: seq<FlightMessage>, p: Position, w: WriteState, room: nat, a: SealAnswer, f: Fragment)
    requires At(msgs, p) && p.written < |msgs| && StateOk(w)
    requires var m := msgs[p.written];
             && m.Message? && EpochKnown(w, m) && Fits(w, m, room)
             && var todo := Min(|m.whole.body| - p.offset, room - HM_HEADER_LENGTH - ChannelFor(w, m).overhead);
                f == Slice(m.whole, p.offset, todo)
    ensures var m, t := msgs[p.written], TrySeal(msgs, p, w, room, a);
            && (a.Refuses? ==> t == Fails(w)) && (a.Adds? && !NumbersLeft(w, m) ==> t == Fails(UseNumber(w, m)))
            && (a.Adds? && NumbersLeft(w, m) ==>
                  var c := ChannelFor(w, m);
                  t == Seals(SealedRecord(FragmentRecord(m.epoch, f), c.sequence,
                                          HM_HEADER_LENGTH + |f.body| + Added(c, a)),
                             UseNumber(w, m)))
  {
  }

  lemma AfterFragment(msgs: seq<FlightMessage>, p: Position, f: Fragment, todo: nat)
    requires At(msgs, p) && p.written < |msgs| && msgs[p.written].Message?
    requires p.offset + todo <= |msgs[p.written].whole.body| && f == Slice(msgs[p.written].whole, p.offset, todo)
    requires todo > 0 || p.offset == |msgs[p.written].whole.body|
    ensures var e := FragmentRecord(msgs[p.written].epoch, f);
            && Continues(msgs, p, e)
            && After(msgs, p, e) == if p.offset + todo == |msgs[p.written].whole.body| then Position(p.written + 1, 0)
                                    else Position(p.written, p.offset + todo)
  {
  }

  // ---------- One datagram ----------

  /** Once the script has run out, the cipher adds what it can at most. */
  function First(seals: seq<SealAnswer>): SealAnswer {
    if seals == [] then Adds(0) else seals[0]
  }

  function Rest<T>(script: seq<T>): seq<T> {
    if script == [] then [] else script[1..]
  }

  datatype End = Filled | TooSmall | Broken

  datatype Packing = Packing(end: End, packet: Datagram, next: Position, w: WriteState, seals: seq<SealAnswer>)

  /** Records are added to `packet` until one does not complete its message, the next has no room, or sealing fails.
      The position is where the sealed records have taken it, in any case. */
  function Pack(msgs: seq<FlightMessage>, p: Position, w: WriteState, seals: seq<SealAnswer>, room: nat,
                packet: Datagram): (r: Packing)
    requires At(msgs, p) && StateOk(w)
    ensures At(msgs, r.next) && StateOk(r.w)
    decreases |msgs| - p.written
  {
    if p.written == |msgs| then Packing(if packet == [] then TooSmall else Filled, packet, p, w, seals)
    else
      match TrySeal(msgs, p, w, room, First(seals))
      case UnknownEpoch => Packing(Broken, packet, p, w, seals)
      case NoRoom => Packing(if packet == [] then TooSmall else Filled, packet, p, w, seals)
      case Fails(v) => Packing(Broken, packet, p, v, Rest(seals))
      case Seals(record, v) =>
        var q := After(msgs, p, record.emission);
        ContinuesAt(msgs, p, record.emission);
        if q.written == p.written then Packing(Filled, packet + [record], q, v, Rest(seals))
        else Pack(msgs, q, v, Rest(seals), room - record.length, packet + [record])
  }

  // ---------- What is left to send ----------

  /** Bytes and messages from message `i` on. */
  function WorkFrom(msgs: seq<FlightMessage>, i: nat): nat
    requires i <= |msgs|
    decreases |msgs| - i
  {
    if i == |msgs| then 0
    else 1 + (if msgs[i].Message? then |msgs[i].whole.body| else 0) + WorkFrom(msgs, i + 1)
  }

  function Work(msgs: seq<FlightMessage>, p: Position): nat
    requires At(msgs, p)
  {
    WorkFrom(msgs, p.written) - p.offset
  }

  lemma RecordIsWork(msgs: seq<FlightMessage>, p: Position, e: Emission)
    requires At(msgs, p) && Continues(msgs, p, e)
    ensures At(msgs, After(msgs, p, e)) && Work(msgs, After(msgs, p, e)) < Work(msgs, p)
  {
  }

  /** One round of the loop over the records of a datagram. */
  ghost predicate Round(msgs: seq<FlightMessage>, p: Position, w: WriteState, seals: seq<SealAnswer>, packet: Datagram,
                        t: Try, r: Packing, further: Packing)
    requires At(msgs, p)
  {
    match t
    case UnknownEpoch => r == Packing(Broken, packet, p, w, seals)
    case Fails(v) => r == Packing(Broken, packet, p, v, Rest(seals))
    case NoRoom => r == Packing(if packet == [] then TooSmall else Filled, packet, p, w, seals)
    case Seals(record, v) =>
      && Continues(msgs, p, record.emission)
      && var q := After(msgs, p, record.emission);
         && At(msgs, q) && Work(msgs, q) < Work(msgs, p)
         && (if q.written == p.written then r == Packing(Filled, packet + [record], q, v, Rest(seals))
             else q.written > p.written && r == further)
  }

  /** The rounds that follow, if the record sealed first completes its message. */
  ghost function Further(msgs: seq<FlightMessage>, p: Position, seals: seq<SealAnswer>, room: nat, packet: Datagram,
                         t: Try): Packing
    requires At(msgs, p)
    requires t.Seals? ==> Continues(msgs, p, t.record.emission) && StateOk(t.w) && t.record.length <= room
  {
    if t.Seals? then
      ContinuesAt(msgs, p, t.record.emission);
      Pack(msgs, After(msgs, p, t.record.emission), t.w, Rest(seals), room - t.record.length, packet + [t.record])
    else Packing(Broken, packet, p, WriteState(0, Channel(0, 0, 0), Channel(0, 0, 0)), seals)
  }

  lemma PackRound(msgs: seq<FlightMessage>, p: Position, w: WriteState, seals: seq<SealAnswer>, room: nat,
                  packet: Datagram, t: Try)
    requires At(msgs, p) && StateOk(w) && p.written < |msgs|
    requires t == TrySeal(msgs, p, w, room, First(seals))
    ensures Round(msgs, p, w, seals, packet, t, Pack(msgs, p, w, seals, room, packet),
                  Further(msgs, p, seals, room, packet, t))
  {
    if t.Seals? {
      RecordIsWork(msgs, p, t.record.emission);
      PackGoesOn(msgs, p, w, seals, room, packet, t, After(msgs, p, t.record.emission));
    }
  }

  lemma PackGoesOn(msgs: seq<FlightMessage>, p: Position, w: WriteState, seals: seq<SealAnswer>, room: nat,
                   packet: Datagram, t: Try, q: Position)
    requires At(msgs, p) && StateOk(w) && p.written < |msgs|
    requires t == TrySeal(msgs, p, w, room, First(seals)) && t.Seals? && q == After(msgs, p, t.record.emission)
    requires At(msgs, q)
    ensures q.written >= p.written
    ensures Pack(msgs, p, w, seals, room, packet) ==
            if q.written == p.written then Packing(Filled, packet + [t.record], q, t.w, Rest(seals))
            else Pack(msgs, q, t.w, Rest(seals), room - t.record.length, packet + [t.record])
  {
  }

  /** Every record sealed leaves less work, one less at least. */
  lemma {:induction false} PackingIsWork(msgs: seq<FlightMessage>, p: Position, w: WriteState, seals: seq<SealAnswer>,
                                         room: nat, packet: Datagram, r: Packing)
    requires At(msgs, p) && StateOk(w) && r == Pack(msgs, p, w, seals, room, packet)
    ensures At(msgs, r.next) && Work(msgs, r.next) + |r.packet| <= Work(msgs, p) + |packet|
    decreases |msgs| - p.written
  {
    if p.written < |msgs| {
      var t := TrySeal(msgs, p, w, room, First(seals));
      PackRound(msgs, p, w, seals, room, packet, t);
      if t.Seals? {
        var q := After(msgs, p, t.record.emission);
        if q.written > p.written {
          PackingIsWork(msgs, q, t.w, Rest(seals), room - t.record.length, packet + [t.record], r);
        }
      }
    }
  }

  lemma {:induction false} FilledIsNotEmpty(msgs: seq<FlightMessage>, p: Position, w: WriteState,
                                            seals: seq<SealAnswer>, room: nat, packet: Datagram, r: Packing)
    requires At(msgs, p) && StateOk(w) && r == Pack(msgs, p, w, seals, room, packet)
    ensures (r.end.Filled? ==> r.packet != []) && (r.end.TooSmall? ==> r.packet == packet == [] && r.next == p)
    decreases |msgs| - p.written
  {
    if p.written < |msgs| {
      var t := TrySeal(msgs, p, w, room, First(seals));
      PackRound(msgs, p, w, seals, room, packet, t);
      if t.Seals? {
        var q := After(msgs, p, t.record.emission);
        if q.written > p.written {
          FilledIsNotEmpty(msgs, q, t.w, Rest(seals), room - t.record.length, packet + [t.record], r);
        }
      }
    }
  }

  lemma PackMovesOn(msgs: seq<FlightMessage>, p: Position, w: WriteState, seals: seq<SealAnswer>, room: nat)
    requires At(msgs, p) && StateOk(w)
    ensures var r := Pack(msgs, p, w, seals, room, []);
            && (r.end.Filled? ==> Work(msgs, r.next) < Work(msgs, p))
            && (r.end.TooSmall? ==> r.packet == [] && r.next == p)
  {
    PackingIsWork(msgs, p, w, seals, room, [], Pack(msgs, p, w, seals, room, []));
    FilledIsNotEmpty(msgs, p, w, seals, room, [], Pack(msgs, p, w, seals, room, []));
  }

  // ---------- A whole sending ----------

  /** What a sending has come to: `lost` is what the last datagram already held when sealing failed, `refused` is the
      datagram that the transport did not take. */
  datatype Sending = Sending(ret: int, sent: seq<Datagram>, lost: Datagram, refused: Datagram, next: Position,
                             w: WriteState, seals: seq<SealAnswer>, writes: seq<int>)

  /** Datagrams are packed and written until the flight is over, sealing fails, or the transport does not take one: then
      the position goes back to where that one began. */
  function Send(msgs: seq<FlightMessage>, p: Position, w: WriteState, seals: seq<SealAnswer>, writes: seq<int>,
                flushed: bool, mtu: nat, sent: seq<Datagram>): (s: Sending)
    requires At(msgs, p) && StateOk(w)
    ensures At(msgs, s.next) && StateOk(s.w)
    decreases Work(msgs, p)
  {
    if p.written == |msgs| then Sending(if flushed then 1 else -1, sent, [], [], p, w, seals, writes)
    else
      var r := Pack(msgs, p, w, seals, mtu, []);
      PackMovesOn(msgs, p, w, seals, mtu);
      if !r.end.Filled? then Sending(-1, sent, r.packet, [], r.next, r.w, r.seals, writes)
      else if writes != [] && writes[0] <= 0 then Sending(writes[0], sent, [], r.packet, p, r.w, r.seals, Rest(writes))
      else Send(msgs, r.next, r.w, r.seals, Rest(writes), flushed, mtu, sent + [r.packet])
  }

  /** One round of the loop. */
  lemma SendRound(msgs: seq<FlightMessage>, p: Position, w: WriteState, seals: seq<SealAnswer>, writes: seq<int>,
                  flushed: bool, mtu: nat, sent: seq<Datagram>, r: Packing, s: Sending)
    requires At(msgs, p) && p.written < |msgs| && StateOk(w) && At(msgs, r.next) && StateOk(r.w)
    requires r == Pack(msgs, p, w, seals, mtu, []) && s == Send(msgs, p, w, seals, writes, flushed, mtu, sent)
    ensures r.end.Filled? ==> Work(msgs, r.next) < Work(msgs, p)
    ensures s == if !r.end.Filled? then Sending(-1, sent, r.packet, [], r.next, r.w, r.seals, writes)
                 else if writes != [] && writes[0] <= 0 then
                   Sending(writes[0], sent, [], r.packet, p, r.w, r.seals, Rest(writes))
                 else Send(msgs, r.next, r.w, r.seals, Rest(writes), flushed, mtu, sent + [r.packet])
  {
    PackMovesOn(msgs, p, w, seals, mtu);
  }

  // ---------- Datagrams and positions ----------

  function Emissions(d: Datagram): seq<Emission> {
    if d == [] then [] else Emissions(d[..|d| - 1]) + [d[|d| - 1].emission]
  }

  function Length(d: Datagram): nat {
    if d == [] then 0 else Length(d[..|d| - 1]) + d[|d| - 1].length
  }

  function AllEmissions(ds: seq<Datagram>): seq<Emission> {
    if ds == [] then [] else AllEmissions(ds[..|ds| - 1]) + Emissions(ds[|ds| - 1])
  }

  lemma OneMoreRecord(d: Datagram, r: SealedRecord)
    ensures Emissions(d + [r]) == Emissions(d) + [r.emission] && Length(d + [r]) == Length(d) + r.length
  {
    assert (d + [r])[..|d|] == d;
  }

  lemma OneMoreDatagram(ds: seq<Datagram>, d: Datagram)
    ensures AllEmissions(ds + [d]) == AllEmissions(ds) + Emissions(d)
  {
    assert (ds + [d])[..|ds|] == ds;
  }

  /** `packet` takes the sender from `p` to `q` and leaves `room` of `maxOut` bytes. */
  ghost predicate Packed(msgs: seq<FlightMessage>, p: Position, packet: Datagram, q: Position, maxOut: nat,
                         room: nat) {
    Walk(msgs, p, Emissions(packet), q) && room + Length(packet) == maxOut
  }

  /** The datagrams `sent`, none longer than the MTU, take the sender from `p` to `q`. */
  ghost predicate Written(msgs: seq<FlightMessage>, p: Position, sent: seq<Datagram>, q: Position, mtu: nat) {
    && Walk(msgs, p, AllEmissions(sent), q)
    && forall k :: 0 <= k < |sent| ==> Length(sent[k]) <= mtu
  }

  lemma SendOne(msgs: seq<FlightMessage>, p: Position, sent: seq<Datagram>, q: Position, mtu: nat, d: Datagram,
                r: Position)
    requires Written(msgs, p, sent, q, mtu) && Walk(msgs, q, Emissions(d), r)
    ensures Walk(msgs, p, AllEmissions(sent) + Emissions(d), r)
    ensures Length(d) <= mtu ==> Written(msgs, p, sent + [d], r, mtu)
  {
    WalkFurther(msgs, p, AllEmissions(sent), q, Emissions(d), r);
    OneMoreDatagram(sent, d);
  }

  lemma PackOneOnly(msgs: seq<FlightMessage>, start: Position, p: Position, w: WriteState, seals: seq<SealAnswer>,
                    maxOut: nat, room: nat, packet: Datagram, r: Packing, t: Try)
    requires At(msgs, p) && StateOk(w) && p.written < |msgs| && Packed(msgs, start, packet, p, maxOut, room)
    requires t == TrySeal(msgs, p, w, room, First(seals)) && r == Pack(msgs, p, w, seals, room, packet)
    ensures !t.Seals? ==> WalksTo(msgs, start, r.packet, r.next, maxOut)
    ensures t.Seals? ==>
              var q, more := After(msgs, p, t.record.emission), packet + [t.record];
              && At(msgs, q) && q.written >= p.written && t.record.length <= room
              && Packed(msgs, start, more, q, maxOut, room - t.record.length)
              && (q.written == p.written ==> WalksTo(msgs, start, r.packet, r.next, maxOut))
              && (q.written > p.written ==> r == Pack(msgs, q, t.w, Rest(seals), room - t.record.length, more))
  {
    PackRound(msgs, p, w, seals, room, packet, t);
    if t.Seals? {
      PackOne(msgs, start, packet, p, maxOut, room, t.record);
    }
  }

  lemma PackOne(msgs: seq<FlightMessage>, p: Position, packet: Datagram, q: Position, maxOut: nat, room: nat,
                r: SealedRecord)
    requires Packed(msgs, p, packet, q, maxOut, room) && Continues(msgs, q, r.emission) && r.length <= room
    ensures Packed(msgs, p, packet + [r], After(msgs, q, r.emission), maxOut, room - r.length)
  {
    WalkOne(msgs, q, r.emission);
    WalkFurther(msgs, p, Emissions(packet), q, [r.emission], After(msgs, q, r.emission));
    OneMoreRecord(packet, r);
  }

  ghost predicate WalksTo(msgs: seq<FlightMessage>, start: Position, packet: Datagram, q: Position, maxOut: nat) {
    Walk(msgs, start, Emissions(packet), q) && Length(packet) <= maxOut
  }

  /** A packet is never longer than allowed, and its records account for the move of the position. */
  lemma {:induction false} PackWalks(msgs: seq<FlightMessage>, start: Position, p: Position, w: WriteState,
                                     seals: seq<SealAnswer>, maxOut: nat, room: nat, packet: Datagram, r: Packing)
    requires At(msgs, p) && StateOk(w) && Packed(msgs, start, packet, p, maxOut, room)
    requires r == Pack(msgs, p, w, seals, room, packet)
    ensures WalksTo(msgs, start, r.packet, r.next, maxOut)
    decreases |msgs| - p.written
  {
    if p.written < |msgs| {
      var t := TrySeal(msgs, p, w, room, First(seals));
      PackOneOnly(msgs, start, p, w, seals, maxOut, room, packet, r, t);
      if t.Seals? {
        var q := After(msgs, p, t.record.emission);
        if q.written > p.written {
          PackWalks(msgs, start, q, t.w, Rest(seals), maxOut, room - t.record.length, packet + [t.record], r);
        }
      }
    }
  }

  lemma PacketWalks(msgs: seq<FlightMessage>, p: Position, w: WriteState, seals: seq<SealAnswer>, mtu: nat)
    requires At(msgs, p) && StateOk(w)
    ensures var r := Pack(msgs, p, w, seals, mtu, []);
            Walk(msgs, p, Emissions(r.packet), r.next) && Length(r.packet) <= mtu
  {
    PackWalks(msgs, p, p, w, seals, mtu, mtu, [], Pack(msgs, p, w, seals, mtu, []));
  }

  ghost predicate Accounts(msgs: seq<FlightMessage>, start: Position, mtu: nat, s: Sending) {
    && Walk(msgs, start, AllEmissions(s.sent) + Emissions(s.lost), s.next)
    && (forall k :: 0 <= k < |s.sent| ==> Length(s.sent[k]) <= mtu)
    && (s.ret == 1 ==> s.next == Position(|msgs|, 0) && s.lost == [])
  }

  lemma NothingLost(ds: seq<Datagram>)
    ensures AllEmissions(ds) + Emissions([]) == AllEmissions(ds)
  {
  }

  /** The datagrams written and the records lost account for the move of the position, no datagram is longer than the
      MTU, and success means that the flight is over and nothing is lost. */
  lemma {:induction false} SendAccounts(msgs: seq<FlightMessage>, start: Position, p: Position, w: WriteState,
                                        seals: seq<SealAnswer>, writes: seq<int>, flushed: bool, mtu: nat,
                                        sent: seq<Datagram>)
    requires At(msgs, p) && StateOk(w) && Written(msgs, start, sent, p, mtu)
    ensures Accounts(msgs, start, mtu, Send(msgs, p, w, seals, writes, flushed, mtu, sent))
    decreases Work(msgs, p)
  {
    NothingLost(sent);
    if p.written < |msgs| {
      var r := Pack(msgs, p, w, seals, mtu, []);
      PackMovesOn(msgs, p, w, seals, mtu);
      PacketWalks(msgs, p, w, seals, mtu);
      SendOne(msgs, start, sent, p, mtu, r.packet, r.next);
      if r.end.Filled? && !(writes != [] && writes[0] <= 0) {
        SendAccounts(msgs, start, r.next, r.w, r.seals, Rest(writes), flushed, mtu, sent + [r.packet]);
      }
    }
  }

  // ---------- When a sending succeeds ----------

  predicate NoRefusal(seals: seq<SealAnswer>) {
    forall i :: 0 <= i < |seals| ==> seals[i].Adds?
  }

  predicate AllTaken(writes: seq<int>) {
    forall i :: 0 <= i < |writes| ==> writes[i] > 0
  }

  predicate EpochsKnown(w: WriteState, msgs: seq<FlightMessage>) {
    forall i :: 0 <= i < |msgs| ==> EpochKnown(w, msgs[i])
  }

  /** Every message of the flight can make progress in a packet of its own. */
  predicate MtuSuffices(w: WriteState, msgs: seq<FlightMessage>, mtu: nat) {
    forall i :: 0 <= i < |msgs| ==> Fits(w, msgs[i], mtu)
  }

  predicate NumbersSuffice(w: WriteState, n: nat) {
    w.current.sequence + n < SEQUENCES && w.last.sequence + n < SEQUENCES
  }

  /** Nothing but the room can stop the sealing of what is left. */
  predicate Smooth(msgs: seq<FlightMessage>, w: WriteState, seals: seq<SealAnswer>, n: nat) {
    StateOk(w) && NoRefusal(seals) && EpochsKnown(w, msgs) && NumbersSuffice(w, n)
  }

  predicate SameCiphers(w: WriteState, v: WriteState) {
    && w.epoch == v.epoch && w.current.overhead == v.current.overhead && w.current.prefix == v.current.prefix
    && w.last.overhead == v.last.overhead && w.last.prefix == v.last.prefix
  }

  lemma SmoothSeal(msgs: seq<FlightMessage>, p: Position, w: WriteState, seals: seq<SealAnswer>, room: nat)
    requires At(msgs, p) && p.written < |msgs| && Smooth(msgs, w, seals, Work(msgs, p))
    ensures var t := TrySeal(msgs, p, w, room, First(seals));
            && (Fits(w, msgs[p.written], room) ==> t.Seals?) && (!Fits(w, msgs[p.written], room) ==> t.NoRoom?)
            && (t.Seals? ==> var q := After(msgs, p, t.record.emission);
                             At(msgs, q) && Smooth(msgs, t.w, Rest(seals), Work(msgs, q)) && SameCiphers(w, t.w))
  {
    var t := TrySeal(msgs, p, w, room, First(seals));
    if t.Seals? {
      RecordIsWork(msgs, p, t.record.emission);
    }
  }

  ghost predicate PackedSmoothly(msgs: seq<FlightMessage>, w: WriteState, r: Packing) {
    && At(msgs, r.next)
    && r.end.Filled? && Smooth(msgs, r.w, r.seals, Work(msgs, r.next)) && SameCiphers(w, r.w)
  }

  lemma SameCiphersFurther(msgs: seq<FlightMessage>, w: WriteState, v: WriteState, r: Packing)
    requires SameCiphers(w, v) && PackedSmoothly(msgs, v, r)
    ensures PackedSmoothly(msgs, w, r)
  {
  }

  lemma {:induction false} SmoothPack(msgs: seq<FlightMessage>, p: Position, w: WriteState, seals: seq<SealAnswer>,
                                      room: nat, packet: Datagram)
    requires At(msgs, p) && Smooth(msgs, w, seals, Work(msgs, p))
    requires packet != [] || (p.written < |msgs| && Fits(w, msgs[p.written], room))
    ensures PackedSmoothly(msgs, w, Pack(msgs, p, w, seals, room, packet))
    decreases |msgs| - p.written
  {
    if p.written < |msgs| {
      var t := TrySeal(msgs, p, w, room, First(seals));
      SmoothSeal(msgs, p, w, seals, room);
      PackRound(msgs, p, w, seals, room, packet, t);
      if t.Seals? {
        var q, more := After(msgs, p, t.record.emission), packet + [t.record];
        if q.written > p.written {
          SmoothPack(msgs, q, t.w, Rest(seals), room - t.record.length, more);
          SameCiphersFurther(msgs, w, t.w, Pack(msgs, q, t.w, Rest(seals), room - t.record.length, more));
        }
      }
    }
  }

  /** The whole flight goes out if the cipher and the transport refuse nothing, the epochs are known, each message
      fits a datagram, and the record numbers do not run out. */
  lemma {:induction false} SendsAll(msgs: seq<FlightMessage>, p: Position, w: WriteState, seals: seq<SealAnswer>,
                                    writes: seq<int>, mtu: nat, sent: seq<Datagram>)
    requires At(msgs, p) && Smooth(msgs, w, seals, Work(msgs, p))
    requires MtuSuffices(w, msgs, mtu) && AllTaken(writes)
    ensures Send(msgs, p, w, seals, writes, true, mtu, sent).ret == 1
    decreases Work(msgs, p)
  {
    if p.written < |msgs| {
      var r := Pack(msgs, p, w, seals, mtu, []);
      PackMovesOn(msgs, p, w, seals, mtu);
      SmoothPack(msgs, p, w, seals, mtu, []);
      SendsAll(msgs, r.next, r.w, r.seals, Rest(writes), mtu, sent + [r.packet]);
    }
  }

  // ---------- What a sending reports ----------

  /** A sending reports success exactly when it comes to the end of the flight and the transport has flushed. If the
      transport does not take a datagram, its answer is reported; any other failure is -1. */
  lemma {:induction false} SendReports(msgs: seq<FlightMessage>, p: Position, w: WriteState, seals: seq<SealAnswer>,
                                       writes: seq<int>, flushed: bool, mtu: nat, sent: seq<Datagram>)
    requires At(msgs, p) && StateOk(w)
    ensures var s := Send(msgs, p, w, seals, writes, flushed, mtu, sent);
            && (s.ret == 1 <==> s.next == Position(|msgs|, 0) && flushed)
            && (s.refused != [] ==> s.ret <= 0 && s.ret in writes)
            && (s.refused == [] && s.ret != 1 ==> s.ret == -1)
    decreases Work(msgs, p)
  {
    if p.written < |msgs| {
      var r := Pack(msgs, p, w, seals, mtu, []);
      PackMovesOn(msgs, p, w, seals, mtu);
      FilledIsNotEmpty(msgs, p, w, seals, mtu, [], r);
      PackEndsEarly(msgs, p, w, seals, mtu, [], r);
      assert writes != [] ==> writes == [writes[0]] + Rest(writes);
      if r.end.Filled? && !(writes != [] && writes[0] <= 0) {
        SendReports(msgs, r.next, r.w, r.seals, Rest(writes), flushed, mtu, sent + [r.packet]);
      }
    }
  }

  lemma {:induction false} PackEndsEarly(msgs: seq<FlightMessage>, p: Position, w: WriteState, seals: seq<SealAnswer>,
                                         room: nat, packet: Datagram, r: Packing)
    requires At(msgs, p) && StateOk(w) && r == Pack(msgs, p, w, seals, room, packet)
    requires p.written < |msgs| || packet != []
    ensures !r.end.Filled? ==> r.next.written < |msgs|
    decreases |msgs| - p.written
  {
    if p.written < |msgs| {
      var t := TrySeal(msgs, p, w, room, First(seals));
      PackRound(msgs, p, w, seals, room, packet, t);
      if t.Seals? {
        var q := After(msgs, p, t.record.emission);
        if q.written > p.written {
          PackEndsEarly(msgs, q, t.w, Rest(seals), room - t.record.length, packet + [t.record], r);
        }
      }
    }
  }

  // ---------- Datagrams are as full as they can be ----------

  /** How many bytes a cipher may need besides the contents of a record for the message. */
  function OverheadFor(w: WriteState, m: FlightMessage): nat {
    (if m.epoch + 1 == w.epoch then w.last else w.current).overhead
  }

  /** A datagram that is not the last ends in the middle of a message with not one byte to spare for its cipher, or
      before a message of which not one byte would be sure to fit. `left` is what is left of the MTU. */
  ghost predicate Full(msgs: seq<FlightMessage>, r: Packing, left: int) {
    r.next.written < |msgs| ==>
      var m := msgs[r.next.written];
      if r.next.offset > 0 then
        r.packet != [] &&
        var last := r.packet[|r.packet| - 1];
        left + (last.length - PlainLength(last.emission)) == OverheadFor(r.w, m)
      else left < OverheadFor(r.w, m) + if m.Ccs? then 1 else 13
  }

  /** What a record that leaves its message unfinished does to the room. */
  lemma PartialFills(msgs: seq<FlightMessage>, p: Position, w: WriteState, room: nat, a: SealAnswer, t: Try)
    requires At(msgs, p) && p.written < |msgs| && StateOk(w) && t == TrySeal(msgs, p, w, room, a) && t.Seals?
    requires After(msgs, p, t.record.emission).written == p.written
    ensures room - PlainLength(t.record.emission) == OverheadFor(t.w, msgs[p.written])
  {
  }

  lemma NoRoomIsFull(msgs: seq<FlightMessage>, p: Position, w: WriteState, room: nat, a: SealAnswer)
    requires At(msgs, p) && p.written < |msgs| && StateOk(w) && TrySeal(msgs, p, w, room, a).NoRoom?
    ensures room < OverheadFor(w, msgs[p.written]) + if msgs[p.written].Ccs? then 1 else 13
  {
  }

  lemma {:induction false} PackFills(msgs: seq<FlightMessage>, p: Position, w: WriteState, seals: seq<SealAnswer>,
                                     room: nat, packet: Datagram, r: Packing, mtu: nat)
    requires At(msgs, p) && StateOk(w) && r == Pack(msgs, p, w, seals, room, packet) && mtu == room + Length(packet)
    requires packet != [] ==> p.offset == 0
    ensures r.end.Filled? ==> Full(msgs, r, mtu - Length(r.packet))
    decreases |msgs| - p.written
  {
    if p.written < |msgs| {
      var t := TrySeal(msgs, p, w, room, First(seals));
      PackRound(msgs, p, w, seals, room, packet, t);
      if t.NoRoom? {
        NoRoomIsFull(msgs, p, w, room, First(seals));
      } else if t.Seals? {
        var q, more := After(msgs, p, t.record.emission), packet + [t.record];
        OneMoreRecord(packet, t.record);
        if q.written > p.written {
          PackFills(msgs, q, t.w, Rest(seals), room - t.record.length, more, r, mtu);
        } else {
          PartialFills(msgs, p, w, room, First(seals), t);
        }
      }
    }
  }

  /** Every datagram that is packed before the end of a flight is as full as it can be. */
  lemma DatagramsAreFull(msgs: seq<FlightMessage>, p: Position, w: WriteState, seals: seq<SealAnswer>, mtu: nat)
    requires At(msgs, p) && StateOk(w)
    ensures var r := Pack(msgs, p, w, seals, mtu, []); r.end.Filled? ==> Full(msgs, r, mtu - Length(r.packet))
  {
    PackFills(msgs, p, w, seals, mtu, [], Pack(msgs, p, w, seals, mtu, []), mtu);
  }
}

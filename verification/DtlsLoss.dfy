/** What a failure to seal loses. The position is moved record by record and is put back only when the transport does
    not take a datagram. So if sealing fails when the datagram already holds a record, that record is passed over: it is
    in no datagram until the whole flight is sent again. */
module DtlsLoss {
  import opened DtlsCutting
  import opened DtlsFlight
  import opened DtlsFragment

  // ---------- Which runs lose something ----------

  /** From `p` on, sealing fails in this datagram with a record before it; `behind` tells whether there is one at `p`.
      */
  predicate FailsBehindARecord(msgs: seq<FlightMessage>, p: Position, w: WriteState, seals: seq<SealAnswer>, room: nat,
                               behind: bool)
    requires At(msgs, p) && StateOk(w)
    decreases |msgs| - p.written
  {
    p.written < |msgs| &&
    match TrySeal(msgs, p, w, room, First(seals))
    case UnknownEpoch => behind
    case Fails(_) => behind
    case NoRoom => false
    case Seals(record, v) =>
      var q := After(msgs, p, record.emission);
      ContinuesAt(msgs, p, record.emission);
      q.written > p.written && FailsBehindARecord(msgs, q, v, Rest(seals), room - record.length, true)
  }

  /** Sealing fails behind a record in one of the datagrams that the sending comes to. */
  predicate FailsMidDatagram(msgs: seq<FlightMessage>, p: Position, w: WriteState, seals: seq<SealAnswer>,
                             writes: seq<int>, mtu: nat)
    requires At(msgs, p) && StateOk(w)
    decreases Work(msgs, p)
  {
    p.written < |msgs| &&
    (|| FailsBehindARecord(msgs, p, w, seals, mtu, false)
     || (var r := Pack(msgs, p, w, seals, mtu, []);
         PackMovesOn(msgs, p, w, seals, mtu);
         && r.end.Filled? && !(writes != [] && writes[0] <= 0)
         && FailsMidDatagram(msgs, r.next, r.w, r.seals, Rest(writes), mtu)))
  }

  lemma FailsRound(msgs: seq<FlightMessage>, p: Position, w: WriteState, seals: seq<SealAnswer>, room: nat,
                   behind: bool, t: Try, q: Position)
    requires At(msgs, p) && StateOk(w) && p.written < |msgs|
    requires t == TrySeal(msgs, p, w, room, First(seals))
    requires t.Seals? ==> q == After(msgs, p, t.record.emission)
    ensures t.Seals? ==> At(msgs, q)
    ensures FailsBehindARecord(msgs, p, w, seals, room, behind) ==
            if t.UnknownEpoch? || t.Fails? then behind
            else t.Seals? && q.written > p.written
                 && FailsBehindARecord(msgs, q, t.w, Rest(seals), room - t.record.length, true)
  {
    if t.Seals? {
      ContinuesAt(msgs, p, t.record.emission);
    }
  }

  lemma {:induction false} BrokenExactly(msgs: seq<FlightMessage>, p: Position, w: WriteState, seals: seq<SealAnswer>,
                                         room: nat, packet: Datagram, r: Packing, fails: bool)
    requires At(msgs, p) && StateOk(w) && r == Pack(msgs, p, w, seals, room, packet)
    requires fails == FailsBehindARecord(msgs, p, w, seals, room, packet != [])
    ensures r.end.Broken? && r.packet != [] <==> fails
    decreases |msgs| - p.written
  {
    if p.written < |msgs| {
      var t := TrySeal(msgs, p, w, room, First(seals));
      var q := if t.Seals? then After(msgs, p, t.record.emission) else p;
      PackRound(msgs, p, w, seals, room, packet, t);
      FailsRound(msgs, p, w, seals, room, packet != [], t, q);
      if t.Seals? && q.written > p.written {
        BrokenExactly(msgs, q, t.w, Rest(seals), room - t.record.length, packet + [t.record], r, fails);
      }
    }
  }

  lemma {:induction false} LosesExactly(msgs: seq<FlightMessage>, p: Position, w: WriteState, seals: seq<SealAnswer>,
                                        writes: seq<int>, flushed: bool, mtu: nat, sent: seq<Datagram>)
    requires At(msgs, p) && StateOk(w)
    ensures Send(msgs, p, w, seals, writes, flushed, mtu, sent).lost != [] <==>
            FailsMidDatagram(msgs, p, w, seals, writes, mtu)
    decreases Work(msgs, p)
  {
    if p.written < |msgs| {
      var r := Pack(msgs, p, w, seals, mtu, []);
      PackMovesOn(msgs, p, w, seals, mtu);
      BrokenExactly(msgs, p, w, seals, mtu, [], r, FailsBehindARecord(msgs, p, w, seals, mtu, false));
      if r.end.Filled? && !(writes != [] && writes[0] <= 0) {
        LosesExactly(msgs, r.next, r.w, r.seals, Rest(writes), flushed, mtu, sent + [r.packet]);
      }
    }
  }

  lemma SomethingWasEmitted(d: Datagram)
    ensures Emissions(d) == [] <==> d == []
  {
  }

  /** A sending leaves the position where the datagrams it wrote have taken it, so that the next one goes on from there,
      exactly when sealing did not fail behind a record of the same datagram. */
  lemma ResumesExactly(msgs: seq<FlightMessage>, p: Position, w: WriteState, seals: seq<SealAnswer>,
                       writes: seq<int>, flushed: bool, mtu: nat)
    requires At(msgs, p) && StateOk(w)
    ensures var s := Send(msgs, p, w, seals, writes, flushed, mtu, []);
            Walk(msgs, p, AllEmissions(s.sent), s.next) <==> !FailsMidDatagram(msgs, p, w, seals, writes, mtu)
  {
    var s := Send(msgs, p, w, seals, writes, flushed, mtu, []);
    LosesExactly(msgs, p, w, seals, writes, flushed, mtu, []);
    SendAccounts(msgs, p, p, w, seals, writes, flushed, mtu, []);
    SomethingWasEmitted(s.lost);
    if s.lost == [] {
      NothingLost(s.sent);
    } else {
      var r := WalkSplit(msgs, p, AllEmissions(s.sent), Emissions(s.lost), s.next);
      WalkAdvances(msgs, r, Emissions(s.lost), s.next);
      if Walk(msgs, p, AllEmissions(s.sent), s.next) {
        WalkEndsOnce(msgs, p, AllEmissions(s.sent), s.next, r);
      }
    }
  }

  // ---------- Which flights can lose something ----------

  /** The next datagram completes the message at `p`, and then the next message is tried as well: its epoch is
      unknown, or there is room for some of it if the cipher adds no more than it has to. */
  predicate Shares(msgs: seq<FlightMessage>, p: Position, w: WriteState, mtu: nat)
    requires At(msgs, p) && p.written < |msgs| && StateOk(w) && Fits(w, msgs[p.written], mtu)
  {
    var e, c := NextEmission(msgs, p, w, mtu), ChannelFor(w, msgs[p.written]);
    && p.written + 1 < |msgs| && After(msgs, p, e).written > p.written
    && (!EpochKnown(w, msgs[p.written + 1]) || Fits(w, msgs[p.written + 1], mtu - PlainLength(e) - c.prefix))
  }

  predicate Sealable(msgs: seq<FlightMessage>, p: Position, w: WriteState, mtu: nat)
    requires p.written < |msgs|
  {
    var m := msgs[p.written];
    EpochKnown(w, m) && Fits(w, m, mtu) && NumbersLeft(w, m)
  }

  /** Up to its end, or to a message that cannot be sealed at all, each datagram of the flight has one record. */
  predicate OneRecordEach(msgs: seq<FlightMessage>, p: Position, w: WriteState, mtu: nat)
    requires At(msgs, p) && StateOk(w)
    decreases Work(msgs, p)
  {
    p.written < |msgs| && Sealable(msgs, p, w, mtu) ==>
      var e := NextEmission(msgs, p, w, mtu);
      RecordIsWork(msgs, p, e);
      !Shares(msgs, p, w, mtu) && OneRecordEach(msgs, After(msgs, p, e), UseNumber(w, msgs[p.written]), mtu)
  }

  /** What is packed at `p` is the one record sealed there. */
  ghost predicate OneRecord(msgs: seq<FlightMessage>, p: Position, w: WriteState, mtu: nat, seals: seq<SealAnswer>,
                            r: Packing)
    requires At(msgs, p) && p.written < |msgs| && StateOk(w) && Fits(w, msgs[p.written], mtu)
  {
    var t := TrySeal(msgs, p, w, mtu, First(seals));
    && t.Seals? && r == Packing(Filled, [t.record], After(msgs, p, t.record.emission), t.w, Rest(seals))
    && t.record.emission == NextEmission(msgs, p, w, mtu) && t.w == UseNumber(w, msgs[p.written])
  }

  lemma SealedIsLongEnough(msgs: seq<FlightMessage>, p: Position, w: WriteState, a: SealAnswer, mtu: nat)
    requires At(msgs, p) && p.written < |msgs| && StateOk(w) && TrySeal(msgs, p, w, mtu, a).Seals?
    ensures var t, e := TrySeal(msgs, p, w, mtu, a), NextEmission(msgs, p, w, mtu);
            && t.record.emission == e && t.w == UseNumber(w, msgs[p.written])
            && t.record.length >= PlainLength(e) + ChannelFor(w, msgs[p.written]).prefix
  {
  }

  lemma StillNoRoom(w: WriteState, m: FlightMessage, next: FlightMessage, room: int, less: nat)
    requires EpochKnown(w, next) && less <= room && !Fits(w, next, room)
    ensures EpochKnown(UseNumber(w, m), next) && !Fits(UseNumber(w, m), next, less)
  {
  }

  lemma EndsHere(msgs: seq<FlightMessage>, q: Position, v: WriteState, seals: seq<SealAnswer>, room: nat,
                 packet: Datagram)
    requires At(msgs, q) && StateOk(v) && packet != []
    requires q.written < |msgs| ==> EpochKnown(v, msgs[q.written]) && !Fits(v, msgs[q.written], room)
    ensures Pack(msgs, q, v, seals, room, packet) == Packing(Filled, packet, q, v, seals)
  {
  }

  /** Behind a record that completes its message there is no room, unless the datagram may be shared. */
  lemma NoRoomBehind(msgs: seq<FlightMessage>, p: Position, w: WriteState, mtu: nat, t: Try, q: Position,
                     seals: seq<SealAnswer>, packet: Datagram)
    requires At(msgs, p) && p.written < |msgs| && StateOk(w) && Sealable(msgs, p, w, mtu)
    requires !Shares(msgs, p, w, mtu) && packet != []
    requires t.Seals? && t.record.length <= mtu && t.w == UseNumber(w, msgs[p.written]) && StateOk(t.w)
    requires t.record.length >= PlainLength(t.record.emission) + ChannelFor(w, msgs[p.written]).prefix
    requires t.record.emission == NextEmission(msgs, p, w, mtu) && q == After(msgs, p, t.record.emission)
    requires q.written > p.written && At(msgs, q)
    ensures Pack(msgs, q, t.w, seals, mtu - t.record.length, packet) == Packing(Filled, packet, q, t.w, seals)
  {
    if q.written < |msgs| {
      StillNoRoom(w, msgs[p.written], msgs[q.written],
                  mtu - PlainLength(t.record.emission) - ChannelFor(w, msgs[p.written]).prefix, mtu - t.record.length);
    }
    EndsHere(msgs, q, t.w, seals, mtu - t.record.length, packet);
  }

  lemma Alone(msgs: seq<FlightMessage>, p: Position, w: WriteState, seals: seq<SealAnswer>, mtu: nat)
    requires At(msgs, p) && p.written < |msgs| && StateOk(w) && Sealable(msgs, p, w, mtu)
    requires !Shares(msgs, p, w, mtu)
    ensures var r := Pack(msgs, p, w, seals, mtu, []);
            if First(seals).Refuses? then r.end.Broken? && r.packet == [] else OneRecord(msgs, p, w, mtu, seals, r)
  {
    var t := TrySeal(msgs, p, w, mtu, First(seals));
    if t.Seals? {
      var q := After(msgs, p, t.record.emission);
      ContinuesAt(msgs, p, t.record.emission);
      SealedIsLongEnough(msgs, p, w, First(seals), mtu);
      assert [] + [t.record] == [t.record];
      if p.written < q.written {
        NoRoomBehind(msgs, p, w, mtu, t, q, Rest(seals), [t.record]);
      }
    }
  }

  lemma NotSealable(msgs: seq<FlightMessage>, p: Position, w: WriteState, seals: seq<SealAnswer>, mtu: nat)
    requires At(msgs, p) && p.written < |msgs| && StateOk(w) && !Sealable(msgs, p, w, mtu)
    ensures var r := Pack(msgs, p, w, seals, mtu, []); !r.end.Filled? && r.packet == []
  {
  }

  lemma {:induction false} OneRecordEachIsSafe(msgs: seq<FlightMessage>, p: Position, w: WriteState,
                                               seals: seq<SealAnswer>, writes: seq<int>, flushed: bool, mtu: nat,
                                               sent: seq<Datagram>)
    requires At(msgs, p) && StateOk(w) && OneRecordEach(msgs, p, w, mtu)
    ensures Send(msgs, p, w, seals, writes, flushed, mtu, sent).lost == []
    decreases Work(msgs, p)
  {
    if p.written < |msgs| {
      var r := Pack(msgs, p, w, seals, mtu, []);
      PackMovesOn(msgs, p, w, seals, mtu);
      if Sealable(msgs, p, w, mtu) {
        Alone(msgs, p, w, seals, mtu);
        if r.end.Filled? {
          OneRecordEachIsSafe(msgs, r.next, r.w, r.seals, Rest(writes), flushed, mtu, sent + [r.packet]);
        }
      } else {
        NotSealable(msgs, p, w, seals, mtu);
      }
    }
  }

  lemma FailsHere(msgs: seq<FlightMessage>, q: Position, v: WriteState, seals: seq<SealAnswer>, room: nat,
                  packet: Datagram)
    requires At(msgs, q) && q.written < |msgs| && StateOk(v) && First(seals).Refuses?
    requires !EpochKnown(v, msgs[q.written]) || Fits(v, msgs[q.written], room)
    ensures var r := Pack(msgs, q, v, seals, room, packet);
            r.end.Broken? && r.packet == packet && r.next == q && r.w == v
  {
  }

  /** The cipher seals one record as short as it can and then fails. */
  lemma SharedBreaks(msgs: seq<FlightMessage>, p: Position, w: WriteState, mtu: nat, seals: seq<SealAnswer>)
    requires At(msgs, p) && p.written < |msgs| && StateOk(w) && Sealable(msgs, p, w, mtu)
    requires Shares(msgs, p, w, mtu) && seals == [Adds(ChannelFor(w, msgs[p.written]).prefix), Refuses]
    ensures var r := Pack(msgs, p, w, seals, mtu, []); r.end.Broken? && r.packet != []
  {
    var t := TrySeal(msgs, p, w, mtu, First(seals));
    var q := After(msgs, p, t.record.emission);
    ContinuesAt(msgs, p, t.record.emission);
    assert t.record.length == PlainLength(t.record.emission) + ChannelFor(w, msgs[p.written]).prefix;
    FailsHere(msgs, q, t.w, Rest(seals), mtu - t.record.length, [] + [t.record]);
  }

  lemma {:induction false} SomeAnswersLose(msgs: seq<FlightMessage>, p: Position, w: WriteState, mtu: nat,
                                           sent: seq<Datagram>) returns (seals: seq<SealAnswer>)
    requires At(msgs, p) && StateOk(w) && !OneRecordEach(msgs, p, w, mtu)
    ensures Send(msgs, p, w, seals, [], true, mtu, sent).lost != []
    decreases Work(msgs, p)
  {
    var least := Adds(ChannelFor(w, msgs[p.written]).prefix);
    if Shares(msgs, p, w, mtu) {
      seals := [least, Refuses];
      SharedBreaks(msgs, p, w, mtu, seals);
    } else {
      var e := NextEmission(msgs, p, w, mtu);
      RecordIsWork(msgs, p, e);
      var packet := [TrySeal(msgs, p, w, mtu, least).record];
      var more := SomeAnswersLose(msgs, After(msgs, p, e), UseNumber(w, msgs[p.written]), mtu, sent + [packet]);
      seals := [least] + more;
      assert First(seals) == least && Rest(seals) == more;
      Alone(msgs, p, w, seals, mtu);
      PackMovesOn(msgs, p, w, seals, mtu);
    }
  }

  /** A flight is safe from losing anything, whatever the cipher and the transport answer, exactly when each of its
      datagrams has one record. That is known before sending. */
  lemma SafeExactly(msgs: seq<FlightMessage>, p: Position, w: WriteState, mtu: nat)
    requires At(msgs, p) && StateOk(w)
    ensures (forall seals, writes, flushed :: Send(msgs, p, w, seals, writes, flushed, mtu, []).lost == []) <==>
            OneRecordEach(msgs, p, w, mtu)
  {
    if OneRecordEach(msgs, p, w, mtu) {
      forall seals, writes, flushed
        ensures Send(msgs, p, w, seals, writes, flushed, mtu, []).lost == []
      {
        OneRecordEachIsSafe(msgs, p, w, seals, writes, flushed, mtu, []);
      }
    } else {
      var seals := SomeAnswersLose(msgs, p, w, mtu, []);
      assert Send(msgs, p, w, seals, [], true, mtu, []).lost != [];
    }
  }

  // ---------- What is lost stays out ----------

  predicate Covers(e: Emission, number: nat, b: nat) {
    e.FragmentRecord? && e.f.number == number && e.f.fragOff <= b < e.f.fragOff + |e.f.body|
  }

  /** What one sending loses is in none of its datagrams and in none of those of the sending that goes on from there. */
  lemma LostIsSkipped(msgs: seq<FlightMessage>, p: Position, s: Sending, t: Sending, mtu: nat, i: nat, b: nat, k: nat)
    requires NumbersDistinct(msgs) && At(msgs, p) && At(msgs, s.next) && At(msgs, t.next)
    requires Accounts(msgs, p, mtu, s) && Accounts(msgs, s.next, mtu, t)
    requires i < |msgs| && msgs[i].Message?
    requires exists l :: 0 <= l < |Emissions(s.lost)| && Covers(Emissions(s.lost)[l], msgs[i].whole.number, b)
    requires k < |AllEmissions(s.sent) + AllEmissions(t.sent)|
    ensures !Covers((AllEmissions(s.sent) + AllEmissions(t.sent))[k], msgs[i].whole.number, b)
  {
    var number, es, fs := msgs[i].whole.number, AllEmissions(s.sent), AllEmissions(t.sent);
    var l :| 0 <= l < |Emissions(s.lost)| && Covers(Emissions(s.lost)[l], number, b);
    var r := WalkSplit(msgs, p, es, Emissions(s.lost), s.next);
    WalkWithin(msgs, r, Emissions(s.lost), s.next, i, l);
    var u := WalkSplit(msgs, s.next, fs, Emissions(t.lost), t.next);
    if k < |es| {
      if Covers(es[k], number, b) {
        WalkWithin(msgs, p, es, r, i, k);
      }
    } else if Covers(fs[k - |es|], number, b) {
      WalkWithin(msgs, s.next, fs, u, i, k - |es|);
    }
  }

  // ---------- A case ----------

  /** Two messages without a body, such as a ServerHelloDone. */
  predicate TwoEmptyMessages(msgs: seq<FlightMessage>, w: WriteState) {
    && |msgs| == 2 && NumbersDistinct(msgs)
    && forall i :: 0 <= i < 2 ==> msgs[i].Message? && msgs[i].epoch == w.epoch && msgs[i].whole.body == []
  }

  lemma FirstPacket(msgs: seq<FlightMessage>, p: Position, w: WriteState, mtu: nat, seals: seq<SealAnswer>)
    requires TwoEmptyMessages(msgs, w) && StateOk(w) && NumbersSuffice(w, 2) && p == Position(0, 0)
    requires mtu >= 2 * (HM_HEADER_LENGTH + 1 + w.current.overhead) && |seals| == 2 && seals[0].Adds?
             && seals[1].Refuses?
    ensures var r := Pack(msgs, p, w, seals, mtu, []);
            r.end.Broken? && r.next == Position(1, 0) && r.w == UseNumber(w, msgs[0])
  {
    var t := TrySeal(msgs, p, w, mtu, First(seals));
    FailsHere(msgs, Position(1, 0), t.w, Rest(seals), mtu - t.record.length, [] + [t.record]);
  }

  /** Both fit one datagram, and the second seal fails: the first message has been passed over. */
  lemma FirstSending(msgs: seq<FlightMessage>, w: WriteState, mtu: nat, seals: seq<SealAnswer>)
    requires TwoEmptyMessages(msgs, w) && StateOk(w) && NumbersSuffice(w, 2)
    requires mtu >= 2 * (HM_HEADER_LENGTH + 1 + w.current.overhead) && seals == [Adds(0), Refuses]
    ensures var s := Send(msgs, Position(0, 0), w, seals, [], true, mtu, []);
            s.ret == -1 && s.sent == [] && s.next == Position(1, 0) && s.w == UseNumber(w, msgs[0])
  {
    FirstPacket(msgs, Position(0, 0), w, mtu, seals);
  }

  /** The next sending reports success, and the first message is in no datagram. */
  lemma AMessageIsLost(msgs: seq<FlightMessage>, w: WriteState, mtu: nat, s: Sending, k: nat)
    requires TwoEmptyMessages(msgs, w) && StateOk(w) && NumbersSuffice(w, 4)
    requires mtu >= 2 * (HM_HEADER_LENGTH + 1 + w.current.overhead)
    requires s == Send(msgs, Position(0, 0), w, [Adds(0), Refuses], [], true, mtu, [])
    ensures s.ret == -1 && s.sent == [] && s.next == Position(1, 0)
    ensures var t := Send(msgs, s.next, s.w, [], [], true, mtu, []);
            && t.ret == 1
            && (k < |AllEmissions(t.sent)| && AllEmissions(t.sent)[k].FragmentRecord? ==>
                  AllEmissions(t.sent)[k].f.number != msgs[0].whole.number)
  {
    FirstSending(msgs, w, mtu, [Adds(0), Refuses]);
    var p, v := Position(1, 0), UseNumber(w, msgs[0]);
    var t := Send(msgs, p, v, [], [], true, mtu, []);
    assert WorkFrom(msgs, 2) == 0 && Work(msgs, p) == 1;
    SendsAll(msgs, p, v, [], [], mtu, []);
    SendAccounts(msgs, p, p, v, [], [], true, mtu, []);
    NothingLost(t.sent);
    if k < |AllEmissions(t.sent)| && AllEmissions(t.sent)[k].FragmentRecord? {
      var i := WalkIsHonest(msgs, p, AllEmissions(t.sent), t.next, k);
    }
  }

  function HelloDone(number: nat): FlightMessage {
    Message(0, Fragment(14, 0, number, 0, []))
  }

  /** Such flights exist: two messages in clear with an MTU of 1400. */
  lemma SuchAFlight(msgs: seq<FlightMessage>, w: WriteState)
    requires w == WriteState(0, Channel(13, 13, 0), Channel(13, 13, 0))
    requires msgs == [HelloDone(0), HelloDone(1)]
    ensures TwoEmptyMessages(msgs, w) && FailsMidDatagram(msgs, Position(0, 0), w, [Adds(0), Refuses], [], 1400)
    ensures !OneRecordEach(msgs, Position(0, 0), w, 1400)
  {
    CanBeLost(msgs, w, 1400, [Adds(0), Refuses]);
  }

  lemma CanBeLost(msgs: seq<FlightMessage>, w: WriteState, mtu: nat, seals: seq<SealAnswer>)
    requires TwoEmptyMessages(msgs, w) && StateOk(w) && NumbersSuffice(w, 4)
    requires mtu >= 2 * (HM_HEADER_LENGTH + 1 + w.current.overhead) && seals == [Adds(0), Refuses]
    ensures FailsMidDatagram(msgs, Position(0, 0), w, seals, [], mtu) && !OneRecordEach(msgs, Position(0, 0), w, mtu)
  {
    var p := Position(0, 0);
    var s := Send(msgs, p, w, seals, [], true, mtu, []);
    FirstSending(msgs, w, mtu, seals);
    SendAccounts(msgs, p, p, w, seals, [], true, mtu, []);
    assert s.lost != [];
    LosesExactly(msgs, p, w, seals, [], true, mtu, []);
    SafeExactly(msgs, p, w, mtu);
  }
}

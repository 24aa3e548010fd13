/** Section 6.2.1 of RFC 5246: where the boundaries of records are makes no difference to the messages. */
module TlsMessageDelivery {
  import opened Bytes
  import opened TlsMessages

  /** The records that are still to arrive, what the reader has buffered, and the messages taken from it. */
  datatype Link = Link(records: seq<seq<byte>>, buf: seq<byte>, received: seq<HandshakeMessage>, failed: bool)

  /** Another record arrives, or the reader is asked for a message and told to go on to the next. The driver opens a
      record only while no message waits to be read; as long as one does, a record stays where it is. */
  datatype Event = Arrive | Read

  function Step(l: Link, e: Event, maxMessage: nat): Link {
    match e
    case Arrive =>
      if l.failed || l.records == [] then l
      else (
        match CanAccept(l.buf, maxMessage)
        case Accepted => l.(records := l.records[1..], buf := l.buf + l.records[0])
        case MessageWaiting => l
        case _ => l.(failed := true)
      )
    case Read =>
      match Front(l.buf)
      case Complete(m) => l.(buf := l.buf[|Raw(m)|..], received := l.received + [m])
      case Needs(_) => l
  }

  function Run(l: Link, events: seq<Event>, maxMessage: nat): Link
    decreases |events|
  {
    if events == [] then l else Run(Step(l, events[0], maxMessage), events[1..], maxMessage)
  }

  predicate Acceptable(ms: seq<HandshakeMessage>, maxMessage: nat) {
    forall i :: 0 <= i < |ms| ==> WellSized(ms[i]) && |ms[i].body| <= maxMessage
  }

  /** What was received is the first of what was sent, and the buffer and the records to come spell the rest. */
  predicate OnTrack(l: Link, sent: seq<HandshakeMessage>) {
    && l.received <= sent && !l.failed
    && l.buf + Concat(l.records) == Stream(sent[|l.received|..])
  }

  /** How the front of the buffer stands to the first message not yet received. */
  lemma FrontOnTrack(l: Link, sent: seq<HandshakeMessage>, maxMessage: nat)
    requires OnTrack(l, sent) && Acceptable(sent, maxMessage)
    ensures |l.received| == |sent| ==> l.buf == [] && Front(l.buf) == Needs(4)
    ensures |l.received| < |sent| ==>
              var m := sent[|l.received|];
              Front(l.buf) == if |Raw(m)| <= |l.buf| then Complete(m) else Needs(if |l.buf| < 4 then 4 else |Raw(m)|)
    ensures CanAccept(l.buf, maxMessage) != Excessive
  {
    if |l.received| < |sent| {
      var rest := sent[|l.received|..];
      assert rest[0] == sent[|l.received|];
      assert l.buf <= Raw(rest[0]) + Stream(rest[1..]);
      FrontOfPart(rest[0], Stream(rest[1..]), l.buf);
    } else {
      assert |l.buf + Concat(l.records)| == 0;
    }
  }

  lemma ReadStaysOnTrack(l: Link, sent: seq<HandshakeMessage>, maxMessage: nat)
    requires OnTrack(l, sent) && Acceptable(sent, maxMessage) && Front(l.buf).Complete?
    ensures OnTrack(Step(l, Read, maxMessage), sent)
  {
    FrontOnTrack(l, sent, maxMessage);
    var r, m, rest := Step(l, Read, maxMessage), Front(l.buf).m, sent[|l.received|..];
    assert rest[0] == m && sent[|r.received|..] == rest[1..];
    FrontOfPart(m, Stream(rest[1..]), l.buf);
    assert l.buf[..|Raw(m)|] == (Raw(m) + Stream(rest[1..]))[..|Raw(m)|] == Raw(m);
    assert r.buf + Concat(r.records) == (l.buf + Concat(l.records))[|Raw(m)|..];
    assert (Raw(m) + Stream(rest[1..]))[|Raw(m)|..] == Stream(rest[1..]);
  }

  lemma StepStaysOnTrack(l: Link, e: Event, sent: seq<HandshakeMessage>, maxMessage: nat)
    requires OnTrack(l, sent) && Acceptable(sent, maxMessage)
    ensures OnTrack(Step(l, e, maxMessage), sent)
  {
    FrontOnTrack(l, sent, maxMessage);
    var r := Step(l, e, maxMessage);
    if e.Read? && Front(l.buf).Complete? {
      ReadStaysOnTrack(l, sent, maxMessage);
    } else if r.records != l.records {
      assert r.buf + Concat(r.records) == l.buf + (l.records[0] + Concat(l.records[1..]));
    }
  }

  lemma {:induction false} RunStaysOnTrack(l: Link, events: seq<Event>, sent: seq<HandshakeMessage>, maxMessage: nat)
    requires OnTrack(l, sent) && Acceptable(sent, maxMessage)
    ensures OnTrack(Run(l, events, maxMessage), sent)
    decreases |events|
  {
    if events != [] {
      StepStaysOnTrack(l, events[0], sent, maxMessage);
      RunStaysOnTrack(Step(l, events[0], maxMessage), events[1..], sent, maxMessage);
    }
  }

  function Start(records: seq<seq<byte>>): Link {
    Link(records, [], [], false)
  }

  /** Cut into records in any way, and read in any order of arriving and reading, the messages come out as they were
      sent; and when neither anything can arrive nor be read, all of them have come out. */
  lemma BoundariesMakeNoDifference(sent: seq<HandshakeMessage>, records: seq<seq<byte>>, events: seq<Event>,
                                   maxMessage: nat)
    requires Concat(records) == Stream(sent) && Acceptable(sent, maxMessage)
    ensures var l := Run(Start(records), events, maxMessage);
            && l.received <= sent && !l.failed
            && (Step(l, Arrive, maxMessage) == l && Step(l, Read, maxMessage) == l ==>
                  l.received == sent && l.records == [])
  {
    assert sent[0..] == sent && [] + Concat(records) == Concat(records);
    RunStaysOnTrack(Start(records), events, sent, maxMessage);
    var l := Run(Start(records), events, maxMessage);
    FrontOnTrack(l, sent, maxMessage);
    if Step(l, Arrive, maxMessage) == l && Step(l, Read, maxMessage) == l {
      assert Front(l.buf).Complete? ==> |Step(l, Read, maxMessage).received| == |l.received| + 1;
      assert l.records != [] && Front(l.buf).Needs? ==> |Step(l, Arrive, maxMessage).records| == |l.records| - 1;
      assert Concat(l.records) == [] && l.buf + [] == l.buf;
      OnlyNothingIsBelowItsFront(sent[|l.received|..]);
    }
  }

  /** All of what is sent is enough for its first message. */
  lemma OnlyNothingIsBelowItsFront(ms: seq<HandshakeMessage>)
    ensures ms != [] ==> |Raw(ms[0])| <= |Stream(ms)|
  {
  }

  /** Every step that changes anything brings the end closer, so there are finitely many. */
  lemma StepsRunOut(l: Link, e: Event, sent: seq<HandshakeMessage>, maxMessage: nat)
    requires OnTrack(l, sent) && Acceptable(sent, maxMessage) && Step(l, e, maxMessage) != l
    ensures var r := Step(l, e, maxMessage);
            |r.records| + |sent| - |r.received| < |l.records| + |sent| - |l.received|
  {
    FrontOnTrack(l, sent, maxMessage);
  }

  /** A message can be read as soon as its last byte has arrived, and not before. */
  lemma ReadableOnceItHasArrived(l: Link, sent: seq<HandshakeMessage>, maxMessage: nat, arrived: seq<byte>)
    requires OnTrack(l, sent) && Acceptable(sent, maxMessage) && |l.received| < |sent|
    requires arrived + Concat(l.records) == Stream(sent)
    ensures Front(l.buf) == Complete(sent[|l.received|]) <==>
            |Stream(sent[..|l.received| + 1])| <= |arrived|
  {
    var k := |l.received|;
    var m := sent[k];
    FrontOnTrack(l, sent, maxMessage);
    assert sent[..k] + sent[k..] == sent && sent[..k + 1] == sent[..k] + [m];
    StreamAppend(sent[..k], sent[k..]);
    StreamAppend(sent[..k], [m]);
    var one := [m];
    assert one[1..] == [] && Raw(m) + [] == Raw(m);
  }

  // ---------- From end to end ----------

  /** A flight as the sender adds it: each message split by the limit in force at the time. */
  datatype Sent = Sent(m: HandshakeMessage, maxSendFragment: nat, parts: seq<seq<byte>>)

  predicate Added(flight: seq<Sent>) {
    forall i :: 0 <= i < |flight| ==>
      flight[i].maxSendFragment > 0 && Splits(Raw(flight[i].m), flight[i].maxSendFragment, flight[i].parts)
  }

  function MessagesOf(flight: seq<Sent>): (ms: seq<HandshakeMessage>)
    ensures |ms| == |flight| && forall i :: 0 <= i < |ms| ==> ms[i] == flight[i].m
  {
    if flight == [] then [] else [flight[0].m] + MessagesOf(flight[1..])
  }

  function RecordsOf(flight: seq<Sent>): seq<seq<byte>> {
    if flight == [] then [] else flight[0].parts + RecordsOf(flight[1..])
  }

  lemma {:induction false} RecordsSpellTheMessages(flight: seq<Sent>)
    requires Added(flight)
    ensures Concat(RecordsOf(flight)) == Stream(MessagesOf(flight))
    decreases |flight|
  {
    if flight != [] {
      ConcatAppend(flight[0].parts, RecordsOf(flight[1..]));
      RecordsSpellTheMessages(flight[1..]);
      assert MessagesOf(flight)[1..] == MessagesOf(flight[1..]);
    }
  }

  /** What ssl3_add_message split comes out of ssl3_get_message whole, in order and once. */
  lemma SentIsReceived(flight: seq<Sent>, events: seq<Event>, maxMessage: nat)
    requires Added(flight) && Acceptable(MessagesOf(flight), maxMessage)
    ensures var l := Run(Start(RecordsOf(flight)), events, maxMessage);
            && l.received <= MessagesOf(flight) && !l.failed
            && (Step(l, Arrive, maxMessage) == l && Step(l, Read, maxMessage) == l ==>
                  l.received == MessagesOf(flight))
  {
    RecordsSpellTheMessages(flight);
    BoundariesMakeNoDifference(MessagesOf(flight), RecordsOf(flight), events, maxMessage);
  }

  /** The limit on messages bites exactly when a longer message has shown its header and not yet arrived whole. */
  lemma ExcessiveExactly(m: HandshakeMessage, rest: seq<byte>, buf: seq<byte>, maxMessage: nat)
    requires WellSized(m) && buf <= Raw(m) + rest
    ensures CanAccept(buf, maxMessage) == Excessive <==> 4 <= |buf| < |Raw(m)| && |m.body| > maxMessage
  {
    FrontOfPart(m, rest, buf);
  }
}

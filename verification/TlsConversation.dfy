/** The conversation of a handshake: which side sends what, in one total order, and how far each party is in it. */
module TlsConversation {
  import opened Bytes
  import opened TlsHandshake

  /** A place in the conversation; with some parameters nothing is sent in it. */
  datatype Slot = Slot(fromServer: bool, present: bool, item: Item)

  function Said(p: Params, kind: Kind, fromServer: bool): Item {
    Msg(Plain(kind, p.content(kind, fromServer)))
  }

  /** Slot `n` of a full handshake, where `tr` is the transcript before it. */
  function FullSlot(p: Params, n: nat, tr: seq<Message>): Slot {
    match n
    case 0 => Slot(false, true, Said(p, ClientHello, false))
    case 1 => Slot(true, true, Said(p, ServerHello, true))
    case 2 => Slot(true, p.certAuth, Said(p, Certificate, true))
    case 3 => Slot(true, p.ocsp, Said(p, CertificateStatus, true))
    case 4 => Slot(true, p.ecdhe || p.pskHint, Said(p, ServerKeyExchange, true))
    case 5 => Slot(true, p.certRequest, Said(p, CertificateRequest, true))
    case 6 => Slot(true, true, Said(p, ServerHelloDone, true))
    case 7 => Slot(false, p.certRequest, Said(p, Certificate, false))
    case 8 => Slot(false, true, Said(p, ClientKeyExchange, false))
    case 9 => Slot(false, p.certRequest && p.clientHasCert, Msg(Signed(CertificateVerify, tr)))
    case 10 => Slot(false, true, Ccs)
    case 11 => Slot(false, p.npn, Said(p, NextProto, false))
    case 12 => Slot(false, p.channelId, Msg(Signed(ChannelId, tr)))
    case 13 => Slot(false, true, Msg(Finished(false, tr)))
    case 14 => Slot(true, p.ticket, Said(p, NewSessionTicket, true))
    case 15 => Slot(true, true, Ccs)
    case _ => Slot(true, true, Msg(Finished(true, tr)))
  }

  /** Slot `n` of a resumption: the server finishes first. */
  function ResumedSlot(p: Params, n: nat, tr: seq<Message>): Slot {
    match n
    case 0 => Slot(false, true, Said(p, ClientHello, false))
    case 1 => Slot(true, true, Said(p, ServerHello, true))
    case 2 => Slot(true, p.ticket, Said(p, NewSessionTicket, true))
    case 3 => Slot(true, true, Ccs)
    case 4 => Slot(true, true, Msg(Finished(true, tr)))
    case 5 => Slot(false, true, Ccs)
    case 6 => Slot(false, p.npn, Said(p, NextProto, false))
    case 7 => Slot(false, p.channelId, Msg(Signed(ChannelId, tr)))
    case _ => Slot(false, true, Msg(Finished(false, tr)))
  }

  function SlotAfter(p: Params, n: nat, tr: seq<Message>): Slot {
    if p.resumed then ResumedSlot(p, n, tr) else FullSlot(p, n, tr)
  }

  function Extend(tr: seq<Message>, s: Slot): seq<Message> {
    if s.present && s.item.Msg? then tr + [s.item.m] else tr
  }

  /** The messages of the first `n` slots. */
  function Transcript(p: Params, n: nat): seq<Message> {
    if n == 0 then []
    else Extend(Transcript(p, n - 1), SlotAfter(p, n - 1, Transcript(p, n - 1)))
  }

  /** The transcripts the master secret of a full handshake and the two Finished messages depend on. */
  datatype Marks = Marks(master: seq<Message>, clientMac: seq<Message>, serverMac: seq<Message>)

  /** A conversation: its slots, the transcript before each, the marks and the number of slots. */
  datatype Talk = Talk(slot: nat -> Slot, transcript: nat -> seq<Message>, marks: Marks, end: nat)

  function TalkOf(p: Params): Talk {
    Talk((n: nat) => SlotAfter(p, n, Transcript(p, n)), (n: nat) => Transcript(p, n),
         if p.resumed then Marks([], Transcript(p, 8), Transcript(p, 4))
         else Marks(Transcript(p, 9), Transcript(p, 13), Transcript(p, 16)),
         if p.resumed then 9 else 17)
  }

  predicate Grows(c: Talk, n: nat) {
    c.transcript(n + 1) == Extend(c.transcript(n), c.slot(n))
  }

  /** Slot `n` is as the parameters have it. */
  predicate Says(p: Params, c: Talk, n: nat) {
    c.slot(n) == SlotAfter(p, n, c.transcript(n)) && Grows(c, n)
  }

  /** The conversation is the one the parameters call for. */
  ghost predicate Faithful(p: Params, c: Talk) {
    && c.transcript(0) == [] && (forall n: nat :: Says(p, c, n))
    && c.end == (if p.resumed then 9 else 17)
    && c.marks.clientMac == c.transcript(if p.resumed then 8 else 13)
    && c.marks.serverMac == c.transcript(if p.resumed then 4 else 16)
    && (!p.resumed ==> c.marks.master == c.transcript(9))
  }

  lemma TalkIsFaithful(p: Params)
    ensures Faithful(p, TalkOf(p))
  {
  }

  /** The items of the slots from `i` to just below `j`. */
  function Between(c: Talk, i: nat, j: nat): seq<Item> {
    if i >= j then [] else Between(c, i, j - 1) + if c.slot(j - 1).present then [c.slot(j - 1).item] else []
  }

  ghost predicate OnlyFrom(c: Talk, fromServer: bool, i: nat, j: nat) {
    forall n: nat :: i <= n < j && c.slot(n).present ==> c.slot(n).fromServer == fromServer
  }

  /** One party is in slot `i` and the other in slot `j`, and what is on its way is exactly what the one ahead has sent
      and the other has not read. */
  ghost predicate Link(c: Talk, server: bool, i: nat, j: nat, toMe: seq<Item>, toPeer: seq<Item>) {
    if i <= j then OnlyFrom(c, !server, i, j) && toMe == Between(c, i, j) && toPeer == []
    else OnlyFrom(c, server, j, i) && toPeer == Between(c, j, i) && toMe == []
  }

  lemma LinkFromPeer(c: Talk, server: bool, i: nat, j: nat, toMe: seq<Item>, toPeer: seq<Item>)
    requires Link(c, server, i, j, toMe, toPeer)
    ensures Link(c, !server, j, i, toPeer, toMe)
  {
  }

  lemma {:induction false} BetweenFront(c: Talk, i: nat, j: nat)
    requires i < j
    ensures Between(c, i, j) == (if c.slot(i).present then [c.slot(i).item] else []) + Between(c, i + 1, j)
    decreases j
  {
    if i < j - 1 {
      BetweenFront(c, i, j - 1);
      var front := if c.slot(i).present then [c.slot(i).item] else [];
      var last := if c.slot(j - 1).present then [c.slot(j - 1).item] else [];
      assert (front + Between(c, i + 1, j - 1)) + last == front + (Between(c, i + 1, j - 1) + last);
    }
  }

  lemma NothingBetween(c: Talk, i: nat)
    ensures Between(c, i, i) == []
  {
  }

  /** An empty slot is passed by either party at any time. */
  lemma LinkSkip(c: Talk, server: bool, i: nat, j: nat, toMe: seq<Item>, toPeer: seq<Item>)
    requires Link(c, server, i, j, toMe, toPeer) && !c.slot(i).present
    ensures Link(c, server, i + 1, j, toMe, toPeer)
  {
    if i < j {
      BetweenFront(c, i, j);
    } else if i == j {
      NothingBetween(c, i);
    }
  }

  /** What a party has to read is the slot it is in. */
  lemma LinkReceive(c: Talk, server: bool, i: nat, j: nat, toMe: seq<Item>, toPeer: seq<Item>)
    requires Link(c, server, i, j, toMe, toPeer) && toMe != [] && c.slot(i).present
    ensures toMe[0] == c.slot(i).item && c.slot(i).fromServer != server
    ensures Link(c, server, i + 1, j, toMe[1..], toPeer)
  {
    NothingBetween(c, i);
    BetweenFront(c, i, j);
    assert toMe[1..] == Between(c, i + 1, j);
  }

  /** A party in a slot of its own is not behind, and sending extends what the peer has to read. */
  lemma LinkSend(c: Talk, server: bool, i: nat, j: nat, toMe: seq<Item>, toPeer: seq<Item>)
    requires Link(c, server, i, j, toMe, toPeer) && c.slot(i).present && c.slot(i).fromServer == server
    ensures i >= j && toMe == []
    ensures Link(c, server, i + 1, j, toMe, toPeer + [c.slot(i).item])
  {
    NothingBetween(c, i);
    assert c.slot(i).present;
  }

  // ---------- A party in step with the conversation ----------

  /** The party has hashed the slots before `i`; `rest` is still on its way to it, and `prior` was flushed before its
      flight. */
  ghost predicate InStep<S>(c: Talk, server: bool, h: Handshake<S>, i: nat, j: nat, rest: seq<Item>,
                            prior: seq<Item>) {
    Following(c, server, h.transcript, h.inbox, h.flight, i, j, rest, prior)
  }

  ghost predicate Following(c: Talk, server: bool, transcript: seq<Message>, inbox: seq<Item>, flight: seq<Item>,
                            i: nat, j: nat, rest: seq<Item>, prior: seq<Item>)
  {
    transcript == c.transcript(i) && Link(c, server, i, j, inbox + rest, prior + flight)
  }

  lemma StepSkip<S>(c: Talk, server: bool, h: Handshake<S>, i: nat, j: nat, rest: seq<Item>, prior: seq<Item>)
    requires InStep(c, server, h, i, j, rest, prior) && Grows(c, i) && !c.slot(i).present
    ensures InStep(c, server, h, i + 1, j, rest, prior)
  {
    LinkSkip(c, server, i, j, h.inbox + rest, prior + h.flight);
  }

  lemma StepReceive<S>(c: Talk, server: bool, h: Handshake<S>, i: nat, j: nat, rest: seq<Item>, prior: seq<Item>)
    requires InStep(c, server, h, i, j, rest, prior) && Grows(c, i) && h.inbox != [] && c.slot(i).present
    ensures h.inbox[0] == c.slot(i).item
    ensures c.slot(i).item.Msg? ==> InStep(c, server, Take(h), i + 1, j, rest, prior)
    ensures c.slot(i).item.Ccs? ==> InStep(c, server, h.(inbox := h.inbox[1..]), i + 1, j, rest, prior)
  {
    LinkReceive(c, server, i, j, h.inbox + rest, prior + h.flight);
    assert (h.inbox + rest)[1..] == h.inbox[1..] + rest;
  }

  lemma StepSend<S>(c: Talk, server: bool, h: Handshake<S>, i: nat, j: nat, rest: seq<Item>, prior: seq<Item>,
                    m: Message)
    requires InStep(c, server, h, i, j, rest, prior) && Grows(c, i)
    requires c.slot(i) == Slot(server, true, Msg(m))
    ensures InStep(c, server, Send(h, m), i + 1, j, rest, prior)
  {
    LinkSend(c, server, i, j, h.inbox + rest, prior + h.flight);
    assert (prior + h.flight) + [Msg(m)] == prior + (h.flight + [Msg(m)]);
  }

  /** An optional message: sent if its slot is not empty. */
  lemma StepSendIf<S>(c: Talk, server: bool, h: Handshake<S>, i: nat, j: nat, rest: seq<Item>, prior: seq<Item>,
                      present: bool, m: Message)
    requires InStep(c, server, h, i, j, rest, prior) && Grows(c, i)
    requires c.slot(i) == Slot(server, present, Msg(m))
    ensures InStep(c, server, if present then Send(h, m) else h, i + 1, j, rest, prior)
  {
    if present {
      StepSend(c, server, h, i, j, rest, prior, m);
    } else {
      StepSkip(c, server, h, i, j, rest, prior);
    }
  }

  lemma StepSendCcs<S>(c: Talk, server: bool, h: Handshake<S>, i: nat, j: nat, rest: seq<Item>, prior: seq<Item>)
    requires InStep(c, server, h, i, j, rest, prior) && Grows(c, i)
    requires c.slot(i) == Slot(server, true, Ccs)
    ensures InStep(c, server, SendCcs(h), i + 1, j, rest, prior)
  {
    LinkSend(c, server, i, j, h.inbox + rest, prior + h.flight);
    assert (prior + h.flight) + [Ccs] == prior + (h.flight + [Ccs]);
  }

  /** The MAC in the peer's Finished is the one expected, since both have hashed the same slots. */
  lemma StepGetFinished<S>(c: Talk, server: bool, h: Handshake<S>, i: nat, j: nat, rest: seq<Item>,
                           prior: seq<Item>, next: S)
    requires InStep(c, server, h, i, j, rest, prior) && Grows(c, i) && Has(h)
    requires c.slot(i) == Slot(!server, true, Msg(Finished(!server, c.transcript(i))))
    ensures var r := GetFinished(h, server, next);
            && r == (Take(h).(macChecked := Some(c.transcript(i)), state := next), Proceed)
            && InStep(c, server, r.0, i + 1, j, rest, prior)
  {
    StepReceive(c, server, h, i, j, rest, prior);
  }

  function SomeFrom(reached: bool, tr: seq<Message>): Option<seq<Message>> {
    if reached then Some(tr) else None
  }

  // ---------- What a party that reads is waiting for ----------

  /** The first slot from `i` on in which something is sent. */
  function NextSlot(c: Talk, i: nat): (k: nat)
    ensures k >= i
    ensures k < c.end ==> c.slot(k).present
    ensures forall n: nat :: i <= n < k && n < c.end ==> !c.slot(n).present
    decreases c.end - i
  {
    if i >= c.end then i else if c.slot(i).present then i else NextSlot(c, i + 1)
  }

  /** The next thing said is the peer's, and it is a message or a ChangeCipherSpec. */
  ghost predicate Awaits(c: Talk, server: bool, i: nat, message: bool) {
    var k := NextSlot(c, i);
    k < c.end && c.slot(k).fromServer != server && c.slot(k).item.Msg? == message
  }

  /** The next slot in which something is said, `skip` empty ones on. */
  lemma NextIs(c: Talk, i: nat, skip: nat)
    requires i + skip < c.end && skip <= 2 && c.slot(i + skip).present
    requires (skip >= 1 ==> !c.slot(i).present) && (skip == 2 ==> !c.slot(i + 1).present)
    ensures NextSlot(c, i) == i + skip
  {
  }

  lemma NextSaid(p: Params, c: Talk, i: nat, skip: nat)
    requires Faithful(p, c) && i + skip < c.end && skip <= 2
    requires SlotAfter(p, i + skip, c.transcript(i + skip)).present
    requires skip >= 1 ==> !SlotAfter(p, i, c.transcript(i)).present
    requires skip == 2 ==> !SlotAfter(p, i + 1, c.transcript(i + 1)).present
    ensures NextSlot(c, i) == i + skip && c.slot(i + skip) == SlotAfter(p, i + skip, c.transcript(i + skip))
  {
    assert Says(p, c, i) && Says(p, c, i + 1) && Says(p, c, i + 2);
    NextIs(c, i, skip);
  }

  lemma {:induction false} EmptyBetween(c: Talk, i: nat, k: nat, j: nat)
    requires i <= k < j && c.slot(k).present
    ensures Between(c, i, j) != []
    decreases j
  {
    if k < j - 1 {
      EmptyBetween(c, i, k, j - 1);
    }
  }

  lemma {:induction false} FrontIsNext(c: Talk, i: nat, j: nat)
    requires i <= j <= c.end && Between(c, i, j) != []
    ensures NextSlot(c, i) < j && Between(c, i, j)[0] == c.slot(NextSlot(c, i)).item
    decreases j - i
  {
    if i < j {
      BetweenFront(c, i, j);
      if !c.slot(i).present {
        assert Between(c, i, j) == Between(c, i + 1, j);
        FrontIsNext(c, i + 1, j);
      }
    }
  }

  /** Two parties that both wait have something on its way to one of them. */
  lemma NotBothWaiting(c: Talk, i: nat, j: nat, a: bool, b: bool, toClient: seq<Item>, toServer: seq<Item>)
    requires Link(c, false, i, j, toClient, toServer) && i <= c.end && j <= c.end
    requires Awaits(c, false, i, a) && Awaits(c, true, j, b)
    ensures toClient != [] || toServer != []
  {
    var k, l := NextSlot(c, i), NextSlot(c, j);
    if i <= j {
      if k < j {
        EmptyBetween(c, i, k, j);
      }
    } else if l < i {
      EmptyBetween(c, j, l, i);
    }
  }

  /** A party that waits while the other has finished has something on its way. */
  lemma NotWaitingForFinished(c: Talk, server: bool, i: nat, a: bool, toMe: seq<Item>, toPeer: seq<Item>)
    requires Link(c, server, i, c.end, toMe, toPeer) && i <= c.end && Awaits(c, server, i, a)
    ensures toMe != []
  {
    EmptyBetween(c, i, NextSlot(c, i), c.end);
  }
}

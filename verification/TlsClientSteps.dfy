/** Every step of the client keeps it in step with the conversation. */
module TlsClientSteps {
  import opened Bytes
  import opened TlsHandshake
  import opened TlsConversation
  import opened TlsClient

  /** The slot the client is in; a ChangeCipherSpec it waits for has not been read. */
  function ClientSlot(resumed: bool, s: ClientState, w: Wait): nat {
    match s
    case StartConnect => 0
    case EnterEarlyData => 1
    case ReadServerHello => 1
    case ReadServerCertificate => 2
    case ReadCertificateStatus => 3
    case VerifyServerCertificate => 4
    case ReadServerKeyExchange => 4
    case ReadCertificateRequest => 5
    case ReadServerHelloDone => 6
    case SendClientCertificate => 7
    case SendClientKeyExchange => 8
    case SendClientCertificateVerify => 9
    case SendClientFinished => if resumed then 5 else 10
    case FinishFlight => if resumed then 9 else 14
    case ReadSessionTicket => if resumed then 2 else 14
    case ProcessChangeCipherSpec =>
      (if resumed then 3 else 15) + if w == ReadChangeCipherSpec then 0 else 1
    case ReadServerFinished => if resumed then 4 else 16
    case FinishClientHandshake => if resumed then 9 else 17
    case Done => if resumed then 9 else 17
  }

  predicate Sending(s: ClientState) {
    s.SendClientKeyExchange? || s.SendClientCertificateVerify? || s.SendClientFinished?
  }

  /** What the client has noted by slot `i`. */
  ghost predicate ClientNotes(p: Params, c: Talk, h: Handshake<ClientState>, i: nat) {
    && h.certRequest == (p.certRequest && i >= 6)
    && (p.certRequest && p.clientHasCert && i <= 9 ==> h.buffered)
    && (!p.resumed && i >= 9 ==> h.masterSeed == c.marks.master)
    && h.macSent == SomeFrom(i >= if p.resumed then 9 else 14, c.marks.clientMac)
    && h.macChecked == SomeFrom(i >= if p.resumed then 5 else 17, c.marks.serverMac)
  }

  ghost predicate ClientHolds(p: Params, c: Talk, h: Handshake<ClientState>, w: Wait, j: nat, rest: seq<Item>,
                              prior: seq<Item>) {
    var i := ClientSlot(p.resumed, h.state, w);
    && OnPath(p.resumed, h.state) && w != Error
    && InStep(c, false, h, i, j, rest, prior) && ClientNotes(p, c, h, i)
    && (h.flight == [] || w == Flush || ((w == Proceed || w == Retry) && Sending(h.state)))
    && (w == ReadChangeCipherSpec ==> h.state == ProcessChangeCipherSpec)
  }

  ghost predicate ClientReady(p: Params, c: Talk, h: Handshake<ClientState>, j: nat, rest: seq<Item>,
                              prior: seq<Item>) {
    Consistent(p) && Faithful(p, c) && ClientHolds(p, c, h, Proceed, j, rest, prior)
  }

  lemma ClientMoves(p: Params, c: Talk, h: Handshake<ClientState>, s: ClientState, w: Wait, i: nat, j: nat,
                    rest: seq<Item>, prior: seq<Item>)
    requires InStep(c, false, h, i, j, rest, prior) && i == ClientSlot(p.resumed, s, w) && OnPath(p.resumed, s)
    requires ClientNotes(p, c, h, i) && h.flight == []
    requires w == Proceed || (w == ReadChangeCipherSpec && s == ProcessChangeCipherSpec)
    ensures ClientHolds(p, c, h.(state := s), w, j, rest, prior)
  {
  }

  /** The same with a flight that grows. */
  lemma ClientGathers(p: Params, c: Talk, h: Handshake<ClientState>, s: ClientState, i: nat, j: nat, rest: seq<Item>,
                      prior: seq<Item>)
    requires InStep(c, false, h, i, j, rest, prior) && i == ClientSlot(p.resumed, s, Proceed) && OnPath(p.resumed, s)
    requires ClientNotes(p, c, h, i) && Sending(s)
    ensures ClientHolds(p, c, h.(state := s), Proceed, j, rest, prior)
  {
  }

  /** The same with a flight that is to be flushed next. */
  lemma ClientFlushes(p: Params, c: Talk, h: Handshake<ClientState>, s: ClientState, i: nat, j: nat,
                      rest: seq<Item>, prior: seq<Item>)
    requires InStep(c, false, h, i, j, rest, prior) && i == ClientSlot(p.resumed, s, Flush) && OnPath(p.resumed, s)
    requires ClientNotes(p, c, h, i)
    ensures ClientHolds(p, c, h.(state := s), Flush, j, rest, prior)
  {
  }

  lemma SameSlot(resumed: bool, s: ClientState, w: Wait)
    requires w != ReadChangeCipherSpec
    ensures ClientSlot(resumed, s, w) == ClientSlot(resumed, s, Proceed)
  {
  }

  /** A machine that waits where it is stays in step. */
  lemma WaitHolds(p: Params, c: Talk, h: Handshake<ClientState>, w: Wait, j: nat, rest: seq<Item>, prior: seq<Item>)
    requires ClientReady(p, c, h, j, rest, prior) && (w == Retry || (w == ReadMessage && !Sending(h.state)))
    requires w == Retry ==> h.flight == [] || Sending(h.state)
    ensures ClientHolds(p, c, h, w, j, rest, prior)
  {
    SameSlot(p.resumed, h.state, w);
  }

  lemma StartConnectHolds(p: Params, c: Talk, h: Handshake<ClientState>, j: nat, rest: seq<Item>,
                          prior: seq<Item>)
    requires ClientReady(p, c, h, j, rest, prior) && h.state == StartConnect
    ensures var r := DoStartConnect(p, h); ClientHolds(p, c, r.0, r.1, j, rest, prior)
  {
    var i, hello := ClientSlot(p.resumed, h.state, Proceed), Plain(ClientHello, p.content(ClientHello, false));
    assert Says(p, c, i);
    StepSend(c, false, h, i, j, rest, prior, hello);
    ClientFlushes(p, c, Send(h, hello), EnterEarlyData, i + 1, j, rest, prior);
  }

  lemma ResumedServerHelloHolds(p: Params, c: Talk, h: Handshake<ClientState>, j: nat, rest: seq<Item>,
                                prior: seq<Item>)
    requires ClientReady(p, c, h, j, rest, prior) && h.state == ReadServerHello && p.resumed
    ensures var r := DoReadServerHello(p, h); ClientHolds(p, c, r.0, r.1, j, rest, prior)
  {
    var i := ClientSlot(p.resumed, h.state, Proceed);
    assert Says(p, c, i);
    if Has(h) {
      StepReceive(c, false, h, i, j, rest, prior);
      ClientMoves(p, c, Take(h).(buffered := false), ReadSessionTicket, Proceed, i + 1, j, rest, prior);
    } else {
      WaitHolds(p, c, h, ReadMessage, j, rest, prior);
    }
  }

  lemma FullServerHelloHolds(p: Params, c: Talk, h: Handshake<ClientState>, j: nat, rest: seq<Item>,
                             prior: seq<Item>)
    requires ClientReady(p, c, h, j, rest, prior) && h.state == ReadServerHello && !p.resumed
    ensures var r := DoReadServerHello(p, h); ClientHolds(p, c, r.0, r.1, j, rest, prior)
  {
    var i := ClientSlot(p.resumed, h.state, Proceed);
    assert Says(p, c, i);
    if Has(h) {
      StepReceive(c, false, h, i, j, rest, prior);
      ClientMoves(p, c, Take(h).(buffered := h.buffered && p.certAuth), ReadServerCertificate, Proceed, i + 1, j,
                  rest, prior);
    } else {
      WaitHolds(p, c, h, ReadMessage, j, rest, prior);
    }
  }

  /** The client accepts the ServerHello of a server in step. */
  lemma ReadServerHelloHolds(p: Params, c: Talk, h: Handshake<ClientState>, j: nat, rest: seq<Item>,
                             prior: seq<Item>)
    requires ClientReady(p, c, h, j, rest, prior) && h.state == ReadServerHello
    ensures var r := DoReadServerHello(p, h); ClientHolds(p, c, r.0, r.1, j, rest, prior)
  {
    if p.resumed {
      ResumedServerHelloHolds(p, c, h, j, rest, prior);
    } else {
      FullServerHelloHolds(p, c, h, j, rest, prior);
    }
  }

  lemma ReadServerCertificateHolds(p: Params, c: Talk, h: Handshake<ClientState>, j: nat, rest: seq<Item>,
                                   prior: seq<Item>)
    requires ClientReady(p, c, h, j, rest, prior) && h.state == ReadServerCertificate
    ensures var r := DoReadServerCertificate(p, h); ClientHolds(p, c, r.0, r.1, j, rest, prior)
  {
    var i := ClientSlot(p.resumed, h.state, Proceed);
    assert Says(p, c, i);
    if !p.certAuth {
      StepSkip(c, false, h, i, j, rest, prior);
      ClientMoves(p, c, h, ReadCertificateStatus, Proceed, i + 1, j, rest, prior);
    } else if Has(h) {
      StepReceive(c, false, h, i, j, rest, prior);
      ClientMoves(p, c, Take(h), ReadCertificateStatus, Proceed, i + 1, j, rest, prior);
    } else {
      WaitHolds(p, c, h, ReadMessage, j, rest, prior);
    }
  }

  lemma ReadCertificateStatusHolds(p: Params, c: Talk, h: Handshake<ClientState>, j: nat, rest: seq<Item>,
                                   prior: seq<Item>)
    requires ClientReady(p, c, h, j, rest, prior) && h.state == ReadCertificateStatus
    ensures var r := DoReadCertificateStatus(p, h); ClientHolds(p, c, r.0, r.1, j, rest, prior)
  {
    var i := ClientSlot(p.resumed, h.state, Proceed);
    assert Says(p, c, i);
    if !p.ocsp {
      StepSkip(c, false, h, i, j, rest, prior);
      ClientMoves(p, c, h, VerifyServerCertificate, Proceed, i + 1, j, rest, prior);
    } else if Has(h) {
      StepReceive(c, false, h, i, j, rest, prior);
      ClientMoves(p, c, Take(h), VerifyServerCertificate, Proceed, i + 1, j, rest, prior);
    } else {
      WaitHolds(p, c, h, ReadMessage, j, rest, prior);
    }
  }

  lemma PresentKeyExchangeHolds(p: Params, c: Talk, h: Handshake<ClientState>, j: nat, rest: seq<Item>,
                                prior: seq<Item>)
    requires ClientReady(p, c, h, j, rest, prior) && h.state == ReadServerKeyExchange && (p.ecdhe || p.pskHint)
    ensures var r := DoReadServerKeyExchange(p, h); ClientHolds(p, c, r.0, r.1, j, rest, prior)
  {
    var i := ClientSlot(p.resumed, h.state, Proceed);
    assert Says(p, c, i);
    if Has(h) {
      StepReceive(c, false, h, i, j, rest, prior);
      ClientMoves(p, c, Take(h), ReadCertificateRequest, Proceed, i + 1, j, rest, prior);
    } else {
      WaitHolds(p, c, h, ReadMessage, j, rest, prior);
    }
  }

  /** Without a ServerKeyExchange the next message is a CertificateRequest or the ServerHelloDone. */
  lemma AbsentKeyExchangeHolds(p: Params, c: Talk, h: Handshake<ClientState>, j: nat, rest: seq<Item>,
                               prior: seq<Item>)
    requires ClientReady(p, c, h, j, rest, prior) && h.state == ReadServerKeyExchange && !p.ecdhe && !p.pskHint
    ensures var r := DoReadServerKeyExchange(p, h); ClientHolds(p, c, r.0, r.1, j, rest, prior)
  {
    var i := ClientSlot(p.resumed, h.state, Proceed);
    assert Says(p, c, i);
    if Has(h) {
      StepSkip(c, false, h, i, j, rest, prior);
      AfterKeyExchange(p, c, h, i + 1, j, rest, prior);
      ClientMoves(p, c, h, ReadCertificateRequest, Proceed, i + 1, j, rest, prior);
    } else {
      WaitHolds(p, c, h, ReadMessage, j, rest, prior);
    }
  }

  lemma ReadServerKeyExchangeHolds(p: Params, c: Talk, h: Handshake<ClientState>, j: nat, rest: seq<Item>,
                                   prior: seq<Item>)
    requires ClientReady(p, c, h, j, rest, prior) && h.state == ReadServerKeyExchange
    ensures var r := DoReadServerKeyExchange(p, h); ClientHolds(p, c, r.0, r.1, j, rest, prior)
  {
    if p.ecdhe || p.pskHint {
      PresentKeyExchangeHolds(p, c, h, j, rest, prior);
    } else {
      AbsentKeyExchangeHolds(p, c, h, j, rest, prior);
    }
  }

  lemma AfterKeyExchange(p: Params, c: Talk, h: Handshake<ClientState>, i: nat, j: nat, rest: seq<Item>,
                         prior: seq<Item>)
    requires Faithful(p, c) && !p.resumed && i == 5 && InStep(c, false, h, i, j, rest, prior) && Has(h)
    ensures KindOf(Peek(h)) == if p.certRequest then CertificateRequest else ServerHelloDone
  {
    assert Says(p, c, i) && Says(p, c, i + 1);
    if p.certRequest {
      StepReceive(c, false, h, i, j, rest, prior);
    } else {
      StepSkip(c, false, h, i, j, rest, prior);
      StepReceive(c, false, h, i + 1, j, rest, prior);
    }
  }

  lemma CertificateRequestedHolds(p: Params, c: Talk, h: Handshake<ClientState>, j: nat, rest: seq<Item>,
                                  prior: seq<Item>)
    requires ClientReady(p, c, h, j, rest, prior) && h.state == ReadCertificateRequest && p.certRequest
    ensures var r := DoReadCertificateRequest(p, h); ClientHolds(p, c, r.0, r.1, j, rest, prior)
  {
    var i := ClientSlot(p.resumed, h.state, Proceed);
    assert Says(p, c, i);
    if Has(h) {
      StepReceive(c, false, h, i, j, rest, prior);
      ClientMoves(p, c, Take(h).(certRequest := true), ReadServerHelloDone, Proceed, i + 1, j, rest, prior);
    } else {
      WaitHolds(p, c, h, ReadMessage, j, rest, prior);
    }
  }

  lemma NoCertificateRequestedHolds(p: Params, c: Talk, h: Handshake<ClientState>, j: nat, rest: seq<Item>,
                                    prior: seq<Item>)
    requires ClientReady(p, c, h, j, rest, prior) && h.state == ReadCertificateRequest && !p.certRequest
    ensures var r := DoReadCertificateRequest(p, h); ClientHolds(p, c, r.0, r.1, j, rest, prior)
  {
    var i := ClientSlot(p.resumed, h.state, Proceed);
    assert Says(p, c, i);
    if !p.certAuth {
      StepSkip(c, false, h, i, j, rest, prior);
      ClientMoves(p, c, h, ReadServerHelloDone, Proceed, i + 1, j, rest, prior);
    } else if Has(h) {
      StepSkip(c, false, h, i, j, rest, prior);
      AfterKeyExchange(p, c, h, i, j, rest, prior);
      ClientMoves(p, c, h.(buffered := false), ReadServerHelloDone, Proceed, i + 1, j, rest, prior);
    } else {
      WaitHolds(p, c, h, ReadMessage, j, rest, prior);
    }
  }

  lemma ReadCertificateRequestHolds(p: Params, c: Talk, h: Handshake<ClientState>, j: nat, rest: seq<Item>,
                                    prior: seq<Item>)
    requires ClientReady(p, c, h, j, rest, prior) && h.state == ReadCertificateRequest
    ensures var r := DoReadCertificateRequest(p, h); ClientHolds(p, c, r.0, r.1, j, rest, prior)
  {
    if p.certRequest {
      CertificateRequestedHolds(p, c, h, j, rest, prior);
    } else {
      NoCertificateRequestedHolds(p, c, h, j, rest, prior);
    }
  }

  lemma ReadServerHelloDoneHolds(p: Params, c: Talk, h: Handshake<ClientState>, j: nat, rest: seq<Item>,
                                 prior: seq<Item>)
    requires ClientReady(p, c, h, j, rest, prior) && h.state == ReadServerHelloDone
    ensures var r := DoReadServerHelloDone(p, h); ClientHolds(p, c, r.0, r.1, j, rest, prior)
  {
    var i := ClientSlot(p.resumed, h.state, Proceed);
    assert Says(p, c, i);
    if Has(h) {
      StepReceive(c, false, h, i, j, rest, prior);
      ClientMoves(p, c, Take(h), SendClientCertificate, Proceed, i + 1, j, rest, prior);
    } else {
      WaitHolds(p, c, h, ReadMessage, j, rest, prior);
    }
  }

  lemma SendClientCertificateHolds(p: Params, c: Talk, h: Handshake<ClientState>, retry: bool, j: nat, rest: seq<Item>,
                                   prior: seq<Item>)
    requires ClientReady(p, c, h, j, rest, prior) && h.state == SendClientCertificate
    ensures var r := DoSendClientCertificate(p, h, retry); ClientHolds(p, c, r.0, r.1, j, rest, prior)
  {
    var i, m := ClientSlot(p.resumed, h.state, Proceed), Plain(Certificate, p.content(Certificate, false));
    assert Says(p, c, i);
    if !p.certRequest {
      StepSkip(c, false, h, i, j, rest, prior);
      ClientMoves(p, c, h, SendClientKeyExchange, Proceed, i + 1, j, rest, prior);
    } else if retry {
      WaitHolds(p, c, h, Retry, j, rest, prior);
    } else {
      var g := h.(buffered := h.buffered && p.clientHasCert);
      StepSend(c, false, g, i, j, rest, prior, m);
      ClientGathers(p, c, Send(g, m), SendClientKeyExchange, i + 1, j, rest, prior);
    }
  }

  /** The master secret depends on what the server's will depend on. */
  lemma SendClientKeyExchangeHolds(p: Params, c: Talk, h: Handshake<ClientState>, j: nat, rest: seq<Item>,
                                   prior: seq<Item>)
    requires ClientReady(p, c, h, j, rest, prior) && h.state == SendClientKeyExchange
    ensures var r := DoSendClientKeyExchange(p, h); ClientHolds(p, c, r.0, r.1, j, rest, prior)
  {
    var i, m := ClientSlot(p.resumed, h.state, Proceed), Plain(ClientKeyExchange, p.content(ClientKeyExchange, false));
    assert Says(p, c, i);
    StepSend(c, false, h, i, j, rest, prior, m);
    var sent := Send(h, m);
    ClientGathers(p, c, sent.(masterSeed := sent.transcript), SendClientCertificateVerify, i + 1, j, rest, prior);
  }

  /** The handshake buffer is still there when it is to be signed. */
  lemma SendClientCertificateVerifyHolds(p: Params, c: Talk, h: Handshake<ClientState>, retry: bool, j: nat,
                                         rest: seq<Item>,
                                         prior: seq<Item>)
    requires ClientReady(p, c, h, j, rest, prior) && h.state == SendClientCertificateVerify
    ensures var r := DoSendClientCertificateVerify(p, h, retry); ClientHolds(p, c, r.0, r.1, j, rest, prior)
  {
    var i, m := ClientSlot(p.resumed, h.state, Proceed), Signed(CertificateVerify, h.transcript);
    assert Says(p, c, i);
    if !p.certRequest || !p.clientHasCert {
      StepSkip(c, false, h, i, j, rest, prior);
      ClientGathers(p, c, h, SendClientFinished, i + 1, j, rest, prior);
    } else if retry {
      WaitHolds(p, c, h, Retry, j, rest, prior);
    } else {
      StepSend(c, false, h, i, j, rest, prior, m);
      ClientGathers(p, c, Send(h, m).(buffered := false), SendClientFinished, i + 1, j, rest, prior);
    }
  }

  lemma SendClientFinishedHolds(p: Params, c: Talk, h: Handshake<ClientState>, retry: bool, j: nat, rest: seq<Item>,
                                prior: seq<Item>)
    requires ClientReady(p, c, h, j, rest, prior) && h.state == SendClientFinished
    ensures var r := DoSendClientFinished(p, h, retry); ClientHolds(p, c, r.0, r.1, j, rest, prior)
  {
    var i := ClientSlot(p.resumed, h.state, Proceed);
    if p.channelId && retry {
      WaitHolds(p, c, h, Retry, j, rest, prior);
    } else {
      LastMessagesInStep(p, c, h, i, j, rest, prior);
      ClientFlushes(p, c, SendFinished(LastMessages(p, h), false), FinishFlight, i + 4, j, rest, prior);
    }
  }

  lemma LastSlots(p: Params, c: Talk, i: nat)
    requires Faithful(p, c) && i == if p.resumed then 5 else 10
    ensures c.slot(i) == Slot(false, true, Ccs) && Grows(c, i)
    ensures c.slot(i + 1) == Slot(false, p.npn, Msg(Plain(NextProto, p.content(NextProto, false)))) && Grows(c, i + 1)
    ensures c.slot(i + 2) == Slot(false, p.channelId, Msg(Signed(ChannelId, c.transcript(i + 2)))) && Grows(c, i + 2)
    ensures c.slot(i + 3) == Slot(false, true, Msg(Finished(false, c.transcript(i + 3)))) && Grows(c, i + 3)
  {
    assert Says(p, c, i) && Says(p, c, i + 1) && Says(p, c, i + 2) && Says(p, c, i + 3);
  }

  lemma ChannelIdInStep(p: Params, c: Talk, h: Handshake<ClientState>, i: nat, j: nat, rest: seq<Item>,
                        prior: seq<Item>)
    requires InStep(c, false, h, i, j, rest, prior) && Grows(c, i) && Grows(c, i + 1)
    requires c.slot(i) == Slot(false, p.channelId, Msg(Signed(ChannelId, c.transcript(i))))
    requires c.slot(i + 1) == Slot(false, true, Msg(Finished(false, c.transcript(i + 1))))
    ensures var last := if p.channelId then Send(h, Signed(ChannelId, h.transcript)) else h;
            && last.transcript == c.transcript(i + 1)
            && InStep(c, false, SendFinished(last, false), i + 2, j, rest, prior)
  {
    var last := if p.channelId then Send(h, Signed(ChannelId, h.transcript)) else h;
    StepSendIf(c, false, h, i, j, rest, prior, p.channelId, Signed(ChannelId, h.transcript));
    StepSend(c, false, last, i + 1, j, rest, prior, Finished(false, last.transcript));
  }

  lemma LastMessagesInStep(p: Params, c: Talk, h: Handshake<ClientState>, i: nat, j: nat, rest: seq<Item>,
                           prior: seq<Item>)
    requires Faithful(p, c) && InStep(c, false, h, i, j, rest, prior) && i == if p.resumed then 5 else 10
    ensures var last := LastMessages(p, h);
            && last == h.(transcript := c.transcript(i + 3), flight := last.flight, writeSwitched := true)
            && InStep(c, false, SendFinished(last, false), i + 4, j, rest, prior)
  {
    LastSlots(p, c, i);
    var a, next := SendCcs(h), Plain(NextProto, p.content(NextProto, false));
    StepSendCcs(c, false, h, i, j, rest, prior);
    StepSendIf(c, false, a, i + 1, j, rest, prior, p.npn, next);
    ChannelIdInStep(p, c, if p.npn then Send(a, next) else a, i + 2, j, rest, prior);
  }

  lemma TicketInStep(p: Params, c: Talk, h: Handshake<ClientState>, i: nat, j: nat, rest: seq<Item>, prior: seq<Item>)
    requires Faithful(p, c) && InStep(c, false, h, i, j, rest, prior) && i == if p.resumed then 2 else 14
    ensures !p.ticket ==> InStep(c, false, h, i + 1, j, rest, prior)
    ensures p.ticket && Has(h) ==>
              KindOf(Peek(h)) == NewSessionTicket && InStep(c, false, Take(h), i + 1, j, rest, prior)
  {
    assert Says(p, c, i);
    if !p.ticket {
      StepSkip(c, false, h, i, j, rest, prior);
    } else if Has(h) {
      StepReceive(c, false, h, i, j, rest, prior);
    }
  }

  lemma ReadSessionTicketHolds(p: Params, c: Talk, h: Handshake<ClientState>, j: nat, rest: seq<Item>,
                               prior: seq<Item>)
    requires ClientReady(p, c, h, j, rest, prior) && h.state == ReadSessionTicket
    ensures var r := DoReadSessionTicket(p, h); ClientHolds(p, c, r.0, r.1, j, rest, prior)
  {
    var i := ClientSlot(p.resumed, h.state, Proceed);
    TicketInStep(p, c, h, i, j, rest, prior);
    if !p.ticket {
      ClientMoves(p, c, h, ProcessChangeCipherSpec, ReadChangeCipherSpec, i + 1, j, rest, prior);
    } else if Has(h) {
      ClientMoves(p, c, Take(h), ProcessChangeCipherSpec, ReadChangeCipherSpec, i + 1, j, rest, prior);
    } else {
      WaitHolds(p, c, h, ReadMessage, j, rest, prior);
    }
  }

  lemma ServerFinishedTaken(p: Params, c: Talk, h: Handshake<ClientState>, i: nat, j: nat, rest: seq<Item>,
                            prior: seq<Item>, next: ClientState)
    requires Faithful(p, c) && i == (if p.resumed then 4 else 16) && Has(h)
    requires InStep(c, false, h, i, j, rest, prior) && ClientNotes(p, c, h, i) && h.flight == []
    requires next == if p.resumed then SendClientFinished else FinishClientHandshake
    ensures var r := GetFinished(h, false, next); ClientHolds(p, c, r.0, r.1, j, rest, prior)
  {
    assert Says(p, c, i);
    StepGetFinished(c, false, h, i, j, rest, prior, next);
    ClientMoves(p, c, Take(h).(macChecked := Some(c.transcript(i))), next, Proceed, i + 1, j, rest, prior);
  }

  /** The MAC in the server's Finished is the one the client expects. */
  lemma ReadServerFinishedHolds(p: Params, c: Talk, h: Handshake<ClientState>, j: nat, rest: seq<Item>,
                                prior: seq<Item>)
    requires ClientReady(p, c, h, j, rest, prior) && h.state == ReadServerFinished
    ensures var r := DoReadServerFinished(p, h); ClientHolds(p, c, r.0, r.1, j, rest, prior)
  {
    if Has(h) {
      ServerFinishedTaken(p, c, h, if p.resumed then 4 else 16, j, rest, prior,
                          if p.resumed then SendClientFinished else FinishClientHandshake);
    } else {
      WaitHolds(p, c, h, ReadMessage, j, rest, prior);
    }
  }

  lemma EnterEarlyDataHolds(p: Params, c: Talk, h: Handshake<ClientState>, j: nat, rest: seq<Item>,
                            prior: seq<Item>)
    requires ClientReady(p, c, h, j, rest, prior) && h.state == EnterEarlyData
    ensures var r := DoEnterEarlyData(p, h); ClientHolds(p, c, r.0, r.1, j, rest, prior)
  {
  }

  lemma VerifyServerCertificateHolds(p: Params, c: Talk, h: Handshake<ClientState>, retry: bool, j: nat,
                                     rest: seq<Item>, prior: seq<Item>)
    requires ClientReady(p, c, h, j, rest, prior) && h.state == VerifyServerCertificate
    ensures var r := DoVerifyServerCertificate(p, h, retry); ClientHolds(p, c, r.0, r.1, j, rest, prior)
  {
  }

  lemma FinishFlightHolds(p: Params, c: Talk, h: Handshake<ClientState>, j: nat, rest: seq<Item>,
                          prior: seq<Item>)
    requires ClientReady(p, c, h, j, rest, prior) && h.state == FinishFlight
    ensures var r := DoFinishFlight(p, h); ClientHolds(p, c, r.0, r.1, j, rest, prior)
  {
    if p.resumed {
      ClientMoves(p, c, h, FinishClientHandshake, Proceed, 9, j, rest, prior);
    } else {
      ClientMoves(p, c, h, ReadSessionTicket, Proceed, 14, j, rest, prior);
    }
  }

  lemma ProcessChangeCipherSpecHolds(p: Params, c: Talk, h: Handshake<ClientState>, j: nat,
                                     rest: seq<Item>, prior: seq<Item>)
    requires ClientReady(p, c, h, j, rest, prior) && h.state == ProcessChangeCipherSpec
    ensures var r := DoProcessChangeCipherSpec(p, h); ClientHolds(p, c, r.0, r.1, j, rest, prior)
  {
  }

  lemma FinishClientHandshakeHolds(p: Params, c: Talk, h: Handshake<ClientState>, j: nat,
                                   rest: seq<Item>, prior: seq<Item>)
    requires ClientReady(p, c, h, j, rest, prior) && h.state == FinishClientHandshake
    ensures var r := DoFinishClientHandshake(p, h); ClientHolds(p, c, r.0, r.1, j, rest, prior)
  {
  }

  lemma DoneHolds(p: Params, c: Talk, h: Handshake<ClientState>, retry: bool, j: nat, rest: seq<Item>,
                  prior: seq<Item>)
    requires ClientReady(p, c, h, j, rest, prior) && h.state == Done
    ensures var r := ClientDo(p, h, retry); ClientHolds(p, c, r.0, r.1, j, rest, prior)
  {
  }

  /** No step of the client fails, and each keeps it in step. */
  lemma ClientStepHolds(p: Params, c: Talk, h: Handshake<ClientState>, retry: bool, j: nat, rest: seq<Item>,
                        prior: seq<Item>)
    requires ClientReady(p, c, h, j, rest, prior)
    ensures var r := ClientDo(p, h, retry); ClientHolds(p, c, r.0, r.1, j, rest, prior)
  {
    match h.state
    case StartConnect => StartConnectHolds(p, c, h, j, rest, prior);
    case EnterEarlyData => EnterEarlyDataHolds(p, c, h, j, rest, prior);
    case ReadServerHello => ReadServerHelloHolds(p, c, h, j, rest, prior);
    case ReadServerCertificate => ReadServerCertificateHolds(p, c, h, j, rest, prior);
    case ReadCertificateStatus => ReadCertificateStatusHolds(p, c, h, j, rest, prior);
    case VerifyServerCertificate => VerifyServerCertificateHolds(p, c, h, retry, j, rest, prior);
    case ReadServerKeyExchange => ReadServerKeyExchangeHolds(p, c, h, j, rest, prior);
    case ReadCertificateRequest => ReadCertificateRequestHolds(p, c, h, j, rest, prior);
    case ReadServerHelloDone => ReadServerHelloDoneHolds(p, c, h, j, rest, prior);
    case SendClientCertificate => SendClientCertificateHolds(p, c, h, retry, j, rest, prior);
    case SendClientKeyExchange => SendClientKeyExchangeHolds(p, c, h, j, rest, prior);
    case SendClientCertificateVerify => SendClientCertificateVerifyHolds(p, c, h, retry, j, rest, prior);
    case SendClientFinished => SendClientFinishedHolds(p, c, h, retry, j, rest, prior);
    case FinishFlight => FinishFlightHolds(p, c, h, j, rest, prior);
    case ReadSessionTicket => ReadSessionTicketHolds(p, c, h, j, rest, prior);
    case ProcessChangeCipherSpec => ProcessChangeCipherSpecHolds(p, c, h, j, rest, prior);
    case ReadServerFinished => ReadServerFinishedHolds(p, c, h, j, rest, prior);
    case FinishClientHandshake => FinishClientHandshakeHolds(p, c, h, j, rest, prior);
    case Done => DoneHolds(p, c, h, retry, j, rest, prior);
  }

  lemma AwaitsHelloOrKeys(p: Params, c: Talk, h: Handshake<ClientState>)
    requires Faithful(p, c) && OnPath(p.resumed, h.state) && Reads(p, h) && Consistent(p)
    requires h.state.ReadServerHello? || h.state.ReadServerCertificate? || h.state.ReadCertificateStatus?
             || h.state.ReadServerKeyExchange?
    ensures Awaits(c, false, ClientSlot(p.resumed, h.state, Proceed), true)
  {
    match h.state
    case ReadServerHello => NextSaid(p, c, 1, 0);
    case ReadServerCertificate => NextSaid(p, c, 2, 0);
    case ReadCertificateStatus => NextSaid(p, c, 3, 0);
    case ReadServerKeyExchange => NextSaid(p, c, 4, if p.ecdhe || p.pskHint then 0 else if p.certRequest then 1 else 2);
  }

  lemma AwaitsRequestOrLater(p: Params, c: Talk, h: Handshake<ClientState>)
    requires Faithful(p, c) && OnPath(p.resumed, h.state) && Reads(p, h)
    requires h.state.ReadCertificateRequest? || h.state.ReadServerHelloDone? || h.state.ReadSessionTicket?
             || h.state.ReadServerFinished?
    ensures Awaits(c, false, ClientSlot(p.resumed, h.state, Proceed), true)
  {
    match h.state
    case ReadCertificateRequest => NextSaid(p, c, 5, if p.certRequest then 0 else 1);
    case ReadServerHelloDone => NextSaid(p, c, 6, 0);
    case ReadSessionTicket => NextSaid(p, c, if p.resumed then 2 else 14, 0);
    case ReadServerFinished => NextSaid(p, c, if p.resumed then 4 else 16, 0);
  }

  /** When the client reads, the next thing said is the server's, and it is a message. */
  lemma ClientAwaits(p: Params, c: Talk, h: Handshake<ClientState>)
    requires Faithful(p, c) && OnPath(p.resumed, h.state) && Reads(p, h) && Consistent(p)
    ensures Awaits(c, false, ClientSlot(p.resumed, h.state, Proceed), true)
  {
    if h.state.ReadServerHello? || h.state.ReadServerCertificate? || h.state.ReadCertificateStatus?
       || h.state.ReadServerKeyExchange?
    {
      AwaitsHelloOrKeys(p, c, h);
    } else {
      AwaitsRequestOrLater(p, c, h);
    }
  }

  lemma OnlyAfterTheTicket(p: Params, h: Handshake<ClientState>, retry: bool)
    requires ClientDo(p, h, retry).1 == ReadChangeCipherSpec
    ensures h.state == ReadSessionTicket && ClientDo(p, h, retry).0.state == ProcessChangeCipherSpec
  {
  }

  lemma ClientAwaitsCcs(p: Params, c: Talk, h: Handshake<ClientState>, retry: bool)
    requires Faithful(p, c) && OnPath(p.resumed, h.state) && ClientDo(p, h, retry).1 == ReadChangeCipherSpec
    ensures Awaits(c, false, ClientSlot(p.resumed, ClientDo(p, h, retry).0.state, ReadChangeCipherSpec), false)
  {
    OnlyAfterTheTicket(p, h, retry);
    NextSaid(p, c, if p.resumed then 3 else 15, 0);
  }

  // ---------- Waits that are over ----------

  lemma FlushHolds(p: Params, c: Talk, h: Handshake<ClientState>, w: Wait, j: nat, rest: seq<Item>,
                   prior: seq<Item>)
    requires ClientHolds(p, c, h, w, j, rest, prior) && w == Flush
    ensures ClientHolds(p, c, h.(flight := []), Proceed, j, rest, prior + h.flight)
  {
    SameSlot(p.resumed, h.state, w);
    assert (prior + h.flight) + [] == prior + h.flight;
  }

  /** Anything else but a ChangeCipherSpec: the machine goes on as it is. */
  lemma GoOnHolds(p: Params, c: Talk, h: Handshake<ClientState>, w: Wait, j: nat, rest: seq<Item>,
                  prior: seq<Item>)
    requires ClientHolds(p, c, h, w, j, rest, prior) && w != Flush && w != ReadChangeCipherSpec
    ensures ClientHolds(p, c, h, Proceed, j, rest, prior)
  {
    SameSlot(p.resumed, h.state, w);
  }

  lemma CcsInStep(p: Params, c: Talk, h: Handshake<ClientState>, i: nat, j: nat, rest: seq<Item>, prior: seq<Item>)
    requires Faithful(p, c) && InStep(c, false, h, i, j, rest, prior) && h.inbox != []
    requires i == if p.resumed then 3 else 15
    ensures h.inbox[0] == Ccs && InStep(c, false, h.(inbox := h.inbox[1..]), i + 1, j, rest, prior)
  {
    assert Says(p, c, i);
    StepReceive(c, false, h, i, j, rest, prior);
  }

  lemma CcsHolds(p: Params, c: Talk, h: Handshake<ClientState>, w: Wait, j: nat, rest: seq<Item>, prior: seq<Item>)
    requires ClientHolds(p, c, h, w, j, rest, prior) && w == ReadChangeCipherSpec && h.inbox != []
    requires Faithful(p, c)
    ensures h.inbox[0] == Ccs && ClientHolds(p, c, h.(inbox := h.inbox[1..]), Proceed, j, rest, prior)
  {
    var i := if p.resumed then 3 else 15;
    CcsInStep(p, c, h, i, j, rest, prior);
    ClientMoves(p, c, h.(inbox := h.inbox[1..]), ProcessChangeCipherSpec, Proceed, i + 1, j, rest, prior);
  }
}

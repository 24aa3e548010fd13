/** Every step of the server keeps it in step with the conversation. */
module TlsServerSteps {
  import opened Bytes
  import opened TlsHandshake
  import opened TlsConversation
  import opened TlsServer

  /** The slot the server is in; a ChangeCipherSpec it waits for has not been read. */
  function ServerSlot(resumed: bool, s: ServerState, w: Wait): nat {
    match s
    case StartAccept => 0
    case ReadClientHello => 0
    case SelectCertificate => 0
    case SelectParameters => 0
    case SendServerHello => 1
    case SendServerCertificate => 2
    case SendServerKeyExchange => 4
    case SendServerHelloDone => 5
    case ReadClientCertificate => 7
    case VerifyClientCertificate => 8
    case ReadClientKeyExchange => 8
    case ReadClientCertificateVerify => 9
    case AwaitChangeCipherSpec => if resumed then 5 else 10
    case ProcessChangeCipherSpec => (if resumed then 5 else 10) + if w == ReadChangeCipherSpec then 0 else 1
    case ReadNextProto => if resumed then 6 else 11
    case ReadChannelId => if resumed then 7 else 12
    case ReadClientFinished => if resumed then 8 else 13
    case SendServerFinished => if resumed then 2 else 14
    case FinishServerHandshake => if resumed then 9 else 17
    case Done => if resumed then 9 else 17
  }

  predicate Sending(s: ServerState) {
    s.SendServerCertificate? || s.SendServerKeyExchange? || s.SendServerHelloDone? || s.SendServerFinished?
  }

  /** What the server has noted by slot `i`. */
  ghost predicate ServerNotes(p: Params, c: Talk, h: Handshake<ServerState>, i: nat) {
    && h.peerPubkey == (p.certRequest && p.clientHasCert && i >= 8)
    && (p.certRequest && p.clientHasCert && i <= 9 ==> h.buffered)
    && (!p.resumed && i >= 9 ==> h.masterSeed == c.marks.master)
    && h.macChecked == SomeFrom(i >= if p.resumed then 9 else 14, c.marks.clientMac)
    && h.macSent == SomeFrom(i >= if p.resumed then 5 else 17, c.marks.serverMac)
  }

  ghost predicate ServerHolds(p: Params, c: Talk, h: Handshake<ServerState>, w: Wait, j: nat, rest: seq<Item>,
                              prior: seq<Item>) {
    var i := ServerSlot(p.resumed, h.state, w);
    && OnPath(p.resumed, h.state) && w != Error
    && InStep(c, true, h, i, j, rest, prior) && ServerNotes(p, c, h, i)
    && (h.flight == [] || w == Flush || ((w == Proceed || w == Retry) && Sending(h.state)))
    && (w == ReadChangeCipherSpec ==> h.state == ProcessChangeCipherSpec)
  }

  ghost predicate ServerReady(p: Params, c: Talk, h: Handshake<ServerState>, j: nat, rest: seq<Item>,
                              prior: seq<Item>) {
    Consistent(p) && Faithful(p, c) && ServerHolds(p, c, h, Proceed, j, rest, prior)
  }

  lemma ServerMoves(p: Params, c: Talk, h: Handshake<ServerState>, s: ServerState, i: nat, j: nat,
                    rest: seq<Item>, prior: seq<Item>)
    requires InStep(c, true, h, i, j, rest, prior) && i == ServerSlot(p.resumed, s, Proceed) && OnPath(p.resumed, s)
    requires ServerNotes(p, c, h, i) && (h.flight == [] || Sending(s))
    ensures ServerHolds(p, c, h.(state := s), Proceed, j, rest, prior)
  {
  }

  /** The same with a flight that is to be flushed next. */
  lemma ServerFlushes(p: Params, c: Talk, h: Handshake<ServerState>, s: ServerState, i: nat, j: nat,
                      rest: seq<Item>, prior: seq<Item>)
    requires InStep(c, true, h, i, j, rest, prior) && i == ServerSlot(p.resumed, s, Flush) && OnPath(p.resumed, s)
    requires ServerNotes(p, c, h, i)
    ensures ServerHolds(p, c, h.(state := s), Flush, j, rest, prior)
  {
  }

  lemma SameSlot(resumed: bool, s: ServerState, w: Wait)
    requires w != ReadChangeCipherSpec
    ensures ServerSlot(resumed, s, w) == ServerSlot(resumed, s, Proceed)
  {
  }

  /** A machine that waits where it is stays in step. */
  lemma WaitHolds(p: Params, c: Talk, h: Handshake<ServerState>, w: Wait, j: nat, rest: seq<Item>, prior: seq<Item>)
    requires ServerReady(p, c, h, j, rest, prior) && (w == Retry || (w == ReadMessage && !Sending(h.state)))
    ensures ServerHolds(p, c, h, w, j, rest, prior)
  {
    SameSlot(p.resumed, h.state, w);
  }

  lemma StartAcceptHolds(p: Params, c: Talk, h: Handshake<ServerState>, j: nat, rest: seq<Item>,
                         prior: seq<Item>)
    requires ServerReady(p, c, h, j, rest, prior) && h.state == StartAccept
    ensures var r := DoStartAccept(p, h); ServerHolds(p, c, r.0, r.1, j, rest, prior)
  {
  }

  lemma SelectCertificateHolds(p: Params, c: Talk, h: Handshake<ServerState>, retry: bool, j: nat, rest: seq<Item>,
                               prior: seq<Item>)
    requires ServerReady(p, c, h, j, rest, prior) && h.state == SelectCertificate
    ensures var r := DoSelectCertificate(p, h, retry); ServerHolds(p, c, r.0, r.1, j, rest, prior)
  {
  }

  lemma VerifyClientCertificateHolds(p: Params, c: Talk, h: Handshake<ServerState>, retry: bool, j: nat,
                                     rest: seq<Item>,
                                     prior: seq<Item>)
    requires ServerReady(p, c, h, j, rest, prior) && h.state == VerifyClientCertificate
    ensures var r := DoVerifyClientCertificate(p, h, retry); ServerHolds(p, c, r.0, r.1, j, rest, prior)
  {
  }

  lemma AwaitChangeCipherSpecHolds(p: Params, c: Talk, h: Handshake<ServerState>, j: nat, rest: seq<Item>,
                                   prior: seq<Item>)
    requires ServerReady(p, c, h, j, rest, prior) && h.state == AwaitChangeCipherSpec
    ensures var r := DoReadChangeCipherSpec(p, h); ServerHolds(p, c, r.0, r.1, j, rest, prior)
  {
  }

  lemma ProcessChangeCipherSpecHolds(p: Params, c: Talk, h: Handshake<ServerState>, j: nat, rest: seq<Item>,
                                     prior: seq<Item>)
    requires ServerReady(p, c, h, j, rest, prior) && h.state == ProcessChangeCipherSpec
    ensures var r := DoProcessChangeCipherSpec(p, h); ServerHolds(p, c, r.0, r.1, j, rest, prior)
  {
  }

  lemma FinishServerHandshakeHolds(p: Params, c: Talk, h: Handshake<ServerState>, j: nat, rest: seq<Item>,
                                   prior: seq<Item>)
    requires ServerReady(p, c, h, j, rest, prior) && h.state == FinishServerHandshake
    ensures var r := DoFinishServerHandshake(p, h); ServerHolds(p, c, r.0, r.1, j, rest, prior)
  {
  }

  lemma DoneHolds(p: Params, c: Talk, h: Handshake<ServerState>, retry: bool, j: nat, rest: seq<Item>,
                  prior: seq<Item>)
    requires ServerReady(p, c, h, j, rest, prior) && h.state == Done
    ensures var r := ServerDo(p, h, retry); ServerHolds(p, c, r.0, r.1, j, rest, prior)
  {
  }

  /** The server accepts the ClientHello of a client in step. */
  lemma ReadClientHelloHolds(p: Params, c: Talk, h: Handshake<ServerState>, j: nat, rest: seq<Item>,
                             prior: seq<Item>)
    requires ServerReady(p, c, h, j, rest, prior) && h.state == ReadClientHello
    ensures var r := DoReadClientHello(p, h); ServerHolds(p, c, r.0, r.1, j, rest, prior)
  {
    var i := ServerSlot(p.resumed, h.state, Proceed);
    assert Says(p, c, i);
    if Has(h) {
      StepReceive(c, true, h, i, j, rest, prior);
      ServerMoves(p, c, h, SelectCertificate, i, j, rest, prior);
    } else {
      WaitHolds(p, c, h, ReadMessage, j, rest, prior);
    }
  }

  lemma SelectParametersHolds(p: Params, c: Talk, h: Handshake<ServerState>, retry: bool, j: nat, rest: seq<Item>,
                              prior: seq<Item>)
    requires ServerReady(p, c, h, j, rest, prior) && h.state == SelectParameters
    ensures var r := DoSelectParameters(p, h, retry); ServerHolds(p, c, r.0, r.1, j, rest, prior)
  {
    var i := ServerSlot(p.resumed, h.state, Proceed);
    assert Says(p, c, i);
    if !Has(h) {
      WaitHolds(p, c, h, ReadMessage, j, rest, prior);
    } else if retry {
      WaitHolds(p, c, h, Retry, j, rest, prior);
    } else {
      StepReceive(c, true, h, i, j, rest, prior);
      ServerMoves(p, c, Take(h).(buffered := h.buffered && p.certRequest), SendServerHello, i + 1, j, rest, prior);
    }
  }

  lemma SendServerHelloHolds(p: Params, c: Talk, h: Handshake<ServerState>, j: nat, rest: seq<Item>,
                             prior: seq<Item>)
    requires ServerReady(p, c, h, j, rest, prior) && h.state == SendServerHello
    ensures var r := DoSendServerHello(p, h); ServerHolds(p, c, r.0, r.1, j, rest, prior)
  {
    var i, m := ServerSlot(p.resumed, h.state, Proceed), Plain(ServerHello, p.content(ServerHello, true));
    assert Says(p, c, i);
    StepSend(c, true, h, i, j, rest, prior, m);
    ServerMoves(p, c, Send(h, m), if p.resumed then SendServerFinished else SendServerCertificate, i + 1, j, rest,
                prior);
  }

  /** The certificate, if one is sent, and its status, if that is. */
  function WithCertificate(p: Params, h: Handshake<ServerState>): Handshake<ServerState> {
    if p.certAuth then Send(h, Plain(Certificate, p.content(Certificate, true))) else h
  }

  function WithStatus(p: Params, h: Handshake<ServerState>): Handshake<ServerState> {
    if p.ocsp then Send(h, Plain(CertificateStatus, p.content(CertificateStatus, true))) else h
  }

  lemma CertificateInStep(p: Params, c: Talk, h: Handshake<ServerState>, i: nat, j: nat, rest: seq<Item>,
                          prior: seq<Item>)
    requires Faithful(p, c) && !p.resumed && i == 2 && InStep(c, true, h, i, j, rest, prior)
    ensures InStep(c, true, WithStatus(p, WithCertificate(p, h)), i + 2, j, rest, prior)
  {
    assert Says(p, c, i) && Says(p, c, i + 1);
    StepSendIf(c, true, h, i, j, rest, prior, p.certAuth, Plain(Certificate, p.content(Certificate, true)));
    StepSendIf(c, true, WithCertificate(p, h), i + 1, j, rest, prior, p.ocsp,
               Plain(CertificateStatus, p.content(CertificateStatus, true)));
  }

  lemma SendServerCertificateHolds(p: Params, c: Talk, h: Handshake<ServerState>, j: nat, rest: seq<Item>,
                                   prior: seq<Item>)
    requires ServerReady(p, c, h, j, rest, prior) && h.state == SendServerCertificate
    ensures var r := DoSendServerCertificate(p, h); ServerHolds(p, c, r.0, r.1, j, rest, prior)
  {
    var i := ServerSlot(p.resumed, h.state, Proceed);
    CertificateInStep(p, c, h, i, j, rest, prior);
    ServerMoves(p, c, WithStatus(p, WithCertificate(p, h)), SendServerKeyExchange, i + 2, j, rest, prior);
  }

  lemma SendServerKeyExchangeHolds(p: Params, c: Talk, h: Handshake<ServerState>, retry: bool, j: nat, rest: seq<Item>,
                                   prior: seq<Item>)
    requires ServerReady(p, c, h, j, rest, prior) && h.state == SendServerKeyExchange
    ensures var r := DoSendServerKeyExchange(p, h, retry); ServerHolds(p, c, r.0, r.1, j, rest, prior)
  {
    var i, m := ServerSlot(p.resumed, h.state, Proceed), Plain(ServerKeyExchange, p.content(ServerKeyExchange, true));
    assert Says(p, c, i);
    WaitHolds(p, c, h, Retry, j, rest, prior);
    StepSendIf(c, true, h, i, j, rest, prior, p.ecdhe || p.pskHint, m);
    ServerMoves(p, c, if p.ecdhe || p.pskHint then Send(h, m) else h, SendServerHelloDone, i + 1, j, rest, prior);
  }

  lemma SendServerHelloDoneHolds(p: Params, c: Talk, h: Handshake<ServerState>, j: nat, rest: seq<Item>,
                                 prior: seq<Item>)
    requires ServerReady(p, c, h, j, rest, prior) && h.state == SendServerHelloDone
    ensures var r := DoSendServerHelloDone(p, h); ServerHolds(p, c, r.0, r.1, j, rest, prior)
  {
    var i := ServerSlot(p.resumed, h.state, Proceed);
    var request, done := Plain(CertificateRequest, p.content(CertificateRequest, true)),
                         Plain(ServerHelloDone, p.content(ServerHelloDone, true));
    assert Says(p, c, i) && Says(p, c, i + 1);
    StepSendIf(c, true, h, i, j, rest, prior, p.certRequest, request);
    var a := if p.certRequest then Send(h, request) else h;
    StepSend(c, true, a, i + 1, j, rest, prior, done);
    ServerFlushes(p, c, Send(a, done), ReadClientCertificate, i + 2, j, rest, prior);
  }

  lemma ReadClientCertificateHolds(p: Params, c: Talk, h: Handshake<ServerState>, j: nat, rest: seq<Item>,
                                   prior: seq<Item>)
    requires ServerReady(p, c, h, j, rest, prior) && h.state == ReadClientCertificate
    ensures var r := DoReadClientCertificate(p, h); ServerHolds(p, c, r.0, r.1, j, rest, prior)
  {
    var i := ServerSlot(p.resumed, h.state, Proceed);
    assert Says(p, c, i);
    if !p.certRequest {
      StepSkip(c, true, h, i, j, rest, prior);
      ServerMoves(p, c, h, VerifyClientCertificate, i + 1, j, rest, prior);
    } else if Has(h) {
      StepReceive(c, true, h, i, j, rest, prior);
      var next := if p.clientHasCert then Take(h).(peerPubkey := true) else Take(h).(buffered := false);
      ServerMoves(p, c, next, VerifyClientCertificate, i + 1, j, rest, prior);
    } else {
      WaitHolds(p, c, h, ReadMessage, j, rest, prior);
    }
  }

  lemma KeyExchangeTaken(p: Params, c: Talk, h: Handshake<ServerState>, i: nat, j: nat, rest: seq<Item>,
                         prior: seq<Item>)
    requires Faithful(p, c) && !p.resumed && i == 8 && Has(h)
    requires InStep(c, true, h, i, j, rest, prior) && ServerNotes(p, c, h, i) && h.flight == []
    ensures KindOf(Peek(h)) == ClientKeyExchange
    ensures var g := Take(h).(masterSeed := Take(h).transcript, state := ReadClientCertificateVerify);
            ServerHolds(p, c, g, Proceed, j, rest, prior)
  {
    var g := Take(h).(masterSeed := Take(h).transcript);
    assert Says(p, c, i);
    StepReceive(c, true, h, i, j, rest, prior);
    assert ServerNotes(p, c, g, i + 1);
    ServerMoves(p, c, g, ReadClientCertificateVerify, i + 1, j, rest, prior);
  }

  /** The master secret depends on what the client's depends on. */
  lemma ReadClientKeyExchangeHolds(p: Params, c: Talk, h: Handshake<ServerState>, retry: bool, j: nat, rest: seq<Item>,
                                   prior: seq<Item>)
    requires ServerReady(p, c, h, j, rest, prior) && h.state == ReadClientKeyExchange
    ensures var r := DoReadClientKeyExchange(p, h, retry); ServerHolds(p, c, r.0, r.1, j, rest, prior)
  {
    if Has(h) {
      WaitHolds(p, c, h, Retry, j, rest, prior);
      KeyExchangeTaken(p, c, h, 8, j, rest, prior);
    } else {
      WaitHolds(p, c, h, ReadMessage, j, rest, prior);
    }
  }

  /** The signature is over the transcript the server has, and the server still has it. */
  lemma ReadClientCertificateVerifyHolds(p: Params, c: Talk, h: Handshake<ServerState>, j: nat, rest: seq<Item>,
                                         prior: seq<Item>)
    requires ServerReady(p, c, h, j, rest, prior) && h.state == ReadClientCertificateVerify
    ensures var r := DoReadClientCertificateVerify(p, h); ServerHolds(p, c, r.0, r.1, j, rest, prior)
  {
    var i := ServerSlot(p.resumed, h.state, Proceed);
    assert Says(p, c, i);
    if !p.certRequest || !p.clientHasCert {
      StepSkip(c, true, h, i, j, rest, prior);
      ServerMoves(p, c, h.(buffered := false), AwaitChangeCipherSpec, i + 1, j, rest, prior);
    } else if Has(h) {
      StepReceive(c, true, h, i, j, rest, prior);
      ServerMoves(p, c, Take(h).(buffered := false), AwaitChangeCipherSpec, i + 1, j, rest, prior);
    } else {
      WaitHolds(p, c, h, ReadMessage, j, rest, prior);
    }
  }

  lemma OptionalInStep(c: Talk, h: Handshake<ServerState>, i: nat, j: nat, rest: seq<Item>, prior: seq<Item>,
                       present: bool, m: Message)
    requires InStep(c, true, h, i, j, rest, prior) && c.slot(i) == Slot(false, present, Msg(m)) && Grows(c, i)
    ensures !present ==> InStep(c, true, h, i + 1, j, rest, prior)
    ensures present && Has(h) ==> Peek(h) == m && InStep(c, true, Take(h), i + 1, j, rest, prior)
  {
    if !present {
      StepSkip(c, true, h, i, j, rest, prior);
    } else if Has(h) {
      StepReceive(c, true, h, i, j, rest, prior);
    }
  }

  lemma ReadNextProtoHolds(p: Params, c: Talk, h: Handshake<ServerState>, j: nat, rest: seq<Item>,
                           prior: seq<Item>)
    requires ServerReady(p, c, h, j, rest, prior) && h.state == ReadNextProto
    ensures var r := DoReadNextProto(p, h); ServerHolds(p, c, r.0, r.1, j, rest, prior)
  {
    var i := ServerSlot(p.resumed, h.state, Proceed);
    assert Says(p, c, i);
    OptionalInStep(c, h, i, j, rest, prior, p.npn, Plain(NextProto, p.content(NextProto, false)));
    if !p.npn {
      ServerMoves(p, c, h, ReadChannelId, i + 1, j, rest, prior);
    } else if Has(h) {
      ServerMoves(p, c, Take(h), ReadChannelId, i + 1, j, rest, prior);
    } else {
      WaitHolds(p, c, h, ReadMessage, j, rest, prior);
    }
  }

  lemma ReadChannelIdHolds(p: Params, c: Talk, h: Handshake<ServerState>, j: nat, rest: seq<Item>,
                           prior: seq<Item>)
    requires ServerReady(p, c, h, j, rest, prior) && h.state == ReadChannelId
    ensures var r := DoReadChannelId(p, h); ServerHolds(p, c, r.0, r.1, j, rest, prior)
  {
    var i := ServerSlot(p.resumed, h.state, Proceed);
    assert Says(p, c, i);
    OptionalInStep(c, h, i, j, rest, prior, p.channelId, Signed(ChannelId, h.transcript));
    if !p.channelId {
      ServerMoves(p, c, h, ReadClientFinished, i + 1, j, rest, prior);
    } else if Has(h) {
      ServerMoves(p, c, Take(h), ReadClientFinished, i + 1, j, rest, prior);
    } else {
      WaitHolds(p, c, h, ReadMessage, j, rest, prior);
    }
  }

  lemma ClientFinishedTaken(p: Params, c: Talk, h: Handshake<ServerState>, i: nat, j: nat, rest: seq<Item>,
                            prior: seq<Item>, next: ServerState)
    requires Faithful(p, c) && i == (if p.resumed then 8 else 13) && Has(h)
    requires InStep(c, true, h, i, j, rest, prior) && ServerNotes(p, c, h, i) && h.flight == []
    requires next == if p.resumed then FinishServerHandshake else SendServerFinished
    ensures var r := GetFinished(h, true, next); ServerHolds(p, c, r.0, r.1, j, rest, prior)
  {
    assert Says(p, c, i);
    StepGetFinished(c, true, h, i, j, rest, prior, next);
    ServerMoves(p, c, Take(h).(macChecked := Some(c.transcript(i))), next, i + 1, j, rest, prior);
  }

  /** The MAC in the client's Finished is the one the server expects. */
  lemma ReadClientFinishedHolds(p: Params, c: Talk, h: Handshake<ServerState>, j: nat, rest: seq<Item>,
                                prior: seq<Item>)
    requires ServerReady(p, c, h, j, rest, prior) && h.state == ReadClientFinished
    ensures var r := DoReadClientFinished(p, h); ServerHolds(p, c, r.0, r.1, j, rest, prior)
  {
    if Has(h) {
      ClientFinishedTaken(p, c, h, if p.resumed then 8 else 13, j, rest, prior,
                          if p.resumed then FinishServerHandshake else SendServerFinished);
    } else {
      WaitHolds(p, c, h, ReadMessage, j, rest, prior);
    }
  }

  lemma LastMessagesInStep(p: Params, c: Talk, h: Handshake<ServerState>, i: nat, j: nat, rest: seq<Item>,
                           prior: seq<Item>)
    requires Faithful(p, c) && InStep(c, true, h, i, j, rest, prior) && i == if p.resumed then 2 else 14
    ensures var last := LastMessages(p, h);
            && last == h.(transcript := c.transcript(i + 2), flight := last.flight, writeSwitched := true)
            && InStep(c, true, SendFinished(last, true), i + 3, j, rest, prior)
  {
    var ticket := Plain(NewSessionTicket, p.content(NewSessionTicket, true));
    var a := if p.ticket then Send(h, ticket) else h;
    assert Says(p, c, i) && Says(p, c, i + 1) && Says(p, c, i + 2);
    StepSendIf(c, true, h, i, j, rest, prior, p.ticket, ticket);
    StepSendCcs(c, true, a, i + 1, j, rest, prior);
    var last := SendCcs(a);
    StepSend(c, true, last, i + 2, j, rest, prior, Finished(true, last.transcript));
  }

  lemma ServerFinishedSent(p: Params, c: Talk, h: Handshake<ServerState>, i: nat, j: nat, rest: seq<Item>,
                           prior: seq<Item>, next: ServerState)
    requires Faithful(p, c) && i == (if p.resumed then 2 else 14)
    requires InStep(c, true, h, i, j, rest, prior) && ServerNotes(p, c, h, i)
    requires next == if p.resumed then AwaitChangeCipherSpec else FinishServerHandshake
    ensures ServerHolds(p, c, SendFinished(LastMessages(p, h), true).(state := next), Flush, j, rest, prior)
  {
    LastMessagesInStep(p, c, h, i, j, rest, prior);
    ServerFlushes(p, c, SendFinished(LastMessages(p, h), true), next, i + 3, j, rest, prior);
  }

  /** The server's Finished is the one the client expects. */
  lemma SendServerFinishedHolds(p: Params, c: Talk, h: Handshake<ServerState>, j: nat, rest: seq<Item>,
                                prior: seq<Item>)
    requires ServerReady(p, c, h, j, rest, prior) && h.state == SendServerFinished
    ensures var r := DoSendServerFinished(p, h); ServerHolds(p, c, r.0, r.1, j, rest, prior)
  {
    ServerFinishedSent(p, c, h, if p.resumed then 2 else 14, j, rest, prior,
                       if p.resumed then AwaitChangeCipherSpec else FinishServerHandshake);
  }

  /** No step of the server fails, and each keeps it in step. */
  lemma ServerStepHolds(p: Params, c: Talk, h: Handshake<ServerState>, retry: bool, j: nat, rest: seq<Item>,
                        prior: seq<Item>)
    requires ServerReady(p, c, h, j, rest, prior)
    ensures var r := ServerDo(p, h, retry); ServerHolds(p, c, r.0, r.1, j, rest, prior)
  {
    match h.state
    case StartAccept => StartAcceptHolds(p, c, h, j, rest, prior);
    case ReadClientHello => ReadClientHelloHolds(p, c, h, j, rest, prior);
    case SelectCertificate => SelectCertificateHolds(p, c, h, retry, j, rest, prior);
    case SelectParameters => SelectParametersHolds(p, c, h, retry, j, rest, prior);
    case SendServerHello => SendServerHelloHolds(p, c, h, j, rest, prior);
    case SendServerCertificate => SendServerCertificateHolds(p, c, h, j, rest, prior);
    case SendServerKeyExchange => SendServerKeyExchangeHolds(p, c, h, retry, j, rest, prior);
    case SendServerHelloDone => SendServerHelloDoneHolds(p, c, h, j, rest, prior);
    case ReadClientCertificate => ReadClientCertificateHolds(p, c, h, j, rest, prior);
    case VerifyClientCertificate => VerifyClientCertificateHolds(p, c, h, retry, j, rest, prior);
    case ReadClientKeyExchange => ReadClientKeyExchangeHolds(p, c, h, retry, j, rest, prior);
    case ReadClientCertificateVerify => ReadClientCertificateVerifyHolds(p, c, h, j, rest, prior);
    case AwaitChangeCipherSpec => AwaitChangeCipherSpecHolds(p, c, h, j, rest, prior);
    case ProcessChangeCipherSpec => ProcessChangeCipherSpecHolds(p, c, h, j, rest, prior);
    case ReadNextProto => ReadNextProtoHolds(p, c, h, j, rest, prior);
    case ReadChannelId => ReadChannelIdHolds(p, c, h, j, rest, prior);
    case ReadClientFinished => ReadClientFinishedHolds(p, c, h, j, rest, prior);
    case SendServerFinished => SendServerFinishedHolds(p, c, h, j, rest, prior);
    case FinishServerHandshake => FinishServerHandshakeHolds(p, c, h, j, rest, prior);
    case Done => DoneHolds(p, c, h, retry, j, rest, prior);
  }

  lemma AwaitsHelloOrKeys(p: Params, c: Talk, h: Handshake<ServerState>)
    requires Faithful(p, c) && OnPath(p.resumed, h.state) && Reads(p, h)
    requires h.state.ReadClientHello? || h.state.SelectCertificate? || h.state.SelectParameters?
             || h.state.ReadClientCertificate?
             || h.state.ReadClientKeyExchange?
    ensures Awaits(c, true, ServerSlot(p.resumed, h.state, Proceed), true)
  {
    match h.state
    case ReadClientHello | SelectCertificate | SelectParameters => NextSaid(p, c, 0, 0);
    case ReadClientCertificate => NextSaid(p, c, 7, 0);
    case ReadClientKeyExchange => NextSaid(p, c, 8, 0);
  }

  lemma AwaitsVerifyOrLater(p: Params, c: Talk, h: Handshake<ServerState>)
    requires Faithful(p, c) && OnPath(p.resumed, h.state) && Reads(p, h)
    requires h.peerPubkey ==> p.certRequest && p.clientHasCert
    requires h.state.ReadClientCertificateVerify? || h.state.ReadNextProto? || h.state.ReadChannelId?
             || h.state.ReadClientFinished?
    ensures Awaits(c, true, ServerSlot(p.resumed, h.state, Proceed), true)
  {
    match h.state
    case ReadClientCertificateVerify => NextSaid(p, c, 9, 0);
    case ReadNextProto => NextSaid(p, c, if p.resumed then 6 else 11, 0);
    case ReadChannelId => NextSaid(p, c, if p.resumed then 7 else 12, 0);
    case ReadClientFinished => NextSaid(p, c, if p.resumed then 8 else 13, 0);
  }

  /** When the server reads, the next thing said is the client's, and it is a message. */
  lemma ServerAwaits(p: Params, c: Talk, h: Handshake<ServerState>)
    requires Faithful(p, c) && OnPath(p.resumed, h.state) && Reads(p, h)
    requires h.peerPubkey ==> p.certRequest && p.clientHasCert
    ensures Awaits(c, true, ServerSlot(p.resumed, h.state, Proceed), true)
  {
    if h.state.ReadClientCertificateVerify? || h.state.ReadNextProto? || h.state.ReadChannelId?
       || h.state.ReadClientFinished?
    {
      AwaitsVerifyOrLater(p, c, h);
    } else {
      AwaitsHelloOrKeys(p, c, h);
    }
  }

  lemma OnlyWhereAwaited(p: Params, h: Handshake<ServerState>, retry: bool)
    requires ServerDo(p, h, retry).1 == ReadChangeCipherSpec
    ensures h.state == AwaitChangeCipherSpec && ServerDo(p, h, retry).0.state == ProcessChangeCipherSpec
  {
  }

  lemma ServerAwaitsCcs(p: Params, c: Talk, h: Handshake<ServerState>, retry: bool)
    requires Faithful(p, c) && OnPath(p.resumed, h.state) && ServerDo(p, h, retry).1 == ReadChangeCipherSpec
    ensures Awaits(c, true, ServerSlot(p.resumed, ServerDo(p, h, retry).0.state, ReadChangeCipherSpec), false)
  {
    OnlyWhereAwaited(p, h, retry);
    NextSaid(p, c, if p.resumed then 5 else 10, 0);
  }

  // ---------- Waits that are over ----------

  lemma FlushHolds(p: Params, c: Talk, h: Handshake<ServerState>, w: Wait, j: nat, rest: seq<Item>,
                   prior: seq<Item>)
    requires ServerHolds(p, c, h, w, j, rest, prior) && w == Flush
    ensures ServerHolds(p, c, h.(flight := []), Proceed, j, rest, prior + h.flight)
  {
    SameSlot(p.resumed, h.state, w);
    assert (prior + h.flight) + [] == prior + h.flight;
  }

  /** Anything else but a ChangeCipherSpec: the machine goes on as it is. */
  lemma GoOnHolds(p: Params, c: Talk, h: Handshake<ServerState>, w: Wait, j: nat, rest: seq<Item>,
                  prior: seq<Item>)
    requires ServerHolds(p, c, h, w, j, rest, prior) && w != Flush && w != ReadChangeCipherSpec
    ensures ServerHolds(p, c, h, Proceed, j, rest, prior)
  {
    SameSlot(p.resumed, h.state, w);
  }

  lemma CcsInStep(p: Params, c: Talk, h: Handshake<ServerState>, i: nat, j: nat, rest: seq<Item>, prior: seq<Item>)
    requires Faithful(p, c) && InStep(c, true, h, i, j, rest, prior) && h.inbox != []
    requires i == if p.resumed then 5 else 10
    ensures h.inbox[0] == Ccs && InStep(c, true, h.(inbox := h.inbox[1..]), i + 1, j, rest, prior)
  {
    assert Says(p, c, i);
    StepReceive(c, true, h, i, j, rest, prior);
  }

  lemma CcsHolds(p: Params, c: Talk, h: Handshake<ServerState>, w: Wait, j: nat, rest: seq<Item>, prior: seq<Item>)
    requires ServerHolds(p, c, h, w, j, rest, prior) && w == ReadChangeCipherSpec && h.inbox != []
    requires Faithful(p, c)
    ensures h.inbox[0] == Ccs && ServerHolds(p, c, h.(inbox := h.inbox[1..]), Proceed, j, rest, prior)
  {
    var i := if p.resumed then 5 else 10;
    CcsInStep(p, c, h, i, j, rest, prior);
    ServerMoves(p, c, h.(inbox := h.inbox[1..]), ProcessChangeCipherSpec, i + 1, j, rest, prior);
  }
}

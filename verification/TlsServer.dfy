/** The server's state machine, ssl_server_handshake, as a step function. */
module TlsServer {
  import opened TlsHandshake

  datatype ServerState =
    | StartAccept | ReadClientHello | SelectCertificate | SelectParameters | SendServerHello | SendServerCertificate
    | SendServerKeyExchange | SendServerHelloDone | ReadClientCertificate | VerifyClientCertificate
    | ReadClientKeyExchange | ReadClientCertificateVerify | AwaitChangeCipherSpec | ProcessChangeCipherSpec
    | ReadNextProto | ReadChannelId | ReadClientFinished | SendServerFinished | FinishServerHandshake | Done

  /** How many passes at most remain. In a resumption the two Finished trade places. */
  function Rank(resumed: bool, s: ServerState): nat {
    match s
    case StartAccept => 20
    case ReadClientHello => 19
    case SelectCertificate => 18
    case SelectParameters => 17
    case SendServerHello => 16
    case SendServerCertificate => 15
    case SendServerKeyExchange => 14
    case SendServerHelloDone => 13
    case ReadClientCertificate => 12
    case VerifyClientCertificate => 11
    case ReadClientKeyExchange => 10
    case ReadClientCertificateVerify => 9
    case AwaitChangeCipherSpec => 8
    case ProcessChangeCipherSpec => 7
    case ReadNextProto => 6
    case ReadChannelId => 5
    case ReadClientFinished => 4
    case SendServerFinished => if resumed then 9 else 3
    case FinishServerHandshake => 2
    case Done => 0
  }

  /** The states in which a message is read, if the parameters call for it. */
  predicate Reads(p: Params, h: Handshake<ServerState>) {
    match h.state
    case ReadClientHello | SelectCertificate | SelectParameters => true
    case ReadClientCertificate => p.certRequest
    case ReadClientKeyExchange => true
    case ReadClientCertificateVerify => h.peerPubkey
    case ReadNextProto => p.npn
    case ReadChannelId => p.channelId
    case ReadClientFinished => true
    case _ => false
  }

  /** A resumption skips the states between the hellos and the Finished messages. */
  predicate OnPath(resumed: bool, s: ServerState) {
    resumed ==>
      !s.SendServerCertificate? && !s.SendServerKeyExchange? && !s.SendServerHelloDone? && !s.ReadClientCertificate?
      && !s.VerifyClientCertificate? && !s.ReadClientKeyExchange? && !s.ReadClientCertificateVerify?
  }

  /** The order of the last steps, whatever the peer sends: past the state that reads the ChangeCipherSpec reading is
      encrypted, past the state that reads the Finished it was verified, and past the state that sends the own Finished
      writing is encrypted and it was sent. */
  predicate Ordered(p: Params, h: Handshake<ServerState>) {
    && OnPath(p.resumed, h.state)
    && (Rank(p.resumed, h.state) < 7 ==> h.readSwitched)
    && (Rank(p.resumed, h.state) < 4 ==> h.macChecked.Some?)
    && (Rank(p.resumed, h.state) < (if p.resumed then 9 else 3) ==> h.writeSwitched && h.macSent.Some?)
  }

  /** What every pass keeps to: it stays only to wait or fail, changing nothing, and it waits for a message only where
      one is read and none is there; it adds at most four items to the flight, and keeps the order. */
  predicate Regular(p: Params, h: Handshake<ServerState>, r: (Handshake<ServerState>, Wait)) {
    && Closer(r.0.state == h.state, Rank(p.resumed, h.state), Rank(p.resumed, r.0.state), r.1)
    && (r.1 == ReadMessage || r.1 == Retry || r.1 == Error ==> r.0 == h)
    && (r.1 == ReadMessage ==> !Has(h) && Reads(p, h))
    && |r.0.flight| <= |h.flight| + 4
    && (Ordered(p, h) ==> Ordered(p, r.0))
  }

  /** The ClientHello is looked at in three states and only hashed and let go in the last of them. */
  function DoReadClientHello(p: Params, h: Handshake<ServerState>): (r: (Handshake<ServerState>, Wait))
    requires h.state.ReadClientHello?
    ensures Regular(p, h, r) && Goes(h, r.0)
  {
    if !Has(h) then (h, ReadMessage)
    else if KindOf(Peek(h)) != ClientHello then Fail(h)
    else Goto(h, SelectCertificate)
  }

  function DoSelectCertificate(p: Params, h: Handshake<ServerState>, retry: bool): (r: (Handshake<ServerState>, Wait))
    requires h.state.SelectCertificate?
    ensures r.1 == Retry ==> retry
    ensures Regular(p, h, r) && Goes(h, r.0)
  {
    if !Has(h) then (h, ReadMessage)
    else if retry then (h, Retry)
    else Goto(h, SelectParameters)
  }

  function DoSelectParameters(p: Params, h: Handshake<ServerState>, retry: bool): (r: (Handshake<ServerState>, Wait))
    requires h.state.SelectParameters?
    ensures r.1 == Retry ==> retry
    ensures Regular(p, h, r) && Goes(h, r.0)
  {
    if !Has(h) then (h, ReadMessage)
    else if retry then (h, Retry)
    else Goto(Take(h).(buffered := h.buffered && p.certRequest), SendServerHello)
  }

  function DoSendServerHello(p: Params, h: Handshake<ServerState>): (r: (Handshake<ServerState>, Wait))
    requires h.state.SendServerHello?
    ensures Regular(p, h, r) && Goes(h, r.0)
  {
    Goto(Send(h, Plain(ServerHello, p.content(ServerHello, true))),
         if p.resumed then SendServerFinished else SendServerCertificate)
  }

  function DoSendServerCertificate(p: Params, h: Handshake<ServerState>): (r: (Handshake<ServerState>, Wait))
    requires h.state.SendServerCertificate?
    ensures Regular(p, h, r) && Goes(h, r.0)
  {
    var a := if p.certAuth then Send(h, Plain(Certificate, p.content(Certificate, true))) else h;
    var b := if p.certAuth && p.ocsp then Send(a, Plain(CertificateStatus, p.content(CertificateStatus, true))) else a;
    Goto(b, SendServerKeyExchange)
  }

  function DoSendServerKeyExchange(p: Params, h: Handshake<ServerState>, retry: bool): (r: (Handshake<ServerState>,
                                   Wait))
    requires h.state.SendServerKeyExchange?
    ensures r.1 == Retry ==> retry
    ensures Regular(p, h, r) && Goes(h, r.0)
  {
    if !p.ecdhe && !p.pskHint then Goto(h, SendServerHelloDone)
    else if p.certAuth && retry then (h, Retry)
    else Goto(Send(h, Plain(ServerKeyExchange, p.content(ServerKeyExchange, true))), SendServerHelloDone)
  }

  function DoSendServerHelloDone(p: Params, h: Handshake<ServerState>): (r: (Handshake<ServerState>, Wait))
    requires h.state.SendServerHelloDone?
    ensures Regular(p, h, r) && Goes(h, r.0)
  {
    var a := if p.certRequest then Send(h, Plain(CertificateRequest, p.content(CertificateRequest, true))) else h;
    (Send(a, Plain(ServerHelloDone, p.content(ServerHelloDone, true))).(state := ReadClientCertificate), Flush)
  }

  function DoReadClientCertificate(p: Params, h: Handshake<ServerState>): (r: (Handshake<ServerState>, Wait))
    requires h.state.ReadClientCertificate?
    ensures Regular(p, h, r) && Goes(h, r.0)
  {
    if !p.certRequest then Goto(h, VerifyClientCertificate)
    else if !Has(h) then (h, ReadMessage)
    else if KindOf(Peek(h)) != Certificate then Fail(h)
    else if Peek(h).Plain? && Peek(h).content == [] then
      if p.failIfNoCert then Fail(h) else Goto(Take(h).(buffered := false), VerifyClientCertificate)
    else Goto(Take(h).(peerPubkey := true), VerifyClientCertificate)
  }

  function DoVerifyClientCertificate(p: Params, h: Handshake<ServerState>, retry: bool): (r: (Handshake<ServerState>,
                                     Wait))
    requires h.state.VerifyClientCertificate?
    ensures r.1 == Retry ==> retry
    ensures Regular(p, h, r) && Goes(h, r.0)
  {
    if h.peerPubkey && retry then (h, Retry) else Goto(h, ReadClientKeyExchange)
  }

  function DoReadClientKeyExchange(p: Params, h: Handshake<ServerState>, retry: bool): (r: (Handshake<ServerState>,
                                   Wait))
    requires h.state.ReadClientKeyExchange?
    ensures r.1 == Retry ==> retry
    ensures Regular(p, h, r) && Goes(h, r.0)
  {
    if !Has(h) then (h, ReadMessage)
    else if KindOf(Peek(h)) != ClientKeyExchange then Fail(h)
    else if retry then (h, Retry)
    else
      var taken := Take(h);
      Goto(taken.(masterSeed := taken.transcript), ReadClientCertificateVerify)
  }

  /** The signature is checked against the transcript before the message is hashed. */
  function DoReadClientCertificateVerify(p: Params, h: Handshake<ServerState>): (r: (Handshake<ServerState>, Wait))
    requires h.state.ReadClientCertificateVerify?
    ensures Regular(p, h, r) && Goes(h, r.0)
  {
    if !h.peerPubkey then Goto(h.(buffered := false), AwaitChangeCipherSpec)
    else if !Has(h) then (h, ReadMessage)
    else if KindOf(Peek(h)) != CertificateVerify then Fail(h)
    else if !h.buffered || Peek(h) != Signed(CertificateVerify, h.transcript) then Fail(h)
    else Goto(Take(h).(buffered := false), AwaitChangeCipherSpec)
  }

  function DoReadNextProto(p: Params, h: Handshake<ServerState>): (r: (Handshake<ServerState>, Wait))
    requires h.state.ReadNextProto?
    ensures Regular(p, h, r) && Goes(h, r.0)
  {
    if !p.npn then Goto(h, ReadChannelId)
    else if !Has(h) then (h, ReadMessage)
    else if KindOf(Peek(h)) != NextProto then Fail(h)
    else Goto(Take(h), ReadChannelId)
  }

  function DoReadChannelId(p: Params, h: Handshake<ServerState>): (r: (Handshake<ServerState>, Wait))
    requires h.state.ReadChannelId?
    ensures Regular(p, h, r) && Goes(h, r.0)
  {
    if !p.channelId then Goto(h, ReadClientFinished)
    else if !Has(h) then (h, ReadMessage)
    else if KindOf(Peek(h)) != ChannelId then Fail(h)
    else if Peek(h) != Signed(ChannelId, h.transcript) then Fail(h)
    else Goto(Take(h), ReadClientFinished)
  }

  /** What the server sends before its Finished: a ticket if it promised one, and the ChangeCipherSpec. */
  function LastMessages(p: Params, h: Handshake<ServerState>): Handshake<ServerState> {
    SendCcs(if p.ticket then Send(h, Plain(NewSessionTicket, p.content(NewSessionTicket, true))) else h)
  }

  function DoSendServerFinished(p: Params, h: Handshake<ServerState>): (r: (Handshake<ServerState>, Wait))
    requires h.state.SendServerFinished?
    ensures Regular(p, h, r)
  {
    var next := if p.resumed then AwaitChangeCipherSpec else FinishServerHandshake;
    (SendFinished(LastMessages(p, h), true).(state := next), Flush)
  }

  function DoStartAccept(p: Params, h: Handshake<ServerState>): (r: (Handshake<ServerState>, Wait))
    requires h.state.StartAccept?
    ensures Regular(p, h, r) && Goes(h, r.0)
  {
    Goto(h, ReadClientHello)
  }

  function DoReadChangeCipherSpec(p: Params, h: Handshake<ServerState>): (r: (Handshake<ServerState>, Wait))
    requires h.state.AwaitChangeCipherSpec?
    ensures Regular(p, h, r) && Goes(h, r.0)
  {
    (h.(state := ProcessChangeCipherSpec), ReadChangeCipherSpec)
  }

  function DoProcessChangeCipherSpec(p: Params, h: Handshake<ServerState>): (r: (Handshake<ServerState>, Wait))
    requires h.state.ProcessChangeCipherSpec?
    ensures Regular(p, h, r) && Goes(h, r.0)
  {
    Goto(h.(readSwitched := true), ReadNextProto)
  }

  function DoReadClientFinished(p: Params, h: Handshake<ServerState>): (r: (Handshake<ServerState>, Wait))
    requires h.state.ReadClientFinished?
    ensures Regular(p, h, r)
  {
    GetFinished(h, true, if p.resumed then FinishServerHandshake else SendServerFinished)
  }

  function DoFinishServerHandshake(p: Params, h: Handshake<ServerState>): (r: (Handshake<ServerState>, Wait))
    requires h.state.FinishServerHandshake?
    ensures Regular(p, h, r) && Goes(h, r.0)
  {
    Goto(h, Done)
  }

  /** One pass of the loop in ssl_server_handshake. */
  function ServerDo(p: Params, h: Handshake<ServerState>, retry: bool): (r: (Handshake<ServerState>, Wait))
    ensures r.1 == Retry ==> retry
    ensures !h.state.Done? ==> Regular(p, h, r)
    ensures !h.state.ReadClientFinished? && !h.state.SendServerFinished? ==> Goes(h, r.0)
  {
    match h.state
    case StartAccept => DoStartAccept(p, h)
    case ReadClientHello => DoReadClientHello(p, h)
    case SelectCertificate => DoSelectCertificate(p, h, retry)
    case SelectParameters => DoSelectParameters(p, h, retry)
    case SendServerHello => DoSendServerHello(p, h)
    case SendServerCertificate => DoSendServerCertificate(p, h)
    case SendServerKeyExchange => DoSendServerKeyExchange(p, h, retry)
    case SendServerHelloDone => DoSendServerHelloDone(p, h)
    case ReadClientCertificate => DoReadClientCertificate(p, h)
    case VerifyClientCertificate => DoVerifyClientCertificate(p, h, retry)
    case ReadClientKeyExchange => DoReadClientKeyExchange(p, h, retry)
    case ReadClientCertificateVerify => DoReadClientCertificateVerify(p, h)
    case AwaitChangeCipherSpec => DoReadChangeCipherSpec(p, h)
    case ProcessChangeCipherSpec => DoProcessChangeCipherSpec(p, h)
    case ReadNextProto => DoReadNextProto(p, h)
    case ReadChannelId => DoReadChannelId(p, h)
    case ReadClientFinished => DoReadClientFinished(p, h)
    case SendServerFinished => DoSendServerFinished(p, h)
    case FinishServerHandshake => DoFinishServerHandshake(p, h)
    case Done => (h, Proceed)
  }
}

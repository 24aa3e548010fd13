/** The client's state machine, ssl_client_handshake, as a step function. */
module TlsClient {
  import opened TlsHandshake

  datatype ClientState =
    | StartConnect | EnterEarlyData | ReadServerHello | ReadServerCertificate | ReadCertificateStatus
    | VerifyServerCertificate | ReadServerKeyExchange | ReadCertificateRequest | ReadServerHelloDone
    | SendClientCertificate | SendClientKeyExchange | SendClientCertificateVerify | SendClientFinished | FinishFlight
    | ReadSessionTicket | ProcessChangeCipherSpec | ReadServerFinished | FinishClientHandshake | Done

  /** How many passes at most remain. In a resumption the two Finished trade places. */
  function Rank(resumed: bool, s: ClientState): nat {
    match s
    case StartConnect => 20
    case EnterEarlyData => 19
    case ReadServerHello => 18
    case ReadServerCertificate => 17
    case ReadCertificateStatus => 16
    case VerifyServerCertificate => 15
    case ReadServerKeyExchange => 14
    case ReadCertificateRequest => 13
    case ReadServerHelloDone => 12
    case SendClientCertificate => 11
    case SendClientKeyExchange => 10
    case SendClientCertificateVerify => 9
    case SendClientFinished => if resumed then 3 else 8
    case FinishFlight => if resumed then 2 else 7
    case ReadSessionTicket => 6
    case ProcessChangeCipherSpec => 5
    case ReadServerFinished => 4
    case FinishClientHandshake => 1
    case Done => 0
  }

  /** The states in which a message is read, if the parameters call for it. */
  predicate Reads(p: Params, h: Handshake<ClientState>) {
    match h.state
    case ReadServerHello => true
    case ReadServerCertificate => p.certAuth
    case ReadCertificateStatus => p.ocsp
    case ReadServerKeyExchange => true
    case ReadCertificateRequest => p.certAuth
    case ReadServerHelloDone => true
    case ReadSessionTicket => p.ticket
    case ReadServerFinished => true
    case _ => false
  }

  /** A resumption skips the states between the hellos and the Finished messages. */
  predicate OnPath(resumed: bool, s: ClientState) {
    resumed ==>
      !s.ReadServerCertificate? && !s.ReadCertificateStatus? && !s.VerifyServerCertificate? && !s.ReadServerKeyExchange?
      && !s.ReadCertificateRequest? && !s.ReadServerHelloDone? && !s.SendClientCertificate?
      && !s.SendClientKeyExchange? && !s.SendClientCertificateVerify?
  }

  /** The order of the last steps, whatever the peer sends: past the state that reads the ChangeCipherSpec reading is
      encrypted, past the state that reads the Finished it was verified, and past the state that sends the own Finished
      writing is encrypted and it was sent. */
  predicate Ordered(p: Params, h: Handshake<ClientState>) {
    && OnPath(p.resumed, h.state)
    && (Rank(p.resumed, h.state) < 5 ==> h.readSwitched)
    && (Rank(p.resumed, h.state) < 4 ==> h.macChecked.Some?)
    && (Rank(p.resumed, h.state) < (if p.resumed then 3 else 8) ==> h.writeSwitched && h.macSent.Some?)
  }

  /** What every pass keeps to: it stays only to wait or fail, changing nothing, and it waits for a message only where
      one is read and none is there; it returns early only behind the own flight; it adds at most four items to the
      flight, and keeps the order. */
  predicate Regular(p: Params, h: Handshake<ClientState>, r: (Handshake<ClientState>, Wait)) {
    && Closer(r.0.state == h.state, Rank(p.resumed, h.state), Rank(p.resumed, r.0.state), r.1)
    && (r.1 == ReadMessage || r.1 == Retry || r.1 == Error ==> r.0 == h)
    && (r.1 == ReadMessage ==> !Has(h) && Reads(p, h))
    && (r.1 == EarlyReturn ==> h.state.FinishFlight?)
    && |r.0.flight| <= |h.flight| + 4
    && (Ordered(p, h) ==> Ordered(p, r.0))
  }

  function DoStartConnect(p: Params, h: Handshake<ClientState>): (r: (Handshake<ClientState>, Wait))
    requires h.state.StartConnect?
    ensures Regular(p, h, r) && Goes(h, r.0)
  {
    (Send(h, Plain(ClientHello, p.content(ClientHello, false))).(state := EnterEarlyData), Flush)
  }

  function DoReadServerHello(p: Params, h: Handshake<ClientState>): (r: (Handshake<ClientState>, Wait))
    requires h.state.ReadServerHello?
    ensures Regular(p, h, r) && Goes(h, r.0)
  {
    if !Has(h) then (h, ReadMessage)
    else if KindOf(Peek(h)) != ServerHello then Fail(h)
    else
      Goto(Take(h).(buffered := h.buffered && !p.resumed && p.certAuth),
           if p.resumed then ReadSessionTicket else ReadServerCertificate)
  }

  function DoReadServerCertificate(p: Params, h: Handshake<ClientState>): (r: (Handshake<ClientState>, Wait))
    requires h.state.ReadServerCertificate?
    ensures Regular(p, h, r) && Goes(h, r.0)
  {
    if !p.certAuth then Goto(h, ReadCertificateStatus)
    else if !Has(h) then (h, ReadMessage)
    else if KindOf(Peek(h)) != Certificate then Fail(h)
    else if !Peek(h).Plain? || Peek(h).content == [] then Fail(h)
    else Goto(Take(h), ReadCertificateStatus)
  }

  /** A server may announce a stapled response and then not send it. */
  function DoReadCertificateStatus(p: Params, h: Handshake<ClientState>): (r: (Handshake<ClientState>, Wait))
    requires h.state.ReadCertificateStatus?
    ensures Regular(p, h, r) && Goes(h, r.0)
  {
    if !p.ocsp then Goto(h, VerifyServerCertificate)
    else if !Has(h) then (h, ReadMessage)
    else if KindOf(Peek(h)) != CertificateStatus then Goto(h, VerifyServerCertificate)
    else Goto(Take(h), VerifyServerCertificate)
  }

  function DoVerifyServerCertificate(p: Params, h: Handshake<ClientState>, retry: bool): (r: (Handshake<ClientState>,
                                     Wait))
    requires h.state.VerifyServerCertificate?
    ensures r.1 == Retry ==> retry
    ensures Regular(p, h, r) && Goes(h, r.0)
  {
    if p.certAuth && retry then (h, Retry) else Goto(h, ReadServerKeyExchange)
  }

  /** Optional for PSK ciphers without an ephemeral key, and absent for static RSA. */
  function DoReadServerKeyExchange(p: Params, h: Handshake<ClientState>): (r: (Handshake<ClientState>, Wait))
    requires h.state.ReadServerKeyExchange?
    ensures Regular(p, h, r) && Goes(h, r.0)
  {
    if !Has(h) then (h, ReadMessage)
    else if KindOf(Peek(h)) != ServerKeyExchange then
      if p.ecdhe then Fail(h) else Goto(h, ReadCertificateRequest)
    else if !p.ecdhe && p.certAuth then Fail(h)
    else Goto(Take(h), ReadCertificateRequest)
  }

  function DoReadCertificateRequest(p: Params, h: Handshake<ClientState>): (r: (Handshake<ClientState>, Wait))
    requires h.state.ReadCertificateRequest?
    ensures Regular(p, h, r) && Goes(h, r.0)
  {
    if !p.certAuth then Goto(h, ReadServerHelloDone)
    else if !Has(h) then (h, ReadMessage)
    else if KindOf(Peek(h)) == ServerHelloDone then Goto(h.(buffered := false), ReadServerHelloDone)
    else if KindOf(Peek(h)) != CertificateRequest then Fail(h)
    else Goto(Take(h).(certRequest := true), ReadServerHelloDone)
  }

  function DoReadServerHelloDone(p: Params, h: Handshake<ClientState>): (r: (Handshake<ClientState>, Wait))
    requires h.state.ReadServerHelloDone?
    ensures Regular(p, h, r) && Goes(h, r.0)
  {
    if !Has(h) then (h, ReadMessage)
    else if KindOf(Peek(h)) != ServerHelloDone then Fail(h)
    else if !Peek(h).Plain? || Peek(h).content != [] then Fail(h)
    else Goto(Take(h), SendClientCertificate)
  }

  function DoSendClientCertificate(p: Params, h: Handshake<ClientState>, retry: bool): (r: (Handshake<ClientState>,
                                   Wait))
    requires h.state.SendClientCertificate?
    ensures r.1 == Retry ==> retry
    ensures Regular(p, h, r) && Goes(h, r.0)
  {
    if !h.certRequest then Goto(h, SendClientKeyExchange)
    else if retry then (h, Retry)
    else
      Goto(Send(h.(buffered := h.buffered && p.clientHasCert), Plain(Certificate, p.content(Certificate, false))),
           SendClientKeyExchange)
  }

  /** The master secret is made after the message is hashed. */
  function DoSendClientKeyExchange(p: Params, h: Handshake<ClientState>): (r: (Handshake<ClientState>, Wait))
    requires h.state.SendClientKeyExchange?
    ensures Regular(p, h, r) && Goes(h, r.0)
  {
    var sent := Send(h, Plain(ClientKeyExchange, p.content(ClientKeyExchange, false)));
    Goto(sent.(masterSeed := sent.transcript), SendClientCertificateVerify)
  }

  function DoSendClientCertificateVerify(p: Params, h: Handshake<ClientState>,
                                         retry: bool): (r: (Handshake<ClientState>, Wait))
    requires h.state.SendClientCertificateVerify?
    ensures r.1 == Retry ==> retry
    ensures Regular(p, h, r) && Goes(h, r.0)
  {
    if !h.certRequest || !p.clientHasCert then Goto(h, SendClientFinished)
    else if retry then (h, Retry)
    else if !h.buffered then Fail(h)
    else Goto(Send(h, Signed(CertificateVerify, h.transcript)).(buffered := false), SendClientFinished)
  }

  /** What the client sends before its Finished, once nothing can hold it up: the ChangeCipherSpec, then under the new
      cipher the chosen protocol and the channel ID. */
  function LastMessages(p: Params, h: Handshake<ClientState>): (g: Handshake<ClientState>)
    ensures g.writeSwitched && |g.flight| <= |h.flight| + 3
    ensures g.state == h.state && g.readSwitched == h.readSwitched && g.macChecked == h.macChecked
  {
    var a := SendCcs(h);
    var b := if p.npn then Send(a, Plain(NextProto, p.content(NextProto, false))) else a;
    if p.channelId then Send(b, Signed(ChannelId, b.transcript)) else b
  }

  function DoSendClientFinished(p: Params, h: Handshake<ClientState>, retry: bool): (r: (Handshake<ClientState>, Wait))
    requires h.state.SendClientFinished?
    ensures r.1 == Retry ==> retry
    ensures Regular(p, h, r)
  {
    if p.channelId && retry then (h, Retry)
    else (SendFinished(LastMessages(p, h), false).(state := FinishFlight), Flush)
  }

  function DoFinishFlight(p: Params, h: Handshake<ClientState>): (r: (Handshake<ClientState>, Wait))
    requires h.state.FinishFlight?
    ensures Regular(p, h, r) && Goes(h, r.0)
  {
    if p.resumed then Goto(h, FinishClientHandshake)
    else if p.falseStart then (h.(state := ReadSessionTicket), EarlyReturn)
    else Goto(h, ReadSessionTicket)
  }

  function DoReadSessionTicket(p: Params, h: Handshake<ClientState>): (r: (Handshake<ClientState>, Wait))
    requires h.state.ReadSessionTicket?
    ensures Regular(p, h, r) && Goes(h, r.0)
  {
    if !p.ticket then (h.(state := ProcessChangeCipherSpec), ReadChangeCipherSpec)
    else if !Has(h) then (h, ReadMessage)
    else if KindOf(Peek(h)) != NewSessionTicket then Fail(h)
    else (Take(h).(state := ProcessChangeCipherSpec), ReadChangeCipherSpec)
  }

  function DoEnterEarlyData(p: Params, h: Handshake<ClientState>): (r: (Handshake<ClientState>, Wait))
    requires h.state.EnterEarlyData?
    ensures Regular(p, h, r) && Goes(h, r.0)
  {
    Goto(h, ReadServerHello)
  }

  function DoProcessChangeCipherSpec(p: Params, h: Handshake<ClientState>): (r: (Handshake<ClientState>, Wait))
    requires h.state.ProcessChangeCipherSpec?
    ensures Regular(p, h, r) && Goes(h, r.0)
  {
    Goto(h.(readSwitched := true), ReadServerFinished)
  }

  function DoReadServerFinished(p: Params, h: Handshake<ClientState>): (r: (Handshake<ClientState>, Wait))
    requires h.state.ReadServerFinished?
    ensures Regular(p, h, r)
  {
    GetFinished(h, false, if p.resumed then SendClientFinished else FinishClientHandshake)
  }

  function DoFinishClientHandshake(p: Params, h: Handshake<ClientState>): (r: (Handshake<ClientState>, Wait))
    requires h.state.FinishClientHandshake?
    ensures Regular(p, h, r) && Goes(h, r.0)
  {
    Goto(h, Done)
  }

  /** One pass of the loop in ssl_client_handshake. `retry` tells that an asynchronous operation is not finished. */
  function ClientDo(p: Params, h: Handshake<ClientState>, retry: bool): (r: (Handshake<ClientState>, Wait))
    ensures r.1 == Retry ==> retry
    ensures !h.state.Done? ==> Regular(p, h, r)
    ensures !h.state.ReadServerFinished? && !h.state.SendClientFinished? ==> Goes(h, r.0)
  {
    match h.state
    case StartConnect => DoStartConnect(p, h)
    case EnterEarlyData => DoEnterEarlyData(p, h)
    case ReadServerHello => DoReadServerHello(p, h)
    case ReadServerCertificate => DoReadServerCertificate(p, h)
    case ReadCertificateStatus => DoReadCertificateStatus(p, h)
    case VerifyServerCertificate => DoVerifyServerCertificate(p, h, retry)
    case ReadServerKeyExchange => DoReadServerKeyExchange(p, h)
    case ReadCertificateRequest => DoReadCertificateRequest(p, h)
    case ReadServerHelloDone => DoReadServerHelloDone(p, h)
    case SendClientCertificate => DoSendClientCertificate(p, h, retry)
    case SendClientKeyExchange => DoSendClientKeyExchange(p, h)
    case SendClientCertificateVerify => DoSendClientCertificateVerify(p, h, retry)
    case SendClientFinished => DoSendClientFinished(p, h, retry)
    case FinishFlight => DoFinishFlight(p, h)
    case ReadSessionTicket => DoReadSessionTicket(p, h)
    case ProcessChangeCipherSpec => DoProcessChangeCipherSpec(p, h)
    case ReadServerFinished => DoReadServerFinished(p, h)
    case FinishClientHandshake => DoFinishClientHandshake(p, h)
    case Done => (h, Proceed)
  }
}

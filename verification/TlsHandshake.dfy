/** The messages, parameters and common steps of the TLS handshakes before version 1.3. */
module TlsHandshake {
  import opened Bytes

  datatype Kind =
    | ClientHello | ServerHello | Certificate | CertificateStatus | ServerKeyExchange | CertificateRequest
    | ServerHelloDone | ClientKeyExchange | CertificateVerify | NextProto | ChannelId | NewSessionTicket | FinishedKind

  /** A signature stands for what it is over, and the MAC of a Finished for its sender and the transcript. */
  datatype Message =
    | Plain(plainKind: Kind, content: seq<byte>)
    | Signed(signedKind: Kind, over: seq<Message>)
    | Finished(byServer: bool, maced: seq<Message>)

  function KindOf(m: Message): Kind {
    match m
    case Plain(k, _) => k
    case Signed(k, _) => k
    case Finished(_, _) => FinishedKind
  }

  /** What the records of a flight hold. */
  datatype Item = Msg(m: Message) | Ccs

  /** The negotiated parameters, and what the parties put into their messages (by kind, and by whether the server
      sends it). */
  datatype Params = Params(
    resumed: bool, certAuth: bool, ecdhe: bool, pskHint: bool, ocsp: bool, certRequest: bool, clientHasCert: bool,
    npn: bool, channelId: bool, ticket: bool, failIfNoCert: bool, falseStart: bool,
    content: (Kind, bool) -> seq<byte>)

  /** What negotiation guarantees: certificates are requested and stapled only with certificate ciphers, hints come with
      PSK ciphers only, and a client certificate is there if the server insists on one. */
  predicate Consistent(p: Params) {
    && (p.certRequest ==> p.certAuth && !p.resumed)
    && (p.ocsp ==> p.certAuth)
    && (p.pskHint ==> !p.certAuth)
    && (p.certAuth ==> p.content(Certificate, true) != [])
    && (p.clientHasCert <==> p.content(Certificate, false) != [])
    && (p.certRequest && p.failIfNoCert ==> p.clientHasCert)
    && p.content(ServerHelloDone, true) == []
  }

  datatype Wait = Proceed | ReadMessage | ReadChangeCipherSpec | Flush | Retry | EarlyReturn | Error

  /** One party's handshake. `inbox` holds what has arrived and was not yet read, `flight` what was added and not yet
      flushed. `buffered` tells whether the transcript itself is still kept, besides its hash. `masterSeed` is the
      transcript the master secret depends on; `macSent` and `macChecked` are the ones in the Finished messages. */
  datatype Handshake<S> = Handshake(
    state: S, transcript: seq<Message>, buffered: bool, inbox: seq<Item>, flight: seq<Item>,
    certRequest: bool, peerPubkey: bool, masterSeed: seq<Message>,
    readSwitched: bool, writeSwitched: bool, macSent: Option<seq<Message>>, macChecked: Option<seq<Message>>)

  function Begin<S>(start: S): Handshake<S> {
    Handshake(start, [], true, [], [], false, false, [], false, false, None, None)
  }

  /** Staying in a state means waiting or failing; leaving it means getting closer to the end. */
  predicate Closer(stays: bool, before: nat, after: nat, w: Wait) {
    if stays then w == ReadMessage || w == Retry || w == Error else after < before
  }

  /** The transcript only grows, and the MACs stay. */
  predicate Goes<S>(h: Handshake<S>, g: Handshake<S>) {
    h.transcript <= g.transcript && g.macChecked == h.macChecked && g.macSent == h.macSent
  }

  // ---------- What the steps are made of ----------

  predicate Has<S>(h: Handshake<S>) {
    h.inbox != [] && h.inbox[0].Msg?
  }

  function Peek<S>(h: Handshake<S>): Message
    requires Has(h)
  {
    h.inbox[0].m
  }

  /** Hashes the message at the front and lets it go. */
  function Take<S>(h: Handshake<S>): Handshake<S>
    requires Has(h)
  {
    h.(transcript := h.transcript + [h.inbox[0].m], inbox := h.inbox[1..])
  }

  /** Adds a message to the flight and hashes it. */
  function Send<S>(h: Handshake<S>, m: Message): Handshake<S> {
    h.(transcript := h.transcript + [m], flight := h.flight + [Msg(m)])
  }

  function SendCcs<S>(h: Handshake<S>): Handshake<S> {
    h.(flight := h.flight + [Ccs], writeSwitched := true)
  }

  function Goto<S>(h: Handshake<S>, s: S): (Handshake<S>, Wait) {
    (h.(state := s), Proceed)
  }

  function Fail<S>(h: Handshake<S>): (Handshake<S>, Wait) {
    (h, Error)
  }

  /** ssl_get_finished: the MAC must be of the peer and of the transcript before it. */
  function GetFinished<S(==)>(h: Handshake<S>, server: bool, next: S): (r: (Handshake<S>, Wait))
    ensures (r.1 == Proceed && r.0.state == next) || (r.0 == h && ((r.1 == ReadMessage && !Has(h)) || r.1 == Error))
  {
    if !Has(h) then (h, ReadMessage)
    else if KindOf(Peek(h)) != FinishedKind then Fail(h)
    else if Peek(h) != Finished(!server, h.transcript) then Fail(h)
    else Goto(Take(h.(macChecked := Some(h.transcript))), next)
  }

  /** ssl_send_finished. */
  function SendFinished<S>(h: Handshake<S>, server: bool): Handshake<S> {
    Send(h.(macSent := Some(h.transcript)), Finished(server, h.transcript))
  }

  // ---------- The driver ----------

  /** One round of ssl_run_handshake for a machine that waits: the flight goes out, the next record is opened if one has
      come, or an operation is resumed. The last part is what was flushed. */
  function Resolve<S>(h: Handshake<S>, w: Wait): (Handshake<S>, Wait, seq<Item>) {
    match w
    case Flush => (h.(flight := []), Proceed, h.flight)
    case ReadMessage =>
      if h.inbox == [] then (h, w, []) else if h.inbox[0].Msg? then (h, Proceed, []) else (h, Error, [])
    case ReadChangeCipherSpec =>
      if h.inbox == [] then (h, w, [])
      else if h.inbox[0].Ccs? then (h.(inbox := h.inbox[1..]), Proceed, [])
      else (h, Error, [])
    case Error => (h, Error, [])
    case _ => (h, Proceed, [])
  }
}

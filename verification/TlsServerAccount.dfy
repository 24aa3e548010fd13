/** A server's account of its handshake, whatever the client sends: what it lets be said, says itself and checks. */
module TlsServerAccount {
  import opened Bytes
  import opened TlsAccount
  import opened TlsAnyPeer
  import opened TlsHandshake
  import opened TlsRounds
  import opened TlsServer

  /** The place of the conversation that a state is about. */
  function PlaceOf(p: Params, s: ServerState, w: Wait): nat {
    match s
    case StartAccept | ReadClientHello | SelectCertificate | SelectParameters => 0
    case SendServerHello => 1
    case SendServerCertificate => 2
    case SendServerKeyExchange => 4
    case SendServerHelloDone => 5
    case ReadClientCertificate => 7
    case VerifyClientCertificate | ReadClientKeyExchange => 8
    case ReadClientCertificateVerify => 9
    case AwaitChangeCipherSpec => ClientCcsAt(p)
    case ProcessChangeCipherSpec => if w == Proceed then ClientCcsAt(p) + 1 else ClientCcsAt(p)
    case ReadNextProto => ClientCcsAt(p) + 1
    case ReadChannelId => ClientCcsAt(p) + 2
    case ReadClientFinished => ClientFinishedAt(p)
    case SendServerFinished => ServerCcsAt(p) - 1
    case FinishServerHandshake | Done => End(p)
  }

  ghost predicate Flags(p: Params, h: Handshake<ServerState>, items: seq<Place>) {
    && OnPath(p.resumed, h.state)
    && h.peerPubkey == GaveCertificate(p, items)
    && (!(p.resumed && p.certRequest) ==> h.buffered == MayVerify(p, items))
    && Knows(p, true, h, items, h.state.ProcessChangeCipherSpec?)
  }

  /** A flight is under way. */
  predicate Gathers(s: ServerState) {
    s.SendServerCertificate? || s.SendServerKeyExchange? || s.SendServerHelloDone? || s.SendServerFinished?
  }

  /** Where the server stands: its account, the place it is in and what it knows. */
  ghost predicate Stands(p: Params, h: Handshake<ServerState>, w: Wait, items: seq<Place>, fed: seq<Item>,
                         flushed: seq<Item>)
  {
    && Account(p, true, h, items, fed, flushed) && |items| == PlaceOf(p, h.state, w) && Flags(p, h, items)
    && (w == ReadMessage ==> Reads(p, h)) && (w == ReadChangeCipherSpec ==> h.state.ProcessChangeCipherSpec?)
    && (h.state.ProcessChangeCipherSpec? ==> w == Proceed || w == ReadChangeCipherSpec || w == Error)
    && (h.state.SelectCertificate? || h.state.SelectParameters? ==> Has(h) && KindOf(Peek(h)) == ClientHello)
    && (h.flight != [] ==> w == Flush || Gathers(h.state)) && w != EarlyReturn
    && (h.state.Done? ==> w == Proceed)
  }

  /** A pass fails exactly where a message is read and the one at the front may not be said in this place. */
  ghost predicate FailsRightly(p: Params, h: Handshake<ServerState>, items: seq<Place>, w: Wait) {
    w == Error <==> Reads(p, h) && Has(h) && !Allowed(p, true, items, Some(Msg(Peek(h))))
  }

  /** What is to be shown of a pass that goes on. */
  lemma MovesTo(p: Params, g: Handshake<ServerState>, w: Wait, items: seq<Place>, fed: seq<Item>, flushed: seq<Item>)
    requires Account(p, true, g, items, fed, flushed) && Flags(p, g, items)
    requires |items| == PlaceOf(p, g.state, w) && !g.state.Done? && !g.state.ProcessChangeCipherSpec?
    requires !g.state.SelectCertificate? && !g.state.SelectParameters?
    requires w == Flush || (w == Proceed && (g.flight == [] || Gathers(g.state)))
    ensures Stands(p, g, w, items, fed, flushed)
  {
  }

  /** And of one that stays, to wait or because it fails. */
  lemma Stays(p: Params, h: Handshake<ServerState>, w: Wait, items: seq<Place>, fed: seq<Item>, flushed: seq<Item>)
    requires Stands(p, h, Proceed, items, fed, flushed) && !h.state.ProcessChangeCipherSpec? && !h.state.Done?
    requires w == Retry || w == Error || (w == ReadMessage && Reads(p, h))
    ensures Stands(p, h, w, items, fed, flushed)
  {
  }

  // ---------- What the server says ----------

  lemma HelloFlags(p: Params, h: Handshake<ServerState>, items: seq<Place>, x: Place)
    requires Flags(p, h, items) && h.state.SendServerHello? && |items| == 1
    ensures Flags(p, DoSendServerHello(p, h).0, items + [x])
  {
    MarksStay(p, items, x);
  }

  lemma HelloPlace(p: Params, h: Handshake<ServerState>, items: seq<Place>, fed: seq<Item>, flushed: seq<Item>)
    returns (next: seq<Place>)
    requires Stands(p, h, Proceed, items, fed, flushed) && h.state.SendServerHello?
    ensures var r := DoSendServerHello(p, h); Stands(p, r.0, r.1, next, fed, flushed)
  {
    var m := Plain(ServerHello, p.content(ServerHello, true));
    FirstMay(p, true, items, Some(Msg(m)));
    Says(p, true, h, Send(h, m), items, Msg(m), fed, flushed);
    next := items + [Some(Msg(m))];
    HelloFlags(p, h, items, Some(Msg(m)));
    MovesTo(p, DoSendServerHello(p, h).0, Proceed, next, fed, flushed);
  }

  /** What a server says before its hello is done changes no flag. */
  lemma FlightFlags(p: Params, h: Handshake<ServerState>, s: ServerState, items: seq<Place>, x: Place)
    requires Flags(p, h, items) && !p.resumed && 2 <= |items| <= 6
    requires !h.state.ProcessChangeCipherSpec? && !s.ProcessChangeCipherSpec?
    ensures Flags(p, h.(state := s), items + [x])
    ensures forall m :: Flags(p, Send(h, m).(state := s), items + [x])
  {
    MarksStay(p, items, x);
  }

  lemma CertificatePlaces(p: Params, h: Handshake<ServerState>, items: seq<Place>, fed: seq<Item>, flushed: seq<Item>)
    returns (next: seq<Place>)
    requires Stands(p, h, Proceed, items, fed, flushed) && h.state.SendServerCertificate?
    ensures var r := DoSendServerCertificate(p, h); Stands(p, r.0, r.1, next, fed, flushed)
  {
    var m, n := Plain(Certificate, p.content(Certificate, true)),
                Plain(CertificateStatus, p.content(CertificateStatus, true));
    var a := if p.certAuth then Send(h, m) else h;
    var x := if p.certAuth then Some(Msg(m)) else None;
    var y := if p.certAuth && p.ocsp then Some(Msg(n)) else None;
    FirstMay(p, true, items, x);
    next := SaysIf(p, true, h, items, fed, flushed, p.certAuth, m);
    FirstMay(p, true, items + [x], y);
    next := SaysIf(p, true, a, items + [x], fed, flushed, p.certAuth && p.ocsp, n);
    FlightFlags(p, h, h.state, items, x);
    FlightFlags(p, a, SendServerKeyExchange, items + [x], y);
    MovesTo(p, DoSendServerCertificate(p, h).0, Proceed, next, fed, flushed);
  }

  lemma KeyExchangePlace(p: Params, h: Handshake<ServerState>, retry: bool, items: seq<Place>, fed: seq<Item>,
                         flushed: seq<Item>) returns (next: seq<Place>)
    requires Stands(p, h, Proceed, items, fed, flushed) && h.state.SendServerKeyExchange?
    ensures var r := DoSendServerKeyExchange(p, h, retry); Stands(p, r.0, r.1, next, fed, flushed)
  {
    next := items;
    if p.certAuth && retry && (p.ecdhe || p.pskHint) {
      Stays(p, h, Retry, items, fed, flushed);
    } else {
      var m := Plain(ServerKeyExchange, p.content(ServerKeyExchange, true));
      var x := if p.ecdhe || p.pskHint then Some(Msg(m)) else None;
      FirstMay(p, true, items, x);
      next := SaysIf(p, true, h, items, fed, flushed, p.ecdhe || p.pskHint, m);
      FlightFlags(p, h, SendServerHelloDone, items, x);
      MovesTo(p, DoSendServerKeyExchange(p, h, retry).0, Proceed, next, fed, flushed);
    }
  }

  lemma HelloDonePlaces(p: Params, h: Handshake<ServerState>, items: seq<Place>, fed: seq<Item>, flushed: seq<Item>)
    returns (next: seq<Place>)
    requires Stands(p, h, Proceed, items, fed, flushed) && h.state.SendServerHelloDone?
    ensures var r := DoSendServerHelloDone(p, h); Stands(p, r.0, r.1, next, fed, flushed)
  {
    var m, n := Plain(CertificateRequest, p.content(CertificateRequest, true)),
                Plain(ServerHelloDone, p.content(ServerHelloDone, true));
    var a := if p.certRequest then Send(h, m) else h;
    var x := if p.certRequest then Some(Msg(m)) else None;
    FirstMay(p, true, items, x);
    next := SaysIf(p, true, h, items, fed, flushed, p.certRequest, m);
    FirstMay(p, true, items + [x], Some(Msg(n)));
    Says(p, true, a, Send(a, n), items + [x], Msg(n), fed, flushed);
    FlightFlags(p, h, h.state, items, x);
    FlightFlags(p, a, ReadClientCertificate, items + [x], Some(Msg(n)));
    next := items + [x] + [Some(Msg(n))];
    MovesTo(p, DoSendServerHelloDone(p, h).0, Flush, next, fed, flushed);
  }

  /** The ticket, the ChangeCipherSpec and the Finished. */
  lemma FinishedIsSaid(p: Params, h: Handshake<ServerState>, items: seq<Place>, fed: seq<Item>, flushed: seq<Item>)
    returns (x: Place, n: Message)
    requires Account(p, true, h, items, fed, flushed) && |items| == ServerCcsAt(p) - 1 && h.state.SendServerFinished?
    ensures n == Finished(true, LastMessages(p, h).transcript)
    ensures LastMessages(p, h).transcript == Messages(items + [x] + [Some(Ccs)])
    ensures Account(p, true, DoSendServerFinished(p, h).0, items + [x] + [Some(Ccs)] + [Some(Msg(n))], fed, flushed)
  {
    var m := Plain(NewSessionTicket, p.content(NewSessionTicket, true));
    var a := if p.ticket then Send(h, m) else h;
    x := if p.ticket then Some(Msg(m)) else None;
    LastMay(p, true, items, x, 4);
    var said := SaysIf(p, true, h, items, fed, flushed, p.ticket, m);
    LastMay(p, true, said, Some(Ccs), 5);
    Says(p, true, a, SendCcs(a), said, Ccs, fed, flushed);
    said := said + [Some(Ccs)];
    n := Finished(true, SendCcs(a).transcript);
    AccountTells(p, true, SendCcs(a), said, fed, flushed);
    LastMay(p, true, said, Some(Msg(n)), 6);
    Says(p, true, SendCcs(a), SendFinished(SendCcs(a), true), said, Msg(n), fed, flushed);
  }

  lemma FinishedFlags(p: Params, h: Handshake<ServerState>, items: seq<Place>, x: Place, n: Message)
    requires Flags(p, h, items) && h.state.SendServerFinished? && |items| == ServerCcsAt(p) - 1
    requires LastMessages(p, h).transcript == Messages(items + [x] + [Some(Ccs)])
    ensures Flags(p, DoSendServerFinished(p, h).0, items + [x] + [Some(Ccs)] + [Some(Msg(n))])
  {
    MarksStay(p, items, x);
    MarksStay(p, items + [x], Some(Ccs));
    MarksStay(p, items + [x] + [Some(Ccs)], Some(Msg(n)));
  }

  lemma FinishedPlaces(p: Params, h: Handshake<ServerState>, items: seq<Place>, fed: seq<Item>, flushed: seq<Item>)
    returns (next: seq<Place>)
    requires Stands(p, h, Proceed, items, fed, flushed) && h.state.SendServerFinished?
    ensures var r := DoSendServerFinished(p, h); Stands(p, r.0, r.1, next, fed, flushed)
  {
    var x, n := FinishedIsSaid(p, h, items, fed, flushed);
    FinishedFlags(p, h, items, x, n);
    next := items + [x] + [Some(Ccs)] + [Some(Msg(n))];
    MovesTo(p, DoSendServerFinished(p, h).0, Flush, next, fed, flushed);
  }

  // ---------- What the server hears ----------

  lemma ClientHelloFlags(p: Params, h: Handshake<ServerState>, items: seq<Place>, x: Place)
    requires Flags(p, h, items) && h.state.SelectParameters? && |items| == 0
    requires DoSelectParameters(p, h, false).1 == Proceed
    ensures Flags(p, DoSelectParameters(p, h, false).0, items + [x])
  {
    MarksStay(p, items, x);
  }

  lemma ClientHelloPlace(p: Params, h: Handshake<ServerState>, retry: bool, items: seq<Place>, fed: seq<Item>,
                         flushed: seq<Item>) returns (next: seq<Place>)
    requires Stands(p, h, Proceed, items, fed, flushed) && h.state.SelectParameters?
    ensures var r := DoSelectParameters(p, h, retry); Stands(p, r.0, r.1, next, fed, flushed)
  {
    next := items;
    if retry {
      Stays(p, h, Retry, items, fed, flushed);
    } else {
      FirstMay(p, true, items, Some(Msg(Peek(h))));
      next := HeardIf(p, true, h, items, fed, flushed, true);
      ClientHelloFlags(p, h, items, Some(Msg(Peek(h))));
      MovesTo(p, DoSelectParameters(p, h, false).0, Proceed, next, fed, flushed);
    }
  }

  lemma ClientCertificateFlags(p: Params, h: Handshake<ServerState>, items: seq<Place>)
    requires Flags(p, h, items) && h.state.ReadClientCertificate? && |items| == 7 && !p.resumed
    requires DoReadClientCertificate(p, h).1 == Proceed
    ensures Flags(p, DoReadClientCertificate(p, h).0, items + [if p.certRequest then Some(Msg(Peek(h))) else None])
  {
    MarksStay(p, items, if p.certRequest then Some(Msg(Peek(h))) else None);
  }

  lemma ClientCertificatePlace(p: Params, h: Handshake<ServerState>, items: seq<Place>, fed: seq<Item>,
                               flushed: seq<Item>) returns (next: seq<Place>)
    requires Stands(p, h, Proceed, items, fed, flushed) && h.state.ReadClientCertificate?
    ensures var r := DoReadClientCertificate(p, h); Stands(p, r.0, r.1, next, fed, flushed)
  {
    var r := DoReadClientCertificate(p, h);
    next := items;
    if r.1 == Proceed {
      FirstMay(p, true, items, if p.certRequest then Some(Msg(Peek(h))) else None);
      ClientCertificateFlags(p, h, items);
      next := HeardIf(p, true, h, items, fed, flushed, p.certRequest);
      MovesTo(p, r.0, Proceed, next, fed, flushed);
    } else {
      Stays(p, h, r.1, items, fed, flushed);
    }
  }

  lemma KeyFlags(p: Params, h: Handshake<ServerState>, items: seq<Place>, x: Place)
    requires Flags(p, h, items) && h.state.ReadClientKeyExchange? && |items| == 8 && !p.resumed
    requires DoReadClientKeyExchange(p, h, false).1 == Proceed
    requires DoReadClientKeyExchange(p, h, false).0.transcript == Messages(items + [x])
    ensures Flags(p, DoReadClientKeyExchange(p, h, false).0, items + [x])
  {
    MarksStay(p, items, x);
  }

  lemma KeyPlace(p: Params, h: Handshake<ServerState>, retry: bool, items: seq<Place>, fed: seq<Item>,
                 flushed: seq<Item>) returns (next: seq<Place>)
    requires Stands(p, h, Proceed, items, fed, flushed) && h.state.ReadClientKeyExchange?
    ensures var r := DoReadClientKeyExchange(p, h, retry); Stands(p, r.0, r.1, next, fed, flushed)
  {
    var r := DoReadClientKeyExchange(p, h, retry);
    next := items;
    if r.1 == Proceed {
      FirstMay(p, true, items, Some(Msg(Peek(h))));
      next := HeardIf(p, true, h, items, fed, flushed, true);
      AccountTells(p, true, Take(h), next, fed, flushed);
      KeyFlags(p, h, items, Some(Msg(Peek(h))));
      MovesTo(p, r.0, Proceed, next, fed, flushed);
    } else {
      Stays(p, h, r.1, items, fed, flushed);
    }
  }

  /** A client only gives a certificate if asked. */
  lemma CertificateWasAsked(p: Params, items: seq<Place>)
    requires Conversation(p, true, items) && GaveCertificate(p, items)
    ensures p.certRequest
  {
    ConversationBefore(p, true, items, 7);
  }

  lemma SignatureRefused(p: Params, h: Handshake<ServerState>, items: seq<Place>)
    requires Flags(p, h, items) && |items| == PlaceOf(p, h.state, Proceed) && h.transcript == Messages(items)
    requires Conversation(p, true, items) && h.state.ReadClientCertificateVerify?
    ensures FailsRightly(p, h, items, DoReadClientCertificateVerify(p, h).1)
  {
    if h.peerPubkey {
      CertificateWasAsked(p, items);
    }
  }

  lemma EarlyRefused(p: Params, h: Handshake<ServerState>, retry: bool, items: seq<Place>)
    requires Flags(p, h, items) && |items| == PlaceOf(p, h.state, Proceed)
    requires h.state.SelectParameters? || h.state.ReadClientCertificate? || h.state.ReadClientKeyExchange?
    requires h.state.SelectParameters? ==> Has(h) && KindOf(Peek(h)) == ClientHello
    ensures FailsRightly(p, h, items, ServerDo(p, h, retry).1)
  {
  }

  lemma LateRefused(p: Params, h: Handshake<ServerState>, retry: bool, items: seq<Place>)
    requires |items| == PlaceOf(p, h.state, Proceed) && h.transcript == Messages(items)
    requires h.state.ReadNextProto? || h.state.ReadChannelId? || h.state.ReadClientFinished?
    ensures FailsRightly(p, h, items, ServerDo(p, h, retry).1)
  {
    if Has(h) {
      LastIs(p, true, items, Some(Msg(Peek(h))),
             if h.state.ReadNextProto? then 1 else if h.state.ReadChannelId? then 2 else 3);
    }
  }

  /** A message that is refused may not be said in its place. */
  lemma RefusedRightly(p: Params, h: Handshake<ServerState>, retry: bool, items: seq<Place>, fed: seq<Item>,
                       flushed: seq<Item>)
    requires Stands(p, h, Proceed, items, fed, flushed)
    requires h.state.SelectParameters? || h.state.ReadClientCertificate? || h.state.ReadClientKeyExchange?
             || h.state.ReadClientCertificateVerify? || h.state.ReadNextProto? || h.state.ReadChannelId?
             || h.state.ReadClientFinished?
    ensures FailsRightly(p, h, items, ServerDo(p, h, retry).1)
  {
    AccountTells(p, true, h, items, fed, flushed);
    match h.state
    case SelectParameters | ReadClientCertificate | ReadClientKeyExchange => EarlyRefused(p, h, retry, items);
    case ReadClientCertificateVerify => SignatureRefused(p, h, items);
    case _ => LateRefused(p, h, retry, items);
  }

  lemma SignatureFlags(p: Params, h: Handshake<ServerState>, items: seq<Place>)
    requires Flags(p, h, items) && h.state.ReadClientCertificateVerify? && |items| == 9 && !p.resumed
    requires DoReadClientCertificateVerify(p, h).1 == Proceed
    ensures Flags(p, DoReadClientCertificateVerify(p, h).0,
                  items + [if h.peerPubkey then Some(Msg(Peek(h))) else None])
  {
    MarksStay(p, items, if h.peerPubkey then Some(Msg(Peek(h))) else None);
  }

  lemma SignaturePlace(p: Params, h: Handshake<ServerState>, items: seq<Place>, fed: seq<Item>, flushed: seq<Item>)
    returns (next: seq<Place>)
    requires Stands(p, h, Proceed, items, fed, flushed) && h.state.ReadClientCertificateVerify?
    ensures var r := DoReadClientCertificateVerify(p, h); Stands(p, r.0, r.1, next, fed, flushed)
  {
    var r := DoReadClientCertificateVerify(p, h);
    next := items;
    if r.1 == Proceed {
      AccountTells(p, true, h, items, fed, flushed);
      FirstMay(p, true, items, if h.peerPubkey then Some(Msg(Peek(h))) else None);
      SignatureFlags(p, h, items);
      next := HeardIf(p, true, h, items, fed, flushed, h.peerPubkey);
      MovesTo(p, r.0, Proceed, next, fed, flushed);
    } else {
      Stays(p, h, r.1, items, fed, flushed);
    }
  }

  /** Between the ChangeCipherSpec and the Finished nothing more is learned. */
  lemma FlagsStay(p: Params, h: Handshake<ServerState>, s: ServerState, items: seq<Place>, x: Place)
    requires Flags(p, h, items) && ClientCcsAt(p) < |items| < ClientFinishedAt(p)
    requires (h.state.ReadNextProto? && s.ReadChannelId?) || (h.state.ReadChannelId? && s.ReadClientFinished?)
    ensures Flags(p, h.(state := s), items + [x])
    ensures Has(h) ==> Flags(p, Take(h).(state := s), items + [x])
  {
    MarksStay(p, items, x);
  }

  lemma NextProtoPlace(p: Params, h: Handshake<ServerState>, items: seq<Place>, fed: seq<Item>, flushed: seq<Item>)
    returns (next: seq<Place>)
    requires Stands(p, h, Proceed, items, fed, flushed) && h.state.ReadNextProto?
    ensures var r := DoReadNextProto(p, h); Stands(p, r.0, r.1, next, fed, flushed)
  {
    var r := DoReadNextProto(p, h);
    next := items;
    if r.1 == Proceed {
      var x := if p.npn then Some(Msg(Peek(h))) else None;
      LastMay(p, true, items, x, 1);
      FlagsStay(p, h, ReadChannelId, items, x);
      next := HeardIf(p, true, h, items, fed, flushed, p.npn);
      MovesTo(p, r.0, Proceed, next, fed, flushed);
    } else {
      Stays(p, h, r.1, items, fed, flushed);
    }
  }

  lemma ChannelIdPlace(p: Params, h: Handshake<ServerState>, items: seq<Place>, fed: seq<Item>, flushed: seq<Item>)
    returns (next: seq<Place>)
    requires Stands(p, h, Proceed, items, fed, flushed) && h.state.ReadChannelId?
    ensures var r := DoReadChannelId(p, h); Stands(p, r.0, r.1, next, fed, flushed)
  {
    var r := DoReadChannelId(p, h);
    next := items;
    if r.1 == Proceed {
      var x := if p.channelId then Some(Msg(Peek(h))) else None;
      AccountTells(p, true, h, items, fed, flushed);
      LastMay(p, true, items, x, 2);
      FlagsStay(p, h, ReadClientFinished, items, x);
      next := HeardIf(p, true, h, items, fed, flushed, p.channelId);
      MovesTo(p, r.0, Proceed, next, fed, flushed);
    } else {
      Stays(p, h, r.1, items, fed, flushed);
    }
  }

  lemma ClientFinishedFlags(p: Params, h: Handshake<ServerState>, items: seq<Place>, x: Place)
    requires Flags(p, h, items) && h.state.ReadClientFinished? && |items| == ClientFinishedAt(p)
    requires DoReadClientFinished(p, h).1 == Proceed && h.transcript == Messages(items)
    ensures Flags(p, DoReadClientFinished(p, h).0, items + [x])
  {
    MarksStay(p, items, x);
  }

  lemma ClientFinishedPlace(p: Params, h: Handshake<ServerState>, items: seq<Place>, fed: seq<Item>, flushed: seq<Item>)
    returns (next: seq<Place>)
    requires Stands(p, h, Proceed, items, fed, flushed) && h.state.ReadClientFinished?
    ensures var r := DoReadClientFinished(p, h); Stands(p, r.0, r.1, next, fed, flushed)
  {
    var r := DoReadClientFinished(p, h);
    next := items;
    if r.1 == Proceed {
      AccountTells(p, true, h, items, fed, flushed);
      LastMay(p, true, items, Some(Msg(Peek(h))), 3);
      ClientFinishedFlags(p, h, items, Some(Msg(Peek(h))));
      next := HeardIf(p, true, h, items, fed, flushed, true);
      MovesTo(p, r.0, Proceed, next, fed, flushed);
    } else {
      Stays(p, h, r.1, items, fed, flushed);
    }
  }

  /** The passes that neither say nor hear anything. */
  lemma FirstPass(p: Params, h: Handshake<ServerState>, retry: bool, items: seq<Place>, fed: seq<Item>,
                  flushed: seq<Item>)
    requires Stands(p, h, Proceed, items, fed, flushed)
    requires h.state.StartAccept? || h.state.ReadClientHello? || h.state.SelectCertificate?
    ensures var r := ServerDo(p, h, retry); Stands(p, r.0, r.1, items, fed, flushed)
    ensures FailsRightly(p, h, items, ServerDo(p, h, retry).1)
  {
  }

  lemma CcsPass(p: Params, h: Handshake<ServerState>, retry: bool, items: seq<Place>, fed: seq<Item>,
                flushed: seq<Item>)
    requires Stands(p, h, Proceed, items, fed, flushed)
    requires h.state.AwaitChangeCipherSpec? || h.state.ProcessChangeCipherSpec?
    ensures var r := ServerDo(p, h, retry); Stands(p, r.0, r.1, items, fed, flushed) && r.1 != Error
  {
  }

  lemma LastPass(p: Params, h: Handshake<ServerState>, retry: bool, items: seq<Place>, fed: seq<Item>,
                 flushed: seq<Item>)
    requires Stands(p, h, Proceed, items, fed, flushed)
    requires h.state.VerifyClientCertificate? || h.state.FinishServerHandshake? || h.state.Done?
    ensures var r := ServerDo(p, h, retry); Stands(p, r.0, r.1, items, fed, flushed) && r.1 != Error
  {
  }

  // ---------- Passes and rounds ----------

  lemma SaidPass(p: Params, h: Handshake<ServerState>, retry: bool, items: seq<Place>, fed: seq<Item>,
                 flushed: seq<Item>) returns (next: seq<Place>)
    requires Stands(p, h, Proceed, items, fed, flushed)
    requires h.state.SendServerHello? || h.state.SendServerCertificate? || h.state.SendServerKeyExchange?
             || h.state.SendServerHelloDone? || h.state.SendServerFinished?
    ensures var r := ServerDo(p, h, retry); Stands(p, r.0, r.1, next, fed, flushed) && r.1 != Error
  {
    match h.state
    case SendServerHello => next := HelloPlace(p, h, items, fed, flushed);
    case SendServerCertificate => next := CertificatePlaces(p, h, items, fed, flushed);
    case SendServerKeyExchange => next := KeyExchangePlace(p, h, retry, items, fed, flushed);
    case SendServerHelloDone => next := HelloDonePlaces(p, h, items, fed, flushed);
    case _ => next := FinishedPlaces(p, h, items, fed, flushed);
  }

  lemma HeardPass(p: Params, h: Handshake<ServerState>, retry: bool, items: seq<Place>, fed: seq<Item>,
                  flushed: seq<Item>) returns (next: seq<Place>)
    requires Stands(p, h, Proceed, items, fed, flushed)
    requires h.state.SelectParameters? || h.state.ReadClientCertificate? || h.state.ReadClientKeyExchange?
             || h.state.ReadClientCertificateVerify? || h.state.ReadNextProto? || h.state.ReadChannelId?
             || h.state.ReadClientFinished?
    ensures var r := ServerDo(p, h, retry); Stands(p, r.0, r.1, next, fed, flushed)
  {
    match h.state
    case SelectParameters => next := ClientHelloPlace(p, h, retry, items, fed, flushed);
    case ReadClientCertificate => next := ClientCertificatePlace(p, h, items, fed, flushed);
    case ReadClientKeyExchange => next := KeyPlace(p, h, retry, items, fed, flushed);
    case ReadClientCertificateVerify => next := SignaturePlace(p, h, items, fed, flushed);
    case ReadNextProto => next := NextProtoPlace(p, h, items, fed, flushed);
    case ReadChannelId => next := ChannelIdPlace(p, h, items, fed, flushed);
    case _ => next := ClientFinishedPlace(p, h, items, fed, flushed);
  }

  /** Whatever the client sends, a pass of the server keeps its account, and fails only if the client says what it may
      not say. */
  lemma PassRecounted(p: Params, h: Handshake<ServerState>, retry: bool, items: seq<Place>, fed: seq<Item>,
                      flushed: seq<Item>) returns (next: seq<Place>)
    requires Stands(p, h, Proceed, items, fed, flushed)
    ensures var r := ServerDo(p, h, retry); Stands(p, r.0, r.1, next, fed, flushed)
    ensures FailsRightly(p, h, items, ServerDo(p, h, retry).1)
  {
    match h.state
    case SendServerHello | SendServerCertificate | SendServerKeyExchange | SendServerHelloDone | SendServerFinished =>
      next := SaidPass(p, h, retry, items, fed, flushed);
    case SelectParameters | ReadClientCertificate | ReadClientKeyExchange | ReadClientCertificateVerify | ReadNextProto
       | ReadChannelId | ReadClientFinished =>
      next := HeardPass(p, h, retry, items, fed, flushed);
      RefusedRightly(p, h, retry, items, fed, flushed);
    case StartAccept | ReadClientHello | SelectCertificate =>
      next := items;
      FirstPass(p, h, retry, items, fed, flushed);
    case AwaitChangeCipherSpec | ProcessChangeCipherSpec =>
      next := items;
      CcsPass(p, h, retry, items, fed, flushed);
    case _ =>
      next := items;
      LastPass(p, h, retry, items, fed, flushed);
  }

  /** More may arrive at any time. */
  lemma MoreArrives(p: Params, h: Handshake<ServerState>, w: Wait, items: seq<Place>, fed: seq<Item>,
                    flushed: seq<Item>,
                    arrived: seq<Item>)
    requires Stands(p, h, w, items, fed, flushed)
    ensures Stands(p, h.(inbox := h.inbox + arrived), w, items, fed + arrived, flushed)
  {
    HearsMore(p, true, h, items, fed, flushed, arrived);
  }

  lemma FlightIsFlushed(p: Params, h: Handshake<ServerState>, items: seq<Place>, fed: seq<Item>, flushed: seq<Item>)
    requires Stands(p, h, Flush, items, fed, flushed)
    ensures Stands(p, h.(flight := []), Proceed, items, fed, flushed + h.flight)
  {
    Flushes(p, true, h, items, fed, flushed);
  }

  /** A ChangeCipherSpec may not stand where a message is read. */
  lemma MessageWait(p: Params, h: Handshake<ServerState>, items: seq<Place>, fed: seq<Item>, flushed: seq<Item>)
    requires Stands(p, h, ReadMessage, items, fed, flushed)
    ensures Stands(p, h, Resolve(h, ReadMessage).1, items, fed, flushed)
    ensures h.inbox != [] && h.inbox[0].Ccs? ==> !Allowed(p, true, items, Some(Ccs))
  {
  }

  lemma CcsWait(p: Params, h: Handshake<ServerState>, items: seq<Place>, fed: seq<Item>, flushed: seq<Item>)
    requires Stands(p, h, ReadChangeCipherSpec, items, fed, flushed) && h.inbox != [] && h.inbox[0].Ccs?
    ensures Stands(p, h.(inbox := h.inbox[1..]), Proceed, items + [Some(Ccs)], fed, flushed)
  {
    LastMay(p, true, items, Some(Ccs), 0);
    Hears(p, true, h, h.(inbox := h.inbox[1..]), items, Ccs, fed, flushed);
    MarksStay(p, items, Some(Ccs));
  }

  /** A round of the driver keeps the account too, and fails exactly if a record of the wrong kind is at the front. */
  lemma WaitRecounted(p: Params, h: Handshake<ServerState>, w: Wait, items: seq<Place>, fed: seq<Item>,
                      flushed: seq<Item>) returns (next: seq<Place>)
    requires Stands(p, h, w, items, fed, flushed) && w != Proceed
    ensures var r := Resolve(h, w); Stands(p, r.0, r.1, next, fed, flushed + r.2)
    ensures Resolve(h, w).1 == Error && w != Error ==>
              next == items && h.inbox != [] && !Allowed(p, true, items, Some(h.inbox[0]))
    ensures (w == ReadMessage || w == ReadChangeCipherSpec) && h.inbox != [] ==>
              (Resolve(h, w).1 == Error <==> h.inbox[0].Ccs? == w.ReadMessage?)
  {
    next := items;
    assert flushed + [] == flushed;
    match w
    case Flush => FlightIsFlushed(p, h, items, fed, flushed);
    case ReadMessage => MessageWait(p, h, items, fed, flushed);
    case ReadChangeCipherSpec =>
      if h.inbox != [] && h.inbox[0].Ccs? {
        CcsWait(p, h, items, fed, flushed);
        next := items + [Some(Ccs)];
      }
    case _ =>
  }

  // ---------- Whole runs ----------

  /** A server that has failed is stuck at something that may not be said in this place. */
  ghost predicate Stuck(p: Params, h: Handshake<ServerState>, items: seq<Place>) {
    h.inbox != [] && !Allowed(p, true, items, Some(h.inbox[0]))
  }

  lemma FailsInPlace(p: Params, h: Handshake<ServerState>, retry: bool)
    requires ServerDo(p, h, retry).1 == Error
    ensures ServerDo(p, h, retry).0 == h && !h.state.ProcessChangeCipherSpec? && !h.state.Done?
  {
    if !h.state.Done? && !h.state.ProcessChangeCipherSpec? {
      assert Regular(p, h, ServerDo(p, h, retry));
    }
  }

  lemma PassInRound(p: Params, h: Handshake<ServerState>, retry: bool, items: seq<Place>, fed: seq<Item>,
                    flushed: seq<Item>) returns (next: seq<Place>)
    requires Stands(p, h, Proceed, items, fed, flushed)
    ensures var r := ServerDo(p, h, retry);
            Stands(p, r.0, r.1, next, fed, flushed) && (r.1 == Error ==> Stuck(p, r.0, next))
  {
    next := PassRecounted(p, h, retry, items, fed, flushed);
    if ServerDo(p, h, retry).1 == Error {
      FailsInPlace(p, h, retry);
      Stays(p, h, Error, items, fed, flushed);
      next := items;
    }
  }

  lemma WaitInRound(p: Params, h: Handshake<ServerState>, w: Wait, items: seq<Place>, fed: seq<Item>,
                    flushed: seq<Item>) returns (next: seq<Place>)
    requires Stands(p, h, w, items, fed, flushed) && w != Proceed && (w == Error ==> Stuck(p, h, items))
    ensures var r := Resolve(h, w);
            Stands(p, r.0, r.1, next, fed, flushed + r.2) && (r.1 == Error ==> Stuck(p, r.0, next))
  {
    if w == Error {
      next := items;
      assert flushed + [] == flushed;
    } else {
      next := WaitRecounted(p, h, w, items, fed, flushed);
    }
  }

  lemma RoundRecounted(p: Params, pass: Pass<ServerState>, h: Handshake<ServerState>, w: Wait, items: seq<Place>,
                       fed: seq<Item>, flushed: seq<Item>, input: Input) returns (next: seq<Place>)
    requires IsServer(p, pass) && Stands(p, h, w, items, fed, flushed) && (w == Error ==> Stuck(p, h, items))
    ensures var r := Round(pass, h, w, input);
            Stands(p, r.0, r.1, next, fed + input.arrived, flushed + r.2)
            && (r.1 == Error ==> Stuck(p, r.0, next))
  {
    var g := h.(inbox := h.inbox + input.arrived);
    MoreArrives(p, h, w, items, fed, flushed, input.arrived);
    if w == Proceed {
      assert IsPassOfServer(p, pass, g, input.retry) && flushed + [] == flushed;
      next := PassInRound(p, g, input.retry, items, fed + input.arrived, flushed);
    } else {
      next := WaitInRound(p, g, w, items, fed + input.arrived, flushed);
    }
  }

  /** Whatever the client sends, and in whatever pieces, a server has an account of its handshake: what it took from the
      client and what it said itself stand in their places, and it fails only at what may not be said. */
  lemma {:induction false} ServerAccounts(p: Params, pass: Pass<ServerState>, inputs: seq<Input>)
    returns (items: seq<Place>)
    requires IsServer(p, pass)
    ensures var r := Rounds(pass, Begin(StartAccept), Proceed, inputs);
            Stands(p, r.0, r.1, items, Fed(inputs), r.2) && (r.1 == Error ==> Stuck(p, r.0, items))
  {
    if inputs == [] {
      items := [];
      assert Conversation(p, true, items);
    } else {
      var before := inputs[..|inputs| - 1];
      var r := Rounds(pass, Begin(StartAccept), Proceed, before);
      var said := ServerAccounts(p, pass, before);
      items := RoundRecounted(p, pass, r.0, r.1, said, Fed(before), r.2, inputs[|inputs| - 1]);
    }
  }

  // ---------- What a server has checked ----------

  /** A message stands in the transcript right behind a part of it that it is a signature over. */
  predicate SignedBehind(kind: Kind, tr: seq<Message>, transcript: seq<Message>) {
    tr + [Signed(kind, tr)] <= transcript
  }

  lemma SignatureStands(p: Params, items: seq<Place>) returns (tr: seq<Message>)
    requires Conversation(p, true, items) && |items| > 9 && GaveCertificate(p, items)
    ensures tr != [] && KindOf(tr[|tr| - 1]) == ClientKeyExchange
    ensures SignedBehind(CertificateVerify, tr, Messages(items))
  {
    tr := Messages(items[..9]);
    ConversationBefore(p, true, items, 8);
    ConversationBefore(p, true, items, 9);
    assert items[..9][..8] == items[..8];
    assert GaveCertificate(p, items[..9]);
    SaidInPlace(items, 9, Signed(CertificateVerify, tr));
  }

  lemma ChannelIdStands(p: Params, items: seq<Place>) returns (tr: seq<Message>)
    requires Conversation(p, true, items) && |items| > ClientCcsAt(p) + 2 && p.channelId
    ensures SignedBehind(ChannelId, tr, Messages(items))
  {
    var n := ClientCcsAt(p) + 2;
    tr := Messages(items[..n]);
    ConversationBefore(p, true, items, n);
    LastIs(p, true, items[..n], items[n], 2);
    SaidInPlace(items, n, Signed(ChannelId, tr));
  }

  lemma PastTheSignature(p: Params, s: ServerState, w: Wait)
    requires OnPath(p.resumed, s) && Rank(p.resumed, s) < Rank(p.resumed, ReadClientCertificateVerify)
    ensures !p.resumed ==> PlaceOf(p, s, w) > 9
  {
  }

  lemma PastTheChannelId(p: Params, s: ServerState, w: Wait)
    requires OnPath(p.resumed, s) && Rank(p.resumed, s) < Rank(p.resumed, ReadChannelId)
    ensures PlaceOf(p, s, w) > ClientCcsAt(p) + 2
  {
  }

  /** Whatever the client sends, a server that has its certificate and is past the CertificateVerify has checked a
      signature over all that was said up to the ClientKeyExchange. */
  lemma SignatureWasChecked(p: Params, pass: Pass<ServerState>, inputs: seq<Input>, h: Handshake<ServerState>)
    returns (tr: seq<Message>)
    requires IsServer(p, pass) && h == Rounds(pass, Begin(StartAccept), Proceed, inputs).0
    requires h.peerPubkey && Rank(p.resumed, h.state) < Rank(p.resumed, ReadClientCertificateVerify)
    ensures tr != [] && KindOf(tr[|tr| - 1]) == ClientKeyExchange
    ensures SignedBehind(CertificateVerify, tr, h.transcript)
  {
    var items := ServerAccounts(p, pass, inputs);
    var r := Rounds(pass, Begin(StartAccept), Proceed, inputs);
    AccountTells(p, true, h, items, Fed(inputs), r.2);
    PastTheSignature(p, h.state, r.1);
    tr := SignatureStands(p, items);
  }

  /** The same of the channel ID, if it was negotiated. */
  lemma ChannelIdWasChecked(p: Params, pass: Pass<ServerState>, inputs: seq<Input>, h: Handshake<ServerState>)
    returns (tr: seq<Message>)
    requires IsServer(p, pass) && h == Rounds(pass, Begin(StartAccept), Proceed, inputs).0
    requires p.channelId && Rank(p.resumed, h.state) < Rank(p.resumed, ReadChannelId)
    ensures SignedBehind(ChannelId, tr, h.transcript)
  {
    var items := ServerAccounts(p, pass, inputs);
    var r := Rounds(pass, Begin(StartAccept), Proceed, inputs);
    AccountTells(p, true, h, items, Fed(inputs), r.2);
    PastTheChannelId(p, h.state, r.1);
    tr := ChannelIdStands(p, items);
  }

  /** A server that is done has the whole conversation behind it, and has sent all that it said. */
  lemma ServerDoneHasSaidAll(p: Params, pass: Pass<ServerState>, inputs: seq<Input>, h: Handshake<ServerState>)
    returns (items: seq<Place>)
    requires IsServer(p, pass) && h == Rounds(pass, Begin(StartAccept), Proceed, inputs).0 && h.state.Done?
    ensures Conversation(p, true, items) && |items| == End(p) && h.transcript == Messages(items)
    ensures Spoken(p.resumed, false, items) + h.inbox == Fed(inputs)
    ensures Spoken(p.resumed, true, items) == Rounds(pass, Begin(StartAccept), Proceed, inputs).2
    ensures h.peerPubkey == GaveCertificate(p, items)
  {
    items := ServerAccounts(p, pass, inputs);
    var r := Rounds(pass, Begin(StartAccept), Proceed, inputs);
    assert r.2 + [] == r.2;
    AccountTells(p, true, h, items, Fed(inputs), r.2);
  }

  /** And it has checked each signature that was due; one that insists on a certificate has it. */
  lemma ServerDoneHasChecked(p: Params, pass: Pass<ServerState>, inputs: seq<Input>, h: Handshake<ServerState>)
    returns (signed: seq<Message>, bound: seq<Message>)
    requires IsServer(p, pass) && h == Rounds(pass, Begin(StartAccept), Proceed, inputs).0 && h.state.Done?
    ensures h.peerPubkey ==> SignedBehind(CertificateVerify, signed, h.transcript)
    ensures p.channelId ==> SignedBehind(ChannelId, bound, h.transcript)
    ensures !p.resumed && p.certRequest && p.failIfNoCert ==> h.peerPubkey
  {
    var items := ServerDoneHasSaidAll(p, pass, inputs, h);
    signed, bound := [], [];
    if h.peerPubkey {
      signed := SignatureStands(p, items);
    }
    if p.channelId {
      bound := ChannelIdStands(p, items);
    }
    if !p.resumed {
      ConversationBefore(p, true, items, 7);
    }
  }

  /** An unfinished operation holds the server where it is, and changes nothing. */
  lemma HeldUp(p: Params, h: Handshake<ServerState>)
    ensures ServerDo(p, h, true) == (h, Retry) || ServerDo(p, h, true) == ServerDo(p, h, false)
    ensures ServerDo(p, h, false).1 != Retry
  {
  }

  /** Such operations are the choice of a certificate and of the parameters, the signature under the server's key, the
      check of the client's certificate and the decryption of its key. */
  lemma HeldUpExactly(p: Params, h: Handshake<ServerState>)
    ensures ServerDo(p, h, true).1 == Retry <==>
              match h.state
              case SelectCertificate | SelectParameters => Has(h)
              case SendServerKeyExchange => p.certAuth && (p.ecdhe || p.pskHint)
              case VerifyClientCertificate => h.peerPubkey
              case ReadClientKeyExchange => Has(h) && KindOf(Peek(h)) == ClientKeyExchange
              case _ => false
  {
    match h.state
    case SelectCertificate | SelectParameters | VerifyClientCertificate =>
    case SendServerKeyExchange | ReadClientKeyExchange =>
    case StartAccept | ReadClientHello | SendServerHello | SendServerCertificate | SendServerHelloDone =>
    case ReadClientCertificate | ReadClientCertificateVerify | AwaitChangeCipherSpec | ProcessChangeCipherSpec =>
    case ReadNextProto | ReadChannelId | ReadClientFinished =>
    case SendServerFinished | FinishServerHandshake | Done =>
  }
}

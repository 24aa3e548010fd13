/** A client's account of its handshake, whatever the server sends: what it lets be said, says itself and checks. */
module TlsClientAccount {
  import opened Bytes
  import opened TlsAccount
  import opened TlsAnyPeer
  import opened TlsClient
  import opened TlsHandshake
  import opened TlsRounds

  /** The place of the conversation that a state is about. */
  function PlaceOf(p: Params, s: ClientState, w: Wait): nat {
    match s
    case StartConnect => 0
    case EnterEarlyData | ReadServerHello => 1
    case ReadServerCertificate => 2
    case ReadCertificateStatus => 3
    case VerifyServerCertificate | ReadServerKeyExchange => 4
    case ReadCertificateRequest => 5
    case ReadServerHelloDone => 6
    case SendClientCertificate => 7
    case SendClientKeyExchange => 8
    case SendClientCertificateVerify => 9
    case SendClientFinished => ClientCcsAt(p)
    case FinishFlight => ClientFinishedAt(p) + 1
    case ReadSessionTicket => ServerCcsAt(p) - 1
    case ProcessChangeCipherSpec => if w == Proceed then ServerCcsAt(p) + 1 else ServerCcsAt(p)
    case ReadServerFinished => ServerFinishedAt(p)
    case FinishClientHandshake | Done => End(p)
  }

  ghost predicate Flags(p: Params, h: Handshake<ClientState>, items: seq<Place>) {
    && OnPath(p.resumed, h.state)
    && h.certRequest == Requested(p, items) && h.buffered == MaySign(p, items)
    && Knows(p, false, h, items, h.state.ProcessChangeCipherSpec?)
  }

  /** Where the client stands: its account, the place it is in and what it knows. What it has said is flushed wherever
      it waits for the server. */
  ghost predicate Stands(p: Params, h: Handshake<ClientState>, w: Wait, items: seq<Place>, fed: seq<Item>,
                         flushed: seq<Item>)
  {
    && Account(p, false, h, items, fed, flushed) && |items| == PlaceOf(p, h.state, w) && Flags(p, h, items)
    && (w == ReadMessage ==> Reads(p, h)) && (w == ReadChangeCipherSpec ==> h.state.ProcessChangeCipherSpec?)
    && (h.state.ProcessChangeCipherSpec? ==> w == Proceed || w == ReadChangeCipherSpec || w == Error)
    && (h.flight != [] ==> w == Flush || Gathers(h.state))
    && (w == EarlyReturn ==> p.falseStart && !p.resumed && h.state.ReadSessionTicket?)
    && (h.state.Done? ==> w == Proceed)
  }

  /** A flight is under way. */
  predicate Gathers(s: ClientState) {
    s.SendClientKeyExchange? || s.SendClientCertificateVerify? || s.SendClientFinished?
  }

  /** What is to be shown of a pass that goes on. */
  lemma MovesTo(p: Params, g: Handshake<ClientState>, w: Wait, items: seq<Place>, fed: seq<Item>, flushed: seq<Item>)
    requires Account(p, false, g, items, fed, flushed) && Flags(p, g, items)
    requires |items| == PlaceOf(p, g.state, w) && !g.state.Done?
    requires if g.state.ProcessChangeCipherSpec? then w == ReadChangeCipherSpec && g.flight == []
             else w == Flush || (w == Proceed && (g.flight == [] || Gathers(g.state)))
    ensures Stands(p, g, w, items, fed, flushed)
  {
  }

  /** And of one that stays, to wait or because it fails. */
  lemma Stays(p: Params, h: Handshake<ClientState>, w: Wait, items: seq<Place>, fed: seq<Item>, flushed: seq<Item>)
    requires Stands(p, h, Proceed, items, fed, flushed) && !h.state.ProcessChangeCipherSpec? && !h.state.Done?
    requires w == Retry || w == Error || (w == ReadMessage && Reads(p, h))
    ensures Stands(p, h, w, items, fed, flushed)
  {
  }

  // ---------- What the client says ----------

  lemma HelloFlags(p: Params, h: Handshake<ClientState>, items: seq<Place>, x: Place)
    requires Flags(p, h, items) && h.state.StartConnect? && |items| == 0
    ensures Flags(p, DoStartConnect(p, h).0, items + [x])
  {
    MarksStay(p, items, x);
  }

  lemma HelloPlace(p: Params, h: Handshake<ClientState>, items: seq<Place>, fed: seq<Item>, flushed: seq<Item>)
    returns (next: seq<Place>)
    requires Stands(p, h, Proceed, items, fed, flushed) && h.state.StartConnect?
    ensures var r := DoStartConnect(p, h); Stands(p, r.0, r.1, next, fed, flushed)
  {
    var m := Plain(ClientHello, p.content(ClientHello, false));
    FirstMay(p, false, items, Some(Msg(m)));
    Says(p, false, h, Send(h, m), items, Msg(m), fed, flushed);
    next := items + [Some(Msg(m))];
    HelloFlags(p, h, items, Some(Msg(m)));
    MovesTo(p, DoStartConnect(p, h).0, Flush, next, fed, flushed);
  }

  lemma CertificateFlags(p: Params, h: Handshake<ClientState>, items: seq<Place>, x: Place)
    requires Flags(p, h, items) && h.state.SendClientCertificate? && |items| == 7 && !p.resumed
    ensures Flags(p, DoSendClientCertificate(p, h, false).0, items + [x])
  {
    MarksStay(p, items, x);
  }

  lemma CertificatePlace(p: Params, h: Handshake<ClientState>, retry: bool, items: seq<Place>, fed: seq<Item>,
                         flushed: seq<Item>) returns (next: seq<Place>)
    requires Stands(p, h, Proceed, items, fed, flushed) && h.state.SendClientCertificate?
    ensures var r := DoSendClientCertificate(p, h, retry); Stands(p, r.0, r.1, next, fed, flushed)
  {
    next := items;
    if h.certRequest && retry {
      Stays(p, h, Retry, items, fed, flushed);
    } else {
      var m := Plain(Certificate, p.content(Certificate, false));
      var x := if h.certRequest then Some(Msg(m)) else None;
      FirstMay(p, false, items, x);
      next := SaysIf(p, false, h, items, fed, flushed, h.certRequest, m);
      CertificateFlags(p, h, items, x);
      MovesTo(p, DoSendClientCertificate(p, h, false).0, Proceed, next, fed, flushed);
    }
  }

  lemma KeyFlags(p: Params, h: Handshake<ClientState>, items: seq<Place>, x: Place)
    requires Flags(p, h, items) && h.state.SendClientKeyExchange? && |items| == 8 && !p.resumed
    requires DoSendClientKeyExchange(p, h).0.transcript == Messages(items + [x])
    ensures Flags(p, DoSendClientKeyExchange(p, h).0, items + [x])
  {
    MarksStay(p, items, x);
  }

  lemma KeyPlace(p: Params, h: Handshake<ClientState>, items: seq<Place>, fed: seq<Item>, flushed: seq<Item>)
    returns (next: seq<Place>)
    requires Stands(p, h, Proceed, items, fed, flushed) && h.state.SendClientKeyExchange?
    ensures var r := DoSendClientKeyExchange(p, h); Stands(p, r.0, r.1, next, fed, flushed)
  {
    var m := Plain(ClientKeyExchange, p.content(ClientKeyExchange, false));
    FirstMay(p, false, items, Some(Msg(m)));
    Says(p, false, h, Send(h, m), items, Msg(m), fed, flushed);
    next := items + [Some(Msg(m))];
    AccountTells(p, false, Send(h, m), next, fed, flushed);
    KeyFlags(p, h, items, Some(Msg(m)));
    MovesTo(p, DoSendClientKeyExchange(p, h).0, Proceed, next, fed, flushed);
  }

  /** Only a server with a certificate asks for one. */
  lemma CertificateWasAsked(p: Params, items: seq<Place>)
    requires Conversation(p, false, items) && Requested(p, items)
    ensures p.certAuth
  {
    ConversationBefore(p, false, items, 5);
  }

  lemma SignatureFlags(p: Params, h: Handshake<ClientState>, items: seq<Place>, x: Place)
    requires Flags(p, h, items) && h.state.SendClientCertificateVerify? && |items| == 9 && !p.resumed
    requires Requested(p, items) ==> p.certAuth
    ensures var r := DoSendClientCertificateVerify(p, h, false); r.1 == Proceed && Flags(p, r.0, items + [x])
  {
    MarksStay(p, items, x);
  }

  lemma SignaturePlace(p: Params, h: Handshake<ClientState>, retry: bool, items: seq<Place>, fed: seq<Item>,
                       flushed: seq<Item>) returns (next: seq<Place>)
    requires Stands(p, h, Proceed, items, fed, flushed) && h.state.SendClientCertificateVerify?
    ensures var r := DoSendClientCertificateVerify(p, h, retry);
            Stands(p, r.0, r.1, next, fed, flushed) && r.1 != Error
  {
    next := items;
    var asked := h.certRequest && p.clientHasCert;
    if asked && retry {
      Stays(p, h, Retry, items, fed, flushed);
    } else {
      if h.certRequest {
        CertificateWasAsked(p, items);
      }
      var m := Signed(CertificateVerify, h.transcript);
      var x := if asked then Some(Msg(m)) else None;
      AccountTells(p, false, h, items, fed, flushed);
      FirstMay(p, false, items, x);
      next := SaysIf(p, false, h, items, fed, flushed, asked, m);
      SignatureFlags(p, h, items, x);
      MovesTo(p, DoSendClientCertificateVerify(p, h, false).0, Proceed, next, fed, flushed);
    }
  }

  /** The ChangeCipherSpec, then the chosen protocol and the channel ID. */
  lemma LastIsSaid(p: Params, h: Handshake<ClientState>, items: seq<Place>, fed: seq<Item>, flushed: seq<Item>)
    returns (x: Place, y: Place)
    requires Account(p, false, h, items, fed, flushed) && |items| == ClientCcsAt(p)
    ensures Account(p, false, LastMessages(p, h), items + [Some(Ccs)] + [x] + [y], fed, flushed)
  {
    var a, m := SendCcs(h), Plain(NextProto, p.content(NextProto, false));
    var b := if p.npn then Send(a, m) else a;
    var n := Signed(ChannelId, b.transcript);
    x := if p.npn then Some(Msg(m)) else None;
    y := if p.channelId then Some(Msg(n)) else None;
    LastMay(p, false, items, Some(Ccs), 0);
    Says(p, false, h, a, items, Ccs, fed, flushed);
    LastMay(p, false, items + [Some(Ccs)], x, 1);
    var said := SaysIf(p, false, a, items + [Some(Ccs)], fed, flushed, p.npn, m);
    AccountTells(p, false, b, said, fed, flushed);
    LastMay(p, false, said, y, 2);
    var last := SaysIf(p, false, b, said, fed, flushed, p.channelId, n);
  }

  lemma FinishedIsSaid(p: Params, h: Handshake<ClientState>, items: seq<Place>, fed: seq<Item>, flushed: seq<Item>)
    returns (x: Place, y: Place, n: Message)
    requires Account(p, false, h, items, fed, flushed) && |items| == ClientCcsAt(p)
    requires h.state.SendClientFinished?
    ensures LastMessages(p, h).transcript == Messages(items + [Some(Ccs)] + [x] + [y])
    ensures Account(p, false, DoSendClientFinished(p, h, false).0, items + [Some(Ccs)] + [x] + [y] + [Some(Msg(n))],
                    fed, flushed)
  {
    x, y := LastIsSaid(p, h, items, fed, flushed);
    var g, said := LastMessages(p, h), items + [Some(Ccs)] + [x] + [y];
    n := Finished(false, g.transcript);
    AccountTells(p, false, g, said, fed, flushed);
    LastMay(p, false, said, Some(Msg(n)), 3);
    Says(p, false, g, SendFinished(g, false), said, Msg(n), fed, flushed);
  }

  lemma FinishedFlags(p: Params, h: Handshake<ClientState>, items: seq<Place>, x: Place, y: Place, n: Message)
    requires Flags(p, h, items) && h.state.SendClientFinished? && |items| == ClientCcsAt(p)
    requires LastMessages(p, h).transcript == Messages(items + [Some(Ccs)] + [x] + [y])
    ensures Flags(p, DoSendClientFinished(p, h, false).0, items + [Some(Ccs)] + [x] + [y] + [Some(Msg(n))])
  {
    MarksStay(p, items, Some(Ccs));
    MarksStay(p, items + [Some(Ccs)], x);
    MarksStay(p, items + [Some(Ccs)] + [x], y);
    MarksStay(p, items + [Some(Ccs)] + [x] + [y], Some(Msg(n)));
  }

  lemma FinishedPlaces(p: Params, h: Handshake<ClientState>, retry: bool, items: seq<Place>, fed: seq<Item>,
                       flushed: seq<Item>) returns (next: seq<Place>)
    requires Stands(p, h, Proceed, items, fed, flushed) && h.state.SendClientFinished?
    ensures var r := DoSendClientFinished(p, h, retry); Stands(p, r.0, r.1, next, fed, flushed)
  {
    next := items;
    if p.channelId && retry {
      Stays(p, h, Retry, items, fed, flushed);
    } else {
      var x, y, n := FinishedIsSaid(p, h, items, fed, flushed);
      FinishedFlags(p, h, items, x, y, n);
      next := items + [Some(Ccs)] + [x] + [y] + [Some(Msg(n))];
      MovesTo(p, DoSendClientFinished(p, h, false).0, Flush, next, fed, flushed);
    }
  }

  // ---------- What the client hears ----------

  lemma ServerHelloFlags(p: Params, h: Handshake<ClientState>, items: seq<Place>, x: Place)
    requires Flags(p, h, items) && h.state.ReadServerHello? && |items| == 1 && DoReadServerHello(p, h).1 == Proceed
    ensures Flags(p, DoReadServerHello(p, h).0, items + [x])
  {
    MarksStay(p, items, x);
  }

  lemma ServerHelloPlace(p: Params, h: Handshake<ClientState>, items: seq<Place>, fed: seq<Item>, flushed: seq<Item>)
    returns (next: seq<Place>)
    requires Stands(p, h, Proceed, items, fed, flushed) && h.state.ReadServerHello?
    ensures var r := DoReadServerHello(p, h); Stands(p, r.0, r.1, next, fed, flushed)
  {
    var r := DoReadServerHello(p, h);
    next := items;
    if r.1 == Proceed {
      FirstMay(p, false, items, Some(Msg(Peek(h))));
      next := HeardIf(p, false, h, items, fed, flushed, true);
      ServerHelloFlags(p, h, items, Some(Msg(Peek(h))));
      MovesTo(p, r.0, Proceed, next, fed, flushed);
    } else {
      Stays(p, h, r.1, items, fed, flushed);
    }
  }

  /** What is heard before the CertificateRequest changes no flag. */
  lemma FlagsStay(p: Params, h: Handshake<ClientState>, s: ClientState, items: seq<Place>, x: Place)
    requires Flags(p, h, items) && !p.resumed && 2 <= |items| <= 6 && |items| != 5
    requires !h.state.ProcessChangeCipherSpec? && !s.ProcessChangeCipherSpec?
    ensures Flags(p, h.(state := s), items + [x])
    ensures Has(h) ==> Flags(p, Take(h).(state := s), items + [x])
  {
    MarksStay(p, items, x);
  }

  lemma ServerCertificatePlace(p: Params, h: Handshake<ClientState>, items: seq<Place>, fed: seq<Item>,
                               flushed: seq<Item>) returns (next: seq<Place>)
    requires Stands(p, h, Proceed, items, fed, flushed) && h.state.ReadServerCertificate?
    ensures var r := DoReadServerCertificate(p, h); Stands(p, r.0, r.1, next, fed, flushed)
  {
    var r := DoReadServerCertificate(p, h);
    next := items;
    if r.1 == Proceed {
      var x := if p.certAuth then Some(Msg(Peek(h))) else None;
      FirstMay(p, false, items, x);
      FlagsStay(p, h, ReadCertificateStatus, items, x);
      next := HeardIf(p, false, h, items, fed, flushed, p.certAuth);
      MovesTo(p, r.0, Proceed, next, fed, flushed);
    } else {
      Stays(p, h, r.1, items, fed, flushed);
    }
  }

  lemma StatusPlace(p: Params, h: Handshake<ClientState>, items: seq<Place>, fed: seq<Item>, flushed: seq<Item>)
    returns (next: seq<Place>)
    requires Stands(p, h, Proceed, items, fed, flushed) && h.state.ReadCertificateStatus?
    ensures var r := DoReadCertificateStatus(p, h); Stands(p, r.0, r.1, next, fed, flushed)
  {
    var r := DoReadCertificateStatus(p, h);
    next := items;
    if r.1 == Proceed {
      var heard := p.ocsp && KindOf(Peek(h)) == CertificateStatus;
      var x := if heard then Some(Msg(Peek(h))) else None;
      FirstMay(p, false, items, x);
      FlagsStay(p, h, VerifyServerCertificate, items, x);
      next := HeardIf(p, false, h, items, fed, flushed, heard);
      MovesTo(p, r.0, Proceed, next, fed, flushed);
    } else {
      Stays(p, h, r.1, items, fed, flushed);
    }
  }

  lemma KeyExchangePlace(p: Params, h: Handshake<ClientState>, items: seq<Place>, fed: seq<Item>, flushed: seq<Item>)
    returns (next: seq<Place>)
    requires Stands(p, h, Proceed, items, fed, flushed) && h.state.ReadServerKeyExchange?
    ensures var r := DoReadServerKeyExchange(p, h); Stands(p, r.0, r.1, next, fed, flushed)
  {
    var r := DoReadServerKeyExchange(p, h);
    next := items;
    if r.1 == Proceed {
      var heard := KindOf(Peek(h)) == ServerKeyExchange;
      var x := if heard then Some(Msg(Peek(h))) else None;
      FirstMay(p, false, items, x);
      FlagsStay(p, h, ReadCertificateRequest, items, x);
      next := HeardIf(p, false, h, items, fed, flushed, heard);
      MovesTo(p, r.0, Proceed, next, fed, flushed);
    } else {
      Stays(p, h, r.1, items, fed, flushed);
    }
  }

  lemma RequestFlags(p: Params, h: Handshake<ClientState>, items: seq<Place>, heard: bool)
    requires Flags(p, h, items) && h.state.ReadCertificateRequest? && |items| == 5 && !p.resumed
    requires DoReadCertificateRequest(p, h).1 == Proceed
    requires heard == (p.certAuth && KindOf(Peek(h)) == CertificateRequest)
    ensures Flags(p, DoReadCertificateRequest(p, h).0, items + [if heard then Some(Msg(Peek(h))) else None])
  {
    MarksStay(p, items, if heard then Some(Msg(Peek(h))) else None);
  }

  lemma RequestPlace(p: Params, h: Handshake<ClientState>, items: seq<Place>, fed: seq<Item>, flushed: seq<Item>)
    returns (next: seq<Place>)
    requires Stands(p, h, Proceed, items, fed, flushed) && h.state.ReadCertificateRequest?
    ensures var r := DoReadCertificateRequest(p, h); Stands(p, r.0, r.1, next, fed, flushed)
  {
    var r := DoReadCertificateRequest(p, h);
    next := items;
    if r.1 == Proceed {
      var heard := p.certAuth && KindOf(Peek(h)) == CertificateRequest;
      FirstMay(p, false, items, if heard then Some(Msg(Peek(h))) else None);
      RequestFlags(p, h, items, heard);
      next := HeardIf(p, false, h, items, fed, flushed, heard);
      MovesTo(p, r.0, Proceed, next, fed, flushed);
    } else {
      Stays(p, h, r.1, items, fed, flushed);
    }
  }

  lemma HelloDonePlace(p: Params, h: Handshake<ClientState>, items: seq<Place>, fed: seq<Item>, flushed: seq<Item>)
    returns (next: seq<Place>)
    requires Stands(p, h, Proceed, items, fed, flushed) && h.state.ReadServerHelloDone?
    ensures var r := DoReadServerHelloDone(p, h); Stands(p, r.0, r.1, next, fed, flushed)
  {
    var r := DoReadServerHelloDone(p, h);
    next := items;
    if r.1 == Proceed {
      FirstMay(p, false, items, Some(Msg(Peek(h))));
      FlagsStay(p, h, SendClientCertificate, items, Some(Msg(Peek(h))));
      next := HeardIf(p, false, h, items, fed, flushed, true);
      MovesTo(p, r.0, Proceed, next, fed, flushed);
    } else {
      Stays(p, h, r.1, items, fed, flushed);
    }
  }

  lemma TicketFlags(p: Params, h: Handshake<ClientState>, items: seq<Place>, x: Place)
    requires Flags(p, h, items) && h.state.ReadSessionTicket? && |items| == ServerCcsAt(p) - 1
    requires DoReadSessionTicket(p, h).1 == ReadChangeCipherSpec
    ensures Flags(p, DoReadSessionTicket(p, h).0, items + [x])
  {
    MarksStay(p, items, x);
  }

  lemma TicketPlace(p: Params, h: Handshake<ClientState>, items: seq<Place>, fed: seq<Item>, flushed: seq<Item>)
    returns (next: seq<Place>)
    requires Stands(p, h, Proceed, items, fed, flushed) && h.state.ReadSessionTicket?
    ensures var r := DoReadSessionTicket(p, h); Stands(p, r.0, r.1, next, fed, flushed)
  {
    var r := DoReadSessionTicket(p, h);
    next := items;
    if r.1 == ReadChangeCipherSpec {
      var x := if p.ticket then Some(Msg(Peek(h))) else None;
      LastMay(p, false, items, x, 4);
      TicketFlags(p, h, items, x);
      next := HeardIf(p, false, h, items, fed, flushed, p.ticket);
      MovesTo(p, r.0, r.1, next, fed, flushed);
    } else {
      Stays(p, h, r.1, items, fed, flushed);
    }
  }

  lemma ServerFinishedFlags(p: Params, h: Handshake<ClientState>, items: seq<Place>, x: Place)
    requires Flags(p, h, items) && h.state.ReadServerFinished? && |items| == ServerFinishedAt(p)
    requires DoReadServerFinished(p, h).1 == Proceed && h.transcript == Messages(items)
    ensures Flags(p, DoReadServerFinished(p, h).0, items + [x])
  {
    MarksStay(p, items, x);
  }

  lemma ServerFinishedPlace(p: Params, h: Handshake<ClientState>, items: seq<Place>, fed: seq<Item>, flushed: seq<Item>)
    returns (next: seq<Place>)
    requires Stands(p, h, Proceed, items, fed, flushed) && h.state.ReadServerFinished?
    ensures var r := DoReadServerFinished(p, h); Stands(p, r.0, r.1, next, fed, flushed)
  {
    var r := DoReadServerFinished(p, h);
    next := items;
    if r.1 == Proceed {
      AccountTells(p, false, h, items, fed, flushed);
      LastMay(p, false, items, Some(Msg(Peek(h))), 6);
      ServerFinishedFlags(p, h, items, Some(Msg(Peek(h))));
      next := HeardIf(p, false, h, items, fed, flushed, true);
      MovesTo(p, r.0, Proceed, next, fed, flushed);
    } else {
      Stays(p, h, r.1, items, fed, flushed);
    }
  }

  // ---------- What the client refuses ----------

  /** Where a message may be left out, the one at the front is not passed over if it is a ServerKeyExchange that the
      cipher does not have, or if it comes in place of a CertificateRequest and does not end the server's part. */
  predicate NotPassedOver(place: nat, m: Message) {
    (place == 4 && KindOf(m) == ServerKeyExchange) || (place == 5 && KindOf(m) != ServerHelloDone)
  }

  /** A pass fails exactly where a message is read and the one at the front may neither be said nor be passed over. */
  ghost predicate FailsRightly(p: Params, h: Handshake<ClientState>, items: seq<Place>, w: Wait) {
    w == Error <==>
      Reads(p, h) && Has(h) && !Allowed(p, false, items, Some(Msg(Peek(h))))
      && (Allowed(p, false, items, None) ==> NotPassedOver(|items|, Peek(h)))
  }

  lemma EarlyRefused(p: Params, h: Handshake<ClientState>, items: seq<Place>)
    requires Flags(p, h, items) && |items| == PlaceOf(p, h.state, Proceed)
    requires h.state.ReadServerHello? || h.state.ReadServerCertificate? || h.state.ReadCertificateStatus?
    ensures FailsRightly(p, h, items, ClientDo(p, h, false).1)
  {
  }

  lemma MiddleRefused(p: Params, h: Handshake<ClientState>, items: seq<Place>)
    requires Flags(p, h, items) && |items| == PlaceOf(p, h.state, Proceed)
    requires h.state.ReadServerKeyExchange? || h.state.ReadCertificateRequest? || h.state.ReadServerHelloDone?
    ensures FailsRightly(p, h, items, ClientDo(p, h, false).1)
  {
  }

  lemma LateRefused(p: Params, h: Handshake<ClientState>, items: seq<Place>)
    requires |items| == PlaceOf(p, h.state, Proceed) && h.transcript == Messages(items)
    requires h.state.ReadSessionTicket? || h.state.ReadServerFinished?
    ensures FailsRightly(p, h, items, ClientDo(p, h, false).1)
  {
    if Has(h) {
      var n := if h.state.ReadSessionTicket? then 4 else 6;
      LastIs(p, false, items, Some(Msg(Peek(h))), n);
      LastIs(p, false, items, None, n);
    }
  }

  // ---------- Passes and rounds ----------

  lemma SaidPass(p: Params, h: Handshake<ClientState>, retry: bool, items: seq<Place>, fed: seq<Item>,
                 flushed: seq<Item>) returns (next: seq<Place>)
    requires Stands(p, h, Proceed, items, fed, flushed)
    requires h.state.StartConnect? || h.state.SendClientCertificate? || h.state.SendClientKeyExchange?
             || h.state.SendClientCertificateVerify? || h.state.SendClientFinished?
    ensures var r := ClientDo(p, h, retry); Stands(p, r.0, r.1, next, fed, flushed) && r.1 != Error
  {
    match h.state
    case StartConnect => next := HelloPlace(p, h, items, fed, flushed);
    case SendClientCertificate => next := CertificatePlace(p, h, retry, items, fed, flushed);
    case SendClientKeyExchange => next := KeyPlace(p, h, items, fed, flushed);
    case SendClientCertificateVerify => next := SignaturePlace(p, h, retry, items, fed, flushed);
    case _ => next := FinishedPlaces(p, h, retry, items, fed, flushed);
  }

  lemma HeardPass(p: Params, h: Handshake<ClientState>, items: seq<Place>, fed: seq<Item>, flushed: seq<Item>)
    returns (next: seq<Place>)
    requires Stands(p, h, Proceed, items, fed, flushed)
    requires h.state.ReadServerHello? || h.state.ReadServerCertificate? || h.state.ReadCertificateStatus?
             || h.state.ReadServerKeyExchange? || h.state.ReadCertificateRequest? || h.state.ReadServerHelloDone?
             || h.state.ReadSessionTicket? || h.state.ReadServerFinished?
    ensures var r := ClientDo(p, h, false); Stands(p, r.0, r.1, next, fed, flushed)
  {
    match h.state
    case ReadServerHello => next := ServerHelloPlace(p, h, items, fed, flushed);
    case ReadServerCertificate => next := ServerCertificatePlace(p, h, items, fed, flushed);
    case ReadCertificateStatus => next := StatusPlace(p, h, items, fed, flushed);
    case ReadServerKeyExchange => next := KeyExchangePlace(p, h, items, fed, flushed);
    case ReadCertificateRequest => next := RequestPlace(p, h, items, fed, flushed);
    case ReadServerHelloDone => next := HelloDonePlace(p, h, items, fed, flushed);
    case ReadSessionTicket => next := TicketPlace(p, h, items, fed, flushed);
    case _ => next := ServerFinishedPlace(p, h, items, fed, flushed);
  }

  lemma RefusedRightly(p: Params, h: Handshake<ClientState>, items: seq<Place>, fed: seq<Item>, flushed: seq<Item>)
    requires Stands(p, h, Proceed, items, fed, flushed)
    requires h.state.ReadServerHello? || h.state.ReadServerCertificate? || h.state.ReadCertificateStatus?
             || h.state.ReadServerKeyExchange? || h.state.ReadCertificateRequest? || h.state.ReadServerHelloDone?
             || h.state.ReadSessionTicket? || h.state.ReadServerFinished?
    ensures FailsRightly(p, h, items, ClientDo(p, h, false).1)
  {
    match h.state
    case ReadServerHello | ReadServerCertificate | ReadCertificateStatus => EarlyRefused(p, h, items);
    case ReadServerKeyExchange | ReadCertificateRequest | ReadServerHelloDone => MiddleRefused(p, h, items);
    case _ =>
      AccountTells(p, false, h, items, fed, flushed);
      LateRefused(p, h, items);
  }

  /** The passes that neither say nor hear anything. */
  lemma FirstPass(p: Params, h: Handshake<ClientState>, retry: bool, items: seq<Place>, fed: seq<Item>,
                  flushed: seq<Item>)
    requires Stands(p, h, Proceed, items, fed, flushed)
    requires h.state.EnterEarlyData? || h.state.VerifyServerCertificate?
    ensures var r := ClientDo(p, h, retry); Stands(p, r.0, r.1, items, fed, flushed) && r.1 != Error
  {
  }

  lemma TurnPass(p: Params, h: Handshake<ClientState>, retry: bool, items: seq<Place>, fed: seq<Item>,
                 flushed: seq<Item>)
    requires Stands(p, h, Proceed, items, fed, flushed) && h.state.FinishFlight?
    ensures var r := ClientDo(p, h, retry); Stands(p, r.0, r.1, items, fed, flushed) && r.1 != Error
  {
  }

  lemma CcsPass(p: Params, h: Handshake<ClientState>, retry: bool, items: seq<Place>, fed: seq<Item>,
                flushed: seq<Item>)
    requires Stands(p, h, Proceed, items, fed, flushed) && h.state.ProcessChangeCipherSpec?
    ensures var r := ClientDo(p, h, retry); Stands(p, r.0, r.1, items, fed, flushed) && r.1 != Error
  {
  }

  lemma LastPass(p: Params, h: Handshake<ClientState>, retry: bool, items: seq<Place>, fed: seq<Item>,
                 flushed: seq<Item>)
    requires Stands(p, h, Proceed, items, fed, flushed)
    requires h.state.FinishClientHandshake? || h.state.Done?
    ensures var r := ClientDo(p, h, retry); Stands(p, r.0, r.1, items, fed, flushed) && r.1 != Error
  {
  }

  /** Whatever the server sends, a pass of the client keeps its account, and fails exactly if the server says what it
      may not say. */
  lemma PassRecounted(p: Params, h: Handshake<ClientState>, retry: bool, items: seq<Place>, fed: seq<Item>,
                      flushed: seq<Item>) returns (next: seq<Place>)
    requires Stands(p, h, Proceed, items, fed, flushed)
    ensures var r := ClientDo(p, h, retry);
            Stands(p, r.0, r.1, next, fed, flushed) && FailsRightly(p, h, items, r.1)
  {
    match h.state
    case StartConnect | SendClientCertificate | SendClientKeyExchange | SendClientCertificateVerify
       | SendClientFinished =>
      next := SaidPass(p, h, retry, items, fed, flushed);
    case ReadServerHello | ReadServerCertificate | ReadCertificateStatus | ReadServerKeyExchange
       | ReadCertificateRequest | ReadServerHelloDone | ReadSessionTicket | ReadServerFinished =>
      next := HeardPass(p, h, items, fed, flushed);
      RefusedRightly(p, h, items, fed, flushed);
    case EnterEarlyData | VerifyServerCertificate =>
      next := items;
      FirstPass(p, h, retry, items, fed, flushed);
    case FinishFlight =>
      next := items;
      TurnPass(p, h, retry, items, fed, flushed);
    case ProcessChangeCipherSpec =>
      next := items;
      CcsPass(p, h, retry, items, fed, flushed);
    case _ =>
      next := items;
      LastPass(p, h, retry, items, fed, flushed);
  }

  /** More may arrive at any time. */
  lemma MoreArrives(p: Params, h: Handshake<ClientState>, w: Wait, items: seq<Place>, fed: seq<Item>,
                    flushed: seq<Item>,
                    arrived: seq<Item>)
    requires Stands(p, h, w, items, fed, flushed)
    ensures Stands(p, h.(inbox := h.inbox + arrived), w, items, fed + arrived, flushed)
  {
    HearsMore(p, false, h, items, fed, flushed, arrived);
  }

  lemma FlightIsFlushed(p: Params, h: Handshake<ClientState>, items: seq<Place>, fed: seq<Item>, flushed: seq<Item>)
    requires Stands(p, h, Flush, items, fed, flushed)
    ensures Stands(p, h.(flight := []), Proceed, items, fed, flushed + h.flight)
  {
    Flushes(p, false, h, items, fed, flushed);
  }

  /** A ChangeCipherSpec may not stand where a message is read. */
  lemma MessageWait(p: Params, h: Handshake<ClientState>, items: seq<Place>, fed: seq<Item>, flushed: seq<Item>)
    requires Stands(p, h, ReadMessage, items, fed, flushed)
    ensures Stands(p, h, Resolve(h, ReadMessage).1, items, fed, flushed)
    ensures h.inbox != [] && h.inbox[0].Ccs? ==> !Allowed(p, false, items, Some(Ccs))
  {
  }

  lemma CcsWait(p: Params, h: Handshake<ClientState>, items: seq<Place>, fed: seq<Item>, flushed: seq<Item>)
    requires Stands(p, h, ReadChangeCipherSpec, items, fed, flushed) && h.inbox != [] && h.inbox[0].Ccs?
    ensures Stands(p, h.(inbox := h.inbox[1..]), Proceed, items + [Some(Ccs)], fed, flushed)
  {
    LastMay(p, false, items, Some(Ccs), 5);
    Hears(p, false, h, h.(inbox := h.inbox[1..]), items, Ccs, fed, flushed);
    MarksStay(p, items, Some(Ccs));
  }

  /** A round of the driver keeps the account too, and fails exactly if a record of the wrong kind is at the front. */
  lemma WaitRecounted(p: Params, h: Handshake<ClientState>, w: Wait, items: seq<Place>, fed: seq<Item>,
                      flushed: seq<Item>) returns (next: seq<Place>)
    requires Stands(p, h, w, items, fed, flushed) && w != Proceed
    ensures var r := Resolve(h, w); Stands(p, r.0, r.1, next, fed, flushed + r.2)
    ensures Resolve(h, w).1 == Error && w != Error ==>
              next == items && h.inbox != [] && !Allowed(p, false, items, Some(h.inbox[0]))
    ensures (w == ReadMessage || w == ReadChangeCipherSpec) && h.inbox != [] ==>
              (Resolve(h, w).1 == Error <==> h.inbox[0].Ccs? == w.ReadMessage?)
  {
    next := items;
    assert flushed + [] == flushed;
    match w
    case Flush => FlightIsFlushed(p, h, items, fed, flushed);
    case ReadMessage => MessageWait(p, h, items, fed, flushed);
    case ReadChangeCipherSpec =>
      if h.inbox != [] && h.inbox[0].Ccs? {
        CcsWait(p, h, items, fed, flushed);
        next := items + [Some(Ccs)];
      }
    case _ =>
  }

  // ---------- Whole runs ----------

  /** A client that has failed is stuck at something that may not be said in this place. */
  ghost predicate Stuck(p: Params, h: Handshake<ClientState>, items: seq<Place>) {
    h.inbox != [] && !Allowed(p, false, items, Some(h.inbox[0]))
  }

  lemma FailsInPlace(p: Params, h: Handshake<ClientState>, retry: bool)
    requires ClientDo(p, h, retry).1 == Error
    ensures ClientDo(p, h, retry).0 == h && !h.state.ProcessChangeCipherSpec? && !h.state.Done?
  {
    if !h.state.Done? && !h.state.ProcessChangeCipherSpec? {
      assert Regular(p, h, ClientDo(p, h, retry));
    }
  }

  lemma PassInRound(p: Params, h: Handshake<ClientState>, retry: bool, items: seq<Place>, fed: seq<Item>,
                    flushed: seq<Item>) returns (next: seq<Place>)
    requires Stands(p, h, Proceed, items, fed, flushed)
    ensures var r := ClientDo(p, h, retry);
            Stands(p, r.0, r.1, next, fed, flushed) && (r.1 == Error ==> Stuck(p, r.0, next))
  {
    next := PassRecounted(p, h, retry, items, fed, flushed);
    if ClientDo(p, h, retry).1 == Error {
      FailsInPlace(p, h, retry);
      Stays(p, h, Error, items, fed, flushed);
      next := items;
    }
  }

  lemma WaitInRound(p: Params, h: Handshake<ClientState>, w: Wait, items: seq<Place>, fed: seq<Item>,
                    flushed: seq<Item>) returns (next: seq<Place>)
    requires Stands(p, h, w, items, fed, flushed) && w != Proceed && (w == Error ==> Stuck(p, h, items))
    ensures var r := Resolve(h, w);
            Stands(p, r.0, r.1, next, fed, flushed + r.2) && (r.1 == Error ==> Stuck(p, r.0, next))
  {
    if w == Error {
      next := items;
      assert flushed + [] == flushed;
    } else {
      next := WaitRecounted(p, h, w, items, fed, flushed);
    }
  }

  lemma RoundRecounted(p: Params, pass: Pass<ClientState>, h: Handshake<ClientState>, w: Wait, items: seq<Place>,
                       fed: seq<Item>, flushed: seq<Item>, input: Input) returns (next: seq<Place>)
    requires IsClient(p, pass) && Stands(p, h, w, items, fed, flushed) && (w == Error ==> Stuck(p, h, items))
    ensures var r := Round(pass, h, w, input);
            Stands(p, r.0, r.1, next, fed + input.arrived, flushed + r.2)
            && (r.1 == Error ==> Stuck(p, r.0, next))
  {
    var g := h.(inbox := h.inbox + input.arrived);
    MoreArrives(p, h, w, items, fed, flushed, input.arrived);
    if w == Proceed {
      assert IsPassOfClient(p, pass, g, input.retry) && flushed + [] == flushed;
      next := PassInRound(p, g, input.retry, items, fed + input.arrived, flushed);
    } else {
      next := WaitInRound(p, g, w, items, fed + input.arrived, flushed);
    }
  }

  /** Whatever the server sends, and in whatever pieces, a client has an account of its handshake: what it took from the
      server and what it said itself stand in their places, and it fails only at what may not be said. */
  lemma {:induction false} ClientAccounts(p: Params, pass: Pass<ClientState>, inputs: seq<Input>)
    returns (items: seq<Place>)
    requires IsClient(p, pass)
    ensures var r := Rounds(pass, Begin(StartConnect), Proceed, inputs);
            Stands(p, r.0, r.1, items, Fed(inputs), r.2) && (r.1 == Error ==> Stuck(p, r.0, items))
  {
    if inputs == [] {
      items := [];
      assert Conversation(p, false, items);
    } else {
      var before := inputs[..|inputs| - 1];
      var r := Rounds(pass, Begin(StartConnect), Proceed, before);
      var said := ClientAccounts(p, pass, before);
      items := RoundRecounted(p, pass, r.0, r.1, said, Fed(before), r.2, inputs[|inputs| - 1]);
    }
  }

  // ---------- What a client has done ----------

  /** A client that is done has the whole conversation behind it and has sent all that it said. */
  lemma ClientDoneHasSaidAll(p: Params, pass: Pass<ClientState>, inputs: seq<Input>, h: Handshake<ClientState>)
    returns (items: seq<Place>)
    requires IsClient(p, pass) && h == Rounds(pass, Begin(StartConnect), Proceed, inputs).0 && h.state.Done?
    ensures Conversation(p, false, items) && |items| == End(p) && h.transcript == Messages(items)
    ensures Spoken(p.resumed, true, items) + h.inbox == Fed(inputs)
    ensures Spoken(p.resumed, false, items) == Rounds(pass, Begin(StartConnect), Proceed, inputs).2
  {
    items := ClientAccounts(p, pass, inputs);
    var r := Rounds(pass, Begin(StartConnect), Proceed, inputs);
    assert r.2 + [] == r.2;
    AccountTells(p, false, h, items, Fed(inputs), r.2);
  }

  lemma ReturnsEarlyThere(p: Params, h: Handshake<ClientState>, retry: bool)
    ensures ClientDo(p, h, retry).1 == EarlyReturn <==> p.falseStart && !p.resumed && h.state.FinishFlight?
    ensures ClientDo(p, h, retry).1 == EarlyReturn ==> ClientDo(p, h, retry).0 == h.(state := ReadSessionTicket)
  {
    if !h.state.FinishFlight? && !h.state.Done? {
      assert Regular(p, h, ClientDo(p, h, retry));
    }
  }

  lemma BehindOwnPart(p: Params, s: ClientState)
    requires !p.resumed
    ensures PlaceOf(p, s, Proceed) == 14 <==> s.FinishFlight? || s.ReadSessionTicket?
  {
  }

  lemma KnowsBehindOwnPart(p: Params, h: Handshake<ClientState>, items: seq<Place>, fed: seq<Item>, flushed: seq<Item>)
    requires Stands(p, h, Proceed, items, fed, flushed) && !p.resumed && h.state.FinishFlight?
    ensures Spoken(p.resumed, false, items) == flushed && h.writeSwitched && !h.readSwitched && h.macChecked == None
  {
    AccountTells(p, false, h, items, fed, flushed);
    assert flushed + [] == flushed;
  }

  /** A client returns early exactly behind its own part of a full handshake, if false start is on: all of it is sent,
      and of the server's last part it has heard nothing yet. */
  lemma ReturnsEarlyExactly(p: Params, h: Handshake<ClientState>, retry: bool, items: seq<Place>, fed: seq<Item>,
                            flushed: seq<Item>)
    requires Stands(p, h, Proceed, items, fed, flushed)
    ensures ClientDo(p, h, retry).1 == EarlyReturn <==>
              p.falseStart && !p.resumed && |items| == 14 && !h.state.ReadSessionTicket?
    ensures ClientDo(p, h, retry).1 == EarlyReturn ==>
              Spoken(p.resumed, false, items) == flushed && h.writeSwitched && !h.readSwitched && h.macChecked == None
              && ClientDo(p, h, retry).0 == h.(state := ReadSessionTicket)
  {
    ReturnsEarlyThere(p, h, retry);
    if !p.resumed {
      BehindOwnPart(p, h.state);
      if h.state.FinishFlight? {
        KnowsBehindOwnPart(p, h, items, fed, flushed);
      }
    }
  }

  /** An unfinished operation holds the client where it is, and changes nothing. */
  lemma HeldUp(p: Params, h: Handshake<ClientState>)
    ensures ClientDo(p, h, true) == (h, Retry) || ClientDo(p, h, true) == ClientDo(p, h, false)
    ensures ClientDo(p, h, false).1 != Retry
  {
  }

  /** Such operations are the check of the server's certificate, the choice of an own certificate, the signature under
      its key, and the one under the key of the channel ID. */
  lemma HeldUpExactly(p: Params, h: Handshake<ClientState>)
    ensures ClientDo(p, h, true).1 == Retry <==>
              match h.state
              case VerifyServerCertificate => p.certAuth
              case SendClientCertificate => h.certRequest
              case SendClientCertificateVerify => h.certRequest && p.clientHasCert
              case SendClientFinished => p.channelId
              case _ => false
  {
    match h.state
    case VerifyServerCertificate | SendClientCertificate =>
    case SendClientCertificateVerify | SendClientFinished =>
    case StartConnect | EnterEarlyData | ReadServerHello | ReadServerCertificate | ReadCertificateStatus =>
    case ReadServerKeyExchange | ReadCertificateRequest | ReadServerHelloDone | SendClientKeyExchange =>
    case FinishFlight | ReadSessionTicket | ProcessChangeCipherSpec =>
    case ReadServerFinished | FinishClientHandshake | Done =>
  }
}

/** The client's steps on the machine, and the loop that drives them. */
module TlsClientMachine {
  import opened TlsAnyPeer
  import opened TlsHandshake
  import opened TlsMachine
  import opened TlsRounds
  import C = TlsClient

  method ReadServerHello(p: Params, hs: Machine<C.ClientState>) returns (w: Wait)
    requires hs.state.ReadServerHello?
    modifies hs
    ensures (hs.Now(), w) == C.DoReadServerHello(p, old(hs.Now()))
  {
    var ok, msg := hs.GetMessage();
    if !ok {
      return ReadMessage;
    }
    if KindOf(msg) != ServerHello {
      return Error;
    }
    if p.resumed || !p.certAuth {
      hs.buffered := false;
    }
    hs.HashAndNext();
    if p.resumed {
      hs.state := C.ReadSessionTicket;
    } else {
      hs.state := C.ReadServerCertificate;
    }
    return Proceed;
  }

  method ReadServerCertificate(p: Params, hs: Machine<C.ClientState>) returns (w: Wait)
    requires hs.state.ReadServerCertificate?
    modifies hs
    ensures (hs.Now(), w) == C.DoReadServerCertificate(p, old(hs.Now()))
  {
    if p.certAuth {
      var ok, msg := hs.GetMessage();
      if !ok {
        return ReadMessage;
      }
      if KindOf(msg) != Certificate || !msg.Plain? || msg.content == [] {
        return Error;
      }
      hs.HashAndNext();
    }
    hs.state := C.ReadCertificateStatus;
    return Proceed;
  }

  method ReadCertificateStatus(p: Params, hs: Machine<C.ClientState>) returns (w: Wait)
    requires hs.state.ReadCertificateStatus?
    modifies hs
    ensures (hs.Now(), w) == C.DoReadCertificateStatus(p, old(hs.Now()))
  {
    if p.ocsp {
      var ok, msg := hs.GetMessage();
      if !ok {
        return ReadMessage;
      }
      if KindOf(msg) == CertificateStatus {
        hs.HashAndNext();
      }
    }
    hs.state := C.VerifyServerCertificate;
    return Proceed;
  }

  method ReadServerKeyExchange(p: Params, hs: Machine<C.ClientState>) returns (w: Wait)
    requires hs.state.ReadServerKeyExchange?
    modifies hs
    ensures (hs.Now(), w) == C.DoReadServerKeyExchange(p, old(hs.Now()))
  {
    var ok, msg := hs.GetMessage();
    if !ok {
      return ReadMessage;
    }
    if KindOf(msg) != ServerKeyExchange {
      if p.ecdhe {
        return Error;
      }
      hs.state := C.ReadCertificateRequest;
      return Proceed;
    }
    if !p.ecdhe && p.certAuth {
      return Error;
    }
    hs.HashAndNext();
    hs.state := C.ReadCertificateRequest;
    return Proceed;
  }

  method ReadCertificateRequest(p: Params, hs: Machine<C.ClientState>) returns (w: Wait)
    requires hs.state.ReadCertificateRequest?
    modifies hs
    ensures (hs.Now(), w) == C.DoReadCertificateRequest(p, old(hs.Now()))
  {
    if p.certAuth {
      var ok, msg := hs.GetMessage();
      if !ok {
        return ReadMessage;
      }
      if KindOf(msg) == ServerHelloDone {
        hs.buffered := false;
      } else if KindOf(msg) != CertificateRequest {
        return Error;
      } else {
        hs.certRequest := true;
        hs.HashAndNext();
      }
    }
    hs.state := C.ReadServerHelloDone;
    return Proceed;
  }

  method ReadServerHelloDone(p: Params, hs: Machine<C.ClientState>) returns (w: Wait)
    requires hs.state.ReadServerHelloDone?
    modifies hs
    ensures (hs.Now(), w) == C.DoReadServerHelloDone(p, old(hs.Now()))
  {
    var ok, msg := hs.GetMessage();
    if !ok {
      return ReadMessage;
    }
    if KindOf(msg) != ServerHelloDone || !msg.Plain? || msg.content != [] {
      return Error;
    }
    hs.HashAndNext();
    hs.state := C.SendClientCertificate;
    return Proceed;
  }

  method SendClientCertificate(p: Params, hs: Machine<C.ClientState>, retry: bool) returns (w: Wait)
    requires hs.state.SendClientCertificate?
    modifies hs
    ensures (hs.Now(), w) == C.DoSendClientCertificate(p, old(hs.Now()), retry)
  {
    if hs.certRequest {
      if retry {
        return Retry;
      }
      if !p.clientHasCert {
        hs.buffered := false;
      }
      hs.AddMessage(Plain(Certificate, p.content(Certificate, false)));
    }
    hs.state := C.SendClientKeyExchange;
    return Proceed;
  }

  method SendClientKeyExchange(p: Params, hs: Machine<C.ClientState>) returns (w: Wait)
    requires hs.state.SendClientKeyExchange?
    modifies hs
    ensures (hs.Now(), w) == C.DoSendClientKeyExchange(p, old(hs.Now()))
  {
    hs.AddMessage(Plain(ClientKeyExchange, p.content(ClientKeyExchange, false)));
    hs.masterSeed := hs.transcript;
    hs.state := C.SendClientCertificateVerify;
    return Proceed;
  }

  method SendClientCertificateVerify(p: Params, hs: Machine<C.ClientState>, retry: bool) returns (w: Wait)
    requires hs.state.SendClientCertificateVerify?
    modifies hs
    ensures (hs.Now(), w) == C.DoSendClientCertificateVerify(p, old(hs.Now()), retry)
  {
    if hs.certRequest && p.clientHasCert {
      if retry {
        return Retry;
      }
      if !hs.buffered {
        return Error;
      }
      hs.AddMessage(Signed(CertificateVerify, hs.transcript));
      hs.buffered := false;
    }
    hs.state := C.SendClientFinished;
    return Proceed;
  }

  method SendClientFinished(p: Params, hs: Machine<C.ClientState>, retry: bool) returns (w: Wait)
    requires hs.state.SendClientFinished?
    modifies hs
    ensures (hs.Now(), w) == C.DoSendClientFinished(p, old(hs.Now()), retry)
  {
    if p.channelId && retry {
      return Retry;
    }
    hs.AddChangeCipherSpec();
    if p.npn {
      hs.AddMessage(Plain(NextProto, p.content(NextProto, false)));
    }
    if p.channelId {
      hs.AddMessage(Signed(ChannelId, hs.transcript));
    }
    assert hs.Now() == C.LastMessages(p, old(hs.Now()));
    hs.WriteFinished(false);
    hs.state := C.FinishFlight;
    return Flush;
  }

  method ReadSessionTicket(p: Params, hs: Machine<C.ClientState>) returns (w: Wait)
    requires hs.state.ReadSessionTicket?
    modifies hs
    ensures (hs.Now(), w) == C.DoReadSessionTicket(p, old(hs.Now()))
  {
    if p.ticket {
      var ok, msg := hs.GetMessage();
      if !ok {
        return ReadMessage;
      }
      if KindOf(msg) != NewSessionTicket {
        return Error;
      }
      hs.HashAndNext();
    }
    hs.state := C.ProcessChangeCipherSpec;
    return ReadChangeCipherSpec;
  }

  method VerifyServerCertificate(p: Params, hs: Machine<C.ClientState>, retry: bool) returns (w: Wait)
    requires hs.state.VerifyServerCertificate?
    modifies hs
    ensures (hs.Now(), w) == C.DoVerifyServerCertificate(p, old(hs.Now()), retry)
  {
    if p.certAuth && retry {
      return Retry;
    }
    hs.state := C.ReadServerKeyExchange;
    return Proceed;
  }

  method FinishFlight(p: Params, hs: Machine<C.ClientState>) returns (w: Wait)
    requires hs.state.FinishFlight?
    modifies hs
    ensures (hs.Now(), w) == C.DoFinishFlight(p, old(hs.Now()))
  {
    if p.resumed {
      hs.state := C.FinishClientHandshake;
      return Proceed;
    }
    hs.state := C.ReadSessionTicket;
    return if p.falseStart then EarlyReturn else Proceed;
  }

  method ProcessChangeCipherSpec(p: Params, hs: Machine<C.ClientState>) returns (w: Wait)
    requires hs.state.ProcessChangeCipherSpec?
    modifies hs
    ensures (hs.Now(), w) == C.DoProcessChangeCipherSpec(p, old(hs.Now()))
  {
    hs.readSwitched := true;
    hs.state := C.ReadServerFinished;
    return Proceed;
  }

  method ReadServerFinished(p: Params, hs: Machine<C.ClientState>) returns (w: Wait)
    requires hs.state.ReadServerFinished?
    modifies hs
    ensures (hs.Now(), w) == C.DoReadServerFinished(p, old(hs.Now()))
  {
    w := hs.ReadFinished(false, if p.resumed then C.SendClientFinished else C.FinishClientHandshake);
  }

  /** The switch in ssl_client_handshake. */
  method ClientPass(p: Params, hs: Machine<C.ClientState>, retry: bool) returns (w: Wait)
    modifies hs
    ensures (hs.Now(), w) == C.ClientDo(p, old(hs.Now()), retry)
  {
    w := Proceed;
    match hs.state
    case StartConnect =>
      hs.AddMessage(Plain(ClientHello, p.content(ClientHello, false)));
      hs.state := C.EnterEarlyData;
      w := Flush;
    case EnterEarlyData => hs.state := C.ReadServerHello;
    case ReadServerHello => w := ReadServerHello(p, hs);
    case ReadServerCertificate => w := ReadServerCertificate(p, hs);
    case ReadCertificateStatus => w := ReadCertificateStatus(p, hs);
    case VerifyServerCertificate => w := VerifyServerCertificate(p, hs, retry);
    case ReadServerKeyExchange => w := ReadServerKeyExchange(p, hs);
    case ReadCertificateRequest => w := ReadCertificateRequest(p, hs);
    case ReadServerHelloDone => w := ReadServerHelloDone(p, hs);
    case SendClientCertificate => w := SendClientCertificate(p, hs, retry);
    case SendClientKeyExchange => w := SendClientKeyExchange(p, hs);
    case SendClientCertificateVerify => w := SendClientCertificateVerify(p, hs, retry);
    case SendClientFinished => w := SendClientFinished(p, hs, retry);
    case FinishFlight => w := FinishFlight(p, hs);
    case ReadSessionTicket => w := ReadSessionTicket(p, hs);
    case ProcessChangeCipherSpec => w := ProcessChangeCipherSpec(p, hs);
    case ReadServerFinished => w := ReadServerFinished(p, hs);
    case FinishClientHandshake => hs.state := C.Done;
    case Done =>
  }

  /** ssl_client_handshake: it goes on until the handshake is done or has to wait, and it ends. */
  method RunClient(p: Params, ghost pass: Pass<C.ClientState>, hs: Machine<C.ClientState>)
    returns (w: Wait, ghost inputs: seq<Input>)
    requires IsClient(p, pass)
    modifies hs
    ensures Rounds(pass, old(hs.Now()), Proceed, inputs) == (hs.Now(), w, []) && Fed(inputs) == []
    ensures w == Proceed ==> hs.state.Done?
    ensures w == ReadMessage ==> !Has(hs.Now())
    ensures C.Rank(p.resumed, hs.state) <= C.Rank(p.resumed, old(hs.state))
    ensures old(hs.state.Done?) || C.Rank(p.resumed, hs.state) < C.Rank(p.resumed, old(hs.state))
            || w == Retry || w == Error || (w == ReadMessage && hs.Now() == old(hs.Now()))
  {
    inputs := [];
    w := Proceed;
    while !hs.state.Done?
      invariant w == Proceed && Rounds(pass, old(hs.Now()), Proceed, inputs) == (hs.Now(), Proceed, [])
      invariant Fed(inputs) == []
      invariant hs.Now() == old(hs.Now()) || C.Rank(p.resumed, hs.state) < C.Rank(p.resumed, old(hs.state))
      decreases C.Rank(p.resumed, hs.state)
    {
      var retry: bool := *;
      ghost var before, input := hs.Now(), Input([], retry);
      w := ClientPass(p, hs, retry);
      assert IsPassOfClient(p, pass, before, retry);
      OneMoreRound(pass, old(hs.Now()), Proceed, inputs, input);
      assert before.inbox + [] == before.inbox;
      assert C.Regular(p, before, (hs.Now(), w));
      inputs := inputs + [input];
      if w != Proceed {
        return;
      }
    }
  }

  /** ssl_run_handshake, given what is going to arrive. It ends whatever the peer sends: done, failed, put off, or with
      all of it read and more needed. */
  method CompleteClient(p: Params, ghost pass: Pass<C.ClientState>, hs: Machine<C.ClientState>,
                        arrivals: seq<seq<Item>>)
    returns (w: Wait, flushed: seq<Item>, read: nat, ghost inputs: seq<Input>)
    requires IsClient(p, pass)
    modifies hs
    ensures read <= |arrivals| && Fed(inputs) == Flat(arrivals[..read])
    ensures Rounds(pass, old(hs.Now()), Proceed, inputs) == (hs.Now(), w, flushed)
    ensures w != Flush && (w == Proceed ==> hs.state.Done?)
    ensures w == ReadMessage || w == ReadChangeCipherSpec ==> read == |arrivals| && hs.inbox == []
    ensures ClientSound(p, old(hs.Now())) ==> ClientSound(p, hs.Now())
    ensures ClientSound(p, old(hs.Now())) && hs.state.Done? ==> BothFinished(hs.Now(), false)
  {
    w, flushed, read, inputs := Proceed, [], 0, [];
    ghost var start := hs.Now();
    while true
      invariant read <= |arrivals| && Fed(inputs) == Flat(arrivals[..read])
      invariant Rounds(pass, start, Proceed, inputs) == (hs.Now(), w, flushed)
      decreases |arrivals| - read, C.Rank(p.resumed, hs.state), Urgency(hs.Now(), w)
    {
      if w == Proceed {
        if hs.state.Done? {
          break;
        }
        ghost var more;
        w, more := RunClient(p, pass, hs);
        RoundsFurther(pass, start, Proceed, inputs, more);
        FedFurther(inputs, more);
        assert flushed + [] == flushed && Fed(inputs) + [] == Fed(inputs);
        inputs := inputs + more;
      } else if w == Error || w == Retry || w == EarlyReturn {
        break;
      } else {
        ghost var input, before := Input([], false), hs.Now();
        var stuck, next, out, now;
        stuck, next, out, now, input := hs.ResolveNext(w, arrivals, read);
        if stuck {
          break;
        }
        OneMoreRound(pass, start, Proceed, inputs, input);
        assert (hs.Now(), next, out) == Round(pass, before, w, input);
        w, flushed, read, inputs := next, flushed + out, now, inputs + [input];
      }
    }
    ClientEnds(p, pass, start, inputs, hs.Now());
  }
}

/** The server's steps on the machine, and the loop that drives them. */
module TlsServerMachine {
  import opened TlsAnyPeer
  import opened TlsHandshake
  import opened TlsMachine
  import opened TlsRounds
  import S = TlsServer

  method ReadClientHello(p: Params, hs: Machine<S.ServerState>) returns (w: Wait)
    requires hs.state.ReadClientHello?
    modifies hs
    ensures (hs.Now(), w) == S.DoReadClientHello(p, old(hs.Now()))
  {
    var ok, msg := hs.GetMessage();
    if !ok {
      return ReadMessage;
    }
    if KindOf(msg) != ClientHello {
      return Error;
    }
    hs.state := S.SelectCertificate;
    return Proceed;
  }

  method SelectCertificate(p: Params, hs: Machine<S.ServerState>, retry: bool) returns (w: Wait)
    requires hs.state.SelectCertificate?
    modifies hs
    ensures (hs.Now(), w) == S.DoSelectCertificate(p, old(hs.Now()), retry)
  {
    var ok, _ := hs.GetMessage();
    if !ok {
      return ReadMessage;
    }
    if retry {
      return Retry;
    }
    hs.state := S.SelectParameters;
    return Proceed;
  }

  method SelectParameters(p: Params, hs: Machine<S.ServerState>, retry: bool) returns (w: Wait)
    requires hs.state.SelectParameters?
    modifies hs
    ensures (hs.Now(), w) == S.DoSelectParameters(p, old(hs.Now()), retry)
  {
    var ok, _ := hs.GetMessage();
    if !ok {
      return ReadMessage;
    }
    if retry {
      return Retry;
    }
    hs.HashAndNext();
    if !p.certRequest {
      hs.buffered := false;
    }
    hs.state := S.SendServerHello;
    return Proceed;
  }

  method SendServerHello(p: Params, hs: Machine<S.ServerState>) returns (w: Wait)
    requires hs.state.SendServerHello?
    modifies hs
    ensures (hs.Now(), w) == S.DoSendServerHello(p, old(hs.Now()))
  {
    hs.AddMessage(Plain(ServerHello, p.content(ServerHello, true)));
    if p.resumed {
      hs.state := S.SendServerFinished;
    } else {
      hs.state := S.SendServerCertificate;
    }
    return Proceed;
  }

  method SendServerCertificate(p: Params, hs: Machine<S.ServerState>) returns (w: Wait)
    requires hs.state.SendServerCertificate?
    modifies hs
    ensures (hs.Now(), w) == S.DoSendServerCertificate(p, old(hs.Now()))
  {
    if p.certAuth {
      hs.AddMessage(Plain(Certificate, p.content(Certificate, true)));
      if p.ocsp {
        hs.AddMessage(Plain(CertificateStatus, p.content(CertificateStatus, true)));
      }
    }
    hs.state := S.SendServerKeyExchange;
    return Proceed;
  }

  method SendServerKeyExchange(p: Params, hs: Machine<S.ServerState>, retry: bool) returns (w: Wait)
    requires hs.state.SendServerKeyExchange?
    modifies hs
    ensures (hs.Now(), w) == S.DoSendServerKeyExchange(p, old(hs.Now()), retry)
  {
    if p.ecdhe || p.pskHint {
      if p.certAuth && retry {
        return Retry;
      }
      hs.AddMessage(Plain(ServerKeyExchange, p.content(ServerKeyExchange, true)));
    }
    hs.state := S.SendServerHelloDone;
    return Proceed;
  }

  method SendServerHelloDone(p: Params, hs: Machine<S.ServerState>) returns (w: Wait)
    requires hs.state.SendServerHelloDone?
    modifies hs
    ensures (hs.Now(), w) == S.DoSendServerHelloDone(p, old(hs.Now()))
  {
    if p.certRequest {
      hs.AddMessage(Plain(CertificateRequest, p.content(CertificateRequest, true)));
    }
    hs.AddMessage(Plain(ServerHelloDone, p.content(ServerHelloDone, true)));
    hs.state := S.ReadClientCertificate;
    return Flush;
  }

  method ReadClientCertificate(p: Params, hs: Machine<S.ServerState>) returns (w: Wait)
    requires hs.state.ReadClientCertificate?
    modifies hs
    ensures (hs.Now(), w) == S.DoReadClientCertificate(p, old(hs.Now()))
  {
    if p.certRequest {
      var ok, msg := hs.GetMessage();
      if !ok {
        return ReadMessage;
      }
      if KindOf(msg) != Certificate {
        return Error;
      }
      if msg.Plain? && msg.content == [] {
        if p.failIfNoCert {
          return Error;
        }
        hs.buffered := false;
      } else {
        hs.peerPubkey := true;
      }
      hs.HashAndNext();
    }
    hs.state := S.VerifyClientCertificate;
    return Proceed;
  }

  method ReadClientKeyExchange(p: Params, hs: Machine<S.ServerState>, retry: bool) returns (w: Wait)
    requires hs.state.ReadClientKeyExchange?
    modifies hs
    ensures (hs.Now(), w) == S.DoReadClientKeyExchange(p, old(hs.Now()), retry)
  {
    var ok, msg := hs.GetMessage();
    if !ok {
      return ReadMessage;
    }
    if KindOf(msg) != ClientKeyExchange {
      return Error;
    }
    if retry {
      return Retry;
    }
    hs.HashAndNext();
    hs.masterSeed := hs.transcript;
    hs.state := S.ReadClientCertificateVerify;
    return Proceed;
  }

  method ReadClientCertificateVerify(p: Params, hs: Machine<S.ServerState>) returns (w: Wait)
    requires hs.state.ReadClientCertificateVerify?
    modifies hs
    ensures (hs.Now(), w) == S.DoReadClientCertificateVerify(p, old(hs.Now()))
  {
    if hs.peerPubkey {
      var ok, msg := hs.GetMessage();
      if !ok {
        return ReadMessage;
      }
      if KindOf(msg) != CertificateVerify {
        return Error;
      }
      if !hs.buffered || msg != Signed(CertificateVerify, hs.transcript) {
        return Error;
      }
      hs.HashAndNext();
    }
    hs.buffered := false;
    hs.state := S.AwaitChangeCipherSpec;
    return Proceed;
  }

  method ReadNextProto(p: Params, hs: Machine<S.ServerState>) returns (w: Wait)
    requires hs.state.ReadNextProto?
    modifies hs
    ensures (hs.Now(), w) == S.DoReadNextProto(p, old(hs.Now()))
  {
    if p.npn {
      var ok, msg := hs.GetMessage();
      if !ok {
        return ReadMessage;
      }
      if KindOf(msg) != NextProto {
        return Error;
      }
      hs.HashAndNext();
    }
    hs.state := S.ReadChannelId;
    return Proceed;
  }

  method ReadChannelId(p: Params, hs: Machine<S.ServerState>) returns (w: Wait)
    requires hs.state.ReadChannelId?
    modifies hs
    ensures (hs.Now(), w) == S.DoReadChannelId(p, old(hs.Now()))
  {
    if p.channelId {
      var ok, msg := hs.GetMessage();
      if !ok {
        return ReadMessage;
      }
      if KindOf(msg) != ChannelId {
        return Error;
      }
      if msg != Signed(ChannelId, hs.transcript) {
        return Error;
      }
      hs.HashAndNext();
    }
    hs.state := S.ReadClientFinished;
    return Proceed;
  }

  method SendServerFinished(p: Params, hs: Machine<S.ServerState>) returns (w: Wait)
    requires hs.state.SendServerFinished?
    modifies hs
    ensures (hs.Now(), w) == S.DoSendServerFinished(p, old(hs.Now()))
  {
    if p.ticket {
      hs.AddMessage(Plain(NewSessionTicket, p.content(NewSessionTicket, true)));
    }
    hs.AddChangeCipherSpec();
    assert hs.Now() == S.LastMessages(p, old(hs.Now()));
    hs.WriteFinished(true);
    if p.resumed {
      hs.state := S.AwaitChangeCipherSpec;
    } else {
      hs.state := S.FinishServerHandshake;
    }
    return Flush;
  }

  method VerifyClientCertificate(p: Params, hs: Machine<S.ServerState>, retry: bool) returns (w: Wait)
    requires hs.state.VerifyClientCertificate?
    modifies hs
    ensures (hs.Now(), w) == S.DoVerifyClientCertificate(p, old(hs.Now()), retry)
  {
    if hs.peerPubkey && retry {
      return Retry;
    }
    hs.state := S.ReadClientKeyExchange;
    return Proceed;
  }

  method AwaitChangeCipherSpec(p: Params, hs: Machine<S.ServerState>) returns (w: Wait)
    requires hs.state.AwaitChangeCipherSpec?
    modifies hs
    ensures (hs.Now(), w) == S.DoReadChangeCipherSpec(p, old(hs.Now()))
  {
    hs.state := S.ProcessChangeCipherSpec;
    return ReadChangeCipherSpec;
  }

  method ProcessChangeCipherSpec(p: Params, hs: Machine<S.ServerState>) returns (w: Wait)
    requires hs.state.ProcessChangeCipherSpec?
    modifies hs
    ensures (hs.Now(), w) == S.DoProcessChangeCipherSpec(p, old(hs.Now()))
  {
    hs.readSwitched := true;
    hs.state := S.ReadNextProto;
    return Proceed;
  }

  method ReadClientFinished(p: Params, hs: Machine<S.ServerState>) returns (w: Wait)
    requires hs.state.ReadClientFinished?
    modifies hs
    ensures (hs.Now(), w) == S.DoReadClientFinished(p, old(hs.Now()))
  {
    w := hs.ReadFinished(true, if p.resumed then S.FinishServerHandshake else S.SendServerFinished);
  }

  /** The switch in ssl_server_handshake. */
  method ServerPass(p: Params, hs: Machine<S.ServerState>, retry: bool) returns (w: Wait)
    modifies hs
    ensures (hs.Now(), w) == S.ServerDo(p, old(hs.Now()), retry)
  {
    w := Proceed;
    match hs.state
    case StartAccept => hs.state := S.ReadClientHello;
    case ReadClientHello => w := ReadClientHello(p, hs);
    case SelectCertificate => w := SelectCertificate(p, hs, retry);
    case SelectParameters => w := SelectParameters(p, hs, retry);
    case SendServerHello => w := SendServerHello(p, hs);
    case SendServerCertificate => w := SendServerCertificate(p, hs);
    case SendServerKeyExchange => w := SendServerKeyExchange(p, hs, retry);
    case SendServerHelloDone => w := SendServerHelloDone(p, hs);
    case ReadClientCertificate => w := ReadClientCertificate(p, hs);
    case VerifyClientCertificate => w := VerifyClientCertificate(p, hs, retry);
    case ReadClientKeyExchange => w := ReadClientKeyExchange(p, hs, retry);
    case ReadClientCertificateVerify => w := ReadClientCertificateVerify(p, hs);
    case AwaitChangeCipherSpec => w := AwaitChangeCipherSpec(p, hs);
    case ProcessChangeCipherSpec => w := ProcessChangeCipherSpec(p, hs);
    case ReadNextProto => w := ReadNextProto(p, hs);
    case ReadChannelId => w := ReadChannelId(p, hs);
    case ReadClientFinished => w := ReadClientFinished(p, hs);
    case SendServerFinished => w := SendServerFinished(p, hs);
    case FinishServerHandshake => hs.state := S.Done;
    case Done =>
  }

  /** ssl_server_handshake: it goes on until the handshake is done or has to wait, and it ends. */
  method RunServer(p: Params, ghost pass: Pass<S.ServerState>, hs: Machine<S.ServerState>)
    returns (w: Wait, ghost inputs: seq<Input>)
    requires IsServer(p, pass)
    modifies hs
    ensures Rounds(pass, old(hs.Now()), Proceed, inputs) == (hs.Now(), w, []) && Fed(inputs) == []
    ensures w == Proceed ==> hs.state.Done?
    ensures w == ReadMessage ==> !Has(hs.Now())
    ensures S.Rank(p.resumed, hs.state) <= S.Rank(p.resumed, old(hs.state))
    ensures old(hs.state.Done?) || S.Rank(p.resumed, hs.state) < S.Rank(p.resumed, old(hs.state))
            || w == Retry || w == Error || (w == ReadMessage && hs.Now() == old(hs.Now()))
  {
    inputs := [];
    w := Proceed;
    while !hs.state.Done?
      invariant w == Proceed && Rounds(pass, old(hs.Now()), Proceed, inputs) == (hs.Now(), Proceed, [])
      invariant Fed(inputs) == []
      invariant hs.Now() == old(hs.Now()) || S.Rank(p.resumed, hs.state) < S.Rank(p.resumed, old(hs.state))
      decreases S.Rank(p.resumed, hs.state)
    {
      var retry: bool := *;
      ghost var before, input := hs.Now(), Input([], retry);
      w := ServerPass(p, hs, retry);
      assert IsPassOfServer(p, pass, before, retry);
      OneMoreRound(pass, old(hs.Now()), Proceed, inputs, input);
      assert before.inbox + [] == before.inbox;
      assert S.Regular(p, before, (hs.Now(), w));
      inputs := inputs + [input];
      if w != Proceed {
        return;
      }
    }
  }

  /** ssl_run_handshake, given what is going to arrive. It ends whatever the peer sends: done, failed, put off, or with
      all of it read and more needed. */
  method CompleteServer(p: Params, ghost pass: Pass<S.ServerState>, hs: Machine<S.ServerState>,
                        arrivals: seq<seq<Item>>)
    returns (w: Wait, flushed: seq<Item>, read: nat, ghost inputs: seq<Input>)
    requires IsServer(p, pass)
    modifies hs
    ensures read <= |arrivals| && Fed(inputs) == Flat(arrivals[..read])
    ensures Rounds(pass, old(hs.Now()), Proceed, inputs) == (hs.Now(), w, flushed)
    ensures w != Flush && (w == Proceed ==> hs.state.Done?)
    ensures w == ReadMessage || w == ReadChangeCipherSpec ==> read == |arrivals| && hs.inbox == []
    ensures ServerSound(p, old(hs.Now())) ==> ServerSound(p, hs.Now())
    ensures ServerSound(p, old(hs.Now())) && hs.state.Done? ==> BothFinished(hs.Now(), true)
  {
    w, flushed, read, inputs := Proceed, [], 0, [];
    ghost var start := hs.Now();
    while true
      invariant read <= |arrivals| && Fed(inputs) == Flat(arrivals[..read])
      invariant Rounds(pass, start, Proceed, inputs) == (hs.Now(), w, flushed)
      decreases |arrivals| - read, S.Rank(p.resumed, hs.state), Urgency(hs.Now(), w)
    {
      if w == Proceed {
        if hs.state.Done? {
          break;
        }
        ghost var more;
        w, more := RunServer(p, pass, hs);
        RoundsFurther(pass, start, Proceed, inputs, more);
        FedFurther(inputs, more);
        assert flushed + [] == flushed && Fed(inputs) + [] == Fed(inputs);
        inputs := inputs + more;
      } else if w == Error || w == Retry || w == EarlyReturn {
        break;
      } else {
        ghost var input, before := Input([], false), hs.Now();
        var stuck, next, out, now;
        stuck, next, out, now, input := hs.ResolveNext(w, arrivals, read);
        if stuck {
          break;
        }
        OneMoreRound(pass, start, Proceed, inputs, input);
        assert (hs.Now(), next, out) == Round(pass, before, w, input);
        w, flushed, read, inputs := next, flushed + out, now, inputs + [input];
      }
    }
    ServerEnds(p, pass, start, inputs, hs.Now());
  }
}

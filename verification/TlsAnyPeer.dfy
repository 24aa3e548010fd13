/** What each party can rely on whatever its peer and the network do. */
module TlsAnyPeer {
  import opened TlsHandshake
  import opened TlsRounds
  import TlsClient
  import TlsServer

  predicate IsPassOfClient(p: Params, pass: Pass<TlsClient.ClientState>, h: Handshake<TlsClient.ClientState>,
                           retry: bool) {
    pass(h, retry) == TlsClient.ClientDo(p, h, retry)
  }

  /** The passes are those of the client. */
  ghost predicate IsClient(p: Params, pass: Pass<TlsClient.ClientState>) {
    forall h, retry :: IsPassOfClient(p, pass, h, retry)
  }

  predicate IsPassOfServer(p: Params, pass: Pass<TlsServer.ServerState>, h: Handshake<TlsServer.ServerState>,
                           retry: bool) {
    pass(h, retry) == TlsServer.ServerDo(p, h, retry)
  }

  /** The passes are those of the server. */
  ghost predicate IsServer(p: Params, pass: Pass<TlsServer.ServerState>) {
    forall h, retry :: IsPassOfServer(p, pass, h, retry)
  }

  /** The order of ciphers and Finished messages is kept, and the MACs are over the own transcript. */
  ghost predicate ClientSound(p: Params, h: Handshake<TlsClient.ClientState>) {
    TlsClient.Ordered(p, h) && Vouched(h, false)
  }

  ghost predicate ServerSound(p: Params, h: Handshake<TlsServer.ServerState>) {
    TlsServer.Ordered(p, h) && Vouched(h, true)
  }

  lemma ClientLastGoes(p: Params, h: Handshake<TlsClient.ClientState>)
    ensures Goes(h, TlsClient.LastMessages(p, h))
  {
    var a, m := SendCcs(h), Plain(NextProto, p.content(NextProto, false));
    var b := if p.npn then Send(a, m) else a;
    SendGoes(h, a, m);
    SendGoes(h, b, Signed(ChannelId, b.transcript));
  }

  lemma ClientFinishedVouches(p: Params, h: Handshake<TlsClient.ClientState>, retry: bool)
    requires Vouched(h, false) && (h.state.ReadServerFinished? || h.state.SendClientFinished?)
    ensures Vouched(TlsClient.ClientDo(p, h, retry).0, false)
  {
    if h.state.ReadServerFinished? {
      GetFinishedVouches(h, false, if p.resumed then TlsClient.SendClientFinished else TlsClient.FinishClientHandshake);
    } else {
      ClientLastGoes(p, h);
      SendFinishedVouches(h, TlsClient.LastMessages(p, h), false);
    }
  }

  lemma ClientVouches(p: Params, h: Handshake<TlsClient.ClientState>, retry: bool, g: Handshake<TlsClient.ClientState>)
    requires Vouched(h, false) && g == TlsClient.ClientDo(p, h, retry).0
    ensures Vouched(g, false)
  {
    if h.state.ReadServerFinished? || h.state.SendClientFinished? {
      ClientFinishedVouches(p, h, retry);
    } else {
      GoesVouched(h, g, false);
    }
  }

  lemma ServerLastGoes(p: Params, h: Handshake<TlsServer.ServerState>)
    ensures Goes(h, TlsServer.LastMessages(p, h))
  {
    SendGoes(h, h, Plain(NewSessionTicket, p.content(NewSessionTicket, true)));
  }

  lemma ServerFinishedVouches(p: Params, h: Handshake<TlsServer.ServerState>, retry: bool)
    requires Vouched(h, true) && (h.state.ReadClientFinished? || h.state.SendServerFinished?)
    ensures Vouched(TlsServer.ServerDo(p, h, retry).0, true)
  {
    if h.state.ReadClientFinished? {
      GetFinishedVouches(h, true, if p.resumed then TlsServer.FinishServerHandshake else TlsServer.SendServerFinished);
    } else {
      ServerLastGoes(p, h);
      SendFinishedVouches(h, TlsServer.LastMessages(p, h), true);
    }
  }

  lemma ServerVouches(p: Params, h: Handshake<TlsServer.ServerState>, retry: bool, g: Handshake<TlsServer.ServerState>)
    requires Vouched(h, true) && g == TlsServer.ServerDo(p, h, retry).0
    ensures Vouched(g, true)
  {
    if h.state.ReadClientFinished? || h.state.SendServerFinished? {
      ServerFinishedVouches(p, h, retry);
    } else {
      GoesVouched(h, g, true);
    }
  }

  lemma ClientPassSound(p: Params, g: Handshake<TlsClient.ClientState>, retry: bool)
    requires ClientSound(p, g)
    ensures ClientSound(p, TlsClient.ClientDo(p, g, retry).0)
  {
    ClientVouches(p, g, retry, TlsClient.ClientDo(p, g, retry).0);
    if g.state.Done? {
      assert TlsClient.ClientDo(p, g, retry).0 == g;
    } else {
      assert TlsClient.Regular(p, g, TlsClient.ClientDo(p, g, retry));
    }
  }

  lemma ClientRoundSound(p: Params, pass: Pass<TlsClient.ClientState>, h: Handshake<TlsClient.ClientState>, w: Wait,
                         input: Input)
    requires IsClient(p, pass) && ClientSound(p, h)
    ensures ClientSound(p, Round(pass, h, w, input).0)
  {
    var g := h.(inbox := h.inbox + input.arrived);
    assert ClientSound(p, g);
    if w == Proceed {
      assert IsPassOfClient(p, pass, g, input.retry);
      ClientPassSound(p, g, input.retry);
    }
  }

  lemma ServerPassSound(p: Params, g: Handshake<TlsServer.ServerState>, retry: bool)
    requires ServerSound(p, g)
    ensures ServerSound(p, TlsServer.ServerDo(p, g, retry).0)
  {
    ServerVouches(p, g, retry, TlsServer.ServerDo(p, g, retry).0);
    if g.state.Done? {
      assert TlsServer.ServerDo(p, g, retry).0 == g;
    } else {
      assert TlsServer.Regular(p, g, TlsServer.ServerDo(p, g, retry));
    }
  }

  lemma ServerRoundSound(p: Params, pass: Pass<TlsServer.ServerState>, h: Handshake<TlsServer.ServerState>, w: Wait,
                         input: Input)
    requires IsServer(p, pass) && ServerSound(p, h)
    ensures ServerSound(p, Round(pass, h, w, input).0)
  {
    var g := h.(inbox := h.inbox + input.arrived);
    assert ServerSound(p, g);
    if w == Proceed {
      assert IsPassOfServer(p, pass, g, input.retry);
      ServerPassSound(p, g, input.retry);
    }
  }

  lemma {:induction false} ClientStaysSound(p: Params, pass: Pass<TlsClient.ClientState>,
                                            h: Handshake<TlsClient.ClientState>,
                                           w: Wait, inputs: seq<Input>)
    requires IsClient(p, pass) && ClientSound(p, h)
    ensures ClientSound(p, Rounds(pass, h, w, inputs).0)
  {
    if inputs != [] {
      var before := inputs[..|inputs| - 1];
      ClientStaysSound(p, pass, h, w, before);
      var r := Rounds(pass, h, w, before);
      ClientRoundSound(p, pass, r.0, r.1, inputs[|inputs| - 1]);
    }
  }

  lemma {:induction false} ServerStaysSound(p: Params, pass: Pass<TlsServer.ServerState>,
                                            h: Handshake<TlsServer.ServerState>,
                                           w: Wait, inputs: seq<Input>)
    requires IsServer(p, pass) && ServerSound(p, h)
    ensures ServerSound(p, Rounds(pass, h, w, inputs).0)
  {
    if inputs != [] {
      var before := inputs[..|inputs| - 1];
      ServerStaysSound(p, pass, h, w, before);
      var r := Rounds(pass, h, w, before);
      ServerRoundSound(p, pass, r.0, r.1, inputs[|inputs| - 1]);
    }
  }

  /** Both ciphers are switched, and both Finished messages stand in the transcript, each right behind the part of it
      that its MAC is over. */
  ghost predicate BothFinished<S>(h: Handshake<S>, server: bool) {
    && h.readSwitched && h.writeSwitched && h.macSent.Some? && h.macChecked.Some?
    && h.macChecked.value + [Finished(!server, h.macChecked.value)] <= h.transcript
    && h.macSent.value + [Finished(server, h.macSent.value)] <= h.transcript
  }

  lemma ClientFinished(p: Params, h: Handshake<TlsClient.ClientState>)
    requires ClientSound(p, h) && h.state.Done?
    ensures BothFinished(h, false)
  {
    assert TlsClient.Rank(p.resumed, h.state) == 0;
  }

  lemma ClientEnds(p: Params, pass: Pass<TlsClient.ClientState>, h: Handshake<TlsClient.ClientState>,
                   inputs: seq<Input>,
                   g: Handshake<TlsClient.ClientState>)
    requires IsClient(p, pass) && g == Rounds(pass, h, Proceed, inputs).0
    ensures ClientSound(p, h) ==> ClientSound(p, g) && (g.state.Done? ==> BothFinished(g, false))
  {
    if ClientSound(p, h) {
      ClientStaysSound(p, pass, h, Proceed, inputs);
      if g.state.Done? {
        ClientFinished(p, g);
      }
    }
  }

  /** Whatever a peer sends, and in whatever pieces, a client that is done has switched both ciphers, sent its Finished
      and verified the other's against its own transcript. */
  lemma ClientDoneMeansFinished(p: Params, pass: Pass<TlsClient.ClientState>, inputs: seq<Input>,
                                 h: Handshake<TlsClient.ClientState>)
    requires IsClient(p, pass) && h == Rounds(pass, Begin(TlsClient.StartConnect), Proceed, inputs).0 && h.state.Done?
    ensures BothFinished(h, false)
  {
    ClientStaysSound(p, pass, Begin(TlsClient.StartConnect), Proceed, inputs);
    ClientFinished(p, h);
  }

  lemma ServerFinished(p: Params, h: Handshake<TlsServer.ServerState>)
    requires ServerSound(p, h) && h.state.Done?
    ensures BothFinished(h, true)
  {
    assert TlsServer.Rank(p.resumed, h.state) == 0;
  }

  lemma ServerEnds(p: Params, pass: Pass<TlsServer.ServerState>, h: Handshake<TlsServer.ServerState>,
                   inputs: seq<Input>,
                   g: Handshake<TlsServer.ServerState>)
    requires IsServer(p, pass) && g == Rounds(pass, h, Proceed, inputs).0
    ensures ServerSound(p, h) ==> ServerSound(p, g) && (g.state.Done? ==> BothFinished(g, true))
  {
    if ServerSound(p, h) {
      ServerStaysSound(p, pass, h, Proceed, inputs);
      if g.state.Done? {
        ServerFinished(p, g);
      }
    }
  }

  /** The same of a server. */
  lemma ServerDoneMeansFinished(p: Params, pass: Pass<TlsServer.ServerState>, inputs: seq<Input>,
                                 h: Handshake<TlsServer.ServerState>)
    requires IsServer(p, pass) && h == Rounds(pass, Begin(TlsServer.StartAccept), Proceed, inputs).0 && h.state.Done?
    ensures BothFinished(h, true)
  {
    ServerStaysSound(p, pass, Begin(TlsServer.StartAccept), Proceed, inputs);
    ServerFinished(p, h);
  }
}

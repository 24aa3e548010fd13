/** Client and server together: over every interleaving neither rejects what the other sends, both get to the end, and
    they agree on what was said. */
module TlsLockstep {
  import opened Bytes
  import opened TlsHandshake
  import opened TlsConversation
  import TlsClient
  import TlsServer
  import C = TlsClientSteps
  import S = TlsServerSteps

  /** Both parties, what each waits for, and the items under way. */
  datatype System = System(
    client: Handshake<TlsClient.ClientState>, cw: Wait, server: Handshake<TlsServer.ServerState>, sw: Wait,
    toServer: seq<Item>, toClient: seq<Item>)

  const START: System := System(Begin(TlsClient.StartConnect), Proceed, Begin(TlsServer.StartAccept), Proceed, [], [])

  /** A party runs one round of its driver, with an asynchronous operation finished or not; or an item arrives. */
  datatype Action = RunClient(retry: bool) | RunServer(retry: bool) | DeliverToClient | DeliverToServer

  function Step(p: Params, s: System, a: Action): System {
    match a
    case RunClient(retry) =>
      if s.cw == Proceed then
        var r := TlsClient.ClientDo(p, s.client, retry);
        s.(client := r.0, cw := r.1)
      else
        var r := Resolve(s.client, s.cw);
        s.(client := r.0, cw := r.1, toServer := s.toServer + r.2)
    case RunServer(retry) =>
      if s.sw == Proceed then
        var r := TlsServer.ServerDo(p, s.server, retry);
        s.(server := r.0, sw := r.1)
      else
        var r := Resolve(s.server, s.sw);
        s.(server := r.0, sw := r.1, toClient := s.toClient + r.2)
    case DeliverToClient =>
      if s.toClient == [] then s
      else s.(client := s.client.(inbox := s.client.inbox + [s.toClient[0]]), toClient := s.toClient[1..])
    case DeliverToServer =>
      if s.toServer == [] then s
      else s.(server := s.server.(inbox := s.server.inbox + [s.toServer[0]]), toServer := s.toServer[1..])
  }

  function RunFrom(p: Params, s: System, actions: seq<Action>): System
    decreases |actions|
  {
    if actions == [] then s else RunFrom(p, Step(p, s, actions[0]), actions[1..])
  }

  function Run(p: Params, actions: seq<Action>): System {
    RunFrom(p, START, actions)
  }

  // ---------- The invariant ----------

  function ClientAt(p: Params, s: System): nat {
    C.ClientSlot(p.resumed, s.client.state, s.cw)
  }

  function ServerAt(p: Params, s: System): nat {
    S.ServerSlot(p.resumed, s.server.state, s.sw)
  }

  ghost predicate ClientFine(p: Params, c: Talk, s: System) {
    && C.ClientHolds(p, c, s.client, s.cw, ServerAt(p, s), s.toClient + s.server.flight, s.server.inbox + s.toServer)
    && (s.cw == ReadMessage ==> Awaits(c, false, ClientAt(p, s), true))
    && (s.cw == ReadChangeCipherSpec ==> Awaits(c, false, ClientAt(p, s), false))
  }

  ghost predicate ServerFine(p: Params, c: Talk, s: System) {
    && S.ServerHolds(p, c, s.server, s.sw, ClientAt(p, s), s.toServer + s.client.flight, s.client.inbox + s.toClient)
    && (s.sw == ReadMessage ==> Awaits(c, true, ServerAt(p, s), true))
    && (s.sw == ReadChangeCipherSpec ==> Awaits(c, true, ServerAt(p, s), false))
  }

  ghost predicate Inv(p: Params, c: Talk, s: System) {
    Consistent(p) && Faithful(p, c) && ClientFine(p, c, s) && ServerFine(p, c, s)
  }

  lemma StartFine(p: Params, c: Talk)
    requires Consistent(p) && Faithful(p, c)
    ensures Inv(p, c, START)
  {
  }

  lemma SameQueue(a: seq<Item>, b: seq<Item>, c: seq<Item>)
    ensures a + (b + c) == (a + b) + c
  {
  }

  /** The server's half of the invariant only sees the client's slot and the items between them. */
  lemma ServerStays(p: Params, c: Talk, s: System, t: System)
    requires ServerFine(p, c, s) && t.server == s.server && t.sw == s.sw
    requires Link(c, false, ClientAt(p, t), ServerAt(p, t), t.client.inbox + (t.toClient + t.server.flight),
                  (t.server.inbox + t.toServer) + t.client.flight)
    ensures ServerFine(p, c, t)
  {
    LinkFromPeer(c, false, ClientAt(p, t), ServerAt(p, t), t.client.inbox + (t.toClient + t.server.flight),
                 (t.server.inbox + t.toServer) + t.client.flight);
    SameQueue(t.client.inbox, t.toClient, t.server.flight);
    SameQueue(t.server.inbox, t.toServer, t.client.flight);
  }

  lemma ClientStays(p: Params, c: Talk, s: System, t: System)
    requires ClientFine(p, c, s) && t.client == s.client && t.cw == s.cw
    requires Link(c, true, ServerAt(p, t), ClientAt(p, t), t.server.inbox + (t.toServer + t.client.flight),
                  (t.client.inbox + t.toClient) + t.server.flight)
    ensures ClientFine(p, c, t)
  {
    LinkFromPeer(c, true, ServerAt(p, t), ClientAt(p, t), t.server.inbox + (t.toServer + t.client.flight),
                 (t.client.inbox + t.toClient) + t.server.flight);
    SameQueue(t.client.inbox, t.toClient, t.server.flight);
    SameQueue(t.server.inbox, t.toServer, t.client.flight);
  }

  // ---------- Steps of the client ----------

  lemma ClientPassAwaits(p: Params, c: Talk, h: Handshake<TlsClient.ClientState>, retry: bool)
    requires Consistent(p) && Faithful(p, c) && TlsClient.OnPath(p.resumed, h.state)
    ensures var r := TlsClient.ClientDo(p, h, retry);
            && (r.1 == ReadMessage ==> Awaits(c, false, C.ClientSlot(p.resumed, r.0.state, r.1), true))
            && (r.1 == ReadChangeCipherSpec ==> Awaits(c, false, C.ClientSlot(p.resumed, r.0.state, r.1), false))
  {
    var r := TlsClient.ClientDo(p, h, retry);
    if r.1 == ReadMessage {
      assert TlsClient.Regular(p, h, r);
      C.ClientAwaits(p, c, h);
      C.SameSlot(p.resumed, h.state, r.1);
    } else if r.1 == ReadChangeCipherSpec {
      C.ClientAwaitsCcs(p, c, h, retry);
    }
  }

  lemma ClientPassFine(p: Params, c: Talk, s: System, retry: bool)
    requires Inv(p, c, s) && s.cw == Proceed
    ensures ClientFine(p, c, Step(p, s, RunClient(retry)))
  {
    C.ClientStepHolds(p, c, s.client, retry, ServerAt(p, s), s.toClient + s.server.flight, s.server.inbox + s.toServer);
    ClientPassAwaits(p, c, s.client, retry);
  }

  /** What has arrived for a waiting client is what it waits for. */
  lemma ClientHasAwaited(p: Params, c: Talk, s: System, message: bool)
    requires Faithful(p, c) && ClientFine(p, c, s) && s.client.inbox != [] && Awaits(c, false, ClientAt(p, s), message)
    ensures s.client.inbox[0].Msg? == message
  {
    assert (s.client.inbox + (s.toClient + s.server.flight))[0] == s.client.inbox[0];
    ItemIsAwaited(c, false, ClientAt(p, s), ServerAt(p, s), s.client.inbox + (s.toClient + s.server.flight),
                  (s.server.inbox + s.toServer) + s.client.flight, message);
  }

  lemma ServerHasAwaited(p: Params, c: Talk, s: System, message: bool)
    requires Faithful(p, c) && ServerFine(p, c, s) && s.server.inbox != [] && Awaits(c, true, ServerAt(p, s), message)
    ensures s.server.inbox[0].Msg? == message
  {
    ItemIsAwaited(c, true, ServerAt(p, s), ClientAt(p, s), s.server.inbox + (s.toServer + s.client.flight),
                  (s.client.inbox + s.toClient) + s.server.flight, message);
  }

  lemma ItemIsAwaited(c: Talk, server: bool, i: nat, j: nat, toMe: seq<Item>, toPeer: seq<Item>, message: bool)
    requires Link(c, server, i, j, toMe, toPeer) && toMe != [] && j <= c.end && Awaits(c, server, i, message)
    ensures toMe[0].Msg? == message
  {
    FrontIsNext(c, i, j);
  }

  lemma ClientResolveFine(p: Params, c: Talk, s: System, retry: bool)
    requires Inv(p, c, s) && s.cw != Proceed
    ensures ClientFine(p, c, Step(p, s, RunClient(retry)))
  {
    var h, j, rest, prior := s.client, ServerAt(p, s), s.toClient + s.server.flight, s.server.inbox + s.toServer;
    assert s.toServer + [] == s.toServer;
    match s.cw {
      case Flush =>
        C.FlushHolds(p, c, h, s.cw, j, rest, prior);
        SameQueue(s.server.inbox, s.toServer, h.flight);
      case ReadMessage =>
        if h.inbox != [] {
          ClientHasAwaited(p, c, s, true);
          C.GoOnHolds(p, c, h, s.cw, j, rest, prior);
        }
      case ReadChangeCipherSpec =>
        if h.inbox != [] {
          C.CcsHolds(p, c, h, s.cw, j, rest, prior);
        }
      case _ =>
        C.GoOnHolds(p, c, h, s.cw, j, rest, prior);
    }
  }

  lemma ServerPassAwaits(p: Params, c: Talk, h: Handshake<TlsServer.ServerState>, retry: bool)
    requires Faithful(p, c) && TlsServer.OnPath(p.resumed, h.state)
    requires h.peerPubkey ==> p.certRequest && p.clientHasCert
    ensures var r := TlsServer.ServerDo(p, h, retry);
            && (r.1 == ReadMessage ==> Awaits(c, true, S.ServerSlot(p.resumed, r.0.state, r.1), true))
            && (r.1 == ReadChangeCipherSpec ==> Awaits(c, true, S.ServerSlot(p.resumed, r.0.state, r.1), false))
  {
    var r := TlsServer.ServerDo(p, h, retry);
    if r.1 == ReadMessage {
      assert TlsServer.Regular(p, h, r);
      S.ServerAwaits(p, c, h);
      S.SameSlot(p.resumed, h.state, r.1);
    } else if r.1 == ReadChangeCipherSpec {
      S.ServerAwaitsCcs(p, c, h, retry);
    }
  }

  lemma ServerPassFine(p: Params, c: Talk, s: System, retry: bool)
    requires Inv(p, c, s) && s.sw == Proceed
    ensures ServerFine(p, c, Step(p, s, RunServer(retry)))
  {
    S.ServerStepHolds(p, c, s.server, retry, ClientAt(p, s), s.toServer + s.client.flight, s.client.inbox + s.toClient);
    ServerPassAwaits(p, c, s.server, retry);
  }

  lemma ServerResolveFine(p: Params, c: Talk, s: System, retry: bool)
    requires Inv(p, c, s) && s.sw != Proceed
    ensures ServerFine(p, c, Step(p, s, RunServer(retry)))
  {
    var h, j, rest, prior := s.server, ClientAt(p, s), s.toServer + s.client.flight, s.client.inbox + s.toClient;
    assert s.toClient + [] == s.toClient;
    match s.sw {
      case Flush =>
        S.FlushHolds(p, c, h, s.sw, j, rest, prior);
        SameQueue(s.client.inbox, s.toClient, h.flight);
      case ReadMessage =>
        if h.inbox != [] {
          ServerHasAwaited(p, c, s, true);
          S.GoOnHolds(p, c, h, s.sw, j, rest, prior);
        }
      case ReadChangeCipherSpec =>
        if h.inbox != [] {
          S.CcsHolds(p, c, h, s.sw, j, rest, prior);
        }
      case _ =>
        S.GoOnHolds(p, c, h, s.sw, j, rest, prior);
    }
  }

  lemma RunClientFine(p: Params, c: Talk, s: System, retry: bool)
    requires Inv(p, c, s)
    ensures Inv(p, c, Step(p, s, RunClient(retry)))
  {
    if s.cw == Proceed {
      ClientPassFine(p, c, s, retry);
    } else {
      ClientResolveFine(p, c, s, retry);
    }
    ServerStays(p, c, s, Step(p, s, RunClient(retry)));
  }

  lemma RunServerFine(p: Params, c: Talk, s: System, retry: bool)
    requires Inv(p, c, s)
    ensures Inv(p, c, Step(p, s, RunServer(retry)))
  {
    if s.sw == Proceed {
      ServerPassFine(p, c, s, retry);
    } else {
      ServerResolveFine(p, c, s, retry);
    }
    ClientStays(p, c, s, Step(p, s, RunServer(retry)));
  }

  lemma Moved(inbox: seq<Item>, wire: seq<Item>, flight: seq<Item>)
    requires wire != []
    ensures (inbox + [wire[0]]) + (wire[1..] + flight) == inbox + (wire + flight)
    ensures (inbox + [wire[0]]) + wire[1..] == inbox + wire
  {
  }

  lemma DeliverFine(p: Params, c: Talk, s: System, a: Action)
    requires Inv(p, c, s) && (a.DeliverToClient? || a.DeliverToServer?)
    ensures Inv(p, c, Step(p, s, a))
  {
    if a.DeliverToClient? && s.toClient != [] {
      Moved(s.client.inbox, s.toClient, s.server.flight);
    } else if a.DeliverToServer? && s.toServer != [] {
      Moved(s.server.inbox, s.toServer, s.client.flight);
    }
  }

  lemma StepFine(p: Params, c: Talk, s: System, a: Action)
    requires Inv(p, c, s)
    ensures Inv(p, c, Step(p, s, a))
  {
    match a
    case RunClient(retry) => RunClientFine(p, c, s, retry);
    case RunServer(retry) => RunServerFine(p, c, s, retry);
    case _ => DeliverFine(p, c, s, a);
  }

  lemma {:induction false} RunFromFine(p: Params, c: Talk, s: System, actions: seq<Action>)
    requires Inv(p, c, s)
    ensures Inv(p, c, RunFrom(p, s, actions))
    decreases |actions|
  {
    if actions != [] {
      StepFine(p, c, s, actions[0]);
      RunFromFine(p, c, Step(p, s, actions[0]), actions[1..]);
    }
  }

  lemma RunFine(p: Params, actions: seq<Action>)
    requires Consistent(p)
    ensures Inv(p, TalkOf(p), Run(p, actions))
  {
    TalkIsFaithful(p);
    StartFine(p, TalkOf(p));
    RunFromFine(p, TalkOf(p), START, actions);
  }

  // ---------- The main results ----------

  /** However the two parties are scheduled and however slowly items arrive, neither ever rejects what the other sent.
      */
  lemma NeverRejects(p: Params, actions: seq<Action>)
    requires Consistent(p)
    ensures Run(p, actions).cw != Error && Run(p, actions).sw != Error
  {
    RunFine(p, actions);
  }

  lemma ClientNotesAtTheEnd(p: Params, c: Talk, s: System)
    requires Inv(p, c, s) && s.client.state == TlsClient.Done
    ensures s.client.transcript == c.transcript(c.end) && s.client.macSent == Some(c.marks.clientMac)
    ensures s.client.macChecked == Some(c.marks.serverMac) && (!p.resumed ==> s.client.masterSeed == c.marks.master)
  {
    assert ClientAt(p, s) == c.end;
  }

  lemma ServerNotesAtTheEnd(p: Params, c: Talk, s: System)
    requires Inv(p, c, s) && s.server.state == TlsServer.Done
    ensures s.server.transcript == c.transcript(c.end) && s.server.macSent == Some(c.marks.serverMac)
    ensures s.server.macChecked == Some(c.marks.clientMac) && (!p.resumed ==> s.server.masterSeed == c.marks.master)
  {
    assert ServerAt(p, s) == c.end;
  }

  /** When both are done they have hashed the same messages, each Finished was checked against the transcript it was
      made from, and in a full handshake the master secrets depend on the same transcript. */
  lemma AgreementAtTheEnd(p: Params, actions: seq<Action>, s: System)
    requires Consistent(p) && s == Run(p, actions)
    requires s.client.state == TlsClient.Done && s.server.state == TlsServer.Done
    ensures s.client.transcript == s.server.transcript
    ensures s.client.macSent.Some? && s.client.macSent == s.server.macChecked
    ensures s.server.macSent.Some? && s.server.macSent == s.client.macChecked
    ensures !p.resumed ==> s.client.masterSeed == s.server.masterSeed
  {
    RunFine(p, actions);
    ClientNotesAtTheEnd(p, TalkOf(p), s);
    ServerNotesAtTheEnd(p, TalkOf(p), s);
  }
}

/** Handshakes get to the end, from wherever two parties are. */
module TlsProgress {
  import opened TlsHandshake
  import opened TlsConversation
  import opened TlsLockstep
  import TlsClient
  import TlsServer

  // ---------- A measure of what is left to do ----------

  function Weight(w: Wait, hasInput: bool): nat {
    match w
    case Flush | Retry | EarlyReturn => 3
    case ReadMessage | ReadChangeCipherSpec => if hasInput then 3 else 0
    case Proceed => 2
    case Error => 0
  }

  function ClientLeft(p: Params, h: Handshake<TlsClient.ClientState>, w: Wait): nat {
    30 * TlsClient.Rank(p.resumed, h.state) + 5 * |h.flight| + Weight(w, h.inbox != [])
  }

  function ServerLeft(p: Params, h: Handshake<TlsServer.ServerState>, w: Wait): nat {
    30 * TlsServer.Rank(p.resumed, h.state) + 5 * |h.flight| + Weight(w, h.inbox != [])
  }

  function Measure(p: Params, s: System): nat {
    ClientLeft(p, s.client, s.cw) + ServerLeft(p, s.server, s.sw) + 4 * |s.toServer| + 4 * |s.toClient|
  }

  /** An asynchronous operation that is asked about is finished. */
  predicate Prompt(a: Action) {
    (a.RunClient? || a.RunServer?) ==> !a.retry
  }

  lemma ClientPassLowers(p: Params, h: Handshake<TlsClient.ClientState>)
    requires !h.state.Done?
    requires var r := TlsClient.ClientDo(p, h, false);
             r.1 != Error && (r.1 == ReadMessage && h.inbox != [] ==> h.inbox[0].Msg?)
    ensures var r := TlsClient.ClientDo(p, h, false); ClientLeft(p, r.0, r.1) < ClientLeft(p, h, Proceed)
  {
    var r := TlsClient.ClientDo(p, h, false);
    assert TlsClient.Regular(p, h, r);
    assert r.1 == ReadMessage ==> h.inbox == [];
  }

  lemma ServerPassLowers(p: Params, h: Handshake<TlsServer.ServerState>)
    requires !h.state.Done?
    requires var r := TlsServer.ServerDo(p, h, false);
             r.1 != Error && (r.1 == ReadMessage && h.inbox != [] ==> h.inbox[0].Msg?)
    ensures var r := TlsServer.ServerDo(p, h, false); ServerLeft(p, r.0, r.1) < ServerLeft(p, h, Proceed)
  {
    var r := TlsServer.ServerDo(p, h, false);
    assert TlsServer.Regular(p, h, r);
    assert r.1 == ReadMessage ==> h.inbox == [];
  }

  lemma ClientResolveLowers(p: Params, h: Handshake<TlsClient.ClientState>, w: Wait)
    requires w != Proceed && w != Error && (Resolve(h, w).0 != h || Resolve(h, w).1 != w)
    requires Resolve(h, w).1 != Error
    ensures var r := Resolve(h, w); ClientLeft(p, r.0, r.1) + 4 * |r.2| < ClientLeft(p, h, w)
  {
  }

  lemma ClientDoLowers(p: Params, c: Talk, s: System, t: System)
    requires Inv(p, c, s) && t == Step(p, s, RunClient(false)) && Inv(p, c, t) && s.cw == Proceed
             && !s.client.state.Done?
    ensures ClientLeft(p, t.client, t.cw) < ClientLeft(p, s.client, s.cw)
  {
    if t.cw == ReadMessage && t.client.inbox != [] {
      ClientHasAwaited(p, c, t, true);
    }
    ClientPassLowers(p, s.client);
  }

  lemma ClientNotFailed(p: Params, c: Talk, s: System)
    requires Inv(p, c, s)
    ensures s.cw != Error
  {
  }

  lemma RunClientLowers(p: Params, c: Talk, s: System, t: System)
    requires Inv(p, c, s) && t == Step(p, s, RunClient(false)) && Inv(p, c, t) && t != s
    ensures Measure(p, t) < Measure(p, s)
  {
    ClientNotFailed(p, c, s);
    ClientNotFailed(p, c, t);
    if s.cw == Proceed && !s.client.state.Done? {
      ClientDoLowers(p, c, s, t);
    }
    RunClientMeasureLowers(p, s, t);
  }

  lemma RunClientMeasureLowers(p: Params, s: System, t: System)
    requires t == Step(p, s, RunClient(false)) && t != s && s.cw != Error && t.cw != Error
    requires s.cw == Proceed && !s.client.state.Done? ==>
               ClientLeft(p, t.client, t.cw) < ClientLeft(p, s.client, s.cw)
    ensures Measure(p, t) < Measure(p, s)
  {
    if s.cw != Proceed {
      ClientResolveLowers(p, s.client, s.cw);
    }
  }

  lemma ServerResolveLowers(p: Params, h: Handshake<TlsServer.ServerState>, w: Wait)
    requires w != Proceed && w != Error && (Resolve(h, w).0 != h || Resolve(h, w).1 != w)
    requires Resolve(h, w).1 != Error
    ensures var r := Resolve(h, w); ServerLeft(p, r.0, r.1) + 4 * |r.2| < ServerLeft(p, h, w)
  {
  }

  lemma ServerDoLowers(p: Params, c: Talk, s: System, t: System)
    requires Inv(p, c, s) && t == Step(p, s, RunServer(false)) && Inv(p, c, t) && s.sw == Proceed
             && !s.server.state.Done?
    ensures ServerLeft(p, t.server, t.sw) < ServerLeft(p, s.server, s.sw)
  {
    if t.sw == ReadMessage && t.server.inbox != [] {
      ServerHasAwaited(p, c, t, true);
    }
    ServerPassLowers(p, s.server);
  }

  lemma ServerNotFailed(p: Params, c: Talk, s: System)
    requires Inv(p, c, s)
    ensures s.sw != Error
  {
  }

  lemma RunServerLowers(p: Params, c: Talk, s: System, t: System)
    requires Inv(p, c, s) && t == Step(p, s, RunServer(false)) && Inv(p, c, t) && t != s
    ensures Measure(p, t) < Measure(p, s)
  {
    ServerNotFailed(p, c, s);
    ServerNotFailed(p, c, t);
    if s.sw == Proceed && !s.server.state.Done? {
      ServerDoLowers(p, c, s, t);
    }
    RunServerMeasureLowers(p, s, t);
  }

  lemma RunServerMeasureLowers(p: Params, s: System, t: System)
    requires t == Step(p, s, RunServer(false)) && t != s && s.sw != Error && t.sw != Error
    requires s.sw == Proceed && !s.server.state.Done? ==>
               ServerLeft(p, t.server, t.sw) < ServerLeft(p, s.server, s.sw)
    ensures Measure(p, t) < Measure(p, s)
  {
    if s.sw != Proceed {
      ServerResolveLowers(p, s.server, s.sw);
    }
  }

  lemma DeliveryLowers(p: Params, s: System, a: Action)
    requires (a.DeliverToClient? || a.DeliverToServer?) && Step(p, s, a) != s
    ensures Measure(p, Step(p, s, a)) < Measure(p, s)
  {
  }

  /** Every step that does something and is not told to retry brings both parties closer to the end. */
  lemma StepLowersMeasure(p: Params, c: Talk, s: System, a: Action)
    requires Inv(p, c, s) && Prompt(a) && Step(p, s, a) != s
    ensures Measure(p, Step(p, s, a)) < Measure(p, s)
  {
    StepFine(p, c, s, a);
    match a
    case RunClient(_) => RunClientLowers(p, c, s, Step(p, s, a));
    case RunServer(_) => RunServerLowers(p, c, s, Step(p, s, a));
    case _ => DeliveryLowers(p, s, a);
  }

  // ---------- There is always a step ----------

  predicate BothDone(s: System) {
    s.client.state == TlsClient.Done && s.server.state == TlsServer.Done
  }

  predicate Blocked<T>(h: Handshake<T>, w: Wait) {
    h.inbox == [] && (w == ReadMessage || w == ReadChangeCipherSpec)
  }

  lemma BlockedHasNoFlight(p: Params, c: Talk, s: System)
    requires Inv(p, c, s)
    ensures Blocked(s.client, s.cw) || (s.client.state.Done? && s.cw == Proceed) ==> s.client.flight == []
    ensures Blocked(s.server, s.sw) || (s.server.state.Done? && s.sw == Proceed) ==> s.server.flight == []
  {
  }

  lemma ClientMoves(p: Params, s: System)
    requires s.cw != Error && !Blocked(s.client, s.cw) && !(s.client.state.Done? && s.cw == Proceed)
    ensures Step(p, s, RunClient(false)) != s
  {
    if s.cw == Proceed {
      var r := TlsClient.ClientDo(p, s.client, false);
      assert TlsClient.Regular(p, s.client, r);
    }
  }

  lemma ServerMoves(p: Params, s: System)
    requires s.sw != Error && !Blocked(s.server, s.sw) && !(s.server.state.Done? && s.sw == Proceed)
    ensures Step(p, s, RunServer(false)) != s
  {
    if s.sw == Proceed {
      var r := TlsServer.ServerDo(p, s.server, false);
      assert TlsServer.Regular(p, s.server, r);
    }
  }

  /** A party that is blocked waits for the other; one that is done is past the last slot. */
  ghost predicate Resting(c: Talk, server: bool, i: nat, done: bool, message: bool) {
    if done then i == c.end else i <= c.end && Awaits(c, server, i, message)
  }

  lemma RestingParties(p: Params, c: Talk, s: System)
    requires Inv(p, c, s)
    ensures Blocked(s.client, s.cw) ==> Resting(c, false, ClientAt(p, s), false, s.cw == ReadMessage)
    ensures s.client.state.Done? ==> Resting(c, false, ClientAt(p, s), true, false)
    ensures Blocked(s.server, s.sw) ==> Resting(c, true, ServerAt(p, s), false, s.sw == ReadMessage)
    ensures s.server.state.Done? ==> Resting(c, true, ServerAt(p, s), true, false)
  {
  }

  lemma QuietMeansDone(c: Talk, i: nat, j: nat, clientDone: bool, serverDone: bool, a: bool, b: bool,
                       toClient: seq<Item>, toServer: seq<Item>)
    requires Link(c, false, i, j, toClient, toServer)
    requires Resting(c, false, i, clientDone, a) && Resting(c, true, j, serverDone, b)
    requires clientDone || toClient == []
    requires serverDone || toServer == []
    requires clientDone && !serverDone ==> toServer == []
    requires !clientDone && !serverDone ==> toClient == [] && toServer == []
    ensures clientDone && serverDone
  {
    if !clientDone && !serverDone {
      NotBothWaiting(c, i, j, a, b, toClient, toServer);
    } else if !clientDone {
      NotWaitingForFinished(c, false, i, a, toClient, toServer);
    } else if !serverDone {
      LinkFromPeer(c, false, i, j, toClient, toServer);
      NotWaitingForFinished(c, true, j, b, toServer, toClient);
    }
  }

  lemma LinkOf(p: Params, c: Talk, s: System)
    requires Inv(p, c, s)
    ensures Link(c, false, ClientAt(p, s), ServerAt(p, s), s.client.inbox + (s.toClient + s.server.flight),
                 (s.server.inbox + s.toServer) + s.client.flight)
  {
  }

  /** With nothing on the way and neither able to move, both are done. */
  lemma NoDeadlock(p: Params, c: Talk, s: System)
    requires Inv(p, c, s) && s.toClient == [] && s.toServer == []
    requires Blocked(s.client, s.cw) || (s.client.state.Done? && s.cw == Proceed)
    requires Blocked(s.server, s.sw) || (s.server.state.Done? && s.sw == Proceed)
    ensures BothDone(s)
  {
    BlockedHasNoFlight(p, c, s);
    RestingParties(p, c, s);
    LinkOf(p, c, s);
    QuietMeansDone(c, ClientAt(p, s), ServerAt(p, s), s.client.state.Done? && s.cw == Proceed,
                   s.server.state.Done? && s.sw == Proceed,
                   s.cw == ReadMessage, s.sw == ReadMessage, s.client.inbox + (s.toClient + s.server.flight),
                   (s.server.inbox + s.toServer) + s.client.flight);
  }

  lemma SomeStep(p: Params, c: Talk, s: System) returns (a: Action)
    requires Inv(p, c, s) && !BothDone(s)
    ensures Prompt(a) && Step(p, s, a) != s
  {
    if s.toClient != [] {
      a := DeliverToClient;
    } else if s.toServer != [] {
      a := DeliverToServer;
    } else if !Blocked(s.client, s.cw) && !(s.client.state.Done? && s.cw == Proceed) {
      a := RunClient(false);
      ClientMoves(p, s);
    } else if !Blocked(s.server, s.sw) && !(s.server.state.Done? && s.sw == Proceed) {
      a := RunServer(false);
      ServerMoves(p, s);
    } else {
      a := RunServer(false);
      NoDeadlock(p, c, s);
    }
  }

  lemma CloserStep(p: Params, c: Talk, s: System) returns (a: Action, t: System)
    requires Inv(p, c, s) && !BothDone(s)
    ensures t == Step(p, s, a) && Inv(p, c, t) && Measure(p, t) < Measure(p, s)
  {
    a := SomeStep(p, c, s);
    t := Step(p, s, a);
    StepLowersMeasure(p, c, s, a);
    StepFine(p, c, s, a);
  }

  lemma RunFromStep(p: Params, s: System, a: Action, rest: seq<Action>, t: System)
    requires t == Step(p, s, a)
    ensures RunFrom(p, s, [a] + rest) == RunFrom(p, t, rest)
  {
    assert ([a] + rest)[1..] == rest;
  }

  lemma ReachDoneFrom(p: Params, c: Talk, s: System) returns (more: seq<Action>)
    requires Inv(p, c, s)
    ensures BothDone(RunFrom(p, s, more))
    decreases Measure(p, s)
  {
    if BothDone(s) {
      more := [];
    } else {
      var a, t := CloserStep(p, c, s);
      var rest := ReachDoneFrom(p, c, t);
      more := [a] + rest;
      RunFromStep(p, s, a, rest, t);
    }
  }

  /** From every reachable state both parties get to the end, by steps each of which lowers the measure. */
  lemma BothReachDone(p: Params, actions: seq<Action>) returns (more: seq<Action>)
    requires Consistent(p)
    ensures BothDone(RunFrom(p, Run(p, actions), more))
  {
    RunFine(p, actions);
    more := ReachDoneFrom(p, TalkOf(p), Run(p, actions));
  }
}

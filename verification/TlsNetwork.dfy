/** Client and server as they run, joined by a stream each way. */
module TlsNetwork {
  import opened TlsHandshake
  import opened TlsLockstep
  import opened TlsMachine
  import opened TlsProgress
  import TlsClient
  import TlsClientMachine
  import TlsConversation
  import TlsServer
  import TlsServerMachine

  lemma {:induction false} OneMoreStep(p: Params, s: System, actions: seq<Action>, a: Action)
    ensures RunFrom(p, s, actions + [a]) == Step(p, RunFrom(p, s, actions), a)
    decreases |actions|
  {
    if actions == [] {
      assert (actions + [a])[1..] == [];
    } else {
      assert (actions + [a])[1..] == actions[1..] + [a];
      OneMoreStep(p, Step(p, s, actions[0]), actions[1..], a);
    }
  }

  /** Both are done, have hashed the same messages, checked the Finished the other sent, and have the same master
      secret if it is a full handshake. */
  ghost predicate Agreed(p: Params, s: System) {
    && BothDone(s) && s.client.transcript == s.server.transcript
    && s.client.macSent.Some? && s.client.macSent == s.server.macChecked
    && s.server.macSent.Some? && s.server.macSent == s.client.macChecked
    && (!p.resumed ==> s.client.masterSeed == s.server.masterSeed)
  }

  ghost predicate Reachable(p: Params, s: System) {
    Inv(p, TlsConversation.TalkOf(p), s)
  }

  lemma StepsCloser(p: Params, s: System, a: Action, t: System)
    requires Reachable(p, s) && Prompt(a) && t == Step(p, s, a) && t != s
    ensures Reachable(p, t) && Measure(p, t) < Measure(p, s)
  {
    StepLowersMeasure(p, TlsConversation.TalkOf(p), s, a);
    StepFine(p, TlsConversation.TalkOf(p), s, a);
  }

  class Network {
    const p: Params
    const client: Machine<TlsClient.ClientState>
    const server: Machine<TlsServer.ServerState>
    var cw: Wait
    var sw: Wait
    var toServer: seq<Item>
    var toClient: seq<Item>
    /** What was done so far. */
    ghost var actions: seq<Action>

    ghost function View(): System
      reads this, client, server
    {
      System(client.Now(), cw, server.Now(), sw, toServer, toClient)
    }

    /** The objects are where the two step functions are after the same actions. */
    ghost predicate Valid()
      reads this, client, server
    {
      Consistent(p) && client as object != server as object && View() == Run(p, actions)
    }

    constructor (p: Params)
      requires Consistent(p)
      ensures Valid() && this.p == p && actions == [] && fresh(client) && fresh(server)
    {
      this.p, actions := p, [];
      client := new Machine<TlsClient.ClientState>(TlsClient.StartConnect);
      server := new Machine<TlsServer.ServerState>(TlsServer.StartAccept);
      cw, sw, toServer, toClient := Proceed, Proceed, [], [];
    }

    method StepClient(retry: bool)
      requires client as object != server as object
      modifies this`cw, this`toServer, client
      ensures View() == Step(p, old(View()), RunClient(retry))
    {
      if cw == Proceed {
        cw := TlsClientMachine.ClientPass(p, client, retry);
      } else {
        var out;
        cw, out := client.ResolveWait(cw);
        toServer := toServer + out;
      }
    }

    method StepServer(retry: bool)
      requires client as object != server as object
      modifies this`sw, this`toClient, server
      ensures View() == Step(p, old(View()), RunServer(retry))
    {
      if sw == Proceed {
        sw := TlsServerMachine.ServerPass(p, server, retry);
      } else {
        var out;
        sw, out := server.ResolveWait(sw);
        toClient := toClient + out;
      }
    }

    method Deliver(a: Action)
      requires client as object != server as object && (a.DeliverToClient? || a.DeliverToServer?)
      modifies this`toServer, this`toClient, client`inbox, server`inbox
      ensures View() == Step(p, old(View()), a)
    {
      if a.DeliverToClient? && |toClient| > 0 {
        client.inbox, toClient := client.inbox + [toClient[0]], toClient[1..];
      } else if a.DeliverToServer? && |toServer| > 0 {
        server.inbox, toServer := server.inbox + [toServer[0]], toServer[1..];
      }
    }

    /** Whatever is done next, neither machine fails, and if both are done they agree. */
    method Perform(a: Action)
      requires Valid()
      modifies this, client, server
      ensures Valid() && actions == old(actions) + [a] && View() == Step(p, old(View()), a)
      ensures cw != Error && sw != Error
      ensures BothDone(View()) ==> Agreed(p, View())
    {
      match a {
        case RunClient(retry) => StepClient(retry);
        case RunServer(retry) => StepServer(retry);
        case _ => Deliver(a);
      }
      OneMoreStep(p, START, actions, a);
      actions := actions + [a];
      NeverRejects(p, actions);
      if BothDone(View()) {
        AgreementAtTheEnd(p, actions, View());
      }
    }

    /** A schedule that brings any connection to its end: deliver what is under way, and run who can go on. */
    method Complete()
      requires Valid()
      modifies this, client, server
      ensures Valid() && Agreed(p, View()) && old(actions) <= actions
    {
      RunFine(p, actions);
      while !client.state.Done? || !server.state.Done?
        invariant Valid() && Reachable(p, View()) && old(actions) <= actions
        decreases Measure(p, View())
      {
        var a := Next();
        StepsCloser(p, View(), a, Step(p, View(), a));
        Perform(a);
      }
      AgreementAtTheEnd(p, actions, View());
    }

    method Next() returns (a: Action)
      requires Valid() && Reachable(p, View()) && !BothDone(View())
      ensures Prompt(a) && Step(p, View(), a) != View()
    {
      if |toClient| > 0 {
        return DeliverToClient;
      }
      if |toServer| > 0 {
        return DeliverToServer;
      }
      var clientReads := cw == ReadMessage || cw == ReadChangeCipherSpec;
      if !(clientReads && |client.inbox| == 0) && !(client.state.Done? && cw == Proceed) {
        ClientNotFailed(p, TlsConversation.TalkOf(p), View());
        ClientMoves(p, View());
        return RunClient(false);
      }
      var serverReads := sw == ReadMessage || sw == ReadChangeCipherSpec;
      if !(serverReads && |server.inbox| == 0) && !(server.state.Done? && sw == Proceed) {
        ServerNotFailed(p, TlsConversation.TalkOf(p), View());
        ServerMoves(p, View());
        return RunServer(false);
      }
      NoDeadlock(p, TlsConversation.TalkOf(p), View());
      assert false;
    }
  }
}

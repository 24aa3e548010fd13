/** A handshake machine and its driver, round by round, whatever comes from the network. */
module TlsRounds {
  import opened TlsHandshake

  /** What arrives before a round, and whether an operation that is asked about is unfinished. */
  datatype Input = Input(arrived: seq<Item>, retry: bool)

  type Pass<!S> = (Handshake<S>, bool) -> (Handshake<S>, Wait)

  /** A pass of the machine, or one round of ssl_run_handshake if it waits. The last part is what was flushed. */
  function Round<S>(pass: Pass<S>, h: Handshake<S>, w: Wait, input: Input): (Handshake<S>, Wait, seq<Item>) {
    var g := h.(inbox := h.inbox + input.arrived);
    if w == Proceed then (pass(g, input.retry).0, pass(g, input.retry).1, []) else Resolve(g, w)
  }

  /** What a number of rounds come to, and all that was flushed in them. */
  function Rounds<S>(pass: Pass<S>, h: Handshake<S>, w: Wait, inputs: seq<Input>): (Handshake<S>, Wait, seq<Item>) {
    if inputs == [] then (h, w, [])
    else
      var r := Rounds(pass, h, w, inputs[..|inputs| - 1]);
      var last := Round(pass, r.0, r.1, inputs[|inputs| - 1]);
      (last.0, last.1, r.2 + last.2)
  }

  /** All that arrived, in order. */
  function Fed(inputs: seq<Input>): seq<Item> {
    if inputs == [] then [] else Fed(inputs[..|inputs| - 1]) + inputs[|inputs| - 1].arrived
  }

  function Flat(arrivals: seq<seq<Item>>): seq<Item> {
    if arrivals == [] then [] else Flat(arrivals[..|arrivals| - 1]) + arrivals[|arrivals| - 1]
  }

  /** How much a waiting machine can still do with what it has. */
  function Urgency<S>(h: Handshake<S>, w: Wait): nat {
    match w
    case Flush => 5
    case ReadChangeCipherSpec => if h.inbox != [] then 5 else 1
    case ReadMessage => if Has(h) then 4 else 1
    case Proceed => if Has(h) then 3 else 2
    case _ => 0
  }

  lemma ResolveIsUrgent<S>(h: Handshake<S>, w: Wait)
    requires w == Flush || ((w == ReadMessage || w == ReadChangeCipherSpec) && h.inbox != [])
    ensures Urgency(Resolve(h, w).0, Resolve(h, w).1) < Urgency(h, w) && Resolve(h, w).0.state == h.state
  {
  }

  lemma FlatFurther(arrivals: seq<seq<Item>>, n: nat)
    requires n < |arrivals|
    ensures Flat(arrivals[..n + 1]) == Flat(arrivals[..n]) + arrivals[n]
  {
    assert arrivals[..n + 1][..n] == arrivals[..n];
  }

  lemma OneMoreRound<S>(pass: Pass<S>, h: Handshake<S>, w: Wait, inputs: seq<Input>, input: Input)
    ensures var r := Rounds(pass, h, w, inputs);
            var last := Round(pass, r.0, r.1, input);
            Rounds(pass, h, w, inputs + [input]) == (last.0, last.1, r.2 + last.2)
    ensures Fed(inputs + [input]) == Fed(inputs) + input.arrived
  {
    assert (inputs + [input])[..|inputs|] == inputs;
  }

  lemma Joined(a: seq<Item>, b: seq<Item>, c: seq<Item>)
    ensures (a + b) + c == a + (b + c)
  {
  }

  lemma {:induction false} FedFurther(a: seq<Input>, b: seq<Input>)
    ensures Fed(a + b) == Fed(a) + Fed(b)
  {
    if b == [] {
      assert a + b == a && Fed(a) + [] == Fed(a);
    } else {
      var c, last := b[..|b| - 1], b[|b| - 1];
      FedFurther(a, c);
      Joined(Fed(a), Fed(c), last.arrived);
      assert (a + b)[..|a + b| - 1] == a + c;
    }
  }

  lemma OneRoundFurther<S>(pass: Pass<S>, h: Handshake<S>, w: Wait, a: seq<Input>, c: seq<Input>, last: Input,
                           r: (Handshake<S>, Wait, seq<Item>), s: (Handshake<S>, Wait, seq<Item>))
    requires r == Rounds(pass, h, w, a) && s == Rounds(pass, r.0, r.1, c)
    requires Rounds(pass, h, w, a + c) == (s.0, s.1, r.2 + s.2)
    ensures var t := Rounds(pass, r.0, r.1, c + [last]); Rounds(pass, h, w, (a + c) + [last]) == (t.0, t.1, r.2 + t.2)
  {
    OneMoreRound(pass, h, w, a + c, last);
    OneMoreRound(pass, r.0, r.1, c, last);
    Joined(r.2, s.2, Round(pass, s.0, s.1, last).2);
  }

  lemma {:induction false} RoundsFurther<S>(pass: Pass<S>, h: Handshake<S>, w: Wait, a: seq<Input>, b: seq<Input>)
    ensures var r := Rounds(pass, h, w, a);
            var s := Rounds(pass, r.0, r.1, b);
            Rounds(pass, h, w, a + b) == (s.0, s.1, r.2 + s.2)
  {
    if b == [] {
      assert a + b == a;
      assert Rounds(pass, h, w, a).2 + [] == Rounds(pass, h, w, a).2;
    } else {
      var c, last := b[..|b| - 1], b[|b| - 1];
      var r := Rounds(pass, h, w, a);
      RoundsFurther(pass, h, w, a, c);
      OneRoundFurther(pass, h, w, a, c, last, r, Rounds(pass, r.0, r.1, c));
      assert a + b == (a + c) + [last] && b == c + [last];
    }
  }

  // ---------- What the Finished messages vouch for ----------

  /** Each MAC is over a part of the party's own transcript that the Finished message with it follows: the one it
      checked is in the peer's Finished, the one it sent in its own. */
  ghost predicate Vouched<S>(h: Handshake<S>, server: bool) {
    && (h.macChecked.Some? ==> h.macChecked.value + [Finished(!server, h.macChecked.value)] <= h.transcript)
    && (h.macSent.Some? ==> h.macSent.value + [Finished(server, h.macSent.value)] <= h.transcript)
  }

  lemma SendGoes<S>(h: Handshake<S>, g: Handshake<S>, m: Message)
    requires Goes(h, g)
    ensures Goes(h, Send(g, m))
  {
  }

  lemma GoesVouched<S>(h: Handshake<S>, g: Handshake<S>, server: bool)
    requires Vouched(h, server) && Goes(h, g)
    ensures Vouched(g, server)
  {
  }

  lemma GetFinishedVouches<S>(h: Handshake<S>, server: bool, next: S)
    requires Vouched(h, server)
    ensures Vouched(GetFinished(h, server, next).0, server)
  {
  }

  lemma SendFinishedVouches<S>(h: Handshake<S>, g: Handshake<S>, server: bool)
    requires Vouched(h, server) && Goes(h, g)
    ensures Vouched(SendFinished(g, server), server)
  {
  }
}

/** The order of the messages of a handshake (sections 7.3 and 7.4 of RFC 5246) as one party holds the other to it,
    whatever the other sends. */
module TlsAccount {
  import opened Bytes
  import opened TlsHandshake

  /** What was said in one place of the conversation, if anything. */
  type Place = Option<Item>

  predicate IsKind(x: Place, kind: Kind) {
    x.Some? && x.value.Msg? && KindOf(x.value.m) == kind
  }

  /** What a party says itself. */
  function Own(p: Params, server: bool, kind: Kind): Place {
    Some(Msg(Plain(kind, p.content(kind, server))))
  }

  function OwnIf(present: bool, p: Params, server: bool, kind: Kind): Place {
    if present then Own(p, server, kind) else None
  }

  predicate Empty(x: Place) {
    x.Some? && x.value.Msg? && x.value.m.Plain? && x.value.m.content == []
  }

  /** What was said so far, as it is hashed. */
  function Messages(items: seq<Place>): seq<Message> {
    if items == [] then []
    else
      var last := items[|items| - 1];
      Messages(items[..|items| - 1]) + if last.Some? && last.value.Msg? then [last.value.m] else []
  }

  /** Whose place it is. */
  predicate FromServer(resumed: bool, n: nat) {
    if resumed then 1 <= n <= 4 else 1 <= n <= 6 || n >= 14
  }

  /** What one side said so far, ChangeCipherSpecs included. */
  function Spoken(resumed: bool, byServer: bool, items: seq<Place>): seq<Item> {
    if items == [] then []
    else
      var last := items[|items| - 1];
      Spoken(resumed, byServer, items[..|items| - 1])
      + if last.Some? && FromServer(resumed, |items| - 1) == byServer then [last.value] else []
  }

  function End(p: Params): nat {
    if p.resumed then 9 else 17
  }

  /** The client has given a certificate that is not empty. */
  predicate GaveCertificate(p: Params, items: seq<Place>) {
    !p.resumed && |items| > 7 && items[7].Some? && !Empty(items[7])
  }

  /** The server has asked for a certificate. */
  predicate Requested(p: Params, items: seq<Place>) {
    !p.resumed && |items| > 5 && items[5].Some?
  }

  /** The last places of a handshake: each side's ChangeCipherSpec and Finished, with what comes between them. */
  predicate AllowedLast(p: Params, server: bool, n: nat, tr: seq<Message>, x: Place) {
    match n
    case 0 => x == Some(Ccs)
    case 1 => if !p.npn then x == None else if server then IsKind(x, NextProto) else x == Own(p, false, NextProto)
    case 2 => x == if p.channelId then Some(Msg(Signed(ChannelId, tr))) else None
    case 3 => x == Some(Msg(Finished(false, tr)))
    case 4 =>
      if !p.ticket then x == None
      else if server then x == Own(p, true, NewSessionTicket) else IsKind(x, NewSessionTicket)
    case 5 => x == Some(Ccs)
    case _ => x == Some(Msg(Finished(true, tr)))
  }

  /** What a server says and what it lets a client say in the first places. */
  predicate AllowedByServer(p: Params, items: seq<Place>, x: Place) {
    match |items|
    case 0 => IsKind(x, ClientHello)
    case 1 => x == Own(p, true, ServerHello)
    case 2 => x == OwnIf(p.certAuth, p, true, Certificate)
    case 3 => x == OwnIf(p.certAuth && p.ocsp, p, true, CertificateStatus)
    case 4 => x == OwnIf(p.ecdhe || p.pskHint, p, true, ServerKeyExchange)
    case 5 => x == OwnIf(p.certRequest, p, true, CertificateRequest)
    case 6 => x == Own(p, true, ServerHelloDone)
    case 7 => if p.certRequest then IsKind(x, Certificate) && !(Empty(x) && p.failIfNoCert) else x == None
    case 8 => IsKind(x, ClientKeyExchange)
    case _ => x == if GaveCertificate(p, items) then Some(Msg(Signed(CertificateVerify, Messages(items)))) else None
  }

  /** What a client says and what it lets a server say in the first places. */
  predicate AllowedByClient(p: Params, items: seq<Place>, x: Place) {
    match |items|
    case 0 => x == Own(p, false, ClientHello)
    case 1 => IsKind(x, ServerHello)
    case 2 => if p.certAuth then IsKind(x, Certificate) && x.value.m.Plain? && !Empty(x) else x == None
    case 3 => x == None || (p.ocsp && IsKind(x, CertificateStatus))
    case 4 => (x == None && !p.ecdhe) || ((p.ecdhe || !p.certAuth) && IsKind(x, ServerKeyExchange))
    case 5 => x == None || (p.certAuth && IsKind(x, CertificateRequest))
    case 6 => IsKind(x, ServerHelloDone) && Empty(x)
    case 7 => x == OwnIf(Requested(p, items), p, false, Certificate)
    case 8 => x == Own(p, false, ClientKeyExchange)
    case _ =>
      x == if Requested(p, items) && p.clientHasCert then Some(Msg(Signed(CertificateVerify, Messages(items))))
           else None
  }

  /** What may stand in the next place. A resumption has only the hellos before the last places, and the server's part
      of those comes first. */
  predicate Allowed(p: Params, server: bool, items: seq<Place>, x: Place) {
    var n := |items|;
    if n < 2 || (!p.resumed && n < 10) then
      if server then AllowedByServer(p, items, x) else AllowedByClient(p, items, x)
    else if !p.resumed then AllowedLast(p, server, n - 10, Messages(items), x)
    else AllowedLast(p, server, if n < 5 then n + 2 else n - 5, Messages(items), x)
  }

  lemma LastIs(p: Params, server: bool, items: seq<Place>, x: Place, n: nat)
    requires n <= 6 && |items| == if !p.resumed then n + 10 else if n < 4 then n + 5 else n - 2
    ensures Allowed(p, server, items, x) == AllowedLast(p, server, n, Messages(items), x)
  {
  }

  predicate Fits(p: Params, server: bool, items: seq<Place>, n: nat) {
    n < |items| ==> Allowed(p, server, items[..n], items[n])
  }

  /** In every place stands what may stand there behind what was said before. */
  ghost predicate Conversation(p: Params, server: bool, items: seq<Place>) {
    forall n: nat :: Fits(p, server, items, n)
  }

  // ---------- A party and its account ----------

  /** What a party has of one side of the conversation: it has read what the peer said of all that was fed to it, and
      flushed or queued what it said itself. */
  ghost predicate Tells(p: Params, server: bool, transcript: seq<Message>, inbox: seq<Item>, flight: seq<Item>,
                        items: seq<Place>, fed: seq<Item>, flushed: seq<Item>, side: bool)
  {
    && transcript == Messages(items)
    && if side == server then Spoken(p.resumed, server, items) == flushed + flight
       else Spoken(p.resumed, !server, items) + inbox == fed
  }

  ghost predicate Recounts(p: Params, server: bool, transcript: seq<Message>, inbox: seq<Item>, flight: seq<Item>,
                           items: seq<Place>, fed: seq<Item>, flushed: seq<Item>)
  {
    forall side :: Tells(p, server, transcript, inbox, flight, items, fed, flushed, side)
  }

  /** The party has hashed the messages of a conversation of which both sides are accounted for. */
  ghost predicate Account<S>(p: Params, server: bool, h: Handshake<S>, items: seq<Place>, fed: seq<Item>,
                             flushed: seq<Item>)
  {
    Conversation(p, server, items) && Recounts(p, server, h.transcript, h.inbox, h.flight, items, fed, flushed)
  }

  lemma AccountTells<S>(p: Params, server: bool, h: Handshake<S>, items: seq<Place>, fed: seq<Item>, flushed: seq<Item>)
    requires Account(p, server, h, items, fed, flushed)
    ensures h.transcript == Messages(items)
    ensures Spoken(p.resumed, server, items) == flushed + h.flight
    ensures Spoken(p.resumed, !server, items) + h.inbox == fed
  {
    assert Tells(p, server, h.transcript, h.inbox, h.flight, items, fed, flushed, server);
    assert Tells(p, server, h.transcript, h.inbox, h.flight, items, fed, flushed, !server);
  }

  lemma OneMore(p: Params, server: bool, items: seq<Place>, x: Place)
    requires Conversation(p, server, items) && Allowed(p, server, items, x)
    ensures Conversation(p, server, items + [x])
  {
    forall n: nat
      ensures Fits(p, server, items + [x], n)
    {
      assert Fits(p, server, items, n);
      assert n < |items| ==> (items + [x])[..n] == items[..n];
      assert (items + [x])[..|items|] == items;
    }
  }

  /** In the first places. */
  lemma FirstMay(p: Params, server: bool, items: seq<Place>, x: Place)
    requires Conversation(p, server, items) && (|items| < 2 || (!p.resumed && |items| < 10))
    requires if server then AllowedByServer(p, items, x) else AllowedByClient(p, items, x)
    ensures Conversation(p, server, items + [x])
  {
    OneMore(p, server, items, x);
  }

  /** In the last ones, of which place `n` is the one of AllowedLast. */
  lemma LastMay(p: Params, server: bool, items: seq<Place>, x: Place, n: nat)
    requires Conversation(p, server, items)
    requires n <= 6 && |items| == if !p.resumed then n + 10 else if n < 4 then n + 5 else n - 2
    requires AllowedLast(p, server, n, Messages(items), x)
    ensures Conversation(p, server, items + [x])
  {
    LastIs(p, server, items, x, n);
    OneMore(p, server, items, x);
  }

  lemma OneMoreIsSpoken(resumed: bool, side: bool, items: seq<Place>, x: Place)
    ensures Spoken(resumed, side, items + [x]) ==
            Spoken(resumed, side, items) + if x.Some? && FromServer(resumed, |items|) == side then [x.value] else []
  {
    assert (items + [x])[..|items|] == items;
  }

  lemma OneMoreIsHashed(items: seq<Place>, x: Place)
    ensures Messages(items + [x]) == Messages(items) + if x.Some? && x.value.Msg? then [x.value.m] else []
  {
    assert (items + [x])[..|items|] == items;
  }

  lemma Skips<S>(p: Params, server: bool, h: Handshake<S>, items: seq<Place>, fed: seq<Item>, flushed: seq<Item>)
    requires Account(p, server, h, items, fed, flushed) && Conversation(p, server, items + [None])
    ensures Account(p, server, h, items + [None], fed, flushed)
  {
    OneMoreIsHashed(items, None);
    forall side
      ensures Tells(p, server, h.transcript, h.inbox, h.flight, items + [None], fed, flushed, side)
    {
      assert Tells(p, server, h.transcript, h.inbox, h.flight, items, fed, flushed, side);
      OneMoreIsSpoken(p.resumed, side, items, None);
    }
  }

  /** The first item in the inbox is heard in its place. */
  lemma Hears<S>(p: Params, server: bool, h: Handshake<S>, g: Handshake<S>, items: seq<Place>, x: Item, fed: seq<Item>,
                 flushed: seq<Item>)
    requires Account(p, server, h, items, fed, flushed) && Conversation(p, server, items + [Some(x)])
    requires FromServer(p.resumed, |items|) == !server && h.inbox != [] && h.inbox[0] == x
    requires g.transcript == h.transcript + if x.Msg? then [x.m] else []
    requires g.inbox == h.inbox[1..] && g.flight == h.flight
    ensures Account(p, server, g, items + [Some(x)], fed, flushed)
  {
    OneMoreIsHashed(items, Some(x));
    forall side
      ensures Tells(p, server, g.transcript, g.inbox, g.flight, items + [Some(x)], fed, flushed, side)
    {
      assert Tells(p, server, h.transcript, h.inbox, h.flight, items, fed, flushed, side);
      OneMoreIsSpoken(p.resumed, side, items, Some(x));
      assert h.inbox == [x] + g.inbox;
      assert Spoken(p.resumed, side, items) + h.inbox == (Spoken(p.resumed, side, items) + [x]) + g.inbox;
    }
  }

  /** An item is said and queued. */
  lemma Says<S>(p: Params, server: bool, h: Handshake<S>, g: Handshake<S>, items: seq<Place>, x: Item, fed: seq<Item>,
                flushed: seq<Item>)
    requires Account(p, server, h, items, fed, flushed) && Conversation(p, server, items + [Some(x)])
    requires FromServer(p.resumed, |items|) == server
    requires g.transcript == h.transcript + if x.Msg? then [x.m] else []
    requires g.inbox == h.inbox && g.flight == h.flight + [x]
    ensures Account(p, server, g, items + [Some(x)], fed, flushed)
  {
    OneMoreIsHashed(items, Some(x));
    forall side
      ensures Tells(p, server, g.transcript, g.inbox, g.flight, items + [Some(x)], fed, flushed, side)
    {
      assert Tells(p, server, h.transcript, h.inbox, h.flight, items, fed, flushed, side);
      OneMoreIsSpoken(p.resumed, side, items, Some(x));
      assert flushed + (h.flight + [x]) == (flushed + h.flight) + [x];
    }
  }

  /** A message that is only said if the parameters call for it. */
  lemma SaysIf<S>(p: Params, server: bool, h: Handshake<S>, items: seq<Place>, fed: seq<Item>, flushed: seq<Item>,
                  present: bool, m: Message) returns (next: seq<Place>)
    requires Account(p, server, h, items, fed, flushed)
    requires Conversation(p, server, items + [if present then Some(Msg(m)) else None])
    requires FromServer(p.resumed, |items|) == server
    ensures next == items + [if present then Some(Msg(m)) else None]
    ensures Account(p, server, if present then Send(h, m) else h, next, fed, flushed)
  {
    if present {
      next := items + [Some(Msg(m))];
      Says(p, server, h, Send(h, m), items, Msg(m), fed, flushed);
    } else {
      next := items + [None];
      Skips(p, server, h, items, fed, flushed);
    }
  }

  /** A message that is only heard if the parameters call for it. */
  lemma HeardIf<S>(p: Params, server: bool, h: Handshake<S>, items: seq<Place>, fed: seq<Item>, flushed: seq<Item>,
                   present: bool) returns (next: seq<Place>)
    requires Account(p, server, h, items, fed, flushed) && FromServer(p.resumed, |items|) == !server
    requires present ==> Has(h)
    requires Conversation(p, server, items + [if present then Some(Msg(Peek(h))) else None])
    ensures next == items + [if present then Some(Msg(Peek(h))) else None]
    ensures Account(p, server, if present then Take(h) else h, next, fed, flushed)
  {
    if present {
      next := items + [Some(Msg(Peek(h)))];
      Hears(p, server, h, Take(h), items, Msg(Peek(h)), fed, flushed);
    } else {
      next := items + [None];
      Skips(p, server, h, items, fed, flushed);
    }
  }

  /** More may arrive at any time. */
  lemma HearsMore<S>(p: Params, server: bool, h: Handshake<S>, items: seq<Place>, fed: seq<Item>, flushed: seq<Item>,
                     arrived: seq<Item>)
    requires Account(p, server, h, items, fed, flushed)
    ensures Account(p, server, h.(inbox := h.inbox + arrived), items, fed + arrived, flushed)
  {
    var inbox := h.inbox + arrived;
    forall side
      ensures Tells(p, server, h.transcript, inbox, h.flight, items, fed + arrived, flushed, side)
    {
      assert Tells(p, server, h.transcript, h.inbox, h.flight, items, fed, flushed, side);
      assert Spoken(p.resumed, side, items) + inbox == (Spoken(p.resumed, side, items) + h.inbox) + arrived;
    }
  }

  lemma Flushes<S>(p: Params, server: bool, h: Handshake<S>, items: seq<Place>, fed: seq<Item>, flushed: seq<Item>)
    requires Account(p, server, h, items, fed, flushed)
    ensures Account(p, server, h.(flight := []), items, fed, flushed + h.flight)
  {
    forall side
      ensures Tells(p, server, h.transcript, h.inbox, [], items, fed, flushed + h.flight, side)
    {
      assert Tells(p, server, h.transcript, h.inbox, h.flight, items, fed, flushed, side);
      assert flushed + h.flight + [] == flushed + h.flight;
    }
  }

  /** What was said before does not change. */
  lemma ConversationBefore(p: Params, server: bool, items: seq<Place>, n: nat)
    requires Conversation(p, server, items) && n < |items|
    ensures Conversation(p, server, items[..n]) && Allowed(p, server, items[..n], items[n])
  {
    forall k: nat
      ensures Fits(p, server, items[..n], k)
    {
      assert Fits(p, server, items, k);
      assert k < n ==> items[..n][..k] == items[..k];
    }
    assert Fits(p, server, items, n);
  }

  lemma {:induction false} MessagesBefore(items: seq<Place>, n: nat)
    requires n <= |items|
    ensures Messages(items[..n]) <= Messages(items)
  {
    if n < |items| {
      var before := items[..|items| - 1];
      MessagesBefore(before, n);
      assert before[..n] == items[..n];
    } else {
      assert items[..n] == items;
    }
  }

  lemma SaidInPlace(items: seq<Place>, n: nat, m: Message)
    requires n < |items| && items[n] == Some(Msg(m))
    ensures Messages(items[..n]) + [m] <= Messages(items)
  {
    var a := items[..n + 1];
    MessagesBefore(items, n + 1);
    assert Messages(a) == Messages(items[..n]) + [m] by {
      assert a[..|a| - 1] == items[..n] && a[|a| - 1] == items[n];
    }
  }

  // ---------- Marks ----------

  /** The transcript before place `k`, once something stands there. */
  function Mark(items: seq<Place>, k: nat): Option<seq<Message>> {
    if |items| > k then Some(Messages(items[..k])) else None
  }

  /** The transcript that the master secret of a full handshake depends on: up to the ClientKeyExchange. */
  function MasterSeed(p: Params, items: seq<Place>): seq<Message> {
    if !p.resumed && |items| > 8 then Messages(items[..9]) else []
  }

  lemma MarksStay(p: Params, items: seq<Place>, x: Place)
    ensures forall k :: 0 <= k < |items| ==> Mark(items + [x], k) == Mark(items, k)
    ensures Mark(items + [x], |items|) == Some(Messages(items))
    ensures |items| != 8 ==> MasterSeed(p, items + [x]) == MasterSeed(p, items)
    ensures |items| == 8 && !p.resumed ==> MasterSeed(p, items + [x]) == Messages(items + [x])
    ensures |items| != 7 ==> GaveCertificate(p, items + [x]) == GaveCertificate(p, items)
    ensures |items| != 5 ==> Requested(p, items + [x]) == Requested(p, items)
  {
    forall k | 0 <= k < |items|
      ensures Mark(items + [x], k) == Mark(items, k)
    {
      assert (items + [x])[..k] == items[..k];
    }
    assert (items + [x])[..|items|] == items;
    if |items| >= 9 {
      assert (items + [x])[..9] == items[..9];
    } else if |items| == 8 {
      assert (items + [x])[..9] == items + [x];
    }
  }

  // ---------- Where the marks are ----------

  function ClientCcsAt(p: Params): nat {
    if p.resumed then 5 else 10
  }

  function ServerCcsAt(p: Params): nat {
    if p.resumed then 3 else 15
  }

  function ClientFinishedAt(p: Params): nat {
    if p.resumed then 8 else 13
  }

  function ServerFinishedAt(p: Params): nat {
    if p.resumed then 4 else 16
  }

  /** What a party knows of the conversation besides its messages: whether reading and writing are encrypted, which is
      so behind the ChangeCipherSpecs, the transcripts under the two MACs and the one the master secret depends on.
      `unread` tells that the peer's ChangeCipherSpec was read and is not yet acted on. */
  ghost predicate Knows<S>(p: Params, server: bool, h: Handshake<S>, items: seq<Place>, unread: bool) {
    && h.readSwitched == (|items| > (if server then ClientCcsAt(p) else ServerCcsAt(p)) && !unread)
    && h.writeSwitched == (|items| > if server then ServerCcsAt(p) else ClientCcsAt(p))
    && h.macChecked == Mark(items, if server then ClientFinishedAt(p) else ServerFinishedAt(p))
    && h.macSent == Mark(items, if server then ServerFinishedAt(p) else ClientFinishedAt(p))
    && h.masterSeed == MasterSeed(p, items)
  }

  /** Whether the server may still have to check a signature over the transcript. */
  predicate MayVerify(p: Params, items: seq<Place>) {
    |items| == 0 || (p.certRequest && |items| <= 9 && (|items| <= 7 || GaveCertificate(p, items)))
  }

  /** Whether the client may still have to sign the transcript. */
  predicate MaySign(p: Params, items: seq<Place>) {
    |items| <= 1 ||
    (!p.resumed && p.certAuth && |items| <= 9 && (|items| <= 5 || Requested(p, items))
     && (|items| <= 7 || p.clientHasCert))
  }
}

/** End to end: whatever the network does with the fragments of any number of transmissions, the receiver hands out the
    messages that were sent, in order and once each, and each as soon as all of it has come. */
module DtlsDelivery {
  import opened Bytes
  import opened DtlsFlight
  import opened DtlsFragment
  import opened DtlsHistory
  import opened DtlsReassembly
  import opened DtlsRuns
  import DtlsReceiver
  import DtlsSender

  // ---------- Honest runs ----------

  /** The fragment is a piece of the message that was sent with its number. */
  predicate Honest(f: Fragment, sent: seq<Sent>) {
    && f.number < |sent| && f.msgType == sent[f.number].msgType && f.msgLen == |sent[f.number].body|
    && f.fragOff + |f.body| <= f.msgLen && f.body == sent[f.number].body[f.fragOff..f.fragOff + |f.body|]
  }

  predicate HonestRun(es: seq<Event>, sent: seq<Sent>) {
    forall i :: 0 <= i < |es| && es[i].Arrive? ==> Honest(es[i].f, sent)
  }

  // ---------- Safety ----------

  ghost predicate Genuine(r: Receiver, sent: seq<Sent>) {
    && Windowed(r) && r.readSeq <= |sent|
    && forall n :: n in r.pending ==> n < |sent| && GenuineAssembly(r.pending[n], sent[n])
  }

  ghost predicate GenuineAssembly(a: Assembly, m: Sent) {
    && a.msgType == m.msgType && a.msgLen == |m.body|
    && forall k :: k in a.bytes ==> k < |m.body| && a.bytes[k] == m.body[k]
  }

  lemma InsertGenuine(a: Assembly, f: Fragment, sent: seq<Sent>)
    requires Honest(f, sent) && GenuineAssembly(a, sent[f.number])
    ensures GenuineAssembly(Insert(a, f), sent[f.number])
  {
    assert forall k :: k in Piece(f) ==> Piece(f)[k] == sent[f.number].body[k];
  }

  lemma CompleteIsWhole(a: Assembly, m: Sent)
    requires GenuineAssembly(a, m) && Complete(a)
    ensures Sent(a.msgType, Body(a)) == m
  {
    assert Body(a) == m.body;
  }

  lemma TakeGenuine(r: Receiver, f: Fragment, epoch: nat, maxLen: nat, sent: seq<Sent>)
    requires Genuine(r, sent) && Honest(f, sent) && |sent| < TWO_TO_THE_16 && Acceptable(r, f, epoch, maxLen)
    ensures Genuine(Take(r, f), sent)
  {
    if InWindow(r, f.number) {
      var a := if f.number in r.pending then r.pending[f.number] else Start(f);
      InsertGenuine(a, f, sent);
    }
  }

  /** For any sequence of pieces of the messages sent, in any order, duplicated, overlapping or with any of them
      missing, what has been handed out is the first messages sent, whole, in order and once each. */
  lemma {:induction false} InOrderOnce(es: seq<Event>, maxLen: nat, sent: seq<Sent>)
    requires HonestRun(es, sent) && |sent| < TWO_TO_THE_16
    ensures var s := Run(es, maxLen);
            Genuine(s.receiver, sent) && s.delivered == sent[..s.receiver.readSeq]
  {
    if es != [] {
      var before, e := es[..|es| - 1], es[|es| - 1];
      InOrderOnce(before, maxLen, sent);
      var s := Run(before, maxLen);
      if e.Arrive? {
        if !s.failed && Acceptable(s.receiver, e.f, e.epoch, maxLen) {
          TakeGenuine(s.receiver, e.f, e.epoch, maxLen, sent);
        }
      } else if e.Read? && Ready(s.receiver) {
        var n := s.receiver.readSeq;
        CompleteIsWhole(s.receiver.pending[n], sent[n]);
        assert sent[..n] + [sent[n]] == sent[..n + 1];
      }
    }
  }

  // ---------- Promptness ----------

  /** The fragment was taken: it was acceptable and in the window when it arrived. */
  predicate TakenAt(s: State, e: Event, n: nat, maxLen: nat) {
    e.Arrive? && !s.failed && e.f.number == n && Acceptable(s.receiver, e.f, e.epoch, maxLen) && InWindow(s.receiver, n)
  }

  /** The positions of message `n` that have been taken. */
  function Collected(es: seq<Event>, n: nat, maxLen: nat): set<nat> {
    if es == [] then {}
    else
      var before, e := es[..|es| - 1], es[|es| - 1];
      Collected(before, n, maxLen) + if TakenAt(Run(before, maxLen), e, n, maxLen) then Piece(e.f).Keys else {}
  }

  predicate Touched(es: seq<Event>, n: nat, maxLen: nat) {
    es != [] && (TakenAt(Run(es[..|es| - 1], maxLen), es[|es| - 1], n, maxLen) || Touched(es[..|es| - 1], n, maxLen))
  }

  /** What the receiver holds of message `n` is exactly what has been taken. */
  ghost predicate HoldsTaken(r: Receiver, n: nat, touched: bool, collected: set<nat>) {
    && (n in r.pending <==> touched)
    && (n in r.pending ==> r.pending[n].bytes.Keys == collected) && (!touched ==> collected == {})
  }

  lemma InsertCollects(a: Assembly, f: Fragment, m: Sent)
    requires GenuineAssembly(a, m) && f.msgLen == |m.body| && f.fragOff + |f.body| <= |m.body|
    ensures Insert(a, f).bytes.Keys == a.bytes.Keys + Piece(f).Keys
  {
    if Complete(a) {
      assert forall k :: k in Piece(f).Keys ==> k in a.bytes.Keys;
    }
  }

  lemma {:induction false} HoldsExactly(es: seq<Event>, maxLen: nat, sent: seq<Sent>, n: nat)
    requires HonestRun(es, sent) && |sent| < TWO_TO_THE_16 && n >= Run(es, maxLen).receiver.readSeq
    ensures HoldsTaken(Run(es, maxLen).receiver, n, Touched(es, n, maxLen), Collected(es, n, maxLen))
  {
    if es != [] {
      var before, e := es[..|es| - 1], es[|es| - 1];
      var s := Run(before, maxLen);
      InOrderOnce(before, maxLen, sent);
      HoldsExactly(before, maxLen, sent, n);
      if TakenAt(s, e, n, maxLen) {
        var a := if n in s.receiver.pending then s.receiver.pending[n] else Start(e.f);
        InsertCollects(a, e.f, sent[n]);
      } else {
        assert Collected(es, n, maxLen) == Collected(before, n, maxLen);
      }
    }
  }

  predicate Covers(collected: set<nat>, n: nat) {
    forall k: nat :: k < n ==> k in collected
  }

  lemma ReadyWhenCovered(r: Receiver, sent: seq<Sent>, touched: bool, collected: set<nat>)
    requires Genuine(r, sent) && HoldsTaken(r, r.readSeq, touched, collected)
    ensures Ready(r) <==> touched && r.readSeq < |sent| && Covers(collected, |sent[r.readSeq].body|)
  {
    if touched {
      var a := r.pending[r.readSeq];
      assert Complete(a) <==> Covers(a.bytes.Keys, a.msgLen);
    }
  }

  /** The next message is there exactly when each of its bytes has been taken, and some fragment of it if it has none.
      */
  lemma ReadyExactly(es: seq<Event>, maxLen: nat, sent: seq<Sent>, n: nat)
    requires HonestRun(es, sent) && |sent| < TWO_TO_THE_16 && n == Run(es, maxLen).receiver.readSeq
    ensures Ready(Run(es, maxLen).receiver) <==>
            Touched(es, n, maxLen) && n < |sent| && Covers(Collected(es, n, maxLen), |sent[n].body|)
  {
    InOrderOnce(es, maxLen, sent);
    HoldsExactly(es, maxLen, sent, n);
    ReadyWhenCovered(Run(es, maxLen).receiver, sent, Touched(es, n, maxLen), Collected(es, n, maxLen));
  }

  /** A fragment of what was sent is only ever refused for its length, its epoch, or a number exactly one past the
      window. */
  lemma HonestIsAcceptable(r: Receiver, f: Fragment, epoch: nat, maxLen: nat, sent: seq<Sent>)
    requires Genuine(r, sent) && Honest(f, sent)
    ensures Acceptable(r, f, epoch, maxLen) <==>
            f.msgLen <= maxLen && (epoch == 1 ==> f.number == r.readSeq) && f.number != r.readSeq + MAX_HANDSHAKE_FLIGHT
  {
  }

  /** Nothing but fragments arrives; and when each arrives, its message is not too long for the receiver, it is the one
      that is due if the epoch is 1, and it is not exactly one past the window. */
  predicate Timely(es: seq<Event>, maxLen: nat) {
    es == [] ||
    (var before, e := es[..|es| - 1], es[|es| - 1];
     Timely(before, maxLen) && !e.Broken? &&
     (e.Arrive? ==>
        var r := Run(before, maxLen).receiver;
        && e.f.msgLen <= maxLen && (e.epoch == 1 ==> e.f.number == r.readSeq)
        && e.f.number != r.readSeq + MAX_HANDSHAKE_FLIGHT))
  }

  /** Nothing else that was sent can make the connection fail. */
  lemma {:induction false} FailsExactly(es: seq<Event>, maxLen: nat, sent: seq<Sent>)
    requires HonestRun(es, sent) && |sent| < TWO_TO_THE_16
    ensures !Run(es, maxLen).failed <==> Timely(es, maxLen)
  {
    if es != [] {
      var before, e := es[..|es| - 1], es[|es| - 1];
      FailsExactly(before, maxLen, sent);
      InOrderOnce(before, maxLen, sent);
      if e.Arrive? {
        HonestIsAcceptable(Run(before, maxLen).receiver, e.f, e.epoch, maxLen, sent);
      }
    }
  }

  /** A fragment one past the window ends the connection, although it is one the filter for the far future lets pass. */
  lemma OnePastTheWindowFails(r: Receiver, f: Fragment, maxLen: nat)
    requires f.number == r.readSeq + MAX_HANDSHAKE_FLIGHT
    ensures !Acceptable(r, f, 0, maxLen)
    ensures Take(r, f.(number := f.number + 1)) == r
    ensures InBounds(f, maxLen) ==> Acceptable(r, f.(number := f.number + 1), 0, maxLen)
  {
  }

  // ---------- From the sender's flights ----------

  /** Everything a sender puts out is honest. */
  lemma TransmittedIsHonest(t: Transmission, sent: seq<Sent>, k: nat)
    requires FromHistory(t, sent) && k < |t.es| && t.es[k].FragmentRecord?
    ensures Honest(t.es[k].f, sent)
  {
    var i := WalkIsHonest(t.msgs, t.first, t.es, t.last, k);
  }

  /** The network only delivers what was put out: each fragment that arrives is of one of the transmissions. */
  predicate Carried(es: seq<Event>, ts: seq<Transmission>) {
    forall i :: 0 <= i < |es| && es[i].Arrive? ==> PutOut(es[i].f, ts)
  }

  predicate PutOut(f: Fragment, ts: seq<Transmission>) {
    exists j, k :: 0 <= j < |ts| && 0 <= k < |ts[j].es| && ts[j].es[k].FragmentRecord? && ts[j].es[k].f == f
  }

  lemma CarriedIsHonest(es: seq<Event>, ts: seq<Transmission>, sent: seq<Sent>)
    requires Carried(es, ts) && AllFromHistory(ts, sent)
    ensures HonestRun(es, sent)
  {
    forall i | 0 <= i < |es| && es[i].Arrive?
      ensures Honest(es[i].f, sent)
    {
      assert PutOut(es[i].f, ts);
      var j, k :| 0 <= j < |ts| && 0 <= k < |ts[j].es| && ts[j].es[k].FragmentRecord? && ts[j].es[k].f == es[i].f;
      TransmittedIsHonest(ts[j], sent, k);
    }
  }

  /** The fragment has been taken at some point of the run. */
  predicate Took(es: seq<Event>, f: Fragment, maxLen: nat) {
    es != [] &&
    var before, e := es[..|es| - 1], es[|es| - 1];
    (TakenAt(Run(before, maxLen), e, f.number, maxLen) && e.f == f) || Took(before, f, maxLen)
  }

  lemma {:induction false} TookCollects(es: seq<Event>, f: Fragment, maxLen: nat)
    requires Took(es, f, maxLen)
    ensures Touched(es, f.number, maxLen) && Piece(f).Keys <= Collected(es, f.number, maxLen)
  {
    var before, e := es[..|es| - 1], es[|es| - 1];
    if !(TakenAt(Run(before, maxLen), e, f.number, maxLen) && e.f == f) {
      TookCollects(before, f, maxLen);
    }
  }

  /** Every fragment that a sending made of message `number` has been taken. */
  predicate AllTook(es: seq<Event>, t: Transmission, number: nat, maxLen: nat) {
    forall k :: 0 <= k < |t.es| && t.es[k].FragmentRecord? && t.es[k].f.number == number ==> Took(es, t.es[k].f, maxLen)
  }

  /** A sending of a whole flight, the message number `n` in it. */
  predicate WholeFlight(t: Transmission, i: nat, n: nat) {
    && t.first == Position(0, 0) && t.last == Position(|t.msgs|, 0)
    && i < |t.msgs| && t.msgs[i].Message? && t.msgs[i].whole.number == n
  }

  lemma SendingCovers(es: seq<Event>, maxLen: nat, sent: seq<Sent>, t: Transmission, i: nat, n: nat)
    requires FromHistory(t, sent) && WholeFlight(t, i, n) && AllTook(es, t, n, maxLen)
    ensures n < |sent| && Touched(es, n, maxLen) && Covers(Collected(es, n, maxLen), |sent[n].body|)
  {
    var k := WalkTouches(t.msgs, t.first, t.es, t.last, i);
    TookCollects(es, t.es[k].f, maxLen);
    forall b: nat | b < |sent[n].body|
      ensures b in Collected(es, n, maxLen)
    {
      var j := WalkReaches(t.msgs, t.first, t.es, t.last, i, b);
      TookCollects(es, t.es[j].f, maxLen);
      assert b in Piece(t.es[j].f).Keys;
    }
  }

  lemma ReadDelivers(es: seq<Event>, maxLen: nat, sent: seq<Sent>, n: nat)
    requires HonestRun(es, sent) && |sent| < TWO_TO_THE_16 && Ready(Run(es, maxLen).receiver)
    requires n == Run(es, maxLen).receiver.readSeq
    ensures n < |sent| && Run(es + [Read], maxLen).delivered == sent[..n + 1]
  {
    var all := es + [Read];
    assert all[..|all| - 1] == es;
    InOrderOnce(es, maxLen, sent);
    InOrderOnce(all, maxLen, sent);
  }

  /** End to end. All that was put out comes from the sender's messages; the receiver's run is any sequence of it. Then
      what is handed out is a prefix of what was sent. And if every fragment that one complete sending of a flight made
      of the next message has been taken, the next message is there, whatever else has come or gone missing. */
  lemma EndToEnd(es: seq<Event>, maxLen: nat, sent: seq<Sent>, ts: seq<Transmission>, t: Transmission, i: nat, n: nat)
    requires |sent| < TWO_TO_THE_16 && Carried(es, ts) && AllFromHistory(ts, sent)
    requires FromHistory(t, sent) && WholeFlight(t, i, n) && AllTook(es, t, n, maxLen)
    requires n == Run(es, maxLen).receiver.readSeq
    ensures n < |sent| && Run(es, maxLen).delivered == sent[..n]
    ensures Ready(Run(es, maxLen).receiver) && Run(es + [Read], maxLen).delivered == sent[..n + 1]
  {
    CarriedIsHonest(es, ts, sent);
    InOrderOnce(es, maxLen, sent);
    SendingCovers(es, maxLen, sent, t, i, n);
    ReadyExactly(es, maxLen, sent, n);
    ReadDelivers(es, maxLen, sent, n);
  }

  // ---------- A sender and a receiver as they run ----------

  /** What message `n` of a window would be read as. */
  function Shown(r: Receiver): Sent
    requires Ready(r)
  {
    var a := r.pending[r.readSeq];
    Sent(a.msgType, Body(a))
  }

  lemma ShownIsNext(r: Receiver, sent: seq<Sent>)
    requires Genuine(r, sent) && Ready(r)
    ensures r.readSeq < |sent| && Shown(r) == sent[r.readSeq]
  {
    CompleteIsWhole(r.pending[r.readSeq], sent[r.readSeq]);
  }

  /** Sending `j` was of a whole flight with message `n` in it, and all of that message was taken from it. */
  predicate SendingTaken(ts: seq<Transmission>, j: nat, i: nat, n: nat, es: seq<Event>, maxLen: nat) {
    j < |ts| && WholeFlight(ts[j], i, n) && AllTook(es, ts[j], n, maxLen)
  }

  /** A sender as it runs: what it notes of its messages and its sendings is such a history, for any run of a receiver
      that is only given what the sender put out. */
  lemma EndToEndOfSender(sender: DtlsSender.Sender, es: seq<Event>, maxLen: nat, j: nat, i: nat, n: nat)
    requires sender.Historical() && |sender.made| < TWO_TO_THE_16 && Carried(es, sender.put)
    requires n == Run(es, maxLen).receiver.readSeq
    ensures n <= |sender.made| && Run(es, maxLen).delivered == sender.made[..n]
    ensures SendingTaken(sender.put, j, i, n, es, maxLen) ==>
              && n < |sender.made| && Ready(Run(es, maxLen).receiver)
              && Run(es + [Read], maxLen).delivered == sender.made[..n + 1]
  {
    CarriedIsHonest(es, sender.put, sender.made);
    InOrderOnce(es, maxLen, sender.made);
    if SendingTaken(sender.put, j, i, n, es, maxLen) {
      EndToEnd(es, maxLen, sender.made, sender.put, sender.put[j], i, n);
    }
  }

  /** Two objects, each with the history it keeps, and between them a network that delivers only what the sender put
      out. What the receiver has handed out is a prefix of the messages the sender made, what it has ready is the next
      of them, and it has that ready once all fragments of it from one complete sending have been taken. */
  lemma EndToEndOfObjects(sender: DtlsSender.Sender, receiver: DtlsReceiver.ReceiveState, j: nat, i: nat)
    requires sender.Historical() && receiver.Historical() && Carried(receiver.events, sender.put)
    requires |sender.made| < TWO_TO_THE_16
    ensures var n, window := receiver.ring.readSeq, receiver.ring.window;
            && n <= |sender.made| && Run(receiver.events, receiver.maxLen).delivered == sender.made[..n]
            && (Ready(window) ==> n < |sender.made| && Shown(window) == sender.made[n])
            && (SendingTaken(sender.put, j, i, n, receiver.events, receiver.maxLen) ==> Ready(window))
  {
    var es, maxLen, n := receiver.events, receiver.maxLen, receiver.ring.readSeq;
    CarriedIsHonest(es, sender.put, sender.made);
    InOrderOnce(es, maxLen, sender.made);
    if Ready(receiver.ring.window) {
      ShownIsNext(receiver.ring.window, sender.made);
    }
    EndToEndOfSender(sender, es, maxLen, j, i, n);
  }

  lemma ReadIsCarried(es: seq<Event>, ts: seq<Transmission>)
    requires Carried(es, ts)
    ensures Carried(es + [Read], ts)
  {
  }

  /** Reading a message: it is the next one that the sender made, and the one behind it is due then. */
  method ReadMessage(ghost sender: DtlsSender.Sender, receiver: DtlsReceiver.ReceiveState)
    returns (ok: bool, msgType: byte, body: seq<byte>)
    requires sender.Historical() && receiver.Historical() && Carried(receiver.events, sender.put)
    requires |sender.made| < TWO_TO_THE_16
    modifies receiver, receiver.ring, receiver.ring.incoming
    ensures receiver.Historical() && Carried(receiver.events, sender.put)
    ensures sender.made == old(sender.made) && sender.put == old(sender.put)
    ensures ok <==> Ready(old(receiver.ring.window))
    ensures ok ==> var n := old(receiver.ring.readSeq);
                   && n < |sender.made| && Sent(msgType, body) == sender.made[n] && receiver.ring.readSeq == n + 1
                   && receiver.events == old(receiver.events) + [Read]
    ensures !ok ==> receiver.ring.window == old(receiver.ring.window) && receiver.events == old(receiver.events)
  {
    EndToEndOfObjects(sender, receiver, 0, 0);
    var raw;
    ok, msgType, body, raw := receiver.GetMessage();
    if ok {
      ReadIsCarried(receiver.events, sender.put);
      receiver.NextMessage();
    }
  }
}

/** What a DTLS receiver does with fragments that nobody vouches for. */
module DtlsAnyFragments {
  import opened Bytes
  import opened DtlsFlight
  import opened DtlsFragment
  import opened DtlsHistory
  import opened DtlsReassembly
  import opened DtlsReceiver
  import opened DtlsRuns

  // ---------- One step ----------

  /** A fragment breaks the connection exactly if it does not lie in a message of an allowed length; if with the keys of
      epoch 1 it is not of the message that is due; if its number is seven more than that one's; or if it differs in
      type or length from the fragments of its message that are there. */
  lemma RefusedExactly(s: State, f: Fragment, epoch: nat, maxLen: nat)
    requires !s.failed && Windowed(s.receiver)
    ensures Step(s, Arrive(f, epoch), maxLen).failed <==>
              || f.fragOff + |f.body| > f.msgLen || f.msgLen > maxLen
              || (epoch == 1 && f.number != s.receiver.readSeq)
              || f.number == s.receiver.readSeq + 7
              || (f.number in s.receiver.pending
                  && (s.receiver.pending[f.number].msgType != f.msgType
                      || s.receiver.pending[f.number].msgLen != f.msgLen))
  {
  }

  /** Once broken a connection takes in nothing more. */
  lemma BrokenForGood(s: State, e: Event, maxLen: nat)
    requires s.failed || e.Broken?
    ensures var t := Step(s, e, maxLen); t.failed && (!e.Read? ==> t == s.(failed := true))
  {
  }

  /** Whether byte `k` of message `n` is there. */
  predicate Arrived(r: Receiver, n: nat, k: nat) {
    n in r.pending && k in r.pending[n].bytes
  }

  /** Any other fragment of the seven messages from the one due on adds its bytes to its message, over those that are
      there, unless all of that message is. All else stays as it was, and fragments of other messages change nothing. */
  lemma TakenExactly(s: State, f: Fragment, epoch: nat, maxLen: nat, n: nat, k: nat)
    requires !s.failed && !Step(s, Arrive(f, epoch), maxLen).failed && Windowed(s.receiver)
    ensures var r, t, d := s.receiver, Step(s, Arrive(f, epoch), maxLen), s.receiver.readSeq;
            var isNew := n == f.number && d <= n < d + 7 && f.fragOff <= k < f.fragOff + |f.body|
                         && !(n in r.pending && Complete(r.pending[n]));
            && t.delivered == s.delivered && t.receiver.readSeq == d
            && (n in t.receiver.pending <==> n in r.pending || (n == f.number && d <= n < d + 7))
            && (n in t.receiver.pending ==>
                  var was := if n in r.pending then r.pending[n] else Assembly(f.msgType, f.msgLen, map[]);
                  t.receiver.pending[n].msgType == was.msgType && t.receiver.pending[n].msgLen == was.msgLen)
            && (Arrived(t.receiver, n, k) <==> isNew || Arrived(r, n, k))
            && (Arrived(t.receiver, n, k) ==>
                  t.receiver.pending[n].bytes[k] == if isNew then f.body[k - f.fragOff] else r.pending[n].bytes[k])
  {
  }

  /** A message is handed out exactly if it is the one due and all its bytes are there; the next one is due then. */
  lemma ReadExactly(s: State, maxLen: nat)
    ensures var t, r, d := Step(s, Read, maxLen), s.receiver, s.receiver.readSeq;
            if d in r.pending && forall k: nat :: k < r.pending[d].msgLen ==> Arrived(r, d, k)
            then
              && t == State(Receiver(if d == 65535 then 0 else d + 1, r.pending - {d}), t.delivered, s.failed)
              && |t.delivered| == |s.delivered| + 1 && t.delivered[..|s.delivered|] == s.delivered
              && Spells(t.delivered[|s.delivered|], r.pending[d])
            else t == s
  {
    var r, d := s.receiver, s.receiver.readSeq;
    if d in r.pending {
      forall k: nat | k < r.pending[d].msgLen
        ensures Arrived(r, d, k) <==> k in r.pending[d].bytes
      {
      }
    }
  }

  /** The bytes are those of the message, in order. */
  ghost predicate Spells(m: Sent, a: Assembly) {
    && m.msgType == a.msgType && |m.body| == a.msgLen
    && forall k :: 0 <= k < a.msgLen ==> k in a.bytes && m.body[k] == a.bytes[k]
  }

  // ---------- Whole runs ----------

  /** A fragment of the type and length, and with number `n` in 16 bits, brought byte `b` at `k`. */
  predicate Brought(es: seq<Event>, n: nat, msgType: byte, msgLen: nat, k: nat, b: byte) {
    exists i :: 0 <= i < |es| && es[i].Arrive? && Brings(es[i].f, n, msgType, msgLen, k, b)
  }

  predicate Brings(f: Fragment, n: nat, msgType: byte, msgLen: nat, k: nat, b: byte) {
    && f.number == n && f.msgType == msgType && f.msgLen == msgLen
    && f.fragOff <= k < f.fragOff + |f.body| && f.body[k - f.fragOff] == b
  }

  lemma BroughtBefore(es: seq<Event>, e: Event, n: nat, msgType: byte, msgLen: nat, k: nat, b: byte)
    requires Brought(es, n, msgType, msgLen, k, b)
    ensures Brought(es + [e], n, msgType, msgLen, k, b)
  {
    var i :| 0 <= i < |es| && es[i].Arrive? && Brings(es[i].f, n, msgType, msgLen, k, b);
    assert (es + [e])[i] == es[i];
  }

  ghost predicate MadeOf(es: seq<Event>, n: nat, a: Assembly) {
    forall k :: k in a.bytes ==> Brought(es, n, a.msgType, a.msgLen, k, a.bytes[k])
  }

  ghost predicate PendingMade(es: seq<Event>, r: Receiver) {
    forall n :: n in r.pending ==> MadeOf(es, n, r.pending[n])
  }

  ghost predicate MessageMade(es: seq<Event>, n: nat, m: Sent) {
    forall k :: 0 <= k < |m.body| ==> Brought(es, n, m.msgType, |m.body|, k, m.body[k])
  }

  ghost predicate DeliveredMade(es: seq<Event>, delivered: seq<Sent>) {
    forall j :: 0 <= j < |delivered| ==> MessageMade(es, j % 0x1_0000, delivered[j])
  }

  lemma StepMade(es: seq<Event>, e: Event, s: State, maxLen: nat)
    requires PendingMade(es, s.receiver)
    ensures PendingMade(es + [e], Step(s, e, maxLen).receiver)
  {
    var t := Step(s, e, maxLen).receiver;
    forall n, k | n in t.pending && k in t.pending[n].bytes
      ensures Brought(es + [e], n, t.pending[n].msgType, t.pending[n].msgLen, k, t.pending[n].bytes[k])
    {
      var a := t.pending[n];
      if n in s.receiver.pending && k in s.receiver.pending[n].bytes && s.receiver.pending[n].bytes[k] == a.bytes[k] {
        assert MadeOf(es, n, s.receiver.pending[n]);
        BroughtBefore(es, e, n, a.msgType, a.msgLen, k, a.bytes[k]);
      } else {
        assert (es + [e])[|es|] == e && Brings(e.f, n, a.msgType, a.msgLen, k, a.bytes[k]);
      }
    }
  }

  lemma DeliveredStaysMade(es: seq<Event>, e: Event, delivered: seq<Sent>)
    requires DeliveredMade(es, delivered)
    ensures DeliveredMade(es + [e], delivered)
  {
    forall j, k | 0 <= j < |delivered| && 0 <= k < |delivered[j].body|
      ensures Brought(es + [e], j % 0x1_0000, delivered[j].msgType, |delivered[j].body|, k, delivered[j].body[k])
    {
      assert MessageMade(es, j % 0x1_0000, delivered[j]);
      BroughtBefore(es, e, j % 0x1_0000, delivered[j].msgType, |delivered[j].body|, k, delivered[j].body[k]);
    }
  }

  /** Whatever arrives, the messages are read in the order of their 16-bit numbers, and each is made of fragments of its
      number, its type and its length, byte for byte. */
  lemma {:induction false} MadeOfWhatCame(es: seq<Event>, maxLen: nat)
    ensures var s := Run(es, maxLen);
            && s.receiver.readSeq == |s.delivered| % 0x1_0000
            && PendingMade(es, s.receiver) && DeliveredMade(es, s.delivered)
  {
    if es != [] {
      var before, e := es[..|es| - 1], es[|es| - 1];
      var s := Run(before, maxLen);
      MadeOfWhatCame(before, maxLen);
      StepMade(before, e, s, maxLen);
      DeliveredStaysMade(before, e, s.delivered);
      assert before + [e] == es;
      if e.Read? && Ready(s.receiver) {
        assert MadeOf(before, s.receiver.readSeq, s.receiver.pending[s.receiver.readSeq]);
        LastIsMade(before, e, s, maxLen);
      }
    }
  }

  lemma LastIsMade(es: seq<Event>, e: Event, s: State, maxLen: nat)
    requires e.Read? && Ready(s.receiver) && MadeOf(es, s.receiver.readSeq, s.receiver.pending[s.receiver.readSeq])
    requires s.receiver.readSeq == |s.delivered| % 0x1_0000 && DeliveredMade(es + [e], s.delivered)
    ensures DeliveredMade(es + [e], Step(s, e, maxLen).delivered)
  {
    var a, n := s.receiver.pending[s.receiver.readSeq], s.receiver.readSeq;
    var m := Sent(a.msgType, Body(a));
    forall k | 0 <= k < |m.body|
      ensures Brought(es + [e], n, m.msgType, |m.body|, k, m.body[k])
    {
      BroughtBefore(es, e, n, a.msgType, a.msgLen, k, a.bytes[k]);
    }
    assert MessageMade(es + [e], n, m);
  }

  // ---------- Records ----------

  /** A record of the handshake brings its fragments. Of the others only two kinds do not break the connection: a
      ChangeCipherSpec without keys, of the one byte 1, and application data under keys, which is passed over. */
  lemma BringsExactly(recordType: RecordType, record: seq<byte>, nullCipher: bool, epoch: nat)
    ensures !recordType.Handshake? ==>
              RecordBrings(recordType, record, nullCipher, epoch) ==
              if (recordType.ChangeCipherSpec? && nullCipher && record == [1])
                 || (recordType.ApplicationData? && !nullCipher) then [] else [Broken]
    ensures recordType.Handshake? ==> RecordBrings(recordType, record, nullCipher, epoch) == RecordEvents(record, epoch)
  {
  }

  /** What a sender puts into a ChangeCipherSpec is what a receiver without keys takes for one. */
  lemma SentCcsIsTaken(e: Emission, epoch: nat)
    requires e.CcsRecord?
    ensures Plaintext(e) == [1] && RecordBrings(ChangeCipherSpec, Plaintext(e), true, epoch) == []
  {
  }
}

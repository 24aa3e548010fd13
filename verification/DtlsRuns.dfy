/** Runs of the DTLS receiver: what has come in and what has been read so far. */
module DtlsRuns {
  import opened Bytes
  import opened DtlsFlight
  import opened DtlsFragment
  import opened DtlsHistory
  import opened DtlsReassembly

  /** A fragment arrives while the receiver is in an epoch; or something arrives that breaks the connection; or the next
      message is asked for, and let go if it is there. */
  datatype Event = Arrive(f: Fragment, epoch: nat) | Broken | Read

  datatype State = State(receiver: Receiver, delivered: seq<Sent>, failed: bool)

  /** A fragment that is not acceptable ends the connection: nothing more comes in, but what is complete can be read. */
  function Step(s: State, e: Event, maxLen: nat): State {
    match e
    case Arrive(f, epoch) =>
      if s.failed then s
      else if Acceptable(s.receiver, f, epoch, maxLen) then s.(receiver := Take(s.receiver, f))
      else s.(failed := true)
    case Broken => s.(failed := true)
    case Read =>
      if Ready(s.receiver) then
        var a := s.receiver.pending[s.receiver.readSeq];
        s.(receiver := Next(s.receiver), delivered := s.delivered + [Sent(a.msgType, Body(a))])
      else s
  }

  function Run(es: seq<Event>, maxLen: nat): State {
    if es == [] then State(Receiver(0, map[]), [], false) else Step(Run(es[..|es| - 1], maxLen), es[|es| - 1], maxLen)
  }

  lemma RunOnce(es: seq<Event>, e: Event, maxLen: nat)
    ensures Run(es + [e], maxLen) == Step(Run(es, maxLen), e, maxLen)
  {
    assert (es + [e])[..|es|] == es;
  }

  lemma ReadOnce(es: seq<Event>, maxLen: nat)
    requires Ready(Run(es, maxLen).receiver)
    ensures var s := Run(es + [Read], maxLen);
            s.receiver == Next(Run(es, maxLen).receiver) && s.failed == Run(es, maxLen).failed
  {
    RunOnce(es, Read, maxLen);
  }

  // ---------- Records ----------

  /** What the body of a handshake record brings: its fragments, up to bytes that are none. */
  function RecordEvents(s: seq<byte>, epoch: nat): (es: seq<Event>)
    ensures forall i :: 0 <= i < |es| ==> !es[i].Read?
    decreases |s|
  {
    if s == [] then []
    else
      var p := ParseFragment(s);
      if p.Fail? then [Broken] else [Arrive(p.value, epoch)] + RecordEvents(p.rest, epoch)
  }

  lemma {:induction false} FailedForGood(es: seq<Event>, fs: seq<Event>, maxLen: nat)
    requires Run(es, maxLen).failed && forall i :: 0 <= i < |fs| ==> !fs[i].Read?
    ensures Run(es + fs, maxLen) == Run(es, maxLen)
    decreases |fs|
  {
    if fs == [] {
      assert es + fs == es;
    } else {
      var last := |fs| - 1;
      FailedForGood(es, fs[..last], maxLen);
      RunOnce(es + fs[..last], fs[last], maxLen);
      assert es + fs == (es + fs[..last]) + [fs[last]];
    }
  }

  ghost predicate TakenAs(r: Receiver, ok: bool, delivered: seq<Sent>, s: State) {
    s.receiver == r && s.failed == !ok && s.delivered == delivered
  }

  /** What the receiver does with the bytes of a record, whatever they are, is what it does when the fragments in it
      arrive one by one. */
  lemma {:induction false} RecordIsArrivals(es: seq<Event>, s: seq<byte>, epoch: nat, maxLen: nat)
    requires !Run(es, maxLen).failed
    ensures var (r, ok) := TakeAll(Run(es, maxLen).receiver, s, epoch, maxLen);
            TakenAs(r, ok, Run(es, maxLen).delivered, Run(es + RecordEvents(s, epoch), maxLen))
    decreases |s|
  {
    var more := RecordEvents(s, epoch);
    if s == [] {
      assert es + more == es;
    } else {
      assert es + more == (es + [more[0]]) + more[1..];
      RunOnce(es, more[0], maxLen);
      var p := ParseFragment(s);
      if p.Ok? && Acceptable(Run(es, maxLen).receiver, p.value, epoch, maxLen) {
        RecordIsArrivals(es + [more[0]], p.rest, epoch, maxLen);
      } else {
        FailedForGood(es + [more[0]], more[1..], maxLen);
      }
    }
  }

  /** The records of this sender hold one fragment each. */
  lemma SentRecordIsArrival(e: Emission, epoch: nat)
    requires e.FragmentRecord? && WireSized(e.f)
    ensures RecordEvents(Plaintext(e), epoch) == [Arrive(e.f, epoch)]
  {
    FragmentRoundTrip(e.f, []);
    assert FragmentBytes(e.f) + [] == Plaintext(e);
  }
}

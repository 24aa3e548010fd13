/** The handshake messages a connection has made, and the sendings of flights that they were put out in. */
module DtlsHistory {
  import opened Bytes
  import opened DtlsFlight
  import opened DtlsFragment

  /** A handshake message. Number `n` of a connection is the n-th one its sender made. */
  datatype Sent = Sent(msgType: byte, body: seq<byte>)

  /** One sending of a flight, or of part of it, with any MTU: its fragments carry the sender from one position to
      another. */
  datatype Transmission = Transmission(msgs: seq<FlightMessage>, first: Position, es: seq<Emission>, last: Position)

  function WholeOf(sent: seq<Sent>, n: nat): Fragment
    requires n < |sent|
  {
    Fragment(sent[n].msgType, |sent[n].body|, n, 0, sent[n].body)
  }

  /** The messages of the flight are among those made, each under its number. */
  predicate Among(msgs: seq<FlightMessage>, sent: seq<Sent>)
  {
    forall i :: 0 <= i < |msgs| && msgs[i].Message? ==>
      msgs[i].whole.number < |sent| && msgs[i].whole == WholeOf(sent, msgs[i].whole.number)
  }

  predicate FromHistory(t: Transmission, sent: seq<Sent>) {
    && At(t.msgs, t.first) && Walk(t.msgs, t.first, t.es, t.last)
    && Among(t.msgs, sent)
  }

  predicate AllFromHistory(ts: seq<Transmission>, sent: seq<Sent>) {
    forall j :: 0 <= j < |ts| ==> FromHistory(ts[j], sent)
  }

  lemma AmongMore(msgs: seq<FlightMessage>, sent: seq<Sent>, m: Sent)
    requires Among(msgs, sent)
    ensures Among(msgs, sent + [m])
  {
  }

  lemma HistoryGrows(ts: seq<Transmission>, sent: seq<Sent>, m: Sent)
    requires AllFromHistory(ts, sent)
    ensures AllFromHistory(ts, sent + [m])
  {
    forall j | 0 <= j < |ts|
      ensures FromHistory(ts[j], sent + [m])
    {
      AmongMore(ts[j].msgs, sent, m);
    }
  }
}

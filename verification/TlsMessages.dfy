/** Handshake messages over TLS records: a sender that splits them and a reader that puts them together again. */
module TlsMessages {
  import opened Bytes

  const TWO_TO_THE_24: int := 0x100_0000

  datatype HandshakeMessage = HandshakeMessage(msgType: byte, body: seq<byte>)

  predicate WellSized(m: HandshakeMessage) {
    |m.body| < TWO_TO_THE_24
  }

  /** The type, the length in three bytes and the body. */
  function Raw(m: HandshakeMessage): (s: seq<byte>)
    ensures |s| == 4 + |m.body|
  {
    [m.msgType] + ToBigEndian(|m.body|, 3) + m.body
  }

  /** A message on the wire. */
  lemma RawIsSpelled(m: HandshakeMessage)
    requires WellSized(m)
    ensures var n := |m.body|; Raw(m) == [m.msgType, n / 0x1_0000, n / 256 % 256, n % 256] + m.body
  {
    BigEndianIsSpelled(|m.body|);
  }

  function Stream(ms: seq<HandshakeMessage>): seq<byte> {
    if ms == [] then [] else Raw(ms[0]) + Stream(ms[1..])
  }

  lemma {:induction false} StreamAppend(a: seq<HandshakeMessage>, b: seq<HandshakeMessage>)
    ensures Stream(a + b) == Stream(a) + Stream(b)
    decreases |a|
  {
    if a == [] {
      assert a + b == b;
    } else {
      assert (a + b)[1..] == a[1..] + b;
      StreamAppend(a[1..], b);
    }
  }

  // ---------- Parsing ----------

  datatype Parsed = Complete(m: HandshakeMessage) | Needs(total: nat)

  /** parse_message: the message at the front of the buffer, or how many bytes there have to be at least. */
  function Front(buf: seq<byte>): (r: Parsed)
    ensures r.Needs? ==> |buf| < r.total
    ensures r.Complete? ==> |Raw(r.m)| <= |buf|
  {
    if |buf| < 4 then Needs(4)
    else
      var len := BigEndian(buf[1..4]);
      if |buf| - 4 < len then Needs(4 + len) else Complete(HandshakeMessage(buf[0], buf[4..4 + len]))
  }

  lemma HeaderOfRaw(m: HandshakeMessage, rest: seq<byte>)
    requires WellSized(m)
    ensures var s := Raw(m) + rest;
            s[0] == m.msgType && BigEndian(s[1..4]) == |m.body| && s[4..4 + |m.body|] == m.body
  {
    var s := Raw(m) + rest;
    assert Pow256(3) == TWO_TO_THE_24;
    BigEndianRoundTrip(|m.body|, 3);
    assert s[1..4] == ToBigEndian(|m.body|, 3);
  }

  /** Of what begins with a message, any part holds it at the front exactly when it holds all of it; if not, no more
      bytes are asked for than the message has. */
  lemma FrontOfPart(m: HandshakeMessage, rest: seq<byte>, buf: seq<byte>)
    requires WellSized(m) && buf <= Raw(m) + rest
    ensures Front(buf) == if |Raw(m)| <= |buf| then Complete(m) else Needs(if |buf| < 4 then 4 else |Raw(m)|)
  {
    var s := Raw(m) + rest;
    HeaderOfRaw(m, rest);
    if |buf| >= 4 {
      assert buf[1..4] == s[1..4] && buf[0] == s[0];
      if |Raw(m)| <= |buf| {
        assert buf[4..4 + |m.body|] == s[4..4 + |m.body|];
      }
    }
  }

  /** What is parsed is what the bytes at the front spell. */
  lemma FrontIsRaw(buf: seq<byte>)
    requires Front(buf).Complete?
    ensures WellSized(Front(buf).m) && buf == Raw(Front(buf).m) + buf[|Raw(Front(buf).m)|..]
  {
    var m := Front(buf).m;
    assert Pow256(3) == TWO_TO_THE_24;
    BigEndianBound(buf[1..4]);
    ToBigEndianOf(buf[1..4]);
    assert buf[..|Raw(m)|] == [buf[0]] + buf[1..4] + buf[4..|Raw(m)|];
  }

  // ---------- Splitting ----------

  function Concat(parts: seq<seq<byte>>): seq<byte> {
    if parts == [] then [] else parts[0] + Concat(parts[1..])
  }

  lemma {:induction false} ConcatAppend(a: seq<seq<byte>>, b: seq<seq<byte>>)
    ensures Concat(a + b) == Concat(a) + Concat(b)
    decreases |a|
  {
    if a == [] {
      assert a + b == b;
    } else {
      assert (a + b)[1..] == a[1..] + b;
      ConcatAppend(a[1..], b);
    }
  }

  lemma ConcatOne(part: seq<byte>)
    ensures Concat([part]) == part
  {
    var parts := [part];
    assert parts[1..] == [] && part + [] == part;
  }

  /** Parts of the largest size, but for the last. */
  predicate FullParts(parts: seq<seq<byte>>, max: nat) {
    && (forall i :: 0 <= i < |parts| - 1 ==> |parts[i]| == max)
    && (parts != [] ==> |parts[|parts| - 1]| <= max)
  }

  /** How a message is split: into as few parts as there can be, one of them at least and none of them empty unless the
      message is. */
  predicate Splits(msg: seq<byte>, max: nat, parts: seq<seq<byte>>) {
    && Concat(parts) == msg && FullParts(parts, max) && parts != []
    && (msg != [] ==> parts[|parts| - 1] != [])
  }

  lemma {:induction false} FullPartsLength(parts: seq<seq<byte>>, max: nat)
    requires FullParts(parts, max) && parts != []
    ensures |Concat(parts)| == (|parts| - 1) * max + |parts[|parts| - 1]|
  {
    if |parts| == 1 {
      assert parts == [parts[0]];
      ConcatOne(parts[0]);
    } else {
      FullPartsLength(parts[1..], max);
      assert (|parts| - 1) * max == (|parts| - 2) * max + max;
    }
  }

  /** No fewer parts would hold it. */
  lemma SplitsIntoFewest(msg: seq<byte>, max: nat, parts: seq<seq<byte>>)
    requires Splits(msg, max, parts) && max > 0
    ensures msg == [] ==> |parts| == 1
    ensures msg != [] ==> (|parts| - 1) * max < |msg| <= |parts| * max
  {
    FullPartsLength(parts, max);
    assert |parts| * max == (|parts| - 1) * max + max;
    if |parts| > 1 {
      assert (|parts| - 1) * max == (|parts| - 2) * max + max && (|parts| - 2) * max >= 0;
    }
  }

  /** Part of a message is split already, all of it into full parts, unless nothing is left. */
  predicate SplitSoFar(msg: seq<byte>, max: nat, parts: seq<seq<byte>>, rest: seq<byte>) {
    && Concat(parts) + rest == msg && FullParts(parts, max)
    && (parts != [] && msg != [] ==> parts[|parts| - 1] != [])
    && (rest != [] ==> forall i :: 0 <= i < |parts| ==> |parts[i]| == max)
  }

  lemma SplitOneMore(msg: seq<byte>, max: nat, parts: seq<seq<byte>>, rest: seq<byte>, size: nat)
    requires max > 0 && SplitSoFar(msg, max, parts, rest) && (parts == [] || rest != [])
    requires size == if |rest| < max then |rest| else max
    ensures SplitSoFar(msg, max, parts + [rest[..size]], rest[size..])
  {
    ConcatAppend(parts, [rest[..size]]);
    ConcatOne(rest[..size]);
    assert rest[..size] + rest[size..] == rest;
    assert Concat(parts) + rest == (Concat(parts) + rest[..size]) + rest[size..];
    if parts == [] && msg != [] {
      assert rest == msg;
    }
  }

  /** ssl3_add_message adds the parts of a message to the flight, each as a record to be sealed. It stops where sealing
      fails; only when it does not is the message hashed. */
  class Sender {
    var flight: seq<seq<byte>>
    var transcript: seq<byte>
    var maxSendFragment: nat

    constructor (maxSendFragment: nat)
      ensures flight == [] && transcript == [] && this.maxSendFragment == maxSendFragment
    {
      flight, transcript, this.maxSendFragment := [], [], maxSendFragment;
    }

    /** add_record_to_flight. */
    method AddRecord(chunk: seq<byte>) returns (ok: bool)
      modifies this`flight
      ensures flight == if ok then old(flight) + [chunk] else old(flight)
    {
      ok := *;
      if ok {
        flight := flight + [chunk];
      }
    }

    method AddMessage(msg: seq<byte>) returns (ok: bool, ghost parts: seq<seq<byte>>)
      requires maxSendFragment > 0
      modifies this`flight, this`transcript
      ensures flight == old(flight) + parts
      ensures transcript == if ok then old(transcript) + msg else old(transcript)
      ensures ok ==> Splits(msg, maxSendFragment, parts)
      ensures !ok ==> Concat(parts) <= msg && FullParts(parts, maxSendFragment)
    {
      parts := [];
      var rest := msg;
      var first := true;
      while first || rest != []
        invariant (first <==> parts == []) && transcript == old(transcript)
        invariant SplitSoFar(msg, maxSendFragment, parts, rest) && flight == old(flight) + parts
        decreases |rest|, first
      {
        var chunk := rest[..if |rest| < maxSendFragment then |rest| else maxSendFragment];
        SplitOneMore(msg, maxSendFragment, parts, rest, |chunk|);
        ghost var left := rest;
        rest := rest[|chunk|..];
        first := false;
        var added := AddRecord(chunk);
        if !added {
          assert Concat(parts) + left == msg;
          return false, parts;
        }
        parts := parts + [chunk];
      }
      assert rest == [] && Concat(parts) == Concat(parts) + rest == msg;
      transcript := transcript + msg;
      return true, parts;
    }
  }

  // ---------- The reader ----------

  datatype Accept = Accepted | MessageWaiting | Excessive | UnexpectedRecord

  /** Section 6.2.1 of RFC 5246. */
  const RT_HANDSHAKE: byte := 22

  /** tls_can_accept_handshake_data. */
  function CanAccept(buf: seq<byte>, maxMessage: nat): Accept {
    match Front(buf)
    case Complete(_) => MessageWaiting
    case Needs(total) => if total > 4 + maxMessage then Excessive else Accepted
  }

  /** hs_buf, which is there only when it is needed, and whether its first message was already shown. */
  class Reader {
    var hsBuf: Option<seq<byte>>
    var hasMessage: bool

    constructor ()
      ensures Buffered() == [] && !hasMessage
    {
      hsBuf, hasMessage := None, false;
    }

    ghost function Buffered(): seq<byte>
      reads this
    {
      if hsBuf.Some? then hsBuf.value else []
    }

    method ParseMessage() returns (ok: bool, m: HandshakeMessage, bytesNeeded: nat)
      ensures ok <==> Front(Buffered()).Complete?
      ensures ok ==> Front(Buffered()) == Complete(m)
      ensures !ok ==> Front(Buffered()) == Needs(bytesNeeded)
    {
      m, bytesNeeded := HandshakeMessage(0, []), 0;
      if hsBuf.None? || |hsBuf.value| < 4 {
        return false, m, 4;
      }
      var buf := hsBuf.value;
      var len := BigEndian(buf[1..4]);
      if |buf| - 4 < len {
        return false, m, 4 + len;
      }
      return true, HandshakeMessage(buf[0], buf[4..4 + len]), 0;
    }

    method GetMessage() returns (ok: bool, m: HandshakeMessage)
      modifies this`hasMessage
      ensures ok <==> Front(Buffered()).Complete?
      ensures ok ==> Front(Buffered()) == Complete(m)
      ensures hasMessage == (old(hasMessage) || ok)
    {
      var bytesNeeded: nat;
      ok, m, bytesNeeded := ParseMessage();
      if ok && !hasMessage {
        hasMessage := true;
      }
    }

    method CanAcceptHandshakeData(maxMessage: nat) returns (r: Accept)
      ensures r == CanAccept(Buffered(), maxMessage)
    {
      var ok, _, bytesNeeded := ParseMessage();
      if ok {
        return MessageWaiting;
      }
      return if bytesNeeded > 4 + maxMessage then Excessive else Accepted;
    }

    /** Whether there are bytes besides the message being processed; no other record may come while there are. */
    method HasUnprocessed() returns (r: bool)
      ensures r <==> |Buffered()| > if hasMessage && Front(Buffered()).Complete? then |Raw(Front(Buffered()).m)| else 0
    {
      var msgLen := 0;
      if hasMessage {
        var ok, m, _ := ParseMessage();
        if ok {
          msgLen := 4 + |m.body|;
        }
      }
      return hsBuf.Some? && |hsBuf.value| > msgLen;
    }

    /** ssl3_open_handshake on a record that opens, the check at the start of tls_open_record included. */
    method OpenHandshake(recordType: byte, body: seq<byte>, maxMessage: nat) returns (r: Accept)
      modifies this`hsBuf
      ensures var accept := CanAccept(old(Buffered()), maxMessage);
              r == if accept.Accepted? && recordType != 22 then UnexpectedRecord else accept
      ensures Buffered() == if r.Accepted? then old(Buffered()) + body else old(Buffered())
    {
      if hsBuf.None? {
        hsBuf := Some([]);
      }
      r := CanAcceptHandshakeData(maxMessage);
      if r.Accepted? && recordType != RT_HANDSHAKE {
        return UnexpectedRecord;
      }
      if r.Accepted? {
        hsBuf := Some(hsBuf.value + body);
      }
    }

    /** ssl3_next_message, which may only be called when there is one. */
    method NextMessage(inInit: bool)
      requires Front(Buffered()).Complete?
      modifies this
      ensures Buffered() == old(Buffered()[|Raw(Front(Buffered()).m)|..]) && !hasMessage
      ensures !inInit && Buffered() == [] ==> hsBuf.None?
    {
      var _, m := GetMessage();
      hsBuf := Some(hsBuf.value[4 + |m.body|..]);
      hasMessage := false;
      if !inInit && |hsBuf.value| == 0 {
        hsBuf := None;
      }
    }
  }
}

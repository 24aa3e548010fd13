/** DTLS handshake fragments on the wire, as in section 4.2.2 of RFC 6347. */
module DtlsFragment {
  import opened Bytes

  const HM_HEADER_LENGTH: nat := 12
  const MAX_HANDSHAKE_FLIGHT: nat := 7
  const TWO_TO_THE_16: int := 0x1_0000
  const TWO_TO_THE_24: int := 0x100_0000

  /** A piece of the body of message number `number`, from byte `fragOff` on. */
  datatype Fragment = Fragment(msgType: byte, msgLen: nat, number: nat, fragOff: nat, body: seq<byte>)

  predicate WireSized(f: Fragment) {
    && f.msgLen < TWO_TO_THE_24 && f.number < TWO_TO_THE_16
    && f.fragOff < TWO_TO_THE_24 && |f.body| < TWO_TO_THE_24
  }

  function HeaderBytes(msgType: byte, msgLen: nat, number: nat, fragOff: nat, fragLen: nat): (s: seq<byte>)
    ensures |s| == HM_HEADER_LENGTH
  {
    [msgType] + ToBigEndian(msgLen, 3) + ToBigEndian(number, 2) + ToBigEndian(fragOff, 3) + ToBigEndian(fragLen, 3)
  }

  function FragmentBytes(f: Fragment): (s: seq<byte>)
    ensures |s| == HM_HEADER_LENGTH + |f.body|
  {
    HeaderBytes(f.msgType, f.msgLen, f.number, f.fragOff, |f.body|) + f.body
  }

  /** dtls1_parse_fragment. */
  function ParseFragment(s: seq<byte>): (r: Parse<Fragment>)
    ensures r.Ok? ==> |r.rest| < |s|
  {
    if |s| < HM_HEADER_LENGTH then Fail
    else
      var fragLen := BigEndian(s[9..12]);
      if |s| - HM_HEADER_LENGTH < fragLen then Fail
      else
        Ok(Fragment(s[0], BigEndian(s[1..4]), BigEndian(s[4..6]), BigEndian(s[6..9]), s[12..12 + fragLen]),
           s[12 + fragLen..])
  }

  lemma HeaderParts(msgType: byte, msgLen: nat, number: nat, fragOff: nat, fragLen: nat, tail: seq<byte>)
    ensures var s := HeaderBytes(msgType, msgLen, number, fragOff, fragLen) + tail;
            && s[0] == msgType && s[1..4] == ToBigEndian(msgLen, 3) && s[4..6] == ToBigEndian(number, 2)
            && s[6..9] == ToBigEndian(fragOff, 3) && s[9..12] == ToBigEndian(fragLen, 3) && s[12..] == tail
  {
  }

  lemma ParseParts(s: seq<byte>, tail: seq<byte>, fragLen: nat)
    requires |s| >= HM_HEADER_LENGTH && s[12..] == tail && BigEndian(s[9..12]) == fragLen <= |tail|
    ensures ParseFragment(s) ==
            Ok(Fragment(s[0], BigEndian(s[1..4]), BigEndian(s[4..6]), BigEndian(s[6..9]), tail[..fragLen]),
               tail[fragLen..])
  {
    assert s[12..12 + fragLen] == tail[..fragLen] && s[12 + fragLen..] == tail[fragLen..];
  }

  /** The header on the wire: type, length of the message, its number, where the fragment begins and how long it is. */
  lemma HeaderIsSpelled(f: Fragment)
    requires WireSized(f)
    ensures var n, l, o, b := f.number, f.msgLen, f.fragOff, |f.body|;
            FragmentBytes(f) ==
            [f.msgType, l / 0x1_0000, l / 256 % 256, l % 256, n / 256, n % 256,
             o / 0x1_0000, o / 256 % 256, o % 256, b / 0x1_0000, b / 256 % 256, b % 256] + f.body
  {
    BigEndianIsSpelled(f.msgLen);
    BigEndianIsSpelled(f.number);
    BigEndianIsSpelled(f.fragOff);
    BigEndianIsSpelled(|f.body|);
  }

  /** Parsing undoes writing and stops at the end of the fragment. */
  lemma FragmentRoundTrip(f: Fragment, rest: seq<byte>)
    requires WireSized(f)
    ensures ParseFragment(FragmentBytes(f) + rest) == Ok(f, rest)
  {
    var tail, s := f.body + rest, FragmentBytes(f) + rest;
    assert Pow256(3) == TWO_TO_THE_24 && Pow256(2) == TWO_TO_THE_16;
    BigEndianRoundTrip(f.msgLen, 3);
    BigEndianRoundTrip(f.number, 2);
    BigEndianRoundTrip(f.fragOff, 3);
    BigEndianRoundTrip(|f.body|, 3);
    HeaderParts(f.msgType, f.msgLen, f.number, f.fragOff, |f.body|, tail);
    assert s == HeaderBytes(f.msgType, f.msgLen, f.number, f.fragOff, |f.body|) + tail;
    ParseParts(s, tail, |f.body|);
    assert tail[..|f.body|] == f.body && tail[|f.body|..] == rest;
  }

  /** The fields read from the wire are of their widths. */
  lemma ParsedIsWireSized(s: seq<byte>)
    requires ParseFragment(s).Ok?
    ensures WireSized(ParseFragment(s).value)
  {
    assert Pow256(3) == TWO_TO_THE_24 && Pow256(2) == TWO_TO_THE_16;
    BigEndianBound(s[1..4]);
    BigEndianBound(s[4..6]);
    BigEndianBound(s[6..9]);
    BigEndianBound(s[9..12]);
  }
}

/** Base-128 varints, zigzag integers and little-endian words, as byte sequences. */
module Varint {
  import opened Bytes

  // ---------- Encoding ----------

  function VarintBytes(v: nat): (s: seq<byte>)
    ensures |s| >= 1
  {
    if v < 128 then [v] else [v % 128 + 128] + VarintBytes(v / 128)
  }

  function ZigZag(v: int): nat {
    if v < 0 then -2 * v - 1 else 2 * v
  }

  function FixedBytes(v: nat, n: nat): (s: seq<byte>)
    ensures |s| == n
  {
    if n == 0 then [] else [v % 256] + FixedBytes(v / 256, n - 1)
  }

  // ---------- Decoding ----------

  /** The length of the varint at the front of `s`: up to the first byte without a continuation bit. */
  function VarintSize(s: seq<byte>): (n: Option<nat>)
    ensures n.Some? ==> 1 <= n.value <= |s| && s[n.value - 1] < 128
    ensures n.Some? ==> forall i :: 0 <= i < n.value - 1 ==> s[i] >= 128
    ensures n.None? ==> forall i :: 0 <= i < |s| ==> s[i] >= 128
  {
    if |s| == 0 then None
    else if s[0] < 128 then Some(1)
    else
      var n := VarintSize(s[1..]);
      if n.Some? then Some(n.value + 1) else None
  }

  /** The seven-bit groups of `s` as a little-endian number. */
  function GroupsValue(s: seq<byte>): nat {
    if |s| == 0 then 0 else s[0] % 128 + 128 * GroupsValue(s[1..])
  }

  /** A 64-bit varint: bits above 63 are dropped, an eleventh byte is an error. */
  function DecodeVarint(s: seq<byte>): (r: Parse<nat>)
    ensures r.Ok? ==> |r.rest| < |s| && r.rest == s[|s| - |r.rest|..]
  {
    var n := VarintSize(s);
    if n.Some? && n.value <= 10 then Ok(GroupsValue(s[..n.value]) % TWO_TO_THE_64, s[n.value..])
    else Fail
  }

  /** A byte past bit 31 must be padding or continue the sign of a negative 32-bit number. */
  predicate Overflows32(b: byte, bitpos: nat, result: nat) {
    b % 128 != 0 && (result < TWO_TO_THE_31 || b != if bitpos < 63 then 0xFF else 0x01)
  }

  /** The bytes of a 32-bit varint after the fifth. The bit position is an 8-bit counter, so after 37 bytes
      padding reaches the low bits again. */
  function DecodeTail32(s: seq<byte>, bitpos: nat, result: nat): (r: Parse<nat>)
    ensures r.Ok? ==> |r.rest| < |s| && r.rest == s[|s| - |r.rest|..]
  {
    if |s| == 0 then Fail
    else if bitpos >= 32 && Overflows32(s[0], bitpos, result) then Fail
    else
      var joined := if bitpos >= 32 then result else BitOr(result, ShiftLeft(s[0] % 128, bitpos, TWO_TO_THE_32));
      var next := (bitpos + 7) % 256;
      if s[0] >= 128 then DecodeTail32(s[1..], next, joined)
      else if next == 35 && s[0] >= 16 then Fail
      else Ok(joined, s[1..])
  }

  /** A 32-bit varint. The top three bits of the fifth byte matter only when it is the last. */
  function DecodeVarint32(s: seq<byte>): (r: Parse<nat>)
    ensures r.Ok? ==> |r.rest| < |s| && r.rest == s[|s| - |r.rest|..]
  {
    var n := VarintSize(s);
    if n.None? then Fail
    else if n.value > 5 then DecodeTail32(s[5..], 35, GroupsValue(s[..5]) % TWO_TO_THE_32)
    else if n.value == 5 && s[4] >= 16 then Fail
    else Ok(GroupsValue(s[..n.value]), s[n.value..])
  }

  function UnZigZag(v: nat): int {
    if v % 2 == 1 then -(v / 2) - 1 else v / 2
  }

  function FromFixed(s: seq<byte>): (v: nat) {
    if s == [] then 0 else s[0] + 256 * FromFixed(s[1..])
  }

  // ---------- Round trips ----------

  function Pow128(k: nat): nat {
    if k == 0 then 1 else 128 * Pow128(k - 1)
  }

  lemma {:induction false} VarintLength(v: nat, k: nat)
    requires k > 0
    ensures |VarintBytes(v)| <= k <==> v < Pow128(k)
    decreases k
  {
    if v >= 128 && k > 1 {
      VarintLength(v / 128, k - 1);
    } else {
      Pow128Positive(k - 1);
    }
  }

  lemma {:induction false} Pow128Positive(k: nat)
    ensures Pow128(k) >= 1
  {
    if k > 0 {
      Pow128Positive(k - 1);
    }
  }

  lemma Pow128Values()
    ensures Pow128(4) == 0x1000_0000 && Pow128(5) == 128 * 0x1000_0000
    ensures Pow128(9) == TWO_TO_THE_63 && Pow128(10) == 64 * TWO_TO_THE_64
  {
  }

  /** Every 64-bit value takes at most ten bytes. */
  lemma VarintAtMostTenBytes(v: nat)
    requires v < TWO_TO_THE_64
    ensures |VarintBytes(v)| <= 10
  {
    Pow128Values();
    VarintLength(v, 10);
  }

  lemma OneContinuation(s: seq<byte>, t: seq<byte>)
    requires s != [] && s[0] >= 128 && s[1..] == t
    ensures VarintSize(s) == if VarintSize(t).Some? then Some(1 + VarintSize(t).value) else None
  {
  }

  lemma FrontOfVarint(s: seq<byte>, v: nat, rest: seq<byte>)
    requires s == VarintBytes(v) + rest
    ensures s != [] && s[0] == (if v < 128 then v else v % 128 + 128)
    ensures v >= 128 ==> s[1..] == VarintBytes(v / 128) + rest
  {
    if v >= 128 {
      assert VarintBytes(v)[1..] == VarintBytes(v / 128);
    }
  }

  lemma GroupsFront(s: seq<byte>, t: seq<byte>)
    requires s != [] && s[1..] == t
    ensures GroupsValue(s) == s[0] % 128 + 128 * GroupsValue(t)
  {
  }

  /** The encoding ends where its size says, and its groups are the value. */
  lemma {:induction false} VarintGroups(v: nat, rest: seq<byte>)
    ensures VarintSize(VarintBytes(v) + rest) == Some(|VarintBytes(v)|)
    ensures GroupsValue(VarintBytes(v)) == v
  {
    var s := VarintBytes(v);
    assert s + [] == s;
    FrontOfVarint(s, v, []);
    FrontOfVarint(s + rest, v, rest);
    if v >= 128 {
      VarintGroups(v / 128, rest);
      assert VarintBytes(v / 128) + [] == VarintBytes(v / 128);
      OneContinuation(s + rest, VarintBytes(v / 128) + rest);
      GroupsFront(s, VarintBytes(v / 128));
    }
  }

  lemma VarintPrefix(v: nat, rest: seq<byte>)
    ensures var s, n := VarintBytes(v) + rest, |VarintBytes(v)|;
            s[..n] == VarintBytes(v) && s[n..] == rest
  {
  }

  /** The decoder undoes the encoder on every 64-bit value, and reads exactly its bytes. */
  lemma VarintRoundTrip(v: nat, rest: seq<byte>)
    requires v < TWO_TO_THE_64
    ensures DecodeVarint(VarintBytes(v) + rest) == Ok(v, rest)
  {
    VarintAtMostTenBytes(v);
    DecodeGroups(v, rest);
    SmallWord(v);
  }

  lemma DecodeGroups(v: nat, rest: seq<byte>)
    ensures DecodeVarint(VarintBytes(v) + rest) ==
            if |VarintBytes(v)| <= 10 then Ok(v % TWO_TO_THE_64, rest) else Fail
  {
    VarintGroups(v, rest);
    VarintPrefix(v, rest);
  }

  lemma SmallWord(v: nat)
    requires v < TWO_TO_THE_64
    ensures v % TWO_TO_THE_64 == v
  {
  }

  lemma ZigZagRoundTrip(v: int)
    requires -TWO_TO_THE_63 <= v < TWO_TO_THE_63
    ensures ZigZag(v) < TWO_TO_THE_64 && UnZigZag(ZigZag(v)) == v
  {
  }

  /** Zigzag is onto: every 64-bit word is the image of exactly one signed value. */
  lemma ZigZagOnto(w: nat)
    requires w < TWO_TO_THE_64
    ensures -TWO_TO_THE_63 <= UnZigZag(w) < TWO_TO_THE_63 && ZigZag(UnZigZag(w)) == w
  {
  }

  lemma {:induction false} FixedRoundTrip(v: nat, n: nat)
    requires v < Pow256(n)
    ensures FromFixed(FixedBytes(v, n)) == v
    decreases n
  {
    if n > 0 {
      assert FixedBytes(v, n)[1..] == FixedBytes(v / 256, n - 1);
      FixedRoundTrip(v / 256, n - 1);
    }
  }

  // ---------- The 32-bit decoder ----------

  /** What remains of `v` after `k` groups. */
  function DropGroups(v: nat, k: nat): nat {
    if k == 0 then v else DropGroups(v, k - 1) / 128
  }

  lemma {:induction false} SuffixOfVarint(v: nat, rest: seq<byte>, k: nat)
    requires k < |VarintBytes(v)|
    ensures (VarintBytes(v) + rest)[k..] == VarintBytes(DropGroups(v, k)) + rest
    ensures k > 0 ==> DropGroups(v, k) > 0
    decreases k
  {
    if k > 0 {
      SuffixOfVarint(v, rest, k - 1);
      var u := DropGroups(v, k - 1);
      var s := VarintBytes(v) + rest;
      assert |VarintBytes(u)| == |s| - (k - 1) - |rest| >= 2;
      assert s[k..] == s[k - 1..][1..];
    }
  }

  lemma {:induction false} DropGroupsBound(v: nat, k: nat, m: nat)
    requires v < Pow128(k + m)
    ensures DropGroups(v, k) < Pow128(m)
  {
    if k > 0 {
      DropGroupsBound(v, k - 1, m + 1);
    }
  }

  lemma TailUnfold(b: byte, rest: seq<byte>, bitpos: nat, result: nat, joined: nat, next: nat)
    requires joined == if bitpos >= 32 then result else BitOr(result, ShiftLeft(b % 128, bitpos, TWO_TO_THE_32))
    requires next == (bitpos + 7) % 256
    ensures DecodeTail32([b] + rest, bitpos, result) ==
            if bitpos >= 32 && Overflows32(b, bitpos, result) then Fail
            else if b >= 128 then DecodeTail32(rest, next, joined)
            else if next == 35 && b >= 16 then Fail
            else Ok(joined, rest)
  {
    assert ([b] + rest)[1..] == rest;
  }

  lemma TailStep(s: seq<byte>, b: byte, rest: seq<byte>, bitpos: nat, result: nat)
    requires s == [b] + rest && 32 <= bitpos <= 63
    ensures DecodeTail32(s, bitpos, result) ==
            if Overflows32(b, bitpos, result) then Fail
            else if b >= 128 then DecodeTail32(rest, bitpos + 7, result)
            else Ok(result, rest)
  {
    TailUnfold(b, rest, bitpos, result, result, bitpos + 7);
  }

  lemma OneGroupLess(v: nat, k: nat)
    requires 0 < v < Pow128(k)
    ensures k > 0 && (v >= 128 ==> 0 < v / 128 < Pow128(k - 1))
  {
  }

  lemma LastGroupOverflows(b: byte, bitpos: nat, result: nat)
    requires 0 < b < 128 && bitpos < 63
    ensures Overflows32(b, bitpos, result)
  {
  }

  /** A nonzero group above bit 32 that ends below bit 63 is not a sign extension. */
  lemma {:induction false} HighGroupsFail(s: seq<byte>, v: nat, rest: seq<byte>, bitpos: nat, k: nat, result: nat)
    requires s == VarintBytes(v) + rest
    requires bitpos == 63 - 7 * k && 32 <= bitpos && 0 < v < Pow128(k)
    ensures DecodeTail32(s, bitpos, result).Fail?
    decreases k
  {
    FrontOfVarint(s, v, rest);
    OneGroupLess(v, k);
    assert s == [s[0]] + s[1..];
    TailStep(s, s[0], s[1..], bitpos, result);
    if v < 128 {
      LastGroupOverflows(s[0], bitpos, result);
    } else {
      HighGroupsFail(s[1..], v / 128, rest, bitpos + 7, k - 1, result);
    }
  }

  lemma FifthGroup(v: nat)
    ensures DropGroups(v, 4) < 16 <==> v < TWO_TO_THE_32
  {
    assert DropGroups(v, 1) == v / 128;
    assert DropGroups(v, 2) == v / 128 / 128;
    assert DropGroups(v, 3) == v / 128 / 128 / 128;
  }

  lemma FiveByteVarint(v: nat, rest: seq<byte>)
    requires |VarintBytes(v)| == 5
    ensures (VarintBytes(v) + rest)[4] >= 16 <==> v >= TWO_TO_THE_32
  {
    var s := VarintBytes(v) + rest;
    SuffixOfVarint(v, rest, 4);
    FifthGroup(v);
    var u := DropGroups(v, 4);
    assert |VarintBytes(u)| == 1;
    assert s[4] == s[4..][0] == u;
  }

  lemma LongVarint(v: nat, rest: seq<byte>, result: nat)
    requires |VarintBytes(v)| > 5 && v < TWO_TO_THE_63
    ensures v >= TWO_TO_THE_32
    ensures DecodeTail32((VarintBytes(v) + rest)[5..], 35, result).Fail?
  {
    Pow128Values();
    VarintLength(v, 5);
    SuffixOfVarint(v, rest, 5);
    DropGroupsBound(v, 5, 4);
    HighGroupsFail((VarintBytes(v) + rest)[5..], DropGroups(v, 5), rest, 35, 4, result);
  }

  /** The 32-bit decoder accepts the encoding of a length below 2^63 exactly when it fits 32 bits. */
  lemma Varint32RoundTrip(v: nat, rest: seq<byte>)
    requires v < TWO_TO_THE_63
    ensures DecodeVarint32(VarintBytes(v) + rest) == if v < TWO_TO_THE_32 then Ok(v, rest) else Fail
  {
    var s, n := VarintBytes(v) + rest, |VarintBytes(v)|;
    VarintGroups(v, rest);
    VarintPrefix(v, rest);
    if n > 5 {
      LongVarint(v, rest, GroupsValue(s[..5]) % TWO_TO_THE_32);
    } else if n == 5 {
      FiveByteVarint(v, rest);
    } else {
      Pow128Values();
      VarintLength(v, 4);
    }
  }

  // ---------- Agreement of the two decoders ----------

  /** Past bit 31, accepted bytes change nothing. */
  lemma {:induction false} TailKeepsResult(s: seq<byte>, bitpos: nat, result: nat)
    requires 32 <= bitpos && VarintSize(s).Some? && bitpos + 7 * (VarintSize(s).value - 1) < 256
    ensures var r := DecodeTail32(s, bitpos, result); r.Ok? ==> r == Ok(result, s[VarintSize(s).value..])
  {
    if s[0] >= 128 {
      TailKeepsResult(s[1..], (bitpos + 7) % 256, result);
    }
  }

  lemma {:induction false} VarintSizeFrom(s: seq<byte>, k: nat)
    requires VarintSize(s).Some? && k < VarintSize(s).value
    ensures VarintSize(s[k..]) == Some(VarintSize(s).value - k)
    decreases k
  {
    if k > 0 {
      VarintSizeFrom(s, k - 1);
      assert s[k - 1..][1..] == s[k..];
    } else {
      assert s[0..] == s;
    }
  }

  lemma Regroup(p: nat, g: nat)
    ensures 128 * (p * g) == (128 * p) * g
  {
  }

  lemma {:induction false} GroupsSplit(s: seq<byte>, k: nat)
    requires k <= |s|
    ensures GroupsValue(s) == GroupsValue(s[..k]) + Pow128(k) * GroupsValue(s[k..])
    decreases k
  {
    if k > 0 {
      var high := GroupsValue(s[k..]);
      GroupsSplit(s[1..], k - 1);
      assert s[..k][1..] == s[1..][..k - 1] && s[1..][k - 1..] == s[k..];
      GroupsFront(s, s[1..]);
      GroupsFront(s[..k], s[1..][..k - 1]);
      Regroup(Pow128(k - 1), high);
    } else {
      assert s[0..] == s;
    }
  }

  lemma {:induction false} GroupsBound(s: seq<byte>)
    ensures GroupsValue(s) < Pow128(|s|)
  {
    if |s| > 0 {
      GroupsBound(s[1..]);
    }
  }

  lemma LowWord(low: nat, high: nat)
    ensures (low + 0x8_0000_0000 * high) % TWO_TO_THE_64 % TWO_TO_THE_32 == low % TWO_TO_THE_32
  {
  }

  lemma LowFiveGroups(s: seq<byte>)
    requires |s| >= 5
    ensures GroupsValue(s) == GroupsValue(s[..5]) + 0x8_0000_0000 * GroupsValue(s[5..])
  {
    Pow128Values();
    GroupsSplit(s, 5);
  }

  lemma LongWord(s: seq<byte>, n: nat)
    requires 5 < n <= |s|
    ensures GroupsValue(s[..n]) % TWO_TO_THE_64 % TWO_TO_THE_32 == GroupsValue(s[..5]) % TWO_TO_THE_32
  {
    LowFiveGroups(s[..n]);
    assert s[..n][..5] == s[..5];
    LowWord(GroupsValue(s[..5]), GroupsValue(s[..n][5..]));
  }

  lemma LongTail(s: seq<byte>, n: nat, result: nat)
    requires VarintSize(s) == Some(n) && 5 < n <= 10
    ensures var r := DecodeTail32(s[5..], 35, result); r.Ok? ==> r == Ok(result, s[n..])
  {
    VarintSizeFrom(s, 5);
    TailKeepsResult(s[5..], 35, result);
    assert s[5..][n - 5..] == s[n..];
  }

  lemma FiveGroupsFit(s: seq<byte>)
    requires |s| == 5 && s[4] < 16
    ensures GroupsValue(s) < TWO_TO_THE_32
  {
    GroupsSplit(s, 4);
    assert s[4..] == [s[4]];
    assert GroupsValue([s[4]]) == s[4];
    GroupsBound(s[..4]);
    Pow128Values();
  }

  lemma FourGroupsFit(s: seq<byte>)
    requires |s| <= 4
    ensures GroupsValue(s) < TWO_TO_THE_32
  {
    GroupsBound(s);
    Pow128Monotone(|s|, 4);
    Pow128Values();
  }

  /** Where both decoders accept, they stop at the same byte and the 32-bit result is the low word. */
  lemma DecodersAgree(s: seq<byte>)
    requires DecodeVarint(s).Ok? && DecodeVarint32(s).Ok?
    ensures DecodeVarint32(s).value == DecodeVarint(s).value % TWO_TO_THE_32
    ensures DecodeVarint32(s).rest == DecodeVarint(s).rest
  {
    var n := VarintSize(s).value;
    if n > 5 {
      LongWord(s, n);
      LongTail(s, n, GroupsValue(s[..5]) % TWO_TO_THE_32);
    } else if n == 5 {
      FiveGroupsFit(s[..5]);
    } else {
      FourGroupsFit(s[..n]);
    }
  }

  lemma {:induction false} Pow128Monotone(a: nat, b: nat)
    requires a <= b
    ensures Pow128(a) <= Pow128(b)
  {
    if a > 0 {
      Pow128Monotone(a - 1, b - 1);
    } else {
      Pow128Positive(b);
    }
  }

  /** `k` groups of ones and the top bit of a 64-bit word. */
  function SignBytes(k: nat): seq<byte> {
    if k == 0 then [0x01] else [0xFF] + SignBytes(k - 1)
  }

  lemma {:induction false} SignGroups(v: nat, k: nat)
    requires v == 2 * Pow128(k) - 1
    ensures VarintBytes(v) == SignBytes(k)
    decreases k
  {
    if k > 0 {
      Pow128Positive(k - 1);
      SignGroups(v / 128, k - 1);
    }
  }

  /** A byte of ones, or the top bit at its place, continues the sign. */
  lemma SignStep(s: seq<byte>, rest: seq<byte>, bitpos: nat, result: nat)
    requires s != [] && s[1..] == rest && 32 <= bitpos <= 63 && s[0] == (if bitpos < 63 then 0xFF else 0x01)
    requires result >= TWO_TO_THE_31
    ensures DecodeTail32(s, bitpos, result) == if bitpos < 63 then DecodeTail32(rest, bitpos + 7, result)
                                               else Ok(result, rest)
  {
    assert s == [s[0]] + rest;
    TailStep(s, s[0], rest, bitpos, result);
  }

  lemma FrontOfSign(s: seq<byte>, k: nat, rest: seq<byte>)
    requires s == SignBytes(k) + rest
    ensures s != [] && s[0] == (if k > 0 then 0xFF else 0x01)
    ensures s[1..] == if k > 0 then SignBytes(k - 1) + rest else rest
  {
    assert s[0] == SignBytes(k)[0] && s[1..] == SignBytes(k)[1..] + rest;
    if k == 0 {
      assert SignBytes(k)[1..] + rest == rest;
    }
  }

  lemma {:induction false} SignExtensionAccepted(s: seq<byte>, rest: seq<byte>, bitpos: nat, k: nat, result: nat)
    requires s == SignBytes(k) + rest
    requires result >= TWO_TO_THE_31 && bitpos == 63 - 7 * k && 35 <= bitpos
    ensures DecodeTail32(s, bitpos, result) == Ok(result, rest)
    decreases k
  {
    FrontOfSign(s, k, rest);
    SignStep(s, s[1..], bitpos, result);
    if k > 0 {
      SignExtensionAccepted(s[1..], rest, bitpos + 7, k - 1, result);
    }
  }

  lemma TopOfNegative(v: nat)
    requires TWO_TO_THE_64 - TWO_TO_THE_31 <= v < TWO_TO_THE_64
    ensures DropGroups(v, 5) == 0x1FFF_FFFF
  {
    var u := v / 128 / 128 / 128 / 128;
    assert DropGroups(v, 1) == v / 128 && DropGroups(v, 2) == v / 128 / 128;
    assert DropGroups(v, 3) == v / 128 / 128 / 128 && DropGroups(v, 4) == u;
    assert u == 0xF_FFFF_FFF8 + u % 8;
  }

  lemma NegativeInt32Parts(v: nat, e: seq<byte>)
    requires TWO_TO_THE_64 - TWO_TO_THE_31 <= v < TWO_TO_THE_64 && e == VarintBytes(v)
    ensures |e| > 5 && e[5..] == SignBytes(4)
    ensures GroupsValue(e[..5]) % TWO_TO_THE_32 == v % TWO_TO_THE_32 >= TWO_TO_THE_31
  {
    Pow128Values();
    VarintLength(v, 5);
    SuffixOfVarint(v, [], 5);
    assert e + [] == e;
    TopOfNegative(v);
    SignGroups(0x1FFF_FFFF, 4);
    VarintGroups(v, []);
    VarintGroups(0x1FFF_FFFF, []);
    assert e[5..] == VarintBytes(0x1FFF_FFFF);
    LowFiveGroups(e);
    LowWordOfNegative(v, GroupsValue(e[..5]));
  }

  lemma LowWordOfNegative(v: nat, low: nat)
    requires TWO_TO_THE_64 - TWO_TO_THE_31 <= v < TWO_TO_THE_64
    requires v == low + 0x8_0000_0000 * 0x1FFF_FFFF
    ensures low % TWO_TO_THE_32 == v % TWO_TO_THE_32 >= TWO_TO_THE_31
  {
  }

  lemma DecodeLong32(e: seq<byte>, rest: seq<byte>)
    requires VarintSize(e + rest) == Some(|e|) && |e| > 5
    ensures DecodeVarint32(e + rest) == DecodeTail32(e[5..] + rest, 35, GroupsValue(e[..5]) % TWO_TO_THE_32)
  {
    assert (e + rest)[..5] == e[..5] && (e + rest)[5..] == e[5..] + rest;
  }

  lemma NegativeTail(signs: seq<byte>, rest: seq<byte>, result: nat)
    requires signs == SignBytes(4) && result >= TWO_TO_THE_31
    ensures DecodeTail32(signs + rest, 35, result) == Ok(result, rest)
  {
    SignExtensionAccepted(signs + rest, rest, 35, 4, result);
  }

  /** A negative 32-bit number, sent sign-extended to 64 bits, is read as its low word. */
  lemma NegativeInt32Accepted(v: nat, rest: seq<byte>)
    requires TWO_TO_THE_64 - TWO_TO_THE_31 <= v < TWO_TO_THE_64
    ensures DecodeVarint32(VarintBytes(v) + rest) == Ok(v % TWO_TO_THE_32, rest)
  {
    var e := VarintBytes(v);
    NegativeInt32Parts(v, e);
    NegativeTail(e[5..], rest, v % TWO_TO_THE_32);
    VarintGroups(v, rest);
    DecodeLong32(e, rest);
  }

  // ---------- Long padding ----------

  lemma LowFiveOfMany(s: seq<byte>, n: nat)
    requires 5 <= n <= |s|
    ensures GroupsValue(s[..n]) % TWO_TO_THE_32 == GroupsValue(s[..5]) % TWO_TO_THE_32
  {
    LowFiveGroups(s[..n]);
    assert s[..n][..5] == s[..5];
    LowBitsOfSum(GroupsValue(s[..5]), GroupsValue(s[..n][5..]));
  }

  lemma RemainderIs(x: nat, q: nat, r: nat)
    requires x == 0x1_0000_0000 * q + r && r < 0x1_0000_0000
    ensures x % TWO_TO_THE_32 == r
  {
  }

  lemma LowBitsOfSum(low: nat, high: nat)
    ensures (low + 0x8_0000_0000 * high) % TWO_TO_THE_32 == low % TWO_TO_THE_32
  {
    var d, r := low / 0x1_0000_0000, low % 0x1_0000_0000;
    RemainderIs(low, d, r);
    RemainderIs(low + 0x8_0000_0000 * high, d + 8 * high, r);
  }

  ghost predicate ReadsItsGroups(s: seq<byte>, n: nat)
    requires n <= |s|
  {
    DecodeVarint32(s).Ok? ==> DecodeVarint32(s) == Ok(GroupsValue(s[..n]) % TWO_TO_THE_32, s[n..])
  }

  /** As long as the 8-bit counter does not wrap, a varint that is accepted is read as its groups modulo 2^32. */
  lemma UpTo37Bytes(s: seq<byte>, n: nat)
    requires VarintSize(s) == Some(n) && n <= 37
    ensures ReadsItsGroups(s, n)
  {
    if n > 5 {
      VarintSizeFrom(s, 5);
      TailKeepsResult(s[5..], 35, GroupsValue(s[..5]) % TWO_TO_THE_32);
      assert s[5..][n - 5..] == s[n..];
      LowFiveOfMany(s, n);
    } else if n == 5 && s[4] < 16 {
      FiveGroupsFit(s[..5]);
    } else if n < 5 {
      FourGroupsFit(s[..n]);
    }
  }

  /** Padding: `k` continuation bytes that carry nothing. */
  function Padding(k: nat): (s: seq<byte>)
    ensures |s| == k && forall i :: 0 <= i < k ==> s[i] == 0x80
  {
    seq(k, _ => 0x80)
  }

  lemma {:induction false} PaddingHasNoGroups(k: nat, t: seq<byte>)
    ensures GroupsValue(Padding(k) + t) == Pow128(k) * GroupsValue(t)
  {
    if k > 0 {
      PaddingHasNoGroups(k - 1, t);
      assert (Padding(k) + t)[1..] == Padding(k - 1) + t;
      Regroup(Pow128(k - 1), GroupsValue(t));
    } else {
      assert Padding(0) + t == t;
    }
  }

  lemma {:induction false} SizeAfterContinuation(read: seq<byte>, s: seq<byte>)
    requires forall i :: 0 <= i < |read| ==> read[i] >= 128
    ensures VarintSize(read + s) == if VarintSize(s).Some? then Some(|read| + VarintSize(s).value) else None
  {
    if |read| > 0 {
      SizeAfterContinuation(read[1..], s);
      assert (read + s)[1..] == read[1..] + s;
      OneContinuation(read + s, read[1..] + s);
    } else {
      assert read + s == s;
    }
  }

  lemma NothingShifted(bitpos: nat, result: nat)
    ensures BitOr(result, ShiftLeft(0, bitpos, TWO_TO_THE_32)) == result
  {
    ScaleOfSum(0, 0, bitpos);
  }

  /** The 8-bit counter after `k` more bytes. */
  function Counter(bitpos: nat, k: nat): nat {
    if k == 0 then bitpos else (Counter(bitpos, k - 1) + 7) % 256
  }

  lemma {:induction false} CounterAdds(bitpos: nat, k: nat)
    requires bitpos + 7 * k < 256
    ensures Counter(bitpos, k) == bitpos + 7 * k
  {
    if k > 0 {
      CounterAdds(bitpos, k - 1);
    }
  }

  lemma PaddingStep(t: seq<byte>, bitpos: nat, result: nat)
    ensures DecodeTail32([0x80] + t, bitpos, result) == DecodeTail32(t, (bitpos + 7) % 256, result)
    ensures DecodeTail32([0x00], bitpos, result) == Ok(result, [])
  {
    assert ([0x80] + t)[1..] == t;
    NothingShifted(bitpos, result);
  }

  /** Padding moves only the counter, round and round its 256 values. */
  lemma {:induction false} PaddingMovesTheCounter(s: seq<byte>, k: nat, t: seq<byte>, bitpos: nat, result: nat)
    requires s == Padding(k) + t
    ensures DecodeTail32(s, bitpos, result) == DecodeTail32(t, Counter(bitpos, k), result)
    decreases k
  {
    if k > 0 {
      assert s == Padding(k - 1) + ([0x80] + t);
      PaddingMovesTheCounter(s, k - 1, [0x80] + t, bitpos, result);
      PaddingStep(t, Counter(bitpos, k - 1), result);
    } else {
      assert s == t;
    }
  }

  lemma PaddingEnds(k: nat, bitpos: nat, result: nat)
    ensures DecodeTail32(Padding(k) + [0x00], bitpos, result) == Ok(result, [])
    ensures VarintSize(Padding(k) + [0x00]) == Some(k + 1)
  {
    SizeAfterContinuation(Padding(k), [0x00]);
    PaddingMovesTheCounter(Padding(k) + [0x00], k, [0x00], bitpos, result);
    PaddingStep([], Counter(bitpos, k), result);
  }

  lemma ShiftedByThree(k: nat)
    requires k == 3
    ensures ShiftLeft(1, k, TWO_TO_THE_32) == 8
  {
    assert Scale(1, k - 2) == 2 && Scale(1, k - 1) == 4;
  }

  /** A byte at bit position 3, where 37 bytes have taken the counter. */
  lemma WrappedByte(s: seq<byte>, t: seq<byte>, bitpos: nat)
    requires bitpos == 3 && (s == [0x81] + t || s == [0x01] + t)
    ensures DecodeTail32(s, bitpos, 0) == if s[0] == 0x81 then DecodeTail32(t, bitpos + 7, 8) else Ok(8, t)
  {
    ShiftedByThree(bitpos);
    assert BitOr(0, ShiftLeft(1, bitpos, TWO_TO_THE_32)) == 8;
    TailUnfold(s[0], t, bitpos, 0, 8, bitpos + 7);
  }

  /** After the wrap: one group that is or-ed into bit 3, then padding up to the length asked for. */
  function AfterTheWrap(n: nat): (t: seq<byte>)
    requires n > 37
    ensures |t| == n - 37
  {
    if n == 38 then [0x01] else [0x81] + Padding(n - 39) + [0x00]
  }

  function Wrapping(n: nat): (s: seq<byte>)
    requires n > 37
    ensures |s| == n
  {
    Padding(37) + AfterTheWrap(n)
  }

  lemma WrappedThenPadding(k: nat, s: seq<byte>, t: seq<byte>, bitpos: nat)
    requires t == Padding(k) + [0x00] && s == [0x81] + t && bitpos == 3
    ensures VarintSize(s) == Some(k + 2)
    ensures DecodeTail32(s, bitpos, 0) == Ok(8, [])
  {
    WrappedByte(s, t, bitpos);
    assert s[1..] == t;
    PaddingEnds(k, bitpos + 7, 8);
  }

  lemma AfterTheWrapReads(n: nat, s: seq<byte>, bitpos: nat)
    requires n > 37 && s == AfterTheWrap(n) && bitpos == 3
    ensures VarintSize(s) == Some(n - 37)
    ensures DecodeTail32(s, bitpos, 0) == Ok(8, [])
  {
    if n == 38 {
      WrappedByte(s, [], bitpos);
    } else {
      WrappedThenPadding(n - 39, s, Padding(n - 39) + [0x00], bitpos);
    }
  }

  lemma NoGroups(k: nat)
    ensures GroupsValue(Padding(k)) == 0
  {
    PaddingHasNoGroups(k, []);
    assert Padding(k) + [] == Padding(k);
  }

  /** `k` bytes of padding take the counter to bit 3. */
  lemma PaddingThenTail(s: seq<byte>, k: nat, bitpos: nat, t: seq<byte>, wrapped: nat)
    requires k > 0 && bitpos + 7 * (k - 1) == 252 && wrapped == 3 && s == Padding(k) + t
    ensures DecodeTail32(s, bitpos, 0) == DecodeTail32(t, wrapped, 0)
  {
    CounterAdds(bitpos, k - 1);
    assert Counter(bitpos, k) == wrapped;
    PaddingMovesTheCounter(s, k, t, bitpos, 0);
  }

  lemma LongDecode(s: seq<byte>, n: nat, tail: seq<byte>, bitpos: nat)
    requires VarintSize(s) == Some(n) && n > 5 && GroupsValue(s[..5]) == 0 && s[5..] == tail && bitpos == 35
    ensures DecodeVarint32(s) == DecodeTail32(tail, bitpos, 0)
  {
  }

  lemma WrappingReads(s: seq<byte>, n: nat, t: seq<byte>, bitpos: nat, wrapped: nat)
    requires VarintSize(s) == Some(n) && n > 37 && GroupsValue(s[..5]) == 0 && bitpos == 35 && wrapped == 3
    requires s[5..] == Padding(32) + t && t == AfterTheWrap(n)
    ensures DecodeVarint32(s) == Ok(8, [])
  {
    LongDecode(s, n, s[5..], bitpos);
    PaddingThenTail(s[5..], 32, bitpos, t, wrapped);
    AfterTheWrapReads(n, t, wrapped);
  }

  lemma WrappingParts(n: nat)
    requires n > 37
    ensures var s := Wrapping(n);
            VarintSize(s) == Some(n) && s[..5] == Padding(5) && s[5..] == Padding(32) + AfterTheWrap(n) && s[..n] == s
  {
    AfterTheWrapReads(n, AfterTheWrap(n), 3);
    SizeAfterContinuation(Padding(37), AfterTheWrap(n));
  }

  /** For every length above 37 there is a varint that is accepted with the value 8, though its groups are a multiple
      of 2^32. */
  lemma WrappedCounterMisreads(n: nat, s: seq<byte>)
    requires n > 37 && s == Wrapping(n)
    ensures VarintSize(s) == Some(n)
    ensures DecodeVarint32(s) == Ok(8, [])
    ensures GroupsValue(s) % TWO_TO_THE_32 == 0
  {
    WrappingParts(n);
    NoGroups(5);
    WrappingReads(s, n, AfterTheWrap(n), 35, 3);
    LowFiveOfMany(s, n);
  }

  /** The 32-bit decoder reads what it accepts as its groups modulo 2^32 for varints of up to 37 bytes, and for no
      longer ones: there the 8-bit bit counter has wrapped. */
  lemma CorrectUpTo37BytesExactly(n: nat)
    ensures (forall s :: VarintSize(s) == Some(n) ==> ReadsItsGroups(s, n)) <==> n <= 37
  {
    if n <= 37 {
      forall s | VarintSize(s) == Some(n)
        ensures ReadsItsGroups(s, n)
      {
        UpTo37Bytes(s, n);
      }
    } else {
      var s := Wrapping(n);
      WrappedCounterMisreads(n, s);
      assert s[..n] == s;
      assert !ReadsItsGroups(s, n);
    }
  }
}

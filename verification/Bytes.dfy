/** Bytes, parse results and the bit arithmetic of unsigned machine words. */
module Bytes {

  type byte = x: int | 0 <= x < 256

  const TWO_TO_THE_31: int := 0x8000_0000
  const TWO_TO_THE_32: int := 0x1_0000_0000
  const TWO_TO_THE_63: int := 0x8000_0000_0000_0000
  const TWO_TO_THE_64: int := 0x1_0000_0000_0000_0000

  /** The outcome of reading a value from the front of a byte sequence. */
  datatype Parse<+T> = Ok(value: T, rest: seq<byte>) | Fail

  datatype Option<+T> = None | Some(value: T)

  /** `x` times two to the `k`: a left shift in a word that never overflows. */
  function Scale(x: nat, k: nat): (r: nat)
    ensures r >= x
  {
    if k == 0 then x else 2 * Scale(x, k - 1)
  }

  lemma {:induction false} ScaleOfSum(x: nat, y: nat, k: nat)
    ensures Scale(x + y, k) == Scale(x, k) + Scale(y, k)
  {
    if k > 0 {
      ScaleOfSum(x, y, k - 1);
    }
  }

  lemma {:induction false} ScaleTwice(x: nat, k: nat)
    ensures Scale(2 * x, k) == Scale(x, k + 1)
  {
    if k > 0 {
      ScaleTwice(x, k - 1);
    }
  }

  lemma {:induction false} ScaleMonotone(x: nat, y: nat, k: nat, n: nat)
    requires x <= y && k <= n
    ensures Scale(x, k) <= Scale(y, n)
    decreases n
  {
    if k > 0 {
      ScaleMonotone(x, y, k - 1, n - 1);
    } else if n > 0 {
      ScaleMonotone(x, y, 0, n - 1);
    }
  }

  lemma ScaleBySeven(x: nat, k: nat)
    ensures Scale(128 * x, k) == Scale(x, k + 7) == 128 * Scale(x, k)
  {
    ScaleTwice(64 * x, k); ScaleTwice(32 * x, k + 1); ScaleTwice(16 * x, k + 2); ScaleTwice(8 * x, k + 3);
    ScaleTwice(4 * x, k + 4); ScaleTwice(2 * x, k + 5); ScaleTwice(x, k + 6);
    var r := Scale(x, k);
    assert Scale(x, k + 1) == 2 * r && Scale(x, k + 2) == 4 * r && Scale(x, k + 3) == 8 * r;
    assert Scale(x, k + 4) == 16 * r && Scale(x, k + 5) == 32 * r && Scale(x, k + 6) == 64 * r;
  }

  /** Bitwise or of two unsigned words of any width. */
  function BitOr(a: nat, b: nat): nat {
    if a == 0 then b
    else if b == 0 then a
    else (if a % 2 == 1 || b % 2 == 1 then 1 else 0) + 2 * BitOr(a / 2, b / 2)
  }

  /** `x << k` in a word that holds the values below `modulus`, a power of two. */
  function ShiftLeft(x: nat, k: nat, modulus: int): nat
    requires modulus > 0
  {
    Scale(x, k) % modulus
  }

  /** Or-ing a word into bits that are still clear adds it. */
  lemma {:induction false} OrOfDisjointBitsAdds(a: nat, x: nat, k: nat)
    requires a < Scale(1, k)
    ensures BitOr(a, Scale(x, k)) == a + Scale(x, k)
  {
    if a != 0 && Scale(x, k) != 0 {
      OrOfDisjointBitsAdds(a / 2, x, k - 1);
    }
  }

  // ---------- Big-endian numbers ----------

  function Pow256(k: nat): (p: nat)
    ensures p >= 1
  {
    if k == 0 then 1 else 256 * Pow256(k - 1)
  }

  function BigEndian(s: seq<byte>): nat {
    if s == [] then 0 else 256 * BigEndian(s[..|s| - 1]) + s[|s| - 1]
  }

  /** `v` in `n` bytes, the most significant first. */
  function ToBigEndian(v: nat, n: nat): (s: seq<byte>)
    ensures |s| == n
  {
    if n == 0 then [] else ToBigEndian(v / 256, n - 1) + [v % 256]
  }

  lemma {:induction false} BigEndianRoundTrip(v: nat, n: nat)
    requires v < Pow256(n)
    ensures BigEndian(ToBigEndian(v, n)) == v
    decreases n
  {
    if n > 0 {
      BigEndianRoundTrip(v / 256, n - 1);
      assert ToBigEndian(v, n)[..n - 1] == ToBigEndian(v / 256, n - 1);
    }
  }

  /** Two and three bytes, spelled out. */
  lemma BigEndianIsSpelled(v: nat)
    ensures v < 0x1_0000 ==> ToBigEndian(v, 2) == [v / 256, v % 256]
    ensures v < 0x100_0000 ==> ToBigEndian(v, 3) == [v / 0x1_0000, v / 256 % 256, v % 256]
  {
    assert ToBigEndian(v / 256, 1) == [] + [v / 256 % 256];
    assert v / 256 / 256 == v / 0x1_0000;
    assert ToBigEndian(v / 256 / 256, 1) == [] + [v / 256 / 256 % 256];
    assert ToBigEndian(v / 256, 2) == ToBigEndian(v / 256 / 256, 1) + [v / 256 % 256];
  }

  lemma {:induction false} ToBigEndianOf(s: seq<byte>)
    ensures ToBigEndian(BigEndian(s), |s|) == s
  {
    if s != [] {
      var init, last := s[..|s| - 1], s[|s| - 1];
      ToBigEndianOf(init);
      assert (256 * BigEndian(init) + last as int) / 256 == BigEndian(init);
    }
  }

  lemma {:induction false} BigEndianBound(s: seq<byte>)
    ensures BigEndian(s) < Pow256(|s|)
  {
    if s != [] {
      BigEndianBound(s[..|s| - 1]);
    }
  }

  lemma BigEndianAppend(s: seq<byte>, b: byte)
    ensures BigEndian(s + [b]) == 256 * BigEndian(s) + b
  {
    assert (s + [b])[..|s|] == s;
  }

  lemma {:induction false} BigEndianSplit(a: seq<byte>, b: seq<byte>)
    ensures BigEndian(a + b) == Pow256(|b|) * BigEndian(a) + BigEndian(b)
  {
    if b == [] {
      assert a + b == a;
    } else {
      var c, last := b[..|b| - 1], b[|b| - 1];
      BigEndianSplit(a, c);
      BigEndianAppend(a + c, last);
      assert a + b == (a + c) + [last];
      Distribute(Pow256(|c|), BigEndian(a), BigEndian(c));
    }
  }

  lemma Distribute(p: nat, q: nat, r: nat)
    ensures 256 * (p * q + r) == (256 * p) * q + 256 * r
  {
  }
}

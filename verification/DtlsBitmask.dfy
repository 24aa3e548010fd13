/** The bitmask in which a DTLS receiver notes which bytes of a message have arrived. */
module DtlsBitmask {
  import opened Bits
  import opened Bytes

  // ---------- Ranges of bits ----------

  /** bit_range: the bits from `start` to just below `end`, cut to a byte. */
  function BitRange(start: nat, end: nat): nat
    requires start <= 31
  {
    BitAnd(Clear32(Scale(1, start) - 1), Scale(1, end) - 1) % 256
  }

  /** Complement in a 32-bit word. */
  function Clear32(w: int): nat {
    if 0 <= w < TWO_TO_THE_32 then TWO_TO_THE_32 - 1 - w else 0
  }

  lemma {:induction false} BitOfAnd(a: nat, b: nat, i: nat)
    ensures Bit(BitAnd(a, b), i) == (Bit(a, i) && Bit(b, i))
  {
    if a == 0 || b == 0 {
      NoBits(0, i);
    } else if i > 0 {
      BitOfAnd(a / 2, b / 2, i - 1);
    }
  }

  lemma {:induction false} AndIsSmaller(a: nat, b: nat)
    ensures BitAnd(a, b) <= b
  {
    if a != 0 && b != 0 {
      AndIsSmaller(a / 2, b / 2);
    }
  }

  /** The complement of `k` ones: everything from bit `k` up. */
  lemma {:induction false} BitOfHighOnes(n: nat, k: nat, i: nat)
    requires k <= n
    ensures Scale(1, n) >= Scale(1, k) && (Bit(Scale(1, n) - Scale(1, k), i) <==> k <= i < n)
    decreases n
  {
    ScaleMonotone(1, 1, k, n);
    if k == 0 {
      LowOnes(n, i);
    } else if i > 0 {
      BitOfHighOnes(n - 1, k - 1, i - 1);
      assert Scale(1, n) - Scale(1, k) == 2 * (Scale(1, n - 1) - Scale(1, k - 1));
    } else {
      assert Scale(1, n) - Scale(1, k) == 2 * (Scale(1, n - 1) - Scale(1, k - 1));
    }
  }

  ghost predicate IsRange(r: nat, lo: nat, hi: nat) {
    r < 256 && forall i: nat :: Bit(r, i) <==> lo <= i < hi
  }

  lemma BitOfMasks(high: nat, low: nat, lo: nat, hi: nat, n: nat, i: nat)
    requires lo <= n && high == Scale(1, n) - Scale(1, lo) && low == Scale(1, hi) - 1 && hi <= n
    ensures Bit(BitAnd(high, low), i) <==> lo <= i < hi
  {
    BitOfHighOnes(n, lo, i);
    LowOnes(hi, i);
    BitOfAnd(high, low, i);
  }

  lemma RangeOfMasks(high: nat, low: nat, lo: nat, hi: nat)
    requires lo <= 8 && hi <= 8 && low < 256
    requires high == Scale(1, 32) - Scale(1, lo) && low == Scale(1, hi) - 1
    ensures IsRange(BitAnd(high, low), lo, hi)
  {
    var r := BitAnd(high, low);
    forall i: nat
      ensures Bit(r, i) <==> lo <= i < hi
    {
      BitOfMasks(high, low, lo, hi, 32, i);
    }
    AndIsSmaller(high, low);
  }

  lemma HighMask(start: nat)
    requires start <= 8
    ensures Clear32(Scale(1, start) - 1) == Scale(1, 32) - Scale(1, start)
  {
    UpToAByte(start);
    ScaleValues();
  }

  lemma ByteOfAnd(a: nat, b: nat)
    requires b < 256
    ensures BitAnd(a, b) % 256 == BitAnd(a, b) < 256
  {
    AndIsSmaller(a, b);
  }

  lemma BitRangeOfMasks(start: nat, end: nat, high: nat, low: nat)
    requires start <= 8 && low < 256
    requires high == Clear32(Scale(1, start) - 1) && low == Scale(1, end) - 1
    ensures BitRange(start, end) == BitAnd(high, low)
  {
    ByteOfAnd(high, low);
  }

  lemma BitRangeIs(start: nat, end: nat)
    requires start <= 8 && end <= 8
    ensures IsRange(BitRange(start, end), start, end)
  {
    HighMask(start);
    UpToAByte(end);
    var high, low := Clear32(Scale(1, start) - 1), Scale(1, end) - 1;
    BitRangeOfMasks(start, end, high, low);
    RangeOfMasks(high, low, start, end);
  }

  lemma UpToAByte(k: nat)
    requires k <= 8
    ensures 1 <= Scale(1, k) <= 256
  {
    ScaleValues();
    ScaleMonotone(1, 1, k, 8);
  }

  lemma {:induction false} NoHighBits(b: nat, n: nat, i: nat)
    requires b < Scale(1, n) && n <= i
    ensures !Bit(b, i)
  {
    if n == 0 {
      NoBits(b, i);
    } else {
      NoHighBits(b / 2, n - 1, i - 1);
    }
  }

  // ---------- Marking ----------

  /** Byte number `w` of the mask has gained the bits of the range that fall into it. */
  ghost predicate Gained(before: byte, after: byte, w: nat, start: nat, end: nat) {
    forall i: nat :: i < 8 ==> (Bit(after, i) <==> Bit(before, i) || start <= 8 * w + i < end)
  }

  function OrByte(a: byte, b: nat): (r: byte)
    requires b < 256
  {
    assert BitOr(a, b) < 256 by {
      ScaleValues();
      OrStaysBelow(a, b, 8);
    }
    BitOr(a, b)
  }

  /** A bit position relative to a byte, cut to the byte. */
  function Clamp(i: int): nat {
    if i < 0 then 0 else if i > 8 then 8 else i
  }

  lemma OrGains(before: byte, r: nat, w: nat, start: nat, end: nat)
    requires IsRange(r, Clamp(start - 8 * w), Clamp(end - 8 * w))
    ensures Gained(before, OrByte(before, r), w, start, end)
  {
    forall i: nat | i < 8
      ensures Bit(OrByte(before, r), i) <==> Bit(before, i) || start <= 8 * w + i < end
    {
      BitOfOr(before, r, i);
    }
  }

  lemma FullByteGains(before: byte, w: nat, start: nat, end: nat)
    requires start <= 8 * w && 8 * w + 8 <= end
    ensures Gained(before, 0xFF, w, start, end)
  {
    forall i: nat | i < 8
      ensures Bit(0xFF, i)
    {
      ScaleValues();
      LowOnes(8, i);
    }
  }

  ghost predicate AllGained(before: seq<byte>, after: seq<byte>, n: nat, start: nat, end: nat)
    requires n <= |before| == |after|
  {
    && (forall w: nat :: w < n ==> Gained(before[w], after[w], w, start, end))
    && after[n..] == before[n..]
  }

  lemma NothingGained(before: seq<byte>, n: nat, start: nat, end: nat)
    requires n <= |before| && (8 * n <= start || end <= start)
    ensures AllGained(before, before, n, start, end)
  {
  }

  lemma OneMoreGained(before: seq<byte>, after: seq<byte>, next: seq<byte>, n: nat, start: nat, end: nat)
    requires n < |before| == |after| && AllGained(before, after, n, start, end)
    requires |next| == |after| && next[..n] == after[..n] && next[n + 1..] == after[n + 1..]
    requires Gained(before[n], next[n], n, start, end)
    ensures AllGained(before, next, n + 1, start, end)
  {
    assert before[n + 1..] == before[n..][1..] && after[n + 1..] == after[n..][1..];
    forall w: nat | w < n
      ensures next[w] == after[w]
    {
      assert next[..n][w] == after[..n][w];
    }
  }

  lemma RestUngained(before: seq<byte>, after: seq<byte>, n: nat, start: nat, end: nat)
    requires n <= |before| == |after| && AllGained(before, after, n, start, end) && end <= 8 * n
    ensures AllGained(before, after, |before|, start, end)
  {
    forall w: nat | n <= w < |before|
      ensures after[w] == before[w]
    {
      assert after[n..][w - n] == before[n..][w - n];
    }
  }

  /** Or-ing a bit range into byte `w`. */
  method OrInto(mask: array<byte>, w: nat, r: nat, ghost before: seq<byte>, ghost start: nat, ghost end: nat)
    requires w < mask.Length == |before| && AllGained(before, mask[..], w, start, end)
    requires IsRange(r, Clamp(start - 8 * w), Clamp(end - 8 * w))
    modifies mask
    ensures AllGained(before, mask[..], w + 1, start, end)
  {
    ghost var after := mask[..];
    assert mask[w] == before[w] by {
      assert after[w..][0] == before[w..][0];
    }
    OrGains(mask[w], r, w, start, end);
    mask[w] := OrByte(mask[w], r);
    OneMoreGained(before, after, mask[..], w, start, end);
  }

  /** The marking part of dtls1_hm_fragment_mark. */
  method SetRange(mask: array<byte>, start: nat, end: nat)
    requires start < end <= 8 * mask.Length
    modifies mask
    ensures AllGained(old(mask[..]), mask[..], mask.Length, start, end)
  {
    ghost var before := mask[..];
    var first, last := start / 8, end / 8;
    NothingGained(before, first, start, end);
    if first == last {
      BitRangeIs(start % 8, end % 8);
      OrInto(mask, first, BitRange(start % 8, end % 8), before, start, end);
      RestUngained(before, mask[..], first + 1, start, end);
    } else {
      BitRangeIs(start % 8, 8);
      OrInto(mask, first, BitRange(start % 8, 8), before, start, end);
      for i := first + 1 to last
        invariant AllGained(before, mask[..], i, start, end)
      {
        FullByteGains(before[i], i, start, end);
        ghost var after := mask[..];
        mask[i] := 0xFF;
        OneMoreGained(before, after, mask[..], i, start, end);
      }
      if end % 8 != 0 {
        BitRangeIs(0, end % 8);
        OrInto(mask, last, BitRange(0, end % 8), before, start, end);
        RestUngained(before, mask[..], last + 1, start, end);
      } else {
        RestUngained(before, mask[..], last, start, end);
      }
    }
  }

  /** The mask notes exactly the positions in `got`, all of them below `msgLen`; padding bits are clear. */
  ghost predicate Notes(mask: seq<byte>, msgLen: nat, got: set<nat>) {
    && |mask| == (msgLen + 7) / 8
    && (forall k :: k in got ==> k < msgLen)
    && forall w: nat, i: nat :: w < |mask| && i < 8 ==> (Bit(mask[w], i) <==> 8 * w + i in got)
  }

  lemma NothingNoted(mask: seq<byte>, msgLen: nat)
    requires |mask| == (msgLen + 7) / 8 && forall w :: 0 <= w < |mask| ==> mask[w] == 0
    ensures Notes(mask, msgLen, {})
  {
    forall w: nat, i: nat | w < |mask| && i < 8
      ensures !Bit(mask[w], i)
    {
      NoBits(mask[w], i);
    }
  }

  lemma RangeNoted(before: seq<byte>, after: seq<byte>, msgLen: nat, got: set<nat>, range: set<nat>, start: nat,
                   end: nat)
    requires Notes(before, msgLen, got) && |after| == |before| && start <= end <= msgLen
    requires forall k :: k in range <==> start <= k < end
    requires AllGained(before, after, |before|, start, end)
    ensures Notes(after, msgLen, got + range)
  {
  }

  lemma ByteIsFull(mask: seq<byte>, msgLen: nat, got: set<nat>, w: nat, n: nat, ones: nat)
    requires Notes(mask, msgLen, got) && w < |mask| && n <= 8 && ones == Scale(1, n) - 1
    requires n < 8 ==> msgLen == 8 * w + n
    ensures mask[w] == ones <==> forall k: nat :: 8 * w <= k < 8 * w + n ==> k in got
  {
    OnesExactly(mask[w], ones, n);
    ScaleValues();
    if mask[w] == ones {
      forall k: nat | 8 * w <= k < 8 * w + n
        ensures k in got
      {
        assert Bit(mask[w], k - 8 * w);
      }
    }
    if forall k: nat :: 8 * w <= k < 8 * w + n ==> k in got {
      forall i: nat
        ensures Bit(mask[w], i) == (i < n)
      {
        if i >= 8 {
          NoHighBits(mask[w], 8, i);
        } else {
          assert Bit(mask[w], i) <==> 8 * w + i in got;
        }
      }
    }
  }

  ghost predicate AllOf(got: set<nat>, first: nat, end: nat) {
    forall k: nat :: first <= k < end ==> k in got
  }

  /** The check for completeness in dtls1_hm_fragment_mark. */
  method IsFull(mask: array<byte>, msgLen: nat, ghost got: set<nat>) returns (full: bool)
    requires Notes(mask[..], msgLen, got)
    ensures full <==> AllOf(got, 0, msgLen)
  {
    ScaleValues();
    var i := 0;
    while i < msgLen / 8
      invariant i <= msgLen / 8 && AllOf(got, 0, 8 * i)
    {
      ByteIsFull(mask[..], msgLen, got, i, 8, 0xFF);
      if mask[i] != 0xFF {
        return false;
      }
      i := i + 1;
    }
    var n := msgLen % 8;
    if n != 0 {
      ByteIsFull(mask[..], msgLen, got, i, n, Scale(1, n) - 1);
      BitRangeIs(0, n);
      RangeIsOnes(BitRange(0, n), n, Scale(1, n) - 1);
      if mask[i] != BitRange(0, n) {
        return false;
      }
    }
    full := true;
  }

  lemma RangeIsOnes(r: nat, n: nat, ones: nat)
    requires IsRange(r, 0, n) && ones == Scale(1, n) - 1
    ensures r == ones
  {
    OnesExactly(r, ones, n);
  }
}

/** Single bits of unsigned words. */
module Bits {
  import opened Bytes

  function Bit(w: nat, i: nat): bool {
    if i == 0 then w % 2 == 1 else Bit(w / 2, i - 1)
  }

  lemma {:induction false} BitOfOr(a: nat, b: nat, i: nat)
    ensures Bit(BitOr(a, b), i) == (Bit(a, i) || Bit(b, i))
  {
    if a == 0 || b == 0 {
      NoBits(0, i);
    } else if i > 0 {
      BitOfOr(a / 2, b / 2, i - 1);
    }
  }

  lemma {:induction false} OrStaysBelow(a: nat, b: nat, k: nat)
    requires a < Scale(1, k) && b < Scale(1, k)
    ensures BitOr(a, b) < Scale(1, k)
  {
    if a != 0 && b != 0 {
      OrStaysBelow(a / 2, b / 2, k - 1);
    }
  }

  lemma {:induction false} NoBits(w: nat, i: nat)
    requires w == 0
    ensures !Bit(w, i)
  {
    if i > 0 {
      NoBits(w / 2, i - 1);
    }
  }

  lemma {:induction false} SingleBit(k: nat, i: nat)
    ensures Bit(Scale(1, k), i) == (i == k)
  {
    if i == 0 || k == 0 {
      if i > 0 {
        NoBits(Scale(1, k) / 2, i - 1);
      }
    } else {
      SingleBit(k - 1, i - 1);
    }
  }

  /** A word of `n` ones has exactly its low `n` bits set. */
  lemma {:induction false} LowOnes(n: nat, i: nat)
    ensures Bit(Scale(1, n) - 1, i) == (i < n)
  {
    if n == 0 {
      NoBits(0, i);
    } else if i > 0 {
      assert (Scale(1, n) - 1) / 2 == Scale(1, n - 1) - 1;
      LowOnes(n - 1, i - 1);
    }
  }

  /** Words with the same bits are equal. */
  lemma {:induction false} SameBits(a: nat, b: nat)
    requires forall i: nat :: Bit(a, i) == Bit(b, i)
    ensures a == b
    decreases a + b
  {
    assert Bit(a, 0) == Bit(b, 0);
    if a != 0 || b != 0 {
      forall i: nat
        ensures Bit(a / 2, i) == Bit(b / 2, i)
      {
        assert Bit(a, i + 1) == Bit(b, i + 1);
      }
      SameBits(a / 2, b / 2);
    }
  }

  ghost predicate LowBitsOnly(w: nat, n: nat) {
    forall i: nat :: Bit(w, i) == (i < n)
  }

  lemma OnesExactly(w: nat, ones: nat, n: nat)
    requires ones == Scale(1, n) - 1
    ensures w == ones <==> LowBitsOnly(w, n)
  {
    forall i: nat
      ensures Bit(ones, i) == (i < n)
    {
      LowOnes(n, i);
    }
    assert LowBitsOnly(ones, n);
    if LowBitsOnly(w, n) {
      SameBits(w, ones);
    }
  }

  /** Bitwise and of two unsigned words of any width. */
  function BitAnd(a: nat, b: nat): nat {
    if a == 0 || b == 0 then 0 else (if a % 2 == 1 && b % 2 == 1 then 1 else 0) + 2 * BitAnd(a / 2, b / 2)
  }

  /** Masking with a single bit tests it. */
  lemma {:induction false} MaskTestsBit(a: nat, i: nat)
    ensures BitAnd(a, Scale(1, i)) != 0 <==> Bit(a, i)
  {
    if a == 0 {
      NoBits(a, i);
    } else if i > 0 {
      MaskTestsBit(a / 2, i - 1);
    } else {
      assert BitAnd(a / 2, 0) == 0;
    }
  }

  /** A left shift moves every bit up. */
  lemma {:induction false} ScaleMovesBits(x: nat, k: nat, i: nat)
    ensures Bit(Scale(x, k), i) <==> i >= k && Bit(x, i - k)
  {
    if k > 0 && i > 0 {
      ScaleMovesBits(x, k - 1, i - 1);
    }
  }

  /** The low `n` bits of `x`. */
  function LowBits(x: nat, n: nat): nat {
    if n == 0 then 0 else x % 2 + 2 * LowBits(x / 2, n - 1)
  }

  lemma {:induction false} LowBitsAre(x: nat, n: nat, i: nat)
    ensures Bit(LowBits(x, n), i) <==> i < n && Bit(x, i)
  {
    if n == 0 {
      NoBits(0, i);
    } else if i > 0 {
      LowBitsAre(x / 2, n - 1, i - 1);
    }
  }

  lemma {:induction false} BitOrCommutes(a: nat, b: nat)
    ensures BitOr(a, b) == BitOr(b, a)
  {
    if a != 0 && b != 0 {
      BitOrCommutes(a / 2, b / 2);
    }
  }

  lemma ScaleValues()
    ensures Scale(1, 8) == 0x100 && Scale(1, 32) == 0x1_0000_0000
  {
    assert Scale(1, 8) == 0x100;
    assert Scale(1, 16) == 0x1_0000;
    assert Scale(1, 24) == 0x100_0000;
  }
}

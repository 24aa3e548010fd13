/** Comparisons and selections on machine words that do not branch. A truth value is a word of ones or of zeros. */
module ConstantTime {

  /** crypto_word_t of a 64-bit platform. */
  type Word = bv64

  function Mask(b: bool): Word {
    if b then 0xFFFF_FFFF_FFFF_FFFF else 0
  }

  function Mask8(b: bool): bv8 {
    if b then 0xFF else 0
  }

  function Low8(a: Word): (r: bv8)
    ensures forall b :: a == Mask(b) ==> r == Mask8(b)
    ensures a < 256 ==> r as Word == a
  {
    (a & 0xFF) as bv8
  }

  /** Copies the most significant bit to all others. */
  function Msb(a: Word): (r: Word)
    ensures r == Mask(a >= 0x8000_0000_0000_0000)
  {
    0 - (a >> 63)
  }

  function IsZero(a: Word): (r: Word)
    ensures r == Mask(a == 0)
  {
    Msb(!a & (a - 1))
  }

  function Eq(a: Word, b: Word): (r: Word)
    ensures r == Mask(a == b)
  {
    IsZero(a ^ b)
  }

  /** The conversion of a 32-bit `int`, in two's complement, to a word: the sign bit is copied. */
  function SignExtend(w: Word): Word
    requires w < 0x1_0000_0000
  {
    if w < 0x8000_0000 then w else 0xFFFF_FFFF_0000_0000 | w
  }

  /** The conversion loses nothing. */
  lemma SignExtendKeepsApart(v: Word, w: Word)
    requires v < 0x1_0000_0000 && w < 0x1_0000_0000 && SignExtend(v) == SignExtend(w)
    ensures v == w
  {
  }

  function OfInt(a: bv32): Word {
    SignExtend(a as Word)
  }

  function EqInt(a: bv32, b: bv32): (r: Word)
    ensures r == Mask(a == b)
  {
    var v, w := OfInt(a), OfInt(b);
    if v == w then
      SignExtendKeepsApart(a as Word, b as Word);
      Eq(v, w)
    else Eq(v, w)
  }

  function Select(mask: Word, a: Word, b: Word): (r: Word)
    ensures mask == Mask(true) ==> r == a
    ensures mask == Mask(false) ==> r == b
  {
    (mask & a) | (!mask & b)
  }

  function IsZero8(a: Word): (r: bv8)
    ensures r == Mask8(a == 0)
  {
    Low8(IsZero(a))
  }

  function Eq8(a: Word, b: Word): (r: bv8)
    ensures r == Mask8(a == b)
  {
    Low8(Eq(a, b))
  }

  function EqInt8(a: bv32, b: bv32): (r: bv8)
    ensures r == Mask8(a == b)
  {
    Low8(EqInt(a, b))
  }

  /** The mask is widened with zeros, and only the low byte of what is selected is kept. */
  function Select8(mask: bv8, a: bv8, b: bv8): (r: bv8)
    ensures mask == Mask8(true) ==> r == a
    ensures mask == Mask8(false) ==> r == b
  {
    Low8(Select(mask as Word, a as Word, b as Word))
  }
}

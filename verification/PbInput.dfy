/** The input stream of nanopb over a memory buffer, with its varint readers. */
module PbInput {
  import opened Bytes
  import opened Varint

  // ---------- The accumulation step of the varint loops ----------

  lemma {:induction false} ScaleIsPow128(x: nat, k: nat)
    ensures Scale(x, 7 * k) == Pow128(k) * x
  {
    if k > 0 {
      ScaleBySeven(x, 7 * (k - 1));
      ScaleIsPow128(x, k - 1);
      Regroup(Pow128(k - 1), x);
    }
  }

  lemma AppendGroup(read: seq<byte>, b: byte)
    ensures GroupsValue(read + [b]) == GroupsValue(read) + Scale(b % 128, 7 * |read|)
    ensures GroupsValue(read) < Scale(1, 7 * |read|)
  {
    GroupsSplit(read + [b], |read|);
    assert (read + [b])[..|read|] == read && (read + [b])[|read|..] == [b];
    assert GroupsValue([b]) == b % 128;
    ScaleIsPow128(b % 128, |read|);
    ScaleIsPow128(1, |read|);
    GroupsBound(read);
  }

  lemma DivisionParts(a: nat, b: nat)
    requires b > 0
    ensures a == a % b + b * (a / b)
  {
  }

  lemma TwiceProduct(x: nat, y: nat)
    ensures 2 * (x * y) == (2 * x) * y
  {
  }

  lemma {:induction false} ScaleOfProduct(x: nat, y: nat, k: nat)
    ensures Scale(x * y, k) == Scale(x, k) * y
  {
    if k > 0 {
      ScaleOfProduct(x, y, k - 1);
      TwiceProduct(Scale(x, k - 1), y);
    }
  }

  /** The part of a group that fits, and the part that is shifted out. */
  lemma GroupParts(fit: nat, above: nat, room: nat, bitpos: nat)
    requires fit < room
    ensures Scale(fit + above, bitpos) == Scale(fit, bitpos) + Scale(above, bitpos)
    ensures Scale(fit, bitpos) + Scale(1, bitpos) <= Scale(room, bitpos)
  {
    ScaleOfSum(fit, above, bitpos);
    ScaleOfSum(fit, 1, bitpos);
    ScaleMonotone(fit + 1, room, bitpos, bitpos);
  }

  lemma JoinParts(value: nat, fit: nat, above: nat, room: nat, lost: nat, bitpos: nat, modulus: int)
    requires fit < room && above == room * lost && modulus == Scale(room, bitpos) && value < Scale(1, bitpos)
    ensures BitOr(value, ShiftLeft(fit + above, bitpos, modulus)) == (value + Scale(fit + above, bitpos)) % modulus
  {
    var part := Scale(fit, bitpos);
    GroupParts(fit, above, room, bitpos);
    ScaleOfProduct(room, lost, bitpos);
    RemainderOfMultiple(part, lost, modulus);
    RemainderOfMultiple(value + part, lost, modulus);
    OrOfDisjointBitsAdds(value, fit, bitpos);
  }

  /** Or-ing in a group that may reach past the top of the word, where `room` is what still fits. */
  lemma JoinGroup(value: nat, group: nat, room: nat, bitpos: nat, modulus: int)
    requires modulus == Scale(room, bitpos) && room > 0 && value < Scale(1, bitpos)
    ensures BitOr(value, ShiftLeft(group, bitpos, modulus)) == (value + Scale(group, bitpos)) % modulus
  {
    DivisionParts(group, room);
    JoinParts(value, group % room, room * (group / room), room, group / room, bitpos, modulus);
  }

  lemma {:induction false} RemainderOfMultiple(a: nat, k: nat, m: int)
    requires 0 <= a < m
    ensures (a + m * k) % m == a
  {
    var x := a + m * k;
    DivisionParts(x, m);
    var q := x / m;
    if q < k {
      ProductStep(m, q, k);
    } else if q > k {
      ProductStep(m, k, q);
    }
  }

  lemma ProductStep(m: nat, q: nat, k: nat)
    requires q < k
    ensures m * q + m <= m * k
  {
    var d := k - q - 1;
    assert m * (q + 1 + d) == m * q + m + m * d;
  }

  lemma JoinInWord(value: nat, group: nat, bitpos: nat, width: nat)
    requires bitpos <= width && (width == 32 || width == 64) && value < Scale(1, bitpos)
    ensures value < WordModulus(width)
    ensures BitOr(value, ShiftLeft(group, bitpos, WordModulus(width))) ==
            (value + Scale(group, bitpos)) % WordModulus(width)
  {
    WordRoom(bitpos, width);
    JoinGroup(value, group, Scale(1, width - bitpos), bitpos, WordModulus(width));
    ScaleMonotone(1, 1, bitpos, width);
  }

  lemma SmallRemainder(v: nat, width: nat)
    requires (width == 32 || width == 64) && v < WordModulus(width)
    ensures v % WordModulus(width) == v
  {
  }

  /** Joining the next group of at most 63 (or 28) bits already read appends it to the number. */
  lemma AccumulateGroup(read: seq<byte>, b: byte, result: nat, width: nat)
    requires (width == 64 && |read| <= 9) || (width == 32 && |read| <= 4)
    requires result == GroupsValue(read) % WordModulus(width)
    ensures BitOr(result, ShiftLeft(b % 128, 7 * |read|, WordModulus(width))) ==
            GroupsValue(read + [b]) % WordModulus(width)
  {
    AppendGroup(read, b);
    JoinInWord(GroupsValue(read), b % 128, 7 * |read|, width);
    SmallRemainder(GroupsValue(read), width);
  }

  lemma {:induction false} ScaleOfScale(a: nat, b: nat)
    ensures Scale(Scale(1, a), b) == Scale(1, a + b)
  {
    if b > 0 {
      ScaleOfScale(a, b - 1);
    }
  }

  function WordModulus(width: nat): int {
    if width == 32 then TWO_TO_THE_32 else TWO_TO_THE_64
  }

  /** The bits of a word above `bitpos`. */
  lemma WordRoom(bitpos: nat, width: nat)
    requires bitpos <= width && (width == 32 || width == 64)
    ensures Scale(Scale(1, width - bitpos), bitpos) == WordModulus(width)
    ensures Scale(1, width) == WordModulus(width)
  {
    ScaleOfScale(width - bitpos, bitpos);
    ScaleIsPow128(1, 4);
    ScaleIsPow128(1, 9);
    Pow128Values();
    assert Scale(1, 28 + 1) == 0x2000_0000 && Scale(1, 28 + 2) == 0x4000_0000;
    assert Scale(1, 28 + 3) == 0x8000_0000;
  }

  /** Without a final byte there is no 32-bit varint. */
  lemma {:induction false} UnterminatedTail(s: seq<byte>, bitpos: nat, result: nat)
    requires VarintSize(s).None?
    ensures DecodeTail32(s, bitpos, result).Fail?
  {
    if |s| > 0 && !(bitpos >= 32 && Overflows32(s[0], bitpos, result)) {
      var joined := if bitpos >= 32 then result else BitOr(result, ShiftLeft(s[0] % 128, bitpos, TWO_TO_THE_32));
      UnterminatedTail(s[1..], (bitpos + 7) % 256, joined);
    }
  }

  lemma SplitAt(read: seq<byte>, s: seq<byte>)
    ensures (read + s)[..|read|] == read && (read + s)[|read|..] == s
  {
  }

  lemma FinishVarint(read: seq<byte>, b: byte, rest: seq<byte>)
    requires forall i :: 0 <= i < |read| ==> read[i] >= 128
    requires b < 128
    ensures VarintSize(read + ([b] + rest)) == Some(|read| + 1)
    ensures var s := read + ([b] + rest); s[..|read| + 1] == read + [b] && s[|read| + 1..] == rest
  {
    SizeAfterContinuation(read, [b] + rest);
  }

  /** After five continuation bytes only the tail decides. */
  lemma FiveThenTail(read: seq<byte>, rest: seq<byte>)
    requires |read| == 5 && forall i :: 0 <= i < 5 ==> read[i] >= 128
    ensures DecodeVarint32(read + rest) == DecodeTail32(rest, 35, GroupsValue(read) % TWO_TO_THE_32)
  {
    SizeAfterContinuation(read, rest);
    SplitAt(read, rest);
    if VarintSize(rest).None? {
      UnterminatedTail(rest, 35, GroupsValue(read) % TWO_TO_THE_32);
    }
  }

  lemma ShortForm32(s: seq<byte>, n: nat)
    requires VarintSize(s) == Some(n) && n <= 5
    ensures DecodeVarint32(s) == if n == 5 && s[4] >= 16 then Fail else Ok(GroupsValue(s[..n]), s[n..])
  {
  }

  /** A varint of at most five bytes, as the 32-bit reader sees it. */
  lemma ShortDecode32(read: seq<byte>, b: byte, rest: seq<byte>)
    requires |read| <= 4 && forall i :: 0 <= i < |read| ==> read[i] >= 128
    requires b < 128
    ensures DecodeVarint32(read + ([b] + rest)) ==
            if |read| == 4 && b >= 16 then Fail else Ok(GroupsValue(read + [b]) % TWO_TO_THE_32, rest)
  {
    FinishVarint(read, b, rest);
    ShortForm32(read + ([b] + rest), |read| + 1);
    if |read| < 4 {
      FourGroupsFit(read + [b]);
      SmallRemainder(GroupsValue(read + [b]), 32);
    } else if b < 16 {
      FiveGroupsFit(read + [b]);
      SmallRemainder(GroupsValue(read + [b]), 32);
    }
  }

  lemma Unterminated(read: seq<byte>)
    requires forall i :: 0 <= i < |read| ==> read[i] >= 128
    ensures DecodeVarint(read) == Fail && DecodeVarint32(read) == Fail
  {
    SizeAfterContinuation(read, []);
    assert read + [] == read;
  }

  /** The 64-bit loop after the bytes `read`, all with continuation bits. */
  ghost predicate Reading64(start: seq<byte>, read: seq<byte>, rest: seq<byte>, bitpos: nat, result: nat) {
    && start == read + rest && |read| <= 10
    && (forall i :: 0 <= i < |read| ==> read[i] >= 128)
    && bitpos == 7 * |read| && result == GroupsValue(read) % TWO_TO_THE_64
  }

  lemma ElevenBytes(read: seq<byte>, rest: seq<byte>)
    requires |read| == 10 && forall i :: 0 <= i < |read| ==> read[i] >= 128
    ensures DecodeVarint(read + rest) == Fail
  {
    SizeAfterContinuation(read, rest);
  }

  lemma FinishDecode(read: seq<byte>, b: byte, rest: seq<byte>)
    requires |read| < 10 && forall i :: 0 <= i < |read| ==> read[i] >= 128
    requires b < 128
    ensures DecodeVarint(read + ([b] + rest)) == Ok(GroupsValue(read + [b]) % TWO_TO_THE_64, rest)
  {
    FinishVarint(read, b, rest);
  }

  /** The 32-bit loop after the bytes `read`, all with continuation bits. */
  ghost predicate Reading32(start: seq<byte>, read: seq<byte>, rest: seq<byte>, bitpos: nat, result: nat) {
    && start == read + rest && |read| >= 1
    && (forall i :: 0 <= i < |read| ==> read[i] >= 128)
    && (|read| <= 5 ==> bitpos == 7 * |read| && result == GroupsValue(read) % TWO_TO_THE_32)
    && (|read| >= 5 ==> DecodeVarint32(start) == DecodeTail32(rest, bitpos, result))
  }

  lemma ShortStep32(read: seq<byte>, b: byte, rest: seq<byte>, result: nat, joined: nat)
    requires 1 <= |read| <= 4 && forall i :: 0 <= i < |read| ==> read[i] >= 128
    requires result == GroupsValue(read) % TWO_TO_THE_32
    requires joined == BitOr(result, ShiftLeft(b % 128, 7 * |read|, TWO_TO_THE_32))
    ensures joined == GroupsValue(read + [b]) % TWO_TO_THE_32
    ensures b < 128 ==>
              DecodeVarint32(read + ([b] + rest)) == if |read| == 4 && b >= 16 then Fail else Ok(joined, rest)
    ensures b >= 128 && |read| == 4 ==> DecodeVarint32(read + [b] + rest) == DecodeTail32(rest, 35, joined)
  {
    AccumulateGroup(read, b, result, 32);
    if b < 128 {
      ShortDecode32(read, b, rest);
    } else if |read| == 4 {
      FiveThenTail(read + [b], rest);
    }
  }

  lemma LongStep32(start: seq<byte>, read: seq<byte>, b: byte, rest: seq<byte>, bitpos: nat, result: nat, joined: nat,
                   next: nat)
    requires Reading32(start, read, [b] + rest, bitpos, result) && |read| >= 5
    requires joined == if bitpos >= 32 then result else BitOr(result, ShiftLeft(b % 128, bitpos, TWO_TO_THE_32))
    requires next == (bitpos + 7) % 256
    ensures if bitpos >= 32 && Overflows32(b, bitpos, result) then DecodeVarint32(start).Fail?
            else if b >= 128 then Reading32(start, read + [b], rest, next, joined)
            else DecodeVarint32(start) == if next == 35 && b >= 16 then Fail else Ok(joined, rest)
  {
    TailUnfold(b, rest, bitpos, result, joined, next);
    assert read + ([b] + rest) == (read + [b]) + rest;
  }

  lemma Step32(start: seq<byte>, read: seq<byte>, b: byte, rest: seq<byte>, bitpos: nat, result: nat, joined: nat,
               next: nat)
    requires Reading32(start, read, [b] + rest, bitpos, result)
    requires joined == if bitpos >= 32 then result else BitOr(result, ShiftLeft(b % 128, bitpos, TWO_TO_THE_32))
    requires next == (bitpos + 7) % 256
    ensures if bitpos >= 32 && Overflows32(b, bitpos, result) then DecodeVarint32(start).Fail?
            else if b >= 128 then Reading32(start, read + [b], rest, next, joined)
            else DecodeVarint32(start) == if next == 35 && b >= 16 then Fail else Ok(joined, rest)
  {
    if |read| >= 5 {
      LongStep32(start, read, b, rest, bitpos, result, joined, next);
    } else {
      ShortStep32(read, b, rest, result, joined);
      assert read + ([b] + rest) == (read + [b]) + rest;
    }
  }

  lemma FirstByte32(b: byte, rest: seq<byte>)
    ensures b < 128 ==> DecodeVarint32([b] + rest) == Ok(b, rest)
    ensures b >= 128 ==> Reading32([b] + rest, [b], rest, 7, b % 128)
  {
    assert GroupsValue([b]) == b % 128;
    if b < 128 {
      ShortForm32([b] + rest, 1);
      assert ([b] + rest)[..1] == [b] && ([b] + rest)[1..] == rest;
    }
  }

  lemma StreamEnds32(start: seq<byte>, read: seq<byte>, bitpos: nat, result: nat)
    requires Reading32(start, read, [], bitpos, result)
    ensures DecodeVarint32(start).Fail?
  {
    assert start == read;
    Unterminated(read);
  }

  lemma Step64(start: seq<byte>, read: seq<byte>, b: byte, rest: seq<byte>, bitpos: nat, result: nat, joined: nat)
    requires Reading64(start, read, [b] + rest, bitpos, result) && bitpos < 64
    requires joined == BitOr(result, ShiftLeft(b % 128, bitpos, TWO_TO_THE_64))
    ensures if b >= 128 then Reading64(start, read + [b], rest, bitpos + 7, joined)
            else DecodeVarint(start) == Ok(joined, rest)
  {
    AccumulateGroup(read, b, result, 64);
    if b >= 128 {
      assert read + ([b] + rest) == (read + [b]) + rest;
    } else {
      FinishDecode(read, b, rest);
    }
  }

  lemma StreamEnds64(start: seq<byte>, read: seq<byte>, rest: seq<byte>, bitpos: nat, result: nat)
    requires Reading64(start, read, rest, bitpos, result) && (bitpos >= 64 || rest == [])
    ensures DecodeVarint(start).Fail?
  {
    if bitpos >= 64 {
      ElevenBytes(read, rest);
    } else {
      assert start == read;
      Unterminated(read);
    }
  }

  /** A stream over memory: `bytesLeft` bytes starting at `state`. Streams that share memory share `data`. */
  class IStream {
    const data: seq<byte>
    var state: nat
    var bytesLeft: nat

    ghost predicate Valid()
      reads this
    {
      state + bytesLeft <= |data|
    }

    /** Where the stream's bytes end in memory. */
    function End(): nat
      reads this
    {
      state + bytesLeft
    }

    function Rest(): (r: seq<byte>)
      requires Valid()
      reads this
      ensures |r| == bytesLeft
    {
      data[state..state + bytesLeft]
    }

    constructor FromBuffer(buf: seq<byte>)
      ensures Valid() && data == buf && Rest() == buf
    {
      data, state, bytesLeft := buf, 0, |buf|;
    }

    /** A stream of `size` bytes at the same place in the same memory. */
    constructor Limited(parent: IStream, size: nat)
      requires parent.Valid() && size <= parent.bytesLeft
      ensures Valid() && data == parent.data && state == parent.state && Rest() == parent.Rest()[..size]
    {
      data, state, bytesLeft := parent.data, parent.state, size;
    }

    method ReadByte() returns (ok: bool, b: byte)
      requires Valid()
      modifies this
      ensures Valid()
      ensures ok <==> old(bytesLeft) > 0
      ensures ok ==> old(Rest()) == [b] + Rest() && End() == old(End())
      ensures !ok ==> state == old(state) && bytesLeft == old(bytesLeft)
    {
      if bytesLeft == 0 {
        return false, 0;
      }
      b := data[state];
      state, bytesLeft := state + 1, bytesLeft - 1;
      ok := true;
    }

    method Read(count: nat) returns (ok: bool, buf: seq<byte>)
      requires Valid()
      modifies this
      ensures Valid()
      ensures ok <==> count <= old(bytesLeft)
      ensures ok ==> old(Rest()) == buf + Rest() && |buf| == count && End() == old(End())
      ensures !ok ==> state == old(state) && bytesLeft == old(bytesLeft)
    {
      if bytesLeft < count {
        return false, [];
      }
      buf := data[state..state + count];
      state, bytesLeft := state + count, bytesLeft - count;
      ok := true;
    }

    /** The 64-bit varint loop. */
    method ReadVarint() returns (ok: bool, dest: nat)
      requires Valid()
      modifies this
      ensures Valid()
      ensures ok <==> DecodeVarint(old(Rest())).Ok?
      ensures ok ==> DecodeVarint(old(Rest())) == Ok(dest, Rest()) && End() == old(End())
    {
      var bitpos: nat, result: nat := 0, 0;
      ghost var start, read := Rest(), [];
      while true
        invariant Valid() && Reading64(start, read, Rest(), bitpos, result) && End() == old(End())
        decreases bytesLeft
      {
        if bitpos >= 64 {
          StreamEnds64(start, read, Rest(), bitpos, result);
          return false, 0;
        }
        var got, b := ReadByte();
        if !got {
          StreamEnds64(start, read, Rest(), bitpos, result);
          return false, 0;
        }
        var joined := BitOr(result, ShiftLeft(b % 128, bitpos, TWO_TO_THE_64));
        Step64(start, read, b, Rest(), bitpos, result, joined);
        result, bitpos := joined, (bitpos + 7) % 256;
        if b < 128 {
          return true, result;
        }
        read := read + [b];
      }
    }

    /** The 32-bit varint loop. `eof` reports that the stream was already at its end. */
    method ReadVarint32() returns (ok: bool, dest: nat, eof: bool)
      requires Valid()
      modifies this
      ensures Valid()
      ensures ok <==> DecodeVarint32(old(Rest())).Ok?
      ensures ok ==> DecodeVarint32(old(Rest())) == Ok(dest, Rest()) && End() == old(End())
      ensures eof <==> old(bytesLeft) == 0
    {
      ghost var start := Rest();
      var got, b := ReadByte();
      if !got {
        return false, 0, true;
      }
      FirstByte32(b, Rest());
      if b < 128 {
        return true, b, false;
      }
      var bitpos: nat, result: nat := 7, b % 128;
      ghost var read := [b];
      while true
        invariant Valid() && Reading32(start, read, Rest(), bitpos, result) && End() == old(End())
        decreases bytesLeft
      {
        got, b := ReadByte();
        if !got {
          StreamEnds32(start, read, bitpos, result);
          return false, 0, false;
        }
        var joined := if bitpos >= 32 then result else BitOr(result, ShiftLeft(b % 128, bitpos, TWO_TO_THE_32));
        Step32(start, read, b, Rest(), bitpos, result, joined, (bitpos + 7) % 256);
        if bitpos >= 32 && Overflows32(b, bitpos, result) {
          return false, 0, false;
        }
        result, bitpos := joined, (bitpos + 7) % 256;
        if b < 128 {
          return !(bitpos == 35 && b >= 16), result, false;
        }
        read := read + [b];
      }
    }
  }
}

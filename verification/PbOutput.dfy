/** The output stream of nanopb: it fills a buffer, or only counts when it has none. */
module PbOutput {
  import opened Bytes
  import opened Varint
  import opened PbEncode

  /** The varint loop has put out the groups `done`, all with continuation bits, and has `value` left. */
  ghost predicate Filling(done: seq<byte>, value: nat, target: seq<byte>) {
    if value > 0 then done + VarintBytes(value) == target
    else |done| > 0 && done[|done| - 1] >= 128 && done[..|done| - 1] + [done[|done| - 1] - 128] == target
  }

  lemma FillStep(done: seq<byte>, value: nat, target: seq<byte>)
    requires value > 0 && Filling(done, value, target)
    ensures |done| < |target| && Filling(done + [value % 128 + 128], value / 128, target)
  {
    if value < 128 {
      assert (done + [value % 128 + 128])[..|done|] == done;
    }
  }

  /** The groups of `v`, least significant first, put in `buffer`. */
  method FillVarint(buffer: array<byte>, v: nat) returns (i: nat)
    requires v > 0 && buffer.Length >= |VarintBytes(v)|
    modifies buffer
    ensures i <= buffer.Length && buffer[..i] == VarintBytes(v)
  {
    var value: nat := v;
    i := 0;
    while value > 0
      invariant i <= |VarintBytes(v)|
      invariant Filling(buffer[..i], value, VarintBytes(v))
    {
      ghost var done := buffer[..i];
      FillStep(done, value, VarintBytes(v));
      buffer[i] := value % 128 + 128;
      assert buffer[..i + 1] == done + [value % 128 + 128];
      value := value / 128;
      i := i + 1;
    }
    ghost var done := buffer[..i - 1];
    buffer[i - 1] := buffer[i - 1] - 128;
    assert buffer[..i] == done + [buffer[i - 1]];
  }

  /** The state of a stream as a value; a stream that only counts has no memory. */
  datatype View = View(writing: bool, mem: seq<byte>, state: nat, maxSize: nat, bytesWritten: nat) {
    /** Where the stream's memory ends. */
    function Limit(): int {
      state + maxSize - bytesWritten
    }

    predicate Valid() {
      writing ==> bytesWritten <= maxSize && Limit() <= |mem|
    }

    predicate HasRoom(n: nat) {
      writing ==> bytesWritten + n <= maxSize
    }
  }

  /** Whatever happened between `a` and `b`, memory before the stream and past its end is as it was. */
  predicate Confined(a: View, b: View) {
    && a.Valid() && b.Valid()
    && b.writing == a.writing && b.maxSize == a.maxSize && b.bytesWritten >= a.bytesWritten
    && (a.writing ==>
          && |b.mem| == |a.mem| && b.state - a.state == b.bytesWritten - a.bytesWritten
          && b.mem[..a.state] == a.mem[..a.state]
          && b.mem[a.Limit()..] == a.mem[a.Limit()..])
  }

  /** Exactly `bytes` were added. */
  predicate Extended(a: View, b: View, bytes: seq<byte>) {
    && Confined(a, b) && b.bytesWritten == a.bytesWritten + |bytes|
    && (a.writing ==> b.mem[a.state..b.state] == bytes)
  }

  /** An encoder that was to add `bytes`, or None for an error of its own, returned `ok`. */
  predicate Encoded(a: View, b: View, ok: bool, bytes: Option<seq<byte>>) {
    && Confined(a, b)
    && (ok <==> bytes.Some? && a.HasRoom(|bytes.value|))
    && (ok ==> Extended(a, b, bytes.value))
  }

  lemma ConfinedTwice(a: View, b: View, c: View)
    requires Confined(a, b) && Confined(b, c)
    ensures Confined(a, c)
  {
    if a.writing {
      assert c.mem[..a.state] == c.mem[..b.state][..a.state] == b.mem[..a.state];
    }
  }

  lemma ExtendedTwice(a: View, b: View, c: View, x: seq<byte>, y: seq<byte>)
    requires Extended(a, b, x) && Extended(b, c, y)
    ensures Extended(a, c, x + y)
  {
    ConfinedTwice(a, b, c);
    if a.writing {
      assert c.mem[a.state..c.state] == c.mem[..b.state][a.state..] + c.mem[b.state..c.state];
      assert b.mem[..b.state][a.state..] == b.mem[a.state..b.state];
    }
  }

  /** Two encoders in a row encode the concatenation. */
  lemma EncodedThen(a: View, b: View, c: View, x: seq<byte>, ok: bool, y: Option<seq<byte>>)
    requires Extended(a, b, x) && Encoded(b, c, ok, y)
    ensures Encoded(a, c, ok, Concat(Some(x), y))
  {
    ConfinedTwice(a, b, c);
    if ok {
      ExtendedTwice(a, b, c, x, y.value);
    }
  }

  /** A loop that is to encode `whole` has encoded `done`, and what it has left to encode is `rest`. */
  predicate Underway(whole: Option<seq<byte>>, done: seq<byte>, rest: Option<seq<byte>>) {
    whole == Concat(Some(done), rest)
  }

  lemma LoopStart(whole: Option<seq<byte>>)
    ensures Underway(whole, [], whole)
  {
    assert whole.Some? ==> [] + whole.value == whole.value;
  }

  /** One round of such a loop: it goes on after a success, and its failure is the failure of the whole. */
  lemma LoopStep(a: View, b: View, c: View, whole: Option<seq<byte>>, done: seq<byte>, ok: bool,
                 x: Option<seq<byte>>, rest: Option<seq<byte>>)
    requires Extended(a, b, done) && Underway(whole, done, Concat(x, rest)) && Encoded(b, c, ok, x)
    ensures ok ==> Extended(a, c, done + x.value) && Underway(whole, done + x.value, rest)
    ensures !ok ==> Encoded(a, c, false, whole)
  {
    ConfinedTwice(a, b, c);
    if ok {
      ExtendedTwice(a, b, c, done, x.value);
      assert rest.Some? ==> done + (x.value + rest.value) == (done + x.value) + rest.value;
    }
  }

  lemma LoopEnd(a: View, b: View, whole: Option<seq<byte>>, done: seq<byte>)
    requires Extended(a, b, done) && Underway(whole, done, Some([]))
    ensures Encoded(a, b, true, whole)
  {
    assert done + [] == done;
  }

  /** buf_write. */
  method BufWrite(dest: array<byte>, start: nat, buf: seq<byte>)
    requires start + |buf| <= dest.Length
    modifies dest
    ensures dest[..start] == old(dest[..start])
    ensures dest[start..start + |buf|] == buf
    ensures dest[start + |buf|..] == old(dest[start + |buf|..])
  {
    for i := 0 to |buf|
      invariant dest[..start] == old(dest[..start])
      invariant dest[start..start + i] == buf[..i]
      invariant dest[start + i..] == old(dest[start + i..])
    {
      dest[start + i] := buf[i];
    }
  }

  lemma WrittenAt(before: seq<byte>, after: seq<byte>, state: nat, maxSize: nat, written: nat, buf: seq<byte>)
    requires View(true, before, state, maxSize, written).Valid() && written + |buf| <= maxSize && |after| == |before|
    requires after[..state] == before[..state] && after[state..state + |buf|] == buf
    requires after[state + |buf|..] == before[state + |buf|..]
    ensures Extended(View(true, before, state, maxSize, written),
                     View(true, after, state + |buf|, maxSize, written + |buf|), buf)
  {
    var limit := state + maxSize - written;
    assert after[limit..] == after[state + |buf|..][limit - state - |buf|..];
    assert before[limit..] == before[state + |buf|..][limit - state - |buf|..];
  }

  class OStream {
    /** The memory written to; null for a stream that only counts. */
    const dest: array?<byte>
    var state: nat
    var maxSize: nat
    var bytesWritten: nat

    ghost function Now(): (v: View)
      reads this, dest
      ensures v.writing <==> dest != null
    {
      View(dest != null, if dest != null then dest[..] else [], state, maxSize, bytesWritten)
    }

    ghost predicate Valid()
      reads this, dest
    {
      Now().Valid()
    }

    constructor Sizing()
      ensures Valid() && dest == null && bytesWritten == 0
    {
      dest, state, maxSize, bytesWritten := null, 0, 0, 0;
    }

    constructor FromBuffer(buf: array<byte>, size: nat)
      requires size <= buf.Length
      ensures Valid() && dest == buf && state == 0 && bytesWritten == 0 && maxSize == size
    {
      dest, state, maxSize, bytesWritten := buf, 0, size, 0;
    }

    /** A stream of exactly `size` bytes at the current place of `parent`. */
    constructor Limited(parent: OStream, size: nat)
      requires parent.Valid() && parent.dest != null && parent.bytesWritten + size <= parent.maxSize
      ensures Valid() && dest == parent.dest && state == parent.state && bytesWritten == 0 && maxSize == size
    {
      dest, state, maxSize, bytesWritten := parent.dest, parent.state, size, 0;
    }

    /** pb_write. */
    method Write(buf: seq<byte>) returns (ok: bool)
      requires Valid()
      modifies this, dest
      ensures Encoded(old(Now()), Now(), ok, Some(buf))
      ensures !ok ==> unchanged(this) && (dest != null ==> unchanged(dest))
    {
      if dest != null {
        if bytesWritten + |buf| > maxSize {
          return false;
        }
        BufWrite(dest, state, buf);
        WrittenAt(old(dest[..]), dest[..], state, maxSize, bytesWritten, buf);
        state := state + |buf|;
      }
      bytesWritten := bytesWritten + |buf|;
      ok := true;
    }

    /** pb_write of `count` bytes on a counting stream. */
    method Count(count: nat)
      requires Valid() && dest == null
      modifies this
      ensures Confined(old(Now()), Now()) && bytesWritten == old(bytesWritten) + count
    {
      bytesWritten := bytesWritten + count;
    }

    /** pb_encode_varint. */
    method WriteVarint(v: nat) returns (ok: bool)
      requires Valid() && v < TWO_TO_THE_64
      modifies this, dest
      ensures Encoded(old(Now()), Now(), ok, Some(VarintBytes(v)))
    {
      if v <= 0x7F {
        ok := Write([v]);
        return;
      }
      var buffer := new byte[10];
      VarintAtMostTenBytes(v);
      var i := FillVarint(buffer, v);
      ok := Write(buffer[..i]);
    }
  }
}

/** The encoder of nanopb as it runs: an iterator over the fields, writing to a stream, where the length of a
    submessage or a packed array comes from a first pass over a counting stream. */
module PbEncoder {
  import opened Bytes
  import opened Varint
  import opened PbMessages
  import opened PbCommon
  import opened PbEncode
  import opened PbOutput

  // ---------- Scalars ----------

  /** pb_encode_tag. */
  method EncodeTag(stream: OStream, wireType: nat, tag: size32) returns (ok: bool)
    requires stream.Valid() && wireType < 8
    modifies stream, stream.dest
    ensures Encoded(old(stream.Now()), stream.Now(), ok, Some(TagBytes(wireType, tag)))
  {
    ok := stream.WriteVarint(8 * tag + wireType);
  }

  /** pb_encode_string. */
  method EncodeString(stream: OStream, buffer: seq<byte>) returns (ok: bool)
    requires stream.Valid() && |buffer| < TWO_TO_THE_64
    modifies stream, stream.dest
    ensures Encoded(old(stream.Now()), stream.Now(), ok, Some(Prefixed(buffer)))
  {
    ghost var before := stream.Now();
    ok := stream.WriteVarint(|buffer|);
    if !ok {
      return;
    }
    ghost var between := stream.Now();
    ok := stream.Write(buffer);
    EncodedThen(before, between, stream.Now(), VarintBytes(|buffer|), ok, Some(buffer));
  }

  /** pb_encode_svarint: the sign moves to the lowest bit of a 64-bit word. */
  method EncodeSVarint(stream: OStream, value: int) returns (ok: bool)
    requires stream.Valid() && -TWO_TO_THE_63 <= value < TWO_TO_THE_63
    modifies stream, stream.dest
    ensures Encoded(old(stream.Now()), stream.Now(), ok, Some(VarintBytes(ZigZag(value))))
  {
    var shifted := AsWord(value) * 2 % TWO_TO_THE_64;
    var zigzagged := if value < 0 then TWO_TO_THE_64 - 1 - shifted else shifted;
    assert zigzagged == ZigZag(value);
    ok := stream.WriteVarint(zigzagged);
  }

  /** pb_encode_fixed32 and pb_encode_fixed64. */
  method EncodeFixed(stream: OStream, value: nat, n: nat) returns (ok: bool)
    requires stream.Valid()
    modifies stream, stream.dest
    ensures Encoded(old(stream.Now()), stream.Now(), ok, Some(FixedBytes(value, n)))
  {
    var bytes: seq<byte>, rest: nat := [], value;
    for i := 0 to n
      invariant bytes + FixedBytes(rest, n - i) == FixedBytes(value, n)
    {
      bytes, rest := bytes + [rest % 256], rest / 256;
    }
    ok := stream.Write(bytes);
  }

  /** The character array of a string field, with its terminator if that fits. */
  function CharArray(b: seq<byte>, size: nat): (a: seq<byte>) {
    if |b| < size then b + [0] else b
  }

  /** pb_enc_string. */
  method EncodeCString(stream: OStream, maxSize: size32, p: seq<byte>, ghost b: seq<byte>) returns (ok: bool)
    requires stream.Valid() && p == CharArray(b, maxSize) && |b| <= maxSize && forall k :: 0 <= k < |b| ==> b[k] != 0
    modifies stream, stream.dest
    ensures Encoded(old(stream.Now()), stream.Now(), ok, Some(Prefixed(b)))
  {
    var size := 0;
    while size < maxSize && p[size] != 0
      invariant size <= |b|
    {
      size := size + 1;
    }
    assert p[..size] == b;
    ok := EncodeString(stream, p[..size]);
  }

  // ---------- Values ----------

  /** The field encoders. */
  method EncodeValue(stream: OStream, f: Field, v: Value) returns (ok: bool)
    requires stream.Valid() && ValueTyped(f, v) && ValueLengths(f, v, TWO_TO_THE_64)
    modifies stream, stream.dest
    ensures Encoded(old(stream.Now()), stream.Now(), ok, ValueBytes(f, v))
    decreases f, 0
  {
    match f.ltype
    case Signed =>
      if IntLimit(f.dataSize) == 0 {
        return false;
      }
      ok := stream.WriteVarint(AsWord(v.i));
    case Unsigned =>
      if IntLimit(f.dataSize) == 0 {
        return false;
      }
      ok := stream.WriteVarint(v.i);
    case ZigZagged =>
      if IntLimit(f.dataSize) == 0 {
        return false;
      }
      ok := EncodeSVarint(stream, v.i);
    case Fixed32 =>
      ok := EncodeFixed(stream, v.i, 4);
    case Fixed64 =>
      ok := EncodeFixed(stream, v.i, 8);
    case BytesField =>
      if |v.b| + BYTES_OFFSET > f.dataSize {
        return false;
      }
      ok := EncodeString(stream, v.b);
    case StringField =>
      ok := EncodeCString(stream, f.dataSize, CharArray(v.b, f.dataSize), v.b);
    case FixedLengthBytes =>
      ok := EncodeString(stream, v.b);
    case Submessage =>
      ok := EncodeSubmessage(stream, f.sub, v.slots);
  }

  /** A substream that encoded its `payload` in exactly the room the counting pass found, seen from the stream. */
  lemma SubstreamWrote(v0: View, s0: View, s1: View, ok: bool, payload: seq<byte>)
    requires v0.writing && v0.Valid() && v0.HasRoom(|payload|)
    requires s0 == View(true, v0.mem, v0.state, |payload|, 0)
    requires Encoded(s0, s1, ok, Some(payload))
    ensures ok && s1.bytesWritten == |payload|
    ensures Extended(v0, View(true, s1.mem, s1.state, v0.maxSize, v0.bytesWritten + s1.bytesWritten), payload)
  {
    var k := v0.Limit() - s0.Limit();
    assert s1.mem[v0.Limit()..] == s1.mem[s0.Limit()..][k..];
    assert v0.mem[v0.Limit()..] == v0.mem[s0.Limit()..][k..];
  }

  /** The second pass over a submessage, on a substream of exactly the counted size. The last test, for a
      submessage whose size changed, never fails. */
  method EncodeSubstream(stream: OStream, fs: seq<Field>, msg: Message, size: nat) returns (ok: bool)
    requires stream.Valid() && stream.dest != null && Typed(fs, msg) && MessageLengths(fs, msg, TWO_TO_THE_64)
    requires MessageBytes(fs, msg).Some? && size == |MessageBytes(fs, msg).value|
    requires stream.Now().HasRoom(size)
    modifies stream, stream.dest
    ensures ok && Extended(old(stream.Now()), stream.Now(), MessageBytes(fs, msg).value)
    decreases fs, 7
  {
    ghost var before := stream.Now();
    var substream := new OStream.Limited(stream, size);
    ghost var start := substream.Now();
    ok := Encode(substream, fs, msg);
    SubstreamWrote(before, start, substream.Now(), ok, MessageBytes(fs, msg).value);
    stream.bytesWritten := stream.bytesWritten + substream.bytesWritten;
    stream.state := substream.state;
    if substream.bytesWritten != size {
      assert false;
    }
  }

  /** pb_encode_submessage. */
  method EncodeSubmessage(stream: OStream, fs: seq<Field>, msg: Message) returns (ok: bool)
    requires stream.Valid() && Typed(fs, msg) && MessageLengths(fs, msg, TWO_TO_THE_64)
    requires Short(MessageBytes(fs, msg), TWO_TO_THE_64)
    modifies stream, stream.dest
    ensures var payload := MessageBytes(fs, msg);
            Encoded(old(stream.Now()), stream.Now(), ok, if payload.Some? then Some(Prefixed(payload.value)) else None)
    decreases fs, 8
  {
    ghost var before := stream.Now();
    var sizing := new OStream.Sizing();
    ok := Encode(sizing, fs, msg);
    if !ok {
      return;
    }
    var size := sizing.bytesWritten;
    ok := stream.WriteVarint(size);
    if !ok {
      return;
    }
    ghost var between := stream.Now();
    if stream.dest == null {
      stream.Count(size);
    } else if stream.bytesWritten + size > stream.maxSize {
      ok := false;
    } else {
      ok := EncodeSubstream(stream, fs, msg, size);
    }
    EncodedThen(before, between, stream.Now(), VarintBytes(size), ok, Some(MessageBytes(fs, msg).value));
  }

  // ---------- Fields ----------

  lemma OneMore(f: Field, vs: seq<Value>, i: nat)
    requires i < |vs| && forall k :: 0 <= k < |vs| ==> ValueTyped(f, vs[k])
    ensures PackedBytes(f, vs[i..]) == Concat(ValueBytes(f, vs[i]), PackedBytes(f, vs[i + 1..]))
    ensures UnpackedBytes(f, vs[i..]) == Concat(TaggedBytes(f, vs[i]), UnpackedBytes(f, vs[i + 1..]))
  {
    assert vs[i..][1..] == vs[i + 1..];
  }

  /** The elements of a packed array. */
  method EncodePacked(stream: OStream, f: Field, vs: seq<Value>) returns (ok: bool)
    requires stream.Valid()
    requires forall k :: 0 <= k < |vs| ==> ValueTyped(f, vs[k]) && ValueLengths(f, vs[k], TWO_TO_THE_64)
    modifies stream, stream.dest
    ensures Encoded(old(stream.Now()), stream.Now(), ok, PackedBytes(f, vs))
    decreases f, 1
  {
    ghost var v0, done := stream.Now(), [];
    assert vs[0..] == vs;
    LoopStart(PackedBytes(f, vs));
    for i := 0 to |vs|
      invariant Extended(v0, stream.Now(), done)
      invariant Underway(PackedBytes(f, vs), done, PackedBytes(f, vs[i..]))
    {
      ghost var v1 := stream.Now();
      OneMore(f, vs, i);
      ok := EncodeValue(stream, f, vs[i]);
      LoopStep(v0, v1, stream.Now(), PackedBytes(f, vs), done, ok, ValueBytes(f, vs[i]), PackedBytes(f, vs[i + 1..]));
      if !ok {
        return;
      }
      done := done + ValueBytes(f, vs[i]).value;
    }
    LoopEnd(v0, stream.Now(), PackedBytes(f, vs), done);
    ok := true;
  }

  lemma {:induction false} FixedSize(f: Field, vs: seq<Value>)
    requires f.ltype.Fixed32? || f.ltype.Fixed64?
    requires forall k :: 0 <= k < |vs| ==> ValueTyped(f, vs[k])
    ensures PackedBytes(f, vs).Some? && |PackedBytes(f, vs).value| == |vs| * if f.ltype.Fixed32? then 4 else 8
  {
    if vs != [] {
      FixedSize(f, vs[1..]);
    }
  }

  /** The length of a packed array, computed or counted; an element that cannot be encoded is an error. */
  method PackedSize(f: Field, vs: seq<Value>) returns (ok: bool, size: nat)
    requires forall k :: 0 <= k < |vs| ==> ValueTyped(f, vs[k]) && ValueLengths(f, vs[k], TWO_TO_THE_64)
    ensures ok <==> PackedBytes(f, vs).Some?
    ensures ok ==> size == |PackedBytes(f, vs).value|
    decreases f, 2
  {
    if f.ltype.Fixed32? {
      FixedSize(f, vs);
      return true, 4 * |vs|;
    }
    if f.ltype.Fixed64? {
      FixedSize(f, vs);
      return true, 8 * |vs|;
    }
    var sizing := new OStream.Sizing();
    ok := EncodePacked(sizing, f, vs);
    size := sizing.bytesWritten;
  }

  /** The elements of known size: a sizing stream only counts them. */
  method PackedBody(stream: OStream, f: Field, vs: seq<Value>, size: nat) returns (ok: bool)
    requires stream.Valid()
    requires forall k :: 0 <= k < |vs| ==> ValueTyped(f, vs[k]) && ValueLengths(f, vs[k], TWO_TO_THE_64)
    requires PackedBytes(f, vs).Some? && size == |PackedBytes(f, vs).value|
    modifies stream, stream.dest
    ensures Encoded(old(stream.Now()), stream.Now(), ok, PackedBytes(f, vs))
    decreases f, 2
  {
    if stream.dest == null {
      stream.Count(size);
      return true;
    }
    ok := EncodePacked(stream, f, vs);
  }

  /** encode_array for the packable types. */
  method EncodePackedArray(stream: OStream, f: Field, vs: seq<Value>) returns (ok: bool)
    requires stream.Valid()
    requires forall k :: 0 <= k < |vs| ==> ValueTyped(f, vs[k]) && ValueLengths(f, vs[k], TWO_TO_THE_64)
    requires Short(PackedBytes(f, vs), TWO_TO_THE_64)
    modifies stream, stream.dest
    ensures var payload := PackedBytes(f, vs);
            Encoded(old(stream.Now()), stream.Now(), ok,
                    if payload.Some? then Some(TagBytes(WT_STRING, f.tag) + Prefixed(payload.value)) else None)
    decreases f, 3
  {
    ghost var v0 := stream.Now();
    ok := EncodeTag(stream, WT_STRING, f.tag);
    if !ok {
      return;
    }
    ghost var v1 := stream.Now();
    var size;
    ok, size := PackedSize(f, vs);
    if !ok {
      return;
    }
    ghost var tag, payload := TagBytes(WT_STRING, f.tag), PackedBytes(f, vs).value;
    ok := stream.WriteVarint(size);
    ghost var v2 := stream.Now();
    EncodedThen(v0, v1, v2, tag, ok, Some(VarintBytes(size)));
    if !ok {
      return;
    }
    ok := PackedBody(stream, f, vs, size);
    EncodedThen(v0, v2, stream.Now(), tag + VarintBytes(size), ok, Some(payload));
    assert (tag + VarintBytes(size)) + payload == tag + Prefixed(payload);
  }

  /** A value after its tag. */
  method EncodeTagged(stream: OStream, f: Field, v: Value) returns (ok: bool)
    requires stream.Valid() && ValueTyped(f, v) && ValueLengths(f, v, TWO_TO_THE_64)
    modifies stream, stream.dest
    ensures Encoded(old(stream.Now()), stream.Now(), ok, TaggedBytes(f, v))
    decreases f, 1
  {
    ghost var v0 := stream.Now();
    ok := EncodeTag(stream, WireType(f.ltype), f.tag);
    if !ok {
      return;
    }
    ghost var v1 := stream.Now();
    ok := EncodeValue(stream, f, v);
    EncodedThen(v0, v1, stream.Now(), TagBytes(WireType(f.ltype), f.tag), ok, ValueBytes(f, v));
  }

  /** encode_array for the other types: every element with its tag. */
  method EncodeUnpacked(stream: OStream, f: Field, vs: seq<Value>) returns (ok: bool)
    requires stream.Valid()
    requires forall k :: 0 <= k < |vs| ==> ValueTyped(f, vs[k]) && ValueLengths(f, vs[k], TWO_TO_THE_64)
    modifies stream, stream.dest
    ensures Encoded(old(stream.Now()), stream.Now(), ok, UnpackedBytes(f, vs))
    decreases f, 2
  {
    ghost var v0, done := stream.Now(), [];
    assert vs[0..] == vs;
    LoopStart(UnpackedBytes(f, vs));
    for i := 0 to |vs|
      invariant Extended(v0, stream.Now(), done)
      invariant Underway(UnpackedBytes(f, vs), done, UnpackedBytes(f, vs[i..]))
    {
      ghost var v1 := stream.Now();
      OneMore(f, vs, i);
      ok := EncodeTagged(stream, f, vs[i]);
      LoopStep(v0, v1, stream.Now(), UnpackedBytes(f, vs), done, ok, TaggedBytes(f, vs[i]), UnpackedBytes(f,
               vs[i + 1..]));
      if !ok {
        return;
      }
      done := done + TaggedBytes(f, vs[i]).value;
    }
    LoopEnd(v0, stream.Now(), UnpackedBytes(f, vs), done);
    ok := true;
  }

  /** encode_basic_field. */
  method EncodeField(stream: OStream, f: Field, slot: Slot) returns (ok: bool)
    requires stream.Valid() && SlotTyped(f, slot) && SlotLengths(f, slot, TWO_TO_THE_64)
    modifies stream, stream.dest
    ensures Encoded(old(stream.Now()), stream.Now(), ok, SlotBytes(f, slot))
    decreases f, 4
  {
    match f.htype
    case Required =>
      ok := EncodeTagged(stream, f, slot[0]);
    case Singular =>
      var implicitHas := !IsProto3Default(f, slot[0]);
      ok := true;
      if implicitHas {
        ok := EncodeTagged(stream, f, slot[0]);
      }
    case Optional =>
      ok := true;
      if |slot| == 1 {
        ok := EncodeTagged(stream, f, slot[0]);
      }
    case Oneof(_) =>
      ok := true;
      if |slot| == 1 {
        ok := EncodeTagged(stream, f, slot[0]);
      }
    case Repeated =>
      if |slot| == 0 {
        return true;
      }
      if |slot| > f.arraySize {
        return false;
      }
      if Packable(f.ltype) {
        ok := EncodePackedArray(stream, f, slot);
      } else {
        ok := EncodeUnpacked(stream, f, slot);
      }
  }

  lemma OneMoreField(fs: seq<Field>, msg: Message, i: nat)
    requires Typed(fs, msg) && i < |fs|
    ensures FieldsBytes(fs[i..], msg[i..]) == Concat(SlotBytes(fs[i], msg[i]), FieldsBytes(fs[i + 1..], msg[i + 1..]))
  {
    assert fs[i..][1..] == fs[i + 1..] && msg[i..][1..] == msg[i + 1..];
  }

  /** pb_encode: the fields in the order of the iterator. */
  method Encode(stream: OStream, fs: seq<Field>, msg: Message) returns (ok: bool)
    requires stream.Valid() && Typed(fs, msg) && MessageLengths(fs, msg, TWO_TO_THE_64)
    modifies stream, stream.dest
    ensures Encoded(old(stream.Now()), stream.Now(), ok, MessageBytes(fs, msg))
    decreases fs, 6
  {
    var iter := new FieldIter(fs, 0);
    ghost var v0, done := stream.Now(), [];
    assert fs[0..] == fs && msg[0..] == msg;
    LoopStart(MessageBytes(fs, msg));
    var more := |fs| > 0;
    ghost var next := 0;
    while more
      invariant iter.Valid() && iter.fields == fs && next <= |fs|
      invariant more <==> next < |fs|
      invariant more ==> iter.pos == next
      invariant Extended(v0, stream.Now(), done)
      invariant Underway(MessageBytes(fs, msg), done, FieldsBytes(fs[next..], msg[next..]))
      decreases |fs| - next
    {
      ghost var v1 := stream.Now();
      OneMoreField(fs, msg, next);
      ok := EncodeField(stream, fs[iter.pos], msg[iter.pos]);
      LoopStep(v0, v1, stream.Now(), MessageBytes(fs, msg), done, ok, SlotBytes(fs[next], msg[next]),
               FieldsBytes(fs[next + 1..], msg[next + 1..]));
      if !ok {
        return;
      }
      done := done + SlotBytes(fs[next], msg[next]).value;
      more := iter.Next();
      next := next + 1;
    }
    LoopEnd(v0, stream.Now(), MessageBytes(fs, msg), done);
    ok := true;
  }

  // ---------- Entry points ----------

  /** pb_get_encoded_size. */
  method GetEncodedSize(fs: seq<Field>, msg: Message) returns (ok: bool, size: nat)
    requires Typed(fs, msg) && MessageLengths(fs, msg, TWO_TO_THE_64)
    ensures ok <==> MessageBytes(fs, msg).Some?
    ensures ok ==> size == |MessageBytes(fs, msg).value|
  {
    var stream := new OStream.Sizing();
    ok := Encode(stream, fs, msg);
    size := stream.bytesWritten;
  }

  /** Encoding to a buffer succeeds exactly when the size a counting pass finds fits it, and then writes those
      bytes and no others. */
  method EncodeToBuffer(buf: array<byte>, fs: seq<Field>, msg: Message) returns (ok: bool, written: nat)
    requires Typed(fs, msg) && MessageLengths(fs, msg, TWO_TO_THE_64)
    modifies buf
    ensures ok <==> MessageBytes(fs, msg).Some? && |MessageBytes(fs, msg).value| <= buf.Length
    ensures ok ==> written <= buf.Length && buf[..written] == MessageBytes(fs, msg).value
  {
    var stream := new OStream.FromBuffer(buf, buf.Length);
    ok := Encode(stream, fs, msg);
    written := stream.bytesWritten;
    assert ok ==> stream.Now().mem[0..stream.state] == MessageBytes(fs, msg).value;
  }

  /** pb_encode_nullterminated. */
  method EncodeNullTerminated(stream: OStream, fs: seq<Field>, msg: Message) returns (ok: bool)
    requires stream.Valid() && Typed(fs, msg) && MessageLengths(fs, msg, TWO_TO_THE_64)
    modifies stream, stream.dest
    ensures Encoded(old(stream.Now()), stream.Now(), ok, Concat(MessageBytes(fs, msg), Some([0])))
  {
    ghost var before := stream.Now();
    ok := Encode(stream, fs, msg);
    if !ok {
      return;
    }
    ghost var between := stream.Now();
    ok := stream.Write([0]);
    EncodedThen(before, between, stream.Now(), MessageBytes(fs, msg).value, ok, Some([0]));
  }
}

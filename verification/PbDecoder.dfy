/** The decoder of nanopb as it runs: a stream with substreams, an iterator that finds fields by tag, and a bit set
    of the required fields seen. Every method computes what the functions of PbDecode say. */
module PbDecoder {
  import opened Bytes
  import opened Varint
  import opened PbMessages
  import opened PbCommon
  import opened PbEncode
  import opened PbInput
  import opened PbDecode
  import opened PbRequired

  // ---------- Substreams ----------

  lemma PrefixedParts(s: seq<byte>, ok: bool, size: nat, data: seq<byte>, state: nat, end: nat)
    requires state <= end <= |data| && ok == DecodeVarint32(s).Ok?
    requires ok ==> DecodeVarint32(s) == Ok(size, data[state..end])
    ensures DecodePrefixed(s) ==
            if ok && state + size <= end then Ok(data[state..state + size], data[state + size..end]) else Fail
  {
    if ok && state + size <= end {
      assert data[state..end][..size] == data[state..state + size];
      assert data[state..end][size..] == data[state + size..end];
    }
  }

  /** pb_make_string_substream: the parent gives up the bytes but stays where the substream starts. */
  method MakeSubstream(stream: IStream) returns (ok: bool, substream: IStream)
    requires stream.Valid()
    modifies stream
    ensures stream.Valid() && substream.Valid() && fresh(substream) && substream.data == stream.data
    ensures ok ==> substream.End() + stream.bytesLeft == old(stream.End())
    ensures DecodePrefixed(old(stream.Rest())) ==
            if ok then Ok(substream.Rest(), stream.data[substream.End()..old(stream.End())]) else Fail
  {
    var got, size, _ := stream.ReadVarint32();
    PrefixedParts(old(stream.Rest()), got, size, stream.data, stream.state, stream.End());
    if !got || stream.bytesLeft < size {
      substream := new IStream.Limited(stream, 0);
      return false, substream;
    }
    substream := new IStream.Limited(stream, size);
    stream.bytesLeft := stream.bytesLeft - size;
    ok := true;
  }

  /** pb_close_string_substream: what was not read is passed over, and the parent goes on behind it. */
  method CloseSubstream(stream: IStream, substream: IStream)
    requires stream != substream && substream.data == stream.data
    requires substream.Valid() && substream.End() + stream.bytesLeft <= |stream.data|
    modifies stream, substream
    ensures stream.Valid() && stream.bytesLeft == old(stream.bytesLeft)
    ensures stream.state == old(substream.End())
  {
    if substream.bytesLeft != 0 {
      var _, _ := substream.Read(substream.bytesLeft);
    }
    stream.state := substream.state;
  }

  // ---------- Values ----------

  predicate Outcome<T(==)>(r: Parse<T>, ok: bool, v: T, rest: seq<byte>) {
    r == if ok then Ok(v, rest) else Fail
  }

  /** A value of any integer, stored in a field of `size` bytes. */
  function Clamped(signed: bool, i: int, size: nat): int {
    if IntLimit(size) == 0 then i
    else if signed then AsSigned(i, IntLimit(size) / 2) else i % IntLimit(size)
  }

  lemma ClampedSignedFits(i: int, size: nat)
    requires IntLimit(size) != 0
    ensures Clamped(true, i, size) == i <==> FitsSigned(i, size)
  {
  }

  lemma ClampedUnsignedFits(i: int, size: nat)
    requires IntLimit(size) != 0
    ensures Clamped(false, i, size) == i <==> FitsUnsigned(i, size)
  {
  }

  lemma ClampedFits(signed: bool, i: int, size: nat)
    requires IntLimit(size) != 0
    ensures Clamped(signed, i, size) == i <==> if signed then FitsSigned(i, size) else FitsUnsigned(i, size)
  {
    ClampedSignedFits(i, size);
    ClampedUnsignedFits(i, size);
  }

  lemma IntegerOutcome(f: Field, s: seq<byte>, got: bool, w: nat, rest: seq<byte>, i: int)
    requires Outcome(DecodeVarint(s), got, w, rest) && (got ==> i == FromWord(f, w))
    ensures DecodeInteger(f, s) ==
            if got && IntLimit(f.dataSize) != 0 && Clamped(!f.ltype.Unsigned?, i, f.dataSize) == i
            then Ok(Int(i), rest) else Fail
  {
    if IntLimit(f.dataSize) != 0 {
      ClampedFits(!f.ltype.Unsigned?, i, f.dataSize);
    }
  }

  /** pb_dec_varint, pb_dec_uvarint and pb_dec_svarint: the value must survive the cast to the field's type. */
  method DecodeIntegerField(stream: IStream, f: Field) returns (ok: bool, v: Value)
    requires stream.Valid() && (f.ltype.Signed? || f.ltype.Unsigned? || f.ltype.ZigZagged?)
    modifies stream
    ensures stream.Valid() && (ok ==> stream.End() == old(stream.End()))
    ensures Outcome(DecodeInteger(f, old(stream.Rest())), ok, v, stream.Rest())
  {
    v := Int(0);
    var got, word := stream.ReadVarint();
    var value: int := word;
    if f.ltype.Signed? {
      value := if f.dataSize == 8 then AsSigned(word, TWO_TO_THE_63) else AsSigned(word, TWO_TO_THE_31);
    } else if f.ltype.ZigZagged? {
      value := if value % 2 == 1 then -(value / 2) - 1 else value / 2;
    }
    IntegerOutcome(f, old(stream.Rest()), got, word, stream.Rest(), value);
    if !got || IntLimit(f.dataSize) == 0 {
      return false, v;
    }
    var clamped := Clamped(!f.ltype.Unsigned?, value, f.dataSize);
    if clamped != value {
      return false, v;
    }
    ok, v := true, Int(value);
  }

  /** pb_decode_fixed32 and pb_decode_fixed64. */
  method DecodeFixedField(stream: IStream, n: nat) returns (ok: bool, v: Value)
    requires stream.Valid()
    modifies stream
    ensures stream.Valid() && (ok ==> stream.End() == old(stream.End()))
    ensures Outcome(DecodeFixed(n, old(stream.Rest())), ok, v, stream.Rest())
  {
    v := Int(0);
    var bytes;
    ok, bytes := stream.Read(n);
    if !ok {
      return;
    }
    var value: nat := 0;
    for i := n downto 0
      invariant value == FromFixed(bytes[i..])
    {
      value := bytes[i] + 256 * value;
      assert bytes[i..][1..] == bytes[i + 1..];
    }
    assert bytes[0..] == bytes && old(stream.Rest())[..n] == bytes && old(stream.Rest())[n..] == stream.Rest();
    v := Int(value);
  }

  /** The terminator that the decoder adds changes nothing about the string. */
  lemma {:induction false} StringEnds(s: seq<byte>)
    ensures UpToNul(s + [0]) == UpToNul(s)
  {
    if s != [] {
      assert (s + [0])[1..] == s[1..] + [0];
      StringEnds(s[1..]);
    }
  }

  lemma BlobOutcome(f: Field, s: seq<byte>, got: bool, size: nat, rest: seq<byte>)
    requires Outcome(DecodeVarint32(s), got, size, rest)
    ensures !got ==> DecodeBlob(f, s) == Fail
    ensures got && f.ltype.FixedLengthBytes? && size == 0 ==> DecodeBlob(f, s) == Ok(Blob(Zeros(f.dataSize)), rest)
    ensures got && f.ltype.FixedLengthBytes? && size != 0 ==>
              DecodeBlob(f, s) ==
              if size == f.dataSize && size <= |rest| then Ok(Blob(rest[..size]), rest[size..]) else Fail
    ensures got && f.ltype.BytesField? ==>
              DecodeBlob(f, s) ==
              if size + BYTES_OFFSET <= f.dataSize && size <= |rest| then Ok(Blob(rest[..size]), rest[size..]) else Fail
    ensures got && f.ltype.StringField? ==>
              DecodeBlob(f, s) ==
              if size + 1 <= f.dataSize && size <= |rest| then Ok(Blob(UpToNul(rest[..size])), rest[size..]) else Fail
  {
  }

  /** pb_dec_bytes. */
  method DecodeBytesField(stream: IStream, f: Field) returns (ok: bool, v: Value)
    requires stream.Valid() && f.ltype.BytesField?
    modifies stream
    ensures stream.Valid() && (ok ==> stream.End() == old(stream.End()))
    ensures Outcome(DecodeBlob(f, old(stream.Rest())), ok, v, stream.Rest())
  {
    v := Blob([]);
    var got, size, _ := stream.ReadVarint32();
    ghost var rest := stream.Rest();
    BlobOutcome(f, old(stream.Rest()), got, size, rest);
    if !got {
      return false, v;
    }
    var allocSize := size + BYTES_OFFSET;
    if allocSize > f.dataSize {
      return false, v;
    }
    var bytes;
    ok, bytes := stream.Read(size);
    assert ok ==> rest[..size] == bytes && rest[size..] == stream.Rest();
    v := Blob(bytes);
  }

  /** pb_dec_string: room for the terminator is computed in a 32-bit word. */
  method DecodeStringField(stream: IStream, f: Field) returns (ok: bool, v: Value)
    requires stream.Valid() && f.ltype.StringField?
    modifies stream
    ensures stream.Valid() && (ok ==> stream.End() == old(stream.End()))
    ensures Outcome(DecodeBlob(f, old(stream.Rest())), ok, v, stream.Rest())
  {
    v := Blob([]);
    var got, size, _ := stream.ReadVarint32();
    ghost var rest := stream.Rest();
    BlobOutcome(f, old(stream.Rest()), got, size, rest);
    if !got {
      return false, v;
    }
    var allocSize := if size + 1 == TWO_TO_THE_32 then 0 else size + 1;
    if allocSize < size || allocSize > f.dataSize {
      return false, v;
    }
    var bytes;
    ok, bytes := stream.Read(size);
    assert ok ==> rest[..size] == bytes && rest[size..] == stream.Rest();
    StringEnds(bytes);
    v := Blob(UpToNul(bytes + [0]));
  }

  /** pb_dec_fixed_length_bytes: no bytes at all stand for zeros. */
  method DecodeFixedLengthField(stream: IStream, f: Field) returns (ok: bool, v: Value)
    requires stream.Valid() && f.ltype.FixedLengthBytes?
    modifies stream
    ensures stream.Valid() && (ok ==> stream.End() == old(stream.End()))
    ensures Outcome(DecodeBlob(f, old(stream.Rest())), ok, v, stream.Rest())
  {
    v := Blob([]);
    var got, size, _ := stream.ReadVarint32();
    ghost var rest := stream.Rest();
    BlobOutcome(f, old(stream.Rest()), got, size, rest);
    if !got {
      return false, v;
    }
    if size == 0 {
      return true, Blob(Zeros(f.dataSize));
    }
    if size != f.dataSize {
      return false, v;
    }
    var bytes;
    ok, bytes := stream.Read(size);
    assert ok ==> rest[..size] == bytes && rest[size..] == stream.Rest();
    v := Blob(bytes);
  }

  // ---------- Fields ----------

  /** pb_skip_field. */
  method SkipUnknown(stream: IStream, wireType: nat) returns (ok: bool)
    requires stream.Valid()
    modifies stream
    ensures stream.Valid() && (ok ==> stream.End() == old(stream.End()))
    ensures ok <==> SkipField(wireType, old(stream.Rest())).Ok?
    ensures ok ==> SkipField(wireType, old(stream.Rest())).rest == stream.Rest()
  {
    if wireType == WT_VARINT {
      ok := SkipVarint(stream);
    } else if wireType == WT_64BIT {
      ok := Skip(stream, 8);
    } else if wireType == WT_STRING {
      var got, size, _ := stream.ReadVarint32();
      if !got {
        return false;
      }
      ok := Skip(stream, size);
    } else if wireType == WT_32BIT {
      ok := Skip(stream, 4);
    } else {
      ok := false;
    }
  }

  /** pb_read without a buffer. */
  method Skip(stream: IStream, count: nat) returns (ok: bool)
    requires stream.Valid()
    modifies stream
    ensures stream.Valid() && (ok ==> stream.End() == old(stream.End()))
    ensures ok <==> Take(count, old(stream.Rest())).Ok?
    ensures ok ==> Take(count, old(stream.Rest())).rest == stream.Rest()
  {
    var bytes;
    ok, bytes := stream.Read(count);
    if ok {
      assert old(stream.Rest())[count..] == stream.Rest();
    }
  }

  predicate SkippedVarint(s: seq<byte>, ok: bool, rest: seq<byte>) {
    var n := VarintSize(s);
    ok == n.Some? && (ok ==> rest == s[n.value..])
  }

  predicate AllContinue(s: seq<byte>) {
    forall i :: 0 <= i < |s| ==> s[i] >= 128
  }

  /** The bytes `read`, all with continuation bits, have been passed over. */
  predicate Passing(s: seq<byte>, read: seq<byte>, rest: seq<byte>) {
    s == read + rest && AllContinue(read)
  }

  lemma OneByteOn(s: seq<byte>, read: seq<byte>, before: seq<byte>, b: byte, rest: seq<byte>)
    requires Passing(s, read, before) && before == [b] + rest
    ensures if b < 128 then SkippedVarint(s, true, rest) else Passing(s, read + [b], rest)
  {
    if b < 128 {
      FinishVarint(read, b, rest);
    } else {
      assert read + ([b] + rest) == (read + [b]) + rest;
    }
  }

  lemma NothingToSkip(s: seq<byte>, read: seq<byte>, before: seq<byte>)
    requires Passing(s, read, before) && before == []
    ensures SkippedVarint(s, false, before)
  {
    SizeAfterContinuation(read, before);
  }

  /** pb_skip_varint. */
  method SkipVarint(stream: IStream) returns (ok: bool)
    requires stream.Valid()
    modifies stream
    ensures stream.Valid() && (ok ==> stream.End() == old(stream.End()))
    ensures SkippedVarint(old(stream.Rest()), ok, stream.Rest())
  {
    ghost var start, read := stream.Rest(), [];
    while true
      invariant stream.Valid() && Passing(start, read, stream.Rest()) && stream.End() == old(stream.End())
      decreases stream.bytesLeft
    {
      ghost var before := stream.Rest();
      var got, bytes := stream.Read(1);
      if !got {
        NothingToSkip(start, read, before);
        return false;
      }
      var b := bytes[0];
      OneByteOn(start, read, before, b, stream.Rest());
      if b < 128 {
        return true;
      }
      read := read + [b];
    }
  }

  // ---------- Messages ----------

  /** The field decoders. */
  method DecodeOne(stream: IStream, f: Field, start: Message) returns (ok: bool, v: Value)
    requires stream.Valid() && |start| == |f.sub| && WellFormed(f.sub)
    requires f.htype.Repeated? ==> start == Defaults(f.sub)
    modifies stream
    ensures stream.Valid() && (ok ==> stream.End() == old(stream.End()))
    ensures Outcome(DecodeValue(f, start, old(stream.Rest())), ok, v, stream.Rest())
    decreases f, 0
  {
    match f.ltype
    case Signed => ok, v := DecodeIntegerField(stream, f);
    case Unsigned => ok, v := DecodeIntegerField(stream, f);
    case ZigZagged => ok, v := DecodeIntegerField(stream, f);
    case Fixed32 => ok, v := DecodeFixedField(stream, 4);
    case Fixed64 => ok, v := DecodeFixedField(stream, 8);
    case BytesField => ok, v := DecodeBytesField(stream, f);
    case StringField => ok, v := DecodeStringField(stream, f);
    case FixedLengthBytes => ok, v := DecodeFixedLengthField(stream, f);
    case Submessage => ok, v := DecodeSubmessage(stream, f, start);
  }

  /** pb_dec_submessage. */
  method DecodeSubmessage(stream: IStream, f: Field, start: Message) returns (ok: bool, v: Value)
    requires stream.Valid() && f.ltype.Submessage? && |start| == |f.sub| && WellFormed(f.sub)
    requires f.htype.Repeated? ==> start == Defaults(f.sub)
    modifies stream
    ensures stream.Valid() && (ok ==> stream.End() == old(stream.End()))
    ensures Outcome(DecodeValue(f, start, old(stream.Rest())), ok, v, stream.Rest())
    decreases f, 0, 0
  {
    v := Msg(start);
    var made, substream := MakeSubstream(stream);
    ghost var payload := substream.Rest();
    ghost var rest := if made then stream.data[substream.End()..old(stream.End())] else [];
    SubmessageOutcome(f, old(stream.Rest()), start, made, payload, rest, DecodeFields(f.sub, payload, start, {}));
    if !made {
      return false, v;
    }
    var msg := if f.htype.Repeated? then Defaults(f.sub) else start;
    ok, msg := DecodeNoInit(substream, f.sub, msg);
    if ok {
      CloseSubstream(stream, substream);
    }
    v := Msg(msg);
  }

  lemma SubmessageOutcome(f: Field, s: seq<byte>, start: Message, made: bool, payload: seq<byte>, rest: seq<byte>,
                          m: Parse<Message>)
    requires f.ltype.Submessage? && |start| == |f.sub| && m == DecodeFields(f.sub, payload, start, {})
    requires DecodePrefixed(s) == if made then Ok(payload, rest) else Fail
    ensures DecodeValue(f, start, s) == if made && m.Ok? then Ok(Msg(m.value), rest) else Fail
  {
    SubmessageValue(f, s, start, if made then Ok(payload, rest) else Fail);
  }

  lemma SubmessageValue(f: Field, s: seq<byte>, start: Message, b: Parse<seq<byte>>)
    requires f.ltype.Submessage? && |start| == |f.sub| && b == DecodePrefixed(s)
    ensures b.Fail? ==> DecodeValue(f, start, s) == Fail
    ensures b.Ok? ==>
              var m := DecodeFields(f.sub, b.value, start, {});
              DecodeValue(f, start, s) == if m.Ok? then Ok(Msg(m.value), b.rest) else Fail
  {
  }

  /** The loop over a packed payload. */
  method DecodePackedElements(substream: IStream, f: Field, slot: Slot) returns (ok: bool, vs: Slot)
    requires substream.Valid() && Packable(f.ltype) && f.htype.Repeated? && WellFormed(f.sub)
    modifies substream
    ensures substream.Valid() && (ok ==> substream.bytesLeft == 0 && substream.End() == old(substream.End()))
    ensures DecodePacked(f, old(substream.Rest()), slot) == if ok then Some(vs) else None
    decreases f, 1
  {
    vs := slot;
    while substream.bytesLeft > 0 && |vs| < f.arraySize
      invariant substream.Valid() && substream.End() == old(substream.End())
      invariant DecodePacked(f, old(substream.Rest()), slot) == DecodePacked(f, substream.Rest(), vs)
      decreases substream.bytesLeft
    {
      var v;
      ok, v := DecodeOne(substream, f, Defaults(f.sub));
      if !ok {
        return;
      }
      vs := vs + [v];
    }
    ok := substream.bytesLeft == 0;
  }

  lemma PackedOutcome(f: Field, s: seq<byte>, slot: Slot, made: bool, payload: seq<byte>, rest: seq<byte>, ok: bool,
                      vs: Slot)
    requires f.htype.Repeated? && Packable(f.ltype)
    requires DecodePrefixed(s) == if made then Ok(payload, rest) else Fail
    requires made ==> DecodePacked(f, payload, slot) == if ok then Some(vs) else None
    ensures DecodeSlot(f, WT_STRING, s, slot) == if made && ok then Ok(vs, rest) else Fail
  {
  }

  /** The packed case of decode_static_field. */
  method DecodePackedField(stream: IStream, f: Field, slot: Slot) returns (ok: bool, vs: Slot)
    requires stream.Valid() && Packable(f.ltype) && f.htype.Repeated? && WellFormed(f.sub)
    modifies stream
    ensures stream.Valid() && (ok ==> stream.End() == old(stream.End()))
    ensures Outcome(DecodeSlot(f, WT_STRING, old(stream.Rest()), slot), ok, vs, stream.Rest())
    decreases f, 2
  {
    vs := slot;
    var made, substream := MakeSubstream(stream);
    ghost var payload := substream.Rest();
    ghost var rest := if made then stream.data[substream.End()..old(stream.End())] else [];
    if !made {
      PackedOutcome(f, old(stream.Rest()), slot, made, payload, rest, false, vs);
      return false, vs;
    }
    ok, vs := DecodePackedElements(substream, f, slot);
    PackedOutcome(f, old(stream.Rest()), slot, made, payload, rest, ok, vs);
    if ok {
      CloseSubstream(stream, substream);
    }
  }

  /** decode_static_field: where the value of one occurrence goes. */
  method DecodeField(stream: IStream, f: Field, wireType: nat, slot: Slot) returns (ok: bool, r: Slot)
    requires stream.Valid() && WellFormed(f.sub)
    modifies stream
    ensures stream.Valid() && (ok ==> stream.End() == old(stream.End()))
    ensures Outcome(DecodeSlot(f, wireType, old(stream.Rest()), slot), ok, r, stream.Rest())
    decreases f, 3
  {
    r := slot;
    if f.htype.Repeated? {
      if wireType == WT_STRING && Packable(f.ltype) {
        ok, r := DecodePackedField(stream, f, slot);
        return;
      }
      if |slot| >= f.arraySize {
        return false, r;
      }
    }
    var v;
    ok, v := DecodeOne(stream, f, StartMessage(f, slot));
    r := if f.htype.Repeated? then slot + [v] else [v];
  }

  lemma KnownField(fs: seq<Field>, s: seq<byte>, h: FieldHeader, k: nat, msg: Message, seen: set<nat>, ok: bool,
                   slot: Slot, rest: seq<byte>)
    requires |msg| == |fs| && s != [] && DecodeTag(s) == h && h.Header? && FindTag(fs, h.tag) == Some(k)
    requires Outcome(DecodeSlot(fs[k], h.wireType, h.rest, msg[k]), ok, slot, rest)
    ensures DecodeFields(fs, s, msg, seen) ==
            if ok then DecodeFields(fs, rest, Store(fs, msg, k, slot), seen + {k}) else Fail
  {
  }

  lemma UnknownField(fs: seq<Field>, s: seq<byte>, h: FieldHeader, msg: Message, seen: set<nat>, ok: bool,
                     rest: seq<byte>)
    requires |msg| == |fs| && s != [] && DecodeTag(s) == h && h.Header? && FindTag(fs, h.tag) == None
    requires fs != [] || h.tag != 0
    requires SkipField(h.wireType, h.rest).Ok? == ok && (ok ==> SkipField(h.wireType, h.rest).rest == rest)
    ensures DecodeFields(fs, s, msg, seen) == if ok then DecodeFields(fs, rest, msg, seen) else Fail
  {
  }

  /** pb_decode_tag, on a stream that is not at its end. */
  method ReadTag(stream: IStream) returns (ok: bool, wireType: nat, tag: nat, eof: bool)
    requires stream.Valid() && stream.bytesLeft > 0
    modifies stream
    ensures stream.Valid() && (ok || eof ==> stream.End() == old(stream.End()))
    ensures DecodeTag(old(stream.Rest())) ==
            if ok then Header(wireType, tag, stream.Rest()) else if eof then End(stream.Rest()) else Malformed
  {
    var temp;
    ok, temp, eof := stream.ReadVarint32();
    if !ok {
      return false, 0, 0, eof;
    }
    if temp == 0 {
      return false, 0, 0, true;
    }
    wireType, tag := temp % 8, temp / 8;
  }

  /** How many required fields there are, by running the iterator to the end of the descriptor. */
  method CountRequired(iter: FieldIter) returns (count: nat)
    requires iter.Valid()
    modifies iter
    ensures iter.Valid() && count == RequiredBefore(iter.fields, |iter.fields|)
  {
    if |iter.fields| == 0 {
      return iter.requiredFieldIndex;
    }
    var more := true;
    var lastRequired := false;
    count := 0;
    while more
      invariant iter.Valid()
      invariant !more ==> count == RequiredBefore(iter.fields, |iter.fields| - 1)
      invariant !more ==> lastRequired == iter.fields[|iter.fields| - 1].htype.Required?
      decreases more, |iter.fields| - iter.pos
    {
      count := iter.requiredFieldIndex;
      lastRequired := iter.fields[iter.pos].htype.Required?;
      more := iter.Next();
    }
    if lastRequired {
      count := count + 1;
    }
  }

  /** The iterator's search, wherever it starts, finds what a search from the front finds. */
  method FindField(iter: FieldIter, tag: nat) returns (found: bool)
    requires iter.Valid() && WellFormed(iter.fields)
    modifies iter
    ensures iter.Valid()
    ensures found <==> FindTag(iter.fields, tag).Some? || (iter.fields == [] && tag == 0)
    ensures found && iter.fields != [] ==>
              && iter.pos < |iter.fields| && iter.fields[iter.pos].tag == tag
              && FindTag(iter.fields, tag) == Some(iter.pos)
  {
    found := iter.Find(tag);
  }

  /** A field the iterator has found, whose tag has been read from `s`. */
  method DecodeKnown(stream: IStream, fs: seq<Field>, iter: FieldIter, fieldsSeen: array<nat>, wireType: nat,
                     msg: Message,
                     ghost s: seq<byte>, ghost seen: set<nat>)
    returns (ok: bool, next: Message)
    requires stream.Valid() && |msg| == |fs| && WellFormed(fs)
    requires iter.Valid() && iter.fields == fs && iter.pos < |fs| && FindTag(fs, fs[iter.pos].tag) == Some(iter.pos)
    requires fieldsSeen.Length == 2 && Records(fieldsSeen[..], fs, seen)
    requires s != [] && DecodeTag(s) == Header(wireType, fs[iter.pos].tag, stream.Rest())
    modifies stream, fieldsSeen
    ensures stream.Valid() && (ok ==> stream.End() == old(stream.End()) && stream.bytesLeft <= old(stream.bytesLeft))
    ensures |next| == |fs| && Records(fieldsSeen[..], fs, seen + {iter.pos})
    ensures DecodeFields(fs, s, msg, seen) ==
            if ok then DecodeFields(fs, stream.Rest(), next, seen + {iter.pos}) else Fail
    decreases fs, 4
  {
    var k, slot := iter.pos, [];
    MarkRequired(fieldsSeen, iter, seen);
    ok, slot := DecodeField(stream, fs[k], wireType, msg[k]);
    KnownField(fs, s, DecodeTag(s), k, msg, seen, ok, slot, stream.Rest());
    next := Store(fs, msg, k, slot);
  }

  /** The rest of a round in pb_decode_noinit, for the tag that has been read from `s`. */
  method DecodeTagged(stream: IStream, fs: seq<Field>, iter: FieldIter, fieldsSeen: array<nat>, wireType: nat, tag: nat,
                      msg: Message, ghost s: seq<byte>, ghost seen: set<nat>)
    returns (ok: bool, next: Message, ghost marked: set<nat>)
    requires stream.Valid() && |msg| == |fs| && WellFormed(fs) && iter.Valid() && iter.fields == fs
    requires fieldsSeen.Length == 2 && Records(fieldsSeen[..], fs, seen)
    requires s != [] && DecodeTag(s) == Header(wireType, tag, stream.Rest())
    modifies stream, iter, fieldsSeen
    ensures stream.Valid() && (ok ==> stream.End() == old(stream.End()) && stream.bytesLeft <= old(stream.bytesLeft))
    ensures iter.Valid() && |next| == |fs| && (ok ==> Records(fieldsSeen[..], fs, marked))
    ensures DecodeFields(fs, s, msg, seen) == if ok then DecodeFields(fs, stream.Rest(), next, marked) else Fail
    decreases fs, 5
  {
    next, marked := msg, seen;
    ghost var h := DecodeTag(s);
    var found := FindField(iter, tag);
    if !found {
      ok := SkipUnknown(stream, wireType);
      UnknownField(fs, s, h, msg, seen, ok, stream.Rest());
      return;
    }
    if |fs| == 0 {
      // The terminator is taken for a required integer of no size.
      var _, _ := stream.ReadVarint();
      return false, msg, seen;
    }
    marked := seen + {iter.pos};
    ok, next := DecodeKnown(stream, fs, iter, fieldsSeen, wireType, msg, s, seen);
  }

  /** pb_decode_noinit. */
  method DecodeNoInit(stream: IStream, fs: seq<Field>, dest: Message) returns (ok: bool, msg: Message)
    requires stream.Valid() && |dest| == |fs| && WellFormed(fs)
    modifies stream
    ensures stream.Valid() && (ok ==> stream.End() == old(stream.End()))
    ensures Outcome(DecodeFields(fs, old(stream.Rest()), dest, {}), ok, msg, stream.Rest())
    decreases fs, 6
  {
    var fieldsSeen := new nat[2](_ => 0);
    var iter := new FieldIter(fs, 0);
    ghost var seen: set<nat> := {};
    ghost var whole := DecodeFields(fs, stream.Rest(), dest, {});
    RecordsNothing(fieldsSeen[..], fs);
    msg := dest;
    var ended := false;
    while !ended && stream.bytesLeft > 0
      invariant stream.Valid() && stream.End() == old(stream.End()) && iter.Valid() && iter.fields == fs
      invariant |msg| == |fs| && Records(fieldsSeen[..], fs, seen)
      invariant whole == if ended then Finish(fs, stream.Rest(), msg, seen)
                         else DecodeFields(fs, stream.Rest(), msg, seen)
      decreases !ended, stream.bytesLeft
    {
      ghost var s := stream.Rest();
      var got, wireType, tag, eof := ReadTag(stream);
      if !got {
        if !eof {
          return false, msg;
        }
        ended := true;
        continue;
      }
      ok, msg, seen := DecodeTagged(stream, fs, iter, fieldsSeen, wireType, tag, msg, s, seen);
      if !ok {
        return;
      }
    }
    var count := CountRequired(iter);
    ok := CheckRequired(fieldsSeen, count, fs, seen);
  }

  /** Sets the bit of a required field, if it is among the first 64. */
  method MarkRequired(fieldsSeen: array<nat>, iter: FieldIter, ghost seen: set<nat>)
    requires fieldsSeen.Length == 2 && iter.Valid() && iter.pos < |iter.fields|
    requires Records(fieldsSeen[..], iter.fields, seen)
    modifies fieldsSeen
    ensures Records(fieldsSeen[..], iter.fields, seen + {iter.pos})
  {
    if iter.fields[iter.pos].htype.Required? && iter.requiredFieldIndex < MAX_REQUIRED_FIELDS {
      var w, i := iter.requiredFieldIndex / 32, iter.requiredFieldIndex % 32;
      ghost var before := fieldsSeen[..];
      fieldsSeen[w] := BitOr(fieldsSeen[w], Scale(1, i));
      RecordsOneMore(before, iter.fields, seen, iter.pos, w, i, fieldsSeen[..]);
    } else {
      RecordsUnmarked(fieldsSeen[..], iter.fields, seen, iter.pos);
    }
  }

  /** pb_field_set_to_default: required and singular fields get a value, submessages their own defaults; what can be
      absent is made so. */
  method SetFieldToDefault(f: Field) returns (slot: Slot)
    ensures slot == DefaultSlot(f)
    decreases f, 1
  {
    if !f.htype.Required? && !f.htype.Singular? {
      return [];
    }
    if f.ltype.Submessage? {
      var sub := SetToDefaults(f.sub);
      return [Msg(sub)];
    }
    return [f.dflt];
  }

  /** pb_message_set_to_defaults walks all fields with the iterator. */
  method SetToDefaults(fs: seq<Field>) returns (msg: Message)
    ensures msg == Defaults(fs)
    decreases fs, 0
  {
    var iter := new FieldIter(fs, 0);
    msg := [];
    if |fs| == 0 {
      return;
    }
    while true
      invariant iter.Valid() && iter.fields == fs && fresh(iter) && |msg| == iter.pos
      invariant forall k :: 0 <= k < |msg| ==> msg[k] == DefaultSlot(fs[k])
      decreases |fs| - iter.pos
    {
      var slot := SetFieldToDefault(fs[iter.pos]);
      msg := msg + [slot];
      var more := iter.Next();
      if !more {
        break;
      }
    }
    forall k | 0 <= k < |fs|
      ensures msg[k] == Defaults(fs)[k]
    {
      DefaultsAt(fs, k);
    }
  }

  /** pb_decode: the message is cleared first. */
  method Decode(stream: IStream, fs: seq<Field>) returns (ok: bool, msg: Message)
    requires stream.Valid() && WellFormed(fs)
    modifies stream
    ensures stream.Valid() && (ok ==> stream.End() == old(stream.End()))
    ensures Outcome(DecodeMessage(fs, old(stream.Rest())), ok, msg, stream.Rest())
  {
    var cleared := SetToDefaults(fs);
    ok, msg := DecodeNoInit(stream, fs, cleared);
  }

  lemma DelimitedOutcome(fs: seq<Field>, s: seq<byte>, b: Parse<seq<byte>>)
    requires b == DecodePrefixed(s)
    ensures b.Fail? ==> DecodeDelimited(fs, s) == Fail
    ensures b.Ok? ==>
              var m := DecodeMessage(fs, b.value);
              DecodeDelimited(fs, s) == if m.Ok? then Ok(m.value, b.rest) else Fail
  {
  }

  /** pb_decode_delimited: the message from a substream of the announced length. */
  method DecodeDelimitedFrom(stream: IStream, fs: seq<Field>) returns (ok: bool, msg: Message)
    requires stream.Valid() && WellFormed(fs)
    modifies stream
    ensures stream.Valid() && (ok ==> stream.End() == old(stream.End()))
    ensures Outcome(DecodeDelimited(fs, old(stream.Rest())), ok, msg, stream.Rest())
  {
    var made, substream := MakeSubstream(stream);
    ghost var payload := substream.Rest();
    ghost var rest := if made then stream.data[substream.End()..old(stream.End())] else [];
    DelimitedOutcome(fs, old(stream.Rest()), if made then Ok(payload, rest) else Fail);
    if !made {
      return false, [];
    }
    ok, msg := Decode(substream, fs);
    if ok {
      CloseSubstream(stream, substream);
      assert stream.Rest() == rest;
    }
  }
}

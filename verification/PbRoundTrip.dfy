/** Decoding what was encoded, by a receiver that may know fewer fields. */
module PbRoundTrip {
  import opened Bytes
  import opened Varint
  import opened PbMessages
  import opened PbEncode
  import opened PbDecode

  // ---------- Descriptors that drop fields ----------

  /** `g` describes the same field as `f`, wherever its data lives; a submessage may have lost fields. */
  predicate Matches(f: Field, g: Field)
    decreases f, 0
  {
    && g.tag == f.tag && g.ltype == f.ltype && g.htype == f.htype && g.arraySize == f.arraySize
    && (f.ltype.Submessage? || (g.dataSize == f.dataSize && g.dflt == f.dflt))
    && (f.ltype.Submessage? ==> Drops(f.sub, g.sub))
  }

  predicate Kept(f: Field, gs: seq<Field>) {
    gs != [] && gs[0].tag == f.tag
  }

  /** `gs` is `fs` without some of its fields, at any depth. */
  predicate Drops(fs: seq<Field>, gs: seq<Field>)
    decreases fs, 1
  {
    if fs == [] then gs == []
    else if Kept(fs[0], gs) then Matches(fs[0], gs[0]) && Drops(fs[1..], gs[1..])
    else Drops(fs[1..], gs)
  }

  function ProjectValue(f: Field, g: Field, v: Value): Value
    requires ValueTyped(f, v) && Matches(f, g)
    decreases f, 0
  {
    if f.ltype.Submessage? then
      assert Typed(f.sub, v.slots) && Drops(f.sub, g.sub);
      Msg(Project(f.sub, g.sub, v.slots))
    else v
  }

  function ProjectSlot(f: Field, g: Field, slot: Slot): (r: Slot)
    requires (forall k :: 0 <= k < |slot| ==> ValueTyped(f, slot[k])) && Matches(f, g)
    ensures |r| == |slot|
    ensures forall k :: 0 <= k < |slot| ==> r[k] == ProjectValue(f, g, slot[k])
    decreases f, 1, |slot|
  {
    if slot == [] then [] else [ProjectValue(f, g, slot[0])] + ProjectSlot(f, g, slot[1..])
  }

  /** The message as the receiver's descriptor sees it. */
  function Project(fs: seq<Field>, gs: seq<Field>, msg: Message): (r: Message)
    requires |msg| == |fs| && (forall k :: 0 <= k < |fs| ==> SlotTyped(fs[k], msg[k])) && Drops(fs, gs)
    ensures |r| == |gs|
    decreases fs, 2
  {
    if fs == [] then []
    else if Kept(fs[0], gs) then
      assert SlotTyped(fs[0], msg[0]);
      [ProjectSlot(fs[0], gs[0], msg[0])] + Project(fs[1..], gs[1..], msg[1..])
    else Project(fs[1..], gs, msg[1..])
  }

  // ---------- Scalars ----------

  lemma SignedWord(i: int, size: nat)
    requires IntLimit(size) != 0 && FitsSigned(i, size)
    ensures AsWord(i) < TWO_TO_THE_64
    ensures size == 8 ==> AsSigned(AsWord(i), TWO_TO_THE_63) == i
    ensures size != 8 ==> AsSigned(AsWord(i), TWO_TO_THE_31) == i
  {
  }

  /** A word that comes back is read as the integer it stands for, if that fits the field. */
  lemma WordIsRead(f: Field, w: nat, i: int, rest: seq<byte>)
    requires w < TWO_TO_THE_64 && FromWord(f, w) == i
    requires if f.ltype.Unsigned? then FitsUnsigned(i, f.dataSize) else FitsSigned(i, f.dataSize)
    ensures DecodeInteger(f, VarintBytes(w) + rest) == Ok(Int(i), rest)
  {
    VarintRoundTrip(w, rest);
  }

  lemma IntegerRoundTrip(f: Field, v: Value, rest: seq<byte>)
    requires ValueTyped(f, v) && ValueBytes(f, v).Some? && (f.ltype.Signed? || f.ltype.Unsigned? || f.ltype.ZigZagged?)
    ensures DecodeInteger(f, ValueBytes(f, v).value + rest) == Ok(v, rest)
  {
    match f.ltype
    case Signed =>
      SignedWord(v.i, f.dataSize);
      WordIsRead(f, AsWord(v.i), v.i, rest);
    case Unsigned =>
      WordIsRead(f, v.i, v.i, rest);
    case ZigZagged =>
      ZigZagRoundTrip(v.i);
      WordIsRead(f, ZigZag(v.i), v.i, rest);
  }

  lemma FixedValueRoundTrip(v: nat, n: nat, rest: seq<byte>)
    requires v < Pow256(n)
    ensures DecodeFixed(n, FixedBytes(v, n) + rest) == Ok(Int(v), rest)
  {
    FixedRoundTrip(v, n);
    assert (FixedBytes(v, n) + rest)[..n] == FixedBytes(v, n);
    assert (FixedBytes(v, n) + rest)[n..] == rest;
  }

  lemma Pow256Values()
    ensures Pow256(4) == TWO_TO_THE_32 && Pow256(8) == TWO_TO_THE_64
  {
  }

  lemma TakeExactly(b: seq<byte>, rest: seq<byte>)
    ensures Take(|b|, b + rest) == Ok(b, rest)
  {
  }

  /** A length-prefixed payload is read back exactly when its length fits 32 bits. */
  lemma PrefixedRoundTrip(b: seq<byte>, rest: seq<byte>)
    requires |b| < TWO_TO_THE_63
    ensures DecodePrefixed(Prefixed(b) + rest) == if |b| < TWO_TO_THE_32 then Ok(b, rest) else Fail
  {
    Varint32RoundTrip(|b|, b + rest);
    assert Prefixed(b) + rest == VarintBytes(|b|) + (b + rest);
    TakeExactly(b, rest);
  }

  lemma {:induction false} NoNulStays(b: seq<byte>)
    requires forall k :: 0 <= k < |b| ==> b[k] != 0
    ensures UpToNul(b) == b
  {
    if b != [] {
      NoNulStays(b[1..]);
    }
  }

  lemma ReadLength(b: seq<byte>, rest: seq<byte>)
    requires |b| < TWO_TO_THE_32
    ensures DecodeVarint32(Prefixed(b) + rest) == Ok(|b|, b + rest)
  {
    Varint32RoundTrip(|b|, b + rest);
    assert Prefixed(b) + rest == VarintBytes(|b|) + (b + rest);
  }

  lemma ReadBlob(f: Field, s: seq<byte>, b: seq<byte>, rest: seq<byte>)
    requires DecodeVarint32(s) == Ok(|b|, b + rest) && (f.ltype.BytesField? || f.ltype.StringField?)
    ensures DecodeBlob(f, s) ==
            if f.ltype.BytesField? then if |b| + BYTES_OFFSET > f.dataSize then Fail else Ok(Blob(b), rest)
            else if |b| >= f.dataSize then Fail else Ok(Blob(UpToNul(b)), rest)
  {
    TakeExactly(b, rest);
  }

  lemma ReadBytes(f: Field, b: seq<byte>, rest: seq<byte>)
    requires |b| < TWO_TO_THE_32 && f.ltype.BytesField?
    ensures DecodeBlob(f, Prefixed(b) + rest) == if |b| + BYTES_OFFSET > f.dataSize then Fail else Ok(Blob(b), rest)
  {
    ReadLength(b, rest);
    ReadBlob(f, Prefixed(b) + rest, b, rest);
  }

  lemma ReadString(f: Field, b: seq<byte>, rest: seq<byte>)
    requires |b| < TWO_TO_THE_32 && f.ltype.StringField?
    ensures DecodeBlob(f, Prefixed(b) + rest) == if |b| >= f.dataSize then Fail else Ok(Blob(UpToNul(b)), rest)
  {
    ReadLength(b, rest);
    ReadBlob(f, Prefixed(b) + rest, b, rest);
  }

  lemma ReadFixedBlob(f: Field, s: seq<byte>, b: seq<byte>, rest: seq<byte>)
    requires DecodeVarint32(s) == Ok(|b|, b + rest) && |b| == f.dataSize && f.ltype.FixedLengthBytes?
    ensures DecodeBlob(f, s) == Ok(Blob(b), rest)
  {
    TakeExactly(b, rest);
    if |b| == 0 {
      assert Zeros(f.dataSize) == b;
      assert b + rest == rest;
    }
  }

  lemma ReadFixedLength(f: Field, b: seq<byte>, rest: seq<byte>)
    requires |b| == f.dataSize && f.ltype.FixedLengthBytes?
    ensures DecodeBlob(f, Prefixed(b) + rest) == Ok(Blob(b), rest)
  {
    ReadLength(b, rest);
    ReadFixedBlob(f, Prefixed(b) + rest, b, rest);
  }

  /** Bytes come back; a string comes back exactly when its terminator fits the array. */
  lemma BlobRoundTrip(f: Field, v: Value, rest: seq<byte>)
    requires ValueTyped(f, v) && ValueBytes(f, v).Some?
    requires f.ltype.BytesField? || f.ltype.StringField? || f.ltype.FixedLengthBytes?
    ensures DecodeBlob(f, ValueBytes(f, v).value + rest) ==
            if f.ltype.StringField? && |v.b| == f.dataSize then Fail else Ok(v, rest)
  {
    match f.ltype
    case BytesField =>
      ReadBytes(f, v.b, rest);
    case StringField =>
      ReadString(f, v.b, rest);
      NoNulStays(v.b);
    case FixedLengthBytes =>
      ReadFixedLength(f, v.b, rest);
  }

  // ---------- When decoding succeeds ----------

  /** The length prefix of a submessage fits the 32 bits the decoder reads. */
  predicate LengthFits(f: Field, v: Value)
    requires ValueTyped(f, v)
  {
    f.ltype.Submessage? ==> Short(MessageBytes(f.sub, v.slots), TWO_TO_THE_32)
  }

  predicate DecodableValue(f: Field, g: Field, v: Value)
    requires ValueTyped(f, v) && Matches(f, g)
    decreases f, 0
  {
    && LengthFits(f, v)
    && (f.ltype.StringField? ==> |v.b| < f.dataSize)
    && (f.ltype.Submessage? ==> assert Typed(f.sub, v.slots) && Drops(f.sub, g.sub); Decodable(f.sub, g.sub, v.slots))
  }

  /** A field that takes no bytes. */
  predicate Omitted(f: Field, slot: Slot) {
    slot == [] || (f.htype.Singular? && IsProto3Default(f, slot[0]))
  }

  predicate IsPacked(f: Field) {
    f.htype.Repeated? && Packable(f.ltype)
  }

  predicate DecodableValues(f: Field, g: Field, vs: seq<Value>)
    requires (forall k :: 0 <= k < |vs| ==> ValueTyped(f, vs[k])) && Matches(f, g)
    decreases f, 1, |vs|
  {
    vs == [] || (DecodableValue(f, g, vs[0]) && DecodableValues(f, g, vs[1..]))
  }

  predicate DecodableSlot(f: Field, g: Field, slot: Slot)
    requires SlotTyped(f, slot) && Matches(f, g)
    decreases f, 2
  {
    Omitted(f, slot) ||
    if IsPacked(f) then Short(PackedBytes(f, slot), TWO_TO_THE_32) else DecodableValues(f, g, slot)
  }

  predicate SkippableSlot(f: Field, slot: Slot)
    requires SlotTyped(f, slot)
  {
    Omitted(f, slot) ||
    if IsPacked(f) then Short(PackedBytes(f, slot), TWO_TO_THE_32)
    else forall k :: 0 <= k < |slot| ==> LengthFits(f, slot[k])
  }

  predicate SlotsTyped(fs: seq<Field>, msg: Message) {
    |msg| == |fs| && forall k :: 0 <= k < |fs| ==> SlotTyped(fs[k], msg[k])
  }

  /** Every string that is kept leaves room for its terminator, and every length prefix fits 32 bits. */
  predicate Decodable(fs: seq<Field>, gs: seq<Field>, msg: Message)
    requires SlotsTyped(fs, msg) && Drops(fs, gs)
    decreases fs, 3
  {
    if fs == [] then true
    else if Kept(fs[0], gs) then DecodableSlot(fs[0], gs[0], msg[0]) && Decodable(fs[1..], gs[1..], msg[1..])
    else SkippableSlot(fs[0], msg[0]) && Decodable(fs[1..], gs, msg[1..])
  }

  // ---------- One field of the stream ----------

  lemma HeaderRoundTrip(wireType: nat, tag: nat, rest: seq<byte>)
    requires 0 < tag < 0x2000_0000 && wireType < 8
    ensures DecodeTag(TagBytes(wireType, tag) + rest) == Header(wireType, tag, rest)
  {
    Varint32RoundTrip(8 * tag + wireType, rest);
    TagParts(TagBytes(wireType, tag) + rest, wireType, tag, rest);
  }

  lemma TagParts(s: seq<byte>, wireType: nat, tag: nat, rest: seq<byte>)
    requires 0 < tag && wireType < 8 && DecodeVarint32(s) == Ok(8 * tag + wireType, rest)
    ensures DecodeTag(s) == Header(wireType, tag, rest)
  {
  }

  lemma KnownField(gs: seq<Field>, s: seq<byte>, p: nat, wireType: nat, rest: seq<byte>, st: Message, seen: set<nat>)
    requires |st| == |gs| && p < |gs| && FindTag(gs, gs[p].tag) == Some(p)
             && DecodeTag(s) == Header(wireType, gs[p].tag, rest)
    ensures var r := DecodeSlot(gs[p], wireType, rest, st[p]);
            DecodeFields(gs, s, st, seen) ==
            if r.Ok? then DecodeFields(gs, r.rest, Store(gs, st, p, r.value), seen + {p}) else Fail
  {
  }

  lemma UnknownField(gs: seq<Field>, s: seq<byte>, wireType: nat, tag: nat, rest: seq<byte>, st: Message,
                     seen: set<nat>)
    requires |st| == |gs| && 0 < tag && FindTag(gs, tag) == None && DecodeTag(s) == Header(wireType, tag, rest)
    ensures var r := SkipField(wireType, rest);
            DecodeFields(gs, s, st, seen) == if r.Ok? then DecodeFields(gs, r.rest, st, seen) else Fail
  {
  }

  /** No other member of the union of field `p` is set. */
  predicate AloneInUnion(gs: seq<Field>, st: Message, p: nat)
    requires |st| == |gs| && p < |gs|
  {
    forall i :: 0 <= i < |gs| && i != p && SameUnion(gs[p], gs[i]) ==> st[i] == []
  }

  lemma StoreAlone(gs: seq<Field>, st: Message, p: nat, slot: Slot)
    requires |st| == |gs| && p < |gs| && AloneInUnion(gs, st, p)
    ensures Store(gs, st, p, slot) == st[p := slot]
  {
  }

  // ---------- Unknown fields are passed over exactly ----------

  lemma SkipValue(f: Field, v: Value, rest: seq<byte>)
    requires ValueTyped(f, v) && ValueBytes(f, v).Some? && ValueLengths(f, v, TWO_TO_THE_63)
    ensures var r := SkipField(WireType(f.ltype), ValueBytes(f, v).value + rest);
            r.Ok? == LengthFits(f, v) && (r.Ok? ==> r.rest == rest)
  {
    var b := ValueBytes(f, v).value;
    TakeExactly(b, rest);
    match f.ltype
    case Signed => VarintGroups(AsWord(v.i), rest);
    case Unsigned => VarintGroups(v.i, rest);
    case ZigZagged => VarintGroups(ZigZag(v.i), rest);
    case Fixed32 =>
    case Fixed64 =>
    case Submessage => PrefixedRoundTrip(MessageBytes(f.sub, v.slots).value, rest);
    case _ => PrefixedRoundTrip(v.b, rest);
  }

  lemma Rejoin(a: seq<byte>, b: seq<byte>, c: seq<byte>)
    ensures (a + b) + c == a + (b + c)
  {
  }

  lemma SkipPayload(wireType: nat, tag: nat, b: seq<byte>, s: seq<byte>, fits: bool, gs: seq<Field>, st: Message,
                    seen: set<nat>, rest: seq<byte>)
    requires 0 < tag < 0x2000_0000 && FindTag(gs, tag) == None && |st| == |gs| && wireType < 8
    requires s == TagBytes(wireType, tag) + (b + rest)
    requires var r := SkipField(wireType, b + rest); r.Ok? == fits && (fits ==> r.rest == rest)
    ensures DecodeFields(gs, s, st, seen) == if fits then DecodeFields(gs, rest, st, seen) else Fail
  {
    HeaderRoundTrip(wireType, tag, b + rest);
    UnknownField(gs, s, wireType, tag, b + rest, st, seen);
  }

  lemma SkipTagged(f: Field, v: Value, gs: seq<Field>, st: Message, seen: set<nat>, rest: seq<byte>)
    requires ValueTyped(f, v) && ValueBytes(f, v).Some? && ValueLengths(f, v, TWO_TO_THE_63)
    requires 0 < f.tag < 0x2000_0000 && FindTag(gs, f.tag) == None && |st| == |gs|
    ensures DecodeFields(gs, TaggedBytes(f, v).value + rest, st, seen) ==
            if LengthFits(f, v) then DecodeFields(gs, rest, st, seen) else Fail
  {
    var b, s := ValueBytes(f, v).value, TaggedBytes(f, v).value + rest;
    SkipValue(f, v, rest);
    Rejoin(TagBytes(WireType(f.ltype), f.tag), b, rest);
    SkipPayload(WireType(f.ltype), f.tag, b, s, LengthFits(f, v), gs, st, seen, rest);
  }

  lemma FirstUnpacked(f: Field, vs: seq<Value>, rest: seq<byte>)
    requires vs != [] && (forall k :: 0 <= k < |vs| ==> ValueTyped(f, vs[k])) && UnpackedBytes(f, vs).Some?
    ensures TaggedBytes(f, vs[0]).Some? && UnpackedBytes(f, vs[1..]).Some?
    ensures UnpackedBytes(f, vs).value + rest == TaggedBytes(f, vs[0]).value + (UnpackedBytes(f, vs[1..]).value + rest)
  {
  }

  lemma FitsFirst(f: Field, vs: seq<Value>)
    requires vs != [] && forall k :: 0 <= k < |vs| ==> ValueTyped(f, vs[k])
    ensures (forall k :: 0 <= k < |vs| ==> LengthFits(f, vs[k])) <==>
            LengthFits(f, vs[0]) && forall k :: 0 <= k < |vs[1..]| ==> LengthFits(f, vs[1..][k])
  {
    assert forall k :: 0 < k < |vs| ==> vs[k] == vs[1..][k - 1];
  }

  lemma {:induction false} SkipUnpacked(f: Field, vs: seq<Value>, gs: seq<Field>, st: Message, seen: set<nat>,
                                        rest: seq<byte>)
    requires forall k :: 0 <= k < |vs| ==> ValueTyped(f, vs[k]) && ValueLengths(f, vs[k], TWO_TO_THE_63)
    requires UnpackedBytes(f, vs).Some?
    requires 0 < f.tag < 0x2000_0000 && FindTag(gs, f.tag) == None && |st| == |gs|
    ensures DecodeFields(gs, UnpackedBytes(f, vs).value + rest, st, seen) ==
            if forall k :: 0 <= k < |vs| ==> LengthFits(f, vs[k]) then DecodeFields(gs, rest, st, seen) else Fail
  {
    if vs == [] {
      assert [] + rest == rest;
    } else {
      FirstUnpacked(f, vs, rest);
      FitsFirst(f, vs);
      SkipTagged(f, vs[0], gs, st, seen, UnpackedBytes(f, vs[1..]).value + rest);
      SkipUnpacked(f, vs[1..], gs, st, seen, rest);
    }
  }

  lemma SkipPrefixed(tag: nat, payload: seq<byte>, gs: seq<Field>, st: Message, seen: set<nat>, rest: seq<byte>)
    requires |payload| < TWO_TO_THE_63 && 0 < tag < 0x2000_0000 && FindTag(gs, tag) == None && |st| == |gs|
    ensures DecodeFields(gs, (TagBytes(WT_STRING, tag) + Prefixed(payload)) + rest, st, seen) ==
            if |payload| < TWO_TO_THE_32 then DecodeFields(gs, rest, st, seen) else Fail
  {
    var s := (TagBytes(WT_STRING, tag) + Prefixed(payload)) + rest;
    assert s == TagBytes(WT_STRING, tag) + (Prefixed(payload) + rest);
    HeaderRoundTrip(WT_STRING, tag, Prefixed(payload) + rest);
    PrefixedRoundTrip(payload, rest);
    UnknownField(gs, s, WT_STRING, tag, Prefixed(payload) + rest, st, seen);
  }

  /** The bytes of a slot, by the way it is written. */
  predicate SlotForm(f: Field, slot: Slot, b: seq<byte>)
    requires SlotTyped(f, slot)
  {
    if Omitted(f, slot) then b == []
    else if IsPacked(f) then
      |slot| <= f.arraySize && PackedBytes(f, slot).Some?
      && b == TagBytes(WT_STRING, f.tag) + Prefixed(PackedBytes(f, slot).value)
    else if f.htype.Repeated? then |slot| <= f.arraySize && UnpackedBytes(f, slot) == Some(b)
    else TaggedBytes(f, slot[0]) == Some(b)
  }

  lemma SlotHasForm(f: Field, slot: Slot)
    requires SlotTyped(f, slot) && SlotBytes(f, slot).Some?
    ensures SlotForm(f, slot, SlotBytes(f, slot).value)
  {
  }

  /** A dropped field takes the receiver to the next one, with nothing changed. */
  predicate Skipped(f: Field, slot: Slot, b: seq<byte>, gs: seq<Field>, st: Message, seen: set<nat>, rest: seq<byte>)
    requires SlotTyped(f, slot) && |st| == |gs|
  {
    DecodeFields(gs, b + rest, st, seen) == if SkippableSlot(f, slot) then DecodeFields(gs, rest, st, seen) else Fail
  }

  lemma SkipPackedSlot(f: Field, slot: Slot, b: seq<byte>, gs: seq<Field>, st: Message, seen: set<nat>, rest: seq<byte>)
    requires SlotTyped(f, slot) && SlotForm(f, slot, b) && SlotLengths(f, slot, TWO_TO_THE_63)
    requires !Omitted(f, slot) && IsPacked(f)
    requires 0 < f.tag < 0x2000_0000 && FindTag(gs, f.tag) == None && |st| == |gs|
    ensures Skipped(f, slot, b, gs, st, seen, rest)
  {
    SkipPrefixed(f.tag, PackedBytes(f, slot).value, gs, st, seen, rest);
  }

  lemma SkipRepeatedSlot(f: Field, slot: Slot, b: seq<byte>, gs: seq<Field>, st: Message, seen: set<nat>,
                         rest: seq<byte>)
    requires SlotTyped(f, slot) && SlotForm(f, slot, b) && SlotLengths(f, slot, TWO_TO_THE_63)
    requires !Omitted(f, slot) && !IsPacked(f) && f.htype.Repeated?
    requires 0 < f.tag < 0x2000_0000 && FindTag(gs, f.tag) == None && |st| == |gs|
    ensures Skipped(f, slot, b, gs, st, seen, rest)
  {
    SkipUnpacked(f, slot, gs, st, seen, rest);
  }

  lemma OneValueForm(f: Field, slot: Slot, b: seq<byte>)
    requires SlotTyped(f, slot) && SlotForm(f, slot, b) && SlotLengths(f, slot, TWO_TO_THE_63)
    requires !Omitted(f, slot) && !f.htype.Repeated?
    ensures slot == [slot[0]] && ValueTyped(f, slot[0]) && ValueLengths(f, slot[0], TWO_TO_THE_63)
    ensures ValueBytes(f, slot[0]).Some? && TaggedBytes(f, slot[0]) == Some(b)
  {
  }

  lemma OneValueSkippable(f: Field, slot: Slot)
    requires SlotTyped(f, slot) && !Omitted(f, slot) && !f.htype.Repeated? && |slot| == 1
    ensures SkippableSlot(f, slot) <==> LengthFits(f, slot[0])
  {
  }

  lemma SkipOneSlot(f: Field, slot: Slot, b: seq<byte>, gs: seq<Field>, st: Message, seen: set<nat>, rest: seq<byte>)
    requires SlotTyped(f, slot) && SlotForm(f, slot, b) && SlotLengths(f, slot, TWO_TO_THE_63)
    requires !Omitted(f, slot) && !f.htype.Repeated?
    requires 0 < f.tag < 0x2000_0000 && FindTag(gs, f.tag) == None && |st| == |gs|
    ensures Skipped(f, slot, b, gs, st, seen, rest)
  {
    OneValueForm(f, slot, b);
    OneValueSkippable(f, slot);
    SkipTagged(f, slot[0], gs, st, seen, rest);
  }

  lemma SkipSlot(f: Field, slot: Slot, b: seq<byte>, gs: seq<Field>, st: Message, seen: set<nat>, rest: seq<byte>)
    requires SlotTyped(f, slot) && SlotForm(f, slot, b) && SlotLengths(f, slot, TWO_TO_THE_63)
    requires 0 < f.tag < 0x2000_0000 && FindTag(gs, f.tag) == None && |st| == |gs|
    ensures Skipped(f, slot, b, gs, st, seen, rest)
  {
    if Omitted(f, slot) {
      assert b + rest == rest;
    } else if IsPacked(f) {
      SkipPackedSlot(f, slot, b, gs, st, seen, rest);
    } else if f.htype.Repeated? {
      SkipRepeatedSlot(f, slot, b, gs, st, seen, rest);
    } else {
      SkipOneSlot(f, slot, b, gs, st, seen, rest);
    }
  }

  // ---------- Known fields come back ----------

  lemma SameDecoder(f: Field, g: Field, start: Message, s: seq<byte>)
    requires Matches(f, g) && !f.ltype.Submessage? && |start| == |g.sub|
    ensures f.ltype.Signed? || f.ltype.Unsigned? || f.ltype.ZigZagged? ==>
              DecodeValue(g, start, s) == DecodeInteger(f, s)
    ensures f.ltype.Fixed32? ==> DecodeValue(g, start, s) == DecodeFixed(4, s)
    ensures f.ltype.Fixed64? ==> DecodeValue(g, start, s) == DecodeFixed(8, s)
    ensures f.ltype.BytesField? || f.ltype.StringField? || f.ltype.FixedLengthBytes? ==>
              DecodeValue(g, start, s) == DecodeBlob(f, s)
  {
  }

  lemma ScalarRoundTrip(f: Field, g: Field, start: Message, v: Value, rest: seq<byte>)
    requires ValueTyped(f, v) && ValueBytes(f, v).Some? && Matches(f, g) && !f.ltype.Submessage? && |start| == |g.sub|
    ensures DecodeValue(g, start, ValueBytes(f, v).value + rest) ==
            if DecodableValue(f, g, v) then Ok(v, rest) else Fail
  {
    SameDecoder(f, g, start, ValueBytes(f, v).value + rest);
    match f.ltype
    case Signed => IntegerRoundTrip(f, v, rest);
    case Unsigned => IntegerRoundTrip(f, v, rest);
    case ZigZagged => IntegerRoundTrip(f, v, rest);
    case Fixed32 =>
      Pow256Values();
      FixedValueRoundTrip(v.i, 4, rest);
    case Fixed64 =>
      Pow256Values();
      FixedValueRoundTrip(v.i, 8, rest);
    case _ => BlobRoundTrip(f, v, rest);
  }

  lemma PackedHead(f: Field, vs: seq<Value>)
    requires vs != [] && (forall k :: 0 <= k < |vs| ==> ValueTyped(f, vs[k])) && PackedBytes(f, vs).Some?
    ensures (forall k :: 0 <= k < |vs[1..]| ==> ValueTyped(f, vs[1..][k])) && PackedBytes(f, vs[1..]).Some?
    ensures ValueBytes(f, vs[0]).Some?
    ensures PackedBytes(f, vs).value == ValueBytes(f, vs[0]).value + PackedBytes(f, vs[1..]).value
  {
  }

  lemma {:induction false} PackedRoundTrip(f: Field, g: Field, vs: seq<Value>, before: seq<Value>)
    requires (forall k :: 0 <= k < |vs| ==> ValueTyped(f, vs[k])) && PackedBytes(f, vs).Some?
    requires Packable(f.ltype) && Matches(f, g) && |before| + |vs| <= g.arraySize
    ensures DecodePacked(g, PackedBytes(f, vs).value, before) == Some(before + vs)
  {
    if vs == [] {
      assert before + vs == before;
    } else {
      PackedHead(f, vs);
      var more := PackedBytes(f, vs[1..]).value;
      ScalarRoundTrip(f, g, Defaults(g.sub), vs[0], more);
      PackedRoundTrip(f, g, vs[1..], before + [vs[0]]);
      PackedStep(g, PackedBytes(f, vs).value, more, vs[0], before);
      FirstJoins(before, vs);
    }
  }

  lemma FirstJoins(before: seq<Value>, vs: seq<Value>)
    requires vs != []
    ensures (before + [vs[0]]) + vs[1..] == before + vs
  {
  }

  lemma PackedStep(g: Field, s: seq<byte>, more: seq<byte>, v: Value, before: seq<Value>)
    requires Packable(g.ltype) && |before| < g.arraySize && DecodeValue(g, Defaults(g.sub), s) == Ok(v, more)
    ensures DecodePacked(g, s, before) == DecodePacked(g, more, before + [v])
  {
  }

  /** The receiver knows field `f`, as its field `p`, and no other member of its union is set. */
  predicate Ready(f: Field, gs: seq<Field>, p: nat, st: Message) {
    && |st| == |gs| && p < |gs| && Matches(f, gs[p]) && AloneInUnion(gs, st, p)
    && 0 < f.tag < 0x2000_0000 && FindTag(gs, f.tag) == Some(p)
  }

  lemma KnownPacked(f: Field, gs: seq<Field>, p: nat, vs: seq<Value>, st: Message, seen: set<nat>, rest: seq<byte>)
    requires Ready(f, gs, p, st) && IsPacked(f) && st[p] == [] && |vs| <= f.arraySize
    requires (forall k :: 0 <= k < |vs| ==> ValueTyped(f, vs[k])) && PackedBytes(f, vs).Some?
    requires |PackedBytes(f, vs).value| < TWO_TO_THE_63
    ensures DecodeFields(gs, (TagBytes(WT_STRING, f.tag) + Prefixed(PackedBytes(f, vs).value)) + rest, st, seen) ==
            if |PackedBytes(f, vs).value| < TWO_TO_THE_32 then DecodeFields(gs, rest, st[p := vs], seen + {p}) else Fail
  {
    var payload := PackedBytes(f, vs).value;
    var s := (TagBytes(WT_STRING, f.tag) + Prefixed(payload)) + rest;
    assert s == TagBytes(WT_STRING, f.tag) + (Prefixed(payload) + rest);
    HeaderRoundTrip(WT_STRING, f.tag, Prefixed(payload) + rest);
    PrefixedRoundTrip(payload, rest);
    PackedRoundTrip(f, gs[p], vs, []);
    assert [] + vs == vs;
    PackedSlot(gs[p], Prefixed(payload) + rest, payload, rest, vs);
    KnownField(gs, s, p, WT_STRING, Prefixed(payload) + rest, st, seen);
    StoreAlone(gs, st, p, vs);
  }

  lemma PackedSlot(g: Field, s: seq<byte>, payload: seq<byte>, rest: seq<byte>, vs: seq<Value>)
    requires IsPacked(g) && DecodePrefixed(s) == (if |payload| < TWO_TO_THE_32 then Ok(payload, rest) else Fail)
    requires DecodePacked(g, payload, []) == Some(vs)
    ensures DecodeSlot(g, WT_STRING, s, []) == if |payload| < TWO_TO_THE_32 then Ok(vs, rest) else Fail
  {
  }

  function AddValue(f: Field, slot: Slot, v: Value): Slot {
    if f.htype.Repeated? then slot + [v] else [v]
  }

  /** A value with its tag arrives in a slot whose submessage, if any, starts cleared. */
  lemma KnownTagged(f: Field, gs: seq<Field>, p: nat, v: Value, st: Message, seen: set<nat>, rest: seq<byte>)
    requires Ready(f, gs, p, st) && !IsPacked(f) && StartMessage(gs[p], st[p]) == Defaults(gs[p].sub)
    requires f.htype.Repeated? ==> |st[p]| < f.arraySize
    requires ValueTyped(f, v) && ValueBytes(f, v).Some? && ValueLengths(f, v, TWO_TO_THE_63)
    requires WellFormedField(f) && WellFormedField(gs[p])
    ensures DecodeFields(gs, TaggedBytes(f, v).value + rest, st, seen) ==
            if DecodableValue(f, gs[p], v)
            then DecodeFields(gs, rest, st[p := AddValue(f, st[p], ProjectValue(f, gs[p], v))], seen + {p}) else Fail
    decreases f, 1
  {
    var b, g := ValueBytes(f, v).value, gs[p];
    var s := TaggedBytes(f, v).value + rest;
    assert s == TagBytes(WireType(f.ltype), f.tag) + (b + rest);
    HeaderRoundTrip(WireType(f.ltype), f.tag, b + rest);
    ValueRoundTrip(f, g, v, rest);
    KnownField(gs, s, p, WireType(f.ltype), b + rest, st, seen);
    SlotTakes(g, WireType(f.ltype), b + rest, st[p], DecodableValue(f, g, v), ProjectValue(f, g, v), rest);
    StoreAlone(gs, st, p, AddValue(f, st[p], ProjectValue(f, g, v)));
  }

  lemma SlotTakes(g: Field, wireType: nat, s: seq<byte>, slot: Slot, decodable: bool, v: Value, rest: seq<byte>)
    requires !IsPacked(g) && StartMessage(g, slot) == Defaults(g.sub) && (g.htype.Repeated? ==> |slot| < g.arraySize)
    requires DecodeValue(g, Defaults(g.sub), s) == if decodable then Ok(v, rest) else Fail
    ensures DecodeSlot(g, wireType, s, slot) == if decodable then Ok(AddValue(g, slot, v), rest) else Fail
  {
  }

  lemma AppendOne(st: Message, p: nat, v: Value, vs: seq<Value>)
    requires p < |st|
    ensures var next := st[p := st[p] + [v]]; next[p := next[p] + vs] == st[p := st[p] + ([v] + vs)]
  {
    assert (st[p] + [v]) + vs == st[p] + ([v] + vs);
  }

  lemma AppendNone(st: Message, p: nat, vs: seq<Value>)
    requires p < |st| && vs == []
    ensures st[p := st[p] + vs] == st
  {
    assert st[p] + vs == st[p];
  }

  lemma {:induction false} KnownUnpacked(f: Field, gs: seq<Field>, p: nat, vs: seq<Value>, st: Message,
                                         seen: set<nat>, rest: seq<byte>)
    requires Ready(f, gs, p, st) && f.htype.Repeated? && !IsPacked(f) && |st[p]| + |vs| <= f.arraySize
    requires forall k :: 0 <= k < |vs| ==> ValueTyped(f, vs[k]) && ValueLengths(f, vs[k], TWO_TO_THE_63)
    requires UnpackedBytes(f, vs).Some? && WellFormedField(f) && WellFormedField(gs[p])
    ensures DecodeFields(gs, UnpackedBytes(f, vs).value + rest, st, seen) ==
            if DecodableValues(f, gs[p], vs)
            then DecodeFields(gs, rest, st[p := st[p] + ProjectSlot(f, gs[p], vs)],
                              if vs == [] then seen else seen + {p})
            else Fail
    decreases f, 2, |vs|, 0
  {
    if vs == [] {
      assert UnpackedBytes(f, vs).value + rest == rest;
      AppendNone(st, p, ProjectSlot(f, gs[p], vs));
    } else {
      FirstUnpacked(f, vs, rest);
      var v := ProjectValue(f, gs[p], vs[0]);
      KnownTagged(f, gs, p, vs[0], st, seen, UnpackedBytes(f, vs[1..]).value + rest);
      RestUnpacked(f, gs, p, vs[1..], st, v, seen, rest);
    }
  }

  lemma RestUnpacked(f: Field, gs: seq<Field>, p: nat, vs: seq<Value>, st: Message, v: Value, seen: set<nat>,
                     rest: seq<byte>)
    requires Ready(f, gs, p, st) && f.htype.Repeated? && !IsPacked(f) && |st[p]| + 1 + |vs| <= f.arraySize
    requires forall k :: 0 <= k < |vs| ==> ValueTyped(f, vs[k]) && ValueLengths(f, vs[k], TWO_TO_THE_63)
    requires UnpackedBytes(f, vs).Some? && WellFormedField(f) && WellFormedField(gs[p])
    ensures DecodeFields(gs, UnpackedBytes(f, vs).value + rest, st[p := st[p] + [v]], seen + {p}) ==
            if DecodableValues(f, gs[p], vs)
            then DecodeFields(gs, rest, st[p := st[p] + ([v] + ProjectSlot(f, gs[p], vs))], seen + {p}) else Fail
    decreases f, 2, |vs|, 1
  {
    KnownUnpacked(f, gs, p, vs, st[p := st[p] + [v]], seen + {p}, rest);
    AppendOne(st, p, v, ProjectSlot(f, gs[p], vs));
    assert (seen + {p}) + {p} == seen + {p};
  }

  lemma ValueRoundTrip(f: Field, g: Field, v: Value, rest: seq<byte>)
    requires ValueTyped(f, v) && ValueBytes(f, v).Some? && ValueLengths(f, v, TWO_TO_THE_63)
    requires Matches(f, g) && WellFormedField(f) && WellFormedField(g)
    ensures DecodeValue(g, Defaults(g.sub), ValueBytes(f, v).value + rest) ==
            if DecodableValue(f, g, v) then Ok(ProjectValue(f, g, v), rest) else Fail
    decreases f, 0
  {
    if !f.ltype.Submessage? {
      ScalarRoundTrip(f, g, Defaults(g.sub), v, rest);
    } else {
      assert Typed(f.sub, v.slots) && Drops(f.sub, g.sub);
      assert MessageLengths(f.sub, v.slots, TWO_TO_THE_63);
      var payload := MessageBytes(f.sub, v.slots).value;
      PrefixedRoundTrip(payload, rest);
      MessageRoundTrip(f.sub, g.sub, v.slots, []);
      assert payload + [] == payload;
    }
  }

  // ---------- From one field to the next ----------

  /** A field that was left out has the value of a cleared message. */
  lemma {:induction false} OmittedIsDefault(f: Field, g: Field, slot: Slot)
    requires SlotTyped(f, slot) && Matches(f, g) && WellFormedField(f) && WellFormedField(g) && Omitted(f, slot)
    ensures ProjectSlot(f, g, slot) == DefaultSlot(g)
    decreases f, 1
  {
    if f.htype.Singular? {
      assert ValueTyped(f, slot[0]);
      DefaultIsProjected(f, g, slot[0]);
      assert ProjectSlot(f, g, slot) == [ProjectValue(f, g, slot[0])];
    }
  }

  lemma {:induction false} DefaultIsProjected(f: Field, g: Field, v: Value)
    requires ValueTyped(f, v) && Matches(f, g) && WellFormedField(f) && WellFormedField(g)
    requires f.htype.Singular? && IsProto3Default(f, v)
    ensures ProjectValue(f, g, v) == DefaultValue(g)
    decreases f, 0
  {
    if f.ltype.Submessage? {
      assert Typed(f.sub, v.slots) && Drops(f.sub, g.sub);
      AllDefaultIsProjected(f.sub, g.sub, v.slots);
    }
  }

  lemma {:induction false} AllDefaultIsProjected(fs: seq<Field>, gs: seq<Field>, msg: Message)
    requires SlotsTyped(fs, msg) && Drops(fs, gs) && AllProto3Default(fs, msg)
    requires forall k :: 0 <= k < |fs| ==> WellFormedField(fs[k])
    requires forall k :: 0 <= k < |gs| ==> WellFormedField(gs[k])
    ensures Project(fs, gs, msg) == Defaults(gs)
    decreases fs
  {
    if fs != [] {
      if Kept(fs[0], gs) {
        OmittedIsDefault(fs[0], gs[0], msg[0]);
        AllDefaultIsProjected(fs[1..], gs[1..], msg[1..]);
      } else {
        AllDefaultIsProjected(fs[1..], gs, msg[1..]);
      }
    }
  }

  /** The receiver's message when its first `p` fields are done. */
  function StateAt(gs: seq<Field>, final: Message, p: nat): (m: Message)
    requires |final| == |gs| && p <= |gs|
    ensures |m| == |gs|
  {
    final[..p] + Defaults(gs)[p..]
  }

  lemma StateStep(gs: seq<Field>, final: Message, p: nat)
    requires |final| == |gs| && p < |gs|
    ensures StateAt(gs, final, p)[p] == DefaultSlot(gs[p])
    ensures StateAt(gs, final, p)[p := final[p]] == StateAt(gs, final, p + 1)
    ensures final[p] == DefaultSlot(gs[p]) ==> StateAt(gs, final, p) == StateAt(gs, final, p + 1)
  {
    DefaultsAt(gs, p);
    var st := StateAt(gs, final, p);
    assert st[p := final[p]] == StateAt(gs, final, p + 1);
    assert final[p] == st[p] ==> st[p := final[p]] == st;
  }

  lemma StateAlone(gs: seq<Field>, final: Message, p: nat)
    requires |final| == |gs| && p < |gs| && OneofsTyped(gs, final) && final[p] != []
    ensures AloneInUnion(gs, StateAt(gs, final, p), p)
  {
    forall i | 0 <= i < |gs| && i != p && SameUnion(gs[p], gs[i])
      ensures StateAt(gs, final, p)[i] == []
    {
      if i > p {
        DefaultsAt(gs, i);
      } else {
        assert SameUnion(gs[i], gs[p]);
      }
    }
  }

  lemma StartsCleared(g: Field)
    requires WellFormedField(g)
    ensures StartMessage(g, DefaultSlot(g)) == Defaults(g.sub)
  {
  }

  lemma OneProjected(f: Field, g: Field, slot: Slot)
    requires SlotTyped(f, slot) && Matches(f, g) && |slot| == 1
    ensures ProjectSlot(f, g, slot) == [ProjectValue(f, g, slot[0])]
    ensures DecodableValues(f, g, slot) == DecodableValue(f, g, slot[0])
  {
    assert ValueTyped(f, slot[0]);
    assert slot[1..] == [];
  }

  lemma {:induction false} PackedIsProjected(f: Field, g: Field, vs: seq<Value>)
    requires (forall k :: 0 <= k < |vs| ==> ValueTyped(f, vs[k])) && Matches(f, g) && Packable(f.ltype)
    ensures ProjectSlot(f, g, vs) == vs
  {
    if vs != [] {
      PackedIsProjected(f, g, vs[1..]);
    }
  }

  /** A kept field takes the receiver to the next one, with its slot filled. */
  lemma KeepSlot(f: Field, slot: Slot, b: seq<byte>, gs: seq<Field>, p: nat, final: Message, seen: set<nat>,
                 rest: seq<byte>)
    requires SlotTyped(f, slot) && SlotForm(f, slot, b) && SlotLengths(f, slot, TWO_TO_THE_63)
    requires |final| == |gs| && p < |gs| && Matches(f, gs[p]) && OneofsTyped(gs, final)
    requires 0 < f.tag && FindTag(gs, f.tag) == Some(p) && WellFormedField(f) && WellFormedField(gs[p])
    requires final[p] == ProjectSlot(f, gs[p], slot)
    ensures DecodeFields(gs, b + rest, StateAt(gs, final, p), seen) ==
            if DecodableSlot(f, gs[p], slot)
            then DecodeFields(gs, rest, StateAt(gs, final, p + 1), if Omitted(f, slot) then seen else seen + {p})
            else Fail
    decreases f, 3
  {
    var g, st := gs[p], StateAt(gs, final, p);
    StateStep(gs, final, p);
    if Omitted(f, slot) {
      OmittedIsDefault(f, g, slot);
      assert b + rest == rest;
    } else {
      StateAlone(gs, final, p);
      StartsCleared(g);
      if IsPacked(f) {
        PackedIsProjected(f, g, slot);
        KnownPacked(f, gs, p, slot, st, seen, rest);
      } else if f.htype.Repeated? {
        KnownUnpacked(f, gs, p, slot, st, seen, rest);
        assert [] + final[p] == final[p];
      } else {
        OneProjected(f, g, slot);
        KnownTagged(f, gs, p, slot[0], st, seen, rest);
      }
    }
  }

  lemma FieldsAppend(fs: seq<Field>, msg: Message, tail: seq<byte>)
    requires fs != [] && SlotsTyped(fs, msg) && FieldsBytes(fs, msg).Some?
    ensures SlotBytes(fs[0], msg[0]).Some? && FieldsBytes(fs[1..], msg[1..]).Some?
    ensures FieldsBytes(fs, msg).value + tail ==
            SlotBytes(fs[0], msg[0]).value + (FieldsBytes(fs[1..], msg[1..]).value + tail)
    ensures SlotForm(fs[0], msg[0], SlotBytes(fs[0], msg[0]).value)
  {
    assert SlotTyped(fs[0], msg[0]);
    SlotHasForm(fs[0], msg[0]);
  }

  lemma {:induction false} DroppedTag(fs: seq<Field>, gs: seq<Field>, tag: nat)
    requires Drops(fs, gs) && forall k :: 0 <= k < |fs| ==> fs[k].tag != tag
    ensures forall k :: 0 <= k < |gs| ==> gs[k].tag != tag
  {
    if fs != [] {
      if Kept(fs[0], gs) {
        DroppedTag(fs[1..], gs[1..], tag);
        assert forall k :: 0 < k < |gs| ==> gs[k] == gs[1..][k - 1];
      } else {
        DroppedTag(fs[1..], gs, tag);
      }
    }
  }

  /** The fields `fs` are still to come for a receiver whose first `p` fields are done. */
  predicate Remaining(fs: seq<Field>, gs: seq<Field>, p: nat) {
    && p <= |gs| && Drops(fs, gs[p..]) && TagsDistinct(fs) && TagsDistinct(gs)
    && (forall k :: 0 <= k < |fs| ==> WellFormedField(fs[k]))
    && (forall k :: 0 <= k < |gs| ==> WellFormedField(gs[k]))
    && forall i, k :: 0 <= i < p && 0 <= k < |fs| ==> gs[i].tag != fs[k].tag
  }

  lemma RemainingKept(fs: seq<Field>, gs: seq<Field>, p: nat)
    requires Remaining(fs, gs, p) && fs != [] && Kept(fs[0], gs[p..])
    ensures Remaining(fs[1..], gs, p + 1) && FindTag(gs, fs[0].tag) == Some(p) && Matches(fs[0], gs[p])
  {
    assert gs[p..][1..] == gs[p + 1..] && gs[p..][0] == gs[p];
  }

  lemma RemainingDropped(fs: seq<Field>, gs: seq<Field>, p: nat)
    requires Remaining(fs, gs, p) && fs != [] && !Kept(fs[0], gs[p..])
    ensures Remaining(fs[1..], gs, p) && FindTag(gs, fs[0].tag) == None
  {
    DroppedTag(fs[1..], gs[p..], fs[0].tag);
    assert forall k :: p <= k < |gs| ==> gs[k] == gs[p..][k - p];
  }

  predicate SeenBefore(gs: seq<Field>, p: nat, seen: set<nat>)
    requires p <= |gs|
  {
    forall q: nat :: q < p && gs[q].htype.Required? ==> q in seen
  }

  /** A message ends with its bytes or at a zero tag, which is read. */
  predicate Ends(tail: seq<byte>) {
    tail == [] || tail[0] == 0
  }

  function AfterEnd(tail: seq<byte>): seq<byte> {
    if tail == [] then [] else tail[1..]
  }

  lemma EndOfMessage(gs: seq<Field>, final: Message, seen: set<nat>, tail: seq<byte>)
    requires |final| == |gs| && SeenBefore(gs, |gs|, seen) && Ends(tail)
    ensures DecodeFields(gs, tail, final, seen) == Ok(final, AfterEnd(tail))
  {
    if tail != [] {
      assert tail == VarintBytes(0) + tail[1..];
      Varint32RoundTrip(0, tail[1..]);
    }
  }

  predicate LengthsFit(fs: seq<Field>, msg: Message)
    requires SlotsTyped(fs, msg)
  {
    forall k :: 0 <= k < |fs| ==> SlotLengths(fs[k], msg[k], TWO_TO_THE_63)
  }

  lemma SeenOneMore(gs: seq<Field>, p: nat, seen: set<nat>, omitted: bool)
    requires p < |gs| && SeenBefore(gs, p, seen) && (gs[p].htype.Required? ==> !omitted)
    ensures SeenBefore(gs, p + 1, if omitted then seen else seen + {p})
  {
  }

  lemma KeptTail(fs: seq<Field>, gs: seq<Field>, p: nat, msg: Message, final: Message)
    requires Remaining(fs, gs, p) && SlotsTyped(fs, msg) && LengthsFit(fs, msg) && FieldsBytes(fs, msg).Some?
    requires |final| == |gs| && final[p..] == Project(fs, gs[p..], msg) && fs != [] && Kept(fs[0], gs[p..])
    ensures SlotTyped(fs[0], msg[0]) && Matches(fs[0], gs[p])
    ensures Remaining(fs[1..], gs, p + 1) && SlotsTyped(fs[1..], msg[1..]) && LengthsFit(fs[1..], msg[1..])
    ensures FieldsBytes(fs[1..], msg[1..]).Some? && final[p + 1..] == Project(fs[1..], gs[p + 1..], msg[1..])
    ensures Decodable(fs, gs[p..], msg) ==
            (DecodableSlot(fs[0], gs[p], msg[0]) && Decodable(fs[1..], gs[p + 1..], msg[1..]))
  {
    RemainingKept(fs, gs, p);
    assert gs[p..][1..] == gs[p + 1..] && final[p + 1..] == final[p..][1..];
  }

  lemma DroppedTail(fs: seq<Field>, gs: seq<Field>, p: nat, msg: Message, final: Message)
    requires Remaining(fs, gs, p) && SlotsTyped(fs, msg) && LengthsFit(fs, msg) && FieldsBytes(fs, msg).Some?
    requires |final| == |gs| && final[p..] == Project(fs, gs[p..], msg) && fs != [] && !Kept(fs[0], gs[p..])
    ensures SlotTyped(fs[0], msg[0]) && FindTag(gs, fs[0].tag) == None
    ensures Remaining(fs[1..], gs, p) && SlotsTyped(fs[1..], msg[1..]) && LengthsFit(fs[1..], msg[1..])
    ensures FieldsBytes(fs[1..], msg[1..]).Some? && final[p..] == Project(fs[1..], gs[p..], msg[1..])
    ensures Decodable(fs, gs[p..], msg) ==
            (SkippableSlot(fs[0], msg[0]) && Decodable(fs[1..], gs[p..], msg[1..]))
  {
    RemainingDropped(fs, gs, p);
  }

  lemma FieldsRoundTrip(fs: seq<Field>, gs: seq<Field>, p: nat, msg: Message, final: Message, seen: set<nat>,
                        tail: seq<byte>)
    requires Remaining(fs, gs, p) && SlotsTyped(fs, msg) && LengthsFit(fs, msg) && FieldsBytes(fs, msg).Some?
    requires |final| == |gs| && OneofsTyped(gs, final) && final[p..] == Project(fs, gs[p..], msg)
    requires SeenBefore(gs, p, seen) && Ends(tail)
    ensures DecodeFields(gs, FieldsBytes(fs, msg).value + tail, StateAt(gs, final, p), seen) ==
            if Decodable(fs, gs[p..], msg) then Ok(final, AfterEnd(tail)) else Fail
    decreases fs, 5
  {
    if fs == [] {
      assert gs[p..] == [] && StateAt(gs, final, p) == final;
      assert FieldsBytes(fs, msg).value + tail == tail;
      EndOfMessage(gs, final, seen, tail);
    } else if Kept(fs[0], gs[p..]) {
      KeptTail(fs, gs, p, msg, final);
      FirstKept(fs, gs, p, msg, final, seen, tail);
      SeenOneMore(gs, p, seen, Omitted(fs[0], msg[0]));
      FieldsRoundTrip(fs[1..], gs, p + 1, msg[1..], final, if Omitted(fs[0], msg[0]) then seen else seen + {p}, tail);
    } else {
      DroppedTail(fs, gs, p, msg, final);
      FirstDropped(fs, gs, msg, StateAt(gs, final, p), seen, tail);
      FieldsRoundTrip(fs[1..], gs, p, msg[1..], final, seen, tail);
    }
  }

  lemma FirstKept(fs: seq<Field>, gs: seq<Field>, p: nat, msg: Message, final: Message, seen: set<nat>, tail: seq<byte>)
    requires Remaining(fs, gs, p) && SlotsTyped(fs, msg) && LengthsFit(fs, msg) && FieldsBytes(fs, msg).Some?
             && fs != []
    requires |final| == |gs| && OneofsTyped(gs, final) && final[p..] == Project(fs, gs[p..], msg)
    requires Kept(fs[0], gs[p..])
    ensures FieldsBytes(fs[1..], msg[1..]).Some? && SlotTyped(fs[0], msg[0])
    ensures var rest := FieldsBytes(fs[1..], msg[1..]).value + tail;
            DecodeFields(gs, FieldsBytes(fs, msg).value + tail, StateAt(gs, final, p), seen) ==
            if DecodableSlot(fs[0], gs[p], msg[0])
            then DecodeFields(gs, rest, StateAt(gs, final, p + 1), if Omitted(fs[0], msg[0]) then seen else seen + {p})
            else Fail
    decreases fs, 4
  {
    FieldsAppend(fs, msg, tail);
    assert SlotTyped(fs[0], msg[0]);
    RemainingKept(fs, gs, p);
    KeepSlot(fs[0], msg[0], SlotBytes(fs[0], msg[0]).value, gs, p, final, seen,
             FieldsBytes(fs[1..], msg[1..]).value + tail);
  }

  lemma FirstDropped(fs: seq<Field>, gs: seq<Field>, msg: Message, st: Message, seen: set<nat>, tail: seq<byte>)
    requires SlotsTyped(fs, msg) && LengthsFit(fs, msg) && FieldsBytes(fs, msg).Some? && fs != [] && |st| == |gs|
    requires 0 < fs[0].tag < 0x2000_0000 && FindTag(gs, fs[0].tag) == None
    ensures FieldsBytes(fs[1..], msg[1..]).Some? && SlotTyped(fs[0], msg[0])
    ensures DecodeFields(gs, FieldsBytes(fs, msg).value + tail, st, seen) ==
            if SkippableSlot(fs[0], msg[0]) then DecodeFields(gs, FieldsBytes(fs[1..], msg[1..]).value + tail, st, seen)
            else Fail
  {
    FieldsAppend(fs, msg, tail);
    assert SlotTyped(fs[0], msg[0]);
    SkipSlot(fs[0], msg[0], SlotBytes(fs[0], msg[0]).value, gs, st, seen, FieldsBytes(fs[1..], msg[1..]).value + tail);
  }

  lemma {:induction false} UnionStaysEmpty(h: Field, fs: seq<Field>, gs: seq<Field>, msg: Message)
    requires SlotsTyped(fs, msg) && Drops(fs, gs)
    requires forall q :: 0 <= q < |fs| && SameUnion(h, fs[q]) ==> msg[q] == []
    ensures forall q :: 0 <= q < |gs| && SameUnion(h, gs[q]) ==> Project(fs, gs, msg)[q] == []
  {
    if fs != [] {
      if Kept(fs[0], gs) {
        UnionStaysEmpty(h, fs[1..], gs[1..], msg[1..]);
        var r := Project(fs, gs, msg);
        assert r[1..] == Project(fs[1..], gs[1..], msg[1..]);
        assert forall q :: 0 < q < |gs| ==> gs[q] == gs[1..][q - 1] && r[q] == r[1..][q - 1];
      } else {
        UnionStaysEmpty(h, fs[1..], gs, msg[1..]);
      }
    }
  }

  lemma {:induction false} UnionsProject(fs: seq<Field>, gs: seq<Field>, msg: Message)
    requires SlotsTyped(fs, msg) && Drops(fs, gs) && OneofsTyped(fs, msg)
    ensures OneofsTyped(gs, Project(fs, gs, msg))
  {
    if fs != [] {
      if Kept(fs[0], gs) {
        UnionsProject(fs[1..], gs[1..], msg[1..]);
        var r := Project(fs, gs, msg);
        assert r[1..] == Project(fs[1..], gs[1..], msg[1..]);
        assert forall q :: 0 < q < |gs| ==> gs[q] == gs[1..][q - 1] && r[q] == r[1..][q - 1];
        if msg[0] != [] {
          UnionStaysEmpty(fs[0], fs[1..], gs[1..], msg[1..]);
        }
      } else {
        UnionsProject(fs[1..], gs, msg[1..]);
      }
    }
  }

  lemma MessageRoundTrip(fs: seq<Field>, gs: seq<Field>, msg: Message, tail: seq<byte>)
    requires Typed(fs, msg) && Drops(fs, gs) && WellFormed(fs) && WellFormed(gs) && Ends(tail)
    requires MessageBytes(fs, msg).Some? && MessageLengths(fs, msg, TWO_TO_THE_63)
    ensures DecodeFields(gs, MessageBytes(fs, msg).value + tail, Defaults(gs), {}) ==
            if Decodable(fs, gs, msg) then Ok(Project(fs, gs, msg), AfterEnd(tail)) else Fail
    decreases fs, 6
  {
    var final := Project(fs, gs, msg);
    UnionsProject(fs, gs, msg);
    assert gs[0..] == gs && final[0..] == final && StateAt(gs, final, 0) == Defaults(gs);
    FieldsRoundTrip(fs, gs, 0, msg, final, {}, tail);
  }

  // ---------- The main results ----------

  /** Forward compatibility. A receiver that has dropped any fields, at any depth, gets exactly the projection of the
      message, provided every string it keeps leaves room for the terminator and every length prefix fits 32 bits,
      and an error otherwise. Behind the message may stand a zero tag and anything after it. */
  lemma ForwardCompatible(fs: seq<Field>, gs: seq<Field>, msg: Message, tail: seq<byte>)
    requires Typed(fs, msg) && Drops(fs, gs) && WellFormed(fs) && WellFormed(gs) && Ends(tail)
    requires MessageBytes(fs, msg).Some? && MessageLengths(fs, msg, TWO_TO_THE_63)
    ensures DecodeMessage(gs, MessageBytes(fs, msg).value + tail) ==
            if Decodable(fs, gs, msg) then Ok(Project(fs, gs, msg), AfterEnd(tail)) else Fail
  {
    MessageRoundTrip(fs, gs, msg, tail);
  }

  lemma {:induction false} MatchesItself(f: Field)
    ensures Matches(f, f)
    decreases f, 0
  {
    if f.ltype.Submessage? {
      DropsNothing(f.sub);
    }
  }

  lemma {:induction false} DropsNothing(fs: seq<Field>)
    ensures Drops(fs, fs)
    decreases fs, 1
  {
    if fs != [] {
      MatchesItself(fs[0]);
      DropsNothing(fs[1..]);
    }
  }

  lemma {:induction false} ValueProjectsToItself(f: Field, v: Value)
    requires ValueTyped(f, v) && Matches(f, f)
    ensures ProjectValue(f, f, v) == v
    decreases f, 0
  {
    if f.ltype.Submessage? {
      assert Typed(f.sub, v.slots) && Drops(f.sub, f.sub);
      ProjectsToItself(f.sub, v.slots);
    }
  }

  lemma {:induction false} SlotProjectsToItself(f: Field, slot: Slot)
    requires (forall k :: 0 <= k < |slot| ==> ValueTyped(f, slot[k])) && Matches(f, f)
    ensures ProjectSlot(f, f, slot) == slot
    decreases f, 1, |slot|
  {
    if slot != [] {
      ValueProjectsToItself(f, slot[0]);
      SlotProjectsToItself(f, slot[1..]);
    }
  }

  lemma {:induction false} ProjectsToItself(fs: seq<Field>, msg: Message)
    requires SlotsTyped(fs, msg) && Drops(fs, fs)
    ensures Project(fs, fs, msg) == msg
    decreases fs, 2
  {
    if fs != [] {
      assert SlotTyped(fs[0], msg[0]);
      SlotProjectsToItself(fs[0], msg[0]);
      ProjectsToItself(fs[1..], msg[1..]);
    }
  }

  /** The round trip: with the sender's own descriptor the decoder gives back the message, every field and value. */
  lemma RoundTrip(fs: seq<Field>, msg: Message, tail: seq<byte>)
    requires Typed(fs, msg) && WellFormed(fs) && Ends(tail)
    requires MessageBytes(fs, msg).Some? && MessageLengths(fs, msg, TWO_TO_THE_63)
    ensures Drops(fs, fs)
    ensures DecodeMessage(fs, MessageBytes(fs, msg).value + tail) ==
            if Decodable(fs, fs, msg) then Ok(msg, AfterEnd(tail)) else Fail
  {
    DropsNothing(fs);
    ProjectsToItself(fs, msg);
    ForwardCompatible(fs, fs, msg, tail);
  }

  /** The delimited form comes back, and reading stops right behind it, exactly when the message can be decoded and its
      own length fits 32 bits; otherwise it is refused. */
  lemma DelimitedRoundTrip(fs: seq<Field>, msg: Message, rest: seq<byte>)
    requires Typed(fs, msg) && WellFormed(fs)
    requires MessageBytes(fs, msg).Some? && MessageLengths(fs, msg, TWO_TO_THE_63)
    requires |MessageBytes(fs, msg).value| < TWO_TO_THE_63
    ensures Drops(fs, fs)
    ensures var bytes := MessageBytes(fs, msg).value;
            DecodeDelimited(fs, Prefixed(bytes) + rest) ==
            if Decodable(fs, fs, msg) && |bytes| < TWO_TO_THE_32 then Ok(msg, rest) else Fail
  {
    var bytes := MessageBytes(fs, msg).value;
    PrefixedRoundTrip(bytes, rest);
    RoundTrip(fs, msg, []);
    assert bytes + [] == bytes;
  }

  /** A string that fills its array is encoded, and what is encoded cannot be decoded. */
  lemma FullStringIsLost()
    ensures var f := Field(1, StringField, Required, 0, 0, 2, 0, Blob([]), []);
            var msg := [[Blob([0x68, 0x69])]];
            Typed([f], msg) && WellFormed([f]) && MessageBytes([f], msg).Some?
            && DecodeMessage([f], MessageBytes([f], msg).value) == Fail
  {
    var f := Field(1, StringField, Required, 0, 0, 2, 0, Blob([]), []);
    var v: Value := Blob([0x68, 0x69]);
    var msg: Message := [[v]];
    assert WellFormed(f.sub);
    assert ValueTyped(f, f.dflt) && ValueTyped(f, v);
    assert SlotTyped(f, [v]);
    assert [f][1..] == [] && msg[1..] == [];
    assert ValueBytes(f, v).Some? && TaggedBytes(f, v).Some? && SlotBytes(f, [v]).Some?;
    assert FieldsBytes([f][1..], msg[1..]) == Some([]);
    assert MessageBytes([f], msg).Some?;
    RoundTrip([f], msg, []);
    assert Matches(f, f) && !DecodableValue(f, f, v);
    assert !DecodableSlot(f, f, [v]);
    var bytes := MessageBytes([f], msg).value;
    assert bytes + [] == bytes;
  }
}

/** Whatever bytes it is given, the decoder only produces messages that fit their structures. */
module PbTyped {
  import opened Bytes
  import opened Varint
  import opened PbMessages
  import opened PbEncode
  import opened PbDecode

  /** What the array of the field has room for: bytes behind their length word, a string with its terminator. */
  predicate InArray(f: Field, v: Value) {
    && (f.ltype.BytesField? ==> v.Blob? && |v.b| + BYTES_OFFSET <= f.dataSize)
    && (f.ltype.StringField? ==> v.Blob? && |v.b| < f.dataSize)
    && (f.ltype.FixedLengthBytes? ==> v.Blob? && |v.b| == f.dataSize)
  }

  /** `v` has the field's type and overruns no array, at any depth. */
  predicate FitsValue(f: Field, v: Value)
    decreases f, 0
  {
    ValueTyped(f, v) && InArray(f, v) && (f.ltype.Submessage? ==> Fits(f.sub, v.slots))
  }

  predicate FitsValues(f: Field, vs: seq<Value>)
    decreases f, 1
  {
    forall k :: 0 <= k < |vs| ==> FitsValue(f, vs[k])
  }

  predicate FitsSlot(f: Field, slot: Slot)
    decreases f, 2
  {
    SlotTyped(f, slot) && (f.htype.Repeated? ==> |slot| <= f.arraySize) && FitsValues(f, slot)
  }

  predicate Fits(fs: seq<Field>, msg: Message)
    decreases fs, 3
  {
    Typed(fs, msg) && forall k :: 0 <= k < |fs| ==> FitsSlot(fs[k], msg[k])
  }

  /** The default of every field lies in the field's own array. The generated initializers are of the array types, so
      only a string initializer without room for its terminator could break this. */
  predicate DefaultsInArrays(fs: seq<Field>) {
    forall k :: 0 <= k < |fs| ==>
      (fs[k].ltype.Submessage? || InArray(fs[k], fs[k].dflt)) && DefaultsInArrays(fs[k].sub)
  }

  predicate Held(f: Field) {
    WellFormedField(f) && (f.ltype.Submessage? || InArray(f, f.dflt)) && DefaultsInArrays(f.sub)
  }

  // ---------- Values ----------

  lemma IntegerTyped(f: Field, s: seq<byte>)
    requires f.ltype.Signed? || f.ltype.Unsigned? || f.ltype.ZigZagged?
    ensures var r := DecodeInteger(f, s); r.Ok? ==> ValueTyped(f, r.value)
  {
  }

  lemma {:induction false} FromFixedBound(s: seq<byte>)
    ensures FromFixed(s) < Pow256(|s|)
  {
    if s != [] {
      FromFixedBound(s[1..]);
    }
  }

  lemma FixedTyped(f: Field, n: nat, s: seq<byte>)
    requires (f.ltype.Fixed32? && n == 4) || (f.ltype.Fixed64? && n == 8)
    ensures var r := DecodeFixed(n, s); r.Ok? ==> ValueTyped(f, r.value)
  {
    if n <= |s| {
      FromFixedBound(s[..n]);
      assert Pow256(4) == TWO_TO_THE_32 && Pow256(8) == TWO_TO_THE_64;
    }
  }

  lemma {:induction false} NoNulInside(s: seq<byte>)
    ensures |UpToNul(s)| <= |s| && forall k :: 0 <= k < |UpToNul(s)| ==> UpToNul(s)[k] != 0
  {
    if s != [] {
      NoNulInside(s[1..]);
    }
  }

  lemma BlobTyped(f: Field, s: seq<byte>)
    requires f.ltype.BytesField? || f.ltype.StringField? || f.ltype.FixedLengthBytes?
    ensures var r := DecodeBlob(f, s); r.Ok? ==> ValueTyped(f, r.value) && InArray(f, r.value)
  {
    var n := DecodeVarint32(s);
    if n.Ok? && n.value <= |n.rest| {
      NoNulInside(n.rest[..n.value]);
    }
  }

  // ---------- Messages ----------

  lemma DefaultSlotFits(f: Field)
    requires Held(f)
    ensures FitsSlot(f, DefaultSlot(f))
    decreases f, 0
  {
    if f.ltype.Submessage? {
      DefaultsFit(f.sub);
    }
    assert FitsValue(f, DefaultValue(f));
  }

  lemma DefaultsFit(fs: seq<Field>)
    requires WellFormed(fs) && DefaultsInArrays(fs)
    ensures Fits(fs, Defaults(fs))
    decreases fs, 1
  {
    forall k | 0 <= k < |fs|
      ensures SlotTyped(fs[k], Defaults(fs)[k]) && FitsSlot(fs[k], Defaults(fs)[k])
    {
      DefaultsAt(fs, k);
      DefaultSlotFits(fs[k]);
    }
    forall k | 0 <= k < |fs| && fs[k].htype.Oneof?
      ensures Defaults(fs)[k] == []
    {
      DefaultsAt(fs, k);
    }
  }

  lemma StartFits(f: Field, slot: Slot)
    requires FitsSlot(f, slot) && Held(f)
    ensures f.ltype.Submessage? ==> Fits(f.sub, StartMessage(f, slot))
  {
    DefaultsFit(f.sub);
    if slot != [] {
      assert FitsValue(f, slot[0]);
    }
  }

  lemma ValueDecodedFits(f: Field, start: Message, s: seq<byte>)
    requires |start| == |f.sub| && Held(f) && (f.ltype.Submessage? ==> Fits(f.sub, start))
    ensures var r := DecodeValue(f, start, s); r.Ok? ==> FitsValue(f, r.value)
    decreases f, 0
  {
    match f.ltype
    case Signed | Unsigned | ZigZagged => IntegerTyped(f, s);
    case Fixed32 => FixedTyped(f, 4, s);
    case Fixed64 => FixedTyped(f, 8, s);
    case BytesField | StringField | FixedLengthBytes => BlobTyped(f, s);
    case Submessage =>
      var b := DecodePrefixed(s);
      if b.Ok? {
        FieldsDecodedFit(f.sub, b.value, start, {});
      }
  }

  lemma {:induction false} PackedDecodedFits(f: Field, s: seq<byte>, vs: seq<Value>)
    requires Packable(f.ltype) && Held(f) && FitsValues(f, vs) && |vs| <= f.arraySize
    ensures var r := DecodePacked(f, s, vs); r.Some? ==> FitsValues(f, r.value) && |r.value| <= f.arraySize
    decreases f, 1, |s|
  {
    if s != [] && |vs| < f.arraySize {
      var v := DecodeValue(f, Defaults(f.sub), s);
      ValueDecodedFits(f, Defaults(f.sub), s);
      if v.Ok? {
        PackedDecodedFits(f, v.rest, vs + [v.value]);
      }
    }
  }

  lemma OneMoreFits(f: Field, slot: Slot, v: Value)
    requires FitsSlot(f, slot) && FitsValue(f, v) && (f.htype.Repeated? ==> |slot| < f.arraySize)
    ensures FitsSlot(f, if f.htype.Repeated? then slot + [v] else [v])
  {
  }

  lemma SlotDecodedFits(f: Field, wireType: nat, s: seq<byte>, slot: Slot)
    requires Held(f) && FitsSlot(f, slot)
    ensures var r := DecodeSlot(f, wireType, s, slot); r.Ok? ==> FitsSlot(f, r.value)
    decreases f, 2
  {
    if f.htype.Repeated? && wireType == WT_STRING && Packable(f.ltype) {
      var b := DecodePrefixed(s);
      if b.Ok? {
        PackedDecodedFits(f, b.value, slot);
      }
    } else {
      var v := DecodeValue(f, StartMessage(f, slot), s);
      StartFits(f, slot);
      ValueDecodedFits(f, StartMessage(f, slot), s);
      if v.Ok? && (f.htype.Repeated? ==> |slot| < f.arraySize) {
        OneMoreFits(f, slot, v.value);
      }
    }
  }

  lemma StoreFits(fs: seq<Field>, msg: Message, k: nat, slot: Slot)
    requires Fits(fs, msg) && k < |fs| && FitsSlot(fs[k], slot)
    ensures Fits(fs, Store(fs, msg, k, slot))
  {
    var m := Store(fs, msg, k, slot);
    forall i | 0 <= i < |fs|
      ensures SlotTyped(fs[i], m[i]) && FitsSlot(fs[i], m[i])
    {
      assert SlotTyped(fs[i], msg[i]) && FitsSlot(fs[i], msg[i]);
    }
    forall p, q | 0 <= p < q < |fs| && SameUnion(fs[p], fs[q])
      ensures m[p] == [] || m[q] == []
    {
      assert msg[p] == [] || msg[q] == [];
    }
  }

  lemma {:induction false} FieldsDecodedFit(fs: seq<Field>, s: seq<byte>, msg: Message, seen: set<nat>)
    requires WellFormed(fs) && DefaultsInArrays(fs) && Fits(fs, msg)
    ensures var r := DecodeFields(fs, s, msg, seen); r.Ok? ==> Fits(fs, r.value)
    decreases fs, 3, |s|, 0
  {
    if s != [] {
      var h := DecodeTag(s);
      if h.Header? {
        var k := FindTag(fs, h.tag);
        if k.Some? {
          OneFieldFits(fs, h, msg, seen, k.value);
        } else if fs != [] || h.tag != 0 {
          var r := SkipField(h.wireType, h.rest);
          if r.Ok? {
            FieldsDecodedFit(fs, r.rest, msg, seen);
          }
        }
      }
    }
  }

  lemma OneFieldFits(fs: seq<Field>, h: FieldHeader, msg: Message, seen: set<nat>, k: nat)
    requires WellFormed(fs) && DefaultsInArrays(fs) && Fits(fs, msg) && h.Header? && k < |fs|
    ensures var r := DecodeSlot(fs[k], h.wireType, h.rest, msg[k]);
            r.Ok? ==>
              var m := DecodeFields(fs, r.rest, Store(fs, msg, k, r.value), seen + {k});
              m.Ok? ==> Fits(fs, m.value)
    decreases fs, 3, |h.rest|, 1
  {
    assert FitsSlot(fs[k], msg[k]);
    var r := DecodeSlot(fs[k], h.wireType, h.rest, msg[k]);
    SlotDecodedFits(fs[k], h.wireType, h.rest, msg[k]);
    if r.Ok? {
      StoreFits(fs, msg, k, r.value);
      FieldsDecodedFit(fs, r.rest, Store(fs, msg, k, r.value), seen + {k});
    }
  }

  /** Whatever the bytes, a message that is decoded is one its structures can hold: integers within their widths, bytes
      and strings with length word or terminator inside their arrays, no repeated field beyond its array, no union with
      two members set. */
  lemma DecodedMessageFits(fs: seq<Field>, s: seq<byte>)
    requires WellFormed(fs) && DefaultsInArrays(fs)
    ensures var r := DecodeMessage(fs, s); r.Ok? ==> Fits(fs, r.value)
  {
    DefaultsFit(fs);
    FieldsDecodedFit(fs, s, Defaults(fs), {});
  }
}

/** The nanopb encoder: the bytes of a message, and the stream writer that produces them. */
module PbEncode {
  import opened Bytes
  import opened Varint
  import opened PbMessages

  const WT_VARINT: nat := 0
  const WT_64BIT: nat := 1
  const WT_STRING: nat := 2
  const WT_32BIT: nat := 5

  // ---------- The wire format ----------

  function WireType(t: LType): nat {
    match t
    case Signed | Unsigned | ZigZagged => WT_VARINT
    case Fixed32 => WT_32BIT
    case Fixed64 => WT_64BIT
    case _ => WT_STRING
  }

  function TagBytes(wireType: nat, tag: nat): seq<byte> {
    VarintBytes(8 * tag + wireType)
  }

  function Prefixed(payload: seq<byte>): seq<byte> {
    VarintBytes(|payload|) + payload
  }

  function Concat(a: Option<seq<byte>>, b: Option<seq<byte>>): Option<seq<byte>> {
    if a.Some? && b.Some? then Some(a.value + b.value) else None
  }

  function AsWord(i: int): nat
    requires -TWO_TO_THE_63 <= i
  {
    if i < 0 then i + TWO_TO_THE_64 else i
  }

  /** One value without its tag; None where the encoder reports an error. */
  function ValueBytes(f: Field, v: Value): Option<seq<byte>>
    requires ValueTyped(f, v)
    decreases f, 0
  {
    match f.ltype
    case Signed => if IntLimit(f.dataSize) == 0 then None else Some(VarintBytes(AsWord(v.i)))
    case Unsigned => if IntLimit(f.dataSize) == 0 then None else Some(VarintBytes(v.i))
    case ZigZagged => if IntLimit(f.dataSize) == 0 then None else Some(VarintBytes(ZigZag(v.i)))
    case Fixed32 => Some(FixedBytes(v.i, 4))
    case Fixed64 => Some(FixedBytes(v.i, 8))
    case BytesField => if |v.b| + BYTES_OFFSET > f.dataSize then None else Some(Prefixed(v.b))
    case StringField => Some(Prefixed(v.b))
    case FixedLengthBytes => Some(Prefixed(v.b))
    case Submessage =>
      var payload := MessageBytes(f.sub, v.slots);
      if payload.Some? then Some(Prefixed(payload.value)) else None
  }

  /** Packed elements: values back to back. */
  function PackedBytes(f: Field, vs: seq<Value>): Option<seq<byte>>
    requires forall k :: 0 <= k < |vs| ==> ValueTyped(f, vs[k])
    decreases f, 1, |vs|
  {
    if vs == [] then Some([]) else Concat(ValueBytes(f, vs[0]), PackedBytes(f, vs[1..]))
  }

  function TaggedBytes(f: Field, v: Value): Option<seq<byte>>
    requires ValueTyped(f, v)
    decreases f, 1, 0
  {
    Concat(Some(TagBytes(WireType(f.ltype), f.tag)), ValueBytes(f, v))
  }

  /** Unpacked elements: each with its tag. */
  function UnpackedBytes(f: Field, vs: seq<Value>): Option<seq<byte>>
    requires forall k :: 0 <= k < |vs| ==> ValueTyped(f, vs[k])
    decreases f, 2, |vs|
  {
    if vs == [] then Some([]) else Concat(TaggedBytes(f, vs[0]), UnpackedBytes(f, vs[1..]))
  }

  function ArrayBytes(f: Field, vs: seq<Value>): Option<seq<byte>>
    requires forall k :: 0 <= k < |vs| ==> ValueTyped(f, vs[k])
    decreases f, 3
  {
    if vs == [] then Some([])
    else if |vs| > f.arraySize then None
    else if Packable(f.ltype) then
      var payload := PackedBytes(f, vs);
      if payload.Some? then Some(TagBytes(WT_STRING, f.tag) + Prefixed(payload.value)) else None
    else UnpackedBytes(f, vs)
  }

  function SlotBytes(f: Field, slot: Slot): Option<seq<byte>>
    requires SlotTyped(f, slot)
    decreases f, 4
  {
    match f.htype
    case Repeated => ArrayBytes(f, slot)
    case Singular => if IsProto3Default(f, slot[0]) then Some([]) else TaggedBytes(f, slot[0])
    case _ => if slot == [] then Some([]) else TaggedBytes(f, slot[0])
  }

  function FieldsBytes(fs: seq<Field>, msg: Message): Option<seq<byte>>
    requires |msg| == |fs| && forall k :: 0 <= k < |fs| ==> SlotTyped(fs[k], msg[k])
    decreases fs, 5, |fs|
  {
    if fs == [] then Some([]) else Concat(SlotBytes(fs[0], msg[0]), FieldsBytes(fs[1..], msg[1..]))
  }

  /** The encoding of a message: its fields in descriptor order. */
  function MessageBytes(fs: seq<Field>, msg: Message): Option<seq<byte>>
    requires Typed(fs, msg)
    decreases fs, 6
  {
    FieldsBytes(fs, msg)
  }

  // ---------- Sizes ----------

  predicate Short(bytes: Option<seq<byte>>, limit: nat) {
    bytes.Some? ==> |bytes.value| < limit
  }

  /** Every length prefix that encoding `v` computes is below `limit`. */
  predicate ValueLengths(f: Field, v: Value, limit: nat)
    requires ValueTyped(f, v)
    decreases f, 7
  {
    f.ltype.Submessage? ==> MessageLengths(f.sub, v.slots, limit) && Short(MessageBytes(f.sub, v.slots), limit)
  }

  predicate SlotLengths(f: Field, slot: Slot, limit: nat)
    requires SlotTyped(f, slot)
    decreases f, 8
  {
    && (forall k :: 0 <= k < |slot| ==> ValueLengths(f, slot[k], limit))
    && (f.htype.Repeated? && Packable(f.ltype) && |slot| <= f.arraySize ==> Short(PackedBytes(f, slot), limit))
  }

  predicate MessageLengths(fs: seq<Field>, msg: Message, limit: nat)
    requires Typed(fs, msg)
    decreases fs, 9
  {
    forall k :: 0 <= k < |fs| ==> SlotLengths(fs[k], msg[k], limit)
  }
}

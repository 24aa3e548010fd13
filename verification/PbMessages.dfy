/** Field descriptors and message trees of nanopb, for statically allocated fields. */
module PbMessages {
  import opened Bytes

  /** The scalar type of a field; the five first ones may be packed. */
  datatype LType =
    | Signed | Unsigned | ZigZagged | Fixed32 | Fixed64
    | BytesField | StringField | Submessage | FixedLengthBytes

  /** The repetition rule. Singular is a proto3 field: optional, without a has-flag.
      Fields of one union carry the same number. */
  datatype HType = Required | Optional | Singular | Repeated | Oneof(union: nat)

  /** The type pb_size_t of a build with 32-bit fields. */
  type size32 = x: int | 0 <= x <= PB_SIZE_MAX

  /** `dflt` is the value a cleared field gets; `sub` describes the submessage, if any. */
  datatype Field = Field(
    tag: size32, ltype: LType, htype: HType,
    dataOffset: size32, sizeOffset: int, dataSize: size32, arraySize: size32,
    dflt: Value, sub: seq<Field>)

  datatype Value = Int(i: int) | Blob(b: seq<byte>) | Msg(slots: Message)

  /** What one field holds: exactly one value for required and singular fields, at most one for optional fields
      and members of a union, and the counted elements of a repeated field. */
  type Slot = seq<Value>
  type Message = seq<Slot>

  const PB_SIZE_MAX: int := 0xFFFF_FFFF
  /** offsetof(pb_bytes_array_t, bytes) with 32-bit sizes. */
  const BYTES_OFFSET: nat := 4

  predicate Packable(t: LType) {
    t.Signed? || t.Unsigned? || t.ZigZagged? || t.Fixed32? || t.Fixed64?
  }

  /** The upper bound of a `size`-byte unsigned integer, or 0 for a size no integer field can have. */
  function IntLimit(size: nat): int {
    if size == 1 then 0x100 else if size == 2 then 0x1_0000
    else if size == 4 then TWO_TO_THE_32 else if size == 8 then TWO_TO_THE_64 else 0
  }

  predicate FitsSigned(i: int, size: nat) {
    -IntLimit(size) <= 2 * i < IntLimit(size)
  }

  predicate FitsUnsigned(i: int, size: nat) {
    0 <= i < IntLimit(size)
  }

  /** `v` is something the C representation of field `f` can hold. A string is what precedes its terminator,
      or the whole buffer when there is none. */
  predicate ValueTyped(f: Field, v: Value)
    decreases f, 0
  {
    match f.ltype
    case Signed => v.Int? && (IntLimit(f.dataSize) == 0 || FitsSigned(v.i, f.dataSize))
    case ZigZagged => v.Int? && (IntLimit(f.dataSize) == 0 || FitsSigned(v.i, f.dataSize))
    case Unsigned => v.Int? && (IntLimit(f.dataSize) == 0 || FitsUnsigned(v.i, f.dataSize))
    case Fixed32 => v.Int? && FitsUnsigned(v.i, 4)
    case Fixed64 => v.Int? && FitsUnsigned(v.i, 8)
    case BytesField => v.Blob? && |v.b| <= PB_SIZE_MAX
    case StringField => v.Blob? && |v.b| <= f.dataSize && forall k :: 0 <= k < |v.b| ==> v.b[k] != 0
    case Submessage => v.Msg? && Typed(f.sub, v.slots)
    case FixedLengthBytes => v.Blob? && |v.b| == f.dataSize
  }

  predicate SlotTyped(f: Field, slot: Slot)
    decreases f, 1
  {
    && (f.htype.Required? || f.htype.Singular? ==> |slot| == 1)
    && (f.htype.Optional? || f.htype.Oneof? ==> |slot| <= 1)
    && forall k :: 0 <= k < |slot| ==> ValueTyped(f, slot[k])
  }

  predicate Typed(fs: seq<Field>, msg: Message)
    decreases fs, 2
  {
    && |msg| == |fs|
    && (forall k :: 0 <= k < |fs| ==> SlotTyped(fs[k], msg[k]))
    && OneofsTyped(fs, msg)
  }

  predicate SameUnion(f: Field, g: Field) {
    f.htype.Oneof? && f.htype == g.htype
  }

  /** A union holds at most one of its members. */
  predicate OneofsTyped(fs: seq<Field>, msg: Message)
    requires |msg| == |fs|
  {
    forall p, q :: 0 <= p < q < |fs| && SameUnion(fs[p], fs[q]) ==> msg[p] == [] || msg[q] == []
  }

  // ---------- Cleared messages ----------

  function DefaultValue(f: Field): Value
    decreases f, 0
  {
    if f.ltype.Submessage? then Msg(Defaults(f.sub)) else f.dflt
  }

  function DefaultSlot(f: Field): Slot
    decreases f, 1
  {
    if f.htype.Required? || f.htype.Singular? then [DefaultValue(f)] else []
  }

  /** The message after pb_message_set_to_defaults. */
  function Defaults(fs: seq<Field>): (m: Message)
    ensures |m| == |fs|
    decreases fs
  {
    if fs == [] then [] else [DefaultSlot(fs[0])] + Defaults(fs[1..])
  }

  lemma {:induction false} DefaultsAt(fs: seq<Field>, k: nat)
    requires k < |fs|
    ensures Defaults(fs)[k] == DefaultSlot(fs[k])
  {
    if k > 0 {
      DefaultsAt(fs[1..], k - 1);
    }
  }

  /** The zero test that decides whether a singular field is written. */
  predicate IsProto3Default(f: Field, v: Value)
    decreases f, 0
  {
    match f.ltype
    case BytesField => v == Blob([])
    case StringField => v == Blob([])
    case FixedLengthBytes => f.dataSize == 0
    case Submessage => v.Msg? && AllProto3Default(f.sub, v.slots)
    case _ => v == Int(0)
  }

  predicate SlotIsProto3Default(f: Field, slot: Slot)
    decreases f, 1
  {
    match f.htype
    case Required => false
    case Singular => |slot| == 1 && IsProto3Default(f, slot[0])
    case _ => slot == []
  }

  predicate AllProto3Default(fs: seq<Field>, msg: Message)
    decreases fs
  {
    fs == [] || (|msg| > 0 && SlotIsProto3Default(fs[0], msg[0]) && AllProto3Default(fs[1..], msg[1..]))
  }
}

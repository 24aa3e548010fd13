/** The protocol-buffer wire format of a message, and that this is what the encoder writes. */
module PbWire {
  import opened Bytes
  import opened Varint
  import opened PbMessages
  import opened PbEncode

  /** What follows a key: a varint, eight bytes, a counted payload or four bytes. */
  datatype Body = Number(v: nat) | Eight(v: nat) | Counted(payload: seq<byte>) | Four(v: nat)

  /** The key is the field's number and, in the low three bits, the kind of body. */
  function Key(number: nat, body: Body): seq<byte> {
    VarintBytes(8 * number + match body case Number(_) => 0 case Eight(_) => 1 case Counted(_) => 2 case Four(_) => 5)
  }

  function Spelled(body: Body): seq<byte> {
    match body
    case Number(v) => VarintBytes(v)
    case Eight(v) => FixedBytes(v, 8)
    case Counted(payload) => VarintBytes(|payload|) + payload
    case Four(v) => FixedBytes(v, 4)
  }

  function Keyed(number: nat, body: Body): seq<byte> {
    Key(number, body) + Spelled(body)
  }

  /** How a value of a field is written. A negative number goes out as the 64-bit word it is congruent to, and zigzag
      puts the signs into the lowest bit. */
  function BodyOf(f: Field, v: Value): Body
    requires ValueTyped(f, v)
    decreases f, 0
  {
    match f.ltype
    case Signed | Unsigned => Number(v.i % 0x1_0000_0000_0000_0000)
    case ZigZagged => Number(if v.i >= 0 then 2 * v.i else 2 * -v.i - 1)
    case Fixed32 => Four(v.i)
    case Fixed64 => Eight(v.i)
    case BytesField | StringField | FixedLengthBytes => Counted(v.b)
    case Submessage => Counted(Wire(f.sub, v.slots))
  }

  /** The values of a packed field, without keys. */
  function Packed(f: Field, vs: seq<Value>): seq<byte>
    requires forall k :: 0 <= k < |vs| ==> ValueTyped(f, vs[k])
    decreases f, 1, |vs|
  {
    if vs == [] then [] else Spelled(BodyOf(f, vs[0])) + Packed(f, vs[1..])
  }

  function Listed(f: Field, vs: seq<Value>): seq<byte>
    requires forall k :: 0 <= k < |vs| ==> ValueTyped(f, vs[k])
    decreases f, 1, |vs|
  {
    if vs == [] then [] else Keyed(f.tag, BodyOf(f, vs[0])) + Listed(f, vs[1..])
  }

  /** A proto3 field that holds zero or nothing, or a message of which nothing is written, is left out. */
  predicate LeftOut(f: Field, v: Value)
    requires ValueTyped(f, v)
    decreases f, 1
  {
    match v
    case Int(i) => i == 0
    case Blob(b) => b == []
    case Msg(slots) => Encodable(f.sub, slots) && Wire(f.sub, slots) == []
  }

  /** What one field writes: numbers of a repeated field are packed into one counted payload. */
  function SlotWire(f: Field, slot: Slot): seq<byte>
    requires SlotTyped(f, slot)
    decreases f, 2
  {
    if slot == [] || (f.htype.Singular? && LeftOut(f, slot[0])) then []
    else if f.htype.Repeated? && !f.ltype.BytesField? && !f.ltype.StringField? && !f.ltype.Submessage?
            && !f.ltype.FixedLengthBytes? then
      Keyed(f.tag, Counted(Packed(f, slot)))
    else Listed(f, slot)
  }

  function FieldsWire(fs: seq<Field>, msg: Message): seq<byte>
    requires |msg| == |fs| && forall k :: 0 <= k < |fs| ==> SlotTyped(fs[k], msg[k])
    decreases fs, 3, |fs|
  {
    if fs == [] then [] else SlotWire(fs[0], msg[0]) + FieldsWire(fs[1..], msg[1..])
  }

  /** The fields in the order of the descriptor. */
  function Wire(fs: seq<Field>, msg: Message): seq<byte>
    requires Typed(fs, msg)
    decreases fs, 4
  {
    FieldsWire(fs, msg)
  }

  // ---------- What can be written ----------

  /** Integers are one, two, four or eight bytes wide, and a counted byte array fits with its four-byte count. */
  predicate ValueEncodable(f: Field, v: Value)
    requires ValueTyped(f, v)
    decreases f, 1
  {
    match f.ltype
    case Signed | Unsigned | ZigZagged => f.dataSize == 1 || f.dataSize == 2 || f.dataSize == 4 || f.dataSize == 8
    case BytesField => |v.b| + 4 <= f.dataSize
    case Submessage => Encodable(f.sub, v.slots)
    case _ => true
  }

  predicate SlotEncodable(f: Field, slot: Slot)
    requires SlotTyped(f, slot)
    decreases f, 2
  {
    || (f.htype.Singular? && LeftOut(f, slot[0]))
    || ((f.htype.Repeated? ==> |slot| <= f.arraySize)
        && forall k :: 0 <= k < |slot| ==> ValueEncodable(f, slot[k]))
  }

  predicate Encodable(fs: seq<Field>, msg: Message)
    requires Typed(fs, msg)
    decreases fs, 3
  {
    forall k :: 0 <= k < |fs| ==> SlotEncodable(fs[k], msg[k])
  }

  // ---------- The encoder writes this ----------

  function Either(encodable: bool, bytes: seq<byte>): Option<seq<byte>> {
    if encodable then Some(bytes) else None
  }

  lemma {:induction false} ValueIsWire(f: Field, v: Value)
    requires ValueTyped(f, v)
    ensures ValueBytes(f, v) == Either(ValueEncodable(f, v), Spelled(BodyOf(f, v)))
    decreases f, 0
  {
    if f.ltype.Submessage? {
      MessageIsWire(f.sub, v.slots);
    }
  }

  lemma KeyIsWire(f: Field, v: Value)
    requires ValueTyped(f, v)
    ensures TagBytes(WireType(f.ltype), f.tag) == Key(f.tag, BodyOf(f, v))
  {
  }

  lemma {:induction false} PackedIsWire(f: Field, vs: seq<Value>)
    requires forall k :: 0 <= k < |vs| ==> ValueTyped(f, vs[k])
    ensures PackedBytes(f, vs) == Either(forall k :: 0 <= k < |vs| ==> ValueEncodable(f, vs[k]), Packed(f, vs))
    decreases f, 1, |vs|
  {
    if vs != [] {
      ValueIsWire(f, vs[0]);
      PackedIsWire(f, vs[1..]);
      assert (forall k :: 0 <= k < |vs| ==> ValueEncodable(f, vs[k])) <==>
             ValueEncodable(f, vs[0]) && forall k :: 0 <= k < |vs[1..]| ==> ValueEncodable(f, vs[1..][k]);
    }
  }

  lemma {:induction false} ListedIsWire(f: Field, vs: seq<Value>)
    requires forall k :: 0 <= k < |vs| ==> ValueTyped(f, vs[k])
    ensures UnpackedBytes(f, vs) == Either(forall k :: 0 <= k < |vs| ==> ValueEncodable(f, vs[k]), Listed(f, vs))
    decreases f, 1, |vs|
  {
    if vs != [] {
      ValueIsWire(f, vs[0]);
      KeyIsWire(f, vs[0]);
      ListedIsWire(f, vs[1..]);
      assert (forall k :: 0 <= k < |vs| ==> ValueEncodable(f, vs[k])) <==>
             ValueEncodable(f, vs[0]) && forall k :: 0 <= k < |vs[1..]| ==> ValueEncodable(f, vs[1..][k]);
    }
  }

  lemma {:induction false} ZeroIsLeftOut(f: Field, v: Value)
    requires ValueTyped(f, v)
    ensures IsProto3Default(f, v) <==> LeftOut(f, v)
    decreases f, 1
  {
    if f.ltype.Submessage? {
      NothingIsWritten(f.sub, v.slots);
    }
  }

  lemma {:induction false} ArrayIsWire(f: Field, vs: seq<Value>)
    requires SlotTyped(f, vs) && f.htype.Repeated?
    ensures SlotBytes(f, vs) == Either(SlotEncodable(f, vs), SlotWire(f, vs))
    decreases f, 2
  {
    PackedIsWire(f, vs);
    ListedIsWire(f, vs);
  }

  lemma {:induction false} OneIsWire(f: Field, v: Value)
    requires ValueTyped(f, v)
    ensures TaggedBytes(f, v) == Either(ValueEncodable(f, v), Listed(f, [v]))
    decreases f, 1
  {
    ValueIsWire(f, v);
    KeyIsWire(f, v);
    var one, word := [v], Keyed(f.tag, BodyOf(f, v));
    assert one[1..] == [] && Listed(f, one) == word + Listed(f, one[1..]);
    assert word + [] == word;
  }

  lemma {:induction false} SlotIsWire(f: Field, slot: Slot)
    requires SlotTyped(f, slot)
    ensures SlotBytes(f, slot) == Either(SlotEncodable(f, slot), SlotWire(f, slot))
    decreases f, 3
  {
    if f.htype.Repeated? {
      ArrayIsWire(f, slot);
    } else if slot != [] {
      assert slot == [slot[0]];
      OneIsWire(f, slot[0]);
      if f.htype.Singular? {
        ZeroIsLeftOut(f, slot[0]);
      }
    }
  }

  lemma {:induction false} FieldsAreWire(fs: seq<Field>, msg: Message)
    requires |msg| == |fs| && forall k :: 0 <= k < |fs| ==> SlotTyped(fs[k], msg[k])
    ensures FieldsBytes(fs, msg) ==
            Either(forall k :: 0 <= k < |fs| ==> SlotEncodable(fs[k], msg[k]), FieldsWire(fs, msg))
    decreases fs, 4, |fs|
  {
    if fs != [] {
      SlotIsWire(fs[0], msg[0]);
      FieldsAreWire(fs[1..], msg[1..]);
      assert (forall k :: 0 <= k < |fs| ==> SlotEncodable(fs[k], msg[k])) <==>
             SlotEncodable(fs[0], msg[0])
             && forall k :: 0 <= k < |fs[1..]| ==> SlotEncodable(fs[1..][k], msg[1..][k]);
    }
  }

  /** The encoder writes every message that can be written in the wire format, and refuses every other. */
  lemma {:induction false} MessageIsWire(fs: seq<Field>, msg: Message)
    requires Typed(fs, msg)
    ensures MessageBytes(fs, msg) == if Encodable(fs, msg) then Some(Wire(fs, msg)) else None
    decreases fs, 5
  {
    FieldsAreWire(fs, msg);
  }

  lemma {:induction false} SlotIsNotWritten(f: Field, slot: Slot)
    requires SlotTyped(f, slot)
    ensures SlotIsProto3Default(f, slot) <==> SlotEncodable(f, slot) && SlotWire(f, slot) == []
    decreases f, 2
  {
    if f.htype.Singular? {
      ZeroIsLeftOut(f, slot[0]);
    }
  }

  /** A message of which nothing is written holds nothing but zeros. */
  lemma {:induction false} NothingIsWritten(fs: seq<Field>, msg: Message)
    requires |msg| == |fs| && forall k :: 0 <= k < |fs| ==> SlotTyped(fs[k], msg[k])
    ensures AllProto3Default(fs, msg) <==>
            (forall k :: 0 <= k < |fs| ==> SlotEncodable(fs[k], msg[k])) && FieldsWire(fs, msg) == []
    decreases fs, 3, |fs|
  {
    if fs != [] {
      SlotIsNotWritten(fs[0], msg[0]);
      NothingIsWritten(fs[1..], msg[1..]);
      assert (forall k :: 0 <= k < |fs| ==> SlotEncodable(fs[k], msg[k])) <==>
             SlotEncodable(fs[0], msg[0])
             && forall k :: 0 <= k < |fs[1..]| ==> SlotEncodable(fs[1..][k], msg[1..][k]);
    }
  }

  // ---------- Bytes ----------

  /** What remains of a number without its `k` lowest digits of seven or eight bits. */
  function Dropped(v: nat, wide: bool, k: nat): nat {
    if k == 0 then v else Dropped(if wide then v / 256 else v / 128, wide, k - 1)
  }

  /** Byte `k` of a varint holds bits 7k to 7k + 6, and all but the last have the top bit set; the last is not zero
      unless it is the only one. */
  lemma {:induction false} VarintIsSpelled(v: nat, k: nat)
    requires k < |VarintBytes(v)|
    ensures VarintBytes(v)[k] == Dropped(v, false, k) % 128 + if k + 1 < |VarintBytes(v)| then 128 else 0
    ensures k + 1 == |VarintBytes(v)| ==> Dropped(v, false, k) < 128 && (k > 0 ==> Dropped(v, false, k) > 0)
    decreases k
  {
    if k > 0 {
      VarintIsSpelled(v / 128, k - 1);
    }
  }

  /** Byte `k` of a fixed-width number holds bits 8k to 8k + 7. */
  lemma {:induction false} FixedIsSpelled(v: nat, n: nat, k: nat)
    requires k < n
    ensures FixedBytes(v, n)[k] == Dropped(v, true, k) % 256
    decreases k
  {
    if k > 0 {
      FixedIsSpelled(v / 256, n - 1, k - 1);
    }
  }

  /** An example: the number 300 in field 1. */
  lemma NumberInFieldOne(f: Field)
    requires f.tag == 1 && f.dataSize == 4 && f.ltype.Unsigned?
    ensures TaggedBytes(f, Int(300)) == Some([0x08, 0xAC, 0x02])
  {
    assert VarintBytes(2) == [2] && VarintBytes(300) == [172] + VarintBytes(2);
    assert VarintBytes(8) + VarintBytes(300) == [0x08, 0xAC, 0x02];
    assert TaggedBytes(f, Int(300)) == Some(VarintBytes(8) + VarintBytes(300));
  }

  /** Another: a 32-bit 7 in field 1. */
  lemma WordInFieldOne(f: Field)
    requires f.tag == 1 && f.ltype.Fixed32?
    ensures TaggedBytes(f, Int(7)) == Some([0x0D, 7, 0, 0, 0])
  {
    assert FixedBytes(0, 3) == [0] + FixedBytes(0, 2) && FixedBytes(0, 2) == [0] + FixedBytes(0, 1);
    assert FixedBytes(0, 1) == [0] + FixedBytes(0, 0) && FixedBytes(7, 4) == [7] + FixedBytes(0, 3);
    assert VarintBytes(13) + FixedBytes(7, 4) == [0x0D, 7, 0, 0, 0];
    assert TaggedBytes(f, Int(7)) == Some(VarintBytes(13) + FixedBytes(7, 4));
  }
}

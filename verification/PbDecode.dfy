/** What the nanopb decoder computes, as functions on the bytes. */
module PbDecode {
  import opened Bytes
  import opened Varint
  import opened PbMessages
  import opened PbCommon
  import opened PbEncode

  const MAX_REQUIRED_FIELDS: nat := 64

  // ---------- Descriptors ----------

  /** A field left out by proto3 because it is zero must be zero in a cleared message. */
  predicate ZeroDefault(f: Field) {
    match f.ltype
    case Signed | Unsigned | ZigZagged | Fixed32 | Fixed64 => f.dflt == Int(0)
    case BytesField | StringField => f.dflt == Blob([])
    case _ => true
  }

  predicate TagsDistinct(fs: seq<Field>) {
    && (forall k :: 0 <= k < |fs| ==> fs[k].tag != 0)
    && forall j, k :: 0 <= j < k < |fs| ==> fs[j].tag != fs[k].tag
  }

  predicate WellFormedField(f: Field)
    decreases f, 0
  {
    && f.tag < 0x2000_0000
    && (f.ltype.Submessage? || ValueTyped(f, f.dflt))
    && (f.htype.Singular? ==> ZeroDefault(f))
    && WellFormed(f.sub)
  }

  /** What the generator guarantees of a message descriptor. */
  predicate WellFormed(fs: seq<Field>)
    decreases fs, 1
  {
    TagsDistinct(fs) && forall k :: 0 <= k < |fs| ==> WellFormedField(fs[k])
  }

  // ---------- Pieces ----------

  function Take(n: nat, s: seq<byte>): (r: Parse<seq<byte>>)
    ensures r.Ok? ==> |r.rest| <= |s|
  {
    if n <= |s| then Ok(s[..n], s[n..]) else Fail
  }

  /** A length and as many bytes: what pb_make_string_substream delimits. */
  function DecodePrefixed(s: seq<byte>): (r: Parse<seq<byte>>)
    ensures r.Ok? ==> |r.rest| <= |s|
  {
    var n := DecodeVarint32(s);
    if n.Ok? then Take(n.value, n.rest) else Fail
  }

  datatype FieldHeader = Header(wireType: nat, tag: nat, rest: seq<byte>) | End(rest: seq<byte>) | Malformed

  /** A tag with its wire type; the word zero ends a message. */
  function DecodeTag(s: seq<byte>): (h: FieldHeader)
    ensures !h.Malformed? ==> |h.rest| < |s|
  {
    var t := DecodeVarint32(s);
    if t.Fail? then Malformed
    else if t.value == 0 then End(t.rest)
    else Header(t.value % 8, t.value / 8, t.rest)
  }

  /** The payload of an unknown field, to be passed over. */
  function SkipField(wireType: nat, s: seq<byte>): (r: Parse<seq<byte>>)
    ensures r.Ok? ==> |r.rest| <= |s|
  {
    if wireType == WT_VARINT then
      var n := VarintSize(s);
      if n.Some? then Take(n.value, s) else Fail
    else if wireType == WT_64BIT then Take(8, s)
    else if wireType == WT_STRING then DecodePrefixed(s)
    else if wireType == WT_32BIT then Take(4, s)
    else Fail
  }

  function FindTag(fs: seq<Field>, tag: nat): (k: Option<nat>)
    ensures k.Some? ==> k.value < |fs| && fs[k.value].tag == tag
    ensures k.None? ==> forall i :: 0 <= i < |fs| ==> fs[i].tag != tag
  {
    if fs == [] then None
    else if fs[0].tag == tag then Some(0)
    else
      var k := FindTag(fs[1..], tag);
      if k.Some? then Some(k.value + 1) else None
  }

  /** A cast to the two's complement integer type with values from `-half` to `half - 1`. */
  function AsSigned(v: int, half: int): int
    requires half > 0
  {
    (v + half) % (2 * half) - half
  }

  /** A C string read from memory: what precedes the first zero byte. */
  function UpToNul(s: seq<byte>): seq<byte> {
    if s == [] || s[0] == 0 then [] else [s[0]] + UpToNul(s[1..])
  }

  function Zeros(n: nat): (z: seq<byte>)
    ensures |z| == n
  {
    seq(n, _ => 0)
  }

  /** The integer a varint of field `f` stands for; narrow signed fields take the low 32 bits. */
  function FromWord(f: Field, w: nat): int {
    match f.ltype
    case Signed => if f.dataSize == 8 then AsSigned(w, TWO_TO_THE_63) else AsSigned(w, TWO_TO_THE_31)
    case ZigZagged => UnZigZag(w)
    case _ => w
  }

  function DecodeInteger(f: Field, s: seq<byte>): (r: Parse<Value>)
    ensures r.Ok? ==> |r.rest| < |s|
  {
    var w := DecodeVarint(s);
    if w.Fail? then Fail
    else
      var i := FromWord(f, w.value);
      if (if f.ltype.Unsigned? then FitsUnsigned(i, f.dataSize) else FitsSigned(i, f.dataSize))
      then Ok(Int(i), w.rest) else Fail
  }

  function DecodeFixed(n: nat, s: seq<byte>): (r: Parse<Value>)
    ensures r.Ok? ==> |r.rest| == |s| - n
  {
    if n <= |s| then Ok(Int(FromFixed(s[..n])), s[n..]) else Fail
  }

  function DecodeBlob(f: Field, s: seq<byte>): (r: Parse<Value>)
    ensures r.Ok? ==> |r.rest| <= |s|
  {
    var n := DecodeVarint32(s);
    if n.Fail? then Fail
    else if f.ltype.FixedLengthBytes? && n.value == 0 then Ok(Blob(Zeros(f.dataSize)), n.rest)
    else if f.ltype.FixedLengthBytes? && n.value != f.dataSize then Fail
    else if f.ltype.BytesField? && n.value + BYTES_OFFSET > f.dataSize then Fail
    else if f.ltype.StringField? && n.value + 1 > f.dataSize then Fail
    else
      var b := Take(n.value, n.rest);
      if b.Fail? then Fail
      else Ok(Blob(if f.ltype.StringField? then UpToNul(b.value) else b.value), b.rest)
  }

  // ---------- Fields ----------

  /** One value. A submessage is merged into `start`. */
  function DecodeValue(f: Field, start: Message, s: seq<byte>): (r: Parse<Value>)
    requires |start| == |f.sub|
    ensures r.Ok? ==> |r.rest| <= |s| && (Packable(f.ltype) ==> |r.rest| < |s|)
    decreases f, 0
  {
    match f.ltype
    case Signed | Unsigned | ZigZagged => DecodeInteger(f, s)
    case Fixed32 => DecodeFixed(4, s)
    case Fixed64 => DecodeFixed(8, s)
    case BytesField | StringField | FixedLengthBytes => DecodeBlob(f, s)
    case Submessage =>
      var b := DecodePrefixed(s);
      if b.Fail? then Fail
      else
        var m := DecodeFields(f.sub, b.value, start, {});
        if m.Ok? then Ok(Msg(m.value), b.rest) else Fail
  }

  /** A packed payload, its elements added to those already there. */
  function DecodePacked(f: Field, s: seq<byte>, vs: seq<Value>): Option<seq<Value>>
    requires Packable(f.ltype)
    decreases f, 1, |s|
  {
    if s == [] then Some(vs)
    else if |vs| >= f.arraySize then None
    else
      var v := DecodeValue(f, Defaults(f.sub), s);
      if v.Ok? then DecodePacked(f, v.rest, vs + [v.value]) else None
  }

  /** What a submessage is merged into: array entries and union members start cleared. */
  function StartMessage(f: Field, slot: Slot): (m: Message)
    ensures |m| == |f.sub|
  {
    if !f.htype.Repeated? && !f.htype.Oneof? && slot != [] && slot[0].Msg? && |slot[0].slots| == |f.sub|
    then slot[0].slots
    else Defaults(f.sub)
  }

  /** One occurrence of field `f`, given what its slot holds. */
  function DecodeSlot(f: Field, wireType: nat, s: seq<byte>, slot: Slot): (r: Parse<Slot>)
    ensures r.Ok? ==> |r.rest| <= |s|
    decreases f, 2
  {
    if f.htype.Repeated? && wireType == WT_STRING && Packable(f.ltype) then
      var b := DecodePrefixed(s);
      if b.Fail? then Fail
      else
        var vs := DecodePacked(f, b.value, slot);
        if vs.Some? then Ok(vs.value, b.rest) else Fail
    else if f.htype.Repeated? && |slot| >= f.arraySize then Fail
    else
      var v := DecodeValue(f, StartMessage(f, slot), s);
      if v.Ok? then Ok(if f.htype.Repeated? then slot + [v.value] else [v.value], v.rest) else Fail
  }

  /** Setting a member of a union clears the others. */
  function Store(fs: seq<Field>, msg: Message, k: nat, slot: Slot): (m: Message)
    requires |msg| == |fs| && k < |fs|
    ensures |m| == |fs|
  {
    seq(|fs|, i requires 0 <= i < |fs| => if i == k then slot else if SameUnion(fs[k], fs[i]) then [] else msg[i])
  }

  /** Of the required fields, the first 64 are checked. */
  predicate RequiredSeen(fs: seq<Field>, seen: set<nat>) {
    forall k: nat :: k < |fs| && fs[k].htype.Required? && RequiredBefore(fs, k) < MAX_REQUIRED_FIELDS ==> k in seen
  }

  function Finish(fs: seq<Field>, rest: seq<byte>, msg: Message, seen: set<nat>): Parse<Message> {
    if RequiredSeen(fs, seen) then Ok(msg, rest) else Fail
  }

  /** The fields in `s`, decoded over `msg`. A zero tag ends the message before its bytes do. In an empty
      descriptor field number 0 matches the terminator, whose type cannot be decoded. */
  function DecodeFields(fs: seq<Field>, s: seq<byte>, msg: Message, seen: set<nat>): (r: Parse<Message>)
    requires |msg| == |fs|
    ensures r.Ok? ==> |r.value| == |fs| && |r.rest| <= |s|
    decreases fs, 3, |s|
  {
    if s == [] then Finish(fs, s, msg, seen)
    else
      match DecodeTag(s)
      case Malformed => Fail
      case End(rest) => Finish(fs, rest, msg, seen)
      case Header(wireType, tag, rest) =>
        var k := FindTag(fs, tag);
        if k.Some? then
          var r := DecodeSlot(fs[k.value], wireType, rest, msg[k.value]);
          if r.Ok? then DecodeFields(fs, r.rest, Store(fs, msg, k.value, r.value), seen + {k.value}) else Fail
        else if fs == [] && tag == 0 then Fail
        else
          var r := SkipField(wireType, rest);
          if r.Ok? then DecodeFields(fs, r.rest, msg, seen) else Fail
  }

  /** pb_decode. */
  function DecodeMessage(fs: seq<Field>, s: seq<byte>): Parse<Message> {
    DecodeFields(fs, s, Defaults(fs), {})
  }

  /** pb_decode_delimited. */
  function DecodeDelimited(fs: seq<Field>, s: seq<byte>): Parse<Message> {
    var b := DecodePrefixed(s);
    if b.Fail? then Fail
    else
      var m := DecodeMessage(fs, b.value);
      if m.Ok? then Ok(m.value, b.rest) else Fail
  }
}

/** What the bytes of a message mean: the records they consist of, and what each field makes of its own records. */
module PbMeaning {
  import opened Bytes
  import opened Varint
  import opened PbMessages

  // ---------- Records ----------

  /** A key and what it announces. The payload of a counted record is without its count. */
  datatype Record = Record(tag: nat, wireType: nat, payload: seq<byte>)

  /** The records up to the end or to a zero key, and what is behind them. */
  datatype Framing = Framed(records: seq<Record>, rest: seq<byte>) | Broken

  function Groups(s: seq<byte>): (r: Parse<seq<byte>>)
    ensures r.Ok? ==> |r.rest| < |s|
  {
    var n := VarintSize(s);
    if n.Some? then Ok(s[..n.value], s[n.value..]) else Fail
  }

  function Bare(n: nat, s: seq<byte>): (r: Parse<seq<byte>>)
    ensures r.Ok? ==> |r.value| == n && |r.rest| + n == |s|
  {
    if n <= |s| then Ok(s[..n], s[n..]) else Fail
  }

  function Counted(s: seq<byte>): (r: Parse<seq<byte>>)
    ensures r.Ok? ==> |r.rest| < |s|
  {
    var n := DecodeVarint32(s);
    if n.Fail? || n.value > |n.rest| then Fail else Ok(n.rest[..n.value], n.rest[n.value..])
  }

  /** The payload of a field that is not known: varints of any length, words, and counted bytes. Groups are not read. */
  function PayloadOfType(wireType: nat, s: seq<byte>): (r: Parse<seq<byte>>)
    ensures r.Ok? ==> |r.rest| <= |s|
  {
    match wireType
    case 0 => Groups(s)
    case 1 => Bare(8, s)
    case 2 => Counted(s)
    case 5 => Bare(4, s)
    case _ => Fail
  }

  predicate IsNumber(f: Field) {
    !f.ltype.BytesField? && !f.ltype.StringField? && !f.ltype.Submessage? && !f.ltype.FixedLengthBytes?
  }

  /** The payload of one value of a known field: the type that it was sent with does not matter. */
  function PayloadOfField(f: Field, s: seq<byte>): (r: Parse<seq<byte>>)
    ensures r.Ok? ==> |r.rest| < |s|
  {
    match f.ltype
    case Signed | Unsigned | ZigZagged => Groups(s)
    case Fixed32 => Bare(4, s)
    case Fixed64 => Bare(8, s)
    case _ => Counted(s)
  }

  /** Only for a repeated number it tells whether the payload is a packed list. */
  predicate IsList(f: Field, wireType: nat) {
    f.htype.Repeated? && IsNumber(f) && wireType == 2
  }

  /** The field of a tag is the first one with it. */
  function Place(fs: seq<Field>, tag: nat): (k: Option<nat>)
    ensures k.Some? ==> k.value < |fs| && fs[k.value].tag == tag
    ensures k.Some? ==> forall j :: 0 <= j < k.value ==> fs[j].tag != tag
    ensures k.None? ==> forall j :: 0 <= j < |fs| ==> fs[j].tag != tag
  {
    if fs == [] then None
    else if fs[0].tag == tag then Some(0)
    else
      var k := Place(fs[1..], tag);
      if k.Some? then Some(k.value + 1) else None
  }

  /** Which payload follows a key. In an empty descriptor field number zero cannot be passed over. */
  function PayloadAfter(fs: seq<Field>, key: nat, s: seq<byte>): (r: Parse<seq<byte>>)
    ensures r.Ok? ==> |r.rest| <= |s|
  {
    var k := Place(fs, key / 8);
    if k.None? then if fs == [] && key / 8 == 0 then Fail else PayloadOfType(key % 8, s)
    else if IsList(fs[k.value], key % 8) then Counted(s)
    else PayloadOfField(fs[k.value], s)
  }

  /** The records of a message. This depends on the types of the fields, and on nothing that they hold. */
  function Frame(fs: seq<Field>, s: seq<byte>): (r: Framing)
    ensures r.Framed? ==> |r.rest| <= |s|
    decreases |s|
  {
    if s == [] then Framed([], [])
    else
      var key := DecodeVarint32(s);
      if key.Fail? then Broken
      else if key.value == 0 then Framed([], key.rest)
      else
        var payload := PayloadAfter(fs, key.value, key.rest);
        if payload.Fail? then Broken
        else
          match Frame(fs, payload.rest)
          case Broken => Broken
          case Framed(records, rest) => Framed([Record(key.value / 8, key.value % 8, payload.value)] + records, rest)
  }

  // ---------- Values ----------

  /** The number congruent to `n` modulo `m` that is nearest to zero. */
  function Nearest(n: nat, m: nat): int
    requires m > 0
  {
    if 2 * (n % m) < m then n % m else n % m - m
  }

  predicate FitsIn(i: int, size: nat, signed: bool) {
    match size
    case 1 => if signed then -0x80 <= i < 0x80 else 0 <= i < 0x100
    case 2 => if signed then -0x8000 <= i < 0x8000 else 0 <= i < 0x1_0000
    case 4 => if signed then -0x8000_0000 <= i < 0x8000_0000 else 0 <= i < 0x1_0000_0000
    case 8 =>
      if signed then -0x8000_0000_0000_0000 <= i < 0x8000_0000_0000_0000 else 0 <= i < 0x1_0000_0000_0000_0000
    case _ => false
  }

  /** A varint of up to ten bytes is a 64-bit word. A signed field takes it modulo its own width if that is 64 bits, and
      else modulo 32 bits; zigzag has the sign in the lowest bit. It must fit. */
  function NumberMeant(f: Field, groups: seq<byte>): Option<Value> {
    var n := GroupsValue(groups) % 0x1_0000_0000_0000_0000;
    var i := match f.ltype
      case Signed => if f.dataSize == 8 then Nearest(n, 0x1_0000_0000_0000_0000) else Nearest(n, 0x1_0000_0000)
      case ZigZagged => if n % 2 == 0 then n / 2 else -(n + 1) / 2
      case _ => n;
    if |groups| <= 10 && FitsIn(i, f.dataSize, !f.ltype.Unsigned?) then Some(Int(i)) else None
  }

  /** The part of a string before its first zero byte. */
  function BeforeNul(s: seq<byte>): seq<byte> {
    if s != [] && s[0] != 0 then [s[0]] + BeforeNul(s[1..]) else []
  }

  /** A counted array needs room for its four-byte count and a string for its end; an array of fixed length is sent
      whole or, all zeros, not at all. */
  function BlobMeant(f: Field, payload: seq<byte>): Option<Value> {
    match f.ltype
    case BytesField => if |payload| + 4 <= f.dataSize then Some(Blob(payload)) else None
    case StringField => if |payload| < f.dataSize then Some(Blob(BeforeNul(payload))) else None
    case _ =>
      if payload == [] then Some(Blob(seq(f.dataSize, _ => 0)))
      else if |payload| == f.dataSize then Some(Blob(payload)) else None
  }

  /** One value. The fields of a submessage are added to those of `start`. */
  function ValueMeant(f: Field, start: Message, payload: seq<byte>): Option<Value>
    requires |start| == |f.sub|
    decreases f, 0
  {
    match f.ltype
    case Signed | Unsigned | ZigZagged => NumberMeant(f, payload)
    case Fixed32 | Fixed64 => Some(Int(FromFixed(payload)))
    case BytesField | StringField | FixedLengthBytes => BlobMeant(f, payload)
    case Submessage =>
      var m := Meaning(f.sub, payload, start);
      if m.Some? then Some(Msg(m.value)) else None
  }

  /** The elements of a packed list. */
  function ListMeant(f: Field, payload: seq<byte>): Option<seq<Value>>
    decreases f, 1, |payload|
  {
    if payload == [] then Some([])
    else
      var first := PayloadOfField(f, payload);
      if first.Fail? then None
      else
        var v, vs := ValueMeant(f, Defaults(f.sub), first.value), ListMeant(f, first.rest);
        if v.Some? && vs.Some? then Some([v.value] + vs.value) else None
  }

  /** What one record of a field adds: a packed list its elements, any other one value. A message is merged into the one
      that is there, but not in a list or a union. */
  function RecordMeant(f: Field, r: Record, slot: Slot): Option<seq<Value>>
    decreases f, 2
  {
    if IsList(f, r.wireType) then ListMeant(f, r.payload)
    else
      var merges := (f.htype.Required? || f.htype.Optional? || f.htype.Singular?)
                    && slot != [] && slot[0].Msg? && |slot[0].slots| == |f.sub|;
      var v := ValueMeant(f, if merges then slot[0].slots else Defaults(f.sub), r.payload);
      if v.Some? then Some([v.value]) else None
  }

  /** What a field holds after one record of it: a list is longer, and must have the room; any other field has the new
      value in place of the old. */
  function SlotAfter(f: Field, r: Record, slot: Slot): Option<Slot>
    decreases f, 3
  {
    var vs := RecordMeant(f, r, slot);
    if vs.None? then None
    else if !f.htype.Repeated? then Some(vs.value)
    else if vs.value != [] && |slot| + |vs.value| > f.arraySize then None
    else Some(slot + vs.value)
  }

  // ---------- Fields ----------

  /** A record of another member of the union that field `k` belongs to. */
  predicate Unseats(fs: seq<Field>, r: Record, k: nat)
    requires k < |fs|
  {
    var j := Place(fs, r.tag);
    fs[k].htype.Oneof? && j.Some? && j.value != k && fs[j.value].htype == fs[k].htype
  }

  /** What field `k` holds after the records: only its own count, and those of other members of its union, which clear
      it. None if one of its own has no meaning. */
  function Column(fs: seq<Field>, k: nat, records: seq<Record>, slot: Slot): Option<Slot>
    requires k < |fs|
    decreases fs, 4, |records|
  {
    if records == [] then Some(slot)
    else
      var r := records[0];
      var next :=
        if Place(fs, r.tag) == Some(k) then SlotAfter(fs[k], r, slot)
        else if Unseats(fs, r, k) then Some([]) else Some(slot);
      if next.Some? then Column(fs, k, records[1..], next.value) else None
  }

  predicate Columns(fs: seq<Field>, records: seq<Record>, start: Message)
    requires |start| == |fs|
    decreases fs, 5
  {
    forall k :: 0 <= k < |fs| ==> Column(fs, k, records, start[k]).Some?
  }

  // ---------- Required fields ----------

  /** How many of the fields before `k` are required. */
  function RequiredIn(fs: seq<Field>, k: nat): nat
    requires k <= |fs|
  {
    |set j | 0 <= j < k && fs[j].htype.Required?|
  }

  predicate Sent(fs: seq<Field>, records: seq<Record>, k: nat) {
    exists i :: 0 <= i < |records| && Place(fs, records[i].tag) == Some(k)
  }

  /** The first 64 required fields must have been sent. */
  predicate IsRequired(fs: seq<Field>, k: nat)
    requires k < |fs|
  {
    fs[k].htype.Required? && RequiredIn(fs, k) < 64
  }

  predicate AllSent(fs: seq<Field>, records: seq<Record>) {
    forall k: nat :: k < |fs| && IsRequired(fs, k) ==> Sent(fs, records, k)
  }

  /** The message that the bytes add to `start`, if they have a meaning. */
  function Meaning(fs: seq<Field>, s: seq<byte>, start: Message): (m: Option<Message>)
    requires |start| == |fs|
    ensures m.Some? ==> |m.value| == |fs|
    decreases fs, 6
  {
    match Frame(fs, s)
    case Broken => None
    case Framed(records, _) =>
      if Columns(fs, records, start) && AllSent(fs, records)
      then Some(seq(|fs|, k requires 0 <= k < |fs| => Column(fs, k, records, start[k]).value)) else None
  }
}

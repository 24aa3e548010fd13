/** What fields make of several records: lists are joined, messages merged, and of any other field the last one
    counts. */
module PbMerging {
  import opened Bytes
  import opened Varint
  import opened PbMessages
  import opened PbMeaning

  // ---------- Columns ----------

  lemma {:induction false} ColumnOfBoth(fs: seq<Field>, k: nat, a: seq<Record>, b: seq<Record>, slot: Slot)
    requires k < |fs|
    ensures Column(fs, k, a + b, slot) ==
            (var first := Column(fs, k, a, slot); if first.Some? then Column(fs, k, b, first.value) else None)
  {
    if a == [] {
      assert a + b == b;
    } else {
      assert (a + b)[1..] == a[1..] + b;
      var r := a[0];
      var next :=
        if Place(fs, r.tag) == Some(k) then SlotAfter(fs[k], r, slot)
        else if Unseats(fs, r, k) then Some([]) else Some(slot);
      if next.Some? {
        ColumnOfBoth(fs, k, a[1..], b, next.value);
      }
    }
  }

  predicate Concerns(fs: seq<Field>, r: Record, k: nat)
    requires k < |fs|
  {
    Place(fs, r.tag) == Some(k) || Unseats(fs, r, k)
  }

  lemma {:induction false} ColumnStays(fs: seq<Field>, k: nat, records: seq<Record>, slot: Slot)
    requires k < |fs| && forall i :: 0 <= i < |records| ==> !Concerns(fs, records[i], k)
    ensures Column(fs, k, records, slot) == Some(slot)
  {
    if records != [] {
      ColumnStays(fs, k, records[1..], slot);
    }
  }

  lemma ColumnOfOne(fs: seq<Field>, k: nat, r: Record, slot: Slot)
    requires k < |fs|
    ensures Column(fs, k, [r], slot) ==
            if Place(fs, r.tag) == Some(k) then SlotAfter(fs[k], r, slot)
            else if Unseats(fs, r, k) then Some([]) else Some(slot)
  {
    assert [r][1..] == [];
  }

  lemma StartIsForMessages(f: Field, start: Message, payload: seq<byte>)
    requires |start| == |f.sub| && !f.ltype.Submessage?
    ensures ValueMeant(f, start, payload) == ValueMeant(f, Defaults(f.sub), payload)
  {
  }

  lemma ReplacedByValue(f: Field, r: Record, slot: Slot)
    requires !f.htype.Repeated? && !f.ltype.Submessage?
    ensures var v := ValueMeant(f, Defaults(f.sub), r.payload);
            SlotAfter(f, r, slot) == if v.Some? then Some([v.value]) else None
  {
    if slot != [] && slot[0].Msg? && |slot[0].slots| == |f.sub| {
      StartIsForMessages(f, slot[0].slots, r.payload);
    }
  }

  /** Of several records of a field the last one counts, and of the members of a union the one whose record comes last
      is set. */
  lemma LastOneCounts(fs: seq<Field>, k: nat, a: seq<Record>, r: Record, b: seq<Record>, slot: Slot, after: Slot)
    requires k < |fs| && !fs[k].htype.Repeated? && Column(fs, k, a + [r] + b, slot) == Some(after)
    requires forall i :: 0 <= i < |b| ==> !Concerns(fs, b[i], k)
    ensures Unseats(fs, r, k) ==> after == []
    ensures Place(fs, r.tag) == Some(k) && !fs[k].ltype.Submessage? ==>
              |after| == 1 && Some(after[0]) == ValueMeant(fs[k], Defaults(fs[k].sub), r.payload)
  {
    ColumnOfBoth(fs, k, a + [r], b, slot);
    ColumnOfBoth(fs, k, a, [r], slot);
    var before := Column(fs, k, a, slot).value;
    ColumnOfOne(fs, k, r, before);
    ColumnStays(fs, k, b, Column(fs, k, [r], before).value);
    if !fs[k].ltype.Submessage? {
      ReplacedByValue(fs[k], r, before);
    }
  }

  /** A field of which nothing was sent is cleared: a required or proto3 field has its default, any other is not set. */
  lemma UnsentIsCleared(fs: seq<Field>, s: seq<byte>, m: Message, k: nat)
    requires Meaning(fs, s, Defaults(fs)) == Some(m) && k < |fs|
    requires forall i :: 0 <= i < |Frame(fs, s).records| ==> !Concerns(fs, Frame(fs, s).records[i], k)
    ensures m[k] ==
            match fs[k].htype
            case Required | Singular => [if fs[k].ltype.Submessage? then Msg(Defaults(fs[k].sub)) else fs[k].dflt]
            case _ => []
  {
    DefaultsAt(fs, k);
    ColumnStays(fs, k, Frame(fs, s).records, Defaults(fs)[k]);
  }

  /** The elements in all records of a repeated field. */
  function Elements(fs: seq<Field>, k: nat, records: seq<Record>): seq<Value>
    requires k < |fs|
  {
    if records == [] then []
    else
      var vs := if Place(fs, records[0].tag) == Some(k) then RecordMeant(fs[k], records[0], []) else None;
      (if vs.Some? then vs.value else []) + Elements(fs, k, records[1..])
  }

  /** A repeated field holds the elements of all its records in order, packed or not. */
  lemma {:induction false} ListsAreJoined(fs: seq<Field>, k: nat, records: seq<Record>, slot: Slot)
    requires k < |fs| && fs[k].htype.Repeated? && Column(fs, k, records, slot).Some?
    ensures Column(fs, k, records, slot).value == slot + Elements(fs, k, records)
  {
    if records == [] {
      assert slot + [] == slot;
    } else if Place(fs, records[0].tag) == Some(k) {
      var vs := RecordMeant(fs[k], records[0], slot).value;
      assert RecordMeant(fs[k], records[0], []) == Some(vs);
      ListsAreJoined(fs, k, records[1..], slot + vs);
      assert slot + vs + Elements(fs, k, records[1..]) == slot + (vs + Elements(fs, k, records[1..]));
    } else {
      ListsAreJoined(fs, k, records[1..], slot);
      assert [] + Elements(fs, k, records[1..]) == Elements(fs, k, records[1..]);
    }
  }

  // ---------- Bytes behind others ----------

  lemma Behind(a: seq<byte>, b: seq<byte>, n: nat)
    requires n <= |a|
    ensures (a + b)[n..] == a[n..] + b && (a + b)[..n] == a[..n]
  {
  }

  lemma {:induction false} SizeOfFront(a: seq<byte>, b: seq<byte>)
    requires VarintSize(a).Some?
    ensures VarintSize(a + b) == VarintSize(a)
  {
    if a[0] >= 128 {
      SizeOfFront(a[1..], b);
      Behind(a, b, 1);
    }
  }

  lemma {:induction false} TailOfFront(a: seq<byte>, b: seq<byte>, bitpos: nat, result: nat)
    requires DecodeTail32(a, bitpos, result).Ok?
    ensures var r := DecodeTail32(a, bitpos, result); DecodeTail32(a + b, bitpos, result) == Ok(r.value, r.rest + b)
  {
    var joined := if bitpos >= 32 then result else BitOr(result, ShiftLeft(a[0] % 128, bitpos, TWO_TO_THE_32));
    Behind(a, b, 1);
    if a[0] >= 128 {
      TailOfFront(a[1..], b, (bitpos + 7) % 256, joined);
    }
  }

  lemma KeyOfFront(a: seq<byte>, b: seq<byte>)
    requires DecodeVarint32(a).Ok?
    ensures var r := DecodeVarint32(a); DecodeVarint32(a + b) == Ok(r.value, r.rest + b)
  {
    SizeOfFront(a, b);
    var n := VarintSize(a).value;
    Behind(a, b, if n > 5 then 5 else n);
    if n > 5 {
      TailOfFront(a[5..], b, 35, GroupsValue(a[..5]) % TWO_TO_THE_32);
    }
  }

  lemma CountedOfFront(a: seq<byte>, b: seq<byte>)
    requires Counted(a).Ok?
    ensures Counted(a + b) == Ok(Counted(a).value, Counted(a).rest + b)
  {
    KeyOfFront(a, b);
    var n := DecodeVarint32(a);
    Behind(n.rest, b, n.value);
  }

  lemma GroupsOfFront(a: seq<byte>, b: seq<byte>)
    requires Groups(a).Ok?
    ensures Groups(a + b) == Ok(Groups(a).value, Groups(a).rest + b)
  {
    SizeOfFront(a, b);
    Behind(a, b, VarintSize(a).value);
  }

  lemma BareOfFront(n: nat, a: seq<byte>, b: seq<byte>)
    requires n <= |a|
    ensures Bare(n, a + b) == Ok(Bare(n, a).value, Bare(n, a).rest + b)
  {
    Behind(a, b, n);
  }

  lemma PayloadOfFront(fs: seq<Field>, key: nat, a: seq<byte>, b: seq<byte>)
    requires PayloadAfter(fs, key, a).Ok?
    ensures var r := PayloadAfter(fs, key, a); PayloadAfter(fs, key, a + b) == Ok(r.value, r.rest + b)
  {
    if Counted(a).Ok? {
      CountedOfFront(a, b);
    }
    if Groups(a).Ok? {
      GroupsOfFront(a, b);
    }
    if |a| >= 4 {
      BareOfFront(4, a, b);
    }
    if |a| >= 8 {
      BareOfFront(8, a, b);
    }
  }

  // ---------- Merging ----------

  /** No zero key ends the message before its bytes do. */
  predicate Whole(fs: seq<Field>, s: seq<byte>)
    decreases |s|
  {
    s != [] ==>
      var key := DecodeVarint32(s);
      && key.Ok? && key.value != 0
      && PayloadAfter(fs, key.value, key.rest).Ok?
      && Whole(fs, PayloadAfter(fs, key.value, key.rest).rest)
  }

  function Before(r: Record, f: Framing): Framing {
    match f
    case Broken => Broken
    case Framed(records, rest) => Framed([r] + records, rest)
  }

  lemma FrameUnfolds(fs: seq<Field>, s: seq<byte>, key: nat, tail: seq<byte>, p: Parse<seq<byte>>)
    requires s != [] && DecodeVarint32(s) == Ok(key, tail) && key != 0
    requires p == PayloadAfter(fs, key, tail) && p.Ok?
    ensures Frame(fs, s) == Before(Record(key / 8, key % 8, p.value), Frame(fs, p.rest))
  {
  }

  function JoinedFrames(a: seq<Record>, f: Framing): Framing {
    match f
    case Broken => Broken
    case Framed(records, rest) => Framed(a + records, rest)
  }

  lemma BeforeJoined(r: Record, a: seq<Record>, f: Framing)
    ensures Before(r, JoinedFrames(a, f)) == JoinedFrames([r] + a, f)
  {
    if f.Framed? {
      assert [r] + (a + f.records) == ([r] + a) + f.records;
    }
  }

  /** The first record is the same whatever is behind. */
  lemma FirstOfBoth(fs: seq<Field>, a: seq<byte>, b: seq<byte>, key: nat, tail: seq<byte>, p: Parse<seq<byte>>)
    requires a != [] && DecodeVarint32(a) == Ok(key, tail) && key != 0 && p == PayloadAfter(fs, key, tail) && p.Ok?
    ensures Frame(fs, a + b) == Before(Record(key / 8, key % 8, p.value), Frame(fs, p.rest + b))
  {
    KeyOfFront(a, b);
    PayloadOfFront(fs, key, tail, b);
    FrameUnfolds(fs, a + b, key, tail + b, Ok(p.value, p.rest + b));
  }

  lemma {:induction false} FrameOfBoth(fs: seq<Field>, a: seq<byte>, b: seq<byte>)
    requires Whole(fs, a)
    ensures Frame(fs, a).Framed? && Frame(fs, a).rest == []
    ensures Frame(fs, a + b) == JoinedFrames(Frame(fs, a).records, Frame(fs, b))
    decreases |a|
  {
    if a == [] {
      assert a + b == b;
      assert JoinedFrames([], Frame(fs, b)) == Frame(fs, b);
    } else {
      var key := DecodeVarint32(a);
      var p := PayloadAfter(fs, key.value, key.rest);
      FrameOfBoth(fs, p.rest, b);
      FirstOfBoth(fs, a, b, key.value, key.rest, p);
      FrameUnfolds(fs, a, key.value, key.rest, p);
      BeforeJoined(Record(key.value / 8, key.value % 8, p.value), Frame(fs, p.rest).records, Frame(fs, b));
    }
  }

  lemma SentInBoth(fs: seq<Field>, a: seq<Record>, b: seq<Record>)
    requires AllSent(fs, a)
    ensures AllSent(fs, a + b)
  {
    forall k: nat | k < |fs| && IsRequired(fs, k)
      ensures Sent(fs, a + b, k)
    {
      var i :| 0 <= i < |a| && Place(fs, a[i].tag) == Some(k);
      assert (a + b)[i] == a[i];
    }
  }

  lemma MeaningHasColumns(fs: seq<Field>, s: seq<byte>, start: Message, m: Message)
    requires |start| == |fs| && Meaning(fs, s, start) == Some(m)
    ensures |m| == |fs| && Frame(fs, s).Framed? && AllSent(fs, Frame(fs, s).records)
    ensures forall k :: 0 <= k < |fs| ==> Column(fs, k, Frame(fs, s).records, start[k]) == Some(m[k])
  {
  }

  lemma MeaningOfColumns(fs: seq<Field>, s: seq<byte>, start: Message, m: Message)
    requires |start| == |fs| == |m| && Frame(fs, s).Framed? && AllSent(fs, Frame(fs, s).records)
    requires forall k :: 0 <= k < |fs| ==> Column(fs, k, Frame(fs, s).records, start[k]) == Some(m[k])
    ensures Meaning(fs, s, start) == Some(m)
  {
    var records := Frame(fs, s).records;
    forall k | 0 <= k < |fs|
      ensures Column(fs, k, records, start[k]).Some?
    {
      assert Column(fs, k, records, start[k]) == Some(m[k]);
    }
    assert Columns(fs, records, start) && Meaning(fs, s, start).value == m;
  }

  /** Merging two messages one after the other is decoding both together. */
  lemma MergingIsJoining(fs: seq<Field>, a: seq<byte>, b: seq<byte>, start: Message, m: Message, n: Message)
    requires |start| == |fs| == |m| && Whole(fs, a)
    requires Meaning(fs, a, start) == Some(m) && Meaning(fs, b, m) == Some(n)
    ensures Meaning(fs, a + b, start) == Some(n)
  {
    FrameOfBoth(fs, a, b);
    MeaningHasColumns(fs, a, start, m);
    MeaningHasColumns(fs, b, m, n);
    var ra, rb := Frame(fs, a).records, Frame(fs, b).records;
    forall k | 0 <= k < |fs|
      ensures Column(fs, k, ra + rb, start[k]) == Some(n[k])
    {
      ColumnOfBoth(fs, k, ra, rb, start[k]);
    }
    SentInBoth(fs, ra, rb);
    MeaningOfColumns(fs, a + b, start, n);
  }
}

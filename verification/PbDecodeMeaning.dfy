/** The decoder computes what the bytes mean. */
module PbDecodeMeaning {
  import opened Bytes
  import opened Varint
  import opened PbMessages
  import opened PbCommon
  import opened PbDecode
  import opened PbMeaning

  // ---------- Payloads ----------

  lemma {:induction false} PlaceIsFound(fs: seq<Field>, tag: nat)
    ensures FindTag(fs, tag) == Place(fs, tag)
  {
    if fs != [] && fs[0].tag != tag {
      PlaceIsFound(fs[1..], tag);
    }
  }

  lemma SkipsPayload(wireType: nat, s: seq<byte>)
    ensures var r, p := SkipField(wireType, s), PayloadOfType(wireType, s);
            r.Ok? == p.Ok? && (r.Ok? ==> r.rest == p.rest)
  {
  }

  /** A signed number is the one of its width that is nearest to zero. */
  lemma NearestIsCast32(n: nat)
    ensures AsSigned(n, 0x8000_0000) == Nearest(n, 0x1_0000_0000)
  {
    var q, x := n / 0x1_0000_0000, n % 0x1_0000_0000;
    assert n == 0x1_0000_0000 * q + x;
    assert (n + 0x8000_0000) / 0x1_0000_0000 == if x < 0x8000_0000 then q else q + 1;
  }

  lemma NearestIsCast64(n: nat)
    requires n < 0x1_0000_0000_0000_0000
    ensures AsSigned(n, 0x8000_0000_0000_0000) == Nearest(n, 0x1_0000_0000_0000_0000)
  {
  }

  lemma NumberIsMeant(f: Field, s: seq<byte>)
    requires f.ltype.Signed? || f.ltype.Unsigned? || f.ltype.ZigZagged?
    ensures DecodeInteger(f, s) ==
            (var p := Groups(s);
             if p.Ok? && NumberMeant(f, p.value).Some? then Ok(NumberMeant(f, p.value).value, p.rest) else Fail)
  {
    var p := Groups(s);
    if p.Ok? && |p.value| <= 10 {
      var n := GroupsValue(p.value) % 0x1_0000_0000_0000_0000;
      NearestIsCast32(n);
      NearestIsCast64(n);
    }
  }

  lemma {:induction false} NulIsFound(s: seq<byte>)
    ensures UpToNul(s) == BeforeNul(s)
  {
    if s != [] && s[0] != 0 {
      NulIsFound(s[1..]);
    }
  }

  lemma BlobIsMeant(f: Field, s: seq<byte>)
    requires f.ltype.BytesField? || f.ltype.StringField? || f.ltype.FixedLengthBytes?
    ensures DecodeBlob(f, s) ==
            (var p := Counted(s);
             if p.Ok? && BlobMeant(f, p.value).Some? then Ok(BlobMeant(f, p.value).value, p.rest) else Fail)
  {
    var n := DecodeVarint32(s);
    if n.Ok? && n.value <= |n.rest| {
      NulIsFound(n.rest[..n.value]);
      assert n.value == 0 ==> n.rest[n.value..] == n.rest;
    }
  }

  // ---------- Outcomes ----------

  /** What has been seen, and what will be sent. */
  predicate SeenOrSent(fs: seq<Field>, seen: set<nat>, records: seq<Record>) {
    forall k: nat :: k < |fs| && IsRequired(fs, k) ==> k in seen || Sent(fs, records, k)
  }

  function FinalMessage(fs: seq<Field>, records: seq<Record>, msg: Message): Message
    requires |msg| == |fs| && Columns(fs, records, msg)
  {
    seq(|fs|, k requires 0 <= k < |fs| => Column(fs, k, records, msg[k]).value)
  }

  /** What the decoder is to compute from here on. */
  function Outcome(fs: seq<Field>, s: seq<byte>, msg: Message, seen: set<nat>): Parse<Message>
    requires |msg| == |fs|
  {
    match Frame(fs, s)
    case Broken => Fail
    case Framed(records, rest) =>
      if Columns(fs, records, msg) && SeenOrSent(fs, seen, records) then Ok(FinalMessage(fs, records, msg), rest)
      else Fail
  }

  lemma {:induction false} RequiredIsCounted(fs: seq<Field>, k: nat)
    requires k <= |fs|
    ensures RequiredIn(fs, k) == RequiredBefore(fs, k)
  {
    if k > 0 {
      RequiredIsCounted(fs, k - 1);
      var before := set j | 0 <= j < k - 1 && fs[j].htype.Required?;
      assert (set j | 0 <= j < k && fs[j].htype.Required?) ==
             before + if fs[k - 1].htype.Required? then {k - 1} else {};
    }
  }

  lemma SeenIsRequired(fs: seq<Field>, seen: set<nat>)
    ensures RequiredSeen(fs, seen) <==> SeenOrSent(fs, seen, [])
  {
    forall k: nat | k < |fs|
      ensures RequiredIn(fs, k) == RequiredBefore(fs, k) && !Sent(fs, [], k)
    {
      RequiredIsCounted(fs, k);
    }
  }

  lemma AtTheEnd(fs: seq<Field>, rest: seq<byte>, msg: Message, seen: set<nat>)
    requires |msg| == |fs|
    ensures Finish(fs, rest, msg, seen) ==
            if SeenOrSent(fs, seen, []) then Ok(FinalMessage(fs, [], msg), rest) else Fail
  {
    SeenIsRequired(fs, seen);
    assert FinalMessage(fs, [], msg) == msg;
  }

  lemma MeaningIsOutcome(fs: seq<Field>, s: seq<byte>, start: Message)
    requires |start| == |fs|
    ensures Meaning(fs, s, start).Some? == Outcome(fs, s, start, {}).Ok?
    ensures Meaning(fs, s, start).Some? ==> Meaning(fs, s, start).value == Outcome(fs, s, start, {}).value
  {
    var frame := Frame(fs, s);
    if frame.Framed? {
      assert AllSent(fs, frame.records) <==> SeenOrSent(fs, {}, frame.records);
    }
  }

  lemma OneColumn(fs: seq<Field>, r: Record, records: seq<Record>, msg: Message, k: nat, slot: Slot, j: nat)
    requires |msg| == |fs| && Place(fs, r.tag) == Some(k) && j < |fs|
    requires SlotAfter(fs[k], r, msg[k]) == Some(slot)
    ensures Column(fs, j, [r] + records, msg[j]) == Column(fs, j, records, Store(fs, msg, k, slot)[j])
  {
    assert ([r] + records)[1..] == records;
  }

  lemma SentOneMore(fs: seq<Field>, seen: set<nat>, r: Record, records: seq<Record>)
    ensures SeenOrSent(fs, seen, [r] + records) <==>
            SeenOrSent(fs, if Place(fs, r.tag).Some? then seen + {Place(fs, r.tag).value} else seen, records)
  {
    forall k: nat | k < |fs|
      ensures Sent(fs, [r] + records, k) <==> Place(fs, r.tag) == Some(k) || Sent(fs, records, k)
    {
      if Sent(fs, records, k) {
        var i :| 0 <= i < |records| && Place(fs, records[i].tag) == Some(k);
        assert ([r] + records)[i + 1] == records[i];
      }
      assert ([r] + records)[0] == r;
    }
  }

  /** A record of a known field, and then the others. */
  lemma KnownStep(fs: seq<Field>, r: Record, records: seq<Record>, msg: Message, k: nat, slot: Slot)
    requires |msg| == |fs| && Place(fs, r.tag) == Some(k) && SlotAfter(fs[k], r, msg[k]) == Some(slot)
    ensures Columns(fs, [r] + records, msg) <==> Columns(fs, records, Store(fs, msg, k, slot))
    ensures Columns(fs, [r] + records, msg) ==>
              FinalMessage(fs, [r] + records, msg) == FinalMessage(fs, records, Store(fs, msg, k, slot))
  {
    forall j | 0 <= j < |fs|
      ensures Column(fs, j, [r] + records, msg[j]) == Column(fs, j, records, Store(fs, msg, k, slot)[j])
    {
      OneColumn(fs, r, records, msg, k, slot, j);
    }
  }

  lemma UnknownStep(fs: seq<Field>, r: Record, records: seq<Record>, msg: Message)
    requires |msg| == |fs| && Place(fs, r.tag).None?
    ensures Columns(fs, [r] + records, msg) <==> Columns(fs, records, msg)
    ensures Columns(fs, [r] + records, msg) ==>
              FinalMessage(fs, [r] + records, msg) == FinalMessage(fs, records, msg)
  {
    forall j | 0 <= j < |fs|
      ensures Column(fs, j, [r] + records, msg[j]) == Column(fs, j, records, msg[j])
    {
      assert ([r] + records)[1..] == records;
    }
  }

  lemma BadStep(fs: seq<Field>, r: Record, records: seq<Record>, msg: Message, k: nat)
    requires |msg| == |fs| && Place(fs, r.tag) == Some(k) && SlotAfter(fs[k], r, msg[k]).None?
    ensures !Columns(fs, [r] + records, msg)
  {
    assert Column(fs, k, [r] + records, msg[k]).None?;
  }

  lemma FrameStep(fs: seq<Field>, s: seq<byte>, key: Parse<nat>, p: Parse<seq<byte>>)
    requires s != [] && key == DecodeVarint32(s) && key.Ok? && key.value != 0
    requires p == PayloadAfter(fs, key.value, key.rest) && p.Ok?
    ensures var r := Record(key.value / 8, key.value % 8, p.value);
            Frame(fs, s) ==
            match Frame(fs, p.rest)
            case Broken => Broken
            case Framed(records, rest) => Framed([r] + records, rest)
  {
  }

  lemma OutcomeOfKnown(fs: seq<Field>, s: seq<byte>, msg: Message, seen: set<nat>, key: Parse<nat>,
                       p: Parse<seq<byte>>, k: nat, slot: Slot)
    requires |msg| == |fs| && s != [] && key == DecodeVarint32(s) && key.Ok? && key.value != 0
    requires p == PayloadAfter(fs, key.value, key.rest) && p.Ok? && Place(fs, key.value / 8) == Some(k)
    requires SlotAfter(fs[k], Record(key.value / 8, key.value % 8, p.value), msg[k]) == Some(slot)
    ensures Outcome(fs, s, msg, seen) == Outcome(fs, p.rest, Store(fs, msg, k, slot), seen + {k})
  {
    FrameStep(fs, s, key, p);
    var r, tail := Record(key.value / 8, key.value % 8, p.value), Frame(fs, p.rest);
    if tail.Framed? {
      KnownStep(fs, r, tail.records, msg, k, slot);
      SentOneMore(fs, seen, r, tail.records);
    }
  }

  lemma OutcomeOfBad(fs: seq<Field>, s: seq<byte>, msg: Message, seen: set<nat>, key: Parse<nat>,
                     p: Parse<seq<byte>>, k: nat)
    requires |msg| == |fs| && s != [] && key == DecodeVarint32(s) && key.Ok? && key.value != 0
    requires p == PayloadAfter(fs, key.value, key.rest) && p.Ok? && Place(fs, key.value / 8) == Some(k)
    requires SlotAfter(fs[k], Record(key.value / 8, key.value % 8, p.value), msg[k]) == None
    ensures Outcome(fs, s, msg, seen) == Fail
  {
    FrameStep(fs, s, key, p);
    var tail := Frame(fs, p.rest);
    if tail.Framed? {
      BadStep(fs, Record(key.value / 8, key.value % 8, p.value), tail.records, msg, k);
    }
  }

  lemma OutcomeOfUnknown(fs: seq<Field>, s: seq<byte>, msg: Message, seen: set<nat>, key: Parse<nat>,
                         p: Parse<seq<byte>>)
    requires |msg| == |fs| && s != [] && key == DecodeVarint32(s) && key.Ok? && key.value != 0
    requires p == PayloadAfter(fs, key.value, key.rest) && p.Ok? && Place(fs, key.value / 8) == None
    ensures Outcome(fs, s, msg, seen) == Outcome(fs, p.rest, msg, seen)
  {
    FrameStep(fs, s, key, p);
    var r, tail := Record(key.value / 8, key.value % 8, p.value), Frame(fs, p.rest);
    if tail.Framed? {
      UnknownStep(fs, r, tail.records, msg);
      SentOneMore(fs, seen, r, tail.records);
    }
  }

  // ---------- Values ----------

  lemma {:induction false} ValueIsMeant(f: Field, start: Message, s: seq<byte>)
    requires |start| == |f.sub|
    ensures DecodeValue(f, start, s) ==
            (var p := PayloadOfField(f, s);
             if p.Ok? && ValueMeant(f, start, p.value).Some? then Ok(ValueMeant(f, start, p.value).value, p.rest)
             else Fail)
    decreases f, 0
  {
    match f.ltype
    case Signed | Unsigned | ZigZagged => NumberIsMeant(f, s);
    case Fixed32 | Fixed64 =>
    case BytesField | StringField | FixedLengthBytes => BlobIsMeant(f, s);
    case Submessage =>
      var p := Counted(s);
      if p.Ok? {
        FieldsAreMeant(f.sub, p.value, start, {});
        MeaningIsOutcome(f.sub, p.value, start);
      }
  }

  /** A list with more elements, if it has the room. */
  function Grown(f: Field, vs: seq<Value>, es: Option<seq<Value>>): Option<seq<Value>> {
    if es.Some? && (es.value == [] || |vs| + |es.value| <= f.arraySize) then Some(vs + es.value) else None
  }

  lemma GrownByOne(f: Field, vs: seq<Value>, v: Value, es: Option<seq<Value>>)
    ensures Grown(f, vs, if es.Some? then Some([v] + es.value) else None) ==
            if |vs| >= f.arraySize then None else Grown(f, vs + [v], es)
  {
    if es.Some? {
      assert vs + [v] + es.value == vs + ([v] + es.value);
    }
  }

  lemma {:induction false} ListIsMeant(f: Field, s: seq<byte>, vs: seq<Value>)
    requires Packable(f.ltype)
    ensures DecodePacked(f, s, vs) == Grown(f, vs, ListMeant(f, s))
    decreases f, 1, |s|
  {
    var first := PayloadOfField(f, s);
    if s == [] {
      assert vs + [] == vs;
    } else {
      ValueIsMeant(f, Defaults(f.sub), s);
      if first.Ok? && ValueMeant(f, Defaults(f.sub), first.value).Some? {
        var v := ValueMeant(f, Defaults(f.sub), first.value).value;
        ListIsMeant(f, first.rest, vs + [v]);
        GrownByOne(f, vs, v, ListMeant(f, first.rest));
      }
    }
  }

  lemma {:induction false} SlotIsMeant(f: Field, tag: nat, wireType: nat, s: seq<byte>, slot: Slot)
    ensures DecodeSlot(f, wireType, s, slot) ==
            (var p := if IsList(f, wireType) then Counted(s) else PayloadOfField(f, s);
             if p.Fail? then Fail
             else
               var after := SlotAfter(f, Record(tag, wireType, p.value), slot);
               if after.Some? then Ok(after.value, p.rest) else Fail)
    decreases f, 2
  {
    if IsList(f, wireType) {
      var p := Counted(s);
      if p.Ok? {
        ListIsMeant(f, p.value, slot);
      }
    } else {
      ValueIsMeant(f, StartMessage(f, slot), s);
    }
  }

  // ---------- Messages ----------

  lemma {:induction false} KnownIsMeant(fs: seq<Field>, s: seq<byte>, msg: Message, seen: set<nat>, key: Parse<nat>,
                                        k: nat)
    requires |msg| == |fs| && s != [] && key == DecodeVarint32(s) && key.Ok? && key.value != 0
    requires Place(fs, key.value / 8) == Some(k)
    ensures DecodeFields(fs, s, msg, seen) == Outcome(fs, s, msg, seen)
    decreases fs, 3, |s|, 0
  {
    var tag, wireType := key.value / 8, key.value % 8;
    PlaceIsFound(fs, tag);
    SlotIsMeant(fs[k], tag, wireType, key.rest, msg[k]);
    var p := PayloadAfter(fs, key.value, key.rest);
    if p.Ok? {
      var after := SlotAfter(fs[k], Record(tag, wireType, p.value), msg[k]);
      if after.Some? {
        OutcomeOfKnown(fs, s, msg, seen, key, p, k, after.value);
        FieldsAreMeant(fs, p.rest, Store(fs, msg, k, after.value), seen + {k});
      } else {
        OutcomeOfBad(fs, s, msg, seen, key, p, k);
      }
    }
  }

  lemma {:induction false} UnknownIsMeant(fs: seq<Field>, s: seq<byte>, msg: Message, seen: set<nat>, key: Parse<nat>)
    requires |msg| == |fs| && s != [] && key == DecodeVarint32(s) && key.Ok? && key.value != 0
    requires Place(fs, key.value / 8) == None
    ensures DecodeFields(fs, s, msg, seen) == Outcome(fs, s, msg, seen)
    decreases fs, 3, |s|, 0
  {
    PlaceIsFound(fs, key.value / 8);
    SkipsPayload(key.value % 8, key.rest);
    var p := PayloadAfter(fs, key.value, key.rest);
    if p.Ok? {
      OutcomeOfUnknown(fs, s, msg, seen, key, p);
      FieldsAreMeant(fs, p.rest, msg, seen);
    }
  }

  /** Decoding goes through the bytes once, over whatever the message holds, and comes to what each field makes of its
      own records. */
  lemma {:induction false} FieldsAreMeant(fs: seq<Field>, s: seq<byte>, msg: Message, seen: set<nat>)
    requires |msg| == |fs|
    ensures DecodeFields(fs, s, msg, seen) == Outcome(fs, s, msg, seen)
    decreases fs, 3, |s|, 1
  {
    var key := DecodeVarint32(s);
    if s == [] || (key.Ok? && key.value == 0) {
      AtTheEnd(fs, if s == [] then s else key.rest, msg, seen);
    } else if key.Ok? {
      var k := Place(fs, key.value / 8);
      if k.Some? {
        KnownIsMeant(fs, s, msg, seen, key, k.value);
      } else {
        UnknownIsMeant(fs, s, msg, seen, key);
      }
    }
  }

  /** pb_decode computes what the bytes mean over a cleared message, and fails exactly if they mean nothing. */
  lemma DecodesMeaning(fs: seq<Field>, s: seq<byte>)
    ensures DecodeMessage(fs, s) ==
            (var m := Meaning(fs, s, Defaults(fs));
             if m.Some? then Ok(m.value, Frame(fs, s).rest) else Fail)
  {
    FieldsAreMeant(fs, s, Defaults(fs), {});
    MeaningIsOutcome(fs, s, Defaults(fs));
  }

  /** pb_decode_delimited the same behind a count, whatever remains of the counted bytes. */
  lemma DecodesDelimitedMeaning(fs: seq<Field>, s: seq<byte>)
    ensures DecodeDelimited(fs, s) ==
            (var p := Counted(s);
             if p.Ok? && Meaning(fs, p.value, Defaults(fs)).Some?
             then Ok(Meaning(fs, p.value, Defaults(fs)).value, p.rest) else Fail)
  {
    var p := Counted(s);
    if p.Ok? {
      DecodesMeaning(fs, p.value);
    }
  }

  // ---------- Required fields ----------

  predicate TagIsSent(fs: seq<Field>, records: seq<Record>, tag: nat) {
    exists i :: 0 <= i < |records| && records[i].tag == tag
  }

  /** Bytes that decode hold each of the first 64 required fields. */
  lemma RequiredWasSent(fs: seq<Field>, s: seq<byte>, k: nat)
    requires DecodeMessage(fs, s).Ok? && k < |fs| && IsRequired(fs, k)
    ensures Frame(fs, s).Framed? && TagIsSent(fs, Frame(fs, s).records, fs[k].tag)
  {
    DecodesMeaning(fs, s);
    var records := Frame(fs, s).records;
    assert Sent(fs, records, k);
    var i :| 0 <= i < |records| && Place(fs, records[i].tag) == Some(k);
    assert records[i].tag == fs[k].tag;
  }

  /** If nothing else is wrong, they fail exactly if one of them is missing. */
  lemma FailsExactlyIfMissing(fs: seq<Field>, s: seq<byte>)
    requires TagsDistinct(fs) && Frame(fs, s).Framed? && Columns(fs, Frame(fs, s).records, Defaults(fs))
    ensures DecodeMessage(fs, s).Fail? <==>
            exists k: nat :: k < |fs| && IsRequired(fs, k) && !TagIsSent(fs, Frame(fs, s).records, fs[k].tag)
  {
    DecodesMeaning(fs, s);
    var records := Frame(fs, s).records;
    forall k: nat | k < |fs|
      ensures Sent(fs, records, k) <==> TagIsSent(fs, records, fs[k].tag)
    {
      forall i | 0 <= i < |records|
        ensures records[i].tag == fs[k].tag <==> Place(fs, records[i].tag) == Some(k)
      {
      }
    }
  }
}

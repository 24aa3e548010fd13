/** A flight of outgoing DTLS messages and how far into it the sender has got. */
module DtlsFlight {
  import opened Bytes
  import opened DtlsFragment

  const CCS_BYTE: byte := 1

  /** A message of a flight, whose number and type are those of the fragment that is all of it. */
  datatype FlightMessage = Ccs(epoch: nat) | Message(epoch: nat, whole: Fragment)

  /** What goes into one record: a ChangeCipherSpec or a fragment of a message. */
  datatype Emission = CcsRecord(epoch: nat) | FragmentRecord(epoch: nat, f: Fragment)

  function PlainLength(e: Emission): nat {
    if e.CcsRecord? then 1 else HM_HEADER_LENGTH + |e.f.body|
  }

  /** What is sealed. */
  function Plaintext(e: Emission): (s: seq<byte>)
    ensures |s| == PlainLength(e)
  {
    match e
    case CcsRecord(_) => [CCS_BYTE]
    case FragmentRecord(_, f) => FragmentBytes(f)
  }

  /** The first message not completely written, and how much of its body is. */
  datatype Position = Position(written: nat, offset: nat)

  function Slice(whole: Fragment, offset: nat, n: nat): Fragment
    requires offset + n <= |whole.body|
  {
    whole.(fragOff := offset, body := whole.body[offset..offset + n])
  }

  predicate At(msgs: seq<FlightMessage>, p: Position) {
    && p.written <= |msgs|
    && (p.offset == 0 ||
        (p.written < |msgs| && msgs[p.written].Message? && p.offset < |msgs[p.written].whole.body|))
  }

  /** `e` is exactly what comes next: a ChangeCipherSpec, or some more of the body and at least one byte of it unless
      there is none. */
  predicate Continues(msgs: seq<FlightMessage>, p: Position, e: Emission)
  {
    p.written < |msgs| &&
    match msgs[p.written]
    case Ccs(epoch) => e == CcsRecord(epoch) && p.offset == 0
    case Message(epoch, data) =>
      var whole := msgs[p.written].whole;
      && e.FragmentRecord? && e.epoch == epoch && p.offset + |e.f.body| <= |whole.body|
      && e.f == Slice(whole, p.offset, |e.f.body|)
      && (|e.f.body| > 0 || p.offset == |whole.body|)
  }

  function After(msgs: seq<FlightMessage>, p: Position, e: Emission): (q: Position)
    requires Continues(msgs, p, e)
    ensures q.written <= |msgs|
  {
    if e.CcsRecord? || p.offset + |e.f.body| == |msgs[p.written].whole.body| then Position(p.written + 1, 0)
    else Position(p.written, p.offset + |e.f.body|)
  }

  /** The emissions `es` carry the sender from `p` to `q`, with no gap and no overlap. */
  predicate Walk(msgs: seq<FlightMessage>, p: Position, es: seq<Emission>, q: Position)
    decreases |es|
  {
    if es == [] then p == q
    else Continues(msgs, p, es[0]) && Walk(msgs, After(msgs, p, es[0]), es[1..], q)
  }

  lemma {:induction false} WalkFurther(msgs: seq<FlightMessage>, p: Position, es: seq<Emission>, q: Position,
                                       fs: seq<Emission>, r: Position)
    requires Walk(msgs, p, es, q) && Walk(msgs, q, fs, r)
    ensures Walk(msgs, p, es + fs, r)
    decreases |es|
  {
    if es == [] {
      assert es + fs == fs;
    } else {
      var n := After(msgs, p, es[0]);
      WalkFurther(msgs, n, es[1..], q, fs, r);
      WalkBefore(msgs, p, es[0], n, es[1..] + fs, r);
      assert es + fs == [es[0]] + (es[1..] + fs);
    }
  }

  lemma WalkBefore(msgs: seq<FlightMessage>, p: Position, e: Emission, n: Position, es: seq<Emission>, r: Position)
    requires Continues(msgs, p, e) && n == After(msgs, p, e) && Walk(msgs, n, es, r)
    ensures Walk(msgs, p, [e] + es, r)
  {
    assert ([e] + es)[1..] == es;
  }

  lemma WalkOne(msgs: seq<FlightMessage>, p: Position, e: Emission)
    requires Continues(msgs, p, e)
    ensures Walk(msgs, p, [e], After(msgs, p, e))
  {
  }

  // ---------- Every walk is a partition ----------

  /** The bodies of the fragments that are of message `number`, in the order sent. */
  function Carried(es: seq<Emission>, number: nat): seq<byte> {
    if es == [] then []
    else (if es[0].FragmentRecord? && es[0].f.number == number then es[0].f.body else []) + Carried(es[1..], number)
  }

  predicate NumbersDistinct(msgs: seq<FlightMessage>)
  {
    forall i, j :: 0 <= i < j < |msgs| && msgs[i].Message? && msgs[j].Message? ==>
      msgs[i].whole.number != msgs[j].whole.number
  }

  /** How much of message `i` lies before a position. */
  function Done(msgs: seq<FlightMessage>, p: Position, i: nat): (n: nat)
    requires i < |msgs| && msgs[i].Message? && At(msgs, p)
    ensures n <= |msgs[i].whole.body|
  {
    if i < p.written then |msgs[i].whole.body| else if i == p.written then p.offset else 0
  }

  lemma ContinuesAt(msgs: seq<FlightMessage>, p: Position, e: Emission)
    requires At(msgs, p) && Continues(msgs, p, e)
    ensures At(msgs, After(msgs, p, e))
  {
  }

  lemma StepCarries(msgs: seq<FlightMessage>, p: Position, e: Emission, i: nat)
    requires NumbersDistinct(msgs) && At(msgs, p) && Continues(msgs, p, e)
    requires i < |msgs| && msgs[i].Message?
    ensures var q, whole := After(msgs, p, e), msgs[i].whole;
            At(msgs, q) && Done(msgs, p, i) <= Done(msgs, q, i)
            && (if e.FragmentRecord? && e.f.number == whole.number then e.f.body else [])
               == whole.body[Done(msgs, p, i)..Done(msgs, q, i)]
  {
    ContinuesAt(msgs, p, e);
    if i != p.written && e.FragmentRecord? {
      assert msgs[p.written].whole.number == e.f.number != msgs[i].whole.number;
    }
  }

  lemma Joined(s: seq<byte>, a: nat, b: nat, c: nat)
    requires a <= b <= c <= |s|
    ensures s[a..b] + s[b..c] == s[a..c]
  {
  }

  /** What is sent of a message between two positions is exactly the part of its body between them. */
  lemma {:induction false} WalkCarries(msgs: seq<FlightMessage>, p: Position, es: seq<Emission>, q: Position, i: nat)
    requires NumbersDistinct(msgs) && At(msgs, p) && Walk(msgs, p, es, q)
    requires i < |msgs| && msgs[i].Message?
    ensures At(msgs, q) && Done(msgs, p, i) <= Done(msgs, q, i)
    ensures Carried(es, msgs[i].whole.number) == msgs[i].whole.body[Done(msgs, p, i)..Done(msgs, q, i)]
    decreases |es|
  {
    if es != [] {
      var r := After(msgs, p, es[0]);
      StepCarries(msgs, p, es[0], i);
      WalkCarries(msgs, r, es[1..], q, i);
      Joined(msgs[i].whole.body, Done(msgs, p, i), Done(msgs, r, i), Done(msgs, q, i));
    }
  }

  /** A walk over a whole flight carries every message whole. */
  lemma FlightCarriesAll(msgs: seq<FlightMessage>, es: seq<Emission>, i: nat)
    requires NumbersDistinct(msgs) && Walk(msgs, Position(0, 0), es, Position(|msgs|, 0))
    requires i < |msgs| && msgs[i].Message?
    ensures Carried(es, msgs[i].whole.number) == msgs[i].whole.body
  {
    WalkCarries(msgs, Position(0, 0), es, Position(|msgs|, 0), i);
  }

  /** Every fragment of a walk is a slice of one of the messages from its start on. */
  lemma {:induction false} WalkIsHonest(msgs: seq<FlightMessage>, p: Position, es: seq<Emission>, q: Position,
                                        k: nat) returns (i: nat)
    requires Walk(msgs, p, es, q) && k < |es| && es[k].FragmentRecord?
    ensures p.written <= i < |msgs| && msgs[i].Message?
    ensures es[k].f.fragOff + |es[k].f.body| <= |msgs[i].whole.body|
    ensures es[k].f == Slice(msgs[i].whole, es[k].f.fragOff, |es[k].f.body|)
    decreases |es|
  {
    if k == 0 {
      i := p.written;
    } else {
      i := WalkIsHonest(msgs, After(msgs, p, es[0]), es[1..], q, k - 1);
    }
  }

  /** Every byte of a message that lies between two positions is in a fragment of the walk. */
  lemma {:induction false} WalkReaches(msgs: seq<FlightMessage>, p: Position, es: seq<Emission>, q: Position,
                                       i: nat, b: nat)
    returns (k: nat)
    requires At(msgs, p) && Walk(msgs, p, es, q) && At(msgs, q)
    requires i < |msgs| && msgs[i].Message? && Done(msgs, p, i) <= b < Done(msgs, q, i)
    ensures k < |es| && es[k].FragmentRecord? && es[k].f.number == msgs[i].whole.number
    ensures es[k].f.fragOff <= b < es[k].f.fragOff + |es[k].f.body|
    decreases |es|
  {
    var r := After(msgs, p, es[0]);
    ContinuesAt(msgs, p, es[0]);
    if b < Done(msgs, r, i) {
      k := 0;
    } else {
      k := WalkReaches(msgs, r, es[1..], q, i, b);
      k := k + 1;
    }
  }

  /** Every message of a walk over a whole flight has a fragment in it, even an empty one. */
  lemma {:induction false} WalkTouches(msgs: seq<FlightMessage>, p: Position, es: seq<Emission>, q: Position, i: nat)
    returns (k: nat)
    requires Walk(msgs, p, es, q) && p.written <= i < q.written && i < |msgs| && msgs[i].Message?
    ensures k < |es| && es[k].FragmentRecord? && es[k].f.number == msgs[i].whole.number
    decreases |es|
  {
    if p.written == i {
      k := 0;
    } else {
      k := WalkTouches(msgs, After(msgs, p, es[0]), es[1..], q, i);
      k := k + 1;
    }
  }

  lemma StepWithin(msgs: seq<FlightMessage>, p: Position, e: Emission, i: nat)
    requires NumbersDistinct(msgs) && At(msgs, p) && Continues(msgs, p, e)
    requires i < |msgs| && msgs[i].Message? && e.FragmentRecord? && e.f.number == msgs[i].whole.number
    ensures At(msgs, After(msgs, p, e))
    ensures Done(msgs, p, i) == e.f.fragOff && e.f.fragOff + |e.f.body| == Done(msgs, After(msgs, p, e), i)
  {
    assert msgs[p.written].whole.number == e.f.number;
    assert i == p.written;
  }

  lemma {:induction false} DoneGrows(msgs: seq<FlightMessage>, p: Position, es: seq<Emission>, q: Position, i: nat)
    requires NumbersDistinct(msgs) && At(msgs, p) && Walk(msgs, p, es, q)
    requires i < |msgs| && msgs[i].Message?
    ensures At(msgs, q) && Done(msgs, p, i) <= Done(msgs, q, i)
  {
    WalkCarries(msgs, p, es, q, i);
  }

  /** No fragment of a walk reaches outside the part of its message that lies between the two positions. */
  lemma {:induction false} WalkWithin(msgs: seq<FlightMessage>, p: Position, es: seq<Emission>, q: Position,
                                      i: nat, k: nat)
    requires NumbersDistinct(msgs) && At(msgs, p) && Walk(msgs, p, es, q) && At(msgs, q)
    requires i < |msgs| && msgs[i].Message?
    requires k < |es| && es[k].FragmentRecord? && es[k].f.number == msgs[i].whole.number
    ensures Done(msgs, p, i) <= es[k].f.fragOff && es[k].f.fragOff + |es[k].f.body| <= Done(msgs, q, i)
    decreases |es|
  {
    var r := After(msgs, p, es[0]);
    if k == 0 {
      StepWithin(msgs, p, es[0], i);
      DoneGrows(msgs, r, es[1..], q, i);
    } else {
      WalkOne(msgs, p, es[0]);
      DoneGrows(msgs, p, [es[0]], r, i);
      WalkWithin(msgs, r, es[1..], q, i, k - 1);
    }
  }

  /** Where the first part of a walk ends and the second begins. */
  lemma {:induction false} WalkSplit(msgs: seq<FlightMessage>, p: Position, es: seq<Emission>, fs: seq<Emission>,
                                     q: Position) returns (r: Position)
    requires At(msgs, p) && Walk(msgs, p, es + fs, q)
    ensures At(msgs, r) && Walk(msgs, p, es, r) && Walk(msgs, r, fs, q)
    decreases |es|
  {
    if es == [] {
      assert es + fs == fs;
      r := p;
    } else {
      assert (es + fs)[1..] == es[1..] + fs;
      ContinuesAt(msgs, p, es[0]);
      r := WalkSplit(msgs, After(msgs, p, es[0]), es[1..], fs, q);
    }
  }

  lemma {:induction false} WalkEndsOnce(msgs: seq<FlightMessage>, p: Position, es: seq<Emission>, q: Position,
                                        r: Position)
    requires Walk(msgs, p, es, q) && Walk(msgs, p, es, r)
    ensures q == r
    decreases |es|
  {
    if es != [] {
      WalkEndsOnce(msgs, After(msgs, p, es[0]), es[1..], q, r);
    }
  }

  /** A step of the walk moves the position on. */
  predicate Before(p: Position, q: Position) {
    p.written < q.written || (p.written == q.written && p.offset < q.offset)
  }

  lemma {:induction false} WalkAdvances(msgs: seq<FlightMessage>, p: Position, es: seq<Emission>, q: Position)
    requires At(msgs, p) && Walk(msgs, p, es, q)
    ensures At(msgs, q) && (es != [] ==> Before(p, q))
    decreases |es|
  {
    if es != [] {
      ContinuesAt(msgs, p, es[0]);
      WalkAdvances(msgs, After(msgs, p, es[0]), es[1..], q);
    }
  }
}

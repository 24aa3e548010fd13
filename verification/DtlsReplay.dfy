/** The replay window of DTLS records, and the epochs it is kept for. */
module DtlsReplay {
  import opened Bits
  import opened Bytes

  const WINDOW_SIZE: nat := 64
  const EPOCHS: int := 0x1_0000
  const TWO_TO_THE_48: int := 0x1_0000_0000_0000
  const MAX_PLAIN_LENGTH: nat := 16384

  // ---------- The bitmap ----------

  /** `bits` has a bit for each of the 64 numbers up to `maxSeqNum`, which is bit 0. */
  datatype Bitmap = Bitmap(bits: nat, maxSeqNum: nat)

  function ShiftInWord(bits: nat, shift: nat): nat {
    LowBits(Scale(bits, shift), WINDOW_SIZE)
  }

  predicate ShouldDiscard(b: Bitmap, n: nat) {
    n <= b.maxSeqNum && (b.maxSeqNum - n >= WINDOW_SIZE || BitAnd(b.bits, Scale(1, b.maxSeqNum - n)) != 0)
  }

  function Record(b: Bitmap, n: nat): Bitmap {
    if n > b.maxSeqNum then
      var shift := n - b.maxSeqNum;
      Bitmap(BitOr(if shift >= WINDOW_SIZE then 0 else ShiftInWord(b.bits, shift), 1), n)
    else if b.maxSeqNum - n < WINDOW_SIZE then
      Bitmap(BitOr(b.bits, Scale(1, b.maxSeqNum - n)), b.maxSeqNum)
    else b
  }

  /** The bitmap stands for the set of numbers recorded since it was cleared. */
  ghost predicate Represents(b: Bitmap, recorded: set<nat>) {
    && IsMaximum(b.maxSeqNum, recorded)
    && forall i: nat :: Bit(b.bits, i) <==> i < WINDOW_SIZE && i <= b.maxSeqNum && b.maxSeqNum - i in recorded
  }

  ghost predicate IsMaximum(m: nat, s: set<nat>) {
    (if s == {} then m == 0 else m in s) && forall n :: n in s ==> n <= m
  }

  lemma ClearedBitmap()
    ensures Represents(Bitmap(0, 0), {})
  {
    forall i: nat
      ensures !Bit(0, i)
    {
      NoBits(0, i);
    }
  }

  /** The window test is membership, for the last 64 numbers, and staleness before them. */
  lemma DiscardRefinesSet(b: Bitmap, recorded: set<nat>, n: nat)
    requires Represents(b, recorded)
    ensures ShouldDiscard(b, n) <==> n in recorded || n + WINDOW_SIZE <= b.maxSeqNum
  {
    if n <= b.maxSeqNum {
      MaskTestsBit(b.bits, b.maxSeqNum - n);
    }
  }

  lemma RecordBits(b: Bitmap, n: nat, i: nat)
    ensures Bit(Record(b, n).bits, i) <==>
            if n > b.maxSeqNum
            then i == 0 || (i < WINDOW_SIZE && i >= n - b.maxSeqNum && Bit(b.bits, i - (n - b.maxSeqNum)))
            else Bit(b.bits, i) || (b.maxSeqNum - n < WINDOW_SIZE && i == b.maxSeqNum - n)
  {
    if n > b.maxSeqNum {
      var shift := n - b.maxSeqNum;
      var kept := if shift >= WINDOW_SIZE then 0 else ShiftInWord(b.bits, shift);
      assert Scale(1, 0) == 1;
      BitOfOr(kept, 1, i);
      SingleBit(0, i);
      if shift >= WINDOW_SIZE {
        NoBits(kept, i);
      } else {
        LowBitsAre(Scale(b.bits, shift), WINDOW_SIZE, i);
        ScaleMovesBits(b.bits, shift, i);
      }
    } else if b.maxSeqNum - n < WINDOW_SIZE {
      BitOfOr(b.bits, Scale(1, b.maxSeqNum - n), i);
      SingleBit(b.maxSeqNum - n, i);
    }
  }

  /** Recording a number adds it to the set, whatever the number. */
  lemma RecordRefinesSet(b: Bitmap, recorded: set<nat>, n: nat)
    requires Represents(b, recorded)
    ensures Represents(Record(b, n), recorded + {n})
  {
    var r := Record(b, n);
    forall i: nat
      ensures Bit(r.bits, i) <==> i < WINDOW_SIZE && i <= r.maxSeqNum && r.maxSeqNum - i in recorded + {n}
    {
      RecordBits(b, n, i);
      if n > b.maxSeqNum && i >= n - b.maxSeqNum {
        assert Bit(b.bits, i - (n - b.maxSeqNum)) <==>
               i - (n - b.maxSeqNum) < WINDOW_SIZE && i <= n && n - i in recorded;
      } else {
        assert Bit(b.bits, i) <==> i < WINDOW_SIZE && i <= b.maxSeqNum && b.maxSeqNum - i in recorded;
      }
    }
  }

  // ---------- Runs of the record layer ----------

  /** A record with its 64-bit number, which holds the epoch in its top 16 bits; whether it decrypts is up to the
      cipher. Or a change of read keys, refused while handshake data is left over. */
  datatype Event =
    | Arrive(number: nat, opens: bool, length: nat)
    | ChangeReadState(leftover: bool)

  datatype Reader = Reader(epoch: nat, bitmap: Bitmap)

  const START: Reader := Reader(0, Bitmap(0, 0))

  function Epoch(number: nat): nat {
    number / TWO_TO_THE_48
  }

  predicate Accepts(r: Reader, e: Event) {
    && e.Arrive? && Epoch(e.number) == r.epoch && !ShouldDiscard(r.bitmap, e.number)
    && e.opens && e.length <= MAX_PLAIN_LENGTH
  }

  /** An increment in 16 bits. */
  function NextEpoch(epoch: nat): nat {
    if epoch + 1 == EPOCHS then 0 else epoch + 1
  }

  function Step(r: Reader, e: Event): Reader {
    if Accepts(r, e) then Reader(r.epoch, Record(r.bitmap, e.number))
    else if e.ChangeReadState? && !e.leftover then Reader(NextEpoch(r.epoch), Bitmap(0, 0))
    else r
  }

  function Run(es: seq<Event>): Reader {
    if es == [] then START else Step(Run(es[..|es| - 1]), es[|es| - 1])
  }

  /** The numbers accepted in a run, in order. */
  function Accepted(es: seq<Event>): seq<nat> {
    if es == [] then []
    else
      var before, e := es[..|es| - 1], es[|es| - 1];
      Accepted(before) + if Accepts(Run(before), e) then [e.number] else []
  }

  function Changes(es: seq<Event>): nat {
    if es == [] then 0
    else Changes(es[..|es| - 1]) + if es[|es| - 1] == ChangeReadState(false) then 1 else 0
  }

  /** The numbers accepted since the keys last changed. */
  function Current(es: seq<Event>): set<nat> {
    if es == [] then {}
    else
      var before, e := es[..|es| - 1], es[|es| - 1];
      if e == ChangeReadState(false) then {}
      else Current(before) + if Accepts(Run(before), e) then {e.number} else {}
  }

  lemma {:induction false} RunKeepsWindow(es: seq<Event>)
    ensures Represents(Run(es).bitmap, Current(es))
  {
    if es == [] {
      ClearedBitmap();
    } else {
      var before, e := es[..|es| - 1], es[|es| - 1];
      RunKeepsWindow(before);
      if Accepts(Run(before), e) {
        RecordRefinesSet(Run(before).bitmap, Current(before), e.number);
      } else {
        ClearedBitmap();
        assert Current(before) + {} == Current(before);
      }
    }
  }

  /** The epoch counts the key changes in 16 bits. */
  lemma {:induction false} EpochCountsChanges(es: seq<Event>)
    ensures Run(es).epoch == Changes(es) % 0x1_0000
  {
    if es != [] {
      EpochCountsChanges(es[..|es| - 1]);
    }
  }

  /** Over any run, a record is accepted exactly when it decrypts to at most 16384 bytes, its epoch is the number of key
      changes in 16 bits, its number was not accepted since the keys changed, and is less than 64 below the largest
      number accepted since. */
  lemma AcceptedExactly(es: seq<Event>, e: Event, m: nat)
    requires IsMaximum(m, Current(es))
    ensures Accepts(Run(es), e) <==>
              && e.Arrive? && e.opens && e.length <= 16384
              && e.number / 0x1_0000_0000_0000 == Changes(es) % 0x1_0000
              && e.number !in Current(es) && m < e.number + 64
  {
    EpochCountsChanges(es);
    RunKeepsWindow(es);
    if e.Arrive? {
      DiscardRefinesSet(Run(es).bitmap, Current(es), e.number);
    }
  }

  predicate NoRepeats(s: seq<nat>) {
    forall i, j :: 0 <= i < j < |s| ==> s[i] != s[j]
  }

  /** Without a wrap, the epoch is the number of key changes, older records have smaller epochs, and those of the
      current epoch are the ones in the window's set. */
  lemma {:induction false} EpochsGrow(es: seq<Event>)
    requires Changes(es) < EPOCHS
    ensures Run(es).epoch == Changes(es)
    ensures forall i :: 0 <= i < |Accepted(es)| ==> Epoch(Accepted(es)[i]) <= Run(es).epoch
    ensures forall i :: 0 <= i < |Accepted(es)| && Epoch(Accepted(es)[i]) == Run(es).epoch ==>
                          Accepted(es)[i] in Current(es)
  {
    if es != [] {
      EpochsGrow(es[..|es| - 1]);
    }
  }

  /** No pair of epoch and sequence number is accepted twice, as long as the 16-bit epoch does not wrap. */
  lemma {:induction false} NeverReplayed(es: seq<Event>)
    requires Changes(es) < 0x1_0000
    ensures NoRepeats(Accepted(es))
  {
    if es != [] {
      var before, e := es[..|es| - 1], es[|es| - 1];
      NeverReplayed(before);
      if Accepts(Run(before), e) {
        EpochsGrow(before);
        RunKeepsWindow(before);
        DiscardRefinesSet(Run(before).bitmap, Current(before), e.number);
      }
    }
  }

  // ---------- A wrap of the epoch ----------

  function KeyChanges(es: seq<Event>, k: nat): (r: seq<Event>)
    ensures |r| == |es| + k
  {
    if k == 0 then es else KeyChanges(es, k - 1) + [ChangeReadState(false)]
  }

  lemma OneKeyChange(es: seq<Event>)
    ensures var more := es + [ChangeReadState(false)];
            Run(more) == Reader(NextEpoch(Run(es).epoch), Bitmap(0, 0)) && Accepted(more) == Accepted(es)
    ensures Changes(es + [ChangeReadState(false)]) == Changes(es) + 1
  {
    var more := es + [ChangeReadState(false)];
    assert more[..|more| - 1] == es;
    assert Accepted(es) + [] == Accepted(es);
  }

  ghost predicate Rekeyed(es: seq<Event>, changed: seq<Event>, k: nat) {
    && Run(changed).epoch == (if k == EPOCHS then 0 else k)
    && (k > 0 ==> Run(changed).bitmap == Bitmap(0, 0))
    && Accepted(changed) == Accepted(es)
  }

  lemma RekeyedOnceMore(es: seq<Event>, changed: seq<Event>, k: nat)
    requires Rekeyed(es, changed, k) && k < EPOCHS
    ensures Rekeyed(es, changed + [ChangeReadState(false)], k + 1)
  {
    OneKeyChange(changed);
  }

  lemma {:induction false} AfterKeyChanges(es: seq<Event>, k: nat)
    requires Run(es).epoch == 0 && k <= EPOCHS
    ensures Rekeyed(es, KeyChanges(es, k), k)
  {
    if k > 0 {
      AfterKeyChanges(es, k - 1);
      RekeyedOnceMore(es, KeyChanges(es, k - 1), k - 1);
    }
  }

  /** After 65536 key changes the epoch is back where it was, and a record of the old epoch is taken again. */
  lemma WrappedEpochReplays(first: Event)
    requires first == Arrive(0, true, 0)
    ensures var es := KeyChanges([first], EPOCHS) + [first]; Accepted(es) == [0, 0]
  {
    var changed := KeyChanges([first], EPOCHS);
    var es := changed + [first];
    ClearedBitmap();
    DiscardRefinesSet(Bitmap(0, 0), {}, 0);
    assert [first][..0] == [] && Accepts(START, first) && Accepted([first]) == [] + [0];
    assert Run([first]).epoch == 0;
    AfterKeyChanges([first], EPOCHS);
    assert es[..|es| - 1] == changed && Accepts(Run(changed), first);
  }

  ghost predicate OnlyChanges(es: seq<Event>, changed: seq<Event>, k: nat) {
    Changes(changed) == Changes(es) + k && Accepted(changed) == Accepted(es)
  }

  lemma OneMoreChange(es: seq<Event>, changed: seq<Event>, k: nat)
    requires OnlyChanges(es, changed, k)
    ensures OnlyChanges(es, changed + [ChangeReadState(false)], k + 1)
  {
    OneKeyChange(changed);
  }

  lemma {:induction false} MoreKeyChanges(es: seq<Event>, k: nat)
    ensures OnlyChanges(es, KeyChanges(es, k), k)
  {
    if k > 0 {
      MoreKeyChanges(es, k - 1);
      OneMoreChange(es, KeyChanges(es, k - 1), k - 1);
    }
  }

  /** With as many key changes as there are epochs, or more, some run accepts the same record twice. */
  lemma SomeRunReplays(k: nat) returns (es: seq<Event>)
    requires k >= EPOCHS
    ensures Changes(es) == k && !NoRepeats(Accepted(es))
  {
    var first := Arrive(0, true, 0);
    var changed := KeyChanges([first], EPOCHS);
    var twice := changed + [first];
    WrappedEpochReplays(first);
    MoreKeyChanges([first], EPOCHS);
    assert [first][..0] == [] && Changes([first]) == 0;
    assert twice[..|twice| - 1] == changed && Changes(twice) == EPOCHS;
    es := KeyChanges(twice, k - EPOCHS);
    MoreKeyChanges(twice, k - EPOCHS);
    assert Accepted(es) == Accepted(twice);
    assert Accepted(es)[0] == Accepted(es)[1];
  }

  /** Runs with a given number of key changes never accept a record twice, whatever arrives, exactly when the changes
      are too few for the 16-bit epoch to wrap. */
  lemma ReplayFreeExactly(k: nat)
    ensures (forall es :: Changes(es) == k ==> NoRepeats(Accepted(es))) <==> k < 0x1_0000
  {
    if k < EPOCHS {
      forall es | Changes(es) == k
        ensures NoRepeats(Accepted(es))
      {
        NeverReplayed(es);
      }
    } else {
      var es := SomeRunReplays(k);
      assert Changes(es) == k && !NoRepeats(Accepted(es));
    }
  }
}

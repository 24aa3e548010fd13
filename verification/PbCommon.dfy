/** The cyclic field iterator shared by the encoder and the decoder. */
module PbCommon {
  import opened PbMessages

  /** The room a field takes in the structure: repeated fields hold an array of entries. */
  function FieldSize(f: Field): nat {
    if f.htype.Repeated? then f.dataSize * f.arraySize else f.dataSize
  }

  /** Members after the first of a union are marked by an impossible offset. */
  predicate ContinuesUnion(prev: Field, f: Field) {
    prev.htype.Oneof? && f.htype.Oneof? && f.dataOffset == PB_SIZE_MAX
  }

  function RequiredBefore(fs: seq<Field>, k: nat): (n: nat)
    requires k <= |fs|
    ensures n <= k
  {
    if k == 0 then 0 else RequiredBefore(fs, k - 1) + if fs[k - 1].htype.Required? then 1 else 0
  }

  /** The offset of field `k` from the start of the structure, from the distances the descriptor stores. */
  function DataOffset(fs: seq<Field>, k: nat): int
    requires k <= |fs|
  {
    if k == |fs| then 0
    else if k == 0 then fs[0].dataOffset
    else if ContinuesUnion(fs[k - 1], fs[k]) then DataOffset(fs, k - 1)
    else DataOffset(fs, k - 1) + FieldSize(fs[k - 1]) + fs[k].dataOffset
  }

  /** `offsets` gives the place of every member, and the descriptor was made from it: the first distance is from the
      start of the structure, every other from the end of the previous member, and the members of a union coincide. */
  ghost predicate DescribesLayout(fs: seq<Field>, offsets: seq<int>) {
    && |offsets| == |fs|
    && (|fs| > 0 ==> fs[0].dataOffset == offsets[0])
    && forall k :: 0 < k < |fs| ==>
         if ContinuesUnion(fs[k - 1], fs[k])
         then offsets[k] == offsets[k - 1] && fs[k].sizeOffset == fs[k - 1].sizeOffset
         else fs[k].dataOffset == offsets[k] - (offsets[k - 1] + FieldSize(fs[k - 1]))
  }

  /** Summing the distances recovers the place of every member. */
  lemma {:induction false} OffsetsMatchLayout(fs: seq<Field>, offsets: seq<int>, k: nat)
    requires DescribesLayout(fs, offsets) && k < |fs|
    ensures DataOffset(fs, k) == offsets[k]
  {
    if k > 0 {
      OffsetsMatchLayout(fs, offsets, k - 1);
    }
  }

  class FieldIter {
    const fields: seq<Field>
    const destStruct: int
    var pos: nat
    var requiredFieldIndex: nat
    var pData: int
    var pSize: int

    /** The iterator rests on a field, or on the terminator of an empty message, and all it carries follows
        from where it rests. */
    ghost predicate Valid()
      reads this
    {
      && (pos < |fields| || (pos == 0 && |fields| == 0))
      && requiredFieldIndex == RequiredBefore(fields, pos)
      && pData == destStruct + DataOffset(fields, pos)
    }

    /** pb_field_iter_begin. */
    constructor (fs: seq<Field>, dest: int)
      ensures Valid() && fields == fs && destStruct == dest && pos == 0
      ensures |fs| > 0 ==> pSize == pData + fs[0].sizeOffset
    {
      fields, destStruct := fs, dest;
      pos, requiredFieldIndex := 0, 0;
      pData := if |fs| == 0 then dest else dest + fs[0].dataOffset;
      pSize := if |fs| == 0 then dest else dest + fs[0].dataOffset + fs[0].sizeOffset;
    }

    method Begin()
      modifies this
      ensures Valid() && pos == 0
      ensures |fields| > 0 ==> pSize == pData + fields[0].sizeOffset
    {
      pos, requiredFieldIndex := 0, 0;
      pData := if |fields| == 0 then destStruct else destStruct + fields[0].dataOffset;
      pSize := pData + if |fields| == 0 then 0 else fields[0].sizeOffset;
    }

    /** pb_field_iter_next: one step around the cycle; false on wrapping to the first field. */
    method Next() returns (more: bool)
      requires Valid()
      modifies this
      ensures Valid()
      ensures |fields| == 0 ==> !more && pos == 0
      ensures |fields| > 0 ==> pos == NextIndex(old(pos), |fields|) && (more <==> pos != 0)
      ensures |fields| > 0 && (pos == 0 || !ContinuesUnion(fields[old(pos)], fields[pos]))
              ==> pSize == pData + fields[pos].sizeOffset
      ensures pos > 0 && ContinuesUnion(fields[old(pos)], fields[pos]) ==> pSize == old(pSize)
    {
      if |fields| == 0 {
        return false;
      }
      if pos + 1 == |fields| {
        Begin();
        return false;
      }
      var prev := fields[pos];
      pos := pos + 1;
      if ContinuesUnion(prev, fields[pos]) {
        return true;
      }
      var prevSize := prev.dataSize;
      if prev.htype.Repeated? {
        prevSize := prevSize * prev.arraySize;
      }
      if prev.htype.Required? {
        requiredFieldIndex := requiredFieldIndex + 1;
      }
      pData := pData + prevSize + fields[pos].dataOffset;
      pSize := pData + fields[pos].sizeOffset;
      more := true;
    }

    /** pb_field_iter_find: from wherever the iterator rests, it finds a tag exactly when the descriptor has it,
        and rests where it started when not. Tag 0 is only met on the terminator of an empty message. */
    method Find(tag: nat) returns (found: bool)
      requires Valid() && forall k :: 0 <= k < |fields| ==> fields[k].tag != 0
      modifies this
      ensures Valid()
      ensures found <==> (exists k :: 0 <= k < |fields| && fields[k].tag == tag) || (|fields| == 0 && tag == 0)
      ensures found && |fields| > 0 ==> fields[pos].tag == tag
      ensures !found ==> pos == old(pos)
    {
      var start := pos;
      if |fields| == 0 {
        return tag == 0;
      }
      ghost var steps := 0;
      while true
        invariant Valid() && 0 <= steps < |fields| && pos == CyclicIndex(start, steps, |fields|)
        invariant forall k :: 0 <= k < |fields| && CyclicDistance(start, k, |fields|) < steps ==> fields[k].tag != tag
        decreases |fields| - steps
      {
        if fields[pos].tag == tag {
          return true;
        }
        CyclicStep(start, steps, |fields|);
        var _ := Next();
        steps := steps + 1;
        if pos == start {
          assert forall k :: 0 <= k < |fields| ==> CyclicDistance(start, k, |fields|) < steps;
          return false;
        }
      }
    }
  }

  function NextIndex(i: nat, n: nat): (j: nat)
    requires i < n
    ensures j < n
  {
    if i + 1 == n then 0 else i + 1
  }

  /** The index `d` steps after `start`, and the number of steps to get from `start` to `k`. */
  function CyclicIndex(start: nat, d: nat, n: nat): (i: nat)
    requires start < n && d < n
    ensures i < n
  {
    if start + d < n then start + d else start + d - n
  }

  function CyclicDistance(start: nat, k: nat, n: nat): (d: nat)
    requires start < n && k < n
    ensures d < n
  {
    if k >= start then k - start else k + n - start
  }

  lemma CyclicStep(start: nat, d: nat, n: nat)
    requires start < n && d < n
    ensures var next := NextIndex(CyclicIndex(start, d, n), n);
            if d + 1 == n then next == start else next != start && next == CyclicIndex(start, d + 1, n)
    ensures forall k :: 0 <= k < n ==> (CyclicDistance(start, k, n) == d <==> k == CyclicIndex(start, d, n))
  {
  }
}

/** The bit set in which the nanopb decoder records the required fields it has seen. */
module PbRequired {
  import opened Bits
  import opened Bytes
  import opened PbMessages
  import opened PbCommon
  import opened PbDecode

  // ---------- Required fields by number ----------

  lemma {:induction false} RequiredBeforeMonotone(fs: seq<Field>, j: nat, k: nat)
    requires j <= k <= |fs|
    ensures RequiredBefore(fs, j) <= RequiredBefore(fs, k)
    ensures j < k && fs[j].htype.Required? ==> RequiredBefore(fs, j) < RequiredBefore(fs, k)
    decreases k - j
  {
    if j < k {
      RequiredBeforeMonotone(fs, j + 1, k);
    }
  }

  lemma RequiredNumbersDiffer(fs: seq<Field>, j: nat, k: nat)
    requires j < |fs| && k < |fs| && fs[j].htype.Required? && fs[k].htype.Required?
    requires RequiredBefore(fs, j) == RequiredBefore(fs, k)
    ensures j == k
  {
    if j < k {
      RequiredBeforeMonotone(fs, j, k);
    } else if k < j {
      RequiredBeforeMonotone(fs, k, j);
    }
  }

  /** Every number below the count belongs to a required field. */
  lemma {:induction false} RequiredNumbered(fs: seq<Field>, n: nat, r: nat) returns (k: nat)
    requires n <= |fs| && r < RequiredBefore(fs, n)
    ensures k < n && fs[k].htype.Required? && RequiredBefore(fs, k) == r
  {
    if fs[n - 1].htype.Required? && RequiredBefore(fs, n - 1) == r {
      k := n - 1;
    } else {
      k := RequiredNumbered(fs, n - 1, r);
    }
  }

  // ---------- The bit set ----------

  /** The two words record, of the required fields with numbers below 64, those that are in `seen`. */
  ghost predicate Records(words: seq<nat>, fs: seq<Field>, seen: set<nat>) {
    && |words| == 2 && (forall k :: k in seen ==> k < |fs|)
    && forall w: nat, i: nat :: w < 2 ==> (Bit(words[w], i) <==> i < 32 && NumberSeen(fs, seen, 32 * w + i))
  }

  ghost predicate NumberSeen(fs: seq<Field>, seen: set<nat>, r: nat) {
    exists k: nat :: k in seen && k < |fs| && fs[k].htype.Required? && RequiredBefore(fs, k) == r
  }

  ghost predicate NumbersSeen(fs: seq<Field>, seen: set<nat>, first: nat, end: nat) {
    forall r: nat :: first <= r < end ==> NumberSeen(fs, seen, r)
  }

  lemma RecordsNothing(words: seq<nat>, fs: seq<Field>)
    requires words == [0, 0]
    ensures Records(words, fs, {})
  {
    forall w: nat, i: nat | w < 2
      ensures !Bit(words[w], i)
    {
      NoBits(words[w], i);
    }
  }

  lemma RecordsOneMore(words: seq<nat>, fs: seq<Field>, seen: set<nat>, k: nat, w: nat, i: nat, next: seq<nat>)
    requires Records(words, fs, seen) && k < |fs| && w < 2 && i < 32
    requires fs[k].htype.Required? && RequiredBefore(fs, k) == 32 * w + i
    requires next == words[w := BitOr(words[w], Scale(1, i))]
    ensures Records(next, fs, seen + {k})
  {
    forall v: nat, j: nat | v < 2
      ensures Bit(next[v], j) <==> j < 32 && NumberSeen(fs, seen + {k}, 32 * v + j)
    {
      BitOfOr(words[w], Scale(1, i), j);
      SingleBit(i, j);
      NumberSeenMore(fs, seen, k, 32 * v + j);
      assert Bit(words[v], j) <==> j < 32 && NumberSeen(fs, seen, 32 * v + j);
    }
  }

  lemma NumberSeenMore(fs: seq<Field>, seen: set<nat>, k: nat, r: nat)
    requires k < |fs|
    ensures NumberSeen(fs, seen + {k}, r) <==>
            NumberSeen(fs, seen, r) || (fs[k].htype.Required? && RequiredBefore(fs, k) == r)
  {
    if NumberSeen(fs, seen, r) {
      var j: nat :| j in seen && j < |fs| && fs[j].htype.Required? && RequiredBefore(fs, j) == r;
      assert j in seen + {k};
    }
    if fs[k].htype.Required? && RequiredBefore(fs, k) == r {
      assert k in seen + {k};
    }
  }

  /** A field that is not required, or not among the first 64, leaves the words as they are. */
  lemma RecordsUnmarked(words: seq<nat>, fs: seq<Field>, seen: set<nat>, k: nat)
    requires Records(words, fs, seen) && k < |fs|
    requires !fs[k].htype.Required? || RequiredBefore(fs, k) >= MAX_REQUIRED_FIELDS
    ensures Records(words, fs, seen + {k})
  {
    forall v: nat, j: nat | v < 2
      ensures Bit(words[v], j) <==> j < 32 && NumberSeen(fs, seen + {k}, 32 * v + j)
    {
      NumberSeenMore(fs, seen, k, 32 * v + j);
      assert Bit(words[v], j) <==> j < 32 && NumberSeen(fs, seen, 32 * v + j);
    }
  }

  /** The check by numbers is the check by fields. */
  lemma RequiredSeenByNumber(fs: seq<Field>, seen: set<nat>, count: nat)
    requires count == RequiredBefore(fs, |fs|)
    ensures RequiredSeen(fs, seen) <==>
            NumbersSeen(fs, seen, 0, if count > MAX_REQUIRED_FIELDS then MAX_REQUIRED_FIELDS else count)
  {
    var numbers := if count > MAX_REQUIRED_FIELDS then MAX_REQUIRED_FIELDS else count;
    if RequiredSeen(fs, seen) {
      forall r: nat | r < numbers
        ensures NumberSeen(fs, seen, r)
      {
        var k := RequiredNumbered(fs, |fs|, r);
        assert k in seen;
      }
    }
    if NumbersSeen(fs, seen, 0, numbers) {
      forall k: nat | k < |fs| && fs[k].htype.Required? && RequiredBefore(fs, k) < MAX_REQUIRED_FIELDS
        ensures k in seen
      {
        RequiredBeforeMonotone(fs, k, |fs|);
        assert NumberSeen(fs, seen, RequiredBefore(fs, k));
        var j: nat :| j in seen && j < |fs| && fs[j].htype.Required? && RequiredBefore(fs, j) == RequiredBefore(fs, k);
        RequiredNumbersDiffer(fs, j, k);
      }
    }
  }

  lemma NoHigherNumber(fs: seq<Field>, seen: set<nat>, r: nat)
    requires NumberSeen(fs, seen, r)
    ensures r < RequiredBefore(fs, |fs|)
  {
    var k: nat :| k in seen && k < |fs| && fs[k].htype.Required? && RequiredBefore(fs, k) == r;
    RequiredBeforeMonotone(fs, k, |fs|);
  }

  /** A word compared with `n` ones, where no number above `end` is in use. */
  lemma WordCheck(words: seq<nat>, fs: seq<Field>, seen: set<nat>, w: nat, n: nat, end: nat, ones: nat)
    requires Records(words, fs, seen) && w < 2 && n <= 32 && ones == Scale(1, n) - 1 && end == 32 * w + n
    requires n < 32 ==> RequiredBefore(fs, |fs|) == end
    ensures words[w] == ones <==> NumbersSeen(fs, seen, 32 * w, end)
  {
    OnesExactly(words[w], ones, n);
    if words[w] == ones {
      forall r: nat | 32 * w <= r < end
        ensures NumberSeen(fs, seen, r)
      {
        assert Bit(words[w], r - 32 * w);
      }
    }
    if NumbersSeen(fs, seen, 32 * w, end) {
      forall i: nat
        ensures Bit(words[w], i) == (i < n)
      {
        if i < 32 && NumberSeen(fs, seen, 32 * w + i) && i >= n {
          NoHigherNumber(fs, seen, 32 * w + i);
        }
      }
    }
  }

  /** The decoder's final check: whole words against all ones, the rest of the count against as many ones. */
  method CheckRequired(words: array<nat>, count: nat, fs: seq<Field>, ghost seen: set<nat>) returns (ok: bool)
    requires words.Length == 2 && Records(words[..], fs, seen) && count == RequiredBefore(fs, |fs|)
    ensures ok <==> RequiredSeen(fs, seen)
  {
    var allBits: nat := 0xFFFF_FFFF;
    var reqFieldCount := if count > MAX_REQUIRED_FIELDS then MAX_REQUIRED_FIELDS else count;
    RequiredSeenByNumber(fs, seen, count);
    ScaleValues();
    var i: nat := 0;
    while i < reqFieldCount / 32
      invariant i <= reqFieldCount / 32 && NumbersSeen(fs, seen, 0, 32 * i)
    {
      WordCheck(words[..], fs, seen, i, 32, 32 * i + 32, allBits);
      NumbersSplit(fs, seen, 32 * i, 32 * i + 32, reqFieldCount);
      if words[i] != allBits {
        return false;
      }
      i := i + 1;
    }
    var rest := reqFieldCount % 32;
    if rest != 0 {
      WordCheck(words[..], fs, seen, i, rest, 32 * i + rest, Scale(1, rest) - 1);
      NumbersSplit(fs, seen, 32 * i, reqFieldCount, reqFieldCount);
      if words[i] != Scale(1, rest) - 1 {
        return false;
      }
    }
    ok := true;
  }

  lemma NumbersSplit(fs: seq<Field>, seen: set<nat>, middle: nat, next: nat, end: nat)
    requires middle <= next <= end
    ensures NumbersSeen(fs, seen, 0, middle) ==>
              (NumbersSeen(fs, seen, 0, next) <==> NumbersSeen(fs, seen, middle, next))
    ensures NumbersSeen(fs, seen, 0, end) ==> NumbersSeen(fs, seen, middle, next)
  {
  }
}

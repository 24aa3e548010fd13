/** The server's choice of a cipher among two preference lists, with groups of equal preference. */
module CipherChoice {
  import opened Bytes

  datatype Cipher = Cipher(id: nat, minVersion: nat, maxVersion: nat, keyExchange: bv32, authentication: bv32)

  /** The negotiated version and the masks of what the server's configuration supports. */
  datatype Support = Support(version: nat, keyExchanges: bv32, authentications: bv32)

  predicate Supports(s: Support, c: Cipher) {
    && c.minVersion <= s.version <= c.maxVersion
    && c.keyExchange & s.keyExchanges != 0
    && c.authentication & s.authentications != 0
  }

  /** The server's list. A flag tells that a cipher is not the last one of its group. */
  datatype PreferenceList = PreferenceList(ciphers: seq<Cipher>, inGroup: seq<bool>)

  predicate WellFormed(l: PreferenceList) {
    |l.ciphers| == |l.inGroup|
  }

  predicate Terminated(l: PreferenceList) {
    WellFormed(l) && (l.inGroup != [] ==> !l.inGroup[|l.inGroup| - 1])
  }

  // ---------- What the choice should be ----------

  /** A list in order of priority, perhaps with groups, and the list that may be chosen from. */
  datatype Query = Query(prio: seq<Cipher>, inGroup: Option<seq<bool>>, allow: seq<Cipher>, support: Support) {
    predicate Valid() {
      inGroup.Some? ==> |inGroup.value| == |prio|
    }

    /** Whether a group ends at `i`. */
    predicate Ends(i: nat)
      requires Valid() && i < |prio|
    {
      inGroup.None? || !inGroup.value[i]
    }

    /** The number of the group that `i` is in. */
    function Group(i: nat): nat
      requires Valid() && i <= |prio|
    {
      if i == 0 then 0 else Group(i - 1) + if Ends(i - 1) then 1 else 0
    }

    predicate Candidate(i: nat) {
      i < |prio| && Supports(support, prio[i]) && prio[i] in allow
    }

    /** Whether the group that `i` is in ends at all. */
    ghost predicate Closed(i: nat)
      requires Valid() && i < |prio|
    {
      exists k :: i <= k < |prio| && Ends(k)
    }

    /** An earlier group, or the same group and a place further up in `allow`. */
    ghost predicate NoWorse(i: nat, j: nat)
      requires Valid() && Candidate(i) && Candidate(j)
    {
      Group(i) < Group(j) || (Group(i) == Group(j) && First(allow, prio[i]) <= First(allow, prio[j]))
    }

    ghost predicate Wins(i: nat)
      requires Valid()
    {
      Candidate(i) && Closed(i) && forall j: nat :: Candidate(j) ==> NoWorse(i, j)
    }
  }

  /** Where a cipher comes first in a list. */
  function First(s: seq<Cipher>, c: Cipher): (i: nat)
    requires c in s
    ensures i < |s| && s[i] == c && c !in s[..i]
  {
    if s[0] == c then 0
    else
      var i := First(s[1..], c);
      assert s[..i + 1] == [s[0]] + s[1..][..i];
      i + 1
  }

  lemma FirstIs(s: seq<Cipher>, c: Cipher, i: nat)
    requires i < |s| && s[i] == c && c !in s[..i]
    ensures First(s, c) == i
  {
    assert forall k :: 0 <= k < i ==> s[..i][k] == s[k];
    assert forall k :: 0 <= k < First(s, c) ==> s[..First(s, c)][k] == s[k];
  }

  ghost predicate Chosen(q: Query, r: Option<Cipher>)
    requires q.Valid()
  {
    match r
    case Some(c) => exists i: nat :: q.Wins(i) && q.prio[i] == c
    case None => forall i: nat :: q.Candidate(i) ==> !q.Closed(i)
  }

  lemma {:induction false} GroupsGrow(q: Query, i: nat, j: nat)
    requires q.Valid() && i <= j <= |q.prio|
    ensures q.Group(i) <= q.Group(j)
    ensures i < j && q.Ends(i) ==> q.Group(i) < q.Group(j)
    ensures q.Group(i) == q.Group(j) ==> forall k :: i <= k < j ==> !q.Ends(k)
    decreases j
  {
    if i < j {
      GroupsGrow(q, i, j - 1);
    }
  }

  lemma OneWinner(q: Query, i: nat, j: nat)
    requires q.Valid() && q.Wins(i) && q.Wins(j)
    ensures q.prio[i] == q.prio[j]
  {
    assert q.NoWorse(i, j) && q.NoWorse(j, i);
    assert q.allow[First(q.allow, q.prio[i])] == q.prio[i];
  }

  /** No two ciphers can both be the right choice, and one and none cannot. */
  lemma ChoiceIsUnique(q: Query, r: Option<Cipher>, r': Option<Cipher>)
    requires q.Valid() && Chosen(q, r) && Chosen(q, r')
    ensures r == r'
  {
    if r.Some? && r'.Some? {
      var i: nat :| q.Wins(i) && q.prio[i] == r.value;
      var j: nat :| q.Wins(j) && q.prio[j] == r'.value;
      OneWinner(q, i, j);
    }
  }

  // ---------- The single pass ----------

  /** sk_SSL_CIPHER_find on a list that is not sorted. */
  method Find(s: seq<Cipher>, c: Cipher) returns (found: bool, index: nat)
    ensures found <==> c in s
    ensures found ==> index == First(s, c)
  {
    index := 0;
    while index < |s|
      invariant index <= |s| && c !in s[..index]
    {
      if s[index] == c {
        FirstIs(s, c, index);
        return true, index;
      }
      index := index + 1;
    }
    found := false;
  }

  /** None of the ciphers before `i` may be chosen. */
  predicate NoneBefore(q: Query, i: nat)
    requires q.Valid() && i <= |q.prio|
  {
    i > 0 ==> NoneBefore(q, i - 1) && !q.Candidate(i - 1)
  }

  /** Of the ciphers before `i` that may be chosen, all are in the group of `best` and none has a better place in
      `allow`. */
  predicate BestBefore(q: Query, i: nat, best: nat)
    requires q.Valid() && i <= |q.prio| && q.Candidate(best)
  {
    i > 0 ==>
      && BestBefore(q, i - 1, best)
      && (q.Candidate(i - 1) ==>
            q.Group(i - 1) == q.Group(best) && First(q.allow, q.prio[best]) <= First(q.allow, q.prio[i - 1]))
  }

  /** What is known when none of the ciphers before `i` has been returned: those that may be chosen are in the group
      that goes on at `i`, and `groupMin` is the best place any of them has in `allow`. */
  predicate Held(q: Query, i: nat, groupMin: Option<nat>, best: nat)
    requires q.Valid() && i <= |q.prio|
  {
    match groupMin
    case None => NoneBefore(q, i)
    case Some(m) =>
      && q.inGroup.Some? && best < i && q.Candidate(best) && m == First(q.allow, q.prio[best])
      && q.Group(best) == q.Group(i) && BestBefore(q, i, best)
  }

  lemma {:induction false} NoneIsBefore(q: Query, i: nat, j: nat)
    requires q.Valid() && j < i <= |q.prio| && NoneBefore(q, i)
    ensures !q.Candidate(j)
  {
    if j < i - 1 {
      NoneIsBefore(q, i - 1, j);
    }
  }

  lemma {:induction false} BestIsBefore(q: Query, i: nat, best: nat, j: nat)
    requires q.Valid() && j < i <= |q.prio| && q.Candidate(best) && BestBefore(q, i, best) && q.Candidate(j)
    ensures q.Group(j) == q.Group(best) && First(q.allow, q.prio[best]) <= First(q.allow, q.prio[j])
  {
    if j < i - 1 {
      BestIsBefore(q, i - 1, best, j);
    }
  }

  /** A candidate as good as the best one, or better, takes its place. */
  lemma {:induction false} BetterIsBest(q: Query, i: nat, best: nat, better: nat)
    requires q.Valid() && i <= |q.prio| && q.Candidate(best) && BestBefore(q, i, best) && q.Candidate(better)
    requires q.Group(better) == q.Group(best) && First(q.allow, q.prio[better]) <= First(q.allow, q.prio[best])
    ensures BestBefore(q, i, better)
  {
    if i > 0 {
      BetterIsBest(q, i - 1, best, better);
    }
  }

  lemma {:induction false} AnyIsBestOfNone(q: Query, i: nat, best: nat)
    requires q.Valid() && i <= |q.prio| && q.Candidate(best) && NoneBefore(q, i)
    ensures BestBefore(q, i, best)
  {
    if i > 0 {
      AnyIsBestOfNone(q, i - 1, best);
    }
  }

  /** One more cipher that is no candidate, and does not end a group with candidates. */
  lemma HeldPast(q: Query, i: nat, groupMin: Option<nat>, best: nat)
    requires q.Valid() && i < |q.prio| && Held(q, i, groupMin, best)
    requires !q.Candidate(i) && (q.Ends(i) ==> groupMin.None?)
    ensures Held(q, i + 1, groupMin, best)
  {
  }

  /** The best of the candidates up to `i`, which is one, and where it stands in `allow`. */
  function BestWith(q: Query, i: nat, groupMin: Option<nat>, best: nat): nat
    requires q.Valid() && i < |q.prio| && q.Candidate(i)
  {
    if groupMin.None? || groupMin.value > First(q.allow, q.prio[i]) then i else best
  }

  lemma HeldWith(q: Query, i: nat, groupMin: Option<nat>, best: nat)
    requires q.Valid() && i < |q.prio| && Held(q, i, groupMin, best) && q.Candidate(i)
    ensures var b := BestWith(q, i, groupMin, best);
            && b <= i && q.Candidate(b) && BestBefore(q, i + 1, b) && q.Group(b) == q.Group(i)
            && First(q.allow, q.prio[b]) == if b == i then First(q.allow, q.prio[i]) else groupMin.value
  {
    var b := BestWith(q, i, groupMin, best);
    if groupMin.None? {
      AnyIsBestOfNone(q, i, i);
    } else if b == i {
      BetterIsBest(q, i, best, i);
    }
  }

  /** The best candidate up to the end of a group wins. */
  lemma BestOfTheGroupWins(q: Query, i: nat, best: nat)
    requires q.Valid() && i < |q.prio| && q.Ends(i) && best <= i && q.Candidate(best)
    requires BestBefore(q, i + 1, best) && q.Group(best) == q.Group(i)
    ensures Chosen(q, Some(q.allow[First(q.allow, q.prio[best])]))
  {
    forall j: nat | q.Candidate(j)
      ensures q.NoWorse(best, j)
    {
      if j > i {
        GroupsGrow(q, i, j);
      } else {
        BestIsBefore(q, i + 1, best, j);
      }
    }
    assert q.Wins(best);
  }

  lemma NothingEnded(q: Query, groupMin: Option<nat>, best: nat)
    requires q.Valid() && Held(q, |q.prio|, groupMin, best)
    ensures Chosen(q, None)
  {
    forall i: nat | q.Candidate(i)
      ensures !q.Closed(i)
    {
      if groupMin.None? {
        NoneIsBefore(q, |q.prio|, i);
      } else {
        BestIsBefore(q, |q.prio|, best, i);
        GroupsGrow(q, i, |q.prio|);
      }
    }
  }

  /** The body of the loop in ssl3_choose_cipher: an answer, or what is known with one more cipher looked at. */
  method Look(q: Query, i: nat, groupMin: Option<nat>, ghost best: nat)
    returns (answer: Option<Cipher>, newMin: Option<nat>, ghost newBest: nat)
    requires q.Valid() && i < |q.prio| && Held(q, i, groupMin, best)
    ensures if answer.Some? then Chosen(q, answer) else Held(q, i + 1, newMin, newBest)
  {
    answer, newMin, newBest := None, groupMin, best;
    var c := q.prio[i];
    var found, index := false, 0;
    if Supports(q.support, c) {
      found, index := Find(q.allow, c);
    }
    if found {
      HeldWith(q, i, groupMin, best);
      newBest := BestWith(q, i, groupMin, best);
      if q.inGroup.Some? && q.inGroup.value[i] {
        if groupMin.None? || groupMin.value > index {
          newMin := Some(index);
        }
        return;
      }
      if groupMin.Some? && groupMin.value < index {
        index := groupMin.value;
      }
      BestOfTheGroupWins(q, i, newBest);
      return Some(q.allow[index]), newMin, newBest;
    }
    if q.inGroup.Some? && !q.inGroup.value[i] && groupMin.Some? {
      BestOfTheGroupWins(q, i, best);
      return Some(q.allow[groupMin.value]), newMin, newBest;
    }
    HeldPast(q, i, groupMin, best);
  }

  /** The loop of ssl3_choose_cipher. */
  method Pass(q: Query) returns (r: Option<Cipher>)
    requires q.Valid()
    ensures Chosen(q, r)
  {
    var groupMin: Option<nat> := None;
    ghost var best := 0;
    var i := 0;
    while i < |q.prio|
      invariant i <= |q.prio| && Held(q, i, groupMin, best)
    {
      r, groupMin, best := Look(q, i, groupMin, best);
      if r.Some? {
        return;
      }
      i := i + 1;
    }
    NothingEnded(q, groupMin, best);
    return None;
  }

  /** Which list has priority depends on an option of the server. */
  function Ask(server: PreferenceList, client: seq<Cipher>, serverPreference: bool, support: Support): Query {
    if serverPreference then Query(server.ciphers, Some(server.inGroup), client, support)
    else Query(client, None, server.ciphers, support)
  }

  /** ssl3_choose_cipher. There is no list of the client if it was malformed. */
  method ChooseCipher(server: PreferenceList, client: Option<seq<Cipher>>, serverPreference: bool, support: Support)
    returns (r: Option<Cipher>)
    requires WellFormed(server)
    ensures client.None? ==> r.None?
    ensures client.Some? ==> Chosen(Ask(server, client.value, serverPreference, support), r)
  {
    if client.None? {
      return None;
    }
    r := Pass(Ask(server, client.value, serverPreference, support));
  }

  // ---------- What that comes to ----------

  /** On both lists, for the version, and by a key exchange and an authentication that the configuration has. */
  predicate Acceptable(server: PreferenceList, client: seq<Cipher>, support: Support, c: Cipher) {
    && c in server.ciphers && c in client
    && c.minVersion <= support.version && support.version <= c.maxVersion
    && (c.keyExchange & support.keyExchanges) != 0 && (c.authentication & support.authentications) != 0
  }

  /** With a list whose last group ends, nothing is chosen only if nothing is acceptable to both. */
  lemma NoneOnlyIfNoneIsAcceptable(server: PreferenceList, client: seq<Cipher>, serverPreference: bool,
                                   support: Support, r: Option<Cipher>)
    requires WellFormed(server) && (serverPreference ==> Terminated(server))
    requires Chosen(Ask(server, client, serverPreference, support), r)
    ensures r.None? <==> forall c :: c in client ==> !Acceptable(server, client, support, c)
    ensures r.Some? ==> Acceptable(server, client, support, r.value)
  {
    var q := Ask(server, client, serverPreference, support);
    if r.None? {
      forall c | c in client
        ensures !Acceptable(server, client, support, c)
      {
        if Acceptable(server, client, support, c) {
          var i :| 0 <= i < |q.prio| && q.prio[i] == c;
          assert q.Candidate(i) && q.Ends(|q.prio| - 1);
          assert q.Closed(i);
        }
      }
    } else {
      assert r.value in client && Acceptable(server, client, support, r.value);
    }
  }

  /** Without the server's preference it is the first cipher of the client's that is acceptable. */
  lemma ClientPreferenceTakesTheFirst(server: PreferenceList, client: seq<Cipher>, support: Support, r: Option<Cipher>)
    requires WellFormed(server) && Chosen(Ask(server, client, false, support), r)
    ensures forall i :: 0 <= i < |client| && Acceptable(server, client, support, client[i])
                        && (forall j :: 0 <= j < i ==> !Acceptable(server, client, support, client[j]))
                        ==> r == Some(client[i])
  {
    var q := Ask(server, client, false, support);
    forall i | 0 <= i < |client| && Acceptable(server, client, support, client[i])
               && (forall j :: 0 <= j < i ==> !Acceptable(server, client, support, client[j]))
      ensures r == Some(client[i])
    {
      assert q.Candidate(i) && q.Ends(i);
      forall j: nat | q.Candidate(j)
        ensures q.NoWorse(i, j)
      {
        if j > i {
          GroupsGrow(q, i, j);
        }
      }
      assert q.Wins(i);
      ChoiceIsUnique(q, r, Some(client[i]));
    }
  }

  /** With the server's preference and no groups, it is the first of the server's. */
  lemma WithoutGroupsTheServersFirst(server: PreferenceList, client: seq<Cipher>, support: Support, r: Option<Cipher>)
    requires WellFormed(server) && (forall i :: 0 <= i < |server.inGroup| ==> !server.inGroup[i])
    requires Chosen(Ask(server, client, true, support), r)
    ensures forall i :: 0 <= i < |server.ciphers| && Acceptable(server, client, support, server.ciphers[i])
                        && (forall j :: 0 <= j < i ==> !Acceptable(server, client, support, server.ciphers[j]))
                        ==> r == Some(server.ciphers[i])
  {
    var q := Ask(server, client, true, support);
    forall i | 0 <= i < |server.ciphers| && Acceptable(server, client, support, server.ciphers[i])
               && (forall j :: 0 <= j < i ==> !Acceptable(server, client, support, server.ciphers[j]))
      ensures r == Some(server.ciphers[i])
    {
      assert q.Candidate(i) && q.Ends(i);
      forall j: nat | q.Candidate(j)
        ensures q.NoWorse(i, j)
      {
        if j > i {
          GroupsGrow(q, i, j);
        }
      }
      assert q.Wins(i);
      ChoiceIsUnique(q, r, Some(server.ciphers[i]));
    }
  }

  /** With one group for the whole list, it is the client's first: the groups let the client decide within them. */
  lemma InOneGroupTheClientDecides(server: PreferenceList, client: seq<Cipher>, support: Support, r: Option<Cipher>)
    requires Terminated(server) && (forall i :: 0 <= i < |server.inGroup| - 1 ==> server.inGroup[i])
    requires Chosen(Ask(server, client, true, support), r)
    ensures forall i :: 0 <= i < |client| && Acceptable(server, client, support, client[i])
                        && (forall j :: 0 <= j < i ==> !Acceptable(server, client, support, client[j]))
                        ==> r == Some(client[i])
  {
    var q := Ask(server, client, true, support);
    forall i | 0 <= i < |client| && Acceptable(server, client, support, client[i])
               && (forall j :: 0 <= j < i ==> !Acceptable(server, client, support, client[j]))
      ensures r == Some(client[i])
    {
      var k :| 0 <= k < |q.prio| && q.prio[k] == client[i];
      assert q.Candidate(k) && q.Ends(|q.prio| - 1);
      assert First(client, client[i]) == i by {
        assert client[First(client, client[i])] == client[i];
      }
      forall j: nat | q.Candidate(j)
        ensures q.NoWorse(k, j)
      {
        OneGroup(q, k);
        OneGroup(q, j);
        assert client[First(client, q.prio[j])] == q.prio[j];
      }
      assert q.Wins(k);
      ChoiceIsUnique(q, r, Some(client[i]));
    }
  }

  lemma {:induction false} OneGroup(q: Query, i: nat)
    requires q.Valid() && i < |q.prio| && (forall k :: 0 <= k < |q.prio| - 1 ==> !q.Ends(k))
    ensures q.Group(i) == 0
  {
    if i > 0 {
      OneGroup(q, i - 1);
    }
  }

  /** What the pass makes of any flags, also of those that the rule parser never builds, where the last group does not
      end: that group takes no part, so nothing is chosen exactly when every acceptable cipher of the server's stands in
      it. */
  lemma AnOpenGroupIsIgnored(server: PreferenceList, client: seq<Cipher>, support: Support, r: Option<Cipher>)
    requires WellFormed(server) && Chosen(Ask(server, client, true, support), r)
    ensures r.None? <==>
            forall i :: 0 <= i < |server.ciphers| && Acceptable(server, client, support, server.ciphers[i]) ==>
                          forall k :: i <= k < |server.inGroup| ==> server.inGroup[k]
  {
    var q := Ask(server, client, true, support);
    forall i | 0 <= i < |server.ciphers|
      ensures q.Candidate(i) <==> Acceptable(server, client, support, server.ciphers[i])
      ensures !q.Closed(i) <==> forall k :: i <= k < |server.inGroup| ==> server.inGroup[k]
    {
      assert forall k :: i <= k < |server.inGroup| ==> (q.Ends(k) <==> !server.inGroup[k]);
    }
  }
}

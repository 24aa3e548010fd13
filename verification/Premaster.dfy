/** How the server takes the premaster secret out of a decrypted RSA block, without branching on its contents. */
module Premaster {
  import opened Bytes
  import opened ConstantTime

  type Octet = bv8

  /** SSL_MAX_MASTER_KEY_LENGTH. */
  const PREMASTER_LENGTH: nat := 48

  // ---------- What the standards say ----------

  /** The place of the first zero octet from `i` on, the length if there is none. */
  function FirstZero(em: seq<Octet>, i: nat): (z: nat)
    requires i <= |em|
    ensures i <= z <= |em| && (z < |em| ==> em[z] == 0)
    ensures forall k :: i <= k < z ==> em[k] != 0
    decreases |em| - i
  {
    if i == |em| || em[i] == 0 then i else FirstZero(em, i + 1)
  }

  /** Section 7.2.2 of RFC 3447: a block is 00 02, at least eight octets that are not zero, 00 and the message. */
  function Unpad(em: seq<Octet>): Option<seq<Octet>> {
    if |em| < 11 || em[0] != 0 || em[1] != 2 then None
    else
      var z := FirstZero(em, 2);
      if z == |em| || z - 2 < 8 then None else Some(em[z + 1..])
  }

  /** Section 7.4.7.1 of RFC 5246: the message, if it has the right length and begins with the version the client
      offered, and random octets otherwise. */
  function Selected(em: seq<Octet>, random: seq<Octet>, version: bv16): seq<Octet> {
    match Unpad(em)
    case Some(m) => if |m| == PREMASTER_LENGTH && BeginsWith(m, version) then m else random
    case None => random
  }

  predicate BeginsWith(m: seq<Octet>, version: bv16)
    requires |m| == PREMASTER_LENGTH
  {
    m[0] == (version >> 8) as Octet && m[1] == (version & 0xFF) as Octet
  }

  /** Section 7.2.1 of RFC 3447: how the client's block is padded. */
  function Pad(padding: seq<Octet>, m: seq<Octet>): seq<Octet> {
    [0, 2] + padding + [0] + m
  }

  lemma {:induction false} FirstZeroIs(em: seq<Octet>, i: nat, z: nat)
    requires i <= z < |em| && em[z] == 0 && forall k :: i <= k < z ==> em[k] != 0
    ensures FirstZero(em, i) == z
    decreases z - i
  {
    if i < z {
      FirstZeroIs(em, i + 1, z);
    }
  }

  lemma VersionOctets(high: Octet, low: Octet, version: bv16)
    ensures high == (version >> 8) as Octet && low == (version & 0xFF) as Octet <==>
            ((high as bv16) << 8) | (low as bv16) == version
  {
  }

  /** What an honest client padded comes out: a premaster secret that begins with the version is selected, and
      any other message is not. */
  lemma HonestPremasterIsSelected(padding: seq<Octet>, m: seq<Octet>, random: seq<Octet>, version: bv16)
    requires |padding| >= 8 && forall k :: 0 <= k < |padding| ==> padding[k] != 0
    ensures Unpad(Pad(padding, m)) == Some(m)
    ensures Selected(Pad(padding, m), random, version) ==
            if |m| == 48 && ((m[0] as bv16) << 8) | (m[1] as bv16) == version then m else random
  {
    if |m| == 48 {
      VersionOctets(m[0], m[1], version);
    }
    var em, z := Pad(padding, m), 2 + |padding|;
    assert em == ([0, 2] + padding) + ([0] + m);
    assert forall k :: 2 <= k < z ==> em[k] == padding[k - 2];
    FirstZeroIs(em, 2, z);
    assert em[z + 1..] == m;
  }

  // ---------- What the code checks ----------

  /** The message is taken to be the last 48 octets, and all that is before them to be padding. */
  ghost predicate WellPadded(em: seq<Octet>, version: bv16)
    requires |em| >= 11 + PREMASTER_LENGTH
  {
    var padding := |em| - PREMASTER_LENGTH;
    && em[0] == 0 && em[1] == 2
    && (forall i :: 2 <= i < padding - 1 ==> em[i] != 0)
    && em[padding - 1] == 0
    && BeginsWith(em[padding..], version)
  }

  /** That is the same as to unpad it and to look at the message found. */
  lemma PaddingByPlace(em: seq<Octet>, random: seq<Octet>, version: bv16)
    requires |em| >= 59
    ensures Selected(em, random, version) == if WellPadded(em, version) then em[|em| - 48..] else random
  {
    var padding := |em| - PREMASTER_LENGTH;
    var z := FirstZero(em, 2);
    if WellPadded(em, version) {
      assert z == padding - 1;
    }
  }

  /** A block too short for the code never holds a message of the right length, so to reject it openly tells nothing
      that its length does not. */
  lemma ShortBlocksHoldNoPremaster(em: seq<Octet>, random: seq<Octet>, version: bv16)
    requires |em| < 59
    ensures Selected(em, random, version) == random
  {
  }

  lemma MasksCombine(a: bool, b: bool)
    ensures Mask8(a) & Mask8(b) == Mask8(a && b)
    ensures !Mask8(a) == Mask8(!a)
  {
  }

  /** The RSA part of do_read_client_key_exchange, once the block is decrypted: `block` is what it was decrypted into,
      and `premaster` comes filled with random octets. */
  method SelectPremaster(block: array<Octet>, decryptedLength: nat, premaster: array<Octet>, version: bv16)
    returns (ok: bool)
    requires premaster.Length == PREMASTER_LENGTH && premaster != block
    modifies premaster
    ensures ok <==> decryptedLength == block.Length && block.Length >= 11 + PREMASTER_LENGTH
    ensures premaster[..] == if ok then Selected(block[..], old(premaster[..]), version) else old(premaster[..])
  {
    if decryptedLength != block.Length || decryptedLength < 11 + premaster.Length {
      return false;
    }
    var padding := decryptedLength - premaster.Length;
    var good := CheckPadding(block, padding, version);
    ghost var em, random := block[..], premaster[..];
    PaddingByPlace(em, random, version);
    var i := 0;
    while i < premaster.Length
      invariant i <= premaster.Length && premaster[i..] == random[i..]
      invariant premaster[..i] == if WellPadded(em, version) then em[padding..padding + i] else random[..i]
    {
      premaster[i] := Select8(good, block[padding + i], premaster[i]);
      i := i + 1;
    }
    assert em[padding..padding + i] == em[padding..];
    return true;
  }

  /** Every octet of the padding is looked at, whatever the ones before it are. */
  method CheckPadding(block: array<Octet>, padding: nat, version: bv16) returns (good: bv8)
    requires block.Length >= 11 + PREMASTER_LENGTH && padding == block.Length - PREMASTER_LENGTH
    ensures good == Mask8(WellPadded(block[..], version))
  {
    good := EqInt8(block[0] as bv32, 0) & EqInt8(block[1] as bv32, 2);
    MasksCombine(block[0] as bv32 == 0, block[1] as bv32 == 2);
    ghost var sofar := block[0] == 0 && block[1] == 2;
    var i := 2;
    while i < padding - 1
      invariant 2 <= i <= padding - 1
      invariant sofar <==> block[0] == 0 && block[1] == 2 && forall k :: 2 <= k < i ==> block[k] != 0
      invariant good == Mask8(sofar)
    {
      MasksCombine(block[i] as Word == 0, true);
      MasksCombine(sofar, !(block[i] as Word == 0));
      good := good & !IsZero8(block[i] as Word);
      sofar := sofar && block[i] != 0;
      i := i + 1;
    }
    MasksCombine(sofar, block[padding - 1] as Word == 0);
    good := good & IsZero8(block[padding - 1] as Word);
    sofar := sofar && block[padding - 1] == 0;
    var high, low := (version >> 8) as Word, (version & 0xFF) as Word;
    MasksCombine(sofar, block[padding] as Word == high);
    good := good & Eq8(block[padding] as Word, high);
    sofar := sofar && block[padding] as Word == high;
    MasksCombine(sofar, block[padding + 1] as Word == low);
    good := good & Eq8(block[padding + 1] as Word, low);
  }
}

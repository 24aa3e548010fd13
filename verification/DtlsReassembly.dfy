/** What the DTLS receiver makes of handshake fragments: a window of messages being put together. */
module DtlsReassembly {
  import opened Bytes
  import opened DtlsFragment

  // ---------- One message ----------

  /** A message of which `bytes` have been received. */
  datatype Assembly = Assembly(msgType: byte, msgLen: nat, bytes: map<nat, byte>)

  predicate Complete(a: Assembly) {
    forall k: nat :: k < a.msgLen ==> k in a.bytes
  }

  function Body(a: Assembly): (s: seq<byte>)
    requires Complete(a)
    ensures |s| == a.msgLen
  {
    seq(a.msgLen, i requires 0 <= i < a.msgLen => a.bytes[i])
  }

  function Start(f: Fragment): Assembly {
    Assembly(f.msgType, f.msgLen, map[])
  }

  function ByteAt(f: Fragment, k: nat): byte
    requires f.fragOff <= k < f.fragOff + |f.body|
  {
    f.body[k - f.fragOff]
  }

  /** The bytes of a fragment, by position in the message. */
  function Piece(f: Fragment): (m: map<nat, byte>)
    ensures forall k :: k in m <==> f.fragOff <= k < f.fragOff + |f.body|
    ensures forall k :: k in m ==> m[k] == f.body[k - f.fragOff]
  {
    map k: nat | f.fragOff <= k < f.fragOff + |f.body| :: ByteAt(f, k)
  }

  /** A finished message is left alone; otherwise the fragment's bytes are written over whatever was there. */
  function Insert(a: Assembly, f: Fragment): Assembly {
    if Complete(a) then a
    else a.(bytes := a.bytes + Piece(f))
  }

  // ---------- The window ----------

  /** `pending` holds the messages under way, by number; `readSeq` is the number of the next one to be read. */
  datatype Receiver = Receiver(readSeq: nat, pending: map<nat, Assembly>)

  predicate InWindow(r: Receiver, number: nat) {
    r.readSeq <= number < r.readSeq + MAX_HANDSHAKE_FLIGHT
  }

  /** The range check on a fragment. */
  predicate InBounds(f: Fragment, maxLen: nat) {
    f.fragOff + |f.body| <= f.msgLen <= maxLen
  }

  /** Not an error: with the keys of epoch 1 only the message that is due, a number that is not exactly one past the
      window, and the type and length that an earlier fragment of the message had. */
  predicate Acceptable(r: Receiver, f: Fragment, epoch: nat, maxLen: nat) {
    && InBounds(f, maxLen)
    && (epoch == 1 ==> f.number == r.readSeq)
    && f.number != r.readSeq + MAX_HANDSHAKE_FLIGHT
    && (InWindow(r, f.number) && f.number in r.pending ==>
          r.pending[f.number].msgType == f.msgType && r.pending[f.number].msgLen == f.msgLen)
  }

  /** An acceptable fragment; from before the window or beyond it, it is ignored. */
  function Take(r: Receiver, f: Fragment): Receiver {
    if !InWindow(r, f.number) then r
    else
      var a := if f.number in r.pending then r.pending[f.number] else Start(f);
      r.(pending := r.pending[f.number := Insert(a, f)])
  }

  /** The fragments in the body of a handshake record. An error leaves those before it. */
  function TakeAll(r: Receiver, s: seq<byte>, epoch: nat, maxLen: nat): (Receiver, bool)
    decreases |s|
  {
    if s == [] then (r, true)
    else
      var p := ParseFragment(s);
      if p.Fail? || !Acceptable(r, p.value, epoch, maxLen) then (r, false)
      else TakeAll(Take(r, p.value), p.rest, epoch, maxLen)
  }

  predicate Ready(r: Receiver) {
    r.readSeq in r.pending && Complete(r.pending[r.readSeq])
  }

  /** The message is let go; its 16-bit number counts up. */
  function Next(r: Receiver): Receiver {
    Receiver(NextNumber(r.readSeq), r.pending - {r.readSeq})
  }

  function NextNumber(n: nat): nat {
    if n + 1 == TWO_TO_THE_16 then 0 else n + 1
  }

  // ---------- The invariant of the window ----------

  /** Everything pending lies in the window and has a 16-bit number, and only bytes of the message are held. */
  ghost predicate Windowed(r: Receiver) {
    && r.readSeq < TWO_TO_THE_16
    && forall n :: n in r.pending ==>
         InWindow(r, n) && n < TWO_TO_THE_16 && forall k :: k in r.pending[n].bytes ==> k < r.pending[n].msgLen
  }

  lemma TakeKeepsWindow(r: Receiver, f: Fragment, epoch: nat, maxLen: nat)
    requires Windowed(r) && Acceptable(r, f, epoch, maxLen) && WireSized(f)
    ensures Windowed(Take(r, f))
  {
  }

  lemma InsertKeepsWindow(r: Receiver, f: Fragment)
    requires Windowed(r) && f.number in r.pending && f.fragOff + |f.body| <= r.pending[f.number].msgLen
    ensures Windowed(r.(pending := r.pending[f.number := Insert(r.pending[f.number], f)]))
  {
  }

  /** Even when the number wraps: nothing can be pending beyond number 65535. */
  lemma NextKeepsWindow(r: Receiver)
    requires Windowed(r)
    ensures Windowed(Next(r))
  {
  }

  lemma {:induction false} TakeAllKeepsWindow(r: Receiver, s: seq<byte>, epoch: nat, maxLen: nat)
    requires Windowed(r)
    ensures Windowed(TakeAll(r, s, epoch, maxLen).0)
    decreases |s|
  {
    if s != [] {
      var p := ParseFragment(s);
      if p.Ok? && Acceptable(r, p.value, epoch, maxLen) {
        ParsedIsWireSized(s);
        TakeKeepsWindow(r, p.value, epoch, maxLen);
        TakeAllKeepsWindow(Take(r, p.value), p.rest, epoch, maxLen);
      }
    }
  }

  /** The slot of the ring that number `n` uses, and the number in the window that slot `i` stands for. */
  function SlotOf(n: nat): (i: nat)
    ensures i < MAX_HANDSHAKE_FLIGHT
  {
    n % MAX_HANDSHAKE_FLIGHT
  }

  function NumberAt(readSeq: nat, i: nat): (n: nat)
    requires i < MAX_HANDSHAKE_FLIGHT
    ensures readSeq <= n < readSeq + MAX_HANDSHAKE_FLIGHT && SlotOf(n) == i
  {
    var first := SlotOf(readSeq);
    if i >= first then readSeq + (i - first) else readSeq + (i + MAX_HANDSHAKE_FLIGHT - first)
  }

  /** Within a window no two numbers share a slot. */
  lemma SlotsAreDistinct(readSeq: nat, n: nat)
    requires readSeq <= n < readSeq + MAX_HANDSHAKE_FLIGHT
    ensures NumberAt(readSeq, SlotOf(n)) == n
  {
  }
}

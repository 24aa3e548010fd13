/** A handshake machine as it runs: an object whose fields the steps of either side update. */
module TlsMachine {
  import opened Bytes
  import opened TlsHandshake
  import opened TlsRounds

  /** SSL_HANDSHAKE with what it uses of the connection. */
  class Machine<T(==)> {
    var state: T
    var transcript: seq<Message>
    var buffered: bool
    var inbox: seq<Item>
    var flight: seq<Item>
    var certRequest: bool
    var peerPubkey: bool
    var masterSeed: seq<Message>
    var readSwitched: bool
    var writeSwitched: bool
    var macSent: Option<seq<Message>>
    var macChecked: Option<seq<Message>>

    ghost function Now(): Handshake<T>
      reads this
    {
      Handshake(state, transcript, buffered, inbox, flight, certRequest, peerPubkey, masterSeed, readSwitched,
                writeSwitched, macSent, macChecked)
    }

    constructor (start: T)
      ensures Now() == Begin(start)
    {
      state, transcript, buffered, inbox, flight := start, [], true, [], [];
      certRequest, peerPubkey, masterSeed := false, false, [];
      readSwitched, writeSwitched, macSent, macChecked := false, false, None, None;
    }

    /** get_message. */
    method GetMessage() returns (ok: bool, msg: Message)
      ensures ok <==> Has(Now())
      ensures ok ==> msg == Peek(Now())
    {
      if |inbox| == 0 || inbox[0].Ccs? {
        return false, Finished(false, []);
      }
      return true, inbox[0].m;
    }

    /** ssl_hash_message and next_message. */
    method HashAndNext()
      requires Has(Now())
      modifies this`transcript, this`inbox
      ensures Now() == old(Take(Now()))
    {
      transcript := transcript + [inbox[0].m];
      inbox := inbox[1..];
    }

    /** ssl_add_message_cbb, which hashes what it adds. */
    method AddMessage(m: Message)
      modifies this`transcript, this`flight
      ensures Now() == Send(old(Now()), m)
    {
      transcript, flight := transcript + [m], flight + [Msg(m)];
    }

    /** add_change_cipher_spec and the change of the write cipher. */
    method AddChangeCipherSpec()
      modifies this`flight, this`writeSwitched
      ensures Now() == SendCcs(old(Now()))
    {
      flight, writeSwitched := flight + [Ccs], true;
    }

    /** ssl_get_finished; the caller moves on after `Proceed`. */
    method ReadFinished(server: bool, next: T) returns (w: Wait)
      modifies this`transcript, this`inbox, this`macChecked, this`state
      ensures (Now(), w) == GetFinished(old(Now()), server, next)
    {
      var ok, msg := GetMessage();
      if !ok {
        return ReadMessage;
      }
      if KindOf(msg) != FinishedKind || msg != Finished(!server, transcript) {
        return Error;
      }
      macChecked := Some(transcript);
      HashAndNext();
      state := next;
      return Proceed;
    }

    /** ssl_send_finished. */
    method WriteFinished(server: bool)
      modifies this`transcript, this`flight, this`macSent
      ensures Now() == SendFinished(old(Now()), server)
    {
      macSent := Some(transcript);
      AddMessage(Finished(server, transcript));
    }

    /** One round of ssl_run_handshake for a machine that waits. */
    method ResolveWait(w: Wait) returns (next: Wait, flushed: seq<Item>)
      modifies this`inbox, this`flight
      ensures (Now(), next, flushed) == Resolve(old(Now()), w)
    {
      next, flushed := w, [];
      match w
      case Error =>
      case Flush =>
        next, flushed, flight := Proceed, flight, [];
      case ReadMessage =>
        if |inbox| > 0 {
          next := if inbox[0].Msg? then Proceed else Error;
        }
      case ReadChangeCipherSpec =>
        if |inbox| > 0 {
          if inbox[0].Ccs? {
            inbox, next := inbox[1..], Proceed;
          } else {
            next := Error;
          }
        }
      case _ =>
        next := Proceed;
    }

    /** The same, given what is going to arrive: the next of it is taken when there is nothing to open. */
    method ResolveNext(w: Wait, arrivals: seq<seq<Item>>, read: nat)
      returns (stuck: bool, next: Wait, flushed: seq<Item>, now: nat, ghost input: Input)
      requires read <= |arrivals| && (w == Flush || w == ReadMessage || w == ReadChangeCipherSpec)
      modifies this`inbox, this`flight
      ensures stuck ==> Now() == old(Now()) && w != Flush && inbox == [] && read == |arrivals|
      ensures !stuck ==> (Now(), next, flushed) == Resolve(old(Now()).(inbox := old(inbox) + input.arrived), w)
      ensures !stuck ==> read <= now <= |arrivals| && Flat(arrivals[..now]) == Flat(arrivals[..read]) + input.arrived
      ensures !stuck ==> now > read || Urgency(Now(), next) < Urgency(old(Now()), w)
      ensures state == old(state)
    {
      stuck, next, flushed, now, input := false, w, [], read, Input([], false);
      if w != Flush && inbox == [] {
        if read == |arrivals| {
          stuck := true;
          return;
        }
        inbox := inbox + arrivals[read];
        FlatFurther(arrivals, read);
        input, now := Input(arrivals[read], false), read + 1;
      } else {
        assert inbox + [] == inbox;
        ResolveIsUrgent(Now(), w);
      }
      next, flushed := ResolveWait(w);
    }
  }
}

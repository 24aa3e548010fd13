/** Which runs of writes seal some byte of the stream twice: exactly those that seal anything after a retry that came
    with less data than was already written. */
module TlsWriteTwice {
  import opened Bytes
  import opened TlsWrite
  import opened TlsWriteOnce

  // ---------- Places in the stream ----------

  function Span(from: nat, n: nat): (ps: seq<nat>)
    ensures |ps| == n && forall i :: 0 <= i < n ==> ps[i] == from + i
  {
    seq(n, i requires 0 <= i < n => from + i)
  }

  function Grown(c: Connection, after: Connection): nat {
    if |AppData(after.log)| > |AppData(c.log)| then |AppData(after.log)| - |AppData(c.log)| else 0
  }

  /** The places in the stream of the bytes that a run seals, in order: each step seals from where the connection is. */
  function Places(step: Stepper, c: Connection, events: seq<Event>, accepted: nat): seq<nat>
    decreases |events|
  {
    if events == [] then []
    else
      var r := step(c, events[0]);
      Span(NextToSeal(c, accepted), Grown(c, r.0)) + Places(step, r.0, events[1..], accepted + Reported(r.1))
  }

  predicate Within(ps: seq<nat>, stream: seq<byte>) {
    forall i :: 0 <= i < |ps| ==> ps[i] < |stream|
  }

  /** The bytes of the stream at these places. */
  function Pick(stream: seq<byte>, ps: seq<nat>): (s: seq<byte>)
    requires Within(ps, stream)
    ensures |s| == |ps|
  {
    seq(|ps|, i requires 0 <= i < |ps| => stream[ps[i]])
  }

  lemma PickSpan(stream: seq<byte>, from: nat, to: nat, ps: seq<nat>)
    requires from <= to <= |stream| && Within(ps, stream)
    ensures Within(Span(from, to - from) + ps, stream)
    ensures Pick(stream, Span(from, to - from) + ps) == stream[from..to] + Pick(stream, ps)
  {
  }

  lemma PlacesFirst(step: Stepper, c: Connection, events: seq<Event>, accepted: nat, after: Connection, more: nat)
    requires events != [] && after == step(c, events[0]).0 && more == accepted + Reported(step(c, events[0]).1)
    ensures Places(step, c, events, accepted) ==
            Span(NextToSeal(c, accepted), Grown(c, after)) + Places(step, after, events[1..], more)
  {
  }

  lemma MovedGrows(c: Connection, accepted: nat, after: Connection, acceptedAfter: nat, short: bool, stream: seq<byte>)
    requires Moved(c, accepted, after, acceptedAfter, short, stream) && NextToSeal(c, accepted) <= |stream|
    ensures Grown(c, after) == if short then 0 else NextToSeal(after, acceptedAfter) - NextToSeal(c, accepted)
    ensures var here := NextToSeal(c, accepted);
            && here + Grown(c, after) <= |stream|
            && AppData(after.log) == AppData(c.log) + stream[here..here + Grown(c, after)]
  {
  }

  lemma SpanFirst(stream: seq<byte>, here: nat, n: nat, ps: seq<nat>, before: seq<byte>, after: seq<byte>,
                  end: seq<byte>)
    requires here + n <= |stream| && Within(ps, stream)
    requires after == before + stream[here..here + n] && end == after + Pick(stream, ps)
    ensures Within(Span(here, n) + ps, stream) && end == before + Pick(stream, Span(here, n) + ps)
  {
    PickSpan(stream, here, here + n, ps);
    assert before + stream[here..here + n] + Pick(stream, ps) == before + (stream[here..here + n] + Pick(stream, ps));
  }

  /** The places are right: what a run seals is the bytes of the stream there, one after the other. */
  lemma {:induction false} SealedByPlaces(step: Stepper, c: Connection, events: seq<Event>, stream: seq<byte>,
                                          accepted: nat)
    requires KeepsMoving(step, stream) && NextToSeal(c, accepted) <= |stream|
    requires AllOfStream(step, c, events, stream, accepted)
    ensures var ps := Places(step, c, events, accepted);
            Within(ps, stream) && AppData(Run(step, c, events, accepted).0.log) == AppData(c.log) + Pick(stream, ps)
    decreases |events|
  {
    if events == [] {
      assert AppData(c.log) + Pick(stream, []) == AppData(c.log);
    } else {
      var after, more := step(c, events[0]).0, accepted + Reported(step(c, events[0]).1);
      FirstStep(step, c, events, stream, accepted, after, more);
      PlacesFirst(step, c, events, accepted, after, more);
      MovedGrows(c, accepted, after, more, Short(c, events[0]), stream);
      SealedByPlaces(step, after, events[1..], stream, more);
      SpanFirst(stream, NextToSeal(c, accepted), Grown(c, after), Places(step, after, events[1..], more),
                AppData(c.log), AppData(after.log), AppData(Run(step, after, events[1..], more).0.log));
    }
  }

  // ---------- Repeated places ----------

  predicate Repeats(ps: seq<nat>) {
    exists i, j :: 0 <= i < j < |ps| && ps[i] == ps[j]
  }

  /** Some place is repeated, or is one of the `n` first places of the stream. */
  predicate RepeatsBelow(ps: seq<nat>, n: nat) {
    Repeats(ps) || exists i :: 0 <= i < |ps| && ps[i] < n
  }

  lemma NothingBelowZero(ps: seq<nat>)
    ensures RepeatsBelow(ps, 0) <==> Repeats(ps)
  {
  }

  lemma SpanBelow(here: nat, n: nat, ps: seq<nat>, high: nat)
    requires here < high && n > 0
    ensures RepeatsBelow(Span(here, n) + ps, high)
  {
    assert (Span(here, n) + ps)[0] == here;
  }

  lemma NoSpan(here: nat, ps: seq<nat>)
    ensures Span(here, 0) + ps == ps
  {
  }

  /** New places right at the end of those seen before only raise that end. */
  lemma SpanRaises(high: nat, n: nat, ps: seq<nat>)
    ensures RepeatsBelow(Span(high, n) + ps, high) <==> RepeatsBelow(ps, high + n)
  {
    var all := Span(high, n) + ps;
    if RepeatsBelow(ps, high + n) {
      RaisedBelow(high, n, ps, all);
    }
    if Repeats(all) {
      var i, j :| 0 <= i < j < |all| && all[i] == all[j];
      assert j >= n && all[j] == ps[j - n];
      assert i >= n ==> all[i] == ps[i - n];
    } else if i :| 0 <= i < |all| && all[i] < high {
      assert i >= n && ps[i - n] < high;
    }
  }

  lemma RaisedBelow(high: nat, n: nat, ps: seq<nat>, all: seq<nat>)
    requires all == Span(high, n) + ps && RepeatsBelow(ps, high + n)
    ensures RepeatsBelow(all, high)
  {
    if Repeats(ps) {
      var i, j :| 0 <= i < j < |ps| && ps[i] == ps[j];
      assert all[n + i] == all[n + j];
    } else {
      var i :| 0 <= i < |ps| && ps[i] < high + n;
      assert all[n + i] == ps[i];
      if ps[i] >= high {
        assert all[ps[i] - high] == all[n + i];
      }
    }
  }

  // ---------- Which runs do it ----------

  /** Some step of the run seals application data. */
  predicate SealsMore(step: Stepper, c: Connection, events: seq<Event>)
    decreases |events|
  {
    events != [] &&
    var after := step(c, events[0]).0;
    Grown(c, after) > 0 || SealsMore(step, after, events[1..])
  }

  /** Some step of the run seals application data after a short retry. */
  predicate SealsAfterShort(step: Stepper, c: Connection, events: seq<Event>)
    decreases |events|
  {
    events != [] &&
    var after := step(c, events[0]).0;
    (Short(c, events[0]) && SealsMore(step, after, events[1..])) || SealsAfterShort(step, after, events[1..])
  }

  lemma {:induction false} SealsAfterAll(step: Stepper, c: Connection, events: seq<Event>)
    requires SealsAfterShort(step, c, events)
    ensures SealsMore(step, c, events)
    decreases |events|
  {
    var after := step(c, events[0]).0;
    if SealsAfterShort(step, after, events[1..]) {
      SealsAfterAll(step, after, events[1..]);
    }
  }

  /** What the run does, given what its first step and the rest of it do. */
  lemma RepeatsByStep(here: nat, there: nat, short: bool, n: nat, ps: seq<nat>, high: nat, more: bool, afterShort: bool)
    requires here <= high && (afterShort ==> more) && if short then n == 0 && there < here else there == here + n
    requires var end := if here < high then high else high + n;
             n == 0 || here == high ==> (RepeatsBelow(ps, end) <==> (there < end && more) || afterShort)
    ensures RepeatsBelow(Span(here, n) + ps, high) <==>
            (here < high && (n > 0 || more)) || (short && more) || afterShort
  {
    if n == 0 {
      NoSpan(here, ps);
    } else if here < high {
      SpanBelow(here, n, ps, high);
    } else {
      SpanRaises(high, n, ps);
    }
  }

  /** With the stream sealed up to `high`, a run seals a place again exactly if it seals at all while the connection is
      below that, or after a short retry of its own. */
  lemma {:induction false} RepeatsExactly(step: Stepper, c: Connection, events: seq<Event>, stream: seq<byte>,
                                          accepted: nat, high: nat)
    requires KeepsMoving(step, stream) && NextToSeal(c, accepted) <= high <= |stream|
    requires AllOfStream(step, c, events, stream, accepted)
    ensures RepeatsBelow(Places(step, c, events, accepted), high) <==>
            (NextToSeal(c, accepted) < high && SealsMore(step, c, events)) || SealsAfterShort(step, c, events)
    decreases |events|
  {
    if events != [] {
      var after, more := step(c, events[0]).0, accepted + Reported(step(c, events[0]).1);
      var here, n, rest := NextToSeal(c, accepted), Grown(c, after), events[1..];
      FirstStep(step, c, events, stream, accepted, after, more);
      PlacesFirst(step, c, events, accepted, after, more);
      MovedGrows(c, accepted, after, more, Short(c, events[0]), stream);
      if SealsAfterShort(step, after, rest) {
        SealsAfterAll(step, after, rest);
      }
      if n == 0 || here == high {
        RepeatsExactly(step, after, rest, stream, more, high + n);
      }
      RepeatsByStep(here, NextToSeal(after, more), Short(c, events[0]), n, Places(step, after, rest, more), high,
                    SealsMore(step, after, rest), SealsAfterShort(step, after, rest));
    }
  }

  lemma RunRepeatsExactly(step: Stepper, c: Connection, events: seq<Event>, stream: seq<byte>)
    requires KeepsMoving(step, stream) && AllOfStream(step, c, events, stream, 0)
    requires NextToSeal(c, 0) == 0 && AppData(c.log) == []
    ensures var ps := Places(step, c, events, 0);
            && Within(ps, stream) && AppData(Run(step, c, events, 0).0.log) == Pick(stream, ps)
            && (Repeats(ps) <==> SealsAfterShort(step, c, events))
  {
    var ps := Places(step, c, events, 0);
    SealedByPlaces(step, c, events, stream, 0);
    assert [] + Pick(stream, ps) == Pick(stream, ps);
    RepeatsExactly(step, c, events, stream, 0, 0);
    NothingBelowZero(ps);
  }

  lemma FreshIsAtTheStart(earlyOpen: bool)
    ensures NextToSeal(Fresh(earlyOpen), 0) == 0 && AppData(Fresh(earlyOpen).log) == []
  {
  }

  /** Over any run of a connection, with sealing and flushes failing in any way: some byte of the stream is sealed twice
      exactly if a retry comes with less data than was already written and anything is sealed after that. */
  lemma SealsTwiceExactly(s: Session, earlyOpen: bool, events: seq<Event>, stream: seq<byte>)
    requires AllOfStream(Steps(s), Fresh(earlyOpen), events, stream, 0)
    ensures var ps := Places(Steps(s), Fresh(earlyOpen), events, 0);
            && Within(ps, stream)
            && AppData(Run(Steps(s), Fresh(earlyOpen), events, 0).0.log) == Pick(stream, ps)
            && (Repeats(ps) <==> SealsAfterShort(Steps(s), Fresh(earlyOpen), events))
  {
    StepsKeepMoving(s, stream);
    FreshIsAtTheStart(earlyOpen);
    RunRepeatsExactly(Steps(s), Fresh(earlyOpen), events, stream);
  }

  // ---------- A case ----------

  /** Every record can be sealed, and to more than nothing. */
  ghost predicate SealsToSomething(s: Session) {
    forall n: nat, kind, data :: s.seal(n, kind, data).Some? && s.seal(n, kind, data).value != []
  }

  function LogData(log: seq<Entry>, call: Call, tot: nat): seq<Entry>
    requires tot + 512 <= |call.data|
  {
    LogRecord(log, ApplicationData, call.data[tot..tot + 512], false)
  }

  /** Calls with records of 512 bytes and buffers that may move. */
  predicate By512(c: Connection, call: Call, tot: nat) {
    call.modes == Modes(512, false, true) && !call.early && tot + 512 <= |call.data| && !c.shutdown
  }

  lemma RecordGoesOut(s: Session, c: Connection, call: Call, tot: nat, flushes: seq<seq<int>>)
    requires By512(c, call, tot) && c.pending.None? && c.unsent == [] && NextFlush(flushes) == []
    requires SealsToSomething(s)
    ensures var r := WriteRound(s, c, call, tot, flushes);
            if tot + 512 == |call.data|
            then r.Stop? && r.outcome.ret == tot + 512 && r.outcome.c.log == LogData(c.log, call, tot)
            else r == Again(r.c, tot + 512, LaterFlushes(flushes)) && r.c.log == LogData(c.log, call, tot)
                 && r.c.pending.None? && r.c.unsent == [] && !r.c.shutdown
  {
    assert Chunk(s, c, call, tot) == call.data[tot..tot + 512];
    assert s.seal(|c.log|, ApplicationData, call.data[tot..tot + 512]).Some?;
  }

  lemma RecordStays(s: Session, c: Connection, call: Call, tot: nat, flushes: seq<seq<int>>)
    requires By512(c, call, tot) && c.pending.None? && c.unsent == [] && NextFlush(flushes) == [-1]
    requires SealsToSomething(s)
    ensures var r := WriteRound(s, c, call, tot, flushes);
            && r.Stop? && r.outcome.ret == -1 && r.outcome.c.log == LogData(c.log, call, tot)
            && r.outcome.c.pending == Some(Pending(ApplicationData, call.address + tot, 512))
            && r.outcome.c.wnum == tot && !r.outcome.c.shutdown && r.outcome.c.earlyOpen == c.earlyOpen
  {
    var chunk := Chunk(s, c, call, tot);
    assert chunk == call.data[tot..tot + 512] && s.seal(|c.log|, ApplicationData, chunk).value != [];
    var sealed := RecordSealed(c, ApplicationData, call.address + tot, chunk, false,
                               s.seal(|c.log|, ApplicationData, chunk).value);
    assert sealed.unsent != [] && Flush(sealed, [-1]) == (sealed, -1);
  }

  lemma PendingGoesOut(s: Session, c: Connection, call: Call, tot: nat, flushes: seq<seq<int>>)
    requires By512(c, call, tot) && tot + 512 < |call.data| && NextFlush(flushes) == []
    requires c.pending.Some? && c.pending.value.kind.ApplicationData? && c.pending.value.total == 512
    ensures var r := WriteRound(s, c, call, tot, flushes);
            && r == Again(r.c, tot + 512, LaterFlushes(flushes))
            && r.c.log == c.log && r.c.pending.None? && r.c.unsent == [] && !r.c.shutdown
  {
    assert |Chunk(s, c, call, tot)| == 512;
  }

  lemma TwoRecordsAreAll(call: Call, log: seq<Entry>)
    requires log == [] && |call.data| == 1024
    ensures AppData(LogData(LogData(log, call, 0), call, 512)) == call.data
  {
    AppDataOneMore(log, ApplicationData, call.data[0..512], false);
    AppDataOneMore(LogData(log, call, 0), ApplicationData, call.data[512..1024], false);
    assert call.data[0..512] + call.data[512..1024] == call.data;
  }

  lemma FirstCall(s: Session, c: Connection, m: Modes, address: int, data: seq<byte>, flushes: seq<seq<int>>)
    requires c.wnum == 0 && !c.shutdown
    ensures WriteAppData(s, c, m, address, data, flushes) ==
            WriteFrom(s, c, Call(m, address, data, c.earlyOpen), 0, flushes)
  {
    assert c.(wnum := 0) == c;
  }

  /** A first record goes out and the second one is pending. */
  lemma TwoRecordsStop(s: Session, data: seq<byte>, address: int)
    requires |data| == 1024 && SealsToSomething(s)
    ensures var o := WriteAppData(s, Fresh(false), Modes(512, false, true), address, data, [[], [-1]]);
            && o.ret == -1 && o.c.wnum == 512 && !o.c.shutdown && !o.c.earlyOpen && AppData(o.c.log) == data
            && o.c.pending == Some(Pending(ApplicationData, address + 512, 512))
  {
    var call, c, flushes := Call(Modes(512, false, true), address, data, false), Fresh(false), [[], [-1]];
    FirstCall(s, c, call.modes, address, data, flushes);
    RecordGoesOut(s, c, call, 0, flushes);
    var r := WriteRound(s, c, call, 0, flushes);
    LoopGoesOn(s, c, call, 0, flushes, r);
    assert LaterFlushes(flushes) == [[-1]];
    RecordStays(s, r.c, call, 512, [[-1]]);
    LoopGoesOn(s, r.c, call, 512, [[-1]], WriteRound(s, r.c, call, 512, [[-1]]));
    TwoRecordsAreAll(call, c.log);
  }

  /** A call from the start of the data takes the pending record for its first. */
  lemma PendingTakenForTheFirst(s: Session, c: Connection, data: seq<byte>, address: int)
    requires |data| == 1024 && c.wnum == 0 && !c.shutdown && !c.earlyOpen && SealsToSomething(s)
    requires c.pending.Some? && c.pending.value.kind.ApplicationData? && c.pending.value.total == 512
    ensures var o := WriteAppData(s, c, Modes(512, false, true), address, data, [[], []]);
            o.ret == 1024 && AppData(o.c.log) == AppData(c.log) + data[512..]
  {
    var call, flushes := Call(Modes(512, false, true), address, data, false), [[], []];
    FirstCall(s, c, call.modes, address, data, flushes);
    PendingGoesOut(s, c, call, 0, flushes);
    var r := WriteRound(s, c, call, 0, flushes);
    LoopGoesOn(s, c, call, 0, flushes, r);
    assert LaterFlushes(flushes) == [[]];
    RecordGoesOut(s, r.c, call, 512, [[]]);
    LoopGoesOn(s, r.c, call, 512, [[]], WriteRound(s, r.c, call, 512, [[]]));
    AppDataOneMore(c.log, ApplicationData, data[512..1024], false);
    assert data[512..1024] == data[512..];
  }

  /** In between, a call with too little data makes the connection forget the first record; if buffers may move, the
      same data again then seals the second record twice. */
  lemma ShortRetrySealsTwice(s: Session, data: seq<byte>, address: int)
    requires |data| == 1024 && SealsToSomething(s)
    ensures var m := Modes(512, false, true);
            var first := WriteAppData(s, Fresh(false), m, address, data, [[], [-1]]);
            var short := WriteAppData(s, first.c, m, address, [], []);
            var again := WriteAppData(s, short.c, m, address, data, [[], []]);
            && first.ret == -1 && short.ret == -1 && again.ret == 1024
            && AppData(again.c.log) == data + data[512..]
  {
    TwoRecordsStop(s, data, address);
    var first := WriteAppData(s, Fresh(false), Modes(512, false, true), address, data, [[], [-1]]).c;
    PendingTakenForTheFirst(s, first.(wnum := 0), data, address);
  }
}

/** Payload reassembly (src/payload.rs), and its composition with the decoder's callbacks. */
module Payloads {
  import opened Leb128
  import opened Wire
  import opened Decoder
  import opened Discipline

  datatype Acc = Acc(buf: seq<byte>, complete: bool)

  /** One chunk: the accumulator it leaves and the payload it completes, if it does. */
  function Take(a: Acc, total: nat, offset: nat, chunk: seq<byte>): (Acc, Option<seq<byte>>) {
    if offset == 0 && |chunk| >= total then (Acc([], true), Some(chunk[..total]))
    else if offset != 0 && a.complete then (a, None)
    else
      var buf := (if offset == 0 then [] else a.buf) + chunk;
      if |buf| < total then (Acc(buf, false), None) else (Acc(buf, true), Some(buf[..total]))
  }

  class PayloadAcc {
    var buf: seq<byte>
    var complete: bool

    ghost function View(): Acc
      reads this
    {
      Acc(buf, complete)
    }

    constructor ()
      ensures View() == Acc([], false)
    {
      buf, complete := [], false;
    }

    method Feed(total: nat, offset: nat, chunk: seq<byte>) returns (r: Option<seq<byte>>)
      modifies this
      ensures (View(), r) == Take(old(View()), total, offset, chunk)
      ensures r.Some? ==> |r.value| == total && complete
      ensures offset == 0 && |chunk| >= total ==> r == Some(chunk[..total]) && buf == []
      ensures offset == 0 && |chunk| < total ==> r == None && buf == chunk && !complete
      ensures offset != 0 && old(complete) ==> r == None && buf == old(buf) && complete
      ensures offset != 0 && !old(complete) ==>
                buf == old(buf) + chunk && r == (if |buf| < total then None else Some(buf[..total]))
                  && complete == r.Some?
    {
      if offset == 0 {
        buf := [];
        complete := false;
        if |chunk| >= total {
          complete := true;
          return Some(chunk[..total]);
        }
      } else if complete {
        return None;
      }
      buf := buf + chunk;
      if |buf| < total {
        return None;
      }
      complete := true;
      return Some(buf[..total]);
    }

    method Reset()
      modifies this
      ensures View() == Acc([], false)
    {
      buf := [];
      complete := false;
    }

    method Buffered() returns (n: nat)
      ensures n == |View().buf|
    {
      n := |buf|;
    }
  }

  // ---- what the payloads of a log are -----------------------------------------------------------

  /** The watcher, with the bytes seen of the payload under way and the payloads seen whole. */
  datatype Reel = Reel(w: Watch, part: seq<byte>, done: seq<seq<byte>>)

  /** A payload is all the bytes between its announcement and the byte that makes it whole. */
  function Wind(r: Reel, e: Event): Reel {
    var w := See(r.w, e);
    if !e.Chunk? then Reel(w, [], r.done)
    else if w.mode.InPayload? then Reel(w, r.part + e.bytes, r.done)
    else Reel(w, [], r.done + [r.part + e.bytes])
  }

  function WindAll(r: Reel, log: seq<Event>): Reel
    decreases |log|
  {
    if log == [] then r else WindAll(Wind(r, log[0]), log[1..])
  }

  lemma {:induction false} WindAppend(r: Reel, a: seq<Event>, b: seq<Event>)
    ensures WindAll(r, a + b) == WindAll(WindAll(r, a), b)
    decreases |a|
  {
    hide Wind;
    if a == [] {
      assert a + b == b;
    } else {
      assert (a + b)[1..] == a[1..] + b;
      WindAppend(Wind(r, a[0]), a[1..], b);
    }
  }

  lemma WindOne(r: Reel, e: Event)
    ensures WindAll(r, [e]) == Wind(r, e)
  {
    hide Wind;
    assert [e][1..] == [];
  }

  lemma {:induction false} WindWatches(r: Reel, log: seq<Event>)
    ensures WindAll(r, log).w == WatchAll(r.w, log)
    decreases |log|
  {
    hide See;
    if log != [] { WindWatches(Wind(r, log[0]), log[1..]); }
  }

  lemma SplitWound(r: Reel, id: Id, blob: bool, total: nat, offset: nat, bytes: seq<byte>)
    requires |bytes| >= 2
    ensures var one := Wind(r, Chunk(id, blob, total, offset, [bytes[0]]));
            var two := Wind(one, Chunk(id, blob, total, offset + 1, bytes[1..]));
            !two.w.mode.Broken? ==> Wind(r, Chunk(id, blob, total, offset, bytes)) == two
  {
    var first, rest := Chunk(id, blob, total, offset, [bytes[0]]), Chunk(id, blob, total, offset + 1, bytes[1..]);
    if !See(See(r.w, first), rest).mode.Broken? {
      SplitSeen(r.w, id, blob, total, offset, bytes);
      assert See(r.w, first).mode.InPayload?;
      assert r.part + [bytes[0]] + bytes[1..] == r.part + bytes;
    }
  }

  lemma {:induction false} ChunkWound(r: Reel, id: Id, blob: bool, total: nat, offset: nat, bytes: seq<byte>)
    requires bytes != []
    ensures var e := Chunk(id, blob, total, offset, bytes);
            !WindAll(r, Explode(e)).w.mode.Broken? ==> Wind(r, e) == WindAll(r, Explode(e))
    decreases |bytes|
  {
    hide WindAll, Explode, Wind;
    var first := Chunk(id, blob, total, offset, [bytes[0]]);
    ExplodeSplit(id, blob, total, offset, bytes);
    WindOne(r, first);
    if |bytes| > 1 {
      var rest := Chunk(id, blob, total, offset + 1, bytes[1..]);
      WindAppend(r, [first], Explode(rest));
      ChunkWound(Wind(r, first), id, blob, total, offset + 1, bytes[1..]);
      SplitWound(r, id, blob, total, offset, bytes);
    }
  }

  /** The payloads of a log do not depend on how its payloads were cut. */
  lemma {:induction false} FlattenWound(r: Reel, log: seq<Event>)
    requires !WatchAll(r.w, Flatten(log)).mode.Broken?
    ensures WindAll(r, log) == WindAll(r, Flatten(log))
    decreases |log|
  {
    hide Wind, Explode, See;
    if log != [] {
      var init, last := log[..|log| - 1], log[|log| - 1];
      WatchAppend(r.w, Flatten(init), Explode(last));
      var w1 := WatchAll(r.w, Flatten(init));
      if w1.mode.Broken? { BrokenStays(w1, Explode(last)); }
      FlattenWound(r, init);
      WindAppend(r, Flatten(init), Explode(last));
      WindAppend(r, init, [last]);
      var r1 := WindAll(r, init);
      WindWatches(r, Flatten(init));
      WindOne(r1, last);
      WindWatches(r1, Explode(last));
      LastWound(r1, last);
      assert log == init + [last];
    }
  }

  lemma LastWound(r: Reel, e: Event)
    requires !WindAll(r, Explode(e)).w.mode.Broken?
    ensures Wind(r, e) == WindAll(r, Explode(e))
  {
    hide Wind;
    if e.Chunk? && e.bytes != [] {
      ChunkWound(r, e.id, e.blob, e.total, e.offset, e.bytes);
    } else {
      WindOne(r, e);
    }
  }

  // ---- the accumulator returns exactly those ------------------------------------------------------

  datatype Tank = Tank(acc: Acc, got: seq<seq<byte>>)

  /** An accumulator driven by every `string` and `blob` callback. */
  function Pour(t: Tank, e: Event): Tank {
    if !e.Chunk? then t
    else
      var (acc, r) := Take(t.acc, e.total, e.offset, e.bytes);
      Tank(acc, if r.Some? then t.got + [r.value] else t.got)
  }

  function PourAll(t: Tank, log: seq<Event>): Tank
    decreases |log|
  {
    if log == [] then t else PourAll(Pour(t, log[0]), log[1..])
  }

  predicate InStep(r: Reel, t: Tank, base: seq<seq<byte>>) {
    && t.got == base + r.done
    && (r.w.mode.InPayload? ==>
        && |r.part| == r.w.mode.next
        && (r.w.mode.next > 0 ==> r.w.mode.next < r.w.mode.total && t.acc == Acc(r.part, false)))
  }

  lemma OneInStep(r: Reel, t: Tank, e: Event, base: seq<seq<byte>>)
    requires InStep(r, t, base) && !See(r.w, e).mode.Broken?
    ensures InStep(Wind(r, e), Pour(t, e), base)
  {
    if e.Chunk? {
      var w := See(r.w, e);
      assert r.w.mode.InPayload?;
      assert r.part + e.bytes == if e.offset == 0 then [] + e.bytes else t.acc.buf + e.bytes;
      var buf := r.part + e.bytes;
      if |buf| == e.total {
        assert buf[..e.total] == buf && (e.offset == 0 ==> e.bytes == buf);
        assert base + (r.done + [buf]) == base + r.done + [buf];
      }
    }
  }

  /** From any state of the accumulator, abandoned payloads included, the payloads of a disciplined
      log come back once each, whole and in order. */
  lemma {:induction false} Reassembled(r: Reel, t: Tank, log: seq<Event>, base: seq<seq<byte>>)
    requires InStep(r, t, base) && !WatchAll(r.w, log).mode.Broken?
    ensures InStep(WindAll(r, log), PourAll(t, log), base)
    decreases |log|
  {
    hide See, Wind, Pour, InStep;
    if log != [] {
      var w := See(r.w, log[0]);
      if w.mode.Broken? { BrokenStays(w, log[1..]); }
      OneInStep(r, t, log[0], base);
      WindOne(r, log[0]);
      WindWatches(r, [log[0]]);
      WatchOne(r.w, log[0]);
      Reassembled(Wind(r, log[0]), Pour(t, log[0]), log[1..], base);
    }
  }

  /** The payloads a byte stream carries, in whatever chunks it was fed. */
  function PayloadsIn(s: seq<byte>): seq<seq<byte>> {
    WindAll(Reel(CALM, [], []), Run(START, s).log).done
  }

  /** One accumulator behind one decoder: what it returns for the callbacks `log` of a decode of `s`,
      whatever it held before. */
  lemma EachPayloadOnce(s: seq<byte>, log: seq<Event>, before: Acc)
    requires Flatten(log) == Run(START, s).log
    ensures PourAll(Tank(before, []), log).got == PayloadsIn(s)
  {
    hide Run, See, Wind, Pour;
    Disciplined(s);
    RawDisciplined(CALM, log);
    var r, t := Reel(CALM, [], []), Tank(before, []);
    FlattenWound(r, log);
    Reassembled(r, t, log, []);
    assert [] + WindAll(r, log).done == WindAll(r, log).done;
  }

  lemma {:induction false} PourMore(t: Tank, log: seq<Event>, i: nat)
    requires i < |log|
    ensures PourAll(t, log[..i + 1]) == Pour(PourAll(t, log[..i]), log[i])
    decreases i
  {
    hide Pour;
    assert log[..i + 1][1..] == log[1..][..i];
    if i > 0 {
      assert log[..i][1..] == log[1..][..i - 1];
      PourMore(Pour(t, log[0]), log[1..], i - 1);
    } else {
      assert log[..1][1..] == [];
    }
  }

  // ---- buffered() --------------------------------------------------------------------------------

  /** After a completion `buffered` is zero exactly when the payload came whole in its first chunk:
      a payload completed from pieces stays in the buffer until the next one starts. */
  lemma BufferedAfter(a: Acc, total: nat, offset: nat, chunk: seq<byte>)
    requires offset > 0 ==> a.buf != []
    requires Take(a, total, offset, chunk).1.Some?
    ensures Take(a, total, offset, chunk).0.buf == [] <==> offset == 0 && |chunk| >= total
  {
    assert offset > 0 ==> |a.buf + chunk| > 0;
  }

  /** So the promise that `buffered` is zero between messages fails, for one, on a four-byte payload in
      two chunks. */
  lemma BufferedBetweenMessages()
    ensures var first := Take(Acc([], false), 4, 0, [0x73, 0x6F]);
            var last := Take(first.0, 4, 2, [0x66, 0x61]);
            last.1 == Some([0x73, 0x6F, 0x66, 0x61]) && |last.0.buf| == 4
  {
    var so: seq<byte>, fa: seq<byte> := [0x73, 0x6F], [0x66, 0x61];
    var none: seq<byte> := [];
    assert none + so == so && so + fa == [0x73, 0x6F, 0x66, 0x61];
    assert Take(Acc([], false), 4, 0, so) == (Acc(so, false), None);
    assert (so + fa)[..4] == so + fa;
  }

  /** Where the last chunk of a log starts in its payload: at zero if it is all of it. */
  function LastOffset(log: seq<Event>): Option<nat>
    decreases |log|
  {
    if log == [] then None
    else if LastOffset(log[1..]).Some? then LastOffset(log[1..])
    else if log[0].Chunk? then Some(log[0].offset) else None
  }

  /** Nothing is held: the last payload came in one chunk, or none came and nothing was held before. */
  predicate Settled(last: Option<nat>, before: seq<byte>) {
    match last case None => before == [] case Some(offset) => offset == 0
  }

  lemma {:induction false} PayloadStuck(w: Watch, log: seq<Event>)
    requires w.mode.InPayload? && LastOffset(log).None? && !WatchAll(w, log).mode.Broken?
    ensures WatchAll(w, log).mode.InPayload?
    decreases |log|
  {
    if log != [] { BrokenStays(See(w, log[0]), log[1..]); }
  }

  lemma CompletingChunk(r: Reel, t: Tank, e: Event, base: seq<seq<byte>>)
    requires InStep(r, t, base) && e.Chunk? && See(r.w, e).mode.Idle?
    ensures Pour(t, e).acc.buf == [] <==> e.offset == 0
  {
    assert r.w.mode.InPayload?;
    assert e.offset > 0 ==> |t.acc.buf + e.bytes| > 0;
  }

  lemma ChunkLeaves(w: Watch, e: Event)
    requires e.Chunk? && !See(w, e).mode.Broken?
    ensures See(w, e).mode.InPayload? || See(w, e).mode.Idle?
  {}

  lemma {:induction false} HeldAfter(r: Reel, t: Tank, log: seq<Event>, base: seq<seq<byte>>)
    requires InStep(r, t, base) && !WatchAll(r.w, log).mode.Broken? && !WatchAll(r.w, log).mode.InPayload?
    ensures PourAll(t, log).acc.buf == [] <==> Settled(LastOffset(log), t.acc.buf)
    decreases |log|
  {
    hide See, Wind, InStep, Take;
    if log != [] {
      var e, w := log[0], See(r.w, log[0]);
      if w.mode.Broken? { BrokenStays(w, log[1..]); }
      OneInStep(r, t, e, base);
      WindOne(r, e);
      WindWatches(r, [e]);
      WatchOne(r.w, e);
      HeldAfter(Wind(r, e), Pour(t, e), log[1..], base);
      if e.Chunk? && LastOffset(log[1..]).None? {
        ChunkLeaves(r.w, e);
        if w.mode.InPayload? { PayloadStuck(w, log[1..]); }
        CompletingChunk(r, t, e, base);
      }
    }
  }

  /** What is held after a complete message, in whatever chunks it was fed. */
  lemma HeldAfterMessage(s: seq<byte>, log: seq<Event>, before: Acc)
    requires Flatten(log) == Run(START, s).log && Run(START, s).st == START
    ensures PourAll(Tank(before, []), log).acc.buf == [] <==> Settled(LastOffset(log), before.buf)
  {
    hide Run, See, Wind, Pour;
    Disciplined(s);
    RawDisciplined(CALM, log);
    HeldAfter(Reel(CALM, [], []), Tank(before, []), log, []);
  }

  /** Drives `acc` over a decode's callbacks, and asks how much it still holds. After a complete message
      that is nothing if and only if the last payload came in one chunk, or none came and nothing was
      held before. */
  method Collect(acc: PayloadAcc, log: seq<Event>, ghost s: seq<byte>) returns (got: seq<seq<byte>>, held: nat)
    requires Flatten(log) == Run(START, s).log
    modifies acc
    ensures got == PayloadsIn(s)
    ensures Run(START, s).st == START ==> (held == 0 <==> Settled(LastOffset(log), old(acc.buf)))
  {
    hide Run, PayloadsIn;
    ghost var t := Tank(acc.View(), []);
    got := [];
    EachPayloadOnce(s, log, acc.View());
    if Run(START, s).st == START { HeldAfterMessage(s, log, acc.View()); }
    for i := 0 to |log|
      invariant Tank(acc.View(), got) == PourAll(t, log[..i])
    {
      PourMore(t, log, i);
      if log[i].Chunk? {
        var r := acc.Feed(log[i].total, log[i].offset, log[i].bytes);
        if r.Some? { got := got + [r.value]; }
      }
    }
    assert log[..|log|] == log;
    held := acc.Buffered();
  }
}

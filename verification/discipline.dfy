/** The announcement discipline: a watcher over callback logs, and why no decoder log upsets it. */
module Discipline {
  import opened Leb128
  import opened Wire
  import opened Decoder

  /** What may come next: anything, the rest of one payload, or the rest of one array. */
  datatype Mode =
    | Idle
    | InPayload(id: Id, blob: bool, total: nat, next: nat)
    | InArray(id: Id, kind: ArrayKind, left: pos)
    | Broken

  datatype Watch = Watch(mode: Mode, depth: nat)

  const CALM: Watch := Watch(Idle, 0)

  function ArrayMode(id: Id, kind: ArrayKind, left: nat): Mode {
    if left == 0 then Idle else InArray(id, kind, left)
  }

  function ElementKind(e: Event): ArrayKind
    requires e.Unsigned? || e.Signed? || e.Float?
  {
    match e
    case Unsigned(_, _) => Unsigneds
    case Signed(_, _) => Signeds
    case Float(_, fp64, _) => if fp64 then Fp64s else Fp32s
  }

  /** One callback. A fixlen field or an array is announced once, and nothing but its own chunks or
      elements may follow until it is whole; chunks are contiguous and only an empty payload has an
      empty one; sequences nest, at most `MAX_DEPTH` deep. */
  function See(w: Watch, e: Event): Watch {
    var Watch(mode, depth) := w;
    match mode
    case Idle =>
      (match e
       case FixlenBegin(id, Fp32, total) =>
         if total == 4 then Watch(InArray(id, Fp32s, 1), depth) else Watch(Broken, depth)
       case FixlenBegin(id, Fp64, total) =>
         if total == 8 then Watch(InArray(id, Fp64s, 1), depth) else Watch(Broken, depth)
       case FixlenBegin(id, subtype, total) => Watch(InPayload(id, subtype == Blob, total, 0), depth)
       case ArrayBegin(id, kind, count) => Watch(ArrayMode(id, kind, count), depth)
       case Unsigned(_, _) => w
       case Signed(_, _) => w
       case SequenceBegin(_) => if depth < MAX_DEPTH then Watch(Idle, depth + 1) else Watch(Broken, depth)
       case SequenceEnd => if depth > 0 then Watch(Idle, depth - 1) else Watch(Broken, depth)
       case _ => Watch(Broken, depth))
    case InPayload(id, blob, total, next) =>
      if e.Chunk? && e.id == id && e.blob == blob && e.total == total && e.offset == next
         && next + |e.bytes| <= total && (e.bytes == [] ==> total == 0) then
        Watch(if next + |e.bytes| == total then Idle else InPayload(id, blob, total, next + |e.bytes|), depth)
      else Watch(Broken, depth)
    case InArray(id, kind, left) =>
      if (e.Unsigned? || e.Signed? || e.Float?) && e.id == id && ElementKind(e) == kind
         && (e.Float? ==> |e.bits| == Width(e.fp64)) then
        Watch(ArrayMode(id, kind, left - 1), depth)
      else Watch(Broken, depth)
    case Broken => w
  }

  function WatchAll(w: Watch, log: seq<Event>): Watch
    decreases |log|
  {
    if log == [] then w else WatchAll(See(w, log[0]), log[1..])
  }

  lemma {:induction false} WatchAppend(w: Watch, a: seq<Event>, b: seq<Event>)
    ensures WatchAll(w, a + b) == WatchAll(WatchAll(w, a), b)
    decreases |a|
  {
    hide See;
    if a == [] {
      assert a + b == b;
    } else {
      assert (a + b)[1..] == a[1..] + b;
      WatchAppend(See(w, a[0]), a[1..], b);
    }
  }

  lemma {:induction false} BrokenStays(w: Watch, log: seq<Event>)
    requires w.mode.Broken?
    ensures WatchAll(w, log) == w
    decreases |log|
  {
    if log != [] { BrokenStays(w, log[1..]); }
  }

  /** States the automaton reaches from the start. */
  predicate Sound(st: State) {
    match st
    case Rejected => true
    case Live(phase, depth) =>
      && depth <= MAX_DEPTH
      && (phase.Payload? ==> phase.at < phase.total)
      && (phase.Floats? ==> |phase.held| < Width(phase.fp64))
  }

  /** What the watcher has to be expecting in a state. */
  function Expecting(st: State): Watch
    requires st.Live?
  {
    match st.phase
    case Field(_) => Watch(Idle, st.depth)
    case Payload(id, blob, total, at) => Watch(InPayload(id, blob, total, at), st.depth)
    case Ints(id, signed, left, _) => Watch(InArray(id, IntKind(signed), left), st.depth)
    case Floats(id, fp64, left, _) => Watch(InArray(id, FloatKind(fp64), left), st.depth)
  }

  lemma WatchOne(w: Watch, e: Event)
    ensures WatchAll(w, [e]) == See(w, e)
  {
    hide See;
    assert [e][1..] == [];
  }

  lemma WatchTwo(w: Watch, e: Event, f: Event)
    ensures WatchAll(w, [e, f]) == See(See(w, e), f)
  {
    hide See;
    assert [e, f][1..] == [f];
    WatchOne(See(w, e), f);
  }

  predicate HeadSound(item: Item) {
    item.Fix? ==> (item.subtype == Fp32 ==> item.total == 4) && (item.subtype == Fp64 ==> item.total == 8)
  }

  lemma HeadsSound(s: seq<byte>)
    ensures ReadHead(s).Done? ==> HeadSound(ReadHead(s).item)
  {
    hide Leb, IdTooBig, ToId, NumberOf, TagOf, LenTooBig, ToLen;
  }

  lemma AnnounceWatched(item: Item, d: nat)
    requires d <= MAX_DEPTH && HeadSound(item)
    ensures var t := Announce(item, d);
            Sound(t.st) && if t.st.Rejected? then t.log == [] else WatchAll(Watch(Idle, d), t.log) == Expecting(t.st)
  {
    match item
    case Fix(id, subtype, total) =>
      var e := FixlenBegin(id, subtype, total);
      if total == 0 {
        var c := Chunk(id, subtype == Blob, 0, 0, []);
        assert [e] + [c] == [e, c];
        WatchTwo(Watch(Idle, d), e, c);
      } else {
        assert [e] + [] == [e];
        WatchOne(Watch(Idle, d), e);
      }
    case _ =>
      if Announce(item, d).st.Live? { WatchOne(Watch(Idle, d), Announce(item, d).log[0]); }
  }

  lemma StepWatched(st: State, b: byte)
    requires Sound(st)
    ensures var t := Step(st, b);
            && Sound(t.st)
            && if t.st.Rejected? then t.log == [] else st.Live? && WatchAll(Expecting(st), t.log) == Expecting(t.st)
  {
    hide ReadHead, Leb, Announce;
    match st
    case Rejected =>
    case Live(Field(held), d) =>
      HeadsSound(held + [b]);
      if ReadHead(held + [b]).Done? { AnnounceWatched(ReadHead(held + [b]).item, d); }
    case Live(Payload(id, blob, total, at), d) =>
      WatchOne(Expecting(st), Chunk(id, blob, total, at, [b]));
    case Live(Ints(id, signed, _, held), d) =>
      if Leb(held + [b]).Value? { WatchOne(Expecting(st), IntEvent(id, signed, Leb(held + [b]).v)); }
    case Live(Floats(id, fp64, _, held), d) =>
      if |held| + 1 >= Width(fp64) { WatchOne(Expecting(st), Float(id, fp64, held + [b])); }
  }

  lemma {:induction false} RunWatched(st: State, s: seq<byte>)
    requires Sound(st) && st.Live?
    ensures var t := Run(st, s);
            Sound(t.st) && !WatchAll(Expecting(st), t.log).mode.Broken?
            && (t.st.Live? ==> WatchAll(Expecting(st), t.log) == Expecting(t.st))
    decreases |s|
  {
    hide Step, See;
    if s != [] {
      StepWatched(st, s[0]);
      var first := Step(st, s[0]);
      if first.st.Rejected? {
        RunRejected(s[1..]);
        assert Run(st, s).log == [];
      } else {
        RunWatched(first.st, s[1..]);
        WatchAppend(Expecting(st), first.log, Run(first.st, s[1..]).log);
      }
    }
  }

  /** Every log of every input keeps the discipline, and a complete message leaves nothing open. */
  lemma Disciplined(s: seq<byte>)
    ensures var t := Run(START, s);
            !WatchAll(CALM, t.log).mode.Broken? && (t.st == START ==> WatchAll(CALM, t.log) == CALM)
  {
    RunWatched(START, s);
  }

  // ---- back to the callbacks as they were made ---------------------------------------------------

  lemma SplitSeen(w: Watch, id: Id, blob: bool, total: nat, offset: nat, bytes: seq<byte>)
    requires |bytes| >= 2
    ensures var one := See(w, Chunk(id, blob, total, offset, [bytes[0]]));
            var two := See(one, Chunk(id, blob, total, offset + 1, bytes[1..]));
            !two.mode.Broken? ==> See(w, Chunk(id, blob, total, offset, bytes)) == two
  {}

  lemma ExplodeSplit(id: Id, blob: bool, total: nat, offset: nat, bytes: seq<byte>)
    requires |bytes| >= 1
    ensures var e, first := Chunk(id, blob, total, offset, bytes), Chunk(id, blob, total, offset, [bytes[0]]);
            if |bytes| == 1 then e == first && Explode(e) == [first]
            else Explode(e) == [first] + Explode(Chunk(id, blob, total, offset + 1, bytes[1..]))
  {
    if |bytes| == 1 { assert bytes == [bytes[0]]; }
  }

  /** A chunk seen byte by byte is the chunk seen whole. */
  lemma {:induction false} ChunkWatched(w: Watch, id: Id, blob: bool, total: nat, offset: nat, bytes: seq<byte>)
    requires bytes != []
    ensures var e := Chunk(id, blob, total, offset, bytes);
            !WatchAll(w, Explode(e)).mode.Broken? ==> See(w, e) == WatchAll(w, Explode(e))
    decreases |bytes|
  {
    hide WatchAll, Explode, See;
    var first := Chunk(id, blob, total, offset, [bytes[0]]);
    ExplodeSplit(id, blob, total, offset, bytes);
    WatchOne(w, first);
    if |bytes| > 1 {
      var rest := Chunk(id, blob, total, offset + 1, bytes[1..]);
      WatchAppend(w, [first], Explode(rest));
      ChunkWatched(See(w, first), id, blob, total, offset + 1, bytes[1..]);
      SplitSeen(w, id, blob, total, offset, bytes);
    }
  }

  lemma ExplodeWatched(w: Watch, e: Event)
    requires !WatchAll(w, Explode(e)).mode.Broken?
    ensures See(w, e) == WatchAll(w, Explode(e))
  {
    if e.Chunk? && e.bytes != [] {
      ChunkWatched(w, e.id, e.blob, e.total, e.offset, e.bytes);
    } else {
      WatchOne(w, e);
    }
  }

  /** The discipline holds of the callbacks as delivered, whatever the chunks. */
  lemma {:induction false} RawDisciplined(w: Watch, log: seq<Event>)
    requires !WatchAll(w, Flatten(log)).mode.Broken?
    ensures WatchAll(w, log) == WatchAll(w, Flatten(log))
    decreases |log|
  {
    hide See, Explode;
    if log != [] {
      var init, last := log[..|log| - 1], log[|log| - 1];
      WatchAppend(w, Flatten(init), Explode(last));
      var w1 := WatchAll(w, Flatten(init));
      if w1.mode.Broken? { BrokenStays(w1, Explode(last)); }
      RawDisciplined(w, init);
      ExplodeWatched(w1, last);
      WatchAppend(w, init, [last]);
      WatchOne(w1, last);
      assert log == init + [last];
    }
  }
}

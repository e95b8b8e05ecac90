/** From the encoder's calls to the decoder's callbacks. */
module EndToEnd {
  import opened Leb128
  import opened Wire
  import opened Decoder
  import opened Discipline
  import opened Encoder
  import opened IStream
  import opened Message
  import opened OStream
  import opened Payloads
  import opened RoundTrip
  import opened Streams
  import Balance

  /** The strings and blobs of a tree, in order. */
  function FieldPayloads(f: Field): seq<seq<byte>> {
    if f.FixField? && (f.subtype == Str || f.subtype == Blob) then [f.data] else []
  }

  function PayloadsOf(t: Forest): seq<seq<byte>> {
    match t
    case Nil => []
    case Cons(Leaf(f), tail) => FieldPayloads(f) + PayloadsOf(tail)
    case Cons(Frame(_, _, body), tail) => PayloadsOf(body) + PayloadsOf(tail)
  }

  function At(d: nat, done: seq<seq<byte>>): Reel { Reel(Watch(Idle, d), [], done) }

  lemma {:induction false} NoChunks(r: Reel, log: seq<Event>)
    requires r.part == [] && forall e | e in log :: !e.Chunk?
    ensures WindAll(r, log).part == [] && WindAll(r, log).done == r.done
    decreases |log|
  {
    hide See;
    if log != [] { NoChunks(Wind(r, log[0]), log[1..]); }
  }

  lemma FieldWound(f: Field, d: nat, done: seq<seq<byte>>)
    requires FieldOk(f) && d <= MAX_DEPTH
    ensures WindAll(At(d, done), FieldEvents(f)) == At(d, done + FieldPayloads(f))
  {
    FieldWatched(f, d);
    WindWatches(At(d, done), FieldEvents(f));
    if FieldPayloads(f) == [] {
      NoChunks(At(d, done), FieldEvents(f));
      assert done + [] == done;
    } else {
      var begin, c := FixlenBegin(f.id, f.subtype, |f.data|), Chunk(f.id, f.subtype == Blob, |f.data|, 0, f.data);
      hide Explode, WindAll, FieldOk;
      WindAppend(At(d, done), [begin], Explode(c));
      WindOne(At(d, done), begin);
      LastWound(Wind(At(d, done), begin), c);
      assert [] + f.data == f.data;
    }
  }

  lemma FieldWatched(f: Field, d: nat)
    requires FieldOk(f) && d <= MAX_DEPTH
    ensures WatchAll(Watch(Idle, d), FieldEvents(f)) == Watch(Idle, d)
  {
    hide Run, FieldBytes, FieldEvents, FieldOk, WatchAll;
    FieldRun(f, d);
    RunWatched(Live(Field([]), d), FieldBytes(f));
  }

  lemma {:induction false} TreeWound(t: Forest, d: nat, done: seq<seq<byte>>)
    requires Legal(t, d) && d <= MAX_DEPTH
    ensures WindAll(At(d, done), TreeEvents(t)) == At(d, done + PayloadsOf(t))
    decreases t
  {
    hide FieldEvents, FieldPayloads, FieldOk, WindAll;
    match t
    case Nil =>
      WindNothing(At(d, done));
      assert done + [] == done;
    case Cons(Leaf(f), tail) =>
      FieldWound(f, d, done);
      WindAppend(At(d, done), FieldEvents(f), TreeEvents(tail));
      TreeWound(tail, d, done + FieldPayloads(f));
      assert done + FieldPayloads(f) + PayloadsOf(tail) == done + (FieldPayloads(f) + PayloadsOf(tail));
    case Cons(Frame(id, keep, body), tail) =>
      var b, e := [SequenceBegin(id)], TreeEvents(body);
      WindAppend(At(d, done), b + e + [SequenceEnd], TreeEvents(tail));
      WindAppend(At(d, done), b + e, [SequenceEnd]);
      WindAppend(At(d, done), b, e);
      WindOne(At(d, done), SequenceBegin(id));
      TreeWound(body, d + 1, done);
      WindOne(At(d + 1, done + PayloadsOf(body)), SequenceEnd);
      TreeWound(tail, d, done + PayloadsOf(body));
      assert done + PayloadsOf(body) + PayloadsOf(tail) == done + (PayloadsOf(body) + PayloadsOf(tail));
  }

  lemma WindNothing(r: Reel)
    ensures WindAll(r, []) == r
  {}

  /** However `s` is cut, it decodes as complete to exactly the callbacks of `t`, and its payloads are
      those of `t`. */
  ghost predicate Carries(s: seq<byte>, t: Forest) {
    && PayloadsIn(s) == PayloadsOf(t)
    && forall chunks | Concat(chunks) == s ::
         RunChunks(chunks) == Trace(START, TreeEvents(t))
  }

  /** Every balanced run of successful calls emits the message without the sequences that vanished. */
  lemma EveryRunArrives(ops: seq<Op>) returns (t: Forest)
    requires ApplyAll(FRESH, ops).Some? && ApplyAll(FRESH, ops).value.depth == 0
    ensures Script(t) == ops && ApplyAll(FRESH, ops).value.out == Plain(Prune(t))
    ensures Carries(Plain(Prune(t)), Prune(t))
  {
    hide ApplyAll, Script, Plain, Prune, Run, TreeEvents, WindAll, Legal, PayloadsOf;
    t := Balance.BalancedIsTree(ops);
    PruneLegal(t, 0);
    TreeRun(Prune(t), 0);
    TreeWound(Prune(t), 0, []);
    assert [] + PayloadsOf(Prune(t)) == PayloadsOf(Prune(t));
    forall chunks | Concat(chunks) == Plain(Prune(t))
      ensures RunChunks(chunks) == Trace(START, TreeEvents(Prune(t)))
    {
      ChunkInvariance(chunks);
    }
  }

  /** The same of the real encoder, whatever its buffers and sink and whatever came between the writes. */
  method Transmit(os: OStream, calls: seq<Call>) returns (r: Outcome, ghost t: Forest)
    requires os.Valid() && os.View() == FRESH && forall c | c in calls :: c.Write? ==> Typed(c.op)
    modifies os, os.buffer, os.sink, os.pending, os.pending.ids
    ensures os.Valid()
    ensures r.Pass? && os.depth == 0 ==>
        Script(t) == OpsOf(calls) && os.Emitted() == Plain(Prune(t)) && Carries(os.Emitted(), Prune(t))
  {
    hide ApplyAll, OpsOf, Script, Plain, Prune, Carries;
    var done;
    ghost var e;
    r, done, e := Drive(os, calls);
    t := Nil;
    if r.Pass? && os.depth == 0 {
      t := EveryRunArrives(OpsOf(calls));
    }
  }

  /** A decoder and an accumulator behind it, fed any chunks: the verdict, the callbacks and the payloads
      are functions of the bytes alone, and the callbacks keep the announcement discipline. */
  method Receive(chunks: seq<seq<byte>>, acc: PayloadAcc)
    returns (r: Result<Status>, log: seq<Event>, got: seq<seq<byte>>, held: nat)
    modifies acc
    ensures r == Err(InvalidMsg) <==> Run(START, Concat(chunks)).st == Rejected
    ensures r == Ok(Complete) <==> Run(START, Concat(chunks)).st == START
    ensures r == Ok(Incomplete) <==> Run(START, Concat(chunks)).st.Live? && Run(START, Concat(chunks)).st != START
    ensures Flatten(log) == Run(START, Concat(chunks)).log
    ensures !WatchAll(CALM, log).mode.Broken? && (r == Ok(Complete) ==> WatchAll(CALM, log) == CALM)
    ensures got == PayloadsIn(Concat(chunks))
    ensures r == Ok(Complete) ==> (held == 0 <==> Settled(LastOffset(log), old(acc.buf)))
  {
    hide Run, WatchAll, PayloadsIn, LastOffset, Settled;
    r, log := DecodeChunks(chunks);
    Disciplined(Concat(chunks));
    RawDisciplined(CALM, log);
    got, held := Collect(acc, log, Concat(chunks));
  }

  // ---- a torn header -------------------------------------------------------------------------------

  lemma SixteenOpens()
    ensures OpenBytes(16) == [0x86, 0x01]
  {
    assert Header(16, T_SEQUENCE_START) == 0x86;
    Digits(0x86);
  }

  lemma Digits(v: bv64)
    requires v == 0x86
    ensures Encode(v) == [0x86, 0x01]
  {
    assert Rest(v) == 1 && Leb128.More(v) == 0x86;
  }

  lemma TornDigits(v: bv64)
    requires v == 0x4306
    ensures Encode(v) == [0x86, 0x86, 0x01] && v == Header(2144, T_SEQUENCE_START)
  {
    assert Rest(v) == 0x86 && Leb128.More(v) == 0x86;
    Digits(0x86);
  }

  /** A header torn after its first byte and written again is another, well-formed header: the sequence
      id 16 comes out as 2144, and no error says so. */
  lemma TornHeader()
    ensures ReadHead(OpenBytes(16)[..1] + OpenBytes(16)) == Done(3, Open(2144))
  {
    SixteenOpens();
    TornDigits(0x4306);
    hide Encode, ReadHead, Header;
    MarkerRead(2144, T_SEQUENCE_START, []);
    var torn: seq<byte> := [0x86, 0x86, 0x01];
    assert OpenBytes(16)[..1] + OpenBytes(16) == torn && torn + [] == torn;
  }
}

/** What was encoded is what is decoded: bytes of a tree in, callbacks of the tree out. */
module RoundTrip {
  import opened Leb128
  import opened Wire
  import opened Decoder
  import opened Message
  import Varint

  function IntEvents(id: Id, signed: bool, values: seq<bv64>): seq<Event> {
    seq(|values|, i requires 0 <= i < |values| => if signed then Signed(id, values[i]) else Unsigned(id, values[i]))
  }

  function FloatEvents(id: Id, fp64: bool, elems: seq<seq<byte>>): seq<Event> {
    seq(|elems|, i requires 0 <= i < |elems| => Float(id, fp64, elems[i]))
  }

  /** The callbacks of one field, its payload byte by byte. */
  function FieldEvents(f: Field): seq<Event> {
    match f
    case UnsignedField(id, v) => [Unsigned(id, v)]
    case SignedField(id, v) => [Signed(id, v)]
    case FixField(id, subtype, data) =>
      [FixlenBegin(id, subtype, |data|)]
      + if subtype == Fp32 || subtype == Fp64 then [Float(id, subtype == Fp64, data)]
        else Explode(Chunk(id, subtype == Blob, |data|, 0, data))
    case UnsignedArray(id, values) => [ArrayBegin(id, Unsigneds, |values|)] + IntEvents(id, false, values)
    case SignedArray(id, values) => [ArrayBegin(id, Signeds, |values|)] + IntEvents(id, true, values)
    case FloatArray(id, fp64, elems) => [ArrayBegin(id, FloatKind(fp64), |elems|)] + FloatEvents(id, fp64, elems)
  }

  function TreeEvents(t: Forest): seq<Event> {
    match t
    case Nil => []
    case Cons(Leaf(f), tail) => FieldEvents(f) + TreeEvents(tail)
    case Cons(Frame(id, _, body), tail) => [SequenceBegin(id)] + TreeEvents(body) + [SequenceEnd] + TreeEvents(tail)
  }

  // ---- heads ---------------------------------------------------------------------------------

  predicate IsTag(tag: bv64) { tag <= 7 }

  lemma HeaderRead(id: Id, tag: bv64, rest: seq<byte>)
    requires id <= ID_MAX && IsTag(tag)
    ensures var s := Encode(Header(id, tag)) + rest;
            && Leb(s) == Value(Header(id, tag), |Encode(Header(id, tag))|) && s[|Encode(Header(id, tag))|..] == rest
            && !IdTooBig(NumberOf(Header(id, tag))) && ToId(NumberOf(Header(id, tag))) == id
              && TagOf(Header(id, tag)) == tag
  {
    IdParts(id);
    WordParts(IdBits(id), tag);
    hide Leb, Encode, NumberOf, TagOf, Word, IdTooBig, ToId, IdBits;
    ReadsBack(Header(id, tag), rest);
  }

  /** A head whose header and second word were encoded. */
  lemma SecondRead(id: Id, tag: bv64, w: bv64, rest: seq<byte>)
    requires id <= ID_MAX && IsTag(tag) && tag != T_SEQUENCE_START && tag != T_SEQUENCE_END
    ensures var k := |Encode(Header(id, tag))| + |Encode(w)|;
            var s := Encode(Header(id, tag)) + (Encode(w) + rest);
            k <= |s| && ReadHead(s) == ReadRest(s, k, id, tag, w) && s[k..] == rest
  {
    hide Leb, Encode, NumberOf, TagOf, IdTooBig, ToId, ReadRest, Header;
    HeaderRead(id, tag, Encode(w) + rest);
    ReadsBack(w, rest);
    var s := Encode(Header(id, tag)) + (Encode(w) + rest);
    assert s[|Encode(Header(id, tag))| + |Encode(w)|..] == rest;
  }

  lemma MarkerRead(id: Id, tag: bv64, rest: seq<byte>)
    requires id <= ID_MAX && (tag == T_SEQUENCE_START || tag == T_SEQUENCE_END)
    ensures ReadHead(Encode(Header(id, tag)) + rest)
         == Done(|Encode(Header(id, tag))|, if tag == T_SEQUENCE_START then Open(id) else Close)
  {
    hide Leb, Encode, NumberOf, TagOf, IdTooBig, ToId, Header;
    HeaderRead(id, tag, rest);
  }

  lemma CloseIsHeader()
    ensures CLOSE_BYTES == Encode(Header(0, T_SEQUENCE_END)) && CLOSE_BYTES == [0x07]
  {
    assert Header(0, T_SEQUENCE_END) == 7;
  }

  predicate Splits(st: State, a: seq<byte>, b: seq<byte>, mid: State, end: State, la: seq<Event>, lb: seq<Event>) {
    Run(st, a) == Trace(mid, la) && Run(mid, b) == Trace(end, lb)
  }

  lemma Joins(st: State, a: seq<byte>, b: seq<byte>, mid: State, end: State, la: seq<Event>, lb: seq<Event>)
    requires Splits(st, a, b, mid, end, la, lb)
    ensures Run(st, a + b) == Trace(end, la + lb)
  {
    RunAppend(st, a, b);
  }

  /** A complete head, then whatever its announcement asks for. */
  lemma HeadThen(head: seq<byte>, rest: seq<byte>, item: Item, d: nat, end: State, log: seq<Event>)
    requires ReadHead(head + rest) == Done(|head|, item)
    requires Run(Announce(item, d).st, rest) == Trace(end, log)
    ensures Run(Live(Field([]), d), head + rest) == Trace(end, Announce(item, d).log + log)
  {
    EmptyHead();
    hide ReadHead, Run, Announce;
    assert [] + (head + rest) == head + rest && (head + rest)[..|head|] == head;
    RunHead([], head + rest, d);
    Joins(Live(Field([]), d), head, rest, Announce(item, d).st, end, Announce(item, d).log, log);
  }

  // ---- array elements --------------------------------------------------------------------------

  lemma OneInt(id: Id, signed: bool, v: bv64, more: nat, d: nat)
    ensures Run(Live(IntsOf(id, signed, more + 1), d), Encode(v))
        == Trace(Live(IntsOf(id, signed, more), d), [IntEvent(id, signed, v)])
  {
    hide Leb, Encode, Run, IntEvent;
    EmptyLeb();
    ReadsBack(v, []);
    assert [] + Encode(v) == Encode(v) && Encode(v) + [] == Encode(v) && Encode(v)[..|Encode(v)|] == Encode(v);
    RunInt(id, signed, more + 1, [], Encode(v), d);
  }

  function RawEvents(id: Id, signed: bool, values: seq<bv64>): seq<Event> {
    seq(|values|, i requires 0 <= i < |values| => IntEvent(id, signed, values[i]))
  }

  lemma {:induction false} IntsRun(id: Id, signed: bool, values: seq<bv64>, more: nat, d: nat)
    ensures Run(Live(IntsOf(id, signed, |values| + more), d), Varints(values))
         == Trace(Live(IntsOf(id, signed, more), d), RawEvents(id, signed, values))
    decreases |values|
  {
    hide Run, Encode, IntEvent;
    if values == [] {
      RunEmpty(Live(IntsOf(id, signed, more), d));
    } else {
      var init, last := values[..|values| - 1], values[|values| - 1];
      IntsRun(id, signed, init, more + 1, d);
      OneInt(id, signed, last, more, d);
      Joins(Live(IntsOf(id, signed, |values| + more), d), Varints(init), Encode(last),
        Live(IntsOf(id, signed, more + 1), d),
            Live(IntsOf(id, signed, more), d), RawEvents(id, signed, init), [IntEvent(id, signed, last)]);
      assert RawEvents(id, signed, values) == RawEvents(id, signed, init) + [IntEvent(id, signed, last)];
    }
  }

  lemma OneFloat(id: Id, fp64: bool, e: seq<byte>, more: nat, d: nat)
    requires |e| == Width(fp64)
    ensures Run(Live(FloatsOf(id, fp64, more + 1), d), e)
        == Trace(Live(FloatsOf(id, fp64, more), d), [Float(id, fp64, e)])
  {
    hide Run;
    assert [] + e == e && e[..Width(fp64)] == e;
    RunFloat(id, fp64, more + 1, [], e, d);
  }

  lemma {:induction false} FloatsRun(id: Id, fp64: bool, elems: seq<seq<byte>>, more: nat, d: nat)
    requires forall e | e in elems :: |e| == Width(fp64)
    ensures Run(Live(FloatsOf(id, fp64, |elems| + more), d), Joined(elems))
         == Trace(Live(FloatsOf(id, fp64, more), d), FloatEvents(id, fp64, elems))
    decreases |elems|
  {
    hide Run;
    if elems == [] {
      RunEmpty(Live(FloatsOf(id, fp64, more), d));
    } else {
      var init, last := elems[..|elems| - 1], elems[|elems| - 1];
      FloatsRun(id, fp64, init, more + 1, d);
      OneFloat(id, fp64, last, more, d);
      Joins(Live(FloatsOf(id, fp64, |elems| + more), d), Joined(init), last, Live(FloatsOf(id, fp64, more + 1), d),
            Live(FloatsOf(id, fp64, more), d), FloatEvents(id, fp64, init), [Float(id, fp64, last)]);
      assert FloatEvents(id, fp64, elems) == FloatEvents(id, fp64, init) + [Float(id, fp64, last)];
    }
  }

  lemma ZigzagEvents(id: Id, values: seq<bv64>)
    ensures RawEvents(id, true, Zigzags(values)) == IntEvents(id, true, values)
    ensures RawEvents(id, false, values) == IntEvents(id, false, values)
  {
    forall i | 0 <= i < |values| ensures Varint.ZigzagDecode(Varint.ZigzagEncode(values[i])) == values[i] {
      Varint.ZigzagRoundTrip(values[i]);
    }
    hide Varint.ZigzagDecode, Varint.ZigzagEncode;
  }

  // ---- fields --------------------------------------------------------------------------------

  predicate DecodesTo(s: seq<byte>, d: nat, log: seq<Event>) {
    Run(Live(Field([]), d), s) == Trace(Live(Field([]), d), log)
  }

  lemma ScalarRun(id: Id, signed: bool, v: bv64, d: nat)
    requires id <= ID_MAX
    ensures DecodesTo(FieldBytes(if signed then SignedField(id, v) else UnsignedField(id, v)), d,
                      [if signed then Signed(id, v) else Unsigned(id, v)])
  {
    var w := if signed then Varint.ZigzagEncode(v) else v;
    Varint.ZigzagRoundTrip(v);
    hide Encode, Run, ReadHead, Header, Varint.ZigzagEncode, Varint.ZigzagDecode;
    var tag := if signed then T_SIGNED else T_UNSIGNED;
    SecondRead(id, tag, w, []);
    var head := Encode(Header(id, tag)) + Encode(w);
    assert Encode(Header(id, tag)) + (Encode(w) + []) == head && head + [] == head;
    RunEmpty(Live(Field([]), d));
    HeadThen(head, [], Scalar(id, signed, v), d, Live(Field([]), d), []);
  }

  lemma ArrayRun(id: Id, signed: bool, values: seq<bv64>, d: nat)
    requires id <= ID_MAX && |values| <= LEN_MAX
    ensures DecodesTo(FieldBytes(if signed then SignedArray(id, values) else UnsignedArray(id, values)), d,
                      [ArrayBegin(id, IntKind(signed), |values|)] + IntEvents(id, signed, values))
  {
    hide Encode, Run, ReadHead, Header, Varints, LenTooBig, ToLen, LenBits, RawEvents, IntEvents, Zigzags;
    var n := LenBits(|values|);
    LenRoundTrip(|values|);
    var tag := if signed then T_ARRAY_SIGNED else T_ARRAY_UNSIGNED;
    var wire := if signed then Zigzags(values) else values;
    ZigzagsLength(values);
    SecondRead(id, tag, n, Varints(wire));
    var head := Encode(Header(id, tag)) + Encode(n);
    assert Encode(Header(id, tag)) + (Encode(n) + Varints(wire)) == head + Varints(wire);
    IntsRun(id, signed, wire, 0, d);
    ZigzagEvents(id, values);
    HeadThen(head, Varints(wire), IntElems(id, signed, |values|), d, Live(Field([]), d), IntEvents(id, signed, values));
  }

  lemma ZigzagsLength(values: seq<bv64>)
    ensures |Zigzags(values)| == |values|
  {}

  function FloatHead(id: Id, fp64: bool, count: nat): seq<byte> {
    Encode(Header(id, T_ARRAY_FIXLEN)) + Encode(LenBits(count)) + Encode(FloatWord(fp64))
  }

  /** The third word of a float array's head. */
  lemma ThirdRead(s: seq<byte>, k: nat, id: Id, count: nat, fp64: bool, rest: seq<byte>)
    requires 0 < k <= |s| && s[k..] == Encode(FloatWord(fp64)) + rest && count <= LEN_MAX
    ensures ReadRest(s, k, id, T_ARRAY_FIXLEN, LenBits(count))
         == Done(k + |Encode(FloatWord(fp64))|, FloatElems(id, fp64, count))
  {
    LenRoundTrip(count);
    ReadsBack(FloatWord(fp64), rest);
    FloatWordParts(fp64);
    hide Encode, Header, LenTooBig, ToLen, LenBits, FloatWord, Leb, NumberOf, TagOf;
  }

  lemma FloatHeadRead(id: Id, fp64: bool, count: nat, rest: seq<byte>)
    requires id <= ID_MAX && count <= LEN_MAX
    ensures var k := |Encode(Header(id, T_ARRAY_FIXLEN))| + |Encode(LenBits(count))| + |Encode(FloatWord(fp64))|;
            ReadHead(FloatHead(id, fp64, count) + rest) == Done(k, FloatElems(id, fp64, count))
            && k == |FloatHead(id, fp64, count)|
  {
    hide Encode, ReadHead, ReadRest, Header, LenBits, FloatWord;
    var h, n, w := Encode(Header(id, T_ARRAY_FIXLEN)), Encode(LenBits(count)), Encode(FloatWord(fp64));
    SecondRead(id, T_ARRAY_FIXLEN, LenBits(count), w + rest);
    Regrouped(h, n, w, rest);
    ThirdRead(h + (n + (w + rest)), |h| + |n|, id, count, fp64, rest);
  }

  lemma Regrouped<T>(a: seq<T>, b: seq<T>, c: seq<T>, d: seq<T>)
    ensures a + b + c + d == a + (b + (c + d))
  {}

  lemma FloatArrayRun(id: Id, fp64: bool, elems: seq<seq<byte>>, d: nat)
    requires FieldOk(FloatArray(id, fp64, elems))
    ensures DecodesTo(FieldBytes(FloatArray(id, fp64, elems)), d, FieldEvents(FloatArray(id, fp64, elems)))
  {
    hide Encode, Run, ReadHead, Header, Joined, LenBits, FloatEvents, FloatWord;
    FloatHeadRead(id, fp64, |elems|, Joined(elems));
    FloatsRun(id, fp64, elems, 0, d);
    HeadThen(FloatHead(id, fp64, |elems|), Joined(elems), FloatElems(id, fp64, |elems|), d, Live(Field([]), d),
             FloatEvents(id, fp64, elems));
  }

  lemma FloatWordParts(fp64: bool)
    ensures TagOf(FloatWord(fp64)) == (if fp64 then Tag(Fp64) else Tag(Fp32))
        && NumberOf(FloatWord(fp64)) == if fp64 then 8 else 4
  {}

  lemma FixRun(id: Id, subtype: FixlenType, data: seq<byte>, d: nat)
    requires FieldOk(FixField(id, subtype, data))
    ensures DecodesTo(FieldBytes(FixField(id, subtype, data)), d, FieldEvents(FixField(id, subtype, data)))
  {
    hide Encode, Run, ReadHead, Header, LenTooBig, ToLen, LenBits, NumberOf, TagOf, Word, Roomy, Explode;
    var w := Word(LenBits(|data|), Tag(subtype));
    LenRoundTrip(|data|);
    WordParts(LenBits(|data|), Tag(subtype));
    SecondRead(id, T_FIXLEN, w, data);
    var head := Encode(Header(id, T_FIXLEN)) + Encode(w);
    assert Encode(Header(id, T_FIXLEN)) + (Encode(w) + data) == head + data;
    FixRest(id, subtype, data, d);
    HeadThen(head, data, Fix(id, subtype, |data|), d, Live(Field([]), d), FixRestEvents(id, subtype, data));
    FixEvents(id, subtype, data, d);
  }

  /** The callbacks past the announcement, which for an empty payload already holds them all. */
  function FixRestEvents(id: Id, subtype: FixlenType, data: seq<byte>): seq<Event> {
    if subtype == Fp32 || subtype == Fp64 then [Float(id, subtype == Fp64, data)]
    else if data == [] then [] else Explode(Chunk(id, subtype == Blob, |data|, 0, data))
  }

  lemma FixRest(id: Id, subtype: FixlenType, data: seq<byte>, d: nat)
    requires FieldOk(FixField(id, subtype, data))
    ensures Run(Announce(Fix(id, subtype, |data|), d).st, data)
        == Trace(Live(Field([]), d), FixRestEvents(id, subtype, data))
  {
    hide Run, Explode;
    if subtype == Fp32 || subtype == Fp64 {
      OneFloat(id, subtype == Fp64, data, 0, d);
    } else if data == [] {
      RunEmpty(Live(Field([]), d));
    } else {
      RunPayload(id, subtype == Blob, |data|, 0, data, d);
    }
  }

  lemma FixEvents(id: Id, subtype: FixlenType, data: seq<byte>, d: nat)
    ensures Announce(Fix(id, subtype, |data|), d).log + FixRestEvents(id, subtype, data)
        == FieldEvents(FixField(id, subtype, data))
  {
    if data == [] && subtype != Fp32 && subtype != Fp64 {
      var c := Chunk(id, subtype == Blob, 0, 0, []);
      assert Explode(c) == [c];
    }
  }

  lemma FieldRun(f: Field, d: nat)
    requires FieldOk(f)
    ensures DecodesTo(FieldBytes(f), d, FieldEvents(f))
  {
    hide FieldBytes, DecodesTo;
    match f
    case UnsignedField(id, v) => ScalarRun(id, false, v, d);
    case SignedField(id, v) => ScalarRun(id, true, v, d);
    case FixField(id, subtype, data) => FixRun(id, subtype, data, d);
    case UnsignedArray(id, values) => ArrayRun(id, false, values, d);
    case SignedArray(id, values) => ArrayRun(id, true, values, d);
    case FloatArray(id, fp64, elems) => FloatArrayRun(id, fp64, elems, d);
  }

  // ---- trees ---------------------------------------------------------------------------------

  lemma OpenRun(id: Id, d: nat)
    requires id <= ID_MAX && d < MAX_DEPTH
    ensures Run(Live(Field([]), d), OpenBytes(id)) == Trace(Live(Field([]), d + 1), [SequenceBegin(id)])
  {
    hide Run, ReadHead, Encode, Header;
    MarkerRead(id, T_SEQUENCE_START, []);
    assert OpenBytes(id) + [] == OpenBytes(id);
    RunEmpty(Live(Field([]), d + 1));
    HeadThen(OpenBytes(id), [], Open(id), d, Live(Field([]), d + 1), []);
  }

  lemma CloseRun(d: nat)
    ensures Run(Live(Field([]), d + 1), CLOSE_BYTES) == Trace(Live(Field([]), d), [SequenceEnd])
  {
    hide Run, ReadHead, Encode, Header;
    CloseIsHeader();
    MarkerRead(0, T_SEQUENCE_END, []);
    assert CLOSE_BYTES + [] == CLOSE_BYTES;
    RunEmpty(Live(Field([]), d));
    HeadThen(CLOSE_BYTES, [], Close, d + 1, Live(Field([]), d), []);
  }

  /** Round trip: the plain encoding of a legal tree decodes to exactly its callbacks. */
  lemma {:induction false} TreeRun(t: Forest, d: nat)
    requires Legal(t, d)
    ensures DecodesTo(Plain(t), d, TreeEvents(t))
    decreases t
  {
    hide Run, FieldBytes, FieldEvents, OpenBytes, CLOSE_BYTES;
    var st := Live(Field([]), d);
    match t
    case Nil => RunEmpty(st);
    case Cons(Leaf(f), tail) =>
      FieldRun(f, d);
      TreeRun(tail, d);
      Joins(st, FieldBytes(f), Plain(tail), st, st, FieldEvents(f), TreeEvents(tail));
    case Cons(Frame(id, keep, body), tail) =>
      var deep := Live(Field([]), d + 1);
      OpenRun(id, d);
      TreeRun(body, d + 1);
      CloseRun(d);
      TreeRun(tail, d);
      Joins(st, OpenBytes(id), Plain(body), deep, deep, [SequenceBegin(id)], TreeEvents(body));
      Joins(st, OpenBytes(id) + Plain(body), CLOSE_BYTES, deep, st, [SequenceBegin(id)] + TreeEvents(body),
        [SequenceEnd]);
      Joins(st, OpenBytes(id) + Plain(body) + CLOSE_BYTES, Plain(tail), st, st,
            [SequenceBegin(id)] + TreeEvents(body) + [SequenceEnd], TreeEvents(tail));
  }

  lemma {:induction false} PruneLegal(t: Forest, d: nat)
    requires Legal(t, d)
    ensures Legal(Prune(t), d)
    decreases t
  {
    hide FieldOk;
    match t
    case Nil =>
    case Cons(Leaf(f), tail) => PruneLegal(tail, d);
    case Cons(Frame(id, keep, body), tail) => PruneLegal(body, d + 1); PruneLegal(tail, d);
  }
}

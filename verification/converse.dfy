/** The converse of the round trip: what decodes is a message. */
module Converse {
  import opened Leb128
  import opened Wire
  import opened Decoder
  import opened Message
  import opened RoundTrip
  import Balance
  import Varint

  /** The callbacks of a run of calls. */
  function CallEvents(ops: seq<Op>): seq<Event>
    decreases |ops|
  {
    if ops == [] then [] else OneCall(ops[0]) + CallEvents(ops[1..])
  }

  function OneCall(op: Op): seq<Event> {
    match op
    case Begin(id) => [SequenceBegin(id)]
    case Put(f) => FieldEvents(f)
    case _ => [SequenceEnd]
  }

  lemma {:induction false} CallsAppend(a: seq<Op>, b: seq<Op>)
    ensures CallEvents(a + b) == CallEvents(a) + CallEvents(b)
    decreases |a|
  {
    hide OneCall;
    if a == [] {
      assert a + b == b;
    } else {
      assert (a + b)[1..] == a[1..] + b;
      CallsAppend(a[1..], b);
    }
  }

  lemma CallsOne(op: Op)
    ensures CallEvents([op]) == OneCall(op)
  {
    hide OneCall;
    assert [op][1..] == [];
    assert OneCall(op) + [] == OneCall(op);
  }

  lemma {:induction false} ScriptEvents(t: Forest)
    ensures CallEvents(Script(t)) == TreeEvents(t)
    decreases t
  {
    hide CallEvents, FieldEvents;
    match t
    case Nil => NoCalls();
    case Cons(Leaf(f), tail) =>
      ScriptEvents(tail);
      CallsAppend([Put(f)], Script(tail));
      CallsOne(Put(f));
    case Cons(Frame(id, keep, body), tail) =>
      var close := if keep then EndKeep else End;
      ScriptEvents(body);
      ScriptEvents(tail);
      CallsAppend([Begin(id)] + Script(body) + [close], Script(tail));
      CallsAppend([Begin(id)] + Script(body), [close]);
      CallsAppend([Begin(id)], Script(body));
      CallsOne(Begin(id));
      CallsOne(close);
  }

  lemma NoCalls()
    ensures CallEvents([]) == []
  {}

  // ---- elements back from bytes ----------------------------------------------------------------------

  predicate Boundary(st: State) { st.Live? && st.phase == Field([]) }

  lemma CutRun(st: State, s: seq<byte>, k: nat)
    requires k <= |s|
    ensures Run(st, s) == Trace(Run(Run(st, s[..k]).st, s[k..]).st,
        Run(st, s[..k]).log + Run(Run(st, s[..k]).st, s[k..]).log)
  {
    hide Run;
    assert s == s[..k] + s[k..];
    RunAppend(st, s[..k], s[k..]);
  }

  lemma {:induction false} IntsBack(id: Id, signed: bool, count: nat, s: seq<byte>, d: nat)
    returns (values: seq<bv64>, k: nat)
    requires Boundary(Run(Live(IntsOf(id, signed, count), d), s).st)
    ensures k <= |s| && |values| == count
    ensures Run(Live(IntsOf(id, signed, count), d), s[..k]) == Trace(Live(Field([]), d), RawEvents(id, signed, values))
    decreases count
  {
    hide Run, Leb, IntEvent;
    var st := Live(IntsOf(id, signed, count), d);
    if count == 0 {
      values, k := [], 0;
      assert s[..0] == [];
      RunEmpty(st);
    } else {
      EmptyLeb();
      assert [] + s == s;
      RunInt(id, signed, count, [], s, d);
      var Value(v, n) := Leb(s);
      CutRun(st, s, n);
      var next := Live(IntsOf(id, signed, count - 1), d);
      var vs, j := IntsBack(id, signed, count - 1, s[n..], d);
      values, k := [v] + vs, n + j;
      assert s[..k] == s[..n] + s[n..][..j];
      Joins(st, s[..n], s[n..][..j], next, Live(Field([]), d), [IntEvent(id, signed, v)], RawEvents(id, signed, vs));
      assert RawEvents(id, signed, values) == [IntEvent(id, signed, v)] + RawEvents(id, signed, vs);
    }
  }

  lemma {:induction false} FloatsBack(id: Id, fp64: bool, count: nat, s: seq<byte>, d: nat)
    returns (elems: seq<seq<byte>>, k: nat)
    requires Boundary(Run(Live(FloatsOf(id, fp64, count), d), s).st)
    ensures k <= |s| && |elems| == count && forall e | e in elems :: |e| == Width(fp64)
    ensures Run(Live(FloatsOf(id, fp64, count), d), s[..k]) == Trace(Live(Field([]), d), FloatEvents(id, fp64, elems))
    decreases count
  {
    hide Run;
    var st := Live(FloatsOf(id, fp64, count), d);
    if count == 0 {
      elems, k := [], 0;
      assert s[..0] == [];
      RunEmpty(st);
    } else {
      var n := Width(fp64);
      assert [] + s == s;
      RunFloat(id, fp64, count, [], s, d);
      var e := s[..n];
      CutRun(st, s, n);
      var next := Live(FloatsOf(id, fp64, count - 1), d);
      var es, j := FloatsBack(id, fp64, count - 1, s[n..], d);
      elems, k := [e] + es, n + j;
      assert s[..k] == s[..n] + s[n..][..j];
      Joins(st, e, s[n..][..j], next, Live(Field([]), d), [Float(id, fp64, e)], FloatEvents(id, fp64, es));
      assert FloatEvents(id, fp64, elems) == [Float(id, fp64, e)] + FloatEvents(id, fp64, es);
    }
  }

  // ---- heads -----------------------------------------------------------------------------------------

  predicate ItemFits(item: Item) {
    match item
    case Scalar(id, _, _) => id <= ID_MAX
    case Fix(id, subtype, total) =>
      id <= ID_MAX && total <= LEN_MAX && (subtype == Fp32 ==> total == 4) && (subtype == Fp64 ==> total == 8)
    case IntElems(id, _, count) => id <= ID_MAX && count <= LEN_MAX
    case FloatElems(id, _, count) => id <= ID_MAX && count <= LEN_MAX
    case Open(id) => id <= ID_MAX
    case Close => true
  }

  lemma IdFits(bits: bv64)
    requires !IdTooBig(bits)
    ensures ToId(bits) <= ID_MAX
  {}

  /** Whatever a head announces is within the format's bounds. */
  lemma HeadFits(s: seq<byte>)
    requires ReadHead(s).Done?
    ensures ItemFits(ReadHead(s).item)
  {
    hide Leb, IdTooBig, ToId, NumberOf, TagOf, ToLen, Varint.ZigzagDecode;
    IdFits(NumberOf(Leb(s).v));
  }

  /** What stands behind a head of item `item`, in a run that comes to a field boundary: the rest of one
      call, then more. */
  predicate Completes(item: Item, d: nat, rest: seq<byte>, op: Op, d': nat, k: nat) {
    && k <= |rest| && Announce(item, d).st.Live?
    && Run(Announce(item, d).st, rest[..k]).st == Live(Field([]), d')
    && Announce(item, d).log + Run(Announce(item, d).st, rest[..k]).log == OneCall(op)
  }

  lemma Nothing(item: Item, d: nat, rest: seq<byte>, op: Op, d': nat)
    requires Announce(item, d) == Trace(Live(Field([]), d'), OneCall(op))
    ensures Completes(item, d, rest, op, d', 0)
  {
    hide OneCall;
    assert rest[..0] == [];
    RunEmpty(Announce(item, d).st);
    assert OneCall(op) + [] == OneCall(op);
  }

  lemma FixBack(id: Id, subtype: FixlenType, total: nat, d: nat, rest: seq<byte>) returns (op: Op, k: nat)
    requires ItemFits(Fix(id, subtype, total)) && Boundary(Run(Announce(Fix(id, subtype, total), d).st, rest).st)
    ensures op.Put? && FieldOk(op.field) && Completes(Fix(id, subtype, total), d, rest, op, d, k)
  {
    hide Run, Explode;
    var item := Fix(id, subtype, total);
    if subtype == Fp32 || subtype == Fp64 {
      var es, j := FloatsBack(id, subtype == Fp64, 1, rest, d);
      op, k := Put(FixField(id, subtype, es[0])), j;
      assert FloatEvents(id, subtype == Fp64, es) == [Float(id, subtype == Fp64, es[0])];
    } else if total == 0 {
      op, k := Put(FixField(id, subtype, [])), 0;
      assert Explode(Chunk(id, subtype == Blob, 0, 0, []))
        == [Chunk(id, subtype == Blob, 0, 0, [])] by { EmptyChunk(id, subtype == Blob); }
      Nothing(item, d, rest, op, d);
    } else {
      if |rest| < total { PayloadStops(id, subtype == Blob, total, rest, d); }
      k := total;
      var data := rest[..k];
      op := Put(FixField(id, subtype, data));
      RunPayload(id, subtype == Blob, total, 0, data, d);
    }
  }

  lemma EmptyChunk(id: Id, blob: bool)
    ensures Explode(Chunk(id, blob, 0, 0, [])) == [Chunk(id, blob, 0, 0, [])]
  {}

  lemma PayloadStops(id: Id, blob: bool, total: nat, rest: seq<byte>, d: nat)
    requires |rest| < total
    ensures !Boundary(Run(Live(PayloadOf(id, blob, total, 0), d), rest).st)
  {
    hide Run, Explode;
    if rest == [] {
      RunEmpty(Live(PayloadOf(id, blob, total, 0), d));
    } else {
      RunPayload(id, blob, total, 0, rest, d);
    }
  }

  lemma ArraysBack(item: Item, d: nat, rest: seq<byte>) returns (op: Op, k: nat)
    requires (item.IntElems? || item.FloatElems?) && ItemFits(item) && Boundary(Run(Announce(item, d).st, rest).st)
    ensures op.Put? && FieldOk(op.field) && Completes(item, d, rest, op, d, k)
  {
    hide Run;
    if item.IntElems? {
      var IntElems(id, signed, count) := item;
      var wire, j := IntsBack(id, signed, count, rest, d);
      k := j;
      if signed {
        var values := seq(|wire|, i requires 0 <= i < |wire| => Varint.ZigzagDecode(wire[i]));
        op := Put(SignedArray(id, values));
        hide Varint.ZigzagDecode;
        assert RawEvents(id, true, wire) == IntEvents(id, true, values);
      } else {
        op := Put(UnsignedArray(id, wire));
        assert RawEvents(id, false, wire) == IntEvents(id, false, wire);
      }
    } else {
      var FloatElems(id, fp64, count) := item;
      var es, j := FloatsBack(id, fp64, count, rest, d);
      op, k := Put(FloatArray(id, fp64, es)), j;
    }
  }

  /** The call behind a head. */
  lemma ItemBack(item: Item, e: Enc, rest: seq<byte>) returns (op: Op, k: nat)
    requires ItemFits(item) && e.depth <= MAX_DEPTH && Boundary(Run(Announce(item, e.depth).st, rest).st)
    requires Announce(item, e.depth).st.Live?
    ensures Accepts(e, op) && Apply(e, op).depth <= MAX_DEPTH
    ensures Completes(item, e.depth, rest, op, Apply(e, op).depth, k)
  {
    var d := e.depth;
    match item
    case Scalar(id, signed, v) =>
      op, k := Put(if signed then SignedField(id, v) else UnsignedField(id, v)), 0;
      Nothing(item, d, rest, op, d);
    case Open(id) =>
      op, k := Begin(id), 0;
      Nothing(item, d, rest, op, d + 1);
    case Close =>
      op, k := EndKeep, 0;
      Nothing(item, d, rest, op, d - 1);
    case Fix(id, subtype, total) =>
      op, k := FixBack(id, subtype, total, d, rest);
    case _ =>
      op, k := ArraysBack(item, d, rest);
  }

  // ---- messages back from bytes ------------------------------------------------------------------------

  lemma HeadStands(s: seq<byte>, d: nat)
    requires s != [] && Boundary(Run(Live(Field([]), d), s).st)
    ensures ReadHead(s).Done? && Run(Live(Field([]), d), s[..ReadHead(s).len]) == Announce(ReadHead(s).item, d)
  {
    EmptyHead();
    hide ReadHead, Run, Announce;
    assert [] + s == s;
    RunHead([], s, d);
  }

  lemma Glue(d: nat, s: seq<byte>, n: nat, item: Item, k: nat, op: Op, d': nat)
    requires n <= |s| && Run(Live(Field([]), d), s[..n]) == Announce(item, d)
    requires Completes(item, d, s[n..], op, d', k)
    ensures n + k <= |s| && Run(Live(Field([]), d), s[..n + k]) == Trace(Live(Field([]), d'), OneCall(op))
  {
    hide Run, Announce, OneCall;
    assert s[..n + k] == s[..n] + s[n..][..k];
    RunAppend(Live(Field([]), d), s[..n], s[n..][..k]);
  }

  /** Bytes that lead from one field boundary to another are a run of acceptable calls. */
  lemma {:induction false} AsCalls(s: seq<byte>, e: Enc) returns (ops: seq<Op>)
    requires e.depth <= MAX_DEPTH && Boundary(Run(Live(Field([]), e.depth), s).st)
    ensures ApplyAll(e, ops).Some? && ApplyAll(e, ops).value.depth == Run(Live(Field([]), e.depth), s).st.depth
    ensures CallEvents(ops) == Run(Live(Field([]), e.depth), s).log
    decreases |s|
  {
    hide Run, Announce, Apply, Accepts, ReadHead, OneCall, Completes, ItemFits;
    var st := Live(Field([]), e.depth);
    if s == [] {
      ops := [];
      RunEmpty(st);
    } else {
      HeadStands(s, e.depth);
      HeadFits(s);
      var Done(n, item) := ReadHead(s);
      CutRun(st, s, n);
      LiveAnnounce(item, e.depth, s[n..]);
      var op, k := ItemBack(item, e, s[n..]);
      Glue(e.depth, s, n, item, k, op, Apply(e, op).depth);
      CutRun(st, s, n + k);
      var rest := AsCalls(s[n + k..], Apply(e, op));
      ops := [op] + rest;
      assert ops[0] == op && ops[1..] == rest;
    }
  }

  lemma LiveAnnounce(item: Item, d: nat, rest: seq<byte>)
    requires Boundary(Run(Announce(item, d).st, rest).st)
    ensures Announce(item, d).st.Live?
  {
    RunRejected(rest);
    hide Run, Announce;
  }

  /** What decodes is a message: every byte string that decodes as complete, non-minimal words and all, has
      exactly the callbacks of a tree within the format's bounds, and so decodes as that tree's own encoding. */
  lemma DecodedIsTree(s: seq<byte>) returns (t: Forest)
    requires Run(START, s).st == START
    ensures Legal(t, 0) && Run(START, s).log == TreeEvents(t)
    ensures Run(START, Plain(t)) == Run(START, s)
  {
    hide Run, ApplyAll, Script, Plain, Prune, TreeEvents, Legal, CallEvents;
    var ops := AsCalls(s, FRESH);
    t := Balance.BalancedIsTree(ops);
    ScriptEvents(t);
    TreeRun(t, 0);
  }
}

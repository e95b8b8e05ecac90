/** Every balanced run of successful calls is the writing of a tree. */
module Balance {
  import opened Leb128
  import opened Message

  datatype Build = Built(t: Forest, rest: seq<Op>) | Unclosed

  predicate Closes(op: Op) { op.End? || op.EndKeep? }

  /** Reads calls up to the end, or up to a close that belongs further out. */
  function Grow(ops: seq<Op>): (b: Build)
    ensures b.Built? ==> |b.rest| <= |ops| && (b.rest == [] || Closes(b.rest[0]))
    decreases |ops|
  {
    if ops == [] then Built(Nil, [])
    else match ops[0]
      case End => Built(Nil, ops)
      case EndKeep => Built(Nil, ops)
      case Put(f) =>
        (match Grow(ops[1..])
         case Unclosed => Unclosed
         case Built(t, rest) => Built(Cons(Leaf(f), t), rest))
      case Begin(id) =>
        (match Grow(ops[1..])
         case Unclosed => Unclosed
         case Built(body, rest) =>
           if rest == [] then Unclosed
           else match Grow(rest[1..])
             case Unclosed => Unclosed
             case Built(tail, rest') => Built(Cons(Frame(id, rest[0].EndKeep?, body), tail), rest'))
  }

  lemma {:induction false} GrowScript(ops: seq<Op>)
    ensures var b := Grow(ops); b.Built? ==> Script(b.t) + b.rest == ops
    decreases |ops|
  {
    hide Script;
    if ops == [] || Closes(ops[0]) {
      GrowNothing(ops);
    } else if Grow(ops).Built? {
      GrowScript(ops[1..]);
      var Built(t, rest) := Grow(ops[1..]);
      if ops[0].Begin? {
        GrowScript(rest[1..]);
        var Built(tail, rest') := Grow(rest[1..]);
        GlueFrame(ops, t, rest, tail, rest');
      } else {
        GlueLeaf(ops, t, rest);
      }
    }
  }

  lemma GrowNothing(ops: seq<Op>)
    requires ops == [] || Closes(ops[0])
    ensures Grow(ops) == Built(Nil, ops) && Script(Nil) + ops == ops
  {}

  lemma GlueLeaf(ops: seq<Op>, t: Forest, rest: seq<Op>)
    requires ops != [] && ops[0].Put? && Script(t) + rest == ops[1..]
    ensures Script(Cons(Leaf(ops[0].field), t)) + rest == ops
  {
    assert ops == [ops[0]] + ops[1..];
  }

  lemma GlueFrame(ops: seq<Op>, body: Forest, rest: seq<Op>, tail: Forest, rest': seq<Op>)
    requires ops != [] && ops[0].Begin? && Script(body) + rest == ops[1..]
    requires rest != [] && Closes(rest[0]) && Script(tail) + rest' == rest[1..]
    ensures Script(Cons(Frame(ops[0].id, rest[0].EndKeep?, body), tail)) + rest' == ops
  {
    assert ops == [ops[0]] + ops[1..] && rest == [rest[0]] + rest[1..];
    assert Script(Cons(Frame(ops[0].id, rest[0].EndKeep?, body), tail))
      == [ops[0]] + Script(body) + [rest[0]] + Script(tail);
  }

  lemma DepthKept(e: Enc, t: Forest, rest: seq<Op>)
    requires ApplyAll(e, Script(t) + rest).Some?
    ensures ApplyAll(e, Script(t)).Some? && ApplyAll(e, Script(t)).value.depth == e.depth
    ensures ApplyAll(ApplyAll(e, Script(t)).value, rest) == ApplyAll(e, Script(t) + rest)
  {
    hide ApplyAll, Script, Framed;
    ApplyAppend(e, Script(t), rest);
    LazyFraming(t, e);
    FramedDepth(e, t);
  }

  lemma ApplyStep(e: Enc, ops: seq<Op>)
    requires ops != [] && ApplyAll(e, ops).Some?
    ensures Accepts(e, ops[0]) && ApplyAll(Apply(e, ops[0]), ops[1..]) == ApplyAll(e, ops)
    ensures ops[0].Begin? ==> Apply(e, ops[0]).depth == e.depth + 1
    ensures Closes(ops[0]) ==> Apply(e, ops[0]).depth == e.depth - 1
    ensures ops[0].Put? ==> Apply(e, ops[0]).depth == e.depth
  {
    hide Owed, FieldOk;
  }

  /** A sequence left open shows in the depth. */
  lemma {:induction false} UnclosedDepth(e: Enc, ops: seq<Op>)
    requires Grow(ops).Unclosed? && ApplyAll(e, ops).Some?
    ensures ApplyAll(e, ops).value.depth > e.depth
    decreases |ops|
  {
    hide ApplyAll, Script, Apply, Accepts;
    ApplyStep(e, ops);
    var e1 := Apply(e, ops[0]);
    match Grow(ops[1..])
    case Unclosed => UnclosedDepth(e1, ops[1..]);
    case Built(body, rest) =>
      GrowScript(ops[1..]);
      DepthKept(e1, body, rest);
      var full := ApplyAll(e1, Script(body)).value;
      if rest == [] {
        ApplyNothing(full);
      } else {
        ApplyStep(full, rest);
        UnclosedDepth(Apply(full, rest[0]), rest[1..]);
      }
  }

  lemma ApplyNothing(e: Enc)
    ensures ApplyAll(e, []) == Some(e)
  {}

  /** A run of successful calls that ends where it began writes exactly one tree: it is legal, and the
      bytes are the plain encoding of what survives of it. */
  lemma BalancedIsTree(ops: seq<Op>) returns (t: Forest)
    requires ApplyAll(FRESH, ops).Some? && ApplyAll(FRESH, ops).value.depth == 0
    ensures Script(t) == ops && Legal(t, 0)
    ensures ApplyAll(FRESH, ops) == Some(Enc(Plain(Prune(t)), 0, []))
  {
    hide ApplyAll, Script, Apply, Accepts, Plain, Prune, AnySurvives, Legal;
    if Grow(ops).Unclosed? {
      UnclosedDepth(FRESH, ops);
      t := Nil;
    } else {
      GrowScript(ops);
      var rest := Grow(ops).rest;
      t := Grow(ops).t;
      DepthKept(FRESH, t, rest);
      if rest != [] {
        ApplyStep(ApplyAll(FRESH, Script(t)).value, rest);
      }
      assert Script(t) + [] == Script(t);
      LazyFraming(t, FRESH);
      NothingPending([]);
      if AnySurvives(t) {
        assert [] + Headers([]) + Plain(Prune(t)) == Plain(Prune(t));
      } else {
        PruneNone(t);
        PlainNil();
      }
    }
  }
}

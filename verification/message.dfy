/** Messages as trees, and what the encoder's calls amount to: the specification of src/ostream.rs. */
module Message {
  import opened Leb128
  import opened Wire
  import Varint

  /** A content field, with its elements already widened to 64 bits and its floats as bytes. */
  datatype Field =
    | UnsignedField(id: Id, value: bv64)
    | SignedField(id: Id, value: bv64)
    | FixField(id: Id, subtype: FixlenType, data: seq<byte>)
    | UnsignedArray(id: Id, values: seq<bv64>)
    | SignedArray(id: Id, values: seq<bv64>)
    | FloatArray(id: Id, fp64: bool, elems: seq<seq<byte>>)

  /** The arguments a writer accepts. */
  predicate FieldOk(f: Field) {
    f.id <= ID_MAX &&
    match f
    case UnsignedField(_, _) => true
    case SignedField(_, _) => true
    case FixField(_, subtype, data) =>
      |data| <= LEN_MAX && (subtype == Fp32 ==> |data| == 4) && (subtype == Fp64 ==> |data| == 8)
    case UnsignedArray(_, values) => |values| <= LEN_MAX
    case SignedArray(_, values) => |values| <= LEN_MAX
    case FloatArray(_, fp64, elems) => |elems| <= LEN_MAX && forall e | e in elems :: |e| == Width(fp64)
  }

  // ---- plain encoding ------------------------------------------------------------------------

  function Header(id: Id, tag: bv64): bv64 { Word(IdBits(id), tag) }

  function Varints(values: seq<bv64>): seq<byte> {
    if values == [] then [] else Varints(values[..|values| - 1]) + Encode(values[|values| - 1])
  }

  function Zigzags(values: seq<bv64>): seq<bv64> {
    seq(|values|, i requires 0 <= i < |values| => Varint.ZigzagEncode(values[i]))
  }

  /** Integer elements as the wire carries them. */
  function ToWire(signed: bool, v: bv64): bv64 { if signed then Varint.ZigzagEncode(v) else v }

  function Wired(signed: bool, values: seq<bv64>): seq<bv64> { if signed then Zigzags(values) else values }

  /** The elements' bytes back to back. */
  function Joined(elems: seq<seq<byte>>): seq<byte> {
    if elems == [] then [] else Joined(elems[..|elems| - 1]) + elems[|elems| - 1]
  }

  function FloatWord(fp64: bool): bv64 {
    if fp64 then Word(8, Tag(Fp64)) else Word(4, Tag(Fp32))
  }

  function FieldBytes(f: Field): seq<byte> {
    match f
    case UnsignedField(id, v) => Encode(Header(id, T_UNSIGNED)) + Encode(v)
    case SignedField(id, v) => Encode(Header(id, T_SIGNED)) + Encode(Varint.ZigzagEncode(v))
    case FixField(id, subtype, data) =>
      Encode(Header(id, T_FIXLEN)) + Encode(Word(LenBits(|data|), Tag(subtype))) + data
    case UnsignedArray(id, values) =>
      Encode(Header(id, T_ARRAY_UNSIGNED)) + Encode(LenBits(|values|)) + Varints(values)
    case SignedArray(id, values) =>
      Encode(Header(id, T_ARRAY_SIGNED)) + Encode(LenBits(|values|)) + Varints(Zigzags(values))
    case FloatArray(id, fp64, elems) =>
      Encode(Header(id, T_ARRAY_FIXLEN)) + Encode(LenBits(|elems|)) + Encode(FloatWord(fp64)) + Joined(elems)
  }

  function OpenBytes(id: Id): seq<byte> { Encode(Header(id, T_SEQUENCE_START)) }
  const CLOSE_BYTES: seq<byte> := Encode(T_SEQUENCE_END)

  /** A message: fields, and sequences of fields. `keep` says how a sequence was closed. */
  datatype Node = Leaf(field: Field) | Frame(id: Id, keep: bool, body: Forest)
  datatype Forest = Nil | Cons(head: Node, tail: Forest)

  /** The plain recursive encoding: every frame between its header and its end marker. */
  function Plain(t: Forest): seq<byte> {
    match t
    case Nil => []
    case Cons(Leaf(f), tail) => FieldBytes(f) + Plain(tail)
    case Cons(Frame(id, _, body), tail) => OpenBytes(id) + Plain(body) + CLOSE_BYTES + Plain(tail)
  }

  /** Something of the node reaches the wire: a field, or a frame that is kept or has something in it. */
  predicate Survives(n: Node) {
    match n
    case Leaf(_) => true
    case Frame(_, keep, body) => keep || AnySurvives(body)
  }

  predicate AnySurvives(t: Forest) {
    t.Cons? && (Survives(t.head) || AnySurvives(t.tail))
  }

  /** The tree without the sequences that vanish. */
  function Prune(t: Forest): Forest {
    match t
    case Nil => Nil
    case Cons(n, tail) => if Survives(n) then Cons(PruneNode(n), Prune(tail)) else Prune(tail)
  }

  function PruneNode(n: Node): Node {
    match n
    case Leaf(f) => Leaf(f)
    case Frame(id, keep, body) => Frame(id, keep, Prune(body))
  }

  // What pruning is for: nothing a decoder has to see is lost, and no frame without content is left.

  /** A field, or a frame that was closed to be kept, with the ids of the sequences around it. */
  datatype Mark = FieldAt(path: seq<Id>, field: Field) | FrameAt(path: seq<Id>)

  function Marks(t: Forest, path: seq<Id>): seq<Mark> {
    match t
    case Nil => []
    case Cons(Leaf(f), tail) => [FieldAt(path, f)] + Marks(tail, path)
    case Cons(Frame(id, keep, body), tail) =>
      (if keep then [FrameAt(path + [id])] else []) + Marks(body, path + [id]) + Marks(tail, path)
  }

  /** Every frame is kept or has something in it, all the way down. */
  predicate NoneEmpty(t: Forest) {
    match t
    case Nil => true
    case Cons(Leaf(_), tail) => NoneEmpty(tail)
    case Cons(Frame(_, keep, body), tail) => (keep || body != Nil) && NoneEmpty(body) && NoneEmpty(tail)
  }

  lemma {:induction false} UnmarkedVanishes(t: Forest, path: seq<Id>)
    ensures AnySurvives(t) <==> Marks(t, path) != []
    decreases t
  {
    match t
    case Nil =>
    case Cons(Leaf(_), _) =>
    case Cons(Frame(id, _, body), tail) =>
      UnmarkedVanishes(body, path + [id]);
      UnmarkedVanishes(tail, path);
  }

  /** Pruning keeps every field and every kept frame, in order and with the sequences around them, and
      leaves no other empty frame. */
  lemma {:induction false} PruneKeeps(t: Forest, path: seq<Id>)
    ensures Marks(Prune(t), path) == Marks(t, path) && NoneEmpty(Prune(t))
    ensures AnySurvives(t) <==> Prune(t) != Nil
    decreases t
  {
    match t
    case Nil =>
    case Cons(Leaf(_), tail) => PruneKeeps(tail, path);
    case Cons(Frame(id, keep, body), tail) =>
      PruneKeeps(body, path + [id]);
      PruneKeeps(tail, path);
      UnmarkedVanishes(body, path + [id]);
  }

  /** And it changes nothing else. */
  lemma {:induction false} PruneIdle(t: Forest)
    requires NoneEmpty(t)
    ensures Prune(t) == t && (t != Nil ==> AnySurvives(t))
    decreases t
  {
    match t
    case Nil =>
    case Cons(Leaf(_), tail) => PruneIdle(tail);
    case Cons(Frame(id, keep, body), tail) => PruneIdle(body); PruneIdle(tail);
  }

  /** What can be encoded at nesting depth `d`. */
  predicate Legal(t: Forest, d: nat) {
    match t
    case Nil => true
    case Cons(Leaf(f), tail) => FieldOk(f) && Legal(tail, d)
    case Cons(Frame(id, _, body), tail) => id <= ID_MAX && d < MAX_DEPTH && Legal(body, d + 1) && Legal(tail, d)
  }

  // ---- encoder calls -------------------------------------------------------------------------

  datatype Op = Begin(id: Id) | End | EndKeep | Put(field: Field)

  /** The bytes emitted so far, the open sequences, and the ids whose headers are held back. */
  datatype Enc = Enc(out: seq<byte>, depth: nat, pending: seq<Id>)

  const FRESH: Enc := Enc([], 0, [])

  function Headers(ids: seq<Id>): seq<byte> {
    if ids == [] then [] else Headers(ids[..|ids| - 1]) + OpenBytes(ids[|ids| - 1])
  }

  /** The bytes a call owes the wire. */
  function Owed(e: Enc, op: Op): seq<byte> {
    match op
    case Begin(_) => []
    case End => if e.pending == [] then CLOSE_BYTES else []
    case EndKeep => Headers(e.pending) + CLOSE_BYTES
    case Put(f) => Headers(e.pending) + FieldBytes(f)
  }

  predicate Accepts(e: Enc, op: Op) {
    match op
    case Begin(id) => e.depth < MAX_DEPTH && id <= ID_MAX
    case End => e.depth > 0
    case EndKeep => e.depth > 0
    case Put(f) => FieldOk(f)
  }

  /** A successful call. */
  function Apply(e: Enc, op: Op): Enc
    requires Accepts(e, op)
  {
    var out := e.out + Owed(e, op);
    match op
    case Begin(id) => Enc(out, e.depth + 1, e.pending + [id])
    case End => Enc(out, e.depth - 1, if e.pending == [] then [] else e.pending[..|e.pending| - 1])
    case EndKeep => Enc(out, e.depth - 1, [])
    case Put(_) => Enc(out, e.depth, [])
  }

  function ApplyAll(e: Enc, ops: seq<Op>): Option<Enc>
    decreases |ops|
  {
    if ops == [] then Some(e)
    else if !Accepts(e, ops[0]) then None
    else ApplyAll(Apply(e, ops[0]), ops[1..])
  }

  lemma {:induction false} ApplyAppend(e: Enc, a: seq<Op>, b: seq<Op>)
    ensures ApplyAll(e, a + b) == match ApplyAll(e, a) case None => None case Some(x) => ApplyAll(x, b)
    decreases |a|
  {
    hide Apply, Accepts;
    if a == [] {
      assert a + b == b;
    } else {
      assert (a + b)[1..] == a[1..] + b;
      if Accepts(e, a[0]) { ApplyAppend(Apply(e, a[0]), a[1..], b); }
    }
  }

  lemma ApplyOne(e: Enc, op: Op)
    ensures ApplyAll(e, [op]) == if Accepts(e, op) then Some(Apply(e, op)) else None
  {
    hide Apply, Accepts;
    assert [op][1..] == [];
  }

  // ---- held-back headers over a run ------------------------------------------------------------

  /** The ids of the open sequences, outermost first, after another call. */
  function OpenNext(ids: seq<Id>, op: Op): seq<Id> {
    match op
    case Begin(id) => ids + [id]
    case Put(_) => ids
    case _ => if ids == [] then [] else ids[..|ids| - 1]
  }

  function OpenAfter(ids: seq<Id>, ops: seq<Op>): seq<Id>
    decreases |ops|
  {
    if ops == [] then ids else OpenAfter(OpenNext(ids, ops[0]), ops[1..])
  }

  lemma {:induction false} OpenMore(ids: seq<Id>, ops: seq<Op>, op: Op)
    ensures OpenAfter(ids, ops + [op]) == OpenNext(OpenAfter(ids, ops), op)
    decreases |ops|
  {
    hide OpenNext;
    if ops == [] {
      assert ([] + [op])[1..] == [];
    } else {
      assert (ops + [op])[1..] == ops[1..] + [op];
      OpenMore(OpenNext(ids, ops[0]), ops[1..], op);
    }
  }

  predicate Innermost(pending: seq<Id>, ids: seq<Id>) {
    |pending| <= |ids| && pending == ids[|ids| - |pending|..]
  }

  lemma InnermostPush(pending: seq<Id>, ids: seq<Id>, id: Id)
    requires Innermost(pending, ids)
    ensures |pending| <= |ids| && Innermost(pending + [id], ids + [id])
  {}

  lemma InnermostPop(pending: seq<Id>, id: Id, ids: seq<Id>)
    requires Innermost(pending + [id], ids)
    ensures ids != [] && Innermost(pending, ids[..|ids| - 1])
  {
    assert (pending + [id])[..|pending|] == pending;
  }

  lemma InnermostDrop(pending: seq<Id>, ids: seq<Id>, k: nat)
    requires Innermost(pending, ids) && k <= |pending|
    ensures Innermost(pending[k..], ids)
  {}

  lemma InnermostNone(ids: seq<Id>)
    ensures Innermost([], ids)
  {}

  /** In every run the headers held back are those of the innermost open sequences, a contiguous suffix;
      there are never more than `MAX_DEPTH`, so the run of ids cannot overflow. */
  lemma {:induction false} HeldBack(e: Enc, ids: seq<Id>, ops: seq<Op>)
    requires e.depth == |ids| <= MAX_DEPTH && Innermost(e.pending, ids) && ApplyAll(e, ops).Some?
    ensures var e' := ApplyAll(e, ops).value;
            e'.depth == |OpenAfter(ids, ops)| <= MAX_DEPTH && Innermost(e'.pending, OpenAfter(ids, ops))
    decreases |ops|
  {
    hide Owed, FieldOk;
    if ops != [] {
      HeldBack(Apply(e, ops[0]), OpenNext(ids, ops[0]), ops[1..]);
    }
  }

  /** The calls that write a tree. */
  function Script(t: Forest): seq<Op> {
    match t
    case Nil => []
    case Cons(Leaf(f), tail) => [Put(f)] + Script(tail)
    case Cons(Frame(id, keep, body), tail) =>
      [Begin(id)] + Script(body) + [if keep then EndKeep else End] + Script(tail)
  }

  /** Where the encoder stands after a tree: nothing happened, or everything held back went out first. */
  function Framed(e: Enc, t: Forest): Enc {
    if AnySurvives(t) then Enc(e.out + Headers(e.pending) + Plain(Prune(t)), e.depth, []) else e
  }

  lemma HeadersMore(ids: seq<Id>, id: Id)
    ensures Headers(ids + [id]) == Headers(ids) + OpenBytes(id)
  {
    assert (ids + [id])[..|ids|] == ids;
  }

  lemma VarintsMore(values: seq<bv64>, v: bv64)
    ensures Varints(values + [v]) == Varints(values) + Encode(v)
  {
    assert (values + [v])[..|values|] == values;
  }

  lemma {:induction false} VarintsJoin(a: seq<bv64>, b: seq<bv64>)
    ensures Varints(a + b) == Varints(a) + Varints(b)
    decreases |b|
  {
    hide Encode, Varints;
    if b == [] {
      assert a + b == a;
      VarintsNone();
    } else {
      var init, last := b[..|b| - 1], b[|b| - 1];
      VarintsJoin(a, init);
      VarintsMore(a + init, last);
      VarintsMore(init, last);
      assert a + b == a + init + [last] && b == init + [last];
    }
  }

  lemma VarintsNone()
    ensures Varints([]) == []
  {}

  lemma WiredMore(signed: bool, values: seq<bv64>, v: bv64)
    ensures Wired(signed, values + [v]) == Wired(signed, values) + [ToWire(signed, v)]
  {
    hide Varint.ZigzagEncode;
  }

  lemma WiredJoin(signed: bool, a: seq<bv64>, b: seq<bv64>)
    ensures Wired(signed, a + b) == Wired(signed, a) + Wired(signed, b)
  {
    hide Varint.ZigzagEncode;
  }

  lemma WiredNone(signed: bool)
    ensures Varints(Wired(signed, [])) == []
  {}

  lemma RunMore(signed: bool, values: seq<bv64>, i: nat)
    requires i < |values|
    ensures Varints(Wired(signed, values[..i + 1]))
         == Varints(Wired(signed, values[..i])) + Encode(ToWire(signed, values[i]))
  {
    hide Encode, Varints, Wired, ToWire;
    assert values[..i + 1] == values[..i] + [values[i]];
    WiredMore(signed, values[..i], values[i]);
    VarintsMore(Wired(signed, values[..i]), ToWire(signed, values[i]));
  }

  lemma RunCut(signed: bool, values: seq<bv64>, i: nat, n: nat)
    requires i + n <= |values|
    ensures Varints(Wired(signed, values[i..]))
         == Varints(Wired(signed, values[i..i + n])) + Varints(Wired(signed, values[i + n..]))
    ensures n == 1 ==> Varints(Wired(signed, values[i..i + n])) == Encode(ToWire(signed, values[i]))
  {
    hide Encode, Varints, Wired, ToWire;
    assert values[i..] == values[i..i + n] + values[i + n..];
    WiredJoin(signed, values[i..i + n], values[i + n..]);
    VarintsJoin(Wired(signed, values[i..i + n]), Wired(signed, values[i + n..]));
    if n == 1 {
      assert values[i..i + n] == [] + [values[i]];
      WiredNone(signed);
      WiredMore(signed, [], values[i]);
      VarintsMore(Wired(signed, []), ToWire(signed, values[i]));
      assert [] + Encode(ToWire(signed, values[i])) == Encode(ToWire(signed, values[i]));
    }
  }

  lemma {:induction false} JoinedCons(elems: seq<seq<byte>>)
    requires elems != []
    ensures Joined(elems) == elems[0] + Joined(elems[1..])
    decreases |elems|
  {
    if |elems| > 1 {
      JoinedCons(elems[..|elems| - 1]);
      assert elems[..|elems| - 1][1..] == elems[1..][..|elems| - 2];
    }
  }

  lemma NothingPending(out: seq<byte>)
    ensures out + Headers([]) == out
  {}

  lemma {:induction false} PruneNone(t: Forest)
    requires !AnySurvives(t)
    ensures Prune(t) == Nil
    decreases t
  {
    if t.Cons? { PruneNone(t.tail); }
  }

  lemma {:induction false} FramedTail(e: Enc, sofar: seq<byte>, t: Forest)
    ensures Framed(Enc(e.out + sofar, e.depth, []), t) == Enc(e.out + (sofar + Plain(Prune(t))), e.depth, [])
  {
    hide Prune, Plain, AnySurvives;
    NothingPending(e.out + sofar);
    if AnySurvives(t) {
      assert e.out + sofar + Plain(Prune(t)) == e.out + (sofar + Plain(Prune(t)));
    } else {
      PruneNone(t);
      PlainNil();
      assert sofar + [] == sofar;
    }
  }

  lemma PlainNil()
    ensures Plain(Nil) == []
  {}

  lemma PruneSurvivor(n: Node, tail: Forest)
    requires Survives(n)
    ensures AnySurvives(Cons(n, tail)) && Prune(Cons(n, tail)) == Cons(PruneNode(n), Prune(tail))
  {}

  lemma FramedLeaf(e: Enc, f: Field, tail: Forest)
    requires FieldOk(f)
    ensures Framed(e, Cons(Leaf(f), tail)) == Framed(Apply(e, Put(f)), tail)
  {
    hide FieldBytes, FieldOk, Headers;
    var t := Cons(Leaf(f), tail);
    assert AnySurvives(t) && Prune(t) == Cons(Leaf(f), Prune(tail)) by { PruneSurvivor(Leaf(f), tail); }
    var h, b, r := Headers(e.pending), FieldBytes(f), Plain(Prune(tail));
    assert Plain(Prune(t)) == b + r;
    FramedTail(e, h + b, tail);
    assert e.out + h + (b + r) == e.out + (h + b + r);
  }

  lemma Regroup<T>(a: seq<T>, h: seq<T>, o: seq<T>, b: seq<T>, c: seq<T>, r: seq<T>)
    ensures a + h + (o + b + c + r) == a + (h + o + b + c + r)
  {}

  /** A frame that reaches the wire around what survives of its body. */
  lemma FramedKept(e: Enc, id: Id, keep: bool, body: Forest, tail: Forest, full: Enc)
    requires Survives(Frame(id, keep, body))
    requires full == Enc(e.out + (Headers(e.pending) + OpenBytes(id) + Plain(Prune(body)) + CLOSE_BYTES), e.depth, [])
    ensures Framed(e, Cons(Frame(id, keep, body), tail)) == Framed(full, tail)
  {
    hide Headers, OpenBytes, CLOSE_BYTES, Prune, AnySurvives, Survives, Plain;
    var t := Cons(Frame(id, keep, body), tail);
    PruneSurvivor(Frame(id, keep, body), tail);
    var h, o, c := Headers(e.pending), OpenBytes(id), CLOSE_BYTES;
    var b, r := Plain(Prune(body)), Plain(Prune(tail));
    PlainFrame(id, keep, Prune(body), Prune(tail));
    FramedTail(e, h + o + b + c, tail);
    Regroup(e.out, h, o, b, c, r);
  }

  lemma PlainFrame(id: Id, keep: bool, body: Forest, tail: Forest)
    ensures Plain(Cons(Frame(id, keep, body), tail)) == OpenBytes(id) + Plain(body) + CLOSE_BYTES + Plain(tail)
  {}

  /** A frame around a body with something in it, or kept around nothing. */
  lemma FrameCloses(e: Enc, id: Id, keep: bool, body: Forest)
    requires Survives(Frame(id, keep, body))
    ensures var full := Framed(Enc(e.out, e.depth + 1, e.pending + [id]), body);
            Apply(full, if keep then EndKeep else End)
            == Enc(e.out + (Headers(e.pending) + OpenBytes(id) + Plain(Prune(body)) + CLOSE_BYTES), e.depth, [])
  {
    hide Plain, OpenBytes, CLOSE_BYTES, Headers, Prune;
    var h, o, b, c := Headers(e.pending), OpenBytes(id), Plain(Prune(body)), CLOSE_BYTES;
    HeadersMore(e.pending, id);
    NothingPending([]);
    assert [] + c == c;
    if AnySurvives(body) {
      assert e.out + (h + o) + b + c == e.out + (h + o + b + c);
    } else {
      PruneNone(body);
      PlainNil();
      assert e.out + (h + o + c) == e.out + (h + o + b + c);
    }
  }

  lemma FramedFrame(e: Enc, id: Id, keep: bool, body: Forest, tail: Forest)
    ensures var full := Framed(Enc(e.out, e.depth + 1, e.pending + [id]), body);
            Framed(e, Cons(Frame(id, keep, body), tail)) == Framed(Apply(full, if keep then EndKeep else End), tail)
  {
    if Survives(Frame(id, keep, body)) {
      FrameCloses(e, id, keep, body);
      hide Plain, OpenBytes, CLOSE_BYTES, Headers, Prune, Framed, Apply, Owed;
      var full := Framed(Enc(e.out, e.depth + 1, e.pending + [id]), body);
      FramedKept(e, id, keep, body, tail, Apply(full, if keep then EndKeep else End));
    } else {
      hide Plain, OpenBytes, CLOSE_BYTES, Headers, Prune;
      assert (e.pending + [id])[..|e.pending|] == e.pending && e.out + [] == e.out;
      FramedDropped(e, id, body, tail);
    }
  }

  lemma FramedDropped(e: Enc, id: Id, body: Forest, tail: Forest)
    requires !AnySurvives(body)
    ensures Framed(e, Cons(Frame(id, false, body), tail)) == Framed(e, tail)
  {}
  lemma ScriptLeaf(e: Enc, f: Field, tail: Forest)
    ensures ApplyAll(e, Script(Cons(Leaf(f), tail)))
         == if Accepts(e, Put(f)) then ApplyAll(Apply(e, Put(f)), Script(tail)) else None
  {
    hide Apply, Accepts;
    ApplyAppend(e, [Put(f)], Script(tail));
    ApplyOne(e, Put(f));
  }

  lemma ScriptFrame(e: Enc, id: Id, keep: bool, body: Forest, tail: Forest)
    ensures var close := if keep then EndKeep else End;
            ApplyAll(e, Script(Cons(Frame(id, keep, body), tail)))
            == if !Accepts(e, Begin(id)) then None
               else match ApplyAll(Apply(e, Begin(id)), Script(body))
                    case None => None
                    case Some(x) => if Accepts(x, close) then ApplyAll(Apply(x, close), Script(tail)) else None
  {
    hide Apply, Accepts, ApplyAll;
    var close := if keep then EndKeep else End;
    var rest := [close] + Script(tail);
    assert Script(Cons(Frame(id, keep, body), tail)) == [Begin(id)] + (Script(body) + rest);
    ApplyAppend(e, [Begin(id)], Script(body) + rest);
    ApplyOne(e, Begin(id));
    if Accepts(e, Begin(id)) {
      ApplyAppend(Apply(e, Begin(id)), Script(body), rest);
      var x := ApplyAll(Apply(e, Begin(id)), Script(body));
      if x.Some? {
        ApplyAppend(x.value, [close], Script(tail));
        ApplyOne(x.value, close);
      }
    }
  }

  /** Lazy framing: the calls of a tree succeed exactly when the tree is legal, and what they emit is
      the plain encoding of the pruned tree. */
  lemma {:induction false} LazyFraming(t: Forest, e: Enc)
    ensures ApplyAll(e, Script(t)) == if Legal(t, e.depth) then Some(Framed(e, t)) else None
    decreases t
  {
    hide ApplyAll, Script, Framed, FieldOk, Owed;
    match t
    case Nil => FramedNil(e);
    case Cons(Leaf(f), tail) =>
      ScriptLeaf(e, f, tail);
      if FieldOk(f) {
        FramedLeaf(e, f, tail);
        LazyFraming(tail, Apply(e, Put(f)));
      }
    case Cons(Frame(id, keep, body), tail) =>
      ScriptFrame(e, id, keep, body, tail);
      if Accepts(e, Begin(id)) {
        LazyFraming(body, Apply(e, Begin(id)));
        FramedFrame(e, id, keep, body, tail);
        BeginIs(e, id);
        if Legal(body, e.depth + 1) {
          FramedDepth(Apply(e, Begin(id)), body);
          LazyFraming(tail, Apply(Framed(Apply(e, Begin(id)), body), if keep then EndKeep else End));
        }
      }
  }

  lemma FramedNil(e: Enc)
    ensures ApplyAll(e, Script(Nil)) == Some(e) && Framed(e, Nil) == e
  {}

  lemma BeginIs(e: Enc, id: Id)
    requires Accepts(e, Begin(id))
    ensures Apply(e, Begin(id)) == Enc(e.out, e.depth + 1, e.pending + [id])
  {
    assert e.out + [] == e.out;
  }

  lemma FramedDepth(e: Enc, t: Forest)
    ensures Framed(e, t).depth == e.depth
  {}
}

/** The decoder as a one-byte-at-a-time automaton: the meaning of a byte stream.

  It knows nothing of chunks, carries or fast paths, so what it says about a message cannot depend
  on them. `IStream.Feed` is proved to implement it (istream.dfy). */
module Decoder {
  import opened Leb128
  import opened Wire
  import Varint

  // ---- field heads ---------------------------------------------------------------------------

  /** What the words in front of a field's payload announce. */
  datatype Item =
    | Scalar(id: Id, signed: bool, value: bv64)
    | Fix(id: Id, subtype: FixlenType, total: nat)
    | IntElems(id: Id, signed: bool, count: nat)
    | FloatElems(id: Id, fp64: bool, count: nat)
    | Open(id: Id)
    | Close

  /** More bytes are needed, or the bytes are malformed, or a head of `len` bytes stands in front. */
  datatype Head = More | Bad | Done(len: nat, item: Item)

  function ReadHead(s: seq<byte>): (r: Head)
    ensures r.Done? ==> 0 < r.len <= |s|
  {
    match Leb(s)
    case Short => More
    case Over => Bad
    case Value(h, n) =>
      if IdTooBig(NumberOf(h)) then Bad
      else if TagOf(h) == T_SEQUENCE_START then Done(n, Open(ToId(NumberOf(h))))
      else if TagOf(h) == T_SEQUENCE_END then Done(n, Close)
      else ReadSecond(s, n, ToId(NumberOf(h)), TagOf(h))
  }

  /** The head of a field with wire type `tag`, whose header takes `n` bytes. */
  function ReadSecond(s: seq<byte>, n: nat, id: Id, tag: bv64): (r: Head)
    requires 0 < n <= |s|
    ensures r.Done? ==> 0 < r.len <= |s|
  {
    match Leb(s[n..])
    case Short => More
    case Over => Bad
    case Value(w, m) => ReadRest(s, n + m, id, tag, w)
  }

  /** The head of a field with wire type `tag` whose second word is `w`; `k` bytes are read. */
  function ReadRest(s: seq<byte>, k: nat, id: Id, tag: bv64, w: bv64): (r: Head)
    requires 0 < k <= |s|
    ensures r.Done? ==> 0 < r.len <= |s|
  {
    if tag == T_UNSIGNED then Done(k, Scalar(id, false, w))
    else if tag == T_SIGNED then Done(k, Scalar(id, true, Varint.ZigzagDecode(w)))
    else if tag == T_FIXLEN then FixHead(k, id, w)
    else if LenTooBig(w) then Bad
    else if tag == T_ARRAY_UNSIGNED then Done(k, IntElems(id, false, ToLen(w)))
    else if tag == T_ARRAY_SIGNED then Done(k, IntElems(id, true, ToLen(w)))
    else match Leb(s[k..])
      case Short => More
      case Over => Bad
      case Value(f, j) => FloatsHead(k + j, id, w, f)
  }

  function FixHead(k: nat, id: Id, w: bv64): (r: Head)
    ensures !r.More? && (r.Done? ==> r.len == k)
  {
    var len := ToLen(NumberOf(w));
    if LenTooBig(NumberOf(w)) then Bad
    else if TagOf(w) == Tag(Fp32) then if len == 4 then Done(k, Fix(id, Fp32, 4)) else Bad
    else if TagOf(w) == Tag(Fp64) then if len == 8 then Done(k, Fix(id, Fp64, 8)) else Bad
    else if TagOf(w) == Tag(Str) then Done(k, Fix(id, Str, len))
    else if TagOf(w) == Tag(Blob) then Done(k, Fix(id, Blob, len))
    else Bad
  }

  function FloatsHead(k: nat, id: Id, count: bv64, f: bv64): (r: Head)
    ensures !r.More? && (r.Done? ==> r.len == k)
  {
    if TagOf(f) == Tag(Fp32) && NumberOf(f) == 4 then Done(k, FloatElems(id, false, ToLen(count)))
    else if TagOf(f) == Tag(Fp64) && NumberOf(f) == 8 then Done(k, FloatElems(id, true, ToLen(count)))
    else Bad
  }

  // ---- the automaton -------------------------------------------------------------------------

  type pos = n: int | n > 0 witness 1

  /** Where the decoder stands: between or inside field heads with the bytes of an undecided one held,
      or inside a payload or an array with the bytes of an unfinished element held. */
  datatype Phase =
    | Field(held: seq<byte>)
    | Payload(id: Id, blob: bool, total: nat, at: nat)
    | Ints(id: Id, signed: bool, remaining: pos, held: seq<byte>)
    | Floats(id: Id, fp64: bool, remaining: pos, held: seq<byte>)

  datatype State = Rejected | Live(phase: Phase, depth: nat)

  datatype Trace = Trace(st: State, log: seq<Event>)

  const START: State := Live(Field([]), 0)

  function IntsOf(id: Id, signed: bool, remaining: nat): Phase {
    if remaining == 0 then Field([]) else Ints(id, signed, remaining, [])
  }

  function FloatsOf(id: Id, fp64: bool, remaining: nat): Phase {
    if remaining == 0 then Field([]) else Floats(id, fp64, remaining, [])
  }

  function PayloadOf(id: Id, blob: bool, total: nat, at: nat): Phase {
    if at >= total then Field([]) else Payload(id, blob, total, at)
  }

  function IntEvent(id: Id, signed: bool, v: bv64): Event {
    if signed then Signed(id, Varint.ZigzagDecode(v)) else Unsigned(id, v)
  }

  function IntKind(signed: bool): ArrayKind { if signed then Signeds else Unsigneds }
  function FloatKind(fp64: bool): ArrayKind { if fp64 then Fp64s else Fp32s }

  /** What a complete head does. */
  function Announce(item: Item, depth: nat): Trace {
    match item
    case Scalar(id, signed, v) =>
      Trace(Live(Field([]), depth), [if signed then Signed(id, v) else Unsigned(id, v)])
    case Fix(id, subtype, total) =>
      if subtype == Fp32 || subtype == Fp64 then
        Trace(Live(FloatsOf(id, subtype == Fp64, 1), depth), [FixlenBegin(id, subtype, total)])
      else
        Trace(Live(PayloadOf(id, subtype == Blob, total, 0), depth),
              [FixlenBegin(id, subtype, total)] + if total == 0 then [Chunk(id, subtype == Blob, 0, 0, [])] else [])
    case IntElems(id, signed, count) =>
      Trace(Live(IntsOf(id, signed, count), depth), [ArrayBegin(id, IntKind(signed), count)])
    case FloatElems(id, fp64, count) =>
      Trace(Live(FloatsOf(id, fp64, count), depth), [ArrayBegin(id, FloatKind(fp64), count)])
    case Open(id) =>
      if depth >= MAX_DEPTH then Trace(Rejected, []) else Trace(Live(Field([]), depth + 1), [SequenceBegin(id)])
    case Close =>
      if depth == 0 then Trace(Rejected, []) else Trace(Live(Field([]), depth - 1), [SequenceEnd])
  }

  function Step(st: State, b: byte): Trace {
    match st
    case Rejected => Trace(Rejected, [])
    case Live(Field(held), d) =>
      (match ReadHead(held + [b])
       case More => Trace(Live(Field(held + [b]), d), [])
       case Bad => Trace(Rejected, [])
       case Done(_, item) => Announce(item, d))
    case Live(Payload(id, blob, total, at), d) =>
      Trace(Live(PayloadOf(id, blob, total, at + 1), d), [Chunk(id, blob, total, at, [b])])
    case Live(Ints(id, signed, rem, held), d) =>
      (match Leb(held + [b])
       case Short => Trace(Live(Ints(id, signed, rem, held + [b]), d), [])
       case Over => Trace(Rejected, [])
       case Value(v, _) => Trace(Live(IntsOf(id, signed, rem - 1), d), [IntEvent(id, signed, v)]))
    case Live(Floats(id, fp64, rem, held), d) =>
      if |held| + 1 < Width(fp64) then Trace(Live(Floats(id, fp64, rem, held + [b]), d), [])
      else Trace(Live(FloatsOf(id, fp64, rem - 1), d), [Float(id, fp64, held + [b])])
  }

  function Run(st: State, s: seq<byte>): Trace
    decreases |s|
  {
    if s == [] then Trace(st, [])
    else
      var first := Step(st, s[0]);
      var rest := Run(first.st, s[1..]);
      Trace(rest.st, first.log + rest.log)
  }

  lemma RunEmpty(st: State)
    ensures Run(st, []) == Trace(st, [])
  {}

  lemma EmptyHead()
    ensures ReadHead([]).More?
  {}

  lemma EmptyLeb()
    ensures Leb([]).Short?
  {}

  /** A run over a concatenation is the runs over its parts, one after the other. */
  lemma {:induction false} RunAppend(st: State, s: seq<byte>, t: seq<byte>)
    ensures Run(st, s + t) == Trace(Run(Run(st, s).st, t).st, Run(st, s).log + Run(Run(st, s).st, t).log)
    decreases |s|
  {
    hide Step;
    if s == [] {
      assert s + t == t;
    } else {
      assert (s + t)[1..] == s[1..] + t;
      RunAppend(Step(st, s[0]).st, s[1..], t);
    }
  }

  lemma {:induction false} RunRejected(s: seq<byte>)
    ensures Run(Rejected, s) == Trace(Rejected, [])
    decreases |s|
  {
    if s != [] { RunRejected(s[1..]); }
  }

  lemma RunOne(st: State, b: byte)
    ensures Run(st, [b]) == Step(st, b)
  {
    hide Step;
    assert [b][1..] == [];
    assert Run(Step(st, b).st, []) == Trace(Step(st, b).st, []);
  }

  /** A decided head ignores what follows it. */
  lemma HeadDecided(s: seq<byte>, t: seq<byte>)
    requires !ReadHead(s).More?
    ensures ReadHead(s + t) == ReadHead(s)
  {
    hide Leb, IdTooBig, ToId, NumberOf, TagOf, LenTooBig, ToLen, FixHead, FloatsHead;
    Decided(s, t);
    if Leb(s).Value? {
      var n := Leb(s).len;
      assert (s + t)[n..] == s[n..] + t;
      if !Leb(s[n..]).Short? {
        Decided(s[n..], t);
        if Leb(s[n..]).Value? {
          var k := n + Leb(s[n..]).len;
          assert (s + t)[k..] == s[k..] + t;
          if !Leb(s[k..]).Short? { Decided(s[k..], t); }
        }
      }
    }
  }

  /** An undecided head is three varints with the last cut short, at the widest. */
  lemma HeadBound(s: seq<byte>)
    requires ReadHead(s).More?
    ensures |s| <= 29
  {
    hide IdTooBig, ToId, NumberOf, TagOf, LenTooBig, ToLen, FixHead, FloatsHead;
  }

  function Zeros(k: nat): seq<byte> {
    if k == 0 then [0x00] else [0x80] + Zeros(k - 1)
  }

  lemma {:induction false} ZerosRead(k: nat, t: seq<byte>, room: nat)
    requires k < room
    ensures |Zeros(k)| == k + 1 && Leb(Zeros(k) + t, room) == Value(0, k + 1)
    decreases k
  {
    if k > 0 {
      ZerosRead(k - 1, t, room - 1);
      assert (Zeros(k) + t)[1..] == Zeros(k - 1) + t;
    }
  }

  lemma PaddedHeader(t: seq<byte>)
    ensures Leb([0x85] + (Zeros(8) + t)) == Value(5, 10)
    ensures !IdTooBig(NumberOf(5)) && TagOf(5) == T_ARRAY_FIXLEN
  {
    ZerosRead(8, t, 9);
    assert ([0x85] + (Zeros(8) + t))[1..] == Zeros(8) + t;
  }

  lemma NoCount()
    ensures !LenTooBig(0)
  {}

  /** The bound is attained: header and count padded to ten bytes each, the element word cut before its
      last byte. */
  lemma HeadBoundAttained()
    ensures exists s :: |s| == 29 && ReadHead(s).More?
  {
    hide Leb, Zeros, ReadHead;
    var cut: seq<byte> := seq(9, _ => 0x80);
    ShortIff(cut);
    ZerosRead(8, [], 9);
    ZerosRead(9, cut, 10);
    PaddedHead(cut);
    assert ReadHead([0x85] + (Zeros(8) + (Zeros(9) + cut))).More?;
  }

  lemma PaddedHead(cut: seq<byte>)
    requires Leb(cut).Short?
    ensures ReadHead([0x85] + (Zeros(8) + (Zeros(9) + cut))).More?
  {
    var s := [0x85] + (Zeros(8) + (Zeros(9) + cut));
    PaddedHeader(Zeros(9) + cut);
    ZerosRead(8, [], 9);
    ZerosRead(9, cut, 10);
    NoCount();
    hide Leb, Zeros, IdTooBig, NumberOf, TagOf, ToId, LenTooBig, ToLen;
    assert s[10..] == Zeros(9) + cut && s[20..] == cut;
  }

  lemma MarkerHeads()
    ensures ReadHead([0x06]) == Done(1, Open(0)) && ReadHead([0x07]) == Done(1, Close)
  {}

  // ---- several bytes at a time ------------------------------------------------------------------

  /** From a held prefix of a head: still undecided, decided against, or decided by exactly the byte
      that ends the head. */
  lemma {:induction false} RunHead(held: seq<byte>, t: seq<byte>, d: nat)
    requires ReadHead(held).More?
    ensures match ReadHead(held + t)
            case More => Run(Live(Field(held), d), t) == Trace(Live(Field(held + t), d), [])
            case Bad => Run(Live(Field(held), d), t) == Trace(Rejected, [])
            case Done(n, item) => n > |held| && Run(Live(Field(held), d), t[..n - |held|]) == Announce(item, d)
    decreases |t|
  {
    hide ReadHead, Announce;
    if t == [] {
      assert held + t == held;
    } else {
      var h1, t1 := held + [t[0]], t[1..];
      assert held + t == h1 + t1;
      if ReadHead(h1).More? {
        RunHead(h1, t1, d);
        if ReadHead(held + t).Done? {
          var n := ReadHead(held + t).len;
          assert t[..n - |held|][1..] == t1[..n - |h1|];
        }
      } else {
        HeadDecided(h1, t1);
        RunRejected(t1);
        if ReadHead(h1).Done? {
          HeadLength(held, t[0]);
          assert t[..1] == [t[0]];
          RunOne(Live(Field(held), d), t[0]);
        }
      }
    }
  }

  lemma HeadLength(held: seq<byte>, b: byte)
    requires ReadHead(held).More? && ReadHead(held + [b]).Done?
    ensures ReadHead(held + [b]).len == |held| + 1
  {
    assert (held + [b])[..|held|] == held;
    if ReadHead(held + [b]).len <= |held| {
      HeadExact(held + [b], |held|);
    }
  }

  /** A head is decided by its own bytes. */
  lemma HeadExact(s: seq<byte>, k: nat)
    requires ReadHead(s).Done? && ReadHead(s).len <= k <= |s|
    ensures ReadHead(s[..k]) == ReadHead(s)
  {
    hide Leb, IdTooBig, ToId, NumberOf, TagOf, LenTooBig, ToLen, FixHead, FloatsHead;
    var n := Leb(s).len;
    Exact(s, k);
    if n < ReadHead(s).len {
      assert s[..k][n..] == s[n..][..k - n];
      Exact(s[n..], k - n);
      var j := n + Leb(s[n..]).len;
      if j < ReadHead(s).len {
        assert s[..k][j..] == s[j..][..k - j];
        Exact(s[j..], k - j);
      }
    }
  }

  /** An array element from the bytes held of it on. */
  lemma {:induction false} RunInt(id: Id, signed: bool, rem: pos, held: seq<byte>, t: seq<byte>, d: nat)
    requires Leb(held).Short?
    ensures var st := Live(Ints(id, signed, rem, held), d);
            match Leb(held + t)
            case Short => Run(st, t) == Trace(Live(Ints(id, signed, rem, held + t), d), [])
            case Over => Run(st, t) == Trace(Rejected, [])
            case Value(v, n) => n > |held| && Run(st, t[..n - |held|])
                                == Trace(Live(IntsOf(id, signed, rem - 1), d), [IntEvent(id, signed, v)])
    decreases |t|
  {
    hide Leb, IntEvent, IntsOf;
    if t == [] {
      assert held + t == held;
    } else {
      var h1, t1 := held + [t[0]], t[1..];
      assert held + t == h1 + t1;
      if Leb(h1).Short? {
        RunInt(id, signed, rem, h1, t1, d);
        if Leb(held + t).Value? {
          var n := Leb(held + t).len;
          assert t[..n - |held|][1..] == t1[..n - |h1|];
        }
      } else {
        Decided(h1, t1);
        RunRejected(t1);
        if Leb(h1).Value? {
          IntLength(held, t[0]);
          assert t[..1] == [t[0]];
          RunOne(Live(Ints(id, signed, rem, held), d), t[0]);
        }
      }
    }
  }

  lemma IntLength(held: seq<byte>, b: byte)
    requires Leb(held).Short? && Leb(held + [b]).Value?
    ensures Leb(held + [b]).len == |held| + 1
  {
    hide Leb;
    assert (held + [b])[..|held|] == held;
    if Leb(held + [b]).len <= |held| {
      Exact(held + [b], |held|);
    }
  }

  lemma {:induction false} RunFloat(id: Id, fp64: bool, rem: pos, held: seq<byte>, t: seq<byte>, d: nat)
    requires |held| < Width(fp64)
    ensures var st := Live(Floats(id, fp64, rem, held), d);
            if |held + t| < Width(fp64) then Run(st, t) == Trace(Live(Floats(id, fp64, rem, held + t), d), [])
            else Run(st, t[..Width(fp64) - |held|])
                 == Trace(Live(FloatsOf(id, fp64, rem - 1), d), [Float(id, fp64, (held + t)[..Width(fp64)])])
    decreases |t|
  {
    if t == [] {
      assert held + t == held;
    } else {
      var h1, t1 := held + [t[0]], t[1..];
      assert held + t == h1 + t1;
      if |h1| < Width(fp64) {
        RunFloat(id, fp64, rem, h1, t1, d);
        assert |held + t| >= Width(fp64) ==> t[..Width(fp64) - |held|][1..] == t1[..Width(fp64) - |h1|];
      } else {
        assert t[..1] == [t[0]] && (h1 + t1)[..Width(fp64)] == h1;
        RunOne(Live(Floats(id, fp64, rem, held), d), t[0]);
      }
    }
  }

  // ---- payload chunks -----------------------------------------------------------------------------

  /** A payload chunk byte by byte; an empty chunk stays as it is. */
  function Explode(e: Event): seq<Event> {
    match e
    case Chunk(id, blob, total, offset, bytes) =>
      if bytes == [] then [e]
      else seq(|bytes|, i requires 0 <= i < |bytes| => Chunk(id, blob, total, offset + i, [bytes[i]]))
    case _ => [e]
  }

  /** A callback log without the accident of how its payloads were cut. */
  function Flatten(log: seq<Event>): seq<Event> {
    if log == [] then [] else Flatten(log[..|log| - 1]) + Explode(log[|log| - 1])
  }

  lemma FlattenMore(log: seq<Event>, e: Event)
    ensures Flatten(log + [e]) == Flatten(log) + Explode(e)
  {
    assert (log + [e])[..|log|] == log;
  }

  lemma {:induction false} RunPayload(id: Id, blob: bool, total: nat, at: nat, t: seq<byte>, d: nat)
    requires t != [] && at + |t| <= total
    ensures Run(Live(Payload(id, blob, total, at), d), t)
         == Trace(Live(PayloadOf(id, blob, total, at + |t|), d), Explode(Chunk(id, blob, total, at, t)))
    decreases |t|
  {
    if |t| == 1 {
      assert t == [t[0]];
      RunOne(Live(Payload(id, blob, total, at), d), t[0]);
    } else {
      RunPayload(id, blob, total, at + 1, t[1..], d);
      assert Explode(Chunk(id, blob, total, at, t))
          == [Chunk(id, blob, total, at, [t[0]])] + Explode(Chunk(id, blob, total, at + 1, t[1..]));
    }
  }
}

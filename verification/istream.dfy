/** The streaming decoder of src/istream.rs: carry, resume state, depth and the INVALID latch. */
module IStream {
  import opened Leb128
  import opened Wire
  import opened Decoder
  import Varint

  /** A chunk that is not a payload's one and only. */
  predicate Piece(e: Event) { e.Chunk? && (e.offset != 0 || |e.bytes| != e.total) }

  function Pieces(log: seq<Event>): nat {
    if log == [] then 0 else Pieces(log[..|log| - 1]) + if Piece(log[|log| - 1]) then 1 else 0
  }

  lemma PiecesMore(log: seq<Event>, e: Event)
    ensures Pieces(log + [e]) == Pieces(log) + if Piece(e) then 1 else 0
  {
    assert (log + [e])[..|log|] == log;
  }

  lemma {:induction false} NoPieces(log: seq<Event>)
    ensures Pieces(log) == 0 <==> forall e | e in log :: !Piece(e)
    decreases |log|
  {
    if log != [] {
      NoPieces(log[..|log| - 1]);
      assert log == log[..|log| - 1] + [log[|log| - 1]];
    }
  }

  /** Records every callback, in order. */
  class Visitor {
    var log: seq<Event>

    constructor ()
      ensures log == [] && Flat() == [] && Torn() == 0
    {
      log := [];
    }

    ghost function Flat(): seq<Event>
      reads this
    {
      Flatten(log)
    }

    ghost function Torn(): nat
      reads this
    {
      Pieces(log)
    }

    method Call(e: Event)
      modifies this
      ensures log == old(log) + [e] && Flat() == old(Flat()) + Explode(e)
      ensures Torn() == old(Torn()) + if Piece(e) then 1 else 0
    {
      PiecesMore(log, e);
      log := log + [e];
      FlattenMore(old(log), e);
    }
  }

  datatype Status = Complete | Incomplete

  /** The long item that a chunk boundary fell into, if it fell into one. */
  datatype Resume =
    | Nothing
    | PayloadRest(id: Id, blob: bool, total: nat, remaining: pos)
    | ArrayInt(id: Id, signed: bool, remaining: pos)
    | ArrayFix(id: Id, fp64: bool, remaining: pos)

  /** A turn of the field loop completes a field or runs out inside one. */
  datatype Turn = Next(pos: nat) | Stop(pos: nat)

  predicate ResumeOk(r: Resume) { r.PayloadRest? ==> r.remaining <= r.total }

  function PhaseOf(r: Resume, held: seq<byte>): Phase
    requires ResumeOk(r)
  {
    match r
    case Nothing => Field(held)
    case PayloadRest(id, blob, total, rem) => Payload(id, blob, total, total - rem)
    case ArrayInt(id, signed, rem) => Ints(id, signed, rem, held)
    case ArrayFix(id, fp64, rem) => Floats(id, fp64, rem, held)
  }

  /** The bytes that can be held under a resume state: never a decided item. */
  predicate Undecided(r: Resume, held: seq<byte>) {
    match r
    case Nothing => ReadHead(held).More?
    case PayloadRest(_, _, _, _) => held == []
    case ArrayInt(_, _, _) => Leb(held).Short?
    case ArrayFix(_, fp64, _) => |held| < Width(fp64)
  }

  /** Consuming `s` from `st0` leads to `st1` and to the callbacks between the two logs. */
  ghost predicate Advances(st0: State, s: seq<byte>, st1: State, flat0: seq<Event>, flat1: seq<Event>) {
    Run(st0, s).st == st1 && flat1 == flat0 + Run(st0, s).log
  }

  lemma AdvancesNone(st: State, s: seq<byte>, flat: seq<Event>)
    requires s == []
    ensures Advances(st, s, st, flat, flat)
  {
    hide Step;
    assert flat + [] == flat;
  }

  lemma AdvancesOn(buf: seq<byte>, a: nat, b: nat, c: nat, st0: State, st1: State, st2: State,
                   flat0: seq<Event>, flat1: seq<Event>, flat2: seq<Event>)
    requires a <= b <= c <= |buf|
    requires Advances(st0, buf[a..b], st1, flat0, flat1) && Advances(st1, buf[b..c], st2, flat1, flat2)
    ensures Advances(st0, buf[a..c], st2, flat0, flat2)
  {
    hide Run;
    assert buf[a..c] == buf[a..b] + buf[b..c];
    RunAppend(st0, buf[a..b], buf[b..c]);
    var l0, l1 := Run(st0, buf[a..b]).log, Run(st1, buf[b..c]).log;
    assert flat0 + l0 + l1 == flat0 + (l0 + l1);
  }

  lemma FloatTurn(id: Id, fp64: bool, rem: pos, buf: seq<byte>, p: nat, d: nat, flat: seq<Event>)
    requires p + Width(fp64) <= |buf|
    ensures var e := Float(id, fp64, buf[p..p + Width(fp64)]);
            Advances(Live(FloatsOf(id, fp64, rem), d), buf[p..p + Width(fp64)], Live(FloatsOf(id, fp64, rem - 1), d),
                     flat, flat + Explode(e))
  {
    hide Run;
    RunFloat(id, fp64, rem, [], buf[p..], d);
    assert [] + buf[p..] == buf[p..] && buf[p..][..Width(fp64)] == buf[p..p + Width(fp64)];
  }

  lemma IntTurn(id: Id, signed: bool, rem: pos, buf: seq<byte>, p: nat, d: nat, flat: seq<Event>)
    requires p <= |buf|
    ensures match Leb(buf[p..])
            case Value(x, n) => Advances(Live(IntsOf(id, signed, rem), d), buf[p..p + n],
              Live(IntsOf(id, signed, rem - 1), d),
                                         flat, flat + Explode(IntEvent(id, signed, x)))
            case Over => Advances(Live(IntsOf(id, signed, rem), d), buf[p..], Rejected, flat, flat)
            case Short => true
  {
    hide Run, Leb;
    EmptyLeb();
    RunInt(id, signed, rem, [], buf[p..], d);
    assert [] + buf[p..] == buf[p..];
    if Leb(buf[p..]).Value? { assert buf[p..][..Leb(buf[p..]).len] == buf[p..p + Leb(buf[p..]).len]; }
    assert flat + [] == flat;
  }

  /** One field head, from a field boundary. */
  lemma HeadTurn(buf: seq<byte>, p: nat, d: nat, flat: seq<Event>)
    requires p <= |buf|
    ensures match ReadHead(buf[p..])
            case Done(n, item) => p + n <= |buf|
              && Advances(Live(Field([]), d), buf[p..p + n], Announce(item, d).st, flat,
                                                            flat + Announce(item, d).log)
            case Bad => Advances(Live(Field([]), d), buf[p..], Rejected, flat, flat)
            case More => true
  {
    hide Run, ReadHead, Announce;
    EmptyHead();
    RunHead([], buf[p..], d);
    assert [] + buf[p..] == buf[p..] && flat + [] == flat;
    if ReadHead(buf[p..]).Done? { assert buf[p..][..ReadHead(buf[p..]).len] == buf[p..p + ReadHead(buf[p..]).len]; }
  }

  /** The announcement of a head, as the callbacks and the state it leaves. */
  lemma ItemTurn(buf: seq<byte>, start: nat, p: nat, item: Item, d: nat, flat: seq<Event>)
    requires start < p <= |buf| && ReadHead(buf[start..]) == Done(p - start, item)
    ensures var st0 := Live(Field([]), d);
            match item
            case Open(id) =>
              if d >= MAX_DEPTH then Advances(st0, buf[start..], Rejected, flat, flat)
              else Advances(st0, buf[start..p], Live(Field([]), d + 1), flat, flat + Explode(SequenceBegin(id)))
            case Close =>
              if d == 0 then Advances(st0, buf[start..], Rejected, flat, flat)
              else Advances(st0, buf[start..p], Live(Field([]), d - 1), flat, flat + Explode(SequenceEnd))
            case IntElems(id, signed, count) =>
              Advances(st0, buf[start..p], Live(IntsOf(id, signed, count), d), flat,
                       flat + Explode(ArrayBegin(id, IntKind(signed), count)))
            case FloatElems(id, fp64, count) =>
              Advances(st0, buf[start..p], Live(FloatsOf(id, fp64, count), d), flat,
                       flat + Explode(ArrayBegin(id, FloatKind(fp64), count)))
            case _ => Advances(st0, buf[start..p], Announce(item, d).st, flat, flat + Announce(item, d).log)
  {
    HeadTurn(buf, start, d, flat);
    hide Run, ReadHead, Advances;
    assert flat + [] == flat;
    if Announce(item, d).st == Rejected {
      RejectedRest(buf, start, p, Live(Field([]), d), flat, flat);
    }
  }

  lemma AnnouncePayload(id: Id, subtype: FixlenType, len: nat, d: nat)
    requires subtype == Str || subtype == Blob
    ensures Announce(Fix(id, subtype, len), d)
         == Trace(Live(PayloadOf(id, subtype == Blob, len, 0), d),
                  if len == 0 then [FixlenBegin(id, subtype, 0), Chunk(id, subtype == Blob, 0, 0, [])]
                  else [FixlenBegin(id, subtype, len)])
  {
    assert [FixlenBegin(id, subtype, len)] + [] == [FixlenBegin(id, subtype, len)];
  }

  /** A string or blob field that is all in the buffer, or only begins there. */
  lemma PayloadStart(buf: seq<byte>, start: nat, q: nat, id: Id, subtype: FixlenType, len: nat, d: nat,
          flat: seq<Event>)
    requires start < q <= |buf| && (subtype == Str || subtype == Blob)
    requires ReadHead(buf[start..]) == Done(q - start, Fix(id, subtype, len))
    ensures var flat1 := flat + Explode(FixlenBegin(id, subtype, len));
            if |buf| - q >= len then
              Advances(Live(Field([]), d), buf[start..q + len], Live(Field([]), d), flat,
                       flat1 + Explode(Chunk(id, subtype == Blob, len, 0, buf[q..q + len])))
            else
              Advances(Live(Field([]), d), buf[start..q], Live(Payload(id, subtype == Blob, len, 0), d), flat, flat1)
  {
    hide Run, Advances, ReadHead, Explode, Announce;
    var e := FixlenBegin(id, subtype, len);
    HeadTurn(buf, start, d, flat);
    AnnouncePayload(id, subtype, len, d);
    PlainExplode(e);
    var flat1 := flat + [e];
    if len == 0 {
      var c := Chunk(id, subtype == Blob, 0, 0, []);
      assert buf[q..q + len] == [];
      PlainExplode(c);
      AppendOne(flat, e, c);
    } else if |buf| - q >= len {
      PayloadTurn(id, subtype == Blob, len, 0, buf, q, q + len, d, flat1);
      AdvancesOn(buf, start, q, q + len, Live(Field([]), d), Live(Payload(id, subtype == Blob, len, 0), d),
                 Live(Field([]), d), flat, flat1, flat1 + Explode(Chunk(id, subtype == Blob, len, 0, buf[q..q + len])));
    }
  }

  lemma RejectedRest(buf: seq<byte>, p: nat, q: nat, st: State, flat0: seq<Event>, flat1: seq<Event>)
    requires p <= q <= |buf| && Advances(st, buf[p..q], Rejected, flat0, flat1)
    ensures Advances(st, buf[p..], Rejected, flat0, flat1)
  {
    RunRejected(buf[q..]);
    assert flat1 + [] == flat1;
    hide Run;
    IntStop(buf, p, q, st, Rejected, flat0, flat1);
  }

  lemma PlainExplode(e: Event)
    ensures !e.Chunk? || |e.bytes| == 0 ==> Explode(e) == [e]
  {}

  lemma AppendOne<T>(s: seq<T>, a: T, b: T)
    ensures s + [a] + [b] == s + [a, b]
  {}

  lemma PayloadTurn(id: Id, blob: bool, total: nat, at: nat, buf: seq<byte>, p: nat, q: nat, d: nat, flat: seq<Event>)
    requires p < q <= |buf| && at + q - p <= total
    ensures var e := Chunk(id, blob, total, at, buf[p..q]);
            Advances(Live(Payload(id, blob, total, at), d), buf[p..q], Live(PayloadOf(id, blob, total, at + q - p), d),
                     flat, flat + Explode(e))
  {
    hide Run, Explode;
    RunPayload(id, blob, total, at, buf[p..q], d);
  }

  /** Held bytes are exactly the bytes the automaton holds. */
  lemma HeldRun(r: Resume, held: seq<byte>, d: nat)
    requires ResumeOk(r) && Undecided(r, held)
    ensures Run(Live(PhaseOf(r, []), d), held) == Trace(Live(PhaseOf(r, held), d), [])
  {
    hide Leb, ReadHead, Step;
    assert [] + held == held;
    match r
    case Nothing => EmptyHead(); RunHead([], held, d);
    case PayloadRest(_, _, _, _) =>
    case ArrayInt(id, signed, rem) => EmptyLeb(); RunInt(id, signed, rem, [], held, d);
    case ArrayFix(id, fp64, rem) => RunFloat(id, fp64, rem, [], held, d);
  }

  lemma UndecidedPrefix(r: Resume, held: seq<byte>, k: nat)
    requires Undecided(r, held) && k <= |held|
    ensures Undecided(r, held[..k])
  {
    hide Leb, ReadHead;
    assert held[..k] + held[k..] == held;
    if r.Nothing? && !ReadHead(held[..k]).More? { HeadDecided(held[..k], held[k..]); }
    if r.ArrayInt? && !Leb(held[..k]).Short? { Decided(held[..k], held[k..]); }
  }

  const CARRY_CAP: nat := 30

  /** Thirty stitched bytes always complete or reject the item they belong to. */
  lemma CarryBound(r: Resume, held: seq<byte>)
    requires Undecided(r, held)
    ensures |held| < CARRY_CAP && (r.ArrayInt? ==> |held| < MAX_VARINT_LEN)
  {
    hide ReadHead, Leb;
    if r.Nothing? { HeadBound(held); }
  }

  class IStream {
    const carry: array<byte>
    var carryLen: nat
    var resume: Resume
    var depth: nat
    var invalid: bool

    /** The carry invariant, for every reachable state. */
    ghost predicate Valid()
      reads this, carry
    {
      && carry.Length == CARRY_CAP && carryLen < CARRY_CAP && ResumeOk(resume) && depth <= MAX_DEPTH
      && if invalid then resume == Nothing else Undecided(resume, carry[..carryLen])
    }

    /** The automaton state this decoder stands for. */
    ghost function Abs(): State
      requires Valid()
      reads this, carry
    {
      if invalid then Rejected else Live(PhaseOf(resume, carry[..carryLen]), depth)
    }

    /** The same without the carry: what `Parse` works on. */
    ghost function Here(): State
      requires ResumeOk(resume)
      reads this
    {
      Live(PhaseOf(resume, []), depth)
    }

    constructor ()
      ensures Valid() && fresh(carry) && Abs() == START
    {
      carry := new byte[CARRY_CAP];
      carryLen, resume, depth, invalid := 0, Nothing, 0, false;
      new;
      EmptyHead();
      assert carry[..0] == [];
    }

    method Reset()
      requires Valid()
      modifies this
      ensures Valid() && Abs() == START
    {
      carryLen, resume, depth, invalid := 0, Nothing, 0, false;
      EmptyHead();
      assert carry[..0] == [];
    }

    method DeliverPayload(buf: seq<byte>, pos: nat, v: Visitor) returns (p: nat)
      requires pos <= |buf| && resume.PayloadRest? && ResumeOk(resume)
      modifies this`resume, v
      ensures pos <= p <= |buf| && ResumeOk(resume)
      ensures Advances(old(Here()), buf[pos..p], Here(), old(v.Flat()), v.Flat())
      ensures resume == Nothing || (resume.PayloadRest? && p == |buf|)
      ensures |buf| - pos < old(resume.remaining) ==> resume != Nothing
      ensures v.Torn() <= old(v.Torn()) + 1
      ensures v.log == old(v.log)
              + var n := if |buf| - pos < old(resume.remaining) then |buf| - pos else old(resume.remaining);
                if n == 0 then []
                else [Chunk(old(resume.id), old(resume.blob), old(resume.total), old(resume.total - resume.remaining),
                  buf[pos..pos + n])]
    {
      hide Run, Explode, Pieces;
      p := pos;
      var PayloadRest(id, blob, total, remaining) := resume;
      var avail := if |buf| - pos < remaining then |buf| - pos else remaining;
      if avail > 0 {
        PayloadTurn(id, blob, total, total - remaining, buf, pos, pos + avail, depth, v.Flat());
        v.Call(Chunk(id, blob, total, total - remaining, buf[pos..pos + avail]));
        p := pos + avail;
        resume := if remaining == avail then Nothing else PayloadRest(id, blob, total, remaining - avail);
      } else {
        AdvancesNone(Here(), buf[pos..p], v.Flat());
      }
    }

    method FixArray(fp64: bool, buf: seq<byte>, pos: nat, id: Id, count: nat, v: Visitor) returns (p: nat)
      requires pos <= |buf| && resume == Nothing
      modifies this`resume, v
      ensures pos <= p <= |buf| && ResumeOk(resume)
      ensures Advances(Live(FloatsOf(id, fp64, count), depth), buf[pos..p], Here(), old(v.Flat()), v.Flat())
      ensures resume == Nothing || Undecided(resume, buf[p..])
      ensures v.Torn() == old(v.Torn()) && !resume.PayloadRest?
    {
      hide Run, Advances, Explode, Leb, ReadHead, Pieces, Flatten;
      p := pos;
      var rem := count;
      AdvancesNone(Live(FloatsOf(id, fp64, count), depth), buf[pos..p], v.Flat());
      while rem > 0
        invariant pos <= p <= |buf| && resume == Nothing && v.Torn() == old(v.Torn())
        invariant Advances(Live(FloatsOf(id, fp64, count), depth), buf[pos..p], Live(FloatsOf(id, fp64, rem), depth),
                           old(v.Flat()), v.Flat())
      {
        if |buf| - p < Width(fp64) {
          resume := ArrayFix(id, fp64, rem);
          return;
        }
        ghost var flat := v.Flat();
        FloatTurn(id, fp64, rem, buf, p, depth, flat);
        v.Call(Float(id, fp64, buf[p..p + Width(fp64)]));
        AdvancesOn(buf, pos, p, p + Width(fp64), Live(FloatsOf(id, fp64, count), depth),
          Live(FloatsOf(id, fp64, rem), depth),
                   Live(FloatsOf(id, fp64, rem - 1), depth), old(v.Flat()), flat, v.Flat());
        p := p + Width(fp64);
        rem := rem - 1;
      }
    }

    method IntArray(signed: bool, buf: seq<byte>, pos: nat, id: Id, count: nat, v: Visitor) returns (r: Result<nat>)
      requires pos <= |buf| && resume == Nothing
      modifies this`resume, v
      ensures ResumeOk(resume)
      ensures match r
              case Ok(p) =>
                && pos <= p <= |buf|
                && Advances(Live(IntsOf(id, signed, count), depth), buf[pos..p], Here(), old(v.Flat()), v.Flat())
                && (resume == Nothing || Undecided(resume, buf[p..]))
              case Err(e) =>
                && e == InvalidMsg && resume == Nothing
                && Advances(Live(IntsOf(id, signed, count), depth), buf[pos..], Rejected, old(v.Flat()), v.Flat())
      ensures v.Torn() == old(v.Torn()) && !resume.PayloadRest?
    {
      hide Run, Advances, Explode, Leb, ReadHead, Pieces, Flatten;
      var p, rem := pos, count;
      ghost var st0 := Live(IntsOf(id, signed, count), depth);
      AdvancesNone(st0, buf[pos..p], v.Flat());
      while rem > 0 && p + MAX_VARINT_LEN <= |buf|
        invariant pos <= p <= |buf| && resume == Nothing && v.Torn() == old(v.Torn())
        invariant Advances(st0, buf[pos..p], Live(IntsOf(id, signed, rem), depth), old(v.Flat()), v.Flat())
        decreases rem
      {
        var x, q := Varint.ReadVarintReady(buf, p);
        IntTurn(id, signed, rem, buf, p, depth, v.Flat());
        ghost var flat := v.Flat();
        if x.Err? {
          IntStop(buf, pos, p, st0, Live(IntsOf(id, signed, rem), depth), old(v.Flat()), v.Flat());
          return Err(x.error);
        }
        v.Call(IntEvent(id, signed, x.value));
        AdvancesOn(buf, pos, p, q, st0, Live(IntsOf(id, signed, rem), depth), Live(IntsOf(id, signed, rem - 1), depth),
                   old(v.Flat()), flat, v.Flat());
        p := q;
        rem := rem - 1;
      }
      while rem > 0
        invariant pos <= p <= |buf| && resume == Nothing && v.Torn() == old(v.Torn())
        invariant Advances(st0, buf[pos..p], Live(IntsOf(id, signed, rem), depth), old(v.Flat()), v.Flat())
        decreases rem
      {
        var x, q := Varint.ReadVarint(buf, p);
        IntTurn(id, signed, rem, buf, p, depth, v.Flat());
        ghost var flat := v.Flat();
        if x.Err? {
          IntStop(buf, pos, p, st0, Live(IntsOf(id, signed, rem), depth), old(v.Flat()), v.Flat());
          return Err(x.error);
        }
        if x.value.None? {
          resume := ArrayInt(id, signed, rem);
          return Ok(p);
        }
        v.Call(IntEvent(id, signed, x.value.value));
        AdvancesOn(buf, pos, p, q, st0, Live(IntsOf(id, signed, rem), depth), Live(IntsOf(id, signed, rem - 1), depth),
                   old(v.Flat()), flat, v.Flat());
        p := q;
        rem := rem - 1;
      }
      return Ok(p);
    }

    /** What one turn of the field loop comes to, from a field boundary at `start`. */
    ghost predicate Parsed(buf: seq<byte>, start: nat, r: Result<Turn>, d0: nat, flat0: seq<Event>, flat1: seq<Event>)
      requires start <= |buf|
      reads this
    {
      ResumeOk(resume) &&
      match r
      case Ok(Next(p)) =>
        start < p <= |buf| && resume == Nothing && Advances(Live(Field([]), d0), buf[start..p], Here(), flat0, flat1)
      case Ok(Stop(p)) =>
        start <= p <= |buf| && Undecided(resume, buf[p..])
          && Advances(Live(Field([]), d0), buf[start..p], Here(), flat0, flat1)
      case Err(e) =>
        e == InvalidMsg && resume == Nothing && Advances(Live(Field([]), d0), buf[start..], Rejected, flat0, flat1)
    }

    /** A sequence marker: the two wire types whose head is the header alone. */
    method ParseSequence(buf: seq<byte>, start: nat, p: nat, id: Id, open: bool, v: Visitor) returns (r: Result<Turn>)
      requires start < p <= |buf| && resume == Nothing
      requires ReadHead(buf[start..]) == Done(p - start, if open then Open(id) else Close)
      modifies this`depth, v
      ensures Parsed(buf, start, r, old(depth), old(v.Flat()), v.Flat())
      ensures old(depth) <= MAX_DEPTH ==> depth <= MAX_DEPTH
      ensures v.Torn() == old(v.Torn())
    {
      hide Run, Advances, ReadHead, Explode, Announce, Pieces;
      if open {
        ItemTurn(buf, start, p, Open(id), depth, v.Flat());
        if depth >= MAX_DEPTH { return Err(InvalidMsg); }
        depth := depth + 1;
        v.Call(SequenceBegin(id));
      } else {
        ItemTurn(buf, start, p, Close, depth, v.Flat());
        if depth == 0 { return Err(InvalidMsg); }
        depth := depth - 1;
        v.Call(SequenceEnd);
      }
      return Ok(Next(p));
    }

    method ParseScalar(buf: seq<byte>, start: nat, p: nat, id: Id, signed: bool, v: Visitor) returns (r: Result<Turn>)
      requires start < p <= |buf| && resume == Nothing
      requires ReadHead(buf[start..])
            == ReadSecond(buf[start..], p - start, id, if signed then T_SIGNED else T_UNSIGNED)
      modifies v
      ensures Parsed(buf, start, r, depth, old(v.Flat()), v.Flat())
      ensures v.Torn() == old(v.Torn())
    {
      hide Run, Advances, ReadHead, Leb, Explode, Pieces, Flatten, LenTooBig, ToLen, FixHead, FloatsHead;
      hide Varint.ZigzagDecode;
      HeadTurn(buf, start, depth, v.Flat());
      assert buf[start..][p - start..] == buf[p..];
      var x, q := Varint.ReadVarint(buf, p);
      if x.Err? { return Err(x.error); }
      if x.value.None? {
        AdvancesNone(Here(), buf[start..start], v.Flat());
        return Ok(Stop(start));
      }
      var e := IntEvent(id, signed, x.value.value);
      PlainExplode(e);
      v.Call(e);
      return Ok(Next(q));
    }

    /** A scalar fixlen field, past its header. */
    method ParseFixlen(buf: seq<byte>, start: nat, p: nat, id: Id, v: Visitor) returns (r: Result<Turn>)
      requires start < p <= |buf| && resume == Nothing
      requires ReadHead(buf[start..]) == ReadSecond(buf[start..], p - start, id, T_FIXLEN)
      modifies this`resume, v
      ensures Parsed(buf, start, r, depth, old(v.Flat()), v.Flat())
      ensures v.Torn() <= old(v.Torn()) + if resume.PayloadRest? then 1 else 0
    {
      hide Run, Advances, ReadHead, Leb, Explode, LenTooBig, ToLen, NumberOf, TagOf, Pieces;
      HeadTurn(buf, start, depth, v.Flat());
      assert buf[start..][p - start..] == buf[p..];
      var x, q := Varint.ReadVarint(buf, p);
      if x.Err? { return Err(x.error); }
      if x.value.None? {
        AdvancesNone(Here(), buf[start..start], v.Flat());
        return Ok(Stop(start));
      }
      var word := x.value.value;
      if LenTooBig(NumberOf(word)) { return Err(InvalidMsg); }
      var len := ToLen(NumberOf(word));
      var tag := TagOf(word);
      if tag == Tag(Fp32) {
        if len != 4 { return Err(InvalidMsg); }
        r := ParseFloat(buf, start, q, id, Fp32, v);
      } else if tag == Tag(Fp64) {
        if len != 8 { return Err(InvalidMsg); }
        r := ParseFloat(buf, start, q, id, Fp64, v);
      } else if tag == Tag(Str) {
        r := ParsePayload(buf, start, q, id, Str, len, v);
      } else if tag == Tag(Blob) {
        r := ParsePayload(buf, start, q, id, Blob, len, v);
      } else {
        return Err(InvalidMsg);
      }
    }

    /** A scalar float: announced, then a fixed-width run of one element. */
    method ParseFloat(buf: seq<byte>, start: nat, q: nat, id: Id, subtype: FixlenType, v: Visitor)
      returns (r: Result<Turn>)
      requires start < q <= |buf| && resume == Nothing && (subtype == Fp32 || subtype == Fp64)
      requires ReadHead(buf[start..]) == Done(q - start, Fix(id, subtype, Width(subtype == Fp64)))
      modifies this`resume, v
      ensures Parsed(buf, start, r, depth, old(v.Flat()), v.Flat())
      ensures v.Torn() == old(v.Torn())
    {
      hide Run, Advances, ReadHead, Leb, Explode, Pieces;
      HeadTurn(buf, start, depth, v.Flat());
      var e := FixlenBegin(id, subtype, Width(subtype == Fp64));
      PlainExplode(e);
      v.Call(e);
      r := AfterFloats(buf, start, q, id, subtype == Fp64, 1, old(v.Flat()), v);
    }

    method ParsePayload(buf: seq<byte>, start: nat, q: nat, id: Id, subtype: FixlenType, len: nat, v: Visitor)
      returns (r: Result<Turn>)
      requires start < q <= |buf| && resume == Nothing && (subtype == Str || subtype == Blob)
      requires ReadHead(buf[start..]) == Done(q - start, Fix(id, subtype, len))
      modifies this`resume, v
      ensures Parsed(buf, start, r, depth, old(v.Flat()), v.Flat())
      ensures v.Torn() <= old(v.Torn()) + if resume.PayloadRest? then 1 else 0
      ensures |buf| - q >= len ==>
                v.log == old(v.log) + [FixlenBegin(id, subtype, len), Chunk(id, subtype
                  == Blob, len, 0, buf[q..q + len])]
    {
      hide Run, Advances, ReadHead, Leb, Explode, Announce, Flatten;
      PayloadStart(buf, start, q, id, subtype, len, depth, v.Flat());
      ghost var flat0 := v.Flat();
      v.Call(FixlenBegin(id, subtype, len));
      if |buf| - q >= len {
        v.Call(Chunk(id, subtype == Blob, len, 0, buf[q..q + len]));
        return Ok(Next(q + len));
      }
      ghost var flat1 := v.Flat();
      resume := PayloadRest(id, subtype == Blob, len, len);
      ghost var st1 := Here();
      var p := DeliverPayload(buf, q, v);
      AdvancesOn(buf, start, q, p, Live(Field([]), depth), st1, Here(), flat0, flat1, v.Flat());
      return Ok(Stop(p));
    }

    /** The elements of a float array, or a scalar float, behind its announcement. */
    method AfterFloats(buf: seq<byte>, start: nat, q: nat, id: Id, fp64: bool, count: nat, ghost flat0: seq<Event>,
            v: Visitor)
      returns (r: Result<Turn>)
      requires start < q <= |buf| && resume == Nothing
      requires Advances(Live(Field([]), depth), buf[start..q], Live(FloatsOf(id, fp64, count), depth), flat0, v.Flat())
      modifies this`resume, v
      ensures Parsed(buf, start, r, depth, flat0, v.Flat())
      ensures v.Torn() == old(v.Torn())
    {
      hide Run, Advances, ReadHead, Leb, Pieces;
      ghost var flat1 := v.Flat();
      var p := FixArray(fp64, buf, q, id, count, v);
      AdvancesOn(buf, start, q, p, Live(Field([]), depth), Live(FloatsOf(id, fp64, count), depth), Here(),
                 flat0, flat1, v.Flat());
      return Ok(if resume == Nothing then Next(p) else Stop(p));
    }

    method ParseIntArray(buf: seq<byte>, start: nat, p: nat, id: Id, signed: bool, v: Visitor) returns (r: Result<Turn>)
      requires start < p <= |buf| && resume == Nothing
      requires ReadHead(buf[start..])
            == ReadSecond(buf[start..], p - start, id, if signed then T_ARRAY_SIGNED else T_ARRAY_UNSIGNED)
      modifies this`resume, v
      ensures Parsed(buf, start, r, depth, old(v.Flat()), v.Flat())
      ensures v.Torn() == old(v.Torn())
    {
      hide Run, Advances, ReadHead, Leb, Explode, LenTooBig, ToLen, Announce, Pieces;
      HeadTurn(buf, start, depth, v.Flat());
      assert buf[start..][p - start..] == buf[p..];
      var x, q := Varint.ReadVarint(buf, p);
      if x.Err? { return Err(x.error); }
      if x.value.None? {
        AdvancesNone(Here(), buf[start..start], v.Flat());
        return Ok(Stop(start));
      }
      if LenTooBig(x.value.value) { return Err(InvalidMsg); }
      var count := ToLen(x.value.value);
      ItemTurn(buf, start, q, IntElems(id, signed, count), depth, v.Flat());
      ghost var st0, st1 := Live(Field([]), depth), Live(IntsOf(id, signed, count), depth);
      v.Call(ArrayBegin(id, IntKind(signed), count));
      ghost var flat1 := v.Flat();
      var a := IntArray(signed, buf, q, id, count, v);
      if a.Err? {
        assert buf[q..] == buf[q..|buf|] && buf[start..] == buf[start..|buf|];
        AdvancesOn(buf, start, q, |buf|, st0, st1, Rejected, old(v.Flat()), flat1, v.Flat());
        return Err(a.error);
      }
      AdvancesOn(buf, start, q, a.value, st0, st1, Here(), old(v.Flat()), flat1, v.Flat());
      return Ok(if resume == Nothing then Next(a.value) else Stop(a.value));
    }

    method ParseFloatArray(buf: seq<byte>, start: nat, p: nat, id: Id, v: Visitor) returns (r: Result<Turn>)
      requires start < p <= |buf| && resume == Nothing
      requires ReadHead(buf[start..]) == ReadSecond(buf[start..], p - start, id, T_ARRAY_FIXLEN)
      modifies this`resume, v
      ensures Parsed(buf, start, r, depth, old(v.Flat()), v.Flat())
      ensures v.Torn() == old(v.Torn())
    {
      hide Run, Advances, ReadHead, Leb, Explode, LenTooBig, ToLen, NumberOf, TagOf, Pieces;
      HeadTurn(buf, start, depth, v.Flat());
      assert buf[start..][p - start..] == buf[p..];
      var x, q := Varint.ReadVarint(buf, p);
      if x.Err? { return Err(x.error); }
      if x.value.None? {
        AdvancesNone(Here(), buf[start..start], v.Flat());
        return Ok(Stop(start));
      }
      if LenTooBig(x.value.value) { return Err(InvalidMsg); }
      var count := ToLen(x.value.value);
      assert buf[start..][q - start..] == buf[q..];
      var y, k := Varint.ReadVarint(buf, q);
      if y.Err? { return Err(y.error); }
      if y.value.None? {
        AdvancesNone(Here(), buf[start..start], v.Flat());
        return Ok(Stop(start));
      }
      var word := y.value.value;
      var fp64: bool;
      if TagOf(word) == Tag(Fp32) && NumberOf(word) == 4 {
        fp64 := false;
      } else if TagOf(word) == Tag(Fp64) && NumberOf(word) == 8 {
        fp64 := true;
      } else {
        return Err(InvalidMsg);
      }
      ItemTurn(buf, start, k, FloatElems(id, fp64, count), depth, v.Flat());
      v.Call(ArrayBegin(id, FloatKind(fp64), count));
      r := AfterFloats(buf, start, k, id, fp64, count, old(v.Flat()), v);
    }

    /** Continues the suspended item, if the bytes at hand allow it to its end. */
    method ResumeItem(buf: seq<byte>, v: Visitor) returns (r: Result<nat>)
      requires ResumeOk(resume) && resume != Nothing
      modifies this`resume, v
      ensures ResumeOk(resume)
      ensures match r
              case Ok(p) =>
                && p <= |buf| && Advances(old(Here()), buf[..p], Here(), old(v.Flat()), v.Flat())
                && (resume == Nothing || Undecided(resume, buf[p..]))
              case Err(e) =>
                e == InvalidMsg && resume == Nothing && Advances(old(Here()), buf, Rejected, old(v.Flat()), v.Flat())
      ensures !old(resume.PayloadRest?) ==> v.Torn() == old(v.Torn()) && !resume.PayloadRest?
    {
      hide Run, Advances, Leb, ReadHead, Pieces;
      assert buf[0..] == buf;
      match resume
      case PayloadRest(_, _, _, _) =>
        var p := DeliverPayload(buf, 0, v);
        assert buf[0..p] == buf[..p];
        return Ok(p);
      case ArrayInt(id, signed, remaining) =>
        resume := Nothing;
        r := IntArray(signed, buf, 0, id, remaining, v);
        if r.Ok? { assert buf[0..r.value] == buf[..r.value]; }
      case ArrayFix(id, fp64, remaining) =>
        resume := Nothing;
        var p := FixArray(fp64, buf, 0, id, remaining, v);
        assert buf[0..p] == buf[..p];
        return Ok(p);
    }

    /** One turn of the field loop: header, id bound, dispatch on the wire type. */
    method ParseField(buf: seq<byte>, start: nat, v: Visitor) returns (r: Result<Turn>)
      requires start < |buf| && resume == Nothing
      modifies this`resume, this`depth, v
      ensures Parsed(buf, start, r, old(depth), old(v.Flat()), v.Flat())
      ensures old(depth) <= MAX_DEPTH ==> depth <= MAX_DEPTH
      ensures v.Torn() <= old(v.Torn()) + if resume.PayloadRest? then 1 else 0
    {
      hide Run, Advances, Leb, ReadSecond, IdTooBig, ToId, NumberOf, TagOf, Announce, Pieces;
      HeadTurn(buf, start, depth, v.Flat());
      var x, p := Varint.ReadVarint(buf, start);
      if x.Err? { return Err(x.error); }
      if x.value.None? {
        AdvancesNone(Here(), buf[start..start], v.Flat());
        return Ok(Stop(start));
      }
      var header := x.value.value;
      if IdTooBig(NumberOf(header)) { return Err(InvalidMsg); }
      var id := ToId(NumberOf(header));
      var wire := TagOf(header);
      if wire == T_SEQUENCE_START {
        r := ParseSequence(buf, start, p, id, true, v);
      } else if wire == T_SEQUENCE_END {
        r := ParseSequence(buf, start, p, id, false, v);
      } else {
        assert ReadHead(buf[start..]) == ReadSecond(buf[start..], p - start, id, wire);
        hide ReadHead;
        if wire == T_UNSIGNED {
          r := ParseScalar(buf, start, p, id, false, v);
        } else if wire == T_SIGNED {
          r := ParseScalar(buf, start, p, id, true, v);
        } else if wire == T_FIXLEN {
          r := ParseFixlen(buf, start, p, id, v);
        } else if wire == T_ARRAY_UNSIGNED {
          r := ParseIntArray(buf, start, p, id, false, v);
        } else if wire == T_ARRAY_SIGNED {
          r := ParseIntArray(buf, start, p, id, true, v);
        } else {
          EightTags(header);
          r := ParseFloatArray(buf, start, p, id, v);
        }
      }
    }

    /** As many complete items as `buf` holds; what follows the returned offset is undecided. */
    method Parse(buf: seq<byte>, v: Visitor) returns (r: Result<nat>)
      requires ResumeOk(resume) && depth <= MAX_DEPTH
      modifies this`resume, this`depth, v
      ensures ResumeOk(resume) && depth <= MAX_DEPTH
      ensures match r
              case Ok(p) => p <= |buf| && Undecided(resume, buf[p..])
                            && Advances(old(Here()), buf[..p], Here(), old(v.Flat()), v.Flat())
              case Err(e) =>
                e == InvalidMsg && resume == Nothing && Advances(old(Here()), buf, Rejected, old(v.Flat()), v.Flat())
      ensures !old(resume.PayloadRest?) ==> v.Torn() <= old(v.Torn()) + if resume.PayloadRest? then 1 else 0
    {
      hide Run, Advances, Leb, ReadHead, Pieces, Flatten;
      var pos := 0;
      ghost var st0, flat0 := Here(), v.Flat();
      AdvancesNone(st0, buf[..0], flat0);
      assert buf[0..] == buf;
      if resume != Nothing {
        var a := ResumeItem(buf, v);
        if a.Err? { return Err(a.error); }
        pos := a.value;
        if resume != Nothing { return Ok(pos); }
      }
      while true
        invariant pos <= |buf| && resume == Nothing && depth <= MAX_DEPTH
        invariant !old(resume.PayloadRest?) ==> v.Torn() <= old(v.Torn())
        invariant Advances(st0, buf[..pos], Here(), flat0, v.Flat())
        decreases |buf| - pos
      {
        if pos >= |buf| {
          EmptyHead();
          assert buf[pos..] == [];
          return Ok(pos);
        }
        ghost var st1, flat1 := Here(), v.Flat();
        var t := ParseField(buf, pos, v);
        assert buf[..pos] == buf[0..pos];
        if t.Err? {
          assert buf[pos..] == buf[pos..|buf|] && buf == buf[0..|buf|];
          AdvancesOn(buf, 0, pos, |buf|, st0, st1, Rejected, flat0, flat1, v.Flat());
          return Err(t.error);
        }
        var next := t.value.pos;
        AdvancesOn(buf, 0, pos, next, st0, st1, Here(), flat0, flat1, v.Flat());
        assert buf[..next] == buf[0..next];
        if t.value.Stop? { return Ok(next); }
        pos := next;
      }
    }

    /** Holds the undecided tail of a chunk until the next one. */
    method Stash(tail: seq<byte>)
      requires carry.Length == CARRY_CAP && carryLen == 0 && !invalid && Undecided(resume, tail)
      requires ResumeOk(resume) && depth <= MAX_DEPTH
      modifies this`carryLen, carry
      ensures Valid() && carry[..carryLen] == tail
    {
      CarryBound(resume, tail);
      if |tail| > CARRY_CAP {
        assert false; // wider than any item that can be carried
      }
      forall i | 0 <= i < |tail| { carry[i] := tail[i]; }
      carryLen := |tail|;
      assert carry[..carryLen] == tail;
    }

    method Latch(e: Error)
      modifies this`invalid
      ensures invalid == (old(invalid) || e == InvalidMsg)
    {
      if e == InvalidMsg { invalid := true; }
    }

    predicate AtBoundary()
      reads this
    {
      carryLen == 0 && resume == Nothing && depth == 0
    }

    /** Copies `bytes` behind what is carried, and says how much is stitched together now. */
    method Stitch(bytes: seq<byte>) returns (stitched: nat)
      requires carryLen + |bytes| <= carry.Length
      modifies carry
      ensures stitched == carryLen + |bytes| && carry[..stitched] == old(carry[..carryLen]) + bytes
    {
      forall i | 0 <= i < |bytes| { carry[carryLen + i] := bytes[i]; }
      return carryLen + |bytes|;
    }

    /** Carries what is left of the stitched bytes from `consumed` on. */
    method Shift(consumed: nat, stitched: nat)
      requires consumed <= stitched <= carry.Length
      modifies carry, this`carryLen
      ensures carryLen == stitched - consumed && carry[..carryLen] == old(carry[consumed..stitched])
    {
      forall i | 0 <= i < stitched - consumed { carry[i] := carry[consumed + i]; }
      carryLen := stitched - consumed;
    }

    /** Completes the carried item from the head of `chunk`: the rest of the chunk, or nothing when all
        of it went into the carry. */
    method ResumeCarried(chunk: seq<byte>, v: Visitor) returns (r: Result<Option<seq<byte>>>)
      requires Valid() && !invalid && carryLen > 0
      modifies this, carry, v
      ensures Valid()
      ensures match r
              case Ok(Some(rest)) =>
                && !invalid && carryLen == 0 && |rest| <= |chunk| && rest == chunk[|chunk| - |rest|..]
                && Advances(old(Abs()), chunk[..|chunk| - |rest|], Abs(), old(v.Flat()), v.Flat())
              case Ok(None) =>
                !invalid && Advances(old(Abs()), chunk, Abs(), old(v.Flat()), v.Flat())
              case Err(e) =>
                e == InvalidMsg && invalid && Advances(old(Abs()), chunk, Rejected, old(v.Flat()), v.Flat())
    {
      hide Run, Advances, Leb, ReadHead, Undecided, Pieces;
      ghost var carried, r0, d0, flat0 := carry[..carryLen], resume, depth, v.Flat();
      var held := carryLen;
      var take := if CARRY_CAP - held < |chunk| then CARRY_CAP - held else |chunk|;
      var stitched := Stitch(chunk[..take]);
      var buf := carry[..stitched];
      var p := Parse(buf, v);
      if p.Err? {
        assert buf[..stitched] == buf && chunk[..take][..take] == chunk[..take];
        CarriedTurn(r0, carried, chunk[..take], stitched, d0, Rejected, flat0, v.Flat());
        RejectedAfter(chunk, take, Live(PhaseOf(r0, carried), d0), flat0, v.Flat());
        Latch(p.error);
        return Err(p.error);
      }
      var consumed := p.value;
      CarriedTurn(r0, carried, chunk[..take], consumed, d0, Here(), flat0, v.Flat());
      if consumed >= held {
        carryLen := 0;
        assert carry[..0] == [];
        UndecidedNone(resume, buf[consumed..]);
        assert chunk[..take][..consumed - held] == chunk[..consumed - held];
        return Ok(Some(chunk[consumed - held..]));
      }
      CarriedShort(r0, carried, chunk[..take], consumed, d0, resume, depth, flat0, v.Flat());
      assert consumed == 0 && buf[consumed..] == buf;
      Shift(consumed, stitched);
      CarryBound(resume, buf);
      if take < |chunk| {
        assert false; // thirty bytes that neither complete nor reject the carried item
      }
      assert chunk[..take] == chunk;
      CarriedMore(r0, carried, chunk, d0, flat0);
      return Ok(None);
    }

    /** The in-place half of `Feed`, with nothing carried. */
    method FeedInPlace(rest: seq<byte>, v: Visitor) returns (r: Result<Status>)
      requires Valid() && !invalid && carryLen == 0
      modifies this, carry, v
      ensures Valid() && Advances(old(Abs()), rest, Abs(), old(v.Flat()), v.Flat())
      ensures r == Err(InvalidMsg) <==> Abs() == Rejected
      ensures r == Ok(Complete) <==> Abs() == START
      ensures r == Ok(Incomplete) <==> Abs().Live? && Abs() != START
      ensures !old(resume.PayloadRest?) ==> v.Torn() <= old(v.Torn()) + if resume.PayloadRest? then 1 else 0
    {
      hide Run, Advances, Leb, ReadHead, Undecided, Pieces, Flatten;
      ghost var st0, flat0 := Abs(), v.Flat();
      assert carry[..0] == [];
      var consumed := 0;
      assert rest[0..] == rest;
      if resume.PayloadRest? {
        consumed := DeliverPayload(rest, 0, v);
        assert rest[0..consumed] == rest[..consumed];
        if resume.PayloadRest? { PayloadHolds(resume, rest[consumed..]); }
      } else {
        AdvancesNone(st0, rest[..0], flat0);
      }
      ghost var st1, flat1 := Here(), v.Flat();
      if !resume.PayloadRest? {
        var p := Parse(rest[consumed..], v);
        if p.Err? {
          Latch(p.error);
          FeedJoin(rest, consumed, st0, st1, Rejected, flat0, flat1, v.Flat());
          return Err(p.error);
        }
        assert rest[consumed..][..p.value] == rest[consumed..consumed + p.value];
        assert rest[consumed..][p.value..] == rest[consumed + p.value..];
        assert rest[..consumed] == rest[0..consumed] && rest[..consumed + p.value] == rest[0..consumed + p.value];
        AdvancesOn(rest, 0, consumed, consumed + p.value, st0, st1, Here(), flat0, flat1, v.Flat());
        consumed := consumed + p.value;
      }
      HeldTurn(resume, rest[consumed..], depth, v.Flat());
      ghost var st2, flat2 := Here(), v.Flat();
      if consumed < |rest| {
        Stash(rest[consumed..]);
      }
      FeedJoin(rest, consumed, st0, st2, Abs(), flat0, flat2, flat2);
      return Ok(if AtBoundary() then Complete else Incomplete);
    }

    method Feed(chunk: seq<byte>, v: Visitor) returns (r: Result<Status>)
      requires Valid()
      modifies this, carry, v
      ensures Valid()
      ensures Advances(old(Abs()), chunk, Abs(), old(v.Flat()), v.Flat())
      ensures r == Err(InvalidMsg) <==> Abs() == Rejected
      ensures r == Ok(Complete) <==> Abs() == START
      ensures r == Ok(Incomplete) <==> Abs().Live? && Abs() != START
      ensures old(Abs()) == Rejected ==> r == Err(InvalidMsg) && v.Flat() == old(v.Flat())
      ensures old(carryLen) == 0 && !old(resume.PayloadRest?) ==>
                v.Torn() <= old(v.Torn()) + if resume.PayloadRest? then 1 else 0
    {
      hide Run, Advances, Leb, ReadHead, Pieces, Flatten;
      if invalid {
        RejectedStays(chunk, v.Flat());
        return Err(InvalidMsg);
      }
      ghost var st0, flat0 := Abs(), v.Flat();
      var rest := chunk;
      AdvancesNone(st0, chunk[..0], flat0);
      if carryLen > 0 {
        var c := ResumeCarried(chunk, v);
        if c.Err? { return Err(c.error); }
        if c.value.None? {
          return Ok(if AtBoundary() then Complete else Incomplete);
        }
        rest := c.value.value;
      }
      ghost var st1, flat1 := Abs(), v.Flat();
      r := FeedInPlace(rest, v);
      FeedJoin(chunk, |chunk| - |rest|, st0, st1, Abs(), flat0, flat1, v.Flat());
    }
  }

  lemma RejectedStays(s: seq<byte>, flat: seq<Event>)
    ensures Advances(Rejected, s, Rejected, flat, flat)
  {
    RunRejected(s);
    assert flat + [] == flat;
  }

  lemma FeedJoin(buf: seq<byte>, k: nat, st0: State, st1: State, st2: State,
                 flat0: seq<Event>, flat1: seq<Event>, flat2: seq<Event>)
    requires k <= |buf| && Advances(st0, buf[..k], st1, flat0, flat1) && Advances(st1, buf[k..], st2, flat1, flat2)
    ensures Advances(st0, buf, st2, flat0, flat2)
  {
    hide Advances;
    assert buf[..k] == buf[0..k] && buf[k..] == buf[k..|buf|] && buf == buf[0..|buf|];
    AdvancesOn(buf, 0, k, |buf|, st0, st1, st2, flat0, flat1, flat2);
  }

  /** Holding an undecided tail is running it. */
  lemma HeldTurn(r: Resume, held: seq<byte>, d: nat, flat: seq<Event>)
    requires ResumeOk(r) && Undecided(r, held)
    ensures Advances(Live(PhaseOf(r, []), d), held, Live(PhaseOf(r, held), d), flat, flat)
  {
    HeldRun(r, held, d);
    hide Run;
    assert flat + [] == flat;
  }

  lemma RejectedAfter(chunk: seq<byte>, take: nat, st: State, flat0: seq<Event>, flat1: seq<Event>)
    requires take <= |chunk| && Advances(st, chunk[..take], Rejected, flat0, flat1)
    ensures Advances(st, chunk, Rejected, flat0, flat1)
  {
    assert chunk[..take] == chunk[0..take] && chunk[0..] == chunk;
    RejectedRest(chunk, 0, take, st, flat0, flat1);
  }

  lemma PayloadHolds(r: Resume, held: seq<byte>)
    requires r.PayloadRest? && held == []
    ensures Undecided(r, held)
  {}

  lemma UndecidedNone(r: Resume, held: seq<byte>)
    requires Undecided(r, held)
    ensures Undecided(r, [])
  {
    UndecidedPrefix(r, held, 0);
    assert held[..0] == [];
  }

  /** Parsing the stitched bytes from scratch is parsing the new ones from where the carry stood. */
  lemma CarriedTurn(r0: Resume, held: seq<byte>, x: seq<byte>, c: nat, d: nat, st1: State, flat0: seq<Event>,
          flat1: seq<Event>)
    requires ResumeOk(r0) && Undecided(r0, held) && c <= |held| + |x|
    requires Advances(Live(PhaseOf(r0, []), d), (held + x)[..c], st1, flat0, flat1)
    ensures c >= |held| ==> Advances(Live(PhaseOf(r0, held), d), x[..c - |held|], st1, flat0, flat1)
  {
    hide Run, Undecided;
    if c >= |held| {
      assert (held + x)[..c] == held + x[..c - |held|];
      RunAppend(Live(PhaseOf(r0, []), d), held, x[..c - |held|]);
      HeldRun(r0, held, d);
    }
  }

  /** Consuming less than the carry means consuming nothing: the carry is one undecided prefix. */
  lemma CarriedShort(r0: Resume, held: seq<byte>, x: seq<byte>, c: nat, d: nat, r1: Resume, d1: nat,
                     flat0: seq<Event>, flat1: seq<Event>)
    requires ResumeOk(r0) && ResumeOk(r1) && Undecided(r0, held) && c < |held|
    requires Advances(Live(PhaseOf(r0, []), d), (held + x)[..c], Live(PhaseOf(r1, []), d1), flat0, flat1)
    ensures c == 0 && r1 == r0 && d1 == d && flat1 == flat0
  {
    assert (held + x)[..c] == held[..c];
    UndecidedPrefix(r0, held, c);
    HeldRun(r0, held[..c], d);
    hide Run, Undecided;
  }

  lemma CarriedMore(r0: Resume, held: seq<byte>, x: seq<byte>, d: nat, flat: seq<Event>)
    requires ResumeOk(r0) && Undecided(r0, held) && Undecided(r0, held + x)
    ensures Advances(Live(PhaseOf(r0, held), d), x, Live(PhaseOf(r0, held + x), d), flat, flat)
  {
    HeldRun(r0, held + x, d);
    HeldRun(r0, held, d);
    RunAppend(Live(PhaseOf(r0, []), d), held, x);
    hide Run;
    assert flat + [] == flat;
  }

  lemma EightTags(word: bv64)
    ensures TagOf(word) <= 7
    ensures TagOf(word) == T_UNSIGNED || TagOf(word) == T_SIGNED || TagOf(word) == T_FIXLEN
         || TagOf(word) == T_ARRAY_UNSIGNED
         || TagOf(word) == T_ARRAY_SIGNED || TagOf(word) == T_ARRAY_FIXLEN || TagOf(word) == T_SEQUENCE_START
         || TagOf(word) == T_SEQUENCE_END
  {}

  lemma IntStop(buf: seq<byte>, pos: nat, p: nat, st0: State, st1: State, flat0: seq<Event>, flat1: seq<Event>)
    requires pos <= p <= |buf|
    requires Advances(st0, buf[pos..p], st1, flat0, flat1) && Advances(st1, buf[p..], Rejected, flat1, flat1)
    ensures Advances(st0, buf[pos..], Rejected, flat0, flat1)
  {
    assert buf[p..] == buf[p..|buf|] && buf[pos..] == buf[pos..|buf|];
    AdvancesOn(buf, pos, p, |buf|, st0, st1, Rejected, flat0, flat1, flat1);
  }
}


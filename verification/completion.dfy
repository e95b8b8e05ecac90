/** Exactly when bytes that are INCOMPLETE can still become a message. */
module Completion {
  import opened Leb128
  import opened Wire
  import opened Decoder
  import Varint

  // ---- a varint cut short ------------------------------------------------------------------------

  /** `w` has every bit of `v`. */
  predicate Covers(w: bv64, v: bv64) { v & w == v }

  /** `w` has every bit of `v`, and the same lowest digit. */
  predicate Grows(v: bv64, w: bv64) { Covers(w, v) && v & 0x7F == w & 0x7F }

  lemma JoinGrows(v: bv64, w: bv64, b: byte)
    requires Covers(w, v)
    ensures Grows(Join(v, b), Join(w, b))
  {}

  lemma GrowsCovers(v: bv64, w: bv64)
    requires Grows(v, w)
    ensures Covers(w, v)
  {}

  lemma CoversZero(w: bv64)
    ensures Covers(w, Last(0x00)) && !TooBig(0x00) && !Continues(0x00)
  {}

  /** A cut varint is completed by a zero byte, and any other completion only adds to the value. */
  lemma {:induction false} ZeroCompletes(s: seq<byte>, t: seq<byte>, room: nat)
    requires room >= 1 && s != [] && Leb(s, room).Short?
    ensures Leb(s + [0x00], room).Value? && Leb(s + [0x00], room).len == |s| + 1
    ensures Leb(s + t, room).Value? ==> Grows(Leb(s + [0x00], room).v, Leb(s + t, room).v)
    decreases room
  {
    hide Join, Last, Continues, TooBig, Grows, Covers;
    var z, r := s + [0x00], s + t;
    assert z[1..] == s[1..] + [0x00] && r[1..] == s[1..] + t;
    CoversZero(0);
    if s[1..] == [] {
      assert z[1..] == [0x00];
      if Leb(r, room).Value? {
        CoversZero(Leb(r[1..], room - 1).v);
        JoinGrows(Last(0x00), Leb(r[1..], room - 1).v, s[0]);
      }
    } else {
      ZeroCompletes(s[1..], t, room - 1);
      if Leb(r, room).Value? {
        GrowsCovers(Leb(z[1..], room - 1).v, Leb(r[1..], room - 1).v);
        JoinGrows(Leb(z[1..], room - 1).v, Leb(r[1..], room - 1).v, s[0]);
      }
    }
  }

  lemma {:induction false} LastDigit(s: seq<byte>, room: nat)
    requires room >= 1 && Leb(s, room).Value?
    ensures !Continues(s[Leb(s, room).len - 1])
    decreases room
  {
    LastWithin(s[0], 0);
    hide Join, Last, Continues, TooBig;
    if room > 1 && Continues(s[0]) { LastDigit(s[1..], room - 1); }
  }

  // ---- what growing does to a word ---------------------------------------------------------------

  lemma GrownTag(v: bv64, w: bv64)
    requires Grows(v, w)
    ensures TagOf(v) == TagOf(w)
  {}

  lemma CoversOrder(v: bv64, w: bv64)
    requires Covers(w, v)
    ensures v <= w && (IdTooBig(v) ==> IdTooBig(w))
  {}

  lemma GrownNumber(v: bv64, w: bv64)
    requires Grows(v, w)
    ensures Covers(NumberOf(w), NumberOf(v))
  {}

  lemma GrownNibble(v: bv64, w: bv64)
    requires Grows(v, w)
    ensures LowHex(NumberOf(v)) == LowHex(NumberOf(w))
  {}

  lemma GrownSmall(v: bv64, w: bv64)
    requires Grows(v, w) && (NumberOf(w) == 4 || NumberOf(w) == 8)
    ensures NumberOf(v) == NumberOf(w)
  {}

  lemma GrownWord(v: bv64, w: bv64)
    requires Grows(v, w)
    ensures TagOf(v) == TagOf(w) && (IdTooBig(NumberOf(v)) ==> IdTooBig(NumberOf(w)))
    ensures NumberOf(w) == 4 || NumberOf(w) == 8 ==> NumberOf(v) == NumberOf(w)
  {
    hide Grows, Covers, TagOf, NumberOf, IdTooBig;
    GrownTag(v, w);
    GrownNumber(v, w);
    CoversOrder(NumberOf(v), NumberOf(w));
    if NumberOf(w) == 4 || NumberOf(w) == 8 { GrownSmall(v, w); }
  }

  lemma GrownHex(v: bv64, w: bv64)
    requires Covers(w, v)
    ensures Covers(PopHex(w), PopHex(v)) && HexValue(LowHex(v)) <= HexValue(LowHex(w)) && (w == 0 ==> v == 0)
  {
    var x, y := LowHex(v), LowHex(w);
    assert x <= y <= 15;
    HexOrder(x, y);
    hide HexValue;
  }

  lemma HexOrder(x: bv64, y: bv64)
    requires x <= y <= 15
    ensures HexValue(x) <= HexValue(y) <= 15
  {}

  lemma {:induction false} LenGrows(v: bv64, w: bv64)
    requires Covers(w, v)
    ensures ToLen(v) <= ToLen(w)
    decreases ToLen(v)
  {
    hide Covers, PopHex, LowHex, HexValue, ToLen;
    if ToLen(v) > 0 {
      GrownHex(v, w);
      ToLenIs(v);
      ToLenIs(w);
      LenGrows(PopHex(v), PopHex(w));
    }
  }

  lemma LenSame(v: bv64, w: bv64, len: nat)
    requires Covers(w, v) && LowHex(v) == LowHex(w) && ToLen(w) == len < 16
    ensures ToLen(v) == len
  {
    hide Covers, PopHex, LowHex, HexValue, ToLen;
    GrownHex(v, w);
    LenGrows(PopHex(v), PopHex(w));
    ToLenIs(v);
    ToLenIs(w);
  }

  lemma FixGrows(k: nat, j: nat, id: Id, v: bv64, w: bv64)
    requires Grows(v, w) && FixHead(j, id, w).Done?
    ensures FixHead(k, id, v).Done?
  {
    hide Covers, Grows, LowHex, ToLen, TagOf, NumberOf, FixHead;
    GrownTag(v, w);
    GrownNumber(v, w);
    GrownNibble(v, w);
    LenGrows(NumberOf(v), NumberOf(w));
    if ToLen(NumberOf(w)) < 16 { LenSame(NumberOf(v), NumberOf(w), ToLen(NumberOf(w))); }
    FixShorter(k, j, id, v, w);
  }

  lemma FixShorter(k: nat, j: nat, id: Id, v: bv64, w: bv64)
    requires TagOf(v) == TagOf(w) && ToLen(NumberOf(v)) <= ToLen(NumberOf(w)) && FixHead(j, id, w).Done?
    requires ToLen(NumberOf(w)) < 16 ==> ToLen(NumberOf(v)) == ToLen(NumberOf(w))
    ensures FixHead(k, id, v).Done?
  {
    hide ToLen, TagOf, NumberOf;
  }

  // ---- a head cut short ------------------------------------------------------------------------

  /** If `r` is a head at all then `z` is no rejection, and of the same kind if it is a marker. */
  predicate AsGood(z: Head, r: Head) {
    r.Done? ==> !z.Bad? && (z.Done? ==> (z.item.Open? ==> r.item.Open?) && (z.item.Close? ==> r.item.Close?))
  }

  lemma HeaderCut(held: seq<byte>, t: seq<byte>)
    requires held != [] && Leb(held).Short?
    ensures AsGood(ReadHead(held + [0x00]), ReadHead(held + t))
  {
    ZeroCompletes(held, t, MAX_VARINT_LEN);
    EmptyLeb();
    hide Leb, Grows, IdTooBig, NumberOf, TagOf, ToId, LenTooBig, ToLen;
    var z := held + [0x00];
    assert z[|held| + 1..] == [];
    if Leb(held + t).Value? { GrownWord(Leb(z).v, Leb(held + t).v); }
  }

  /** A head that waits for its second word, or its third. */
  lemma Waiting(s: seq<byte>, t: seq<byte>)
    requires ReadHead(s).More? && Leb(s).Value?
    ensures var Value(h, n) := Leb(s);
            && (s + t)[n..] == s[n..] + t && ReadHead(s) == ReadSecond(s, n, ToId(NumberOf(h)), TagOf(h))
            && ReadHead(s + t) == ReadSecond(s + t, n, ToId(NumberOf(h)), TagOf(h))
  {
    hide Leb, IdTooBig, NumberOf, TagOf, ToId, ReadSecond;
    Decided(s, t);
  }

  lemma SecondCut(held: seq<byte>, t: seq<byte>)
    requires ReadHead(held).More? && Leb(held).Value? && Leb(held).len < |held| && Leb(held[Leb(held).len..]).Short?
    ensures AsGood(ReadHead(held + [0x00]), ReadHead(held + t))
  {
    hide Leb, Grows, NumberOf, TagOf, ToId, ReadRest, ReadHead, AsGood;
    var Value(h, n) := Leb(held);
    var w, z, id, tag := held[n..], held + [0x00], ToId(NumberOf(h)), TagOf(h);
    Waiting(held, [0x00]);
    Waiting(held, t);
    ZeroCompletes(w, t, MAX_VARINT_LEN);
    if Leb(w + t).Value? {
      RestGrows(z, held + t, |z|, n + Leb(w + t).len, id, tag, Leb(w + [0x00]).v, Leb(w + t).v);
    } else {
      NoHead(ReadHead(z), ReadHead(held + t));
    }
  }

  lemma NoHead(z: Head, r: Head)
    requires !r.Done?
    ensures AsGood(z, r)
  {}

  lemma RestGrows(z: seq<byte>, r: seq<byte>, k: nat, j: nat, id: Id, tag: bv64, v: bv64, w: bv64)
    requires 0 < k == |z| && 0 < j <= |r| && Grows(v, w)
    ensures AsGood(ReadRest(z, k, id, tag, v), ReadRest(r, j, id, tag, w))
  {
    hide Grows, Covers, LenTooBig, FixHead, ReadRest, AsGood;
    GrowsCovers(v, w);
    TooLongGrows(v, w);
    if FixHead(j, id, w).Done? { FixGrows(k, j, id, v, w); }
    FixItem(k, id, v);
    RestOrder(z, r, k, j, id, tag, v, w);
  }

  lemma TooLongGrows(v: bv64, w: bv64)
    requires Covers(w, v)
    ensures LenTooBig(v) ==> LenTooBig(w)
  {
    hide Covers, ToLen;
    LenGrows(v, w);
  }

  lemma FixItem(k: nat, id: Id, w: bv64)
    ensures FixHead(k, id, w).Done? ==> FixHead(k, id, w).item.Fix?
  {
    hide ToLen, TagOf, NumberOf, LenTooBig;
  }

  lemma RestOrder(z: seq<byte>, r: seq<byte>, k: nat, j: nat, id: Id, tag: bv64, v: bv64, w: bv64)
    requires 0 < k == |z| && 0 < j <= |r| && (LenTooBig(v) ==> LenTooBig(w))
    requires FixHead(j, id, w).Done? ==> FixHead(k, id, v).Done?
    requires FixHead(k, id, v).Done? ==> FixHead(k, id, v).item.Fix?
    ensures AsGood(ReadRest(z, k, id, tag, v), ReadRest(r, j, id, tag, w))
  {
    hide Leb, FixHead, FloatsHead, LenTooBig, ToLen, Varint.ZigzagDecode;
    EmptyLeb();
    assert z[k..] == [];
  }

  /** Only a float array's head has a third word. */
  lemma WaitingRest(s: seq<byte>, r: seq<byte>, k: nat, id: Id, tag: bv64, w: bv64)
    requires 0 < k <= |s| && k <= |r| && ReadRest(s, k, id, tag, w).More?
    ensures ReadRest(r, k, id, tag, w)
         == match Leb(r[k..]) case Short => More case Over => Bad case Value(f, j) => FloatsHead(k + j, id, w, f)
  {
    hide Leb, LenTooBig, ToLen, FloatsHead;
  }

  lemma FloatsGrows(k: nat, j: nat, id: Id, count: bv64, v: bv64, w: bv64)
    requires Grows(v, w)
    ensures AsGood(FloatsHead(k, id, count, v), FloatsHead(j, id, count, w))
  {
    GrownWord(v, w);
    hide Grows, NumberOf, TagOf, ToLen;
  }

  lemma ThirdCut(held: seq<byte>, t: seq<byte>, n: nat, k: nat, h: bv64, w: bv64)
    requires ReadHead(held).More? && Leb(held) == Value(h, n) && n < k < |held|
    requires Leb(held[n..]) == Value(w, k - n) && Leb(held[k..]).Short?
    ensures AsGood(ReadHead(held + [0x00]), ReadHead(held + t))
  {
    hide Leb, Grows, NumberOf, TagOf, ToId, ReadHead, ReadRest, FloatsHead, AsGood;
    var f, z, r, id, tag := held[k..], held + [0x00], held + t, ToId(NumberOf(h)), TagOf(h);
    Waiting(held, [0x00]);
    Waiting(held, t);
    Decided(held[n..], [0x00]);
    Decided(held[n..], t);
    assert z[k..] == f + [0x00] && r[k..] == f + t;
    WaitingRest(held, z, k, id, tag, w);
    WaitingRest(held, r, k, id, tag, w);
    ZeroCompletes(f, t, MAX_VARINT_LEN);
    if Leb(f + t).Value? {
      FloatsGrows(|z|, k + Leb(f + t).len, id, w, Leb(f + [0x00]).v, Leb(f + t).v);
    } else {
      NoHead(ReadHead(z), ReadHead(r));
    }
  }

  /** No continuation of a cut word does better than the zero byte. */
  lemma ZeroIsBest(held: seq<byte>, t: seq<byte>)
    requires ReadHead(held).More? && held != [] && Continues(held[|held| - 1])
    ensures AsGood(ReadHead(held + [0x00]), ReadHead(held + t))
  {
    hide Leb, Continues, IdTooBig, NumberOf, TagOf, ToId, LenTooBig, ToLen, FixHead, FloatsHead, AsGood;
    if Leb(held).Short? {
      HeaderCut(held, t);
    } else {
      var Value(h, n) := Leb(held);
      LastDigit(held, MAX_VARINT_LEN);
      if Leb(held[n..]).Short? {
        SecondCut(held, t);
      } else {
        var Value(w, m) := Leb(held[n..]);
        LastDigit(held[n..], MAX_VARINT_LEN);
        assert held[n..][m - 1] == held[n + m - 1];
        ThirdCut(held, t, n, n + m, h, w);
      }
    }
  }

  // ---- states ------------------------------------------------------------------------------------

  /** What holds of every state the automaton reaches: what it holds decides nothing yet. */
  predicate Reached(st: State) {
    st.Live? ==>
      && st.depth <= MAX_DEPTH
      && match st.phase
         case Field(held) => ReadHead(held).More?
         case Payload(_, _, total, at) => at < total
         case Ints(_, _, _, held) => Leb(held).Short?
         case Floats(_, fp64, _, held) => |held| < Width(fp64)
  }

  lemma AnnounceReached(item: Item, d: nat)
    requires d <= MAX_DEPTH
    ensures Reached(Announce(item, d).st)
  {
    hide ReadHead, Leb;
    EmptyHead();
    EmptyLeb();
  }

  lemma StepReached(st: State, b: byte)
    requires Reached(st)
    ensures Reached(Step(st, b).st)
  {
    hide ReadHead, Leb, Announce;
    EmptyHead();
    EmptyLeb();
    if st.Live? && st.phase.Field? {
      match ReadHead(st.phase.held + [b])
      case Done(_, item) => AnnounceReached(item, st.depth);
      case _ =>
    }
  }

  lemma {:induction false} RunReached(st: State, s: seq<byte>)
    requires Reached(st)
    ensures Reached(Run(st, s).st)
    decreases |s|
  {
    hide Step, Reached;
    if s != [] {
      StepReached(st, s[0]);
      RunReached(Step(st, s[0]).st, s[1..]);
    }
  }

  /** The bytes end inside a varint of a field head, and a zero byte in place of its rest is rejected. */
  predicate Doomed(st: State) {
    && st.Live? && st.phase.Field? && st.phase.held != []
    && Continues(st.phase.held[|st.phase.held| - 1]) && Step(st, 0x00).st == Rejected
  }

  // ---- nothing completes a doomed state ------------------------------------------------------------

  lemma AnnounceRejects(z: Item, r: Item, d: nat)
    requires Announce(z, d).st == Rejected
    requires (z.Open? ==> r.Open?) && (z.Close? ==> r.Close?)
    ensures Announce(r, d).st == Rejected
  {}

  lemma DoomedStays(st: State, t: seq<byte>)
    requires Reached(st) && Doomed(st)
    ensures Run(st, t).st != START
  {
    var held, d := st.phase.held, st.depth;
    ZeroIsBest(held, t);
    RunHead(held, t, d);
    var z, r := ReadHead(held + [0x00]), ReadHead(held + t);
    hide ReadHead, Run, Announce, Continues;
    if r.Done? {
      assert z.Done? && Announce(z.item, d).st == Rejected;
      AnnounceRejects(z.item, r.item, d);
      var k := r.len - |held|;
      assert t == t[..k] + t[k..];
      RunAppend(st, t[..k], t[k..]);
      RunRejected(t[k..]);
    }
  }

  // ---- anything else can be completed --------------------------------------------------------------

  /** A byte that brings the message nearer to its end: `07` closes a sequence, a zero ends a cut varint
      or an element, and `20` serves as any word that is still missing. */
  function NextByte(st: State): byte
    requires st.Live?
  {
    match st.phase
    case Field(held) => if held == [] then 0x07 else if Continues(held[|held| - 1]) then 0x00 else 0x20
    case _ => 0x00
  }

  function Stage(st: State): nat
    requires st.Live?
  {
    match st.phase case Field(held) => if held == [] then 0 else 2 case _ => 1
  }

  function Left(st: State): int
    requires st.Live?
  {
    match st.phase
    case Field(held) => if held == [] then st.depth else 30 - |held|
    case Payload(_, _, total, at) => total - at
    case Ints(_, _, remaining, _) => remaining
    case Floats(_, fp64, remaining, held) => 8 * remaining - |held|
  }

  predicate Nearer(st: State, st': State)
    requires st.Live?
  {
    && st'.Live? && !Doomed(st')
    && (Stage(st') < Stage(st) || (Stage(st') == Stage(st) && 0 <= Left(st') < Left(st)))
  }

  lemma CloseNearer(d: nat)
    requires d > 0
    ensures Nearer(Live(Field([]), d), Step(Live(Field([]), d), 0x07).st)
  {
    assert [] + [0x07 as byte] == [0x07];
    MarkerHeads();
    hide ReadHead;
  }

  lemma ElementNearer(st: State)
    requires Reached(st) && st.Live? && !st.phase.Field?
    ensures Nearer(st, Step(st, 0x00).st)
  {
    if st.phase.Ints? {
      if st.phase.held == [] {
        assert st.phase.held + [0x00] == [0x00];
      } else {
        ZeroCompletes(st.phase.held, [0x00], MAX_VARINT_LEN);
        hide Leb;
      }
    }
  }

  /** A byte that ends a varint leaves nothing doomed, whatever else it does. */
  lemma HeadNearer(held: seq<byte>, d: nat, b: byte)
    requires ReadHead(held).More? && held != [] && !Continues(b)
    requires Step(Live(Field(held), d), b).st.Live?
    ensures Nearer(Live(Field(held), d), Step(Live(Field(held), d), b).st)
  {
    var z := held + [b];
    if ReadHead(z).More? { HeadBound(z); }
    hide ReadHead, Continues;
    assert z[|z| - 1] == b;
  }

  lemma ZeroNearer(st: State)
    requires Reached(st) && !Doomed(st) && st.Live? && st.phase.Field? && st.phase.held != []
    requires Continues(st.phase.held[|st.phase.held| - 1])
    ensures Nearer(st, Step(st, 0x00).st)
  {
    CoversZero(0);
    hide ReadHead, Nearer, Continues, Step;
    HeadNearer(st.phase.held, st.depth, 0x00);
  }

  /** `20` is a value, a count, and the word of a 32-bit float. */
  lemma WordTwenty()
    ensures Leb([0x20]) == Value(0x20, 1) && ToLen(0x20) == 32
    ensures TagOf(0x20) == Tag(Fp32) && NumberOf(0x20) == 4
  {}

  lemma LenFour()
    ensures ToLen(4) == 4
  {}

  lemma NotOver(s: seq<byte>)
    requires ReadHead(s).More?
    ensures !Leb(s).Over?
  {
    hide Leb, NumberOf, TagOf, ToId, ReadSecond;
  }

  lemma TwentyHead(held: seq<byte>)
    requires ReadHead(held).More? && held != [] && !Continues(held[|held| - 1])
    ensures var r := ReadHead(held + [0x20]); !r.Bad? && (r.Done? ==> !r.item.Open? && !r.item.Close?)
  {
    hide Leb, NumberOf, TagOf, ToId, ReadHead, ReadSecond, Continues;
    NotOver(held);
    ShortIff(held);
    var Value(h, n) := Leb(held);
    Waiting(held, [0x20]);
    TwentySecond(held, held + [0x20], n, ToId(NumberOf(h)), TagOf(h));
  }

  lemma TwentySecond(held: seq<byte>, r: seq<byte>, n: nat, id: Id, tag: bv64)
    requires 0 < n <= |held| && r == held + [0x20] && !Continues(held[|held| - 1]) && ReadSecond(held, n, id, tag).More?
    ensures var x := ReadSecond(r, n, id, tag); !x.Bad? && (x.Done? ==> !x.item.Open? && !x.item.Close?)
  {
    hide Leb, Continues, ReadRest;
    WordTwenty();
    assert n < |held| ==> held[n..][|held| - n - 1] == held[|held| - 1];
    ShortIff(held[n..]);
    if Leb(held[n..]).Short? {
      assert held[n..] == [] && r[n..] == [0x20];
      TwentyRest(r, n + 1, id, tag);
    } else {
      var Value(w, m) := Leb(held[n..]);
      Decided(held[n..], [0x20]);
      assert r[n..] == held[n..] + [0x20];
      TwentyThird(held, r, n + m, id, tag, w);
    }
  }

  lemma TwentyThird(held: seq<byte>, r: seq<byte>, k: nat, id: Id, tag: bv64, w: bv64)
    requires 0 < k <= |held| && r == held + [0x20] && !Continues(held[|held| - 1])
        && ReadRest(held, k, id, tag, w).More?
    ensures var x := ReadRest(r, k, id, tag, w); !x.Bad? && (x.Done? ==> !x.item.Open? && !x.item.Close?)
  {
    hide Leb, Continues, ReadRest, TagOf, NumberOf, ToLen;
    WordTwenty();
    assert k < |held| ==> held[k..][|held| - k - 1] == held[|held| - 1];
    WaitingRest(held, held, k, id, tag, w);
    WaitingRest(held, r, k, id, tag, w);
    ShortIff(held[k..]);
    assert held[k..] == [] && r[k..] == [0x20];
  }

  lemma TwentyRest(r: seq<byte>, k: nat, id: Id, tag: bv64)
    requires 0 < k == |r|
    ensures var x := ReadRest(r, k, id, tag, 0x20); !x.Bad? && (x.Done? ==> !x.item.Open? && !x.item.Close?)
  {
    hide Leb, TagOf, NumberOf, ToLen;
    WordTwenty();
    LenFour();
    EmptyLeb();
    assert r[k..] == [];
  }

  lemma TwentyNearer(st: State)
    requires Reached(st) && st.Live? && st.phase.Field? && st.phase.held != []
    requires !Continues(st.phase.held[|st.phase.held| - 1])
    ensures Nearer(st, Step(st, 0x20).st)
  {
    hide ReadHead, Nearer;
    TwentyHead(st.phase.held);
    assert Step(st, 0x20).st.Live?;
    hide Step;
    HeadNearer(st.phase.held, st.depth, 0x20);
  }

  lemma NextNearer(st: State)
    requires Reached(st) && st.Live? && !Doomed(st) && st != START
    ensures Nearer(st, Step(st, NextByte(st)).st)
  {
    hide Reached, Doomed, Nearer, Step, Continues;
    match st.phase
    case Field(held) =>
      if held == [] { CloseNearer(st.depth); }
      else if Continues(held[|held| - 1]) { ZeroNearer(st); }
      else { TwentyNearer(st); }
    case _ => ElementNearer(st);
  }

  /** Bytes that complete the message. */
  lemma {:induction false} Finish(st: State) returns (t: seq<byte>)
    requires Reached(st) && st.Live? && !Doomed(st)
    ensures Run(st, t).st == START
    decreases Stage(st), Left(st)
  {
    hide Reached, Doomed, Step;
    if st == START {
      t := [];
    } else {
      var b := NextByte(st);
      NextNearer(st);
      StepReached(st, b);
      var rest := Finish(Step(st, b).st);
      t := [b] + rest;
      assert t[0] == b && t[1..] == rest;
    }
  }

  /** The exact promise of INCOMPLETE: some continuation makes a message of the bytes if and only if they
      do not end inside a varint of a field head that a zero byte would get rejected. Probing with a zero
      byte is something a caller can do. */
  lemma Completable(s: seq<byte>)
    requires Run(START, s).st.Live?
    ensures (exists t :: Run(START, s + t).st == START) <==> !Doomed(Run(START, s).st)
  {
    hide Reached, Doomed, Run;
    EmptyReached();
    RunReached(START, s);
    var st := Run(START, s).st;
    if Doomed(st) {
      forall t ensures Run(START, s + t).st != START {
        RunAppend(START, s, t);
        DoomedStays(st, t);
      }
    } else {
      var t := Finish(st);
      RunAppend(START, s, t);
      assert Run(START, s + t).st == START;
    }
  }

  lemma EmptyReached()
    ensures Reached(START)
  {
    EmptyHead();
  }

  // ---- two ways to be doomed ----------------------------------------------------------------------

  lemma ReservedWord()
    ensures ReadHead([0x02, 0x84]).More? && ReadHead([0x02, 0x84, 0x00]).Bad?
  {
    FixlenHeader([0x84]);
    FixlenHeader([0x84, 0x00]);
    var cut: seq<byte>, whole: seq<byte> := [0x84], [0x84, 0x00];
    assert [0x02] + cut == [0x02, 0x84] && [0x02] + whole == [0x02, 0x84, 0x00];
    assert Leb([0x84]).Short? && Leb([0x84, 0x00]) == Value(4, 2) by {
      assert cut[1..] == [] && whole[1..] == [0x00];
      assert Leb([0x00], 9) == Value(0, 1);
    }
    assert TagOf(4) == 4;
    hide Leb, TagOf, NumberOf, IdTooBig;
  }

  lemma FixlenHeader(t: seq<byte>)
    ensures Leb([0x02] + t) == Value(2, 1) && ([0x02] + t)[1..] == t
    ensures !IdTooBig(NumberOf(2)) && TagOf(2) == T_FIXLEN
  {}

  lemma StrayEnd()
    ensures ReadHead([0x87]).More? && ReadHead([0x87, 0x00]) == Done(2, Close)
  {
    var cut: seq<byte>, whole: seq<byte> := [0x87], [0x87, 0x00];
    assert cut[1..] == [] && whole[1..] == [0x00];
    assert Leb([0x00], 9) == Value(0, 1);
    assert Leb(whole) == Value(7, 2);
  }

  /** `02 84` is INCOMPLETE although its tag bits already name a reserved subtype, and `87` although it
      can only become an end marker with nothing open: neither has any continuation to a message. */
  lemma IncompleteIsNoPromise(s: seq<byte>)
    requires s == [0x02, 0x84] || s == [0x87]
    ensures Run(START, s).st.Live? && Run(START, s).st != START
    ensures forall t :: Run(START, s + t).st != START
  {
    ReservedWord();
    StrayEnd();
    EmptyHead();
    hide ReadHead, Run;
    assert [] + s == s;
    RunHead([], s, 0);
    assert s + [0x00] == if s == [0x87] then [0x87, 0x00] else [0x02, 0x84, 0x00];
    assert Step(Live(Field(s), 0), 0x00).st == Rejected;
    Completable(s);
  }
}

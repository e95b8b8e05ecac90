/** The eight-bytes-at-once word operations of src/varint.rs, against the reference codec. */
module Swar {
  import opened Leb128

  const MSB: bv64 := 0x8080_8080_8080_8080
  const LOW7: bv64 := 0x7F7F_7F7F_7F7F_7F7F
  const ONES: bv64 := 0xFFFF_FFFF_FFFF_FFFF

  // ---- word-at-a-time reading ---------------------------------------------------------------

  /** The table KEEP7: a mask for the low seven bits of each of the `n` lowest bytes of a word. */
  function Keep7(n: nat): bv64
    requires 1 <= n <= 8
  {
    match n
    case 1 => LOW7 & (ONES >> 56)
    case 2 => LOW7 & (ONES >> 48)
    case 3 => LOW7 & (ONES >> 40)
    case 4 => LOW7 & (ONES >> 32)
    case 5 => LOW7 & (ONES >> 24)
    case 6 => LOW7 & (ONES >> 16)
    case 7 => LOW7 & (ONES >> 8)
    case _ => LOW7 & (ONES >> 0)
  }

  /** The table CONT: the top bits of an `n`-byte varint, set in every byte below its last. */
  function Cont(n: nat): bv64
    requires 1 <= n <= 8
  {
    match n
    case 1 => MSB & !(ONES << 0)
    case 2 => MSB & !(ONES << 8)
    case 3 => MSB & !(ONES << 16)
    case 4 => MSB & !(ONES << 24)
    case 5 => MSB & !(ONES << 32)
    case 6 => MSB & !(ONES << 40)
    case 7 => MSB & !(ONES << 48)
    case _ => MSB & !(ONES << 56)
  }

  function Compact7(x: bv64): bv64 {
    var a := (x & 0x007F_007F_007F_007F) | ((x & 0x7F00_7F00_7F00_7F00) >> 1);
    var b := (a & 0x0000_3FFF_0000_3FFF) | ((a & 0x3FFF_0000_3FFF_0000) >> 2);
    (b & 0x0000_0000_0FFF_FFFF) | ((b & 0x0FFF_FFFF_0000_0000) >> 4)
  }

  function Spread7(x: bv64): bv64 {
    var a := (x & 0x0000_0000_0FFF_FFFF) | ((x & 0x00FF_FFFF_F000_0000) << 4);
    var b := (a & 0x0000_3FFF_0000_3FFF) | ((a & 0x0FFF_C000_0FFF_C000) << 2);
    (b & 0x007F_007F_007F_007F) | ((b & 0x3F80_3F80_3F80_3F80) << 1)
  }

  function Pack(b0: byte, b1: byte, b2: byte, b3: byte, b4: byte, b5: byte, b6: byte, b7: byte): bv64 {
    (b0 as bv64) | ((b1 as bv64) << 8) | ((b2 as bv64) << 16) | ((b3 as bv64) << 24)
    | ((b4 as bv64) << 32) | ((b5 as bv64) << 40) | ((b6 as bv64) << 48) | ((b7 as bv64) << 56)
  }

  /** The unaligned little-endian eight-byte load at `p`. */
  function Load64(s: seq<byte>, p: nat): bv64
    requires p + 8 <= |s|
  {
    Pack(s[p], s[p + 1], s[p + 2], s[p + 3], s[p + 4], s[p + 5], s[p + 6], s[p + 7])
  }

  function TrailingZeros(x: bv64): nat
    decreases x
  {
    if x == 0 then 64 else if x & 1 == 1 then 0 else 1 + TrailingZeros(x >> 1)
  }

  lemma TrailingNibble(x: bv64)
    requires x != 0
    ensures x & 0xF == 0 ==> TrailingZeros(x) == 4 + TrailingZeros(x >> 4)
    ensures x & 0xF == 8 ==> TrailingZeros(x) == 3
  {
    if x & 7 == 0 {
      assert TrailingZeros(x) == 1 + TrailingZeros(x >> 1);
      assert TrailingZeros(x >> 1) == 1 + TrailingZeros(x >> 2) by { assert (x >> 1) >> 1 == x >> 2; }
      assert TrailingZeros(x >> 2) == 1 + TrailingZeros(x >> 3) by { assert (x >> 2) >> 1 == x >> 3; }
      if x & 0xF == 0 {
        assert TrailingZeros(x >> 3) == 1 + TrailingZeros(x >> 4) by { assert (x >> 3) >> 1 == x >> 4; }
      }
    }
  }

  /** On a word that has only continuation bits left, the trailing zeros count whole bytes. */
  lemma TrailingByte(x: bv64)
    requires x != 0
    ensures x & 0xFF == 0x80 ==> TrailingZeros(x) == 7
    ensures x & 0xFF == 0 ==> TrailingZeros(x) == 8 + TrailingZeros(x >> 8)
  {
    if x & 0xF == 0 {
      TrailingNibble(x);
      TrailingNibble(x >> 4);
      assert (x >> 4) >> 4 == x >> 8;
      hide TrailingZeros;
    }
  }

  /** Digits `d`, lowest first, under the value `v` that follows them. */
  function JoinAll(v: bv64, d: seq<byte>): bv64 {
    if d == [] then v else Join(JoinAll(v, d[1..]), d[0])
  }

  function Lift(r: Scan, d: seq<byte>): Scan {
    match r case Value(v, n) => Value(JoinAll(v, d), n + |d|) case other => other
  }

  lemma LebStep(s: seq<byte>, p: nat, room: nat)
    requires p < |s| && room > 1 && Continues(s[p])
    ensures Leb(s[p..], room) == Lift(Leb(s[p + 1..], room - 1), [s[p]])
  {
    hide Join, Last, Continues, TooBig;
    assert s[p..][0] == s[p] && s[p..][1..] == s[p + 1..];
    assert [s[p]][1..] == [];
    var r := Leb(s[p + 1..], room - 1);
    if r.Value? { assert JoinAll(r.v, [s[p]]) == Join(JoinAll(r.v, []), s[p]); }
  }

  lemma LiftCons(r: Scan, b: byte, d: seq<byte>)
    ensures Lift(Lift(r, d), [b]) == Lift(r, [b] + d)
  {
    hide Join;
    assert ([b] + d)[1..] == d && [b][1..] == [];
    if r.Value? {
      assert JoinAll(r.v, [b] + d) == Join(JoinAll(r.v, d), b);
      var w := JoinAll(r.v, d);
      assert JoinAll(w, [b]) == Join(JoinAll(w, []), b);
    }
  }

  lemma LiftNone(r: Scan)
    ensures Lift(r, []) == r
  {}

  /** A scan steps over `n` continuing bytes. */
  lemma {:induction false} LebSkip(s: seq<byte>, p: nat, n: nat, room: nat := MAX_VARINT_LEN)
    requires p + n <= |s| && n < room && forall i | p <= i < p + n :: Continues(s[i])
    ensures Leb(s[p..], room) == Lift(Leb(s[p + n..], room - n), s[p..p + n])
    decreases n
  {
    hide Leb, Lift, Continues;
    if n == 0 {
      assert s[p..p] == [];
      LiftNone(Leb(s[p..], room));
    } else {
      LebSkip(s, p + 1, n - 1, room - 1);
      LebStep(s, p, room);
      LiftCons(Leb(s[p + n..], room - n), s[p], s[p + 1..p + n]);
      assert s[p..p + n] == [s[p]] + s[p + 1..p + n];
    }
  }

  /** `JoinAll` with the digits spelled out. */
  function Join8(v: bv64, b0: byte, b1: byte, b2: byte, b3: byte, b4: byte, b5: byte, b6: byte, b7: byte): bv64 {
    Join(Join(Join(Join(Join(Join(Join(Join(v, b7), b6), b5), b4), b3), b2), b1), b0)
  }

  lemma Join8Is(v: bv64, s: seq<byte>, p: nat)
    requires p + 8 <= |s|
    ensures JoinAll(v, s[p..p + 8])
        == Join8(v, s[p], s[p + 1], s[p + 2], s[p + 3], s[p + 4], s[p + 5], s[p + 6], s[p + 7])
  {
    hide Join;
    JoinPeel(v, s, p, p + 8); JoinPeel(v, s, p + 1, p + 8); JoinPeel(v, s, p + 2, p + 8); JoinPeel(v, s, p + 3, p + 8);
    JoinPeel(v, s, p + 4, p + 8); JoinPeel(v, s, p + 5, p + 8);
    JoinPeel(v, s, p + 6, p + 8); JoinPeel(v, s, p + 7, p + 8);
    assert s[p + 8..p + 8] == [];
  }

  lemma JoinPeel(v: bv64, s: seq<byte>, p: nat, q: nat)
    requires p < q <= |s|
    ensures JoinAll(v, s[p..q]) == Join(JoinAll(v, s[p + 1..q]), s[p])
  {
    assert s[p..q][1..] == s[p + 1..q];
  }

  lemma TerminatorBits(b0: byte, b1: byte, b2: byte, b3: byte, b4: byte, b5: byte, b6: byte, b7: byte, t: bv64)
    requires t == !Pack(b0, b1, b2, b3, b4, b5, b6, b7) & MSB
    ensures t & 0xFF == if Continues(b0) then 0 else 0x80
    ensures (t >> 8) & 0xFF == if Continues(b1) then 0 else 0x80
    ensures (t >> 16) & 0xFF == if Continues(b2) then 0 else 0x80
    ensures (t >> 24) & 0xFF == if Continues(b3) then 0 else 0x80
    ensures (t >> 32) & 0xFF == if Continues(b4) then 0 else 0x80
    ensures (t >> 40) & 0xFF == if Continues(b5) then 0 else 0x80
    ensures (t >> 48) & 0xFF == if Continues(b6) then 0 else 0x80
    ensures (t >> 56) & 0xFF == if Continues(b7) then 0 else 0x80
    ensures t == 0 <==> (Continues(b0) && Continues(b1) && Continues(b2) && Continues(b3)
                         && Continues(b4) && Continues(b5) && Continues(b6) && Continues(b7))
  {}

  /** One byte further up the word: either its terminator bit is the lowest set, or the count moves on. */
  lemma NextByte(t: bv64, lo: bv64, hi: bv64, b: byte)
    requires lo != 0 && hi == lo >> 8 && lo & 0xFF == if Continues(b) then 0 else 0x80
    ensures TrailingZeros(lo) == if Continues(b) then 8 + TrailingZeros(hi) else 7
    ensures Continues(b) ==> hi != 0
  {
    TrailingByte(lo);
  }

  /** The lowest clear continuation bit names the last byte of the varint. */
  lemma TerminatorAt(s: seq<byte>, p: nat)
    requires p + 8 <= |s|
    ensures var t := !Load64(s, p) & MSB;
            && (t == 0 <==> forall i | p <= i < p + 8 :: Continues(s[i]))
            && (t != 0 ==> var len := TrailingZeros(t) / 8 + 1;
                           len <= 8 && !Continues(s[p + len - 1]) && forall i | p <= i < p + len - 1 :: Continues(s[i]))
  {
    var t := !Load64(s, p) & MSB;
    TerminatorBits(s[p], s[p + 1], s[p + 2], s[p + 3], s[p + 4], s[p + 5], s[p + 6], s[p + 7], t);
    ByteShifts(t);
    var t1, t2, t3, t4 := t >> 8, t >> 16, t >> 24, t >> 32;
    var t5, t6, t7 := t >> 40, t >> 48, t >> 56;
    hide TrailingZeros, Pack, Load64, Continues;
    if t != 0 {
      NextByte(t, t, t1, s[p]);
      if Continues(s[p]) { NextByte(t, t1, t2, s[p + 1]);
        if Continues(s[p + 1]) { NextByte(t, t2, t3, s[p + 2]);
          if Continues(s[p + 2]) { NextByte(t, t3, t4, s[p + 3]);
            if Continues(s[p + 3]) { NextByte(t, t4, t5, s[p + 4]);
              if Continues(s[p + 4]) { NextByte(t, t5, t6, s[p + 5]);
                if Continues(s[p + 5]) { NextByte(t, t6, t7, s[p + 6]);
                  if Continues(s[p + 6]) { NextByte(t, t7, 0, s[p + 7]); } } } } } } }
    }
  }

  lemma ByteShifts(t: bv64)
    ensures (t >> 8) >> 8 == t >> 16 && (t >> 16) >> 8 == t >> 24 && (t >> 24) >> 8 == t >> 32
    ensures (t >> 32) >> 8 == t >> 40 && (t >> 40) >> 8 == t >> 48 && (t >> 48) >> 8 == t >> 56 && (t >> 56) >> 8 == 0
  {}
  /** The digits from byte `k` of an `n`-digit run on, and zero past its end. */
  function Tail(s: seq<byte>, p: nat, n: nat, k: nat): bv64
    requires p + n <= |s|
  {
    if k < n then JoinAll(0, s[p + k..p + n]) else 0
  }

  function Kept(s: seq<byte>, p: nat, n: nat, k: nat): byte
    requires p + n <= |s|
  {
    if k < n then s[p + k] else 0
  }

  lemma TailStep(s: seq<byte>, p: nat, n: nat, k: nat)
    requires p + n <= |s|
    ensures Tail(s, p, n, k) == Join(Tail(s, p, n, k + 1), Kept(s, p, n, k))
  {
    if k < n {
      JoinPeel(0, s, p + k, p + n);
    } else {
      assert Join(0, 0) == 0;
    }
  }

  lemma JoinShort(s: seq<byte>, p: nat, n: nat)
    requires 1 <= n <= 8 && p + n <= |s|
    ensures JoinAll(0, s[p..p + n]) == Join8(0, Kept(s, p, n, 0), Kept(s, p, n, 1), Kept(s, p, n, 2), Kept(s, p, n, 3),
                                             Kept(s, p, n, 4), Kept(s, p, n, 5), Kept(s, p, n, 6), Kept(s, p, n, 7))
  {
    hide Join, Tail, Kept, JoinAll;
    TailEnds(s, p, n);
    TailStep(s, p, n, 7); TailStep(s, p, n, 6); TailStep(s, p, n, 5); TailStep(s, p, n, 4);
    TailStep(s, p, n, 3); TailStep(s, p, n, 2); TailStep(s, p, n, 1); TailStep(s, p, n, 0);
  }

  lemma TailEnds(s: seq<byte>, p: nat, n: nat)
    requires 1 <= n <= 8 && p + n <= |s|
    ensures Tail(s, p, n, 0) == JoinAll(0, s[p..p + n]) && Tail(s, p, n, 8) == 0
  {}

  // Three shift-and-mask rounds join the digits; the mask takes those past the terminator to zero.
  // One statement per length: the solver settles each by itself in no time, and not all at once.

  lemma Compact1Bytes(b0: byte, b1: byte, b2: byte, b3: byte, b4: byte, b5: byte, b6: byte, b7: byte)
    ensures Compact7(Masked(Pack(b0, b1, b2, b3, b4, b5, b6, b7), 0x7F)) == Join8(0, b0, 0, 0, 0, 0, 0, 0, 0)
  {}

  lemma Compact2Bytes(b0: byte, b1: byte, b2: byte, b3: byte, b4: byte, b5: byte, b6: byte, b7: byte)
    ensures Compact7(Masked(Pack(b0, b1, b2, b3, b4, b5, b6, b7), 0x7F7F)) == Join8(0, b0, b1, 0, 0, 0, 0, 0, 0)
  {}

  lemma Compact3Bytes(b0: byte, b1: byte, b2: byte, b3: byte, b4: byte, b5: byte, b6: byte, b7: byte)
    ensures Compact7(Masked(Pack(b0, b1, b2, b3, b4, b5, b6, b7), 0x7F7F7F)) == Join8(0, b0, b1, b2, 0, 0, 0, 0, 0)
  {}

  lemma Compact4Bytes(b0: byte, b1: byte, b2: byte, b3: byte, b4: byte, b5: byte, b6: byte, b7: byte)
    ensures Compact7(Masked(Pack(b0, b1, b2, b3, b4, b5, b6, b7), 0x7F7F7F7F)) == Join8(0, b0, b1, b2, b3, 0, 0, 0, 0)
  {}

  lemma Compact5Bytes(b0: byte, b1: byte, b2: byte, b3: byte, b4: byte, b5: byte, b6: byte, b7: byte)
    ensures Compact7(Masked(Pack(b0, b1, b2, b3, b4, b5, b6, b7), 0x7F7F7F7F7F))
        == Join8(0, b0, b1, b2, b3, b4, 0, 0, 0)
  {}

  lemma Compact6Bytes(b0: byte, b1: byte, b2: byte, b3: byte, b4: byte, b5: byte, b6: byte, b7: byte)
    ensures Compact7(Masked(Pack(b0, b1, b2, b3, b4, b5, b6, b7), 0x7F7F7F7F7F7F))
        == Join8(0, b0, b1, b2, b3, b4, b5, 0, 0)
  {}

  lemma Compact7Bytes(b0: byte, b1: byte, b2: byte, b3: byte, b4: byte, b5: byte, b6: byte, b7: byte)
    ensures Compact7(Masked(Pack(b0, b1, b2, b3, b4, b5, b6, b7), 0x7F7F7F7F7F7F7F))
        == Join8(0, b0, b1, b2, b3, b4, b5, b6, 0)
  {}

  lemma Compact8Bytes(b0: byte, b1: byte, b2: byte, b3: byte, b4: byte, b5: byte, b6: byte, b7: byte)
    ensures Compact7(Masked(Pack(b0, b1, b2, b3, b4, b5, b6, b7), 0x7F7F7F7F7F7F7F7F))
        == Join8(0, b0, b1, b2, b3, b4, b5, b6, b7)
  {}

  lemma KeepConstants()
    ensures Keep7(1) == 0x7F && Keep7(2) == 0x7F7F && Keep7(3) == 0x7F7F7F && Keep7(4) == 0x7F7F7F7F
    ensures Keep7(5) == 0x7F7F7F7F7F && Keep7(6) == 0x7F7F7F7F7F7F && Keep7(7) == 0x7F7F7F7F7F7F7F
    ensures Keep7(8) == LOW7
  {}

  function Masked(w: bv64, mask: bv64): bv64 { w & mask }

  lemma CompactPrefix(s: seq<byte>, p: nat, n: nat)
    requires 1 <= n <= 8 && p + 8 <= |s|
    ensures Compact7(Masked(Load64(s, p), Keep7(n))) == JoinAll(0, s[p..p + n])
  {
    JoinShort(s, p, n);
    CompactKept(s, p, n);
    hide Join8, Compact7, Pack, JoinAll, Kept, Masked, Keep7;
  }

  lemma CompactKept(s: seq<byte>, p: nat, n: nat)
    requires 1 <= n <= 8 && p + 8 <= |s|
    ensures Compact7(Masked(Load64(s, p), Keep7(n)))
         == Join8(0, Kept(s, p, n, 0), Kept(s, p, n, 1), Kept(s, p, n, 2), Kept(s, p, n, 3),
                  Kept(s, p, n, 4), Kept(s, p, n, 5), Kept(s, p, n, 6), Kept(s, p, n, 7))
  {
    hide Join8, Compact7, Pack, Keep7, Masked;
    KeepConstants();
    match n
    case 1 => Compact1Bytes(s[p], s[p + 1], s[p + 2], s[p + 3], s[p + 4], s[p + 5], s[p + 6], s[p + 7]);
    case 2 => Compact2Bytes(s[p], s[p + 1], s[p + 2], s[p + 3], s[p + 4], s[p + 5], s[p + 6], s[p + 7]);
    case 3 => Compact3Bytes(s[p], s[p + 1], s[p + 2], s[p + 3], s[p + 4], s[p + 5], s[p + 6], s[p + 7]);
    case 4 => Compact4Bytes(s[p], s[p + 1], s[p + 2], s[p + 3], s[p + 4], s[p + 5], s[p + 6], s[p + 7]);
    case 5 => Compact5Bytes(s[p], s[p + 1], s[p + 2], s[p + 3], s[p + 4], s[p + 5], s[p + 6], s[p + 7]);
    case 6 => Compact6Bytes(s[p], s[p + 1], s[p + 2], s[p + 3], s[p + 4], s[p + 5], s[p + 6], s[p + 7]);
    case 7 => Compact7Bytes(s[p], s[p + 1], s[p + 2], s[p + 3], s[p + 4], s[p + 5], s[p + 6], s[p + 7]);
    case _ => Compact8Bytes(s[p], s[p + 1], s[p + 2], s[p + 3], s[p + 4], s[p + 5], s[p + 6], s[p + 7]);
  }

  lemma {:induction false} JoinAllEnd(v: bv64, s: seq<byte>, p: nat, q: nat)
    requires p <= q < |s|
    ensures JoinAll(v, s[p..q + 1]) == JoinAll(Join(v, s[q]), s[p..q])
    decreases q - p
  {
    hide Join;
    JoinPeel(v, s, p, q + 1);
    if p < q {
      JoinPeel(Join(v, s[q]), s, p, q);
      JoinAllEnd(v, s, p + 1, q);
    } else {
      assert s[q + 1..q + 1] == [] && s[p..q] == [];
    }
  }

  lemma LastJoins(b: byte)
    ensures !Continues(b) ==> Join(0, b) == Last(b)
  {}

  /** The one-mask read is the LEB128 reading, for every length the first eight bytes can decide. */
  lemma WideRead(s: seq<byte>, p: nat, n: nat)
    requires 1 <= n <= 8 && p + 8 <= |s|
    requires !Continues(s[p + n - 1]) && forall i | p <= i < p + n - 1 :: Continues(s[i])
    ensures Leb(s[p..]) == Value(Compact7(Masked(Load64(s, p), Keep7(n))), n)
  {
    hide Join, Last, Continues, Compact7, Load64, Keep7, JoinAll, Masked;
    LebSkip(s, p, n - 1);
    CompactPrefix(s, p, n);
    JoinAllEnd(0, s, p, p + n - 1);
    LastJoins(s[p + n - 1]);
    assert s[p + n - 1..][0] == s[p + n - 1];
  }

  function WithNinth(low: bv64, b8: byte): bv64 { low | (((b8 & 0x7F) as bv64) << 56) }
  function WithTenth(low: bv64, b9: byte): bv64 { low | ((b9 as bv64) << 63) }

  /** Nine and ten bytes: the first eight carry 56 bits, the ninth seven more, the tenth only bit 63. */
  lemma WideLong(s: seq<byte>, p: nat)
    requires p + 10 <= |s| && forall i | p <= i < p + 8 :: Continues(s[i])
    ensures var low := WithNinth(Compact7(Masked(Load64(s, p), LOW7)), s[p + 8]);
            Leb(s[p..]) == if !Continues(s[p + 8]) then Value(low, 9)
                           else if TooBig(s[p + 9]) then Over else Value(WithTenth(low, s[p + 9]), 10)
  {
    hide Join, Join8, Last, Compact7, Pack, JoinAll, Continues, TooBig, WithNinth, WithTenth, Masked;
    LebSkip(s, p, 8);
    LebTwo(s[p + 8..]);
    CompactEight(s, p);
    Join8Is(Last(s[p + 8]), s, p);
    Join8Is(Join(Last(s[p + 9]), s[p + 8]), s, p);
    if !Continues(s[p + 8]) {
      NinthDigit(s[p], s[p + 1], s[p + 2], s[p + 3], s[p + 4], s[p + 5], s[p + 6], s[p + 7], s[p + 8]);
    } else if !TooBig(s[p + 9]) {
      TenthDigit(s[p], s[p + 1], s[p + 2], s[p + 3], s[p + 4], s[p + 5], s[p + 6], s[p + 7], s[p + 8], s[p + 9]);
    }
  }

  lemma CompactEight(s: seq<byte>, p: nat)
    requires p + 8 <= |s|
    ensures Compact7(Masked(Load64(s, p), LOW7))
         == Join8(0, s[p], s[p + 1], s[p + 2], s[p + 3], s[p + 4], s[p + 5], s[p + 6], s[p + 7])
  {
    hide Join8, Compact7, Pack, Masked;
    Compact8Bytes(s[p], s[p + 1], s[p + 2], s[p + 3], s[p + 4], s[p + 5], s[p + 6], s[p + 7]);
  }

  lemma LebTwo(s: seq<byte>)
    requires |s| >= 2
    ensures Leb(s, 2) == if !Continues(s[0]) then Value(Last(s[0]), 1)
                         else if TooBig(s[1]) then Over else Value(Join(Last(s[1]), s[0]), 2)
  {
    hide Continues, TooBig, Last, Join;
  }

  lemma NinthDigit(b0: byte, b1: byte, b2: byte, b3: byte, b4: byte, b5: byte, b6: byte, b7: byte, b8: byte)
    requires !Continues(b8)
    ensures Join8(Last(b8), b0, b1, b2, b3, b4, b5, b6, b7) == WithNinth(Join8(0, b0, b1, b2, b3, b4, b5, b6, b7), b8)
  {}

  lemma TenthDigit(b0: byte, b1: byte, b2: byte, b3: byte, b4: byte, b5: byte, b6: byte, b7: byte, b8: byte, b9: byte)
    requires !TooBig(b9)
    ensures Join8(Join(Last(b9), b8), b0, b1, b2, b3, b4, b5, b6, b7)
        == WithTenth(WithNinth(Join8(0, b0, b1, b2, b3, b4, b5, b6, b7), b8), b9)
  {}

  // ---- the byte loop of a buffer's last bytes -------------------------------------------------

  /** The bit position of digit `k`. */
  function ShiftOf(k: nat): bv64 { if k == 0 then 0 else ShiftOf(k - 1) + 7 }

  lemma ShiftBound(k: nat)
    requires k <= 8
    ensures ShiftOf(k) <= 56
  {
    assert ShiftOf(2) == 14 && ShiftOf(3) == 21 && ShiftOf(4) == 28;
    assert ShiftOf(5) == 35 && ShiftOf(6) == 42;
    assert ShiftOf(7) == 49 && ShiftOf(8) == 56;
  }

  function Shifted(v: bv64, shift: bv64): bv64
    requires shift <= 63
  {
    v << shift
  }

  lemma ShiftMoreLow(v: bv64, shift: bv64)
    requires shift <= 24
    ensures Shifted(v, shift + 7) == Up(Shifted(v, shift))
  {}

  lemma ShiftMoreHigh(v: bv64, shift: bv64)
    requires 24 < shift <= 56
    ensures Shifted(v, shift + 7) == Up(Shifted(v, shift))
  {}

  lemma ShiftMore(v: bv64, shift: bv64)
    requires shift <= 56
    ensures Shifted(v, shift + 7) == Up(Shifted(v, shift))
  {
    hide Shifted, Up;
    if shift <= 24 { ShiftMoreLow(v, shift); } else { ShiftMoreHigh(v, shift); }
  }

  function Up(v: bv64): bv64 { v << 7 }

  function Ups(v: bv64, k: nat): bv64 { if k == 0 then v else Up(Ups(v, k - 1)) }

  function Or(v: bv64, w: bv64): bv64 { v | w }

  lemma JoinOr(v: bv64, w: bv64, b: byte)
    ensures Join(Or(v, w), b) == Or(Join(v, b), Up(w))
  {}

  lemma OrZero(v: bv64)
    ensures Or(0, v) == v
  {}

  lemma {:induction false} JoinAllOr(v: bv64, d: seq<byte>)
    ensures JoinAll(v, d) == Or(JoinAll(0, d), Ups(v, |d|))
    decreases |d|
  {
    OrZero(v);
    hide Join, Or, Up;
    if d != [] {
      JoinAllOr(v, d[1..]);
      JoinOr(JoinAll(0, d[1..]), Ups(v, |d| - 1), d[0]);
    }
  }

  lemma ShiftNone(v: bv64)
    ensures Shifted(v, 0) == v
  {}

  lemma {:induction false} UpsShift(v: bv64, k: nat)
    requires k <= 8
    ensures ShiftOf(k) <= 56 && Shifted(v, ShiftOf(k)) == Ups(v, k)
  {
    ShiftBound(k);
    if k == 0 {
      ShiftNone(v);
    } else {
      UpsShift(v, k - 1);
      ShiftMore(v, ShiftOf(k - 1));
      hide Shifted, Up;
    }
  }

  /** `value |= (byte & 0x7F) << shift` puts digit `k` on top of the `k` digits read so far. */
  lemma PlaceDigit(s: seq<byte>, p: nat, k: nat)
    requires k <= 8 && p + k < |s|
    ensures ShiftOf(k) <= 56
    ensures Or(JoinAll(0, s[p..p + k]), Shifted((s[p + k] & 0x7F) as bv64, ShiftOf(k))) == JoinAll(0, s[p..p + k + 1])
  {
    hide Or, JoinAll, Ups;
    JoinAllEnd(0, s, p, p + k);
    JoinAllOr(Join(0, s[p + k]), s[p..p + k]);
    UpsShift(Join(0, s[p + k]), k);
    assert Join(0, s[p + k]) == (s[p + k] & 0x7F) as bv64;
    hide Join, Or, Shifted, JoinAll, Ups;
  }
  // ---- writing --------------------------------------------------------------------------------

  /** Base-128 digit `i` of `v`, lowest first. */
  function Digit(v: bv64, i: nat): byte {
    if i == 0 then Low7(v) else Digit(Rest(v), i - 1)
  }

  function OrByte(b: byte, c: byte): byte { b | c }

  function Low7(v: bv64): byte { (v & 0x7F) as byte }

  lemma {:induction false} EncodeDigits(v: bv64, i: nat)
    requires i < |Encode(v)|
    ensures Encode(v)[i] == if i < |Encode(v)| - 1 then OrByte(Digit(v, i), 0x80) else Digit(v, i)
    decreases i
  {
    MoreFinal(v);
    hide Rest, OneDigit, More, Final, OrByte;
    if i > 0 {
      EncodeDigits(Rest(v), i - 1);
    }
  }

  lemma MoreFinal(v: bv64)
    ensures More(v) == OrByte(Digit(v, 0), 0x80)
    ensures OneDigit(v) ==> Final(v) == Digit(v, 0)
  {}

  function Half(v: bv64): (h: bv64) ensures v == 0 || h < v { v >> 1 }

  /** `u64::BITS - v.leading_zeros()`. */
  function BitLen(v: bv64): nat
    decreases v
  {
    if v == 0 then 0 else 1 + BitLen(Half(v))
  }

  function VarintLen(v: bv64): nat {
    ((if BitLen(v) == 0 then 1 else BitLen(v)) + 6) / 7
  }

  lemma BitLenHalf(v: bv64)
    ensures BitLen(v) <= 1 + BitLen(Half(v))
    ensures Half(v) != 0 ==> BitLen(v) == 1 + BitLen(Half(v))
    ensures v == 0 ==> Half(v) == 0
    ensures BitLen(v) == 0 <==> v == 0
  {}

  lemma SevenHalves(v: bv64)
    ensures Half(Half(Half(Half(Half(Half(Half(v))))))) == Rest(v)
  {}

  lemma BitLenRest(v: bv64)
    ensures Rest(v) == 0 ==> BitLen(v) <= 7
    ensures Rest(v) != 0 ==> BitLen(v) == 7 + BitLen(Rest(v))
  {
    SevenHalves(v);
    hide BitLen, Half, Rest;
    var a := Half(v); var b := Half(a); var c := Half(b); var d := Half(c); var e := Half(d); var f := Half(e);
    BitLenHalf(v); BitLenHalf(a); BitLenHalf(b); BitLenHalf(c); BitLenHalf(d); BitLenHalf(e); BitLenHalf(f);
    BitLenHalf(Rest(v));
  }

  /** The bit-length formula counts the digits `Encode` writes. */
  lemma {:induction false} VarintLenIs(v: bv64)
    ensures VarintLen(v) == |Encode(v)|
    decreases v
  {
    BitLenRest(v);
    OneDigitIs(v);
    hide Rest, OneDigit, BitLen, More, Final;
    if !OneDigit(v) {
      VarintLenIs(Rest(v));
      BitLenHalf(Rest(v));
    }
  }

  lemma OneDigitIs(v: bv64)
    ensures OneDigit(v) <==> Rest(v) == 0
  {}
  /** `v` without its `i` lowest digits. */
  function Shr(v: bv64, i: nat): bv64
    requires i <= 9
  {
    match i
    case 0 => v
    case 1 => v >> 7
    case 2 => v >> 14
    case 3 => v >> 21
    case 4 => v >> 28
    case 5 => v >> 35
    case 6 => v >> 42
    case 7 => v >> 49
    case 8 => v >> 56
    case _ => v >> 63
  }

  lemma RestShr(v: bv64, i: nat)
    requires i <= 8
    ensures Shr(Rest(v), i) == Shr(v, i + 1)
  {
    match i case 0 => case 1 => case 2 => case 3 => case 4 => case 5 => case 6 => case 7 => case _ =>
  }

  lemma {:induction false} DigitIs(v: bv64, i: nat)
    requires i <= 9
    ensures Digit(v, i) == Low7(Shr(v, i))
    decreases i
  {
    if i > 0 {
      RestShr(v, i - 1);
      DigitIs(Rest(v), i - 1);
      hide Shr, Low7, Rest;
    }
  }

  /** Byte `i` of a word, little-endian. */
  function WordByte(w: bv64, i: nat): byte
    requires i < 8
  {
    match i
    case 0 => (w & 0xFF) as byte
    case 1 => ((w >> 8) & 0xFF) as byte
    case 2 => ((w >> 16) & 0xFF) as byte
    case 3 => ((w >> 24) & 0xFF) as byte
    case 4 => ((w >> 32) & 0xFF) as byte
    case 5 => ((w >> 40) & 0xFF) as byte
    case 6 => ((w >> 48) & 0xFF) as byte
    case _ => ((w >> 56) & 0xFF) as byte
  }

  /** `Spread7` puts one digit in each byte, the inverse of `Compact7`. */
  lemma SpreadDigit(v: bv64, i: nat)
    requires i < 8
    ensures WordByte(Spread7(v), i) == Low7(Shr(v, i))
  {
    match i case 0 => case 1 => case 2 => case 3 => case 4 => case 5 => case 6 => case _ =>
  }

  lemma SpreadCompact(v: bv64)
    ensures Compact7(Spread7(v)) == v & 0x00FF_FFFF_FFFF_FFFF
  {}

  lemma OrBytes(x: bv64, y: bv64, i: nat)
    requires i < 8
    ensures WordByte(Or(x, y), i) == OrByte(WordByte(x, i), WordByte(y, i))
  {
    match i case 0 => case 1 => case 2 => case 3 => case 4 => case 5 => case 6 => case _ =>
  }

  lemma ContConstants()
    ensures Cont(1) == 0 && Cont(2) == 0x80 && Cont(3) == 0x8080 && Cont(4) == 0x80_8080 && Cont(5) == 0x8080_8080
    ensures Cont(6) == 0x80_8080_8080 && Cont(7) == 0x8080_8080_8080 && Cont(8) == 0x80_8080_8080_8080
  {}

  lemma ContByte(n: nat, i: nat)
    requires 1 <= n <= 8 && i < 8
    ensures WordByte(Cont(n), i) == if i < n - 1 then 0x80 else 0
  {
    ContConstants();
    match n case 1 => case 2 => case 3 => case 4 => case 5 => case 6 => case 7 => case _ =>
  }

  lemma MsbByte(i: nat)
    requires i < 8
    ensures WordByte(MSB, i) == 0x80
  {}

  /** The single eight-byte store is the minimal form, for every value below 2^56. */
  lemma ShortWord(v: bv64, i: nat)
    requires |Encode(v)| <= 8 && i < |Encode(v)|
    ensures WordByte(Or(Spread7(v), Cont(|Encode(v)|)), i) == Encode(v)[i]
  {
    hide WordByte, Spread7, Cont, Digit, Low7, Shr, Encode, Or, OrByte;
    var n := |Encode(v)|;
    OrBytes(Spread7(v), Cont(n), i);
    SpreadDigit(v, i);
    ContByte(n, i);
    DigitIs(v, i);
    EncodeDigits(v, i);
    if i == n - 1 {
      OrZeroByte(Digit(v, i));
    }
  }

  lemma OrZeroByte(b: byte)
    ensures OrByte(b, 0) == b
  {}

  /** A value that needs 57 bits or more fills eight continuing bytes. */
  lemma LongWord(v: bv64, i: nat)
    requires |Encode(v)| > 8 && i < 8
    ensures WordByte(Or(Spread7(v), MSB), i) == Encode(v)[i]
  {
    hide WordByte, Spread7, Digit, Low7, Shr, Encode, Or, OrByte;
    OrBytes(Spread7(v), MSB, i);
    SpreadDigit(v, i);
    MsbByte(i);
    DigitIs(v, i);
    EncodeDigits(v, i);
  }

  lemma ShrZero(k: nat)
    requires k <= 9
    ensures Shr(0, k) == 0
  {}

  predicate Gone(v: bv64) { v == 0 }

  lemma RestGone(v: bv64, k: nat)
    requires 1 <= k <= 9
    ensures OneDigit(v) <==> Gone(Rest(v))
    ensures OneDigit(v) ==> Gone(Shr(v, k))
    ensures k == 1 ==> Shr(v, k) == Rest(v)
  {
    RestShr(v, k - 1);
    ShrZero(k - 1);
    OneDigitIs(v);
    hide Shr, Rest, OneDigit;
    ShrNone(Rest(v));
  }

  lemma DropCons(b: byte, s: seq<byte>, k: nat)
    requires 1 <= k <= |s| + 1
    ensures ([b] + s)[k..] == s[k - 1..]
  {}

  /** Dropping `k` digits drops `k` bytes, and there are more than `k` exactly when a bit is left. */
  lemma {:induction false} EncodeShr(v: bv64, k: nat)
    requires 1 <= k <= 9
    ensures Gone(Shr(v, k)) <==> |Encode(v)| <= k
    ensures !Gone(Shr(v, k)) ==> Encode(v)[k..] == Encode(Shr(v, k))
    decreases k
  {
    RestGone(v, k);
    RestShr(v, k - 1);
    hide Shr, Rest, OneDigit, More, Final, Gone;
    if !OneDigit(v) {
      if k > 1 {
        EncodeShr(Rest(v), k - 1);
      }
      if k <= |Encode(v)| {
        DropCons(More(v), Encode(Rest(v)), k);
      }
    }
  }

  lemma ShrNone(v: bv64)
    ensures Shr(v, 0) == v
  {}

  /** The payload past the first eight digits. */
  function High(v: bv64): (h: bv64) ensures h <= 0xFF { v >> 56 }
  predicate Bit63(v: bv64) { v >> 63 == 1 }

  /** Which of the three store shapes a value takes, and the bytes past the eighth. */
  lemma StoreShape(v: bv64)
    ensures High(v) == 0 <==> |Encode(v)| <= 8
    ensures High(v) != 0 && !Bit63(v) ==> Encode(v)[8..] == [High(v) as byte]
    ensures Bit63(v) ==> High(v) != 0 && Encode(v)[8..] == [OrByte(High(v) as byte, 0x80), 1]
  {
    EncodeShr(v, 8);
    HighIs(v);
    NinthAndTenth(v);
    hide High, Shr, Bit63, OrByte, Encode;
  }

  lemma HighIs(v: bv64)
    ensures Shr(v, 8) == High(v)
  {}

  lemma NinthAndTenth(v: bv64)
    ensures !Bit63(v) ==> Encode(High(v)) == [High(v) as byte]
    ensures Bit63(v) ==> High(v) != 0 && Encode(High(v)) == [OrByte(High(v) as byte, 0x80), 1]
  {
    var h := High(v);
    assert OneDigit(h) <==> !Bit63(v);
    if Bit63(v) {
      assert Rest(h) == 1 && More(h) == OrByte(h as byte, 0x80);
      assert Encode(1) == [1];
    }
  }
}

/** The varint cursor operations of src/varint.rs: reading over a slice, writing into a buffer, ZigZag. */
module Varint {
  import opened Leb128
  import opened Swar

  // ---- reading -------------------------------------------------------------------------------

  /** What a reading says about the bytes in front of the cursor. */
  ghost predicate Reads(r: Result<Option<bv64>>, pos: nat, pos': nat, scan: Scan) {
    match scan
    case Value(v, n) => r == Ok(Some(v)) && pos' == pos + n
    case Short => r == Ok(None) && pos' == pos
    case Over => r == Err(InvalidMsg)
  }

  method ReadVarint(buf: seq<byte>, pos: nat) returns (r: Result<Option<bv64>>, pos': nat)
    ensures pos <= |buf| ==> Reads(r, pos, pos', Leb(buf[pos..]))
    ensures pos > |buf| ==> r == Ok(None) && pos' == pos
  {
    pos' := pos;
    if pos >= |buf| {
      return Ok(None), pos;
    }
    var b0 := buf[pos];
    if b0 < 0x80 {
      return Ok(Some(b0 as bv64)), pos + 1;
    }
    if |buf| - pos >= MAX_VARINT_LEN {
      var w;
      w, pos' := ReadVarintWide(buf, pos);
      r := match w case Ok(v) => Ok(Some(v)) case Err(e) => Err(e);
    } else {
      var t := ReadVarintTail(buf, pos);
      match t {
        case Some((v, len)) => return Ok(Some(v)), pos + len;
        case None => return Ok(None), pos;
      }
    }
  }

  /** `ReadVarint` where ten bytes are known to be readable. */
  method ReadVarintReady(buf: seq<byte>, pos: nat) returns (r: Result<bv64>, pos': nat)
    requires pos + MAX_VARINT_LEN <= |buf|
    ensures match Leb(buf[pos..])
            case Value(v, n) => r == Ok(v) && pos' == pos + n
            case Short => false
            case Over => r == Err(InvalidMsg)
  {
    var b0 := buf[pos];
    if b0 < 0x80 {
      return Ok(b0 as bv64), pos + 1;
    }
    r, pos' := ReadVarintWide(buf, pos);
  }

  method ReadVarintWide(buf: seq<byte>, pos: nat) returns (r: Result<bv64>, pos': nat)
    requires pos + MAX_VARINT_LEN <= |buf|
    ensures match Leb(buf[pos..])
            case Value(v, n) => r == Ok(v) && pos' == pos + n
            case Short => false
            case Over => r == Err(InvalidMsg)
  {
    pos' := pos;
    var w := Load64(buf, pos);
    var terminators := !w & MSB;
    TerminatorAt(buf, pos);
    if terminators != 0 {
      var len := TrailingZeros(terminators) / 8 + 1;
      WideRead(buf, pos, len);
      return Ok(Compact7(Masked(w, Keep7(len)))), pos + len;
    }
    WideLong(buf, pos);
    var b8 := buf[pos + 8];
    var value := WithNinth(Compact7(Masked(w, LOW7)), b8);
    if b8 < 0x80 {
      return Ok(value), pos + 9;
    }
    var b9 := buf[pos + 9];
    if b9 > 1 {
      return Err(InvalidMsg), pos;
    }
    return Ok(WithTenth(value, b9)), pos + MAX_VARINT_LEN;
  }

  /** The checked byte loop of a buffer's last nine bytes, which may run out mid-varint. */
  method ReadVarintTail(buf: seq<byte>, start: nat) returns (r: Option<(bv64, nat)>)
    requires start <= |buf| < start + MAX_VARINT_LEN
    ensures match Leb(buf[start..])
            case Value(v, n) => r == Some((v, n))
            case Short => r == None
            case Over => false
  {
    hide JoinAll, Or, Shifted, Leb, Continues, ShiftOf;
    ShiftStarts();
    var value: bv64, shift: bv64, i := 0, 0, start;
    JoinNone(0, buf, start);
    while i < |buf|
      invariant start <= i <= |buf|
      invariant shift == ShiftOf(i - start)
      invariant value == JoinAll(0, buf[start..i])
      invariant forall k | start <= k < i :: Continues(buf[k])
    {
      var b := buf[i];
      PlaceDigit(buf, start, i - start);
      value := Or(value, Shifted((b & 0x7F) as bv64, shift));
      if !Continues(b) {
        TailDone(buf, start, i);
        return Some((value, i + 1 - start));
      }
      ShiftNext(i - start);
      i := i + 1;
      shift := shift + 7;
    }
    TailShort(buf, start);
    return None;
  }

  lemma ShiftStarts()
    ensures ShiftOf(0) == 0
  {}

  lemma ShiftNext(k: nat)
    ensures ShiftOf(k + 1) == ShiftOf(k) + 7
  {}

  lemma JoinNone(v: bv64, s: seq<byte>, p: nat)
    requires p <= |s|
    ensures JoinAll(v, s[p..p]) == v
  {}

  lemma TailDone(buf: seq<byte>, start: nat, i: nat)
    requires start <= i < |buf| < start + MAX_VARINT_LEN
    requires !Continues(buf[i]) && forall k | start <= k < i :: Continues(buf[k])
    ensures Leb(buf[start..]) == Value(JoinAll(0, buf[start..i + 1]), i + 1 - start)
  {
    hide Join, Continues, JoinAll, Last, TooBig;
    LebSkip(buf, start, i - start);
    JoinAllEnd(0, buf, start, i);
    LastJoins(buf[i]);
    assert buf[i..][0] == buf[i];
  }

  lemma TailShort(buf: seq<byte>, start: nat)
    requires start <= |buf| < start + MAX_VARINT_LEN
    requires forall k | start <= k < |buf| :: Continues(buf[k])
    ensures Leb(buf[start..]) == Short
  {
    ShortIff(buf[start..]);
  }

  // ---- writing -------------------------------------------------------------------------------

  /** The eight-byte little-endian store. */
  method StoreWord(buf: array<byte>, at: nat, w: bv64)
    requires at + 8 <= buf.Length
    modifies buf
    ensures forall i | 0 <= i < 8 :: buf[at + i] == WordByte(w, i)
    ensures forall i | 0 <= i < buf.Length && !(at <= i < at + 8) :: buf[i] == old(buf[i])
  {
    buf[at] := WordByte(w, 0);
    buf[at + 1] := WordByte(w, 1);
    buf[at + 2] := WordByte(w, 2);
    buf[at + 3] := WordByte(w, 3);
    buf[at + 4] := WordByte(w, 4);
    buf[at + 5] := WordByte(w, 5);
    buf[at + 6] := WordByte(w, 6);
    buf[at + 7] := WordByte(w, 7);
  }

  /** Writes eight to ten bytes of which the first `n` are the minimal form; nothing outside the
      ten reserved bytes changes. */
  method WriteVarintUnchecked(buf: array<byte>, at: nat, value: bv64) returns (n: nat)
    requires at + MAX_VARINT_LEN <= buf.Length
    modifies buf
    ensures n == |Encode(value)| <= MAX_VARINT_LEN
    ensures buf[at..at + n] == Encode(value)
    ensures buf[..at] == old(buf[..at])
    ensures buf[at + MAX_VARINT_LEN..] == old(buf[at + MAX_VARINT_LEN..])
  {
    hide WordByte, Spread7, Or, Encode, Cont, High, Bit63;
    var spread := Spread7(value);
    FitsTen(value);
    StoreShape(value);
    if High(value) == 0 {
      VarintLenIs(value);
      n := VarintLen(value);
      StoreWord(buf, at, Or(spread, Cont(n)));
      forall i | 0 <= i < n ensures buf[at + i] == Encode(value)[i] {
        ShortWord(value, i);
      }
      return;
    }
    StoreWord(buf, at, Or(spread, MSB));
    forall i | 0 <= i < 8 ensures buf[at + i] == Encode(value)[i] {
      LongWord(value, i);
    }
    assert buf[at..at + 8] == Encode(value)[..8];
    var hi := High(value) as byte;
    if !Bit63(value) {
      buf[at + 8] := hi;
      n := 9;
      assert buf[at..at + n] == Encode(value)[..8] + Encode(value)[8..];
    } else {
      buf[at + 8] := OrByte(hi, 0x80);
      buf[at + 9] := 1;
      n := MAX_VARINT_LEN;
      assert buf[at..at + n] == Encode(value)[..8] + Encode(value)[8..];
    }
  }

  /** The same, with a one-byte case of its own. */
  method WriteVarintNarrow(buf: array<byte>, at: nat, value: bv64) returns (n: nat)
    requires at + MAX_VARINT_LEN <= buf.Length
    modifies buf
    ensures n == |Encode(value)| <= MAX_VARINT_LEN
    ensures buf[at..at + n] == Encode(value)
    ensures buf[..at] == old(buf[..at])
    ensures buf[at + MAX_VARINT_LEN..] == old(buf[at + MAX_VARINT_LEN..])
  {
    if value < 0x80 {
      buf[at] := value as byte;
      return 1;
    }
    n := WriteVarintUnchecked(buf, at, value);
  }

  // ---- ZigZag --------------------------------------------------------------------------------

  /** An `i64` as its two's complement bits. */
  type Signed = bv64

  predicate Negative(v: Signed) { v >> 63 == 1 }

  /** The arithmetic shift `v >> 63`. */
  function SignFill(v: Signed): bv64 { if Negative(v) then ONES else 0 }

  function Double(v: bv64): bv64 { v << 1 }
  function Complement(v: bv64): bv64 { !v }
  function Xor(v: bv64, w: bv64): bv64 { v ^ w }

  function ZigzagEncode(v: Signed): bv64 { Xor(Double(v), SignFill(v)) }

  function ZigzagDecode(u: bv64): Signed { Xor(u >> 1, 0 - (u & 1)) }

  // A bijection between `i64` and `u64` that interleaves the signs: `2v` for a non-negative `v`, and
  // for a negative one `2(-v - 1) + 1`, where `-v - 1` is the complement.

  lemma ZigzagRoundTrip(v: Signed)
    ensures ZigzagDecode(ZigzagEncode(v)) == v
  {
    hide ZigzagEncode, ZigzagDecode, Complement, Double, Negative;
    ZigzagInterleaves(v);
    if Negative(v) { UnzigzagOdd(v); } else { UnzigzagEven(v); }
  }

  lemma ZigzagOnto(u: bv64)
    ensures ZigzagEncode(ZigzagDecode(u)) == u
    ensures Negative(ZigzagDecode(u)) <==> u & 1 == 1
  {}

  lemma ZigzagInterleaves(v: Signed)
    ensures ZigzagEncode(v) == if Negative(v) then Double(Complement(v)) + 1 else Double(v)
  {
    hide Complement, Double, Negative, Xor;
    if Negative(v) { XorOnes(v); } else { XorZero(Double(v)); }
  }

  lemma XorOnes(v: bv64)
    ensures Xor(Double(v), ONES) == Double(Complement(v)) + 1
  {}

  lemma XorZero(v: bv64)
    ensures Xor(v, 0) == v
  {}

  lemma UnzigzagOdd(v: Signed)
    requires Negative(v)
    ensures ZigzagDecode(Double(Complement(v)) + 1) == v
  {}

  lemma UnzigzagEven(v: Signed)
    requires !Negative(v)
    ensures ZigzagDecode(Double(v)) == v
  {}
}

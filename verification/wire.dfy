/** The wire format's constants, words and callbacks (src/types.rs, src/istream.rs, src/ostream.rs). */
module Wire {
  import opened Leb128

  type Id = bv32
  const ID_MAX: Id := 0x7FFF_FFFF
  const LEN_MAX: nat := 0x7FFF_FFFF
  const MAX_DEPTH: nat := 255

  // Wire field types, the low three bits of a field header.
  const T_UNSIGNED: bv64 := 0
  const T_SIGNED: bv64 := 1
  const T_FIXLEN: bv64 := 2
  const T_ARRAY_UNSIGNED: bv64 := 3
  const T_ARRAY_SIGNED: bv64 := 4
  const T_ARRAY_FIXLEN: bv64 := 5
  const T_SEQUENCE_START: bv64 := 6
  const T_SEQUENCE_END: bv64 := 7

  datatype FixlenType = Fp32 | Fp64 | Str | Blob

  function Tag(t: FixlenType): bv64 {
    match t case Fp32 => 0 case Fp64 => 1 case Str => 2 case Blob => 3
  }

  datatype ArrayKind = Unsigneds | Signeds | Fp32s | Fp64s

  function Width(fp64: bool): nat { if fp64 then 8 else 4 }

  /** One visitor callback. A float is its little-endian bytes. */
  datatype Event =
    | Unsigned(id: Id, value: bv64)
    | Signed(id: Id, value: bv64)
    | Float(id: Id, fp64: bool, bits: seq<byte>)
    | FixlenBegin(id: Id, subtype: FixlenType, total: nat)
    | Chunk(id: Id, blob: bool, total: nat, offset: nat, bytes: seq<byte>)
    | ArrayBegin(id: Id, kind: ArrayKind, count: nat)
    | SequenceBegin(id: Id)
    | SequenceEnd

  // ---- words: a tag in the low three bits, a number above ---------------------------------------

  function Word(number: bv64, tag: bv64): bv64 { (number << 3) | tag }
  function NumberOf(word: bv64): bv64 { word >> 3 }
  function TagOf(word: bv64): bv64 { word & 7 }

  lemma WordParts(number: bv64, tag: bv64)
    requires Roomy(number) && tag <= 7
    ensures NumberOf(Word(number, tag)) == number && TagOf(Word(number, tag)) == tag
  {}

  function IdBits(id: Id): bv64 { id as bv64 }
  predicate IdTooBig(bits: bv64) { bits > 0x7FFF_FFFF }
  function ToId(bits: bv64): Id { (bits & 0xFFFF_FFFF) as Id }

  lemma IdParts(id: Id)
    ensures Roomy(IdBits(id)) && ToId(IdBits(id)) == id
    ensures IdTooBig(IdBits(id)) <==> id > ID_MAX
  {}

  // ---- lengths and counts ---------------------------------------------------------------------

  // The solver cannot relate Dafny's own conversions between a natural number and a 64-bit vector,
  // so `as u64` and `as usize` are spelled out, one hexadecimal digit at a time.

  function Hex(n: nat): bv64
    requires n < 16
  {
    match n
    case 0 => 0 case 1 => 1 case 2 => 2 case 3 => 3 case 4 => 4 case 5 => 5 case 6 => 6 case 7 => 7
    case 8 => 8 case 9 => 9 case 10 => 10 case 11 => 11 case 12 => 12 case 13 => 13 case 14 => 14 case _ => 15
  }

  function HexValue(v: bv64): nat {
    if v == 0 then 0 else if v == 1 then 1 else if v == 2 then 2 else if v == 3 then 3
    else if v == 4 then 4 else if v == 5 then 5 else if v == 6 then 6 else if v == 7 then 7
    else if v == 8 then 8 else if v == 9 then 9 else if v == 10 then 10 else if v == 11 then 11
    else if v == 12 then 12 else if v == 13 then 13 else if v == 14 then 14 else 15
  }

  function PushHex(v: bv64, d: bv64): bv64 { (v << 4) | d }
  function PopHex(v: bv64): (r: bv64) ensures v == 0 || r < v { v >> 4 }
  function LowHex(v: bv64): bv64 { v & 0xF }

  /** `n as u64`. */
  function LenBits(n: nat): bv64 {
    if n == 0 then 0 else PushHex(LenBits(n / 16), Hex(n % 16))
  }

  /** `v as usize`. */
  function ToLen(v: bv64): nat
    decreases v
  {
    if v == 0 then 0 else 16 * ToLen(PopHex(v)) + HexValue(LowHex(v))
  }

  /** `v > FIXLEN_MAX`, and `v > ARRAY_MAX`: both ceilings are 2^31 - 1. */
  predicate LenTooBig(v: bv64) { ToLen(v) > LEN_MAX }

  lemma PopNothing()
    ensures PopHex(0) == 0 && HexValue(LowHex(0)) == 0
  {}

  lemma HexSmall(v: bv64)
    ensures HexValue(v) <= 15
  {}

  lemma ToLenIs(v: bv64)
    ensures ToLen(v) == 16 * ToLen(PopHex(v)) + HexValue(LowHex(v)) && HexValue(LowHex(v)) <= 15
  {
    hide PopHex, LowHex, HexValue;
    PopNothing();
    HexSmall(LowHex(v));
  }

  lemma HexRoundTrip(n: nat)
    requires n < 16
    ensures HexValue(Hex(n)) == n && IsHex(Hex(n))
  {}

  predicate IsHex(d: bv64) { d <= 0xF }

  function Cap(k: nat): nat { if k == 0 then 0 else 16 * Cap(k - 1) + 15 }
  function CapBits(k: nat): bv64 { if k == 0 then 0 else PushHex(CapBits(k - 1), 0xF) }
  predicate AtMost(v: bv64, w: bv64) { v <= w }
  predicate Roomy(v: bv64) { v <= 0xFFFF_FFFF }

  lemma PushWithin(v: bv64, w: bv64, d: bv64)
    requires AtMost(v, w) && Roomy(w) && IsHex(d)
    ensures AtMost(PushHex(v, d), PushHex(w, 0xF)) && Roomy(v)
  {}

  lemma PushPop(v: bv64, d: bv64)
    requires Roomy(v) && IsHex(d)
    ensures PopHex(PushHex(v, d)) == v && LowHex(PushHex(v, d)) == d
  {}

  lemma PushZero(v: bv64, d: bv64)
    requires PushHex(v, d) == 0 && Roomy(v)
    ensures v == 0 && d == 0
  {}

  lemma RoomyCap(k: nat)
    requires k <= 8
    ensures Roomy(CapBits(k))
  {
    assert CapBits(2) == 0xFF && CapBits(3) == 0xFFF;
    assert CapBits(4) == 0xFFFF && CapBits(5) == 0xF_FFFF;
    assert CapBits(6) == 0xFF_FFFF && CapBits(7) == 0xFFF_FFFF && CapBits(8) == 0xFFFF_FFFF;
  }

  lemma RoomyDown(v: bv64, w: bv64)
    requires AtMost(v, w) && Roomy(w)
    ensures Roomy(v)
  {}

  lemma {:induction false} LenWithin(n: nat, k: nat)
    requires k <= 8 && n <= Cap(k)
    ensures AtMost(LenBits(n), CapBits(k)) && Roomy(LenBits(n)) && ToLen(LenBits(n)) == n
    decreases k
  {
    RoomyCap(k);
    if n == 0 {
      AtLeastZero(CapBits(k));
    } else {
      RoomyCap(k - 1);
      HexRoundTrip(n % 16);
      LenWithin(n / 16, k - 1);
      hide PushHex, PopHex, LowHex, Hex, HexValue, AtMost, Roomy, IsHex;
      PushWithin(LenBits(n / 16), CapBits(k - 1), Hex(n % 16));
      PushPop(LenBits(n / 16), Hex(n % 16));
      if LenBits(n) == 0 { PushZero(LenBits(n / 16), Hex(n % 16)); }
    }
    RoomyDown(LenBits(n), CapBits(k));
  }

  lemma AtLeastZero(v: bv64)
    ensures AtMost(0, v)
  {}

  /** Within the format's ceiling a length survives the trip through its word, and leaves the word
      room for its tag. */
  lemma LenRoundTrip(n: nat)
    requires n <= LEN_MAX
    ensures ToLen(LenBits(n)) == n && !LenTooBig(LenBits(n)) && Roomy(LenBits(n))
  {
    hide Roomy, AtMost, LenBits, ToLen;
    assert Cap(4) == 0xFFFF && Cap(6) == 0xFF_FFFF && Cap(8) == 0xFFFF_FFFF;
    LenWithin(n, 8);
  }
}

/** The wire format in plain numbers: what the bytes are, and which words are refused. */
module Layout {
  import opened Leb128
  import opened Wire
  import opened Decoder
  import opened Message
  import opened RoundTrip
  import Varint

  // ---- lengths as numbers --------------------------------------------------------------------------

  function Inc(v: bv64): bv64 { v + 1 }

  lemma PushUp(v: bv64, d: bv64)
    requires Roomy(v) && d <= 14
    ensures PushHex(v, Inc(d)) == Inc(PushHex(v, d))
  {}

  lemma PushOver(v: bv64)
    requires Roomy(v)
    ensures PushHex(Inc(v), 0) == Inc(PushHex(v, 15))
  {}

  lemma HexUp(n: nat)
    requires n < 15
    ensures Hex(n + 1) == Inc(Hex(n))
  {}

  lemma HexBelow(n: nat)
    requires n < 15
    ensures Hex(n) <= 14
  {}

  lemma HexEnds()
    ensures Hex(15) == 15 && Hex(0) == 0
  {}

  lemma LenBitsIs(n: nat)
    ensures n > 0 ==> LenBits(n) == PushHex(LenBits(n / 16), Hex(n % 16))
  {}

  lemma NoLength()
    ensures LenBits(0) == 0 && PushHex(0, 0) == 0
  {}

  lemma {:induction false} LenBitsInc(n: nat)
    requires n < LEN_MAX
    ensures LenBits(n + 1) == Inc(LenBits(n))
    decreases n
  {
    hide LenBits, PushHex, Hex, Roomy, LenTooBig, ToLen, Inc;
    NoLength();
    HexEnds();
    LenRoundTrip(n / 16);
    LenBitsIs(n);
    LenBitsIs(n + 1);
    if n % 16 < 15 {
      assert (n + 1) / 16 == n / 16 && (n + 1) % 16 == n % 16 + 1;
      HexUp(n % 16);
      HexBelow(n % 16);
      PushUp(LenBits(n / 16), Hex(n % 16));
    } else {
      assert (n + 1) / 16 == n / 16 + 1 && (n + 1) % 16 == 0;
      LenBitsInc(n / 16);
      PushOver(LenBits(n / 16));
    }
  }

  /** `LenBits` counts: it is the number as a `u64`. */
  lemma LenBitsCounts(n: nat)
    requires n < LEN_MAX
    ensures LenBits(0) == 0 && LenBits(n + 1) == LenBits(n) + 1
  {
    hide LenBits;
    NoLength();
    LenBitsInc(n);
  }

  lemma DigitsLeft(v: bv64)
    ensures v != 0 ==> PopHex(v) < v && (PopHex(v) == 0 ==> HexValue(LowHex(v)) > 0)
  {}

  function Digits(v: bv64): nat
    decreases v
  {
    if v == 0 then 0 else Digits(PopHex(v)) + 1
  }

  lemma {:induction false} ToLenPositive(v: bv64)
    requires v != 0
    ensures ToLen(v) > 0
    decreases Digits(v)
  {
    hide PopHex, LowHex, HexValue, ToLen;
    ToLenIs(v);
    DigitsLeft(v);
    if PopHex(v) != 0 { ToLenPositive(PopHex(v)); }
  }

  lemma OneDigitLen(v: bv64)
    ensures v > 15 ==> PopHex(v) != 0
    ensures v <= 15 ==> PopHex(v) == 0 && (v > 7 <==> HexValue(LowHex(v)) > 7)
  {}

  lemma NoLen()
    ensures ToLen(0) == 0
  {}

  lemma OverSeven(v: bv64)
    ensures v > 7 <==> ToLen(v) > 7
  {
    hide PopHex, LowHex, HexValue, ToLen;
    OneDigitLen(v);
    ToLenIs(v);
    NoLen();
    if v > 15 { ToLenPositive(PopHex(v)); }
  }

  function Pop4(v: bv64): bv64 { PopHex(PopHex(PopHex(PopHex(v)))) }
  function Pop3(v: bv64): bv64 { PopHex(PopHex(PopHex(v))) }

  lemma SevenPops(v: bv64)
    ensures Pop3(Pop4(v)) > 7 <==> v > 0x7FFF_FFFF
  {}

  lemma FourDigits(v: bv64)
    ensures 0x1_0000 * ToLen(Pop4(v)) <= ToLen(v) <= 0x1_0000 * ToLen(Pop4(v)) + 0xFFFF
  {
    hide PopHex, LowHex, HexValue, ToLen;
    var a := PopHex(v); var b := PopHex(a); var c := PopHex(b);
    ToLenIs(v); ToLenIs(a); ToLenIs(b); ToLenIs(c);
  }

  lemma ThreeDigits(v: bv64)
    ensures 0x1000 * ToLen(Pop3(v)) <= ToLen(v) <= 0x1000 * ToLen(Pop3(v)) + 0xFFF
  {
    hide PopHex, LowHex, HexValue, ToLen;
    var a := PopHex(v); var b := PopHex(a);
    ToLenIs(v); ToLenIs(a); ToLenIs(b);
  }

  /** A length or count is refused exactly above 2^31 - 1. */
  lemma LenLimit(v: bv64)
    ensures LenTooBig(v) <==> v > 0x7FFF_FFFF
  {
    hide ToLen, Pop3, Pop4;
    SevenPops(v);
    FourDigits(v);
    ThreeDigits(Pop4(v));
    OverSeven(Pop3(Pop4(v)));
  }

  /** An id comes out of a header as the number that is in it. */
  lemma IdNumber(bits: bv64)
    requires bits <= 0x7FFF_FFFF
    ensures ToId(bits) as bv64 == bits && ToId(bits) <= 0x7FFF_FFFF
  {}

  // ---- what the encoder writes -----------------------------------------------------------------------

  lemma WordNumber(n: bv64, t: bv64)
    requires n <= 0xFFFF_FFFF && t <= 7
    ensures Word(n, t) == 8 * n + t
  {}

  lemma HeaderNumber(id: Id, t: bv64)
    requires t <= 7
    ensures Header(id, t) == 8 * (id as bv64) + t
  {
    hide Word;
    assert IdBits(id) <= 0xFFFF_FFFF;
    WordNumber(IdBits(id), t);
  }

  /** Sequence markers: `8 id + 6`, and a bare 7. */
  lemma MarkerLayout(id: Id)
    ensures OpenBytes(id) == Encode(8 * (id as bv64) + 6) && CLOSE_BYTES == [0x07]
  {
    hide Encode;
    HeaderNumber(id, 6);
    CloseIsHeader();
  }

  // Every field, header first: `8 id` plus its wire type, then value, length and subtype, or count.

  lemma UnsignedLayout(id: Id, v: bv64)
    requires id <= 0x7FFF_FFFF
    ensures FieldBytes(UnsignedField(id, v)) == Encode(8 * (id as bv64)) + Encode(v)
  {
    hide Encode, Header;
    HeaderNumber(id, 0);
  }

  lemma SignedLayout(id: Id, v: bv64)
    requires id <= 0x7FFF_FFFF
    ensures FieldBytes(SignedField(id, v)) == Encode(8 * (id as bv64) + 1) + Encode(Varint.ZigzagEncode(v))
  {
    hide Encode, Header, Varint.ZigzagEncode;
    HeaderNumber(id, 1);
  }

  predicate Subtype(t: FixlenType, n: bv64) {
    (t == Fp32 && n == 0) || (t == Fp64 && n == 1) || (t == Str && n == 2) || (t == Blob && n == 3)
  }

  /** The word is `8 len` plus the subtype: 0 and 1 are 32-bit and 64-bit floats, 2 strings, 3 blobs. */
  lemma FixLayout(id: Id, subtype: FixlenType, n: bv64, data: seq<byte>) returns (h: bv64, w: bv64)
    requires id <= 0x7FFF_FFFF && |data| <= 0x7FFF_FFFF && Subtype(subtype, n)
    ensures h == 8 * (id as bv64) + 2 && w == 8 * LenBits(|data|) + n
    ensures FieldBytes(FixField(id, subtype, data)) == Encode(h) + Encode(w) + data
  {
    h, w := Header(id, 2), Word(LenBits(|data|), Tag(subtype));
    FixWords(id, subtype, n, |data|);
    hide Encode, Header, Word, LenBits, Tag, Subtype, FieldBytes;
    FixShape(id, subtype, data, h, w);
  }

  lemma FixWords(id: Id, subtype: FixlenType, n: bv64, len: nat)
    requires id <= 0x7FFF_FFFF && len <= 0x7FFF_FFFF && Subtype(subtype, n)
    ensures Header(id, 2) == 8 * (id as bv64) + 2
    ensures Word(LenBits(len), Tag(subtype)) == 8 * LenBits(len) + n
  {
    SubtypeIs(subtype, n);
    hide Header, Word, LenBits, Tag, Subtype;
    HeaderNumber(id, 2);
    FixWord(len, n);
  }

  lemma FixShape(id: Id, subtype: FixlenType, data: seq<byte>, h: bv64, w: bv64)
    requires Header(id, 2) == h && Word(LenBits(|data|), Tag(subtype)) == w
    ensures FieldBytes(FixField(id, subtype, data)) == Encode(h) + Encode(w) + data
  {
    hide Encode, Header, Word, LenBits, Tag;
  }

  lemma SubtypeIs(t: FixlenType, n: bv64)
    requires Subtype(t, n)
    ensures Tag(t) == n && n <= 3
  {}

  lemma FixWord(len: nat, n: bv64)
    requires len <= 0x7FFF_FFFF && n <= 3
    ensures Word(LenBits(len), n) == 8 * LenBits(len) + n
  {
    hide Word, LenBits, Roomy, LenTooBig;
    LenRoundTrip(len);
    RoomyIs(LenBits(len));
    WordNumber(LenBits(len), n);
  }

  lemma UnsignedArrayLayout(id: Id, values: seq<bv64>)
    requires id <= 0x7FFF_FFFF
    ensures FieldBytes(UnsignedArray(id, values))
         == Encode(8 * (id as bv64) + 3) + Encode(LenBits(|values|)) + Varints(values)
  {
    hide Encode, Header, LenBits, Varints;
    HeaderNumber(id, 3);
  }

  lemma SignedArrayLayout(id: Id, values: seq<bv64>)
    requires id <= 0x7FFF_FFFF
    ensures FieldBytes(SignedArray(id, values))
         == Encode(8 * (id as bv64) + 4) + Encode(LenBits(|values|)) + Varints(Zigzags(values))
  {
    hide Encode, Header, LenBits, Varints, Zigzags;
    HeaderNumber(id, 4);
  }

  /** The word of a float array: `8 * 4 + 0` or `8 * 8 + 1`. */
  lemma FloatArrayLayout(id: Id, fp64: bool, elems: seq<seq<byte>>)
    requires id <= 0x7FFF_FFFF
    ensures FieldBytes(FloatArray(id, fp64, elems))
         == Encode(8 * (id as bv64) + 5) + Encode(LenBits(|elems|)) + Encode(if fp64 then 65 else 32) + Joined(elems)
  {
    assert FloatWord(false) == 32 && FloatWord(true) == 65;
    hide Encode, Header, LenBits, Joined, FloatWord;
    HeaderNumber(id, 5);
  }

  lemma RoomyIs(v: bv64)
    requires Roomy(v)
    ensures v <= 0xFFFF_FFFF
  {}

  /** The arguments a writer accepts, and how deep sequences nest. */
  lemma Acceptance(e: Enc, id: Id, f: Field)
    ensures Accepts(e, Begin(id)) <==> e.depth < 255 && id <= 0x7FFF_FFFF
    ensures Accepts(e, End) <==> e.depth > 0
    ensures Accepts(e, EndKeep) <==> e.depth > 0
    ensures Accepts(e, Put(f)) ==> f.id <= 0x7FFF_FFFF
    ensures f.UnsignedField? || f.SignedField? ==> (Accepts(e, Put(f)) <==> f.id <= 0x7FFF_FFFF)
    ensures f.UnsignedArray? || f.SignedArray? ==>
              (Accepts(e, Put(f)) <==> f.id <= 0x7FFF_FFFF && |f.values| <= 0x7FFF_FFFF)
    ensures f.FixField? ==>
              (Accepts(e, Put(f)) <==> f.id <= 0x7FFF_FFFF && |f.data| <= 0x7FFF_FFFF
                                       && (f.subtype == Fp32 ==> |f.data| == 4) && (f.subtype == Fp64 ==>
                                         |f.data| == 8))
  {}

  // ---- what the decoder reads ------------------------------------------------------------------------

  // A head in terms of the words in it, as `Leb` reads them: `h` the header, `w` the second word, `f` a
  // float array's third. An id is `h >> 3`, a length `w >> 3`.

  /** Words that run out, words too wide, and ids above 2^31 - 1. */
  lemma HeaderMeans(s: seq<byte>)
    ensures Leb(s).Short? ==> ReadHead(s) == More
    ensures Leb(s).Over? ==> ReadHead(s) == Bad
    ensures Leb(s).Value? && Leb(s).v >> 3 > 0x7FFF_FFFF ==> ReadHead(s) == Bad
  {
    hide Leb, ReadSecond, ToId, TagOf;
  }

  /** Wire types 6 and 7 are the sequence markers, whose head is the header alone. */
  lemma MarkerMeans(s: seq<byte>)
    requires Leb(s).Value? && Leb(s).v >> 3 <= 0x7FFF_FFFF
    ensures Leb(s).v & 7 == 6 ==> ReadHead(s) == Done(Leb(s).len, Open(ToId(Leb(s).v >> 3)))
    ensures Leb(s).v & 7 == 7 ==> ReadHead(s) == Done(Leb(s).len, Close)
  {
    hide Leb, ReadSecond, ToId;
  }

  /** A head of wire type 0 to 5 with its second word. */
  predicate Words(s: seq<byte>, t: bv64, h: bv64, w: bv64, k: nat) {
    && t <= 5 && h & 7 == t && h >> 3 <= 0x7FFF_FFFF && Leb(s).Value? && Leb(s).v == h
    && k > Leb(s).len && Leb(s[Leb(s).len..]) == Value(w, k - Leb(s).len)
  }

  lemma SecondMeans(s: seq<byte>)
    requires Leb(s).Value? && Leb(s).v >> 3 <= 0x7FFF_FFFF && Leb(s).v & 7 <= 5
    ensures Leb(s[Leb(s).len..]).Short? ==> ReadHead(s) == More
    ensures Leb(s[Leb(s).len..]).Over? ==> ReadHead(s) == Bad
  {
    hide Leb, ReadRest, ToId;
  }

  lemma RestMeans(s: seq<byte>, t: bv64, h: bv64, w: bv64, k: nat)
    requires Words(s, t, h, w, k)
    ensures 0 < k <= |s| && ReadHead(s) == ReadRest(s, k, ToId(h >> 3), t, w)
  {
    hide Leb, ReadRest, ToId;
  }

  /** Wire types 0 and 1: an unsigned value, and a signed one. */
  lemma ScalarMeans(s: seq<byte>, h: bv64, w: bv64, k: nat)
    ensures Words(s, 0, h, w, k) ==> ReadHead(s) == Done(k, Scalar(ToId(h >> 3), false, w))
    ensures Words(s, 1, h, w, k) ==> ReadHead(s) == Done(k, Scalar(ToId(h >> 3), true, Varint.ZigzagDecode(w)))
  {
    hide Leb, ToId, ReadHead, Words, Varint.ZigzagDecode;
    if Words(s, 0, h, w, k) { RestMeans(s, 0, h, w, k); }
    if Words(s, 1, h, w, k) { RestMeans(s, 1, h, w, k); }
  }

  /** Wire type 2. Refused are lengths above 2^31 - 1, subtypes 4 to 7, and floats of any width but theirs. */
  lemma FixMeans(s: seq<byte>, h: bv64, w: bv64, k: nat)
    requires Words(s, 2, h, w, k)
    ensures ReadHead(s) == Bad <==>
              w >> 3 > 0x7FFF_FFFF || w & 7 > 3 || (w & 7 == 0 && w >> 3 != 4) || (w & 7 == 1 && w >> 3 != 8)
    ensures ReadHead(s) != Bad ==>
              var t := if w & 7 == 0 then Fp32 else if w & 7 == 1 then Fp64 else if w & 7 == 2 then Str else Blob;
              ReadHead(s) == Done(k, Fix(ToId(h >> 3), t, ToLen(w >> 3)))
  {
    hide Leb, ToId, ReadHead, Words, ToLen, LenTooBig;
    RestMeans(s, 2, h, w, k);
    LenLimit(w >> 3);
    LenFour(w >> 3);
    LenEight(w >> 3);
  }

  lemma LenFour(v: bv64)
    ensures ToLen(v) == 4 <==> v == 4
  {
    hide PopHex, LowHex, HexValue, ToLen;
    ToLenIs(v);
    NoLen();
    if PopHex(v) != 0 { ToLenPositive(PopHex(v)); }
    LowFour(v);
  }

  lemma LowFour(v: bv64)
    ensures PopHex(v) == 0 && HexValue(LowHex(v)) == 4 <==> v == 4
  {}

  lemma LenEight(v: bv64)
    ensures ToLen(v) == 8 <==> v == 8
  {
    hide PopHex, LowHex, HexValue, ToLen;
    ToLenIs(v);
    NoLen();
    if PopHex(v) != 0 { ToLenPositive(PopHex(v)); }
    LowEight(v);
  }

  lemma LowEight(v: bv64)
    ensures PopHex(v) == 0 && HexValue(LowHex(v)) == 8 <==> v == 8
  {}

  /** Wire types 3 and 4. Refused are counts above 2^31 - 1. */
  lemma IntArrayMeans(s: seq<byte>, h: bv64, w: bv64, k: nat)
    requires Words(s, 3, h, w, k) || Words(s, 4, h, w, k)
    ensures ReadHead(s) == Bad <==> w > 0x7FFF_FFFF
    ensures ReadHead(s) != Bad ==> ReadHead(s) == Done(k, IntElems(ToId(h >> 3), h & 7 == 4, ToLen(w)))
  {
    hide Leb, ToId, ReadHead, ToLen, LenTooBig;
    RestMeans(s, h & 7, h, w, k);
    LenLimit(w);
  }

  /** Wire type 5. Refused are counts above 2^31 - 1 and, as soon as it is read, any third word but `8 * 4`
      and `8 * 8 + 1`. */
  lemma FloatArrayMeans(s: seq<byte>, h: bv64, w: bv64, k: nat)
    requires Words(s, 5, h, w, k)
    ensures 0 < k <= |s|
    ensures w > 0x7FFF_FFFF ==> ReadHead(s) == Bad
    ensures w <= 0x7FFF_FFFF ==>
              match Leb(s[k..])
              case Short => ReadHead(s) == More
              case Over => ReadHead(s) == Bad
              case Value(f, j) =>
                if f == 32 || f == 65 then ReadHead(s) == Done(k + j, FloatElems(ToId(h >> 3), f == 65, ToLen(w)))
                else ReadHead(s) == Bad
  {
    hide Leb, ToId, ReadHead, Words, ToLen, LenTooBig, FloatsHead;
    RestMeans(s, 5, h, w, k);
    LenLimit(w);
    if Leb(s[k..]).Value? { ThirdMeans(k + Leb(s[k..]).len, ToId(h >> 3), w, Leb(s[k..]).v); }
  }

  lemma ThirdMeans(k: nat, id: Id, w: bv64, f: bv64)
    ensures FloatsHead(k, id, w, f) == if f == 32 || f == 65 then Done(k, FloatElems(id, f == 65, ToLen(w))) else Bad
  {
    assert f == 32 <==> TagOf(f) == 0 && NumberOf(f) == 4;
    assert f == 65 <==> TagOf(f) == 1 && NumberOf(f) == 8;
    hide TagOf, NumberOf, ToLen;
  }

  // ---- bytes -------------------------------------------------------------------------------------

  lemma OneByte(v: bv64)
    requires v < 0x80
    ensures Encode(v) == [v as byte]
  {}

  /** Bytes and callbacks of some small messages: id 0 throughout. */
  lemma SmallMessages(a: byte, b: byte, c: byte, d: byte)
    ensures Run(START, [0x00, 0x05]) == Trace(START, [Unsigned(0, 5)])
    ensures Run(START, [0x01, 0x05]) == Trace(START, [Signed(0, 0xFFFF_FFFF_FFFF_FFFD)])
    ensures Run(START, [0x02, 0x20, a, b, c, d])
         == Trace(START, [FixlenBegin(0, Fp32, 4), Float(0, false, [a, b, c, d])])
    ensures Run(START, [0x02, 0x0A, a])
         == Trace(START, [FixlenBegin(0, Str, 1), Chunk(0, false, 1, 0, [a])])
    ensures Run(START, [0x02, 0x0B, a])
         == Trace(START, [FixlenBegin(0, Blob, 1), Chunk(0, true, 1, 0, [a])])
  {
    hide Run, FieldBytes;
    SmallUnsigned();
    SmallSigned();
    SmallFloat([a, b, c, d]);
    SmallString([a]);
    SmallBlob([a]);
    assert [0x02 as byte, 0x20] + [a, b, c, d] == [0x02, 0x20, a, b, c, d];
    assert [0x02 as byte, 0x0A] + [a] == [0x02, 0x0A, a] && [0x02 as byte, 0x0B] + [a] == [0x02, 0x0B, a];
    assert Explode(Chunk(0, false, 1, 0, [a])) == [Chunk(0, false, 1, 0, [a])];
    assert Explode(Chunk(0, true, 1, 0, [a])) == [Chunk(0, true, 1, 0, [a])];
    FieldRun(UnsignedField(0, 5), 0);
    FieldRun(SignedField(0, 0xFFFF_FFFF_FFFF_FFFD), 0);
    FieldRun(FixField(0, Fp32, [a, b, c, d]), 0);
    FieldRun(FixField(0, Str, [a]), 0);
    FieldRun(FixField(0, Blob, [a]), 0);
  }

  lemma SmallUnsigned()
    ensures FieldBytes(UnsignedField(0, 5)) == [0x00, 0x05]
  {
    hide FieldBytes, Encode;
    OneByte(0);
    OneByte(5);
    UnsignedLayout(0, 5);
  }

  lemma MinusThree()
    ensures Varint.ZigzagEncode(0xFFFF_FFFF_FFFF_FFFD) == 5
  {}

  lemma SmallSigned()
    ensures FieldBytes(SignedField(0, 0xFFFF_FFFF_FFFF_FFFD)) == [0x01, 0x05]
  {
    MinusThree();
    hide FieldBytes, Encode, Varint.ZigzagEncode;
    OneByte(1);
    OneByte(5);
    SignedLayout(0, 0xFFFF_FFFF_FFFF_FFFD);
  }

  lemma SmallLength(n: nat)
    requires n < 16
    ensures LenBits(n) == Hex(n)
  {
    NoLength();
    HexEnds();
    LenBitsIs(n);
    PushNothing(Hex(n));
  }

  lemma PushNothing(d: bv64)
    ensures PushHex(0, d) == d
  {}

  lemma OneAndFour()
    ensures Hex(1) == 1 && Hex(4) == 4
  {}

  lemma SmallFloat(bits: seq<byte>)
    requires |bits| == 4
    ensures FieldBytes(FixField(0, Fp32, bits)) == [0x02, 0x20] + bits
  {
    OneAndFour();
    hide FieldBytes, LenBits, Encode, Hex;
    SmallLength(1);
    SmallLength(4);
    OneByte(2);
    OneByte(0x20);
    var h, w := FixLayout(0, Fp32, 0, bits);
  }

  lemma SmallString(text: seq<byte>)
    requires |text| == 1
    ensures FieldBytes(FixField(0, Str, text)) == [0x02, 0x0A] + text
  {
    OneAndFour();
    hide FieldBytes, LenBits, Encode, Hex;
    SmallLength(1);
    SmallLength(4);
    OneByte(2);
    OneByte(0x0A);
    var h, w := FixLayout(0, Str, 2, text);
  }

  lemma SmallBlob(data: seq<byte>)
    requires |data| == 1
    ensures FieldBytes(FixField(0, Blob, data)) == [0x02, 0x0B] + data
  {
    OneAndFour();
    hide FieldBytes, LenBits, Encode, Hex;
    SmallLength(1);
    SmallLength(4);
    OneByte(2);
    OneByte(0x0B);
    var h, w := FixLayout(0, Blob, 3, data);
  }

  /** Nesting: 255 sequences may be open, and none may be closed that is not. */
  lemma Nesting(d: nat)
    ensures Run(Live(Field([]), d), [0x06])
         == if d < 255 then Trace(Live(Field([]), d + 1), [SequenceBegin(0)]) else Trace(Rejected, [])
    ensures Run(Live(Field([]), d), [0x07])
         == if d > 0 then Trace(Live(Field([]), d - 1), [SequenceEnd]) else Trace(Rejected, [])
  {
    MarkerHeads();
    RunOne(Live(Field([]), d), 0x06);
    RunOne(Live(Field([]), d), 0x07);
    hide Run, ReadHead;
    assert [] + [0x06 as byte] == [0x06] && [] + [0x07 as byte] == [0x07];
  }

  /** `80 80 80 80 40 00`: id 2^31 is refused. */
  lemma IdPastTheEnd()
    ensures Run(START, [0x80, 0x80, 0x80, 0x80, 0x40, 0x00]) == Trace(Rejected, [])
  {
    var s: seq<byte> := [0x80, 0x80, 0x80, 0x80, 0x40, 0x00];
    assert s[1..] == [0x80, 0x80, 0x80, 0x40, 0x00] && s[1..][1..] == [0x80, 0x80, 0x40, 0x00];
    assert s[1..][1..][1..] == [0x80, 0x40, 0x00] && s[1..][1..][1..][1..] == [0x40, 0x00];
    assert Leb(s[1..][1..][1..][1..], 6) == Value(0x40, 1) && Leb(s[1..][1..][1..], 7) == Value(0x2000, 2);
    assert Leb(s[1..][1..], 8) == Value(0x10_0000, 3) && Leb(s[1..], 9) == Value(0x800_0000, 4);
    assert Leb(s) == Value(0x4_0000_0000, 5);
    HeaderMeans(s);
    EmptyHead();
    hide ReadHead, Run, Leb;
    RunHead([], s, 0);
    assert [] + s == s;
  }
}

/** The reference base-128 codec: LEB128 (DWARF version 5, section 7.6), bounded to 64 bits.

  A `u64` is a `bv64` and a byte is a `bv8`. The single-digit operations have names so that the
  inductive proofs can hide their bits: the solver handles either induction or bit vectors well,
  and both at once badly. */
module Leb128 {
  type byte = bv8

  datatype Error = Argument | BufferFull | InvalidMsg | LimitExceeded
  datatype Option<+T> = None | Some(value: T)
  datatype Result<+T> = Ok(value: T) | Err(error: Error)
  datatype Outcome = Pass | Fail(error: Error)

  const MAX_VARINT_LEN: nat := 10

  // ---- the reference codec ------------------------------------------------------------------

  /** What the bytes in front of the cursor amount to: a varint cut short, one too wide for
      64 bits, or a value with its length in bytes. */
  datatype Scan = Short | Over | Value(v: bv64, len: nat)

  // One base-128 digit at a time.
  predicate Continues(b: byte) { b >= 0x80 }
  function Last(b: byte): bv64 { b as bv64 }
  function Join(v: bv64, b: byte): bv64 { (v << 7) | ((b & 0x7F) as bv64) }
  predicate TooBig(b: byte) { b > 1 }
  predicate OneDigit(v: bv64) { v < 0x80 }
  function Final(v: bv64): byte requires OneDigit(v) { v as byte }
  function More(v: bv64): byte { ((v & 0x7F) | 0x80) as byte }
  function Rest(v: bv64): (r: bv64) ensures OneDigit(v) || r < v { v >> 7 }

  /** Plain LEB128; `room` bytes of the ten a 64-bit varint may occupy are left. */
  function Leb(s: seq<byte>, room: nat := MAX_VARINT_LEN): (r: Scan)
    requires room >= 1
    ensures r.Value? ==> 1 <= r.len <= |s| && r.len <= room
    ensures r.Short? ==> |s| < room
  {
    if s == [] then Short
    else if room == 1 then if TooBig(s[0]) then Over else Value(Last(s[0]), 1)
    else if !Continues(s[0]) then Value(Last(s[0]), 1)
    else match Leb(s[1..], room - 1)
      case Value(v, n) => Value(Join(v, s[0]), n + 1)
      case other => other
  }

  /** The minimal base-128 form. */
  function Encode(v: bv64): (s: seq<byte>)
    ensures |s| >= 1
    decreases v
  {
    if OneDigit(v) then [Final(v)] else [More(v)] + Encode(Rest(v))
  }

  lemma DigitSplit(v: bv64)
    ensures Join(Rest(v), More(v)) == v && Continues(More(v))
    ensures OneDigit(v) ==> Last(Final(v)) == v && !Continues(Final(v))
  {}

  lemma DigitJoin(v: bv64, b: byte)
    requires Slack(v)
    ensures Rest(Join(v, b)) == v
    ensures Continues(b) ==> More(Join(v, b)) == b
  {}

  /** `v` takes at most `room` digits, and if it takes all of them the top one is a single bit. */
  predicate Fits(v: bv64, room: nat)
  {
    |Encode(v)| <= room && (|Encode(v)| == room ==> !TooBig(Encode(v)[room - 1]))
  }

  lemma FitsUp(v: bv64, room: nat)
    requires 1 <= room && Fits(Rest(v), room)
    ensures Fits(v, room + 1)
  {
    hide Rest, More, Final, OneDigit;
  }

  /** Ten digits hold any 64-bit value. */
  lemma FitsTen(v: bv64)
    ensures Fits(v, MAX_VARINT_LEN)
  {
    var a := Rest(v); var b := Rest(a); var c := Rest(b); var d := Rest(c); var e := Rest(d);
    var f := Rest(e); var g := Rest(f); var h := Rest(g); var i := Rest(h);
    assert i <= 1;
    hide Rest, More, OneDigit;
    TopDigit(i);
    FitsUp(h, 1); FitsUp(g, 2); FitsUp(f, 3); FitsUp(e, 4); FitsUp(d, 5);
    FitsUp(c, 6); FitsUp(b, 7); FitsUp(a, 8); FitsUp(v, 9);
  }

  lemma TopDigit(v: bv64)
    requires v <= 1
    ensures Fits(v, 1)
  {
    assert OneDigit(v) && Encode(v) == [Final(v)] && !TooBig(Final(v));
  }

  /** Reading back what was written, whatever follows it. */
  lemma ReadsBack(v: bv64, rest: seq<byte>)
    ensures Leb(Encode(v) + rest) == Value(v, |Encode(v)|)
  {
    FitsTen(v);
    ReadsBackIn(v, rest, MAX_VARINT_LEN);
  }

  lemma {:induction false} ReadsBackIn(v: bv64, rest: seq<byte>, room: nat)
    requires 1 <= room && Fits(v, room)
    ensures Leb(Encode(v) + rest, room) == Value(v, |Encode(v)|)
    decreases room
  {
    hide Join, Last, Final, More, Rest, Continues, OneDigit, TooBig;
    DigitSplit(v);
    var s := Encode(v) + rest;
    if !OneDigit(v) {
      assert s[1..] == Encode(Rest(v)) + rest;
      ReadsBackIn(Rest(v), rest, room - 1);
    }
  }

  /** Seven spare bits at the top: one more digit can be joined below. */
  predicate Slack(v: bv64) { v <= 0x01FF_FFFF_FFFF_FFFF }

  /** The widest value `room` bytes can carry, and what it bounds. */
  function Widest(room: nat): bv64
    requires 1 <= room
  {
    if room == 1 then 1 else Wider(Widest(room - 1))
  }

  function Wider(w: bv64): bv64 { (w << 7) | 0x7F }
  predicate Within(v: bv64, w: bv64) { v <= w }

  lemma JoinWithin(v: bv64, b: byte, w: bv64)
    requires Within(v, w) && Slack(w)
    ensures Slack(v) && Within(Join(v, b), Wider(w))
  {}

  lemma LastWithin(b: byte, w: bv64)
    ensures !Continues(b) ==> Within(Last(b), Wider(w))
    ensures !TooBig(b) ==> Within(Last(b), 1) && !Continues(b)
  {}

  lemma WidestSlack(room: nat)
    requires 1 <= room < MAX_VARINT_LEN
    ensures Slack(Widest(room))
  {
    assert Widest(2) == 0xFF && Widest(3) == 0x7FFF;
    assert Widest(4) == 0x3F_FFFF && Widest(5) == 0x1FFF_FFFF;
    assert Widest(6) == 0xF_FFFF_FFFF && Widest(7) == 0x7FF_FFFF_FFFF;
    assert Widest(8) == 0x3_FFFF_FFFF_FFFF && Widest(9) == 0x1FF_FFFF_FFFF_FFFF;
  }

  lemma {:induction false} LebSlack(s: seq<byte>, room: nat)
    requires 1 <= room < MAX_VARINT_LEN && Leb(s, room).Value?
    ensures Within(Leb(s, room).v, Widest(room)) && Slack(Leb(s, room).v)
    decreases room
  {
    WidestSlack(room);
    hide Join, Last, Continues, Wider, Within, Slack, TooBig;
    LastWithin(s[0], 0);
    if room > 1 {
      WidestSlack(room - 1);
      LastWithin(s[0], Widest(room - 1));
      if Continues(s[0]) {
        LebSlack(s[1..], room - 1);
        JoinWithin(Leb(s[1..], room - 1).v, s[0], Widest(room - 1));
      }
    }
    WithinSlack(Leb(s, room).v, Widest(room));
  }

  lemma WithinSlack(v: bv64, w: bv64)
    requires Within(v, w) && Slack(w)
    ensures Slack(v)
  {}

  lemma EncodeJoin(v: bv64, b: byte)
    requires Slack(v) && Continues(b)
    ensures |Encode(Join(v, b))| == 1 || Encode(Join(v, b)) == [b] + Encode(v)
  {
    DigitJoin(v, b);
    hide Join, Final, More, Rest, OneDigit;
  }

  lemma EncodeLast(b: byte)
    requires !Continues(b)
    ensures Encode(Last(b)) == [b]
  {}

  lemma FirstOf(s: seq<byte>, n: nat)
    requires 1 <= n <= |s|
    ensures s[..n] == [s[0]] + s[1..][..n - 1]
  {}

  /** `Encode` is the unique shortest form: any bytes that read as `v` are at least as long, and if
      they are no longer they are `Encode(v)`. */
  lemma {:induction false} Minimal(s: seq<byte>, room: nat := MAX_VARINT_LEN)
    requires 1 <= room <= MAX_VARINT_LEN && Leb(s, room).Value?
    ensures var Value(v, n) := Leb(s, room);
            |Encode(v)| <= n && (n == |Encode(v)| ==> s[..n] == Encode(v))
    decreases room
  {
    hide Join, Last, Continues, Slack, TooBig, Encode;
    var Value(w, n) := Leb(s, room);
    FirstOf(s, n);
    LastWithin(s[0], 0);
    if room == 1 || !Continues(s[0]) {
      EncodeLast(s[0]);
    } else {
      Minimal(s[1..], room - 1);
      LebSlack(s[1..], room - 1);
      EncodeJoin(Leb(s[1..], room - 1).v, s[0]);
    }
  }

  /** A decided scan ignores what follows; it takes exactly its length to decide it. */
  lemma {:induction false} Decided(s: seq<byte>, t: seq<byte>, room: nat := MAX_VARINT_LEN)
    requires room >= 1 && !Leb(s, room).Short?
    ensures Leb(s + t, room) == Leb(s, room)
    decreases room
  {
    hide Join, Last, Continues, TooBig;
    assert (s + t)[1..] == s[1..] + t;
    if room > 1 && Continues(s[0]) {
      Decided(s[1..], t, room - 1);
    }
  }

  /** The bytes past a value have no part in deciding it. */
  lemma {:induction false} Exact(s: seq<byte>, k: nat, room: nat := MAX_VARINT_LEN)
    requires room >= 1 && Leb(s, room).Value? && Leb(s, room).len <= k <= |s|
    ensures Leb(s[..k], room) == Leb(s, room)
    decreases room
  {
    hide Join, Last, Continues, TooBig;
    assert s[..k][0] == s[0] && s[..k][1..] == s[1..][..k - 1];
    if room > 1 && Continues(s[0]) {
      Exact(s[1..], k - 1, room - 1);
    }
  }

  /** The scan runs out exactly on fewer than ten bytes that all continue. */
  lemma {:induction false} ShortIff(s: seq<byte>, room: nat := MAX_VARINT_LEN)
    requires room >= 1
    ensures Leb(s, room).Short? <==> |s| < room && forall i | 0 <= i < |s| :: Continues(s[i])
    decreases room
  {
    hide Join, Last, Continues, TooBig;
    if s != [] && room > 1 && Continues(s[0]) {
      ShortIff(s[1..], room - 1);
      assert forall i | 0 < i < |s| :: s[i] == s[1..][i - 1];
      assert forall i | 0 <= i < |s| - 1 :: s[1..][i] == s[i + 1];
    }
  }
}

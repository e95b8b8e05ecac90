/** What follows from the decoder being an automaton: chunking, prefixes, termination, discipline. */
module Streams {
  import opened Leb128
  import opened Wire
  import opened Decoder
  import opened IStream

  function Concat(chunks: seq<seq<byte>>): seq<byte> {
    if chunks == [] then [] else Concat(chunks[..|chunks| - 1]) + chunks[|chunks| - 1]
  }

  /** Feeding chunks one after the other, each from where the last one left off. */
  function RunChunks(chunks: seq<seq<byte>>): Trace {
    if chunks == [] then Trace(START, [])
    else
      var t := RunChunks(chunks[..|chunks| - 1]);
      var u := Run(t.st, chunks[|chunks| - 1]);
      Trace(u.st, t.log + u.log)
  }

  /** However the bytes are cut, empty chunks included, the events and the state are those of the whole. */
  lemma {:induction false} ChunkInvariance(chunks: seq<seq<byte>>)
    ensures RunChunks(chunks) == Run(START, Concat(chunks))
    decreases |chunks|
  {
    hide Run;
    if chunks == [] {
      assert Run(START, []) == Trace(START, []) by { RunEmpty(START); }
    } else {
      var init, last := chunks[..|chunks| - 1], chunks[|chunks| - 1];
      ChunkInvariance(init);
      RunAppend(START, Concat(init), last);
    }
  }

  /** The state after the first `n` chunks. */
  ghost function StateAfter(chunks: seq<seq<byte>>, n: nat): State
    requires n <= |chunks|
  {
    Run(START, Concat(chunks[..n])).st
  }

  lemma ChunkStep(chunks: seq<seq<byte>>, n: nat)
    requires n < |chunks|
    ensures var t := Run(START, Concat(chunks[..n])); var u := Run(t.st, chunks[n]);
            Run(START, Concat(chunks[..n + 1])) == Trace(u.st, t.log + u.log)
  {
    hide Run;
    assert chunks[..n + 1][..n] == chunks[..n];
    RunAppend(START, Concat(chunks[..n]), chunks[n]);
  }

  /** A rejection is final. */
  lemma {:induction false} RejectedOn(chunks: seq<seq<byte>>, m: nat, n: nat)
    requires m <= n <= |chunks| && StateAfter(chunks, m) == Rejected
    ensures StateAfter(chunks, n) == Rejected
    decreases n - m
  {
    hide Run, Concat;
    if m < n {
      ChunkStep(chunks, m);
      RunRejected(chunks[m]);
      RejectedOn(chunks, m + 1, n);
    }
  }

  /** Feeds every chunk to a new decoder. The verdicts on the way are those of the bytes so far: INVALID as
      soon as they are rejected and ever after, COMPLETE at a message boundary, INCOMPLETE anywhere else. */
  method FeedAll(chunks: seq<seq<byte>>) returns (dec: IStream, v: Visitor, verdicts: seq<Result<Status>>)
    ensures dec.Valid() && fresh(dec) && fresh(dec.carry) && fresh(v)
    ensures Trace(dec.Abs(), v.Flat()) == Run(START, Concat(chunks))
    ensures |verdicts| == |chunks|
    ensures forall i | 0 <= i < |chunks| :: verdicts[i] == Err(InvalidMsg) <==> StateAfter(chunks, i + 1) == Rejected
    ensures forall i | 0 <= i < |chunks| :: verdicts[i] == Ok(Complete) <==> StateAfter(chunks, i + 1) == START
    ensures forall i, j | 0 <= i <= j < |chunks| :: verdicts[i] == Err(InvalidMsg) ==> verdicts[j] == Err(InvalidMsg)
  {
    hide Run, Concat, StateAfter, Undecided, ReadHead, Leb, PhaseOf, Flatten, Pieces, ResumeOk;
    dec := new IStream();
    v := new Visitor();
    verdicts := [];
    NoChunks(chunks);
    for n := 0 to |chunks|
      invariant dec.Valid() && fresh(dec) && fresh(dec.carry) && fresh(v) && |verdicts| == n
      invariant Trace(dec.Abs(), v.Flat()) == Run(START, Concat(chunks[..n]))
      invariant forall i | 0 <= i < n :: verdicts[i] == Err(InvalidMsg) <==> StateAfter(chunks, i + 1) == Rejected
      invariant forall i | 0 <= i < n :: verdicts[i] == Ok(Complete) <==> StateAfter(chunks, i + 1) == START
    {
      var r := dec.Feed(chunks[n], v);
      ChunkStep(chunks, n);
      StateIs(chunks, n + 1);
      verdicts := verdicts + [r];
    }
    assert chunks[..|chunks|] == chunks;
    forall i, j | 0 <= i <= j < |chunks| && verdicts[i] == Err(InvalidMsg) ensures verdicts[j] == Err(InvalidMsg) {
      RejectedOn(chunks, i + 1, j + 1);
    }
  }

  lemma NoChunks(chunks: seq<seq<byte>>)
    ensures Run(START, Concat(chunks[..0])) == Trace(START, [])
  {}

  lemma StateIs(chunks: seq<seq<byte>>, n: nat)
    requires n <= |chunks|
    ensures StateAfter(chunks, n) == Run(START, Concat(chunks[..n])).st
  {}

  /** Feeds every chunk to one decoder, then probes with an empty one. */
  method DecodeChunks(chunks: seq<seq<byte>>) returns (r: Result<Status>, log: seq<Event>)
    ensures r == Err(InvalidMsg) <==> Run(START, Concat(chunks)).st == Rejected
    ensures r == Ok(Complete) <==> Run(START, Concat(chunks)).st == START
    ensures r == Ok(Incomplete) <==> Run(START, Concat(chunks)).st.Live? && Run(START, Concat(chunks)).st != START
    ensures Flatten(log) == Run(START, Concat(chunks)).log
  {
    hide Run;
    var dec, v, verdicts := FeedAll(chunks);
    RunEmpty(dec.Abs());
    assert v.Flat() + [] == v.Flat();
    r := dec.Feed([], v);
    log := v.log;
  }

  /** The whole message at once. In a complete one every string and blob then comes in a single callback. */
  method Decode(buf: seq<byte>, v: Visitor) returns (r: Result<Status>)
    modifies v
    ensures r == Err(InvalidMsg) <==> Run(START, buf).st == Rejected
    ensures r == Ok(Complete) <==> Run(START, buf).st == START
    ensures r == Ok(Incomplete) <==> Run(START, buf).st.Live? && Run(START, buf).st != START
    ensures v.Flat() == old(v.Flat()) + Run(START, buf).log
    ensures r == Ok(Complete) && old(v.log) == [] ==>
              forall e | e in v.log && e.Chunk? :: e.offset == 0 && |e.bytes| == e.total
  {
    hide Run, Pieces;
    NoPieces(v.log);
    var dec := new IStream();
    r := dec.Feed(buf, v);
    NoPieces(v.log);
  }

  /** The events of a prefix are a prefix of the events, and a rejection is final. */
  lemma PrefixMonotone(s: seq<byte>, t: seq<byte>)
    ensures Run(START, s).log <= Run(START, s + t).log
    ensures Run(START, s).st == Rejected ==> Run(START, s + t) == Run(START, s)
  {
    RunAppend(START, s, t);
    RunRejected(t);
    hide Run;
    assert Run(START, s).log + [] == Run(START, s).log;
  }

  /** No prefix of a message that decodes is ever malformed. */
  lemma NoPrefixInvalid(s: seq<byte>, t: seq<byte>)
    requires Run(START, s + t).st == START
    ensures Run(START, s).st != Rejected
  {
    hide Run;
    PrefixMonotone(s, t);
  }

  // ---- carry and resume ------------------------------------------------------------------------

  /** The bytes stop strictly inside an element of an array, or inside a float. */
  predicate InsideElement(st: State) {
    st.Live? && (st.phase.Ints? || st.phase.Floats?) && st.phase.held != []
  }

  /** However the bytes were cut, a carry and a resume state stand side by side if and only if the bytes
      stop inside an element. A payload never leaves a carry, and a rejection no resume state. */
  method CarryAndResume(chunks: seq<seq<byte>>) returns (carryLen: nat, resume: Resume)
    ensures var st := Run(START, Concat(chunks)).st;
            && (carryLen > 0 && resume != Nothing <==> InsideElement(st))
            && (resume.PayloadRest? <==> st.Live? && st.phase.Payload?) && (resume.PayloadRest? ==> carryLen == 0)
            && (st == Rejected ==> resume == Nothing)
  {
    hide Run, ReadHead, Leb;
    var dec, v, verdicts := FeedAll(chunks);
    carryLen, resume := dec.carryLen, dec.resume;
    assert !dec.invalid ==> |dec.carry[..dec.carryLen]| == carryLen;
  }

  lemma LoneByte(b: byte)
    requires Continues(b)
    ensures Leb([b]).Short?
  {
    assert [b][1..] == [];
  }

  lemma ArrayHeader(t: seq<byte>)
    ensures Leb([0x03] + t) == Value(3, 1) && ([0x03] + t)[1..] == t
    ensures !IdTooBig(NumberOf(3)) && TagOf(3) == T_ARRAY_UNSIGNED && ToId(NumberOf(3)) == 0
  {}

  lemma CountOne()
    ensures Leb([0x01]) == Value(1, 1) && ToLen(1) == 1 && !LenTooBig(1)
  {}

  lemma OneElementArray()
    ensures ReadHead([0x03, 0x01]) == Done(2, IntElems(0, false, 1))
  {
    var s: seq<byte> := [0x03, 0x01];
    assert s == [0x03] + [0x01] && s[1..] == [0x01];
    ArrayHeader([0x01]);
    CountOne();
    hide Leb, IdTooBig, NumberOf, ToId, TagOf, LenTooBig, ToLen;
  }

  /** The smallest instance: `03 01 80`, an array of one element cut inside it. */
  method CarryBesideResume() returns (carryLen: nat, resume: Resume)
    ensures carryLen == 1 && resume == ArrayInt(0, false, 1)
  {
    hide Run, Leb, ReadHead;
    var head: seq<byte>, cut: seq<byte> := [0x03, 0x01], [0x80];
    var empty: seq<byte> := [];
    var dec := new IStream();
    var v := new Visitor();
    var r := dec.Feed(head + cut, v);
    OneElementArray();
    EmptyHead();
    LoneByte(0x80);
    assert empty + head == head && head[..2] == head && empty + cut == cut;
    RunHead([], head, 0);
    RunAppend(START, head, cut);
    RunShort(0, false, 1, cut, 0);
    carryLen, resume := dec.carryLen, dec.resume;
  }

  lemma RunShort(id: Id, signed: bool, remaining: pos, t: seq<byte>, d: nat)
    requires Leb(t).Short? && |t| == 1
    ensures Run(Live(IntsOf(id, signed, remaining), d), t) == Trace(Live(Ints(id, signed, remaining, t), d), [])
  {
    hide Leb;
    assert [] + [t[0]] == t && t[1..] == [];
  }
}

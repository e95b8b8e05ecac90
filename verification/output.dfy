/** What a write may do to an output, whatever its buffers and sink: a relation on snapshots. */
module Output {
  import opened Leb128
  import opened Wire
  import opened Message

  /** The bytes emitted so far, what is reserved in front of them in the active buffer, the room left,
      whether there is a sink, whether the stream is dead, and of each call of the sink whether the buffer
      handed over was used to its end. */
  datatype Snap = Snap(emitted: seq<byte>, front: seq<byte>, room: nat, sinked: bool, dead: bool, calls: seq<bool>)

  /** Whatever calls there are more were made with full buffers. */
  predicate OnlyFull(calls: seq<bool>, calls': seq<bool>) {
    calls <= calls' && forall i | |calls| <= i < |calls'| :: calls'[i]
  }

  lemma OnlyFullThen(a: seq<bool>, b: seq<bool>, c: seq<bool>)
    requires OnlyFull(a, b) && OnlyFull(b, c)
    ensures OnlyFull(a, c) && |a| <= |b| <= |c| && (c == a ==> b == a)
  {}

  /** `r` is the outcome of emitting `bytes`.

      Bytes that fit go into the buffer, and no sink is called. Otherwise, without a sink the buffer is
      filled to its end; with one they all go out, buffer by full buffer, unless a replacement is refused,
      which kills the stream. A dead stream emits nothing and never calls its sink. As long as the buffer
      stays, so does what is reserved in it. */
  predicate Emits(s: Snap, s': Snap, r: Outcome, bytes: seq<byte>) {
    && s'.sinked == s.sinked && OnlyFull(s.calls, s'.calls) && (s'.calls == s.calls ==> s'.front == s.front)
    && (s.dead ==> s' == s && (r.Pass? <==> bytes == []))
    && (!s.dead && |bytes| <= s.room ==> r.Pass? && s'.calls == s.calls && s'.room + |bytes| == s.room)
    && match r
       case Pass =>
         && s'.emitted == s.emitted + bytes && s'.dead == s.dead
         && (!s.sinked ==> s'.room + |bytes| == s.room)
       case Fail(e) =>
         && s.emitted <= s'.emitted <= s.emitted + bytes && |s'.emitted| < |s.emitted| + |bytes|
         && e == (if s.sinked then Argument else BufferFull)
         && (s.sinked ==> s'.dead)
         && (!s.sinked ==> !s'.dead && s'.room == 0 && |s'.emitted| == |s.emitted| + s.room)
  }

  lemma EmitsNothing(s: Snap)
    ensures Emits(s, s, Pass, [])
  {
    assert s.emitted + [] == s.emitted;
  }

  lemma EmitsIntoRoom(s: Snap, s': Snap, bytes: seq<byte>)
    requires |bytes| <= s.room && (s.dead ==> bytes == [])
    requires s' == s.(emitted := s.emitted + bytes, room := s.room - |bytes|)
    ensures Emits(s, s', Pass, bytes)
  {
    assert s.emitted + [] == s.emitted;
  }

  lemma EmitsThen(s0: Snap, s1: Snap, s2: Snap, r: Outcome, a: seq<byte>, b: seq<byte>)
    requires Emits(s0, s1, Pass, a) && Emits(s1, s2, r, b)
    ensures Emits(s0, s2, r, a + b)
  {
    OnlyFullThen(s0.calls, s1.calls, s2.calls);
    hide OnlyFull;
    assert s0.emitted + a + b == s0.emitted + (a + b);
  }

  lemma EmitsStop(s0: Snap, s1: Snap, e: Error, a: seq<byte>, b: seq<byte>)
    requires Emits(s0, s1, Fail(e), a)
    ensures Emits(s0, s1, Fail(e), a + b)
  {
    assert s0.emitted + a + b == s0.emitted + (a + b);
  }

  lemma EmitsAfter(s0: Snap, s1: Snap, s2: Snap, e: Error, a: seq<byte>, b: seq<byte>, c: seq<byte>)
    requires Emits(s0, s1, Pass, a) && Emits(s1, s2, Fail(e), b)
    ensures Emits(s0, s2, Fail(e), a + (b + c))
  {
    hide Emits;
    EmitsThen(s0, s1, s2, Fail(e), a, b);
    EmitsStop(s0, s2, e, a + b, c);
    assert a + b + c == a + (b + c);
  }

  /** Making room in a full buffer: the sink leaves at least a byte, or there is no sink to ask, or what
      it leaves is refused. Nothing is emitted or lost either way. */
  predicate Drains(s: Snap, s': Snap, r: Outcome) {
    && s'.sinked == s.sinked && OnlyFull(s.calls, s'.calls) && s'.emitted == s.emitted
    && match r
       case Pass => s.sinked && !s.dead && !s'.dead && s'.room >= 1 && |s.calls| < |s'.calls|
       case Fail(e) =>
         && e == (if s.sinked then Argument else BufferFull)
         && (s.sinked ==> s'.dead) && if !s.sinked || s.dead then s' == s else |s.calls| < |s'.calls|
  }

  /** A drain refused in front of bytes still to be emitted. */
  lemma EmitsRefused(s0: Snap, s1: Snap, s2: Snap, e: Error, a: seq<byte>, b: seq<byte>)
    requires Emits(s0, s1, Pass, a) && Drains(s1, s2, Fail(e)) && s1.room == 0 && b != [] && (!s0.sinked ==> !s0.dead)
    ensures Emits(s0, s2, Fail(e), a + b)
  {
    OnlyFullThen(s0.calls, s1.calls, s2.calls);
    hide OnlyFull;
    assert s0.emitted + a + b == s0.emitted + (a + b);
    assert s1.emitted <= s0.emitted + (a + b);
  }

  /** Bytes emitted on either side of a drain: they did not fit. */
  lemma EmitsAcross(s0: Snap, s1: Snap, s2: Snap, s3: Snap, a: seq<byte>, b: seq<byte>)
    requires Emits(s0, s1, Pass, a) && s1.room == 0 && Drains(s1, s2, Pass) && Emits(s2, s3, Pass, b) && b != []
    ensures Emits(s0, s3, Pass, a + b)
  {
    OnlyFullThen(s0.calls, s1.calls, s2.calls);
    OnlyFullThen(s0.calls, s2.calls, s3.calls);
    hide OnlyFull;
    assert s0.emitted + a + b == s0.emitted + (a + b);
  }

  /** Exact fit: without a sink a write succeeds if and only if what it owes fits. */
  lemma ExactFit(s: Snap, s': Snap, r: Outcome, bytes: seq<byte>)
    requires Emits(s, s', r, bytes) && !s.sinked && !s.dead
    ensures r.Pass? <==> |bytes| <= s.room
    ensures r.Fail? ==> r == Fail(BufferFull) && s'.room == 0 && s'.emitted == s.emitted + bytes[..s.room]
  {
    if r.Fail? {
      assert (s.emitted + bytes)[..|s'.emitted|] == s.emitted + bytes[..s.room];
    }
  }

  /** With a sink: bytes that fit pass without a call of it, and whatever calls there are carry full
      buffers. A failure is the death of the stream. */
  lemma SinkFit(s: Snap, s': Snap, r: Outcome, bytes: seq<byte>)
    requires Emits(s, s', r, bytes) && s.sinked && !s.dead
    ensures |bytes| <= s.room ==> r == Pass && s'.calls == s.calls && s'.room + |bytes| == s.room
    ensures s.calls <= s'.calls && forall i | |s.calls| <= i < |s'.calls| :: s'.calls[i]
    ensures r.Pass? ==> s'.emitted == s.emitted + bytes && !s'.dead
    ensures r.Fail? ==> r == Fail(Argument) && s'.dead && s.emitted <= s'.emitted <= s.emitted + bytes
  {}

  // ---- held-back headers -------------------------------------------------------------------------

  /** The ids whose headers are not all there after `k` bytes of headers and content. */
  function Survivors(ids: seq<Id>, k: nat): seq<Id>
    decreases |ids|
  {
    if ids == [] || k < |OpenBytes(ids[0])| then ids else Survivors(ids[1..], k - |OpenBytes(ids[0])|)
  }

  lemma {:induction false} HeadersCons(ids: seq<Id>)
    requires ids != []
    ensures Headers(ids) == OpenBytes(ids[0]) + Headers(ids[1..])
    decreases |ids|
  {
    hide OpenBytes, Headers;
    var init, last := ids[..|ids| - 1], ids[|ids| - 1];
    assert ids == init + [last];
    HeadersMore(init, last);
    if init == [] {
      assert ids[1..] == [];
      NothingPending(OpenBytes(last));
      NothingPending([]);
      assert [] + Headers([]) == Headers([]) && [] + OpenBytes(last) == OpenBytes(last);
    } else {
      HeadersCons(init);
      HeadersMore(init[1..], last);
      assert ids[1..] == init[1..] + [last];
    }
  }

  lemma {:induction false} SurvivorsAt(ids: seq<Id>, w: nat, k: nat)
    requires w <= |ids| && |Headers(ids[..w])| <= k
    requires w < |ids| ==> k < |Headers(ids[..w])| + |OpenBytes(ids[w])|
    ensures Survivors(ids, k) == ids[w..]
    decreases w
  {
    hide OpenBytes;
    if w > 0 {
      HeadersCons(ids[..w]);
      assert ids[..w][1..] == ids[1..][..w - 1] && ids[..w][0] == ids[0];
      SurvivorsAt(ids[1..], w - 1, k - |OpenBytes(ids[0])|);
    }
  }

  lemma {:induction false} SurvivorsCut(ids: seq<Id>, k: nat) returns (w: nat)
    ensures w <= |ids| && Survivors(ids, k) == ids[w..] && |Headers(ids[..w])| <= k
    ensures w < |ids| ==> k < |Headers(ids[..w])| + |OpenBytes(ids[w])|
    decreases |ids|
  {
    hide OpenBytes;
    w := 0;
    if ids != [] && k >= |OpenBytes(ids[0])| {
      var v := SurvivorsCut(ids[1..], k - |OpenBytes(ids[0])|);
      w := v + 1;
      HeadersCons(ids[..w]);
      assert ids[..w][1..] == ids[1..][..v] && ids[..w][0] == ids[0];
    }
  }

  /** A content write: the headers held back, then `content`; whatever headers did not make it stay
      held back. */
  predicate Writes(s: Snap, s': Snap, ids: seq<Id>, ids': seq<Id>, r: Outcome, content: seq<byte>) {
    && Emits(s, s', r, Headers(ids) + content)
    && |s.emitted| <= |s'.emitted| && ids' == Survivors(ids, |s'.emitted| - |s.emitted|)
  }

  /** A call that is refused leaves everything as it was. */
  predicate Refuses(s: Snap, s': Snap, ids: seq<Id>, ids': seq<Id>, r: Outcome) {
    s' == s && ids' == ids && r == Fail(Argument)
  }

  lemma WritesPassed(s: Snap, s': Snap, ids: seq<Id>, ids': seq<Id>, content: seq<byte>)
    requires Writes(s, s', ids, ids', Pass, content)
    ensures ids' == []
  {
    hide Headers, Survivors, OpenBytes;
    assert ids[..|ids|] == ids && ids[|ids|..] == [];
    SurvivorsAt(ids, |ids|, |s'.emitted| - |s.emitted|);
  }

  lemma WritesNothing(s: Snap)
    ensures Writes(s, s, [], [], Pass, [])
  {
    EmitsNothing(s);
    NothingPending([]);
    assert [] + Headers([]) == Headers([]) && Headers([]) + [] == [];
  }

  lemma WritesThen(s0: Snap, s1: Snap, s2: Snap, ids: seq<Id>, r: Outcome, a: seq<byte>, b: seq<byte>)
    requires Writes(s0, s1, ids, [], Pass, a) && Emits(s1, s2, r, b)
    ensures Writes(s0, s2, ids, [], r, a + b)
  {
    EmitsThen(s0, s1, s2, r, Headers(ids) + a, b);
    EmitsGrows(s1, s2, r, b);
    EmitsGrows(s0, s1, Pass, Headers(ids) + a);
    hide Emits, Headers, Survivors, OpenBytes;
    assert Headers(ids) + a + b == Headers(ids) + (a + b);
    assert ids[..|ids|] == ids && ids[|ids|..] == [];
    SurvivorsAt(ids, |ids|, |s2.emitted| - |s0.emitted|);
  }

  lemma EmitsGrows(s: Snap, s': Snap, r: Outcome, bytes: seq<byte>)
    requires Emits(s, s', r, bytes)
    ensures |s.emitted| <= |s'.emitted| <= |s.emitted| + |bytes|
    ensures r.Pass? ==> |s'.emitted| == |s.emitted| + |bytes|
    ensures r.Fail? ==> |s'.emitted| < |s.emitted| + |bytes|
  {}

  lemma WritesStop(s0: Snap, s1: Snap, ids: seq<Id>, ids': seq<Id>, e: Error, a: seq<byte>, b: seq<byte>)
    requires Writes(s0, s1, ids, ids', Fail(e), a)
    ensures Writes(s0, s1, ids, ids', Fail(e), a + b)
  {
    hide Emits;
    EmitsStop(s0, s1, e, Headers(ids) + a, b);
    assert Headers(ids) + a + b == Headers(ids) + (a + b);
  }

  lemma ContentAfter(s0: Snap, s1: Snap, s2: Snap, ids: seq<Id>, r: Outcome, content: seq<byte>)
    requires Writes(s0, s1, ids, [], Pass, []) && Emits(s1, s2, r, content)
    ensures Writes(s0, s2, ids, [], r, content)
  {
    hide Writes, Emits;
    WritesThen(s0, s1, s2, ids, r, [], content);
    assert [] + content == content;
  }

  lemma ContentStopped(s0: Snap, s1: Snap, ids: seq<Id>, ids': seq<Id>, e: Error, content: seq<byte>)
    requires Writes(s0, s1, ids, ids', Fail(e), [])
    ensures Writes(s0, s1, ids, ids', Fail(e), content)
  {
    hide Writes;
    WritesStop(s0, s1, ids, ids', e, [], content);
    assert [] + content == content;
  }

  /** The headers written in order until one fails: those from there on stay held back. */
  lemma CommitStops(s0: Snap, s1: Snap, s2: Snap, ids: seq<Id>, i: nat, e: Error)
    requires i < |ids| && Emits(s0, s1, Pass, Headers(ids[..i])) && Emits(s1, s2, Fail(e), OpenBytes(ids[i]))
    ensures Writes(s0, s2, ids, ids[i..], Fail(e), [])
  {
    EmitsGrows(s0, s1, Pass, Headers(ids[..i]));
    EmitsGrows(s1, s2, Fail(e), OpenBytes(ids[i]));
    hide Emits, Headers, Survivors, OpenBytes;
    EmitsAfter(s0, s1, s2, e, Headers(ids[..i]), OpenBytes(ids[i]), Headers(ids[i + 1..]));
    HeadersSplit(ids, i);
    HeadersCons(ids[i..]);
    assert ids[i..][1..] == ids[i + 1..];
    assert Headers(ids) + [] == Headers(ids);
    SurvivorsAt(ids, i, |s2.emitted| - |s0.emitted|);
  }

  lemma CommitStep(s0: Snap, s1: Snap, s2: Snap, ids: seq<Id>, i: nat)
    requires i < |ids| && Emits(s0, s1, Pass, Headers(ids[..i])) && Emits(s1, s2, Pass, OpenBytes(ids[i]))
    ensures Emits(s0, s2, Pass, Headers(ids[..i + 1]))
  {
    hide Emits, Headers, OpenBytes;
    EmitsThen(s0, s1, s2, Pass, Headers(ids[..i]), OpenBytes(ids[i]));
    HeadersMore(ids[..i], ids[i]);
    assert ids[..i + 1] == ids[..i] + [ids[i]];
  }

  lemma CommitNone(s: Snap, ids: seq<Id>)
    ensures Emits(s, s, Pass, Headers(ids[..0]))
  {
    EmitsNothing(s);
    NothingPending([]);
    assert [] + Headers([]) == Headers([]) && ids[..0] == [];
  }

  lemma CommitAll(s0: Snap, s1: Snap, ids: seq<Id>)
    requires Emits(s0, s1, Pass, Headers(ids))
    ensures Writes(s0, s1, ids, [], Pass, [])
  {
    EmitsGrows(s0, s1, Pass, Headers(ids));
    hide Emits, Headers, Survivors, OpenBytes;
    assert Headers(ids) + [] == Headers(ids);
    assert ids[..|ids|] == ids && ids[|ids|..] == [];
    SurvivorsAt(ids, |ids|, |s1.emitted| - |s0.emitted|);
  }

  lemma {:induction false} HeadersSplit(ids: seq<Id>, w: nat)
    requires w <= |ids|
    ensures Headers(ids) == Headers(ids[..w]) + Headers(ids[w..])
    decreases |ids| - w
  {
    hide OpenBytes, Headers;
    if w == |ids| {
      assert ids[..w] == ids && ids[w..] == [];
      NothingPending(Headers(ids));
    } else {
      HeadersSplit(ids, w + 1);
      HeadersMore(ids[..w], ids[w]);
      HeadersCons(ids[w..]);
      assert ids[..w + 1] == ids[..w] + [ids[w]] && ids[w..][1..] == ids[w + 1..];
    }
  }

  /** `w` is the number of held-back headers that fit into `room` bytes whole. */
  predicate WholeHeaders(ids: seq<Id>, room: nat, w: nat) {
    && w <= |ids| && |Headers(ids[..w])| <= room
    && (w < |ids| ==> room < |Headers(ids[..w + 1])|)
  }

  lemma OpenSome(id: Id)
    ensures |OpenBytes(id)| >= 1
  {}

  lemma {:induction false} HeadersLonger(ids: seq<Id>, v: nat, w: nat)
    requires v < w <= |ids|
    ensures |Headers(ids[..v])| < |Headers(ids[..w])|
    decreases w
  {
    OpenSome(ids[w - 1]);
    hide OpenBytes, Headers;
    HeadersMore(ids[..w - 1], ids[w - 1]);
    assert ids[..w] == ids[..w - 1] + [ids[w - 1]];
    if v < w - 1 { HeadersLonger(ids, v, w - 1); }
  }

  /** There is exactly one such number, and the rest of the ids survives. */
  lemma WholeSurvivors(ids: seq<Id>, room: nat, w: nat)
    requires WholeHeaders(ids, room, w)
    ensures Survivors(ids, room) == ids[w..]
    ensures forall v :: WholeHeaders(ids, room, v) ==> v == w
    ensures (exists v | 0 <= v <= |ids| :: room == |Headers(ids[..v])|) <==> room == |Headers(ids[..w])|
  {
    hide OpenBytes, Headers, Survivors;
    if w < |ids| {
      HeadersMore(ids[..w], ids[w]);
      assert ids[..w + 1] == ids[..w] + [ids[w]];
    }
    SurvivorsAt(ids, w, room);
    forall v | 0 <= v <= |ids| && v != w ensures !WholeHeaders(ids, room, v) && room != |Headers(ids[..v])| {
      if v < w {
        HeadersLonger(ids, v, w);
        if v + 1 < w { HeadersLonger(ids, v + 1, w); }
      } else {
        if w + 1 < v { HeadersLonger(ids, w + 1, v); }
      }
    }
  }

  lemma SomeWhole(ids: seq<Id>, room: nat) returns (w: nat)
    ensures WholeHeaders(ids, room, w)
  {
    hide OpenBytes, Headers, Survivors;
    w := SurvivorsCut(ids, room);
    if w < |ids| {
      HeadersMore(ids[..w], ids[w]);
      assert ids[..w + 1] == ids[..w] + [ids[w]];
    }
  }

  /** `w` headers fitted into `room` whole; `r` is the outcome of writing the rest and `content` into
      `capacity` more bytes, behind what was torn. It passes if and only if they fit, and `after` is then
      the one-shot output if and only if the room ran out on a boundary of the headers. */
  predicate Recovers(ids: seq<Id>, room: nat, w: nat, content: seq<byte>, capacity: nat, r: Outcome,
                     before: seq<byte>, after: seq<byte>) {
    && WholeHeaders(ids, room, w)
    && (r.Pass? <==> |Headers(ids[w..])| + |content| <= capacity)
    && (r.Fail? ==> r == Fail(BufferFull))
    && (r.Pass? ==>
          && |after| == |before + Headers(ids) + content| + (room - |Headers(ids[..w])|)
          && (after == before + Headers(ids) + content <==> exists v | 0 <= v <= |ids| :: room == |Headers(ids[..v])|))
  }

  /** Interrupted commit. A write cut short by a full buffer left the whole headers that fit, and part of
      what comes next. Retried into a fresh buffer it passes if and only if the other headers and the
      content fit; the output is then right if and only if the room ran out on a boundary of the headers
      in the first place, and otherwise longer, by exactly the torn prefix. */
  lemma RetryLaw(s0: Snap, s1: Snap, s2: Snap, s3: Snap, ids: seq<Id>, ids1: seq<Id>, ids2: seq<Id>, r: Outcome,
                 content: seq<byte>)
    returns (w: nat)
    requires Writes(s0, s1, ids, ids1, Fail(BufferFull), content) && !s0.sinked && !s0.dead
    requires s2.emitted == s1.emitted && !s2.sinked && !s2.dead
    requires Writes(s2, s3, ids1, ids2, r, content)
    ensures Recovers(ids, s0.room, w, content, s2.room, r, s0.emitted, s3.emitted) && ids1 == ids[w..]
  {
    hide Headers, OpenBytes, Survivors, WholeHeaders;
    w := SomeWhole(ids, s0.room);
    WholeSurvivors(ids, s0.room, w);
    WholeBound(ids, s0.room, w);
    HeadersSplit(ids, w);
    ExactFit(s0, s1, Fail(BufferFull), Headers(ids) + content);
    ExactFit(s2, s3, r, Headers(ids1) + content);
    var done, rest := Headers(ids[..w]), Headers(ids[w..]);
    assert Headers(ids) + content == done + (rest + content);
    if r.Pass? && s0.room == |done| {
      assert (done + (rest + content))[..|done|] == done;
      assert s3.emitted == s0.emitted + done + (rest + content) == s0.emitted + (done + rest) + content;
    }
  }

  lemma WholeBound(ids: seq<Id>, room: nat, w: nat)
    requires WholeHeaders(ids, room, w)
    ensures w <= |ids| && |Headers(ids[..w])| <= room
  {}
}

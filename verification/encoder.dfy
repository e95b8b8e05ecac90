/** Whole runs of the encoder: what any mix of calls, buffers and sink amounts to. */
module Encoder {
  import opened Leb128
  import opened Wire
  import opened Message
  import opened Output
  import opened OStream

  /** Float elements have their type's width; nothing else about a call is guaranteed by its type. */
  predicate Typed(op: Op) {
    op.Put? && op.field.FloatArray? ==> forall e | e in op.field.elems :: |e| == Width(op.field.fp64)
  }

  method Put(os: OStream, f: Field) returns (r: Outcome)
    requires os.Valid() && Typed(Op.Put(f))
    modifies os`buffer, os`end, os`offset, os`dead, os`head, os`heads, os`drained, os.buffer, os.sink, os.pending,
      os.pending.ids
    ensures os.Valid() && (os.buffer == old(os.buffer) || fresh(os.buffer))
    ensures !FieldOk(f) ==> Refuses(old(os.Look()), os.Look(), old(os.pending.Ids()), os.pending.Ids(), r)
    ensures FieldOk(f) ==>
              Writes(old(os.Look()), os.Look(), old(os.pending.Ids()), os.pending.Ids(), r, FieldBytes(f))
  {
    hide Writes, FieldBytes, Innermost, Strip, Fulls;
    match f
    case UnsignedField(id, v) => r := os.WriteUnsigned(id, v);
    case SignedField(id, v) => r := os.WriteSigned(id, v);
    case FixField(id, subtype, data) => r := os.WriteFixlen(id, data, subtype, true);
    case UnsignedArray(id, values) => r := os.WriteArrayUnsigned(id, values);
    case SignedArray(id, values) => r := os.WriteArraySigned(id, values);
    case FloatArray(id, fp64, elems) => r := os.WriteArrayFloats(id, fp64, elems, true);
  }

  /** One call. It is refused untouched, or it emits what it owes; when it succeeds it is `Apply`. */
  method Perform(os: OStream, op: Op) returns (r: Outcome)
    requires os.Valid() && Typed(op)
    modifies os, os.buffer, os.sink, os.pending, os.pending.ids
    ensures os.Valid() && (os.buffer == old(os.buffer) || fresh(os.buffer))
    ensures !Accepts(old(os.View()), op) ==>
              r == Fail(Argument) && os.Look() == old(os.Look()) && os.View() == old(os.View())
    ensures Accepts(old(os.View()), op) ==> Emits(old(os.Look()), os.Look(), r, Owed(old(os.View()), op))
    ensures Accepts(old(os.View()), op) && r.Pass? ==> os.View() == Apply(old(os.View()), op)
    ensures r.Fail? ==> os.depth == old(os.depth)
    ensures os.open == if r.Pass? then OpenNext(old(os.open), op) else old(os.open)
  {
    hide Emits, Writes, Headers, FieldBytes, FieldOk, Innermost, Strip, Fulls;
    ghost var s0, e := os.Look(), os.View();
    match op
    case Begin(id) =>
      r := os.WriteSequenceBeginLazy(id);
      EmitsNothing(s0);
    case End =>
      r := os.WriteSequenceEnd();
    case EndKeep =>
      r := os.WriteSequenceEndKeep();
      if e.depth > 0 { WritesEmits(s0, os.Look(), e.pending, os.pending.Ids(), r, CLOSE_BYTES); }
    case Put(f) =>
      r := Put(os, f);
      if FieldOk(f) { WritesEmits(s0, os.Look(), e.pending, os.pending.Ids(), r, FieldBytes(f)); }
  }

  lemma WritesEmits(s: Snap, s': Snap, ids: seq<Id>, ids': seq<Id>, r: Outcome, content: seq<byte>)
    requires Writes(s, s', ids, ids', r, content)
    ensures Emits(s, s', r, Headers(ids) + content)
    ensures r.Pass? ==> ids' == [] && s'.emitted == s.emitted + (Headers(ids) + content)
  {
    if r.Pass? { WritesPassed(s, s', ids, ids', content); }
  }

  // ---- runs --------------------------------------------------------------------------------------

  /** A caller's step: a write, a flush, or the installation of another buffer. */
  datatype Call = Write(op: Op) | Flush | Install(capacity: nat, at: nat)

  function OpsOf(calls: seq<Call>): seq<Op> {
    if calls == [] then []
    else OpsOf(calls[..|calls| - 1]) + if calls[|calls| - 1].Write? then [calls[|calls| - 1].op] else []
  }

  method Step(os: OStream, call: Call) returns (r: Outcome)
    requires os.Valid() && (call.Write? ==> Typed(call.op))
    modifies os, os.buffer, os.sink, os.pending, os.pending.ids
    ensures os.Valid() && (os.buffer == old(os.buffer) || fresh(os.buffer))
    ensures r.Pass? ==> Follows(old(os.View()), os.View(), call)
    ensures old(os.dead) ==> os.Look() == old(os.Look()) && (r.Fail? ==> r == Fail(Argument))
    ensures old(os.dead) && r.Pass? ==> call.Write? && Owed(old(os.View()), call.op) == []
    ensures os.open == if r.Pass? && call.Write? then OpenNext(old(os.open), call.op) else old(os.open)
    ensures r.Fail? ==> os.dead || Excuse(old(os.View()), os.sink != null, old(os.end - os.offset), call)
    ensures call.Write? ==> OnlyFull(old(os.Look().calls), os.Look().calls)
    ensures call.Write? && !old(os.dead) && !Excuse(old(os.View()), false, old(os.end - os.offset), call) ==>
              && r.Pass? && !os.dead && os.Look().calls == old(os.Look().calls)
              && |os.Emitted()| + os.end - os.offset == old(|os.Emitted()| + os.end - os.offset)
    ensures !call.Install? && os.sink == null && r.Pass? ==>
              |os.Emitted()| + os.end - os.offset == old(|os.Emitted()| + os.end - os.offset)
  {
    hide Emits, Apply, Accepts, Owed, OpenNext, Innermost, Strip, Fulls;
    ghost var s0, e := os.Look(), os.View();
    match call
    case Write(op) =>
      r := Perform(os, op);
      if Accepts(e, op) { EmitsFacts(s0, os.Look(), r, Owed(e, op)); }
    case Flush =>
      var used := os.Flush();
      r := if used.Ok? then Pass else Fail(used.error);
    case Install(capacity, at) =>
      var next := new byte[capacity];
      r := os.BufferSet(next, at);
  }

  predicate Follows(e: Enc, e': Enc, call: Call) {
    match call
    case Write(op) => Accepts(e, op) && e' == Apply(e, op)
    case _ => e' == e
  }

  /** Why a call on a living stream may fail: bad arguments, or no sink and no room. */
  predicate Excuse(e: Enc, sinked: bool, room: nat, call: Call) {
    match call
    case Write(op) => !Accepts(e, op) || (!sinked && |Owed(e, op)| > room)
    case Flush => false
    case Install(capacity, at) => capacity < at || (sinked && capacity == at)
  }

  lemma EmitsFacts(s: Snap, s': Snap, r: Outcome, bytes: seq<byte>)
    requires Emits(s, s', r, bytes)
    ensures s.dead ==> s' == s && (r.Pass? <==> bytes == []) && (s.sinked && r.Fail? ==> r == Fail(Argument))
    ensures r.Fail? ==> s'.dead || (!s.sinked && (!s.dead ==> |bytes| > s.room))
    ensures r.Pass? && !s.sinked ==> |s'.emitted| + s'.room == |s.emitted| + s.room
    ensures OnlyFull(s.calls, s'.calls)
    ensures !s.dead && |bytes| <= s.room ==>
              && r.Pass? && !s'.dead && s'.calls == s.calls
              && |s'.emitted| + s'.room == |s.emitted| + s.room
  {}

  lemma OpsMore(calls: seq<Call>, i: nat)
    requires i < |calls|
    ensures OpsOf(calls[..i + 1]) == OpsOf(calls[..i]) + if calls[i].Write? then [calls[i].op] else []
  {
    assert calls[..i + 1][..i] == calls[..i];
  }

  lemma {:induction false} OpsPrefix(calls: seq<Call>, i: nat) returns (rest: seq<Op>)
    requires i <= |calls|
    ensures OpsOf(calls) == OpsOf(calls[..i]) + rest
    decreases |calls| - i
  {
    if i == |calls| {
      rest := [];
      assert calls[..i] == calls;
    } else {
      rest := OpsPrefix(calls, i + 1);
      OpsMore(calls, i);
      if calls[i].Write? {
        assert OpsOf(calls[..i]) + [calls[i].op] + rest == OpsOf(calls[..i]) + ([calls[i].op] + rest);
        rest := [calls[i].op] + rest;
      }
    }
  }

  lemma StepOps(e0: Enc, e: Enc, e': Enc, calls: seq<Call>, i: nat)
    requires i < |calls| && ApplyAll(e0, OpsOf(calls[..i])) == Some(e) && Follows(e, e', calls[i])
    ensures ApplyAll(e0, OpsOf(calls[..i + 1])) == Some(e')
  {
    hide Apply, Accepts, ApplyAll;
    OpsMore(calls, i);
    if calls[i].Write? {
      ApplyAppend(e0, OpsOf(calls[..i]), [calls[i].op]);
      ApplyOne(e, calls[i].op);
    } else {
      assert OpsOf(calls[..i]) + [] == OpsOf(calls[..i]);
    }
  }

  lemma {:induction false} OutGrows(e: Enc, ops: seq<Op>)
    requires ApplyAll(e, ops).Some?
    ensures |e.out| <= |ApplyAll(e, ops).value.out|
    decreases |ops|
  {
    if ops != [] { OutGrows(Apply(e, ops[0]), ops[1..]); }
  }

  /** Everything the calls owe fits into `room` more bytes. */
  predicate Fits(e: Enc, ops: seq<Op>, room: nat) {
    match ApplyAll(e, ops)
    case None => false
    case Some(e') => |e'.out| <= |e.out| + room
  }

  /** A call that is refused, or finds no room, spoils the whole run's fit. */
  lemma NoFit(e0: Enc, e: Enc, calls: seq<Call>, i: nat, room0: nat, room: nat)
    requires i < |calls| && ApplyAll(e0, OpsOf(calls[..i])) == Some(e) && !calls[i].Install?
    requires |e.out| + room == |e0.out| + room0 && Excuse(e, false, room, calls[i])
    ensures !Fits(e0, OpsOf(calls), room0)
  {
    hide ApplyAll, Accepts, Owed;
    var op := calls[i].op;
    var rest := OpsPrefix(calls, i + 1);
    OpsMore(calls, i);
    assert OpsOf(calls) == OpsOf(calls[..i]) + ([op] + rest);
    ApplyAppend(e0, OpsOf(calls[..i]), [op] + rest);
    ApplyAppend(e, [op], rest);
    ApplyOne(e, op);
    if Accepts(e, op) && ApplyAll(Apply(e, op), rest).Some? { OutGrows(Apply(e, op), rest); }
  }

  /** Any run of calls, stopped at the first that fails.

      Output independence: whatever the buffers, the sink and the flushes between writes, a run that
      succeeds has emitted exactly what its writes amount to. Exact fit: without a sink it succeeds if and
      only if they are legal and their bytes fit. With one it fails on bad arguments, or dies; between
      flushes and installations the sink gets full buffers only, and nothing at all as long as the bytes
      fit. A dead stream emits nothing more and its sink is not called again: only calls that owe nothing
      pass, and the first flush, installation or call that owes a byte answers `Argument`. */
  method Drive(os: OStream, calls: seq<Call>) returns (r: Outcome, done: nat, ghost e: Enc)
    requires os.Valid() && forall c | c in calls :: c.Write? ==> Typed(c.op)
    modifies os, os.buffer, os.sink, os.pending, os.pending.ids
    ensures os.Valid() && done <= |calls| && (r.Pass? <==> done == |calls|)
    ensures ApplyAll(old(os.View()), OpsOf(calls[..done])) == Some(e)
    ensures r.Pass? ==> ApplyAll(old(os.View()), OpsOf(calls)) == Some(os.View())
    ensures r.Fail? && os.sink != null && !os.dead ==> Excuse(e, true, 0, calls[done])
    ensures os.sink == null && (forall c | c in calls :: !c.Install?) ==>
              (r.Pass? <==> Fits(old(os.View()), OpsOf(calls), old(os.end - os.offset)))
    ensures old(os.dead) ==> os.Look() == old(os.Look()) && (r.Fail? ==> r == Fail(Argument))
    ensures old(os.dead) ==> e.out == old(os.Emitted()) && forall i | 0 <= i < done :: calls[i].Write?
    ensures os.open == OpenAfter(old(os.open), OpsOf(calls[..done]))
    ensures os.sink != null && OnlyWrites(calls) ==>
              forall i | old(|os.sink.units|) <= i < |os.sink.units| :: |os.sink.units[i]| == os.sink.sizes[i]
    ensures os.sink != null && OnlyWrites(calls) && !old(os.dead)
            && Fits(old(os.View()), OpsOf(calls), old(os.end - os.offset)) ==>
              r.Pass? && |os.sink.units| == old(|os.sink.units|)
  {
    hide ApplyAll, Accepts, Apply, Follows, OpsOf, Fits, OpenNext, OpenAfter, Innermost, Strip, Fulls, Owed;
    ghost var e0, room0, calls0 := os.View(), os.end - os.offset, os.Look().calls;
    ghost var easy := OnlyWrites(calls) && !os.dead && Fits(e0, OpsOf(calls), room0);
    assert OnlyFull(calls0, calls0);
    hide OnlyFull;
    done := 0;
    r := Pass;
    ApplyNone(e0, calls);
    OpenNone(os.open, calls);
    while done < |calls|
      invariant os.Valid() && (os.buffer == old(os.buffer) || fresh(os.buffer)) && done <= |calls| && r.Pass?
      invariant ApplyAll(e0, OpsOf(calls[..done])) == Some(os.View())
      invariant os.sink == null && (forall c | c in calls :: !c.Install?) ==>
                  |os.Emitted()| + os.end - os.offset == |e0.out| + room0
      invariant old(os.dead) ==> os.Look() == old(os.Look()) && forall i | 0 <= i < done :: calls[i].Write?
      invariant os.open == OpenAfter(old(os.open), OpsOf(calls[..done]))
      invariant OnlyWrites(calls) ==> OnlyFull(calls0, os.Look().calls)
      invariant easy ==>
                  && !os.dead && os.Look().calls == calls0
                  && |os.Emitted()| + os.end - os.offset == |e0.out| + room0
    {
      e := os.View();
      ghost var room, calls1 := os.end - os.offset, os.Look().calls;
      if easy && Excuse(e, false, room, calls[done]) { NoFit(e0, e, calls, done, room0, room); }
      r := Step(os, calls[done]);
      if OnlyWrites(calls) { OnlyFullThen(calls0, calls1, os.Look().calls); }
      if r.Fail? {
        if OnlyWrites(calls) && os.sink != null { NewUnits(calls0, os.Look().calls, os.sink.units, os.sink.sizes); }
        if os.sink == null && (forall c | c in calls :: !c.Install?) { NoFit(e0, e, calls, done, room0, room); }
        return;
      }
      StepOps(e0, e, os.View(), calls, done);
      OpenStep(old(os.open), calls, done);
      done := done + 1;
    }
    assert calls[..done] == calls;
    e := os.View();
    FitsIs(e0, OpsOf(calls), room0, e);
    if OnlyWrites(calls) && os.sink != null { NewUnits(calls0, os.Look().calls, os.sink.units, os.sink.sizes); }
  }

  /** Neither flushes nor installations. */
  predicate OnlyWrites(calls: seq<Call>) {
    forall c | c in calls :: c.Write?
  }

  lemma NewUnits(calls: seq<bool>, calls': seq<bool>, units: seq<seq<byte>>, sizes: seq<nat>)
    requires OnlyFull(calls, calls') && |units| == |sizes| && calls' == Fulls(units, sizes)
    ensures |calls| <= |units| && forall i | |calls| <= i < |units| :: |units[i]| == sizes[i]
  {
    forall i | |calls| <= i < |units| ensures |units[i]| == sizes[i] {
      assert calls'[i];
    }
  }

  lemma OpenStep(ids: seq<Id>, calls: seq<Call>, i: nat)
    requires i < |calls|
    ensures var ids' := OpenAfter(ids, OpsOf(calls[..i]));
            OpenAfter(ids, OpsOf(calls[..i + 1])) == if calls[i].Write? then OpenNext(ids', calls[i].op) else ids'
  {
    hide OpenAfter, OpenNext;
    OpsMore(calls, i);
    if calls[i].Write? {
      OpenMore(ids, OpsOf(calls[..i]), calls[i].op);
    } else {
      assert OpsOf(calls[..i]) + [] == OpsOf(calls[..i]);
    }
  }

  lemma OpenNone(ids: seq<Id>, calls: seq<Call>)
    ensures OpenAfter(ids, OpsOf(calls[..0])) == ids
  {}

  lemma ApplyNone(e: Enc, calls: seq<Call>)
    ensures ApplyAll(e, OpsOf(calls[..0])) == Some(e)
  {}

  lemma FitsIs(e: Enc, ops: seq<Op>, room: nat, e': Enc)
    requires ApplyAll(e, ops) == Some(e')
    ensures Fits(e, ops, room) <==> |e'.out| <= |e.out| + room
  {}

  /** Installs a fresh buffer and writes into it. */
  method PutAfresh(os: OStream, f: Field, capacity: nat) returns (r: Outcome, ghost s: Snap)
    requires os.Valid() && os.sink == null && Typed(Op.Put(f)) && FieldOk(f)
    modifies os, os.buffer, os.pending, os.pending.ids
    ensures os.Valid() && s == old(os.Look()).(room := capacity, front := [])
    ensures Writes(s, os.Look(), old(os.pending.Ids()), os.pending.Ids(), r, FieldBytes(f))
  {
    hide Writes, Headers, FieldBytes, FieldOk, Innermost, Strip, Fulls;
    var next := new byte[capacity];
    var installed := os.BufferSet(next, 0);
    s := os.Look();
    r := Put(os, f);
  }

  /** The recovery from a full buffer: install a fresh one, write again. With `w` headers written whole the
      retry passes if and only if the others and the field fit. What comes out is then the one-shot bytes if
      and only if the room was the length of some headers; otherwise it repeats the torn prefix. */
  method WriteAndRetry(os: OStream, f: Field, capacity: nat) returns (r: Outcome, again: bool, ghost w: nat)
    requires os.Valid() && os.sink == null && Typed(Op.Put(f)) && FieldOk(f)
    modifies os, os.buffer, os.pending, os.pending.ids
    ensures os.Valid() && again == (|Headers(old(os.pending.Ids()))| + |FieldBytes(f)| > old(os.end - os.offset))
    ensures !again ==> r.Pass? && os.View() == Apply(old(os.View()), Op.Put(f))
    ensures again ==>
              Recovers(old(os.pending.Ids()), old(os.end - os.offset), w, FieldBytes(f), capacity, r,
                       old(os.Emitted()), os.Emitted())
  {
    hide Writes, Headers, FieldBytes, FieldOk, Emits, Recovers, Innermost, Strip, Fulls, Apply, Owed;
    ghost var s0, ids := os.Look(), os.pending.Ids();
    r := Put(os, f);
    ghost var s1, ids1 := os.Look(), os.pending.Ids();
    WritesEmits(s0, s1, ids, ids1, r, FieldBytes(f));
    ExactFit(s0, s1, r, Headers(ids) + FieldBytes(f));
    again := r.Fail?;
    w := 0;
    if again {
      ghost var s2;
      r, s2 := PutAfresh(os, f, capacity);
      w := RetryLaw(s0, s1, s2, os.Look(), ids, ids1, os.pending.Ids(), r, FieldBytes(f));
    } else {
      PutIs(old(os.View()), f);
    }
  }

  lemma PutIs(e: Enc, f: Field)
    requires FieldOk(f)
    ensures Apply(e, Op.Put(f)) == Enc(e.out + (Headers(e.pending) + FieldBytes(f)), e.depth, [])
    ensures e.out + (Headers(e.pending) + FieldBytes(f)) == e.out + Headers(e.pending) + FieldBytes(f)
  {
    hide Headers, FieldBytes, FieldOk;
  }
}

/** The streaming encoder of src/ostream.rs: buffer, cursor, sink, held-back sequence headers. */
module OStream {
  import opened Leb128
  import opened Wire
  import opened Message
  import opened Output
  import Swar
  import Varint

  // ---- the sink --------------------------------------------------------------------------------

  /** What a sink does when it is handed a buffer: it copies the bytes and hands the same buffer back,
      or keeps it and supplies another. Either way it may have written into what it hands back, and it
      names the offset to start at. */
  datatype Reply = Copied(fill: seq<byte>, offset: nat) | Took(fill: seq<byte>, offset: nat)

  /** A sink that follows an arbitrary plan, and copies once the plan runs out. */
  class Sink {
    var plan: seq<Reply>
    /** The bytes it was handed, call by call, and the lengths of the buffers they came in. */
    var units: seq<seq<byte>>
    var sizes: seq<nat>

    constructor (plan: seq<Reply>)
      ensures this.plan == plan && units == [] && sizes == []
    {
      this.plan, units, sizes := plan, [], [];
    }

    method FlushTake(buffer: array<byte>, used: nat) returns (next: array<byte>, offset: nat)
      requires used <= buffer.Length
      modifies this, buffer
      ensures units == old(units) + [old(buffer[..used])] && sizes == old(sizes) + [buffer.Length]
      ensures next == buffer || fresh(next)
    {
      units, sizes := units + [buffer[..used]], sizes + [buffer.Length];
      var reply := if plan == [] then Copied([], 0) else plan[0];
      plan := if plan == [] then [] else plan[1..];
      match reply
      case Copied(fill, off) =>
        var k := if |fill| < buffer.Length then |fill| else buffer.Length;
        forall i | 0 <= i < k { buffer[i] := fill[i]; }
        return buffer, off;
      case Took(fill, off) =>
        next := new byte[|fill|](i requires 0 <= i < |fill| => fill[i]);
        return next, off;
    }
  }

  /** Of each unit whether it filled the buffer it came in. */
  function Fulls(units: seq<seq<byte>>, sizes: seq<nat>): (calls: seq<bool>)
    requires |units| == |sizes|
    ensures |calls| == |units|
  {
    seq(|units|, i requires 0 <= i < |units| => |units[i]| == sizes[i])
  }

  lemma FullsMore(units: seq<seq<byte>>, sizes: seq<nat>, unit: seq<byte>, size: nat)
    requires |units| == |sizes|
    ensures Fulls(units + [unit], sizes + [size]) == Fulls(units, sizes) + [|unit| == size]
  {}

  /** A unit as the sink saw it, without the head that was reserved in it. */
  function Strip(units: seq<seq<byte>>, heads: seq<nat>): seq<byte>
    requires |units| == |heads|
    requires forall i | 0 <= i < |units| :: heads[i] <= |units[i]|
  {
    if units == [] then []
    else Strip(units[..|units| - 1], heads[..|units| - 1]) + units[|units| - 1][heads[|units| - 1]..]
  }

  lemma StripMore(units: seq<seq<byte>>, heads: seq<nat>, unit: seq<byte>, head: nat)
    requires |units| == |heads| && head <= |unit|
    requires forall i | 0 <= i < |units| :: heads[i] <= |units[i]|
    ensures Strip(units + [unit], heads + [head]) == Strip(units, heads) + unit[head..]
  {
    assert (units + [unit])[..|units|] == units && (heads + [head])[..|units|] == heads;
  }

  // ---- the run of held-back ids ------------------------------------------------------------------

  class PendingRun {
    const ids: array<Id>
    var n: nat

    ghost predicate Valid()
      reads this
    {
      ids.Length == MAX_DEPTH && n <= MAX_DEPTH
    }

    /** Outermost first. */
    ghost function Ids(): seq<Id>
      reads this, ids
      requires Valid()
    {
      ids[..n]
    }

    constructor ()
      ensures Valid() && fresh(ids) && Ids() == []
    {
      ids := new Id[MAX_DEPTH];
      n := 0;
    }

    method Push(id: Id)
      requires Valid() && n < MAX_DEPTH
      modifies this, ids
      ensures Valid() && Ids() == old(Ids()) + [id]
    {
      ids[n] := id;
      n := n + 1;
    }

    method Pop() returns (r: Option<Id>)
      requires Valid()
      modifies this
      ensures Valid()
      ensures match r
              case None => old(Ids()) == [] && Ids() == []
              case Some(id) => old(Ids()) == Ids() + [id]
    {
      if n == 0 {
        return None;
      }
      n := n - 1;
      return Some(ids[n]);
    }

    /** Drops the `k` outermost ids: the prefix that reached the wire. */
    method DropFront(k: nat)
      requires Valid() && k <= n
      modifies this, ids
      ensures Valid() && Ids() == old(Ids())[k..]
    {
      if k == n {
        n := 0;
        return;
      }
      if k == 0 {
        return;
      }
      forall i | 0 <= i < n - k { ids[i] := ids[k + i]; }
      n := n - k;
    }
  }

  method CopyInto(buf: array<byte>, at: nat, data: seq<byte>)
    requires at + |data| <= buf.Length
    modifies buf
    ensures buf[at..at + |data|] == data
    ensures buf[..at] == old(buf[..at]) && buf[at + |data|..] == old(buf[at + |data|..])
  {
    forall i | 0 <= i < |data| { buf[at + i] := data[i]; }
  }

  // ---- the encoder -------------------------------------------------------------------------------

  const MIN_OUTPUT_BUFFER: nat := 1

  class OStream {
    var buffer: array<byte>
    var end: nat
    var offset: nat
    var depth: nat
    const pending: PendingRun
    const sink: Sink?
    var dead: bool
    /** The offset the active buffer was installed with, and those of the units handed over. */
    ghost var head: nat
    ghost var heads: seq<nat>
    /** What has left the active buffer: with the sink, or with the caller of `BufferSet`. */
    ghost var drained: seq<byte>
    /** The ids of the open sequences, outermost first. */
    ghost var open: seq<Id>

    /** Among other things, in every reachable state, interrupted commits included: the headers held back
        are those of the innermost open sequences. */
    ghost predicate Valid()
      reads this, pending, pending.ids, sink
    {
      && end == buffer.Length && head <= offset <= end
      && pending.Valid() && depth == |open| <= MAX_DEPTH && Innermost(pending.Ids(), open)
      && (dead ==> sink != null && end == 0)
      && (sink != null ==>
            && |heads| == |sink.units| == |sink.sizes|
            && (forall i | 0 <= i < |heads| :: heads[i] <= |sink.units[i]|)
            && drained == Strip(sink.units, heads))
    }

    /** The message so far: the sink's units without their reserved heads, then the active buffer's. */
    ghost function Emitted(): seq<byte>
      reads this, pending, pending.ids, sink, buffer
      requires Valid()
    {
      drained + buffer[head..offset]
    }

    ghost function Look(): Snap
      reads this, pending, pending.ids, sink, buffer
      requires Valid()
    {
      Snap(Emitted(), buffer[..head], end - offset, sink != null, dead,
           if sink == null then [] else Fulls(sink.units, sink.sizes))
    }

    /** A sinkless encoder may start anywhere in the buffer; one with a sink needs room for a byte. */
    constructor (buffer: array<byte>, offset: nat, sink: Sink?)
      requires offset <= buffer.Length && (sink != null ==>
          offset < buffer.Length && sink.units == [] && sink.sizes == [])
      ensures Valid() && fresh(pending) && fresh(pending.ids)
      ensures this.buffer == buffer && this.sink == sink
      ensures Emitted() == [] && !dead && depth == 0 && pending.Ids() == [] && open == []
      ensures this.offset == head == offset && end == buffer.Length && heads == []
    {
      this.buffer, end, this.offset, depth := buffer, buffer.Length, offset, 0;
      pending := new PendingRun();
      this.sink, dead := sink, false;
      head, heads, drained, open := offset, [], [], [];
    }

    /** Without a sink: any offset in the buffer will do, its end included. */
    static method WithOffset(buffer: array<byte>, offset: nat) returns (r: Result<OStream>)
      ensures r.Ok? <==> offset <= buffer.Length
      ensures match r
              case Err(e) => e == Argument
              case Ok(os) =>
                && fresh(os) && fresh(os.pending) && fresh(os.pending.ids) && os.Valid()
                && os.buffer == buffer && os.offset == os.head == offset && os.sink == null && os.View() == FRESH
    {
      if offset > buffer.Length {
        return Err(Argument);
      }
      var os := new OStream(buffer, offset, null);
      return Ok(os);
    }

    /** With a sink: there has to be room for at least one byte. */
    static method WithFlush(buffer: array<byte>, offset: nat, sink: Sink) returns (r: Result<OStream>)
      requires sink.units == [] && sink.sizes == []
      ensures r.Ok? <==> offset + MIN_OUTPUT_BUFFER <= buffer.Length
      ensures match r
              case Err(e) => e == Argument
              case Ok(os) =>
                && fresh(os) && fresh(os.pending) && fresh(os.pending.ids) && os.Valid() && !os.dead
                && os.buffer == buffer && os.offset == os.head == offset && os.sink == sink && os.View() == FRESH
    {
      if buffer.Length < offset + MIN_OUTPUT_BUFFER {
        return Err(Argument);
      }
      var os := new OStream(buffer, offset, sink);
      return Ok(os);
    }

    /** A handover: the sink gets the bytes, and its answer is installed unless it is too small. */
    method HandOver() returns (r: Outcome)
      requires Valid() && sink != null && !dead
      modifies this`buffer, this`end, this`offset, this`dead, this`head, this`heads, this`drained, buffer, sink
      ensures Valid() && (buffer == old(buffer) || fresh(buffer))
      ensures Emitted() == old(Emitted()) && head == offset
      ensures sink.units == old(sink.units) + [old(buffer[..offset])] && heads == old(heads) + [old(head)]
      ensures sink.sizes == old(sink.sizes) + [old(end)]
      ensures Look().calls == old(Look().calls) + [old(offset) == old(end)]
      ensures match r
              case Pass => !dead && offset < end
              case Fail(e) => e == Argument && dead && end == 0
    {
      hide Strip, Innermost, Fulls;
      var used := offset;
      ghost var unit := buffer[..used];
      StripMore(sink.units, heads, unit, head);
      FullsMore(sink.units, sink.sizes, unit, end);
      var next, off := sink.FlushTake(buffer, used);
      drained := drained + unit[head..];
      heads := heads + [head];
      if next.Length < off + MIN_OUTPUT_BUFFER {
        buffer := new byte[0];
        end, offset, head, dead := 0, 0, 0, true;
        return Fail(Argument);
      }
      end, buffer, offset, head := next.Length, next, off, off;
      return Pass;
    }

    /** The buffer is full: hand it over, or report that there is nowhere to go. */
    method DrainFull() returns (r: Outcome)
      requires Valid() && offset >= end
      modifies this`buffer, this`end, this`offset, this`dead, this`head, this`heads, this`drained, buffer, sink
      ensures Valid() && (buffer == old(buffer) || fresh(buffer))
      ensures Drains(old(Look()), Look(), r)
    {
      if dead {
        return Fail(Argument);
      }
      if sink == null {
        return Fail(BufferFull);
      }
      r := HandOver();
    }

    /** Moves the cursor over bytes that were stored behind it. */
    method Advance(n: nat, ghost bytes: seq<byte>)
      requires Valid() && offset + n <= end && buffer[offset..offset + n] == bytes
      modifies this`offset
      ensures Valid() && Emits(old(Look()), Look(), Pass, bytes)
    {
      hide Emits, Strip, Innermost, Fulls;
      ghost var s0 := Look();
      SliceJoin(drained, buffer[..], head, offset, offset + n);
      offset := offset + n;
      EmitsIntoRoom(s0, Look(), bytes);
    }

    method PushByte(b: byte) returns (r: Outcome)
      requires Valid()
      modifies this`buffer, this`end, this`offset, this`dead, this`head, this`heads, this`drained, buffer, sink
      ensures Valid() && (buffer == old(buffer) || fresh(buffer))
      ensures Emits(old(Look()), Look(), r, [b])
    {
      hide Emits, Drains, Strip, Innermost, Fulls;
      ghost var s0 := Look();
      EmitsNothing(s0);
      assert [] + [b] == [b];
      if offset >= end {
        r := DrainFull();
        ghost var s1 := Look();
        if r.Fail? {
          EmitsRefused(s0, s0, s1, r.error, [], [b]);
          return;
        }
        DrainRoom(s0, s1, r);
        PutRun([b]);
        EmitsAcross(s0, s0, s1, Look(), [], [b]);
        return Pass;
      }
      PutRun([b]);
      return Pass;
    }

    /** Stores a varint behind the cursor, inside a reserved run; nothing in front of it moves. */
    method Store(at: nat, value: bv64, narrow: bool) returns (next: nat)
      requires Valid() && offset <= at && at + MAX_VARINT_LEN <= end
      modifies buffer
      ensures Valid() && at <= next <= at + MAX_VARINT_LEN
      ensures buffer[offset..next] == old(buffer[offset..at]) + Encode(value)
      ensures buffer[..at] == old(buffer[..at]) && buffer[at + MAX_VARINT_LEN..] == old(buffer[at + MAX_VARINT_LEN..])
      ensures Look() == old(Look())
    {
      hide Encode, Strip, Innermost, Fulls;
      ghost var before := buffer[..at];
      var n;
      if narrow {
        n := Varint.WriteVarintNarrow(buffer, at, value);
      } else {
        n := Varint.WriteVarintUnchecked(buffer, at, value);
      }
      next := at + n;
      Kept(before);
      SliceJoin([], buffer[..], offset, at, next);
    }

    /** The bulk copy of a reserved run. */
    method StoreRaw(at: nat, data: seq<byte>)
      requires Valid() && offset <= at && at + |data| <= end
      modifies buffer
      ensures Valid() && buffer[offset..at + |data|] == old(buffer[offset..at]) + data
      ensures buffer[..at] == old(buffer[..at]) && buffer[at + |data|..] == old(buffer[at + |data|..])
      ensures Look() == old(Look())
    {
      hide Strip, Innermost, Fulls;
      ghost var before := buffer[..at];
      CopyInto(buffer, at, data);
      Kept(before);
      SliceJoin([], buffer[..], offset, at, at + |data|);
    }

    /** What lies in front of the cursor decides what was emitted. */
    twostate lemma Kept(before: seq<byte>)
      requires old(Valid()) && Valid() && unchanged(this) && unchanged(pending) && (sink != null ==> unchanged(sink))
      requires offset <= |before| <= end && before == old(buffer[..|before|]) == buffer[..|before|]
      ensures Look() == old(Look()) && buffer[offset..|before|] == old(buffer[offset..|before|])
    {
      hide Strip, Innermost, Fulls;
      SliceOf(old(buffer[..]), buffer[..], before, 0, head);
      SliceOf(old(buffer[..]), buffer[..], before, head, offset);
      SliceOf(old(buffer[..]), buffer[..], before, offset, |before|);
      assert buffer[..][head..offset] == buffer[head..offset] && old(buffer[..][head..offset] == buffer[head..offset]);
      assert buffer[..][0..head] == buffer[..head] && old(buffer[..][0..head] == buffer[..head]);
      assert Emitted() == old(Emitted());
    }

    /** A bulk copy into room that is there. */
    method PutRun(data: seq<byte>)
      requires Valid() && offset + |data| <= end
      modifies this`offset, buffer
      ensures Valid() && Emits(old(Look()), Look(), Pass, data)
    {
      hide Emits, Strip, Innermost, Fulls;
      StoreRaw(offset, data);
      Advance(|data|, data);
    }

    method PushRaw(data: seq<byte>) returns (r: Outcome)
      requires Valid()
      modifies this`buffer, this`end, this`offset, this`dead, this`head, this`heads, this`drained, buffer, sink
      ensures Valid() && (buffer == old(buffer) || fresh(buffer))
      ensures Emits(old(Look()), Look(), r, data)
    {
      hide Emits, Strip, Innermost, Fulls;
      if offset + |data| <= end {
        PutRun(data);
        return Pass;
      }
      r := PushRawSplit(data);
    }

    /** In buffer-sized runs, draining between them: each drain brings room for at least one byte. */
    method PushRawSplit(data: seq<byte>) returns (r: Outcome)
      requires Valid()
      modifies this`buffer, this`end, this`offset, this`dead, this`head, this`heads, this`drained, buffer, sink
      ensures Valid() && (buffer == old(buffer) || fresh(buffer))
      ensures Emits(old(Look()), Look(), r, data)
    {
      hide Emits, Drains, Strip, Innermost, Fulls;
      ghost var s0, sent := Look(), [];
      var rest := data;
      EmitsNothing(s0);
      while rest != []
        invariant Valid() && (buffer == old(buffer) || fresh(buffer))
        invariant sent + rest == data && Emits(s0, Look(), Pass, sent)
        decreases |rest|
      {
        ghost var s1 := Look();
        var full := offset >= end;
        if full {
          r := DrainFull();
          if r.Fail? {
            EmitsRefused(s0, s1, Look(), r.error, sent, rest);
            return;
          }
          DrainRoom(s1, Look(), r);
        }
        var n := if end - offset < |rest| then end - offset else |rest|;
        ghost var s2 := Look();
        PutRun(rest[..n]);
        if full {
          EmitsAcross(s0, s1, s2, Look(), sent, rest[..n]);
        } else {
          EmitsThen(s0, s2, Look(), Pass, sent, rest[..n]);
        }
        CutRun(sent, rest, n);
        sent := sent + rest[..n];
        rest := rest[n..];
      }
      assert sent + [] == sent;
      return Pass;
    }

    method WriteVarint(value: bv64) returns (r: Outcome)
      requires Valid()
      modifies this`buffer, this`end, this`offset, this`dead, this`head, this`heads, this`drained, buffer, sink
      ensures Valid() && (buffer == old(buffer) || fresh(buffer))
      ensures Emits(old(Look()), Look(), r, Encode(value))
    {
      hide Emits, Encode, Strip, Innermost, Fulls;
      if offset + MAX_VARINT_LEN <= end {
        var next := Store(offset, value, true);
        Advance(next - offset, Encode(value));
        return Pass;
      }
      r := WriteVarintSplit(value);
    }

    /** Byte at a time, for the last bytes of a buffer. */
    method WriteVarintSplit(value: bv64) returns (r: Outcome)
      requires Valid()
      modifies this`buffer, this`end, this`offset, this`dead, this`head, this`heads, this`drained, buffer, sink
      ensures Valid() && (buffer == old(buffer) || fresh(buffer))
      ensures Emits(old(Look()), Look(), r, Encode(value))
    {
      hide Emits, Encode, Rest, Swar.Low7, Swar.OrByte, Strip, Innermost, Fulls;
      ghost var s0, sent, rest := Look(), [], Encode(value);
      var v := value;
      EmitsNothing(s0);
      while true
        invariant Valid() && (buffer == old(buffer) || fresh(buffer))
        invariant rest == Encode(v) && sent + rest == Encode(value) && Emits(s0, Look(), Pass, sent)
        decreases |rest|
      {
        NextDigit(v);
        var b := Swar.Low7(v);
        v := Rest(v);
        if v != 0 { b := Swar.OrByte(b, 0x80); }
        ghost var s1 := Look();
        r := PushByte(b);
        CutByte(sent, rest);
        if r.Fail? {
          EmitsAfter(s0, s1, Look(), r.error, sent, [b], rest[1..]);
          return;
        }
        EmitsThen(s0, s1, Look(), Pass, sent, [b]);
        sent, rest := sent + [b], rest[1..];
        if v == 0 {
          assert sent + [] == sent;
          return Pass;
        }
      }
    }

    // ---- held-back headers and content ------------------------------------------------------

    /** The stream as the calls see it. */
    ghost function View(): Enc
      reads this, pending, pending.ids, sink, buffer
      requires Valid()
    {
      Enc(Emitted(), depth, pending.Ids())
    }

    method WriteSequenceEndMarker() returns (r: Outcome)
      requires Valid()
      modifies this`buffer, this`end, this`offset, this`dead, this`head, this`heads, this`drained, buffer, sink
      ensures Valid() && (buffer == old(buffer) || fresh(buffer))
      ensures Emits(old(Look()), Look(), r, CLOSE_BYTES)
    {
      r := WriteVarint(T_SEQUENCE_END);
    }

    /** Writes the held-back headers, outermost first, until one fails. */
    method WritePending() returns (r: Outcome, written: nat)
      requires Valid()
      modifies this`buffer, this`end, this`offset, this`dead, this`head, this`heads, this`drained, buffer, sink
      ensures Valid() && (buffer == old(buffer) || fresh(buffer)) && pending.Ids() == old(pending.Ids())
      ensures written <= pending.n && Writes(old(Look()), Look(), pending.Ids(), pending.Ids()[written..], r, [])
    {
      hide Emits, Writes, Encode, Headers, Header, Strip, Innermost, Fulls;
      ghost var s0, ids := Look(), pending.Ids();
      written := 0;
      CommitNone(s0, ids);
      while written < pending.n
        invariant Valid() && (buffer == old(buffer) || fresh(buffer)) && written <= pending.n && pending.Ids() == ids
        invariant Emits(s0, Look(), Pass, Headers(ids[..written]))
      {
        ghost var s1 := Look();
        r := WriteVarint(Header(pending.ids[written], T_SEQUENCE_START));
        if r.Fail? {
          CommitStops(s0, s1, Look(), ids, written, r.error);
          return;
        }
        CommitStep(s0, s1, Look(), ids, written);
        written := written + 1;
      }
      assert ids[..written] == ids && ids[written..] == [];
      CommitAll(s0, Look(), ids);
      r := Pass;
    }

    /** Headers that made it to the wire are no longer held back. */
    method CommitPending() returns (r: Outcome)
      requires Valid()
      modifies this`buffer, this`end, this`offset, this`dead, this`head, this`heads, this`drained, buffer, sink
      modifies pending, pending.ids
      ensures Valid() && (buffer == old(buffer) || fresh(buffer))
      ensures Writes(old(Look()), Look(), old(pending.Ids()), pending.Ids(), r, [])
      ensures r.Pass? ==> pending.Ids() == []
    {
      hide Emits, Writes, Strip, Innermost, Fulls;
      var written;
      ghost var s0, ids := Look(), pending.Ids();
      r, written := WritePending();
      ghost var s1 := Look();
      if r.Pass? { WritesPassed(s0, s1, ids, ids[written..], []); }
      InnermostDrop(ids, open, written);
      pending.DropFront(written);
      assert Look() == s1;
    }

    /** What every content writer does first. */
    method Settle() returns (r: Outcome)
      requires Valid()
      modifies this`buffer, this`end, this`offset, this`dead, this`head, this`heads, this`drained, buffer, sink
      modifies pending, pending.ids
      ensures Valid() && (buffer == old(buffer) || fresh(buffer))
      ensures Writes(old(Look()), Look(), old(pending.Ids()), pending.Ids(), r, [])
      ensures r.Pass? ==> pending.Ids() == []
    {
      hide Writes, Strip, Innermost, Fulls;
      if pending.n != 0 {
        r := CommitPending();
        return;
      }
      WritesNothing(Look());
      return Pass;
    }

    /** Two varints: behind one reservation if there is room for both, byte by byte if not. */
    method WriteTwo(first: bv64, second: bv64, narrow: bool) returns (r: Outcome)
      requires Valid()
      modifies this`buffer, this`end, this`offset, this`dead, this`head, this`heads, this`drained, buffer, sink
      ensures Valid() && (buffer == old(buffer) || fresh(buffer))
      ensures Emits(old(Look()), Look(), r, Encode(first) + Encode(second))
    {
      hide Emits, Encode, Strip, Innermost, Fulls;
      if offset + 2 * MAX_VARINT_LEN <= end {
        var off := Store(offset, first, true);
        off := Store(off, second, narrow);
        Advance(off - offset, Encode(first) + Encode(second));
        return Pass;
      }
      ghost var s0 := Look();
      r := WriteVarintSplit(first);
      if r.Fail? {
        EmitsStop(s0, Look(), r.error, Encode(first), Encode(second));
        return;
      }
      ghost var s1 := Look();
      r := WriteVarintSplit(second);
      EmitsThen(s0, s1, Look(), r, Encode(first), Encode(second));
    }

    // ---- scalars ------------------------------------------------------------------------------

    /** A field header and one varint: the shape of every scalar, and of an array's head. */
    method WriteFieldVarint(id: Id, tag: bv64, value: bv64) returns (r: Outcome)
      requires Valid()
      modifies this`buffer, this`end, this`offset, this`dead, this`head, this`heads, this`drained, buffer, sink
      modifies pending, pending.ids
      ensures Valid() && (buffer == old(buffer) || fresh(buffer))
      ensures id > ID_MAX ==> Refuses(old(Look()), Look(), old(pending.Ids()), pending.Ids(), r)
      ensures id <= ID_MAX ==>
                Writes(old(Look()), Look(), old(pending.Ids()), pending.Ids(), r,
                  Encode(Header(id, tag)) + Encode(value))
      ensures id <= ID_MAX && r.Pass? ==> pending.Ids() == []
    {
      hide Emits, Writes, Encode, Header, Strip, Innermost, Fulls;
      ghost var s0, ids := Look(), pending.Ids();
      ghost var content := Encode(Header(id, tag)) + Encode(value);
      if id > ID_MAX {
        return Fail(Argument);
      }
      r := Settle();
      if r.Fail? {
        ContentStopped(s0, Look(), ids, pending.Ids(), r.error, content);
        return;
      }
      ghost var s1 := Look();
      r := WriteTwo(Header(id, tag), value, false);
      ContentAfter(s0, s1, Look(), ids, r, content);
    }

    method WriteUnsigned(id: Id, value: bv64) returns (r: Outcome)
      requires Valid()
      modifies this`buffer, this`end, this`offset, this`dead, this`head, this`heads, this`drained, buffer, sink
      modifies pending, pending.ids
      ensures Valid() && (buffer == old(buffer) || fresh(buffer))
      ensures !FieldOk(UnsignedField(id, value)) ==>
                Refuses(old(Look()), Look(), old(pending.Ids()), pending.Ids(), r)
      ensures FieldOk(UnsignedField(id, value)) ==>
                Writes(old(Look()), Look(), old(pending.Ids()), pending.Ids(), r, FieldBytes(UnsignedField(id, value)))
    {
      hide Writes, Encode, Header, Strip, Innermost, Fulls;
      r := WriteFieldVarint(id, T_UNSIGNED, value);
    }

    method WriteSigned(id: Id, value: bv64) returns (r: Outcome)
      requires Valid()
      modifies this`buffer, this`end, this`offset, this`dead, this`head, this`heads, this`drained, buffer, sink
      modifies pending, pending.ids
      ensures Valid() && (buffer == old(buffer) || fresh(buffer))
      ensures !FieldOk(SignedField(id, value)) ==> Refuses(old(Look()), Look(), old(pending.Ids()), pending.Ids(), r)
      ensures FieldOk(SignedField(id, value)) ==>
                Writes(old(Look()), Look(), old(pending.Ids()), pending.Ids(), r, FieldBytes(SignedField(id, value)))
    {
      hide Writes, Encode, Header, Strip, Innermost, Fulls;
      r := WriteFieldVarint(id, T_SIGNED, Varint.ZigzagEncode(value));
    }

    method WriteBoolean(id: Id, value: bool) returns (r: Outcome)
      requires Valid()
      modifies this`buffer, this`end, this`offset, this`dead, this`head, this`heads, this`drained, buffer, sink
      modifies pending, pending.ids
      ensures Valid() && (buffer == old(buffer) || fresh(buffer))
      ensures !FieldOk(UnsignedField(id, if value then 1 else 0)) ==>
                Refuses(old(Look()), Look(), old(pending.Ids()), pending.Ids(), r)
      ensures FieldOk(UnsignedField(id, if value then 1 else 0)) ==>
                Writes(old(Look()), Look(), old(pending.Ids()), pending.Ids(), r,
                  FieldBytes(UnsignedField(id, if value then 1 else 0)))
    {
      hide Writes, Strip, Innermost, Fulls;
      r := WriteUnsigned(id, if value then 1 else 0);
    }

    // ---- fixed-length fields ------------------------------------------------------------------

    /** The byte-level entry: the payload has to suit its subtype. `utf8` is what validation says of it. */
    method WriteFixlen(id: Id, data: seq<byte>, subtype: FixlenType, utf8: bool) returns (r: Outcome)
      requires Valid()
      modifies this`buffer, this`end, this`offset, this`dead, this`head, this`heads, this`drained, buffer, sink
      modifies pending, pending.ids
      ensures Valid() && (buffer == old(buffer) || fresh(buffer))
      ensures !FieldOk(FixField(id, subtype, data)) || (subtype == Str && !utf8) ==>
                Refuses(old(Look()), Look(), old(pending.Ids()), pending.Ids(), r)
      ensures FieldOk(FixField(id, subtype, data)) && (subtype != Str || utf8) ==>
                Writes(old(Look()), Look(), old(pending.Ids()), pending.Ids(), r,
                  FieldBytes(FixField(id, subtype, data)))
    {
      hide Writes, FieldBytes, Strip, Innermost, Fulls;
      if (subtype == Fp32 && |data| != 4) || (subtype == Fp64 && |data| != 8) || (subtype == Str && !utf8) {
        return Fail(Argument);
      }
      r := WriteFixlenUnchecked(id, data, subtype);
    }

    method WriteFixlenUnchecked(id: Id, data: seq<byte>, subtype: FixlenType) returns (r: Outcome)
      requires Valid()
      modifies this`buffer, this`end, this`offset, this`dead, this`head, this`heads, this`drained, buffer, sink
      modifies pending, pending.ids
      ensures Valid() && (buffer == old(buffer) || fresh(buffer))
      ensures |data| > LEN_MAX || id > ID_MAX ==> Refuses(old(Look()), Look(), old(pending.Ids()), pending.Ids(), r)
      ensures |data| <= LEN_MAX && id <= ID_MAX ==>
                Writes(old(Look()), Look(), old(pending.Ids()), pending.Ids(), r,
                  FieldBytes(FixField(id, subtype, data)))
    {
      hide Emits, Writes, Encode, Header, Word, LenBits, Strip, Innermost, Fulls;
      ghost var s0, ids := Look(), pending.Ids();
      if |data| > LEN_MAX {
        return Fail(Argument);
      }
      if id > ID_MAX {
        return Fail(Argument);
      }
      ghost var content := FieldBytes(FixField(id, subtype, data));
      r := Settle();
      if r.Fail? {
        ContentStopped(s0, Look(), ids, pending.Ids(), r.error, content);
        return;
      }
      ghost var s1 := Look();
      r := PutFixlen(Header(id, T_FIXLEN), Word(LenBits(|data|), Tag(subtype)), data);
      ContentAfter(s0, s1, Look(), ids, r, content);
    }

    /** Header, word and payload behind one reservation when all three fit. */
    method PutFixlen(header: bv64, word: bv64, data: seq<byte>) returns (r: Outcome)
      requires Valid()
      modifies this`buffer, this`end, this`offset, this`dead, this`head, this`heads, this`drained, buffer, sink
      ensures Valid() && (buffer == old(buffer) || fresh(buffer))
      ensures Emits(old(Look()), Look(), r, Encode(header) + Encode(word) + data)
    {
      hide Emits, Encode, Strip, Innermost, Fulls;
      if end - offset >= 2 * MAX_VARINT_LEN + |data| {
        var off := Store(offset, header, true);
        ghost var first := buffer[offset..off];
        off := Store(off, word, true);
        ghost var both := buffer[offset..off];
        assert first == Encode(header) && both == first + Encode(word);
        StoreRaw(off, data);
        Advance(off + |data| - offset, Encode(header) + Encode(word) + data);
        return Pass;
      }
      r := WriteFixlenSplit(header, word, data);
    }

    method WriteFixlenSplit(header: bv64, word: bv64, data: seq<byte>) returns (r: Outcome)
      requires Valid()
      modifies this`buffer, this`end, this`offset, this`dead, this`head, this`heads, this`drained, buffer, sink
      ensures Valid() && (buffer == old(buffer) || fresh(buffer))
      ensures Emits(old(Look()), Look(), r, Encode(header) + Encode(word) + data)
    {
      hide Emits, Encode, Strip, Innermost, Fulls;
      ghost var s0 := Look();
      r := WriteTwo(header, word, true);
      if r.Fail? {
        EmitsStop(s0, Look(), r.error, Encode(header) + Encode(word), data);
        return;
      }
      ghost var s1 := Look();
      r := PushRaw(data);
      EmitsThen(s0, s1, Look(), r, Encode(header) + Encode(word), data);
    }

    /** The typed writers, whose payload suits its subtype by construction. */
    method WriteFp32(id: Id, bits: seq<byte>) returns (r: Outcome)
      requires Valid() && |bits| == 4
      modifies this`buffer, this`end, this`offset, this`dead, this`head, this`heads, this`drained, buffer, sink
      modifies pending, pending.ids
      ensures Valid() && (buffer == old(buffer) || fresh(buffer))
      ensures !FieldOk(FixField(id, Fp32, bits)) ==>
                Refuses(old(Look()), Look(), old(pending.Ids()), pending.Ids(), r)
      ensures FieldOk(FixField(id, Fp32, bits)) ==>
                Writes(old(Look()), Look(), old(pending.Ids()), pending.Ids(), r, FieldBytes(FixField(id, Fp32, bits)))
    {
      hide Writes, FieldBytes, Strip, Innermost, Fulls;
      r := WriteFixlenUnchecked(id, bits, Fp32);
    }

    method WriteFp64(id: Id, bits: seq<byte>) returns (r: Outcome)
      requires Valid() && |bits| == 8
      modifies this`buffer, this`end, this`offset, this`dead, this`head, this`heads, this`drained, buffer, sink
      modifies pending, pending.ids
      ensures Valid() && (buffer == old(buffer) || fresh(buffer))
      ensures !FieldOk(FixField(id, Fp64, bits)) ==>
                Refuses(old(Look()), Look(), old(pending.Ids()), pending.Ids(), r)
      ensures FieldOk(FixField(id, Fp64, bits)) ==>
                Writes(old(Look()), Look(), old(pending.Ids()), pending.Ids(), r, FieldBytes(FixField(id, Fp64, bits)))
    {
      hide Writes, FieldBytes, Strip, Innermost, Fulls;
      r := WriteFixlenUnchecked(id, bits, Fp64);
    }

    method WriteStr(id: Id, text: seq<byte>) returns (r: Outcome)
      requires Valid()
      modifies this`buffer, this`end, this`offset, this`dead, this`head, this`heads, this`drained, buffer, sink
      modifies pending, pending.ids
      ensures Valid() && (buffer == old(buffer) || fresh(buffer))
      ensures !FieldOk(FixField(id, Str, text)) ==> Refuses(old(Look()), Look(), old(pending.Ids()), pending.Ids(), r)
      ensures FieldOk(FixField(id, Str, text)) ==>
                Writes(old(Look()), Look(), old(pending.Ids()), pending.Ids(), r, FieldBytes(FixField(id, Str, text)))
    {
      hide Writes, FieldBytes, Strip, Innermost, Fulls;
      r := WriteFixlenUnchecked(id, text, Str);
    }

    method WriteBlob(id: Id, data: seq<byte>) returns (r: Outcome)
      requires Valid()
      modifies this`buffer, this`end, this`offset, this`dead, this`head, this`heads, this`drained, buffer, sink
      modifies pending, pending.ids
      ensures Valid() && (buffer == old(buffer) || fresh(buffer))
      ensures !FieldOk(FixField(id, Blob, data)) ==>
                Refuses(old(Look()), Look(), old(pending.Ids()), pending.Ids(), r)
      ensures FieldOk(FixField(id, Blob, data)) ==>
                Writes(old(Look()), Look(), old(pending.Ids()), pending.Ids(), r, FieldBytes(FixField(id, Blob, data)))
    {
      hide Writes, FieldBytes, Strip, Innermost, Fulls;
      r := WriteFixlenUnchecked(id, data, Blob);
    }

    // ---- arrays -------------------------------------------------------------------------------

    /** Elements stored through a local cursor: a full varint's room for each was checked in bulk. */
    method StoreRun(values: seq<bv64>, signed: bool)
      requires Valid() && |values| * MAX_VARINT_LEN <= end - offset
      modifies this`offset, buffer
      ensures Valid() && Emits(old(Look()), Look(), Pass, Varints(Wired(signed, values)))
    {
      hide Emits, Varints, Wired, Encode, ToWire, Strip, Innermost, Fulls;
      ghost var s0 := Look();
      var off := offset;
      WiredNone(signed);
      assert values[..0] == [];
      for i := 0 to |values|
        invariant Valid() && offset <= off <= offset + i * MAX_VARINT_LEN && offset == old(offset)
        invariant buffer[offset..off] == Varints(Wired(signed, values[..i])) && Look() == s0
      {
        off := Store(off, ToWire(signed, values[i]), false);
        RunMore(signed, values, i);
      }
      assert values[..|values|] == values;
      Advance(off - offset, Varints(Wired(signed, values)));
    }

    method WriteVarintRun(values: seq<bv64>, signed: bool) returns (r: Outcome)
      requires Valid()
      modifies this`buffer, this`end, this`offset, this`dead, this`head, this`heads, this`drained, buffer, sink
      ensures Valid() && (buffer == old(buffer) || fresh(buffer))
      ensures Emits(old(Look()), Look(), r, Varints(Wired(signed, values)))
    {
      hide Emits, Varints, Wired, Strip, Innermost, Fulls;
      if |values| * MAX_VARINT_LEN <= end - offset {
        StoreRun(values, signed);
        return Pass;
      }
      r := WriteVarintRunChunked(values, signed);
    }

    /** As many elements at a time as surely fit, and byte by byte where not even one does. */
    method WriteVarintRunChunked(values: seq<bv64>, signed: bool) returns (r: Outcome)
      requires Valid()
      modifies this`buffer, this`end, this`offset, this`dead, this`head, this`heads, this`drained, buffer, sink
      ensures Valid() && (buffer == old(buffer) || fresh(buffer))
      ensures Emits(old(Look()), Look(), r, Varints(Wired(signed, values)))
    {
      hide Emits, Varints, Wired, Encode, ToWire, Owing, Strip, Innermost, Fulls;
      ghost var s0, sent := Look(), [];
      var i := 0;
      EmitsNothing(s0);
      OwingEnds(signed, values);
      assert [] + Owing(signed, values, 0) == Owing(signed, values, 0);
      while i < |values|
        invariant Valid() && (buffer == old(buffer) || fresh(buffer)) && i <= |values|
        invariant sent + Owing(signed, values, i) == Varints(Wired(signed, values)) && Emits(s0, Look(), Pass, sent)
      {
        ghost var s1 := Look();
        var room := (end - offset) / MAX_VARINT_LEN;
        var run := if room < |values| - i then room else |values| - i;
        ghost var n := if room == 0 then 1 else run;
        ghost var part, rest := Varints(Wired(signed, values[i..i + n])), Owing(signed, values, i + n);
        OwingCut(signed, values, i, n, sent);
        if room == 0 {
          r := WriteVarintSplit(ToWire(signed, values[i]));
          if r.Fail? {
            EmitsAfter(s0, s1, Look(), r.error, sent, part, rest);
            return;
          }
          i := i + 1;
        } else {
          StoreRun(values[i..i + run], signed);
          i := i + run;
        }
        EmitsThen(s0, s1, Look(), Pass, sent, part);
        sent := sent + part;
      }
      assert sent + [] == sent;
      return Pass;
    }

    method WriteArrayUnsigned(id: Id, values: seq<bv64>) returns (r: Outcome)
      requires Valid()
      modifies this`buffer, this`end, this`offset, this`dead, this`head, this`heads, this`drained, buffer, sink
      modifies pending, pending.ids
      ensures Valid() && (buffer == old(buffer) || fresh(buffer))
      ensures !FieldOk(UnsignedArray(id, values)) ==>
                Refuses(old(Look()), Look(), old(pending.Ids()), pending.Ids(), r)
      ensures FieldOk(UnsignedArray(id, values)) ==>
                Writes(old(Look()), Look(), old(pending.Ids()), pending.Ids(), r, FieldBytes(UnsignedArray(id, values)))
    {
      hide Writes, Varints, Strip, Innermost, Fulls;
      r := WriteIntArray(id, T_ARRAY_UNSIGNED, values, false);
    }

    method WriteArraySigned(id: Id, values: seq<bv64>) returns (r: Outcome)
      requires Valid()
      modifies this`buffer, this`end, this`offset, this`dead, this`head, this`heads, this`drained, buffer, sink
      modifies pending, pending.ids
      ensures Valid() && (buffer == old(buffer) || fresh(buffer))
      ensures !FieldOk(SignedArray(id, values)) ==> Refuses(old(Look()), Look(), old(pending.Ids()), pending.Ids(), r)
      ensures FieldOk(SignedArray(id, values)) ==>
                Writes(old(Look()), Look(), old(pending.Ids()), pending.Ids(), r, FieldBytes(SignedArray(id, values)))
    {
      hide Writes, Varints, Strip, Innermost, Fulls;
      r := WriteIntArray(id, T_ARRAY_SIGNED, values, true);
    }

    method WriteIntArray(id: Id, tag: bv64, values: seq<bv64>, signed: bool) returns (r: Outcome)
      requires Valid()
      modifies this`buffer, this`end, this`offset, this`dead, this`head, this`heads, this`drained, buffer, sink
      modifies pending, pending.ids
      ensures Valid() && (buffer == old(buffer) || fresh(buffer))
      ensures |values| > LEN_MAX || id > ID_MAX ==> Refuses(old(Look()), Look(), old(pending.Ids()), pending.Ids(), r)
      ensures |values| <= LEN_MAX && id <= ID_MAX ==>
                Writes(old(Look()), Look(), old(pending.Ids()), pending.Ids(), r, 
              Encode(Header(id, tag)) + Encode(LenBits(|values|)) + Varints(Wired(signed, values)))
    {
      hide Emits, Writes, Encode, Header, LenBits, Varints, Wired, Strip, Innermost, Fulls;
      ghost var s0, ids := Look(), pending.Ids();
      if |values| > LEN_MAX {
        return Fail(Argument);
      }
      r := WriteFieldVarint(id, tag, LenBits(|values|));
      if id > ID_MAX { return; }
      ghost var top, body := Encode(Header(id, tag)) + Encode(LenBits(|values|)), Varints(Wired(signed, values));
      if r.Fail? {
        WritesStop(s0, Look(), ids, pending.Ids(), r.error, top, body);
        return;
      }
      ghost var s1 := Look();
      r := WriteVarintRun(values, signed);
      WritesThen(s0, s1, Look(), ids, r, top, body);
    }

    /** On a little-endian host the elements' memory is their wire image; elsewhere each is swapped. */
    method WriteFixlenRun(elems: seq<seq<byte>>, littleEndian: bool) returns (r: Outcome)
      requires Valid()
      modifies this`buffer, this`end, this`offset, this`dead, this`head, this`heads, this`drained, buffer, sink
      ensures Valid() && (buffer == old(buffer) || fresh(buffer))
      ensures Emits(old(Look()), Look(), r, Joined(elems))
    {
      hide Emits, Strip, Innermost, Fulls;
      if littleEndian {
        r := PushRaw(Joined(elems));
        return;
      }
      ghost var s0, sent := Look(), [];
      var rest := elems;
      EmitsNothing(s0);
      while rest != []
        invariant Valid() && (buffer == old(buffer) || fresh(buffer))
        invariant sent + Joined(rest) == Joined(elems) && Emits(s0, Look(), Pass, sent)
        decreases |rest|
      {
        ghost var s1 := Look();
        JoinedCons(rest);
        r := PushRaw(rest[0]);
        if r.Fail? {
          EmitsAfter(s0, s1, Look(), r.error, sent, rest[0], Joined(rest[1..]));
          return;
        }
        EmitsThen(s0, s1, Look(), Pass, sent, rest[0]);
        assert sent + (rest[0] + Joined(rest[1..])) == sent + rest[0] + Joined(rest[1..]);
        sent, rest := sent + rest[0], rest[1..];
      }
      assert sent + [] == sent;
      return Pass;
    }

    /** The element word, there even when no element is, and the elements. */
    method PutFloats(word: bv64, elems: seq<seq<byte>>, littleEndian: bool) returns (r: Outcome)
      requires Valid()
      modifies this`buffer, this`end, this`offset, this`dead, this`head, this`heads, this`drained, buffer, sink
      ensures Valid() && (buffer == old(buffer) || fresh(buffer))
      ensures Emits(old(Look()), Look(), r, Encode(word) + Joined(elems))
    {
      hide Emits, Encode, Joined, Strip, Innermost, Fulls;
      ghost var s0 := Look();
      r := WriteVarint(word);
      if r.Fail? {
        EmitsStop(s0, Look(), r.error, Encode(word), Joined(elems));
        return;
      }
      ghost var s1 := Look();
      r := WriteFixlenRun(elems, littleEndian);
      EmitsThen(s0, s1, Look(), r, Encode(word), Joined(elems));
    }

    /** Arrays of 32-bit and of 64-bit floats. */
    method WriteArrayFloats(id: Id, fp64: bool, elems: seq<seq<byte>>, littleEndian: bool) returns (r: Outcome)
      requires Valid() && forall e | e in elems :: |e| == Width(fp64)
      modifies this`buffer, this`end, this`offset, this`dead, this`head, this`heads, this`drained, buffer, sink
      modifies pending, pending.ids
      ensures Valid() && (buffer == old(buffer) || fresh(buffer))
      ensures !FieldOk(FloatArray(id, fp64, elems)) ==>
                Refuses(old(Look()), Look(), old(pending.Ids()), pending.Ids(), r)
      ensures FieldOk(FloatArray(id, fp64, elems)) ==>
                Writes(old(Look()), Look(), old(pending.Ids()), pending.Ids(), r,
                  FieldBytes(FloatArray(id, fp64, elems)))
    {
      hide Emits, Writes, Encode, Header, LenBits, Joined, FloatWord, Strip, Innermost, Fulls, FieldBytes, FieldOk;
      FloatArrayOk(id, fp64, elems);
      ghost var s0, ids := Look(), pending.Ids();
      if |elems| > LEN_MAX {
        return Fail(Argument);
      }
      r := WriteFieldVarint(id, T_ARRAY_FIXLEN, LenBits(|elems|));
      if id > ID_MAX { return; }
      ghost var top := Encode(Header(id, T_ARRAY_FIXLEN)) + Encode(LenBits(|elems|));
      ghost var body := Encode(FloatWord(fp64)) + Joined(elems);
      FloatArrayBytes(id, fp64, elems);
      if r.Fail? {
        WritesStop(s0, Look(), ids, pending.Ids(), r.error, top, body);
        return;
      }
      ghost var s1 := Look();
      r := PutFloats(FloatWord(fp64), elems, littleEndian);
      WritesThen(s0, s1, Look(), ids, r, top, body);
    }

    // ---- sequences ----------------------------------------------------------------------------

    /** Opens a sequence and holds its header back. */
    method WriteSequenceBeginLazy(id: Id) returns (r: Outcome)
      requires Valid()
      modifies this`depth, this`open, pending, pending.ids
      ensures Valid() && Look() == old(Look())
      ensures r == if Accepts(old(View()), Begin(id)) then Pass else Fail(Argument)
      ensures View() == if r.Pass? then Apply(old(View()), Begin(id)) else old(View())
      ensures open == if r.Pass? then old(open) + [id] else old(open)
    {
      hide Strip, Innermost, Fulls;
      if depth >= MAX_DEPTH {
        return Fail(Argument);
      }
      if id > ID_MAX {
        return Fail(Argument);
      }
      InnermostPush(pending.Ids(), open, id);
      pending.Push(id);
      depth := depth + 1;
      open := open + [id];
      BeginIs(old(View()), id);
      return Pass;
    }

    /** Drops the innermost open sequence if its header is held back. */
    method DropHeld() returns (dropped: bool)
      requires Valid() && depth > 0
      modifies this`depth, this`open, pending
      ensures Valid() && Look() == old(Look())
      ensures dropped == (old(pending.Ids()) != [])
      ensures if dropped
              then View() == Apply(old(View()), End) && open == old(open)[..old(depth) - 1]
              else View() == old(View()) && open == old(open)
    {
      hide Strip, Innermost, Fulls;
      var top := pending.Pop();
      if top.None? {
        return false;
      }
      InnermostPop(pending.Ids(), top.value, open);
      depth := depth - 1;
      open := open[..depth];
      assert Emitted() == old(Emitted()) && Emitted() + [] == Emitted();
      return true;
    }

    /** Closes the innermost sequence; one with nothing in it vanishes. */
    method WriteSequenceEnd() returns (r: Outcome)
      requires Valid()
      modifies this`depth, this`open
      modifies this`buffer, this`end, this`offset, this`dead, this`head, this`heads, this`drained, buffer, sink
      modifies pending, pending.ids
      ensures Valid() && (buffer == old(buffer) || fresh(buffer))
      ensures !Accepts(old(View()), End) ==>
                Refuses(old(Look()), Look(), old(pending.Ids()), pending.Ids(), r) && depth == old(depth)
      ensures Accepts(old(View()), End) ==> Emits(old(Look()), Look(), r, Owed(old(View()), End))
      ensures Accepts(old(View()), End) && r.Pass? ==> View() == Apply(old(View()), End)
      ensures r.Fail? ==> depth == old(depth) && pending.Ids() == old(pending.Ids())
      ensures open == if r.Pass? && old(depth) > 0 then old(open)[..old(depth) - 1] else old(open)
    {
      hide Emits, Strip, Innermost, Fulls;
      ghost var s0 := Look();
      if depth == 0 {
        return Fail(Argument);
      }
      var dropped := DropHeld();
      if dropped {
        EmitsNothing(s0);
        return Pass;
      }
      InnermostNone(open[..depth - 1]);
      r := WriteSequenceEndMarker();
      EmitsOut(s0, Look(), r, CLOSE_BYTES);
      if r.Fail? { return; }
      depth := depth - 1;
      open := open[..depth];
      assert Emitted() == s0.emitted + CLOSE_BYTES;
    }

    /** The held-back headers and the end marker. */
    method WriteFrameEnd() returns (r: Outcome)
      requires Valid()
      modifies this`buffer, this`end, this`offset, this`dead, this`head, this`heads, this`drained, buffer, sink
      modifies pending, pending.ids
      ensures Valid() && (buffer == old(buffer) || fresh(buffer))
      ensures Writes(old(Look()), Look(), old(pending.Ids()), pending.Ids(), r, CLOSE_BYTES)
      ensures r.Pass? ==>
                pending.Ids() == [] && Emitted() == old(Emitted()) + (Headers(old(pending.Ids())) + CLOSE_BYTES)
    {
      hide Emits, Writes, Strip, Encode, Headers, Innermost, Fulls;
      ghost var s0, ids := Look(), pending.Ids();
      r := Settle();
      if r.Fail? {
        ContentStopped(s0, Look(), ids, pending.Ids(), r.error, CLOSE_BYTES);
        return;
      }
      ghost var s1 := Look();
      r := WriteSequenceEndMarker();
      ContentAfter(s0, s1, Look(), ids, r, CLOSE_BYTES);
      if r.Pass? { WritesOut(s0, Look(), ids, CLOSE_BYTES); }
    }

    /** Closes the innermost sequence and keeps its frame, empty or not. */
    method WriteSequenceEndKeep() returns (r: Outcome)
      requires Valid()
      modifies this`depth, this`open
      modifies this`buffer, this`end, this`offset, this`dead, this`head, this`heads, this`drained, buffer, sink
      modifies pending, pending.ids
      ensures Valid() && (buffer == old(buffer) || fresh(buffer))
      ensures !Accepts(old(View()), EndKeep) ==>
                Refuses(old(Look()), Look(), old(pending.Ids()), pending.Ids(), r) && depth == old(depth)
      ensures Accepts(old(View()), EndKeep) ==>
                Writes(old(Look()), Look(), old(pending.Ids()), pending.Ids(), r, CLOSE_BYTES)
      ensures Accepts(old(View()), EndKeep) && r.Pass? ==> View() == Apply(old(View()), EndKeep)
      ensures r.Fail? ==> depth == old(depth)
      ensures open == if r.Pass? && old(depth) > 0 then old(open)[..old(depth) - 1] else old(open)
    {
      hide Emits, Writes, Strip, Headers, Apply, Owed, Innermost, Fulls;
      if depth == 0 {
        return Fail(Argument);
      }
      r := WriteFrameEnd();
      if r.Fail? { return; }
      ghost var s1 := Look();
      EndKeepIs(old(View()), Emitted());
      InnermostNone(open[..depth - 1]);
      depth := depth - 1;
      open := open[..depth];
      assert Look() == s1;
    }

    // ---- between writes -----------------------------------------------------------------------

    /** Hands what is buffered to the sink, if there is one, and says how much that was. */
    method Flush() returns (r: Result<nat>)
      requires Valid()
      modifies this`buffer, this`end, this`offset, this`dead, this`head, this`heads, this`drained, buffer, sink
      ensures Valid() && (buffer == old(buffer) || fresh(buffer))
      ensures old(dead) || sink == null || old(offset) == 0 ==> Look() == old(Look())
      ensures Emitted() == old(Emitted())
      ensures match r
              case Ok(used) => !old(dead) && !dead && used == old(offset)
              case Err(e) => e == Argument && dead
      ensures sink != null && !old(dead) && old(offset) > 0 ==>
                sink.units == old(sink.units) + [old(buffer[..offset])] && heads == old(heads) + [old(head)]
    {
      hide Strip, Innermost, Fulls;
      if dead {
        return Err(Argument);
      }
      var used := offset;
      if used > 0 && sink != null {
        var h := HandOver();
        if h.Fail? { return Err(h.error); }
      }
      return Ok(used);
    }

    /** Installs another buffer. With a sink what is buffered is handed over first, and whatever the sink
        leaves behind is superseded, however small. Without one the bytes stay with the caller. */
    method BufferSet(next: array<byte>, at: nat) returns (r: Outcome)
      requires Valid()
      modifies this`buffer, this`end, this`offset, this`dead, this`head, this`heads, this`drained, buffer, sink
      ensures Valid() && Emitted() == old(Emitted())
      ensures r == if old(dead) || next.Length < at || (sink != null && next.Length == at) then Fail(Argument) else Pass
      ensures r.Fail? ==> Look() == old(Look()) && buffer == old(buffer)
      ensures r.Pass? ==> !dead && buffer == next && offset == head == at && end == next.Length
      ensures sink == null ==> old(buffer)[..] == old(buffer[..])
      ensures r.Pass? && sink != null ==>
                if old(offset) > 0 then sink.units == old(sink.units) + [old(buffer[..offset])]
                  && heads == old(heads) + [old(head)]
                else sink.units == old(sink.units) && heads == old(heads)
    {
      hide Strip, Innermost, Fulls;
      if dead {
        return Fail(Argument);
      }
      if at > next.Length {
        return Fail(Argument);
      }
      if sink != null {
        if next.Length - at < MIN_OUTPUT_BUFFER {
          return Fail(Argument);
        }
        if offset > 0 {
          var ignored := HandOver();
          dead := false;
        }
      }
      ghost var sofar := Emitted();
      assert sink != null ==> head == offset && buffer[head..offset] == [] && sofar == drained + [] == drained;
      drained := sofar;
      end, buffer, offset, head := next.Length, next, at, at;
      assert buffer[head..offset] == [] && sofar + [] == sofar;
      return Pass;
    }
  }

  lemma SliceJoin<T>(a: seq<T>, s: seq<T>, lo: nat, mid: nat, hi: nat)
    requires lo <= mid <= hi <= |s|
    ensures s[lo..hi] == s[lo..mid] + s[mid..hi]
    ensures a + s[lo..hi] == a + s[lo..mid] + s[mid..hi]
  {
    assert s[lo..hi] == s[lo..mid] + s[mid..hi];
  }

  lemma SliceOf<T>(s: seq<T>, t: seq<T>, front: seq<T>, lo: nat, hi: nat)
    requires lo <= hi <= |front| <= |s| == |t| && s[..|front|] == front == t[..|front|]
    ensures s[lo..hi] == t[lo..hi]
  {
    forall i | lo <= i < hi ensures s[i] == t[i] {
      assert s[i] == s[..|front|][i] && t[i] == t[..|front|][i];
    }
  }

  lemma CutByte<T>(sent: seq<T>, rest: seq<T>)
    requires rest != []
    ensures sent + rest == sent + ([rest[0]] + rest[1..]) == (sent + [rest[0]]) + rest[1..]
  {
    assert rest == [rest[0]] + rest[1..];
  }

  lemma CutRun<T>(sent: seq<T>, rest: seq<T>, n: nat)
    requires n <= |rest|
    ensures sent + rest == (sent + rest[..n]) + rest[n..]
  {
    assert rest == rest[..n] + rest[n..];
  }

  /** The next byte of a varint, and whether it is the last. */
  lemma NextDigit(v: bv64)
    ensures Encode(v)[0] == if Rest(v) == 0 then Swar.Low7(v) else Swar.OrByte(Swar.Low7(v), 0x80)
    ensures Rest(v) == 0 ==> |Encode(v)| == 1
    ensures Rest(v) != 0 ==> |Encode(v)| > 1 && Encode(Rest(v)) == Encode(v)[1..]
  {
    Swar.OneDigitIs(v);
    Swar.MoreFinal(v);
    hide Rest, OneDigit, More, Final, Swar.Low7, Swar.OrByte;
  }

  lemma DrainRoom(s: Snap, s': Snap, r: Outcome)
    requires Drains(s, s', r)
    ensures r.Pass? ==> s'.room >= 1
  {}

  /** What a passed emission appends. */
  lemma EmitsOut(s: Snap, s': Snap, r: Outcome, bytes: seq<byte>)
    requires Emits(s, s', r, bytes)
    ensures r.Pass? ==> s'.emitted == s.emitted + bytes
  {}

  lemma FloatArrayOk(id: Id, fp64: bool, elems: seq<seq<byte>>)
    requires forall e | e in elems :: |e| == Width(fp64)
    ensures FieldOk(FloatArray(id, fp64, elems)) <==> id <= ID_MAX && |elems| <= LEN_MAX
  {}

  lemma FloatArrayBytes(id: Id, fp64: bool, elems: seq<seq<byte>>)
    ensures FieldBytes(FloatArray(id, fp64, elems))
         == Encode(Header(id, T_ARRAY_FIXLEN)) + Encode(LenBits(|elems|)) + (Encode(FloatWord(fp64)) + Joined(elems))
  {
    hide Encode, Header, LenBits, FloatWord, Joined;
  }

  lemma WritesOut(s: Snap, s': Snap, ids: seq<Id>, content: seq<byte>)
    requires Writes(s, s', ids, [], Pass, content)
    ensures s'.emitted == s.emitted + (Headers(ids) + content)
  {}

  /** What an array's elements from the `i`th on have yet to emit. */
  ghost function Owing(signed: bool, values: seq<bv64>, i: nat): seq<byte>
    requires i <= |values|
  {
    Varints(Wired(signed, values[i..]))
  }

  lemma OwingEnds(signed: bool, values: seq<bv64>)
    ensures Owing(signed, values, 0) == Varints(Wired(signed, values)) && Owing(signed, values, |values|) == []
  {
    WiredNone(signed);
    assert values[0..] == values && values[|values|..] == [];
  }

  lemma OwingCut(signed: bool, values: seq<bv64>, i: nat, n: nat, sent: seq<byte>)
    requires i + n <= |values|
    ensures var part := Varints(Wired(signed, values[i..i + n]));
            && sent + Owing(signed, values, i) == sent + (part + Owing(signed, values, i + n))
              == sent + part + Owing(signed, values, i + n)
            && (n == 1 ==> part == Encode(ToWire(signed, values[i])))
  {
    hide Encode, Varints, Wired, ToWire;
    RunCut(signed, values, i, n);
  }

  lemma EndKeepIs(e: Enc, out: seq<byte>)
    requires e.depth > 0 && out == e.out + (Headers(e.pending) + CLOSE_BYTES)
    ensures Apply(e, EndKeep) == Enc(out, e.depth - 1, [])
  {}
}

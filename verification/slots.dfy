/** Wrapper-array slots of src/seq.rs: a reused destination decodes to what a fresh one would. */
module Slots {
  import opened Leb128

  datatype Bound = Schema(n: nat) | Cap(n: nat)

  /** A breach of the schema is malformed, a breach of the receiver's cap is policy, and a cap of zero
      is the caller's mistake. */
  function CheckIndex(id: nat, bound: Bound): (r: Outcome)
    ensures r == Fail(InvalidMsg) <==> bound.Schema? && bound.n <= id
    ensures r == Fail(LimitExceeded) <==> bound.Cap? && 0 < bound.n <= id
    ensures r == Fail(Argument) <==> bound == Cap(0)
    ensures r.Pass? <==> id < bound.n
  {
    match bound
    case Schema(n) => if id >= n then Fail(InvalidMsg) else Pass
    case Cap(n) => if n == 0 then Fail(Argument) else if id >= n then Fail(LimitExceeded) else Pass
  }

  function CheckLen(len: nat, bound: Bound): (r: Outcome)
    ensures r == Fail(InvalidMsg) <==> bound.Schema? && bound.n < len
    ensures r == Fail(LimitExceeded) <==> bound.Cap? && 0 < bound.n < len
    ensures r == Fail(Argument) <==> bound == Cap(0)
    ensures r.Pass? <==> len <= bound.n && bound != Cap(0)
  {
    match bound
    case Schema(n) => if len > n then Fail(InvalidMsg) else Pass
    case Cap(n) => if n == 0 then Fail(Argument) else if len > n then Fail(LimitExceeded) else Pass
  }

  /** The two checks agree: a length is in bounds exactly when every index below it is, and what is
      wrong with it is what is wrong with its last index. */
  lemma LengthsAndIndices(len: nat, bound: Bound)
    ensures bound != Cap(0) ==> (CheckLen(len, bound).Pass? <==> forall i | 0 <= i < len :: CheckIndex(i, bound).Pass?)
    ensures CheckLen(len, bound).Fail? && len > 0 ==> CheckIndex(len - 1, bound) == CheckLen(len, bound)
  {
    if len > 0 && CheckLen(len, bound).Fail? { assert CheckIndex(len - 1, bound).Fail?; }
  }

  // ---- the container -----------------------------------------------------------------------------

  predicate Holds(capacity: Option<nat>, len: nat) {
    capacity.Some? ==> len <= capacity.value
  }

  /** Growable, or of a fixed capacity. */
  class SeqVec<T(0)> {
    var slots: seq<T>
    const capacity: Option<nat>
    const default: T

    ghost predicate Valid()
      reads this
    {
      Holds(capacity, |slots|)
    }

    constructor (capacity: Option<nat>, default: T)
      ensures Valid() && slots == [] && this.capacity == capacity && this.default == default
    {
      this.capacity, this.default, slots := capacity, default, [];
    }

    /** Refuses up front, so that a container that is too small never grows part of the way. */
    method GrowTo(len: nat) returns (ok: bool)
      requires Valid() && len > |slots|
      modifies this
      ensures Valid() && (ok <==> capacity.None? || len <= capacity.value)
      ensures slots == if ok then Reserved(old(slots), default, len) else old(slots)
    {
      if capacity.Some? && len > capacity.value {
        return false;
      }
      while |slots| < len
        invariant old(|slots|) <= |slots| <= len && slots == Reserved(old(slots), default, |slots|)
      {
        slots := slots + [default];
      }
      return true;
    }

    method Truncate(len: nat)
      requires Valid()
      modifies this
      ensures Valid() && slots == if len < old(|slots|) then old(slots)[..len] else old(slots)
    {
      if len < |slots| { slots := slots[..len]; }
    }

    /** The caller's use of a slot it was handed. */
    method Update(i: nat, write: T -> T)
      requires Valid() && i < |slots|
      modifies this
      ensures Valid() && slots == old(slots)[i := write(old(slots)[i])]
    {
      slots := slots[i := write(slots[i])];
    }
  }

  /** At least `len` slots: those there are, then defaults. */
  function Reserved<T>(s: seq<T>, default: T, len: nat): (r: seq<T>)
    ensures s <= r && |r| == (if |s| < len then len else |s|) && forall j | |s| <= j < |r| :: r[j] == default
  {
    seq(if |s| < len then len else |s|, j requires j >= 0 => if j < |s| then s[j] else default)
  }

  /** The verdict on reserving slot `id` of a container with `len` slots. */
  function Verdict(len: nat, capacity: Option<nat>, id: nat, bound: Bound): Outcome {
    var v := CheckIndex(id, bound);
    if v.Fail? then v else if len <= id && !Holds(capacity, id + 1) then Fail(Argument) else Pass
  }

  // ---- reservations in a fresh destination ---------------------------------------------------------

  method ReserveElem<T(0)>(out: SeqVec<T>, id: nat, bound: Bound) returns (r: Outcome)
    requires out.Valid()
    modifies out
    ensures out.Valid() && r == Verdict(old(|out.slots|), out.capacity, id, bound)
    ensures r == Fail(InvalidMsg) <==> bound.Schema? && bound.n <= id
    ensures r == Fail(LimitExceeded) <==> bound.Cap? && 0 < bound.n <= id
    ensures r == Fail(Argument) <==>
              bound == Cap(0) || (old(|out.slots|) <= id < bound.n && out.capacity.Some? && out.capacity.value <= id)
    ensures r.Pass? <==> id < bound.n && (id < old(|out.slots|) || out.capacity.None? || id < out.capacity.value)
    ensures out.slots == if r.Pass? then Reserved(old(out.slots), out.default, id + 1) else old(out.slots)
  {
    r := CheckIndex(id, bound);
    if r.Fail? { return; }
    if |out.slots| <= id {
      var ok := out.GrowTo(id + 1);
      if !ok { return Fail(Argument); }
    }
    assert id < old(|out.slots|) ==> Reserved(old(out.slots), out.default, id + 1) == old(out.slots);
    return Pass;
  }

  method PlaceElem<T(0)>(out: SeqVec<T>, id: nat, bound: Bound, value: T) returns (r: Outcome)
    requires out.Valid()
    modifies out
    ensures out.Valid() && r == Verdict(old(|out.slots|), out.capacity, id, bound)
    ensures r == Fail(InvalidMsg) <==> bound.Schema? && bound.n <= id
    ensures r == Fail(LimitExceeded) <==> bound.Cap? && 0 < bound.n <= id
    ensures r == Fail(Argument) <==>
              bound == Cap(0) || (old(|out.slots|) <= id < bound.n && out.capacity.Some? && out.capacity.value <= id)
    ensures r.Pass? <==> id < bound.n && (id < old(|out.slots|) || out.capacity.None? || id < out.capacity.value)
    ensures out.slots == if r.Pass? then Reserved(old(out.slots), out.default, id + 1)[id := value] else old(out.slots)
  {
    r := ReserveElem(out, id, bound);
    if r.Pass? { out.Update(id, _ => value); }
  }

  method ReserveRow<U>(out: SeqVec<seq<U>>, id: nat, bound: Bound) returns (r: Outcome)
    requires out.Valid()
    modifies out
    ensures out.Valid() && r == Verdict(old(|out.slots|), out.capacity, id, bound)
    ensures r == Fail(InvalidMsg) <==> bound.Schema? && bound.n <= id
    ensures r == Fail(LimitExceeded) <==> bound.Cap? && 0 < bound.n <= id
    ensures r == Fail(Argument) <==>
              bound == Cap(0) || (old(|out.slots|) <= id < bound.n && out.capacity.Some? && out.capacity.value <= id)
    ensures r.Pass? <==> id < bound.n && (id < old(|out.slots|) || out.capacity.None? || id < out.capacity.value)
    ensures out.slots == if r.Pass? then Reserved(old(out.slots), out.default, id + 1)[id := []] else old(out.slots)
  {
    r := ReserveElem(out, id, bound);
    if r.Pass? { out.Update(id, _ => []); }
  }

  // ---- reservations in a reused one ----------------------------------------------------------------

  /** What an earlier decode left in slots `live` to `id` is reset, as is slot `id` if it is replaced;
      slots past the end are defaults, and slots past `id` stay. */
  function Reused<T>(s: seq<T>, live: nat, default: T, reset: T -> T, replace: bool, id: nat): (r: seq<T>)
    ensures |r| == (if |s| <= id then id + 1 else |s|) && forall j | |s| <= j < |r| :: r[j] == default
    ensures forall j | 0 <= j < |s| && (j > id || (j < live && (j < id || !replace))) :: r[j] == s[j]
    ensures forall j | live <= j <= id && j < |s| :: r[j] == reset(s[j])
    ensures replace && id < |s| ==> r[id] == reset(s[id])
  {
    seq(if |s| <= id then id + 1 else |s|, j requires j >= 0 =>
        if j >= |s| then default else if live <= j <= id || (replace && j == id) then reset(s[j]) else s[j])
  }

  method ReuseSlot<T(0)>(out: SeqVec<T>, live: nat, id: nat, bound: Bound, replace: bool, reset: T -> T)
    returns (r: Outcome, live': nat)
    requires out.Valid() && live <= |out.slots|
    modifies out
    ensures out.Valid() && r == Verdict(old(|out.slots|), out.capacity, id, bound)
    ensures r == Fail(InvalidMsg) <==> bound.Schema? && bound.n <= id
    ensures r == Fail(LimitExceeded) <==> bound.Cap? && 0 < bound.n <= id
    ensures r == Fail(Argument) <==>
              bound == Cap(0) || (old(|out.slots|) <= id < bound.n && out.capacity.Some? && out.capacity.value <= id)
    ensures r.Pass? <==> id < bound.n && (id < old(|out.slots|) || out.capacity.None? || id < out.capacity.value)
    ensures out.slots == if r.Pass? then Reused(old(out.slots), live, out.default, reset, replace, id)
        else old(out.slots)
    ensures live' == if r.Pass? && live <= id then id + 1 else live
    ensures live' <= |out.slots|
  {
    live' := live;
    r := CheckIndex(id, bound);
    if r.Fail? { return; }
    var len := |out.slots|;
    if id == live && id < len {
      out.Update(id, reset);
      live' := id + 1;
      return;
    }
    if id < live {
      if replace { out.Update(id, reset); }
      return;
    }
    if len <= id {
      var ok := out.GrowTo(id + 1);
      if !ok { return Fail(Argument), live; }
    }
    ghost var grown := out.slots;
    var stop := if len < id then len else id;
    for j := live to stop
      invariant out.Valid() && |out.slots| == |grown|
      invariant forall k | 0 <= k < |grown| :: out.slots[k] == if live <= k < j then reset(grown[k]) else grown[k]
    {
      out.Update(j, reset);
    }
    if id < len {
      out.Update(id, reset);
    }
    live' := id + 1;
  }

  method ReuseElem<T(0)>(out: SeqVec<T>, live: nat, id: nat, bound: Bound, reset: T -> T)
    returns (r: Outcome, live': nat)
    requires out.Valid() && live <= |out.slots|
    modifies out
    ensures out.Valid() && r == Verdict(old(|out.slots|), out.capacity, id, bound)
    ensures r == Fail(InvalidMsg) <==> bound.Schema? && bound.n <= id
    ensures r == Fail(LimitExceeded) <==> bound.Cap? && 0 < bound.n <= id
    ensures r == Fail(Argument) <==>
              bound == Cap(0) || (old(|out.slots|) <= id < bound.n && out.capacity.Some? && out.capacity.value <= id)
    ensures r.Pass? <==> id < bound.n && (id < old(|out.slots|) || out.capacity.None? || id < out.capacity.value)
    ensures out.slots == if r.Pass? then Reused(old(out.slots), live, out.default, reset, false, id) else old(out.slots)
    ensures live' == (if r.Pass? && live <= id then id + 1 else live) <= |out.slots|
  {
    r, live' := ReuseSlot(out, live, id, bound, false, reset);
  }

  method ReuseLeaf<T(0)>(out: SeqVec<T>, live: nat, id: nat, bound: Bound, reset: T -> T)
    returns (r: Outcome, live': nat)
    requires out.Valid() && live <= |out.slots|
    modifies out
    ensures out.Valid() && r == Verdict(old(|out.slots|), out.capacity, id, bound)
    ensures r == Fail(InvalidMsg) <==> bound.Schema? && bound.n <= id
    ensures r == Fail(LimitExceeded) <==> bound.Cap? && 0 < bound.n <= id
    ensures r == Fail(Argument) <==>
              bound == Cap(0) || (old(|out.slots|) <= id < bound.n && out.capacity.Some? && out.capacity.value <= id)
    ensures r.Pass? <==> id < bound.n && (id < old(|out.slots|) || out.capacity.None? || id < out.capacity.value)
    ensures out.slots == if r.Pass? then Reused(old(out.slots), live, out.default, reset, true, id) else old(out.slots)
    ensures live' == (if r.Pass? && live <= id then id + 1 else live) <= |out.slots|
  {
    r, live' := ReuseSlot(out, live, id, bound, true, reset);
  }

  function Cleared<U>(row: seq<U>): seq<U> { [] }

  method ReuseRow<U>(out: SeqVec<seq<U>>, live: nat, id: nat, bound: Bound) returns (r: Outcome, live': nat)
    requires out.Valid() && live <= |out.slots|
    modifies out
    ensures out.Valid() && r == Verdict(old(|out.slots|), out.capacity, id, bound)
    ensures r == Fail(InvalidMsg) <==> bound.Schema? && bound.n <= id
    ensures r == Fail(LimitExceeded) <==> bound.Cap? && 0 < bound.n <= id
    ensures r == Fail(Argument) <==>
              bound == Cap(0) || (old(|out.slots|) <= id < bound.n && out.capacity.Some? && out.capacity.value <= id)
    ensures r.Pass? <==> id < bound.n && (id < old(|out.slots|) || out.capacity.None? || id < out.capacity.value)
    ensures out.slots == if r.Pass? then Reused(old(out.slots), live, out.default, Cleared, true, id)
        else old(out.slots)
    ensures live' == (if r.Pass? && live <= id then id + 1 else live) <= |out.slots|
  {
    r, live' := ReuseSlot(out, live, id, bound, true, Cleared);
  }

  // ---- reuse equals fresh ------------------------------------------------------------------------

  /** The live part of a reused destination is the fresh one. */
  predicate Mirrors<T(==)>(s: seq<T>, live: nat, f: seq<T>) {
    live == |f| <= |s| && s[..live] == f
  }

  /** Reserving slot `id` in the reused destination mirrors reserving it in the fresh one. */
  predicate MirrorsAfter<T(==)>(s: seq<T>, live: nat, default: T, reset: T -> T, replace: bool, id: nat)
    requires live <= |s|
  {
    var g := Reserved(s[..live], default, id + 1);
    Mirrors(Reused(s, live, default, reset, replace, id), if live <= id then id + 1 else live,
            if replace then g[id := default] else g)
  }

  /** One reservation keeps them alike, if `reset` restores the default. */
  lemma ReuseMirrors<T>(s: seq<T>, live: nat, default: T, reset: T -> T, replace: bool, id: nat)
    requires live <= |s| && forall x | x in s :: reset(x) == default
    ensures MirrorsAfter(s, live, default, reset, replace, id)
  {}

  ghost predicate AlwaysMirrors<T(!new)>(default: T, reset: T -> T) {
    forall s: seq<T>, live: nat, replace: bool, id: nat | live <= |s| ::
      MirrorsAfter(s, live, default, reset, replace, id)
  }

  /** Exactly then: reuse agrees with fresh for every id, on every destination an earlier decode may
      have left, if and only if `reset` restores the default. */
  lemma ResetMustRestore<T(!new)>(default: T, reset: T -> T)
    ensures AlwaysMirrors(default, reset) <==> forall x :: reset(x) == default
  {
    if forall x :: reset(x) == default {
      forall s: seq<T>, live: nat, replace: bool, id: nat | live <= |s|
        ensures MirrorsAfter(s, live, default, reset, replace, id)
      {
        ReuseMirrors(s, live, default, reset, replace, id);
      }
    }
    if AlwaysMirrors(default, reset) {
      forall x ensures reset(x) == default {
        var s := [x];
        assert MirrorsAfter(s, 0, default, reset, false, 0);
        assert Reused(s, 0, default, reset, false, 0)[..1][0] == reset(x) && Reserved(s[..0], default, 1)[0] == default;
      }
    }
  }

  /** Rows come out empty; a row past the end comes out as the row default. So rows may be reused if and
      only if their default is empty. */
  ghost predicate RowsAlike<U(!new)>(default: seq<U>) {
    forall s: seq<seq<U>>, live: nat, id: nat | live <= |s| ::
      Mirrors(Reused(s, live, default, Cleared, true, id), if live <= id then id + 1 else live,
              Reserved(s[..live], default, id + 1)[id := []])
  }

  lemma RowsNeedEmptyDefault<U(!new)>(default: seq<U>)
    ensures RowsAlike(default) <==> default == []
  {
    if default == [] {
      forall s: seq<seq<U>>, live: nat, id: nat | live <= |s|
        ensures Mirrors(Reused(s, live, default, Cleared, true, id), if live <= id then id + 1 else live,
                        Reserved(s[..live], default, id + 1)[id := []])
      {
        ReuseMirrors(s, live, default, Cleared, true, id);
      }
    }
    if RowsAlike(default) {
      var s: seq<seq<U>> := [];
      var u := Reused(s, 0, default, Cleared, true, 0);
      assert Mirrors(u, 1, Reserved(s[..0], default, 1)[0 := []]);
      assert u[..1][0] == default;
    }
  }

  // ---- whole decodes -----------------------------------------------------------------------------

  /** What reaches a wrapper array: the wrapper itself, or an element with what is written to its slot. */
  datatype Delivery<!T> = Wrapper | Element(id: nat, bound: Bound, replace: bool, write: T -> T)

  /** A decode into an empty destination: the verdicts and the slots. */
  datatype Outturn<T> = Outturn(verdicts: seq<Outcome>, slots: seq<T>)

  function Deliver<T>(f: seq<T>, capacity: Option<nat>, default: T, d: Delivery<T>): (r: (Outcome, seq<T>))
    ensures Holds(capacity, |f|) ==> Holds(capacity, |r.1|)
  {
    match d
    case Wrapper => (Pass, [])
    case Element(id, bound, replace, write) =>
      var v := Verdict(|f|, capacity, id, bound);
      if v.Fail? then (v, f)
      else
        var g := Reserved(f, default, id + 1);
        (v, g[id := write(if replace then default else g[id])])
  }

  function DeliverAll<T>(capacity: Option<nat>, default: T, ds: seq<Delivery<T>>): (r: Outturn<T>)
    ensures Holds(capacity, |r.slots|)
  {
    if ds == [] then Outturn([], [])
    else
      var before := DeliverAll(capacity, default, ds[..|ds| - 1]);
      var (v, f) := Deliver(before.slots, capacity, default, ds[|ds| - 1]);
      Outturn(before.verdicts + [v], f)
  }

  lemma DeliverMore<T>(capacity: Option<nat>, default: T, ds: seq<Delivery<T>>, i: nat)
    requires i < |ds|
    ensures var before := DeliverAll(capacity, default, ds[..i]);
            DeliverAll(capacity, default, ds[..i + 1])
            == Outturn(before.verdicts + [Deliver(before.slots, capacity, default, ds[i]).0],
                       Deliver(before.slots, capacity, default, ds[i]).1)
  {
    assert ds[..i + 1][..i] == ds[..i];
  }

  /** A repeated wrapper starts over: only the deliveries since the last one decide the slots. */
  lemma {:induction false} LastWrapper<T>(capacity: Option<nat>, default: T, a: seq<Delivery<T>>, b: seq<Delivery<T>>)
    ensures DeliverAll(capacity, default, a + [Wrapper] + b).slots == DeliverAll(capacity, default, b).slots
    decreases |b|
  {
    var ds := a + [Wrapper] + b;
    if b == [] {
      assert ds[|ds| - 1] == Wrapper;
    } else {
      LastWrapper(capacity, default, a, b[..|b| - 1]);
      assert ds[..|ds| - 1] == a + [Wrapper] + b[..|b| - 1];
    }
  }

  /** A decode that reserves in an empty destination. */
  method DecodeFresh<T(0)>(capacity: Option<nat>, default: T, ds: seq<Delivery<T>>)
    returns (out: SeqVec<T>, verdicts: seq<Outcome>)
    ensures fresh(out) && Outturn(verdicts, out.slots) == DeliverAll(capacity, default, ds)
  {
    out := new SeqVec<T>(capacity, default);
    verdicts := [];
    for i := 0 to |ds|
      invariant fresh(out) && out.Valid() && out.capacity == capacity && out.default == default
      invariant Outturn(verdicts, out.slots) == DeliverAll(capacity, default, ds[..i])
    {
      DeliverMore(capacity, default, ds, i);
      var v := Pass;
      match ds[i] {
        case Wrapper => out.Truncate(0);
        case Element(id, bound, replace, write) =>
          if replace {
            v := PlaceElem(out, id, bound, write(default));
          } else {
            v := ReserveElem(out, id, bound);
            if v.Pass? { out.Update(id, write); }
          }
      }
      verdicts := verdicts + [v];
    }
    assert ds[..|ds|] == ds;
  }

  /** A decode into a destination that holds anything at all from an earlier one: the live count starts at
      zero, and the slots are cut to it at the end. Verdicts and slots are those of the fresh decode. */
  method DecodeReused<T(0,!new)>(out: SeqVec<T>, reset: T -> T, ds: seq<Delivery<T>>) returns (verdicts: seq<Outcome>)
    requires out.Valid() && forall x :: reset(x) == out.default
    modifies out
    ensures out.Valid() && Outturn(verdicts, out.slots) == DeliverAll(out.capacity, out.default, ds)
  {
    hide Verdict, Deliver, Reused, Reserved, DeliverAll;
    var live := 0;
    verdicts := [];
    DeliverNone(out.capacity, out.default, ds);
    for i := 0 to |ds|
      invariant out.Valid() && live <= |out.slots|
      invariant Outturn(verdicts, out.slots[..live]) == DeliverAll(out.capacity, out.default, ds[..i])
    {
      DeliverMore(out.capacity, out.default, ds, i);
      ghost var s, f, live0 := out.slots, out.slots[..live], live;
      var v := Pass;
      match ds[i] {
        case Wrapper =>
          live := 0;
          WrapperEmpties(f, out.capacity, out.default);
        case Element(id, bound, replace, write) =>
          if replace {
            v, live := ReuseLeaf(out, live, id, bound, reset);
          } else {
            v, live := ReuseElem(out, live, id, bound, reset);
          }
          SameVerdict(|s|, live0, out.capacity, id, bound);
          ghost var s1 := out.slots;
          if v.Pass? { out.Update(id, write); }
          ElementMirrors(s, live0, s1, out.slots, live, out.capacity, out.default, reset, ds[i], v);
      }
      verdicts := verdicts + [v];
    }
    assert ds[..|ds|] == ds;
    out.Truncate(live);
  }

  /** Every element of a matrix is a row, and a row replaces. */
  predicate RowsOnly<U>(ds: seq<Delivery<seq<U>>>) {
    forall i | 0 <= i < |ds| :: ds[i].Element? ==> ds[i].replace
  }

  /** A matrix decoded into an empty destination. */
  method DecodeFreshRows<U>(capacity: Option<nat>, ds: seq<Delivery<seq<U>>>)
    returns (out: SeqVec<seq<U>>, verdicts: seq<Outcome>)
    requires RowsOnly(ds)
    ensures fresh(out) && Outturn(verdicts, out.slots) == DeliverAll(capacity, [], ds)
  {
    out := new SeqVec<seq<U>>(capacity, []);
    verdicts := [];
    for i := 0 to |ds|
      invariant fresh(out) && out.Valid() && out.capacity == capacity && out.default == []
      invariant Outturn(verdicts, out.slots) == DeliverAll(capacity, [], ds[..i])
    {
      DeliverMore(capacity, [], ds, i);
      var v := Pass;
      match ds[i] {
        case Wrapper => out.Truncate(0);
        case Element(id, bound, _, write) =>
          v := ReserveRow(out, id, bound);
          if v.Pass? { out.Update(id, write); }
      }
      verdicts := verdicts + [v];
    }
    assert ds[..|ds|] == ds;
  }

  /** A matrix decoded into whatever an earlier decode left: as into an empty destination. */
  method DecodeReusedRows<U(!new)>(out: SeqVec<seq<U>>, ds: seq<Delivery<seq<U>>>) returns (verdicts: seq<Outcome>)
    requires out.Valid() && out.default == [] && RowsOnly(ds)
    modifies out
    ensures out.Valid() && Outturn(verdicts, out.slots) == DeliverAll(out.capacity, [], ds)
  {
    hide Verdict, Deliver, Reused, Reserved, DeliverAll;
    var live := 0;
    verdicts := [];
    DeliverNone(out.capacity, out.default, ds);
    for i := 0 to |ds|
      invariant out.Valid() && live <= |out.slots|
      invariant Outturn(verdicts, out.slots[..live]) == DeliverAll(out.capacity, out.default, ds[..i])
    {
      DeliverMore(out.capacity, out.default, ds, i);
      ghost var s, f, live0 := out.slots, out.slots[..live], live;
      var v := Pass;
      match ds[i] {
        case Wrapper =>
          live := 0;
          WrapperEmpties(f, out.capacity, out.default);
        case Element(id, bound, _, write) =>
          v, live := ReuseRow(out, live, id, bound);
          SameVerdict(|s|, live0, out.capacity, id, bound);
          ghost var s1 := out.slots;
          if v.Pass? { out.Update(id, write); }
          ElementMirrors(s, live0, s1, out.slots, live, out.capacity, out.default, Cleared, ds[i], v);
      }
      verdicts := verdicts + [v];
    }
    assert ds[..|ds|] == ds;
    out.Truncate(live);
  }

  lemma DeliverNone<T>(capacity: Option<nat>, default: T, ds: seq<Delivery<T>>)
    ensures DeliverAll(capacity, default, ds[..0]) == Outturn([], [])
  {}

  lemma WrapperEmpties<T>(f: seq<T>, capacity: Option<nat>, default: T)
    ensures Deliver(f, capacity, default, Wrapper) == (Pass, [])
  {}

  /** One element, reserved in the reused destination and written to. */
  lemma ElementMirrors<T>(s: seq<T>, live: nat, s1: seq<T>, s2: seq<T>, live': nat, capacity: Option<nat>, default: T,
                          reset: T -> T, d: Delivery<T>, v: Outcome)
    requires live <= |s| && live' <= |s2| && d.Element? && (forall x | x in s :: reset(x) == default)
    requires v == Verdict(live, capacity, d.id, d.bound)
    requires s1 == if v.Pass? then Reused(s, live, default, reset, d.replace, d.id) else s
    requires if v.Pass? then d.id < |s1| && s2 == s1[d.id := d.write(s1[d.id])] else s2 == s1
    requires live' == if v.Pass? && live <= d.id then d.id + 1 else live
    ensures Deliver(s[..live], capacity, default, d) == (v, s2[..live'])
  {
    hide Verdict;
    if v.Pass? {
      var g := Reserved(s[..live], default, d.id + 1);
      ReuseMirrors(s, live, default, reset, d.replace, d.id);
      assert s2[..live'] == g[d.id := d.write(if d.replace then default else g[d.id])];
    }
  }

  /** Being longer never changes a verdict: a longer container only holds more of what it has room for. */
  lemma SameVerdict(len: nat, live: nat, capacity: Option<nat>, id: nat, bound: Bound)
    requires live <= len && Holds(capacity, len)
    ensures Verdict(len, capacity, id, bound) == Verdict(live, capacity, id, bound)
  {}
}

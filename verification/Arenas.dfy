/**
 The `u16`-indexed arena and its tail-growing runs (crates/commons/arena/src/arena.rs), and what holds
 after any sequence of operations on one arena.
 */
module Arenas {
  import opened Basics

  const U16_MAX: nat := 65535

  /** `as u16`: keep the low sixteen bits. */
  function CastU16(n: nat): u16 {
    n % 0x1_0000
  }

  /** `u16 + 1`, wrapping as a release build does. */
  function Increment(n: u16): u16 {
    (n + 1) % 0x1_0000
  }

  lemma CastsAreExact(n: nat)
    ensures n <= U16_MAX ==> CastU16(n) == n
    ensures n < U16_MAX ==> Increment(n) == n + 1
  {
  }

  datatype Slice = Slice(start: u16, len: u16) {
    function End(): nat {
      start + len
    }
  }

  datatype PushError = NotAtTail | Overflow

  // ---- Every sequence of operations ----

  /** A reference and the value last stored through it. */
  datatype Ref<T> = Ref(index: u16, latest: T)

  /** A handle on a run, the open it descends from and the values pushed to it. Handles can be copied. */
  datatype Handle<T> = Handle(slice: Slice, open: nat, pushed: seq<T>)

  /** `owners` records, for each slot, the open whose run it was pushed to, if any. */
  datatype State<T> = State(items: seq<T>, refs: seq<Ref<T>>, handles: seq<Handle<T>>, owners: seq<Option<nat>>, opens: nat)

  datatype Op<T> =
    | Alloc(value: T)
    | Open
    | Copy(handle: nat)
    | Push(handle: nat, value: T)
    | Set(ref: nat, value: T)

  function After<T>(s: State<T>, op: Op<T>): State<T> {
    match op
    case Alloc(v) =>
      if |s.items| >= U16_MAX then s
      else s.(items := s.items + [v], owners := s.owners + [None], refs := s.refs + [Ref(CastU16(|s.items|), v)])
    case Open =>
      s.(handles := s.handles + [Handle(Slice(CastU16(|s.items|), 0), s.opens, [])], opens := s.opens + 1)
    case Copy(h) =>
      if h < |s.handles| then s.(handles := s.handles + [s.handles[h]]) else s
    case Push(h, v) =>
      if h < |s.handles| && s.handles[h].slice.End() == |s.items| && |s.items| < U16_MAX then
        var handle := s.handles[h];
        var grown := Handle(handle.slice.(len := Increment(handle.slice.len)), handle.open, handle.pushed + [v]);
        s.(items := s.items + [v], owners := s.owners + [Some(handle.open)], handles := s.handles[h := grown])
      else s
    case Set(r, v) =>
      if r < |s.refs| && s.refs[r].index < |s.items| then
        s.(items := s.items[s.refs[r].index := v], refs := s.refs[r := s.refs[r].(latest := v)])
      else s
  }

  function RunOps<T>(ops: seq<Op<T>>): State<T> {
    if ops == [] then State([], [], [], [], 0) else After(RunOps(ops[..|ops| - 1]), ops[|ops| - 1])
  }

  /** The run is in bounds, belongs to one open, and holds what was pushed. */
  ghost predicate HandleOk<T>(items: seq<T>, owners: seq<Option<nat>>, opens: nat, h: Handle<T>) {
    && h.open < opens
    && |owners| == |items|
    && h.slice.End() <= |items|
    && items[h.slice.start..h.slice.End()] == h.pushed
    && forall i :: h.slice.start <= i < h.slice.End() ==> owners[i] == Some(h.open)
  }

  ghost predicate RefOk<T>(items: seq<T>, owners: seq<Option<nat>>, r: Ref<T>) {
    r.index < |items| == |owners| && items[r.index] == r.latest && owners[r.index] == None
  }

  ghost predicate Invariant<T>(s: State<T>) {
    && |s.items| == |s.owners| && |s.items| <= U16_MAX
    && (forall i :: 0 <= i < |s.refs| ==> RefOk(s.items, s.owners, s.refs[i]))
    && (forall i, j :: 0 <= i < j < |s.refs| ==> s.refs[i].index < s.refs[j].index)
    && (forall h :: 0 <= h < |s.handles| ==> HandleOk(s.items, s.owners, s.opens, s.handles[h]))
  }

  lemma HandleAppend<T>(items: seq<T>, owners: seq<Option<nat>>, opens: nat, h: Handle<T>, v: T, owner: Option<nat>)
    requires HandleOk(items, owners, opens, h)
    ensures HandleOk(items + [v], owners + [owner], opens, h)
  {
    assert (items + [v])[h.slice.start..h.slice.End()] == items[h.slice.start..h.slice.End()];
  }

  lemma HandleOpen<T>(items: seq<T>, owners: seq<Option<nat>>, opens: nat, h: Handle<T>)
    requires |items| == |owners| <= U16_MAX
    ensures HandleOk(items, owners, opens, h) ==> HandleOk(items, owners, opens + 1, h)
    ensures HandleOk(items, owners, opens + 1, Handle(Slice(CastU16(|items|), 0), opens, []))
  {
  }

  /** Slots of a run are not reachable through a reference. */
  lemma HandleSet<T>(items: seq<T>, owners: seq<Option<nat>>, opens: nat, h: Handle<T>, index: nat, v: T)
    requires HandleOk(items, owners, opens, h) && index < |items| && owners[index] == None
    ensures HandleOk(items[index := v], owners, opens, h)
  {
    assert items[index := v][h.slice.start..h.slice.End()] == items[h.slice.start..h.slice.End()];
  }

  lemma HandlePush<T>(items: seq<T>, owners: seq<Option<nat>>, opens: nat, h: Handle<T>, v: T)
    requires HandleOk(items, owners, opens, h) && h.slice.End() == |items| < U16_MAX
    ensures HandleOk(items + [v], owners + [Some(h.open)], opens,
                     Handle(h.slice.(len := Increment(h.slice.len)), h.open, h.pushed + [v]))
  {
    hide Increment;
    CastsAreExact(h.slice.len);
    assert (items + [v])[h.slice.start..] == items[h.slice.start..] + [v];
  }

  lemma RefSlot<T>(items: seq<T>, owners: seq<Option<nat>>, r: Ref<T>)
    requires RefOk(items, owners, r)
    ensures r.index < |items| == |owners| && owners[r.index] == None
  {
  }

  lemma OpKeepsRefs<T>(s: State<T>, op: Op<T>)
    requires Invariant(s)
    ensures var s' := After(s, op); forall i :: 0 <= i < |s'.refs| ==> RefOk(s'.items, s'.owners, s'.refs[i])
    ensures var s' := After(s, op); forall i, j :: 0 <= i < j < |s'.refs| ==> s'.refs[i].index < s'.refs[j].index
  {
    hide HandleOk;
    if op.Set? {
      assert forall i, j :: 0 <= i < |s.refs| && 0 <= j < |s.refs| && i != j ==> s.refs[i].index != s.refs[j].index;
    }
  }

  lemma OpKeepsHandles<T>(s: State<T>, op: Op<T>, h: nat)
    requires Invariant(s) && h < |After(s, op).handles|
    ensures var s' := After(s, op); HandleOk(s'.items, s'.owners, s'.opens, s'.handles[h])
  {
    hide HandleOk, RefOk;
    var s' := After(s, op);
    if h < |s.handles| {
      assert HandleOk(s.items, s.owners, s.opens, s.handles[h]);
    }
    match op
    case Alloc(v) => HandleAppend(s.items, s.owners, s.opens, s.handles[h], v, None);
    case Open => HandleOpen(s.items, s.owners, s.opens, s'.handles[h]);
    case Copy(_) =>
    case Push(p, v) =>
      if p < |s.handles| && h == p && s.handles[h].slice.End() == |s.items| < U16_MAX {
        HandlePush(s.items, s.owners, s.opens, s.handles[h], v);
      } else if p < |s.handles| {
        HandleAppend(s.items, s.owners, s.opens, s.handles[h], v, Some(s.handles[p].open));
      }
    case Set(r, v) =>
      if r < |s.refs| {
        RefSlot(s.items, s.owners, s.refs[r]);
        HandleSet(s.items, s.owners, s.opens, s.handles[h], s.refs[r].index, v);
      }
  }

  lemma OpKeepsInvariant<T>(s: State<T>, op: Op<T>)
    requires Invariant(s)
    ensures Invariant(After(s, op))
  {
    var s' := After(s, op);
    OpKeepsRefs(s, op);
    forall h | 0 <= h < |s'.handles| ensures HandleOk(s'.items, s'.owners, s'.opens, s'.handles[h]) {
      OpKeepsHandles(s, op, h);
    }
  }

  lemma {:induction false} RunInvariant<T>(ops: seq<Op<T>>)
    ensures Invariant(RunOps(ops))
  {
    if ops == [] {
    } else {
      RunInvariant(ops[..|ops| - 1]);
      OpKeepsInvariant(RunOps(ops[..|ops| - 1]), ops[|ops| - 1]);
    }
  }

  // ---- What this gives ----

  /** Every issued reference stays in bounds and reads the value last stored through it; no two share a slot. */
  lemma RefsReadBack<T>(ops: seq<Op<T>>, i: nat, j: nat)
    requires i < |RunOps(ops).refs| && j < |RunOps(ops).refs|
    ensures var s := RunOps(ops);
            && s.refs[i].index < |s.items| && s.items[s.refs[i].index] == s.refs[i].latest
            && (i != j ==> s.refs[i].index != s.refs[j].index)
  {
    RunInvariant(ops);
    assert RefOk(RunOps(ops).items, RunOps(ops).owners, RunOps(ops).refs[i]);
  }

  /** Every run stays in bounds and holds exactly the values pushed to it, in order. */
  lemma RunsReadBack<T>(ops: seq<Op<T>>, h: nat)
    requires h < |RunOps(ops).handles|
    ensures var s := RunOps(ops);
            var slice := s.handles[h].slice;
            && slice.End() <= |s.items| <= U16_MAX
            && s.items[slice.start..slice.End()] == s.handles[h].pushed
  {
    RunInvariant(ops);
    assert HandleOk(RunOps(ops).items, RunOps(ops).owners, RunOps(ops).opens, RunOps(ops).handles[h]);
  }

  /** Non-empty runs from different opens never overlap. */
  lemma RunsDisjoint<T>(ops: seq<Op<T>>, g: nat, h: nat, slot: nat)
    requires var s := RunOps(ops); g < |s.handles| && h < |s.handles| && s.handles[g].open != s.handles[h].open
    requires var slice := RunOps(ops).handles[g].slice; slice.start <= slot < slice.End()
    ensures var slice := RunOps(ops).handles[h].slice; !(slice.start <= slot < slice.End())
  {
    RunInvariant(ops);
    var s := RunOps(ops);
    assert HandleOk(s.items, s.owners, s.opens, s.handles[g]);
    assert HandleOk(s.items, s.owners, s.opens, s.handles[h]);
    assert s.owners[slot] == Some(s.handles[g].open);
  }

  /** No reference points into a run, so nothing rewrites what was pushed. */
  lemma RefsOutsideRuns<T>(ops: seq<Op<T>>, h: nat, i: nat)
    requires h < |RunOps(ops).handles| && i < |RunOps(ops).refs|
    ensures var slice, index := RunOps(ops).handles[h].slice, RunOps(ops).refs[i].index;
            !(slice.start <= index < slice.End())
  {
    RunInvariant(ops);
    var s := RunOps(ops);
    assert HandleOk(s.items, s.owners, s.opens, s.handles[h]);
    assert RefOk(s.items, s.owners, s.refs[i]);
  }

  /** An operation leaves every slot as it was, save a write through `get_mut`, which changes that slot alone. */
  lemma OnlySetChangesSlots<T>(ops: seq<Op<T>>, op: Op<T>, slot: nat)
    requires slot < |RunOps(ops).items|
    ensures var s, s' := RunOps(ops), RunOps(ops + [op]);
            && |s.items| <= |s'.items|
            && (s'.items[slot] != s.items[slot] ==> op.Set? && op.ref < |s.refs| && s.refs[op.ref].index == slot)
  {
    assert (ops + [op])[..|ops|] == ops;
  }

  // ---- The object ----

  /**
   The arena as its callers hold it. `ops` records what was done to it, so that the lemmas above speak of
   this object. References and slices belong to the arena that issued them, as the original demands; the
   ghost arguments say which one is meant.
   */
  class Arena<T> {
    var items: seq<T>
    ghost var ops: seq<Op<T>>

    ghost predicate Valid()
      reads this
    {
      items == RunOps(ops).items
    }

    ghost function State(): State<T>
      reads this
    {
      RunOps(ops)
    }

    constructor ()
      ensures Valid() && ops == []
    {
      items := [];
      ops := [];
    }

    /** Refused exactly when the arena is full; otherwise the reference is the true index of the value. */
    method Alloc(value: T) returns (r: Option<u16>)
      requires Valid()
      modifies this
      ensures Valid() && ops == old(ops) + [Op.Alloc(value)]
      ensures r.None? <==> |old(items)| == 65535
      ensures r.None? ==> State() == old(State())
      ensures r.Some? ==> r.value == |old(items)| && State().refs == old(State().refs) + [Ref(r.value, value)]
    {
      hide CastU16, HandleOk, RefOk;
      Recorded(ops, Op.Alloc(value));
      RunInvariant(ops);
      CastsAreExact(|items|);
      ops := ops + [Op.Alloc(value)];
      var index := |items|;
      if index >= U16_MAX {
        return None;
      }
      items := items + [value];
      return Some(CastU16(index));
    }

    /** An empty run at the tail; its handle is the newest. */
    method OpenSlice() returns (s: Slice)
      requires Valid()
      modifies this`ops
      ensures Valid() && ops == old(ops) + [Open]
      ensures s.start == |items| && s.len == 0
      ensures State().handles == old(State().handles) + [Handle(s, old(State().opens), [])]
    {
      hide CastU16, HandleOk, RefOk;
      Recorded(ops, Open);
      RunInvariant(ops);
      CastsAreExact(|items|);
      ops := ops + [Open];
      s := Slice(CastU16(|items|), 0);
    }

    /** Slices are `Copy`: a copy is a second handle on the same run. */
    method CopySlice(ghost h: nat, s: Slice) returns (copy: Slice)
      requires Valid() && h < |State().handles| && State().handles[h].slice == s
      modifies this`ops
      ensures Valid() && ops == old(ops) + [Copy(h)]
      ensures State().handles == old(State().handles) + [old(State().handles)[h].(slice := copy)]
    {
      Recorded(ops, Copy(h));
      ops := ops + [Copy(h)];
      copy := s;
    }

    /** `ArenaSlice::push`: the run grows by `value`, or nothing changes and the error says why. */
    method Push(ghost h: nat, s: Slice, value: T) returns (r: Result<Slice, PushError>)
      requires Valid() && h < |State().handles| && State().handles[h].slice == s
      modifies this
      ensures Valid()
      ensures s.End() != |old(items)| ==> r == Err(NotAtTail)
      ensures s.End() == |old(items)| == 65535 ==> r == Err(Overflow)
      ensures s.End() == |old(items)| < 65535 ==> r.Ok?
      ensures r.Err? ==> ops == old(ops)
      ensures r.Ok? ==> ops == old(ops) + [Op.Push(h, value)]
      ensures r.Ok? ==> State().handles[h] == Handle(r.value, old(State().handles)[h].open, old(State().handles)[h].pushed + [value])
    {
      if s.End() != |items| {
        return Err(NotAtTail);
      }
      hide Increment, HandleOk, RefOk;
      Recorded(ops, Op.Push(h, value));
      RunInvariant(ops);
      if |items| >= U16_MAX {
        return Err(Overflow);
      }
      items := items + [value];
      ops := ops + [Op.Push(h, value)];
      return Ok(s.(len := Increment(s.len)));
    }

    /** Reads the value last stored through the reference. */
    method Get(ghost i: nat, ref: u16) returns (value: T)
      requires Valid() && i < |State().refs| && State().refs[i].index == ref
      ensures value == State().refs[i].latest
    {
      RefsReadBack(ops, i, i);
      value := items[ref];
    }

    /** A write through `get_mut`: seen by that reference, and by no other reference and no run. */
    method Set(ghost i: nat, ref: u16, value: T)
      requires Valid() && i < |State().refs| && State().refs[i].index == ref
      modifies this
      ensures Valid() && ops == old(ops) + [Op.Set(i, value)]
      ensures State().refs == old(State().refs)[i := Ref(ref, value)] && State().handles == old(State().handles)
    {
      Recorded(ops, Op.Set(i, value));
      RefsReadBack(ops, i, i);
      items := items[ref := value];
      ops := ops + [Op.Set(i, value)];
    }

    /** Reads the values pushed to the run, in order. */
    method Run(ghost h: nat, s: Slice) returns (run: seq<T>)
      requires Valid() && h < |State().handles| && State().handles[h].slice == s
      ensures run == State().handles[h].pushed
    {
      RunsReadBack(ops, h);
      run := items[s.start..s.End()];
    }
  }

  lemma Recorded<T>(ops: seq<Op<T>>, op: Op<T>)
    ensures RunOps(ops + [op]) == After(RunOps(ops), op)
  {
    assert (ops + [op])[..|ops|] == ops;
  }
}

/**
 `App::migrate` (crates/app/src/app.rs) run by any number of callers at once. The `migrated` flag is
 checked, the lock awaited, the flag checked again, and every storage migrated in turn. A storage may
 fail, and a caller may be dropped at any point where it awaits.
 */
module Migration {
  import opened Basics

  /** Where a caller is. `Rechecking` to `Leaving` hold the lock. */
  datatype Caller =
    | Idle
    | Assembling
    | Checking
    | Waiting
    | Rechecking
    | Migrating(next: nat)                      // storages below `next` are done
    | Running(current: nat)                     // awaits storage `current`
    | Leaving                                   // the flag is set, the lock not yet released
    | Returned(ok: bool)

  datatype Event =
    | Began(caller: nat)
    | StorageStarted(caller: nat, storage: nat)
    | StorageDone(caller: nat, storage: nat)
    | StorageFailed(caller: nat, storage: nat)
    | Dropped(caller: nat)
    | FlagSet(caller: nat)
    | OkReturned(caller: nat)

  datatype State = State(flag: bool, lock: Option<nat>, callers: seq<Caller>, trace: seq<Event>)

  datatype Step =
    | Calls(caller: nat)
    | Assembled(caller: nat, ok: bool)
    | Advances(caller: nat)
    | StorageReturns(caller: nat, ok: bool)
    | Drops(caller: nat)

  function Initial(callers: nat): State {
    State(false, None, seq(callers, _ => Idle), [])
  }

  function Move(s: State, t: nat, to: Caller): State
    requires t < |s.callers|
  {
    s.(callers := s.callers[t := to])
  }

  function Log(s: State, e: Event): State {
    s.(trace := s.trace + [e])
  }

  /** The next state, over `storages` storages, or `None` when the step is not possible. */
  function After(storages: nat, s: State, step: Step): Option<State> {
    var t := step.caller;
    if t >= |s.callers| then None
    else
      match (s.callers[t], step)
      case (Idle, Calls(_)) => Some(Move(s, t, Assembling))
      case (Returned(_), Calls(_)) => Some(Move(s, t, Assembling))
      case (Assembling, Assembled(_, ok)) => Some(Move(s, t, if ok then Checking else Returned(false)))
      case (Checking, Advances(_)) =>
        if s.flag then Some(Log(Move(s, t, Returned(true)), OkReturned(t))) else Some(Move(s, t, Waiting))
      case (Waiting, Advances(_)) =>
        if s.lock.Some? then None else Some(Move(s.(lock := Some(t)), t, Rechecking))
      case (Rechecking, Advances(_)) =>
        if s.flag then Some(Log(Move(s.(lock := None), t, Returned(true)), OkReturned(t)))
        else Some(Log(Move(s, t, Migrating(0)), Began(t)))
      case (Migrating(k), Advances(_)) =>
        if k < storages then Some(Log(Move(s, t, Running(k)), StorageStarted(t, k)))
        else Some(Log(Move(s.(flag := true), t, Leaving), FlagSet(t)))
      case (Running(k), StorageReturns(_, ok)) =>
        if ok then Some(Log(Move(s, t, Migrating(k + 1)), StorageDone(t, k)))
        else Some(Log(Move(s.(lock := None), t, Returned(false)), StorageFailed(t, k)))
      case (Leaving, Advances(_)) => Some(Log(Move(s.(lock := None), t, Returned(true)), OkReturned(t)))
      case (Assembling, Drops(_)) => Some(Move(s, t, Idle))
      case (Waiting, Drops(_)) => Some(Move(s, t, Idle))
      case (Running(_), Drops(_)) => Some(Log(Move(s.(lock := None), t, Idle), Dropped(t)))
      case _ => None
  }

  ghost predicate IsRun(storages: nat, n: nat, states: seq<State>, steps: seq<Step>) {
    && |states| == |steps| + 1
    && states[0] == Initial(n)
    && forall i :: 0 <= i < |steps| ==> After(storages, states[i], steps[i]) == Some(states[i + 1])
  }

  // ---- What a trace may look like ----

  /** The event before position `i`. */
  function Before(trace: seq<Event>, i: nat): Option<Event>
    requires i <= |trace|
  {
    if i == 0 then None else Some(trace[i - 1])
  }

  function Latest(trace: seq<Event>): Option<Event> {
    Before(trace, |trace|)
  }

  /** How far a pass has got when `previous` is its latest event: `next` storages are done. */
  predicate PassAt(previous: Option<Event>, caller: nat, next: nat) {
    previous == Some(if next == 0 then Began(caller) else StorageDone(caller, next - 1))
  }

  /** No pass is open and none has completed. */
  predicate BetweenPasses(previous: Option<Event>) {
    previous.None? || previous.value.StorageFailed? || previous.value.Dropped?
  }

  predicate Completed(previous: Option<Event>) {
    previous.Some? && (previous.value.FlagSet? || previous.value.OkReturned?)
  }

  /** May `e` come right after `previous`? */
  predicate Follows(storages: nat, previous: Option<Event>, e: Event) {
    match e
    case Began(_) => BetweenPasses(previous)
    case StorageStarted(t, k) => k < storages && PassAt(previous, t, k)
    case StorageDone(t, k) => previous == Some(StorageStarted(t, k))
    case StorageFailed(t, k) => previous == Some(StorageStarted(t, k))
    case Dropped(t) => previous.Some? && previous.value.StorageStarted? && previous.value.caller == t
    case FlagSet(t) => PassAt(previous, t, storages)
    case OkReturned(_) => Completed(previous)
  }

  ghost predicate WellFormed(storages: nat, trace: seq<Event>) {
    forall i {:trigger Before(trace, i)} :: 0 <= i < |trace| ==> Follows(storages, Before(trace, i), trace[i])
  }

  // ---- Every run has such a trace ----

  predicate Holding(c: Caller) {
    c.Rechecking? || c.Migrating? || c.Running? || c.Leaving?
  }

  /** The caller's place agrees with the flag and with the latest event. */
  predicate Agrees(storages: nat, flag: bool, latest: Option<Event>, t: nat, c: Caller) {
    match c
    case Migrating(k) => !flag && k <= storages && PassAt(latest, t, k)
    case Running(k) => !flag && k < storages && latest == Some(StorageStarted(t, k))
    case Leaving => flag
    case Returned(ok) => ok ==> flag
    case _ => true
  }

  predicate InPass(c: Caller) {
    c.Migrating? || c.Running?
  }

  ghost predicate LockHeld(s: State) {
    forall t: nat :: s.lock == Some(t) <==> t < |s.callers| && Holding(s.callers[t])
  }

  ghost predicate Invariant(storages: nat, s: State) {
    var latest := Latest(s.trace);
    && LockHeld(s)
    && (forall t: nat :: t < |s.callers| ==> Agrees(storages, s.flag, latest, t, s.callers[t]))
    && (s.flag ==> Completed(latest))
    && (!s.flag && (s.lock.None? || !InPass(s.callers[s.lock.value])) ==> BetweenPasses(latest))
    && WellFormed(storages, s.trace)
  }

  lemma LogKeepsWellFormed(storages: nat, trace: seq<Event>, e: Event)
    requires WellFormed(storages, trace) && Follows(storages, Latest(trace), e)
    ensures WellFormed(storages, trace + [e])
  {
    hide Follows;
    var longer := trace + [e];
    forall i | 0 <= i < |longer| ensures Follows(storages, Before(longer, i), longer[i]) {
      assert Before(longer, i) == Before(trace, i);
      if i == |trace| {
        assert longer[i] == e;
      } else {
        assert longer[i] == trace[i];
      }
    }
  }

  /** A step moves one caller, and logs at most one event. */
  lemma StepShape(storages: nat, s: State, step: Step, s': State)
    requires After(storages, s, step) == Some(s')
    ensures var t := step.caller;
            && t < |s.callers| == |s'.callers|
            && (forall u :: 0 <= u < |s.callers| && u != t ==> s'.callers[u] == s.callers[u])
            && (s.flag ==> s'.flag)
            && (s'.trace == s.trace || s'.trace == s.trace + [Latest(s'.trace).value])
            && (s' == Move(s, t, s'.callers[t]) || Holding(s.callers[t]) || Holding(s'.callers[t]) || s.flag)
  {
  }

  lemma LockStep(storages: nat, s: State, step: Step, s': State)
    requires LockHeld(s) && After(storages, s, step) == Some(s')
    ensures LockHeld(s')
  {
    var t := step.caller;
    assert s.lock == Some(t) <==> Holding(s.callers[t]);
    StepShape(storages, s, step, s');
    assert s'.lock == if Holding(s'.callers[t]) then Some(t) else if Holding(s.callers[t]) then None else s.lock;
    assert Holding(s'.callers[t]) && !Holding(s.callers[t]) ==> s.lock.None?;
  }

  /** The mover's own place, the logged event and the phase of the trace. */
  lemma MoverStep(storages: nat, s: State, step: Step, s': State)
    requires After(storages, s, step) == Some(s')
    requires Agrees(storages, s.flag, Latest(s.trace), step.caller, s.callers[step.caller])
    requires s.flag ==> Completed(Latest(s.trace))
    requires Holding(s.callers[step.caller]) && !s.flag && !InPass(s.callers[step.caller]) ==> BetweenPasses(Latest(s.trace))
    ensures Agrees(storages, s'.flag, Latest(s'.trace), step.caller, s'.callers[step.caller])
    ensures s'.flag ==> Completed(Latest(s'.trace))
    ensures InPass(s.callers[step.caller]) && !InPass(s'.callers[step.caller]) && !s'.flag ==> BetweenPasses(Latest(s'.trace))
    ensures s'.trace != s.trace ==> Follows(storages, Latest(s.trace), Latest(s'.trace).value)
    ensures !InPass(s.callers[step.caller]) && !InPass(s'.callers[step.caller]) && !s'.flag ==> s'.trace == s.trace
  {
  }

  /** The callers that did not move still agree. */
  lemma OthersAgree(storages: nat, s: State, step: Step, s': State, u: nat)
    requires Invariant(storages, s) && After(storages, s, step) == Some(s')
    requires u < |s.callers| && u != step.caller
    ensures Agrees(storages, s'.flag, Latest(s'.trace), u, s.callers[u])
  {
    var t := step.caller;
    assert Agrees(storages, s.flag, Latest(s.trace), u, s.callers[u]);
    assert Agrees(storages, s.flag, Latest(s.trace), t, s.callers[t]);
    assert s.lock == Some(t) <==> Holding(s.callers[t]);
    assert s.lock == Some(u) <==> Holding(s.callers[u]);
    StepShape(storages, s, step, s');
  }

  lemma StepKeepsInvariant(storages: nat, s: State, step: Step, s': State)
    requires Invariant(storages, s) && After(storages, s, step) == Some(s')
    ensures Invariant(storages, s')
  {
    var t := step.caller;
    StepShape(storages, s, step, s');
    LockStep(storages, s, step, s');
    assert s.lock == Some(t) <==> Holding(s.callers[t]);
    MoverStep(storages, s, step, s') by {
      assert Agrees(storages, s.flag, Latest(s.trace), t, s.callers[t]);
    }
    forall u: nat | u < |s'.callers| ensures Agrees(storages, s'.flag, Latest(s'.trace), u, s'.callers[u]) {
      if u != t {
        OthersAgree(storages, s, step, s', u);
      }
    }
    if s'.trace != s.trace {
      LogKeepsWellFormed(storages, s.trace, Latest(s'.trace).value);
    }
    hide After, Agrees, Follows, BetweenPasses, Completed;
    assert s'.lock.Some? ==> Holding(s'.callers[s'.lock.value]);
  }

  lemma {:induction false} RunInvariant(storages: nat, n: nat, states: seq<State>, steps: seq<Step>, i: nat)
    requires IsRun(storages, n, states, steps) && i < |states|
    ensures Invariant(storages, states[i])
  {
    if i == 0 {
    } else {
      RunInvariant(storages, n, states, steps, i - 1);
      StepKeepsInvariant(storages, states[i - 1], steps[i - 1], states[i]);
    }
  }

  // ---- What such a trace means ----

  /** Once the flag is set nothing but Ok returns follows. */
  lemma {:induction false} NothingAfterFlag(storages: nat, trace: seq<Event>, i: nat, j: nat)
    requires WellFormed(storages, trace) && i < j < |trace| && trace[i].FlagSet?
    ensures trace[j].OkReturned?
    decreases j
  {
    if j > i + 1 {
      NothingAfterFlag(storages, trace, i, j - 1);
    }
    assert Follows(storages, Before(trace, j), trace[j]);
  }

  /** The events of a pass that got through its first `next` storages end at position `i`. */
  ghost predicate PassEndsAt(trace: seq<Event>, i: nat, caller: nat, next: nat)
    requires i <= |trace|
  {
    && i >= 2 * next + 1
    && trace[i - 2 * next - 1] == Began(caller)
    && forall k :: 0 <= k < next ==>
         && trace[i - 2 * next + 2 * k] == StorageStarted(caller, k)
         && trace[i - 2 * next + 2 * k + 1] == StorageDone(caller, k)
  }

  lemma {:induction false} PassReachedBack(storages: nat, trace: seq<Event>, i: nat, caller: nat, next: nat)
    requires WellFormed(storages, trace) && i <= |trace| && PassAt(Before(trace, i), caller, next)
    ensures PassEndsAt(trace, i, caller, next)
    decreases next
  {
    if next == 0 {
    } else {
      assert Follows(storages, Before(trace, i - 1), trace[i - 1]);
      assert trace[i - 2] == StorageStarted(caller, next - 1);
      assert Follows(storages, Before(trace, i - 2), trace[i - 2]);
      PassReachedBack(storages, trace, i - 2, caller, next - 1);
      forall k | 0 <= k < next
        ensures trace[i - 2 * next + 2 * k] == StorageStarted(caller, k)
        ensures trace[i - 2 * next + 2 * k + 1] == StorageDone(caller, k)
      {
        assert k < next - 1 ==> trace[i - 2 - 2 * (next - 1) + 2 * k] == StorageStarted(caller, k);
      }
    }
  }

  /** The flag is set right after one uninterrupted pass in which every storage succeeded, in order. */
  lemma FlagFollowsWholePass(storages: nat, trace: seq<Event>, i: nat)
    requires WellFormed(storages, trace) && i < |trace| && trace[i].FlagSet?
    ensures PassEndsAt(trace, i, trace[i].caller, storages)
  {
    assert Follows(storages, Before(trace, i), trace[i]);
    PassReachedBack(storages, trace, i, trace[i].caller, storages);
  }

  lemma {:induction false} OkFollowsFlag(storages: nat, trace: seq<Event>, j: nat) returns (i: nat)
    requires WellFormed(storages, trace) && j < |trace| && Completed(Some(trace[j]))
    ensures i <= j && trace[i].FlagSet?
  {
    i := j;
    if !trace[j].FlagSet? {
      assert Follows(storages, Before(trace, j), trace[j]);
      i := OkFollowsFlag(storages, trace, j - 1);
    }
  }

  predicate EndsPass(e: Event, caller: nat) {
    e.caller == caller && (e.StorageFailed? || e.Dropped? || e.FlagSet?)
  }

  /** Passes never overlap: before another caller logs anything, the open pass has ended. */
  lemma {:induction false} PassesDoNotOverlap(storages: nat, trace: seq<Event>, i: nat, j: nat) returns (e: nat)
    requires WellFormed(storages, trace) && i < j < |trace|
    requires trace[i].Began? && trace[j].caller != trace[i].caller
    ensures i < e < j && EndsPass(trace[e], trace[i].caller)
    decreases j
  {
    assert Follows(storages, Before(trace, j), trace[j]);
    if trace[j - 1].caller != trace[i].caller {
      e := PassesDoNotOverlap(storages, trace, i, j - 1);
    } else {
      e := LastEnd(storages, trace, i, j - 1);
    }
  }

  /** A pass that is no longer open has ended. */
  lemma {:induction false} LastEnd(storages: nat, trace: seq<Event>, i: nat, j: nat) returns (e: nat)
    requires WellFormed(storages, trace) && i < j < |trace|
    requires trace[i].Began? && trace[j].caller == trace[i].caller
    requires BetweenPasses(Some(trace[j])) || Completed(Some(trace[j]))
    ensures i < e <= j && EndsPass(trace[e], trace[i].caller)
    decreases j
  {
    e := j;
    if trace[j].OkReturned? {
      assert Follows(storages, Before(trace, j), trace[j]);
      if trace[j - 1].caller == trace[i].caller {
        e := LastEnd(storages, trace, i, j - 1);
      } else {
        e := PassesDoNotOverlap(storages, trace, i, j - 1);
      }
    }
  }

  // ---- Every run ----

  lemma RunTrace(storages: nat, n: nat, states: seq<State>, steps: seq<Step>, i: nat)
    requires IsRun(storages, n, states, steps) && i < |states|
    ensures WellFormed(storages, states[i].trace)
  {
    RunInvariant(storages, n, states, steps, i);
  }

  /** Two callers are never both migrating. */
  lemma OnePassAtATime(storages: nat, n: nat, states: seq<State>, steps: seq<Step>, i: nat, t: nat, u: nat)
    requires IsRun(storages, n, states, steps) && i < |states|
    requires t < |states[i].callers| && u < |states[i].callers|
    requires InPass(states[i].callers[t]) && InPass(states[i].callers[u])
    ensures t == u
  {
    RunInvariant(storages, n, states, steps, i);
    assert states[i].lock == Some(t) && states[i].lock == Some(u);
  }

  /** A caller that got Ok did so after a pass in which all storages succeeded, the only one that ever completes. */
  lemma OkMeansMigrated(storages: nat, n: nat, states: seq<State>, steps: seq<Step>, i: nat, t: nat) returns (f: nat)
    requires IsRun(storages, n, states, steps) && i < |states|
    requires t < |states[i].callers| && states[i].callers[t] == Returned(true)
    ensures f < |states[i].trace| && states[i].trace[f].FlagSet?
    ensures PassEndsAt(states[i].trace, f, states[i].trace[f].caller, storages)
    ensures forall j :: 0 <= j < |states[i].trace| && j != f ==> !states[i].trace[j].FlagSet?
  {
    RunInvariant(storages, n, states, steps, i);
    var trace := states[i].trace;
    assert Agrees(storages, states[i].flag, Latest(trace), t, states[i].callers[t]);
    f := OkFollowsFlag(storages, trace, |trace| - 1);
    FlagFollowsWholePass(storages, trace, f);
    forall j | 0 <= j < |trace| && j != f ensures !trace[j].FlagSet? {
      if f < j {
        NothingAfterFlag(storages, trace, f, j);
      } else if trace[j].FlagSet? {
        NothingAfterFlag(storages, trace, j, f);
      }
    }
  }

  /** No storage migration starts once the flag is set, in any continuation of the run. */
  lemma NoMigrationAfterFlag(storages: nat, n: nat, states: seq<State>, steps: seq<Step>, i: nat)
    requires IsRun(storages, n, states, steps) && i < |steps| && states[i].flag
    ensures states[i + 1].flag
    ensures states[i + 1].trace == states[i].trace ||
            exists t :: states[i + 1].trace == states[i].trace + [OkReturned(t)]
  {
    RunInvariant(storages, n, states, steps, i);
    var s, t := states[i], steps[i].caller;
    assert After(storages, s, steps[i]) == Some(states[i + 1]);
    assert Agrees(storages, s.flag, Latest(s.trace), t, s.callers[t]);
    StepShape(storages, s, steps[i], states[i + 1]);
  }

  /** No deadlock: an unfinished caller means some step is possible. */
  lemma SomeoneCanMove(storages: nat, n: nat, states: seq<State>, steps: seq<Step>, i: nat, t: nat)
    requires IsRun(storages, n, states, steps) && i < |states|
    requires t < |states[i].callers| && !states[i].callers[t].Idle? && !states[i].callers[t].Returned?
    ensures exists step: Step :: !step.Drops? && !step.Calls? && After(storages, states[i], step).Some?
  {
    RunInvariant(storages, n, states, steps, i);
    var s := states[i];
    var u := if s.lock.Some? then s.lock.value else t;
    var c := s.callers[u];
    var step := if c.Assembling? then Assembled(u, true) else if c.Running? then StorageReturns(u, true) else Advances(u);
    assert After(storages, s, step).Some?;
  }

  // ---- Work is bounded ----

  /** The most steps a caller can still take before it is idle or has returned. */
  function Remaining(storages: nat, c: Caller): int {
    match c
    case Idle => 0
    case Assembling => 2 * storages + 6
    case Checking => 2 * storages + 5
    case Waiting => 2 * storages + 4
    case Rechecking => 2 * storages + 3
    case Migrating(k) => 2 * (storages - k) + 2
    case Running(k) => 2 * (storages - k) + 1
    case Leaving => 1
    case Returned(_) => 0
  }

  function Work(storages: nat, callers: seq<Caller>): int {
    if callers == [] then 0 else Remaining(storages, callers[0]) + Work(storages, callers[1..])
  }

  lemma {:induction false} WorkMoves(storages: nat, callers: seq<Caller>, t: nat, to: Caller)
    requires t < |callers|
    ensures Work(storages, callers[t := to]) ==
            Work(storages, callers) - Remaining(storages, callers[t]) + Remaining(storages, to)
  {
    hide Remaining;
    if t == 0 {
      assert callers[0 := to][1..] == callers[1..];
    } else {
      WorkMoves(storages, callers[1..], t - 1, to);
      assert callers[t := to][1..] == callers[1..][t - 1 := to];
    }
  }

  lemma {:induction false} WorkNotNegative(storages: nat, s: State, callers: seq<Caller>, t: nat)
    requires Invariant(storages, s) && t <= |s.callers| && callers == s.callers[t..]
    ensures Work(storages, callers) >= 0
    decreases |callers|
  {
    if callers == [] {
    } else {
      assert Agrees(storages, s.flag, Latest(s.trace), t, s.callers[t]);
      assert Remaining(storages, callers[0]) >= 0;
      hide Invariant, Agrees, Remaining;
      WorkNotNegative(storages, s, callers[1..], t + 1);
    }
  }

  /** A call brings a bounded amount of work; every other step, a failure or a drop included, uses some up. */
  lemma StepUsesWork(storages: nat, s: State, step: Step, s': State)
    requires After(storages, s, step) == Some(s')
    requires Agrees(storages, s.flag, Latest(s.trace), step.caller, s.callers[step.caller])
    ensures step.Calls? ==> Work(storages, s'.callers) == Work(storages, s.callers) + 2 * storages + 6
    ensures !step.Calls? ==> Work(storages, s'.callers) < Work(storages, s.callers)
  {
    hide Work;
    var t := step.caller;
    WorkMoves(storages, s.callers, t, s'.callers[t]);
    assert s'.callers == s.callers[t := s'.callers[t]];
  }

  lemma RunUsesWork(storages: nat, n: nat, states: seq<State>, steps: seq<Step>, i: nat)
    requires IsRun(storages, n, states, steps) && i < |steps|
    ensures var before, after := Work(storages, states[i].callers), Work(storages, states[i + 1].callers);
            if steps[i].Calls? then after == before + 2 * storages + 6 else after < before
  {
    hide Work;
    RunInvariant(storages, n, states, steps, i);
    var s, step := states[i], steps[i];
    assert After(storages, s, step) == Some(states[i + 1]);
    assert Agrees(storages, s.flag, Latest(s.trace), step.caller, s.callers[step.caller]);
    StepUsesWork(storages, s, step, states[i + 1]);
  }

  function CallsIn(steps: seq<Step>): nat {
    if steps == [] then 0 else CallsIn(steps[..|steps| - 1]) + if steps[|steps| - 1].Calls? then 1 else 0
  }

  /** The calls so far pay for the steps so far and the work still open. */
  lemma {:induction false} StepsArePaid(storages: nat, n: nat, states: seq<State>, steps: seq<Step>, i: nat)
    requires IsRun(storages, n, states, steps) && i <= |steps|
    ensures i + Work(storages, states[i].callers) <= CallsIn(steps[..i]) * (2 * storages + 7)
  {
    hide After, Work;
    if i == 0 {
      IdleIsNoWork(storages, n);
    } else {
      StepsArePaid(storages, n, states, steps, i - 1);
      RunUsesWork(storages, n, states, steps, i - 1);
      assert steps[..i][..i - 1] == steps[..i - 1] && steps[..i][i - 1] == steps[i - 1];
      MulStep(CallsIn(steps[..i - 1]), 2 * storages + 7);
    }
  }

  lemma {:induction false} IdleIsNoWork(storages: nat, n: nat)
    ensures Work(storages, seq(n, _ => Idle)) == 0
  {
    if n == 0 {
    } else {
      IdleIsNoWork(storages, n - 1);
      assert (seq(n, _ => Idle))[1..] == seq(n - 1, _ => Idle);
    }
  }

  /** No livelock: over any run, whatever fails or is dropped, each call accounts for at most 2 n + 7 steps. */
  lemma RunsAreShort(storages: nat, n: nat, states: seq<State>, steps: seq<Step>)
    requires IsRun(storages, n, states, steps)
    ensures |steps| <= CallsIn(steps) * (2 * storages + 7)
  {
    StepsArePaid(storages, n, states, steps, |steps|);
    RunInvariant(storages, n, states, steps, |steps|);
    WorkNotNegative(storages, states[|steps|], states[|steps|].callers, 0);
    assert steps[..|steps|] == steps;
  }

  /** After the flag is set a call costs two steps and no lock: it returns Ok whoever holds the lock. */
  lemma FastPath(storages: nat, s: State, t: nat)
    requires t < |s.callers| && s.callers[t].Assembling? && s.flag
    ensures var checked := After(storages, s, Assembled(t, true));
            && checked.Some? && checked.value.lock == s.lock
            && var done := After(storages, checked.value, Advances(t));
            && done == Some(s.(callers := s.callers[t := Returned(true)], trace := s.trace + [OkReturned(t)]))
  {
    assert s.callers[t := Checking][t := Returned(true)] == s.callers[t := Returned(true)];
  }

  /** A failed or dropped pass frees the lock and leaves the flag unset, so a waiting caller starts over from the first storage. */
  lemma FailedPassIsRetried(storages: nat, n: nat, states: seq<State>, steps: seq<Step>, i: nat, u: nat)
    requires IsRun(storages, n, states, steps) && i < |steps|
    requires steps[i].caller < |states[i].callers| && states[i].callers[steps[i].caller].Running?
    requires steps[i].Drops? || (steps[i].StorageReturns? && !steps[i].ok)
    requires u < |states[i].callers| && states[i].callers[u].Waiting?
    ensures var taken := After(storages, states[i + 1], Advances(u));
            && taken.Some?
            && var begun := After(storages, taken.value, Advances(u));
            begun.Some? && begun.value.callers[u] == Migrating(0) && Latest(begun.value.trace) == Some(Began(u))
  {
    RunInvariant(storages, n, states, steps, i);
    var t := steps[i].caller;
    assert After(storages, states[i], steps[i]) == Some(states[i + 1]);
    assert Agrees(storages, states[i].flag, Latest(states[i].trace), t, states[i].callers[t]);
  }

  /** A caller can be dropped exactly where it awaits, and then it holds nothing. */
  lemma DropsReleaseLock(storages: nat, n: nat, states: seq<State>, steps: seq<Step>, i: nat, t: nat)
    requires IsRun(storages, n, states, steps) && i < |states| && t < |states[i].callers|
    ensures var c, dropped := states[i].callers[t], After(storages, states[i], Drops(t));
            && (dropped.Some? <==> c.Assembling? || c.Waiting? || c.Running?)
            && (dropped.Some? ==> dropped.value.callers[t] == Idle && dropped.value.lock != Some(t) && dropped.value.flag == states[i].flag)
  {
    RunInvariant(storages, n, states, steps, i);
    assert states[i].lock == Some(t) <==> Holding(states[i].callers[t]);
  }
}

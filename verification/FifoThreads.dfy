/**
 The FIFO cache used by any number of threads (crates/commons/caching/src/fifo_cache.rs), interleaved
 at every access to the lock, the map and the queue. `build` is a pure function of the key, as the
 original's documentation demands.
 */
module FifoThreads {
  import opened Basics
  import opened Orders
  import opened FifoCache

  datatype Config<!K, V, E> = Config(cap: nat, build: K -> Result<V, E>)

  /** A call: `cloning` is `get_or_try_insert_with`, otherwise `with_or_try_insert_with`. */
  datatype Call<K, !V, R> = Call(key: K, view: V -> R, cloning: bool)

  /** Where a thread is; `value` is what it built. */
  datatype Thread<K, !V, R, E> =
    | Idle
    | Started(call: Call<K, V, R>)
    | Reading(call: Call<K, V, R>)                          // holds the read lock
    | Building(call: Call<K, V, R>)
    | Built(call: Call<K, V, R>, value: V)
    | Rechecking(call: Call<K, V, R>, value: V)             // holds the write lock, up to Removing
    | Inserting(call: Call<K, V, R>, value: V)
    | Pushing(call: Call<K, V, R>, value: V)
    | Evicting(call: Call<K, V, R>, value: V)
    | Removing(call: Call<K, V, R>, value: V, oldest: K)
    | Done(call: Call<K, V, R>, result: Result<R, E>)

  /** `log` records every key ever pushed, in order. */
  datatype Store<K, V> = Store(entries: map<K, V>, queue: seq<K>, log: seq<K>)

  datatype State<K, !V, R, E> = State(
    readers: set<nat>,
    writer: Option<nat>,
    store: Store<K, V>,
    threads: seq<Thread<K, V, R, E>>)

  function Initial<K, V, R, E>(threads: nat): State<K, V, R, E> {
    State({}, None, Store(map[], [], []), seq(threads, _ => Idle))
  }

  function Move<K, V, R, E>(s: State<K, V, R, E>, t: nat, to: Thread<K, V, R, E>): State<K, V, R, E>
    requires t < |s.threads|
  {
    s.(threads := s.threads[t := to])
  }

  /** What building directly, with no cache, would return. */
  function Direct<K, V, R, E>(c: Config<K, V, E>, call: Call<K, V, R>): Result<R, E> {
    View(c.build(call.key), call.view)
  }

  /** One step of thread `t`, or `None` while it waits for the lock or has nothing to do. */
  function Advance<K(==), V, R, E>(c: Config<K, V, E>, s: State<K, V, R, E>, t: nat): Option<State<K, V, R, E>>
    requires t < |s.threads|
  {
    match s.threads[t]
    case Idle => None
    case Done(_, _) => None
    case Started(call) =>
      if c.cap == 0 then Some(Move(s, t, Done(call, Direct(c, call))))
      else if s.writer.Some? then None
      else Some(Move(s.(readers := s.readers + {t}), t, Reading(call)))
    case Reading(call) =>
      var unlocked := s.(readers := s.readers - {t});
      if call.key in s.store.entries then Some(Move(unlocked, t, Done(call, Ok(call.view(s.store.entries[call.key])))))
      else Some(Move(unlocked, t, Building(call)))
    case Building(call) =>
      var built := c.build(call.key);
      if built.Err? then Some(Move(s, t, Done(call, Err(built.error))))
      else Some(Move(s, t, Built(call, built.value)))
    case Built(call, value) =>
      if s.writer.Some? || s.readers != {} then None
      else Some(Move(s.(writer := Some(t)), t, Rechecking(call, value)))
    case Rechecking(call, value) =>
      if call.key in s.store.entries then
        var seen := if call.cloning then s.store.entries[call.key] else value;
        Some(Move(s.(writer := None), t, Done(call, Ok(call.view(seen)))))
      else Some(Move(s, t, Inserting(call, value)))
    case Inserting(call, value) =>
      Some(Move(s.(store := s.store.(entries := s.store.entries[call.key := value])), t, Pushing(call, value)))
    case Pushing(call, value) =>
      Some(Move(s.(store := s.store.(queue := s.store.queue + [call.key], log := s.store.log + [call.key])), t, Evicting(call, value)))
    case Evicting(call, value) =>
      if |s.store.entries| > c.cap && s.store.queue != [] then
        Some(Move(s.(store := s.store.(queue := s.store.queue[1..])), t, Removing(call, value, s.store.queue[0])))
      else Some(Move(s.(writer := None), t, Done(call, Ok(call.view(value)))))
    case Removing(call, value, oldest) =>
      Some(Move(s.(store := s.store.(entries := s.store.entries - {oldest}), writer := None), t, Done(call, Ok(call.view(value)))))
  }

  datatype Step<K, !V, R> = Start(thread: nat, call: Call<K, V, R>) | Advancing(thread: nat)

  ghost predicate Next<K(!new), V(!new), R(!new), E(!new)>(
    c: Config<K, V, E>, s: State<K, V, R, E>, step: Step<K, V, R>, s': State<K, V, R, E>)
  {
    && step.thread < |s.threads|
    && match step
       case Start(t, call) => (s.threads[t].Idle? || s.threads[t].Done?) && s' == Move(s, t, Started(call))
       case Advancing(t) => Advance(c, s, t) == Some(s')
  }

  // ---- The invariant ----

  predicate Writing<K, V, R, E>(t: Thread<K, V, R, E>) {
    t.Rechecking? || t.Inserting? || t.Pushing? || t.Evicting? || t.Removing?
  }

  ghost predicate LockHeld<K, V, R, E>(s: State<K, V, R, E>) {
    && (forall t: nat :: t in s.readers <==> t < |s.threads| && s.threads[t].Reading?)
    && (forall t: nat :: s.writer == Some(t) <==> t < |s.threads| && Writing(s.threads[t]))
    && (s.writer.Some? ==> s.readers == {})
  }

  /** Every value a thread holds, and every result, is what building would give. */
  ghost predicate Faithful<K, V, R, E>(c: Config<K, V, E>, t: Thread<K, V, R, E>) {
    match t
    case Idle => true
    case Started(_) => true
    case Reading(_) => c.cap >= 1
    case Building(_) => c.cap >= 1
    case Done(call, result) => result == Direct(c, call)
    case _ => c.cap >= 1 && c.build(t.call.key) == Ok(t.value)
  }

  /** The queue is the window of the log and the map mirrors it. */
  ghost predicate Settled<K, V>(cap: nat, s: Store<K, V>) {
    Mirrors(s.entries, s.queue) && s.queue == Latest(s.log, cap)
  }

  /** The store, as far as the thread inside the write section has got. */
  ghost predicate StoreAt<K, V, R, E>(cap: nat, s: Store<K, V>, t: Thread<K, V, R, E>) {
    match t
    case Inserting(call, _) => Settled(cap, s) && call.key !in s.entries
    case Pushing(call, value) => PushPending(cap, s, call.key)
    case Evicting(call, value) => EvictionPending(cap, s, call.key)
    case Removing(call, value, oldest) => RemovalPending(cap, s, call.key, oldest)
    case _ => Settled(cap, s)
  }

  ghost predicate PushPending<K, V>(cap: nat, s: Store<K, V>, key: K) {
    key in s.entries && Mirrors(s.entries - {key}, s.queue) && s.queue == Latest(s.log, cap)
  }

  ghost predicate EvictionPending<K, V>(cap: nat, s: Store<K, V>, key: K) {
    && Mirrors(s.entries, s.queue)
    && s.log != [] && s.log[|s.log| - 1] == key
    && s.queue == Latest(s.log[..|s.log| - 1], cap) + [key]
  }

  ghost predicate RemovalPending<K, V>(cap: nat, s: Store<K, V>, key: K, oldest: K) {
    && oldest in s.entries && Mirrors(s.entries - {oldest}, s.queue)
    && s.queue == Latest(s.log, cap)
    && s.queue != [] && s.queue[|s.queue| - 1] == key
  }

  ghost predicate Invariant<K(!new), V(!new), R(!new), E(!new)>(c: Config<K, V, E>, s: State<K, V, R, E>) {
    && LockHeld(s)
    && (forall t :: 0 <= t < |s.threads| ==> Faithful(c, s.threads[t]))
    && EntriesFaithful(c, s.store)
    && (if s.writer.Some? then StoreAt(c.cap, s.store, s.threads[s.writer.value]) else Settled(c.cap, s.store))
  }

  ghost predicate EntriesFaithful<K(!new), V(!new), E(!new)>(c: Config<K, V, E>, s: Store<K, V>) {
    forall k :: k in s.entries ==> c.build(k) == Ok(s.entries[k])
  }

  lemma InitialInvariant<K(!new), V(!new), R(!new), E(!new)>(c: Config<K, V, E>, n: nat)
    ensures Invariant(c, Initial<K, V, R, E>(n))
  {
  }

  lemma OnlyMoverMoves<K, V, R, E>(c: Config<K, V, E>, s: State<K, V, R, E>, t: nat, s': State<K, V, R, E>)
    requires t < |s.threads| && Advance(c, s, t) == Some(s')
    ensures |s'.threads| == |s.threads|
    ensures forall u :: 0 <= u < |s.threads| && u != t ==> s'.threads[u] == s.threads[u]
    ensures !Writing(s.threads[t]) ==> s'.store == s.store
    ensures !Writing(s.threads[t]) && Writing(s'.threads[t]) ==> s'.threads[t].Rechecking?
  {
  }

  lemma SectionEdges<K, V, R, E>(c: Config<K, V, E>, s: Store<K, V>, t: Thread<K, V, R, E>)
    ensures !Writing(t) || t.Rechecking? ==> (StoreAt(c.cap, s, t) <==> Settled(c.cap, s))
    ensures Writing(t) && Faithful(c, t) ==> c.cap >= 1
  {
  }

  /** How one step of thread `t` moves the lock. */
  lemma LockMoves<K, V, R, E>(c: Config<K, V, E>, s: State<K, V, R, E>, t: nat, s': State<K, V, R, E>)
    requires LockHeld(s) && t < |s.threads| && Advance(c, s, t) == Some(s')
    ensures s'.readers == (if s'.threads[t].Reading? then s.readers + {t} else s.readers - {t})
    ensures s'.writer == (if Writing(s'.threads[t]) then Some(t) else if Writing(s.threads[t]) then None else s.writer)
    ensures s'.threads[t].Reading? ==> s.writer.None?
    ensures Writing(s'.threads[t]) && !Writing(s.threads[t]) ==> s.writer.None? && s.readers == {}
  {
    assert s.writer == Some(t) <==> Writing(s.threads[t]);
    assert t in s.readers <==> s.threads[t].Reading?;
  }

  lemma LockStep<K, V, R, E>(c: Config<K, V, E>, s: State<K, V, R, E>, t: nat, s': State<K, V, R, E>)
    requires LockHeld(s) && t < |s.threads| && Advance(c, s, t) == Some(s')
    ensures LockHeld(s')
  {
    OnlyMoverMoves(c, s, t, s');
    LockMoves(c, s, t, s');
    hide Advance, Writing;
    assert s.writer == Some(t) <==> Writing(s.threads[t]);
  }

  lemma FaithfulStep<K(!new), V(!new), R(!new), E(!new)>(c: Config<K, V, E>, s: State<K, V, R, E>, t: nat, s': State<K, V, R, E>)
    requires t < |s.threads| && Advance(c, s, t) == Some(s')
    requires Faithful(c, s.threads[t]) && EntriesFaithful(c, s.store)
    ensures Faithful(c, s'.threads[t]) && EntriesFaithful(c, s'.store)
  {
  }

  lemma PushStep<K, V>(cap: nat, s: Store<K, V>, key: K)
    requires PushPending(cap, s, key)
    ensures EvictionPending(cap, s.(queue := s.queue + [key], log := s.log + [key]), key)
  {
    var before := s.entries - {key};
    MirrorsPush(before, s.queue, key, s.entries[key]);
    assert before[key := s.entries[key]] == s.entries;
    assert (s.log + [key])[..|s.log|] == s.log;
  }

  /** Whether the new length calls for an eviction, and what it leaves. */
  lemma EvictStep<K, V>(cap: nat, s: Store<K, V>, key: K)
    requires EvictionPending(cap, s, key) && cap >= 1
    ensures |s.entries| > cap ==> s.queue != [] && RemovalPending(cap, s.(queue := s.queue[1..]), key, s.queue[0])
    ensures |s.entries| <= cap ==> Settled(cap, s)
  {
    EvictedWindow(cap, s, key);
    MirrorsCount(s.entries, s.queue);
    hide Latest, Mirrors;
    MirrorsPop(s.entries, s.queue);
  }

  /** The window after the push, before and after the oldest key leaves. */
  lemma EvictedWindow<K, V>(cap: nat, s: Store<K, V>, key: K)
    requires EvictionPending(cap, s, key) && cap >= 1
    ensures Latest(s.log, cap) == if |s.queue| > cap then s.queue[1..] else s.queue
    ensures s.queue != [] && s.queue[|s.queue| - 1] == key
  {
    var rest := s.log[..|s.log| - 1];
    assert s.log == rest + [key];
    LatestGrows(rest, key, cap);
  }

  /** Inside the write section a step does the next part of the insertion. */
  lemma StoreStep<K, V, R, E>(c: Config<K, V, E>, s: State<K, V, R, E>, t: nat, s': State<K, V, R, E>)
    requires t < |s.threads| && Writing(s.threads[t]) && Advance(c, s, t) == Some(s')
    requires StoreAt(c.cap, s.store, s.threads[t]) && c.cap >= 1
    ensures StoreAt(c.cap, s'.store, s'.threads[t])
  {
    hide Mirrors, Latest, EvictionPending;
    match s.threads[t]
    case Rechecking(call, value) =>
    case Inserting(call, value) =>
      assert s'.store.entries - {call.key} == s.store.entries;
    case Pushing(call, value) => PushStep(c.cap, s.store, call.key);
    case Evicting(call, value) => EvictStep(c.cap, s.store, call.key);
    case Removing(call, value, oldest) =>
  }

  /** Every step of every thread keeps the invariant. */
  lemma StepKeepsInvariant<K(!new), V(!new), R(!new), E(!new)>(
    c: Config<K, V, E>, s: State<K, V, R, E>, step: Step<K, V, R>, s': State<K, V, R, E>)
    requires Invariant(c, s) && Next(c, s, step, s')
    ensures Invariant(c, s')
  {
    var t := step.thread;
    if step.Advancing? {
      hide Advance, StoreAt, Settled, Faithful, EntriesFaithful;
      OnlyMoverMoves(c, s, t, s');
      LockStep(c, s, t, s');
      FaithfulStep(c, s, t, s');
      assert s.writer == Some(t) <==> Writing(s.threads[t]);
      LockMoves(c, s, t, s');
      SectionEdges(c, s.store, s.threads[t]);
      SectionEdges(c, s'.store, s'.threads[t]);
      if Writing(s.threads[t]) {
        StoreStep(c, s, t, s');
      }
    }
  }

  // ---- Runs ----

  /** A run of `n` threads from the empty cache. */
  ghost predicate IsRun<K(!new), V(!new), R(!new), E(!new)>(
    c: Config<K, V, E>, n: nat, states: seq<State<K, V, R, E>>, steps: seq<Step<K, V, R>>)
  {
    && |states| == |steps| + 1
    && states[0] == Initial(n)
    && forall i :: 0 <= i < |steps| ==> Next(c, states[i], steps[i], states[i + 1])
  }

  lemma {:induction false} RunInvariant<K(!new), V(!new), R(!new), E(!new)>(
    c: Config<K, V, E>, n: nat, states: seq<State<K, V, R, E>>, steps: seq<Step<K, V, R>>, i: nat)
    requires IsRun(c, n, states, steps) && i < |states|
    ensures Invariant(c, states[i])
  {
    if i == 0 {
      InitialInvariant<K, V, R, E>(c, n);
    } else {
      RunInvariant(c, n, states, steps, i - 1);
      StepKeepsInvariant(c, states[i - 1], steps[i - 1], states[i]);
    }
  }

  /**
   Whenever nobody holds the write lock, queue and map hold the same keys without duplicates, and they
   are the last min(cap, n) of the n keys ever inserted.
   */
  lemma ContentsAreLatest<K(!new), V(!new), R(!new), E(!new)>(
    c: Config<K, V, E>, n: nat, states: seq<State<K, V, R, E>>, steps: seq<Step<K, V, R>>, i: nat)
    requires IsRun(c, n, states, steps) && i < |states| && states[i].writer.None?
    ensures Distinct(states[i].store.queue) && states[i].store.entries.Keys == Elements(states[i].store.queue)
    ensures states[i].store.queue == Latest(states[i].store.log, c.cap)
  {
    RunInvariant(c, n, states, steps, i);
  }

  /** Every call that returns, in either mode and at any capacity, returns what building directly would. */
  lemma ResultsAreDirect<K(!new), V(!new), R(!new), E(!new)>(
    c: Config<K, V, E>, n: nat, states: seq<State<K, V, R, E>>, steps: seq<Step<K, V, R>>, i: nat, t: nat)
    requires IsRun(c, n, states, steps) && i < |states|
    requires t < |states[i].threads| && states[i].threads[t].Done?
    ensures states[i].threads[t].result == View(c.build(states[i].threads[t].call.key), states[i].threads[t].call.view)
  {
    RunInvariant(c, n, states, steps, i);
    assert Faithful(c, states[i].threads[t]);
  }

  /** The thread that inserts a key still finds it in the cache when it lets go of the lock. */
  lemma InsertedSurvives<K(!new), V(!new), R(!new), E(!new)>(
    c: Config<K, V, E>, n: nat, states: seq<State<K, V, R, E>>, steps: seq<Step<K, V, R>>, i: nat)
    requires IsRun(c, n, states, steps) && i < |steps| && steps[i].Advancing?
    requires steps[i].thread < |states[i].threads|
    requires var from := states[i].threads[steps[i].thread]; from.Evicting? || from.Removing?
    requires states[i + 1].threads[steps[i].thread].Done?
    ensures var call := states[i].threads[steps[i].thread].call;
            call.key in states[i + 1].store.entries && call.key in states[i + 1].store.queue
  {
    RunInvariant(c, n, states, steps, i);
    RunInvariant(c, n, states, steps, i + 1);
    var s, t := states[i], steps[i].thread;
    assert s.writer == Some(t) <==> Writing(s.threads[t]);
    var key := s.threads[t].call.key;
    assert key == states[i + 1].store.queue[|states[i + 1].store.queue| - 1];
    assert key in Elements(states[i + 1].store.queue);
  }

  /** A thread whose build fails never changes the store. */
  lemma FailedBuildChangesNothing<K(!new), V(!new), R(!new), E(!new)>(
    c: Config<K, V, E>, n: nat, states: seq<State<K, V, R, E>>, steps: seq<Step<K, V, R>>, i: nat)
    requires IsRun(c, n, states, steps) && i < |steps| && steps[i].Advancing?
    requires steps[i].thread < |states[i].threads|
    requires var from := states[i].threads[steps[i].thread]; !from.Idle? && c.build(from.call.key).Err?
    ensures var s, s' := states[i], states[i + 1]; s'.store == s.store
  {
    RunInvariant(c, n, states, steps, i);
    assert Faithful(c, states[i].threads[steps[i].thread]);
  }

  /** At capacity 0 nothing is ever stored. */
  lemma PassThrough<K(!new), V(!new), R(!new), E(!new)>(
    c: Config<K, V, E>, n: nat, states: seq<State<K, V, R, E>>, steps: seq<Step<K, V, R>>, i: nat)
    requires IsRun(c, n, states, steps) && i < |states| && c.cap == 0
    ensures states[i].store.entries == map[] && states[i].store.queue == [] && states[i].writer.None?
  {
    RunInvariant(c, n, states, steps, i);
    var s := states[i];
    forall t: nat | t < |s.threads| ensures !Writing(s.threads[t]) {
      assert Faithful(c, s.threads[t]);
    }
    assert s.store.entries.Keys == {};
  }

  /** No deadlock: while a call is unfinished, some thread can move. */
  lemma SomeoneCanMove<K(!new), V(!new), R(!new), E(!new)>(
    c: Config<K, V, E>, n: nat, states: seq<State<K, V, R, E>>, steps: seq<Step<K, V, R>>, i: nat, t: nat)
    requires IsRun(c, n, states, steps) && i < |states|
    requires t < |states[i].threads| && !states[i].threads[t].Idle? && !states[i].threads[t].Done?
    ensures exists u: nat :: u < |states[i].threads| && Advance(c, states[i], u).Some?
  {
    RunInvariant(c, n, states, steps, i);
    var s := states[i];
    if s.writer.Some? {
      assert Advance(c, s, s.writer.value).Some?;
    } else if s.readers != {} {
      var r :| r in s.readers;
      assert Advance(c, s, r).Some?;
    } else {
      assert Advance(c, s, t).Some?;
    }
  }

  /** When a call returns Ok, its key is cached at that moment, with the built value. */
  lemma OkMeansCached<K(!new), V(!new), R(!new), E(!new)>(
    c: Config<K, V, E>, n: nat, states: seq<State<K, V, R, E>>, steps: seq<Step<K, V, R>>, i: nat)
    requires IsRun(c, n, states, steps) && i < |steps| && steps[i].Advancing? && c.cap >= 1
    requires steps[i].thread < |states[i + 1].threads|
    requires var now := states[i + 1].threads[steps[i].thread]; now.Done? && now.result.Ok?
    ensures var key := states[i + 1].threads[steps[i].thread].call.key;
            key in states[i + 1].store.entries && c.build(key) == Ok(states[i + 1].store.entries[key])
  {
    RunInvariant(c, n, states, steps, i + 1);
    hide Advance, LockHeld, StoreAt, Settled;
    assert Next(c, states[i], steps[i], states[i + 1]);
    ReturnsOk(c, states[i], steps[i].thread, states[i + 1]);
    if states[i].threads[steps[i].thread].Evicting? || states[i].threads[steps[i].thread].Removing? {
      InsertedSurvives(c, n, states, steps, i);
    }
  }

  /** Where a thread can return Ok from, the cache being in use. */
  lemma ReturnsOk<K, V, R, E>(c: Config<K, V, E>, s: State<K, V, R, E>, t: nat, s': State<K, V, R, E>)
    requires t < |s.threads| && Advance(c, s, t) == Some(s') && c.cap >= 1
    requires s'.threads[t].Done? && s'.threads[t].result.Ok?
    ensures !s.threads[t].Idle? && s.threads[t].call == s'.threads[t].call
    ensures s.threads[t].Evicting? || s.threads[t].Removing? || s'.threads[t].call.key in s'.store.entries
  {
  }

  /** A thread that finds its key answers from the cache in that step; it builds only when the key was not there. */
  lemma HitsDoNotBuild<K(!new), V(!new), R(!new), E(!new)>(
    c: Config<K, V, E>, n: nat, states: seq<State<K, V, R, E>>, steps: seq<Step<K, V, R>>, i: nat)
    requires IsRun(c, n, states, steps) && i < |steps| && steps[i].Advancing?
    requires steps[i].thread < |states[i].threads| && states[i].threads[steps[i].thread].Reading?
    ensures var s, s', t := states[i], states[i + 1], steps[i].thread;
            var call := s.threads[t].call;
            && s'.store == s.store
            && s'.threads[t] == if call.key in s.store.entries then Done(call, Ok(call.view(s.store.entries[call.key])))
                                else Building(call)
  {
    assert Next(c, states[i], steps[i], states[i + 1]);
  }

  // ---- Work is bounded ----

  /** The most steps a thread can still take in its call. */
  function Remaining<K, V, R, E>(t: Thread<K, V, R, E>): nat {
    match t
    case Idle => 0
    case Done(_, _) => 0
    case Started(_) => 9
    case Reading(_) => 8
    case Building(_) => 7
    case Built(_, _) => 6
    case Rechecking(_, _) => 5
    case Inserting(_, _) => 4
    case Pushing(_, _) => 3
    case Evicting(_, _) => 2
    case Removing(_, _, _) => 1
  }

  function Work<K, V, R, E>(threads: seq<Thread<K, V, R, E>>): nat {
    if threads == [] then 0 else Remaining(threads[0]) + Work(threads[1..])
  }

  lemma {:induction false} WorkMoves<K, V, R, E>(threads: seq<Thread<K, V, R, E>>, t: nat, to: Thread<K, V, R, E>)
    requires t < |threads|
    ensures Work(threads[t := to]) == Work(threads) - Remaining(threads[t]) + Remaining(to)
  {
    hide Remaining;
    if t == 0 {
      assert threads[0 := to][1..] == threads[1..];
    } else {
      WorkMoves(threads[1..], t - 1, to);
      assert threads[t := to][1..] == threads[1..][t - 1 := to];
    }
  }

  lemma StepUsesWork<K(!new), V(!new), R(!new), E(!new)>(
    c: Config<K, V, E>, s: State<K, V, R, E>, step: Step<K, V, R>, s': State<K, V, R, E>)
    requires Next(c, s, step, s')
    ensures if step.Start? then Work(s'.threads) == Work(s.threads) + 9 else Work(s'.threads) < Work(s.threads)
  {
    hide Work;
    var t := step.thread;
    WorkMoves(s.threads, t, s'.threads[t]);
    assert s'.threads == s.threads[t := s'.threads[t]];
  }

  function StartsIn<K, V, R>(steps: seq<Step<K, V, R>>): nat {
    if steps == [] then 0 else StartsIn(steps[..|steps| - 1]) + if steps[|steps| - 1].Start? then 1 else 0
  }

  lemma {:induction false} StepsArePaid<K(!new), V(!new), R(!new), E(!new)>(
    c: Config<K, V, E>, n: nat, states: seq<State<K, V, R, E>>, steps: seq<Step<K, V, R>>, i: nat)
    requires IsRun(c, n, states, steps) && i <= |steps|
    ensures i + Work(states[i].threads) <= 10 * StartsIn(steps[..i])
  {
    hide Next, Work;
    if i == 0 {
      IdleIsNoWork<K, V, R, E>(n);
    } else {
      StepsArePaid(c, n, states, steps, i - 1);
      StepUsesWork(c, states[i - 1], steps[i - 1], states[i]);
      assert steps[..i][..i - 1] == steps[..i - 1] && steps[..i][i - 1] == steps[i - 1];
    }
  }

  lemma {:induction false} IdleIsNoWork<K, V, R, E>(n: nat)
    ensures Work<K, V, R, E>(seq(n, _ => Idle)) == 0
  {
    if n == 0 {
    } else {
      IdleIsNoWork<K, V, R, E>(n - 1);
      assert (seq<Thread<K, V, R, E>>(n, _ => Idle))[1..] == seq(n - 1, _ => Idle);
    }
  }

  /** No livelock: in every interleaving each call accounts for at most ten steps, its start included. */
  lemma RunsAreShort<K(!new), V(!new), R(!new), E(!new)>(
    c: Config<K, V, E>, n: nat, states: seq<State<K, V, R, E>>, steps: seq<Step<K, V, R>>)
    requires IsRun(c, n, states, steps)
    ensures |steps| <= 10 * StartsIn(steps)
  {
    StepsArePaid(c, n, states, steps, |steps|);
    assert steps[..|steps|] == steps;
  }
}

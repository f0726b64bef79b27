/**
 The bounded FIFO cache (crates/commons/caching/src/fifo_cache.rs) as the object a single caller
 sees. Without a second thread the re-check under the write lock never finds the key, so it appears
 only in FifoThreads.
 */
module FifoCache {
  import opened Basics
  import opened Orders

  // ---- First-in first-out contents ----

  predicate Distinct<K(==)>(s: seq<K>) {
    forall i, j :: 0 <= i < j < |s| ==> s[i] != s[j]
  }

  /** The last `n` entries of a log, or all of it. */
  function Latest<K>(log: seq<K>, n: nat): (r: seq<K>)
    ensures |r| == Min(n, |log|)
  {
    if |log| <= n then log else log[|log| - n..]
  }

  lemma {:induction false} DistinctCount<K>(s: seq<K>)
    requires Distinct(s)
    ensures |Elements(s)| == |s|
  {
    if s == [] {
    } else {
      DistinctCount(s[1..]);
      assert Elements(s) == {s[0]} + Elements(s[1..]);
      assert s[0] !in s[1..];
    }
  }

  /** Appending to the log shifts the window by one. */
  lemma LatestGrows<K>(log: seq<K>, k: K, n: nat)
    requires n >= 1
    ensures var grown := Latest(log, n) + [k];
            Latest(log + [k], n) == if |grown| > n then grown[1..] else grown
  {
  }

  /** The map has exactly the keys of the queue. */
  ghost predicate Mirrors<K, V>(m: map<K, V>, queue: seq<K>) {
    Distinct(queue) && m.Keys == Elements(queue)
  }

  lemma MirrorsCount<K, V>(m: map<K, V>, queue: seq<K>)
    requires Mirrors(m, queue)
    ensures |m| == |queue|
  {
    DistinctCount(queue);
    assert |m| == |m.Keys|;
  }

  lemma MirrorsPush<K, V>(m: map<K, V>, queue: seq<K>, k: K, v: V)
    requires Mirrors(m, queue) && k !in m
    ensures Mirrors(m[k := v], queue + [k])
  {
    assert k in Elements(queue) <==> k in queue;
    assert Elements(queue + [k]) == Elements(queue) + {k};
  }

  lemma MirrorsPop<K, V>(m: map<K, V>, queue: seq<K>)
    requires Mirrors(m, queue) && queue != []
    ensures queue[0] in m && queue[0] !in queue[1..] && Mirrors(m - {queue[0]}, queue[1..])
  {
    assert queue[0] in Elements(queue);
    assert Elements(queue) == {queue[0]} + Elements(queue[1..]);
    assert forall k :: k in Elements(queue[1..]) ==> k in queue[1..];
  }

  // ---- One caller ----

  class Cache<K(==), V> {
    const cap: nat
    var entries: map<K, V>
    var queue: seq<K>

    ghost predicate Valid()
      reads this
    {
      Mirrors(entries, queue) && |queue| <= cap
    }

    constructor (cap: nat)
      ensures Valid() && this.cap == cap && queue == []
    {
      this.cap := cap;
      entries := map[];
      queue := [];
    }

    /** The write-locked part, shared by both access modes. */
    method Insert(key: K, value: V)
      requires Valid() && cap >= 1 && key !in entries
      modifies this
      ensures Valid() && queue == Latest(old(queue) + [key], cap)
      ensures key in entries && entries[key] == value
      ensures forall k :: k in entries && k != key ==> k in old(entries) && entries[k] == old(entries)[k]
    {
      LatestGrows(queue, key, cap);
      MirrorsPush(entries, queue, key, value);
      entries := entries[key := value];
      queue := queue + [key];
      MirrorsCount(entries, queue);
      if |entries| > cap {
        MirrorsPop(entries, queue);
        var oldest := queue[0];
        queue := queue[1..];
        entries := entries - {oldest};
        assert key == queue[|queue| - 1] && key in Elements(queue);
      }
    }

    /** What a call does to the store, whatever it returns: nothing, or one insertion of the built value. */
    twostate predicate Kept<E>(key: K, new built: Result<V, E>)
      reads this
    {
      && Valid()
      && (forall k :: k in entries && k in old(entries) ==> entries[k] == old(entries)[k])
      && (cap == 0 || key in old(entries) || built.Err? ==> entries == old(entries) && queue == old(queue))
      && (cap >= 1 && key !in old(entries) && built.Ok? ==>
            && queue == Latest(old(queue) + [key], cap)
            && key in entries && entries[key] == built.value
            && forall k :: k in entries && k != key ==> k in old(entries))
    }

    /** `get_or_try_insert_with` */
    method GetOrTryInsertWith<E>(key: K, build: () -> Result<V, E>) returns (r: Result<V, E>)
      requires Valid()
      modifies this
      ensures Kept(key, build())
      ensures r == if cap >= 1 && key in old(entries) then Ok(old(entries)[key]) else build()
      ensures cap >= 1 && r.Ok? ==> key in entries && entries[key] == r.value
    {
      if cap == 0 {
        return build();
      }
      if key in entries {
        return Ok(entries[key]);
      }
      var value :- build();
      Insert(key, value);
      return Ok(value);
    }

    /** `with_or_try_insert_with` */
    method WithOrTryInsertWith<R, E>(key: K, build: () -> Result<V, E>, useValue: V -> R) returns (r: Result<R, E>)
      requires Valid()
      modifies this
      ensures Kept(key, build())
      ensures cap >= 1 && key in old(entries) ==> r == Ok(useValue(old(entries)[key]))
      ensures !(cap >= 1 && key in old(entries)) ==> r == View(build(), useValue)
    {
      if cap == 0 {
        var value :- build();
        return Ok(useValue(value));
      }
      if key in entries {
        return Ok(useValue(entries[key]));
      }
      var value :- build();
      var result := useValue(value);
      Insert(key, value);
      return Ok(result);
    }
  }

  function View<V, R, E>(built: Result<V, E>, view: V -> R): Result<R, E> {
    if built.Err? then Err(built.error) else Ok(view(built.value))
  }
}

/** The cache of storage routes: a hash index and a queue in order of use. */
module RouteCache {
  import opened Options
  import opened Strings

  /** The facts of one route lookup. */
  datatype Route = Route(storageId: Option<string>, legacyKey: Option<string>, legacyState: Option<string>,
                         rowPresent: bool, nativePresent: bool)

  datatype Cached = Cached(route: Route, expiresAt: int)

  const ROUTE_CACHE_MAX := 1024
  const SECOND := 1000000
  const TTL := 10 * SECOND
  const NATIVE_TTL := 1 * SECOND

  function TtlOf(route: Route): int
  {
    if route.rowPresent then TTL else NATIVE_TTL
  }

  // ---------------------------------------------------------------- history

  /** What was done to the cache, in order. */
  datatype Op = Put(id: string, route: Route, now: int) | Get(id: string, now: int, hit: bool) | Forget(id: string)

  predicate Uses(op: Op, id: string)
  {
    op.id == id && (op.Put? || (op.Get? && op.hit))
  }

  /** The `k`-th operation is the latest put of `id`, and `id` was not forgotten since. */
  ghost predicate LatestPut(log: seq<Op>, id: string, k: int)
  {
    && 0 <= k < |log| && log[k].Put? && log[k].id == id
    && forall j :: k < j < |log| ==> !(log[j].id == id && (log[j].Put? || log[j].Forget?))
  }

  /** The last time `id` was put or hit, or -1. */
  function LastUse(log: seq<Op>, id: string): (k: int)
    ensures -1 <= k < |log|
    ensures k >= 0 ==> Uses(log[k], id)
    ensures forall j :: k < j < |log| ==> !Uses(log[j], id)
  {
    if log == [] then -1
    else if Uses(log[|log| - 1], id) then |log| - 1
    else LastUse(log[..|log| - 1], id)
  }

  /** The queue is ordered by use, the most recent first. */
  ghost predicate ByUse(log: seq<Op>, lru: seq<string>)
  {
    forall i, j :: 0 <= i < j < |lru| ==> LastUse(log, lru[i]) > LastUse(log, lru[j])
  }

  /** `v` is cached and every other cached id was used more recently. */
  ghost predicate LeastRecent(log: seq<Op>, keys: set<string>, v: string)
  {
    v in keys && forall x :: x in keys && x != v ==> LastUse(log, x) > LastUse(log, v)
  }

  /** Every cached entry is the latest put of its id, with the expiry of that put. */
  ghost predicate Faithful(log: seq<Op>, index: map<string, Cached>)
  {
    forall id :: id in index ==>
      exists k :: LatestPut(log, id, k) && index[id] == Cached(log[k].route, log[k].now + TtlOf(log[k].route))
  }

  function Without(ids: seq<string>, id: string): (r: seq<string>)
    ensures |r| <= |ids|
    ensures forall x :: x in r <==> x in ids && x != id
  {
    if ids == [] then []
    else if ids[0] == id then Without(ids[1..], id)
    else [ids[0]] + Without(ids[1..], id)
  }

  lemma {:induction false} WithoutOrder(log: seq<Op>, ids: seq<string>, id: string)
    requires ByUse(log, ids)
    ensures ByUse(log, Without(ids, id))
  {
    if ids != [] {
      WithoutOrder(log, ids[1..], id);
      var r := Without(ids[1..], id);
      forall j | 0 <= j < |r| ensures LastUse(log, ids[0]) > LastUse(log, r[j]) {
        assert r[j] in r;
        var i :| 0 <= i < |ids[1..]| && ids[1..][i] == r[j];
        assert ids[i + 1] == r[j];
      }
    }
  }

  lemma {:induction false} WithoutDistinct(ids: seq<string>, id: string)
    requires Distinct(ids)
    ensures Distinct(Without(ids, id))
    ensures |Without(ids, id)| == |ids| - if id in ids then 1 else 0
  {
    if ids != [] {
      WithoutDistinct(ids[1..], id);
      var r := Without(ids[1..], id);
      assert ids[0] !in ids[1..];
      assert ids[0] !in r;
    }
  }

  lemma ByUseAppend(log: seq<Op>, op: Op, lru: seq<string>)
    requires ByUse(log, lru) && forall i :: 0 <= i < |lru| ==> !Uses(op, lru[i])
    ensures ByUse(log + [op], lru)
  {
  }

  lemma ByUseFront(log: seq<Op>, op: Op, lru: seq<string>)
    requires ByUse(log, lru) && Uses(op, op.id) && op.id !in lru
    ensures ByUse(log + [op], [op.id] + lru)
  {
  }

  lemma FaithfulAppend(log: seq<Op>, op: Op, index: map<string, Cached>)
    requires Faithful(log, index) && (op.id in index ==> op.Get?)
    ensures Faithful(log + [op], index)
  {
    forall id | id in index
      ensures exists k ::
                LatestPut(log + [op], id, k) &&
                index[id] == Cached((log + [op])[k].route, (log + [op])[k].now + TtlOf((log + [op])[k].route))
    {
      var k :| LatestPut(log, id, k) && index[id] == Cached(log[k].route, log[k].now + TtlOf(log[k].route));
      assert (log + [op])[k] == log[k];
      assert LatestPut(log + [op], id, k);
    }
  }

  /** Index and queue hold the same ids, once each and not too many, the queue is in order
      of use, and every entry is the latest put of its id. */
  ghost predicate Coherent(index: map<string, Cached>, lru: seq<string>, log: seq<Op>)
  {
    && Distinct(lru) && (forall x :: x in lru <==> x in index) && |lru| <= ROUTE_CACHE_MAX
    && ByUse(log, lru) && Faithful(log, index)
  }

  lemma RemoveCoherent(index: map<string, Cached>, lru: seq<string>, log: seq<Op>, id: string)
    requires Coherent(index, lru, log)
    ensures Coherent(index - {id}, Without(lru, id), log)
    ensures id in index ==> |Without(lru, id)| == |lru| - 1
  {
    WithoutOrder(log, lru, id);
    WithoutDistinct(lru, id);
  }

  lemma LogCoherent(index: map<string, Cached>, lru: seq<string>, log: seq<Op>, op: Op)
    requires Coherent(index, lru, log) && op.id !in index
    ensures Coherent(index, lru, log + [op])
  {
    ByUseAppend(log, op, lru);
    FaithfulAppend(log, op, index);
  }

  lemma HitCoherent(index: map<string, Cached>, lru: seq<string>, log: seq<Op>, id: string, now: int)
    requires Coherent(index, lru, log) && id in index
    ensures Coherent(index, [id] + Without(lru, id), log + [Get(id, now, true)])
  {
    RemoveCoherent(index, lru, log, id);
    var rest := Without(lru, id);
    ByUseFront(log, Get(id, now, true), rest);
    FaithfulAppend(log, Get(id, now, true), index);
    DistinctFront(id, rest);
  }

  lemma PutFaithful(log: seq<Op>, op: Op, index: map<string, Cached>)
    requires Faithful(log, index) && op.Put? && op.id !in index
    ensures Faithful(log + [op], index[op.id := Cached(op.route, op.now + TtlOf(op.route))])
  {
    FaithfulAppend(log, op, index);
    assert LatestPut(log + [op], op.id, |log|);
  }

  lemma PutCoherent(index: map<string, Cached>, lru: seq<string>, log: seq<Op>, id: string, route: Route, now: int)
    requires Coherent(index, lru, log) && id !in index && |lru| < ROUTE_CACHE_MAX
    ensures Coherent(index[id := Cached(route, now + TtlOf(route))], [id] + lru, log + [Put(id, route, now)])
  {
    ByUseFront(log, Put(id, route, now), lru);
    PutFaithful(log, Put(id, route, now), index);
    DistinctFront(id, lru);
  }

  // ------------------------------------------------------------------ the cache

  class Cache {
    var index: map<string, Cached>
    var lru: seq<string>
    ghost var log: seq<Op>

    ghost predicate Valid()
      reads this
    {
      Coherent(index, lru, log)
    }

    /** The cache never holds more than its maximum. */
    lemma Bounded()
      requires Valid()
      ensures |index| == |lru| <= 1024
    {
      DistinctSize(lru, index.Keys);
    }

    constructor ()
      ensures Valid() && index == map[] && log == []
    {
      index, lru, log := map[], [], [];
    }

    /** route_cache_remove */
    method Remove(id: string)
      requires Valid() && id in index
      modifies this
      ensures Valid() && index == old(index) - {id} && lru == Without(old(lru), id) && log == old(log)
      ensures |lru| == |old(lru)| - 1
    {
      RemoveCoherent(index, lru, log, id);
      index := index - {id};
      lru := Without(lru, id);
    }

    /** route_cache_get: a hit is the latest put of the id, not forgotten since and
        made less than its time to live ago. */
    method Lookup(id: string, now: int) returns (route: Option<Route>)
      requires Valid()
      modifies this
      ensures Valid() && log == old(log) + [Get(id, now, route.Some?)]
      ensures route.Some? ==>
        && (exists k :: LatestPut(old(log), id, k) && old(log)[k].route == route.value &&
                        now < old(log)[k].now + (if route.value.rowPresent then 10 * SECOND else SECOND))
        && index == old(index) && lru == [id] + Without(old(lru), id)
      ensures route.None? ==>
        && index == old(index) - {id} && lru == Without(old(lru), id)
        && (id in old(index) ==> old(index)[id].expiresAt <= now)
    {
      if id in index && now >= index[id].expiresAt {
        Remove(id);
      }
      if id in index {
        route := Some(index[id].route);
        HitCoherent(index, lru, log, id, now);
        lru := Without(lru, id);
        lru := [id] + lru;
        log := log + [Get(id, now, true)];
      } else {
        route := None;
        LogCoherent(index, lru, log, Get(id, now, false));
        log := log + [Get(id, now, false)];
        assert index == old(index) - {id};
        if id !in old(index) { NotThere(old(lru), id); }
      }
    }

    /** route_cache_forget */
    method Drop(id: string)
      requires Valid()
      modifies this
      ensures Valid() && index == old(index) - {id} && lru == Without(old(lru), id) && log == old(log) + [Forget(id)]
    {
      if id in index {
        Remove(id);
      } else {
        NotThere(lru, id);
        assert index == index - {id};
      }
      LogCoherent(index, lru, log, Forget(id));
      log := log + [Forget(id)];
    }

    /** route_cache_put: the entry becomes the most recently used; a full cache first
        loses its least recently used entry. */
    method Store(id: string, route: Route, now: int) returns (ghost victim: Option<string>)
      requires Valid()
      modifies this
      ensures Valid() && log == old(log) + [Put(id, route, now)]
      ensures victim.Some? <==> id !in old(index) && |old(lru)| == 1024
      ensures victim.Some? ==>
                LeastRecent(old(log), old(index).Keys, victim.value)
      ensures index ==
              (if victim.Some? then old(index) - {victim.value} else old(index))
                [id := Cached(route, now + TtlOf(route))]
      ensures lru != [] && lru[0] == id
    {
      if id in index {
        Remove(id);
        assert |lru| < ROUTE_CACHE_MAX;
      }
      victim := Evict();
      PushFront(id, route, now);
      assert (old(index) - {id})[id := Cached(route, now + TtlOf(route))] ==
             old(index)[id := Cached(route, now + TtlOf(route))];
    }

    /** Drop the tail of a full queue. */
    method Evict() returns (ghost victim: Option<string>)
      requires Valid()
      modifies this
      ensures Valid() && log == old(log) && |lru| < ROUTE_CACHE_MAX
      ensures victim.Some? <==> |old(lru)| == ROUTE_CACHE_MAX
      ensures victim.None? ==> index == old(index) && lru == old(lru)
      ensures victim.Some? ==>
                LeastRecent(old(log), old(index).Keys, victim.value) && index == old(index) - {victim.value}
    {
      victim := None;
      DistinctSize(lru, index.Keys);
      if |index| >= ROUTE_CACHE_MAX {
        LastIsLeast(log, lru, index.Keys);
        var tail := lru[|lru| - 1];
        assert tail in lru;
        victim := Some(tail);
        Remove(tail);
      }
    }

    /** The second half: the new entry goes to the front of the queue. */
    method PushFront(id: string, route: Route, now: int)
      requires Valid() && id !in index && |lru| < ROUTE_CACHE_MAX
      modifies this
      ensures Valid() && log == old(log) + [Put(id, route, now)]
      ensures index == old(index)[id := Cached(route, now + TtlOf(route))] && lru == [id] + old(lru)
    {
      PutCoherent(index, lru, log, id, route, now);
      lru := [id] + lru;
      index := index[id := Cached(route, now + (if route.rowPresent then TTL else NATIVE_TTL))];
      log := log + [Put(id, route, now)];
    }
  }

  lemma {:induction false} NotThere(ids: seq<string>, id: string)
    requires id !in ids
    ensures Without(ids, id) == ids
  {
    if ids != [] {
      NotThere(ids[1..], id);
      assert ids == [ids[0]] + ids[1..];
    }
  }

  lemma LastIsLeast(log: seq<Op>, lru: seq<string>, keys: set<string>)
    requires ByUse(log, lru) && lru != [] && forall x :: x in lru <==> x in keys
    ensures LeastRecent(log, keys, lru[|lru| - 1])
  {
  }
}

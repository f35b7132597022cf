/**
 The throttle cache: one FIFO queue per message id, bounded in total, and the account of what became
 of every message that arrived for a cached id.
 */
module ThrottleCache {
  import opened Bytes

  const MSG_CACHE_MAX_SIZE := 2048

  // ----- The total size of a map of queues

  ghost function AnyKey<T>(cache: map<nat, seq<T>>): (k: nat)
    requires cache.Keys != {}
    ensures k in cache
  {
    var k :| k in cache.Keys;
    k
  }

  lemma SmallerMap<T>(cache: map<nat, seq<T>>, k: nat)
    requires k in cache
    ensures |cache - {k}| == |cache| - 1
  {
    assert (cache - {k}).Keys == cache.Keys - {k};
  }

  ghost function TotalSize<T>(cache: map<nat, seq<T>>): nat
    decreases |cache|
  {
    if cache.Keys == {} then 0
    else
      var k := AnyKey(cache);
      SmallerMap(cache, k);
      |cache[k]| + TotalSize(cache - {k})
  }

  lemma TotalUnfold<T>(cache: map<nat, seq<T>>)
    requires cache.Keys != {}
    ensures TotalSize(cache) == |cache[AnyKey(cache)]| + TotalSize(cache - {AnyKey(cache)})
  {
  }

  /** The order in which queues are added up does not matter. */
  lemma {:induction false} TotalWithout<T>(cache: map<nat, seq<T>>, k: nat)
    requires k in cache
    ensures TotalSize(cache) == |cache[k]| + TotalSize(cache - {k})
    decreases |cache|
  {
    hide TotalSize, AnyKey;
    var c := AnyKey(cache);
    TotalUnfold(cache);
    if c != k {
      var noC, noK := cache - {c}, cache - {k};
      SmallerMap(cache, c);
      SmallerMap(cache, k);
      TotalWithout(noC, k);
      TotalWithout(noK, c);
      assert noC - {k} == noK - {c};
    }
  }

  lemma TotalUpdate<T>(cache: map<nat, seq<T>>, k: nat, q: seq<T>)
    ensures TotalSize(cache[k := q]) == TotalSize(cache) - (if k in cache then |cache[k]| else 0) + |q|
  {
    hide TotalSize;
    TotalWithout(cache[k := q], k);
    if k in cache {
      TotalWithout(cache, k);
      assert cache[k := q] - {k} == cache - {k};
    } else {
      assert cache[k := q] - {k} == cache;
    }
  }

  /** Endpoint::cache_size */
  method CacheSize<T>(cache: map<nat, seq<T>>) returns (total: nat)
    ensures total == TotalSize(cache)
  {
    total := 0;
    var rest := cache;
    while rest.Keys != {}
      invariant total + TotalSize(rest) == TotalSize(cache)
      invariant forall k :: k in rest ==> k in cache && rest[k] == cache[k]
      decreases |rest|
    {
      var k :| k in rest.Keys;
      TotalWithout(rest, k);
      SmallerMap(rest, k);
      total := total + |rest[k]|;
      rest := rest - {k};
    }
  }

  function QueueOf<T>(cache: map<nat, seq<T>>, id: nat): seq<T>
  {
    if id in cache then cache[id] else []
  }

  // ----- The account of one id

  /**
   What became of the messages of one id: `kept` names those handed to the link or still queued, and
   `handed` is what was handed over, in the order it was, and `cleared` counts what a teardown took along.
   `since`, `from`, `dropped` and `torn` are the numbers of write attempts made, of messages offered, of
   drops counted and of teardowns before the id was followed.
   */
  datatype Track<T> = Track(arrived: seq<T>, kept: seq<nat>, handed: seq<T>, cleared: nat,
                            since: nat, from: nat, dropped: nat, torn: nat)

  /**
   First in, first out: what was handed over followed by what is queued is a subsequence of the
   arrivals, in arrival order; every missing arrival is a counted drop or was cleared.
   */
  ghost predicate Fifo<T>(t: Track<T>, queue: seq<T>, cacheDrops: nat, linkDrops: nat)
  {
    && Increasing(t.kept, |t.arrived|)
    && t.handed + queue == Pick(t.arrived, t.kept)
    && |t.arrived| + t.dropped == |t.kept| + cacheDrops + linkDrops + t.cleared
  }

  function NoTrack<T>(since: nat, from: nat, dropped: nat, torn: nat): Track<T>
  {
    Track([], [], [], 0, since, from, dropped, torn)
  }

  lemma PickMore<T>(t: Track<T>, m: T)
    requires Increasing(t.kept, |t.arrived|)
    ensures Increasing(t.kept, |t.arrived| + 1) && Increasing(t.kept + [|t.arrived|], |t.arrived| + 1)
    ensures Pick(t.arrived + [m], t.kept) == Pick(t.arrived, t.kept)
    ensures Pick(t.arrived + [m], t.kept + [|t.arrived|]) == Pick(t.arrived, t.kept) + [m]
  {
  }

  lemma FifoEnqueue<T>(t: Track<T>, queue: seq<T>, cacheDrops: nat, linkDrops: nat, m: T)
    requires Fifo(t, queue, cacheDrops, linkDrops)
    ensures Fifo(t.(arrived := t.arrived + [m], kept := t.kept + [|t.arrived|]), queue + [m], cacheDrops, linkDrops)
    ensures Fifo(t.(arrived := t.arrived + [m]), queue, cacheDrops + 1, linkDrops)
    ensures Fifo(t.(arrived := t.arrived + [m]), queue, cacheDrops, linkDrops + 1)
    ensures Fifo(t.(arrived := t.arrived + [m], cleared := t.cleared + 1), queue, cacheDrops, linkDrops)
  {
    PickMore(t, m);
    assert t.handed + (queue + [m]) == t.handed + queue + [m];
  }

  lemma FifoDequeue<T>(t: Track<T>, queue: seq<T>, cacheDrops: nat, linkDrops: nat)
    requires Fifo(t, queue, cacheDrops, linkDrops) && queue != []
    ensures Fifo(t.(handed := t.handed + [queue[0]]), queue[1..], cacheDrops, linkDrops)
  {
    assert t.handed + [queue[0]] + queue[1..] == t.handed + queue;
  }

  /** A message goes straight to the link only while nothing is queued, so it does not overtake. */
  lemma FifoDirect<T>(t: Track<T>, cacheDrops: nat, linkDrops: nat, m: T)
    requires Fifo(t, [], cacheDrops, linkDrops)
    ensures Fifo(t.(arrived := t.arrived + [m], kept := t.kept + [|t.arrived|], handed := t.handed + [m]),
                 [], cacheDrops, linkDrops)
  {
    PickMore(t, m);
    assert t.handed + [m] + [] == t.handed + [] + [m];
  }

  lemma FifoClear<T>(t: Track<T>, queue: seq<T>, cacheDrops: nat, linkDrops: nat)
    requires Fifo(t, queue, cacheDrops, linkDrops)
    ensures |t.handed| <= |t.kept|
    ensures Fifo(t.(kept := t.kept[..|t.handed|], cleared := t.cleared + |queue|), [], cacheDrops, linkDrops)
  {
    var n := |t.handed|;
    assert |t.handed + queue| == |t.kept|;
    assert Pick(t.arrived, t.kept[..n]) == Pick(t.arrived, t.kept)[..n];
    assert (t.handed + queue)[..n] == t.handed;
    assert t.handed + [] == t.handed;
  }
}

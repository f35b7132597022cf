/**
 Everything an endpoint knows about throttled message ids, as values: the throttle table, the cache of
 queues, the drop counters, and the account that ties them to the messages that came in.
 */
module Shaping {
  import opened Bytes
  import opened Routing
  import opened Throttling
  import opened ThrottleCache

  datatype Shaper = Shaper(throttle: map<nat, Throttle>, cache: map<nat, seq<Msg>>,
                           cacheDropped: nat, linkDropped: nat)

  /**
   The account. `tracks` covers the cached ids that have been throttled all along, `sends` the sends of
   every throttled id since its rate was last set, to the period asked for in `periods`, when `rated` write
   attempts had been made, and the bags the ids of dropped messages.
   */
  datatype Book = Book(tracks: map<nat, Track<Msg>>, sends: map<nat, seq<Stamp>>, periods: map<nat, nat>,
                       rated: map<nat, nat>, cacheDrops: multiset<nat>, linkDrops: multiset<nat>)

  ghost predicate Bounded(s: Shaper, b: Book)
  {
    TotalSize(s.cache) <= MSG_CACHE_MAX_SIZE && |b.cacheDrops| == s.cacheDropped && |b.linkDrops| == s.linkDropped
  }

  ghost predicate RateSound(s: Shaper, b: Book)
  {
    && b.sends.Keys == b.periods.Keys == s.throttle.Keys
    && forall id :: id in s.throttle ==>
         0 < s.throttle[id].period == b.periods[id] && Paced(s.throttle[id], b.sends[id])
  }

  ghost predicate FifoSound(s: Shaper, cacheIds: set<nat>, b: Book)
  {
    && s.cache.Keys <= cacheIds
    && forall id :: id in b.tracks ==>
         && id in s.throttle && id in cacheIds && id != NO_MSG_ID
         && Fifo(b.tracks[id], QueueOf(s.cache, id), b.cacheDrops[id], b.linkDrops[id])
  }

  /** Every queue holds messages of its own id. */
  ghost predicate Keyed(cache: map<nat, seq<Msg>>)
  {
    forall id, i :: id in cache && 0 <= i < |cache[id]| ==> cache[id][i].id == id
  }

  ghost predicate Sound(s: Shaper, cacheIds: set<nat>, b: Book)
  {
    Bounded(s, b) && RateSound(s, b) && FifoSound(s, cacheIds, b) && Keyed(s.cache)
  }

  ghost predicate NoEmptyQueue(s: Shaper)
  {
    forall id :: id in s.cache ==> s.cache[id] != []
  }

  predicate IsThrottled(s: Shaper, id: nat)
  {
    id != NO_MSG_ID && id in s.throttle
  }

  function GateOf(s: Shaper, cacheIds: set<nat>, id: nat, now: int): Gate
  {
    Gate(IsThrottled(s, id), id in s.throttle ==> IsDue(s.throttle[id], now), id in cacheIds, id in s.cache)
  }

  /**
   What an endpoint that serves a message of this id at `now` must answer. A throttled message that comes
   too early is cached if that is wanted and discarded otherwise; one that is due is cached only behind a
   queue of its id.
   */
  ghost predicate Decided(s: Shaper, cacheIds: set<nat>, id: nat, now: int, st: AcceptState)
  {
    var throttled := id != NO_MSG_ID && id in s.throttle;
    var early := throttled && now < s.throttle[id].next;
    && (st.Throttled? <==> early && id !in cacheIds)
    && (st.Cached? <==> throttled && id in cacheIds && (early || id in s.cache))
    && (st.Accepted? <==> !throttled || (!early && !(id in cacheIds && id in s.cache)))
  }

  // ----- Caching

  function Enqueue(s: Shaper, m: Msg): Shaper
  {
    s.(cache := s.cache[m.id := QueueOf(s.cache, m.id) + [m]])
  }

  /** The account after message `m` was queued, or dropped because the cache was full. */
  ghost function BookQueued(b: Book, m: Msg): Book
  {
    if m.id in b.tracks then
      var t := b.tracks[m.id];
      b.(tracks := b.tracks[m.id := t.(arrived := t.arrived + [m], kept := t.kept + [|t.arrived|])])
    else b
  }

  ghost function BookArrived(b: Book, m: Msg): Book
  {
    if m.id in b.tracks then
      var t := b.tracks[m.id];
      b.(tracks := b.tracks[m.id := t.(arrived := t.arrived + [m])])
    else b
  }

  lemma EnqueueIsSound(s: Shaper, cacheIds: set<nat>, b: Book, m: Msg)
    requires Sound(s, cacheIds, b) && m.id in cacheIds && TotalSize(s.cache) < MSG_CACHE_MAX_SIZE
    ensures Sound(Enqueue(s, m), cacheIds, BookQueued(b, m))
  {
    hide Fifo, Paced, TotalSize;
    TotalUpdate(s.cache, m.id, QueueOf(s.cache, m.id) + [m]);
    if m.id in b.tracks {
      FifoEnqueue(b.tracks[m.id], QueueOf(s.cache, m.id), b.cacheDrops[m.id], b.linkDrops[m.id], m);
    }
  }

  lemma BagOne(bag: multiset<nat>, id: nat)
    ensures |bag + multiset{id}| == |bag| + 1
    ensures forall k :: (bag + multiset{id})[k] == bag[k] + if k == id then 1 else 0
  {
  }

  lemma CacheDropIsSound(s: Shaper, cacheIds: set<nat>, b: Book, m: Msg)
    requires Sound(s, cacheIds, b)
    ensures Sound(s.(cacheDropped := s.cacheDropped + 1), cacheIds,
                  BookArrived(b, m).(cacheDrops := b.cacheDrops + multiset{m.id}))
  {
    hide Fifo, Paced, TotalSize;
    BagOne(b.cacheDrops, m.id);
    if m.id in b.tracks {
      FifoEnqueue(b.tracks[m.id], QueueOf(s.cache, m.id), b.cacheDrops[m.id], b.linkDrops[m.id], m);
    }
  }

  // ----- Sending

  function Bump(s: Shaper, id: nat, now: int): Shaper
  {
    if id in s.throttle then s.(throttle := s.throttle[id := Update(s.throttle[id], now)]) else s
  }

  ghost function BookSend(b: Book, id: nat, stamp: Stamp): Book
  {
    if id in b.sends then b.(sends := b.sends[id := b.sends[id] + [stamp]]) else b
  }

  lemma SendIsSound(s: Shaper, cacheIds: set<nat>, b: Book, id: nat, stamp: Stamp)
    requires Sound(s, cacheIds, b) && stamp.checked <= stamp.updated
    requires id in s.throttle ==> IsDue(s.throttle[id], stamp.checked)
    ensures Sound(Bump(s, id, stamp.updated), cacheIds, BookSend(b, id, stamp))
    ensures Sound(Bump(s, id, stamp.updated), cacheIds, b)
  {
    hide Fifo, Paced, TotalSize;
    if id in s.throttle {
      SendKeepsPace(s.throttle[id], b.sends[id], stamp);
      UpdateKeepsPace(s.throttle[id], b.sends[id], stamp.updated);
    }
  }

  /** Taking the front message off a queue because it was handed to the link. */
  function Pop(s: Shaper, id: nat): Shaper
    requires id in s.cache && s.cache[id] != []
  {
    s.(cache := s.cache[id := s.cache[id][1..]])
  }

  ghost function BookHanded(b: Book, id: nat, m: Msg): Book
  {
    if id in b.tracks then
      b.(tracks := b.tracks[id := b.tracks[id].(handed := b.tracks[id].handed + [m])])
    else b
  }

  lemma PopIsSound(s: Shaper, cacheIds: set<nat>, b: Book, id: nat)
    requires Sound(s, cacheIds, b) && id in s.cache && s.cache[id] != []
    ensures Sound(Pop(s, id), cacheIds, BookHanded(b, id, s.cache[id][0]))
  {
    hide Fifo, Paced, TotalSize;
    TotalUpdate(s.cache, id, s.cache[id][1..]);
    if id in b.tracks {
      FifoDequeue(b.tracks[id], s.cache[id], b.cacheDrops[id], b.linkDrops[id]);
    }
  }

  /** Erasing a drained queue. */
  lemma EraseIsSound(s: Shaper, cacheIds: set<nat>, b: Book, id: nat)
    requires Sound(s, cacheIds, b) && id in s.cache && s.cache[id] == []
    ensures Sound(s.(cache := s.cache - {id}), cacheIds, b)
  {
    hide Fifo, Paced, TotalSize;
    TotalWithout(s.cache, id);
    assert forall k :: k in b.tracks ==> QueueOf(s.cache - {id}, k) == QueueOf(s.cache, k);
  }

  // ----- The direct path

  ghost function BookDirect(b: Book, m: Msg): Book
  {
    BookHanded(BookQueued(b, m), m.id, m)
  }

  lemma DirectIsSound(s: Shaper, cacheIds: set<nat>, b: Book, m: Msg)
    requires Sound(s, cacheIds, b) && (m.id in b.tracks ==> m.id !in s.cache)
    ensures Sound(s, cacheIds, BookDirect(b, m))
  {
    hide Fifo, Paced, TotalSize;
    if m.id in b.tracks {
      FifoDirect(b.tracks[m.id], b.cacheDrops[m.id], b.linkDrops[m.id], m);
    }
  }

  lemma LinkDropIsSound(s: Shaper, cacheIds: set<nat>, b: Book, m: Msg)
    requires Sound(s, cacheIds, b)
    ensures Sound(s.(linkDropped := s.linkDropped + 1), cacheIds,
                  BookArrived(b, m).(linkDrops := b.linkDrops + multiset{m.id}))
  {
    hide Fifo, Paced, TotalSize;
    BagOne(b.linkDrops, m.id);
    if m.id in b.tracks {
      FifoEnqueue(b.tracks[m.id], QueueOf(s.cache, m.id), b.cacheDrops[m.id], b.linkDrops[m.id], m);
    }
  }

  /** The account after a message was lost with its connection. */
  ghost function BookLost(b: Book, m: Msg): Book
  {
    if m.id in b.tracks then
      var t := b.tracks[m.id];
      b.(tracks := b.tracks[m.id := t.(arrived := t.arrived + [m], cleared := t.cleared + 1)])
    else b
  }

  lemma LossIsSound(s: Shaper, cacheIds: set<nat>, b: Book, m: Msg)
    requires Sound(s, cacheIds, b)
    ensures Sound(s, cacheIds, BookLost(b, m))
  {
    hide Fifo, Paced, TotalSize;
    if m.id in b.tracks {
      FifoEnqueue(b.tracks[m.id], QueueOf(s.cache, m.id), b.cacheDrops[m.id], b.linkDrops[m.id], m);
    }
  }

  // ----- The endpoint's own record

  /**
   One call of write_msg: whether the link took the message, whether the due time was moved for it,
   whether the call returned an error or closed the endpoint, when it was made, and the due time then.
   */
  datatype Attempt = Attempt(msg: Msg, taken: bool, charged: bool, failed: bool, at: int, next: int)

  /** The due time of an id, for the record. */
  function NextOf(s: Shaper, id: nat): int
  {
    if id in s.throttle then s.throttle[id].next else 0
  }

  ghost predicate InOrder(attempts: seq<Attempt>)
  {
    forall i, j :: 0 <= i < j < |attempts| ==> attempts[i].at <= attempts[j].at
  }

  /** No attempt was made after `now`. */
  ghost predicate InPast(attempts: seq<Attempt>, now: int)
  {
    forall i :: 0 <= i < |attempts| ==> attempts[i].at <= now
  }

  /** The messages of one id. */
  ghost function OfId(ms: seq<Msg>, id: nat): (r: seq<Msg>)
  {
    if ms == [] then []
    else OfId(ms[..|ms| - 1], id) + if ms[|ms| - 1].id == id then [ms[|ms| - 1]] else []
  }

  /** The messages of one id that the link took, in order. */
  ghost function Taken(attempts: seq<Attempt>, id: nat): (r: seq<Msg>)
  {
    if attempts == [] then []
    else
      var last := attempts[|attempts| - 1];
      Taken(attempts[..|attempts| - 1], id) + if last.taken && last.msg.id == id then [last.msg] else []
  }

  /** When the link took those of them for which the due time was moved. */
  ghost function SentAt(attempts: seq<Attempt>, id: nat): (r: seq<int>)
  {
    if attempts == [] then []
    else
      var last := attempts[|attempts| - 1];
      SentAt(attempts[..|attempts| - 1], id) + if last.taken && last.charged && last.msg.id == id then [last.at] else []
  }

  /** How many of them the due time was not moved for. */
  ghost function Uncharged(attempts: seq<Attempt>, id: nat): nat
  {
    if attempts == [] then 0
    else
      var last := attempts[|attempts| - 1];
      Uncharged(attempts[..|attempts| - 1], id) + if last.taken && !last.charged && last.msg.id == id then 1 else 0
  }

  lemma {:induction false} TakenSplits(attempts: seq<Attempt>, id: nat)
    ensures |Taken(attempts, id)| == |SentAt(attempts, id)| + Uncharged(attempts, id)
  {
    if attempts != [] {
      TakenSplits(attempts[..|attempts| - 1], id);
    }
  }

  lemma SentAtOne(attempts: seq<Attempt>, a: Attempt, id: nat)
    ensures SentAt(attempts + [a], id)
            == SentAt(attempts, id) + if a.taken && a.charged && a.msg.id == id then [a.at] else []
    ensures SentAt([], id) == []
  {
    assert (attempts + [a])[..|attempts|] == attempts;
  }

  lemma {:induction false} SentAtAppend(a: seq<Attempt>, b: seq<Attempt>, id: nat)
    ensures SentAt(a + b, id) == SentAt(a, id) + SentAt(b, id)
  {
    hide SentAt;
    if b == [] {
      assert a + b == a;
      SentAtOne(a, Attempt(Msg(0, 0, 0, 0, 0, []), false, false, false, 0, 0), id);
    } else {
      var n := |b| - 1;
      var last := b[n];
      SentAtAppend(a, b[..n], id);
      assert b == b[..n] + [last] && a + b == (a + b[..n]) + [last];
      SentAtOne(a + b[..n], last, id);
      SentAtOne(b[..n], last, id);
    }
  }

  /** The send times of a stretch of the record lie where the stretch does. */
  lemma {:induction false} SentWithin(attempts: seq<Attempt>, id: nat, lo: int, hi: int)
    requires forall a :: a in attempts ==> lo <= a.at <= hi
    ensures forall i :: 0 <= i < |SentAt(attempts, id)| ==> lo <= SentAt(attempts, id)[i] <= hi
  {
    if attempts != [] {
      assert attempts[|attempts| - 1] in attempts;
      SentWithin(attempts[..|attempts| - 1], id, lo, hi);
    }
  }

  /** Each send happened between the two clock readings of its stamp. */
  ghost predicate Brackets(stamps: seq<Stamp>, times: seq<int>)
  {
    && |stamps| == |times|
    && forall i :: 0 <= i < |stamps| ==> stamps[i].checked <= times[i] <= stamps[i].updated
  }

  lemma TimesAreBounded(t: Throttle, stamps: seq<Stamp>, before: seq<int>, times: seq<int>, after: seq<int>,
                        start: int, w: nat)
    requires Paced(t, stamps) && 0 < t.period && Brackets(stamps, before + (times + after))
    requires forall i :: 0 <= i < |times| ==> start <= times[i] <= start + w
    ensures |times| <= MostSends(t.period, w)
  {
    hide Paced;
    if |times| >= 2 {
      var i, n := |before|, |times|;
      var all := before + (times + after);
      assert all[i] == times[0] && all[i + n - 1] == times[n - 1];
      WindowBound(t, stamps, i, n, times[0], times[n - 1], w);
    }
  }

  /**
   Of a stretch of the record within a time `w`, the link took at most w / period + 3 of one id, and
   beyond that those for which the due time was not moved.
   */
  lemma StretchIsBounded(t: Throttle, stamps: seq<Stamp>, all: seq<Attempt>, id: nat, lo: nat, hi: nat,
                         start: int, w: nat)
    requires Paced(t, stamps) && 0 < t.period && Brackets(stamps, SentAt(all, id)) && lo <= hi <= |all|
    requires forall a :: a in all[lo..hi] ==> start <= a.at <= start + w
    ensures |Taken(all[lo..hi], id)| <= MostSends(t.period, w) + Uncharged(all[lo..hi], id)
  {
    hide Paced, SentAt, Taken, Uncharged, Brackets, MostSends;
    var part := all[lo..hi];
    assert all == all[..lo] + (part + all[hi..]);
    SentAtAppend(all[..lo], part + all[hi..], id);
    SentAtAppend(part, all[hi..], id);
    SentWithin(part, id, start, start + w);
    TimesAreBounded(t, stamps, SentAt(all[..lo], id), SentAt(part, id), SentAt(all[hi..], id), start, w);
    TakenSplits(part, id);
  }

  /** What the account calls handed over is what the link took. */
  ghost predicate HandsOver(attempts: seq<Attempt>, b: Book)
  {
    forall id :: id in b.tracks ==>
      b.tracks[id].since <= |attempts| && b.tracks[id].handed == Taken(attempts[b.tracks[id].since..], id)
  }

  /** What the account calls arrived is what was offered. */
  ghost predicate Arrives(offered: seq<Msg>, b: Book)
  {
    forall id :: id in b.tracks ==>
      b.tracks[id].from <= |offered| && b.tracks[id].arrived == OfId(offered[b.tracks[id].from..], id)
  }

  /** What the account calls sends is what the link took since the rate was set. */
  ghost predicate Rated(attempts: seq<Attempt>, b: Book)
  {
    forall id :: id in b.sends && id != NO_MSG_ID ==>
      && id in b.rated && b.rated[id] <= |attempts|
      && Brackets(b.sends[id], SentAt(attempts[b.rated[id]..], id))
  }

  ghost predicate Faithful(attempts: seq<Attempt>, offered: seq<Msg>, b: Book)
  {
    HandsOver(attempts, b) && Arrives(offered, b) && Rated(attempts, b)
  }

  lemma RecordOne(attempts: seq<Attempt>, a: Attempt, since: nat, id: nat)
    requires since <= |attempts|
    ensures Taken((attempts + [a])[since..], id)
            == Taken(attempts[since..], id) + if a.taken && a.msg.id == id then [a.msg] else []
    ensures SentAt((attempts + [a])[since..], id)
            == SentAt(attempts[since..], id) + if a.taken && a.charged && a.msg.id == id then [a.at] else []
  {
    var tail := attempts[since..];
    assert (attempts + [a])[since..] == tail + [a];
    assert (tail + [a])[..|tail|] == tail;
  }

  lemma OfferOne(offered: seq<Msg>, m: Msg, from: nat, id: nat)
    requires from <= |offered|
    ensures OfId((offered + [m])[from..], id) == OfId(offered[from..], id) + if m.id == id then [m] else []
  {
    var tail := offered[from..];
    assert (offered + [m])[from..] == tail + [m];
    assert (tail + [m])[..|tail|] == tail;
  }

  /** The two accounts follow the same ids since the same time. */
  ghost predicate SameFollowed(b: Book, c: Book)
  {
    && b.tracks.Keys == c.tracks.Keys && b.rated == c.rated && b.periods == c.periods
    && forall id :: id in b.tracks ==>
         && b.tracks[id].since == c.tracks[id].since && b.tracks[id].from == c.tracks[id].from
         && b.tracks[id].dropped == c.tracks[id].dropped && b.tracks[id].torn == c.tracks[id].torn
  }

  /** Nothing more was cleared. */
  ghost predicate SameCleared(b: Book, c: Book)
  {
    b.tracks.Keys == c.tracks.Keys && forall id :: id in b.tracks ==> b.tracks[id].cleared == c.tracks[id].cleared
  }

  /** Only a teardown since an id was followed can have cleared anything of it. */
  ghost predicate Torn(b: Book, teardowns: nat)
  {
    forall id :: id in b.tracks ==>
      b.tracks[id].torn <= teardowns && (b.tracks[id].cleared > 0 ==> b.tracks[id].torn < teardowns)
  }

  lemma StaysTorn(b: Book, c: Book, teardowns: nat)
    requires Torn(b, teardowns) && SameFollowed(b, c)
    ensures SameCleared(b, c) ==> Torn(c, teardowns)
    ensures Torn(c, teardowns + 1)
  {
  }

  lemma ClearedSelf(b: Book)
    ensures SameCleared(b, b)
  {
  }

  lemma ClearedOn(a: Book, b: Book, c: Book)
    requires SameCleared(a, b) && SameCleared(b, c)
    ensures SameCleared(a, c)
  {
  }

  /** They also agree on what was handed over and sent. */
  ghost predicate SameSent(b: Book, c: Book)
  {
    && SameFollowed(b, c)
    && (forall id :: id in b.tracks ==> b.tracks[id].handed == c.tracks[id].handed)
    && (forall id :: id != NO_MSG_ID ==> (id in b.sends <==> id in c.sends))
    && (forall id :: id in b.sends && id != NO_MSG_ID ==> b.sends[id] == c.sends[id])
  }

  ghost predicate SameArrived(b: Book, c: Book)
    requires b.tracks.Keys == c.tracks.Keys
  {
    forall id :: id in b.tracks ==> c.tracks[id].arrived == b.tracks[id].arrived
  }

  /** Only `c` knows of the arrival of `m`. */
  ghost predicate OneArrived(b: Book, c: Book, m: Msg)
    requires b.tracks.Keys == c.tracks.Keys
  {
    forall id :: id in b.tracks ==>
      c.tracks[id].arrived == b.tracks[id].arrived + if m.id == id then [m] else []
  }

  lemma StaysFaithful(attempts: seq<Attempt>, offered: seq<Msg>, b: Book, c: Book)
    requires Faithful(attempts, offered, b) && SameSent(b, c) && SameArrived(b, c)
    ensures Faithful(attempts, offered, c)
  {
    hide Taken, SentAt, OfId, Brackets;
  }

  /** A message offered must be entered as arrived. */
  lemma ArrivalIsFaithful(attempts: seq<Attempt>, offered: seq<Msg>, b: Book, c: Book, m: Msg)
    requires Faithful(attempts, offered, b) && SameSent(b, c) && OneArrived(b, c, m)
    ensures Faithful(attempts, offered + [m], c)
  {
    hide Taken, SentAt, OfId, Brackets;
    forall id | id in c.tracks
      ensures c.tracks[id].from <= |offered|
      ensures c.tracks[id].arrived == OfId((offered + [m])[c.tracks[id].from..], id)
    {
      OfferOne(offered, m, b.tracks[id].from, id);
    }
  }

  lemma AttemptHandsOver(attempts: seq<Attempt>, b: Book, a: Attempt)
    requires HandsOver(attempts, b)
    ensures !a.taken ==> HandsOver(attempts + [a], b)
    ensures a.taken ==> HandsOver(attempts + [a], BookHanded(b, a.msg.id, a.msg))
  {
    hide Taken, SentAt;
    forall id | id in b.tracks
      ensures Taken((attempts + [a])[b.tracks[id].since..], id)
              == b.tracks[id].handed + if a.taken && a.msg.id == id then [a.msg] else []
    {
      RecordOne(attempts, a, b.tracks[id].since, id);
    }
  }

  lemma BracketsMore(stamps: seq<Stamp>, times: seq<int>, stamp: Stamp, time: int)
    requires Brackets(stamps, times) && stamp.checked <= time <= stamp.updated
    ensures Brackets(stamps + [stamp], times + [time])
  {
  }

  lemma AttemptIsRated(attempts: seq<Attempt>, b: Book, a: Attempt, stamp: Stamp)
    requires Rated(attempts, b) && stamp.checked <= a.at <= stamp.updated
    ensures !(a.taken && a.charged) ==> Rated(attempts + [a], b)
    ensures a.taken && a.charged ==> Rated(attempts + [a], BookSend(b, a.msg.id, stamp))
  {
    hide Taken, SentAt, Brackets;
    forall id | id in b.sends && id != NO_MSG_ID
      ensures id in b.rated && b.rated[id] <= |attempts|
      ensures !(a.taken && a.charged && a.msg.id == id) ==>
                Brackets(b.sends[id], SentAt((attempts + [a])[b.rated[id]..], id))
      ensures a.taken && a.charged && a.msg.id == id ==>
                Brackets(b.sends[id] + [stamp], SentAt((attempts + [a])[b.rated[id]..], id))
    {
      RecordOne(attempts, a, b.rated[id], id);
      BracketsMore(b.sends[id], SentAt(attempts[b.rated[id]..], id), stamp, a.at);
      assert SentAt(attempts[b.rated[id]..], id) + [] == SentAt(attempts[b.rated[id]..], id);
    }
  }

  /**
   An attempt the link did not take changes nothing; one it took is a message handed over and, if the
   due time was moved for it, a send.
   */
  lemma AttemptIsFaithful(attempts: seq<Attempt>, offered: seq<Msg>, b: Book, a: Attempt, stamp: Stamp)
    requires Faithful(attempts, offered, b) && stamp.checked <= a.at <= stamp.updated
    ensures !a.taken ==> Faithful(attempts + [a], offered, b)
    ensures a.taken && !a.charged ==> Faithful(attempts + [a], offered, BookHanded(b, a.msg.id, a.msg))
    ensures a.taken && a.charged ==>
              Faithful(attempts + [a], offered, BookSend(BookHanded(b, a.msg.id, a.msg), a.msg.id, stamp))
  {
    hide HandsOver, Rated, Arrives;
    AttemptHandsOver(attempts, b, a);
    AttemptIsRated(attempts, b, a, stamp);
    var c := BookHanded(b, a.msg.id, a.msg);
    if a.taken && a.charged {
      RatedSame(attempts + [a], BookSend(b, a.msg.id, stamp), BookSend(c, a.msg.id, stamp));
      HandsOverSame(attempts + [a], c, BookSend(c, a.msg.id, stamp));
      ArrivesHanded(offered, b, BookSend(c, a.msg.id, stamp));
    } else if a.taken {
      RatedSame(attempts + [a], b, c);
      ArrivesHanded(offered, b, c);
    }
  }

  lemma RatedSame(attempts: seq<Attempt>, b: Book, c: Book)
    requires Rated(attempts, b) && b.sends == c.sends && b.rated == c.rated
    ensures Rated(attempts, c)
  {
    hide SentAt, Brackets;
  }

  lemma HandsOverSame(attempts: seq<Attempt>, b: Book, c: Book)
    requires HandsOver(attempts, b) && b.tracks == c.tracks
    ensures HandsOver(attempts, c)
  {
    hide Taken;
  }

  lemma ArrivesHanded(offered: seq<Msg>, b: Book, c: Book)
    requires Arrives(offered, b) && c.tracks.Keys == b.tracks.Keys
    requires forall id :: id in b.tracks ==>
               c.tracks[id].arrived == b.tracks[id].arrived && c.tracks[id].from == b.tracks[id].from
    ensures Arrives(offered, c)
  {
    hide OfId;
  }

  // ----- Draining

  /** Every queue of `was` is what the link took in these attempts, followed by what `rest` holds. */
  ghost predicate HandedOver(was: map<nat, seq<Msg>>, attempts: seq<Attempt>, rest: map<nat, seq<Msg>>)
  {
    forall id: nat :: QueueOf(was, id) == Taken(attempts, id) + QueueOf(rest, id)
  }

  lemma TakenOne(attempts: seq<Attempt>, a: Attempt, id: nat)
    ensures Taken(attempts + [a], id) == Taken(attempts, id) + if a.taken && a.msg.id == id then [a.msg] else []
    ensures Taken([], id) == []
  {
    assert (attempts + [a])[..|attempts|] == attempts;
  }

  lemma {:induction false} TakenAppend(a: seq<Attempt>, b: seq<Attempt>, id: nat)
    ensures Taken(a + b, id) == Taken(a, id) + Taken(b, id)
  {
    hide Taken;
    TakenOne(a, Attempt(Msg(0, 0, 0, 0, 0, []), false, false, false, 0, 0), id);
    if b == [] {
      assert a + b == a;
    } else {
      var n := |b| - 1;
      var last := b[n];
      TakenAppend(a, b[..n], id);
      assert b == b[..n] + [last] && a + b == (a + b[..n]) + [last];
      TakenOne(a + b[..n], last, id);
      TakenOne(b[..n], last, id);
    }
  }

  lemma HandedNothing(was: map<nat, seq<Msg>>)
    ensures HandedOver(was, [], was)
  {
    assert forall id: nat :: Taken([], id) == [];
  }

  lemma HandedOne(was: map<nat, seq<Msg>>, a: Attempt)
    requires a.msg.id in was && was[a.msg.id] != [] && was[a.msg.id][0] == a.msg
    ensures HandedOver(was, [a], if a.taken then was[a.msg.id := was[a.msg.id][1..]] else was)
  {
    hide Taken;
    var rest := if a.taken then was[a.msg.id := was[a.msg.id][1..]] else was;
    forall id: nat
      ensures QueueOf(was, id) == Taken([a], id) + QueueOf(rest, id)
    {
      TakenOne([], a, id);
      assert [] + [a] == [a];
    }
  }

  lemma HandedMore(was: map<nat, seq<Msg>>, first: seq<Attempt>, mid: map<nat, seq<Msg>>, second: seq<Attempt>,
                   rest: map<nat, seq<Msg>>)
    requires HandedOver(was, first, mid) && HandedOver(mid, second, rest)
    ensures HandedOver(was, first + second, rest)
  {
    hide Taken, QueueOf;
    forall id: nat
      ensures QueueOf(was, id) == Taken(first + second, id) + QueueOf(rest, id)
    {
      TakenAppend(first, second, id);
      var a, b, c := Taken(first, id), Taken(second, id), QueueOf(rest, id);
      assert a + (b + c) == (a + b) + c;
    }
  }

  lemma HandedErased(was: map<nat, seq<Msg>>, attempts: seq<Attempt>, rest: map<nat, seq<Msg>>, id: nat)
    requires HandedOver(was, attempts, rest) && id in rest && rest[id] == []
    ensures HandedOver(was, attempts, rest - {id})
  {
    hide Taken;
    assert forall k :: QueueOf(rest - {id}, k) == QueueOf(rest, k);
  }

  // ----- The rate of everything the link took

  /** When the link took messages of this id, as instants. */
  ghost function Points(attempts: seq<Attempt>, id: nat): (r: seq<Stamp>)
  {
    if attempts == [] then []
    else
      var last := attempts[|attempts| - 1];
      Points(attempts[..|attempts| - 1], id)
      + if last.taken && last.msg.id == id then [Stamp(last.at, last.at)] else []
  }

  /** Everything taken without moving the due time had room against all that was taken before. */
  ghost predicate AllRoomy(period: nat, attempts: seq<Attempt>, id: nat)
  {
    attempts == []
    || (var before, last := attempts[..|attempts| - 1], attempts[|attempts| - 1];
        && AllRoomy(period, before, id)
        && (last.taken && !last.charged && last.msg.id == id ==>
              HasRoom(Throttle(period, last.next), Points(before, id), Stamp(last.at, last.at))))
  }

  ghost predicate PacedIfRoomy(t: Throttle, attempts: seq<Attempt>, id: nat)
  {
    AllRoomy(t.period, attempts, id) ==> Paced(Settled(t, Points(attempts, id)), Points(attempts, id))
  }

  /** For every throttled id, since its rate was set. */
  ghost predicate Spacious(throttle: map<nat, Throttle>, rated: map<nat, nat>, attempts: seq<Attempt>)
  {
    forall id :: id in throttle && id != NO_MSG_ID ==>
      id in rated && rated[id] <= |attempts| && PacedIfRoomy(throttle[id], attempts[rated[id]..], id)
  }

  lemma PointsOne(attempts: seq<Attempt>, a: Attempt, id: nat)
    ensures Points(attempts + [a], id)
            == Points(attempts, id) + if a.taken && a.msg.id == id then [Stamp(a.at, a.at)] else []
  {
    assert (attempts + [a])[..|attempts|] == attempts;
  }

  lemma RoomyOne(period: nat, attempts: seq<Attempt>, a: Attempt, id: nat)
    ensures AllRoomy(period, attempts + [a], id) <==>
              && AllRoomy(period, attempts, id)
              && (a.taken && !a.charged && a.msg.id == id ==>
                    HasRoom(Throttle(period, a.next), Points(attempts, id), Stamp(a.at, a.at)))
  {
    assert (attempts + [a])[..|attempts|] == attempts;
  }

  lemma {:induction false} PointsPast(attempts: seq<Attempt>, id: nat, now: int)
    requires InPast(attempts, now)
    ensures Past(Points(attempts, id), now)
  {
    if attempts != [] {
      PointsPast(attempts[..|attempts| - 1], id, now);
    }
  }

  /** One more attempt, and what it does to the due time of its id. */
  lemma AttemptKeepsRoom(t: Throttle, attempts: seq<Attempt>, a: Attempt, id: nat, updated: int)
    requires PacedIfRoomy(t, attempts, id) && InPast(attempts, a.at) && a.at <= updated
    requires a.msg.id == id ==> IsDue(t, a.at) && (!a.charged ==> a.next == t.next)
    ensures a.msg.id != id || !(a.taken && a.charged) ==> PacedIfRoomy(t, attempts + [a], id)
    ensures a.msg.id == id && a.charged ==> PacedIfRoomy(Update(t, updated), attempts + [a], id)
  {
    hide Paced, Points, AllRoomy, Settled, HasRoom, Past;
    PointsOne(attempts, a, id);
    RoomyOne(t.period, attempts, a, id);
    PointsPast(attempts, id, a.at);
    var points, s := Points(attempts, id), Stamp(a.at, a.at);
    assert points + [] == points;
    if AllRoomy(t.period, attempts + [a], id) && a.msg.id == id {
      if !a.taken {
        PastLater(points, a.at, updated);
        RefusedKeepsPace(t, points, updated);
      } else if a.charged {
        ChargedKeepsPace(t, points, s, updated);
      } else {
        RoomKeepsPace(t, points, s);
      }
    }
  }

  lemma PastLater(sends: seq<Stamp>, now: int, later: int)
    requires Past(sends, now) && now <= later
    ensures Past(sends, later)
  {
  }

  lemma AttemptIsSpacious(throttle: map<nat, Throttle>, after: map<nat, Throttle>, rated: map<nat, nat>,
                          attempts: seq<Attempt>, a: Attempt, updated: int)
    requires Spacious(throttle, rated, attempts) && InPast(attempts, a.at) && a.at <= updated
    requires after.Keys == throttle.Keys && forall k :: k in throttle && k != a.msg.id ==> after[k] == throttle[k]
    requires var id := a.msg.id;
             id in throttle && id != NO_MSG_ID ==>
               && IsDue(throttle[id], a.at)
               && (!a.charged ==> a.next == throttle[id].next)
               && (|| (after[id] == throttle[id] && !(a.taken && a.charged))
                   || (after[id] == Update(throttle[id], updated) && a.charged))
    ensures Spacious(after, rated, attempts + [a])
  {
    hide PacedIfRoomy, IsDue, Update;
    forall id | id in after && id != NO_MSG_ID
      ensures PacedIfRoomy(after[id], (attempts + [a])[rated[id]..], id)
    {
      var part := attempts[rated[id]..];
      assert (attempts + [a])[rated[id]..] == part + [a];
      AttemptKeepsRoom(throttle[id], part, a, id, updated);
    }
  }

  lemma RateIsSpacious(throttle: map<nat, Throttle>, rated: map<nat, nat>, attempts: seq<Attempt>, id: nat, t: Throttle)
    requires Spacious(throttle, rated, attempts)
    ensures Spacious(throttle[id := t], rated[id := |attempts|], attempts)
    ensures Spacious(throttle - {id}, rated - {id}, attempts)
  {
    hide AllRoomy;
    assert attempts[|attempts|..] == [];
  }

  lemma {:induction false} PointsAppend(a: seq<Attempt>, b: seq<Attempt>, id: nat)
    ensures Points(a + b, id) == Points(a, id) + Points(b, id)
  {
    hide Points;
    if b == [] {
      assert a + b == a;
      NoPoints(id);
    } else {
      var n := |b| - 1;
      var last := b[n];
      PointsAppend(a, b[..n], id);
      assert b == b[..n] + [last] && a + b == (a + b[..n]) + [last];
      PointsOne(a + b[..n], last, id);
      PointsOne(b[..n], last, id);
    }
  }

  lemma NoPoints(id: nat)
    ensures Points([], id) == []
  {
  }

  lemma {:induction false} PointsWithin(attempts: seq<Attempt>, id: nat, lo: int, hi: int)
    requires forall a :: a in attempts ==> lo <= a.at <= hi
    ensures |Points(attempts, id)| == |Taken(attempts, id)|
    ensures forall i :: 0 <= i < |Points(attempts, id)| ==>
              lo <= Points(attempts, id)[i].checked == Points(attempts, id)[i].updated <= hi
  {
    if attempts != [] {
      assert attempts[|attempts| - 1] in attempts;
      PointsWithin(attempts[..|attempts| - 1], id, lo, hi);
    }
  }

  /** If all had room, any stretch of the record within a time `w` holds at most w / period + 3 in all. */
  lemma RoomyStretchIsBounded(t: Throttle, all: seq<Attempt>, id: nat, lo: nat, hi: nat, start: int, w: nat)
    requires PacedIfRoomy(t, all, id) && AllRoomy(t.period, all, id) && 0 < t.period && lo <= hi <= |all|
    requires forall a :: a in all[lo..hi] ==> start <= a.at <= start + w
    ensures |Taken(all[lo..hi], id)| <= MostSends(t.period, w)
  {
    hide Paced, Points, Taken, AllRoomy, Settled;
    var part := all[lo..hi];
    assert all == all[..lo] + (part + all[hi..]);
    PointsAppend(all[..lo], part + all[hi..], id);
    PointsAppend(part, all[hi..], id);
    PointsWithin(part, id, start, start + w);
    var i, n, points := |Points(all[..lo], id)|, |Points(part, id)|, Points(all, id);
    if n >= 2 {
      assert points[i] == Points(part, id)[0] && points[i + n - 1] == Points(part, id)[n - 1];
      SettledPeriod(t, points);
      WindowBound(Settled(t, points), points, i, n, points[i].checked, points[i + n - 1].checked, w);
    }
  }

  lemma SettledPeriod(t: Throttle, sends: seq<Stamp>)
    ensures Settled(t, sends).period == t.period
  {
  }

  // ----- One direct write, as a whole

  /** The state after a direct write: a refusal is counted, and the due time moves in any case. */
  function AfterWrite(s: Shaper, m: Msg, refused: bool, updated: int): Shaper
  {
    var counted := if refused then s.(linkDropped := s.linkDropped + 1) else s;
    if IsThrottled(counted, m.id) then Bump(counted, m.id, updated) else counted
  }

  /**
   What a direct write does: a refusal is counted, the due time of a throttled id moves on by one period, or
   starts afresh after more than two, and nothing else changes.
   */
  lemma WriteSets(s: Shaper, m: Msg, refused: bool, updated: int)
    ensures var r := AfterWrite(s, m, refused, updated);
            && r.cache == s.cache && r.cacheDropped == s.cacheDropped
            && r.linkDropped == s.linkDropped + (if refused then 1 else 0)
            && (m.id == NO_MSG_ID ==> r.throttle == s.throttle)
            && (m.id != NO_MSG_ID ==> MovesOn(s.throttle, r.throttle, m.id, updated))
  {
    BumpMovesOn(s, m.id, updated);
  }

  ghost predicate MovesOn(was: map<nat, Throttle>, throttle: map<nat, Throttle>, id: nat, now: int)
  {
    && was.Keys == throttle.Keys
    && (forall k :: k in was && k != id ==> throttle[k] == was[k])
    && (id in was ==>
          && throttle[id].period == was[id].period
          && throttle[id].next
             == (if now > was[id].next + 2 * was[id].period then now else was[id].next) + was[id].period)
  }

  /** So it does when a cached message is resent. */
  lemma BumpMovesOn(s: Shaper, id: nat, now: int)
    ensures var r := Bump(s, id, now);
            && MovesOn(s.throttle, r.throttle, id, now) && r.cache == s.cache
            && r.cacheDropped == s.cacheDropped && r.linkDropped == s.linkDropped
  {
  }

  lemma WriteKeepsCache(s: Shaper, m: Msg, refused: bool, updated: int)
    ensures AfterWrite(s, m, refused, updated).cache == s.cache
  {
  }

  ghost function BookWrite(s: Shaper, b: Book, m: Msg, taken: bool, refused: bool, stamp: Stamp): Book
  {
    if refused then BookArrived(b, m).(linkDrops := b.linkDrops + multiset{m.id})
    else if !taken then BookLost(b, m)
    else if IsThrottled(s, m.id) then BookSend(BookDirect(b, m), m.id, stamp)
    else BookDirect(b, m)
  }

  lemma WriteIsSound(s: Shaper, cacheIds: set<nat>, b: Book, m: Msg, taken: bool, refused: bool, stamp: Stamp)
    requires Sound(s, cacheIds, b) && stamp.checked <= stamp.updated
    requires IsThrottled(s, m.id) ==> IsDue(s.throttle[m.id], stamp.checked)
    requires m.id in b.tracks ==> m.id !in s.cache
    ensures Sound(AfterWrite(s, m, refused, stamp.updated), cacheIds, BookWrite(s, b, m, taken, refused, stamp))
  {
    hide Sound, IsDue, Update, BookArrived, BookLost, BookDirect, BookSend;
    var counted := if refused then s.(linkDropped := s.linkDropped + 1) else s;
    var c := if refused then BookArrived(b, m).(linkDrops := b.linkDrops + multiset{m.id})
             else if !taken then BookLost(b, m) else BookDirect(b, m);
    LinkDropIsSound(s, cacheIds, b, m);
    LossIsSound(s, cacheIds, b, m);
    DirectIsSound(s, cacheIds, b, m);
    if IsThrottled(s, m.id) {
      SendIsSound(counted, cacheIds, c, m.id, stamp);
    }
  }

  lemma WriteIsFaithful(attempts: seq<Attempt>, offered: seq<Msg>, s: Shaper, cacheIds: set<nat>, b: Book,
                        a: Attempt, refused: bool, stamp: Stamp)
    requires Sound(s, cacheIds, b) && Faithful(attempts, offered, b)
    requires stamp.checked <= a.at <= stamp.updated && !(a.taken && refused) && a.charged
    ensures Faithful(attempts + [a], offered + [a.msg], BookWrite(s, b, a.msg, a.taken, refused, stamp))
  {
    hide Sound, Faithful, BookArrived, BookLost, BookQueued, BookHanded, BookSend, SameSent, OneArrived, SameArrived;
    var m := a.msg;
    var c := if refused then BookArrived(b, m).(linkDrops := b.linkDrops + multiset{m.id})
             else if !a.taken then BookLost(b, m) else BookQueued(b, m);
    QueuedBook(b, m);
    LostBook(b, m);
    ArrivedBook(b, m, BookArrived(b, m).cacheDrops, b.linkDrops + multiset{m.id});
    ArrivalIsFaithful(attempts, offered, b, c, m);
    AttemptIsFaithful(attempts, offered + [m], c, a, stamp);
    if a.taken && !IsThrottled(s, m.id) {
      SendsAreThrottled(s, cacheIds, b, m.id);
      UnsentBook(b, m, stamp);
      StaysFaithful(attempts + [a], offered + [m], BookSend(BookDirect(b, m), m.id, stamp), BookDirect(b, m));
    }
  }

  lemma WriteFollows(s: Shaper, b: Book, m: Msg, taken: bool, refused: bool, stamp: Stamp)
    ensures SameFollowed(b, BookWrite(s, b, m, taken, refused, stamp))
    ensures taken || refused ==> SameCleared(b, BookWrite(s, b, m, taken, refused, stamp))
  {
    hide BookQueued, BookLost, BookArrived, BookHanded, BookSend, SameFollowed, OneArrived, SameCleared;
    QueuedBook(b, m);
    LostBook(b, m);
    ArrivedBook(b, m, BookArrived(b, m).cacheDrops, b.linkDrops + multiset{m.id});
    var c, d := BookQueued(b, m), BookDirect(b, m);
    HandedFollows(c, m.id, m);
    FollowsOn(b, c, d);
    ClearedOn(b, c, d);
    SendFollows(d, m.id, stamp);
    FollowsOn(b, d, BookSend(d, m.id, stamp));
    ClearedOn(b, d, BookSend(d, m.id, stamp));
  }

  lemma HandedFollows(b: Book, id: nat, m: Msg)
    ensures SameFollowed(b, BookHanded(b, id, m)) && SameCleared(b, BookHanded(b, id, m))
  {
  }

  lemma SendFollows(b: Book, id: nat, stamp: Stamp)
    ensures SameFollowed(b, BookSend(b, id, stamp)) && SameCleared(b, BookSend(b, id, stamp))
  {
  }

  lemma FollowsSelf(b: Book)
    ensures SameFollowed(b, b)
  {
  }

  lemma FollowsOn(a: Book, b: Book, c: Book)
    requires SameFollowed(a, b) && SameFollowed(b, c)
    ensures SameFollowed(a, c)
  {
  }

  /** Every way of booking an arrival adds that arrival and nothing else that is on record. */
  lemma QueuedBook(b: Book, m: Msg)
    ensures var c := BookQueued(b, m);
            SameSent(b, c) && OneArrived(b, c, m) && SameCleared(b, c)
  {
  }

  lemma LostBook(b: Book, m: Msg)
    ensures var c := BookLost(b, m);
            SameSent(b, c) && OneArrived(b, c, m)
  {
  }

  lemma ArrivedBook(b: Book, m: Msg, cacheDrops: multiset<nat>, linkDrops: multiset<nat>)
    ensures var c := BookArrived(b, m).(cacheDrops := cacheDrops, linkDrops := linkDrops);
            SameSent(b, c) && OneArrived(b, c, m) && SameCleared(b, c)
  {
  }

  lemma UnsentBook(b: Book, m: Msg, stamp: Stamp)
    requires m.id in b.sends ==> m.id == NO_MSG_ID
    ensures var c, d := BookSend(BookDirect(b, m), m.id, stamp), BookDirect(b, m);
            SameSent(c, d) && SameArrived(c, d)
  {
  }

  lemma SendsAreThrottled(s: Shaper, cacheIds: set<nat>, b: Book, id: nat)
    requires Sound(s, cacheIds, b)
    ensures id in b.sends <==> id in s.throttle
  {
  }

  // ----- Losing the connection

  ghost function ClearTrack(t: Track<Msg>, queue: seq<Msg>): Track<Msg>
  {
    if |t.handed| <= |t.kept| then t.(kept := t.kept[..|t.handed|], cleared := t.cleared + |queue|) else t
  }

  ghost function BookCleared(s: Shaper, b: Book): Book
  {
    b.(tracks := map id | id in b.tracks :: ClearTrack(b.tracks[id], QueueOf(s.cache, id)))
  }

  lemma ClearIsSound(s: Shaper, cacheIds: set<nat>, b: Book)
    requires Sound(s, cacheIds, b)
    ensures Sound(s.(cache := map[]), cacheIds, BookCleared(s, b))
  {
    hide Fifo, Paced;
    forall id | id in b.tracks
      ensures Fifo(ClearTrack(b.tracks[id], QueueOf(s.cache, id)), [], b.cacheDrops[id], b.linkDrops[id])
    {
      FifoClear(b.tracks[id], QueueOf(s.cache, id), b.cacheDrops[id], b.linkDrops[id]);
    }
  }

  // ----- Changing the rate

  /** Endpoint::set_message_throttling with a positive rate; a new entry is due at once. */
  function SetRate(s: Shaper, id: nat, period: nat, now: int): Shaper
  {
    var next := if id in s.throttle then s.throttle[id].next else now;
    s.(throttle := s.throttle[id := Throttle(period, next)])
  }

  /** Endpoint::set_message_throttling; a period of 0 stands for rate 0 and ends the throttling. */
  function Rerated(s: Shaper, id: nat, period: nat, now: int): Shaper
  {
    if period > 0 then SetRate(s, id, period, now) else s.(throttle := s.throttle - {id})
  }

  lemma SetRateIsSound(s: Shaper, cacheIds: set<nat>, b: Book, id: nat, period: nat, now: int, since: nat)
    requires Sound(s, cacheIds, b) && 0 < period
    ensures Sound(SetRate(s, id, period, now), cacheIds, BookRated(b, id, period, since))
  {
    hide Fifo, TotalSize;
  }

  /** The account of an id starts afresh when its rate is set. */
  ghost function BookRated(b: Book, id: nat, period: nat, since: nat): Book
  {
    b.(sends := b.sends[id := []], periods := b.periods[id := period], rated := b.rated[id := since])
  }

  ghost function BookUnrated(b: Book, id: nat): Book
  {
    b.(sends := b.sends - {id}, periods := b.periods - {id}, rated := b.rated - {id}, tracks := b.tracks - {id})
  }

  /**
   A rate setting gives the id the period asked for, due from when it was due before or from now on if it
   was not throttled; a period of 0 ends the throttling; and nothing else changes.
   */
  lemma RerateSets(s: Shaper, id: nat, period: nat, now: int)
    ensures var r := Rerated(s, id, period, now);
            && r.cache == s.cache && r.cacheDropped == s.cacheDropped && r.linkDropped == s.linkDropped
            && (id in r.throttle <==> period > 0)
            && (period > 0 ==>
                  && r.throttle[id].period == period
                  && r.throttle[id].next == if id in s.throttle then s.throttle[id].next else now)
            && forall k :: k != id ==>
                 (k in r.throttle <==> k in s.throttle) && (k in s.throttle ==> r.throttle[k] == s.throttle[k])
  {
  }

  /** Endpoint::set_message_throttling with rate 0: the id is no longer throttled, nor followed. */
  lemma UnthrottleIsSound(s: Shaper, cacheIds: set<nat>, b: Book, id: nat)
    requires Sound(s, cacheIds, b)
    ensures Sound(s.(throttle := s.throttle - {id}), cacheIds, BookUnrated(b, id))
  {
    hide Fifo, Paced, TotalSize;
  }

  /** Following an id from a time when nothing of it is queued. */
  lemma TrackIsSound(s: Shaper, cacheIds: set<nat>, b: Book, id: nat, since: nat, from: nat, torn: nat)
    requires Sound(s, cacheIds, b) && id in s.throttle && id in cacheIds && id != NO_MSG_ID && id !in s.cache
    ensures Sound(s, cacheIds,
                  b.(tracks := b.tracks[id := NoTrack(since, from, b.cacheDrops[id] + b.linkDrops[id], torn)]))
  {
    hide Paced, TotalSize;
    assert Pick<Msg>([], []) == [];
  }

  // ----- Deadlines

  /** When a non-empty cache is next worth a look: an un-throttled queue drains at once. */
  datatype Deadline = Never | Overdue | At(time: int)

  function Sooner(a: Deadline, b: Deadline): Deadline
  {
    if a.Overdue? || b.Never? then a
    else if b.Overdue? || a.Never? then b
    else if a.time <= b.time then a else b
  }

  predicate NoLater(a: Deadline, b: Deadline)
  {
    a.Overdue? || b.Never? || (a.At? && b.At? && a.time <= b.time)
  }

  function DeadlineOf(s: Shaper, id: nat): Deadline
  {
    if id in s.throttle then At(s.throttle[id].next) else Overdue
  }

  /** The earliest deadline over the queues in `ids`. */
  ghost predicate IsEarliest(s: Shaper, ids: set<nat>, d: Deadline)
  {
    && (forall id :: id in ids ==> NoLater(d, DeadlineOf(s, id)))
    && (d == Never || exists id :: id in ids && d == DeadlineOf(s, id))
  }

  /** At `time` some cached queue may be sent: it is un-throttled or its due time has come. */
  ghost predicate SomeDue(s: Shaper, time: int)
  {
    exists id :: id in s.cache && (id in s.throttle ==> s.throttle[id].next <= time)
  }

  /** The deadline has come. */
  predicate HasCome(d: Deadline, time: int)
  {
    d.Overdue? || (d.At? && d.time <= time)
  }

  lemma EarliestIsDue(s: Shaper, d: Deadline, time: int)
    requires IsEarliest(s, s.cache.Keys, d)
    ensures SomeDue(s, time) <==> HasCome(d, time)
  {
    if HasCome(d, time) {
      var id :| id in s.cache && d == DeadlineOf(s, id);
    }
    if SomeDue(s, time) {
      var id :| id in s.cache && (id in s.throttle ==> s.throttle[id].next <= time);
      assert NoLater(d, DeadlineOf(s, id));
    }
  }

  /** Endpoint::next_resend_deadline: at every time, it has come exactly if some cached queue is due. */
  method NextResendDeadline(s: Shaper) returns (d: Deadline)
    ensures IsEarliest(s, s.cache.Keys, d)
    ensures forall time :: SomeDue(s, time) <==> d.Overdue? || (d.At? && d.time <= time)
    ensures d == Never <==> s.cache.Keys == {}
  {
    d := EarliestDeadline(s);
    forall time
      ensures SomeDue(s, time) <==> HasCome(d, time)
    {
      EarliestIsDue(s, d, time);
    }
  }

  /** The loop of it. */
  method EarliestDeadline(s: Shaper) returns (d: Deadline)
    ensures IsEarliest(s, s.cache.Keys, d)
    ensures d == Never <==> s.cache.Keys == {}
  {
    d := Never;
    var rest := s.cache.Keys;
    while rest != {}
      invariant rest <= s.cache.Keys
      invariant IsEarliest(s, s.cache.Keys - rest, d)
      invariant d == Never <==> s.cache.Keys - rest == {}
      decreases rest
    {
      var id :| id in rest;
      rest := rest - {id};
      if id !in s.throttle {
        d := Overdue;
        assert id in s.cache.Keys && d == DeadlineOf(s, id);
        return;
      }
      var now := DeadlineOf(s, id);
      d := Sooner(d, now);
      assert s.cache.Keys - rest == (s.cache.Keys - rest - {id}) + {id};
    }
    assert s.cache.Keys - {} == s.cache.Keys;
  }
}

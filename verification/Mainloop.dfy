/**
 The main loop's part in routing: offering a message to every endpoint, the log endpoints' messages sent
 from inside that, and the timer that drains the throttle caches.
 */
module Mainloop {
  import opened Bytes
  import opened Routing
  import opened Throttling
  import opened ThrottleCache
  import opened Shaping
  import opened Transmit
  import opened Endpoints
  import opened Groups
  import opened Timeouts
  import opened ResendTimer

  /** A message handed to an endpoint's link or put in its cache. */
  datatype Delivery = Delivery(msg: Msg, to: Endpoint, written: bool, depth: nat, origin: Option<Endpoint>)

  /**
   What must hold of every delivery: a received message never goes back to the endpoint it came in on, nor
   to a member of its group that was there at start-up, joined before the group had seen anything, or is
   older, unless its name was taken off the group's lists. A message sent from inside the routing of
   another is a log endpoint's and never reaches a log endpoint.
   */
  ghost predicate Fine(d: Delivery, cut: set<Endpoint>)
  {
    && 1 <= d.depth <= 2
    && (d.origin.Some? ==> !Shielded(d.origin.value, d.to, cut))
    && (d.depth == 2 ==> Source(d.msg) == LOG_ADDRESS && !d.to.kind.Log?)
  }

  ghost predicate AllFine(ds: seq<Delivery>, cut: set<Endpoint>)
  {
    forall d :: d in ds ==> Fine(d, cut)
  }

  lemma AllFineMore(ds: seq<Delivery>, d: Delivery, cut: set<Endpoint>)
    requires AllFine(ds, cut) && Fine(d, cut)
    ensures AllFine(ds + [d], cut)
  {
  }

  lemma StillAllFine(ds: seq<Delivery>, cut: set<Endpoint>, more: set<Endpoint>)
    requires AllFine(ds, cut) && cut <= more
    ensures AllFine(ds, more)
  {
  }

  /** All of an endpoint that routing can change, but for its validity. */
  datatype Snapshot = Snapshot(fd: int, shaper: Shaper, book: Book, offered: seq<Msg>, attempts: seq<Attempt>,
                               teardowns: nat)

  ghost function StateOf(e: Endpoint): Snapshot
    reads e`fd, e`shaper, e`book, e`offered, e`attempts, e`teardowns
  {
    Snapshot(e.fd, e.shaper, e.book, e.offered, e.attempts, e.teardowns)
  }

  /** accept_msg of an endpoint in this state, with the addresses it knows now. */
  ghost function AnswerFrom(e: Endpoint, st: Snapshot, m: Msg, now: int, sniffer: nat): AcceptState
    reads e`hasPeer, e`sysCompIds
  {
    e.AnswerWith(st.fd, e.hasPeer, e.sysCompIds, st.shaper, m, now, sniffer)
  }

  ghost predicate OpenFrom(e: Endpoint, st: Snapshot)
    reads e`hasPeer
  {
    e.OpenWith(st.fd, e.hasPeer)
  }

  /** The states of all these endpoints. */
  ghost function Snapshots(pool: set<Endpoint>): map<Endpoint, Snapshot>
    reads pool`fd, pool`shaper, pool`book, pool`offered, pool`attempts, pool`teardowns
  {
    map e | e in pool :: StateOf(e)
  }

  /** Endpoints that no delivery reached are as they were. */
  ghost predicate Spared(before: map<Endpoint, Snapshot>, after: map<Endpoint, Snapshot>, log: seq<Delivery>)
  {
    before.Keys == after.Keys && forall x :: x in before && !Reached(log, x) ==> after[x] == before[x]
  }

  lemma SparedSelf(before: map<Endpoint, Snapshot>)
    ensures Spared(before, before, [])
  {
  }

  lemma SparedOne(before: map<Endpoint, Snapshot>, after: map<Endpoint, Snapshot>, d: Delivery)
    requires before.Keys == after.Keys && forall x :: x in before && x != d.to ==> after[x] == before[x]
    ensures Spared(before, after, [d])
  {
    assert d in [d] && Reached([d], d.to);
  }

  lemma SnapshotIsState(pool: set<Endpoint>, e: Endpoint)
    requires e in pool
    ensures e in Snapshots(pool) && Snapshots(pool)[e] == StateOf(e)
  {
  }

  lemma SparedKeys(before: map<Endpoint, Snapshot>, after: map<Endpoint, Snapshot>, log: seq<Delivery>)
    requires Spared(before, after, log)
    ensures forall x :: x in before <==> x in after
  {
  }

  lemma UnreachedIsAsBefore(before: map<Endpoint, Snapshot>, after: map<Endpoint, Snapshot>, log: seq<Delivery>,
                            e: Endpoint)
    requires Spared(before, after, log) && e in before && !Reached(log, e)
    ensures e in after && after[e] == before[e]
  {
  }

  lemma NotReached(before: map<Endpoint, Snapshot>, after: map<Endpoint, Snapshot>, log: seq<Delivery>, e: Endpoint)
    requires Spared(before, after, log) && OnlyNested(log) && e in before && e.kind.Log?
    ensures e in after && after[e] == before[e]
  {
  }

  lemma SparedMore(a: map<Endpoint, Snapshot>, b: map<Endpoint, Snapshot>, c: map<Endpoint, Snapshot>,
                   log: seq<Delivery>, more: seq<Delivery>)
    requires Spared(a, b, log) && Spared(b, c, more)
    ensures Spared(a, c, log + more)
  {
    hide Reached;
    ReachedMore(log, more);
  }

  lemma AnswerNow(e: Endpoint, m: Msg, now: int, sniffer: nat)
    requires WellFormed(m)
    ensures AnswersFrom(e, StateOf(e), m, now, sniffer, e.AcceptMsg(m, now, sniffer))
  {
    hide Decided, Endpoint.WouldRoute, Endpoint.OpenWith, Endpoint.AnswerWith;
    e.AnswerDecides(e.fd, e.hasPeer, e.sysCompIds, e.shaper, m, now, sniffer);
    e.AcceptIsRouting(m, now, sniffer);
  }

  // ----- Logs of deliveries

  ghost predicate Reached(log: seq<Delivery>, x: Endpoint)
  {
    exists d :: d in log && d.to == x
  }

  /** The endpoint got a message sent from inside the routing at this depth. */
  ghost predicate Nested(log: seq<Delivery>, x: Endpoint, depth: nat)
  {
    exists d :: d in log && d.to == x && d.depth == depth + 1
  }

  /** Deliveries at this depth go to these endpoints only; all others are one deeper. */
  ghost predicate Spans(log: seq<Delivery>, depth: nat, to: seq<Endpoint>)
  {
    forall d :: d in log ==> d.depth == depth + 1 || (d.depth == depth && d.to in to)
  }

  /** Only nested deliveries, none of them to a log endpoint. */
  ghost predicate OnlyNested(log: seq<Delivery>)
  {
    forall d :: d in log ==> d.depth == 2 && !d.to.kind.Log?
  }

  /** All at this depth, none to a log endpoint. */
  ghost predicate NoLogs(log: seq<Delivery>, depth: nat)
  {
    forall d :: d in log ==> d.depth == depth && !d.to.kind.Log?
  }

  lemma NoLogsMore(a: seq<Delivery>, b: seq<Delivery>, depth: nat)
    ensures NoLogs([], depth)
    ensures NoLogs(a, depth) && NoLogs(b, depth) ==> NoLogs(a + b, depth)
  {
  }

  predicate AllRejected(states: seq<AcceptState>)
  {
    forall i :: 0 <= i < |states| ==> states[i].Rejected?
  }

  lemma RejectedMore(states: seq<AcceptState>, st: AcceptState)
    ensures AllRejected([])
    ensures AllRejected(states + [st]) <==> AllRejected(states) && st.Rejected?
  {
    assert (states + [st])[..|states|] == states && (states + [st])[|states|] == st;
    if AllRejected(states + [st]) {
      assert forall i :: 0 <= i < |states| ==> states[i] == (states + [st])[i];
    }
  }

  ghost function AtDepth(log: seq<Delivery>, depth: nat): (r: seq<Delivery>)
  {
    if log == [] then []
    else AtDepth(log[..|log| - 1], depth) + if log[|log| - 1].depth == depth then [log[|log| - 1]] else []
  }

  /** What offering `m` to `e` must lead to, given its answer. */
  ghost function Own(m: Msg, e: Endpoint, st: AcceptState, depth: nat, origin: Option<Endpoint>): seq<Delivery>
  {
    if st.Accepted? || st.Cached? then [Delivery(m, e, st.Accepted?, depth, origin)] else []
  }

  ghost function Expected(to: seq<Endpoint>, states: seq<AcceptState>, m: Msg, depth: nat, origin: Option<Endpoint>)
    : (r: seq<Delivery>)
    requires |to| == |states|
  {
    if to == [] then []
    else
      var n := |to| - 1;
      Expected(to[..n], states[..n], m, depth, origin) + Own(m, to[n], states[n], depth, origin)
  }

  lemma {:induction false} AtDepthAppend(a: seq<Delivery>, b: seq<Delivery>, depth: nat)
    ensures AtDepth(a + b, depth) == AtDepth(a, depth) + AtDepth(b, depth)
  {
    if b == [] {
      assert a + b == a;
    } else {
      var n := |b| - 1;
      AtDepthAppend(a, b[..n], depth);
      assert (a + b)[..|a| + n] == a + b[..n];
    }
  }

  lemma {:induction false} NestedNotAtDepth(log: seq<Delivery>, depth: nat)
    requires OnlyNested(log) && depth != 2
    ensures AtDepth(log, depth) == []
  {
    if log != [] {
      NestedNotAtDepth(log[..|log| - 1], depth);
    }
  }

  lemma OneAtDepth(d: Delivery)
    ensures AtDepth([d], d.depth) == [d]
  {
    assert [d][..0] == [];
  }

  lemma NoDelivery(depth: nat, e: Endpoint)
    ensures AtDepth([], depth) == [] && Spans([], depth, [e]) && NoLogs([], depth) && forall x :: !Reached([], x)
  {
  }

  lemma OneDelivery(d: Delivery)
    ensures AtDepth([d], d.depth) == [d] && Spans([d], d.depth, [d.to])
    ensures Reached([d], d.to) && (!d.to.kind.Log? ==> NoLogs([d], d.depth))
  {
    assert [d][..0] == [] && d in [d];
  }

  lemma ExpectedMore(to: seq<Endpoint>, states: seq<AcceptState>, m: Msg, depth: nat, origin: Option<Endpoint>,
                     e: Endpoint, st: AcceptState)
    requires |to| == |states|
    ensures Expected(to + [e], states + [st], m, depth, origin)
            == Expected(to, states, m, depth, origin) + Own(m, e, st, depth, origin)
  {
    assert (to + [e])[..|to|] == to && (states + [st])[..|to|] == states;
  }

  /**
   What routing `m` past the endpoints `to` must have done, from the states `before`: the deliveries at its
   depth are exactly those accepted or cached, in order; whoever is served would be routed to; and an
   endpoint that no nested message reached gave the answer it would have given at the start, so that it was
   served exactly if the rules select it and its link was up, and then accepted, cached or discarded the message
   as its throttle table and cache say.
   */
  ghost predicate RoutedPast(m: Msg, depth: nat, origin: Option<Endpoint>, sniffer: nat, start: int,
                         before: map<Endpoint, Snapshot>, to: seq<Endpoint>, states: seq<AcceptState>,
                         checked: seq<int>, log: seq<Delivery>)
    reads to`hasPeer, to`sysCompIds
  {
    && |states| == |checked| == |to|
    && AtDepth(log, depth) == Expected(to, states, m, depth, origin) && Spans(log, depth, to)
    && (Source(m) == LOG_ADDRESS ==> NoLogs(log, depth))
    && forall i :: 0 <= i < |to| ==>
         && to[i] in before && start <= checked[i]
         && (Served(states[i]) ==> to[i].WouldRoute(m, sniffer))
         && (Nested(log, to[i], depth)
             || AnswersFrom(to[i], before[to[i]], m, checked[i], sniffer, states[i]))
  }

  ghost predicate AnswersFrom(e: Endpoint, st: Snapshot, m: Msg, now: int, sniffer: nat, answer: AcceptState)
    reads e`hasPeer, e`sysCompIds
  {
    && answer == AnswerFrom(e, st, m, now, sniffer)
    && (Served(answer) <==> e.WouldRoute(m, sniffer) && OpenFrom(e, st))
    && (Served(answer) ==> Decided(st.shaper, e.cacheIds, m.id, now, answer))
  }

  lemma RoutedPastNone(m: Msg, depth: nat, origin: Option<Endpoint>, sniffer: nat, start: int,
                      before: map<Endpoint, Snapshot>)
    ensures RoutedPast(m, depth, origin, sniffer, start, before, [], [], [], [])
    ensures forall x :: !Reached([], x)
  {
  }

  lemma RoutedPastMore(m: Msg, depth: nat, origin: Option<Endpoint>, sniffer: nat, start: int,
                   before: map<Endpoint, Snapshot>, to: seq<Endpoint>, states: seq<AcceptState>, checked: seq<int>,
                   log: seq<Delivery>, e: Endpoint, st: AcceptState, at: int, more: seq<Delivery>)
    requires RoutedPast(m, depth, origin, sniffer, start, before, to, states, checked, log)
    requires e in before && start <= at && (Served(st) ==> e.WouldRoute(m, sniffer))
    requires AtDepth(more, depth) == Own(m, e, st, depth, origin) && Spans(more, depth, [e])
    requires Source(m) == LOG_ADDRESS ==> NoLogs(more, depth)
    requires Nested(log, e, depth) || AnswersFrom(e, before[e], m, at, sniffer, st)
    ensures RoutedPast(m, depth, origin, sniffer, start, before, to + [e], states + [st], checked + [at], log + more)
  {
    hide AtDepth, Expected, Own, Spans, Nested, NoLogs, AnswersFrom, Served, Endpoint.WouldRoute;
    ReachedMore(log, more);
    AtDepthAppend(log, more, depth);
    ExpectedMore(to, states, m, depth, origin, e, st);
    SpansMore(log, more, depth, to, e);
    NoLogsMore(log, more, depth);
  }

  lemma RoutedPastSpans(m: Msg, depth: nat, origin: Option<Endpoint>, sniffer: nat, start: int,
                    before: map<Endpoint, Snapshot>, to: seq<Endpoint>, states: seq<AcceptState>, checked: seq<int>,
                    log: seq<Delivery>)
    requires RoutedPast(m, depth, origin, sniffer, start, before, to, states, checked, log)
    ensures Spans(log, depth, to) && (Source(m) == LOG_ADDRESS ==> NoLogs(log, depth))
  {
    hide AtDepth, Expected, Spans, Nested, NoLogs, AnswersFrom, Served, Endpoint.WouldRoute;
  }

  lemma SpansMore(a: seq<Delivery>, b: seq<Delivery>, depth: nat, to: seq<Endpoint>, e: Endpoint)
    requires Spans(a, depth, to) && Spans(b, depth, [e])
    ensures Spans(a + b, depth, to + [e])
  {
  }

  /** An endpoint that no delivery so far was meant for was reached only from inside. */
  lemma ReachedFromInside(log: seq<Delivery>, depth: nat, to: seq<Endpoint>, e: Endpoint)
    requires Spans(log, depth, to) && e !in to && Reached(log, e)
    ensures Nested(log, e, depth)
  {
  }

  lemma ReachedMore(a: seq<Delivery>, b: seq<Delivery>)
    ensures forall x :: Reached(a + b, x) <==> Reached(a, x) || Reached(b, x)
    ensures forall x, depth: nat :: Nested(a, x, depth) ==> Nested(a + b, x, depth)
  {
    forall x | Reached(a, x) || Reached(b, x)
      ensures Reached(a + b, x)
    {
      if Reached(a, x) {
        var d :| d in a && d.to == x;
        assert d in a + b;
      } else {
        var d :| d in b && d.to == x;
        assert d in a + b;
      }
    }
    forall x, depth: nat | Nested(a, x, depth)
      ensures Nested(a + b, x, depth)
    {
      var d :| d in a && d.to == x && d.depth == depth + 1;
      assert d in a + b;
    }
  }

  /** Messages of the log endpoints rank below all others: routing them cannot lead to more of them. */
  function Rank(m: Msg): nat
  {
    if Source(m) == LOG_ADDRESS then 0 else 1
  }

  /** An endpoint nothing has happened to yet. */
  ghost predicate IsFresh(e: Endpoint)
    reads e`shaper, e`book, e`offered, e`attempts, e`teardowns, e`sysCompIds, e`seen
  {
    && e.Valid() && e.shaper.cache == map[] && e.attempts == []
    && e.sysCompIds == (if e.kind.Log? then [LOG_ADDRESS] else [])
    && e.seen == (if e.kind.Log? then {LOG_ADDRESS} else {})
    && (e.kind.Log? ==> e.groupName == "") && e.born == 0 && e.punctual
  }

  lemma FreshIsCoherent(U: set<Endpoint>)
    requires forall e :: e in U ==> IsFresh(e)
    ensures Coherent(U, U, {})
  {
    hide Endpoint.Valid;
    forall e, a | e in U && a in e.sysCompIds
      ensures SeenInGroup(U, e, a)
    {
      assert SameGroup(e, e) && a in e.seen;
    }
  }

  ghost predicate NoLaterThanAny(d: Deadline, s: Shaper)
  {
    forall id :: id in s.cache ==> NoLater(d, DeadlineOf(s, id))
  }

  ghost predicate IsDeadlineIn(d: Deadline, s: Shaper)
  {
    exists id :: id in s.cache && d == DeadlineOf(s, id)
  }

  lemma EarliestIsDeadline(s: Shaper, d: Deadline)
    requires IsEarliest(s, s.cache.Keys, d) && d != Never
    ensures NoLaterThanAny(d, s) && IsDeadlineIn(d, s)
  {
  }

  lemma SoonerIsNoLater(d: Deadline, e: Deadline, s: Shaper)
    ensures NoLaterThanAny(d, s) || NoLaterThanAny(e, s) ==> NoLaterThanAny(Sooner(d, e), s)
  {
  }

  lemma NoQueues(d: Deadline, s: Shaper)
    requires s.cache.Keys == {}
    ensures NoLaterThanAny(d, s)
  {
  }

  class Loop {
    const clock: Clock
    const timers: TimeoutList
    const sniffer: nat
    var endpoints: seq<Endpoint>
    var resendScheduled: bool
    var resendTimer: Timeout?
    var tcpHangups: bool

    /** Every endpoint there ever was, how many joined, and those cut off from their group. */
    ghost var pool: set<Endpoint>
    ghost var births: nat
    ghost var cut: set<Endpoint>
    ghost var trace: seq<Delivery>
    /** All events so far. */
    ghost var history: seq<Event>
    /** The last attempt to create the resend timer, if it failed. */
    ghost var failedTry: Option<nat>

    constructor (start: seq<Endpoint>, sniffer: nat, clock: Clock, timers: TimeoutList)
      requires Distinct(start) && Linked(Pool(start), Pool(start), {}) && Coherent(Pool(start), Pool(start), {})
      requires forall e :: e in start ==> e.Valid() && e.shaper.cache == map[] && e.born == 0 && e.attempts == []
      requires timers.Valid() && timers.nodes == []
      ensures Valid() && AllPast(pool, clock.time) && endpoints == start && this.sniffer == sniffer && trace == []
      ensures this.clock == clock && this.timers == timers && !resendScheduled && !tcpHangups && history == []
    {
      this.clock, this.timers := clock, timers;
      this.sniffer, endpoints := sniffer, start;
      resendScheduled, resendTimer, tcpHangups := false, null, false;
      pool, trace, failedTry, births, cut, history := Pool(start), [], None, 1, {}, [];
      new;
      hide Linked, Coherent, Endpoint.Valid, Distinct, TimeoutList.Valid;
    }

    // ----- The invariant

    ghost predicate Members()
      reads this`endpoints, this`pool, this`births
    {
      && (forall e :: e in endpoints ==> e in pool)
      && (forall e :: e in pool ==> e.born < births)
      && Distinct(endpoints)
    }

    ghost predicate AllValid()
      reads this`pool, pool`shaper, pool`book, pool`offered, pool`attempts, pool`teardowns, pool`sysCompIds
    {
      forall e :: e in pool ==> e.Valid()
    }

    /** The resend timer, if scheduled, is in the timer list, is going to stay there, and is armed. */
    ghost predicate TimerRuns()
      reads this`resendScheduled, this`resendTimer, this`failedTry, timers, timers.nodes
    {
      && timers.Valid()
      && (failedTry.Some? ==> failedTry.value < timers.tries && !timers.creates(failedTry.value))
      && (resendScheduled ==>
            && resendTimer != null && resendTimer in timers.nodes
            && !resendTimer.removeMe && IsArmed(resendTimer.spec))
    }

    ghost predicate HasCached()
      reads this`endpoints, endpoints`shaper
    {
      exists e :: e in endpoints && e.shaper.cache.Keys != {}
    }

    /** Cached messages are never left without a running timer, unless none could be created. */
    ghost predicate Live()
      reads this`endpoints, endpoints`shaper, this`resendScheduled, this`failedTry
    {
      HasCached() ==> resendScheduled || failedTry.Some?
    }

    ghost predicate Valid()
      reads this`endpoints, this`pool, this`births, this`cut, this`trace
      reads this`resendScheduled, this`resendTimer, this`failedTry
      reads pool`shaper, pool`book, pool`offered, pool`attempts, pool`teardowns, pool`sysCompIds, pool`seen
      reads pool`groupMembers
      reads endpoints`shaper, timers, timers.nodes
    {
      && Members() && AllValid() && TimerRuns() && Live() && AllFine(trace, cut)
      && Linked(Pool(endpoints), pool, cut) && Coherent(Pool(endpoints), pool, cut)
    }

    // ----- The resend timer

    /** Over the first `n` endpoints: no queue is due before `d`, and `d` is some queue's own deadline. */
    ghost predicate Earliest(d: Deadline, n: nat)
      requires n <= |endpoints|
      reads this`endpoints, endpoints`shaper
    {
      && (forall i :: 0 <= i < n ==> NoLaterThanAny(d, endpoints[i].shaper))
      && (d == Never || exists i :: 0 <= i < n && IsDeadlineIn(d, endpoints[i].shaper))
      && (d == Never <==> forall i :: 0 <= i < n ==> endpoints[i].shaper.cache.Keys == {})
    }

    /** At `time` some cached queue of some endpoint may be sent. */
    ghost predicate AnyDue(time: int)
      reads this`endpoints, endpoints`shaper
    {
      exists i :: 0 <= i < |endpoints| && SomeDue(endpoints[i].shaper, time)
    }

    lemma EarliestIsAnyDue(d: Deadline, time: int)
      requires Earliest(d, |endpoints|)
      ensures AnyDue(time) <==> HasCome(d, time)
    {
      if HasCome(d, time) {
        var i :| 0 <= i < |endpoints| && IsDeadlineIn(d, endpoints[i].shaper);
        assert SomeDue(endpoints[i].shaper, time);
      }
      if AnyDue(time) {
        var i :| 0 <= i < |endpoints| && SomeDue(endpoints[i].shaper, time);
        assert NoLaterThanAny(d, endpoints[i].shaper);
      }
    }

    /** The instant at which the resend timer expires if it was set just now. */
    ghost function Wake(): int
      requires resendTimer != null
      reads this`resendTimer, resendTimer, clock
    {
      clock.time + Nanoseconds(resendTimer.spec)
    }

    method FindEarliest() returns (d: Deadline)
      ensures Earliest(d, |endpoints|)
      ensures d == Never <==> !HasCached()
    {
      hide NoLaterThanAny, IsDeadlineIn, IsEarliest;
      d := Never;
      for n := 0 to |endpoints|
        invariant Earliest(d, n)
      {
        if endpoints[n].shaper.cache.Keys != {} {
          var mine := NextResendDeadline(endpoints[n].shaper);
          EarliestIsDeadline(endpoints[n].shaper, mine);
          forall s: Shaper | true
            ensures NoLaterThanAny(d, s) || NoLaterThanAny(mine, s) ==> NoLaterThanAny(Sooner(d, mine), s)
          {
            SoonerIsNoLater(d, mine, s);
          }
          d := Sooner(d, mine);
        } else {
          NoQueues(d, endpoints[n].shaper);
        }
      }
    }

    /**
     The resend timer, set just now, expires in 10 ms if a queue is due already, and otherwise when the first
     one is due and less than 1 ms later, but no later than the 32-bit clamp.
     */
    ghost predicate TimerMeetsDeadline()
      reads this`endpoints, endpoints`shaper, this`resendTimer, resendTimer, clock
    {
      && resendTimer != null && IsArmed(resendTimer.spec)
      && var clamp := clock.time + MAX_U32 * NSEC_PER_MSEC;
         && (AnyDue(clock.time) ==> Wake() == clock.time + 10 * NSEC_PER_MSEC)
         && (!AnyDue(clock.time) && AnyDue(clamp) ==> AnyDue(Wake()) && !AnyDue(Wake() - NSEC_PER_MSEC))
         && (!AnyDue(clamp) ==> Wake() == clamp)
    }

    lemma DeadlineIsMet(d: Deadline)
      requires d != Never && Earliest(d, |endpoints|)
      requires resendTimer != null && resendTimer.spec == SpecOf(DelayMs(d, clock.time))
      ensures TimerMeetsDeadline()
    {
      hide DelayMs, SpecOf, IsArmed, Nanoseconds, HasCome, Loop.Earliest, Loop.AnyDue;
      var now := clock.time;
      DelayArms(d, now);
      ExpiresWhenDue(d, now);
      EarliestIsAnyDue(d, now);
      EarliestIsAnyDue(d, now + MAX_U32 * NSEC_PER_MSEC);
      EarliestIsAnyDue(d, Wake());
      EarliestIsAnyDue(d, Wake() - NSEC_PER_MSEC);
    }

    /** Mainloop::_reschedule_resend */
    method RescheduleResend() returns (any: bool)
      requires resendTimer != null && resendTimer in timers.nodes && timers.Valid() && !resendTimer.removeMe
      modifies resendTimer`spec, clock
      ensures any <==> HasCached()
      ensures any ==> TimerMeetsDeadline() && IsArmed(resendTimer.spec)
      ensures !any ==> resendTimer.spec == old(resendTimer.spec)
      ensures timers.Valid() && clock.time >= old(clock.time)
    {
      hide NoLaterThanAny, IsDeadlineIn, DelayMs, SpecOf, IsArmed, Distinct;
      hide TimerMeetsDeadline, Nanoseconds, HasCome, SomeDue, Loop.Earliest;
      var d := FindEarliest();
      if d == Never {
        return false;
      }
      var now := clock.Now();
      DelayArms(d, now);
      timers.ModTimeout(resendTimer, DelayMs(d, now));
      DeadlineIsMet(d);
      return true;
    }

    /** Mainloop::schedule_resend. It leaves the timer running unless the timer cannot be created. */
    method ScheduleResend()
      requires TimerRuns()
      modifies this`resendScheduled, this`resendTimer, this`failedTry, timers`head, timers`nodes, timers`tries
      modifies timers.NodeSet()`spec, clock
      ensures TimerRuns() && clock.time >= old(clock.time)
      ensures resendScheduled <==> old(resendScheduled) || timers.creates(old(timers.tries))
      ensures timers.tries == old(timers.tries) + if old(resendScheduled) then 0 else 1
      ensures failedTry == if old(resendScheduled) then old(failedTry)
                           else if resendScheduled then None else Some(old(timers.tries))
      ensures old(resendScheduled) ==> resendTimer == old(resendTimer)
      ensures resendScheduled && HasCached() ==> TimerMeetsDeadline()
      ensures fresh(timers.NodeSet() - old(timers.NodeSet()))
    {
      hide Earliest, DelayMs, SpecOf, HasCached, IsArmed;
      if !resendScheduled {
        ghost var n := timers.tries;
        var t := timers.AddTimeout(RESEND_RETRY_MS);
        resendTimer := t;
        failedTry := if t == null then Some(n) else None;
        if t == null {
          return;
        }
        SplitIsExact(RESEND_RETRY_MS);
        resendScheduled := true;
      }
      var _ := RescheduleResend();
    }

    // ----- Routing

    /** The arrival endpoint and the shielded members of its group know the sender, and so will refuse. */
    ghost predicate OriginKnows(m: Msg, origin: Option<Endpoint>)
      reads this`endpoints, this`cut, endpoints`sysCompIds
    {
      origin.Some? ==> forall o :: o in endpoints && Shielded(origin.value, o, cut) ==> Source(m) in o.sysCompIds
    }

    /** Only the log endpoints' own messages are routed from inside the routing of another. */
    ghost predicate MayRoute(m: Msg, depth: nat, origin: Option<Endpoint>)
      reads this`endpoints, this`cut, endpoints`sysCompIds
    {
      && WellFormed(m) && OriginKnows(m, origin)
      && (depth == 1 || (depth == 2 && Source(m) == LOG_ADDRESS && origin.None?))
    }

    lemma InPool(e: Endpoint)
      requires Members() && AllValid() && e in endpoints
      ensures e in pool && e.Valid()
    {
    }

    lemma ValidMember(e: Endpoint)
      requires Valid() && e in endpoints
      ensures e in pool && e.Valid()
    {
    }

    lemma ScheduledTimer()
      requires Valid() && resendScheduled
      ensures resendTimer != null && resendTimer in timers.NodeSet()
    {
    }

    /** A delivery to an endpoint that does not know the sender is fine. */
    lemma DeliveryIsFine(e: Endpoint, m: Msg, written: bool, depth: nat, origin: Option<Endpoint>)
      requires e in endpoints && e.Valid() && MayRoute(m, depth, origin) && Source(m) !in e.sysCompIds
      ensures Fine(Delivery(m, e, written, depth, origin), cut)
      ensures e.kind.Log? ==> depth == 1 && Source(m) != LOG_ADDRESS
    {
      hide Sound, NoEmptyQueue, Faithful;
    }

    ghost method Record(d: Delivery)
      requires Valid() && Fine(d, cut)
      modifies this`trace
      ensures Valid() && trace == old(trace) + [d]
    {
      hide Members, TimerRuns, AllValid, Live, Linked, Coherent, Fine, AllFine;
      AllFineMore(trace, d, cut);
      trace := trace + [d];
    }

    /** Hand a message to an endpoint's link, or account for what a log endpoint took. */
    method SendTo(e: Endpoint, m: Msg, ghost checked: int) returns (io: LinkIo)
      requires e.Valid() && checked <= clock.time && InPast(e.attempts, clock.time)
      requires IsThrottled(e.shaper, m.id) ==> IsDue(e.shaper.throttle[m.id], checked)
      requires IsThrottled(e.shaper, m.id) && m.id in e.cacheIds ==> m.id !in e.shaper.cache
      modifies e`fd, e`valid, e`attempts, e`offered, e`shaper, e`book, e`teardowns, clock
      ensures e.Valid() && InPast(e.attempts, clock.time) && clock.time >= old(clock.time)
      ensures io == if e.kind.Log? then LinkIo(Ok(|m.data|), false) else e.Answer(|old(e.attempts)|)
      ensures e.offered == old(e.offered) + [m]
      ensures e.attempts == old(e.attempts)
                + [e.AttemptOf(m, io, true, old(clock.time), NextOf(old(e.shaper), m.id))]
      ensures e.shaper == AfterWrite(old(e.shaper), m, io.rc == Err(ENOBUFS), clock.time)
      ensures e.shaper.cache == old(e.shaper.cache)
      ensures e.fd == (if e.Closes(io) then -1 else old(e.fd))
      ensures e.valid == (if io.broke then e.retries else old(e.valid))
      ensures e.teardowns == old(e.teardowns) + if e.Closes(io) then 1 else 0
    {
      hide IsDue, AfterWrite, Endpoint.Valid, SameFollowed, SameCleared, InPast;
      if e.kind.Log? {
        e.FinishLogWrite(m, checked, clock);
        io := LinkIo(Ok(|m.data|), false);
      } else {
        io := e.SendDirect(m, checked, clock);
      }
      WriteKeepsCache(old(e.shaper), m, io.rc == Err(ENOBUFS), clock.time);
      PastMore(old(e.attempts), e.attempts[|old(e.attempts)|], old(clock.time), clock.time);
    }

    /**
     A write to an endpoint. A hang-up is flagged exactly if the write says so; a connection that broke
     while the write succeeded goes unnoticed here.
     */
    method Deliver(e: Endpoint, m: Msg, ghost checked: int) returns (ghost io: LinkIo)
      requires Valid() && e in endpoints && checked <= clock.time && AllPast(pool, clock.time)
      requires IsThrottled(e.shaper, m.id) ==> IsDue(e.shaper.throttle[m.id], checked)
      requires IsThrottled(e.shaper, m.id) && m.id in e.cacheIds ==> m.id !in e.shaper.cache
      modifies this`tcpHangups, e`fd, e`valid, e`attempts, e`offered, e`shaper, e`book, e`teardowns, clock
      ensures Valid() && AllPast(pool, clock.time) && clock.time >= old(clock.time)
      ensures io == if e.kind.Log? then LinkIo(Ok(|m.data|), false) else e.Answer(|old(e.attempts)|)
      ensures e.offered == old(e.offered) + [m]
      ensures e.attempts == old(e.attempts)
                + [e.AttemptOf(m, io, true, old(clock.time), NextOf(old(e.shaper), m.id))]
      ensures e.shaper == AfterWrite(old(e.shaper), m, io.rc == Err(ENOBUFS), clock.time)
      ensures e.fd == (if e.Closes(io) then -1 else old(e.fd))
      ensures e.valid == (if io.broke then e.retries else old(e.valid))
      ensures e.teardowns == old(e.teardowns) + if e.Closes(io) then 1 else 0
      ensures tcpHangups <==> old(tcpHangups) || io.rc == Err(EPIPE)
    {
      hide Linked, Coherent, IsDue, AfterWrite, AllFine, Members, TimerRuns, Endpoint.Valid, InPast;
      hide Endpoint.AttemptOf, Endpoint.Closes, Endpoint.Answer, IsThrottled;
      InPool(e);
      var r := SendTo(e, m, checked);
      io := r;
      if r.rc == Err(EPIPE) {
        tcpHangups := true;
      }
      assert forall x :: x in endpoints ==> x.shaper.cache == old(x.shaper.cache);
      AllPastBut(pool, e, old(clock.time), clock.time);
    }

    /** The Accepted branch. A log endpoint may send messages of its own while it handles this one. */
    method WriteTo(e: Endpoint, m: Msg, ghost checked: int, ghost depth: nat, ghost origin: Option<Endpoint>)
      returns (ghost log: seq<Delivery>)
      requires Valid() && AllPast(pool, clock.time) && e in endpoints && MayRoute(m, depth, origin)
      requires Source(m) !in e.sysCompIds
      requires checked <= clock.time
      requires IsThrottled(e.shaper, m.id) ==> IsDue(e.shaper.throttle[m.id], checked)
      requires IsThrottled(e.shaper, m.id) && m.id in e.cacheIds ==> m.id !in e.shaper.cache
      modifies this`trace, this`resendScheduled, this`resendTimer, this`failedTry, this`tcpHangups
      modifies pool`fd, pool`valid, pool`attempts, pool`offered, pool`shaper, pool`book, pool`teardowns, clock
      modifies timers`head, timers`nodes, timers`tries, timers.NodeSet()`spec
      ensures Valid() && AllPast(pool, clock.time) && clock.time >= old(clock.time) && trace == old(trace) + log
      ensures fresh(timers.NodeSet() - old(timers.NodeSet()))
      ensures AtDepth(log, depth) == [Delivery(m, e, true, depth, origin)] && Spans(log, depth, [e])
      ensures e.offered == old(e.offered) + [m]
      ensures |e.attempts| == |old(e.attempts)| + 1 && e.attempts[|old(e.attempts)|].msg == m
      ensures Source(m) == LOG_ADDRESS ==> NoLogs(log, depth)
      ensures Spared(old(Snapshots(pool)), Snapshots(pool), log)
      decreases Rank(m), 1
    {
      hide Valid, IsDue, Fine, IsThrottled, MayRoute, AtDepth, Snapshots, Spared, AllPast;
      ghost var d := Delivery(m, e, true, depth, origin);
      ValidMember(e);
      DeliveryIsFine(e, m, true, depth, origin);
      OneAtDepth(d);
      NothingAtDepth(depth);
      ghost var before := Snapshots(pool);
      SnapshotIsState(pool, e);
      ghost var nested := [];
      SparedSelf(before);
      if e.kind.Log? {
        nested := LogWrite(m);
        NestedNotAtDepth(nested, depth);
        NotReached(before, Snapshots(pool), nested, e);
        SnapshotIsState(pool, e);
      }
      ghost var mid := Snapshots(pool);
      AtDepthAppend(nested, [d], depth);
      DeliverAs(e, m, checked, d);
      SparedMore(before, mid, Snapshots(pool), nested, [d]);
      log := nested + [d];
    }

    /** Deliver and put it on record; no other endpoint changes. */
    method DeliverAs(e: Endpoint, m: Msg, ghost checked: int, ghost d: Delivery)
      requires Valid() && AllPast(pool, clock.time) && e in endpoints && checked <= clock.time
      requires Fine(d, cut) && d.to == e
      requires IsThrottled(e.shaper, m.id) ==> IsDue(e.shaper.throttle[m.id], checked)
      requires IsThrottled(e.shaper, m.id) && m.id in e.cacheIds ==> m.id !in e.shaper.cache
      modifies this`trace, this`tcpHangups, e`fd, e`valid, e`attempts, e`offered, e`shaper, e`book, e`teardowns, clock
      ensures Valid() && AllPast(pool, clock.time) && clock.time >= old(clock.time) && trace == old(trace) + [d]
      ensures e.offered == old(e.offered) + [m]
      ensures |e.attempts| == |old(e.attempts)| + 1 && e.attempts[|old(e.attempts)|].msg == m
      ensures Spared(old(Snapshots(pool)), Snapshots(pool), [d])
    {
      hide Valid, Fine, Spared, IsThrottled, IsDue, AfterWrite, AllPast;
      ghost var io := Deliver(e, m, checked);
      Record(d);
      assert forall x :: x in pool && x != e ==> StateOf(x) == old(StateOf(x));
      SparedOne(old(Snapshots(pool)), Snapshots(pool), d);
    }

    /** A log endpoint's write_msg, as far as routing sees it: any number of messages with its own address. */
    method LogWrite(m: Msg) returns (ghost log: seq<Delivery>)
      requires Valid() && AllPast(pool, clock.time) && Source(m) != LOG_ADDRESS
      modifies this`trace, this`resendScheduled, this`resendTimer, this`failedTry, this`tcpHangups
      modifies pool`fd, pool`valid, pool`attempts, pool`offered, pool`shaper, pool`book, pool`teardowns, clock
      modifies timers`head, timers`nodes, timers`tries, timers.NodeSet()`spec
      ensures Valid() && AllPast(pool, clock.time) && clock.time >= old(clock.time) && trace == old(trace) + log
      ensures fresh(timers.NodeSet() - old(timers.NodeSet()))
      ensures OnlyNested(log)
      ensures Spared(old(Snapshots(pool)), Snapshots(pool), log)
      decreases Rank(m), 0
    {
      hide Valid, RoutedPast, Spans, Snapshots, Spared, AllRejected, AllPast;
      log := [];
      SparedSelf(Snapshots(pool));
      var count: nat :| true;
      for i := 0 to count
        invariant Valid() && AllPast(pool, clock.time)
        invariant clock.time >= old(clock.time) && trace == old(trace) + log
        invariant fresh(timers.NodeSet() - old(timers.NodeSet()))
        invariant OnlyNested(log)
        invariant Spared(old(Snapshots(pool)), Snapshots(pool), log)
      {
        var id: nat :| true;
        var target: int :| -1 <= target < 256;
        var data: seq<byte> :| true;
        var own := Msg(id, target, 0, LOG_SYSTEM_ID, LOG_COMPONENT_ID, data);
        ghost var more, checked;
        var states, unknown;
        ghost var before := Snapshots(pool);
        ghost var start := clock.time;
        states, unknown, checked, more := RouteMsg(own, 2, None);
        RoutedPastSpans(own, 2, None, sniffer, start, before, endpoints, states, checked, more);
        SparedMore(old(Snapshots(pool)), before, Snapshots(pool), log, more);
        log := log + more;
      }
    }

    /** Put a message into an endpoint's cache; whether the timer runs is still to be seen to. */
    method Hold(e: Endpoint, m: Msg)
      requires Valid() && e in endpoints && m.id in e.cacheIds
      modifies e`shaper, e`book, e`offered
      ensures Members() && AllValid() && TimerRuns() && AllFine(trace, cut)
      ensures Linked(Pool(endpoints), pool, cut) && Coherent(Pool(endpoints), pool, cut)
      ensures HasCached() && e.offered == old(e.offered) + [m] && !e.kind.Log?
      ensures if TotalSize(old(e.shaper.cache)) >= MSG_CACHE_MAX_SIZE
              then e.shaper == old(e.shaper).(cacheDropped := old(e.shaper.cacheDropped) + 1)
              else e.shaper == Enqueue(old(e.shaper), m)
    {
      hide Linked, Coherent, AllFine, Members, TimerRuns, Live, Endpoint.Valid, SameFollowed, SameCleared;
      hide TotalSize, Enqueue;
      InPool(e);
      e.CacheMsg(m);
      e.LogCachesNothing();
    }

    /** The Cached branch. */
    method CacheTo(e: Endpoint, m: Msg, ghost depth: nat, ghost origin: Option<Endpoint>)
      requires Valid() && AllPast(pool, clock.time) && e in endpoints && MayRoute(m, depth, origin)
      requires Source(m) !in e.sysCompIds && m.id in e.cacheIds
      modifies this`trace, this`resendScheduled, this`resendTimer, this`failedTry
      modifies e`shaper, e`book, e`offered, clock, timers`head, timers`nodes, timers`tries, timers.NodeSet()`spec
      ensures Valid() && AllPast(pool, clock.time) && clock.time >= old(clock.time)
      ensures e.offered == old(e.offered) + [m] && !e.kind.Log?
      ensures fresh(timers.NodeSet() - old(timers.NodeSet()))
      ensures trace == old(trace) + [Delivery(m, e, false, depth, origin)]
      ensures if TotalSize(old(e.shaper.cache)) >= MSG_CACHE_MAX_SIZE
              then e.shaper == old(e.shaper).(cacheDropped := old(e.shaper.cacheDropped) + 1)
              else e.shaper == Enqueue(old(e.shaper), m)
      ensures resendScheduled <==> old(resendScheduled) || timers.creates(old(timers.tries))
      ensures timers.tries == old(timers.tries) + if old(resendScheduled) then 0 else 1
      ensures failedTry == if old(resendScheduled) then old(failedTry)
                           else if resendScheduled then None else Some(old(timers.tries))
      ensures resendScheduled ==> TimerMeetsDeadline()
    {
      hide Linked, Coherent, AllFine, Fine, MayRoute, TimerRuns, AllValid, Members, HasCached;
      hide TimerMeetsDeadline, TotalSize, Enqueue, AllPast, Endpoint.Valid;
      ValidMember(e);
      DeliveryIsFine(e, m, false, depth, origin);
      Hold(e, m);
      ghost var start := clock.time;
      ScheduleResend();
      AllPastLater(pool, start, clock.time);
      Record(Delivery(m, e, false, depth, origin));
    }

    /** Cache and put it on record; no other endpoint changes. */
    method CacheAs(e: Endpoint, m: Msg, ghost depth: nat, ghost origin: Option<Endpoint>)
      returns (ghost log: seq<Delivery>)
      requires Valid() && AllPast(pool, clock.time) && e in endpoints && MayRoute(m, depth, origin)
      requires Source(m) !in e.sysCompIds
      requires m.id in e.cacheIds
      modifies this`trace, this`resendScheduled, this`resendTimer, this`failedTry
      modifies e`shaper, e`book, e`offered, clock, timers`head, timers`nodes, timers`tries, timers.NodeSet()`spec
      ensures Valid() && AllPast(pool, clock.time) && clock.time >= old(clock.time) && e.offered == old(e.offered) + [m]
      ensures fresh(timers.NodeSet() - old(timers.NodeSet()))
      ensures log == [Delivery(m, e, false, depth, origin)] && trace == old(trace) + log
      ensures AtDepth(log, depth) == log && Spans(log, depth, [e]) && NoLogs(log, depth)
      ensures Spared(old(Snapshots(pool)), Snapshots(pool), log)
    {
      hide Valid, MayRoute, Spared, TotalSize, Enqueue, AtDepth, Spans, NoLogs, AllPast;
      CacheTo(e, m, depth, origin);
      ghost var d := Delivery(m, e, false, depth, origin);
      log := [d];
      OneDelivery(d);
      assert forall x :: x in pool && x != e ==> StateOf(x) == old(StateOf(x));
      SparedOne(old(Snapshots(pool)), Snapshots(pool), d);
    }

    /** Offer a message to one endpoint: one turn of the loop in Mainloop::route_msg. */
    method RouteTo(e: Endpoint, m: Msg, ghost depth: nat, ghost origin: Option<Endpoint>)
      returns (st: AcceptState, ghost checked: int, ghost log: seq<Delivery>)
      requires Valid() && AllPast(pool, clock.time) && e in endpoints && MayRoute(m, depth, origin)
      modifies this`trace, this`resendScheduled, this`resendTimer, this`failedTry, this`tcpHangups
      modifies pool`fd, pool`valid, pool`attempts, pool`offered, pool`shaper, pool`book, pool`teardowns, clock
      modifies timers`head, timers`nodes, timers`tries, timers.NodeSet()`spec
      ensures Valid() && AllPast(pool, clock.time) && clock.time >= old(clock.time) && trace == old(trace) + log
      ensures fresh(timers.NodeSet() - old(timers.NodeSet()))
      ensures old(clock.time) <= checked && AnswersFrom(e, old(StateOf(e)), m, checked, sniffer, st)
      ensures Served(st) ==> e.WouldRoute(m, sniffer)
      ensures e.offered == old(e.offered) + if st.Accepted? || st.Cached? then [m] else []
      ensures st.Accepted? ==> |e.attempts| == |old(e.attempts)| + 1 && e.attempts[|old(e.attempts)|].msg == m
      ensures !st.Accepted? ==> e.attempts == old(e.attempts)
      ensures AtDepth(log, depth) == Own(m, e, st, depth, origin) && Spans(log, depth, [e])
      ensures Source(m) == LOG_ADDRESS ==> NoLogs(log, depth)
      ensures Spared(old(Snapshots(pool)), Snapshots(pool), log)
      decreases Rank(m), 2
    {
      hide Valid, Routes, Served, Endpoint.AcceptMsg, Endpoint.IsOpen, IsThrottled, IsDue, TotalSize, Enqueue;
      hide AtDepth, Spans, NoLogs, Snapshots, Spared, AnswersFrom, AllPast, OriginKnows;
      hide Endpoint.Valid;
      SparedSelf(Snapshots(pool));
      ValidMember(e);
      ghost var start := clock.time;
      var now := clock.Now();
      AllPastLater(pool, start, now);
      checked := now;
      st := e.AcceptMsg(m, now, sniffer);
      AnswerNow(e, m, now, sniffer);
      e.AcceptIsRouting(m, now, sniffer);
      e.AcceptChecks(m, now, sniffer);
      log := [];
      NoDelivery(depth, e);
      match st {
        case Accepted =>
          log := WriteTo(e, m, now, depth, origin);
        case Cached =>
          log := CacheAs(e, m, depth, origin);
        case _ =>
      }
    }

    /**
     Mainloop::route_msg. Every endpoint that no log endpoint's message reached meanwhile answers as it
     would have at the start, and the deliveries are exactly those answered Accepted or Cached, in order.
     */
    method RouteMsg(m: Msg, ghost depth: nat, ghost origin: Option<Endpoint>)
      returns (states: seq<AcceptState>, unknown: bool, ghost checked: seq<int>, ghost log: seq<Delivery>)
      requires Valid() && AllPast(pool, clock.time) && MayRoute(m, depth, origin)
      modifies this`trace, this`resendScheduled, this`resendTimer, this`failedTry, this`tcpHangups
      modifies pool`fd, pool`valid, pool`attempts, pool`offered, pool`shaper, pool`book, pool`teardowns, clock
      modifies timers`head, timers`nodes, timers`tries, timers.NodeSet()`spec
      ensures Valid() && AllPast(pool, clock.time) && clock.time >= old(clock.time) && trace == old(trace) + log
      ensures fresh(timers.NodeSet() - old(timers.NodeSet()))
      ensures RoutedPast(m, depth, origin, sniffer, old(clock.time), old(Snapshots(pool)), endpoints, states, checked,
                         log)
      ensures unknown <==> AllRejected(states)
      ensures Spared(old(Snapshots(pool)), Snapshots(pool), log)
      decreases Rank(m), 3
    {
      hide Valid, MayRoute, RoutedPast, AllRejected, Snapshots, Spared, AllPast;
      states, unknown, checked, log := [], true, [], [];
      ghost var start, before := clock.time, Snapshots(pool);
      RejectedMore([], Rejected);
      SparedSelf(before);
      RoutedPastNone(m, depth, origin, sniffer, start, before);
      for i := 0 to |endpoints|
        invariant Valid() && AllPast(pool, clock.time) && MayRoute(m, depth, origin)
        invariant clock.time >= start && trace == old(trace) + log
        invariant fresh(timers.NodeSet() - old(timers.NodeSet()))
        invariant RoutedPast(m, depth, origin, sniffer, start, before, endpoints[..i], states, checked, log)
        invariant unknown <==> AllRejected(states)
        invariant Spared(before, Snapshots(pool), log)
      {
        var st;
        ghost var at, more;
        st, at, more := RouteTurn(i, m, depth, origin, start, before, states, checked, log);
        RejectedMore(states, st);
        states, checked, log := states + [st], checked + [at], log + more;
        if !st.Rejected? {
          unknown := false;
        }
      }
      assert endpoints[..|endpoints|] == endpoints;
    }

    /** One turn of the loop, on top of the turns before it. */
    method RouteTurn(i: nat, m: Msg, ghost depth: nat, ghost origin: Option<Endpoint>, ghost start: int,
                     ghost before: map<Endpoint, Snapshot>, ghost states: seq<AcceptState>, ghost checked: seq<int>,
                     ghost log: seq<Delivery>)
      returns (st: AcceptState, ghost at: int, ghost more: seq<Delivery>)
      requires Valid() && AllPast(pool, clock.time) && MayRoute(m, depth, origin)
      requires i < |endpoints| && clock.time >= start
      requires RoutedPast(m, depth, origin, sniffer, start, before, endpoints[..i], states, checked, log)
      requires Spared(before, Snapshots(pool), log)
      modifies this`trace, this`resendScheduled, this`resendTimer, this`failedTry, this`tcpHangups
      modifies pool`fd, pool`valid, pool`attempts, pool`offered, pool`shaper, pool`book, pool`teardowns, clock
      modifies timers`head, timers`nodes, timers`tries, timers.NodeSet()`spec
      ensures Valid() && AllPast(pool, clock.time) && MayRoute(m, depth, origin)
      ensures clock.time >= old(clock.time) && trace == old(trace) + more
      ensures fresh(timers.NodeSet() - old(timers.NodeSet()))
      ensures RoutedPast(m, depth, origin, sniffer, start, before, endpoints[..i + 1], states + [st], checked + [at],
                         log + more)
      ensures Spared(before, Snapshots(pool), log + more)
      decreases Rank(m), 3, 0
    {
      hide Valid, MayRoute, AnswersFrom, RoutedPast, Endpoint.WouldRoute, Served, AtDepth, Own, Spans, Nested, NoLogs;
      hide Reached, StateOf, Snapshots, Spared, AllPast;
      var e := endpoints[i];
      NotBefore(i);
      SnapshotIsState(pool, e);
      SparedKeys(before, Snapshots(pool), log);
      RoutedPastSpans(m, depth, origin, sniffer, start, before, endpoints[..i], states, checked, log);
      if Reached(log, e) {
        ReachedFromInside(log, depth, endpoints[..i], e);
      } else {
        UnreachedIsAsBefore(before, Snapshots(pool), log, e);
      }
      ghost var mid := Snapshots(pool);
      st, at, more := RouteTo(e, m, depth, origin);
      assert endpoints[..i + 1] == endpoints[..i] + [e];
      SparedMore(before, mid, Snapshots(pool), log, more);
      RoutedPastMore(m, depth, origin, sniffer, start, before, endpoints[..i], states, checked, log, e, st, at, more);
    }

    lemma NotBefore(i: nat)
      requires Valid() && i < |endpoints|
      ensures endpoints[i] in endpoints && endpoints[i] in pool && endpoints[i] !in endpoints[..i]
    {
    }

    // ----- The events of the loop

    /**
     Endpoint::handle_read for one message: a repeated message is only learned from, a filtered one is
     dropped, and any other is learned from and routed.
     */
    method HandleMsg(e: Endpoint, m: Msg, isNew: bool)
      returns (states: seq<AcceptState>, ghost checked: seq<int>, ghost log: seq<Delivery>)
      requires Valid() && AllPast(pool, clock.time) && e in endpoints && WellFormed(m)
      modifies this`trace, this`resendScheduled, this`resendTimer, this`failedTry, this`tcpHangups
      modifies pool`fd, pool`valid, pool`shaper, pool`book, pool`attempts, pool`offered, pool`teardowns
      modifies pool`sysCompIds, e`seen
      modifies clock, timers`head, timers`nodes, timers`tries, timers.NodeSet()`spec
      ensures Valid() && AllPast(pool, clock.time) && trace == old(trace) + log
      ensures fresh(timers.NodeSet() - old(timers.NodeSet()))
      ensures e.seen == old(e.seen) + if !isNew || InAllowed(e.inFilters, m) then {Source(m)} else {}
      ensures !isNew || InAllowed(e.inFilters, m) ==> OriginKnows(m, Some(e))
      ensures !(isNew && InAllowed(e.inFilters, m)) ==> log == []
      ensures isNew && InAllowed(e.inFilters, m) ==>
                RoutedPast(m, 1, Some(e), sniffer, old(clock.time), old(Snapshots(pool)), endpoints, states, checked,
                           log)
    {
      hide Valid, InAllowed, RoutedPast, Spared, AllRejected, AllPast;
      states, checked, log := [], [], [];
      if !isNew {
        LearnFrom(e, m);
      } else if InAllowed(e.inFilters, m) {
        LearnFrom(e, m);
        assert Snapshots(pool) == old(Snapshots(pool));
        var unknown;
        states, unknown, checked, log := RouteMsg(m, 1, Some(e));
      }
    }

    /** Register a message's source on the endpoint it came in on, and on its group. */
    method LearnFrom(e: Endpoint, m: Msg)
      requires Valid() && e in endpoints
      modifies e`seen, pool`sysCompIds
      ensures Valid() && e.seen == old(e.seen) + {Source(m)}
      ensures OriginKnows(m, Some(e))
    {
      hide Linked, Coherent, Sound, NoEmptyQueue, Faithful, TimerRuns, AllFine, Live;
      ValidMember(e);
      assert forall o :: o in endpoints <==> o in Pool(endpoints);
      Learn(e, Source(m), Pool(endpoints), pool, cut);
    }

    /** Drain one endpoint's cache. */
    method ResendOn(e: Endpoint)
      requires Valid() && AllPast(pool, clock.time) && resendScheduled && e in endpoints
      modifies e`fd, e`valid, e`attempts, e`shaper, e`book, e`teardowns, clock, this`tcpHangups
      ensures Valid() && AllPast(pool, clock.time) && clock.time >= old(clock.time)
      ensures Drained(e, old(StateOf(e)), old(clock.time)) && Shrunk(e.shaper.cache, old(e.shaper.cache))
      ensures e.valid == e.ValidSince(|old(e.attempts)|, |e.attempts|, old(e.valid))
      ensures tcpHangups <==> old(tcpHangups) || e.LastRc(|old(e.attempts)|) == Err(EPIPE)
    {
      hide Linked, Coherent, AllFine, Members, TimerRuns, Endpoint.Valid, SameFollowed, SameCleared, NoneDue, Shrunk;
      hide HandedOver, InPast;
      InPool(e);
      var hangup;
      ghost var rest;
      hangup, rest := e.ResendCachedMsgs(clock);
      if hangup {
        tcpHangups := true;
      }
      ShrunkKeys(e.shaper.cache, old(e.shaper.cache));
      HandedIsPrefix(old(e.shaper.cache), e.attempts[|old(e.attempts)|..], rest);
      AllPastBut(pool, e, old(clock.time), clock.time);
    }

    /** Mainloop::_resend_timeout: false when nothing is left to resend. */
    method ResendTimeout() returns (keep: bool)
      requires Valid() && AllPast(pool, clock.time) && resendScheduled
      modifies pool`fd, pool`valid, pool`attempts, pool`shaper, pool`book, pool`teardowns, clock, this`tcpHangups
      modifies this`resendScheduled, this`resendTimer, resendTimer`spec
      ensures Valid() && AllPast(pool, clock.time) && keep == resendScheduled
      ensures keep ==> resendTimer == old(resendTimer)
      ensures (keep <==> HasCached()) && (keep ==> TimerMeetsDeadline())
      ensures forall e :: e in endpoints ==>
                Drained(e, old(StateOf(e)), old(clock.time)) && Shrunk(e.shaper.cache, old(e.shaper.cache))
      ensures !keep ==> resendTimer == null
    {
      hide Drained, Shrunk, Valid, HasCached, AllPast, TimerMeetsDeadline;
      ResendAll();
      ghost var start := clock.time;
      keep := Reschedule();
      AllPastLater(pool, start, clock.time);
    }

    /** Drain every endpoint's cache, one after the other. */
    method ResendAll()
      requires Valid() && AllPast(pool, clock.time) && resendScheduled
      modifies pool`fd, pool`valid, pool`attempts, pool`shaper, pool`book, pool`teardowns, clock, this`tcpHangups
      ensures Valid() && AllPast(pool, clock.time)
      ensures forall e :: e in endpoints ==>
                Drained(e, old(StateOf(e)), old(clock.time)) && Shrunk(e.shaper.cache, old(e.shaper.cache))
    {
      hide Drained, Shrunk, Valid, AllPast;
      for i := 0 to |endpoints|
        invariant Valid() && AllPast(pool, clock.time) && clock.time >= old(clock.time)
        invariant forall j :: 0 <= j < i ==>
                    && Drained(endpoints[j], old(StateOf(endpoints[j])), old(clock.time))
                    && Shrunk(endpoints[j].shaper.cache, old(endpoints[j].shaper.cache))
        invariant forall j :: i <= j < |endpoints| ==> StateOf(endpoints[j]) == old(StateOf(endpoints[j]))
      {
        NotBefore(i);
        AllDistinct();
        ghost var start := clock.time;
        ResendOn(endpoints[i]);
        DrainedEarlier(endpoints[i], old(StateOf(endpoints[i])), start, old(clock.time));
      }
    }

    lemma AllDistinct()
      requires Valid()
      ensures forall i, j :: 0 <= i < j < |endpoints| ==> endpoints[i] != endpoints[j]
      ensures forall e :: e in endpoints ==> e in pool
    {
    }

    method Reschedule() returns (keep: bool)
      requires Valid() && resendScheduled
      modifies clock, this`resendScheduled, this`resendTimer, resendTimer`spec
      ensures Valid() && keep == resendScheduled
      ensures keep ==> resendTimer == old(resendTimer)
      ensures (keep <==> HasCached()) && (keep ==> TimerMeetsDeadline())
      ensures clock.time >= old(clock.time)
      ensures !keep ==> resendTimer == null
    {
      hide Linked, Coherent, AllFine, Members, AllValid, IsArmed, DelayMs, SpecOf, Earliest, HasCached;
      hide TimeoutList.Valid;
      hide TimerMeetsDeadline;
      keep := RescheduleResend();
      if !keep {
        resendScheduled := false;
        resendTimer := null;
      }
    }

    /** The resend timer's readable event; a callback that is done has its timer removed. */
    method FireResendTimer()
      requires Valid() && AllPast(pool, clock.time) && resendScheduled
      modifies pool`fd, pool`valid, pool`attempts, pool`shaper, pool`book, pool`teardowns, clock, this`tcpHangups
      modifies this`resendScheduled, this`resendTimer, resendTimer`spec, resendTimer`removeMe
      ensures Valid() && AllPast(pool, clock.time) && (resendScheduled <==> HasCached())
      ensures resendScheduled ==> TimerMeetsDeadline()
      ensures forall e :: e in endpoints ==>
                Drained(e, old(StateOf(e)), old(clock.time)) && Shrunk(e.shaper.cache, old(e.shaper.cache))
      ensures !resendScheduled ==> old(resendTimer).removeMe
    {
      hide Valid, HasCached, Drained, Shrunk, AllPast, TimerMeetsDeadline;
      ScheduledTimer();
      var t := resendTimer;
      var keep := ResendTimeout();
      if !keep {
        FlagTimer(t);
      }
    }

    /** Mainloop::del_timeout on a timer that is not the running resend timer. */
    method FlagTimer(t: Timeout)
      requires Valid() && !resendScheduled
      modifies t`removeMe
      ensures Valid() && t.removeMe
    {
      hide Linked, Coherent, AllFine, Members, AllValid, IsArmed, Live, TimeoutList.Valid;
      timers.DelTimeout(t);
    }

    /** Anyone may add a timer of their own. */
    method AddTimer(ms: nat)
      requires Valid()
      modifies timers`head, timers`nodes, timers`tries
      ensures Valid() && fresh(timers.NodeSet() - old(timers.NodeSet())) && timers.tries == old(timers.tries) + 1
    {
      hide Linked, Coherent, AllFine, Members, AllValid, IsArmed, Live, TimeoutList.Valid;
      var _ := timers.AddTimeout(ms);
    }

    /** The end of an iteration of Mainloop::loop: flagged timers go, the resend timer stays. */
    method SweepTimers()
      requires Valid()
      modifies timers`head, timers`nodes, timers`freed, timers.nodes`next
      ensures Valid()
      ensures timers.nodes == Without(old(timers.nodes), old(timers.Flagged()))
      ensures timers.NodeSet() <= old(timers.NodeSet())
    {
      hide Linked, Coherent, AllFine, Members, AllValid, IsArmed, Live, TimeoutList.Valid;
      if resendScheduled {
        ghost var t: Timeout := resendTimer;
        MembersSplit(timers.nodes, timers.Flagged(), t);
      }
      WithoutIsPart(timers.nodes, timers.Flagged());
      timers.DelTimeouts();
    }

    /** Mainloop::process_tcp_hangups: exactly the broken TCP endpoints go. */
    method ProcessTcpHangups()
      requires Valid()
      modifies this`endpoints, this`tcpHangups
      ensures Valid() && !tcpHangups
      ensures endpoints == Without(old(endpoints), BrokenTcp(old(endpoints)))
      ensures forall e :: e in endpoints <==> e in old(endpoints) && (e.kind.Tcp? ==> e.valid)
    {
      hide Linked, Coherent, AllFine, AllValid, TimerRuns, Without;
      var all := endpoints;
      ghost var broken := BrokenTcp(all);
      var kept: seq<Endpoint> := [];
      NothingYet(broken);
      for i := 0 to |all|
        invariant all[..0] == [] && kept == Without(all[..i], broken) && endpoints == all && Valid()
      {
        WithoutStep(all, broken, i);
        if !(all[i].kind.Tcp? && !all[i].valid) {
          kept := kept + [all[i]];
        }
      }
      assert all[..|all|] == all;
      WithoutDistinct(all, broken);
      WithoutMembers(all, broken);
      FewerInUse(Pool(kept), Pool(all), pool, cut);
      endpoints := kept;
      tcpHangups := false;
    }

    /** The first endpoint of this name. */
    method FindNamed(name: string) returns (k: nat)
      ensures k <= |endpoints| && forall i :: 0 <= i < k ==> endpoints[i].name != name
      ensures k < |endpoints| ==> endpoints[k].name == name
    {
      k := 0;
      while k < |endpoints| && endpoints[k].name != name
        invariant k <= |endpoints| && forall i :: 0 <= i < k ==> endpoints[i].name != name
      {
        k := k + 1;
      }
    }

    /**
     The `remove` command: the name goes from all group lists, and the first endpoint of that name from
     the list of endpoints. Another endpoint of that name stays in use, but cut off from its group.
     */
    method RemoveNamed(name: string) returns (k: nat)
      requires Valid()
      modifies this`endpoints, this`cut, pool`groupMembers
      ensures Valid()
      ensures k <= |old(endpoints)| && forall i :: 0 <= i < k ==> old(endpoints)[i].name != name
      ensures k < |old(endpoints)| ==> old(endpoints)[k].name == name
      ensures endpoints == if k == |old(endpoints)| then old(endpoints)
                           else old(endpoints)[..k] + old(endpoints)[k + 1..]
      ensures forall e :: e in old(endpoints) ==> e.groupMembers == NotNamed(old(e.groupMembers), name)
      ensures cut == old(cut) + set e | e in endpoints && e.name == name
    {
      hide Linked, Coherent, AllFine, AllValid, TimerRuns, NotNamed, Closed;
      UnlinkAll(name);
      k := EraseNamed(name);
    }

    /** All others in use of the group that have another name and are not cut are on the list. */
    ghost predicate LinkedBut(name: string)
      reads this`endpoints, this`cut, endpoints`groupMembers
    {
      forall e, o :: e in endpoints && o in endpoints && o !in cut && o != e && SameGroup(e, o) && o.name != name ==>
        o in e.groupMembers
    }

    /** Erase the first endpoint of a name that is off all group lists. */
    method EraseNamed(name: string) returns (k: nat)
      requires Members() && AllValid() && TimerRuns() && Live() && AllFine(trace, cut)
      requires Coherent(Pool(endpoints), pool, cut) && Closed(pool) && LinkedBut(name)
      modifies this`endpoints, this`cut
      ensures Valid()
      ensures k <= |old(endpoints)| && forall i :: 0 <= i < k ==> old(endpoints)[i].name != name
      ensures k < |old(endpoints)| ==> old(endpoints)[k].name == name
      ensures endpoints == if k == |old(endpoints)| then old(endpoints)
                           else old(endpoints)[..k] + old(endpoints)[k + 1..]
      ensures cut == old(cut) + set e | e in endpoints && e.name == name
    {
      hide Linked, Coherent, AllFine, AllValid, TimerRuns, Closed, LinkedBut, Live, Valid;
      k := FindNamed(name);
      if k < |endpoints| {
        DistinctDrop(endpoints, k);
        Retain(endpoints[..k] + endpoints[k + 1..], name);
      } else {
        Retain(endpoints, name);
      }
    }

    /** Go on with these endpoints only; those that have the name are cut off from their group. */
    method Retain(rest: seq<Endpoint>, ghost name: string)
      requires Members() && AllValid() && TimerRuns() && Live() && AllFine(trace, cut)
      requires Coherent(Pool(endpoints), pool, cut) && Closed(pool) && LinkedBut(name)
      requires Distinct(rest) && forall e :: e in rest ==> e in endpoints
      modifies this`endpoints, this`cut
      ensures Valid() && endpoints == rest
      ensures cut == old(cut) + set e | e in endpoints && e.name == name
    {
      hide Linked, Coherent, AllFine, AllValid, TimerRuns, Closed, LinkedBut, Distinct;
      ghost var more := cut + set e | e in rest && e.name == name;
      StillLinked(name, rest, more);
      FewerCoherent(Pool(rest), Pool(endpoints), pool, cut, more);
      StillAllFine(trace, cut, more);
      cut, endpoints := more, rest;
    }

    /** Take a name off the group lists of all endpoints in use. */
    method UnlinkAll(name: string)
      requires Members() && Linked(Pool(endpoints), pool, cut)
      modifies pool`groupMembers
      ensures Closed(pool)
      ensures forall e :: e in endpoints ==> e.groupMembers == NotNamed(old(e.groupMembers), name)
      ensures LinkedBut(name)
    {
      hide NotNamed;
      assert forall e :: e in endpoints <==> e in Pool(endpoints);
      for i := 0 to |endpoints|
        invariant forall j :: 0 <= j < i ==>
                    endpoints[j].groupMembers == NotNamed(old(endpoints[j].groupMembers), name)
        invariant forall e :: e in pool && e !in endpoints[..i] ==> e.groupMembers == old(e.groupMembers)
      {
        assert endpoints[..i + 1] == endpoints[..i] + [endpoints[i]];
        assert endpoints[i] !in endpoints[..i];
        endpoints[i].UnlinkGroupMember(name);
      }
      assert endpoints[..|endpoints|] == endpoints;
      forall e | e in endpoints
        ensures forall o :: o in e.groupMembers <==> o in old(e.groupMembers) && o.name != name
      {
        NotNamedMembers(old(e.groupMembers), name);
      }
    }

    lemma StillLinked(name: string, rest: seq<Endpoint>, more: set<Endpoint>)
      requires Members() && Closed(pool) && (forall e :: e in rest ==> e in endpoints)
      requires more == cut + set e | e in rest && e.name == name
      requires LinkedBut(name)
      ensures Linked(Pool(rest), pool, more)
    {
    }

    /** Mainloop::handle_tcp_connection: a client connection joins, without a group, filters or throttling. */
    method HandleTcpConnection(link: nat -> LinkIo)
      requires Valid() && AllPast(pool, clock.time)
      modifies this`endpoints, this`pool, this`births, pool`groupMembers
      ensures Valid() && AllPast(pool, clock.time)
      ensures |endpoints| == |old(endpoints)| + 1 && endpoints[..|old(endpoints)|] == old(endpoints)
      ensures fresh(endpoints[|old(endpoints)|]) && pool == old(pool) + {endpoints[|old(endpoints)|]}
      ensures var client := endpoints[|old(endpoints)|];
              && client.kind.Tcp? && client.name == "dynamic" && client.groupName == "" && client.groupMembers == []
              && client.outFilters == client.inFilters == NO_FILTERS && client.cacheIds == {} && !client.retries
              && client.link == link && client.sysCompIds == [] && client.shaper == Shaper(map[], map[], 0, 0)
      ensures forall o :: o in old(endpoints) ==> o.groupMembers == old(o.groupMembers)
    {
      hide Valid, Endpoint.Valid, LinkedTo, AllPast;
      AllInPool();
      var client := new Endpoint(Tcp, "dynamic", "", NO_FILTERS, NO_FILTERS, {}, false, link, births, true);
      Enlist(client);
      MembersHaveGroup(client, old(endpoints));
    }

    /**
     The `add` command. A name in use is refused; otherwise, whatever its group has learned, the newcomer joins
     knowing nothing.
     */
    method AddEndpoint(name: string, groupName: string, receiver: bool, outFilters: Filters, inFilters: Filters,
                       link: nat -> LinkIo) returns (done: bool)
      requires Valid() && AllPast(pool, clock.time)
      modifies this`endpoints, this`pool, this`births, pool`groupMembers
      ensures Valid() && AllPast(pool, clock.time) && fresh(pool - old(pool))
      ensures done <==> forall e :: e in old(endpoints) ==> e.name != name
      ensures !done ==>
                endpoints == old(endpoints) && forall e :: e in old(pool) ==> e.groupMembers == old(e.groupMembers)
      ensures done ==>
                && |endpoints| == |old(endpoints)| + 1 && endpoints[..|old(endpoints)|] == old(endpoints)
                && fresh(endpoints[|old(endpoints)|]) && pool == old(pool) + {endpoints[|old(endpoints)|]}
                && LinkedTo(endpoints[|old(endpoints)|], old(endpoints))
                && var added := endpoints[|old(endpoints)|];
                   && added.kind == Udp(receiver) && added.name == name && added.groupName == groupName
                   && added.outFilters == outFilters && added.inFilters == inFilters && added.link == link
                   && added.sysCompIds == [] && added.shaper == Shaper(map[], map[], 0, 0)
                   && added.cacheIds == {} && !added.retries
                   && (added.punctual <==> GroupSawNothing(old(pool), added))
                   && forall o :: o in old(endpoints) ==>
                        o.groupMembers == old(o.groupMembers)
                          + if groupName != "" && o.groupName == groupName then [added] else []
    {
      hide Valid, Endpoint.Valid, LinkedTo, AllPast;
      AllInPool();
      var k := FindNamed(name);
      if k < |endpoints| {
        return false;
      }
      ghost var inTime := groupName == "" || forall o :: o in pool && o.groupName == groupName ==> o.seen == {};
      var added := new Endpoint(Udp(receiver), name, groupName, outFilters, inFilters, {}, false, link, births, inTime);
      Enlist(added);
      return true;
    }

    /** What the invariant says to an observer. */
    lemma InEveryState()
      requires Valid()
      ensures HasCached() && (forall n :: 0 <= n < timers.tries ==> timers.creates(n)) ==>
                && resendScheduled && resendTimer != null && resendTimer in timers.nodes
                && !resendTimer.removeMe && IsArmed(resendTimer.spec)
      ensures forall d :: d in trace ==> Fine(d, cut)
      ensures forall e, a :: e in endpoints && e !in cut && e.punctual ==>
                (a in e.sysCompIds <==> SeenInGroup(pool, e, a))
      ensures forall e, o, a :: e in endpoints && o in endpoints && SameGroup(e, o) && a in o.sysCompIds ==>
                a in e.sysCompIds || e in cut || e.born >= o.born
    {
      hide Fine, IsArmed, Endpoint.Valid, Linked, HasCached, TimeoutList.Valid;
      assert forall e :: e in endpoints ==> e in Pool(endpoints);
    }

    lemma AllInPool()
      requires Valid()
      ensures forall e :: e in endpoints ==> e in pool
    {
    }

    /** Link a new endpoint to its group and put it at the end of the list. */
    method Enlist(e: Endpoint)
      requires Valid() && AllPast(pool, clock.time)
      requires e !in pool && e.Valid() && e.shaper.cache == map[] && e.born == births && e.attempts == []
      requires e.groupMembers == [] && e.sysCompIds == [] && e.seen == {}
      requires e.punctual <==> GroupSawNothing(pool, e)
      modifies this`endpoints, this`pool, this`births, e`groupMembers, endpoints`groupMembers
      ensures Valid() && AllPast(pool, clock.time) && endpoints == old(endpoints) + [e] && pool == old(pool) + {e}
      ensures LinkedTo(e, old(endpoints))
      ensures forall o :: o in old(endpoints) ==>
                o.groupMembers == old(o.groupMembers) + if SameGroup(e, o) then [e] else []
    {
      hide Linked, Coherent, AllFine, TimerRuns, Endpoint.Valid, LinkedTo;
      assert forall o :: o in endpoints <==> o in Pool(endpoints);
      LinkNewcomer(e, endpoints, pool, cut);
      Join(e);
    }

    /** Put a linked newcomer at the end of the list. */
    method Join(e: Endpoint)
      requires Members() && AllValid() && TimerRuns() && Live() && AllFine(trace, cut) && AllPast(pool, clock.time)
      requires e !in pool && e !in endpoints && e.Valid() && e.shaper.cache == map[] && e.born == births
      requires e.attempts == []
      requires Linked(Pool(endpoints) + {e}, pool + {e}, cut) && Coherent(Pool(endpoints) + {e}, pool + {e}, cut)
      modifies this`endpoints, this`pool, this`births
      ensures Valid() && AllPast(pool, clock.time) && endpoints == old(endpoints) + [e] && pool == old(pool) + {e}
    {
      hide Linked, Coherent, AllFine, TimerRuns, Endpoint.Valid;
      DistinctMore(endpoints, e);
      assert Pool(endpoints + [e]) == Pool(endpoints) + {e};
      endpoints := endpoints + [e];
      pool, births := pool + {e}, births + 1;
    }

    /** The `throttle` command on the first endpoint of this name. */
    method SetThrottle(name: string, id: nat, period: nat)
      requires Valid() && AllPast(pool, clock.time)
      modifies endpoints`shaper, endpoints`book, clock
      ensures Valid() && AllPast(pool, clock.time)
      ensures forall i :: 0 <= i < |endpoints| ==>
                if endpoints[i].name == name && (forall j :: 0 <= j < i ==> endpoints[j].name != name) then
                  endpoints[i].shaper == Rerated(old(endpoints[i].shaper), id, period, clock.time)
                else endpoints[i].shaper == old(endpoints[i].shaper)
    {
      hide Valid, Rerated;
      AllDistinct();
      var k := FindNamed(name);
      if k < |endpoints| {
        SetThrottleOn(endpoints[k], id, period);
      }
    }

    method SetThrottleOn(e: Endpoint, id: nat, period: nat)
      requires Valid() && AllPast(pool, clock.time) && e in endpoints
      modifies e`shaper, e`book, clock
      ensures Valid() && AllPast(pool, clock.time)
      ensures e.shaper == Rerated(old(e.shaper), id, period, clock.time)
    {
      hide Linked, Coherent, AllFine, Members, TimerRuns, Endpoint.Valid, SetRate, MayFollow;
      InPool(e);
      ghost var start := clock.time;
      var now := clock.Now();
      AllPastLater(pool, start, now);
      e.SetMessageThrottling(id, period, now);
      assert forall x :: x in endpoints ==> x.shaper.cache == old(x.shaper.cache);
    }
  }

  /**
   What draining an endpoint that was in this state at `time` must have done: what left the queues the link
   took, in order; if the endpoint is closed, as it was before or the link's last answer made it, the rest is
   gone; and everything due then is gone unless the link's last answer was an error or closed the endpoint.
   */
  ghost predicate Drained(e: Endpoint, was: Snapshot, time: int)
    reads e`fd, e`shaper, e`attempts, e`teardowns
  {
    && was.attempts <= e.attempts && e.fd == e.FdSince(|was.attempts|, was.fd)
    && (e.LastFails(|was.attempts|) || NoneDue(e.shaper, e.shaper.cache.Keys, time))
    && (e.fd >= 0 ==>
          && HandedOver(was.shaper.cache, e.attempts[|was.attempts|..], e.shaper.cache)
          && e.teardowns == was.teardowns)
    && (e.fd < 0 ==>
          && e.shaper.cache == map[]
          && forall id: nat :: Taken(e.attempts[|was.attempts|..], id) <= QueueOf(was.shaper.cache, id))
  }

  lemma DrainedEarlier(e: Endpoint, was: Snapshot, time: int, earlier: int)
    requires Drained(e, was, time) && earlier <= time
    ensures Drained(e, was, earlier)
  {
    hide HandedOver, Taken;
  }

  lemma HandedIsPrefix(was: map<nat, seq<Msg>>, attempts: seq<Attempt>, rest: map<nat, seq<Msg>>)
    requires HandedOver(was, attempts, rest)
    ensures forall id: nat :: Taken(attempts, id) <= QueueOf(was, id)
  {
    hide Taken;
  }

  /** No write attempt was made after `now`. */
  ghost predicate AllPast(pool: set<Endpoint>, now: int)
    reads pool`attempts
  {
    forall e :: e in pool ==> InPast(e.attempts, now)
  }

  lemma AllPastLater(pool: set<Endpoint>, now: int, later: int)
    requires AllPast(pool, now) && now <= later
    ensures AllPast(pool, later)
  {
  }

  lemma AllPastBut(pool: set<Endpoint>, e: Endpoint, now: int, later: int)
    requires (forall x :: x in pool && x != e ==> InPast(x.attempts, now)) && now <= later
    requires InPast(e.attempts, later)
    ensures AllPast(pool, later)
  {
  }

  lemma NothingAtDepth(depth: nat)
    ensures AtDepth([], depth) == [] && Spans([], depth, [])
  {
  }

  lemma MembersHaveGroup(e: Endpoint, endpoints: seq<Endpoint>)
    requires LinkedTo(e, endpoints)
    ensures e.groupMembers != [] ==> e.groupName != ""
  {
    assert e.groupMembers != [] ==> e.groupMembers[0] in e.groupMembers;
  }

  const NO_FILTERS := Filters([], [], [], [], [], [])

  lemma WithoutMembers(all: seq<Endpoint>, gone: set<Endpoint>)
    ensures forall e :: e in Without(all, gone) <==> e in all && e !in gone
  {
    forall e
      ensures e in Without(all, gone) <==> e in all && e !in gone
    {
      MembersSplit(all, gone, e);
    }
  }

  ghost function BrokenTcp(endpoints: seq<Endpoint>): set<Endpoint>
    reads endpoints`valid
  {
    set e | e in endpoints && e.kind.Tcp? && !e.valid
  }

  lemma WithoutIsPart(nodes: seq<Timeout>, gone: set<Timeout>)
    ensures forall t :: t in Without(nodes, gone) ==> t in nodes
  {
    forall t | t in Without(nodes, gone)
      ensures t in nodes
    {
      MembersSplit(nodes, gone, t);
    }
  }

  lemma WithoutDistinct(all: seq<Endpoint>, gone: set<Endpoint>)
    requires Distinct(all)
    ensures Distinct(Without(all, gone))
    ensures forall e :: e in Without(all, gone) ==> e in all
  {
    RemovedOnce(all, gone);
    forall e | e in Without(all, gone)
      ensures e in all
    {
      MembersSplit(all, gone, e);
    }
  }

  /** The end of Mainloop::add_endpoints: the configured endpoints are linked into their groups. */
  method StartUp(start: seq<Endpoint>, sniffer: nat, creates: nat -> bool) returns (loop: Loop)
    requires Distinct(start)
    requires forall e :: e in start ==> IsFresh(e) && e.groupMembers == []
    modifies start`groupMembers
    ensures fresh(loop) && loop.Valid() && AllPast(loop.pool, loop.clock.time)
    ensures loop.endpoints == start && loop.sniffer == sniffer && loop.timers.creates == creates
    ensures loop.trace == [] && !loop.resendScheduled && !loop.tcpHangups && loop.history == []
  {
    hide Linked, Coherent, Endpoint.Valid, TimeoutList.Valid;
    var clock := new Clock();
    var timers := new TimeoutList(creates);
    LinkGroups(start);
    assert forall e :: e in start ==> IsFresh(e);
    FreshIsCoherent(Pool(start));
    loop := new Loop(start, sniffer, clock, timers);
  }

  // ----- Whole runs

  /** Anything that may happen between two waits of the loop. */
  /** What routing one message did. */
  datatype Passage = Passage(states: seq<AcceptState>, checked: seq<int>, log: seq<Delivery>)

  datatype Event =
    | Receive(k: nat, m: Msg, isNew: bool)
    | LogSends(own: Msg)
    | ResendDue
    | Connect(link: nat -> LinkIo)
    | Hangups
    | Add(name: string, groupName: string, receiver: bool, outFilters: Filters, inFilters: Filters,
          link: nat -> LinkIo)
    | Remove(name: string)
    | Throttle(name: string, id: nat, period: nat)
    | LinkChanges(e: nat, fd: int, hasPeer: bool, valid: bool)
    | AddTimer(ms: nat)
    | EndIteration

  /**
   Every reachable state: whatever happens, in whatever order, the invariant holds after each event. So
   cached messages always have a running timer, no message was ever looped back, routing never nested
   more than two deep, and every endpoint that joined its group in time knows exactly what it has seen.
   */
  method Run(loop: Loop, events: seq<Event>)
    requires loop.Valid() && AllPast(loop.pool, loop.clock.time)
    requires forall i :: 0 <= i < |events| && events[i].Receive? ==> WellFormed(events[i].m)
    requires forall i :: 0 <= i < |events| && events[i].LogSends? ==>
               WellFormed(events[i].own) && Source(events[i].own) == LOG_ADDRESS
    modifies loop, loop.pool, loop.clock, loop.timers, loop.timers.NodeSet()
    ensures loop.Valid() && AllPast(loop.pool, loop.clock.time) && loop.history == old(loop.history) + events
    ensures loop.HasCached() && (forall n :: 0 <= n < loop.timers.tries ==> loop.timers.creates(n)) ==>
              && loop.resendScheduled && loop.resendTimer != null && loop.resendTimer in loop.timers.nodes
              && !loop.resendTimer.removeMe && IsArmed(loop.resendTimer.spec)
    ensures forall d :: d in loop.trace ==> Fine(d, loop.cut)
    ensures forall e, a :: e in loop.endpoints && e !in loop.cut && e.punctual ==>
              (a in e.sysCompIds <==> SeenInGroup(loop.pool, e, a))
    ensures forall e, o, a :: e in loop.endpoints && o in loop.endpoints && SameGroup(e, o) && a in o.sysCompIds ==>
              a in e.sysCompIds || e in loop.cut || e.born >= o.born
  {
    hide Loop.Valid, WellFormed, AllPast, Fine, SeenInGroup, SameGroup, IsArmed, Loop.HasCached;
    for i := 0 to |events|
      invariant loop.Valid() && AllPast(loop.pool, loop.clock.time)
      invariant fresh(loop.pool - old(loop.pool)) && fresh(loop.timers.NodeSet() - old(loop.timers.NodeSet()))
      invariant loop.history == old(loop.history) + events[..i]
    {
      Step(loop, events[i]);
    }
    assert events[..|events|] == events;
    loop.InEveryState();
  }

  /** One event. */
  method Step(loop: Loop, ev: Event)
    requires loop.Valid() && AllPast(loop.pool, loop.clock.time)
    requires ev.Receive? ==> WellFormed(ev.m)
    requires ev.LogSends? ==> WellFormed(ev.own) && Source(ev.own) == LOG_ADDRESS
    modifies loop, loop.pool, loop.clock, loop.timers, loop.timers.NodeSet()
    ensures loop.Valid() && AllPast(loop.pool, loop.clock.time) && loop.history == old(loop.history) + [ev]
    ensures fresh(loop.pool - old(loop.pool)) && fresh(loop.timers.NodeSet() - old(loop.timers.NodeSet()))
  {
    hide Loop.Valid, WellFormed, RoutedPast, Drained, Snapshots, InAllowed, Without, Rerated, AllPast, StateOf;
    match ev {
      case Receive(k, m, isNew) =>
        ghost var did := StepReceive(loop, k, m, isNew);
      case LogSends(own) =>
        ghost var did := StepLogSends(loop, own);
      case ResendDue => StepResendDue(loop);
      case _ => StepAdmin(loop, ev);
    }
  }

  /** A message that comes in is learned from and routed. */
  method StepReceive(loop: Loop, k: nat, m: Msg, isNew: bool) returns (ghost did: Passage)
    requires loop.Valid() && AllPast(loop.pool, loop.clock.time) && WellFormed(m)
    modifies loop, loop.pool, loop.clock, loop.timers, loop.timers.NodeSet()
    ensures loop.Valid() && AllPast(loop.pool, loop.clock.time)
    ensures loop.history == old(loop.history) + [Receive(k, m, isNew)]
    ensures loop.pool == old(loop.pool) && fresh(loop.timers.NodeSet() - old(loop.timers.NodeSet()))
    ensures loop.endpoints == old(loop.endpoints) && loop.trace == old(loop.trace) + did.log
    ensures k < |loop.endpoints| ==>
              var e := loop.endpoints[k];
              var learns, routes := !isNew || InAllowed(e.inFilters, m), isNew && InAllowed(e.inFilters, m);
              && e.seen == old(e.seen) + (if learns then {Source(m)} else {})
              && (routes ==> RoutedPast(m, 1, Some(e), loop.sniffer, old(loop.clock.time), old(Snapshots(loop.pool)),
                                        loop.endpoints, did.states, did.checked, did.log))
              && (!routes ==> did.log == [])
  {
    hide Loop.Valid, WellFormed, RoutedPast, Snapshots, InAllowed, AllPast;
    did := Passage([], [], []);
    loop.history := loop.history + [Receive(k, m, isNew)];
    if k < |loop.endpoints| {
      loop.NotBefore(k);
      var states;
      ghost var checked, log;
      states, checked, log := loop.HandleMsg(loop.endpoints[k], m, isNew);
      did := Passage(states, checked, log);
    }
  }

  /** A message that a log endpoint sends by itself is routed. */
  method StepLogSends(loop: Loop, own: Msg) returns (ghost did: Passage)
    requires loop.Valid() && AllPast(loop.pool, loop.clock.time) && WellFormed(own) && Source(own) == LOG_ADDRESS
    modifies loop, loop.pool, loop.clock, loop.timers, loop.timers.NodeSet()
    ensures loop.Valid() && AllPast(loop.pool, loop.clock.time)
    ensures loop.history == old(loop.history) + [LogSends(own)]
    ensures loop.pool == old(loop.pool) && fresh(loop.timers.NodeSet() - old(loop.timers.NodeSet()))
    ensures loop.endpoints == old(loop.endpoints) && loop.trace == old(loop.trace) + did.log
    ensures RoutedPast(own, 1, None, loop.sniffer, old(loop.clock.time), old(Snapshots(loop.pool)),
                       loop.endpoints, did.states, did.checked, did.log)
  {
    hide Loop.Valid, WellFormed, RoutedPast, Snapshots, Spared, AllRejected, AllPast;
    loop.history := loop.history + [LogSends(own)];
    var states, unknown;
    ghost var checked, log;
    states, unknown, checked, log := loop.RouteMsg(own, 1, None);
    did := Passage(states, checked, log);
  }

  /** A resend timer that expires drains the caches. */
  method StepResendDue(loop: Loop)
    requires loop.Valid() && AllPast(loop.pool, loop.clock.time)
    modifies loop, loop.pool, loop.clock, loop.timers, loop.timers.NodeSet()
    ensures loop.Valid() && AllPast(loop.pool, loop.clock.time) && loop.history == old(loop.history) + [ResendDue]
    ensures loop.pool == old(loop.pool) && loop.timers.NodeSet() == old(loop.timers.NodeSet())
    ensures loop.endpoints == old(loop.endpoints) && loop.trace == old(loop.trace)
    ensures old(loop.resendScheduled) ==>
              && (loop.resendScheduled <==> loop.HasCached())
              && forall e :: e in old(loop.endpoints) ==> Drained(e, old(StateOf(e)), old(loop.clock.time))
  {
    hide Loop.Valid, Loop.HasCached, Loop.TimerMeetsDeadline, Shrunk, Drained, StateOf, AllPast;
    loop.history := loop.history + [ResendDue];
    if loop.resendScheduled {
      loop.ScheduledTimer();
      loop.FireResendTimer();
    }
  }

  /** Endpoints, links, rates and timers come, go and change; nothing is written. */
  method StepAdmin(loop: Loop, ev: Event)
    requires loop.Valid() && AllPast(loop.pool, loop.clock.time)
    requires !ev.Receive? && !ev.LogSends? && !ev.ResendDue?
    modifies loop, loop.pool, loop.clock, loop.timers, loop.timers.NodeSet()
    ensures loop.Valid() && AllPast(loop.pool, loop.clock.time) && loop.history == old(loop.history) + [ev]
    ensures fresh(loop.pool - old(loop.pool)) && fresh(loop.timers.NodeSet() - old(loop.timers.NodeSet()))
    ensures loop.trace == old(loop.trace)
    ensures loop.endpoints == old(loop.endpoints) || ev.Connect? || ev.Hangups? || ev.Add? || ev.Remove?
    ensures ev.Hangups? ==> loop.endpoints == Without(old(loop.endpoints), BrokenTcp(old(loop.endpoints)))
    ensures ev.Connect? || (ev.Add? && forall e :: e in old(loop.endpoints) ==> e.name != ev.name) ==>
              |loop.endpoints| == |old(loop.endpoints)| + 1 && old(loop.endpoints) <= loop.endpoints
    ensures ev.Remove? && (exists e :: e in old(loop.endpoints) && e.name == ev.name) ==>
              |loop.endpoints| == |old(loop.endpoints)| - 1
    ensures ev.LinkChanges? && ev.e < |old(loop.endpoints)| ==>
              var e := old(loop.endpoints)[ev.e]; e.fd == ev.fd && e.hasPeer == ev.hasPeer && e.valid == ev.valid
    ensures ev.Throttle? ==>
              forall i :: 0 <= i < |old(loop.endpoints)| && old(loop.endpoints)[i].name == ev.name
                          && (forall j :: 0 <= j < i ==> old(loop.endpoints)[j].name != ev.name) ==>
                old(loop.endpoints)[i].shaper
                == Rerated(old(loop.endpoints[i].shaper), ev.id, ev.period, loop.clock.time)
    ensures ev.AddTimer? ==> loop.timers.tries == old(loop.timers.tries) + 1
    ensures ev.EndIteration? ==> loop.timers.nodes == Without(old(loop.timers.nodes), old(loop.timers.Flagged()))
  {
    hide Loop.Valid, Without, LinkedTo, Rerated, NotNamed, AllPast, BrokenTcp, GroupSawNothing, SameGroup;
    loop.AllInPool();
    loop.history := loop.history + [ev];
    match ev {
      case Connect(link) => loop.HandleTcpConnection(link);
      case Hangups => loop.ProcessTcpHangups();
      case Add(name, groupName, receiver, outFilters, inFilters, link) =>
        var _ := loop.AddEndpoint(name, groupName, receiver, outFilters, inFilters, link);
      case Remove(name) => var _ := loop.RemoveNamed(name);
      case Throttle(name, id, period) => loop.SetThrottle(name, id, period);
      case LinkChanges(k, fd, hasPeer, valid) =>
        // a reconnect, a new peer or one that went silent, a failed read or an error event
        if k < |loop.endpoints| {
          var e := loop.endpoints[k];
          e.fd, e.hasPeer, e.valid := fd, hasPeer, valid;
        }
      case AddTimer(ms) => loop.AddTimer(ms);
      case EndIteration => loop.SweepTimers();
    }
  }
}

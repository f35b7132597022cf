/**
 The endpoint object: the addresses it has learned, its group, its filters, and its throttle and cache
 state. The link below it is an oracle; modules Transmit and Coalescing look inside it.
 */
module Endpoints {
  import opened Bytes
  import opened Routing
  import opened Throttling
  import opened ThrottleCache
  import opened Shaping
  import opened Transmit

  /** A clock that never runs backwards. */
  class Clock {
    var time: int

    constructor ()
    {
      time := 0;
    }

    method Now() returns (t: int)
      modifies this
      ensures t == time >= old(time)
    {
      var passed: nat :| true;
      time := time + passed;
      t := time;
    }
  }

  datatype Kind = Uart | Udp(receiver: bool) | Tcp | Log

  /** What a call of the link's write_msg returns, and whether its connection broke during the call. */
  datatype LinkIo = LinkIo(rc: Rc, broke: bool)

  class Endpoint {
    const kind: Kind
    const name: string
    const groupName: string
    const outFilters: Filters
    const inFilters: Filters
    const cacheIds: set<nat>
    /** A TCP endpoint that reconnects by itself when the connection breaks. */
    const retries: bool
    /** How the link answers its n-th call, as far as its kind allows. */
    const link: nat -> LinkIo
    /** When it joined: 0 at start-up, and from then on in order. */
    ghost const born: nat
    /** It was there at start-up or joined before its group had seen anything. */
    ghost const punctual: bool
    var fd: int
    /** Cleared for good when a connection that is not retried breaks. */
    var valid: bool
    /** A UDP endpoint knows where to send. */
    var hasPeer: bool
    var sysCompIds: seq<SysCompId>
    var groupMembers: seq<Endpoint>
    var shaper: Shaper

    ghost var book: Book
    /** Every message taken in, to be written or cached, and every call of write_msg, so far. */
    ghost var offered: seq<Msg>
    var attempts: seq<Attempt>
    /** How often it was found closed, or closed during a direct write. */
    ghost var teardowns: nat
    /** The sources seen on this very endpoint. */
    ghost var seen: set<SysCompId>

    /**
     The account balances, and agrees with what was offered and with the write attempts made; those agree
     with the link, and only a teardown has cleared anything.
     */
    ghost predicate Balanced()
      reads this`shaper, this`book, this`offered, this`attempts, this`teardowns
    {
      && Sound(shaper, cacheIds, book) && Faithful(attempts, offered, book)
      && Noted(shaper.throttle, book, attempts, teardowns)
    }

    ghost predicate Noted(throttle: map<nat, Throttle>, book: Book, attempts: seq<Attempt>, teardowns: nat)
    {
      Spacious(throttle, book.rated, attempts) && InOrder(attempts) && AgreedWith(attempts) && Torn(book, teardowns)
    }

    /** The record of a link endpoint holds what its link answered. */
    ghost predicate AgreedWith(attempts: seq<Attempt>)
    {
      kind.Log? || forall n :: 0 <= n < |attempts| ==> FromLink(attempts[n], Answer(n))
    }

    /** The endpoint's own state: its account balances, and no queue in its cache is empty. */
    ghost predicate Valid()
      reads this`shaper, this`book, this`offered, this`attempts, this`teardowns, this`sysCompIds
    {
      && Balanced() && NoEmptyQueue(shaper)
      && (forall i, j :: 0 <= i < j < |sysCompIds| ==> sysCompIds[i] != sysCompIds[j])
      && (kind.Log? ==> cacheIds == {} && LOG_ADDRESS in sysCompIds)
    }

    /** A log endpoint's constructor puts its own address in the list. */
    constructor (kind: Kind, name: string, groupName: string, outFilters: Filters, inFilters: Filters,
                 cacheIds: set<nat>, retries: bool, link: nat -> LinkIo, ghost born: nat, ghost punctual: bool)
      requires kind.Log? ==> cacheIds == {} && groupName == ""
      ensures Valid() && this.kind == kind && this.name == name && this.groupName == groupName
      ensures this.outFilters == outFilters && this.inFilters == inFilters
      ensures this.retries == retries && this.link == link && fd == 0 && valid && hasPeer
      ensures shaper.throttle == map[] && shaper.cacheDropped == 0 && shaper.linkDropped == 0
      ensures this.born == born && this.punctual == punctual
      ensures this.cacheIds == cacheIds && groupMembers == [] && shaper.cache == map[]
      ensures offered == [] && attempts == [] && teardowns == 0
      ensures sysCompIds == (if kind.Log? then [LOG_ADDRESS] else []) && seen == (set a | a in sysCompIds)
    {
      this.kind, this.name, this.groupName, this.cacheIds := kind, name, groupName, cacheIds;
      this.outFilters, this.inFilters := outFilters, inFilters;
      this.retries, this.link, this.born, this.punctual := retries, link, born, punctual;
      fd, valid, hasPeer, groupMembers := 0, true, true, [];
      sysCompIds := if kind.Log? then [LOG_ADDRESS] else [];
      shaper := Shaper(map[], map[], 0, 0);
      book, offered, attempts, teardowns := Book(map[], map[], map[], map[], multiset{}, multiset{}), [], [], 0;
      seen := if kind.Log? then {LOG_ADDRESS} else {};
    }

    // ----- Routing

    /** The endpoint is connected to something it can send to. */
    predicate IsOpen()
      reads this`fd, this`hasPeer
    {
      OpenWith(fd, hasPeer)
    }

    predicate OpenWith(fd: int, hasPeer: bool)
    {
      match kind
      case Udp(receiver) => !receiver && hasPeer
      case Tcp => fd != -1
      case _ => true
    }

    /** accept_msg of all endpoint types. */
    function AcceptMsg(m: Msg, now: int, sniffer: nat): AcceptState
      reads this`fd, this`hasPeer, this`sysCompIds, this`shaper
    {
      AnswerWith(fd, hasPeer, sysCompIds, shaper, m, now, sniffer)
    }

    function AnswerWith(fd: int, hasPeer: bool, ids: seq<SysCompId>, shaper: Shaper, m: Msg, now: int, sniffer: nat)
      : AcceptState
    {
      if kind.Udp? && kind.receiver then Filtered
      else if (kind.Udp? && !hasPeer) || (kind.Tcp? && fd == -1) then Rejected
      else Accept(ids, outFilters, sniffer, GateOf(shaper, cacheIds, m.id, now), m)
    }

    /** The routing rules for this endpoint, whatever the state of its link. */
    ghost predicate WouldRoute(m: Msg, sniffer: nat)
      reads this`sysCompIds
    {
      Routes(sysCompIds, outFilters, sniffer, m)
    }

    /** Served exactly if the rules say so and the link is up; and never back to a known source. */
    lemma AcceptIsRouting(m: Msg, now: int, sniffer: nat)
      requires WellFormed(m)
      ensures Served(AcceptMsg(m, now, sniffer)) <==> WouldRoute(m, sniffer) && IsOpen()
      ensures IsOpen() <==> (kind.Udp? ==> !kind.receiver && hasPeer) && (kind.Tcp? ==> fd != -1)
      ensures AcceptMsg(m, now, sniffer).Accepted? || AcceptMsg(m, now, sniffer).Cached? ==>
                Source(m) !in sysCompIds
    {
      hide Routes;
      AcceptFollowsRules(sysCompIds, outFilters, sniffer, GateOf(shaper, cacheIds, m.id, now), m);
    }

    /**
     What an endpoint that serves a message answers: it discards one that comes too early, unless it is to
     be cached; it caches one that comes too early or behind a queue of its id; it accepts all others.
     */
    lemma AcceptDecides(m: Msg, now: int, sniffer: nat)
      requires WellFormed(m) && WouldRoute(m, sniffer) && IsOpen()
      ensures var st, throttled := AcceptMsg(m, now, sniffer), m.id != NO_MSG_ID && m.id in shaper.throttle;
              && (st.Throttled? <==> throttled && now < shaper.throttle[m.id].next && m.id !in cacheIds)
              && (st.Cached? <==> throttled && m.id in cacheIds
                                  && (now < shaper.throttle[m.id].next || m.id in shaper.cache))
              && (st.Accepted? <==> throttled ==>
                    now >= shaper.throttle[m.id].next && (m.id in cacheIds ==> m.id !in shaper.cache))
    {
      hide Routes;
      AnswerDecides(fd, hasPeer, sysCompIds, shaper, m, now, sniffer);
      AcceptIsRouting(m, now, sniffer);
    }

    /** So in every state: what is served is decided by the throttle table, the cacheable ids and the cache. */
    lemma AnswerDecides(fd: int, hasPeer: bool, ids: seq<SysCompId>, shaper: Shaper, m: Msg, now: int, sniffer: nat)
      ensures var st := AnswerWith(fd, hasPeer, ids, shaper, m, now, sniffer);
              Served(st) ==> Decided(shaper, cacheIds, m.id, now, st)
    {
      hide HasSysCompId, OutFiltered, IsTarget;
    }

    /** Who is not served: filtered on a receive-only endpoint or by the filters, and rejected otherwise. */
    lemma AcceptRefuses(m: Msg, now: int, sniffer: nat)
      requires WellFormed(m)
      ensures var st := AcceptMsg(m, now, sniffer);
              && (st.Filtered? <==> if kind.Udp? && kind.receiver then true
                                    else IsOpen() && (m.srcSys, m.srcComp) !in Systems(sysCompIds)
                                         && !Permitted(outFilters, m))
              && (st.Rejected? <==> !st.Filtered? && !(WouldRoute(m, sniffer) && IsOpen()))
    {
      hide Routes, Permitted, Systems;
      AcceptIsRouting(m, now, sniffer);
      AcceptFollowsRules(sysCompIds, outFilters, sniffer, GateOf(shaper, cacheIds, m.id, now), m);
    }

    /** What an endpoint that takes a message has checked. */
    lemma AcceptChecks(m: Msg, now: int, sniffer: nat)
      ensures AcceptMsg(m, now, sniffer).Accepted? && IsThrottled(shaper, m.id) ==>
                IsDue(shaper.throttle[m.id], now) && (m.id in cacheIds ==> m.id !in shaper.cache)
      ensures AcceptMsg(m, now, sniffer).Cached? ==> m.id in cacheIds && IsThrottled(shaper, m.id)
    {
    }

    // ----- The link

    /**
     The answer to the n-th call of write_msg. -ENOBUFS refuses the message, and a TCP connection may break
     during the call, whatever that returns.
     */
    function Answer(n: nat): (io: LinkIo)
      ensures IsOutcome(io)
    {
      var rc := link(n).rc;
      LinkIo(rc, kind.Tcp? && (rc == Err(EPIPE) || (link(n).broke && (!retries || rc.Ok? || rc == Err(ENOBUFS)))))
    }

    predicate IsOutcome(io: LinkIo)
    {
      if kind.Tcp? then TcpOutcome(io.rc, io.broke, retries) else !io.broke
    }

    /** The connection broke and the endpoint is closed until it reconnects. */
    predicate Closes(io: LinkIo)
    {
      io.broke && retries
    }

    /** The link was handed the message unless it refused it or the connection closed over it. */
    predicate Takes(io: LinkIo)
    {
      io.rc != Err(ENOBUFS) && !(Closes(io) && io.rc.Err?)
    }

    predicate Fails(io: LinkIo)
    {
      io.rc.Err? || Closes(io)
    }

    /** A message that went into the buffer of a connection closed just before is charged only on the direct path. */
    function AttemptOf(m: Msg, io: LinkIo, direct: bool, at: int, next: int): Attempt
    {
      Attempt(m, Takes(io), direct || !Closes(io), Fails(io), at, next)
    }

    ghost predicate FromLink(a: Attempt, io: LinkIo)
    {
      a.taken == Takes(io) && a.failed == Fails(io) && (a.charged || Closes(io))
    }

    /** write_msg of a link endpoint, as seen from above: a broken connection closes or invalidates it. */
    method LinkWrite(m: Msg, clock: Clock, direct: bool) returns (io: LinkIo)
      modifies this`fd, this`valid, this`attempts
      ensures io == Answer(|old(attempts)|)
      ensures fd == (if Closes(io) then -1 else old(fd))
      ensures valid == (if io.broke then retries else old(valid))
      ensures attempts == old(attempts) + [AttemptOf(m, io, direct, clock.time, NextOf(shaper, m.id))]
    {
      io := Answer(|attempts|);
      attempts := attempts + [AttemptOf(m, io, direct, clock.time, NextOf(shaper, m.id))];
      if io.broke {
        valid := retries;
        if retries {
          fd := -1;
        }
      }
    }

    /** The record goes on with an attempt at `a.at`. */
    lemma NotedMore(before: seq<Attempt>, a: Attempt)
      requires InOrder(before) && InPast(before, a.at) && AgreedWith(before)
      requires kind.Log? || FromLink(a, Answer(|before|))
      ensures InOrder(before + [a]) && AgreedWith(before + [a])
    {
    }

    /** What Mainloop::write_msg and Mainloop::route_msg do after handing a message to the link. */
    method FinishWrite(m: Msg, rc: Rc, ghost io: LinkIo, ghost before: seq<Attempt>, ghost at: int,
                       ghost checked: int, updated: int)
      requires Sound(shaper, cacheIds, book) && Faithful(before, offered, book) && rc == io.rc
      requires Spacious(shaper.throttle, book.rated, before) && InOrder(before) && InPast(before, at)
      requires AgreedWith(before)
      requires kind.Log? || io == Answer(|before|)
      requires Torn(book, teardowns)
      requires attempts == before + [AttemptOf(m, io, true, at, NextOf(shaper, m.id))] && checked <= at <= updated
      requires IsThrottled(shaper, m.id) ==> IsDue(shaper.throttle[m.id], checked)
      requires IsThrottled(shaper, m.id) && m.id in cacheIds ==> m.id !in shaper.cache
      modifies this`shaper, this`book, this`offered, this`teardowns
      ensures Balanced() && SameFollowed(old(book), book) && offered == old(offered) + [m]
      ensures Takes(io) || rc == Err(ENOBUFS) ==> SameCleared(old(book), book)
      ensures teardowns == old(teardowns) + if Closes(io) then 1 else 0
      ensures shaper == AfterWrite(old(shaper), m, rc == Err(ENOBUFS), updated)
    {
      hide Sound, Faithful, Update, BookWrite, SameFollowed, SameCleared, Spacious, InOrder, InPast, Torn;
      if m.id in book.tracks {
        TracksAreThrottled(shaper, cacheIds, book, m.id);
      }
      ghost var a, refused, stamp := attempts[|before|], rc == Err(ENOBUFS), Stamp(checked, updated);
      WriteIsSound(shaper, cacheIds, book, m, a.taken, refused, stamp);
      WriteIsFaithful(before, offered, shaper, cacheIds, book, a, refused, stamp);
      WriteFollows(shaper, book, m, a.taken, refused, stamp);
      StaysTorn(book, BookWrite(shaper, book, m, a.taken, refused, stamp), teardowns);
      ghost var throttle := AfterWrite(shaper, m, refused, updated).throttle;
      AttemptIsSpacious(shaper.throttle, throttle, book.rated, before, a, updated);
      NotedMore(before, a);
      FollowsRated(book, BookWrite(shaper, book, m, a.taken, refused, stamp));
      book := BookWrite(shaper, book, m, a.taken, refused, stamp);
      offered := offered + [m];
      teardowns := teardowns + if Closes(io) then 1 else 0;
      if rc == Err(ENOBUFS) {
        shaper := shaper.(linkDropped := shaper.linkDropped + 1);
      }
      if IsThrottled(shaper, m.id) {
        shaper := Bump(shaper, m.id, updated);
      }
    }

    /** The direct path to a link endpoint, from the write to the throttle update. */
    method SendDirect(m: Msg, ghost checked: int, clock: Clock) returns (io: LinkIo)
      requires Valid() && !kind.Log? && checked <= clock.time && InPast(attempts, clock.time)
      requires IsThrottled(shaper, m.id) ==> IsDue(shaper.throttle[m.id], checked)
      requires IsThrottled(shaper, m.id) && m.id in cacheIds ==> m.id !in shaper.cache
      modifies this`fd, this`valid, this`attempts, this`offered, this`shaper, this`book, this`teardowns, clock
      ensures Valid() && SameFollowed(old(book), book) && clock.time >= old(clock.time)
      ensures io == Answer(|old(attempts)|) && offered == old(offered) + [m]
      ensures attempts == old(attempts) + [AttemptOf(m, io, true, old(clock.time), NextOf(old(shaper), m.id))]
      ensures Takes(io) || io.rc == Err(ENOBUFS) ==> SameCleared(old(book), book)
      ensures teardowns == old(teardowns) + if Closes(io) then 1 else 0
      ensures shaper == AfterWrite(old(shaper), m, io.rc == Err(ENOBUFS), clock.time)
      ensures fd == (if Closes(io) then -1 else old(fd))
      ensures valid == (if io.broke then retries else old(valid))
    {
      hide Sound, Faithful, Update, IsDue, SameFollowed, SameCleared, Spacious, InOrder, InPast, Torn, AfterWrite;
      ghost var before, at := attempts, clock.time;
      io := LinkWrite(m, clock, true);
      var updated := clock.Now();
      FinishWrite(m, io.rc, io, before, at, checked, updated);
      WriteKeepsCache(old(shaper), m, io.rc == Err(ENOBUFS), updated);
    }

    /** The direct path to a log endpoint, whose write_msg always takes the message. */
    method FinishLogWrite(m: Msg, ghost checked: int, clock: Clock)
      requires Valid() && kind.Log? && checked <= clock.time && InPast(attempts, clock.time)
      requires IsThrottled(shaper, m.id) ==> IsDue(shaper.throttle[m.id], checked)
      modifies this`attempts, this`offered, this`shaper, this`book, this`teardowns, clock
      ensures Valid() && SameFollowed(old(book), book) && clock.time >= old(clock.time)
      ensures offered == old(offered) + [m] && teardowns == old(teardowns)
      ensures attempts == old(attempts) + [Attempt(m, true, true, false, old(clock.time), NextOf(old(shaper), m.id))]
      ensures shaper == AfterWrite(old(shaper), m, false, clock.time)
    {
      hide Sound, Faithful, Update, IsDue, SameFollowed, SameCleared, Spacious, InOrder, InPast, Torn, AfterWrite;
      ghost var before, at := attempts, clock.time;
      var io := LinkIo(Ok(|m.data|), false);
      attempts := attempts + [AttemptOf(m, io, true, clock.time, NextOf(shaper, m.id))];
      var updated := clock.Now();
      FinishWrite(m, io.rc, io, before, at, checked, updated);
      WriteKeepsCache(old(shaper), m, false, updated);
    }

    // ----- Caching and resending

    /** Endpoint::cache_msg */
    method CacheMsg(m: Msg)
      requires Valid() && m.id in cacheIds
      modifies this`shaper, this`book, this`offered
      ensures Valid() && SameFollowed(old(book), book) && SameCleared(old(book), book) && shaper.cache.Keys != {}
      ensures offered == old(offered) + [m]
      ensures if TotalSize(old(shaper.cache)) >= MSG_CACHE_MAX_SIZE
              then shaper == old(shaper).(cacheDropped := old(shaper.cacheDropped) + 1)
              else shaper == Enqueue(old(shaper), m)
    {
      hide Sound, Faithful, TotalSize, OneArrived, BookQueued, BookArrived, Spacious, InOrder, Torn;
      var size := CacheSize(shaper.cache);
      if size >= MSG_CACHE_MAX_SIZE {
        FullIsNotEmpty(shaper.cache);
        CacheDropIsSound(shaper, cacheIds, book, m);
        ghost var b := BookArrived(book, m).(cacheDrops := book.cacheDrops + multiset{m.id});
        ArrivedBook(book, m, book.cacheDrops + multiset{m.id}, BookArrived(book, m).linkDrops);
        ArrivalIsFaithful(attempts, offered, book, b, m);
        StaysTorn(book, b, teardowns);
        book := b;
        offered := offered + [m];
        shaper := shaper.(cacheDropped := shaper.cacheDropped + 1);
        return;
      }
      EnqueueIsSound(shaper, cacheIds, book, m);
      QueuedBook(book, m);
      ArrivalIsFaithful(attempts, offered, book, BookQueued(book, m), m);
      StaysTorn(book, BookQueued(book, m), teardowns);
      book := BookQueued(book, m);
      offered := offered + [m];
      shaper := Enqueue(shaper, m);
      assert m.id in shaper.cache.Keys;
    }

    /** The account balances if `rest` is what is cached: all of the cache that the link does not have. */
    ghost predicate BalancedWith(rest: map<nat, seq<Msg>>)
      reads this`shaper, this`book, this`offered, this`attempts, this`teardowns
    {
      && Sound(shaper.(cache := rest), cacheIds, book) && Faithful(attempts, offered, book)
      && Noted(shaper.throttle, book, attempts, teardowns)
    }

    /** Forget everything cached: the connection is gone. */
    method ClearCache(ghost rest: map<nat, seq<Msg>>)
      requires BalancedWith(rest) && fd < 0
      modifies this`shaper, this`book, this`teardowns
      ensures Balanced() && SameFollowed(old(book), book) && shaper == old(shaper).(cache := map[])
      ensures teardowns == old(teardowns) + 1
    {
      hide Sound, Faithful, Spacious, InOrder, Torn;
      ghost var left := shaper.(cache := rest);
      ClearIsSound(left, cacheIds, book);
      StaysFaithful(attempts, offered, book, BookCleared(left, book));
      StaysTorn(book, BookCleared(left, book), teardowns);
      book := BookCleared(left, book);
      shaper := shaper.(cache := map[]);
      teardowns := teardowns + 1;
    }

    /**
     Hand the front message of a queue, found due at `checked`, to the link; false to stop here. A write
     that closes the endpoint leaves the message on its queue, which the caller then clears; `rest` is the
     cache without it if the link has it nevertheless.
     */
    method ResendOne(id: nat, ghost checked: int, clock: Clock)
      returns (rc: Rc, more: bool, ghost rest: map<nat, seq<Msg>>)
      requires Balanced() && !kind.Log? && fd >= 0 && id in shaper.cache && shaper.cache[id] != []
      requires checked == clock.time && (id in shaper.throttle ==> IsDue(shaper.throttle[id], checked))
      requires shaper.cache[id][0].id == id && InPast(attempts, clock.time)
      modifies this`fd, this`valid, this`attempts, this`shaper, this`book, clock
      ensures BalancedWith(rest) && SameFollowed(old(book), book) && SameCleared(old(book), book)
      ensures var io := Answer(|old(attempts)|);
              && rc == io.rc && more == !Fails(io)
              && fd == (if Closes(io) then -1 else old(fd))
              && valid == (if io.broke then retries else old(valid))
              && attempts == old(attempts)
                   + [AttemptOf(old(shaper.cache[id][0]), io, false, old(clock.time), NextOf(old(shaper), id))]
              && shaper == (if Closes(io) || rc == Err(ENOBUFS) then old(shaper)
                            else Pop(Bump(old(shaper), id, clock.time), id))
              && rest == (if Takes(io) then Pop(old(shaper), id).cache else old(shaper.cache))
      ensures clock.time >= old(clock.time)
    {
      hide Sound, Faithful, Update, IsDue, BookHanded, BookSend, SameFollowed, SameCleared;
      hide Spacious, InOrder, InPast, Torn;
      var m := shaper.cache[id][0];
      ghost var before, at := attempts, clock.time;
      var io := LinkWrite(m, clock, false);
      rc, more := io.rc, !Fails(io);
      FollowsSelf(book);
      ClearedSelf(book);
      ghost var a := attempts[|before|];
      NotedMore(before, a);
      rest := shaper.cache;
      if fd < 0 || rc == Err(ENOBUFS) {
        AttemptIsFaithful(before, offered, book, a, Stamp(at, at));
        AttemptIsSpacious(shaper.throttle, shaper.throttle, book.rated, before, a, at);
        if fd < 0 && rc.Ok? {
          HandedFollows(book, id, m);
          FollowsRated(book, BookHanded(book, id, m));
          PopIsSound(shaper, cacheIds, book, id);
          StaysTorn(book, BookHanded(book, id, m), teardowns);
          book := BookHanded(book, id, m);
          rest := Pop(shaper, id).cache;
        }
        return;
      }
      var updated := clock.Now();
      AttemptIsFaithful(before, offered, book, a, Stamp(checked, updated));
      AttemptIsSpacious(shaper.throttle, Bump(shaper, id, updated).throttle, book.rated, before, a, updated);
      ResendAccount(id, m, Stamp(checked, updated));
      shaper := Pop(Bump(shaper, id, updated), id);
      rest := shaper.cache;
    }

    /** Enter a resent message in the account: a send, and a message handed over. */
    ghost method ResendAccount(id: nat, m: Msg, stamp: Stamp)
      requires Sound(shaper, cacheIds, book) && Torn(book, teardowns)
      requires Faithful(attempts, offered, BookSend(BookHanded(book, id, m), id, stamp))
      requires id in shaper.cache && shaper.cache[id] != [] && m == shaper.cache[id][0]
      requires stamp.checked <= stamp.updated && (id in shaper.throttle ==> IsDue(shaper.throttle[id], stamp.checked))
      modifies this`book
      ensures Sound(Pop(Bump(shaper, id, stamp.updated), id), cacheIds, book) && Torn(book, teardowns)
      ensures Faithful(attempts, offered, book) && SameFollowed(old(book), book) && SameCleared(old(book), book)
      ensures book.rated == old(book.rated)
    {
      hide Sound, Faithful, Update, IsDue, Torn;
      SendIsSound(shaper, cacheIds, book, id, stamp);
      PopIsSound(Bump(shaper, id, stamp.updated), cacheIds, BookSend(book, id, stamp), id);
      StaysTorn(book, BookSend(BookHanded(book, id, m), id, stamp), teardowns);
      book := BookSend(BookHanded(book, id, m), id, stamp);
    }

    /** Where a drain that began after `before` attempts stands: the link has not failed, or its last answer did. */
    ghost predicate LastFails(before: nat)
      reads this`attempts
    {
      before < |attempts| && Fails(Answer(|attempts| - 1))
    }

    /** The answer to the last attempt of the drain, and success if it made none. */
    ghost function LastRc(before: nat): Rc
      reads this`attempts
    {
      if before < |attempts| then Answer(|attempts| - 1).rc else Ok(0)
    }

    /** The descriptor after a drain that found it at `was`: it closes only if the link's last answer says so. */
    ghost function FdSince(before: nat, was: int): int
      reads this`attempts
    {
      if before < |attempts| && Closes(Answer(|attempts| - 1)) then -1 else was
    }

    /** Whether the endpoint is valid after the writes from the n-th on: a broken connection decides. */
    ghost function ValidSince(n: nat, end: nat, was: bool): bool
    {
      if exists k :: n <= k < end && Answer(k).broke then retries else was
    }

    lemma ValidOn(n: nat, mid: nat, end: nat, was: bool)
      requires n <= mid <= end
      ensures ValidSince(mid, end, ValidSince(n, mid, was)) == ValidSince(n, end, was)
    {
      if k :| n <= k < end && Answer(k).broke {
        assert k < mid || mid <= k;
      }
    }

    lemma ValidOne(n: nat, was: bool)
      ensures ValidSince(n, n, was) == was
      ensures ValidSince(n, n + 1, was) == if Answer(n).broke then retries else was
    {
      if Answer(n).broke {
        assert exists k :: n <= k < n + 1 && Answer(k).broke;
      }
    }

    /** Endpoint::resend_queued_msgs: send the due messages at the head of one queue. */
    method ResendQueuedMsgs(id: nat, clock: Clock) returns (rc: Rc, ghost rest: map<nat, seq<Msg>>)
      requires Balanced() && !kind.Log? && fd >= 0 && id in shaper.cache && InPast(attempts, clock.time)
      modifies this`fd, this`valid, this`attempts, this`shaper, this`book, clock
      ensures BalancedWith(rest) && SameFollowed(old(book), book) && SameCleared(old(book), book)
      ensures old(attempts) <= attempts && InPast(attempts, clock.time) && clock.time >= old(clock.time)
      ensures HandedOver(old(shaper.cache), attempts[|old(attempts)|..], rest)
      ensures id in shaper.cache && (fd >= 0 ==> rest == shaper.cache)
      ensures rc == (if LastFails(|old(attempts)|) then LastRc(|old(attempts)|) else Ok(0))
      ensures fd == FdSince(|old(attempts)|, old(fd))
      ensures valid == ValidSince(|old(attempts)|, |attempts|, old(valid))
      ensures !LastFails(|old(attempts)|) && shaper.cache[id] != [] ==>
                id in shaper.throttle && !IsDue(shaper.throttle[id], clock.time)
      ensures SameThrottleBut(old(shaper), shaper, id)
      ensures ShrunkAt(shaper.cache, old(shaper.cache), id)
    {
      hide Sound, Faithful, Update, IsDue, SameFollowed, SameCleared, Endpoint.Noted, HandedOver, InPast;
      hide SameThrottleBut, ShrunkAt, Endpoint.ValidSince, Endpoint.Closes, Endpoint.Answer, NextOf;
      rc, rest := Ok(0), shaper.cache;
      ValidOne(|attempts|, valid);
      SameThrottleSelf(shaper, id);
      ShrunkAtSelf(shaper.cache, id);
      FollowsSelf(book);
      ClearedSelf(book);
      HandedNothing(shaper.cache);
      assert attempts[|attempts|..] == [];
      while shaper.cache[id] != []
        invariant Balanced() && SameFollowed(old(book), book) && SameCleared(old(book), book)
        invariant old(attempts) <= attempts && InPast(attempts, clock.time) && clock.time >= old(clock.time)
        invariant HandedOver(old(shaper.cache), attempts[|old(attempts)|..], rest)
        invariant fd == old(fd) && id in shaper.cache && rest == shaper.cache
        invariant valid == ValidSince(|old(attempts)|, |attempts|, old(valid))
        invariant !LastFails(|old(attempts)|) && SameThrottleBut(old(shaper), shaper, id)
        invariant ShrunkAt(shaper.cache, old(shaper.cache), id)
        decreases |shaper.cache[id]|
      {
        ghost var earlier := clock.time;
        var checked := clock.Now();
        PastIsPast(attempts, earlier, checked);
        if id in shaper.throttle && !IsDue(shaper.throttle[id], checked) {
          rc := Ok(0);
          return;
        }
        FrontIsKeyed(shaper, cacheIds, book, id);
        var more;
        ghost var before := shaper;
        rc, more, rest := ResendStep(id, checked, clock, |old(attempts)|, old(shaper.cache), old(book), old(valid));
        SameThrottleOn(old(shaper), before, shaper, id);
        ShrunkAtOn(old(shaper.cache), before.cache, shaper.cache, id);
        if !more {
          return;
        }
      }
      rc := Ok(0);
    }

    /** One message of it, on top of those before. */
    method ResendStep(id: nat, ghost checked: int, clock: Clock, ghost start: nat, ghost was: map<nat, seq<Msg>>,
                      ghost first: Book, ghost wasValid: bool)
      returns (rc: Rc, more: bool, ghost rest: map<nat, seq<Msg>>)
      requires Balanced() && !kind.Log? && fd >= 0 && id in shaper.cache && shaper.cache[id] != []
      requires checked == clock.time && (id in shaper.throttle ==> IsDue(shaper.throttle[id], checked))
      requires shaper.cache[id][0].id == id && InPast(attempts, clock.time)
      requires start <= |attempts| && HandedOver(was, attempts[start..], shaper.cache)
      requires SameFollowed(first, book) && SameCleared(first, book)
      requires valid == ValidSince(start, |attempts|, wasValid)
      modifies this`fd, this`valid, this`attempts, this`shaper, this`book, clock
      ensures BalancedWith(rest) && SameFollowed(first, book) && SameCleared(first, book)
      ensures old(attempts) <= attempts && |attempts| == |old(attempts)| + 1
      ensures HandedOver(was, attempts[start..], rest) && InPast(attempts, clock.time) && clock.time >= old(clock.time)
      ensures rc == Answer(|old(attempts)|).rc && more == !Fails(Answer(|old(attempts)|))
      ensures fd == if Closes(Answer(|old(attempts)|)) then -1 else old(fd)
      ensures valid == ValidSince(start, |attempts|, wasValid)
      ensures id in shaper.cache && (fd >= 0 ==> rest == shaper.cache)
      ensures more ==> |shaper.cache[id]| < |old(shaper.cache)[id]|
      ensures SameThrottleBut(old(shaper), shaper, id) && ShrunkAt(shaper.cache, old(shaper.cache), id)
    {
      hide Endpoint.ValidSince, Sound, Faithful, Update, IsDue, SameFollowed, SameCleared, Endpoint.Noted;
      hide HandedOver, InPast;
      ghost var cached, wasBook, tried, at := shaper.cache, book, attempts, clock.time;
      ValidOne(|attempts|, valid);
      ValidOn(start, |attempts|, |attempts| + 1, wasValid);
      rc, more, rest := ResendOne(id, checked, clock);
      FollowsOn(first, wasBook, book);
      ClearedOn(first, wasBook, book);
      ghost var a := attempts[|tried|];
      HandedOne(cached, a);
      HandedMore(was, tried[start..], cached, [a], rest);
      assert attempts[start..] == tried[start..] + [a];
      PastMore(tried, a, at, clock.time);
    }

    /** One turn of the loop over the queues: resend, then drop the queue if it is drained. */
    method DrainQueue(id: nat, clock: Clock) returns (rc: Rc, ghost rest: map<nat, seq<Msg>>)
      requires Valid() && !kind.Log? && fd >= 0 && id in shaper.cache && InPast(attempts, clock.time)
      modifies this`fd, this`valid, this`attempts, this`shaper, this`book, this`teardowns, clock
      ensures Valid() && SameFollowed(old(book), book)
      ensures old(attempts) <= attempts && InPast(attempts, clock.time) && clock.time >= old(clock.time)
      ensures HandedOver(old(shaper.cache), attempts[|old(attempts)|..], rest)
      ensures fd >= 0 ==> rest == shaper.cache && SameCleared(old(book), book) && teardowns == old(teardowns)
      ensures fd < 0 ==> shaper.cache == map[] && teardowns == old(teardowns) + 1
      ensures rc == (if LastFails(|old(attempts)|) then LastRc(|old(attempts)|) else Ok(0))
      ensures fd == FdSince(|old(attempts)|, old(fd))
      ensures valid == ValidSince(|old(attempts)|, |attempts|, old(valid))
      ensures Shrunk(shaper.cache, old(shaper.cache))
      ensures fd >= 0 ==> old(shaper.cache.Keys) - {id} <= shaper.cache.Keys
      ensures !LastFails(|old(attempts)|) && id in shaper.cache ==>
                id in shaper.throttle && !IsDue(shaper.throttle[id], clock.time)
      ensures SameThrottleBut(old(shaper), shaper, id)
    {
      hide Endpoint.ValidSince, Sound, Faithful, IsDue, SameFollowed, SameCleared, Endpoint.Noted, HandedOver, InPast;
      hide SameThrottleBut, ShrunkAt, Shrunk, NoEmptyQueue;
      rc, rest := ResendQueuedMsgs(id, clock);
      ghost var was := book;
      DrainedQueue(old(shaper), shaper, id);
      SameThrottleKeys(old(shaper), shaper, id);
      if fd < 0 {
        ClearCache(rest);
        FollowsOn(old(book), was, book);
      } else if shaper.cache[id] == [] {
        EraseIsSound(shaper, cacheIds, book, id);
        HandedErased(old(shaper.cache), attempts[|old(attempts)|..], rest, id);
        shaper := shaper.(cache := shaper.cache - {id});
        rest := shaper.cache;
      }
    }

    /**
     Endpoint::resend_cached_msgs over the queues in key order; `hangup` when a hang-up must be processed.
     What leaves the queues is what the link took, unless the endpoint is closed, and then the rest is cleared.
     Unless the link's last answer was an error or closed the endpoint, whatever was due when the pass began
     is gone.
     */
    method ResendCachedMsgs(clock: Clock) returns (hangup: bool, ghost rest: map<nat, seq<Msg>>)
      requires Valid() && InPast(attempts, clock.time)
      modifies this`fd, this`valid, this`attempts, this`shaper, this`book, this`teardowns, clock
      ensures Valid() && SameFollowed(old(book), book)
      ensures old(attempts) <= attempts && InPast(attempts, clock.time) && clock.time >= old(clock.time)
      ensures HandedOver(old(shaper.cache), attempts[|old(attempts)|..], rest)
      ensures fd >= 0 ==> rest == shaper.cache && SameCleared(old(book), book)
      ensures fd < 0 ==> shaper.cache == map[]
      ensures teardowns == old(teardowns) + if fd < 0 && old(shaper.cache.Keys) != {} then 1 else 0
      ensures Shrunk(shaper.cache, old(shaper.cache))
      ensures LastFails(|old(attempts)|) || NoneDue(shaper, shaper.cache.Keys, old(clock.time))
      ensures fd == FdSince(|old(attempts)|, old(fd))
      ensures valid == ValidSince(|old(attempts)|, |attempts|, old(valid))
      ensures hangup <==> LastRc(|old(attempts)|) == Err(EPIPE)
    {
      hide Endpoint.ValidSince, Endpoint.Valid, IsDue, SameFollowed, SameCleared, Shrunk, HandedOver, InPast, NoneDue;
      hangup, rest := false, shaper.cache;
      FollowsSelf(book);
      ClearedSelf(book);
      ShrunkSelf(shaper.cache);
      NothingShrunk(shaper.cache);
      HandedNothing(shaper.cache);
      assert attempts[|attempts|..] == [];
      ValidOne(|attempts|, valid);
      NothingDue(shaper, clock.time);
      if shaper.cache.Keys == {} {
        return;
      }
      if fd < 0 {
        ClearWhenClosed();
        NothingDue(shaper, old(clock.time));
        return;
      }
      LogCachesNothing();
      hangup, rest := DrainAll(clock);
    }

    /** The loop of it, on an open endpoint. */
    method DrainAll(clock: Clock) returns (hangup: bool, ghost rest: map<nat, seq<Msg>>)
      requires Valid() && !kind.Log? && fd >= 0 && InPast(attempts, clock.time)
      modifies this`fd, this`valid, this`attempts, this`shaper, this`book, this`teardowns, clock
      ensures Valid() && SameFollowed(old(book), book)
      ensures old(attempts) <= attempts && InPast(attempts, clock.time) && clock.time >= old(clock.time)
      ensures HandedOver(old(shaper.cache), attempts[|old(attempts)|..], rest)
      ensures fd >= 0 ==> rest == shaper.cache && SameCleared(old(book), book)
      ensures fd < 0 ==> shaper.cache == map[]
      ensures teardowns == old(teardowns) + if fd < 0 then 1 else 0
      ensures Shrunk(shaper.cache, old(shaper.cache))
      ensures LastFails(|old(attempts)|) || NoneDue(shaper, shaper.cache.Keys, old(clock.time))
      ensures fd == FdSince(|old(attempts)|, old(fd))
      ensures valid == ValidSince(|old(attempts)|, |attempts|, old(valid))
      ensures hangup <==> LastRc(|old(attempts)|) == Err(EPIPE)
    {
      hide Endpoint.ValidSince, Endpoint.Valid, IsDue, SameFollowed, SameCleared, Shrunk, HandedOver, InPast;
      hangup, rest := false, shaper.cache;
      FollowsSelf(book);
      ClearedSelf(book);
      ShrunkSelf(shaper.cache);
      HandedNothing(shaper.cache);
      assert attempts[|attempts|..] == [];
      ValidOne(|attempts|, valid);
      var todo := shaper.cache.Keys;
      while todo != {}
        invariant Valid() && todo <= shaper.cache.Keys && fd == old(fd) && rest == shaper.cache
        invariant valid == ValidSince(|old(attempts)|, |attempts|, old(valid))
        invariant old(attempts) <= attempts && InPast(attempts, clock.time) && clock.time >= old(clock.time)
        invariant HandedOver(old(shaper.cache), attempts[|old(attempts)|..], rest)
        invariant SameFollowed(old(book), book) && SameCleared(old(book), book) && teardowns == old(teardowns)
        invariant Shrunk(shaper.cache, old(shaper.cache))
        invariant NoneDue(shaper, shaper.cache.Keys - todo, old(clock.time))
        invariant !LastFails(|old(attempts)|)
        decreases todo
      {
        var id := Least(todo);
        todo := todo - {id};
        ghost var before := shaper;
        var rc;
        ghost var n := |attempts|;
        rc, rest := DrainStep(id, clock, |old(attempts)|, old(shaper.cache), old(book));
        ValidOn(|old(attempts)|, n, |attempts|, old(valid));
        if rc.Err? || fd < 0 {
          hangup := rc == Err(EPIPE);
          return;
        }
        assert shaper.cache.Keys <= before.cache.Keys by { ShrunkKeys(shaper.cache, before.cache); }
        StillNoneDue(before, shaper, id, todo, old(clock.time), clock.time);
      }
      assert shaper.cache.Keys - {} == shaper.cache.Keys;
    }

    /** One queue of it, on top of those before. */
    method DrainStep(id: nat, clock: Clock, ghost start: nat, ghost was: map<nat, seq<Msg>>, ghost first: Book)
      returns (rc: Rc, ghost rest: map<nat, seq<Msg>>)
      requires Valid() && !kind.Log? && fd >= 0 && id in shaper.cache && InPast(attempts, clock.time)
      requires start <= |attempts| && HandedOver(was, attempts[start..], shaper.cache) && Shrunk(shaper.cache, was)
      requires SameFollowed(first, book) && SameCleared(first, book) && !LastFails(start)
      modifies this`fd, this`valid, this`attempts, this`shaper, this`book, this`teardowns, clock
      ensures Valid() && SameFollowed(first, book)
      ensures old(attempts) <= attempts && InPast(attempts, clock.time) && clock.time >= old(clock.time)
      ensures HandedOver(was, attempts[start..], rest) && Shrunk(shaper.cache, was)
      ensures Shrunk(shaper.cache, old(shaper.cache))
      ensures fd >= 0 ==> rest == shaper.cache && SameCleared(first, book) && teardowns == old(teardowns)
      ensures fd < 0 ==> shaper.cache == map[] && teardowns == old(teardowns) + 1
      ensures fd == FdSince(start, old(fd)) && valid == ValidSince(|old(attempts)|, |attempts|, old(valid))
      ensures (rc.Err? || fd < 0 <==> LastFails(start)) && (LastFails(start) ==> rc == LastRc(start))
      ensures fd >= 0 ==> old(shaper.cache.Keys) - {id} <= shaper.cache.Keys
      ensures !LastFails(start) && id in shaper.cache ==>
                id in shaper.throttle && !IsDue(shaper.throttle[id], clock.time)
      ensures SameThrottleBut(old(shaper), shaper, id)
    {
      hide Endpoint.ValidSince, Endpoint.Valid, IsDue, SameFollowed, SameCleared, Shrunk, HandedOver, InPast;
      ghost var cached, wasBook, tried := shaper.cache, book, attempts;
      rc, rest := DrainQueue(id, clock);
      FollowsOn(first, wasBook, book);
      if fd >= 0 {
        ClearedOn(first, wasBook, book);
      }
      ShrunkOn(was, cached, shaper.cache);
      HandedMore(was, tried[start..], cached, attempts[|tried|..], rest);
      assert attempts[start..] == tried[start..] + attempts[|tried|..];
    }

    method ClearWhenClosed()
      requires Valid() && fd < 0
      modifies this`shaper, this`book, this`teardowns
      ensures Valid() && SameFollowed(old(book), book) && shaper == old(shaper).(cache := map[])
      ensures teardowns == old(teardowns) + 1
    {
      hide Sound, Faithful, Endpoint.Noted;
      ClearCache(shaper.cache);
    }

    lemma LogCachesNothing()
      requires Valid()
      ensures kind.Log? ==> shaper.cache.Keys == {}
    {
      hide Faithful, Endpoint.Noted, Fifo, Paced;
    }

    /** Endpoint::set_message_throttling at run time; a period of 0 stands for rate 0. */
    method SetMessageThrottling(id: nat, period: nat, now: int)
      requires Valid()
      modifies this`shaper, this`book
      ensures Valid() && shaper.cache == old(shaper.cache)
      ensures shaper == Rerated(old(shaper), id, period, now)
      ensures period > 0 ==>
                && id in shaper.throttle && shaper.throttle[id].period == period
                && shaper.throttle[id].next == if old(id in shaper.throttle) then old(shaper).throttle[id].next else now
      ensures period == 0 ==> id !in shaper.throttle
      ensures forall k :: k != id ==>
                && (k in shaper.throttle <==> k in old(shaper).throttle)
                && (k in shaper.throttle ==> shaper.throttle[k] == old(shaper).throttle[k])
      ensures book.periods == if period > 0 then old(book).periods[id := period] else old(book).periods - {id}
      ensures period > 0 && old(id in book.tracks) ==> id in book.tracks && book.tracks[id] == old(book).tracks[id]
      ensures period > 0 && MayFollow(shaper, cacheIds, id) ==> id in book.tracks
      ensures id in book.tracks && id !in old(book).tracks ==>
                book.tracks[id]
                == NoTrack(|attempts|, |offered|, book.cacheDrops[id] + book.linkDrops[id], teardowns)
      ensures book.cacheDrops == old(book).cacheDrops && book.linkDrops == old(book).linkDrops
      ensures period > 0 ==> book.rated == old(book).rated[id := |attempts|]
      ensures period == 0 ==> book.rated == old(book).rated - {id}
      ensures forall k :: k != id && k in old(book).tracks ==> k in book.tracks && book.tracks[k] == old(book).tracks[k]
    {
      hide Sound, Faithful, Spacious, InOrder;
      RateIsSpacious(shaper.throttle, book.rated, attempts, id, SetRate(shaper, id, period, now).throttle[id]);
      if period > 0 {
        SetRateIsSound(shaper, cacheIds, book, id, period, now, |attempts|);
        shaper := SetRate(shaper, id, period, now);
        NewRateIsFaithful(attempts, offered, book, id, period);
        book := BookRated(book, id, period, |attempts|);
        if id !in book.tracks && MayFollow(shaper, cacheIds, id) {
          TrackIsSound(shaper, cacheIds, book, id, |attempts|, |offered|, teardowns);
          ghost var dropped := book.cacheDrops[id] + book.linkDrops[id];
          NewTrackIsFaithful(attempts, offered, book, id, dropped, teardowns);
          book := book.(tracks := book.tracks[id := NoTrack(|attempts|, |offered|, dropped, teardowns)]);
        }
      } else {
        UnthrottleIsSound(shaper, cacheIds, book, id);
        FewerTracksFaithful(attempts, offered, book, id);
        shaper := shaper.(throttle := shaper.throttle - {id});
        book := BookUnrated(book, id);
      }
    }

    // ----- What the account says, in any reachable state

    /** The write attempts made since the rate of this id was last set. */
    ghost function SinceRated(id: nat): seq<Attempt>
      reads this`book, this`attempts
    {
      if id in book.rated && book.rated[id] <= |attempts| then attempts[book.rated[id]..] else []
    }

    /**
     A throttled id: of any stretch of attempts within a time `w`, direct and resent, the link was handed at
     most w / p + 3, where p is the period last asked for, and beyond that those that a closing connection took
     without moving the due time.
     */
    lemma RateIsBounded(id: nat, lo: nat, hi: nat, start: int, w: nat)
      requires Valid() && IsThrottled(shaper, id) && lo <= hi <= |SinceRated(id)|
      requires forall a :: a in SinceRated(id)[lo..hi] ==> start <= a.at <= start + w
      ensures id in book.periods && 0 < book.periods[id]
      ensures var part := SinceRated(id)[lo..hi];
              |Taken(part, id)| <= w / book.periods[id] + 3 + Uncharged(part, id)
    {
      hide Paced, Fifo, SentAt, Taken, Uncharged, Brackets;
      StretchIsBounded(shaper.throttle[id], book.sends[id], SinceRated(id), id, lo, hi, start, w);
    }

    /**
     If everything taken without moving the due time had room, against all that the link took before it, then
     the plain bound holds for all that the link took.
     */
    lemma RoomyRateIsBounded(id: nat, lo: nat, hi: nat, start: int, w: nat)
      requires Valid() && IsThrottled(shaper, id) && lo <= hi <= |SinceRated(id)|
      requires AllRoomy(shaper.throttle[id].period, SinceRated(id), id)
      requires forall a :: a in SinceRated(id)[lo..hi] ==> start <= a.at <= start + w
      ensures id in book.periods && 0 < book.periods[id]
      ensures |Taken(SinceRated(id)[lo..hi], id)| <= w / book.periods[id] + 3
    {
      hide Paced, Fifo, Taken, Faithful, AllRoomy, PacedIfRoomy;
      RoomyStretchIsBounded(shaper.throttle[id], SinceRated(id), id, lo, hi, start, w);
    }

    /**
     As long as that is so, one more resend at `at` that the link takes although the connection closes leaves
     the bound on all that the link took intact, whatever charged sends follow, exactly if it has room too.
     */
    lemma ClosingResendIsHarmlessIff(id: nat, at: int)
      requires Valid() && IsThrottled(shaper, id) && IsDue(shaper.throttle[id], at) && InPast(attempts, at)
      requires AllRoomy(shaper.throttle[id].period, SinceRated(id), id)
      ensures var t, all, s := shaper.throttle[id], Points(SinceRated(id), id), Stamp(at, at);
              (forall more :: MayCome(t, at, more) ==> Spaced(t.period, all + [s] + more)) <==> HasRoom(t, all, s)
    {
      hide Fifo, Spaced, MayCome, HasRoom, Paced, Faithful, AllRoomy, Points;
      PointsPast(SinceRated(id), id, at);
      UnchargedIsHarmlessIff(shaper.throttle[id], Points(SinceRated(id), id), Stamp(at, at));
    }

    /**
     A cached id throttled all along: what the link took, then what is queued, is a subsequence of what
     was offered, and the rest of that are drops counted since or were cleared in a teardown since. Without
     one, the drops account for all of it.
     */
    lemma CacheIsFifo(id: nat)
      requires Valid() && id in book.tracks
      ensures var t := book.tracks[id];
              && t.since <= |attempts| && t.from <= |offered| && t.torn <= teardowns
              && var arrived := OfId(offered[t.from..], id);
                 exists kept: seq<nat> ::
                   && Increasing(kept, |arrived|)
                   && Taken(attempts[t.since..], id) + QueueOf(shaper.cache, id) == Pick(arrived, kept)
                   && |arrived| - |kept| == book.cacheDrops[id] + book.linkDrops[id] - t.dropped + t.cleared
                   && (t.torn == teardowns ==>
                         |arrived| - |kept| == book.cacheDrops[id] + book.linkDrops[id] - t.dropped)
      ensures book.cacheDrops[id] <= shaper.cacheDropped && book.linkDrops[id] <= shaper.linkDropped
      ensures TotalSize(shaper.cache) <= MSG_CACHE_MAX_SIZE
    {
      hide Paced, Taken, OfId, Spacious, InOrder;
      var t := book.tracks[id];
      assert Fifo(t, QueueOf(shaper.cache, id), book.cacheDrops[id], book.linkDrops[id]);
      assert Increasing(t.kept, |t.arrived|) && t.handed + QueueOf(shaper.cache, id) == Pick(t.arrived, t.kept);
    }

    // ----- Learning

    /** Endpoint::link_group_member */
    method LinkGroupMember(other: Endpoint)
      modifies this`groupMembers
      ensures groupMembers == if groupName == "" || other.groupName != groupName then old(groupMembers)
                              else old(groupMembers) + [other]
    {
      if groupName == "" || other.groupName != groupName {
        return;
      }
      groupMembers := groupMembers + [other];
    }

    /** Endpoint::unlink_group_member */
    method UnlinkGroupMember(name: string)
      modifies this`groupMembers
      ensures groupMembers == NotNamed(old(groupMembers), name)
    {
      var all, kept := groupMembers, [];
      for i := 0 to |all|
        invariant kept == NotNamed(all[..i], name)
      {
        assert all[..i + 1][..i] == all[..i];
        if all[i].name != name {
          kept := kept + [all[i]];
        }
      }
      assert all[..|all|] == all;
      groupMembers := kept;
    }

    /**
     Endpoint::_add_sys_comp_id, which calls itself on every group member and so walks a cyclic graph.
     It terminates because each call that does anything leaves one endpoint fewer without the address.
     An endpoint that gets the address passes it on to all of its members.
     */
    method AddSysCompId(a: SysCompId, ghost U: set<Endpoint>)
      requires this in U && Closed(U)
      modifies U`sysCompIds
      ensures a in sysCompIds
      ensures forall e :: e in U ==> e.sysCompIds == old(e.sysCompIds)
                                     || (a !in old(e.sysCompIds) && e.sysCompIds == old(e.sysCompIds) + [a])
      ensures forall e :: e in U && e.sysCompIds != old(e.sysCompIds) ==> SameGroup(this, e)
      ensures forall e, m :: e in U && e.sysCompIds != old(e.sysCompIds) && m in e.groupMembers ==> a in m.sysCompIds
      ensures a in old(sysCompIds) ==> forall e :: e in U ==> e.sysCompIds == old(e.sysCompIds)
      decreases Lacking(U, a)
    {
      if a in sysCompIds {
        return;
      }
      ghost var lacking := Lacking(U, a);
      sysCompIds := sysCompIds + [a];
      assert Lacking(U, a) < lacking by { assert this in lacking && this !in Lacking(U, a); }
      for i := 0 to |groupMembers|
        invariant a in sysCompIds && sysCompIds == old(sysCompIds) + [a]
        invariant forall e :: e in U ==> e.sysCompIds == old(e.sysCompIds)
                                         || (a !in old(e.sysCompIds) && e.sysCompIds == old(e.sysCompIds) + [a])
        invariant forall e :: e in U && e.sysCompIds != old(e.sysCompIds) ==> SameGroup(this, e)
        invariant forall e, m :: e in U && e != this && e.sysCompIds != old(e.sysCompIds) && m in e.groupMembers ==>
                    a in m.sysCompIds
        invariant forall j :: 0 <= j < i ==> a in groupMembers[j].sysCompIds
        invariant Lacking(U, a) < lacking
      {
        groupMembers[i].AddSysCompId(a, U);
      }
    }
  }

  // ----- Groups

  /** Grouped endpoints stay among themselves. */
  ghost predicate Closed(U: set<Endpoint>)
    reads U`groupMembers
  {
    forall e, m :: e in U && m in e.groupMembers ==> m in U && SameGroup(e, m)
  }

  predicate SameGroup(e: Endpoint, o: Endpoint)
  {
    e == o || (e.groupName == o.groupName && e.groupName != "")
  }

  /** The members that do not have this name, in order. */
  ghost function NotNamed(members: seq<Endpoint>, name: string): (r: seq<Endpoint>)
  {
    if members == [] then []
    else
      var last := members[|members| - 1];
      NotNamed(members[..|members| - 1], name) + if last.name == name then [] else [last]
  }

  lemma {:induction false} NotNamedMembers(members: seq<Endpoint>, name: string)
    ensures forall m :: m in NotNamed(members, name) <==> m in members && m.name != name
  {
    if members != [] {
      NotNamedMembers(members[..|members| - 1], name);
      assert members == members[..|members| - 1] + [members[|members| - 1]];
    }
  }

  ghost function Lacking(U: set<Endpoint>, a: SysCompId): set<Endpoint>
    reads U`sysCompIds
  {
    set e | e in U && a !in e.sysCompIds
  }

  predicate IsSuffix<T(==)>(tail: seq<T>, all: seq<T>)
  {
    |tail| <= |all| && tail == all[|all| - |tail|..]
  }

  /** A cacheable id of which nothing is queued. */
  ghost predicate MayFollow(s: Shaper, cacheIds: set<nat>, id: nat)
  {
    id in cacheIds && id != NO_MSG_ID && id !in s.cache
  }

  /** Every queue is a suffix of what it was. */
  ghost predicate Shrunk(now: map<nat, seq<Msg>>, was: map<nat, seq<Msg>>)
  {
    forall k :: k in now ==> k in was && IsSuffix(now[k], was[k])
  }

  /** Only this queue has shrunk. */
  ghost predicate ShrunkAt(now: map<nat, seq<Msg>>, was: map<nat, seq<Msg>>, id: nat)
  {
    && now.Keys == was.Keys
    && forall k :: k in now ==> IsSuffix(now[k], was[k]) && (k != id ==> now[k] == was[k])
  }

  lemma ShrunkAtSelf(cache: map<nat, seq<Msg>>, id: nat)
    ensures ShrunkAt(cache, cache, id)
  {
  }

  lemma ShrunkAtOn(a: map<nat, seq<Msg>>, b: map<nat, seq<Msg>>, c: map<nat, seq<Msg>>, id: nat)
    requires ShrunkAt(b, a, id) && ShrunkAt(c, b, id)
    ensures ShrunkAt(c, a, id)
  {
  }

  lemma DrainedQueue(s: Shaper, t: Shaper, id: nat)
    requires NoEmptyQueue(s) && ShrunkAt(t.cache, s.cache, id) && id in t.cache
    ensures t.cache.Keys == s.cache.Keys && Shrunk(t.cache, s.cache) && Shrunk(map[], s.cache)
    ensures t.cache[id] != [] ==> NoEmptyQueue(t)
    ensures NoEmptyQueue(t.(cache := t.cache - {id})) && Shrunk(t.cache - {id}, s.cache)
    ensures NoEmptyQueue(t.(cache := map[]))
  {
  }

  lemma SameThrottleKeys(s: Shaper, t: Shaper, id: nat)
    requires SameThrottleBut(s, t, id)
    ensures forall c :: SameThrottleBut(s, t.(cache := c), id)
  {
  }

  lemma SameThrottleSelf(s: Shaper, id: nat)
    ensures SameThrottleBut(s, s, id)
  {
  }

  lemma SameThrottleOn(a: Shaper, b: Shaper, c: Shaper, id: nat)
    requires SameThrottleBut(a, b, id) && SameThrottleBut(b, c, id)
    ensures SameThrottleBut(a, c, id)
  {
  }

  lemma ShrunkSelf(cache: map<nat, seq<Msg>>)
    ensures Shrunk(cache, cache)
  {
  }

  lemma NothingShrunk(cache: map<nat, seq<Msg>>)
    ensures Shrunk(map[], cache)
  {
  }

  lemma ShrunkKeys(now: map<nat, seq<Msg>>, was: map<nat, seq<Msg>>)
    requires Shrunk(now, was)
    ensures now.Keys <= was.Keys
  {
  }

  lemma ShrunkOn(a: map<nat, seq<Msg>>, b: map<nat, seq<Msg>>, c: map<nat, seq<Msg>>)
    requires Shrunk(b, a) && Shrunk(c, b)
    ensures Shrunk(c, a)
  {
  }

  /** Only the entry of `id` differs. */
  ghost predicate SameThrottleBut(s: Shaper, t: Shaper, id: nat)
  {
    s.throttle.Keys == t.throttle.Keys && forall k :: k in s.throttle && k != id ==> s.throttle[k] == t.throttle[k]
  }

  /** None of these queues held anything due at `time`. */
  ghost predicate NoneDue(s: Shaper, ids: set<nat>, time: int)
  {
    forall k :: k in ids ==> k in s.throttle && !IsDue(s.throttle[k], time)
  }

  lemma StillNoneDue(s: Shaper, t: Shaper, id: nat, todo: set<nat>, start: int, now: int)
    requires NoneDue(s, s.cache.Keys - todo - {id}, start) && SameThrottleBut(s, t, id)
    requires t.cache.Keys <= s.cache.Keys && start <= now
    requires id in t.cache ==> id in t.throttle && !IsDue(t.throttle[id], now)
    ensures NoneDue(t, t.cache.Keys - todo, start)
  {
  }

  lemma FrontIsKeyed(s: Shaper, cacheIds: set<nat>, b: Book, id: nat)
    requires Sound(s, cacheIds, b) && id in s.cache && s.cache[id] != []
    ensures s.cache[id][0].id == id
  {
  }

  lemma PastIsPast(attempts: seq<Attempt>, now: int, later: int)
    requires InPast(attempts, now) && now <= later
    ensures InPast(attempts, later)
  {
  }

  lemma PastMore(attempts: seq<Attempt>, a: Attempt, now: int, later: int)
    requires InPast(attempts, now) && a.at <= later && now <= later
    ensures InPast(attempts + [a], later)
  {
  }

  lemma NothingDue(s: Shaper, time: int)
    ensures s.cache.Keys == {} ==> NoneDue(s, s.cache.Keys, time)
    ensures NoneDue(s.(cache := map[]), {}, time)
  {
  }

  lemma FollowsRated(b: Book, c: Book)
    requires SameFollowed(b, c)
    ensures b.rated == c.rated
  {
  }

  lemma NewTrackIsFaithful(attempts: seq<Attempt>, offered: seq<Msg>, b: Book, id: nat, dropped: nat, torn: nat)
    requires Faithful(attempts, offered, b)
    ensures Faithful(attempts, offered,
                     b.(tracks := b.tracks[id := NoTrack(|attempts|, |offered|, dropped, torn)]))
  {
  }

  lemma NewRateIsFaithful(attempts: seq<Attempt>, offered: seq<Msg>, b: Book, id: nat, period: nat)
    requires Faithful(attempts, offered, b)
    ensures Faithful(attempts, offered, BookRated(b, id, period, |attempts|))
  {
  }

  lemma FewerTracksFaithful(attempts: seq<Attempt>, offered: seq<Msg>, b: Book, id: nat)
    requires Faithful(attempts, offered, b)
    ensures Faithful(attempts, offered, BookUnrated(b, id))
  {
  }

  lemma TracksAreThrottled(s: Shaper, cacheIds: set<nat>, b: Book, id: nat)
    requires Sound(s, cacheIds, b) && id in b.tracks
    ensures IsThrottled(s, id) && id in cacheIds
  {
  }

  lemma FullIsNotEmpty(cache: map<nat, seq<Msg>>)
    requires TotalSize(cache) > 0
    ensures cache.Keys != {}
  {
  }

  /** The least key, where a traversal in key order goes next. */
  method Least(ids: set<nat>) returns (id: nat)
    requires ids != {}
    ensures id in ids && forall k :: k in ids ==> id <= k
  {
    id :| id in ids;
    var rest := ids - {id};
    while rest != {}
      invariant rest <= ids && id in ids
      invariant forall k :: k in ids && k !in rest ==> id <= k
      decreases rest
    {
      var k :| k in rest;
      rest := rest - {k};
      if k < id {
        id := k;
      }
    }
  }
}

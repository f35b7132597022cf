/**
 Message de-duplication: a queue of admission times and a hash set that must answer like the full
 history of everything that ever arrived.
 */
module Dedup {
  datatype Arrival = Arrival(time: nat, hash: nat)

  ghost predicate InTimeOrder(a: seq<Arrival>)
  {
    forall i, j :: 0 <= i < j < |a| ==> a[i].time <= a[j].time
  }

  lemma OrderedAt(a: seq<Arrival>, i: nat, j: nat)
    requires InTimeOrder(a) && i < j < |a|
    ensures a[i].time <= a[j].time
  {
  }

  /** An equal message within the period before `j`. */
  predicate CopyWithin(a: seq<Arrival>, period: nat, i: nat, j: nat)
    requires i < |a| && j < |a|
  {
    a[i].hash == a[j].hash && a[j].time <= a[i].time + period
  }

  /**
   The reference: arrival `j` is admitted unless an equal arrival was itself admitted within the
   period before it. The period runs from the admission; a discarded copy does not restart it.
   */
  ghost predicate Admits(a: seq<Arrival>, period: nat, j: nat)
    requires j < |a|
    decreases j
  {
    forall i :: 0 <= i < j && CopyWithin(a, period, i, j) ==> !Admits(a, period, i)
  }

  /** The documented rule: every copy, admitted or not, restarts the period. */
  ghost predicate AdmitsRestarting(a: seq<Arrival>, period: nat, j: nat)
    requires j < |a|
  {
    forall i :: 0 <= i < j ==> !CopyWithin(a, period, i, j)
  }

  lemma {:induction false} AdmitsPrefix(a: seq<Arrival>, x: Arrival, period: nat, j: nat)
    requires j < |a|
    ensures Admits(a + [x], period, j) == Admits(a, period, j)
    decreases j
  {
    var b := a + [x];
    forall i | 0 <= i < j
      ensures Admits(b, period, i) == Admits(a, period, i)
      ensures CopyWithin(b, period, i, j) == CopyWithin(a, period, i, j)
    {
      AdmitsPrefix(a, x, period, i);
    }
  }

  lemma AdmitsStable(a: seq<Arrival>, x: Arrival, period: nat)
    ensures forall j :: 0 <= j < |a| ==> Admits(a + [x], period, j) == Admits(a, period, j)
  {
    forall j | 0 <= j < |a|
      ensures Admits(a + [x], period, j) == Admits(a, period, j)
    {
      AdmitsPrefix(a, x, period, j);
    }
  }

  /** Admitted equal messages are more than a period apart. */
  lemma AdmittedAreApart(a: seq<Arrival>, period: nat, i: nat, j: nat)
    requires i < j < |a| && a[i].hash == a[j].hash
    requires Admits(a, period, i) && Admits(a, period, j)
    ensures a[j].time > a[i].time + period
  {
    assert !CopyWithin(a, period, i, j);
  }

  /** Copies at most a period apart from one to the next, but more than a period from end to end. */
  ghost predicate LongBurst(a: seq<Arrival>, period: nat)
  {
    exists i, m, j :: 0 <= i < m < j < |a| && CopyWithin(a, period, i, m) && CopyWithin(a, period, m, j)
                      && !CopyWithin(a, period, i, j)
  }

  lemma {:induction false} ShortBurstsAgree(a: seq<Arrival>, period: nat, j: nat)
    requires !LongBurst(a, period) && j < |a|
    ensures Admits(a, period, j) == AdmitsRestarting(a, period, j)
  {
    if !AdmitsRestarting(a, period, j) {
      var m :| 0 <= m < j && CopyWithin(a, period, m, j);
      if !Admits(a, period, m) {
        var i :| 0 <= i < m && CopyWithin(a, period, i, m) && Admits(a, period, i);
        assert CopyWithin(a, period, i, j);
      }
    }
  }

  lemma LongBurstDisagrees(a: seq<Arrival>, period: nat)
    requires InTimeOrder(a) && LongBurst(a, period)
    ensures exists j :: 0 <= j < |a| && Admits(a, period, j) != AdmitsRestarting(a, period, j)
  {
    var i, m, j :| 0 <= i < m < j < |a| && CopyWithin(a, period, i, m) && CopyWithin(a, period, m, j)
                   && !CopyWithin(a, period, i, j);
    assert !AdmitsRestarting(a, period, j);
    if !Admits(a, period, j) {
      var k :| 0 <= k < j && CopyWithin(a, period, k, j) && Admits(a, period, k);
      assert i < k;
      assert if k > m then CopyWithin(a, period, m, k) else CopyWithin(a, period, i, k);
      assert !AdmitsRestarting(a, period, k);
    }
  }

  /** Three equal messages at times 0, 8 and 16 with a period of 10: the code admits the last one. */
  lemma LongBurstExample()
    ensures var a := [Arrival(0, 1), Arrival(8, 1), Arrival(16, 1)];
            && InTimeOrder(a) && LongBurst(a, 10)
            && Admits(a, 10, 2) && !AdmitsRestarting(a, 10, 2)
  {
    var a := [Arrival(0, 1), Arrival(8, 1), Arrival(16, 1)];
    assert CopyWithin(a, 10, 0, 1) && CopyWithin(a, 10, 1, 2) && !CopyWithin(a, 10, 0, 2);
    assert Admits(a, 10, 0);
    assert !Admits(a, 10, 1);
  }

  /** The code follows the documented rule on a run exactly when the run holds no long burst. */
  lemma RestartsIffNoLongBurst(a: seq<Arrival>, period: nat)
    requires InTimeOrder(a)
    ensures (forall j :: 0 <= j < |a| ==> Admits(a, period, j) == AdmitsRestarting(a, period, j))
            <==> !LongBurst(a, period)
  {
    if LongBurst(a, period) {
      LongBurstDisagrees(a, period);
    } else {
      forall j | 0 <= j < |a|
        ensures Admits(a, period, j) == AdmitsRestarting(a, period, j)
      {
        ShortBurstsAgree(a, period, j);
      }
    }
  }

  // ----- The queue and the set

  /** Too old to matter to any arrival from `clock` on. */
  predicate Expired(x: Arrival, period: nat, clock: nat)
  {
    x.time + period < clock
  }

  /** `held` lists the admitted arrivals, in order, leaving out only expired ones. */
  ghost predicate Tracks(a: seq<Arrival>, period: nat, clock: nat, held: seq<nat>)
  {
    && InTimeOrder(a)
    && (forall k :: 0 <= k < |a| ==> a[k].time <= clock)
    && (forall i :: 0 <= i < |held| ==> held[i] < |a| && Admits(a, period, held[i]))
    && (forall i, j :: 0 <= i < j < |held| ==> held[i] < held[j])
    && (forall k :: 0 <= k < |a| && Admits(a, period, k) && k !in held ==> Expired(a[k], period, clock))
  }

  ghost predicate Queues(a: seq<Arrival>, held: seq<nat>, queue: seq<Arrival>)
  {
    && |held| == |queue|
    && (forall i :: 0 <= i < |held| ==> held[i] < |a| && a[held[i]] == queue[i])
  }

  /** The set holds exactly the queue's hashes, and no hash is queued twice. */
  ghost predicate Indexes(queue: seq<Arrival>, hashes: set<nat>)
  {
    && (forall i, j :: 0 <= i < j < |queue| ==> queue[i].hash != queue[j].hash)
    && (forall i :: 0 <= i < |queue| ==> queue[i].hash in hashes)
    && (forall h :: h in hashes ==> exists i :: 0 <= i < |queue| && queue[i].hash == h)
  }

  lemma DropHead(queue: seq<Arrival>, hashes: set<nat>)
    requires Indexes(queue, hashes) && queue != []
    ensures queue[0].hash in hashes
    ensures Indexes(queue[1..], hashes - {queue[0].hash})
  {
    var rest := queue[1..];
    forall h | h in hashes - {queue[0].hash}
      ensures exists i :: 0 <= i < |rest| && rest[i].hash == h
    {
      var i :| 0 <= i < |queue| && queue[i].hash == h;
      assert rest[i - 1].hash == h;
    }
  }

  lemma TracksTail(a: seq<Arrival>, period: nat, clock: nat, held: seq<nat>)
    requires Tracks(a, period, clock, held) && held != [] && Expired(a[held[0]], period, clock)
    ensures Tracks(a, period, clock, held[1..])
  {
    assert forall k :: k in held && k != held[0] ==> k in held[1..];
  }

  lemma TracksMore(a: seq<Arrival>, period: nat, clock: nat, held: seq<nat>, x: Arrival)
    requires Tracks(a, period, clock, held) && x.time == clock
    ensures Admits(a + [x], period, |a|) ==> Tracks(a + [x], period, clock, held + [|a|])
    ensures !Admits(a + [x], period, |a|) ==> Tracks(a + [x], period, clock, held)
  {
    AdmitsStable(a, x, period);
    assert |a| in held + [|a|] && forall k :: k in held ==> k in held + [|a|];
  }

  lemma AddHash(queue: seq<Arrival>, hashes: set<nat>, x: Arrival)
    requires Indexes(queue, hashes) && x.hash !in hashes
    ensures Indexes(queue + [x], hashes + {x.hash})
  {
    var more := queue + [x];
    forall h | h in hashes + {x.hash}
      ensures exists i :: 0 <= i < |more| && more[i].hash == h
    {
      if h == x.hash {
        assert more[|queue|].hash == h;
      } else {
        var i :| 0 <= i < |queue| && queue[i].hash == h;
        assert more[i].hash == h;
      }
    }
  }

  /** With the expired entries gone, the set decides exactly as the full history does. */
  lemma SetDecides(a: seq<Arrival>, period: nat, clock: nat, held: seq<nat>, queue: seq<Arrival>,
                   hashes: set<nat>, x: Arrival)
    requires Tracks(a, period, clock, held) && Queues(a, held, queue) && Indexes(queue, hashes)
    requires x.time == clock
    requires forall i :: 0 <= i < |queue| ==> !Expired(queue[i], period, clock)
    ensures Admits(a + [x], period, |a|) <==> x.hash !in hashes
  {
    var all := a + [x];
    AdmitsStable(a, x, period);
    if x.hash in hashes {
      var i :| 0 <= i < |queue| && queue[i].hash == x.hash;
      assert CopyWithin(all, period, held[i], |a|) && Admits(all, period, held[i]);
    }
  }

  class Deduplicator {
    const period: nat
    var queue: seq<Arrival>
    var hashes: set<nat>

    /** The time of the last call, everything that ever arrived, and the arrivals still queued. */
    ghost var clock: nat
    ghost var arrivals: seq<Arrival>
    ghost var held: seq<nat>

    ghost predicate Valid()
      reads this
    {
      && Tracks(arrivals, period, clock, held)
      && Queues(arrivals, held, queue)
      && Indexes(queue, hashes)
    }

    constructor (period: nat)
      ensures Valid() && arrivals == [] && clock == 0 && this.period == period
    {
      this.period := period;
      queue, hashes, clock, arrivals, held := [], {}, 0, [], [];
    }

    /** Forget the admissions whose period is over. The hash to erase is always found. */
    method Purge(now: nat)
      requires Valid() && now == clock
      modifies this`queue, this`hashes, this`held
      ensures Valid()
      ensures forall i :: 0 <= i < |queue| ==> !Expired(queue[i], period, clock)
    {
      while queue != [] && now > queue[0].time + period
        invariant Valid()
        decreases |queue|
      {
        hide Tracks, Indexes, Admits;
        var gone := queue[0].hash;
        DropHead(queue, hashes);
        TracksTail(arrivals, period, clock, held);
        assert gone in hashes;
        hashes := hashes - {gone};
        queue := queue[1..];
        held := held[1..];
      }
    }

    /** DedupImpl::check_packet */
    method CheckPacket(now: nat, hash: nat) returns (isNew: bool)
      requires Valid() && clock <= now
      modifies this
      ensures Valid() && clock == now
      ensures arrivals == old(arrivals) + [Arrival(now, hash)]
      ensures isNew == Admits(arrivals, period, |arrivals| - 1)
    {
      clock := now;
      Purge(now);
      var x := Arrival(now, hash);
      assert Valid();
      isNew := Insert(x);
    }

    method Insert(x: Arrival) returns (isNew: bool)
      requires Valid() && x.time == clock
      requires forall i :: 0 <= i < |queue| ==> !Expired(queue[i], period, clock)
      modifies this`queue, this`hashes, this`arrivals, this`held
      ensures Valid() && arrivals == old(arrivals) + [x]
      ensures isNew == Admits(arrivals, period, |arrivals| - 1)
    {
      hide Tracks, Indexes, Admits;
      SetDecides(arrivals, period, clock, held, queue, hashes, x);
      TracksMore(arrivals, period, clock, held, x);
      isNew := x.hash !in hashes;
      if isNew {
        AddHash(queue, hashes, x);
        hashes := hashes + {x.hash};
        queue := queue + [x];
        held := held + [|arrivals|];
      }
      arrivals := arrivals + [x];
    }
  }

  ghost predicate Answers(a: seq<Arrival>, period: nat, isNew: seq<bool>)
  {
    |isNew| == |a| && forall j :: 0 <= j < |a| ==> isNew[j] == Admits(a, period, j)
  }

  lemma AnswersNone(period: nat)
    ensures Answers([], period, [])
  {
  }

  lemma AnswersMore(a: seq<Arrival>, period: nat, isNew: seq<bool>, x: Arrival, last: bool)
    requires Answers(a, period, isNew) && last == Admits(a + [x], period, |a|)
    ensures Answers(a + [x], period, isNew + [last])
  {
    AdmitsStable(a, x, period);
  }

  /** Dedup::check_packet over a whole run; a period of 0 switches de-duplication off. */
  method Run(period: nat, messages: seq<Arrival>) returns (isNew: seq<bool>)
    requires InTimeOrder(messages)
    ensures period == 0 ==> isNew == seq(|messages|, _ => true)
    ensures period > 0 ==> Answers(messages, period, isNew)
  {
    hide Admits, InTimeOrder, Answers;
    if period == 0 {
      return seq(|messages|, _ => true);
    }
    isNew := RunOn(period, messages);
  }

  method RunOn(period: nat, messages: seq<Arrival>) returns (isNew: seq<bool>)
    requires InTimeOrder(messages)
    ensures Answers(messages, period, isNew)
  {
    hide Admits, Answers, InTimeOrder, Deduplicator.Valid, CopyWithin, Expired;
    var d := new Deduplicator(period);
    isNew := [];
    AnswersNone(period);
    for n := 0 to |messages|
      invariant fresh(d) && d.Valid() && d.period == period
      invariant d.arrivals == messages[..n] && Answers(d.arrivals, period, isNew)
      invariant d.clock == if n == 0 then 0 else messages[n - 1].time
    {
      if n > 0 {
        OrderedAt(messages, n - 1, n);
      }
      ghost var before := d.arrivals;
      var r := d.CheckPacket(messages[n].time, messages[n].hash);
      AnswersMore(before, period, isNew, messages[n], r);
      assert messages[..n + 1] == messages[..n] + [messages[n]];
      isNew := isNew + [r];
    }
    assert messages[..|messages|] == messages;
  }
}

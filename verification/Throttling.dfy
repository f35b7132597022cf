/**
 Per-message-id rate limiting: when a message is due, how the next due time moves, and the bound on
 the resulting rate.
 */
module Throttling {
  /** A positive period and the time from which the next message is due. */
  datatype Throttle = Throttle(period: nat, next: int)

  /** Endpoint::should_throttle_msg for an id with an entry. */
  predicate IsDue(t: Throttle, now: int)
  {
    now >= t.next
  }

  /** The time an update at `now` counts from: a due time more than two periods back starts afresh. */
  function Base(t: Throttle, now: int): int
  {
    if now > t.next + 2 * t.period then now else t.next
  }

  /** Endpoint::update_throttle_info */
  function Update(t: Throttle, now: int): Throttle
  {
    t.(next := Base(t, now) + t.period)
  }

  /**
   The due time moves on by one period; but after it was passed by more than two, nothing is due for a whole
   period from now.
   */
  lemma UpdateMoves(t: Throttle, now: int, time: int)
    ensures Update(t, now).period == t.period
    ensures now > t.next + 2 * t.period ==> (IsDue(Update(t, now), time) <==> time >= now + t.period)
    ensures now <= t.next + 2 * t.period ==> (IsDue(Update(t, now), time) <==> time >= t.next + t.period)
  {
  }

  /** After a due message the next due time is within one period of now, on either side. */
  lemma NextStaysClose(t: Throttle, now: int)
    requires IsDue(t, now)
    ensures now - t.period <= Update(t, now).next <= now + t.period
    ensures Update(t, now).next >= t.next + t.period
  {
  }

  /** One send: the clock reading that found it due, and the later one that moved the due time. */
  datatype Stamp = Stamp(checked: int, updated: int)

  function Periods(n: int, period: nat): int
  {
    n * period
  }

  lemma PeriodsAdd(m: int, n: int, period: nat)
    ensures Periods(m + n, period) == Periods(m, period) + Periods(n, period)
  {
  }

  /**
   Any sends i <= j, that is k = j - i + 1 of them, span at least k - 3 periods; and the due time is
   already as far ahead as the next send needs.
   */
  ghost predicate Paced(t: Throttle, sends: seq<Stamp>)
  {
    && (forall i :: 0 <= i < |sends| ==> sends[i].checked <= sends[i].updated)
    && (forall i, j :: 0 <= i < j < |sends| ==>
          sends[j].checked >= sends[i].updated + Periods(j - i - 2, t.period))
    && (forall i :: 0 <= i < |sends| ==>
          t.next >= sends[i].updated + Periods(|sends| - i - 2, t.period))
  }

  /** A message found due at `checked` and accounted for at `updated` keeps the pace. */
  lemma SendKeepsPace(t: Throttle, sends: seq<Stamp>, s: Stamp)
    requires Paced(t, sends) && s.checked <= s.updated && IsDue(t, s.checked)
    ensures Paced(Update(t, s.updated), sends + [s])
  {
    hide Periods;
    var n := |sends|;
    var more := sends + [s];
    var t' := Update(t, s.updated);
    NextStaysClose(t, s.updated);
    assert Periods(-1, t.period) == 0 - t.period && Periods(1, t.period) == t.period by { PeriodsOne(t.period); }
    forall i | 0 <= i < n
      ensures t'.next >= more[i].updated + Periods(n + 1 - i - 2, t.period)
    {
      PeriodsAdd(n - i - 2, 1, t.period);
    }
  }

  lemma PeriodsOne(period: nat)
    ensures Periods(-1, period) == 0 - period && Periods(1, period) == period && Periods(0, period) == 0
  {
  }

  /** Moving the due time without a send keeps the pace as well. */
  lemma UpdateKeepsPace(t: Throttle, sends: seq<Stamp>, now: int)
    requires Paced(t, sends) && IsDue(t, now)
    ensures Paced(Update(t, now), sends)
  {
    hide Periods;
    NextStaysClose(t, now);
  }

  /** The rate bound: k consecutive sends, at any instants within their stamps, span k - 3 periods. */
  lemma SpanBound(t: Throttle, sends: seq<Stamp>, i: nat, k: nat, first: int, last: int)
    requires Paced(t, sends) && 2 <= k && i + k <= |sends|
    requires sends[i].checked <= first <= sends[i].updated
    requires sends[i + k - 1].checked <= last <= sends[i + k - 1].updated
    ensures last - first >= (k - 3) * t.period
  {
    assert Periods((i + k - 1) - i - 2, t.period) == (k - 3) * t.period;
  }

  /** So a window of length `w` holds at most w / period + 3 sends. */
  lemma WindowBound(t: Throttle, sends: seq<Stamp>, i: nat, k: nat, first: int, last: int, w: nat)
    requires Paced(t, sends) && 0 < t.period && 2 <= k && i + k <= |sends|
    requires sends[i].checked <= first <= sends[i].updated
    requires sends[i + k - 1].checked <= last <= sends[i + k - 1].updated
    requires last - first <= w
    ensures k <= w / t.period + 3
  {
    SpanBound(t, sends, i, k, first, last);
    var q := w / t.period + 1;
    assert w < q * t.period;
    if k - 3 >= q {
      MulMono(q, k - 3, t.period);
    }
  }

  /** The most sends a window of length `w` can hold. */
  function MostSends(period: nat, w: nat): nat
    requires 0 < period
  {
    w / period + 3
  }

  lemma MulMono(a: int, b: int, p: nat)
    requires a <= b
    ensures a * p <= b * p
  {
  }

  // ----- The bound is tight

  /** The state after `n` sends of the fastest run: three at time 0, then one per period. */
  function Fastest(period: nat, n: nat): Throttle
  {
    Throttle(period, Periods(n - 2, period))
  }

  function FastestTime(period: nat, n: nat): int
  {
    if n < 3 then 0 else Periods(n - 2, period)
  }

  /** Every send of the fastest run is due, and the run leads on to its own next state. */
  lemma FastestIsAllowed(period: nat, n: nat)
    ensures IsDue(Fastest(period, n), FastestTime(period, n))
    ensures Update(Fastest(period, n), FastestTime(period, n)) == Fastest(period, n + 1)
  {
    hide Periods;
    PeriodsOne(period);
    PeriodsAdd(n - 2, 1, period);
    PeriodsAdd(-1, -1, period);
    if n < 3 {
      PeriodsAdd(-2, 2, period);
    } else {
      PeriodsAdd(n - 3, 1, period);
    }
  }

  /** Its first k sends span exactly k - 3 periods, so no better bound holds. */
  lemma BoundIsTight(period: nat, k: nat)
    requires 3 <= k
    ensures FastestTime(period, k - 1) - FastestTime(period, 0) == (k - 3) * period
  {
  }

  // ----- Sends that do not move the due time

  /** Any k consecutive sends span at least k - 3 periods. */
  ghost predicate Spaced(period: nat, sends: seq<Stamp>)
  {
    forall i, j :: 0 <= i < j < |sends| ==>
      sends[j].checked >= sends[i].updated + Periods(j - i - 2, period)
  }

  /** What the due time amounts to after these sends: an update counts from the last of them at least. */
  function Settled(t: Throttle, sends: seq<Stamp>): Throttle
  {
    if sends == [] then t else t.(next := Base(t, sends[|sends| - 1].updated))
  }

  /** No send of the past is later than `now`. */
  predicate Past(sends: seq<Stamp>, now: int)
  {
    sends == [] || sends[|sends| - 1].updated <= now
  }

  lemma LaterIsPaced(t: Throttle, next: int, sends: seq<Stamp>)
    requires Paced(t, sends) && t.next <= next
    ensures Paced(t.(next := next), sends)
  {
    hide Periods;
  }

  /** A send that moves the due time keeps the pace of all sends, whether those moved it or not. */
  lemma ChargedKeepsPace(t: Throttle, sends: seq<Stamp>, s: Stamp, updated: int)
    requires Paced(Settled(t, sends), sends) && Past(sends, s.checked)
    requires s.checked <= s.updated <= updated && IsDue(t, s.checked)
    ensures Paced(Update(t, updated), sends + [s])
    ensures Paced(Settled(Update(t, updated), sends + [s]), sends + [s])
  {
    hide Paced;
    var u := Settled(t, sends);
    SendKeepsPace(u, sends, s);
    LaterIsPaced(Update(u, s.updated), Update(t, updated).next, sends + [s]);
    LaterIsPaced(Update(t, updated), Settled(Update(t, updated), sends + [s]).next, sends + [s]);
  }

  /** So does moving the due time without a send. */
  lemma RefusedKeepsPace(t: Throttle, sends: seq<Stamp>, now: int)
    requires Paced(Settled(t, sends), sends) && Past(sends, now)
    ensures Paced(Settled(Update(t, now), sends), sends)
  {
    hide Paced;
    LaterIsPaced(Settled(t, sends), Settled(Update(t, now), sends).next, sends);
  }

  /** The next update counts from a time as far ahead as if this send had moved the due time. */
  ghost predicate HasRoom(t: Throttle, sends: seq<Stamp>, s: Stamp)
  {
    var base := Base(t, s.updated);
    && base >= s.updated - t.period
    && forall i :: 0 <= i < |sends| ==> base >= sends[i].updated + Periods(|sends| - i - 1, t.period)
  }

  /** A send that does not move the due time keeps the pace if it has room. */
  lemma RoomKeepsPace(t: Throttle, sends: seq<Stamp>, s: Stamp)
    requires Paced(Settled(t, sends), sends) && Past(sends, s.checked)
    requires s.checked <= s.updated && IsDue(t, s.checked) && HasRoom(t, sends, s)
    ensures Paced(Settled(t, sends + [s]), sends + [s])
  {
    hide Periods;
    PeriodsOne(t.period);
    assert IsDue(Settled(t, sends), s.checked);
  }

  /** Sends that may come next, none before `now`: each found due, each moving the due time. */
  ghost predicate MayCome(t: Throttle, now: int, more: seq<Stamp>)
    decreases |more|
  {
    more == []
    || (&& now <= more[0].checked <= more[0].updated && IsDue(t, more[0].checked)
        && MayCome(Update(t, more[0].updated), more[0].updated, more[1..]))
  }

  lemma {:induction false} PacedIsSpaced(t: Throttle, sends: seq<Stamp>, now: int, more: seq<Stamp>)
    requires Paced(Settled(t, sends), sends) && Past(sends, now) && MayCome(t, now, more)
    ensures Spaced(t.period, sends + more)
    decreases |more|
  {
    if more == [] {
      assert sends + more == sends;
    } else {
      ChargedKeepsPace(t, sends, more[0], more[0].updated);
      PacedIsSpaced(Update(t, more[0].updated), sends + [more[0]], more[0].updated, more[1..]);
      assert sends + [more[0]] + more[1..] == sends + more;
    }
  }

  /** Without room, a few more sends as soon as they are due are too close to some earlier one. */
  function Crowding(t: Throttle, s: Stamp): (more: seq<Stamp>)
  {
    if s.updated > t.next + 2 * t.period then [Stamp(s.updated, s.updated)]
    else
      var second := if s.updated > t.next + t.period then s.updated else t.next + t.period;
      var third := t.next + 2 * t.period;
      [Stamp(s.updated, s.updated), Stamp(second, second), Stamp(third, third)]
  }

  lemma CrowdingMayCome(t: Throttle, s: Stamp)
    requires s.checked <= s.updated && IsDue(t, s.checked)
    ensures MayCome(t, s.updated, Crowding(t, s))
  {
    var more := Crowding(t, s);
    var t1 := Update(t, more[0].updated);
    if |more| == 1 {
      assert MayCome(t1, more[0].updated, []);
    } else {
      var t2 := Update(t1, more[1].updated);
      var t3 := Update(t2, more[2].updated);
      assert t1.next == t.next + t.period && t2.next == t1.next + t.period;
      assert more[1..][1..] == [more[2]] && [more[2]][1..] == [];
      assert MayCome(t3, more[2].updated, []);
      assert MayCome(t2, more[1].updated, [more[2]]);
      assert MayCome(t1, more[0].updated, more[1..]);
    }
  }

  lemma CrowdingIsTooClose(t: Throttle, sends: seq<Stamp>, s: Stamp)
    requires s.checked <= s.updated && IsDue(t, s.checked) && !HasRoom(t, sends, s)
    ensures !Spaced(t.period, sends + [s] + Crowding(t, s))
  {
    var more, n := Crowding(t, s), |sends|;
    var all, last := sends + [s] + more, n + |more|;
    assert all[n] == s && all[last] == more[|more| - 1];
    PeriodsOne(t.period);
    if Base(t, s.updated) < s.updated - t.period {
      assert all[last].checked < all[n].updated + Periods(last - n - 2, t.period);
    } else {
      var i :| 0 <= i < n && Base(t, s.updated) < sends[i].updated + Periods(n - i - 1, t.period);
      PeriodsAdd(n - i - 1, 2, t.period);
      PeriodsAdd(1, 1, t.period);
      assert all[i] == sends[i];
      assert all[last].checked < all[i].updated + Periods(last - i - 2, t.period);
    }
  }

  /**
   After a paced history of sends, charged or not, the rate bound survives one more that does not move the
   due time, whatever follows, exactly if it has room.
   */
  lemma UnchargedIsHarmlessIff(t: Throttle, sends: seq<Stamp>, s: Stamp)
    requires Paced(Settled(t, sends), sends) && Past(sends, s.checked)
    requires s.checked <= s.updated && IsDue(t, s.checked)
    ensures (forall more :: MayCome(t, s.updated, more) ==> Spaced(t.period, sends + [s] + more))
            <==> HasRoom(t, sends, s)
  {
    hide Spaced, MayCome, HasRoom, Paced;
    if HasRoom(t, sends, s) {
      RoomKeepsPace(t, sends, s);
      forall more | MayCome(t, s.updated, more)
        ensures Spaced(t.period, sends + [s] + more)
      {
        PacedIsSpaced(t, sends + [s], s.updated, more);
      }
    } else {
      CrowdingMayCome(t, s);
      CrowdingIsTooClose(t, sends, s);
    }
  }

  // ----- Whole runs of sends, some of which do not move the due time

  datatype Send = Send(stamp: Stamp, charged: bool)

  function Stamps(run: seq<Send>): (r: seq<Stamp>)
    ensures |r| == |run| && forall i :: 0 <= i < |run| ==> r[i] == run[i].stamp
  {
    seq(|run|, i requires 0 <= i < |run| => run[i].stamp)
  }

  function After(t: Throttle, run: seq<Send>): (r: Throttle)
    ensures r.period == t.period
  {
    if run == [] then t
    else
      var u, last := After(t, run[..|run| - 1]), run[|run| - 1];
      if last.charged then Update(u, last.stamp.updated) else u
  }

  function Ends(t: Throttle, run: seq<Send>): int
  {
    if run == [] then t.next else run[|run| - 1].stamp.updated
  }

  /** Every send was found due, one after the other. */
  predicate Follows(t: Throttle, run: seq<Send>)
  {
    run == []
    || (var before, s := run[..|run| - 1], run[|run| - 1].stamp;
        && Follows(t, before) && s.checked <= s.updated && IsDue(After(t, before), s.checked)
        && Past(Stamps(before), s.checked))
  }

  /** Every send that did not move the due time had room, against all sends before it. */
  ghost predicate AllHaveRoom(t: Throttle, run: seq<Send>)
  {
    run == []
    || (var before, last := run[..|run| - 1], run[|run| - 1];
        AllHaveRoom(t, before) && (last.charged || HasRoom(After(t, before), Stamps(before), last.stamp)))
  }

  lemma {:induction false} RoomyRunIsPaced(t: Throttle, run: seq<Send>)
    requires Follows(t, run) && AllHaveRoom(t, run)
    ensures Paced(Settled(After(t, run), Stamps(run)), Stamps(run))
  {
    if run != [] {
      hide Paced, HasRoom, Settled;
      var before, last := run[..|run| - 1], run[|run| - 1];
      RoomyRunIsPaced(t, before);
      assert Stamps(run) == Stamps(before) + [last.stamp];
      if last.charged {
        ChargedKeepsPace(After(t, before), Stamps(before), last.stamp, last.stamp.updated);
      } else {
        RoomKeepsPace(After(t, before), Stamps(before), last.stamp);
      }
    }
  }

  /** At every point of the run, whatever charged sends come next, the bound holds. */
  ghost predicate StaysSpaced(t: Throttle, run: seq<Send>)
  {
    forall k, more :: 0 <= k <= |run| && MayCome(After(t, run[..k]), Ends(t, run[..k]), more) ==>
      Spaced(t.period, Stamps(run[..k]) + more)
  }

  lemma {:induction false} PrefixHasRoom(t: Throttle, run: seq<Send>, k: nat)
    requires Follows(t, run) && k <= |run|
    ensures Follows(t, run[..k]) && (AllHaveRoom(t, run) ==> AllHaveRoom(t, run[..k]))
    decreases |run| - k
  {
    if k == |run| {
      assert run[..k] == run;
    } else {
      PrefixHasRoom(t, run, k + 1);
      assert run[..k + 1][..k] == run[..k];
    }
  }

  /** The first send without room. */
  lemma {:induction false} FirstWithoutRoom(t: Throttle, run: seq<Send>) returns (k: nat)
    requires Follows(t, run) && !AllHaveRoom(t, run)
    ensures k < |run| && AllHaveRoom(t, run[..k]) && !run[k].charged
    ensures !HasRoom(After(t, run[..k]), Stamps(run[..k]), run[k].stamp)
  {
    var n := |run| - 1;
    if AllHaveRoom(t, run[..n]) {
      k := n;
    } else {
      k := FirstWithoutRoom(t, run[..n]);
      assert run[..n][..k] == run[..k];
    }
  }

  /**
   A run in which any sends may leave the due time where it is stays within the rate bound, at every point
   and whatever charged sends come next, exactly if each of those had room against all sends before it.
   */
  lemma RunIsHarmlessIff(t: Throttle, run: seq<Send>)
    requires Follows(t, run)
    ensures StaysSpaced(t, run) <==> AllHaveRoom(t, run)
  {
    hide MayCome, Spaced, Paced, HasRoom, After, AllHaveRoom;
    if AllHaveRoom(t, run) {
      forall k, more | 0 <= k <= |run| && MayCome(After(t, run[..k]), Ends(t, run[..k]), more)
        ensures Spaced(t.period, Stamps(run[..k]) + more)
      {
        PrefixHasRoom(t, run, k);
        RoomyRunIsPaced(t, run[..k]);
        PacedIsSpaced(After(t, run[..k]), Stamps(run[..k]), Ends(t, run[..k]), more);
      }
    } else {
      var k := FirstWithoutRoom(t, run);
      WithoutRoomIsTooClose(t, run, k);
    }
  }

  lemma WithoutRoomIsTooClose(t: Throttle, run: seq<Send>, k: nat)
    requires Follows(t, run) && k < |run| && !run[k].charged
    requires !HasRoom(After(t, run[..k]), Stamps(run[..k]), run[k].stamp)
    ensures !StaysSpaced(t, run)
  {
    hide MayCome, Spaced, HasRoom, Crowding;
    PrefixHasRoom(t, run, k + 1);
    assert run[..k + 1][..k] == run[..k];
    var u, s := After(t, run[..k]), run[k].stamp;
    CrowdingMayCome(u, s);
    CrowdingIsTooClose(u, Stamps(run[..k]), s);
    assert Stamps(run[..k + 1]) == Stamps(run[..k]) + [s];
    assert After(t, run[..k + 1]) == u && Ends(t, run[..k + 1]) == s.updated;
    assert MayCome(After(t, run[..k + 1]), Ends(t, run[..k + 1]), Crowding(u, s));
  }

  // ----- Examples

  /** Period 10, due since 15 before: an uncharged send and, 5 later, three more. Four sends span 5. */
  lemma UnchargedExample()
    ensures var t, s, more := Throttle(10, -15), Stamp(0, 0), [Stamp(5, 5), Stamp(5, 5), Stamp(5, 5)];
            && Paced(t, []) && IsDue(t, s.checked) && !HasRoom(t, [], s)
            && MayCome(t, s.updated, more) && !Spaced(t.period, [] + [s] + more)
  {
    var t, s, more := Throttle(10, -15), Stamp(0, 0), [Stamp(5, 5), Stamp(5, 5), Stamp(5, 5)];
    assert MayCome(Throttle(10, 15), 5, []);
    assert more[1..][1..] == [more[2]] && [more[2]][1..] == [];
    assert MayCome(Throttle(10, 5), 5, [more[2]]);
    assert MayCome(Throttle(10, -5), 5, more[1..]);
    var all := [] + [s] + more;
    assert all[0] == s && all[3] == more[2];
    assert all[3].checked < all[0].updated + Periods(3 - 0 - 2, 10);
  }

  function At(time: int, charged: bool): Send
  {
    Send(Stamp(time, time), charged)
  }

  lemma OneMore(t: Throttle, run: seq<Send>, time: int, charged: bool)
    requires Follows(t, run) && IsDue(After(t, run), time) && Past(Stamps(run), time)
    ensures Follows(t, run + [At(time, charged)])
    ensures After(t, run + [At(time, charged)]) == if charged then Update(After(t, run), time) else After(t, run)
  {
    assert (run + [At(time, charged)])[..|run|] == run;
  }

  /** Uncharged and charged sends in turn. */
  function Alternating(): seq<Send>
  {
    [At(0, false), At(1, true), At(5, false), At(5, true), At(15, false), At(15, true), At(25, false)]
  }

  lemma AlternatingStarts()
    ensures var t, run := Throttle(10, -9), Alternating();
            Follows(t, run[..4]) && After(t, run[..2]) == Throttle(10, 1) && After(t, run[..4]) == Throttle(10, 11)
  {
    hide After, Follows;
    var t, run := Throttle(10, -9), Alternating();
    Nothing(t);
    OneMore(t, [], 0, false);
    assert run[..1] == [] + [At(0, false)];
    OneMore(t, run[..1], 1, true);
    assert run[..2] == run[..1] + [At(1, true)];
    OneMore(t, run[..2], 5, false);
    assert run[..3] == run[..2] + [At(5, false)];
    OneMore(t, run[..3], 5, true);
    assert run[..4] == run[..3] + [At(5, true)];
  }

  lemma AlternatingEnds()
    ensures var t, run := Throttle(10, -9), Alternating();
            Follows(t, run) && After(t, run[..6]) == Throttle(10, 21)
  {
    hide After, Follows;
    var t, run := Throttle(10, -9), Alternating();
    AlternatingStarts();
    OneMore(t, run[..4], 15, false);
    assert run[..5] == run[..4] + [At(15, false)];
    OneMore(t, run[..5], 15, true);
    assert run[..6] == run[..5] + [At(15, true)];
    OneMore(t, run[..6], 25, false);
    assert run == run[..6] + [At(25, false)];
  }

  /**
   Why room has to be counted against all sends: four uncharged sends, each of which has room against the
   charged ones alone, make seven sends that span 25 where the bound asks for 40.
   */
  lemma RepeatedExample()
    ensures var t, run := Throttle(10, -9), Alternating();
            && Follows(t, run) && !AllHaveRoom(t, run) && !Spaced(t.period, Stamps(run))
            && HasRoom(After(t, run[..0]), [], run[0].stamp)
            && HasRoom(After(t, run[..2]), [run[1].stamp], run[2].stamp)
            && HasRoom(After(t, run[..4]), [run[1].stamp, run[3].stamp], run[4].stamp)
            && HasRoom(After(t, run[..6]), [run[1].stamp, run[3].stamp, run[5].stamp], run[6].stamp)
  {
    hide After, Follows, AllHaveRoom;
    var t, run := Throttle(10, -9), Alternating();
    Nothing(t);
    AlternatingStarts();
    AlternatingEnds();
    assert run[..0] == [];
    assert Stamps(run)[6].checked < Stamps(run)[0].updated + Periods(6 - 0 - 2, 10);
    if AllHaveRoom(t, run) {
      RoomyIsSpaced(t, run);
    }
  }

  lemma Nothing(t: Throttle)
    ensures Follows(t, []) && After(t, []) == t
  {
  }

  lemma RoomyIsSpaced(t: Throttle, run: seq<Send>)
    requires Follows(t, run) && AllHaveRoom(t, run)
    ensures Spaced(t.period, Stamps(run))
  {
    RoomyRunIsPaced(t, run);
  }
}

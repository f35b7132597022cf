/**
 ULog::_logging_seq: 16-bit packet sequence numbers with a window that tells a gap from a
 re-transmission, and when that agrees with a counter that never wraps.
 */
module UlogSequence {
  type u16 = n: nat | n < 65536

  datatype Verdict = InOrder | Gap | Stale

  const HALF := 32767

  function Low16(n: nat): u16
  {
    n % 65536
  }

  /** The decision taken on 16-bit numbers. */
  function Decide(expected: u16, got: u16): Verdict
  {
    if expected == got then InOrder
    else if got > expected then (if got - expected > HALF then Stale else Gap)
    else (if expected - got < HALF then Stale else Gap)
  }

  /** The decision an unbounded counter would take. */
  function Ideal(expected: nat, got: nat): Verdict
  {
    if expected == got then InOrder else if got > expected then Gap else Stale
  }

  function Advance(expected: nat, got: nat, v: Verdict): nat
  {
    if v.Stale? then expected else got + 1
  }

  /** Within this distance of the expected number the 16-bit decision is the right one. */
  predicate InWindow(expected: nat, got: nat)
  {
    -32766 <= got - expected <= 32767
  }

  lemma Wraps(expected: nat, got: nat) returns (q: int)
    requires -65536 < got - expected < 65536
    ensures got - expected == Low16(got) - Low16(expected) + 65536 * q
    ensures -1 <= q <= 1
  {
    q := got / 65536 - expected / 65536;
  }

  /**
   For true numbers less than 65536 apart the 16-bit decision is right exactly in the window, plus
   two distances on either side where it depends on which of the two truncated numbers is larger.
   */
  lemma WindowIsExact(expected: nat, got: nat)
    requires -65536 < got - expected < 65536
    ensures Decide(Low16(expected), Low16(got)) == Ideal(expected, got)
            <==> || InWindow(expected, got)
                 || (got - expected in {32768, 32769} && Low16(got) < Low16(expected))
                 || (got - expected in {-32767, -32768} && Low16(got) > Low16(expected))
  {
    var q := Wraps(expected, got);
  }

  /** Just outside the window an old packet is taken for new data. */
  lemma JustOutsideWindow()
    ensures !InWindow(32767, 0) && Decide(Low16(32767), Low16(0)) == Gap && Ideal(32767, 0) == Stale
    ensures !InWindow(0, 32768) && Decide(Low16(0), Low16(32768)) == Stale && Ideal(0, 32768) == Gap
  {
  }

  // ----- Whole runs

  function Run16(expected: u16, arrivals: seq<nat>): seq<Verdict>
    decreases |arrivals|
  {
    if arrivals == [] then []
    else
      var got := Low16(arrivals[0]);
      var v := Decide(expected, got);
      [v] + Run16(Low16(Advance(expected, got, v)), arrivals[1..])
  }

  function RunIdeal(expected: nat, arrivals: seq<nat>): seq<Verdict>
    decreases |arrivals|
  {
    if arrivals == [] then []
    else
      var v := Ideal(expected, arrivals[0]);
      [v] + RunIdeal(Advance(expected, arrivals[0], v), arrivals[1..])
  }

  predicate AllInWindow(expected: nat, arrivals: seq<nat>)
    decreases |arrivals|
  {
    arrivals == []
    || (InWindow(expected, arrivals[0])
        && AllInWindow(Advance(expected, arrivals[0], Ideal(expected, arrivals[0])), arrivals[1..]))
  }

  lemma AdvanceLow16(expected: nat, got: nat)
    requires InWindow(expected, got)
    ensures var v := Ideal(expected, got);
            && Decide(Low16(expected), Low16(got)) == v
            && Low16(Advance(Low16(expected), Low16(got), v)) == Low16(Advance(expected, got, v))
  {
    WindowIsExact(expected, got);
    hide Low16, Decide;
    Low16Successor(got);
    Low16Twice(expected);
  }

  lemma Low16Successor(n: nat)
    ensures Low16(Low16(n) + 1) == Low16(n + 1)
  {
  }

  lemma Low16Twice(n: nat)
    ensures Low16(Low16(n)) == Low16(n)
  {
  }

  /** Across any number of wraps, the 16-bit counter decides every arrival like the unbounded one. */
  lemma {:induction false} RunRefines(expected: nat, arrivals: seq<nat>)
    requires AllInWindow(expected, arrivals)
    ensures Run16(Low16(expected), arrivals) == RunIdeal(expected, arrivals)
    decreases |arrivals|
  {
    if arrivals != [] {
      hide Decide, Low16, InWindow;
      AdvanceLow16(expected, arrivals[0]);
      RunRefines(Advance(expected, arrivals[0], Ideal(expected, arrivals[0])), arrivals[1..]);
    }
  }

  /** The expected number after all arrivals. */
  function Final(expected: nat, arrivals: seq<nat>): nat
    decreases |arrivals|
  {
    if arrivals == [] then expected
    else Final(Advance(expected, arrivals[0], Ideal(expected, arrivals[0])), arrivals[1..])
  }

  /** Nothing is missed: every arrival is the expected one or an old one. */
  predicate NoGap(expected: nat, arrivals: seq<nat>)
    decreases |arrivals|
  {
    arrivals == []
    || (!Ideal(expected, arrivals[0]).Gap?
        && NoGap(Advance(expected, arrivals[0], Ideal(expected, arrivals[0])), arrivals[1..]))
  }

  lemma {:induction false} NoGapIsNoVerdict(expected: nat, arrivals: seq<nat>)
    ensures NoGap(expected, arrivals) <==> Gap !in RunIdeal(expected, arrivals)
    decreases |arrivals|
  {
    if arrivals != [] {
      NoGapIsNoVerdict(Advance(expected, arrivals[0], Ideal(expected, arrivals[0])), arrivals[1..]);
    }
  }

  /** The arrivals that are processed. */
  function Processed(arrivals: seq<nat>, vs: seq<Verdict>): (r: seq<nat>)
    requires |arrivals| == |vs|
  {
    if arrivals == [] then []
    else (if vs[0].Stale? then [] else [arrivals[0]]) + Processed(arrivals[1..], vs[1..])
  }

  ghost predicate StrictlyIncreasing(xs: seq<nat>)
  {
    forall i, j :: 0 <= i < j < |xs| ==> xs[i] < xs[j]
  }

  lemma {:induction false} RunLengths(expected: nat, arrivals: seq<nat>)
    ensures |RunIdeal(expected, arrivals)| == |arrivals|
    decreases |arrivals|
  {
    if arrivals != [] {
      RunLengths(Advance(expected, arrivals[0], Ideal(expected, arrivals[0])), arrivals[1..]);
    }
  }

  lemma {:induction false} IdealIsMonotone(expected: nat, arrivals: seq<nat>)
    ensures |RunIdeal(expected, arrivals)| == |arrivals|
    ensures var p := Processed(arrivals, RunIdeal(expected, arrivals));
            StrictlyIncreasing(p) && forall i :: 0 <= i < |p| ==> expected <= p[i]
    decreases |arrivals|
  {
    RunLengths(expected, arrivals);
    if arrivals != [] {
      var v := Ideal(expected, arrivals[0]);
      var e := Advance(expected, arrivals[0], v);
      IdealIsMonotone(e, arrivals[1..]);
      var vs := RunIdeal(expected, arrivals);
      assert vs[1..] == RunIdeal(e, arrivals[1..]);
    }
  }

  /** So every packet is processed at most once and in increasing order. */
  lemma {:induction false} AtMostOnceInOrder(expected: nat, arrivals: seq<nat>)
    requires AllInWindow(expected, arrivals)
    ensures |Run16(Low16(expected), arrivals)| == |arrivals|
    ensures StrictlyIncreasing(Processed(arrivals, Run16(Low16(expected), arrivals)))
  {
    RunRefines(expected, arrivals);
    IdealIsMonotone(expected, arrivals);
  }
}

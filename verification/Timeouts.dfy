/**
 The main loop's timers: a singly linked list of nodes that are flagged for removal at any time and
 unlinked in one sweep at the end of each iteration.
 */
module Timeouts {
  const MSEC_PER_SEC := 1000
  const NSEC_PER_MSEC := 1_000_000

  /** A relative timer setting; zero in both parts disarms the timer. */
  datatype TimerSpec = TimerSpec(sec: nat, nsec: nat)

  /** The split done by Mainloop::mod_timeout. */
  function SpecOf(ms: nat): TimerSpec
  {
    TimerSpec(ms / MSEC_PER_SEC, ms % MSEC_PER_SEC * NSEC_PER_MSEC)
  }

  predicate IsArmed(s: TimerSpec)
  {
    s.sec != 0 || s.nsec != 0
  }

  function Nanoseconds(s: TimerSpec): nat
  {
    s.sec * MSEC_PER_SEC * NSEC_PER_MSEC + s.nsec
  }

  /** The split is a valid setting, loses nothing, and disarms only for 0. */
  lemma SplitIsExact(ms: nat)
    ensures Nanoseconds(SpecOf(ms)) == ms * NSEC_PER_MSEC
    ensures SpecOf(ms).nsec < MSEC_PER_SEC * NSEC_PER_MSEC
    ensures IsArmed(SpecOf(ms)) <==> ms != 0
  {
    assert ms == ms / MSEC_PER_SEC * MSEC_PER_SEC + ms % MSEC_PER_SEC;
  }

  class Timeout {
    var removeMe: bool
    var next: Timeout?
    var spec: TimerSpec

    constructor ()
      ensures !removeMe && next == null && spec == TimerSpec(0, 0)
    {
      removeMe, next, spec := false, null, TimerSpec(0, 0);
    }
  }

  /** The nodes not in `gone`, in order. */
  ghost function Without<T>(nodes: seq<T>, gone: set<T>): (r: seq<T>)
  {
    if nodes == [] then []
    else
      var last := nodes[|nodes| - 1];
      Without(nodes[..|nodes| - 1], gone) + if last in gone then [] else [last]
  }

  /** The nodes in `gone`, in order. */
  ghost function Only<T>(nodes: seq<T>, gone: set<T>): (r: seq<T>)
  {
    if nodes == [] then []
    else
      var last := nodes[|nodes| - 1];
      Only(nodes[..|nodes| - 1], gone) + if last in gone then [last] else []
  }

  ghost predicate Distinct<T>(nodes: seq<T>)
  {
    forall i, j :: 0 <= i < j < |nodes| ==> nodes[i] != nodes[j]
  }

  lemma DistinctMore<T>(nodes: seq<T>, n: T)
    requires Distinct(nodes) && n !in nodes
    ensures Distinct(nodes + [n])
  {
  }

  lemma DistinctDrop<T>(nodes: seq<T>, k: nat)
    requires Distinct(nodes) && k < |nodes|
    ensures var rest := nodes[..k] + nodes[k + 1..];
            Distinct(rest) && nodes[k] !in rest && forall n :: n in rest ==> n in nodes
  {
  }

  lemma NothingYet<T>(gone: set<T>)
    ensures Without([], gone) == [] && Only([], gone) == []
  {
  }

  lemma WithoutStep<T>(nodes: seq<T>, gone: set<T>, i: nat)
    requires i < |nodes|
    ensures Without(nodes[..i + 1], gone)
            == Without(nodes[..i], gone) + if nodes[i] in gone then [] else [nodes[i]]
    ensures Only(nodes[..i + 1], gone)
            == Only(nodes[..i], gone) + if nodes[i] in gone then [nodes[i]] else []
  {
    assert nodes[..i + 1][..i] == nodes[..i];
  }

  lemma {:induction false} MembersSplit<T>(nodes: seq<T>, gone: set<T>, n: T)
    ensures n in Without(nodes, gone) <==> n in nodes && n !in gone
    ensures n in Only(nodes, gone) <==> n in nodes && n in gone
  {
    if nodes != [] {
      var m := |nodes| - 1;
      MembersSplit(nodes[..m], gone, n);
      assert nodes == nodes[..m] + [nodes[m]];
    }
  }

  /** Every node is kept or removed, never both, and never twice. */
  lemma {:induction false} RemovedOnce<T>(nodes: seq<T>, gone: set<T>)
    requires Distinct(nodes)
    ensures Distinct(Without(nodes, gone)) && Distinct(Only(nodes, gone))
    ensures multiset(Without(nodes, gone)) + multiset(Only(nodes, gone)) == multiset(nodes)
  {
    if nodes != [] {
      var m := |nodes| - 1;
      var rest, last := nodes[..m], nodes[m];
      assert nodes == rest + [last];
      assert Distinct(rest) && last !in rest;
      RemovedOnce(rest, gone);
      MembersSplit(rest, gone, last);
      DistinctMore(if last in gone then Only(rest, gone) else Without(rest, gone), last);
    }
  }

  /** The node at position `i`, or null past the end. */
  ghost function At(nodes: seq<Timeout>, i: nat): Timeout?
  {
    if i < |nodes| then nodes[i] else null
  }

  /** Each node points to the one after it. */
  ghost predicate Chained(nodes: seq<Timeout>)
    reads nodes`next
  {
    forall i :: 0 <= i < |nodes| ==> nodes[i].next == At(nodes, i + 1)
  }

  /**
   A sweep over `all` that has looked at the first `j` nodes: the first `k` nodes of the list are those
   of them that stay, the others were freed in order, and the rest of the list is as it was.
   */
  ghost predicate Sweeping(all: seq<Timeout>, gone: set<Timeout>, j: nat, nodes: seq<Timeout>, k: nat,
                           freed: seq<Timeout>)
  {
    && j <= |all| && k <= |nodes|
    && nodes[..k] == Without(all[..j], gone) && nodes[k..] == all[j..]
    && freed == Only(all[..j], gone)
  }

  lemma SweepStart(all: seq<Timeout>, gone: set<Timeout>)
    ensures Sweeping(all, gone, 0, all, 0, [])
  {
  }

  lemma SweepStep(all: seq<Timeout>, gone: set<Timeout>, j: nat, nodes: seq<Timeout>, k: nat, freed: seq<Timeout>)
    requires Sweeping(all, gone, j, nodes, k, freed) && k < |nodes|
    ensures j < |all| && nodes[k] == all[j]
    ensures nodes[k] !in gone ==> Sweeping(all, gone, j + 1, nodes, k + 1, freed)
    ensures nodes[k] in gone ==>
              Sweeping(all, gone, j + 1, nodes[..k] + nodes[k + 1..], k, freed + [nodes[k]])
  {
    hide Without, Only;
    assert nodes[k] == nodes[k..][0] == all[j..][0];
    WithoutStep(all, gone, j);
    assert nodes[k + 1..] == nodes[k..][1..] == all[j + 1..];
    assert nodes[..k + 1] == nodes[..k] + [nodes[k]];
    var rest := nodes[..k] + nodes[k + 1..];
    assert rest[..k] == nodes[..k] && rest[k..] == nodes[k + 1..];
  }

  lemma SweepEnd(all: seq<Timeout>, gone: set<Timeout>, j: nat, nodes: seq<Timeout>, k: nat, freed: seq<Timeout>)
    requires Sweeping(all, gone, j, nodes, k, freed) && k == |nodes|
    ensures nodes == Without(all, gone) && freed == Only(all, gone)
  {
    hide Without, Only;
    assert nodes[k..] == [] && all[j..] == [] && all[..j] == all && nodes[..k] == nodes;
  }

  class TimeoutList {
    /** Whether the n-th timer can be created. */
    const creates: nat -> bool
    var tries: nat
    var head: Timeout?
    /** The list's nodes from the head on, and the nodes freed so far. */
    ghost var nodes: seq<Timeout>
    ghost var freed: seq<Timeout>

    ghost predicate Valid()
      reads this, nodes`next
    {
      && head == At(nodes, 0) && Chained(nodes)
      && Distinct(nodes) && Distinct(freed)
      && forall n :: n in nodes ==> n !in freed
    }

    ghost function NodeSet(): set<Timeout>
      reads this`nodes
    {
      set t | t in nodes
    }

    ghost function Flagged(): set<Timeout>
      reads this, nodes`removeMe
    {
      set n | n in nodes && n.removeMe
    }

    constructor (creates: nat -> bool)
      ensures Valid() && nodes == [] && freed == [] && tries == 0 && this.creates == creates
    {
      this.creates, tries := creates, 0;
      head, nodes, freed := null, [], [];
    }

    /** Mainloop::add_timeout; null when the timer cannot be created. */
    method AddTimeout(ms: nat) returns (t: Timeout?)
      requires Valid()
      modifies this`head, this`nodes, this`tries
      ensures Valid()
      ensures (t != null <==> creates(old(tries))) && tries == old(tries) + 1
      ensures t == null ==> nodes == old(nodes)
      ensures t != null ==> fresh(t) && nodes == [t] + old(nodes) && !t.removeMe && t.spec == SpecOf(ms)
      ensures forall n :: n in old(nodes) ==> n.removeMe == old(n.removeMe) && n.spec == old(n.spec)
    {
      var created := creates(tries);
      tries := tries + 1;
      if !created {
        return null;
      }
      t := new Timeout();
      t.spec := SpecOf(ms);
      t.next := head;
      head := t;
      nodes := [t] + nodes;
    }

    /** Mainloop::mod_timeout */
    method ModTimeout(t: Timeout, ms: nat)
      modifies t`spec
      ensures t.spec == SpecOf(ms)
    {
      t.spec := SpecOf(ms);
    }

    /** Mainloop::del_timeout */
    method DelTimeout(t: Timeout)
      modifies t`removeMe
      ensures t.removeMe
    {
      t.removeMe := true;
    }

    /** Unlink and free the node at the head. */
    method PopHead()
      requires Valid() && nodes != []
      modifies this`head, this`nodes, this`freed
      ensures Valid() && nodes == old(nodes)[1..] && freed == old(freed) + [old(nodes)[0]]
    {
      ghost var gone := nodes[0];
      hide Distinct;
      DistinctDrop(nodes, 0);
      DistinctMore(freed, gone);
      assert nodes[..0] + nodes[1..] == nodes[1..];
      var next := head.next;
      freed := freed + [gone];
      nodes := nodes[1..];
      head := next;
    }

    /** Unlink and free the node after `prev`, which is at position `k` of the list. */
    method UnlinkAfter(prev: Timeout, ghost k: nat) returns (next: Timeout?)
      requires Valid() && 0 < k < |nodes| && prev == nodes[k - 1]
      modifies this`nodes, this`freed, prev`next
      ensures Valid()
      ensures nodes == old(nodes)[..k] + old(nodes)[k + 1..] && freed == old(freed) + [old(nodes)[k]]
      ensures next == At(nodes, k)
    {
      hide Distinct;
      ghost var gone := nodes[k];
      ghost var rest := nodes[..k] + nodes[k + 1..];
      DistinctDrop(nodes, k);
      DistinctMore(freed, gone);
      assert nodes[k].next == At(nodes, k + 1) && prev.next == At(nodes, k);
      next := prev.next.next;
      Relink(prev, next, k);
      freed := freed + [gone];
      nodes := rest;
    }

    /** Point the node before position `k` past it; what follows and precedes is untouched. */
    method Relink(prev: Timeout, next: Timeout?, ghost k: nat)
      requires Chained(nodes) && Distinct(nodes) && 0 < k < |nodes| && prev == nodes[k - 1]
      requires next == At(nodes, k + 1)
      modifies prev`next
      ensures Chained(nodes[..k] + nodes[k + 1..])
    {
      assert forall i :: 0 <= i < |nodes| && i != k - 1 ==> nodes[i] != prev;
      prev.next := next;
      ghost var rest := nodes[..k] + nodes[k + 1..];
      forall i | 0 <= i < |rest|
        ensures rest[i].next == At(rest, i + 1)
      {
        var at := if i < k then i else i + 1;
        assert rest[i] == nodes[at];
      }
    }

    /**
     Mainloop::_del_timeouts: exactly the unflagged nodes are left, in their original order, and every
     flagged node is freed exactly once.
     */
    method DelTimeouts()
      requires Valid()
      modifies this`head, this`nodes, this`freed, nodes`next
      ensures Valid()
      ensures nodes == Without(old(nodes), old(Flagged()))
      ensures freed == old(freed) + Only(old(nodes), old(Flagged()))
    {
      hide Distinct, Sweeping, Without, Only, Chained;
      ghost var all, gone := nodes, Flagged();
      ghost var j, frees := 0, [];
      SweepStart(all, gone);
      while head != null && head.removeMe
        invariant Valid() && Sweeping(all, gone, j, nodes, 0, frees) && freed == old(freed) + frees
        invariant forall n :: n in nodes ==> n in all
        invariant unchanged(all)
        decreases |nodes|
      {
        SweepStep(all, gone, j, nodes, 0, frees);
        assert nodes[..0] + nodes[1..] == nodes[1..];
        j, frees := j + 1, frees + [nodes[0]];
        PopHead();
      }
      if head != null {
        SweepStep(all, gone, j, nodes, 0, frees);
        SweepTail(all, gone, j + 1, old(freed), frees);
      } else {
        SweepEnd(all, gone, j, nodes, 0, frees);
      }
    }

    /** The second half of the sweep, behind a head that stays. */
    method SweepTail(ghost all: seq<Timeout>, ghost gone: set<Timeout>, ghost from: nat,
                     ghost base: seq<Timeout>, ghost before: seq<Timeout>)
      requires Valid() && head != null && Sweeping(all, gone, from, nodes, 1, before)
      requires freed == base + before
      requires forall n :: n in all ==> (n in gone <==> n.removeMe)
      requires forall n :: n in nodes ==> n in all
      modifies this`nodes, this`freed, all`next
      ensures Valid() && nodes == Without(all, gone) && freed == base + Only(all, gone)
    {
      hide Distinct, Sweeping, Without, Only;
      var prev := head;
      var current := head.next;
      ghost var j, k, frees := from, 1, before;
      while current != null
        invariant Valid() && 0 < k <= |nodes| && prev == nodes[k - 1] && current == At(nodes, k)
        invariant Sweeping(all, gone, j, nodes, k, frees) && freed == base + frees
        invariant forall n :: n in nodes ==> n in all
        decreases |nodes| - k
      {
        SweepStep(all, gone, j, nodes, k, frees);
        j := j + 1;
        if current.removeMe {
          frees := frees + [nodes[k]];
          assert prev in nodes && prev in all;
          current := UnlinkAfter(prev, k);
        } else {
          prev := current;
          current := current.next;
          k := k + 1;
        }
      }
      SweepEnd(all, gone, j, nodes, k, frees);
    }
  }
}

/**
 Endpoint groups: linking at start-up and at run time, and what every member of a group knows at any
 time. `U` are the endpoints in use, `P` all there ever were: a member that hung up stays in the lists of
 its group. `cut` are endpoints in use whose name was taken off the lists because another one had it too.
 */
module Groups {
  import opened Routing
  import opened Endpoints

  /** Every endpoint in use lists all others in use of its group that are not cut, and nobody outside. */
  ghost predicate Linked(U: set<Endpoint>, P: set<Endpoint>, cut: set<Endpoint>)
    reads P`groupMembers
  {
    && U <= P && Closed(P)
    && forall e, o :: e in U && o in U && o !in cut && o != e && SameGroup(e, o) ==> o in e.groupMembers
  }

  ghost predicate SeenInGroup(P: set<Endpoint>, e: Endpoint, a: SysCompId)
    reads P`seen
  {
    exists o :: o in P && SameGroup(e, o) && a in o.seen
  }

  /**
   What an endpoint has seen it knows, and what it knows its group has seen. Of those that are not cut, an
   older one knows all that a younger one does, and one that joined in time all that its group ever saw.
   */
  ghost predicate Coherent(U: set<Endpoint>, P: set<Endpoint>, cut: set<Endpoint>)
    reads U`sysCompIds, U`seen, P`seen
  {
    && (forall e, a :: e in U && a in e.seen ==> a in e.sysCompIds)
    && (forall e, a :: e in U && a in e.sysCompIds ==> SeenInGroup(P, e, a))
    && (forall e, o, a :: e in U && o in U && e !in cut && SameGroup(e, o) && e.born < o.born && a in o.sysCompIds ==>
          a in e.sysCompIds)
    && (forall e, o, a :: e in U && o in P && e !in cut && e.punctual && SameGroup(e, o) && a in o.seen ==>
          a in e.sysCompIds)
  }

  /** An endpoint that joined in time knows exactly what its group has ever seen. */
  lemma GroupKnowsWhatItSaw(U: set<Endpoint>, P: set<Endpoint>, cut: set<Endpoint>, e: Endpoint, a: SysCompId)
    requires Coherent(U, P, cut) && e in U && e !in cut && e.punctual
    ensures a in e.sysCompIds <==> SeenInGroup(P, e, a)
  {
  }

  ghost function Pool(endpoints: seq<Endpoint>): set<Endpoint>
  {
    set e | e in endpoints
  }

  ghost predicate LinkedTo(e: Endpoint, endpoints: seq<Endpoint>)
    reads e`groupMembers
  {
    && (forall o :: o in e.groupMembers ==> o in endpoints && o != e && SameGroup(e, o))
    && (forall o :: o in endpoints && o != e && SameGroup(e, o) ==> o in e.groupMembers)
  }

  /** The inner loop of the group linking in Mainloop::add_endpoints. */
  method LinkOne(e: Endpoint, endpoints: seq<Endpoint>)
    requires e in endpoints && e.groupMembers == []
    modifies e`groupMembers
    ensures LinkedTo(e, endpoints)
  {
    if e.groupName == "" {
      return;
    }
    for i := 0 to |endpoints|
      invariant LinkedTo(e, endpoints[..i])
    {
      var other := endpoints[i];
      assert endpoints[..i + 1] == endpoints[..i] + [other];
      if other != e && other.groupName == e.groupName {
        e.LinkGroupMember(other);
      }
    }
    assert endpoints[..|endpoints|] == endpoints;
  }

  /** Group linking at start-up: every endpoint lists exactly the other endpoints of its group. */
  method LinkGroups(endpoints: seq<Endpoint>)
    requires forall i, j :: 0 <= i < j < |endpoints| ==> endpoints[i] != endpoints[j]
    requires forall e :: e in endpoints ==> e.groupMembers == []
    modifies endpoints`groupMembers
    ensures forall e :: e in endpoints ==> LinkedTo(e, endpoints)
    ensures Linked(Pool(endpoints), Pool(endpoints), {})
  {
    for i := 0 to |endpoints|
      invariant forall j :: i <= j < |endpoints| ==> endpoints[j].groupMembers == []
      invariant forall j :: 0 <= j < i ==> LinkedTo(endpoints[j], endpoints)
    {
      hide LinkedTo;
      LinkOne(endpoints[i], endpoints);
    }
  }

  /** Whoever is sure to know a source that was just seen on `e`. */
  ghost predicate Shielded(e: Endpoint, o: Endpoint, cut: set<Endpoint>)
  {
    o == e || (SameGroup(e, o) && o !in cut && (o.punctual || o.born < e.born))
  }

  /**
   A source seen on an endpoint, as Endpoint::handle_read registers it. If it is new there, all of the group
   that are not cut get it; if not, nothing happens. Nobody outside the group gets it.
   */
  method Learn(e: Endpoint, a: SysCompId, ghost U: set<Endpoint>, ghost P: set<Endpoint>, ghost cut: set<Endpoint>)
    requires e in U && Linked(U, P, cut) && Coherent(U, P, cut)
    modifies e`seen, P`sysCompIds
    ensures Coherent(U, P, cut)
    ensures e.seen == old(e.seen) + {a}
    ensures forall o :: o in U && Shielded(e, o, cut) ==> a in o.sysCompIds
    ensures forall o :: o in U && o !in cut && SameGroup(e, o) ==>
              (a in o.sysCompIds <==> a in old(o.sysCompIds) || a !in old(e.sysCompIds))
    ensures forall o :: o in P ==> o.sysCompIds == old(o.sysCompIds)
                                   || (a !in old(o.sysCompIds) && o.sysCompIds == old(o.sysCompIds) + [a])
    ensures forall o :: o in P && !SameGroup(e, o) ==> o.sysCompIds == old(o.sysCompIds)
    ensures a in old(e.sysCompIds) ==> forall o :: o in P ==> o.sysCompIds == old(o.sysCompIds)
  {
    ghost var known := a in e.sysCompIds;
    e.seen := e.seen + {a};
    e.AddSysCompId(a, P);
    assert !known ==> forall o :: o in U && o !in cut && SameGroup(e, o) ==> a in o.sysCompIds;
    forall o, x | o in U && x in o.sysCompIds
      ensures SeenInGroup(P, o, x)
    {
      if x in old(o.sysCompIds) {
        assert old(SeenInGroup(P, o, x));
        var w :| w in P && SameGroup(o, w) && x in old(w.seen);
        assert x in w.seen;
      } else {
        assert SameGroup(o, e) && x in e.seen;
      }
    }
    forall o | o in U && o !in cut && SameGroup(e, o) && (o.punctual || o.born < e.born)
      ensures a in o.sysCompIds
    {
      if known {
        assert old(SeenInGroup(P, e, a));
        var w :| w in P && SameGroup(e, w) && a in old(w.seen);
        assert SameGroup(o, w) && SameGroup(o, e);
      }
    }
    forall o, q, x | o in U && q in U && o !in cut && SameGroup(o, q) && o.born < q.born && x in q.sysCompIds
      ensures x in o.sysCompIds
    {
      if x !in old(q.sysCompIds) {
        assert SameGroup(e, o);
      }
    }
    forall o, q, x | o in U && q in P && o !in cut && o.punctual && SameGroup(o, q) && x in q.seen
      ensures x in o.sysCompIds
    {
      if x !in old(q.seen) {
        assert q == e && x == a && SameGroup(e, o);
      }
    }
  }

  /** The loop in the `add` command: the newcomer and the members of its group list each other. */
  method LinkBoth(newcomer: Endpoint, endpoints: seq<Endpoint>)
    requires forall i, j :: 0 <= i < j < |endpoints| ==> endpoints[i] != endpoints[j]
    requires newcomer !in endpoints && newcomer.groupMembers == []
    modifies newcomer`groupMembers, endpoints`groupMembers
    ensures LinkedTo(newcomer, endpoints)
    ensures forall o :: o in endpoints ==>
              o.groupMembers == old(o.groupMembers) + if SameGroup(newcomer, o) then [newcomer] else []
  {
    if newcomer.groupName == "" {
      return;
    }
    for i := 0 to |endpoints|
      invariant LinkedTo(newcomer, endpoints[..i])
      invariant forall j :: i <= j < |endpoints| ==> endpoints[j].groupMembers == old(endpoints[j].groupMembers)
      invariant forall j :: 0 <= j < i ==>
                  endpoints[j].groupMembers
                  == old(endpoints[j].groupMembers) + if SameGroup(newcomer, endpoints[j]) then [newcomer] else []
    {
      var other := endpoints[i];
      assert endpoints[..i + 1] == endpoints[..i] + [other];
      if other.groupName == newcomer.groupName {
        newcomer.LinkGroupMember(other);
        other.LinkGroupMember(newcomer);
      }
    }
    assert endpoints[..|endpoints|] == endpoints;
  }

  /** No member of this endpoint's group has ever seen anything. */
  ghost predicate GroupSawNothing(P: set<Endpoint>, e: Endpoint)
    reads P`seen
  {
    forall o :: o in P && SameGroup(e, o) ==> o.seen == {}
  }

  /**
   The `add` command does not copy what the group has learned to the newcomer: it knows what its group has
   seen exactly if that is nothing. In any case older members still know at least as much as younger ones.
   */
  method LinkNewcomer(newcomer: Endpoint, endpoints: seq<Endpoint>, ghost P: set<Endpoint>, ghost cut: set<Endpoint>)
    requires forall i, j :: 0 <= i < j < |endpoints| ==> endpoints[i] != endpoints[j]
    requires newcomer !in P && newcomer.groupMembers == [] && newcomer.sysCompIds == [] && newcomer.seen == {}
    requires forall e :: e in P ==> e.born < newcomer.born
    requires newcomer.punctual <==> GroupSawNothing(P, newcomer)
    requires Linked(Pool(endpoints), P, cut) && Coherent(Pool(endpoints), P, cut)
    modifies newcomer`groupMembers, endpoints`groupMembers
    ensures LinkedTo(newcomer, endpoints)
    ensures forall o :: o in endpoints ==>
              o.groupMembers == old(o.groupMembers) + if SameGroup(newcomer, o) then [newcomer] else []
    ensures Linked(Pool(endpoints) + {newcomer}, P + {newcomer}, cut)
    ensures Coherent(Pool(endpoints) + {newcomer}, P + {newcomer}, cut)
    ensures (forall a :: a in newcomer.sysCompIds <==> SeenInGroup(P + {newcomer}, newcomer, a))
            <==> GroupSawNothing(P, newcomer)
  {
    hide Coherent;
    ghost var U := Pool(endpoints);
    assert forall o :: o in endpoints <==> o in U;
    CoherentWithNewcomer(newcomer, U, P, cut);
    LinkBoth(newcomer, endpoints);
    NewcomerKnowsIff(newcomer, P);
    forall o, m | o in P + {newcomer} && m in o.groupMembers
      ensures m in P + {newcomer} && SameGroup(o, m)
    {
      assert o in P && o !in U ==> m in old(o.groupMembers);
      assert o in U && m != newcomer ==> m in old(o.groupMembers);
    }
    forall o, q | o in U + {newcomer} && q in U + {newcomer} && q !in cut && o != q && SameGroup(o, q)
      ensures q in o.groupMembers
    {
      assert o in U && q in U ==> q in old(o.groupMembers);
    }
  }

  lemma NewcomerKnowsIff(newcomer: Endpoint, P: set<Endpoint>)
    requires newcomer !in P && newcomer.sysCompIds == [] && newcomer.seen == {}
    ensures (forall a :: a in newcomer.sysCompIds <==> SeenInGroup(P + {newcomer}, newcomer, a))
            <==> GroupSawNothing(P, newcomer)
  {
    if !GroupSawNothing(P, newcomer) {
      var o :| o in P && SameGroup(newcomer, o) && o.seen != {};
      var a: SysCompId :| a in o.seen;
      assert o in P + {newcomer};
      assert SeenInGroup(P + {newcomer}, newcomer, a) && a !in newcomer.sysCompIds;
    }
  }

  lemma CoherentWithNewcomer(newcomer: Endpoint, U: set<Endpoint>, P: set<Endpoint>, cut: set<Endpoint>)
    requires newcomer !in P && U <= P && Coherent(U, P, cut) && newcomer.sysCompIds == [] && newcomer.seen == {}
    requires forall e :: e in P ==> e.born < newcomer.born
    requires newcomer.punctual ==> GroupSawNothing(P, newcomer)
    ensures Coherent(U + {newcomer}, P + {newcomer}, cut)
  {
    forall e, a | e in U && a in e.sysCompIds
      ensures SeenInGroup(P + {newcomer}, e, a)
    {
      assert SeenInGroup(P, e, a);
    }
  }

  /** Dropping endpoints from use keeps both. */
  lemma FewerInUse(V: set<Endpoint>, U: set<Endpoint>, P: set<Endpoint>, cut: set<Endpoint>)
    requires V <= U && Linked(U, P, cut) && Coherent(U, P, cut)
    ensures Linked(V, P, cut) && Coherent(V, P, cut)
  {
  }

  lemma FewerCoherent(V: set<Endpoint>, U: set<Endpoint>, P: set<Endpoint>, cut: set<Endpoint>, more: set<Endpoint>)
    requires V <= U && Coherent(U, P, cut) && cut <= more
    ensures Coherent(V, P, more)
  {
  }
}

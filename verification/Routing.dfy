/**
 The routing decision of one endpoint for one message: Endpoint::accept_msg against the routing and
 filtering rules it implements.
 */
module Routing {
  import opened Bytes

  const NO_MSG_ID := 0xFFFF_FFFF
  const LOG_SYSTEM_ID: byte := 2
  const LOG_COMPONENT_ID: byte := 0

  /** Targets are -1 when the message has no such field. */
  datatype Msg = Msg(id: nat, targetSys: int, targetComp: int, srcSys: byte, srcComp: byte, data: seq<byte>)

  predicate WellFormed(m: Msg)
  {
    -1 <= m.targetSys < 256 && -1 <= m.targetComp < 256
  }

  type SysCompId = n: nat | n < 65536

  function Address(sys: int, comp: int): SysCompId
  {
    sys % 256 * 256 + comp % 256
  }

  function Source(m: Msg): SysCompId
  {
    Address(m.srcSys, m.srcComp)
  }

  const LOG_ADDRESS: SysCompId := 512

  /** Allow- and block-lists on message id, source component and source system. */
  datatype Filters = Filters(allowIds: seq<nat>, blockIds: seq<nat>,
                             allowComps: seq<byte>, blockComps: seq<byte>,
                             allowSystems: seq<byte>, blockSystems: seq<byte>)

  // ----- The code

  predicate HasSysId(ids: seq<SysCompId>, sys: int)
  {
    exists i :: 0 <= i < |ids| && ids[i] / 256 == sys % 256
  }

  predicate HasSysCompId(ids: seq<SysCompId>, sys: int, comp: int)
  {
    Address(sys, comp) in ids
  }

  /** The six outgoing filter checks. */
  predicate OutFiltered(f: Filters, m: Msg)
  {
    || (m.id != NO_MSG_ID && f.allowIds != [] && m.id !in f.allowIds)
    || (m.id != NO_MSG_ID && f.blockIds != [] && m.id in f.blockIds)
    || (m.id != NO_MSG_ID && f.allowComps != [] && m.srcComp !in f.allowComps)
    || (m.id != NO_MSG_ID && f.blockComps != [] && m.srcComp in f.blockComps)
    || (m.id != NO_MSG_ID && f.allowSystems != [] && m.srcSys !in f.allowSystems)
    || (m.id != NO_MSG_ID && f.blockSystems != [] && m.srcSys in f.blockSystems)
  }

  /** Endpoint::allowed_by_incoming_filters: here only the id checks look for the missing id. */
  predicate InAllowed(f: Filters, m: Msg)
  {
    && !(m.id != NO_MSG_ID && f.allowIds != [] && m.id !in f.allowIds)
    && !(m.id != NO_MSG_ID && f.blockIds != [] && m.id in f.blockIds)
    && !(f.allowComps != [] && m.srcComp !in f.allowComps)
    && !(f.blockComps != [] && m.srcComp in f.blockComps)
    && !(f.allowSystems != [] && m.srcSys !in f.allowSystems)
    && !(f.blockSystems != [] && m.srcSys in f.blockSystems)
  }

  predicate IsTarget(ids: seq<SysCompId>, sniffer: nat, m: Msg)
  {
    || m.targetSys == 0 || m.targetSys == -1
    || (m.targetComp > 0 && HasSysCompId(ids, m.targetSys, m.targetComp))
    || ((m.targetComp == 0 || m.targetComp == -1) && HasSysId(ids, m.targetSys))
    || (sniffer != 0 && HasSysId(ids, sniffer))
  }

  /** What the throttle tables say about a message's id at the time of the decision. */
  datatype Gate = Gate(throttled: bool, due: bool, cacheable: bool, queued: bool)

  datatype AcceptState = Accepted | Filtered | Rejected | Throttled | Cached

  function Accept(ids: seq<SysCompId>, f: Filters, sniffer: nat, g: Gate, m: Msg): AcceptState
  {
    if HasSysCompId(ids, m.srcSys, m.srcComp) then Rejected
    else if OutFiltered(f, m) then Filtered
    else if !IsTarget(ids, sniffer, m) then Rejected
    else if g.throttled then
      if !g.due then (if g.cacheable then Cached else Throttled)
      else if g.cacheable && g.queued then Cached
      else Accepted
    else Accepted
  }

  predicate Served(s: AcceptState)
  {
    s.Accepted? || s.Cached? || s.Throttled?
  }

  // ----- The rules, on the systems an endpoint is connected to

  ghost function Systems(ids: seq<SysCompId>): set<(nat, nat)>
  {
    set i | 0 <= i < |ids| :: (ids[i] / 256, ids[i] % 256)
  }

  /** Empty lists do not filter; a message without an id is not filtered at all. */
  ghost predicate Permitted(f: Filters, m: Msg)
  {
    m.id != NO_MSG_ID ==>
      && (f.allowIds == [] || m.id in f.allowIds) && m.id !in f.blockIds
      && (f.allowComps == [] || m.srcComp in f.allowComps) && m.srcComp !in f.blockComps
      && (f.allowSystems == [] || m.srcSys in f.allowSystems) && m.srcSys !in f.blockSystems
  }

  /** Broadcast and untargeted messages reach everyone, the others a connected target. */
  ghost predicate Reaches(systems: set<(nat, nat)>, m: Msg)
  {
    m.targetSys <= 0
    || exists s :: s in systems && s.0 == m.targetSys && (m.targetComp <= 0 || s.1 == m.targetComp)
  }

  ghost predicate Sniffs(systems: set<(nat, nat)>, sniffer: nat)
  {
    sniffer != 0 && exists s :: s in systems && s.0 == sniffer % 256
  }

  /** The routing rules: not back to the sender, permitted, and reachable here. */
  ghost predicate Routes(ids: seq<SysCompId>, f: Filters, sniffer: nat, m: Msg)
  {
    var systems := Systems(ids);
    && (m.srcSys, m.srcComp) !in systems
    && Permitted(f, m)
    && (Reaches(systems, m) || Sniffs(systems, sniffer))
  }

  lemma InSystems(ids: seq<SysCompId>, sys: byte, comp: byte)
    ensures HasSysCompId(ids, sys, comp) <==> (sys, comp) in Systems(ids)
  {
    var a := Address(sys, comp);
    assert a / 256 == sys && a % 256 == comp;
    if (sys, comp) in Systems(ids) {
      var i :| 0 <= i < |ids| && (ids[i] / 256, ids[i] % 256) == (sys, comp);
      assert ids[i] == a;
    }
    if a in ids {
      var i :| 0 <= i < |ids| && ids[i] == a;
    }
  }

  lemma SysInSystems(ids: seq<SysCompId>, sys: int)
    ensures HasSysId(ids, sys) <==> exists s :: s in Systems(ids) && s.0 == sys % 256
  {
    if HasSysId(ids, sys) {
      var i :| 0 <= i < |ids| && ids[i] / 256 == sys % 256;
      assert (ids[i] / 256, ids[i] % 256) in Systems(ids);
    }
  }

  lemma TargetIsReached(ids: seq<SysCompId>, sniffer: nat, m: Msg)
    requires WellFormed(m)
    ensures IsTarget(ids, sniffer, m) <==> Reaches(Systems(ids), m) || Sniffs(Systems(ids), sniffer)
  {
    SysInSystems(ids, m.targetSys);
    SysInSystems(ids, sniffer);
    if m.targetSys > 0 && m.targetComp > 0 {
      InSystems(ids, m.targetSys, m.targetComp);
    }
  }

  /** The decision follows the rules: every outcome occurs exactly when they say. */
  lemma AcceptFollowsRules(ids: seq<SysCompId>, f: Filters, sniffer: nat, g: Gate, m: Msg)
    requires WellFormed(m)
    ensures var s := Accept(ids, f, sniffer, g, m);
            && (Served(s) <==> Routes(ids, f, sniffer, m))
            && (s.Filtered? <==> (m.srcSys, m.srcComp) !in Systems(ids) && !Permitted(f, m))
            && (s.Throttled? <==> Routes(ids, f, sniffer, m) && g.throttled && !g.due && !g.cacheable)
            && (s.Cached? <==> Routes(ids, f, sniffer, m) && g.throttled && g.cacheable && (!g.due || g.queued))
  {
    hide HasSysCompId, IsTarget, Reaches, Sniffs, Systems;
    InSystems(ids, m.srcSys, m.srcComp);
    TargetIsReached(ids, sniffer, m);
    assert OutFiltered(f, m) <==> !Permitted(f, m);
  }

  /**
   Incoming filters follow the same rules, except that a message without an id is still held against
   the component and system lists.
   */
  lemma IncomingFollowsRules(f: Filters, m: Msg)
    ensures m.id != NO_MSG_ID ==> (InAllowed(f, m) <==> Permitted(f, m))
    ensures m.id == NO_MSG_ID ==>
              (InAllowed(f, m) <==> Permitted(f.(allowIds := [], blockIds := []), m.(id := 0)))
  {
  }

  /** A routed message overtakes a non-empty queue of its id exactly when throttling is off for it. */
  lemma OvertakesIffUnthrottled(ids: seq<SysCompId>, f: Filters, sniffer: nat, g: Gate, m: Msg)
    requires WellFormed(m) && Routes(ids, f, sniffer, m) && g.cacheable && g.queued
    ensures Accept(ids, f, sniffer, g, m).Accepted? <==> !g.throttled
  {
    hide Routes, Permitted;
    AcceptFollowsRules(ids, f, sniffer, g, m);
  }
}

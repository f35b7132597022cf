/**
 The transmit side of a UDP endpoint: messages are collected in the transmit buffer and leave as one
 datagram, when the next message no longer fits or when the coalescing timer runs out.
 */
module Coalescing {
  import opened Bytes
  import opened Transmit

  /** A message and the time it was put into the buffer. */
  datatype Queued = Queued(msg: seq<byte>, at: nat)

  /** Messages that left the buffer together: as one datagram, or thrown away. */
  datatype Batch = Batch(items: seq<Queued>, leftAt: nat, sent: bool)

  function Msgs(items: seq<Queued>): (r: seq<seq<byte>>)
    ensures |r| == |items| && forall i :: 0 <= i < |items| ==> r[i] == items[i].msg
  {
    seq(|items|, i requires 0 <= i < |items| => items[i].msg)
  }

  function AllMsgs(bs: seq<Batch>): (r: seq<seq<byte>>)
  {
    if bs == [] then [] else AllMsgs(bs[..|bs| - 1]) + Msgs(bs[|bs| - 1].items)
  }

  /** Whole messages, within the size limit unless there is only one, none older than the delay limit. */
  ghost predicate Coalesced(items: seq<Queued>, leftAt: nat, maxBytes: nat, maxMs: nat)
  {
    && 0 < |items|
    && (|items| == 1 || |Concat(Msgs(items))| <= maxBytes)
    && forall i :: 0 <= i < |items| ==> items[i].at <= leftAt <= items[i].at + maxMs
  }

  /** The datagrams of the batches that were sent. */
  ghost function Datagrams(bs: seq<Batch>): (r: seq<seq<byte>>)
  {
    if bs == [] then []
    else
      var last := bs[|bs| - 1];
      Datagrams(bs[..|bs| - 1]) + if last.sent then [Concat(Msgs(last.items))] else []
  }

  /** Those of the offered datagrams that the kernel takes. */
  ghost function Taken(kernel: nat -> KernelIo, offered: seq<seq<byte>>): (r: seq<seq<byte>>)
  {
    if offered == [] then []
    else
      var n := |offered| - 1;
      Taken(kernel, offered[..n]) + if kernel(n).Took? then [offered[n]] else []
  }

  /** What a UDP endpoint holds and has done. */
  datatype Outbox = Outbox(waiting: seq<byte>, queued: seq<Queued>, batches: seq<Batch>, offered: seq<seq<byte>>,
                           running: bool)

  /** That, and when. */
  datatype UdpState = UdpState(box: Outbox, accepted: seq<seq<byte>>, deadline: nat, clock: nat, hasPeer: bool)

  /** Anything that may happen to a UDP endpoint. */
  datatype UdpEvent = Write(m: seq<byte>, msgId: nat) | Peer(known: bool) | Wait(ms: nat) | Writable

  class UdpPort {
    const tx: TxBuffer
    const fd: int
    const coalesceBytes: nat
    const coalesceMs: nat
    const noDelay: set<nat>
    /** The kernel's answer to the n-th datagram: it takes all of it, or refuses. */
    const kernel: nat -> KernelIo
    var hasPeer: bool
    var writeScheduled: bool
    /** When the running coalescing timer expires. */
    var deadline: nat
    var clock: nat
    /** The datagrams offered to the kernel. */
    var offered: seq<seq<byte>>

    ghost var queued: seq<Queued>
    ghost var batches: seq<Batch>
    ghost var accepted: seq<seq<byte>>

    ghost predicate Shape()
      reads this, tx, tx.data
    {
      && tx.Valid() && tx.Contents() == Concat(Msgs(queued))
      && (forall i :: 0 <= i < |queued| ==> 0 < |queued[i].msg| && queued[i].at <= clock)
      && (forall i, j :: 0 <= i < j < |queued| ==> queued[i].at <= queued[j].at)
      && (writeScheduled ==> clock <= deadline)
    }

    /** Every message accepted has left in a batch or is waiting, in order; the sent batches are what was taken. */
    ghost predicate Ordered()
      reads this
    {
      AllMsgs(batches) + Msgs(queued) == accepted && Datagrams(batches) == Taken(kernel, offered)
    }

    /** The timer runs exactly while something waits, and since the first message came in. */
    ghost predicate Timed()
      reads this, tx
    {
      && (writeScheduled <==> queued != [])
      && (writeScheduled ==>
            && tx.len <= coalesceBytes
            && clock <= deadline == queued[0].at + coalesceMs)
    }

    ghost predicate AllCoalesced()
      reads this
    {
      forall b :: b in batches ==> Coalesced(b.items, b.leftAt, coalesceBytes, coalesceMs)
    }

    /** The socket is open and the kernel has never called it busy. */
    ghost predicate Prompt()
      reads this`offered
    {
      fd >= 0 && forall n :: 0 <= n < |offered| ==> kernel(n) != Refused(EAGAIN)
    }

    ghost predicate Valid()
      reads this, tx, tx.data
    {
      Shape() && Ordered() && (Prompt() ==> Timed() && AllCoalesced())
    }

    ghost function Box(): Outbox
      requires tx.Valid()
      reads this, tx, tx.data
    {
      Outbox(tx.Contents(), queued, batches, offered, writeScheduled)
    }

    constructor (fd: int, coalesceBytes: nat, coalesceMs: nat, noDelay: set<nat>, kernel: nat -> KernelIo)
      ensures Valid() && fresh(tx) && fresh(tx.data)
      ensures State() == UdpState(Outbox([], [], [], [], false), [], 0, 0, false)
      ensures this.fd == fd && this.kernel == kernel
      ensures this.coalesceBytes == coalesceBytes && this.coalesceMs == coalesceMs && this.noDelay == noDelay
    {
      tx := new TxBuffer();
      this.fd, this.coalesceBytes, this.coalesceMs, this.noDelay := fd, coalesceBytes, coalesceMs, noDelay;
      this.kernel := kernel;
      hasPeer, writeScheduled, deadline, clock := false, false, 0, 0;
      offered, queued, batches, accepted := [], [], [], [];
    }

    /** The answer a flush of this outbox gets, if it asks the kernel at all. */
    function Io(peer: bool, waiting: nat, asked: nat): Option<KernelIo>
    {
      if waiting == 0 || fd < 0 || !peer then None
      else if kernel(asked).Took? then Some(Took(waiting)) else Some(kernel(asked))
    }

    function FlushRc(peer: bool, waiting: nat, asked: nat): Rc
    {
      var io := Io(peer, waiting, asked);
      if io.Some? then RcOf(io.value) else if waiting > 0 && fd < 0 then Err(EINVAL) else Ok(0)
    }

    /**
     What a flush makes of an outbox. Nothing leaves without a socket or if the kernel calls it busy;
     otherwise all that waits leaves together, and was sent if the kernel took it.
     */
    ghost function Flushed(peer: bool, o: Outbox, at: nat): Outbox
    {
      var io := Io(peer, |o.waiting|, |o.offered|);
      var asked := o.offered + if io.Some? then [o.waiting] else [];
      if o.waiting == [] || fd < 0 || io == Some(Refused(EAGAIN)) then o.(running := false, offered := asked)
      else Outbox([], [], o.batches + [Batch(o.queued, at, io.Some? && io.value.Took?)], asked, false)
    }

    /** What waits leaves together, unless there is no socket or the kernel calls it busy. */
    lemma FlushLeaves(peer: bool, o: Outbox, at: nat)
      ensures var r, rc, asks := Flushed(peer, o, at), FlushRc(peer, |o.waiting|, |o.offered|), fd >= 0 && peer;
              && !r.running && r.offered == o.offered + (if o.waiting != [] && asks then [o.waiting] else [])
              && (o.waiting == [] ==> r == o.(running := false) && rc == Ok(0))
              && (o.waiting != [] && asks ==>
                    rc == if kernel(|o.offered|).Took? then Ok(|o.waiting|) else Err(kernel(|o.offered|).errno))
              && (o.waiting != [] && !asks ==> rc == if fd < 0 then Err(EINVAL) else Ok(0))
              && (o.waiting != [] ==>
                    if fd < 0 || (peer && kernel(|o.offered|) == Refused(EAGAIN)) then
                      r.waiting == o.waiting && r.queued == o.queued && r.batches == o.batches
                    else
                      && r.waiting == [] && r.queued == []
                      && r.batches == o.batches + [Batch(o.queued, at, peer && kernel(|o.offered|).Took?)])
    {
    }

    /** sendto: the whole datagram, or an error. */
    method KernelSendTo(bytes: seq<byte>) returns (r: KernelIo)
      requires 0 < |bytes| && fd >= 0 && hasPeer
      modifies this`offered
      ensures Io(hasPeer, |bytes|, |old(offered)|) == Some(r) && offered == old(offered) + [bytes]
    {
      r := kernel(|offered|);
      if r.Took? {
        r := Took(|bytes|);
      }
      offered := offered + [bytes];
    }

    /** UdpEndpoint::flush_pending_msgs */
    method FlushPendingMsgs() returns (rc: Rc)
      requires Shape() && Ordered()
      requires Prompt() ==> AllCoalesced()
      requires Prompt() && queued != [] ==> Coalesced(queued, clock, coalesceBytes, coalesceMs)
      modifies this`writeScheduled, this`queued, this`batches, this`offered, tx, tx.data
      ensures Shape() && Ordered() && (tx.len == 0 <==> queued == [])
      ensures !writeScheduled && (Prompt() ==> queued == [] && AllCoalesced())
      ensures Box() == old(Flushed(hasPeer, Box(), clock)) && rc == old(FlushRc(hasPeer, tx.len, |offered|))
    {
      hide Coalesced, AllMsgs, Datagrams, Taken, Concat;
      writeScheduled := false;
      NoMsgs();
      if tx.len == 0 {
        EmptyQueue(queued);
        return Ok(0);
      }
      if fd < 0 {
        return Err(EINVAL);
      }
      if !hasPeer {
        LeaveTogether(false);
        tx.Clear();
        return Ok(0);
      }
      var r := KernelSendTo(tx.Contents());
      TakenOne(kernel, old(offered), tx.Contents());
      match r {
        case Refused(e) =>
          if e == EAGAIN {
            assert kernel(|old(offered)|) == Refused(EAGAIN);
            return Err(EAGAIN);
          }
          LeaveTogether(false);
          tx.Clear();
          rc := Err(e);
        case Took(n) =>
          LeaveTogether(true);
          tx.Consume(n);
          rc := Ok(n);
      }
    }

    /** Enter in the account that all that waits left the buffer. */
    ghost method LeaveTogether(sent: bool)
      requires AllMsgs(batches) + Msgs(queued) == accepted
      requires Taken(kernel, offered) == Datagrams(batches) + if sent then [Concat(Msgs(queued))] else []
      requires Prompt() ==> AllCoalesced() && Coalesced(queued, clock, coalesceBytes, coalesceMs)
      modifies this`queued, this`batches
      ensures Ordered() && queued == [] && batches == old(batches) + [Batch(old(queued), clock, sent)]
      ensures Prompt() ==> AllCoalesced()
    {
      hide Coalesced, AllMsgs, Datagrams, Taken, Concat;
      AllMsgsOne(batches, Batch(queued, clock, sent));
      assert AllMsgs(batches) + Msgs(queued) + [] == AllMsgs(batches) + Msgs(queued);
      batches := batches + [Batch(queued, clock, sent)];
      queued := [];
    }

    /** What the timer guarantees of a datagram sent now. */
    lemma TimedIsCoalesced()
      requires Shape() && Timed() && queued != []
      ensures Coalesced(queued, clock, coalesceBytes, coalesceMs)
    {
      assert forall i :: 0 <= i < |queued| ==> queued[0].at <= queued[i].at;
    }

    /** Send what waits, if the message would take it over the coalescing limit. */
    method MakeRoom(n: nat)
      requires Valid()
      modifies this`writeScheduled, this`queued, this`batches, this`offered, tx, tx.data
      ensures Valid() && Box() == old(RoomFor(State(), n))
      ensures Prompt() ==> tx.len == 0 || (writeScheduled && tx.len + n <= coalesceBytes)
    {
      hide Coalesced, AllMsgs, Datagrams, Taken, Concat;
      NoMsgs();
      if tx.len > 0 && tx.len + n > coalesceBytes {
        if Prompt() {
          TimedIsCoalesced();
        }
        var _ := FlushPendingMsgs();
        if queued == [] {
          NoMsgs();
        }
      }
    }

    ghost function State(): UdpState
      requires tx.Valid()
      reads this, tx, tx.data
    {
      UdpState(Box(), accepted, deadline, clock, hasPeer)
    }

    /** The outbox with room made for a message of `n` bytes. */
    ghost function RoomFor(s: UdpState, n: nat): Outbox
    {
      if s.box.waiting != [] && |s.box.waiting| + n > coalesceBytes then Flushed(s.hasPeer, s.box, s.clock) else s.box
    }

    ghost function WriteRc(s: UdpState, m: seq<byte>, msgId: nat): Rc
    {
      var room := RoomFor(s, |m|);
      if !s.hasPeer then Ok(0)
      else if |room.waiting| + |m| > TX_BUF_MAX_SIZE then Err(ENOBUFS)
      else if SendsAtOnce(m, msgId) then FlushRc(true, |room.waiting| + |m|, |room.offered|)
      else Ok(|m|)
    }

    /** What an event does. */
    ghost function Next(s: UdpState, event: UdpEvent): UdpState
    {
      match event
      case Peer(known) => s.(hasPeer := known)
      case Writable => s.(box := Flushed(s.hasPeer, s.box, s.clock))
      case Wait(ms) =>
        var late := s.box.running && s.deadline <= s.clock + ms;
        s.(clock := s.clock + ms, box := if late then Flushed(s.hasPeer, s.box, s.deadline) else s.box)
      case Write(m, msgId) =>
        var room := RoomFor(s, |m|);
        var put := Put(room, m, s.clock);
        if !s.hasPeer then s
        else if |room.waiting| + |m| > TX_BUF_MAX_SIZE then s.(box := room)
        else if SendsAtOnce(m, msgId) then s.(box := Flushed(true, put, s.clock), accepted := s.accepted + [m])
        else s.(box := put.(running := true), accepted := s.accepted + [m],
                deadline := if room.running then s.deadline else s.clock + coalesceMs)
    }

    /**
     A message joins what waits exactly up to the limit: within it nothing leaves because of it, and beyond it
     what waits leaves first, unless there is no socket or the kernel calls it busy.
     */
    lemma JoinsUpToLimit(s: UdpState, m: seq<byte>, msgId: nat)
      requires s.hasPeer && 0 < |m| && s.box.waiting != []
      requires coalesceMs > 0 && msgId !in noDelay && |m| <= coalesceBytes
      ensures var o, r := s.box, Next(s, Write(m, msgId)).box;
              if |o.waiting| + |m| > coalesceBytes && fd >= 0 && kernel(|o.offered|) != Refused(EAGAIN) then
                && r.batches == o.batches + [Batch(o.queued, s.clock, kernel(|o.offered|).Took?)]
                && (|m| <= TX_BUF_MAX_SIZE ==> r.queued == [Queued(m, s.clock)])
              else
                && r.batches == o.batches
                && (|o.waiting| + |m| <= TX_BUF_MAX_SIZE ==> r.queued == o.queued + [Queued(m, s.clock)])
    {
      FlushLeaves(s.hasPeer, s.box, s.clock);
    }

    /** What a run of events does. */
    ghost function Driven(s: UdpState, events: seq<UdpEvent>): UdpState
    {
      if events == [] then s else Next(Driven(s, events[..|events| - 1]), events[|events| - 1])
    }

    /**
     UdpEndpoint::write_msg. Room is made first, whatever comes of it; a message that still does not fit
     is refused and left to the caller; one that fits goes behind what waits, and then everything is sent
     at once or left to the timer, which is started only if it does not run.
     */
    method WriteMsg(m: seq<byte>, msgId: nat) returns (rc: Rc)
      requires Valid() && 0 < |m|
      modifies this`queued, this`accepted, this`writeScheduled, this`deadline, this`batches, this`offered, tx, tx.data
      ensures Valid() && State() == old(Next(State(), Write(m, msgId)))
      ensures rc == old(WriteRc(State(), m, msgId))
      ensures var stays := fd < 0 || old(tx.len) + |m| <= coalesceBytes || kernel(|old(offered)|) == Refused(EAGAIN);
              var before := if stays then old(tx.len) else 0;
              accepted == old(accepted) + if hasPeer && before + |m| <= TX_BUF_MAX_SIZE then [m] else []
      ensures accepted != old(accepted) ==> Placed(Box(), m, msgId, clock)
    {
      hide Coalesced, AllMsgs, Datagrams, Taken, Concat, UdpPort.Flushed, UdpPort.FlushRc, UdpPort.Placed;
      if !hasPeer {
        return Ok(0);
      }
      FlushLeaves(hasPeer, Box(), clock);
      MakeRoom(|m|);
      if tx.len + |m| > TX_BUF_MAX_SIZE {
        return Err(ENOBUFS);
      }
      rc := Accept(m, msgId);
    }

    /**
     What has become of an accepted message: one that is not to be delayed left just now, at the end of the last
     batch, and nothing waits, unless there is no socket or the kernel calls it busy; then it waits behind all
     others, and so does any other message, with the timer running.
     */
    ghost predicate Placed(o: Outbox, m: seq<byte>, msgId: nat, at: nat)
    {
      if msgId in noDelay || coalesceMs == 0 || coalesceBytes == 0 || |m| > coalesceBytes then
        && !o.running
        && if fd >= 0 && (o.offered == [] || kernel(|o.offered| - 1) != Refused(EAGAIN)) then
             && o.waiting == [] && o.queued == [] && o.batches != []
             && var last := o.batches[|o.batches| - 1];
                last.leftAt == at && last.items != [] && last.items[|last.items| - 1] == Queued(m, at)
           else WaitsLast(o, m, at)
      else o.running && WaitsLast(o, m, at)
    }

    ghost predicate WaitsLast(o: Outbox, m: seq<byte>, at: nat)
    {
      o.waiting != [] && o.queued != [] && o.queued[|o.queued| - 1] == Queued(m, at)
    }

    ghost function Put(o: Outbox, m: seq<byte>, at: nat): Outbox
    {
      o.(waiting := o.waiting + m, queued := o.queued + [Queued(m, at)])
    }

    lemma IsPlaced(o: Outbox, m: seq<byte>, msgId: nat, at: nat)
      requires 0 < |m|
      ensures var put := Put(o, m, at);
              Placed(if SendsAtOnce(m, msgId) then Flushed(true, put, at) else put.(running := true), m, msgId, at)
    {
      FlushLeaves(true, Put(o, m, at), at);
    }

    /** Put a message that fits in, and send at once or start the timer. */
    method Accept(m: seq<byte>, msgId: nat) returns (rc: Rc)
      requires Valid() && 0 < |m| && tx.len + |m| <= TX_BUF_MAX_SIZE && hasPeer
      requires Prompt() ==> tx.len == 0 || (writeScheduled && tx.len + |m| <= coalesceBytes)
      modifies this`queued, this`accepted, this`writeScheduled, this`deadline, this`batches, this`offered, tx, tx.data
      ensures Valid() && accepted == old(accepted) + [m]
      ensures var was := old(Box());
              var put := Put(was, m, clock);
              if SendsAtOnce(m, msgId) then
                && Box() == Flushed(true, put, clock) && rc == FlushRc(true, |put.waiting|, |put.offered|)
                && deadline == old(deadline)
              else
                && Box() == put.(running := true) && rc == Ok(|m|)
                && deadline == if was.running then old(deadline) else clock + coalesceMs
      ensures Placed(Box(), m, msgId, clock)
    {
      hide Coalesced, AllMsgs, Datagrams, Taken, Concat, UdpPort.Flushed, UdpPort.FlushRc, UdpPort.Placed;
      IsPlaced(Box(), m, msgId, clock);
      Enqueue(m);
      rc := Ok(|m|);
      if SendsAtOnce(m, msgId) {
        if Prompt() {
          FreshIsCoalesced();
        }
        rc := FlushPendingMsgs();
      } else {
        ScheduleWrite();
      }
    }

    /** UdpEndpoint::_schedule_write, behind a message just put in */
    method ScheduleWrite()
      requires Shape() && Ordered() && queued != []
      requires Prompt() ==> AllCoalesced() && tx.len <= coalesceBytes && (writeScheduled || |queued| == 1)
      requires Prompt() && writeScheduled ==> clock <= deadline == queued[0].at + coalesceMs
      requires Prompt() && !writeScheduled ==> queued[0].at == clock
      modifies this`writeScheduled, this`deadline
      ensures Valid() && writeScheduled
      ensures deadline == if old(writeScheduled) then old(deadline) else clock + coalesceMs
    {
      hide Coalesced, AllMsgs, Datagrams, Taken, Concat;
      if !writeScheduled {
        deadline := clock + coalesceMs;
        writeScheduled := true;
      }
    }

    /** A message just put in, alone or within the limit of a running timer, may leave at once. */
    lemma FreshIsCoalesced()
      requires Shape() && queued != [] && queued[|queued| - 1].at == clock
      requires |queued| == 1 || (tx.len <= coalesceBytes && clock <= queued[0].at + coalesceMs)
      ensures Coalesced(queued, clock, coalesceBytes, coalesceMs)
    {
      assert forall i :: 0 <= i < |queued| ==> queued[0].at <= queued[i].at;
    }

    /** Coalescing is off, or not wanted for this id, or the message is too large for it. */
    predicate SendsAtOnce(m: seq<byte>, msgId: nat)
    {
      coalesceBytes == 0 || coalesceMs == 0 || msgId in noDelay || |m| > coalesceBytes
    }

    method Enqueue(m: seq<byte>)
      requires Valid() && 0 < |m| && tx.len + |m| <= TX_BUF_MAX_SIZE
      modifies this`queued, this`accepted, tx, tx.data
      ensures Shape() && Ordered()
      ensures queued == old(queued) + [Queued(m, clock)] && accepted == old(accepted) + [m]
      ensures tx.Contents() == old(tx.Contents()) + m && (old(tx.len) == 0 ==> |queued| == 1)
    {
      hide AllMsgs, Datagrams, Taken;
      ghost var x := Queued(m, clock);
      assert Msgs(queued + [x]) == Msgs(queued) + [m];
      ConcatAppend(Msgs(queued), [m]);
      ConcatOne(m);
      assert AllMsgs(batches) + (Msgs(queued) + [m]) == AllMsgs(batches) + Msgs(queued) + [m];
      if tx.len == 0 {
        EmptyQueue(queued);
      }
      tx.Append(m);
      queued := queued + [x];
      accepted := accepted + [m];
    }

    /** The coalescing timer: the flush's result is ignored, so a busy socket strands what waits. */
    method TimerEvent()
      requires Valid() && writeScheduled && clock == deadline
      modifies this`writeScheduled, this`queued, this`batches, this`offered, tx, tx.data
      ensures Valid() && Box() == old(Flushed(hasPeer, Box(), clock))
      ensures old(tx.len) > 0 ==> (tx.len > 0 <==> fd < 0 || (hasPeer && kernel(|old(offered)|) == Refused(EAGAIN)))
    {
      hide Coalesced, AllMsgs, Datagrams, Taken, Concat;
      NoMsgs();
      if Prompt() {
        TimedIsCoalesced();
      }
      var _ := FlushPendingMsgs();
    }

    /** Time passes; the timer fires when it is due. */
    method AdvanceTo(t: nat)
      requires Valid() && clock <= t
      modifies this`clock, this`writeScheduled, this`queued, this`batches, this`offered, tx, tx.data
      ensures Valid() && clock == t
      ensures Box() == old(if writeScheduled && deadline <= t then Flushed(hasPeer, Box(), deadline) else Box())
    {
      hide Coalesced, AllMsgs, Datagrams, Taken, Concat;
      if writeScheduled && deadline <= t {
        clock := deadline;
        TimerEvent();
      }
      clock := t;
    }

    /** Endpoint::handle_canwrite, after a refused message armed the writable event. */
    method WritableEvent() returns (keep: bool)
      requires Valid()
      modifies this`writeScheduled, this`queued, this`batches, this`offered, tx, tx.data
      ensures Valid() && Box() == old(Flushed(hasPeer, Box(), clock))
      ensures keep <==> old(FlushRc(hasPeer, tx.len, |offered|)) == Err(EAGAIN)
      ensures tx.len > 0 ==> (keep <==> fd >= 0)
    {
      hide Coalesced, AllMsgs, Datagrams, Taken, Concat;
      NoMsgs();
      if Prompt() && queued != [] {
        TimedIsCoalesced();
      }
      var r := FlushPendingMsgs();
      keep := r == Err(EAGAIN) || (r.Ok? && r.n > 0 && tx.len > 0);
    }
  }

  /**
   A whole run: the messages that left in batches and then those that wait are exactly the accepted ones,
   in order, and the batches sent are exactly the datagrams the kernel took; the state in the end is what the
   events, one after the other, make of it. Unless the kernel ever called the socket busy, every batch is whole
   messages within the size limit or a single message, none of them older than the delay limit, and the timer
   runs exactly while one waits.
   */
  method RunUdp(port: UdpPort, events: seq<UdpEvent>)
    requires port.Valid()
    requires forall i :: 0 <= i < |events| && events[i].Write? ==> 0 < |events[i].m|
    modifies port, port.tx, port.tx.data
    ensures port.Valid() && port.Ordered() && port.State() == old(port.Driven(port.State(), events))
    ensures port.Prompt() ==> port.AllCoalesced() && port.Timed() && (port.writeScheduled <==> port.tx.len > 0)
  {
    hide Coalesced, Concat, AllMsgs, Datagrams, Taken;
    for i := 0 to |events|
      invariant port.Valid() && port.State() == old(port.Driven(port.State(), events[..i]))
    {
      hide UdpPort.Next;
      assert events[..i + 1][..i] == events[..i];
      StepUdp(port, events[i]);
    }
    assert events[..|events|] == events;
    NoMsgs();
    if port.tx.len == 0 {
      EmptyQueue(port.queued);
    }
  }

  method StepUdp(port: UdpPort, event: UdpEvent)
    requires port.Valid() && (event.Write? ==> 0 < |event.m|)
    modifies port, port.tx, port.tx.data
    ensures port.Valid() && port.State() == old(port.Next(port.State(), event))
  {
    hide Coalesced, Concat, AllMsgs, Datagrams, Taken, UdpPort.Flushed, UdpPort.FlushRc, UdpPort.Placed;
    match event {
      case Write(m, id) => var _ := port.WriteMsg(m, id);
      case Peer(known) => port.hasPeer := known;
      case Wait(ms) => port.AdvanceTo(port.clock + ms);
      case Writable => var _ := port.WritableEvent();
    }
  }

  lemma TakenOne(kernel: nat -> KernelIo, offered: seq<seq<byte>>, bytes: seq<byte>)
    ensures Taken(kernel, offered + [bytes])
         == Taken(kernel, offered) + if kernel(|offered|).Took? then [bytes] else []
  {
    assert (offered + [bytes])[..|offered|] == offered;
  }

  lemma NoMsgs()
    ensures Msgs([]) == [] && Concat(Msgs([])) == []
  {
  }

  lemma EmptyQueue(items: seq<Queued>)
    requires forall i :: 0 <= i < |items| ==> 0 < |items[i].msg|
    requires Concat(Msgs(items)) == []
    ensures items == []
  {
  }

  lemma AllMsgsOne(bs: seq<Batch>, b: Batch)
    ensures AllMsgs(bs + [b]) == AllMsgs(bs) + Msgs(b.items)
    ensures Datagrams(bs + [b]) == Datagrams(bs) + if b.sent then [Concat(Msgs(b.items))] else []
  {
    assert (bs + [b])[..|bs|] == bs;
  }
}

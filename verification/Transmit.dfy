/**
 The transmit side of the UART and TCP endpoints: a bounded buffer in front of a kernel that may take
 any part of what it is offered.
 */
module Transmit {
  import opened Bytes

  const TX_BUF_MAX_SIZE := 8 * 1024
  const EAGAIN := 11
  const EINVAL := 22
  const EPIPE := 32
  const ENOBUFS := 105

  /** A return value of write_msg or flush_pending_msgs: a byte count or a negated errno. */
  datatype Rc = Ok(n: nat) | Err(errno: nat)

  /** What the kernel did with the bytes it was offered. */
  datatype KernelIo = Took(n: nat) | Refused(errno: nat)

  class TxBuffer {
    const data: array<byte>
    var len: nat

    ghost predicate Valid()
      reads this
    {
      data.Length == TX_BUF_MAX_SIZE && len <= TX_BUF_MAX_SIZE
    }

    function Contents(): (s: seq<byte>)
      requires Valid()
      reads this, data
      ensures |s| == len
    {
      data[..len]
    }

    constructor ()
      ensures Valid() && Contents() == [] && fresh(data)
    {
      data := new byte[TX_BUF_MAX_SIZE](_ => 0);
      len := 0;
    }

    method Append(m: seq<byte>)
      requires Valid() && len + |m| <= TX_BUF_MAX_SIZE
      modifies this, data
      ensures Valid() && Contents() == old(Contents()) + m
    {
      CopyIn(data, len, m);
      len := len + |m|;
    }

    /** Drop the first `n` bytes and move the rest to the front. */
    method Consume(n: nat)
      requires Valid() && n <= len
      modifies this, data
      ensures Valid() && Contents() == old(Contents())[n..]
    {
      len := len - n;
      MoveToFront(data, n, len);
    }

    method Clear()
      requires Valid()
      modifies this
      ensures Valid() && Contents() == []
    {
      len := 0;
    }
  }

  // ----- The stream account

  /** A piece of the stream that left the buffer: onto the wire, or thrown away after a hard error. */
  datatype Piece = Sent(bytes: seq<byte>) | Thrown(bytes: seq<byte>)

  ghost function Gone(fate: seq<Piece>): (r: seq<byte>)
  {
    if fate == [] then [] else Gone(fate[..|fate| - 1]) + fate[|fate| - 1].bytes
  }

  /** The bytes on the wire. */
  ghost function Wire(fate: seq<Piece>): (r: seq<byte>)
  {
    if fate == [] then []
    else
      var last := fate[|fate| - 1];
      Wire(fate[..|fate| - 1]) + if last.Sent? then last.bytes else []
  }

  ghost predicate AllSent(fate: seq<Piece>)
  {
    forall p :: p in fate ==> p.Sent?
  }

  /** With nothing thrown away, what left the buffer is what is on the wire. */
  lemma {:induction false} AllSentIsWire(fate: seq<Piece>)
    requires AllSent(fate)
    ensures Gone(fate) == Wire(fate)
  {
    if fate != [] {
      assert fate[|fate| - 1] in fate;
      AllSentIsWire(fate[..|fate| - 1]);
    }
  }

  /** An error other than a busy link. */
  predicate IsHard(io: KernelIo)
  {
    io.Refused? && io.errno != EAGAIN
  }

  /** What left the buffer, then what waits in it, are exactly the accepted messages in order. */
  ghost predicate Conserved(fate: seq<Piece>, waiting: seq<byte>, accepted: seq<seq<byte>>)
  {
    Gone(fate) + waiting == Concat(accepted)
  }

  /** The kernel can take no more than it is offered. */
  function Clip(io: KernelIo, len: nat): KernelIo
  {
    if io.Took? && io.n > len then Took(len) else io
  }

  predicate Fits(all: seq<byte>, io: Option<KernelIo>)
  {
    io.Some? && io.value.Took? ==> io.value.n <= |all|
  }

  /** What is left of `all` if it was offered: a busy link keeps it, a hard error drops it. */
  function LeftOf(all: seq<byte>, io: Option<KernelIo>): seq<byte>
    requires Fits(all, io)
  {
    match io
    case Some(Took(n)) => all[n..]
    case Some(Refused(e)) => if e == EAGAIN then all else []
    case None => all
  }

  function FateOf(all: seq<byte>, io: Option<KernelIo>): seq<Piece>
    requires Fits(all, io)
  {
    match io
    case Some(Took(n)) => [Sent(all[..n])]
    case Some(Refused(e)) => if e == EAGAIN then [] else [Thrown(all)]
    case None => []
  }

  function RcOf(io: KernelIo): Rc
  {
    match io
    case Took(n) => Ok(n)
    case Refused(e) => Err(e)
  }

  /** The bytes a kernel with these answers took of what it was offered. */
  ghost function OnWire(kernel: nat -> KernelIo, offered: seq<seq<byte>>): (r: seq<byte>)
  {
    if offered == [] then []
    else
      var n := |offered| - 1;
      var io := Clip(kernel(n), |offered[n]|);
      OnWire(kernel, offered[..n]) + if io.Took? then offered[n][..io.n] else []
  }

  /** Some of the first answers was a hard error. */
  ghost predicate Failed(kernel: nat -> KernelIo, asked: nat)
  {
    exists n :: 0 <= n < asked && IsHard(kernel(n))
  }

  /** Some of the first answers was that the kernel took nothing, without an error. */
  ghost predicate Stuck(kernel: nat -> KernelIo, asked: nat)
  {
    exists n :: 0 <= n < asked && kernel(n) == Took(0)
  }

  /** The pieces sent are what the kernel took, and none was thrown away without a hard error. */
  ghost predicate Booked(kernel: nat -> KernelIo, offered: seq<seq<byte>>, fate: seq<Piece>, lost: bool)
  {
    Wire(fate) == OnWire(kernel, offered) && (lost || Failed(kernel, |offered|) || AllSent(fate))
  }

  lemma GoneOne(fate: seq<Piece>, p: Piece)
    ensures Gone(fate + [p]) == Gone(fate) + p.bytes
    ensures Wire(fate + [p]) == Wire(fate) + if p.Sent? then p.bytes else []
  {
    assert (fate + [p])[..|fate|] == fate;
  }

  lemma OnWireOne(kernel: nat -> KernelIo, offered: seq<seq<byte>>, bytes: seq<byte>)
    ensures var io := Clip(kernel(|offered|), |bytes|);
            OnWire(kernel, offered + [bytes]) == OnWire(kernel, offered) + if io.Took? then bytes[..io.n] else []
  {
    assert (offered + [bytes])[..|offered|] == offered;
  }

  lemma AcceptMore(fate: seq<Piece>, waiting: seq<byte>, accepted: seq<seq<byte>>, m: seq<byte>)
    requires Conserved(fate, waiting, accepted)
    ensures Conserved(fate, waiting + m, accepted + [m])
  {
    ConcatAppend(accepted, [m]);
    ConcatOne(m);
    assert Gone(fate) + (waiting + m) == Gone(fate) + waiting + m;
  }

  /** Whatever the kernel did, the account balances. */
  lemma OfferConserves(fate: seq<Piece>, waiting: seq<byte>, accepted: seq<seq<byte>>, io: Option<KernelIo>)
    requires Conserved(fate, waiting, accepted) && Fits(waiting, io)
    ensures Conserved(fate + FateOf(waiting, io), LeftOf(waiting, io), accepted)
  {
    match io {
      case Some(Took(n)) =>
        GoneOne(fate, Sent(waiting[..n]));
        assert Gone(fate) + waiting[..n] + waiting[n..] == Gone(fate) + waiting;
      case Some(Refused(e)) =>
        if e == EAGAIN {
          assert fate + [] == fate;
        } else {
          GoneOne(fate, Thrown(waiting));
        }
      case None =>
        assert fate + [] == fate;
    }
  }

  lemma OfferIsBooked(
      kernel: nat -> KernelIo, offered: seq<seq<byte>>, fate: seq<Piece>, lost: bool, waiting: seq<byte>)
    requires Booked(kernel, offered, fate, lost)
    ensures var io := Clip(kernel(|offered|), |waiting|);
            Booked(kernel, offered + [waiting], fate + FateOf(waiting, Some(io)), lost)
  {
    var io := Clip(kernel(|offered|), |waiting|);
    OnWireOne(kernel, offered, waiting);
    if io.Took? {
      GoneOne(fate, Sent(waiting[..io.n]));
    } else if io.errno == EAGAIN {
      assert fate + [] == fate;
    } else {
      assert IsHard(kernel(|offered|));
      GoneOne(fate, Thrown(waiting));
    }
  }

  lemma ThrowAway(fate: seq<Piece>, waiting: seq<byte>, accepted: seq<seq<byte>>)
    requires Conserved(fate, waiting, accepted)
    ensures Conserved(fate + [Thrown(waiting)], [], accepted) && Wire(fate + [Thrown(waiting)]) == Wire(fate)
  {
    GoneOne(fate, Thrown(waiting));
  }

  // ----- UART

  /** What an endpoint holds and has done. */
  datatype Line = Line(waiting: seq<byte>, fate: seq<Piece>, accepted: seq<seq<byte>>, offered: seq<seq<byte>>)

  datatype UartState = UartState(line: Line, armed: bool)

  /** Anything the main loop may do to a UART endpoint; the writable event comes only while it is armed. */
  datatype UartEvent = Routed(m: seq<byte>) | Writable | Resend(queue: seq<seq<byte>>)

  class UartPort {
    const tx: TxBuffer
    /** The kernel's answer to the n-th write. */
    const kernel: nat -> KernelIo
    var fd: int
    /** EPOLLOUT is requested for this descriptor. */
    var armed: bool
    /** What the kernel was offered, write by write. */
    var offered: seq<seq<byte>>

    ghost var fate: seq<Piece>
    ghost var accepted: seq<seq<byte>>

    ghost predicate Valid()
      reads this, tx, tx.data
    {
      tx.Valid() && Conserved(fate, tx.Contents(), accepted) && Booked(kernel, offered, fate, false)
    }

    /** Waiting bytes will be looked at again: the writable event is armed. */
    ghost predicate Awake()
      reads this, tx
    {
      tx.len > 0 ==> armed
    }

    ghost function State(): Line
      requires tx.Valid()
      reads this, tx, tx.data
    {
      Line(tx.Contents(), fate, accepted, offered)
    }

    constructor (fd: int, kernel: nat -> KernelIo)
      ensures Valid() && Awake() && fresh(tx) && fresh(tx.data)
      ensures this.fd == fd && this.kernel == kernel && State() == Line([], [], [], []) && !armed
    {
      tx := new TxBuffer();
      this.kernel, this.fd, armed, offered := kernel, fd, false, [];
      fate, accepted := [], [];
    }

    /** The kernel's answer if `waiting` bytes are flushed now, or none if it is not asked. */
    function Io(waiting: nat, asked: nat): Option<KernelIo>
      reads this`fd
    {
      if waiting > 0 && fd >= 0 then Some(Clip(kernel(asked), waiting)) else None
    }

    ghost function Flushed(s: Line): Line
      reads this`fd
    {
      var io := Io(|s.waiting|, |s.offered|);
      Line(LeftOf(s.waiting, io), s.fate + FateOf(s.waiting, io), s.accepted,
           s.offered + if io.Some? then [s.waiting] else [])
    }

    ghost function FlushRc(s: Line): Rc
      reads this`fd
    {
      var io := Io(|s.waiting|, |s.offered|);
      if io.Some? then RcOf(io.value) else if s.waiting == [] then Ok(0) else Err(EINVAL)
    }

    method KernelWrite(bytes: seq<byte>) returns (r: KernelIo)
      requires 0 < |bytes| && fd >= 0
      modifies this`offered
      ensures Io(|bytes|, |old(offered)|) == Some(r) && offered == old(offered) + [bytes]
    {
      r := Clip(kernel(|offered|), |bytes|);
      offered := offered + [bytes];
    }

    /**
     What a flush leaves: the bytes the kernel did not take, all of them if the link is busy or closed, and none
     after a hard error.
     */
    lemma FlushLeaves(s: Line)
      ensures var t, rc, asks := Flushed(s), FlushRc(s), s.waiting != [] && fd >= 0;
              && t.accepted == s.accepted && t.offered == s.offered + (if asks then [s.waiting] else [])
              && (!asks ==> t.waiting == s.waiting && rc == if s.waiting == [] then Ok(0) else Err(EINVAL))
              && (asks ==> match kernel(|s.offered|)
                           case Took(n) =>
                             var k := if n < |s.waiting| then n else |s.waiting|;
                             rc == Ok(k) && t.waiting == s.waiting[k..]
                           case Refused(e) =>
                             rc == Err(e) && t.waiting == if e == EAGAIN then s.waiting else [])
    {
      assert s.fate + [] == s.fate;
    }

    /** UartEndpoint::flush_pending_msgs */
    method FlushPendingMsgs() returns (rc: Rc)
      requires Valid()
      modifies this`fate, this`offered, tx, tx.data
      ensures Valid() && State() == old(Flushed(State())) && rc == old(FlushRc(State()))
    {
      hide Conserved, Booked;
      ghost var waiting, io := tx.Contents(), Io(tx.len, |offered|);
      OfferConserves(fate, waiting, accepted, io);
      fate := fate + FateOf(waiting, io);
      assert io.None? ==> fate == old(fate);
      if tx.len == 0 {
        return Ok(0);
      }
      if fd < 0 {
        return Err(EINVAL);
      }
      OfferIsBooked(kernel, offered, old(fate), false, waiting);
      var r := KernelWrite(tx.Contents());
      match r {
        case Refused(e) =>
          if e == EAGAIN {
            return Err(EAGAIN);
          }
          tx.Clear();
          rc := Err(e);
        case Took(n) =>
          tx.Consume(n);
          rc := Ok(n);
      }
    }

    /** The endpoint is open and the message fits behind what waits. */
    ghost predicate Admits(s: Line, m: seq<byte>)
      reads this`fd
    {
      fd >= 0 && |s.waiting| + |m| <= TX_BUF_MAX_SIZE
    }

    ghost function Accepted(s: Line, m: seq<byte>): Line
    {
      s.(waiting := s.waiting + m, accepted := s.accepted + [m])
    }

    ghost function Written(s: Line, m: seq<byte>): Line
      reads this`fd
    {
      if Admits(s, m) then Flushed(Accepted(s, m)) else s
    }

    ghost function WriteRc(s: Line, m: seq<byte>): Rc
      reads this`fd
    {
      if fd < 0 then Err(EINVAL)
      else if !Admits(s, m) then Err(ENOBUFS)
      else
        var rc := FlushRc(Accepted(s, m));
        if rc.Ok? && rc.n > 0 && Written(s, m).waiting != [] then Err(EAGAIN) else rc
    }

    /**
     A closed endpoint or a full buffer refuses a message and changes nothing; any other message is accepted and
     offered to the kernel behind all that waits, and a part left over makes it return -EAGAIN.
     */
    lemma WriteAdmits(s: Line, m: seq<byte>)
      ensures var t, rc := Written(s, m), WriteRc(s, m);
              if fd < 0 then t == s && rc == Err(EINVAL)
              else if |s.waiting| + |m| > 8192 then t == s && rc == Err(ENOBUFS)
              else
                && t.accepted == s.accepted + [m]
                && t.offered == s.offered + (if s.waiting + m == [] then [] else [s.waiting + m])
                && (s.waiting + m == [] ==> t.waiting == [] && rc == Ok(0))
                && (s.waiting + m != [] ==>
                      match kernel(|s.offered|)
                      case Took(n) =>
                        var k := if n < |s.waiting| + |m| then n else |s.waiting| + |m|;
                        && t.waiting == (s.waiting + m)[k..]
                        && rc == if 0 < k < |s.waiting| + |m| then Err(EAGAIN) else Ok(k)
                      case Refused(e) => rc == Err(e) && t.waiting == if e == EAGAIN then s.waiting + m else [])
    {
      hide UartPort.Flushed, UartPort.FlushRc;
      FlushLeaves(Accepted(s, m));
    }

    /** UartEndpoint::write_msg */
    method WriteMsg(m: seq<byte>) returns (rc: Rc)
      requires Valid()
      modifies this`fate, this`accepted, this`offered, tx, tx.data
      ensures Valid() && State() == old(Written(State(), m)) && rc == old(WriteRc(State(), m))
    {
      hide Conserved, Booked;
      if fd < 0 {
        return Err(EINVAL);
      }
      if tx.len + |m| > TX_BUF_MAX_SIZE {
        return Err(ENOBUFS);
      }
      AcceptMore(fate, tx.Contents(), accepted, m);
      tx.Append(m);
      accepted := accepted + [m];
      rc := FlushPendingMsgs();
      if rc.Ok? && rc.n > 0 && tx.len > 0 {
        return Err(EAGAIN);
      }
    }

    /** The next flush would find the kernel taking nothing, without an error. */
    ghost predicate TakesNothing(s: Line)
      reads this`fd
    {
      Io(|s.waiting|, |s.offered|) == Some(Took(0))
    }

    /** Endpoint::handle_canwrite. It keeps watching what is left, except where the kernel took nothing. */
    method HandleCanWrite() returns (keep: bool)
      requires Valid()
      modifies this`fate, this`offered, tx, tx.data
      ensures Valid() && State() == old(Flushed(State()))
      ensures keep <==> tx.len > 0 && fd >= 0 && !old(TakesNothing(State()))
    {
      hide Conserved, Booked;
      var r := FlushPendingMsgs();
      keep := r == Err(EAGAIN) || (r.Ok? && r.n > 0 && tx.len > 0);
    }

    // ----- The main loop's side: when EPOLLOUT is armed and disarmed

    /** Mainloop::write_msg. It leaves waiting bytes unwatched exactly if the kernel took none of them. */
    method RoutedWrite(m: seq<byte>) returns (rc: Rc)
      requires Valid()
      modifies this`fate, this`accepted, this`offered, this`armed, tx, tx.data
      ensures Valid() && State() == old(Written(State(), m)) && rc == old(WriteRc(State(), m))
      ensures armed <==> old(armed) || rc == Err(EAGAIN) || rc == Err(ENOBUFS)
      ensures old(Awake()) ==>
                (Awake() <==> old(armed) || !old(Admits(State(), m) && TakesNothing(Accepted(State(), m))))
      ensures old(Awake()) && !Stuck(kernel, |offered|) ==> Awake()
    {
      hide Conserved, Booked;
      rc := WriteMsg(m);
      if rc == Err(EAGAIN) || rc == Err(ENOBUFS) {
        armed := true;
      }
    }

    /** The writable event in Mainloop::loop. */
    method WritableEvent()
      requires Valid() && armed
      modifies this`fate, this`offered, this`armed, tx, tx.data
      ensures Valid() && State() == old(Flushed(State()))
      ensures armed <==> tx.len > 0 && fd >= 0 && !old(TakesNothing(State()))
      ensures Awake() <==> !old(TakesNothing(State())) && (fd >= 0 || tx.len == 0)
    {
      hide Conserved, Booked;
      var keep := HandleCanWrite();
      if !keep {
        armed := false;
      }
    }

    predicate Arms(rc: Rc)
    {
      rc == Err(EAGAIN) || rc == Err(ENOBUFS)
    }

    /** What an event does. */
    ghost function Next(s: UartState, event: UartEvent): UartState
      reads this`fd
    {
      match event
      case Routed(m) => UartState(Written(s.line, m), s.armed || Arms(WriteRc(s.line, m)))
      case Writable =>
        if !s.armed then s
        else
          var t := Flushed(s.line);
          UartState(t, t.waiting != [] && fd >= 0 && !TakesNothing(s.line))
      case Resend(queue) =>
        var (t, _, rc) := Resent(s.line, queue, Ok(0));
        UartState(t, s.armed || Arms(rc))
    }

    /** What a run of events does. */
    ghost function Driven(s: UartState, events: seq<UartEvent>): UartState
      reads this`fd
    {
      if events == [] then s else Next(Driven(s, events[..|events| - 1]), events[|events| - 1])
    }

    /** Writing a queue one message after the other, up to the first error; -ENOBUFS keeps its message. */
    ghost function Resent(s: Line, queue: seq<seq<byte>>, rc: Rc): (Line, seq<seq<byte>>, Rc)
      reads this`fd
      decreases |queue|
    {
      if queue == [] then (s, [], rc)
      else
        var t, rc := Written(s, queue[0]), WriteRc(s, queue[0]);
        if rc == Err(ENOBUFS) then (t, queue, rc)
        else if rc.Err? then (t, queue[1..], rc)
        else Resent(t, queue[1..], rc)
    }

    lemma WriteOne(s: Line, m: seq<byte>)
      requires fd >= 0
      ensures var t, rc := Written(s, m), WriteRc(s, m);
              && s.offered <= t.offered
              && (rc != Err(ENOBUFS) ==> t.accepted == s.accepted + [m])
              && (rc == Err(ENOBUFS) ==> t == s || Bounced(s, t, m))
    {
    }

    /** The message was accepted all the same: it is the kernel that answered ENOBUFS. */
    ghost predicate Bounced(s: Line, t: Line, m: seq<byte>)
    {
      && t.accepted == s.accepted + [m]
      && |s.offered| < |t.offered| && kernel(|t.offered| - 1) == Refused(ENOBUFS)
    }

    /** Every message off the queue was accepted, in order; one kept was too only if it bounced. */
    ghost predicate Off(s: Line, t: Line, queue: seq<seq<byte>>, left: seq<seq<byte>>)
    {
      exists done :: queue == done + left && OffOrBounced(s, t, done, left)
    }

    ghost predicate OffOrBounced(s: Line, t: Line, done: seq<seq<byte>>, left: seq<seq<byte>>)
    {
      || t.accepted == s.accepted + done
      || (left != [] && |s.offered| < |t.offered| && kernel(|t.offered| - 1) == Refused(ENOBUFS)
          && t.accepted == s.accepted + done + [left[0]])
    }

    lemma {:induction false} ResentInOrder(s: Line, queue: seq<seq<byte>>, rc: Rc)
      requires fd >= 0
      ensures var (t, left, last) := Resent(s, queue, rc);
              s.offered <= t.offered && (left != [] ==> last.Err?) && Off(s, t, queue, left)
      decreases |queue|
    {
      hide UartPort.Written, UartPort.WriteRc;
      if queue == [] {
        assert queue == [] + [] && s.accepted == s.accepted + [];
      } else {
        WriteOne(s, queue[0]);
        var t, rc := Written(s, queue[0]), WriteRc(s, queue[0]);
        if rc == Err(ENOBUFS) {
          assert queue == [] + queue && s.accepted == s.accepted + [];
          assert OffOrBounced(s, t, [], queue);
        } else if rc.Err? {
          assert queue == [queue[0]] + queue[1..];
          assert OffOrBounced(s, t, [queue[0]], queue[1..]);
        } else {
          ResentInOrder(t, queue[1..], rc);
          var (u, left, _) := Resent(t, queue[1..], rc);
          OffOneMore(s, t, u, queue, left);
        }
      }
    }

    /** Draining goes on after a success and stops at the first error, which keeps the message only for -ENOBUFS. */
    lemma ResentStops(s: Line, queue: seq<seq<byte>>, rc: Rc)
      requires queue != []
      ensures var t, first := Written(s, queue[0]), WriteRc(s, queue[0]);
              Resent(s, queue, rc) == if first.Ok? then Resent(t, queue[1..], first)
                                      else (t, if first == Err(ENOBUFS) then queue else queue[1..], first)
    {
      hide UartPort.Written, UartPort.WriteRc;
    }

    lemma OffOneMore(s: Line, t: Line, u: Line, queue: seq<seq<byte>>, left: seq<seq<byte>>)
      requires queue != [] && t.accepted == s.accepted + [queue[0]] && s.offered <= t.offered
      requires Off(t, u, queue[1..], left)
      ensures Off(s, u, queue, left)
    {
      var done :| queue[1..] == done + left && OffOrBounced(t, u, done, left);
      assert queue == [queue[0]] + done + left;
      assert s.accepted + ([queue[0]] + done) == t.accepted + done;
      assert OffOrBounced(s, u, [queue[0]] + done, left);
    }

    /**
     Endpoint::resend_cached_msgs for one queue whose messages are all due: stop at the first refusal,
     keeping the message if it was -ENOBUFS, and arm EPOLLOUT on a busy link.
     */
    method ResendQueue(queue: seq<seq<byte>>) returns (left: seq<seq<byte>>, rc: Rc)
      requires Valid()
      modifies this`fate, this`accepted, this`offered, this`armed, tx, tx.data
      ensures Valid() && old(offered) <= offered
      ensures fd < 0 ==> left == [] && rc == Ok(0) && State() == old(State()) && armed == old(armed)
      ensures fd >= 0 ==> (State(), left, rc) == old(Resent(State(), queue, Ok(0)))
      ensures armed <==> old(armed) || rc == Err(EAGAIN) || rc == Err(ENOBUFS)
      ensures old(Awake()) && !Stuck(kernel, |offered|) ==> Awake()
    {
      hide Conserved, Booked, UartPort.Written, UartPort.WriteRc, Stuck;
      rc := Ok(0);
      if fd < 0 {
        return [], rc;
      }
      left := queue;
      while left != []
        invariant Valid() && old(offered) <= offered
        invariant old(Awake()) && !Stuck(kernel, |offered|) ==> Awake()
        invariant Resent(State(), left, rc) == old(Resent(State(), queue, Ok(0)))
        invariant rc.Ok? && armed == old(armed)
        decreases |left|
      {
        ghost var was := State();
        WriteOne(was, left[0]);
        rc := RoutedWrite(left[0]);
        StuckLater(kernel, |was.offered|, |offered|);
        if rc == Err(ENOBUFS) {
          return;
        }
        left := left[1..];
        if rc.Err? {
          return;
        }
      }
    }
  }

  lemma StuckLater(kernel: nat -> KernelIo, asked: nat, more: nat)
    requires asked <= more
    ensures Stuck(kernel, asked) ==> Stuck(kernel, more)
  {
  }

  /**
   A whole run of a UART endpoint: after every event the stream account holds, so that if the kernel gave
   no hard error the bytes it took and then the buffer are exactly the accepted messages; and waiting
   bytes never sit behind a disarmed descriptor, unless the kernel once took nothing without an error.
   */
  method RunUart(port: UartPort, events: seq<UartEvent>)
    requires port.Valid() && port.fd >= 0 && (Stuck(port.kernel, |port.offered|) || port.Awake())
    modifies port, port.tx, port.tx.data
    ensures port.Valid() && port.fd == old(port.fd) && old(port.offered) <= port.offered
    ensures UartState(port.State(), port.armed) == old(port.Driven(UartState(port.State(), port.armed), events))
    ensures Stuck(port.kernel, |port.offered|) || port.Awake()
    ensures Gone(port.fate) + port.tx.Contents() == Concat(port.accepted)
    ensures Wire(port.fate) == OnWire(port.kernel, port.offered)
    ensures !Failed(port.kernel, |port.offered|) ==>
              OnWire(port.kernel, port.offered) + port.tx.Contents() == Concat(port.accepted)
    ensures port.tx.len <= TX_BUF_MAX_SIZE
  {
    for i := 0 to |events|
      invariant port.Valid() && port.fd == old(port.fd) && old(port.offered) <= port.offered
      invariant Stuck(port.kernel, |port.offered|) || port.Awake()
      invariant UartState(port.State(), port.armed)
             == old(port.Driven(UartState(port.State(), port.armed), events[..i]))
    {
      hide UartPort.Next, Stuck, Conserved, Booked;
      assert events[..i + 1][..i] == events[..i];
      StepUart(port, events[i]);
    }
    assert events[..|events|] == events;
    if !Failed(port.kernel, |port.offered|) {
      AllSentIsWire(port.fate);
    }
  }

  method StepUart(port: UartPort, event: UartEvent)
    requires port.Valid() && port.fd >= 0 && (Stuck(port.kernel, |port.offered|) || port.Awake())
    modifies port, port.tx, port.tx.data
    ensures port.Valid() && port.fd == old(port.fd) && old(port.offered) <= port.offered
    ensures Stuck(port.kernel, |port.offered|) || port.Awake()
    ensures UartState(port.State(), port.armed) == old(port.Next(UartState(port.State(), port.armed), event))
  {
    hide Conserved, Booked, LeftOf, FateOf, UartPort.WriteRc, UartPort.Resent;
    ghost var asked := |port.offered|;
    match event {
      case Routed(m) => var _ := port.RoutedWrite(m);
      case Writable =>
        if port.armed {
          port.WritableEvent();
        }
      case Resend(queue) => var _, _ := port.ResendQueue(queue);
    }
    StuckLater(port.kernel, asked, |port.offered|);
  }

  // ----- TCP

  /** The connection broke in this flush. */
  predicate Breaks(io: Option<KernelIo>)
  {
    io == Some(Refused(EPIPE))
  }

  /** What write_msg of a TCP endpoint can return together with a connection that broke or did not. */
  predicate TcpOutcome(rc: Rc, broke: bool, retries: bool)
  {
    && (rc == Err(EPIPE) ==> broke)
    && (broke && retries ==> rc.Ok? || rc == Err(EPIPE) || rc == Err(ENOBUFS))
  }

  datatype TcpState = TcpState(line: Line, fd: int, valid: bool, scheduled: bool, lost: bool)

  /** Anything that may happen to a TCP endpoint; a flush is a timer or writable event. */
  datatype TcpEvent = Send(m: seq<byte>, msgId: nat) | Flush | Disconnect | Reconnect(fd: int)

  class TcpPort {
    const tx: TxBuffer
    const coalesceBytes: nat
    const coalesceMs: nat
    const noDelay: set<nat>
    const retries: bool
    /** The kernel's answer to the n-th send. */
    const kernel: nat -> KernelIo
    var fd: int
    var valid: bool
    var writeScheduled: bool
    /** What the kernel was offered, send by send. */
    var offered: seq<seq<byte>>

    ghost var fate: seq<Piece>
    ghost var accepted: seq<seq<byte>>
    /** At some time bytes were waiting when the endpoint was closed. */
    ghost var lost: bool

    ghost predicate Valid()
      reads this, tx, tx.data
    {
      tx.Valid() && Conserved(fate, tx.Contents(), accepted) && Booked(kernel, offered, fate, lost)
    }

    ghost function State(): Line
      requires tx.Valid()
      reads this, tx, tx.data
    {
      Line(tx.Contents(), fate, accepted, offered)
    }

    constructor (coalesceBytes: nat, coalesceMs: nat, noDelay: set<nat>, retries: bool, fd: int,
                 kernel: nat -> KernelIo)
      ensures Valid() && fresh(tx) && fresh(tx.data)
      ensures Whole() == TcpState(Line([], [], [], []), fd, true, false, false)
      ensures this.kernel == kernel && this.retries == retries
      ensures this.coalesceBytes == coalesceBytes && this.coalesceMs == coalesceMs && this.noDelay == noDelay
    {
      tx := new TxBuffer();
      this.coalesceBytes, this.coalesceMs, this.noDelay := coalesceBytes, coalesceMs, noDelay;
      this.retries, this.kernel, this.fd, valid, writeScheduled := retries, kernel, fd, true, false;
      offered, fate, accepted, lost := [], [], [], false;
    }

    ghost function Whole(): TcpState
      requires tx.Valid()
      reads this, tx, tx.data
    {
      TcpState(State(), fd, valid, writeScheduled, lost)
    }

    /** What a flush does. */
    ghost function AfterFlush(s: TcpState): TcpState
    {
      var io := Io(s.fd, |s.line.waiting|, |s.line.offered|);
      TcpState(Flushed(s.line, io), FdAfter(s.fd, io), if Breaks(io) then retries else s.valid, false, s.lost)
    }

    ghost function PutBehind(s: TcpState, m: seq<byte>): TcpState
    {
      s.(line := s.line.(waiting := s.line.waiting + m, accepted := s.line.accepted + [m]))
    }

    /** What an event does. */
    ghost function Next(s: TcpState, event: TcpEvent): TcpState
    {
      match event
      case Send(m, msgId) =>
        var crowds := s.line.waiting != [] && |s.line.waiting| + |m| > coalesceBytes;
        var room := if crowds then AfterFlush(s) else s;
        if |room.line.waiting| + |m| > TX_BUF_MAX_SIZE then room
        else if SendsAtOnce(m, msgId) then AfterFlush(PutBehind(room, m))
        else PutBehind(room, m).(scheduled := true)
      case Flush => AfterFlush(s)
      case Disconnect =>
        var thrown := if s.line.waiting == [] then [] else [Thrown(s.line.waiting)];
        s.(line := s.line.(waiting := [], fate := s.line.fate + thrown), fd := -1,
           lost := s.lost || s.line.waiting != [])
      case Reconnect(fd) => s.(fd := fd)
    }

    /** What a run of events does. */
    ghost function Driven(s: TcpState, events: seq<TcpEvent>): TcpState
    {
      if events == [] then s else Next(Driven(s, events[..|events| - 1]), events[|events| - 1])
    }

    /** The kernel's answer if `waiting` bytes are flushed, or none if it is not asked. */
    function Io(fd: int, waiting: nat, asked: nat): Option<KernelIo>
    {
      if waiting > 0 && fd >= 0 then Some(Clip(kernel(asked), waiting)) else None
    }

    /** The descriptor after that answer: a broken pipe closes it if reconnecting is on. */
    function FdAfter(fd: int, io: Option<KernelIo>): int
    {
      if Breaks(io) && retries then -1 else fd
    }

    ghost function Flushed(s: Line, io: Option<KernelIo>): Line
      requires Fits(s.waiting, io)
    {
      Line(LeftOf(s.waiting, io), s.fate + FateOf(s.waiting, io), s.accepted,
           s.offered + if io.Some? then [s.waiting] else [])
    }

    method KernelSend(bytes: seq<byte>) returns (r: KernelIo)
      requires 0 < |bytes| && fd >= 0
      modifies this`offered
      ensures Io(fd, |bytes|, |old(offered)|) == Some(r) && offered == old(offered) + [bytes]
    {
      r := Clip(kernel(|offered|), |bytes|);
      offered := offered + [bytes];
    }

    /**
     What a flush leaves and returns: without a connection, or if the kernel is busy, all that waits; otherwise
     what the kernel did not take, and nothing after a hard error. A broken pipe alone closes the descriptor,
     and that only if reconnecting is on.
     */
    lemma FlushLeaves(s: Line, fd: int)
      ensures var io := Io(fd, |s.waiting|, |s.offered|);
              var t, asks := Flushed(s, io), s.waiting != [] && fd >= 0;
              && t.accepted == s.accepted && t.offered == s.offered + (if asks then [s.waiting] else [])
              && (!asks ==> io.None? && t.waiting == s.waiting && FdAfter(fd, io) == fd)
              && (asks ==>
                    && io.Some?
                    && match kernel(|s.offered|)
                       case Took(n) =>
                         var k := if n < |s.waiting| then n else |s.waiting|;
                         RcOf(io.value) == Ok(k) && t.waiting == s.waiting[k..] && FdAfter(fd, io) == fd
                       case Refused(e) =>
                         && RcOf(io.value) == Err(e) && t.waiting == (if e == EAGAIN then s.waiting else [])
                         && FdAfter(fd, io) == if e == EPIPE && retries then -1 else fd)
    {
    }

    /** TcpEndpoint::flush_pending_msgs. A broken pipe closes the descriptor if reconnecting is on. */
    method FlushPendingMsgs() returns (rc: Rc)
      requires Valid()
      modifies this`fate, this`offered, this`writeScheduled, this`fd, this`valid, tx, tx.data
      ensures Valid() && !writeScheduled
      ensures var io := old(Io(fd, tx.len, |offered|));
              && State() == Flushed(old(State()), io)
              && rc == (if io.Some? then RcOf(io.value) else Ok(0))
              && fd == FdAfter(old(fd), io)
              && valid == (if Breaks(io) then retries else old(valid))
      ensures Whole() == old(AfterFlush(Whole()))
    {
      hide Conserved, Booked;
      writeScheduled := false;
      ghost var waiting, io := tx.Contents(), Io(fd, tx.len, |offered|);
      OfferConserves(fate, waiting, accepted, io);
      fate := fate + FateOf(waiting, io);
      assert io.None? ==> fate == old(fate);
      if tx.len == 0 || fd < 0 {
        return Ok(0);
      }
      OfferIsBooked(kernel, offered, old(fate), lost, waiting);
      var r := KernelSend(tx.Contents());
      match r {
        case Refused(e) =>
          if e == EAGAIN {
            return Err(EAGAIN);
          }
          tx.Clear();
          if e == EPIPE {
            valid := retries;
            if retries {
              fd := -1;
            }
          }
          rc := Err(e);
        case Took(n) =>
          tx.Consume(n);
          rc := Ok(n);
      }
    }

    /** What waits plus a message of this size is over the coalescing limit. */
    predicate Crowds(n: nat)
      reads tx
    {
      tx.len > 0 && tx.len + n > coalesceBytes
    }

    /**
     TcpEndpoint::write_msg. `first` is the kernel's answer to the flush that makes room, whose own result
     the code ignores, and `second` the answer to the flush of a message that is sent at once. A
     connection that breaks in the first one does so quietly: the message goes into the emptied buffer.
     */
    method WriteMsg(m: seq<byte>, msgId: nat)
      returns (rc: Rc, ghost first: Option<KernelIo>, ghost second: Option<KernelIo>, ghost refused: bool)
      requires Valid()
      modifies this`fate, this`accepted, this`offered, this`writeScheduled, this`fd, this`valid, tx, tx.data
      ensures Valid()
      ensures first == old(if tx.len > 0 && tx.len + |m| > coalesceBytes && fd >= 0
                           then Some(Clip(kernel(|offered|), tx.len)) else None)
      ensures var room := Flushed(old(State()), first);
              && (refused <==> |room.waiting| + |m| > TX_BUF_MAX_SIZE)
              && if refused then
                   rc == Err(ENOBUFS) && second.None? && State() == room
                   && writeScheduled == old(writeScheduled && (tx.len == 0 || tx.len + |m| <= coalesceBytes))
                 else
                   var put := room.(waiting := room.waiting + m, accepted := room.accepted + [m]);
                   if SendsAtOnce(m, msgId) then
                     && second == Io(FdAfter(old(fd), first), |put.waiting|, |put.offered|)
                     && State() == Flushed(put, second) && !writeScheduled
                     && rc == if second.Some? then RcOf(second.value) else Ok(0)
                   else rc == Ok(|m|) && second.None? && State() == put && writeScheduled
      ensures var broke := Breaks(first) || Breaks(second);
              && fd == (if broke && retries then -1 else old(fd))
              && valid == (if broke then retries else old(valid))
              && TcpOutcome(rc, broke, retries)
      ensures Breaks(first) && retries && !refused ==> rc.Ok? && tx.Contents() == m
      ensures !refused ==> Placed(m, msgId, second)
      ensures Whole() == old(Next(Whole(), Send(m, msgId)))
    {
      hide Conserved, Booked, TcpPort.Placed, TcpPort.Flushed, TcpPort.AfterFlush, LeftOf, FateOf;
      first, second := None, None;
      NotFlushed(State());
      if Crowds(|m|) {
        first := Io(fd, tx.len, |offered|);
        NothingAfterBreak(State(), first);
        var _ := FlushPendingMsgs();
      }
      refused := false;
      if tx.len + |m| > TX_BUF_MAX_SIZE {
        return Err(ENOBUFS), first, second, true;
      }
      ghost var room := State();
      rc, second := Place(m, msgId);
      NotFlushed(room.(waiting := room.waiting + m, accepted := room.accepted + [m]));
    }

    lemma NotFlushed(s: Line)
      ensures Flushed(s, None) == s
    {
      assert s.offered + [] == s.offered && s.fate + [] == s.fate;
    }

    lemma NothingAfterBreak(s: Line, io: Option<KernelIo>)
      requires Fits(s.waiting, io)
      ensures Breaks(io) ==> Flushed(s, io).waiting == []
    {
    }

    /** Put a message that fits behind what waits, and send at once or leave it to the timer. */
    method Place(m: seq<byte>, msgId: nat) returns (rc: Rc, ghost io: Option<KernelIo>)
      requires Valid() && tx.len + |m| <= TX_BUF_MAX_SIZE
      modifies this`fate, this`accepted, this`offered, this`writeScheduled, this`fd, this`valid, tx, tx.data
      ensures Valid() && Placed(m, msgId, io)
      ensures var was := old(State());
              var put := was.(waiting := was.waiting + m, accepted := was.accepted + [m]);
              if SendsAtOnce(m, msgId) then
                && io == old(Io(fd, tx.len + |m|, |offered|))
                && State() == Flushed(put, io) && !writeScheduled
                && rc == if io.Some? then RcOf(io.value) else Ok(0)
              else rc == Ok(|m|) && io.None? && State() == put && writeScheduled
      ensures fd == FdAfter(old(fd), io) && valid == if Breaks(io) then retries else old(valid)
      ensures Whole() == old(if SendsAtOnce(m, msgId) then AfterFlush(PutBehind(Whole(), m))
                             else PutBehind(Whole(), m).(scheduled := true))
    {
      hide Conserved, Booked;
      AcceptMore(fate, tx.Contents(), accepted, m);
      tx.Append(m);
      accepted := accepted + [m];
      rc, io := Ok(|m|), None;
      if SendsAtOnce(m, msgId) {
        io := Io(fd, tx.len, |offered|);
        assert EndsWith(tx.Contents(), m);
        rc := FlushPendingMsgs();
      } else {
        writeScheduled := true;
      }
    }

    predicate EndsWith(s: seq<byte>, m: seq<byte>)
    {
      |m| <= |s| && s[|s| - |m|..] == m
    }

    /**
     What has become of a message that was put behind what waits: one that is not to be delayed was offered to
     the kernel, at the end of everything that waited, and nothing waits if the kernel takes all; without a
     connection it waits, and so does any other message, with the timer running.
     */
    ghost predicate Placed(m: seq<byte>, msgId: nat, io: Option<KernelIo>)
      reads this, tx, tx.data
    {
      && tx.Valid()
      && if msgId in noDelay || coalesceMs == 0 || coalesceBytes == 0 || |m| > coalesceBytes then
           && !writeScheduled
           && (io.None? ==> EndsWith(tx.Contents(), m) && (tx.len == 0 || fd < 0))
           && (io.Some? ==>
                 && offered != [] && EndsWith(offered[|offered| - 1], m)
                 && io.value == Clip(kernel(|offered| - 1), |offered[|offered| - 1]|)
                 && (tx.len == 0 <==> io.value == Took(|offered[|offered| - 1]|) || IsHard(io.value)))
         else writeScheduled && EndsWith(tx.Contents(), m)
    }

    /** Coalescing is off, or not wanted for this id, or the message is too large for it. */
    predicate SendsAtOnce(m: seq<byte>, msgId: nat)
    {
      coalesceBytes == 0 || coalesceMs == 0 || msgId in noDelay || |m| > coalesceBytes
    }

    /** TcpEndpoint::close */
    method Close()
      requires Valid()
      modifies this`fd, this`fate, this`lost, tx
      ensures Valid() && fd == -1 && tx.len == 0 && (lost <==> old(lost) || old(tx.len) > 0)
      ensures fate == old(fate) + if old(tx.len) > 0 then [Thrown(old(tx.Contents()))] else []
    {
      hide Conserved;
      if tx.len > 0 {
        ThrowAway(fate, tx.Contents(), accepted);
        fate, lost := fate + [Thrown(tx.Contents())], true;
      }
      fd := -1;
      tx.Clear();
    }
  }

  /**
   A whole run of a TCP endpoint: what the kernel took and what was thrown away, in the order it
   happened, and then what waits, are exactly the accepted messages; without a hard error or a
   disconnect over waiting bytes nothing was thrown away.
   */
  method RunTcp(port: TcpPort, events: seq<TcpEvent>)
    requires port.Valid()
    modifies port, port.tx, port.tx.data
    ensures port.Valid() && Gone(port.fate) + port.tx.Contents() == Concat(port.accepted)
    ensures port.Whole() == old(port.Driven(port.Whole(), events))
    ensures old(port.offered) <= port.offered && Wire(port.fate) == OnWire(port.kernel, port.offered)
    ensures port.lost ==> old(port.lost) || Disconnect in events
    ensures !Failed(port.kernel, |port.offered|) && !port.lost ==>
              OnWire(port.kernel, port.offered) + port.tx.Contents() == Concat(port.accepted)
    ensures port.tx.len <= TX_BUF_MAX_SIZE
  {
    for i := 0 to |events|
      invariant port.Valid() && old(port.offered) <= port.offered
      invariant port.lost ==> old(port.lost) || Disconnect in events
      invariant port.Whole() == old(port.Driven(port.Whole(), events[..i]))
    {
      hide TcpPort.Next, Conserved, Booked;
      assert events[..i + 1][..i] == events[..i];
      StepTcp(port, events[i]);
    }
    assert events[..|events|] == events;
    if !Failed(port.kernel, |port.offered|) && !port.lost {
      AllSentIsWire(port.fate);
    }
  }

  method StepTcp(port: TcpPort, event: TcpEvent)
    requires port.Valid()
    modifies port, port.tx, port.tx.data
    ensures port.Valid() && old(port.offered) <= port.offered
    ensures port.lost ==> old(port.lost) || event.Disconnect?
    ensures port.Whole() == old(port.Next(port.Whole(), event))
  {
    hide Conserved, Booked, TcpPort.Placed, TcpPort.AfterFlush, LeftOf, FateOf;
    match event {
      case Send(m, id) => var _, _, _, _ := port.WriteMsg(m, id);
      case Flush => var _ := port.FlushPendingMsgs();
      case Disconnect => port.Close();
      case Reconnect(fd) => port.fd := fd;
    }
  }
}

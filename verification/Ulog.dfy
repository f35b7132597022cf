/**
 The ULog reassembler: LOGGING_DATA packets arrive with loss, duplication and reordering and are
 turned back into a file of whole ULog messages, through a sliding buffer and a buffer for the rest
 of a short write.
 */
module Ulog {
  import opened Bytes
  import opened UlogSequence

  const HEADER_SIZE := 16
  const MSG_HEADER_SIZE := 3
  const MAGIC: seq<byte> := [0x55, 0x4C, 0x6F, 0x67, 0x01, 0x12, 0x35]
  const NO_FIRST_MSG_OFFSET: byte := 255
  const BUFFER_LEN := 2048
  const PARTIAL_LEN := 1024
  const MAX_DATA := 249

  // ----- The sender

  /** The payload of LOGGING_DATA; its sequence number is the packet's index, truncated. */
  datatype Packet = Packet(data: seq<byte>, firstOffset: byte)

  /** `units` is the file header followed by the ULog messages, and `packets` a cutting of them. */
  datatype Sender = Sender(units: seq<seq<byte>>, packets: seq<Packet>)

  function Datas(ps: seq<Packet>): (r: seq<seq<byte>>)
    ensures |r| == |ps| && forall i :: 0 <= i < |ps| ==> r[i] == ps[i].data
  {
    seq(|ps|, i requires 0 <= i < |ps| => ps[i].data)
  }

  predicate IsMessage(m: seq<byte>)
  {
    MSG_HEADER_SIZE <= |m| < 65536 && m[0] + 256 * (m[1] as int) + MSG_HEADER_SIZE == |m|
  }

  ghost predicate IsUnits(units: seq<seq<byte>>)
  {
    && 0 < |units|
    && |units[0]| == HEADER_SIZE && MAGIC <= units[0]
    && forall i :: 1 <= i < |units| ==> IsMessage(units[i])
  }

  /** The offset, if there is one, points at the start of some message within the packet. */
  ghost predicate HonestOffset(s: Sender, k: nat)
    requires k < |s.packets|
  {
    var p := s.packets[k];
    p.firstOffset != NO_FIRST_MSG_OFFSET ==>
      && p.firstOffset < |p.data|
      && exists j :: 1 <= j < |s.units| && Offset(s.units, j) == Offset(Datas(s.packets), k) + p.firstOffset
  }

  ghost predicate Honest(s: Sender)
  {
    && IsUnits(s.units)
    && 0 < |s.packets| && HEADER_SIZE <= |s.packets[0].data|
    && Concat(Datas(s.packets)) == Concat(s.units)
    && (forall k :: 0 <= k < |s.packets| ==> |s.packets[k].data| <= MAX_DATA)
    && (forall k :: 1 <= k < |s.packets| ==> HonestOffset(s, k))
  }

  // ----- What the file and the buffer hold, in terms of the sender

  /** `out` is the header followed by whole messages, a subsequence of the sender's before `next`. */
  ghost predicate Recorded(units: seq<seq<byte>>, kept: seq<nat>, next: nat, out: seq<byte>)
  {
    && next <= |units|
    && Increasing(kept, next) && 0 < |kept| && kept[0] == 0
    && out == Concat(Pick(units, kept))
  }

  /** `live` is the sender's stream from the start of message `next` up to `pos`. */
  ghost predicate Aligned(units: seq<seq<byte>>, next: nat, pos: nat, live: seq<byte>)
  {
    && 1 <= next <= |units|
    && Offset(units, next) <= pos <= |Concat(units)|
    && live == Concat(units)[Offset(units, next)..pos]
  }

  ghost predicate HasHuge(units: seq<seq<byte>>)
  {
    exists i :: 0 <= i < |units| && |units[i]| > PARTIAL_LEN + 1
  }

  lemma RecordOne(units: seq<seq<byte>>, kept: seq<nat>, next: nat, out: seq<byte>)
    requires Recorded(units, kept, next, out) && next < |units|
    ensures Recorded(units, kept + [next], next + 1, out + units[next])
  {
    hide Concat;
    assert Pick(units, kept + [next]) == Pick(units, kept) + [units[next]];
    ConcatAppend(Pick(units, kept), [units[next]]);
    ConcatOne(units[next]);
  }

  lemma RecordLater(units: seq<seq<byte>>, kept: seq<nat>, next: nat, out: seq<byte>, j: nat)
    requires Recorded(units, kept, next, out) && next <= j <= |units|
    ensures Recorded(units, kept, j, out)
  {
  }

  /** The head of an aligned buffer is a message header, and its size field is the whole truth. */
  lemma LiveHead(units: seq<seq<byte>>, next: nat, pos: nat, live: seq<byte>)
    requires IsUnits(units) && Aligned(units, next, pos, live) && MSG_HEADER_SIZE <= |live|
    ensures next < |units|
    ensures live[0] + 256 * (live[1] as int) + MSG_HEADER_SIZE == |units[next]| < 65536
    ensures |units[next]| <= |live| ==>
              && live[..|units[next]|] == units[next]
              && Aligned(units, next + 1, pos, live[|units[next]|..])
  {
    hide Concat, Offset;
    var all := Concat(units);
    OffsetOfEnd(units);
    assert |live| == pos - Offset(units, next) && Offset(units, |units|) == |all|;
    assert next < |units|;
    ConcatSlice(units, next);
    var m := units[next];
    var at := Offset(units, next);
    assert IsMessage(m);
    assert all[at..at + |m|][0] == m[0] && all[at..at + |m|][1] == m[1];
    assert live[0] == all[at] == m[0] && live[1] == all[at + 1] == m[1];
    if |m| <= |live| {
      assert live[..|m|] == all[at..at + |m|];
      assert live[|m|..] == all[at + |m|..pos];
    }
  }

  lemma OffsetOfEnd(units: seq<seq<byte>>)
    ensures Offset(units, |units|) == |Concat(units)|
  {
    assert units[..|units|] == units;
  }

  lemma AppendInOrder(units: seq<seq<byte>>, next: nat, pos: nat, live: seq<byte>, data: seq<byte>)
    requires Aligned(units, next, pos, live)
    requires pos + |data| <= |Concat(units)| && data == Concat(units)[pos..pos + |data|]
    ensures Aligned(units, next, pos + |data|, live + data)
  {
  }

  /** A message start found at or after `pos` belongs to a message not yet recorded. */
  lemma {:induction false} StartsLater(units: seq<seq<byte>>, next: nat, j: nat, pos: nat)
    requires IsUnits(units) && next <= |units| && j < |units|
    requires Offset(units, next) <= pos <= Offset(units, j)
    ensures next <= j
  {
    hide Offset, Concat;
    if j < next {
      ConcatSlice(units, j);
      OffsetMonotone(units, j + 1, next);
    }
  }

  lemma Realign(s: Sender, k: nat, next: nat) returns (j: nat)
    requires Honest(s) && 1 <= k < |s.packets| && s.packets[k].firstOffset != NO_FIRST_MSG_OFFSET
    requires next <= |s.units| && Offset(s.units, next) <= Offset(Datas(s.packets), k)
    ensures next <= j
    ensures s.packets[k].firstOffset < |s.packets[k].data|
    ensures Aligned(s.units, j, Offset(Datas(s.packets), k + 1),
                    s.packets[k].data[s.packets[k].firstOffset..])
  {
    hide Concat, Offset;
    var p := s.packets[k];
    var ds := Datas(s.packets);
    assert HonestOffset(s, k);
    j :| 1 <= j < |s.units| && Offset(s.units, j) == Offset(ds, k) + p.firstOffset;
    StartsLater(s.units, next, j, Offset(ds, k));
    ConcatSlice(ds, k);
    var all := Concat(s.units);
    assert p.data == all[Offset(ds, k)..Offset(ds, k + 1)];
    assert p.data[p.firstOffset..] == all[Offset(s.units, j)..Offset(ds, k + 1)];
  }

  /** Where the reassembler stands: the ghost side of its state. */
  datatype Progress = Progress(
    next: nat,            // the first unit not yet in the file and not given up
    kept: seq<nat>,       // the units in the file, counting the pending rest of a short write
    pos: nat,             // the position reached in the sender's stream
    waitingFirst: bool,   // as in the code: skipping to the next message start
    whole: bool,          // no packet was missed and the buffer never overflowed
    torn: nat)            // bytes in the file of messages whose rest did not fit and was not kept

  /** The framing invariant, once the header has been seen. */
  ghost predicate Framing(units: seq<seq<byte>>, g: Progress, out: seq<byte>, live: seq<byte>)
  {
    && IsUnits(units)
    && 1 <= g.next <= |units| && Offset(units, g.next) <= g.pos <= |Concat(units)|
    && (g.torn > 0 ==> HasHuge(units))
    && (g.torn == 0 ==> Recorded(units, g.kept, g.next, out))
    && (g.waitingFirst ==> live == [])
    && (!g.waitingFirst ==> Aligned(units, g.next, g.pos, live))
    && (g.whole ==> !g.waitingFirst && |out| + |live| == g.pos + g.torn)
    && (g.whole && g.torn == 0 ==> out + live == Concat(units)[..g.pos])
  }

  /** The 16-bit size of a message with its header, from the size field. */
  function FullSize(lo: byte, hi: byte): nat
  {
    (lo + 256 * (hi as int) + MSG_HEADER_SIZE) % 65536
  }

  /** A complete message is at the head. */
  predicate HasWhole(live: seq<byte>)
  {
    MSG_HEADER_SIZE <= |live| && FullSize(live[0], live[1]) <= |live|
  }

  /** Moving the message at the head of the buffer to the file keeps the framing. */
  lemma FlushKeepsFraming(units: seq<seq<byte>>, g: Progress, out: seq<byte>, live: seq<byte>)
    requires Framing(units, g, out, live) && MSG_HEADER_SIZE <= |live|
    ensures g.next < |units|
    ensures FullSize(live[0], live[1]) == |units[g.next]| >= MSG_HEADER_SIZE
    ensures |units[g.next]| <= |live| ==>
              var n := |units[g.next]|;
              Framing(units, g.(next := g.next + 1, kept := g.kept + [g.next]), out + live[..n], live[n..])
  {
    hide Recorded, HasHuge, Concat, IsUnits;
    LiveHead(units, g.next, g.pos, live);
    var n := |units[g.next]|;
    if n <= |live| {
      assert live == live[..n] + live[n..];
      if g.torn == 0 {
        RecordOne(units, g.kept, g.next, out);
      }
    }
  }

  /** The start of a message whose rest does not fit goes into the file and stays at the head of the buffer. */
  lemma OversizedRest(units: seq<seq<byte>>, g: Progress, out: seq<byte>, live: seq<byte>, n: nat)
    requires Framing(units, g, out, live) && g.next < |units| && |units[g.next]| > PARTIAL_LEN + 1
    requires 0 < n <= |live|
    ensures Framing(units, g.(torn := g.torn + n), out + live[..n], live)
  {
  }

  lemma ForgetLive(units: seq<seq<byte>>, g: Progress, out: seq<byte>, live: seq<byte>, pos: nat)
    requires Framing(units, g, out, live)
    requires g.pos == pos || g.pos <= pos <= |Concat(units)|
    ensures Framing(units, g.(pos := pos, waitingFirst := true, whole := false), out, [])
  {
  }

  lemma WaitingIsEmpty(units: seq<seq<byte>>, g: Progress, out: seq<byte>, live: seq<byte>)
    requires Framing(units, g, out, live) && g.waitingFirst
    ensures live == [] && !g.whole
  {
  }

  lemma TakeInOrder(units: seq<seq<byte>>, g: Progress, out: seq<byte>, live: seq<byte>, data: seq<byte>)
    requires Framing(units, g, out, live) && !g.waitingFirst
    requires g.pos + |data| <= |Concat(units)| && data == Concat(units)[g.pos..g.pos + |data|]
    ensures Framing(units, g.(pos := g.pos + |data|), out, live + data)
  {
    hide Recorded, HasHuge, Concat, IsUnits, Aligned, Offset;
    AppendInOrder(units, g.next, g.pos, live, data);
    AlignedLength(units, g.next, g.pos, live);
    if g.whole && g.torn == 0 {
      AppendToPrefix(Concat(units), g.pos, out, live, data);
    }
  }

  lemma AlignedLength(units: seq<seq<byte>>, next: nat, pos: nat, live: seq<byte>)
    requires Aligned(units, next, pos, live)
    ensures Offset(units, next) <= pos <= |Concat(units)|
  {
  }

  lemma AppendToPrefix(all: seq<byte>, pos: nat, out: seq<byte>, live: seq<byte>, data: seq<byte>)
    requires pos + |data| <= |all| && out + live == all[..pos] && data == all[pos..pos + |data|]
    ensures out + (live + data) == all[..pos + |data|]
  {
    assert out + (live + data) == out + live + data;
  }

  lemma TakeRealigned(s: Sender, k: nat, g: Progress, out: seq<byte>) returns (j: nat)
    requires Honest(s) && 1 <= k < |s.packets| && s.packets[k].firstOffset != NO_FIRST_MSG_OFFSET
    requires Framing(s.units, g, out, []) && g.waitingFirst && g.pos == Offset(Datas(s.packets), k)
    ensures s.packets[k].firstOffset < |s.packets[k].data|
    ensures Framing(s.units,
                    g.(next := j, pos := Offset(Datas(s.packets), k + 1), waitingFirst := false),
                    out, s.packets[k].data[s.packets[k].firstOffset..])
  {
    hide Concat;
    j := Realign(s, k, g.next);
    if g.torn == 0 {
      RecordLater(s.units, g.kept, g.next, out, j);
    }
  }

  // ----- The reassembler

  datatype WriteIo = Wrote(n: nat) | Again | Failed

  /** What a kernel that means to answer `a` does with a write of `n` bytes; writing nothing is no progress. */
  function Clip(a: WriteIo, n: nat): WriteIo
  {
    if !a.Wrote? then a else if a.n == 0 || n == 0 then Again else if a.n > n then Wrote(n) else a
  }

  /** The kernel takes all of a write, however much a message may be. */
  predicate Ample(a: WriteIo)
  {
    a.Wrote? && a.n >= 65536
  }

  /** How a write of a message of `size` bytes ends. */
  function FlushOf(io: WriteIo, size: nat): FlushIo
  {
    match io
    case Again => Blocked
    case Failed => Broken
    case Wrote(n) => if n >= size then Complete else if size - n > PARTIAL_LEN then Oversized else Short
  }

  /** How one write in the flush loop went; the loop goes on only after Complete. */
  datatype FlushIo = Complete | Short | Oversized | Blocked | Broken | Incomplete

  lemma ConcatNothing()
    ensures Concat([]) == []
  {
  }

  // ----- What the code does to the file and the buffers, as functions

  /** The writes asked of the kernel, the file, the rest of a short write and the live bytes. */
  datatype Log = Log(asked: nat, file: seq<byte>, rest: seq<byte>, live: seq<byte>)

  /** The loop that writes the rest of an earlier short write. */
  ghost function FlushRest(kernel: nat -> WriteIo, s: Log): (Log, FlushIo)
    decreases |s.rest|
  {
    if s.rest == [] then (s, Complete)
    else
      var t := s.(asked := s.asked + 1);
      match Clip(kernel(s.asked), |s.rest|)
      case Again => (t, Blocked)
      case Failed => (t, Broken)
      case Wrote(n) => FlushRest(kernel, t.(file := s.file + s.rest[..n], rest := s.rest[n..]))
  }

  /** One turn of the loop over the messages. */
  ghost function Turn(kernel: nat -> WriteIo, s: Log): (Log, FlushIo)
  {
    if !HasWhole(s.live) then (s, Incomplete)
    else
      var size := FullSize(s.live[0], s.live[1]);
      var io := Clip(kernel(s.asked), size);
      var t := s.(asked := s.asked + 1);
      var r := FlushOf(io, size);
      match r
      case Complete => (t.(file := s.file + s.live[..size], live := s.live[size..]), r)
      case Short =>
        (t.(file := s.file + s.live[..io.n], rest := s.live[io.n..size], live := s.live[size..]), r)
      case Oversized => (t.(file := s.file + s.live[..io.n]), r)
      case _ => (t, r)
  }

  /** The loop over the messages. */
  ghost function FlushMessages(kernel: nat -> WriteIo, s: Log): (Log, FlushIo)
    decreases |s.live|
  {
    if s.rest != [] then (s, Blocked)
    else
      var (t, r) := Turn(kernel, s);
      if r.Complete? then FlushMessages(kernel, t) else (t, r)
  }

  ghost function Flush(kernel: nat -> WriteIo, s: Log): (Log, FlushIo)
  {
    var (t, r) := FlushRest(kernel, s);
    if r.Broken? then (t, r) else FlushMessages(kernel, t)
  }

  /** All that is in the file or still to be written. */
  ghost function AllOf(s: Log): seq<byte>
  {
    s.file + s.rest + s.live
  }

  lemma {:induction false} RestConserves(kernel: nat -> WriteIo, s: Log)
    ensures var (t, r) := FlushRest(kernel, s);
            && s.asked <= t.asked && t.live == s.live && t.file + t.rest == s.file + s.rest
            && (r.Complete? <==> t.rest == []) && (r.Complete? || r.Blocked? || r.Broken?)
            && (!r.Complete? ==> s.asked < t.asked && !Ample(kernel(t.asked - 1)))
            && (r.Broken? ==> s.asked < t.asked) && (s.asked < t.asked ==> (r.Broken? <==> kernel(t.asked - 1).Failed?))
    decreases |s.rest|
  {
    if s.rest != [] {
      var io := Clip(kernel(s.asked), |s.rest|);
      if io.Wrote? {
        assert s.file + s.rest[..io.n] + s.rest[io.n..] == s.file + s.rest;
        RestConserves(kernel, Log(s.asked + 1, s.file + s.rest[..io.n], s.rest[io.n..], s.live));
      }
    }
  }

  lemma TurnConserves(kernel: nat -> WriteIo, s: Log)
    requires s.rest == []
    ensures var (t, r) := Turn(kernel, s);
            && (!r.Oversized? ==> AllOf(t) == AllOf(s))
            && (r.Complete? ==> t.rest == [] && |t.live| < |s.live|)
            && (r.Incomplete? <==> !HasWhole(s.live)) && (r.Incomplete? ==> t == s)
            && (!r.Incomplete? ==> t.asked == s.asked + 1)
            && (r.Broken? <==> !r.Incomplete? && kernel(s.asked).Failed?)
            && (!r.Incomplete? && !r.Complete? ==> !Ample(kernel(s.asked)) || IsNothing(t.live))
  {
  }

  /** A size field that says there is no message, not even a header; the sender has none like that. */
  predicate IsNothing(live: seq<byte>)
  {
    MSG_HEADER_SIZE <= |live| && FullSize(live[0], live[1]) == 0
  }

  /** A flush loses and invents nothing, unless the rest of a short write did not fit. */
  lemma {:induction false} MessagesConserve(kernel: nat -> WriteIo, s: Log)
    ensures var (t, r) := FlushMessages(kernel, s);
            && s.asked <= t.asked
            && (!r.Oversized? ==> AllOf(t) == AllOf(s))
            && (r.Broken? ==> s.asked < t.asked) && (s.asked < t.asked ==> (r.Broken? <==> kernel(t.asked - 1).Failed?))
            && (s.rest == [] && (HasWhole(t.live) || t.rest != [] || !r.Incomplete?) ==>
                  s.asked < t.asked && (!Ample(kernel(t.asked - 1)) || IsNothing(t.live)))
    decreases |s.live|
  {
    hide Turn, AllOf, Ample, IsNothing, HasWhole;
    if s.rest == [] {
      TurnConserves(kernel, s);
      var (t, r) := Turn(kernel, s);
      if r.Complete? {
        MessagesConserve(kernel, t);
      }
    }
  }

  /**
   A flush loses and invents nothing, unless the rest of a short write did not fit; and it leaves a
   complete message or a rest behind only if the kernel's last answer fell short.
   */
  lemma FlushConserves(kernel: nat -> WriteIo, s: Log)
    ensures var (t, r) := Flush(kernel, s);
            && s.asked <= t.asked
            && (!r.Oversized? ==> AllOf(t) == AllOf(s))
            && (r.Broken? <==> s.asked < t.asked && kernel(t.asked - 1).Failed?)
            && (HasWhole(t.live) || t.rest != [] || !r.Incomplete? ==>
                  s.asked < t.asked && (!Ample(kernel(t.asked - 1)) || IsNothing(t.live)))
  {
    RestConserves(kernel, s);
    MessagesConserve(kernel, FlushRest(kernel, s).0);
  }

  /** A reassembler past the file header: what it holds, and what has gone wrong. */
  datatype Rx = Rx(log: Log, waitingFirst: bool, oversized: bool, overflowed: bool)

  ghost function Flushed(kernel: nat -> WriteIo, s: Rx): Rx
  {
    var (t, r) := Flush(kernel, s.log);
    s.(log := t, oversized := s.oversized || r.Oversized?)
  }

  /** After a gap: what is complete is written, the rest is forgotten, and a message start is waited for. */
  ghost function Gapped(kernel: nat -> WriteIo, s: Rx): Rx
  {
    var t := Flushed(kernel, s);
    t.(log := t.log.(live := []), waitingFirst := true)
  }

  /** What was there is in the file or committed to it, except for `lost`. */
  ghost predicate Saved(kernel: nat -> WriteIo, s: Log, t: Log, lost: seq<byte>)
  {
    && AllOf(s) == t.file + t.rest + lost
    && (HasWhole(lost) ==> s.asked < t.asked && (!Ample(kernel(t.asked - 1)) || IsNothing(lost)))
  }

  /**
   At a gap only an incomplete message is lost, unless the kernel's last answer fell short or the rest of a
   short write did not fit.
   */
  lemma GapSaves(kernel: nat -> WriteIo, s: Rx) returns (lost: seq<byte>)
    ensures var t := Gapped(kernel, s);
            && t.waitingFirst && t.log.live == [] && t.overflowed == s.overflowed && s.log.asked <= t.log.asked
            && (!t.oversized ==> Saved(kernel, s.log, t.log, lost))
  {
    hide Flush, HasWhole, Ample, IsNothing;
    FlushConserves(kernel, s.log);
    lost := Flush(kernel, s.log).0.live;
  }

  /** Data that comes in behind the live bytes, which are given up if both do not fit. */
  ghost function Roomy(s: Rx, n: nat): Rx
  {
    if |s.log.live| + n <= BUFFER_LEN then s
    else s.(log := s.log.(live := []), waitingFirst := true, overflowed := true)
  }

  ghost function Appended(kernel: nat -> WriteIo, s: Rx, data: seq<byte>, firstOffset: byte): Rx
  {
    var t := Roomy(s, |data|);
    if t.waitingFirst && firstOffset == NO_FIRST_MSG_OFFSET then t
    else
      var tail := if !t.waitingFirst then data else if firstOffset < |data| then data[firstOffset..] else [];
      var u := t.(waitingFirst := false);
      if tail == [] then u else Flushed(kernel, WithLive(u, u.log.live + tail))
  }

  /** What a packet after the first does. */
  ghost function Received(kernel: nat -> WriteIo, s: Rx, v: Verdict, p: Packet): Rx
  {
    if v.Stale? then s
    else Appended(kernel, if v.Gap? then Gapped(kernel, s) else s, p.data, p.firstOffset)
  }

  /** What packet 0 does. */
  ghost function Opened(kernel: nat -> WriteIo, asked: nat, p: Packet): Rx
    requires HEADER_SIZE <= |p.data|
  {
    var s := Rx(Log(asked, [], p.data[..HEADER_SIZE], []), false, false, false);
    Appended(kernel, s, p.data[HEADER_SIZE..], p.firstOffset)
  }

  /** Some write took so little of a message that the rest did not fit. */
  ghost predicate TornBy(kernel: nat -> WriteIo, asked: nat, units: seq<seq<byte>>)
  {
    exists n, u :: 0 <= n < asked && 0 <= u < |units| && TearsAt(kernel(n), units[u])
  }

  predicate TearsAt(a: WriteIo, unit: seq<byte>)
  {
    a.Wrote? && 0 < a.n && a.n + PARTIAL_LEN < |unit|
  }

  lemma TornLater(kernel: nat -> WriteIo, asked: nat, more: nat, units: seq<seq<byte>>)
    requires asked <= more
    ensures TornBy(kernel, asked, units) ==> TornBy(kernel, more, units)
  {
  }

  lemma TornNow(kernel: nat -> WriteIo, asked: nat, units: seq<seq<byte>>, u: nat)
    requires u < |units| && FlushOf(Clip(kernel(asked), |units[u]|), |units[u]|).Oversized?
    ensures TornBy(kernel, asked + 1, units)
  {
    assert TearsAt(kernel(asked), units[u]);
  }

  ghost predicate HasLong(units: seq<seq<byte>>)
  {
    exists i :: 0 <= i < |units| && |units[i]| > BUFFER_LEN - MAX_DATA
  }

  /** What it takes for the buffer to overflow: a write that fell short, or a message that hardly fits. */
  ghost predicate TooMuch(kernel: nat -> WriteIo, asked: nat, units: seq<seq<byte>>)
  {
    HasLong(units) || exists n :: 0 <= n < asked && !Ample(kernel(n))
  }

  lemma TooMuchLater(kernel: nat -> WriteIo, asked: nat, more: nat, units: seq<seq<byte>>)
    requires asked <= more
    ensures TooMuch(kernel, asked, units) ==> TooMuch(kernel, more, units)
  {
  }

  /** Live bytes without a complete message that leave no room for a packet are the start of a long message. */
  lemma LongHead(units: seq<seq<byte>>, g: Progress, out: seq<byte>, live: seq<byte>, n: nat)
    requires Framing(units, g, out, live) && n <= MAX_DATA && |live| + n > BUFFER_LEN && !HasWhole(live)
    ensures HasLong(units)
  {
    FlushKeepsFraming(units, g, out, live);
    hide Framing;
    assert |units[g.next]| > BUFFER_LEN - MAX_DATA;
  }

  lemma AmpleIsEnough(kernel: nat -> WriteIo, asked: nat, units: seq<seq<byte>>)
    requires IsUnits(units) && forall n: nat :: Ample(kernel(n))
    ensures !TornBy(kernel, asked, units)
    ensures TooMuch(kernel, asked, units) ==> HasLong(units)
  {
  }

  /** With less than a header left, or a rest waiting, the loop over the messages is over. */
  lemma NoHeader(kernel: nat -> WriteIo, s: Log)
    requires |s.live| < MSG_HEADER_SIZE || s.rest != []
    ensures FlushMessages(kernel, s).0 == s && !FlushMessages(kernel, s).1.Broken?
    ensures !FlushMessages(kernel, s).1.Oversized?
  {
  }

  lemma HowItEnded(a: WriteIo, size: nat)
    ensures Clip(a, size).Wrote? ==> 0 < Clip(a, size).n <= size
    ensures var io := Clip(a, size);
            FlushOf(io, size).Oversized? ==> io.Wrote? && size > io.n + PARTIAL_LEN
  {
  }

  /** The parts of a turn make the turn. */
  lemma IsTurn(kernel: nat -> WriteIo, s: Log, message: seq<byte>, io: WriteIo, r: FlushIo, t: Log)
    requires HasWhole(s.live) && FullSize(s.live[0], s.live[1]) == |message| && message == s.live[..|message|]
    requires s.rest == [] && io == Clip(kernel(s.asked), |message|) && r == FlushOf(io, |message|)
    requires t.asked == s.asked + 1 && t.file == s.file + if io.Wrote? then message[..io.n] else []
    requires t.rest == if r.Short? then message[io.n..] else []
    requires t.live == if r.Complete? || r.Short? then s.live[|message|..] else s.live
    ensures (t, r) == Turn(kernel, s)
  {
    hide FullSize;
    if io.Wrote? {
      assert message[..io.n] == s.live[..io.n] && message[io.n..] == s.live[io.n..|message|];
    }
    assert s.file + [] == s.file;
  }

  /** Packet 0 finds the buffer empty. */
  lemma FirstFits(s: Rx, n: nat, k: nat)
    requires n <= MAX_DATA && (k == 0 ==> !s.waitingFirst && s.log.live == [])
    ensures Roomy(s, n).waitingFirst ==> 0 < k
  {
  }

  lemma StillWaits(kernel: nat -> WriteIo, s: Rx, data: seq<byte>, firstOffset: byte)
    requires Roomy(s, |data|).waitingFirst && firstOffset == NO_FIRST_MSG_OFFSET
    ensures Appended(kernel, s, data, firstOffset) == Roomy(s, |data|)
  {
  }

  lemma IsAppended(kernel: nat -> WriteIo, s: Rx, data: seq<byte>, firstOffset: byte, tail: seq<byte>)
    requires var t := Roomy(s, |data|);
             if t.waitingFirst then
               firstOffset != NO_FIRST_MSG_OFFSET && firstOffset < |data| && tail == data[firstOffset..]
             else tail == data
    ensures var t := Roomy(s, |data|).(waitingFirst := false);
            Appended(kernel, s, data, firstOffset)
            == if tail == [] then t else Flushed(kernel, WithLive(t, t.log.live + tail))
  {
    hide Flush;
  }

  /** What has gone wrong stays wrong. */
  lemma StaysWrong(kernel: nat -> WriteIo, s: Rx, v: Verdict, p: Packet)
    ensures s.overflowed ==> Received(kernel, s, v, p).overflowed
    ensures s.oversized ==> Received(kernel, s, v, p).oversized
  {
    hide Flush;
  }

  /** What a write of a message puts into the file or commits to it. */
  lemma Commits(before: seq<byte>, message: seq<byte>, io: WriteIo, after: seq<byte>, rest: seq<byte>)
    requires io.Wrote? ==> io.n <= |message|
    requires after == before + if io.Wrote? then message[..io.n] else []
    requires rest == if FlushOf(io, |message|).Short? then message[io.n..] else []
    ensures var r := FlushOf(io, |message|);
            && (r.Complete? || r.Short? ==> after + rest == before + message)
            && (r.Oversized? ==> after + rest == before + message[..io.n])
            && (r.Blocked? || r.Broken? ==> after + rest == before)
            && !r.Incomplete?
  {
    if io.Wrote? {
      assert before + message[..io.n] + message[io.n..] == before + message;
      assert io.n == |message| ==> message[..io.n] == message;
    }
  }

  /** What packets after the first do, one after the other. */
  ghost function Replay(kernel: nat -> WriteIo, packets: seq<Packet>, s: Rx, expected: nat, arrivals: seq<nat>): Rx
    requires forall i :: 0 <= i < |arrivals| ==> arrivals[i] < |packets|
    decreases |arrivals|
  {
    if arrivals == [] then s
    else
      var k := arrivals[0];
      var v := Ideal(expected, k);
      Replay(kernel, packets, Received(kernel, s, v, packets[k]), Advance(expected, k, v), arrivals[1..])
  }

  /** When all has come in and no complete message is left to write, the file is the sender's stream. */
  lemma NothingLeft(s: Sender, g: Progress, out: seq<byte>, live: seq<byte>)
    requires Framing(s.units, g, out, live) && g.whole && g.torn == 0 && g.pos == |Concat(s.units)|
    requires !HasWhole(live)
    ensures live == [] && out == Concat(s.units)
  {
    hide Concat;
    OffsetOfEnd(s.units);
    if g.next < |s.units| {
      ConcatSlice(s.units, g.next);
      LiveHead(s.units, g.next, g.pos, live);
    }
    assert Concat(s.units)[..g.pos] == Concat(s.units);
    assert out + [] == out;
  }

  class Reassembler {
    var waitingHeader: bool
    var waitingFirst: bool
    var expectedSeq: u16
    const buffer: array<byte>
    var bufferLen: nat
    var bufferIndex: nat
    const partial: array<byte>
    var partialLen: nat
    /** The log file's contents. */
    var file: seq<byte>
    /** What the kernel answers to the n-th write. */
    const kernel: nat -> WriteIo
    var asked: nat
    /** The rest of a short write did not fit its buffer, or the live bytes and new data the other one. */
    ghost var oversized: bool
    ghost var overflowed: bool

    ghost const sender: Sender
    /** The true number of the next packet. */
    ghost var expected: nat
    ghost var progress: Progress

    ghost function Live(): seq<byte>
      requires bufferIndex + bufferLen <= buffer.Length
      reads this, buffer
    {
      buffer[bufferIndex..bufferIndex + bufferLen]
    }

    /** What is in the file or already committed to it. */
    ghost function Out(): seq<byte>
      requires partialLen <= partial.Length
      reads this, partial
    {
      file + partial[..partialLen]
    }

    ghost predicate Shape()
      reads this
    {
      && buffer != partial
      && buffer.Length == BUFFER_LEN && partial.Length == PARTIAL_LEN
      && bufferIndex + bufferLen <= BUFFER_LEN && partialLen <= PARTIAL_LEN
    }

    ghost predicate Framed()
      reads this, buffer, partial
    {
      && Shape() && progress.waitingFirst == waitingFirst && (oversized <==> progress.torn > 0)
      && (oversized ==> TornBy(kernel, asked, sender.units))
      && Framing(sender.units, progress, Out(), Live())
    }

    ghost predicate Valid()
      reads this, buffer, partial
    {
      && Shape() && Honest(sender)
      && expected <= |sender.packets| && expectedSeq == Low16(expected)
      && if waitingHeader then
           expected == 0 && Out() == [] && bufferLen == 0 && !waitingFirst && !oversized && !overflowed
         else
           && 0 < expected && Framed() && Drained() && (overflowed ==> TooMuch(kernel, asked, sender.units))
           && progress.pos == Offset(Datas(sender.packets), expected)
    }

    /** Nothing that could be written out is left in the buffer, unless the kernel's last answer fell short. */
    ghost predicate Drained()
      reads this, buffer
    {
      Shape() && (HasWhole(Live()) ==> 0 < asked && !Ample(kernel(asked - 1)))
    }

    ghost function Files(): Log
      requires Shape()
      reads this, buffer, partial
    {
      Log(asked, file, partial[..partialLen], Live())
    }

    ghost function State(): Rx
      requires Shape()
      reads this, buffer, partial
    {
      Rx(Files(), waitingFirst, oversized, overflowed)
    }

    constructor (ghost s: Sender, kernel: nat -> WriteIo)
      requires Honest(s)
      ensures Valid() && fresh(buffer) && fresh(partial)
      ensures sender == s && waitingHeader && expected == 0 && asked == 0 && this.kernel == kernel
    {
      buffer := new byte[BUFFER_LEN](_ => 0);
      partial := new byte[PARTIAL_LEN](_ => 0);
      waitingHeader, waitingFirst, expectedSeq := true, false, 0;
      bufferLen, bufferIndex, partialLen, file := 0, 0, 0, [];
      this.kernel, asked, expected, sender := kernel, 0, 0, s;
      oversized, overflowed := false, false;
    }

    /** write(2) on the log file: any part of the data, or nothing, or an error. */
    method Write(data: seq<byte>) returns (r: WriteIo)
      requires 0 < |data|
      modifies this`file, this`asked
      ensures r == Clip(kernel(old(asked)), |data|) && asked == old(asked) + 1
      ensures file == old(file) + if r.Wrote? then data[..r.n] else []
    {
      r := Clip(kernel(asked), |data|);
      asked := asked + 1;
      if r.Wrote? {
        file := file + data[..r.n];
      }
    }

    /** Write what there is of the rest. */
    method WriteRest() returns (r: WriteIo)
      requires Shape() && 0 < partialLen
      modifies this`file, this`asked, this`partialLen, partial
      ensures Shape() && r == Clip(kernel(old(asked)), old(partialLen))
      ensures var was := old(Files());
              Files() == Log(was.asked + 1, was.file + if r.Wrote? then was.rest[..r.n] else [],
                             if r.Wrote? then was.rest[r.n..] else was.rest, was.live)
    {
      ghost var was := Files();
      r := Write(partial[..partialLen]);
      if r.Wrote? {
        partialLen := partialLen - r.n;
        MoveToFront(partial, r.n, partialLen);
        assert partial[..partialLen] == was.rest[r.n..];
      }
      assert Live() == was.live;
    }

    /** First the rest of an earlier short write; false on a hard error. */
    method FlushPartial() returns (ok: bool)
      requires Shape()
      modifies this`file, this`asked, this`partialLen, partial
      ensures Shape() && Out() == old(Out())
      ensures Files() == old(FlushRest(kernel, Files())).0 && ok == !old(FlushRest(kernel, Files())).1.Broken?
    {
      RestConserves(kernel, Files());
      while partialLen > 0
        invariant Shape() && FlushRest(kernel, Files()) == old(FlushRest(kernel, Files()))
        decreases partialLen
      {
        ghost var was := Files();
        var r := WriteRest();
        assert was.file + [] == was.file;
        match r {
          case Again => return true;
          case Failed => return false;
          case Wrote(n) =>
        }
      }
      return true;
    }

    /** ULog::_logging_flush: the rest of a short write, then every complete message at the head of the buffer. */
    method LoggingFlush() returns (ok: bool)
      requires Framed()
      modifies this`file, this`asked, this`partialLen, partial, this`bufferLen, this`bufferIndex
      modifies this`progress, this`oversized
      ensures Framed() && Drained() && State() == old(Flushed(kernel, State()))
      ensures ok == !old(Flush(kernel, Files())).1.Broken?
      ensures progress.pos == old(progress.pos) && progress.whole == old(progress.whole)
      ensures bufferIndex + bufferLen == old(bufferIndex + bufferLen)
    {
      hide Framing, FullSize, HasWhole, IsNothing, FlushMessages, FlushRest, TornBy, Ample;
      FlushConserves(kernel, Files());
      RestConserves(kernel, Files());
      TornLater(kernel, asked, FlushRest(kernel, Files()).0.asked, sender.units);
      ok := FlushPartial();
      if ok {
        ok := FlushBuffer();
      }
      IsSomething();
    }

    /** Write out every complete message at the head of the buffer. */
    method FlushBuffer() returns (ok: bool)
      requires Framed()
      modifies this`file, this`asked, this`partialLen, partial, this`bufferLen, this`bufferIndex
      modifies this`progress, this`oversized
      ensures Framed() && Files() == old(FlushMessages(kernel, Files())).0
      ensures ok == !old(FlushMessages(kernel, Files())).1.Broken?
      ensures oversized <==> old(oversized) || old(FlushMessages(kernel, Files())).1.Oversized?
      ensures progress.pos == old(progress.pos) && progress.whole == old(progress.whole)
      ensures bufferIndex + bufferLen == old(bufferIndex + bufferLen)
    {
      hide Framing, FullSize, HasWhole, Turn, TornBy;
      ok := true;
      while bufferLen >= MSG_HEADER_SIZE && partialLen == 0
        invariant Framed() && bufferIndex + bufferLen == old(bufferIndex + bufferLen)
        invariant progress.pos == old(progress.pos) && progress.whole == old(progress.whole)
        invariant oversized == old(oversized) && FlushMessages(kernel, Files()) == old(FlushMessages(kernel, Files()))
        decreases bufferLen
      {
        var r := FlushOne();
        if !r.Complete? {
          return !r.Broken?;
        }
      }
      NoHeader(kernel, Files());
    }

    /** A framed buffer starts with a message of at least a header. */
    lemma IsSomething()
      requires Framed()
      ensures !IsNothing(Live())
    {
      if MSG_HEADER_SIZE <= |Live()| {
        FlushKeepsFraming(sender.units, progress, Out(), Live());
      }
    }

    /**
     Write one message, keeping the rest of a short write if it fits. If it does not, the file holds the
     start of a message whose rest is not kept anywhere.
     */
    method WriteMessage(message: seq<byte>) returns (r: FlushIo, io: WriteIo)
      requires Shape() && partialLen == 0 && 0 < |message|
      modifies this`file, this`asked, this`partialLen, partial, this`oversized
      ensures Shape()
      ensures io == Clip(kernel(old(asked)), |message|) && asked == old(asked) + 1 && r == FlushOf(io, |message|)
      ensures oversized <==> old(oversized) || r.Oversized?
      ensures file == old(file) + if io.Wrote? then message[..io.n] else []
      ensures partial[..partialLen] == if r.Short? then message[io.n..] else []
    {
      io := Write(message);
      match io {
        case Again => r := Blocked;
        case Failed => r := Broken;
        case Wrote(n) =>
          if n == |message| {
            r := Complete;
          } else if |message| - n > PARTIAL_LEN {
            oversized := true;
            r := Oversized;
          } else {
            partialLen := |message| - n;
            CopyIn(partial, 0, message[n..]);
            r := Short;
          }
      }
    }

    /** Take `n` bytes off the head of the buffer. */
    method Consume(n: nat)
      requires Shape() && n <= bufferLen
      modifies this`bufferLen, this`bufferIndex
      ensures Shape() && Live() == old(Live())[n..]
      ensures bufferIndex + bufferLen == old(bufferIndex + bufferLen) && bufferLen == old(bufferLen) - n
    {
      bufferLen := bufferLen - n;
      bufferIndex := bufferIndex + n;
    }

    /** Put bytes behind the live ones. */
    method Put(data: seq<byte>)
      requires Shape() && bufferIndex + bufferLen + |data| <= BUFFER_LEN
      modifies this`bufferLen, buffer
      ensures Shape() && Live() == old(Live()) + data && Out() == old(Out())
    {
      ghost var live := Live();
      CopyIn(buffer, bufferIndex + bufferLen, data);
      assert Live() == live;
      bufferLen := bufferLen + |data|;
    }

    /** The bytes at the head of the buffer that its size field claims, if they are all there. */
    method HeadMessage() returns (complete: bool, message: seq<byte>)
      requires Shape() && MSG_HEADER_SIZE <= bufferLen
      ensures complete <==> HasWhole(Live())
      ensures complete ==>
                var n := FullSize(Live()[0], Live()[1]);
                n <= |Live()| && message == Live()[..n]
    {
      hide FullSize;
      var size := FullSize(buffer[bufferIndex], buffer[bufferIndex + 1]);
      if size > bufferLen {
        return false, [];
      }
      return true, buffer[bufferIndex..bufferIndex + size];
    }

    /** One turn of the flush loop. */
    method FlushOne() returns (r: FlushIo)
      requires Framed() && bufferLen >= MSG_HEADER_SIZE && partialLen == 0
      modifies this`file, this`asked, this`partialLen, partial, this`bufferLen, this`bufferIndex
      modifies this`progress, this`oversized
      ensures Framed() && (Files(), r) == old(Turn(kernel, Files()))
      ensures oversized <==> old(oversized) || r.Oversized?
      ensures progress.pos == old(progress.pos) && progress.whole == old(progress.whole)
      ensures bufferIndex + bufferLen == old(bufferIndex + bufferLen)
      ensures r.Complete? ==> bufferLen < old(bufferLen)
    {
      hide Framing, FullSize, HasWhole, FlushOf, Clip, TornBy;
      FlushKeepsFraming(sender.units, progress, Out(), Live());
      var complete, message := HeadMessage();
      if !complete {
        return Incomplete;
      }
      r := CommitHead(message);
    }

    /** Write the message at the head of the buffer and, unless that was refused, take it off. */
    method CommitHead(message: seq<byte>) returns (r: FlushIo)
      requires Framed() && partialLen == 0 && progress.next < |sender.units| && HasWhole(Live())
      requires FullSize(Live()[0], Live()[1]) == |message| == |sender.units[progress.next]|
      requires 0 < |message| <= bufferLen && message == Live()[..|message|]
      requires Framing(sender.units, progress.(next := progress.next + 1, kept := progress.kept + [progress.next]),
                       Out() + message, Live()[|message|..])
      modifies this`file, this`asked, this`partialLen, partial, this`bufferLen, this`bufferIndex
      modifies this`progress, this`oversized
      ensures Framed() && (Files(), r) == old(Turn(kernel, Files()))
      ensures oversized <==> old(oversized) || r.Oversized?
      ensures progress.pos == old(progress.pos) && progress.whole == old(progress.whole)
      ensures bufferIndex + bufferLen == old(bufferIndex + bufferLen)
      ensures r.Complete? ==> bufferLen < old(bufferLen)
    {
      hide Framing, FullSize, HasWhole, TornBy, FlushOf, Clip, Turn;
      ghost var was, out, next := Files(), Out(), progress.next;
      assert out == was.file;
      var io;
      r, io := WriteMessage(message);
      assert Live() == was.live;
      HowItEnded(kernel(was.asked), |message|);
      TornLater(kernel, was.asked, asked, sender.units);
      if r.Oversized? {
        TornNow(kernel, was.asked, sender.units, next);
      }
      Commits(out, message, io, file, partial[..partialLen]);
      TakeOff(message, r, io, out);
      IsTurn(kernel, was, message, io, r, Files());
    }

    /** Take a message that is committed off the buffer. */
    method TakeOff(message: seq<byte>, r: FlushIo, io: WriteIo, ghost out: seq<byte>)
      requires Shape() && progress.waitingFirst == waitingFirst && progress.next < |sender.units|
      requires Framing(sender.units, progress, out, Live()) && (oversized <==> progress.torn > 0 || r.Oversized?)
      requires oversized ==> TornBy(kernel, asked, sender.units)
      requires 0 < |message| == |sender.units[progress.next]| <= bufferLen && message == Live()[..|message|]
      requires Framing(sender.units, progress.(next := progress.next + 1, kept := progress.kept + [progress.next]),
                       out + message, Live()[|message|..])
      requires r.Oversized? ==>
                 io.Wrote? && 0 < io.n && |message| > io.n + PARTIAL_LEN && Out() == out + message[..io.n]
      requires r.Complete? || r.Short? ==> Out() == out + message
      requires !r.Oversized? && !r.Complete? && !r.Short? ==> Out() == out
      modifies this`bufferLen, this`bufferIndex, this`progress
      ensures Framed() && bufferIndex + bufferLen == old(bufferIndex + bufferLen)
      ensures Live() == if r.Complete? || r.Short? then old(Live())[|message|..] else old(Live())
      ensures bufferLen == if r.Complete? || r.Short? then old(bufferLen) - |message| else old(bufferLen)
      ensures progress.pos == old(progress.pos) && progress.whole == old(progress.whole)
    {
      hide Framing;
      if r.Oversized? {
        OversizedRest(sender.units, progress, out, Live(), io.n);
        assert message[..io.n] == Live()[..io.n];
        progress := progress.(torn := progress.torn + io.n);
      } else if r.Complete? || r.Short? {
        Consume(|message|);
        progress := progress.(next := progress.next + 1, kept := progress.kept + [progress.next]);
      }
    }

    /**
     What happens to a message of which more than 1024 bytes are left over: the loop writes it again from its
     start, behind the part already in the file.
     */
    method TearOne(n: nat)
      requires Framed() && partialLen == 0 && HasWhole(Live())
      requires 0 < n && n + PARTIAL_LEN < FullSize(Live()[0], Live()[1])
      requires kernel(asked) == Wrote(n) && Ample(kernel(asked + 1))
      modifies this`file, this`asked, this`partialLen, partial, this`bufferLen, this`bufferIndex
      modifies this`progress, this`oversized
      ensures Framed() && oversized && partialLen == 0
      ensures var size := FullSize(old(Live())[0], old(Live())[1]);
              && file == old(file) + old(Live())[..n] + old(Live())[..size]
              && Live() == old(Live())[size..]
    {
      hide Framing, TornBy;
      var r := FlushOne();
      r := FlushOne();
    }

    /** ULog::start on a fresh file. */
    method Restart()
      requires Shape() && Honest(sender)
      modifies this
      ensures Valid() && waitingHeader && expected == 0
      ensures State() == Rx(Log(old(asked), [], [], []), false, false, false)
    {
      hide Honest;
      oversized, overflowed := false, false;
      waitingHeader, waitingFirst, expectedSeq := true, false, 0;
      bufferLen, bufferIndex, partialLen, file := 0, 0, 0, [];
      expected := 0;
    }

    /** ULog::_logging_seq */
    method LoggingSeq(seqNo: u16) returns (handle: bool, drop: bool)
      modifies this`expectedSeq
      ensures handle <==> !Decide(old(expectedSeq), seqNo).Stale?
      ensures handle ==> (drop <==> Decide(old(expectedSeq), seqNo).Gap?)
      ensures expectedSeq == if handle then Low16(seqNo + 1) else old(expectedSeq)
    {
      if expectedSeq == seqNo {
        expectedSeq := (expectedSeq + 1) % 65536;
        return true, false;
      }
      if seqNo > expectedSeq {
        if seqNo - expectedSeq > HALF {
          return false, false;
        }
      } else {
        if expectedSeq - seqNo < HALF {
          return false, false;
        }
      }
      expectedSeq := (seqNo + 1) % 65536;
      return true, true;
    }

    /** Make room for `n` more bytes behind the live ones, giving them up if they are in the way. */
    method MakeRoom(n: nat)
      requires Framed() && Drained() && n <= MAX_DATA
      modifies this`waitingFirst, this`bufferLen, this`bufferIndex, buffer, this`progress, this`overflowed
      ensures Framed() && Drained() && bufferIndex + bufferLen + n <= BUFFER_LEN
      ensures State() == old(Roomy(State(), n)) && progress.pos == old(progress.pos)
      ensures overflowed <==> old(overflowed) || old(bufferLen) + n > BUFFER_LEN
      ensures old(bufferLen) + n <= BUFFER_LEN ==> progress == old(progress)
      ensures old(bufferLen) + n > BUFFER_LEN ==> !progress.whole && TooMuch(kernel, asked, sender.units)
    {
      hide Framing, TornBy, HasLong, HasWhole, TooMuch;
      if bufferLen + n > BUFFER_LEN {
        GiveUp(n);
      }
      if bufferIndex + bufferLen + n > BUFFER_LEN {
        ghost var live := Live();
        MoveToFront(buffer, bufferIndex, bufferLen);
        bufferIndex := 0;
        assert Live() == live;
      }
    }

    /** Give up the live bytes. */
    method GiveUp(ghost n: nat)
      requires Framed() && Drained() && n <= MAX_DATA && bufferLen + n > BUFFER_LEN
      modifies this`waitingFirst, this`bufferLen, this`progress, this`overflowed
      ensures Framed() && bufferLen == 0 && waitingFirst && overflowed && TooMuch(kernel, asked, sender.units)
      ensures progress == old(progress).(waitingFirst := true, whole := false) && Live() == [] && !HasWhole(Live())
    {
      hide Framing, TornBy, HasLong;
      ForgetLive(sender.units, progress, Out(), Live(), progress.pos);
      if !HasWhole(Live()) {
        LongHead(sender.units, progress, Out(), Live(), n);
      }
      bufferLen := 0;
      waitingFirst, overflowed := true, true;
      progress := progress.(waitingFirst := true, whole := false);
    }

    /** With the buffer out of step, wait for a message start and begin there. */
    method JoinStream(data: seq<byte>, firstOffset: byte, ghost k: nat) returns (begin: nat)
      requires Framed() && waitingFirst && Honest(sender)
      requires 0 < k < |sender.packets| && sender.packets[k] == Packet(data, firstOffset)
      requires progress.pos == Offset(Datas(sender.packets), k)
      modifies this`waitingFirst, this`progress
      ensures waitingFirst == progress.waitingFirst == (firstOffset == NO_FIRST_MSG_OFFSET)
      ensures bufferLen == 0 && Shape() && !progress.whole && progress.torn == old(progress.torn)
      ensures waitingFirst ==> Framing(sender.units, progress, Out(), [])
      ensures !waitingFirst ==>
                begin == firstOffset < |data| && Framing(sender.units, progress, Out(), data[begin..])
      ensures progress.pos == Offset(Datas(sender.packets), k + 1)
    {
      hide Framing, Concat, Offset, Honest;
      ghost var out := Out();
      WaitingIsEmpty(sender.units, progress, out, Live());
      ConcatSlice(Datas(sender.packets), k);
      begin := 0;
      if firstOffset == NO_FIRST_MSG_OFFSET {
        ghost var pos := Offset(Datas(sender.packets), k + 1);
        assert pos <= |Concat(sender.units)| by { CutsFit(sender, k + 1); }
        ForgetLive(sender.units, progress, out, [], pos);
        progress := progress.(pos := pos);
      } else {
        ghost var j := TakeRealigned(sender, k, progress, out);
        waitingFirst := false;
        begin := firstOffset;
        progress := progress.(next := j, pos := Offset(Datas(sender.packets), k + 1), waitingFirst := false);
      }
    }

    /** Add the bytes to the buffer, whose framing they continue, and flush. */
    method PutAndFlush(tail: seq<byte>)
      requires Drained() && bufferIndex + bufferLen + |tail| <= BUFFER_LEN
      requires progress.waitingFirst == waitingFirst && (oversized <==> progress.torn > 0)
      requires oversized ==> TornBy(kernel, asked, sender.units)
      requires Framing(sender.units, progress, Out(), Live() + tail)
      modifies this`bufferLen, this`bufferIndex, buffer, this`progress, this`oversized
      modifies this`file, this`asked, this`partialLen, partial
      ensures Framed() && Drained() && progress.pos == old(progress.pos) && progress.whole == old(progress.whole)
      ensures old(asked) <= asked
      ensures State() == old(if tail == [] then State() else Flushed(kernel, WithLive(State(), Live() + tail)))
    {
      hide Framing, TornBy, Flush, HasWhole;
      if |tail| == 0 {
        assert Live() + tail == Live();
        return;
      }
      ghost var rest := partial[..partialLen];
      Put(tail);
      assert partial[..partialLen] == rest;
      FlushConserves(kernel, Files());
      var _ := LoggingFlush();
    }

    /** Find the part of the data that continues the live bytes. */
    method Align(data: seq<byte>, firstOffset: byte, ghost k: nat) returns (tail: seq<byte>)
      requires Framed() && Honest(sender) && k < |sender.packets|
      requires progress.pos + |data| == Offset(Datas(sender.packets), k + 1) <= |Concat(sender.units)|
      requires data == Concat(sender.units)[progress.pos..progress.pos + |data|]
      requires waitingFirst ==> 0 < k && sender.packets[k] == Packet(data, firstOffset)
      modifies this`waitingFirst, this`progress
      ensures Shape() && waitingFirst == progress.waitingFirst && progress.torn == old(progress.torn)
      ensures waitingFirst <==> old(waitingFirst) && firstOffset == NO_FIRST_MSG_OFFSET
      ensures !waitingFirst ==>
                && (if old(waitingFirst) then firstOffset < |data| && tail == data[firstOffset..] else tail == data)
                && Framing(sender.units, progress, Out(), Live() + tail)
      ensures (oversized <==> progress.torn > 0) && (oversized ==> TornBy(kernel, asked, sender.units))
      ensures waitingFirst ==> Framed()
      ensures progress.pos == Offset(Datas(sender.packets), k + 1)
      ensures old(progress.whole) ==> progress.whole
    {
      hide Framing, Concat, Offset, Honest, TornBy;
      tail := data;
      if waitingFirst {
        ConcatSlice(Datas(sender.packets), k);
        WaitingIsEmpty(sender.units, progress, Out(), Live());
        var begin := JoinStream(data, firstOffset, k);
        if !waitingFirst {
          tail := data[begin..];
          assert Live() + tail == tail;
        }
      } else {
        TakeInOrder(sender.units, progress, Out(), Live(), data);
        progress := progress.(pos := progress.pos + |data|);
      }
    }

    /** The part of ULog::_logging_data_process after the header and gap handling. */
    method Append(data: seq<byte>, firstOffset: byte, ghost k: nat)
      requires Framed() && Drained() && Honest(sender) && |data| <= MAX_DATA && k < |sender.packets|
      requires progress.pos + |data| == Offset(Datas(sender.packets), k + 1) <= |Concat(sender.units)|
      requires data == Concat(sender.units)[progress.pos..progress.pos + |data|]
      requires k == 0 ==> !waitingFirst && bufferLen == 0
      requires 0 < k ==> sender.packets[k] == Packet(data, firstOffset)
      requires overflowed ==> TooMuch(kernel, asked, sender.units)
      modifies this`waitingFirst, this`bufferLen, this`bufferIndex, buffer, this`progress
      modifies this`file, this`asked, this`partialLen, partial, this`oversized, this`overflowed
      ensures Framed() && Drained() && progress.pos == Offset(Datas(sender.packets), k + 1)
      ensures overflowed ==> TooMuch(kernel, asked, sender.units)
      ensures old(progress.whole) && old(bufferLen) + |data| <= BUFFER_LEN ==> progress.whole
      ensures State() == old(Appended(kernel, State(), data, firstOffset))
    {
      hide Framing, Concat, Offset, Honest, HasWhole, TornBy, TooMuch, Flushed, Appended, Roomy, Ample;
      hide Reassembler.Framed;
      MakeRoom(|data|);
      ghost var was := asked;
      FirstFits(old(State()), |data|, k);
      var tail := Align(data, firstOffset, k);
      if waitingFirst {
        StillWaits(kernel, old(State()), data, firstOffset);
        return;
      }
      IsAppended(kernel, old(State()), data, firstOffset, tail);
      PutAndFlush(tail);
      TooMuchLater(kernel, was, asked, sender.units);
    }

    /** Take the file header off packet 0 and queue it for the file. */
    method TakeHeader(data: seq<byte>)
      requires Shape() && Honest(sender) && data == sender.packets[0].data
      requires Out() == [] && bufferLen == 0 && !waitingFirst && !oversized
      modifies this`waitingHeader, this`partialLen, partial, this`progress
      ensures !waitingHeader && Framed() && Drained() && progress.whole && progress.pos == HEADER_SIZE
      ensures State() == Rx(Log(asked, [], data[..HEADER_SIZE], []), false, false, overflowed)
    {
      hide Framing, Concat, Offset;
      partialLen := HEADER_SIZE;
      CopyIn(partial, 0, data[..HEADER_SIZE]);
      waitingHeader := false;
      progress := HeaderProgress(sender);
      HeaderFraming(sender);
      assert Out() == data[..HEADER_SIZE] && Live() == [];
    }

    /** After a gap: save what is complete, forget the rest, and wait for a message start. */
    method HandleGap(ghost pos: nat)
      requires Framed() && progress.pos <= pos <= |Concat(sender.units)|
      modifies this`waitingFirst, this`bufferLen, this`bufferIndex, this`progress
      modifies this`file, this`asked, this`partialLen, partial, this`oversized
      ensures Framed() && Drained() && progress.pos == pos && !progress.whole && old(asked) <= asked
      ensures State() == old(Gapped(kernel, State()))
      ensures waitingFirst && bufferLen == 0
    {
      hide Framing, Concat, TornBy, Flush;
      FlushConserves(kernel, Files());
      var _ := LoggingFlush();
      ForgetLive(sender.units, progress, Out(), Live(), pos);
      bufferLen := 0;
      bufferIndex := 0;
      waitingFirst := true;
      progress := progress.(pos := pos, waitingFirst := true, whole := false);
      assert Live() == [];
    }

    /** ULog::_logging_data_process for the sender's packet `k`. */
    method LoggingDataProcess(p: Packet, seqNo: u16, ghost k: nat)
      requires Valid() && k < |sender.packets| && p == sender.packets[k] && seqNo == Low16(k)
      requires InWindow(expected, k)
      requires waitingHeader && 0 < k ==> !(HEADER_SIZE <= |p.data| && MAGIC <= p.data)
      modifies this, buffer, partial
      ensures Valid()
      ensures !old(waitingHeader) ==>
                && !waitingHeader && expected == Advance(old(expected), k, Ideal(old(expected), k))
                && State() == old(Received(kernel, State(), Ideal(expected, k), p))
      ensures old(waitingHeader) && k == 0 ==>
                && !waitingHeader && progress.whole && expected == 1
                && HEADER_SIZE <= |p.data| && State() == Opened(kernel, old(asked), p)
      ensures old(waitingHeader) && 0 < k ==> waitingHeader && State() == old(State())
      ensures !old(waitingHeader) && old(progress.whole) && k <= old(expected) && !overflowed ==> progress.whole
      ensures !old(waitingHeader) && old(overflowed) ==> overflowed
      ensures !old(waitingHeader) && old(oversized) ==> oversized
      ensures !waitingHeader && oversized ==> TornBy(kernel, asked, sender.units)
      ensures !waitingHeader && overflowed ==> TooMuch(kernel, asked, sender.units)
    {
      hide Framing, Concat, Offset, Decide, Honest, LooksLikeHeader, InWindow, Low16, HasWhole;
      hide TornBy, TooMuch, Gapped, Appended;
      AdvanceLow16(expected, k);
      HeaderIsThere(p.data);
      StaysWrong(kernel, State(), Ideal(expected, k), p);
      var handle, drops := LoggingSeq(seqNo);
      if !handle {
        return;
      }
      ghost var pos := Offset(Datas(sender.packets), k);
      PacketSlice(sender, k);
      if k == 0 {
        HeaderFraming(sender);
      } else if expected <= k {
        OffsetMonotone(Datas(sender.packets), expected, k);
      }
      var data := p.data;
      if waitingHeader {
        if !LooksLikeHeader(data) {
          Restart();
          return;
        }
        TakeHeader(data);
        data := data[HEADER_SIZE..];
        pos := HEADER_SIZE;
      }
      Take(data, p.firstOffset, drops, k, pos);
    }

    /** The part of it from the gap handling on. */
    method Take(data: seq<byte>, firstOffset: byte, drops: bool, ghost k: nat, ghost pos: nat)
      requires Framed() && Drained() && Honest(sender) && |data| <= MAX_DATA && k < |sender.packets|
      requires progress.pos <= pos && (!drops ==> progress.pos == pos)
      requires pos + |data| == Offset(Datas(sender.packets), k + 1) <= |Concat(sender.units)|
      requires data == Concat(sender.units)[pos..pos + |data|]
      requires k == 0 ==> !drops && !waitingFirst && bufferLen == 0
      requires 0 < k ==> sender.packets[k] == Packet(data, firstOffset)
      requires overflowed ==> TooMuch(kernel, asked, sender.units)
      modifies this`waitingFirst, this`bufferLen, this`bufferIndex, buffer, this`progress, this`expected
      modifies this`file, this`asked, this`partialLen, partial, this`oversized, this`overflowed
      ensures Framed() && Drained() && expected == k + 1 && progress.pos == Offset(Datas(sender.packets), k + 1)
      ensures overflowed ==> TooMuch(kernel, asked, sender.units)
      ensures old(progress.whole) && !drops && (!overflowed || old(bufferLen) == 0) ==> progress.whole
      ensures State() == old(Appended(kernel, if drops then Gapped(kernel, State()) else State(), data, firstOffset))
    {
      hide Framing, Concat, Offset, Honest, HasWhole, TornBy, TooMuch, Flushed;
      if drops {
        ghost var was := asked;
        HandleGap(pos);
        TooMuchLater(kernel, was, asked, sender.units);
      }
      if bufferLen + |data| > BUFFER_LEN {
        AppendOverflows(kernel, State(), data, firstOffset);
      }
      Append(data, firstOffset, k);
      expected := k + 1;
    }
  }

  ghost function WithLive(s: Rx, live: seq<byte>): Rx
  {
    s.(log := s.log.(live := live))
  }

  lemma AppendOverflows(kernel: nat -> WriteIo, s: Rx, data: seq<byte>, firstOffset: byte)
    requires |s.log.live| + |data| > BUFFER_LEN
    ensures Appended(kernel, s, data, firstOffset).overflowed
  {
  }

  lemma HeaderIsThere(data: seq<byte>)
    ensures LooksLikeHeader(data) <==> HEADER_SIZE <= |data| && MAGIC <= data
  {
  }

  predicate LooksLikeHeader(data: seq<byte>)
  {
    HEADER_SIZE <= |data| && MAGIC <= data
  }

  ghost function HeaderProgress(s: Sender): Progress
  {
    Progress(1, [0], HEADER_SIZE, false, true, 0)
  }

  lemma HeaderFraming(s: Sender)
    requires Honest(s)
    ensures Framing(s.units, HeaderProgress(s), s.packets[0].data[..HEADER_SIZE], [])
    ensures LooksLikeHeader(s.packets[0].data)
  {
    var d := s.packets[0].data;
    var all := Concat(s.units);
    var ds := Datas(s.packets);
    PacketSlice(s, 0);
    ConcatSlice(s.units, 0);
    assert Offset(s.units, 0) == 0 && Offset(ds, 0) == 0;
    assert d[..HEADER_SIZE] == all[..HEADER_SIZE] == s.units[0];
    assert Pick(s.units, [0]) == [s.units[0]];
    ConcatOne(s.units[0]);
  }

  /** Packet `k` is its slice of the sender's stream. */
  lemma PacketSlice(s: Sender, k: nat)
    requires Honest(s) && k < |s.packets|
    ensures var ds := Datas(s.packets);
            && |s.packets[k].data| <= MAX_DATA
            && Offset(ds, k) + |s.packets[k].data| == Offset(ds, k + 1) <= |Concat(s.units)|
            && Concat(s.units)[Offset(ds, k)..Offset(ds, k + 1)] == s.packets[k].data
            && (k == 0 ==> Offset(ds, k) == 0)
  {
    ConcatSlice(Datas(s.packets), k);
  }

  lemma CutsFit(s: Sender, k: nat)
    requires Honest(s) && k <= |s.packets|
    ensures Offset(Datas(s.packets), k) <= |Concat(s.units)|
  {
    ConcatSplit(Datas(s.packets), k);
  }

  /** `out` is the file header followed by whole messages of the sender, in the sender's order. */
  ghost predicate WellFramed(s: Sender, out: seq<byte>)
  {
    exists kept: seq<nat> ::
      && Increasing(kept, |s.units|) && 0 < |kept| && kept[0] == 0
      && out == Concat(Pick(s.units, kept))
  }

  lemma FramingIsWellFramed(s: Sender, g: Progress, out: seq<byte>, live: seq<byte>)
    requires Framing(s.units, g, out, live) && g.torn == 0
    ensures WellFramed(s, out)
    ensures g.whole ==> out + live == Concat(s.units)[..g.pos]
  {
    assert Increasing(g.kept, |s.units|);
  }

  lemma {:induction false} PickFits(units: seq<seq<byte>>, kept: seq<nat>, bound: nat)
    requires Increasing(kept, bound) && bound <= |units|
    ensures |Concat(Pick(units, kept))| <= Offset(units, bound)
    decreases |kept|
  {
    hide Concat, Offset;
    if kept == [] {
      assert Pick(units, kept) == [];
      ConcatNothing();
    } else {
      var n := |kept| - 1;
      var last := kept[n];
      PickFits(units, kept[..n], last);
      assert Pick(units, kept) == Pick(units, kept[..n]) + [units[last]];
      ConcatAppend(Pick(units, kept[..n]), [units[last]]);
      ConcatOne(units[last]);
      ConcatSlice(units, last);
      OffsetMonotone(units, last + 1, bound);
    }
  }

  /**
   Why the rest of a short write has to fit: when all of the sender's stream has come in and been written,
   a file that holds part of a message twice is too long to be a header and whole messages.
   */
  lemma OversizedBreaksFraming(s: Sender, g: Progress, out: seq<byte>, live: seq<byte>)
    requires Framing(s.units, g, out, live) && g.torn > 0 && g.whole && live == [] && g.pos == |Concat(s.units)|
    ensures !WellFramed(s, out)
  {
    hide Concat;
    forall kept: seq<nat> | Increasing(kept, |s.units|)
      ensures out != Concat(Pick(s.units, kept))
    {
      PickFits(s.units, kept, |s.units|);
      OffsetOfEnd(s.units);
    }
  }

  lemma ReceivedPrefix(s: Sender, n: nat)
    requires Honest(s) && n <= |s.packets|
    ensures Offset(Datas(s.packets), n) <= |Concat(s.units)|
    ensures Concat(s.units)[..Offset(Datas(s.packets), n)] == Concat(Datas(s.packets[..n]))
  {
    ConcatSplit(Datas(s.packets), n);
    assert Datas(s.packets)[..n] == Datas(s.packets[..n]);
  }

  /**
   A whole session: packet 0 and then any arrivals within the sequence window, with any kernel. What the
   file holds, with the pending rest of a short write, is well framed unless some write took so little
   of a message that the rest did not fit. If nothing was missed or overflowed it lacks only the live
   buffer, which holds a complete message only if the kernel's last answer fell short; and once everything
   has come in and been written, it is well framed exactly if every such rest did fit. With a kernel that
   takes all it is given and no message over 1799 bytes none of this goes wrong: a log of which no packet
   was missed is in the end the sender's stream.
   */
  method Session(s: Sender, arrivals: seq<nat>, kernel: nat -> WriteIo)
    returns (out: seq<byte>, live: seq<byte>, ghost end: Rx)
    requires Honest(s) && 0 < |arrivals| && arrivals[0] == 0
    requires forall i :: 0 <= i < |arrivals| ==> arrivals[i] < |s.packets|
    requires AllInWindow(0, arrivals)
    ensures end == Replay(kernel, s.packets, Opened(kernel, 0, s.packets[0]), 1, arrivals[1..])
    ensures out == end.log.file + end.log.rest && live == end.log.live && |live| <= BUFFER_LEN
    ensures !end.oversized ==> WellFramed(s, out)
    ensures end.oversized ==> TornBy(kernel, end.log.asked, s.units)
    ensures end.overflowed ==> TooMuch(kernel, end.log.asked, s.units)
    ensures HasWhole(live) ==> 0 < end.log.asked && !Ample(kernel(end.log.asked - 1))
    ensures Final(0, arrivals) <= |s.packets|
    ensures NoGap(0, arrivals) && !end.overflowed && !end.oversized ==>
              out + live == Concat(Datas(s.packets[..Final(0, arrivals)]))
    ensures NoGap(0, arrivals) && !end.overflowed && live == [] && Final(0, arrivals) == |s.packets| ==>
              (WellFramed(s, out) <==> !end.oversized)
    ensures NoGap(0, arrivals) && (forall n: nat :: Ample(kernel(n))) && !HasLong(s.units) ==>
              && !end.overflowed && !end.oversized && !HasWhole(live)
              && (Final(0, arrivals) == |s.packets| ==> live == [] && out == Concat(s.units))
  {
    hide Framing, Honest, WellFramed, HasLong, TornBy, TooMuch, Ample, HasWhole, Concat, Offset, Replay, Opened;
    var r := Receive(s, arrivals, kernel);
    out := r.file + r.partial[..r.partialLen];
    live := r.buffer[r.bufferIndex..r.bufferIndex + r.bufferLen];
    end := r.State();
    assert out == r.Out() && live == r.Live();
    ReceivedPrefix(s, r.expected);
    if r.expected == |s.packets| {
      AllReceived(s);
    }
    Outcome(s, r.progress, out, live, end, kernel);
  }

  /** Feed the arrivals to a new reassembler. */
  method Receive(s: Sender, arrivals: seq<nat>, kernel: nat -> WriteIo) returns (r: Reassembler)
    requires Honest(s) && 0 < |arrivals| && arrivals[0] == 0
    requires forall i :: 0 <= i < |arrivals| ==> arrivals[i] < |s.packets|
    requires AllInWindow(0, arrivals)
    ensures fresh(r) && r.Valid() && r.sender == s && r.kernel == kernel && !r.waitingHeader
    ensures r.State() == Replay(kernel, s.packets, Opened(kernel, 0, s.packets[0]), 1, arrivals[1..])
    ensures r.expected == Final(0, arrivals)
    ensures NoGap(0, arrivals) && !r.overflowed ==> r.progress.whole
  {
    hide Framing, Honest, HasLong, TornBy, TooMuch, Ample, HasWhole, Concat, Offset, Received, Opened;
    r := new Reassembler(s, kernel);
    r.LoggingDataProcess(s.packets[0], 0, 0);
    assert AllInWindow(1, arrivals[1..]);
    ghost var all := Replay(kernel, s.packets, r.State(), 1, arrivals[1..]);
    for n := 1 to |arrivals|
      invariant fresh(r) && fresh(r.buffer) && fresh(r.partial) && r.sender == s && r.kernel == kernel
      invariant r.Valid() && !r.waitingHeader
      invariant AllInWindow(r.expected, arrivals[n..])
      invariant Final(r.expected, arrivals[n..]) == Final(0, arrivals)
      invariant NoGap(0, arrivals) ==> NoGap(r.expected, arrivals[n..])
      invariant NoGap(0, arrivals) && !r.overflowed ==> r.progress.whole
      invariant Replay(kernel, s.packets, r.State(), r.expected, arrivals[n..]) == all
    {
      hide Reassembler.Valid, InWindow;
      var k := arrivals[n];
      assert arrivals[n..][0] == k && arrivals[n..][1..] == arrivals[n + 1..];
      r.LoggingDataProcess(s.packets[k], Low16(k), k);
    }
    assert arrivals[|arrivals|..] == [];
  }

  lemma AllReceived(s: Sender)
    requires Honest(s)
    ensures Offset(Datas(s.packets), |s.packets|) == |Concat(s.units)|
  {
    OffsetOfEnd(Datas(s.packets));
  }

  /** What the invariant says of the file in the end. */
  lemma Outcome(s: Sender, g: Progress, out: seq<byte>, live: seq<byte>, end: Rx, kernel: nat -> WriteIo)
    requires Framing(s.units, g, out, live) && (end.oversized <==> g.torn > 0)
    requires end.oversized ==> TornBy(kernel, end.log.asked, s.units)
    requires end.overflowed ==> TooMuch(kernel, end.log.asked, s.units)
    requires HasWhole(live) ==> 0 < end.log.asked && !Ample(kernel(end.log.asked - 1))
    ensures !end.oversized ==> WellFramed(s, out)
    ensures g.whole && !end.oversized ==> out + live == Concat(s.units)[..g.pos]
    ensures g.whole && live == [] && g.pos == |Concat(s.units)| ==> (WellFramed(s, out) <==> !end.oversized)
    ensures (forall n: nat :: Ample(kernel(n))) && !HasLong(s.units) ==>
              && !end.overflowed && !end.oversized && !HasWhole(live)
              && (g.whole && g.pos == |Concat(s.units)| ==> live == [] && out == Concat(s.units))
  {
    hide WellFramed, Concat, HasWhole, HasLong, TornBy, TooMuch, Ample, Recorded, Aligned, IsUnits, Offset;
    if !end.oversized {
      FramingIsWellFramed(s, g, out, live);
    } else if g.whole && live == [] && g.pos == |Concat(s.units)| {
      OversizedBreaksFraming(s, g, out, live);
    }
    if (forall n: nat :: Ample(kernel(n))) && !HasLong(s.units) {
      AmpleIsEnough(kernel, end.log.asked, s.units);
      if g.whole && g.pos == |Concat(s.units)| {
        NothingLeft(s, g, out, live);
      }
    }
  }
}

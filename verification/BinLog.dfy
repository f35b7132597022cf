/**
 The ArduPilot block log: fixed-size blocks arrive in any order and are written at their own offset;
 a block is acknowledged once it was written in full.
 */
module BinLog {
  import opened Bytes

  const BLOCK := 200

  type u32 = n: nat | n < 0x1_0000_0000

  function Low32(n: nat): u32
  {
    n % 0x1_0000_0000
  }

  /** The seek offset is computed in 32 bits. */
  function SeekOffset(seqno: u32): nat
  {
    Low32(seqno * BLOCK)
  }

  /** Block offsets are right exactly for the first 21474837 blocks. */
  lemma SeekOffsetExact(seqno: u32)
    ensures SeekOffset(seqno) == seqno * BLOCK <==> seqno <= 21474836
  {
  }

  /** The first block past that lands in the middle of block 0. */
  lemma SeekOffsetWraps()
    ensures SeekOffset(21474837) == 104
  {
  }

  /** What `write` at an offset does to a file; a hole reads as zeros, an empty write does nothing. */
  function WriteAt(file: seq<byte>, off: nat, data: seq<byte>): (r: seq<byte>)
  {
    if data == [] then file
    else
      var n := if off + |data| > |file| then off + |data| else |file|;
      seq(n, i requires 0 <= i < n => Written(file, off, data, i))
  }

  function Written(file: seq<byte>, off: nat, data: seq<byte>, i: nat): byte
  {
    if off <= i < off + |data| then data[i - off] else if i < |file| then file[i] else 0
  }

  // ----- The reference: the file as a function of how much of each block was stored

  type Source = nat -> seq<byte>

  ghost predicate IsSource(source: Source)
  {
    forall s :: |source(s)| == BLOCK
  }

  function ByteAt(source: Source, stored: map<nat, nat>, i: nat): byte
  {
    var s, j := i / BLOCK, i % BLOCK;
    if s in stored && j < stored[s] && j < |source(s)| then source(s)[j] else 0
  }

  /** `stored[s]` is the longest prefix of block `s` ever written. */
  ghost predicate Stores(file: seq<byte>, source: Source, stored: map<nat, nat>)
  {
    && (forall s :: s in stored ==> 0 < stored[s] <= BLOCK && s * BLOCK + stored[s] <= |file|)
    && (|file| > 0 ==> exists s :: s in stored && |file| == s * BLOCK + stored[s])
    && (forall i :: 0 <= i < |file| ==> file[i] == ByteAt(source, stored, i))
  }

  /** Confluence: the file depends only on what was stored, not on the order or repetition. */
  lemma Confluent(f: seq<byte>, g: seq<byte>, source: Source, stored: map<nat, nat>)
    requires Stores(f, source, stored) && Stores(g, source, stored)
    ensures f == g
  {
  }

  function Longer(stored: map<nat, nat>, s: nat, n: nat): map<nat, nat>
  {
    if s in stored && stored[s] >= n then stored else stored[s := n]
  }

  /** Behind the end of the file nothing is stored. */
  lemma StoredBytes(file: seq<byte>, source: Source, stored: map<nat, nat>, i: nat)
    requires Stores(file, source, stored)
    ensures ByteAt(source, stored, i) == if i < |file| then file[i] else 0
  {
  }

  lemma InBlock(s: nat, i: nat)
    ensures i / BLOCK == s <==> s * BLOCK <= i < s * BLOCK + BLOCK
    ensures i / BLOCK == s ==> i % BLOCK == i - s * BLOCK
  {
  }

  lemma WrittenByte(file: seq<byte>, off: nat, data: seq<byte>, i: nat)
    requires i < |WriteAt(file, off, data)|
    ensures WriteAt(file, off, data)[i] == Written(file, off, data, i)
  {
  }

  lemma StoreKeepsBytes(file: seq<byte>, source: Source, stored: map<nat, nat>, s: nat, n: nat, i: nat)
    requires IsSource(source) && Stores(file, source, stored) && 0 < n <= BLOCK
    requires i < |WriteAt(file, s * BLOCK, source(s)[..n])|
    ensures WriteAt(file, s * BLOCK, source(s)[..n])[i] == ByteAt(source, Longer(stored, s, n), i)
  {
    hide Stores, WriteAt;
    InBlock(s, i);
    WrittenByte(file, s * BLOCK, source(s)[..n], i);
    StoredBytes(file, source, stored, i);
  }

  /** Writing any prefix of a block at its offset keeps the file described by what was stored. */
  lemma StoreOne(file: seq<byte>, source: Source, stored: map<nat, nat>, s: nat, n: nat)
    requires IsSource(source) && Stores(file, source, stored) && 0 < n <= BLOCK
    ensures Stores(WriteAt(file, s * BLOCK, source(s)[..n]), source, Longer(stored, s, n))
  {
    var file' := WriteAt(file, s * BLOCK, source(s)[..n]);
    var stored' := Longer(stored, s, n);
    forall i | 0 <= i < |file'|
      ensures file'[i] == ByteAt(source, stored', i)
    {
      StoreKeepsBytes(file, source, stored, s, n, i);
    }
    if |file'| == |file| {
      var t :| t in stored && |file| == t * BLOCK + stored[t];
      if t == s {
        assert stored'[s] == stored[s];
      }
      assert t in stored' && |file'| == t * BLOCK + stored'[t];
    } else {
      assert s in stored' && |file'| == s * BLOCK + stored'[s];
    }
  }

  /** A block stored in full is in the file, whole and at its offset. */
  lemma FullBlock(file: seq<byte>, source: Source, stored: map<nat, nat>, s: nat)
    requires IsSource(source) && Stores(file, source, stored) && s in stored && stored[s] == BLOCK
    ensures (s + 1) * BLOCK <= |file| && file[s * BLOCK..(s + 1) * BLOCK] == source(s)
  {
    var off := s * BLOCK;
    forall j | 0 <= j < BLOCK
      ensures file[off + j] == source(s)[j]
    {
      assert (off + j) / BLOCK == s && (off + j) % BLOCK == j;
    }
  }

  // ----- Acknowledgements

  datatype Status = Ack(seqno: u32) | Nack(seqno: u32)

  function Nacks(seqno: u32, count: nat): (r: seq<Status>)
    ensures |r| == count && forall i :: 0 <= i < count ==> r[i] == Nack(seqno)
  {
    seq(count, _ => Nack(seqno))
  }

  /** The numbers between the last acknowledged one and the new one. */
  function Missing(last: u32, seqno: u32): (r: seq<Status>)
    requires last < seqno
    ensures |r| == seqno - last - 1
  {
    seq(seqno - last - 1, i requires 0 <= i < seqno - last - 1 => Nack(last + 1 + i))
  }

  /** One NACK goes out per missing number, but with the new number in it: right only if none is missing. */
  lemma NacksNameTheWrongBlock(last: u32, seqno: u32)
    requires last < seqno
    ensures Nacks(seqno, seqno - last - 1) == Missing(last, seqno) <==> seqno == last + 1
  {
    if seqno > last + 1 {
      assert Missing(last, seqno)[0] == Nack(last + 1);
    }
  }

  datatype WriteIo = Wrote(n: nat) | Again | Failed

  class BlockLog {
    var file: seq<byte>
    var lastAcked: u32
    /** The status messages sent back. */
    var sent: seq<Status>

    ghost const source: Source
    ghost var stored: map<nat, nat>
    ghost var acked: set<nat>
    /** A block number too large for the 32-bit offset came in. */
    ghost var wrapped: bool

    ghost predicate Valid()
      reads this
    {
      && IsSource(source)
      && (!wrapped ==> Stores(file, source, stored))
      && (forall s :: s in stored ==> stored[s] <= BLOCK)
      && (forall s :: s in acked ==> s in stored && stored[s] == BLOCK)
      && (forall s :: s in acked ==> s <= lastAcked)
      && (acked != {} ==> lastAcked in acked)
      && (acked == {} ==> lastAcked == 0)
    }

    constructor (ghost source: Source)
      requires IsSource(source)
      ensures Valid() && file == [] && sent == [] && acked == {} && !wrapped
    {
      this.source := source;
      file, lastAcked, sent := [], 0, [];
      stored, acked, wrapped := map[], {}, false;
    }

    /** BinLog::start on a fresh file. */
    method Restart()
      requires Valid()
      modifies this
      ensures Valid() && file == [] && acked == {} && lastAcked == 0 && sent == old(sent) && !wrapped
    {
      file, lastAcked := [], 0;
      stored, acked, wrapped := map[], {}, false;
    }

    /** BinLog::_send_ack */
    method SendAck(seqno: u32)
      requires Valid() && seqno in stored && stored[seqno] == BLOCK
      modifies this`lastAcked, this`sent, this`acked
      ensures Valid() && acked == old(acked) + {seqno}
      ensures seqno < old(lastAcked) ==> sent == old(sent) + [Ack(seqno)] && lastAcked == old(lastAcked)
      ensures seqno >= old(lastAcked) ==>
                && lastAcked == seqno
                && var first := Low32(old(lastAcked) + 1);
                   sent == old(sent) + Nacks(seqno, if first < seqno then seqno - first else 0) + [Ack(seqno)]
      ensures old(sent) <= sent && Ack(seqno) in sent[|old(sent)|..]
    {
      acked := acked + {seqno};
      if seqno < lastAcked {
        sent := sent + [Ack(seqno)];
        assert sent[|old(sent)|..] == [Ack(seqno)];
        return;
      }
      var first := Low32(lastAcked + 1);
      var i := first;
      while i < seqno
        invariant first <= i && (i <= seqno || i == first)
        invariant sent == old(sent) + Nacks(seqno, i - first)
        decreases seqno - i
        modifies this`sent
      {
        sent := sent + [Nack(seqno)];
        i := i + 1;
      }
      sent := sent + [Ack(seqno)];
      assert sent[|old(sent)|..][|sent| - |old(sent)| - 1] == Ack(seqno);
      lastAcked := seqno;
    }

    /** Account for a write of the first `n` bytes of block `seqno`. */
    ghost method Account(seqno: u32, before: seq<byte>, n: nat)
      requires n <= BLOCK && IsSource(source)
      requires !wrapped ==> Stores(before, source, stored)
      requires forall s :: s in stored ==> stored[s] <= BLOCK
      requires file == WriteAt(before, SeekOffset(seqno), source(seqno)[..n])
      modifies this`stored, this`wrapped
      ensures !wrapped ==> Stores(file, source, stored)
      ensures stored == if n > 0 then Longer(old(stored), seqno, n) else old(stored)
      ensures wrapped <==> old(wrapped) || seqno > 21474836
    {
      hide Stores;
      SeekOffsetExact(seqno);
      if seqno > 21474836 {
        wrapped := true;
      }
      if n > 0 {
        if !wrapped {
          StoreOne(before, source, stored, seqno, n);
        }
        stored := Longer(stored, seqno, n);
      }
    }

    /**
     BinLog::_logging_data_process, given what lseek and write answered. A block is acknowledged exactly
     after a full write; an error starts a new file, and whatever part was written is in the file.
     */
    method LoggingDataProcess(seqno: u32, data: seq<byte>, seekOk: bool, io: WriteIo)
      requires Valid() && data == source(seqno) && (io.Wrote? ==> io.n <= |data|)
      modifies this
      ensures Valid() && old(sent) <= sent
      ensures !seekOk || io.Failed? ==> file == [] && acked == {} && sent == old(sent) && !wrapped
      ensures seekOk && io.Again? ==> file == old(file) && acked == old(acked) && sent == old(sent)
      ensures seekOk && io.Wrote? ==>
                && file == WriteAt(old(file), SeekOffset(seqno), data[..io.n])
                && stored == (if io.n > 0 then Longer(old(stored), seqno, io.n) else old(stored))
                && acked == old(acked) + (if io.n == BLOCK then {seqno} else {})
                && (io.n < BLOCK ==> sent == old(sent))
                && (io.n == BLOCK ==> Ack(seqno) in sent[|old(sent)|..])
                && (wrapped <==> old(wrapped) || seqno > 21474836)
    {
      hide Stores, WriteAt, SeekOffset;
      if !seekOk {
        Restart();
        return;
      }
      if io.Wrote? {
        file := WriteAt(file, SeekOffset(seqno), data[..io.n]);
        Account(seqno, old(file), io.n);
      }
      if io.Failed? {
        Restart();
        return;
      }
      if io != Wrote(BLOCK) {
        return;
      }
      SendAck(seqno);
    }

    /** What an acknowledgement means: the block is in the file, whole and at its place. */
    lemma AckedIsStored(s: nat)
      requires Valid() && !wrapped && s in acked
      ensures (s + 1) * BLOCK <= |file| && file[s * BLOCK..(s + 1) * BLOCK] == source(s)
      ensures s <= lastAcked && lastAcked in acked
    {
      FullBlock(file, source, stored, s);
    }
  }

  /** Two sessions that stored the same parts of the same blocks, in whatever order, have equal files. */
  lemma SameStoredSameFile(a: BlockLog, b: BlockLog)
    requires a.Valid() && b.Valid() && !a.wrapped && !b.wrapped
    requires a.source == b.source && a.stored == b.stored
    ensures a.file == b.file
  {
    hide Stores;
    Confluent(a.file, b.file, a.source, a.stored);
  }
}

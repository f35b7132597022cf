/**
 Endpoint::read_msg and Endpoint::handle_read: a fixed receive buffer that is filled by reads of
 arbitrary size and cut into MAVLink frames, with resynchronisation on the magic bytes.
 */
module Framer {
  import opened Bytes
  import opened Wire

  const RX_BUF_MAX_SIZE := 4 * MAX_PACKET_LEN

  /** Unsigned counters of 32 and 64 bits. */
  function Wrap32(n: nat): nat { n % 0x1_0000_0000 }

  function Wrap64(n: nat): nat { n % 0x1_0000_0000_0000_0000 }

  lemma Wrap32Add(a: nat, b: nat)
    ensures Wrap32(Wrap32(a) + b) == Wrap32(a + b)
  {
    assert a + b == Wrap32(a) + b + 0x1_0000_0000 * (a / 0x1_0000_0000);
  }

  lemma Wrap64Add(a: nat, b: nat)
    ensures Wrap64(Wrap64(a) + b) == Wrap64(a + b)
  {
    assert a + b == Wrap64(a) + b + 0x1_0000_0000_0000_0000 * (a / 0x1_0000_0000_0000_0000);
  }

  // ----- Read statistics

  datatype ReadStat = ReadStat(total: nat, handled: nat, crcErrors: nat, dropSeqTotal: nat,
                               handledBytes: nat, crcErrorBytes: nat, expectedSeq: byte)

  const NO_READS := ReadStat(0, 0, 0, 0, 0, 0, 0)

  /** How many sequence numbers the code takes to be missing; an 8-bit result. */
  function Lost(expected: byte, got: byte): byte
    requires expected != got
  {
    if got > expected then got - expected else 255 - expected + got
  }

  /** The statistics as a fold over what the stream held, one frame at a time. */
  function Tally(d: Dialect, st: ReadStat, i: Item): ReadStat
  {
    if i.Skipped? || !IsFrame(i.bytes) then st
    else
      var f := i.bytes;
      var counted := Wrap32(st.total + 1);
      if !Acceptable(d, f) then
        st.(total := counted, crcErrors := Wrap32(st.crcErrors + 1),
            crcErrorBytes := Wrap64(st.crcErrorBytes + |f|))
      else
        var (total, drops) :=
          if st.expectedSeq != SeqNo(f) && counted > 1 then
            var lost := Lost(st.expectedSeq, SeqNo(f));
            (Wrap32(counted + lost), Wrap32(st.dropSeqTotal + lost))
          else (counted, st.dropSeqTotal);
        ReadStat(total, Wrap32(st.handled + 1), st.crcErrors, drops,
                 Wrap64(st.handledBytes + |f|), st.crcErrorBytes, (SeqNo(f) + 1) % 256)
  }

  function TallyAll(d: Dialect, items: seq<Item>): ReadStat
  {
    if items == [] then NO_READS
    else Tally(d, TallyAll(d, items[..|items| - 1]), items[|items| - 1])
  }

  lemma TallyOne(d: Dialect, items: seq<Item>, i: Item)
    ensures TallyAll(d, items + [i]) == Tally(d, TallyAll(d, items), i)
  {
    assert (items + [i])[..|items|] == items;
  }

  lemma {:induction false} TallySkips(d: Dialect, items: seq<Item>, s: seq<byte>)
    ensures TallyAll(d, items + Skips(s)) == TallyAll(d, items)
  {
    if s == [] {
      assert items + Skips(s) == items;
    } else {
      var m := |s| - 1;
      TallySkips(d, items, s[..m]);
      assert items + Skips(s) == (items + Skips(s[..m])) + [Skipped(s[m])];
      TallyOne(d, items + Skips(s[..m]), Skipped(s[m]));
    }
  }

  function SkippedCount(items: seq<Item>): nat
  {
    if items == [] then 0
    else (if items[|items| - 1].Skipped? then 1 else 0) + SkippedCount(items[..|items| - 1])
  }

  lemma TallyKeepsTotal(d: Dialect, st: ReadStat, i: Item)
    requires st.total == Wrap32(st.handled + st.crcErrors + st.dropSeqTotal)
    ensures var st' := Tally(d, st, i);
            st'.total == Wrap32(st'.handled + st'.crcErrors + st'.dropSeqTotal)
  {
    hide Wrap32, Acceptable, SeqNo, Lost;
    if i.Frame? && IsFrame(i.bytes) {
      var h, c, dr := st.handled, st.crcErrors, st.dropSeqTotal;
      Wrap32Add(h + c + dr, 1);
      if !Acceptable(d, i.bytes) {
        Wrap32Add(c + 1, h + dr);
      } else {
        if st.expectedSeq != SeqNo(i.bytes) && Wrap32(st.total + 1) > 1 {
          var x: nat := Lost(st.expectedSeq, SeqNo(i.bytes));
          Wrap32Add(h + c + dr + 1, x);
          Wrap32Add(h + 1, c + Wrap32(dr + x));
          Wrap32Add(dr + x, h + 1 + c);
        } else {
          Wrap32Add(h + 1, c + dr);
        }
      }
    }
  }

  /** total is always handled + CRC errors + sequence losses, modulo the counters' width. */
  lemma {:induction false} TotalsBalance(d: Dialect, items: seq<Item>)
    ensures var st := TallyAll(d, items);
            st.total == Wrap32(st.handled + st.crcErrors + st.dropSeqTotal)
  {
    if items != [] {
      TotalsBalance(d, items[..|items| - 1]);
      TallyKeepsTotal(d, TallyAll(d, items[..|items| - 1]), items[|items| - 1]);
    }
  }

  lemma TallyKeepsBytes(d: Dialect, st: ReadStat, i: Item, taken: nat, skipped: nat)
    requires IsItem(i)
    requires Wrap64(taken) == Wrap64(st.handledBytes + st.crcErrorBytes + skipped)
    ensures var st' := Tally(d, st, i);
            Wrap64(taken + |ItemBytes(i)|)
            == Wrap64(st'.handledBytes + st'.crcErrorBytes + skipped + if i.Skipped? then 1 else 0)
  {
    hide Wrap64, Acceptable, SeqNo, Lost;
    var h, c, n := st.handledBytes, st.crcErrorBytes, |ItemBytes(i)|;
    Wrap64Add(taken, n);
    Wrap64Add(h + c + skipped, n);
    Wrap64Add(h + n, c + skipped);
    Wrap64Add(c + n, h + skipped);
  }

  /** Every byte taken off the stream is handled, rejected or skipped. */
  lemma {:induction false} BytesBalance(d: Dialect, items: seq<Item>)
    requires forall i :: i in items ==> IsItem(i)
    ensures var st := TallyAll(d, items);
            Wrap64(|Flatten(items)|)
            == Wrap64(st.handledBytes + st.crcErrorBytes + SkippedCount(items))
  {
    hide Tally, Wrap64, IsItem;
    if items != [] {
      var m := |items| - 1;
      BytesBalance(d, items[..m]);
      assert items == items[..m] + [items[m]];
      FlattenAppend(items[..m], [items[m]]);
      FlattenOne(items[m]);
      TallyKeepsBytes(d, TallyAll(d, items[..m]), items[m], |Flatten(items[..m])|, SkippedCount(items[..m]));
    }
  }

  lemma DeliveredOne(d: Dialect, items: seq<Item>, i: Item)
    requires IsItem(i)
    ensures Delivered(d, items + [i])
            == Delivered(d, items) + if i.Frame? && Acceptable(d, i.bytes) then [i.bytes] else []
  {
    DeliveredAppend(d, items, [i]);
    assert [i][1..] == [];
  }

  /** handled counts the delivered frames. */
  lemma {:induction false} HandledCountsDelivered(d: Dialect, items: seq<Item>)
    requires forall i :: i in items ==> IsItem(i)
    ensures TallyAll(d, items).handled == Wrap32(|Delivered(d, items)|)
  {
    hide Wrap64, Acceptable, Lost, Delivered;
    if items == [] {
      assert Delivered(d, items) == [] by { NoiseDeliversNothing(d, []); assert items == Skips([]); }
    } else {
      var m := |items| - 1;
      HandledCountsDelivered(d, items[..m]);
      assert items == items[..m] + [items[m]];
      DeliveredOne(d, items[..m], items[m]);
      Wrap32Add(|Delivered(d, items[..m])|, 1);
    }
  }

  /**
   The loss count is the distance between the sequence numbers exactly when the counter did not wrap
   between them; across a wrap it is one short.
   */
  lemma LostIsDistance(expected: byte, got: byte)
    requires expected != got
    ensures var distance := (got - expected) % 256;
            && (Lost(expected, got) == distance <==> got > expected)
            && (got < expected ==> Lost(expected, got) == distance - 1)
  {
    if got < expected {
      assert (got - expected) % 256 == 256 + got - expected;
    }
  }

  // ----- What the counters count

  /** A frame with a wrong checksum. */
  predicate IsBad(d: Dialect, i: Item)
  {
    i.Frame? && IsFrame(i.bytes) && !Acceptable(d, i.bytes)
  }

  /** A frame that is delivered. */
  predicate IsGood(d: Dialect, i: Item)
  {
    i.Frame? && IsFrame(i.bytes) && Acceptable(d, i.bytes)
  }

  /** The sequence numbers of the delivered frames. */
  function Numbers(d: Dialect, items: seq<Item>): (r: seq<byte>)
  {
    if items == [] then []
    else
      var m := |items| - 1;
      Numbers(d, items[..m]) + if IsGood(d, items[m]) then [SeqNo(items[m].bytes)] else []
  }

  /** How many frames there are, with a wrong checksum or not. */
  function FrameCount(items: seq<Item>): nat
  {
    if items == [] then 0
    else
      var m := |items| - 1;
      FrameCount(items[..m]) + if items[m].Frame? && IsFrame(items[m].bytes) then 1 else 0
  }

  function Rejected(d: Dialect, items: seq<Item>): (r: seq<seq<byte>>)
  {
    if items == [] then []
    else
      var m := |items| - 1;
      Rejected(d, items[..m]) + if IsBad(d, items[m]) then [items[m].bytes] else []
  }

  function TotalLen(frames: seq<seq<byte>>): nat
  {
    if frames == [] then 0 else TotalLen(frames[..|frames| - 1]) + |frames[|frames| - 1]|
  }

  /** The numbers taken to be missing between two delivered frames. */
  function Between(a: byte, b: byte): nat
  {
    if b == (a + 1) % 256 then 0 else Lost((a + 1) % 256, b)
  }

  /** The numbers taken to be missing: between neighbours, and before the first unless nothing came before it. */
  function Missing(numbers: seq<byte>, first: bool): nat
  {
    if numbers == [] then 0
    else if |numbers| == 1 then (if first || numbers[0] == 0 then 0 else Lost(0, numbers[0]))
    else Missing(numbers[..|numbers| - 1], first) + Between(numbers[|numbers| - 2], numbers[|numbers| - 1])
  }

  /** The first frame of all is a good one. */
  predicate StartsGood(d: Dialect, items: seq<Item>)
  {
    items != []
    && var m := |items| - 1;
       StartsGood(d, items[..m]) || (FrameCount(items[..m]) == 0 && IsGood(d, items[m]))
  }

  /** All that is missing. */
  function AllMissing(d: Dialect, items: seq<Item>): nat
  {
    Missing(Numbers(d, items), StartsGood(d, items))
  }

  /**
   What the code does not count of that: the total, with this frame, has just passed a multiple of 2^32 and so
   looks like that of a first frame.
   */
  function Uncounted(d: Dialect, items: seq<Item>): nat
  {
    if items == [] then 0
    else
      var m := |items| - 1;
      var before := items[..m];
      var here := AllMissing(d, items) - AllMissing(d, before);
      Uncounted(d, before)
      + if here > 0 && (FrameCount(items) + AllMissing(d, before) - Uncounted(d, before)) % 0x1_0000_0000 <= 1
        then here else 0
  }

  /** The numbers of the delivered frames, one by one. */
  lemma {:induction false} NumbersOfDelivered(d: Dialect, items: seq<Item>)
    requires forall i :: i in items ==> IsItem(i)
    ensures var frames, numbers := Delivered(d, items), Numbers(d, items);
            |numbers| == |frames|
            && forall i :: 0 <= i < |frames| ==> IsFrame(frames[i]) && numbers[i] == SeqNo(frames[i])
  {
    hide Delivered, Acceptable;
    if items == [] {
      assert Delivered(d, items) == [] by { NoiseDeliversNothing(d, []); assert items == Skips([]); }
    } else {
      var m := |items| - 1;
      NumbersOfDelivered(d, items[..m]);
      assert items == items[..m] + [items[m]];
      DeliveredOne(d, items[..m], items[m]);
    }
  }

  /** Each counter but the losses: the frames and bytes delivered and rejected, and the number expected next. */
  lemma {:induction false} StatsAreCounts(d: Dialect, items: seq<Item>)
    ensures var st, numbers := TallyAll(d, items), Numbers(d, items);
            && st.crcErrors == Wrap32(|Rejected(d, items)|)
            && st.crcErrorBytes == Wrap64(TotalLen(Rejected(d, items)))
            && st.handled == Wrap32(|numbers|)
            && st.expectedSeq == (if numbers == [] then 0 else (numbers[|numbers| - 1] as int + 1) % 256)
            && FrameCount(items) == |numbers| + |Rejected(d, items)|
  {
    hide Acceptable, Lost, Wrap32, Wrap64, IsFrame;
    if items == [] {
      assert Wrap32(0) == 0 && Wrap64(0) == 0 by { ZeroWraps(); }
    } else {
      var m := |items| - 1;
      var bad := Rejected(d, items[..m]);
      StatsAreCounts(d, items[..m]);
      Wrap32Add(|bad|, 1);
      Wrap32Add(|Numbers(d, items[..m])|, 1);
      if IsBad(d, items[m]) {
        assert (bad + [items[m].bytes])[..|bad|] == bad;
        Wrap64Add(TotalLen(bad), |items[m].bytes|);
      } else {
        assert bad + [] == bad;
      }
    }
  }

  lemma ZeroWraps()
    ensures Wrap32(0) == 0 && Wrap64(0) == 0
  {
  }

  /** One more frame misses what lies between it and the one before. */
  lemma MissingMore(d: Dialect, items: seq<Item>, i: Item)
    ensures var numbers := Numbers(d, items);
            AllMissing(d, items + [i]) == AllMissing(d, items)
              + if !IsGood(d, i) then 0
                else if numbers != [] then Between(numbers[|numbers| - 1], SeqNo(i.bytes))
                else if FrameCount(items) == 0 || SeqNo(i.bytes) == 0 then 0
                else Lost(0, SeqNo(i.bytes))
  {
    hide IsFrame, Acceptable, Lost, Between, Missing, FrameCount, StartsGood, Numbers, IsGood;
    NumbersMore(d, items, i);
    GoodIsCounted(d, items);
    var numbers := Numbers(d, items);
    if IsGood(d, i) {
      MissingOne(numbers, StartsGood(d, items + [i]), Numbers(d, items + [i])[|numbers|]);
    }
    assert numbers + [] == numbers;
    NoneMissing([], true);
    NoneMissing([], StartsGood(d, items));
  }

  lemma NumbersMore(d: Dialect, items: seq<Item>, i: Item)
    ensures Numbers(d, items + [i]) == Numbers(d, items) + if IsGood(d, i) then [SeqNo(i.bytes)] else []
    ensures StartsGood(d, items + [i]) <==> StartsGood(d, items) || (FrameCount(items) == 0 && IsGood(d, i))
  {
    assert (items + [i])[..|items|] == items;
  }

  lemma MissingOne(numbers: seq<byte>, first: bool, x: byte)
    ensures Missing(numbers + [x], first)
            == if numbers != [] then Missing(numbers, first) + Between(numbers[|numbers| - 1], x)
               else if first || x == 0 then 0 else Lost(0, x)
  {
    assert (numbers + [x])[..|numbers|] == numbers;
  }

  lemma {:induction false} GoodIsCounted(d: Dialect, items: seq<Item>)
    ensures |Numbers(d, items)| <= FrameCount(items)
    ensures StartsGood(d, items) ==> Numbers(d, items) != []
  {
    if items != [] {
      GoodIsCounted(d, items[..|items| - 1]);
    }
  }

  /**
   The loss counter is what is missing between the delivered frames, modulo 2^32, less what a passing of the
   total through a multiple of 2^32 hides.
   */
  lemma {:induction false} LossesAreGaps(d: Dialect, items: seq<Item>)
    ensures Uncounted(d, items) <= AllMissing(d, items)
    ensures var st := TallyAll(d, items);
            && st.dropSeqTotal == Wrap32(AllMissing(d, items) - Uncounted(d, items))
            && st.total == Wrap32(FrameCount(items) + AllMissing(d, items) - Uncounted(d, items))
  {
    hide IsFrame, Acceptable, Lost, AllMissing, Between, Numbers, FrameCount, Uncounted, Wrap32, TallyAll;
    if items == [] {
      NothingMissing(d);
    } else {
      var m := |items| - 1;
      LossesAreGaps(d, items[..m]);
      assert items == items[..m] + [items[m]];
      LossStep(d, items[..m], items[m]);
    }
  }

  lemma NothingMissing(d: Dialect)
    ensures AllMissing(d, []) == 0 && Uncounted(d, []) == 0 && FrameCount([]) == 0
    ensures TallyAll(d, []) == NO_READS && Wrap32(0) == 0
  {
  }

  lemma LossStep(d: Dialect, items: seq<Item>, i: Item)
    requires Uncounted(d, items) <= AllMissing(d, items)
    requires var st, gaps := TallyAll(d, items), AllMissing(d, items) - Uncounted(d, items);
             st.dropSeqTotal == Wrap32(gaps) && st.total == Wrap32(FrameCount(items) + gaps)
    ensures Uncounted(d, items + [i]) <= AllMissing(d, items + [i])
    ensures var st, gaps := TallyAll(d, items + [i]), AllMissing(d, items + [i]) - Uncounted(d, items + [i]);
            st.dropSeqTotal == Wrap32(gaps) && st.total == Wrap32(FrameCount(items + [i]) + gaps)
  {
    hide IsFrame, Acceptable, Lost, AllMissing, Wrap32, TallyAll;
    var st, gaps := TallyAll(d, items), AllMissing(d, items) - Uncounted(d, items);
    var here := AllMissing(d, items + [i]) - AllMissing(d, items);
    assert (items + [i])[..|items|] == items;
    TallyOne(d, items, i);
    MissingMore(d, items, i);
    StatsAreCounts(d, items);
    Wrap32Add(FrameCount(items) + gaps, 1);
    Wrap32Add(gaps, here);
    Wrap32Add(FrameCount(items) + gaps + 1, here);
    WrapIsMod(FrameCount(items) + gaps + 1);
    FirstTotal(d, items, gaps);
  }

  /** So the losses are counted right, modulo 2^32, exactly if the hidden ones amount to a multiple of 2^32. */
  lemma LossesAreExactIff(d: Dialect, items: seq<Item>)
    ensures TallyAll(d, items).dropSeqTotal == Wrap32(AllMissing(d, items))
            <==> Uncounted(d, items) % 0x1_0000_0000 == 0
    ensures FrameCount(items) + AllMissing(d, items) < 0x1_0000_0000 ==>
              Uncounted(d, items) == 0 && TallyAll(d, items).dropSeqTotal == AllMissing(d, items)
  {
    hide TallyAll, AllMissing, Uncounted, FrameCount;
    LossesAreGaps(d, items);
    var a, u := AllMissing(d, items), Uncounted(d, items);
    SameWrapIff(a - u, u);
    if FrameCount(items) + a < 0x1_0000_0000 {
      NothingHidden(d, items);
    }
  }

  lemma SameWrapIff(a: nat, u: nat)
    ensures Wrap32(a) == Wrap32(a + u) <==> u % 0x1_0000_0000 == 0
  {
    Wrap32Add(u, a);
    var q := (a + u) / 0x1_0000_0000 - a / 0x1_0000_0000;
    assert u - q * 0x1_0000_0000 == Wrap32(a + u) - Wrap32(a);
  }

  /** Before the total has reached 2^32 nothing is hidden. */
  lemma {:induction false} NothingHidden(d: Dialect, items: seq<Item>)
    requires FrameCount(items) + AllMissing(d, items) < 0x1_0000_0000
    ensures Uncounted(d, items) == 0
  {
    hide AllMissing, Numbers, IsFrame, Acceptable;
    if items != [] {
      var m := |items| - 1;
      assert items == items[..m] + [items[m]];
      MissingMore(d, items[..m], items[m]);
      GoodIsCounted(d, items[..m]);
      NothingHidden(d, items[..m]);
    }
  }

  /** Frames whose numbers follow one another lose nothing, however many there are. */
  lemma SuccessiveLoseNothing(d: Dialect, items: seq<Item>)
    requires var numbers := Numbers(d, items);
             && (forall i :: 0 < i < |numbers| ==> numbers[i] == (numbers[i - 1] as int + 1) % 256)
             && (numbers == [] || numbers[0] == 0 || StartsGood(d, items))
    ensures TallyAll(d, items).dropSeqTotal == 0 && TallyAll(d, items).total == Wrap32(FrameCount(items))
  {
    hide TallyAll, Uncounted, FrameCount, Numbers, StartsGood;
    NoneMissing(Numbers(d, items), StartsGood(d, items));
    LossesAreGaps(d, items);
    ZeroWraps();
  }

  lemma {:induction false} NoneMissing(numbers: seq<byte>, first: bool)
    requires forall i :: 0 < i < |numbers| ==> numbers[i] == (numbers[i - 1] as int + 1) % 256
    requires numbers == [] || numbers[0] == 0 || first
    ensures Missing(numbers, first) == 0
  {
    if |numbers| > 1 {
      NoneMissing(numbers[..|numbers| - 1], first);
    }
  }

  /** Where a loss is hidden: with 2^32 - 1 frames on record, a frame whose number is not the expected one. */
  lemma LossIsHidden(d: Dialect, st: ReadStat, f: seq<byte>)
    requires IsFrame(f) && Acceptable(d, f) && st.total == 0xFFFF_FFFF && st.expectedSeq != SeqNo(f)
    ensures Tally(d, st, Frame(f)).dropSeqTotal == st.dropSeqTotal
  {
  }

  lemma WrapIsMod(n: nat)
    ensures Wrap32(n) == n % 0x1_0000_0000
  {
  }

  /** The total is 1 for the first frame of all. */
  lemma FirstTotal(d: Dialect, items: seq<Item>, gaps: nat)
    requires gaps <= AllMissing(d, items)
    ensures FrameCount(items) == 0 ==> Numbers(d, items) == [] && Wrap32(FrameCount(items) + gaps + 1) == 1
  {
    GoodIsCounted(d, items);
  }

  // ----- What one readable event takes

  /** The items up to and including the first frame with a wrong checksum. */
  function UpToBad(d: Dialect, items: seq<Item>): (r: seq<Item>)
    ensures r <= items
  {
    if items == [] then []
    else if IsBad(d, items[0]) then [items[0]]
    else [items[0]] + UpToBad(d, items[1..])
  }

  /** No acceptable frame follows the first one with a wrong checksum. */
  predicate NothingBehind(d: Dialect, items: seq<Item>)
  {
    Delivered(d, items[|UpToBad(d, items)|..]) == []
  }

  lemma {:induction false} NoneIsBad(d: Dialect, items: seq<Item>)
    requires forall i :: i in items ==> !IsBad(d, i)
    ensures UpToBad(d, items) == items
  {
    if items != [] {
      NoneIsBad(d, items[1..]);
    }
  }

  lemma {:induction false} LastIsBad(d: Dialect, done: seq<Item>, behind: seq<Item>)
    requires done != [] && IsBad(d, done[|done| - 1])
    requires forall i :: 0 <= i < |done| - 1 ==> !IsBad(d, done[i])
    ensures UpToBad(d, done + behind) == done
  {
    assert (done + behind)[1..] == done[1..] + behind;
    if |done| > 1 {
      LastIsBad(d, done[1..], behind);
    }
  }

  /** Taking `done` off what was found, stopped by a bad frame or with nothing left, is taking up to the bad one. */
  lemma TookUpToBad(d: Dialect, found: seq<Item>, done: seq<Item>, behind: seq<Item>, stopped: bool)
    requires found == done + behind
    requires forall i :: 0 <= i < |done| ==> (IsBad(d, done[i]) <==> stopped && i == |done| - 1)
    requires if stopped then done != [] else behind == []
    ensures UpToBad(d, found) == done
  {
    if stopped {
      LastIsBad(d, done, behind);
    } else {
      assert found == done;
      NoneIsBad(d, found);
    }
  }

  lemma AllDeliveredIff(d: Dialect, base: seq<Item>, found: seq<Item>)
    ensures Delivered(d, base + UpToBad(d, found)) == Delivered(d, base + found) <==> NothingBehind(d, found)
  {
    hide Delivered;
    var n := |UpToBad(d, found)|;
    assert found == found[..n] + found[n..];
    DeliveredAppend(d, found[..n], found[n..]);
    DeliveredAppend(d, base, found[..n]);
    DeliveredAppend(d, base, found);
    assert found[..n] == UpToBad(d, found);
    var before, taken, behind := Delivered(d, base), Delivered(d, found[..n]), Delivered(d, found[n..]);
    assert Delivered(d, base + found) == (before + taken) + behind;
    assert behind == [] ==> (before + taken) + behind == before + taken;
  }

  lemma BadThenGood(d: Dialect, bad: seq<byte>, good: seq<byte>)
    requires IsFrame(bad) && IsFrame(good) && !Acceptable(d, bad) && Acceptable(d, good)
    ensures var items := Items(bad + good);
            && Delivered(d, items) == [good] && Delivered(d, UpToBad(d, items)) == []
            && !NothingBehind(d, items)
  {
    hide IsFrame, Acceptable, Items;
    FrameFirst(bad, good);
    FrameFirst(good, []);
    Undecided([]);
    assert good + [] == good;
    var b, g := Frame(bad), Frame(good);
    assert Items(bad + good) == [b, g];
    assert [b, g][1..] == [g] && [g][1..] == [] && [b][1..] == [];
    assert Delivered(d, []) == [];
    assert UpToBad(d, [b, g]) == [b];
  }

  /** A dialect with one known message, of id 0 and without fields, whose checksum is always 0. */
  function OneMessage(): Dialect
  {
    Dialect(id => if id == 0 then Some(Entry(0, 0, 0, None, None)) else None, (_, _) => 0)
  }

  /** Two frames of a known id in one read, the first with a wrong checksum: the second stays behind. */
  lemma GoodFrameLeftBehind()
    ensures var items := Items([0xFE, 0, 0, 1, 1, 0, 1, 0] + [0xFE, 0, 0, 1, 1, 0, 0, 0]);
            && Delivered(OneMessage(), items) == [[0xFE, 0, 0, 1, 1, 0, 0, 0]]
            && Delivered(OneMessage(), UpToBad(OneMessage(), items)) == []
            && !NothingBehind(OneMessage(), items)
  {
    hide Items, Delivered, UpToBad;
    var bad: seq<byte> := [0xFE, 0, 0, 1, 1, 0, 1, 0];
    var good: seq<byte> := [0xFE, 0, 0, 1, 1, 0, 0, 0];
    assert IsFrame(bad) && IsFrame(good);
    assert MsgId(bad) == 0 && MsgId(good) == 0;
    assert bad[6] == 1 && bad[7] == 0 && good[6] == 0 && good[7] == 0;
    BadThenGood(OneMessage(), bad, good);
  }

  // ----- The operating system side

  datatype ReadIo = Data(bytes: seq<byte>) | Nothing | Fail(errno: int)

  /** What the kernel means to do with a read: hand out so many bytes at most, or fail. */
  datatype ReadPlan = Give(n: nat) | Refuse(errno: nat)

  /** What comes of it, with these bytes waiting and so much room. */
  function ReadOf(plan: ReadPlan, waiting: seq<byte>, capacity: nat): ReadIo
  {
    match plan
    case Refuse(e) => if e > 0 then Fail(e) else Nothing
    case Give(n) =>
      var k := if n > |waiting| then |waiting| else n;
      var most := if k > capacity then capacity else k;
      if most == 0 then Nothing else Data(waiting[..most])
  }

  /** A file descriptor that hands out its stream in pieces of the kernel's choosing. */
  class ByteSource {
    var queue: seq<byte>
    /** What the kernel does with the n-th read. */
    const kernel: nat -> ReadPlan
    /** How often it was read. */
    var readCount: nat

    constructor (stream: seq<byte>, kernel: nat -> ReadPlan)
      ensures queue == stream && readCount == 0 && this.kernel == kernel
    {
      this.kernel, queue, readCount := kernel, stream, 0;
    }

    /** What the next read will bring. */
    function Next(capacity: nat): ReadIo
      reads this
    {
      ReadOf(kernel(readCount), queue, capacity)
    }

    method Read(capacity: nat) returns (r: ReadIo)
      requires 0 < capacity
      modifies this
      ensures r == old(Next(capacity)) && readCount == old(readCount) + 1
      ensures r.Data? ==> 0 < |r.bytes| <= capacity && r.bytes + queue == old(queue)
      ensures !r.Data? ==> queue == old(queue)
      ensures r.Fail? ==> r.errno > 0
    {
      r := Next(capacity);
      readCount := readCount + 1;
      if r.Data? {
        queue := queue[|r.bytes|..];
        assert r.bytes + queue == old(queue);
      }
    }
  }

  // ----- The framer

  /**
   `consumed` and `pending` are a correct split of `received`: nothing is lost, the parser finds in
   the whole stream exactly the consumed items followed by whatever it finds in the pending bytes,
   and the statistics are those of the consumed items.
   */
  ghost predicate Parsed(d: Dialect, received: seq<byte>, consumed: seq<Item>, pending: seq<byte>,
                         stat: ReadStat)
  {
    && received == Flatten(consumed) + pending
    && Items(received) == consumed + Items(pending)
    && Rest(received) == Rest(pending)
    && stat == TallyAll(d, consumed)
  }

  lemma ParsedItems(d: Dialect, r: seq<byte>, c: seq<Item>, p: seq<byte>, st: ReadStat)
    requires Parsed(d, r, c, p, st)
    ensures Items(r) == c + Items(p)
  {
  }

  lemma ParsedMore(d: Dialect, r: seq<byte>, c: seq<Item>, p: seq<byte>, st: ReadStat, more: seq<byte>)
    requires Parsed(d, r, c, p, st) && Rest(p) == p
    ensures Parsed(d, r + more, c, p + more, st)
  {
    hide Items, Rest, Flatten, TallyAll;
    RestIsShort(p);
    ParseResumes(r, more);
    ParseResumes(p, more);
    assert Flatten(c) + p + more == Flatten(c) + (p + more);
    assert c + [] == c;
  }

  lemma ParsedSkip(d: Dialect, r: seq<byte>, c: seq<Item>, p: seq<byte>, st: ReadStat, n: nat)
    requires Parsed(d, r, c, p, st)
    requires n <= |p| && forall i :: 0 <= i < n ==> !IsMagic(p[i])
    ensures Parsed(d, r, c + Skips(p[..n]), p[n..], st)
    ensures Delivered(d, c + Skips(p[..n])) == Delivered(d, c)
  {
    hide Items, Rest, Flatten, TallyAll, Delivered;
    SkipNoise(p, n);
    FlattenAppend(c, Skips(p[..n]));
    TallySkips(d, c, p[..n]);
    DeliveredAppend(d, c, Skips(p[..n]));
    NoiseDeliversNothing(d, p[..n]);
    assert p == p[..n] + p[n..];
  }

  lemma ParsedFrame(d: Dialect, r: seq<byte>, c: seq<Item>, f: seq<byte>, tail: seq<byte>, st: ReadStat)
    requires IsFrame(f) && Parsed(d, r, c, f + tail, st)
    ensures Parsed(d, r, c + [Frame(f)], tail, Tally(d, st, Frame(f)))
    ensures Delivered(d, c + [Frame(f)]) == Delivered(d, c) + if Acceptable(d, f) then [f] else []
  {
    hide Items, Rest, TallyAll, Tally, Delivered, Acceptable, IsFrame, Flatten;
    FrameFirst(f, tail);
    FlattenAppend(c, [Frame(f)]);
    FlattenOne(Frame(f));
    TallyOne(d, c, Frame(f));
    DeliveredOne(d, c, Frame(f));
    assert c + ([Frame(f)] + Items(tail)) == c + [Frame(f)] + Items(tail);
    assert Flatten(c) + (f + tail) == Flatten(c) + f + tail;
  }

  datatype Outcome =
    | Message(info: MsgInfo, bytes: seq<byte>, known: bool)
    | NoMessage
    | Error(errno: int)

  const EINVAL := 22

  class RxFramer {
    const dialect: Dialect
    const source: ByteSource
    const data: array<byte>
    var fd: int
    var len: nat
    var lastPacketLen: nat
    var stat: ReadStat

    /** Everything read so far, and what the parser made of the part already consumed. */
    ghost var received: seq<byte>
    ghost var consumed: seq<Item>

    ghost function Pending(): seq<byte>
      requires lastPacketLen <= len <= data.Length
      reads this, data
    {
      data[lastPacketLen..len]
    }

    /** Between calls the buffer is a correct split; when it waits for a read, it is undecided. */
    ghost predicate Valid()
      reads this, data
    {
      && data.Length == RX_BUF_MAX_SIZE
      && lastPacketLen <= len <= data.Length
      && Parsed(dialect, received, consumed, Pending(), stat)
      && (lastPacketLen == 0 ==> Rest(Pending()) == Pending())
    }

    ghost predicate Settled()
      reads this, data
    {
      && data.Length == RX_BUF_MAX_SIZE
      && lastPacketLen == 0 && len <= data.Length
      && Parsed(dialect, received, consumed, data[..len], stat)
    }

    /** The last thing taken off the stream is a frame with a wrong checksum. */
    ghost predicate RejectedLast()
      reads this
    {
      consumed != [] && IsBad(dialect, consumed[|consumed| - 1])
    }

    constructor (d: Dialect, src: ByteSource, fd: int)
      ensures Valid() && fresh(data)
      ensures dialect == d && source == src && this.fd == fd
      ensures received == [] && consumed == []
    {
      dialect, source, this.fd := d, src, fd;
      data := new byte[RX_BUF_MAX_SIZE](_ => 0);
      len, lastPacketLen, stat := 0, 0, NO_READS;
      received, consumed := [], [];
    }

    /** In every reachable state the statistics are those of the frames taken off the stream so far. */
    lemma StatsAreRight()
      requires Valid()
      ensures |Delivered(dialect, consumed)| == |Numbers(dialect, consumed)|
      ensures stat.handled == Wrap32(|Delivered(dialect, consumed)|)
      ensures stat.crcErrors == Wrap32(|Rejected(dialect, consumed)|)
      ensures Uncounted(dialect, consumed) <= AllMissing(dialect, consumed)
      ensures stat.dropSeqTotal == Wrap32(AllMissing(dialect, consumed) - Uncounted(dialect, consumed))
      ensures Delivered(dialect, consumed) != [] ==>
                var frames := Delivered(dialect, consumed);
                var last := frames[|frames| - 1];
                IsFrame(last) && stat.expectedSeq == (SeqNo(last) + 1) % 256
    {
      hide Delivered, Numbers, Rejected, AllMissing, Uncounted, TallyAll, Wrap32, Items, Rest;
      ConsumedAreItems(received, consumed, Pending());
      NumbersOfDelivered(dialect, consumed);
      StatsAreCounts(dialect, consumed);
      LossesAreGaps(dialect, consumed);
    }

    /** Whenever the next step is a read there is room for it: fewer than 280 bytes are held. */
    lemma RoomRemains()
      requires Valid() && lastPacketLen == 0
      ensures len < MAX_PACKET_LEN < RX_BUF_MAX_SIZE
    {
      RestIsShort(Pending());
    }

    /** Drop the packet handed out last and move what follows it to the front. */
    method DropLastPacket()
      requires Valid() && lastPacketLen != 0
      modifies this`len, this`lastPacketLen, data
      ensures Settled() && len < old(len) && data[..len] == old(Pending())
    {
      ghost var p := Pending();
      len := len - lastPacketLen;
      if len > 0 {
        MoveToFront(data, lastPacketLen, len);
      }
      lastPacketLen := 0;
      assert data[..len] == p;
    }

    /** Append whatever the kernel has; false when there was nothing. */
    method Fill() returns (io: ReadIo)
      requires Valid() && lastPacketLen == 0
      modifies this`len, this`received, data, source
      ensures Settled()
      ensures received + source.queue == old(received) + old(source.queue)
      ensures received == old(received) + if io.Data? then io.bytes else []
      ensures !io.Data? ==> Valid() && unchanged(this) && unchanged(data)
      ensures io == old(source.Next(RX_BUF_MAX_SIZE - len)) && source.readCount == old(source.readCount) + 1
      ensures data[..len] == old(Pending()) + if io.Data? then io.bytes else []
    {
      hide Parsed, Rest;
      RoomRemains();
      ghost var p := data[..len];
      assert Pending() == p;
      io := source.Read(RX_BUF_MAX_SIZE - len);
      if io.Data? {
        ParsedMore(dialect, received, consumed, p, stat, io.bytes);
        CopyIn(data, len, io.bytes);
        len := len + |io.bytes|;
        received := received + io.bytes;
        assert data[..len] == p + io.bytes;
      }
    }

    /** Resynchronise: discard bytes up to the next magic byte, or all of them. */
    method Resync()
      requires Settled()
      modifies this`len, this`consumed, data
      ensures Settled() && len <= old(len)
      ensures len > 0 ==> IsMagic(data[0])
      ensures Delivered(dialect, consumed) == Delivered(dialect, old(consumed))
      ensures old(consumed) <= consumed
      ensures forall i :: |old(consumed)| <= i < |consumed| ==> !IsBad(dialect, consumed[i])
    {
      var pos := 0;
      while pos < len && !IsMagic(data[pos])
        invariant pos <= len
        invariant forall i :: 0 <= i < pos ==> !IsMagic(data[i])
      {
        pos := pos + 1;
      }
      ghost var p := data[..len];
      ParsedSkip(dialect, received, consumed, p, stat, pos);
      consumed := consumed + Skips(p[..pos]);
      len := len - pos;
      if pos > 0 {
        MoveToFront(data, pos, len);
      }
      assert data[..len] == p[pos..];
    }

    /** What a read into the room behind the pending bytes will bring. */
    function NextRead(): ReadIo
      requires len <= RX_BUF_MAX_SIZE
      reads this, source
    {
      source.Next(RX_BUF_MAX_SIZE - len)
    }

    method ReadMsg() returns (out: Outcome)
      requires Valid()
      modifies this, data, source
      ensures Valid() && fd == old(fd)
      ensures received + source.queue == old(received) + old(source.queue)
      ensures Delivered(dialect, consumed)
              == Delivered(dialect, old(consumed)) + if out.Message? then [out.bytes] else []
      ensures out.Message? ==>
                && IsFrame(out.bytes) && out.info == Info(dialect, out.bytes)
                && (out.known <==> dialect.entryOf(MsgId(out.bytes)).Some?)
      ensures out.Message? ==> lastPacketLen > 0
      ensures old(lastPacketLen) > 0 && fd >= 0 ==> source.queue == old(source.queue) && len < old(len)
      ensures source.readCount == old(source.readCount) + if fd >= 0 && old(lastPacketLen) == 0 then 1 else 0
      ensures out.Error? <==> fd < 0 || old(lastPacketLen == 0 && NextRead().Fail?)
      ensures out.Error? ==> out.errno == if fd < 0 then EINVAL else old(NextRead()).errno
      ensures received == old(received)
                + if fd >= 0 && old(lastPacketLen == 0 && NextRead().Data?) then old(NextRead()).bytes else []
      ensures !out.Message? && fd >= 0 && lastPacketLen > 0 ==> RejectedLast()
      ensures old(received) <= received && (fd < 0 ==> received == old(received) && consumed == old(consumed))
      ensures Items(received) == old(consumed) + Items(old(Pending()) + received[|old(received)|..])
      ensures old(consumed) <= consumed && (fd >= 0 && lastPacketLen > 0 ==> consumed != old(consumed))
      ensures forall i :: |old(consumed)| <= i < |consumed| ==>
                (IsBad(dialect, consumed[i]) <==> i == |consumed| - 1 && !out.Message? && lastPacketLen > 0)
      ensures old(lastPacketLen) > 0 ==> received == old(received)
    {
      hide Items, IsBad;
      hide Parsed, Rest, Delivered, Info;
      if fd < 0 {
        assert Pending() + [] == Pending() && received[|received|..] == [];
        ParsedItems(dialect, received, consumed, Pending(), stat);
        return Error(EINVAL);
      }
      ghost var p := Pending();
      if lastPacketLen != 0 {
        DropLastPacket();
        assert p + [] == p && received[|received|..] == [];
      } else {
        var io := Fill();
        ParsedItems(dialect, received, consumed, data[..len], stat);
        if !io.Data? {
          assert p + [] == p && received[|received|..] == [];
          return if io.Fail? then Error(io.errno) else NoMessage;
        }
        assert received[|old(received)|..] == io.bytes;
      }
      ParsedItems(dialect, received, consumed, data[..len], stat);
      Resync();
      out := Extract();
    }

    /** Take one frame off the front of a synchronised buffer, if it is complete. */
    method Extract() returns (out: Outcome)
      requires Settled()
      requires len > 0 ==> IsMagic(data[0])
      modifies this`lastPacketLen, this`stat, this`consumed
      ensures Valid()
      ensures Delivered(dialect, consumed)
              == Delivered(dialect, old(consumed)) + if out.Message? then [out.bytes] else []
      ensures out.Message? ==>
                && IsFrame(out.bytes) && out.info == Info(dialect, out.bytes)
                && (out.known <==> dialect.entryOf(MsgId(out.bytes)).Some?)
      ensures !out.Error?
      ensures out.Message? ==> lastPacketLen > 0
      ensures !out.Message? && lastPacketLen > 0 ==> RejectedLast()
      ensures if lastPacketLen == 0 then consumed == old(consumed)
              else |consumed| == |old(consumed)| + 1 && old(consumed) <= consumed
                   && (IsBad(dialect, consumed[|old(consumed)|]) <==> !out.Message?)
      ensures lastPacketLen == 0 ==> !out.Message?
    {
      hide Parsed, Delivered, Info, TallyAll, CrcOk, Tally, Wrap32, Acceptable;
      ghost var p := data[..len];
      assert Pending() == p;
      if len == 0 || len < HeaderLen(data[0]) {
        return NoMessage;
      }
      var expectedSize := FrameLen(data[..len]);
      if len < expectedSize {
        return NoMessage;
      }
      var frame := data[..expectedSize];
      assert p == frame + p[expectedSize..] && IsFrame(frame);
      ParsedFrame(dialect, received, consumed, frame, p[expectedSize..], stat);
      consumed := consumed + [Frame(frame)];
      lastPacketLen := expectedSize;
      assert Pending() == p[expectedSize..];
      var ok := Count(frame);
      if ok {
        out := Message(Info(dialect, frame), frame, dialect.entryOf(MsgId(frame)).Some?);
      } else {
        out := NoMessage;
      }
    }

    /** Check the frame and update the statistics, field by field. */
    method Count(frame: seq<byte>) returns (ok: bool)
      requires IsFrame(frame)
      modifies this`stat
      ensures ok <==> Acceptable(dialect, frame)
      ensures stat == Tally(dialect, old(stat), Frame(frame))
    {
      hide CrcOk, Wrap32, Wrap64;
      stat := stat.(total := Wrap32(stat.total + 1));
      var entry := dialect.entryOf(MsgId(frame));
      if entry.Some? && !CrcOk(dialect, entry.value, frame) {
        stat := stat.(crcErrors := Wrap32(stat.crcErrors + 1),
                      crcErrorBytes := Wrap64(stat.crcErrorBytes + |frame|));
        return false;
      }
      stat := stat.(handled := Wrap32(stat.handled + 1),
                    handledBytes := Wrap64(stat.handledBytes + |frame|));
      var seqNo := SeqNo(frame);
      if stat.expectedSeq != seqNo {
        if stat.total > 1 {
          var diff := Lost(stat.expectedSeq, seqNo);
          stat := stat.(dropSeqTotal := Wrap32(stat.dropSeqTotal + diff),
                        total := Wrap32(stat.total + diff));
        }
        stat := stat.(expectedSeq := seqNo);
      }
      stat := stat.(expectedSeq := (stat.expectedSeq + 1) % 256);
      ok := true;
    }

    /**
     One readable event: one read at most, then everything decidable is taken up to the first frame with a
     wrong checksum. So all frames are delivered exactly if no acceptable one follows that.
     */
    method HandleRead() returns (msgs: seq<Outcome>, last: Outcome)
      requires Valid()
      modifies this, data, source
      ensures Valid() && fd == old(fd)
      ensures received + source.queue == old(received) + old(source.queue)
      ensures forall m :: m in msgs ==> m.Message? && IsFrame(m.bytes) && m.info == Info(dialect, m.bytes)
      ensures Delivered(dialect, consumed) == Delivered(dialect, old(consumed)) + FramesOf(msgs)
      ensures !last.Message?
      ensures source.readCount == old(source.readCount) + if fd >= 0 && old(lastPacketLen) == 0 then 1 else 0
      ensures received == old(received)
                + if fd >= 0 && old(lastPacketLen == 0 && NextRead().Data?) then old(NextRead()).bytes else []
      ensures old(received) <= received
      ensures var found := Items(old(Pending()) + received[|old(received)|..]);
              fd >= 0 ==>
                && consumed == old(consumed) + UpToBad(dialect, found)
                && (Delivered(dialect, consumed) == Delivered(dialect, Items(received))
                    <==> NothingBehind(dialect, found))
    {
      hide Delivered, Info, Parsed, Rest, IsFrame, TallyAll, Items, IsBad, UpToBad, NothingBehind;
      msgs := [];
      last := ReadMsg();
      ghost var found := Items(old(Pending()) + received[|old(received)|..]);
      ghost var got := received;
      while last.Message?
        invariant Valid() && fd == old(fd) && received == got
        invariant received + source.queue == old(received) + old(source.queue)
        invariant forall m :: m in msgs ==> m.Message? && IsFrame(m.bytes) && m.info == Info(dialect, m.bytes)
        invariant source.readCount == old(source.readCount) + if fd >= 0 && old(lastPacketLen) == 0 then 1 else 0
        invariant old(consumed) <= consumed && (fd < 0 ==> !last.Message?)
        invariant fd >= 0 && lastPacketLen > 0 ==> consumed != old(consumed)
        invariant forall i :: |old(consumed)| <= i < |consumed| ==>
                    (IsBad(dialect, consumed[i]) <==> i == |consumed| - 1 && !last.Message? && lastPacketLen > 0)
        invariant last.Message? ==>
                    lastPacketLen > 0 && IsFrame(last.bytes) && last.info == Info(dialect, last.bytes)
        invariant Delivered(dialect, consumed)
                  == Delivered(dialect, old(consumed)) + FramesOf(msgs) + if last.Message? then [last.bytes] else []
        decreases len
      {
        FramesOfOne(msgs, last);
        msgs := msgs + [last];
        last := ReadMsg();
      }
      if fd >= 0 {
        EventEnds(old(consumed), found);
      }
    }

    /** Where a readable event has ended: with nothing decidable left, or behind a frame with a wrong checksum. */
    lemma EventEnds(base: seq<Item>, found: seq<Item>)
      requires Valid() && base <= consumed && Items(received) == base + found
      requires lastPacketLen > 0 ==> consumed != base
      requires forall i :: |base| <= i < |consumed| ==>
                 (IsBad(dialect, consumed[i]) <==> i == |consumed| - 1 && lastPacketLen > 0)
      ensures consumed == base + UpToBad(dialect, found)
      ensures Delivered(dialect, consumed) == Delivered(dialect, Items(received)) <==> NothingBehind(dialect, found)
    {
      hide Delivered, Items, Rest, IsBad, UpToBad, NothingBehind;
      var done, behind := consumed[|base|..], Items(Pending());
      RestIsShort(Pending());
      assert consumed == base + done;
      assert base + found == base + (done + behind);
      assert found == (base + found)[|base|..] == (base + (done + behind))[|base|..] == done + behind;
      TookUpToBad(dialect, found, done, behind, lastPacketLen > 0);
      AllDeliveredIff(dialect, base, found);
    }

    /**
     Refinement: what has been delivered is a prefix of what the parser finds in the whole stream,
     whatever bytes are still to come, and all of it once no byte is left behind a packet.
     */
    lemma DeliveredIsPrefix(rest: seq<byte>)
      requires Valid()
      ensures Delivered(dialect, consumed) <= Delivered(dialect, Items(received + rest))
      ensures lastPacketLen == 0 ==> Delivered(dialect, consumed) == Delivered(dialect, Items(received))
    {
      hide Delivered, Items, Rest;
      ParseResumes(received, rest);
      RestIsShort(Pending());
      var tail := Items(Pending()) + Items(Rest(received) + rest);
      assert Items(received + rest) == consumed + tail;
      DeliveredAppend(dialect, consumed, tail);
      assert lastPacketLen == 0 ==> Items(received) == consumed;
    }
  }

  lemma ConsumedAreItems(received: seq<byte>, consumed: seq<Item>, pending: seq<byte>)
    requires Items(received) == consumed + Items(pending)
    ensures forall i :: i in consumed ==> IsItem(i)
  {
    hide Items;
    ItemsAreWellFormed(received);
    forall i | i in consumed
      ensures IsItem(i)
    {
      assert i in Items(received);
    }
  }

  function FramesOf(msgs: seq<Outcome>): (r: seq<seq<byte>>)
    requires forall m :: m in msgs ==> m.Message?
    ensures |r| == |msgs| && forall i :: 0 <= i < |r| ==> r[i] == msgs[i].bytes
  {
    seq(|msgs|, i requires 0 <= i < |msgs| => msgs[i].bytes)
  }

  lemma FramesOfOne(msgs: seq<Outcome>, m: Outcome)
    requires forall m :: m in msgs ==> m.Message?
    requires m.Message?
    ensures FramesOf(msgs + [m]) == FramesOf(msgs) + [m.bytes]
  {
  }

  /** A whole session: any stream, cut by the kernel into any reads, over any number of events. */
  method Session(d: Dialect, stream: seq<byte>, kernel: nat -> ReadPlan, events: nat)
    returns (msgs: seq<Outcome>, drained: bool)
    ensures forall m :: m in msgs ==> m.Message? && IsFrame(m.bytes) && m.info == Info(d, m.bytes)
    ensures FramesOf(msgs) <= Delivered(d, Items(stream))
    ensures drained ==> FramesOf(msgs) == Delivered(d, Items(stream))
  {
    hide Delivered, Info, Items, IsFrame, RxFramer.Valid, RxFramer.RejectedLast;
    var source := new ByteSource(stream, kernel);
    var framer := new RxFramer(d, source, 0);
    msgs := [];
    assert Delivered(d, []) == [] by { NoiseDeliversNothing(d, []); assert Skips([]) == []; }
    for i := 0 to events
      invariant framer.Valid() && framer.dialect == d && framer.source == source
      invariant fresh(framer) && fresh(framer.data) && fresh(source)
      invariant framer.received + source.queue == stream
      invariant forall m :: m in msgs ==> m.Message? && IsFrame(m.bytes) && m.info == Info(d, m.bytes)
      invariant FramesOf(msgs) == Delivered(d, framer.consumed)
    {
      var more, last := framer.HandleRead();
      assert FramesOf(msgs + more) == FramesOf(msgs) + FramesOf(more);
      msgs := msgs + more;
    }
    drained := source.queue == [] && framer.lastPacketLen == 0;
    framer.DeliveredIsPrefix(source.queue);
    assert drained ==> framer.received == stream;
  }
}

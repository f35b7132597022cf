/**
 The MAVLink 1 and MAVLink 2 wire format and a pure parser over a whole byte stream. This is the
 reference that the buffered framer (module Framer) is proved to refine.
 */
module Wire {
  import opened Bytes

  const STX_V2: byte := 0xFD
  const STX_V1: byte := 0xFE
  const MAX_PACKET_LEN := 280
  const CHECKSUM_LEN := 2
  const SIGNATURE_LEN := 13

  predicate IsMagic(b: byte)
  {
    b == STX_V2 || b == STX_V1
  }

  function HeaderLen(magic: byte): nat
  {
    if magic == STX_V2 then 10 else 6
  }

  predicate HasHeader(s: seq<byte>)
  {
    s != [] && IsMagic(s[0]) && HeaderLen(s[0]) <= |s|
  }

  /** The signed flag is bit 0 of the incompatibility flags of a MAVLink 2 header. */
  function FrameLen(s: seq<byte>): (n: nat)
    requires HasHeader(s)
    ensures HeaderLen(s[0]) < n <= MAX_PACKET_LEN
  {
    HeaderLen(s[0]) + s[1] + CHECKSUM_LEN
    + if s[0] == STX_V2 && s[2] % 2 == 1 then SIGNATURE_LEN else 0
  }

  predicate IsFrame(f: seq<byte>)
  {
    HasHeader(f) && |f| == FrameLen(f)
  }

  predicate HasFrame(s: seq<byte>)
  {
    HasHeader(s) && FrameLen(s) <= |s|
  }

  // ----- Parsing a whole stream

  datatype Item = Skipped(b: byte) | Frame(bytes: seq<byte>)

  /** Everything the parser can decide about `s`: frames, and bytes outside any frame. */
  function Items(s: seq<byte>): (r: seq<Item>)
  {
    if s == [] then []
    else if !IsMagic(s[0]) then [Skipped(s[0])] + Items(s[1..])
    else if !HasFrame(s) then []
    else [Frame(s[..FrameLen(s)])] + Items(s[FrameLen(s)..])
  }

  /** The undecided tail: empty, or the start of an incomplete frame. */
  function Rest(s: seq<byte>): (r: seq<byte>)
  {
    if s == [] then []
    else if !IsMagic(s[0]) then Rest(s[1..])
    else if !HasFrame(s) then s
    else Rest(s[FrameLen(s)..])
  }

  function ItemBytes(i: Item): seq<byte>
  {
    match i
    case Skipped(b) => [b]
    case Frame(bs) => bs
  }

  function Flatten(items: seq<Item>): (r: seq<byte>)
  {
    if items == [] then [] else ItemBytes(items[0]) + Flatten(items[1..])
  }

  lemma {:induction false} FlattenAppend(a: seq<Item>, b: seq<Item>)
    ensures Flatten(a + b) == Flatten(a) + Flatten(b)
  {
    if a == [] {
      assert a + b == b;
    } else {
      assert (a + b)[1..] == a[1..] + b;
      FlattenAppend(a[1..], b);
    }
  }

  lemma SkipFirst(s: seq<byte>)
    requires s != [] && !IsMagic(s[0])
    ensures Items(s) == [Skipped(s[0])] + Items(s[1..])
    ensures Rest(s) == Rest(s[1..])
  {
  }

  lemma FrameFirst(f: seq<byte>, tail: seq<byte>)
    requires IsFrame(f)
    ensures Items(f + tail) == [Frame(f)] + Items(tail)
    ensures Rest(f + tail) == Rest(tail)
  {
    var s := f + tail;
    assert FrameLen(s) == |f|;
    assert s[..|f|] == f && s[|f|..] == tail;
  }

  lemma Undecided(s: seq<byte>)
    requires s == [] || (IsMagic(s[0]) && !HasFrame(s))
    ensures Items(s) == [] && Rest(s) == s
  {
  }

  lemma FlattenOne(i: Item)
    ensures Flatten([i]) == ItemBytes(i)
  {
    assert [i][1..] == [];
  }

  lemma FlattenFirst(i: Item, items: seq<Item>)
    ensures Flatten([i] + items) == ItemBytes(i) + Flatten(items)
  {
    assert ([i] + items)[1..] == items;
  }

  /** Parsing loses nothing: the items followed by the undecided tail are the stream itself. */
  lemma {:induction false} ParseIsLossless(s: seq<byte>)
    ensures Flatten(Items(s)) + Rest(s) == s
  {
    hide Items, Rest;
    if s == [] || (IsMagic(s[0]) && !HasFrame(s)) {
      Undecided(s);
    } else if !IsMagic(s[0]) {
      ParseIsLossless(s[1..]);
      SkipFirst(s);
      FlattenFirst(Skipped(s[0]), Items(s[1..]));
    } else {
      var n := FrameLen(s);
      assert s == s[..n] + s[n..];
      ParseIsLossless(s[n..]);
      FrameFirst(s[..n], s[n..]);
      FlattenFirst(Frame(s[..n]), Items(s[n..]));
    }
  }

  predicate IsItem(i: Item)
  {
    match i
    case Skipped(b) => !IsMagic(b)
    case Frame(f) => IsFrame(f)
  }

  /** Frames are exactly as long as their header says, and no magic byte is ever skipped. */
  lemma {:induction false} ItemsAreWellFormed(s: seq<byte>)
    ensures forall i :: i in Items(s) ==> IsItem(i)
  {
    if s == [] {
    } else if !IsMagic(s[0]) {
      ItemsAreWellFormed(s[1..]);
    } else if HasFrame(s) {
      ItemsAreWellFormed(s[FrameLen(s)..]);
    }
  }

  /** The undecided tail never holds a whole packet and starts at a magic byte. */
  lemma {:induction false} RestIsShort(s: seq<byte>)
    ensures |Rest(s)| < MAX_PACKET_LEN
    ensures Rest(s) != [] ==> IsMagic(Rest(s)[0])
    ensures Items(Rest(s)) == [] && Rest(Rest(s)) == Rest(s)
  {
    if s == [] {
    } else if !IsMagic(s[0]) {
      RestIsShort(s[1..]);
    } else if HasFrame(s) {
      RestIsShort(s[FrameLen(s)..]);
    }
  }

  /** Parsing may be resumed at any cut: only the undecided tail has to be kept. */
  lemma {:induction false} ParseResumes(s: seq<byte>, t: seq<byte>)
    ensures Items(s + t) == Items(s) + Items(Rest(s) + t)
    ensures Rest(s + t) == Rest(Rest(s) + t)
    decreases |s|
  {
    hide Items, Rest;
    if s == [] || (IsMagic(s[0]) && !HasFrame(s)) {
      Undecided(s);
    } else if !IsMagic(s[0]) {
      ParseResumes(s[1..], t);
      assert (s + t)[1..] == s[1..] + t;
      SkipFirst(s);
      SkipFirst(s + t);
    } else {
      var n := FrameLen(s);
      var f, tail := s[..n], s[n..];
      ParseResumes(tail, t);
      assert s == f + tail && s + t == f + (tail + t);
      FrameFirst(f, tail);
      FrameFirst(f, tail + t);
    }
  }

  function Skips(s: seq<byte>): (r: seq<Item>)
    ensures |r| == |s|
    ensures forall i :: 0 <= i < |s| ==> r[i] == Skipped(s[i])
  {
    seq(|s|, i requires 0 <= i < |s| => Skipped(s[i]))
  }

  lemma {:induction false} SkipNoise(s: seq<byte>, n: nat)
    requires n <= |s|
    requires forall i :: 0 <= i < n ==> !IsMagic(s[i])
    ensures Items(s) == Skips(s[..n]) + Items(s[n..])
    ensures Rest(s) == Rest(s[n..])
    ensures Flatten(Skips(s[..n])) == s[..n]
  {
    hide Items, Rest, IsMagic;
    if n == 0 {
      assert s[n..] == s;
    } else {
      var tail := s[1..];
      SkipNoise(tail, n - 1);
      SkipFirst(s);
      assert tail[n - 1..] == s[n..];
      assert s[..n] == [s[0]] + tail[..n - 1];
      assert Skips(s[..n]) == [Skipped(s[0])] + Skips(tail[..n - 1]);
      FlattenFirst(Skipped(s[0]), Skips(tail[..n - 1]));
    }
  }

  // ----- The meaning of a frame

  /** One row of the generated message table. An absent target field is None. */
  datatype Entry = Entry(msgId: nat, crcExtra: byte, maxLen: byte,
                         targetSystemOfs: Option<nat>, targetComponentOfs: Option<nat>)

  /** The generated message table and the checksum over header, payload and the extra byte. */
  datatype Dialect = Dialect(entryOf: nat -> Option<Entry>, crc: (seq<byte>, byte) -> nat)

  datatype MsgInfo = MsgInfo(msgId: nat, targetSysId: int, targetCompId: int,
                             srcSysId: byte, srcCompId: byte, payload: seq<byte>)

  function MsgId(f: seq<byte>): (id: nat)
    requires HasHeader(f)
    ensures id < 0x100_0000
  {
    if f[0] == STX_V2 then f[7] + 256 * (f[8] as int) + 65536 * (f[9] as int) else f[5]
  }

  function SeqNo(f: seq<byte>): byte
    requires HasHeader(f)
  {
    if f[0] == STX_V2 then f[4] else f[2]
  }

  function Payload(f: seq<byte>): seq<byte>
    requires IsFrame(f)
  {
    f[HeaderLen(f[0])..HeaderLen(f[0]) + f[1]]
  }

  /** The target field of a known message; a field cut off by zero trimming reads as 0. */
  function TargetField(ofs: Option<nat>, payload: seq<byte>): int
  {
    match ofs
    case None => -1
    case Some(o) => if o < |payload| then payload[o] else 0
  }

  predicate CrcOk(d: Dialect, e: Entry, f: seq<byte>)
    requires IsFrame(f)
  {
    var n := HeaderLen(f[0]) + f[1];
    d.crc(f[1..n], e.crcExtra) == f[n] + 256 * (f[n + 1] as int)
  }

  /** Frames with an unknown id are passed on unchecked; known ids must match their checksum. */
  predicate Acceptable(d: Dialect, f: seq<byte>)
    requires IsFrame(f)
  {
    match d.entryOf(MsgId(f))
    case None => true
    case Some(e) => CrcOk(d, e, f)
  }

  function Info(d: Dialect, f: seq<byte>): MsgInfo
    requires IsFrame(f)
  {
    var (sys, comp) := if f[0] == STX_V2 then (f[5], f[6]) else (f[3], f[4]);
    match d.entryOf(MsgId(f))
    case None => MsgInfo(MsgId(f), -1, -1, sys, comp, Payload(f))
    case Some(e) =>
      MsgInfo(e.msgId, TargetField(e.targetSystemOfs, Payload(f)),
              TargetField(e.targetComponentOfs, Payload(f)), sys, comp, Payload(f))
  }

  // ----- Empty-byte payload truncation

  /** MAVLink 2 senders cut the zero bytes off the end of a payload, but never its first byte. */
  function Trim(payload: seq<byte>): (r: seq<byte>)
    ensures |r| <= |payload|
  {
    if |payload| > 1 && payload[|payload| - 1] == 0 then Trim(payload[..|payload| - 1]) else payload
  }

  /** Endpoint::get_trimmed_zeros */
  function TrimmedZeros(e: Entry, f: seq<byte>): nat
    requires HasHeader(f)
  {
    if f[0] != STX_V2 then 0
    else if f[1] > e.maxLen then 0
    else e.maxLen - f[1]
  }

  function Zeros(n: nat): (r: seq<byte>)
    ensures |r| == n && forall i :: 0 <= i < n ==> r[i] == 0
  {
    seq(n, _ => 0)
  }

  lemma {:induction false} TrimCutsZeros(p: seq<byte>)
    ensures p == Trim(p) + Zeros(|p| - |Trim(p)|)
  {
    if |p| > 1 && p[|p| - 1] == 0 {
      var q := p[..|p| - 1];
      TrimCutsZeros(q);
      assert p == q + [0];
      assert Zeros(|p| - |Trim(p)|) == Zeros(|q| - |Trim(q)|) + [0];
    }
  }

  /** Padding a received payload by the computed number of zeros undoes the truncation. */
  lemma TrimmingIsUndone(e: Entry, f: seq<byte>, full: seq<byte>)
    requires IsFrame(f) && f[0] == STX_V2 && |full| == e.maxLen && Payload(f) == Trim(full)
    ensures Payload(f) + Zeros(TrimmedZeros(e, f)) == full
  {
    TrimCutsZeros(full);
  }

  /** MAVLink 1 does not truncate, and a payload longer than the table says is left alone. */
  lemma NothingToPad(e: Entry, f: seq<byte>)
    requires IsFrame(f)
    ensures f[0] != STX_V2 || |Payload(f)| >= e.maxLen ==> TrimmedZeros(e, f) == 0
  {
  }

  /** A target field reads the same from the truncated payload as from the full one. */
  lemma TargetSurvivesTrimming(ofs: nat, full: seq<byte>)
    requires ofs < |full|
    ensures TargetField(Some(ofs), Trim(full)) == full[ofs]
  {
    TrimCutsZeros(full);
  }

  /** The frames handed to the router, in stream order. */
  function Delivered(d: Dialect, items: seq<Item>): (r: seq<seq<byte>>)
  {
    if items == [] then []
    else
      var head := items[0];
      (if head.Frame? && IsFrame(head.bytes) && Acceptable(d, head.bytes) then [head.bytes] else [])
      + Delivered(d, items[1..])
  }

  lemma {:induction false} DeliveredAppend(d: Dialect, a: seq<Item>, b: seq<Item>)
    ensures Delivered(d, a + b) == Delivered(d, a) + Delivered(d, b)
  {
    if a == [] {
      assert a + b == b;
    } else {
      assert (a + b)[1..] == a[1..] + b;
      DeliveredAppend(d, a[1..], b);
    }
  }

  lemma {:induction false} NoiseDeliversNothing(d: Dialect, s: seq<byte>)
    ensures Delivered(d, Skips(s)) == []
  {
    if s != [] {
      assert Skips(s)[1..] == Skips(s[1..]);
      NoiseDeliversNothing(d, s[1..]);
    }
  }

  // ----- Serialisation, the inverse

  datatype Packet =
    | V1(seqNo: byte, sysId: byte, compId: byte, id: nat, payload: seq<byte>)
    | V2(incompat: byte, compat: byte, seqNo: byte, sysId: byte, compId: byte, id: nat,
         payload: seq<byte>, signature: seq<byte>)

  predicate WellFormed(p: Packet)
  {
    && |p.payload| < 256
    && match p
       case V1(_, _, _, id, _) => id < 256
       case V2(incompat, _, _, _, _, id, _, sig) =>
         id < 0x100_0000 && |sig| == if incompat % 2 == 1 then SIGNATURE_LEN else 0
  }

  function Header(p: Packet): (h: seq<byte>)
    requires WellFormed(p)
  {
    match p
    case V1(seqNo, sys, comp, id, pl) => [STX_V1, |pl|, seqNo, sys, comp, id]
    case V2(inc, com, seqNo, sys, comp, id, pl, _) =>
      [STX_V2, |pl|, inc, com, seqNo, sys, comp, id % 256, id / 256 % 256, id / 65536]
  }

  function Serialize(p: Packet, crc: nat): (f: seq<byte>)
    requires WellFormed(p) && crc < 65536
    ensures IsFrame(f)
  {
    Header(p) + p.payload + [crc % 256, crc / 256] + if p.V2? then p.signature else []
  }

  ghost predicate SixteenBit(d: Dialect)
  {
    forall s, x :: d.crc(s, x) < 65536
  }

  /** The checksum a conforming sender puts on the packet. */
  function SenderCrc(d: Dialect, p: Packet): (crc: nat)
    requires WellFormed(p)
    requires SixteenBit(d)
    ensures crc < 65536
  {
    match d.entryOf(p.id)
    case None => 0
    case Some(e) => d.crc((Header(p) + p.payload)[1..], e.crcExtra)
  }

  /** Reading back a serialised packet yields the fields it was built from. */
  lemma FieldsRoundTrip(d: Dialect, p: Packet, crc: nat)
    requires WellFormed(p) && crc < 65536
    ensures var f := Serialize(p, crc);
            && MsgId(f) == p.id && SeqNo(f) == p.seqNo && Payload(f) == p.payload
            && Info(d, f).srcSysId == p.sysId && Info(d, f).srcCompId == p.compId
            && Info(d, f).payload == p.payload
            && (d.entryOf(p.id).None? ==>
                  Info(d, f).msgId == p.id && Info(d, f).targetSysId == -1 && Info(d, f).targetCompId == -1)
  {
    var f := Serialize(p, crc);
    var h := HeaderLen(f[0]);
    var tail := [crc % 256, crc / 256] + if p.V2? then p.signature else [];
    assert |Header(p)| == h;
    assert f == Header(p) + (p.payload + tail);
    assert f[..h] == Header(p);
    assert f[h..] == p.payload + tail;
    assert f[h..h + |p.payload|] == f[h..][..|p.payload|] == p.payload;
  }

  /** Both targets of a known message come from its full payload, even when zeros were cut off it. */
  lemma TargetsRoundTrip(d: Dialect, p: Packet, crc: nat, e: Entry, full: seq<byte>)
    requires WellFormed(p) && crc < 65536 && d.entryOf(p.id) == Some(e)
    requires p.payload == Trim(full)
    requires e.targetSystemOfs.Some? ==> e.targetSystemOfs.value < |full|
    requires e.targetComponentOfs.Some? ==> e.targetComponentOfs.value < |full|
    ensures var i := Info(d, Serialize(p, crc));
            && i.msgId == e.msgId
            && i.targetSysId == (if e.targetSystemOfs.Some? then full[e.targetSystemOfs.value] else -1)
            && i.targetCompId == (if e.targetComponentOfs.Some? then full[e.targetComponentOfs.value] else -1)
  {
    FieldsRoundTrip(d, p, crc);
    if e.targetSystemOfs.Some? {
      TargetSurvivesTrimming(e.targetSystemOfs.value, full);
    }
    if e.targetComponentOfs.Some? {
      TargetSurvivesTrimming(e.targetComponentOfs.value, full);
    }
  }

  /** A frame with a known id passes exactly with the checksum a conforming sender computes. */
  lemma ChecksumDecides(d: Dialect, p: Packet, crc: nat)
    requires WellFormed(p) && crc < 65536
    requires SixteenBit(d)
    ensures Acceptable(d, Serialize(p, crc)) <==> d.entryOf(p.id).None? || crc == SenderCrc(d, p)
  {
    var f := Serialize(p, crc);
    FieldsRoundTrip(d, p, crc);
    var n := HeaderLen(f[0]) + f[1];
    assert f[..n] == Header(p) + p.payload;
    assert f[1..n] == f[..n][1..];
    assert f[n] == crc % 256 && f[n + 1] == crc / 256;
  }

  /** A transmission is packets with arbitrary bytes between them that are not magic bytes. */
  datatype Burst = Burst(noise: seq<byte>, packet: Packet)

  predicate QuietBursts(bs: seq<Burst>)
  {
    forall i :: 0 <= i < |bs| ==>
      WellFormed(bs[i].packet) && forall j :: 0 <= j < |bs[i].noise| ==> !IsMagic(bs[i].noise[j])
  }

  function Sent(d: Dialect, bs: seq<Burst>): (s: seq<byte>)
    requires QuietBursts(bs)
    requires SixteenBit(d)
  {
    if bs == [] then []
    else bs[0].noise + (Serialize(bs[0].packet, SenderCrc(d, bs[0].packet)) + Sent(d, bs[1..]))
  }

  function Frames(d: Dialect, bs: seq<Burst>): (fs: seq<seq<byte>>)
    requires QuietBursts(bs)
    requires SixteenBit(d)
  {
    if bs == [] then []
    else [Serialize(bs[0].packet, SenderCrc(d, bs[0].packet))] + Frames(d, bs[1..])
  }

  lemma BurstFirst(d: Dialect, noise: seq<byte>, f: seq<byte>, tail: seq<byte>)
    requires forall j :: 0 <= j < |noise| ==> !IsMagic(noise[j])
    requires IsFrame(f) && Acceptable(d, f)
    ensures Delivered(d, Items(noise + (f + tail))) == [f] + Delivered(d, Items(tail))
    ensures Rest(noise + (f + tail)) == Rest(tail)
  {
    var s := noise + (f + tail);
    var n := |noise|;
    assert s[..n] == noise && s[n..] == f + tail;
    SkipNoise(s, n);
    NoiseDeliversNothing(d, noise);
    DeliveredAppend(d, Skips(noise), Items(f + tail));
    FrameFirst(f, tail);
    assert Items(f + tail)[1..] == Items(tail);
  }

  /** Round trip: whatever was sent is recovered, frame by frame, with nothing left undecided. */
  lemma {:induction false} StreamRoundTrip(d: Dialect, bs: seq<Burst>)
    requires QuietBursts(bs)
    requires SixteenBit(d)
    ensures Delivered(d, Items(Sent(d, bs))) == Frames(d, bs)
    ensures Rest(Sent(d, bs)) == []
  {
    if bs != [] {
      var p := bs[0].packet;
      var f := Serialize(p, SenderCrc(d, p));
      ChecksumDecides(d, p, SenderCrc(d, p));
      BurstFirst(d, bs[0].noise, f, Sent(d, bs[1..]));
      StreamRoundTrip(d, bs[1..]);
    }
  }
}

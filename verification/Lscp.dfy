/** LSCP/1 capture frames (src/nets/scope_trace.rs). Floating-point fields are
kept as their raw bits. */
module Lscp {
  import opened Bytes

  const MAGIC := 0x5043_534C
  const VERSION := 1
  const HEADER_SIZE := 64
  const DESC_SIZE := 16

  datatype Coupling = Dc | Ac | Gnd

  datatype Channel = Channel(letter: char, rangeCode: byte, coupling: Coupling, scaleBits: nat, offsetBits: nat) {
    predicate Valid() {
      'A' <= letter <= 'Z' && scaleBits < Power256(4) && offsetBits < Power256(4)
    }
  }

  datatype Capture = Capture(
    seqNo: nat, monoNs: nat, intervalBits: nat, preTrigger: nat, postTrigger: nat, perChannel: nat,
    resolutionBits: byte, overflowMask: nat, flags: nat, screenSamples: nat,
    channels: seq<Channel>, samples: seq<int>)
  {
    /** Every field fits its place in a frame. */
    predicate Valid() {
      && seqNo < Power256(8) && monoNs < Power256(8) && intervalBits < Power256(8)
      && preTrigger < Power256(4) && postTrigger < Power256(4) && perChannel < Power256(4)
      && overflowMask < Power256(2) && flags < Power256(2) && screenSamples < Power256(4)
      && |channels| < 256
      && (forall i :: 0 <= i < |channels| ==> channels[i].Valid())
      && |samples| == perChannel * |channels|
      && forall i :: 0 <= i < |samples| ==> -0x8000 <= samples[i] < 0x8000
    }
  }

  // ----- little-endian numbers

  function Power256(n: nat): (p: nat)
    ensures p > 0
  {
    if n == 0 then 1 else 256 * Power256(n - 1)
  }

  /** The `n`-byte little-endian number at `at`. */
  function Le(b: bytes, at: nat, n: nat): (v: nat)
    requires at + n <= |b|
    ensures v < Power256(n)
    decreases n
  {
    if n == 0 then 0 else b[at] + 256 * Le(b, at + 1, n - 1)
  }

  /** Byte `k` of a little-endian number. */
  function ByteOf(v: nat, k: nat): byte {
    if k == 0 then v % 256 else ByteOf(v / 256, k - 1)
  }

  /** A number is read back from its bytes. */
  lemma {:induction false} LeReads(b: bytes, at: nat, n: nat, v: nat)
    requires at + n <= |b| && v < Power256(n)
    requires forall k :: 0 <= k < n ==> b[at + k] == ByteOf(v, k)
    ensures Le(b, at, n) == v
    decreases n
  {
    if n > 0 {
      forall k | 0 <= k < n - 1
        ensures b[at + 1 + k] == ByteOf(v / 256, k)
      {
        assert b[at + (k + 1)] == ByteOf(v, k + 1);
      }
      LeReads(b, at + 1, n - 1, v / 256);
      assert b[at + 0] == ByteOf(v, 0) == v % 256;
    }
  }

  /** The bytes are those of the number read from them. */
  lemma {:induction false} LeBytes(b: bytes, at: nat, n: nat, k: nat)
    requires at + n <= |b| && k < n
    ensures ByteOf(Le(b, at, n), k) == b[at + k]
    decreases n
  {
    if k > 0 {
      LeBytes(b, at + 1, n - 1, k - 1);
    }
  }

  function Signed(v: nat): int {
    if v < 0x8000 then v else v - 0x1_0000
  }

  function Unsigned(v: int): nat
    requires -0x8000 <= v < 0x8000
  {
    if v < 0 then v + 0x1_0000 else v
  }

  // ----- what a frame says

  function FrameLength(count: nat, perChannel: nat): nat {
    HEADER_SIZE + DESC_SIZE * count + perChannel * count * 2
  }

  predicate WellFormed(b: bytes) {
    && HEADER_SIZE <= |b|
    && Le(b, 0, 4) == MAGIC && Le(b, 4, 2) == VERSION
    && |b| == FrameLength(b[44], Le(b, 40, 4))
    && GoodCodes(b, b[44])
  }

  /** Every descriptor names a channel A to Z. */
  predicate GoodCodes(b: bytes, count: nat) {
    forall i :: 0 <= i < count ==> HEADER_SIZE + DESC_SIZE * i < |b| && b[HEADER_SIZE + DESC_SIZE * i] <= 25
  }

  function CouplingOf(code: byte): Coupling {
    match code
    case 1 => Ac
    case 2 => Gnd
    case _ => Dc
  }

  function CouplingCode(c: Coupling): byte {
    match c
    case Dc => 0
    case Ac => 1
    case Gnd => 2
  }

  /** Descriptor `i` of a frame. */
  ghost predicate SaysChannel(b: bytes, i: nat, c: Channel) {
    var at := HEADER_SIZE + DESC_SIZE * i;
    && at + DESC_SIZE <= |b|
    && 'A' <= c.letter <= 'Z' && b[at] == c.letter as int - 65
    && b[at + 1] == c.rangeCode && CouplingOf(b[at + 2]) == c.coupling
    && Le(b, at + 4, 4) == c.scaleBits && Le(b, at + 8, 4) == c.offsetBits
  }

  /** The frame `b` carries the capture `c`. */
  ghost predicate Says(b: bytes, c: Capture) {
    && WellFormed(b)
    && Le(b, 6, 2) == c.flags && Le(b, 8, 8) == c.seqNo && Le(b, 16, 8) == c.monoNs
    && Le(b, 24, 8) == c.intervalBits && Le(b, 32, 4) == c.preTrigger && Le(b, 36, 4) == c.postTrigger
    && Le(b, 40, 4) == c.perChannel && b[45] == c.resolutionBits && Le(b, 46, 2) == c.overflowMask
    && Le(b, 48, 4) == c.screenSamples
    && |c.channels| == b[44] && (forall i :: 0 <= i < |c.channels| ==> SaysChannel(b, i, c.channels[i]))
    && |c.samples| == c.perChannel * b[44]
    && (forall j :: 0 <= j < |c.samples| ==>
          Signed(Le(b, HEADER_SIZE + DESC_SIZE * b[44] + 2 * j, 2)) == c.samples[j])
  }

  /** The frames that decode, byte by byte: "LSCP", version 1, a length of 64
  bytes, 16 a channel and two a sample, and channels A to Z. */
  lemma WellFormedExactly(b: bytes)
    ensures WellFormed(b) <==>
      && 64 <= |b| && b[..6] == Ascii("LSCP") + [1, 0]
      && var count: int, samples: int := b[44], Number(b[40..44]);
         && |b| == 64 + 16 * count + 2 * count * samples
         && forall i :: 0 <= i < count ==> 64 + 16 * i < |b| && b[64 + 16 * i] <= 25
  {
    hide Le, Number;
    if 64 <= |b| {
      StartExactly(b);
      FourBytes(b, 40);
      LengthAndCodes(b, Le(b, 40, 4));
    }
  }

  lemma StartExactly(b: bytes)
    requires 6 <= |b|
    ensures Le(b, 0, 4) == MAGIC && Le(b, 4, 2) == VERSION <==> b[..6] == Ascii("LSCP") + [1, 0]
  {
    hide Le, Number;
    FourBytes(b, 0);
    TwoBytes(b, 4);
    MagicExactly(b[0..4]);
    assert b[4] as int + 0x100 * b[5] as int == 1 <==> b[4] == 1 && b[5] == 0;
    var start := Ascii("LSCP") + [1, 0];
    assert b[..6] == b[0..4] + [b[4], b[5]];
    assert start[..4] == Ascii("LSCP") && start[4..] == [1, 0];
    assert b[..6][..4] == b[0..4] && b[..6][4..] == [b[4], b[5]];
  }

  lemma MagicExactly(four: bytes)
    requires |four| == 4
    ensures Number(four) == MAGIC <==> four == Ascii("LSCP")
  {
    assert Ascii("LSCP") == [0x4C, 0x53, 0x43, 0x50];
    assert four == [four[0], four[1], four[2], four[3]];
  }

  lemma LengthAndCodes(b: bytes, samples: nat)
    requires 64 <= |b|
    ensures var count: int := b[44];
      |b| == FrameLength(count, samples) && GoodCodes(b, count) <==>
        && |b| == 64 + 16 * count + 2 * count * samples
        && forall i :: 0 <= i < count ==> 64 + 16 * i < |b| && b[64 + 16 * i] <= 25
  {
    var count: int := b[44];
    assert FrameLength(count, samples) == 64 + 16 * count + 2 * count * samples;
  }

  /** Four bytes as a number, the least first. */
  function Number(four: bytes): int
    requires |four| == 4
  {
    var a: int, b: int, c: int, d: int := four[0], four[1], four[2], four[3];
    a + 0x100 * b + 0x1_0000 * c + 0x100_0000 * d
  }

  lemma FourBytes(b: bytes, at: nat)
    requires at + 4 <= |b|
    ensures Le(b, at, 4) == Number(b[at..at + 4])
  {
    TwoBytes(b, at + 2);
    assert Le(b, at, 4) == b[at] + 256 * Le(b, at + 1, 3);
    assert Le(b, at + 1, 3) == b[at + 1] + 256 * Le(b, at + 2, 2);
  }

  lemma TwoBytes(b: bytes, at: nat)
    requires at + 2 <= |b|
    ensures var x: int, y: int := b[at], b[at + 1]; Le(b, at, 2) == x + 0x100 * y
  {
    assert Le(b, at + 2, 0) == 0;
    assert Le(b, at + 1, 1) == b[at + 1];
  }

  /** A frame carries at most one capture. */
  lemma SaysOne(b: bytes, c: Capture, d: Capture)
    requires Says(b, c) && Says(b, d)
    ensures c == d
  {
    forall i | 0 <= i < |c.channels|
      ensures c.channels[i] == d.channels[i]
    {
      assert SaysChannel(b, i, c.channels[i]) && SaysChannel(b, i, d.channels[i]);
    }
    assert c.channels == d.channels;
    assert c.samples == d.samples;
  }

  // ----- the decoder

  method DecodeChannels(b: bytes, count: nat) returns (channels: Option<seq<Channel>>)
    requires HEADER_SIZE + DESC_SIZE * count <= |b|
    ensures channels.Some? <==> GoodCodes(b, count)
    ensures channels.Some? ==> |channels.value| == count
    ensures channels.Some? ==>
      forall i :: 0 <= i < count ==> SaysChannel(b, i, channels.value[i]) && channels.value[i].Valid()
  {
    hide Le;
    var cs := [];
    for i := 0 to count
      invariant |cs| == i
      invariant forall k :: 0 <= k < i ==>
        b[HEADER_SIZE + DESC_SIZE * k] <= 25 && SaysChannel(b, k, cs[k]) && cs[k].Valid()
    {
      var at := HEADER_SIZE + DESC_SIZE * i;
      var code := b[at];
      if code > 25 {
        return None;
      }
      cs := cs + [Channel((code + 65) as char, b[at + 1], CouplingOf(b[at + 2]),
                          Le(b, at + 4, 4), Le(b, at + 8, 4))];
    }
    return Some(cs);
  }

  /** Decode one frame. It succeeds exactly on the well-formed frames, with
  the one capture the frame carries. */
  method Decode(b: bytes) returns (r: Option<Capture>)
    ensures r.Some? <==> WellFormed(b)
    ensures r.Some? ==> r.value.Valid() && Says(b, r.value)
  {
    hide Le, SaysChannel, GoodCodes;
    if |b| < HEADER_SIZE || Le(b, 0, 4) != MAGIC || Le(b, 4, 2) != VERSION {
      return None;
    }
    var count := b[44];
    var descriptorsEnd := HEADER_SIZE + count * DESC_SIZE;
    if |b| < descriptorsEnd {
      return None;
    }
    var channels := DecodeChannels(b, count);
    if channels.None? {
      return None;
    }
    var perChannel := Le(b, 40, 4);
    var expected := perChannel * count * 2;
    if |b| - descriptorsEnd != expected {
      return None;
    }
    PowersOf256();
    var total := perChannel * count;
    var samples := seq(total, j requires 0 <= j < total => Signed(Le(b, descriptorsEnd + 2 * j, 2)));
    return Some(Capture(Le(b, 8, 8), Le(b, 16, 8), Le(b, 24, 8), Le(b, 32, 4), Le(b, 36, 4), perChannel,
                        b[45], Le(b, 46, 2), Le(b, 6, 2), Le(b, 48, 4), channels.value, samples));
  }

  /** The sequence number of a frame, without decoding the rest. */
  function PeekSeq(b: bytes): Option<nat> {
    if |b| >= HEADER_SIZE && Le(b, 0, 4) == MAGIC then Some(Le(b, 8, 8)) else None
  }

  // ----- the encoder

  function HeaderByte(c: Capture, i: nat): byte
    requires |c.channels| < 256
  {
    if i < 4 then ByteOf(MAGIC, i)
    else if i < 6 then ByteOf(VERSION, i - 4)
    else if i < 8 then ByteOf(c.flags, i - 6)
    else if i < 16 then ByteOf(c.seqNo, i - 8)
    else if i < 24 then ByteOf(c.monoNs, i - 16)
    else if i < 32 then ByteOf(c.intervalBits, i - 24)
    else if i < 36 then ByteOf(c.preTrigger, i - 32)
    else if i < 40 then ByteOf(c.postTrigger, i - 36)
    else if i < 44 then ByteOf(c.perChannel, i - 40)
    else if i == 44 then |c.channels|
    else if i == 45 then c.resolutionBits
    else if i < 48 then ByteOf(c.overflowMask, i - 46)
    else if i < 52 then ByteOf(c.screenSamples, i - 48)
    else 0
  }

  function DescByte(c: Channel, i: nat): byte
    requires c.Valid()
  {
    if i == 0 then c.letter as int - 65
    else if i == 1 then c.rangeCode
    else if i == 2 then CouplingCode(c.coupling)
    else if 4 <= i < 8 then ByteOf(c.scaleBits, i - 4)
    else if 8 <= i < 12 then ByteOf(c.offsetBits, i - 8)
    else 0
  }

  function FrameByte(c: Capture, i: nat): byte
    requires c.Valid() && i < FrameSize(c)
  {
    var d := i - HEADER_SIZE;
    var s := d - DESC_SIZE * |c.channels|;
    if d < 0 then HeaderByte(c, i)
    else if s < 0 then DescByte(c.channels[d / DESC_SIZE], d % DESC_SIZE)
    else ByteOf(Unsigned(c.samples[s / 2]), s % 2)
  }

  function FrameSize(c: Capture): nat {
    HEADER_SIZE + DESC_SIZE * |c.channels| + 2 * |c.samples|
  }

  /** The frame of a capture, unused bytes zero. */
  function Frame(c: Capture): bytes
    requires c.Valid()
  {
    seq(FrameSize(c), i requires 0 <= i < FrameSize(c) => FrameByte(c, i))
  }

  lemma HeaderField(c: Capture, at: nat, n: nat, v: nat)
    requires c.Valid() && at + n <= HEADER_SIZE && v < Power256(n)
    requires forall k :: 0 <= k < n ==> HeaderByte(c, at + k) == ByteOf(v, k)
    ensures Le(Frame(c), at, n) == v
  {
    LeReads(Frame(c), at, n, v);
  }

  lemma FrameHeader(c: Capture)
    requires c.Valid()
    ensures var b := Frame(c);
      && Le(b, 0, 4) == MAGIC && Le(b, 4, 2) == VERSION
      && Le(b, 6, 2) == c.flags && Le(b, 8, 8) == c.seqNo && Le(b, 16, 8) == c.monoNs
      && Le(b, 24, 8) == c.intervalBits && Le(b, 32, 4) == c.preTrigger && Le(b, 36, 4) == c.postTrigger
      && Le(b, 40, 4) == c.perChannel && b[44] == |c.channels| && b[45] == c.resolutionBits
      && Le(b, 46, 2) == c.overflowMask && Le(b, 48, 4) == c.screenSamples
  {
    hide ByteOf, Le;
    assert MAGIC < Power256(4) && VERSION < Power256(2) by {
      PowersOf256();
    }
    HeaderField(c, 0, 4, MAGIC);
    HeaderField(c, 4, 2, VERSION);
    HeaderField(c, 6, 2, c.flags);
    HeaderField(c, 8, 8, c.seqNo);
    HeaderField(c, 16, 8, c.monoNs);
    HeaderField(c, 24, 8, c.intervalBits);
    HeaderField(c, 32, 4, c.preTrigger);
    HeaderField(c, 36, 4, c.postTrigger);
    HeaderField(c, 40, 4, c.perChannel);
    HeaderField(c, 46, 2, c.overflowMask);
    HeaderField(c, 48, 4, c.screenSamples);
  }

  lemma PowersOf256()
    ensures Power256(1) == 0x100 && Power256(2) == 0x1_0000 && Power256(4) == 0x1_0000_0000
  {
    assert Power256(3) == 0x100_0000;
  }

  lemma DescriptorByte(c: Capture, i: nat, j: nat)
    requires c.Valid() && i < |c.channels| && j < DESC_SIZE
    ensures var at := HEADER_SIZE + DESC_SIZE * i + j;
      at < FrameSize(c) && Frame(c)[at] == DescByte(c.channels[i], j)
  {
    hide ByteOf, HeaderByte, DescByte;
    var d := DESC_SIZE * i + j;
    assert d / DESC_SIZE == i && d % DESC_SIZE == j;
  }

  lemma FrameDescriptor(c: Capture, i: nat)
    requires c.Valid() && i < |c.channels|
    ensures SaysChannel(Frame(c), i, c.channels[i])
    ensures HEADER_SIZE + DESC_SIZE * i < |Frame(c)| && Frame(c)[HEADER_SIZE + DESC_SIZE * i] <= 25
  {
    hide ByteOf, Le, FrameByte;
    var at, ch := HEADER_SIZE + DESC_SIZE * i, c.channels[i];
    forall j: nat | j < DESC_SIZE
      ensures at + j < |Frame(c)| && Frame(c)[at + j] == DescByte(ch, j)
    {
      DescriptorByte(c, i, j);
    }
    var b := Frame(c);
    hide Frame;
    assert b[at + 0] == DescByte(ch, 0);
    assert b[at + 1] == DescByte(ch, 1) && b[at + 2] == DescByte(ch, 2);
    forall k: nat | k < 4
      ensures b[at + 4 + k] == ByteOf(ch.scaleBits, k) && b[at + 8 + k] == ByteOf(ch.offsetBits, k)
    {
      assert b[at + (4 + k)] == DescByte(ch, 4 + k);
      assert b[at + (8 + k)] == DescByte(ch, 8 + k);
    }
    LeReads(b, at + 4, 4, ch.scaleBits);
    LeReads(b, at + 8, 4, ch.offsetBits);
  }

  lemma FrameSample(c: Capture, j: nat)
    requires c.Valid() && j < |c.samples|
    ensures Signed(Le(Frame(c), HEADER_SIZE + DESC_SIZE * |c.channels| + 2 * j, 2)) == c.samples[j]
  {
    hide ByteOf, Le;
    var b, at, v := Frame(c), HEADER_SIZE + DESC_SIZE * |c.channels| + 2 * j, Unsigned(c.samples[j]);
    forall k | 0 <= k < 2
      ensures b[at + k] == ByteOf(v, k)
    {
      assert (2 * j + k) / 2 == j && (2 * j + k) % 2 == k;
    }
    PowersOf256();
    LeReads(b, at, 2, v);
  }

  /** Encoding is a right inverse of decoding: the frame of a capture is well
  formed and carries that capture. */
  lemma FrameSays(c: Capture)
    requires c.Valid()
    ensures Says(Frame(c), c)
  {
    FrameHeader(c);
    forall i | 0 <= i < |c.channels|
      ensures SaysChannel(Frame(c), i, c.channels[i])
      ensures HEADER_SIZE + DESC_SIZE * i < |Frame(c)| && Frame(c)[HEADER_SIZE + DESC_SIZE * i] <= 25
    {
      FrameDescriptor(c, i);
    }
    forall j | 0 <= j < |c.samples|
      ensures Signed(Le(Frame(c), HEADER_SIZE + DESC_SIZE * |c.channels| + 2 * j, 2)) == c.samples[j]
    {
      FrameSample(c, j);
    }
    hide Le, SaysChannel;
  }

  /** Decoding the frame of a capture restores the capture. */
  method DecodeFrame(c: Capture) returns (r: Option<Capture>)
    requires c.Valid()
    ensures r == Some(c)
  {
    FrameSays(c);
    r := Decode(Frame(c));
    SaysOne(Frame(c), r.value, c);
  }

  /** The bytes of a frame that mean something; a coupling code other than 1
  or 2 means DC whatever it is. */
  predicate Used(i: nat, count: nat) {
    var d := i - HEADER_SIZE;
    if d < 0 then i < 52
    else if d < DESC_SIZE * count then d % DESC_SIZE in {0, 1, 4, 5, 6, 7, 8, 9, 10, 11}
    else true
  }

  /** The bytes that say nothing: 52 to 63, and 2, 3 and 12 to 15 of each channel's. */
  lemma UnusedExactly(i: nat, count: nat)
    ensures !Used(i, count) <==>
      52 <= i < 64 || (64 <= i < 64 + 16 * count && (i - 64) % 16 in {2, 3, 12, 13, 14, 15})
  {
  }

  lemma HeaderKept(b: bytes, c: Capture, i: nat)
    requires Says(b, c) && |c.channels| < 256 && i < 52
    ensures HeaderByte(c, i) == b[i]
  {
    hide Le, ByteOf;
    if i < 4 { LeBytes(b, 0, 4, i); }
    else if i < 6 { LeBytes(b, 4, 2, i - 4); }
    else if i < 8 { LeBytes(b, 6, 2, i - 6); }
    else if i < 16 { LeBytes(b, 8, 8, i - 8); }
    else if i < 24 { LeBytes(b, 16, 8, i - 16); }
    else if i < 32 { LeBytes(b, 24, 8, i - 24); }
    else if i < 36 { LeBytes(b, 32, 4, i - 32); }
    else if i < 40 { LeBytes(b, 36, 4, i - 36); }
    else if i < 44 { LeBytes(b, 40, 4, i - 40); }
    else if i >= 48 { LeBytes(b, 48, 4, i - 48); }
    else if i >= 46 { LeBytes(b, 46, 2, i - 46); }
  }

  lemma DescriptorKept(b: bytes, i: nat, c: Channel, j: nat)
    requires SaysChannel(b, i, c) && c.Valid() && j in {0, 1, 4, 5, 6, 7, 8, 9, 10, 11}
    ensures DescByte(c, j) == b[HEADER_SIZE + DESC_SIZE * i + j]
  {
    hide Le, ByteOf;
    var at := HEADER_SIZE + DESC_SIZE * i;
    if 4 <= j < 8 {
      LeBytes(b, at + 4, 4, j - 4);
    } else if 8 <= j {
      LeBytes(b, at + 8, 4, j - 8);
    }
  }

  lemma SampleKept(b: bytes, c: Capture, i: nat, j: nat)
    requires Says(b, c) && i < |c.samples| && j < 2
    ensures var at := HEADER_SIZE + DESC_SIZE * b[44] + 2 * i;
      at + j < |b| && ByteOf(Unsigned(c.samples[i]), j) == b[at + j]
  {
    hide Le, ByteOf;
    var at := HEADER_SIZE + DESC_SIZE * b[44] + 2 * i;
    assert Signed(Le(b, at, 2)) == c.samples[i];
    PowersOf256();
    assert Unsigned(c.samples[i]) == Le(b, at, 2);
    LeBytes(b, at, 2, j);
  }

  /** Decoding loses nothing but unused bytes: encoding what a frame says
  gives back every byte of it that means something. */
  lemma ReencodeKeeps(b: bytes, c: Capture, i: nat)
    requires Says(b, c) && c.Valid() && i < |b|
    ensures |Frame(c)| == |b|
    ensures Used(i, |c.channels|) ==> Frame(c)[i] == b[i]
  {
    hide Le, ByteOf, HeaderByte, DescByte, GoodCodes;
    var d := i - HEADER_SIZE;
    var s := d - DESC_SIZE * |c.channels|;
    if Used(i, |c.channels|) {
      if d < 0 {
        HeaderKept(b, c, i);
      } else if s < 0 {
        var k := d / DESC_SIZE;
        assert SaysChannel(b, k, c.channels[k]);
        DescriptorKept(b, k, c.channels[k], d % DESC_SIZE);
      } else {
        SampleKept(b, c, s / 2, s % 2);
      }
    }
  }

  // ----- the samples of one channel

  function ToUpper(letter: char): char {
    if 'a' <= letter <= 'z' then letter - 32 as char else letter
  }

  /** A letter is found by itself, or by its small form. */
  lemma UpperExactly(upper: char, letter: char)
    requires 'A' <= upper <= 'Z'
    ensures upper == ToUpper(letter) <==> letter == upper || letter as int == upper as int + 32
  {
  }

  /** Position of the first channel with this letter, in either case. */
  method ChannelIndex(c: Capture, letter: char) returns (index: Option<nat>)
    ensures index.Some? ==> index.value < |c.channels| && c.channels[index.value].letter == ToUpper(letter)
    ensures index.Some? ==> forall i :: 0 <= i < index.value ==> c.channels[i].letter != ToUpper(letter)
    ensures index.None? ==> forall i :: 0 <= i < |c.channels| ==> c.channels[i].letter != ToUpper(letter)
  {
    for i := 0 to |c.channels|
      invariant forall k :: 0 <= k < i ==> c.channels[k].letter != ToUpper(letter)
    {
      if c.channels[i].letter == ToUpper(letter) {
        return Some(i);
      }
    }
    return None;
  }

  /** The samples at one channel index. */
  function CountsAt(c: Capture, index: nat): Option<seq<int>> {
    var n := c.perChannel;
    if (index + 1) * n <= |c.samples| && index * n <= (index + 1) * n
    then Some(c.samples[index * n..(index + 1) * n]) else None
  }

  function Joined(c: Capture, upTo: nat): seq<int> {
    if upTo == 0 then []
    else Joined(c, upTo - 1) + (match CountsAt(c, upTo - 1) case Some(s) => s case None => [])
  }

  lemma CountsAtIs(c: Capture, i: nat)
    requires c.Valid() && i < |c.channels|
    ensures (i + 1) * c.perChannel == i * c.perChannel + c.perChannel <= |c.samples|
    ensures CountsAt(c, i) == Some(c.samples[i * c.perChannel..(i + 1) * c.perChannel])
    ensures |CountsAt(c, i).value| == c.perChannel
  {
    MulMonotone(i + 1, |c.channels|, c.perChannel);
    assert (i + 1) * c.perChannel == i * c.perChannel + c.perChannel;
  }

  lemma SplitPrefix(s: seq<int>, from: nat, to: nat)
    requires from <= to <= |s|
    ensures s[..to] == s[..from] + s[from..to]
  {
  }

  lemma {:induction false} SlicesJoin(c: Capture, upTo: nat)
    requires c.Valid() && upTo <= |c.channels|
    ensures upTo * c.perChannel <= |c.samples|
    ensures Joined(c, upTo) == c.samples[..upTo * c.perChannel]
  {
    hide CountsAt;
    if upTo > 0 {
      SlicesJoin(c, upTo - 1);
      CountsAtIs(c, upTo - 1);
      SplitPrefix(c.samples, (upTo - 1) * c.perChannel, upTo * c.perChannel);
    }
  }

  /** The channels' slices, laid end to end, are the sample array: each
  exists, has the captured length, and none overlaps another. */
  lemma SlicesTile(c: Capture)
    requires c.Valid()
    ensures Joined(c, |c.channels|) == c.samples
    ensures forall i :: 0 <= i < |c.channels| ==>
      CountsAt(c, i).Some? && |CountsAt(c, i).value| == c.perChannel
  {
    hide CountsAt, Joined;
    SlicesJoin(c, |c.channels|);
    assert |c.channels| * c.perChannel == |c.samples|;
    assert c.samples[..|c.samples|] == c.samples;
    forall i | 0 <= i < |c.channels|
      ensures CountsAt(c, i).Some? && |CountsAt(c, i).value| == c.perChannel
    {
      CountsAtIs(c, i);
    }
  }

  lemma MulMonotone(a: nat, b: nat, n: nat)
    requires a <= b
    ensures a * n <= b * n
  {
    assert b * n == a * n + (b - a) * n;
  }
}

/** The PES header around a SMPTE ST 2038 payload (Table 2 of SMPTE ST 2038-2008). */
module PesHeaders {
  import opened Bits
  import opened Wrappers
  import opened VancPackets
  import opened Smpte2038

  // ---- wire format ------------------------------------------------------------------------

  function StartBits(length: nat, tail: seq<bool>): (b: seq<bool>)
    ensures |b| == 48 + |tail|
  {
    ToBits(1, 24) + (ToBits(0xBD, 8) + (ToBits(length, 16) + tail))
  }

  function FlagBits(tail: seq<bool>): (b: seq<bool>)
    ensures |b| == 8 + |tail|
  {
    ToBits(2, 2) + (ToBits(0, 2) + (ToBits(0, 1) + (ToBits(1, 1) + (ToBits(0, 1) + (ToBits(0, 1) + tail)))))
  }

  function ClockBits(tail: seq<bool>): (b: seq<bool>)
    ensures |b| == 5 + |tail|
  {
    ToBits(2, 2) + (ToBits(0, 1) + (ToBits(0, 1) + (ToBits(0, 1) + tail)))
  }

  function ExtensionBits(tail: seq<bool>): (b: seq<bool>)
    ensures |b| == 11 + |tail|
  {
    ToBits(0, 1) + (ToBits(0, 1) + (ToBits(0, 1) + (ToBits(5, 8) + tail)))
  }

  function PresenceBits(tail: seq<bool>): (b: seq<bool>)
    ensures |b| == 16 + |tail|
  {
    ClockBits(ExtensionBits(tail))
  }

  function PtsHighBits(pts: nat, tail: seq<bool>): (b: seq<bool>)
    ensures |b| == 8 + |tail|
  {
    ToBits(2, 4) + (ToBits(pts / 0x4000_0000, 3) + (ToBits(1, 1) + tail))
  }

  function PtsLowBits(pts: nat, tail: seq<bool>): (b: seq<bool>)
    ensures |b| == 32 + |tail|
  {
    ToBits((pts / 0x8000) % 0x8000, 15) + (ToBits(1, 1) + (ToBits(pts % 0x8000, 15) + (ToBits(1, 1) + tail)))
  }

  function PtsBits(pts: nat, tail: seq<bool>): (b: seq<bool>)
    ensures |b| == 40 + |tail|
  {
    PtsHighBits(pts, PtsLowBits(pts, tail))
  }

  function PesBits(length: nat, pts: nat, tail: seq<bool>): (b: seq<bool>)
    ensures |b| == 112 + |tail|
  {
    StartBits(length, FlagBits(PresenceBits(PtsBits(pts, tail))))
  }

  // ---- the parser as a function of the bits -------------------------------------------------

  datatype Pes = Pes(
    packetLength: nat, priority: nat, dataAlignment: nat, copyright: nat, originalOrCopy: nat, pts: nat)

  function ParseStart(r0: seq<bool>): (res: Option<(nat, seq<bool>)>)
    requires |r0| >= 48
    ensures res.Some? ==> |res.value.1| == |r0| - 48
  {
    var prefix, r1 := FromBits(r0[..24]), r0[24..];
    var streamId, r2 := FromBits(r1[..8]), r1[8..];
    if prefix != 1 || streamId != 0xBD then None else Some((FromBits(r2[..16]), r2[16..]))
  }

  /** Priority, alignment, copyright and original-or-copy, once the scrambling control is zero. */
  function ParseFlags(r0: seq<bool>): (res: Option<((nat, nat, nat, nat), seq<bool>)>)
    requires |r0| >= 8
    ensures res.Some? ==> |res.value.1| == |r0| - 8
  {
    var r1 := r0[2..];
    var scrambling, r2 := FromBits(r1[..2]), r1[2..];
    var priority, r3 := FromBits(r2[..1]), r2[1..];
    var alignment, r4 := FromBits(r3[..1]), r3[1..];
    var copyright, r5 := FromBits(r4[..1]), r4[1..];
    var original, r6 := FromBits(r5[..1]), r5[1..];
    if scrambling != 0 then None else Some(((priority, alignment, copyright, original), r6))
  }

  /** Only a PTS may be present. */
  function ParsePresence(r0: seq<bool>): (res: Option<seq<bool>>)
    requires |r0| >= 16
    ensures res.Some? ==> |res.value| == |r0| - 16
  {
    var ptsDts, r1 := FromBits(r0[..2]), r0[2..];
    var escr, r2 := FromBits(r1[..1]), r1[1..];
    var esRate, r3 := FromBits(r2[..1]), r2[1..];
    var trick, r4 := FromBits(r3[..1]), r3[1..];
    var extraCopy, r5 := FromBits(r4[..1]), r4[1..];
    var crc, r6 := FromBits(r5[..1]), r5[1..];
    var extension, r7 := FromBits(r6[..1]), r6[1..];
    var headerLength, r8 := FromBits(r7[..8]), r7[8..];
    if ptsDts != 2 || escr != 0 || esRate != 0 || trick != 0 || extraCopy != 0 || crc != 0 || extension != 0
       || headerLength != 5 then None else Some(r8)
  }

  function ParsePts(r0: seq<bool>): (res: (nat, seq<bool>))
    requires |r0| >= 40
    ensures |res.1| == |r0| - 40
  {
    var r1 := r0[4..];
    var a, r2 := FromBits(r1[..3]), r1[3..][1..];
    var b, r3 := FromBits(r2[..15]), r2[15..][1..];
    var c, r4 := FromBits(r3[..15]), r3[15..][1..];
    (a * 0x4000_0000 + b * 0x8000 + c, r4)
  }

  datatype PesOutcome = PesBad | PesOk(pes: Pes, body: Outcome)

  /** The result of parsing a whole PES packet of at least a header. */
  function ParsePes(r: seq<bool>): PesOutcome
    requires |r| >= 112
  {
    var start := ParseStart(r);
    if start.None? then PesBad else
    var flags := ParseFlags(start.value.1);
    if flags.None? then PesBad else
    var presence := ParsePresence(flags.value.1);
    if presence.None? then PesBad else
    var (pts, rest) := ParsePts(presence.value);
    var (priority, alignment, copyright, original) := flags.value.0;
    PesOk(Pes(start.value.0, priority, alignment, copyright, original, pts), ParsePayload(rest, |rest| / 8))
  }

  // ---- reading back -----------------------------------------------------------------------

  /** Every field of a PES header with a PTS, whoever wrote it. */
  datatype WireHeader = WireHeader(
    prefix: nat, streamId: nat, length: nat, mark: nat, scrambling: nat, priority: nat, alignment: nat, copyright: nat,
    original: nat, ptsDts: nat, escr: nat, esRate: nat, trick: nat, extraCopy: nat, crc: nat, extension: nat,
    headerLength: nat, ptsMark: nat, ptsHigh: nat, marker1: nat, ptsMid: nat, marker2: nat, ptsLow: nat, marker3: nat)

  function WireStart(h: WireHeader, tail: seq<bool>): (b: seq<bool>)
    ensures |b| == 48 + |tail|
  {
    ToBits(h.prefix, 24) + (ToBits(h.streamId, 8) + (ToBits(h.length, 16) + tail))
  }

  function WireFlags(h: WireHeader, tail: seq<bool>): (b: seq<bool>)
    ensures |b| == 8 + |tail|
  {
    ToBits(h.mark, 2) + (ToBits(h.scrambling, 2) + (ToBits(h.priority, 1) + (ToBits(h.alignment, 1) +
    (ToBits(h.copyright, 1) + (ToBits(h.original, 1) + tail)))))
  }

  function WirePresence(h: WireHeader, tail: seq<bool>): (b: seq<bool>)
    ensures |b| == 16 + |tail|
  {
    ToBits(h.ptsDts, 2) + (ToBits(h.escr, 1) + (ToBits(h.esRate, 1) + (ToBits(h.trick, 1) + (ToBits(h.extraCopy, 1) +
    (ToBits(h.crc, 1) + (ToBits(h.extension, 1) + (ToBits(h.headerLength, 8) + tail)))))))
  }

  function WirePts(h: WireHeader, tail: seq<bool>): (b: seq<bool>)
    ensures |b| == 40 + |tail|
  {
    ToBits(h.ptsMark, 4) + (ToBits(h.ptsHigh, 3) + (ToBits(h.marker1, 1) + (ToBits(h.ptsMid, 15) +
    (ToBits(h.marker2, 1) + (ToBits(h.ptsLow, 15) + (ToBits(h.marker3, 1) + tail))))))
  }

  function WireBits(h: WireHeader, tail: seq<bool>): (b: seq<bool>)
    ensures |b| == 112 + |tail|
  {
    WireStart(h, WireFlags(h, WirePresence(h, WirePts(h, tail))))
  }

  lemma WireStartBack(h: WireHeader, tail: seq<bool>)
    ensures ParseStart(WireStart(h, tail)) ==
      if h.prefix % 0x100_0000 == 1 && h.streamId % 0x100 == 0xbd then Some((h.length % 0x1_0000, tail)) else None
  {
    hide FromBits, ToBits;
    var r2 := ToBits(h.length, 16) + tail;
    Bits.ReadBack(h.prefix, 24, ToBits(h.streamId, 8) + r2);
    Bits.ReadBack(h.streamId, 8, r2);
    Bits.ReadBack(h.length, 16, tail);
    Pow2Table();
  }

  lemma OneBit(v: nat, tail: seq<bool>)
    ensures FromBits((ToBits(v, 1) + tail)[..1]) == v % 2 && (ToBits(v, 1) + tail)[1..] == tail
  {
    hide FromBits, ToBits;
    Bits.ReadBack(v, 1, tail);
    assert Pow2(1) == 2;
  }

  lemma TwoBits(v: nat, tail: seq<bool>)
    ensures FromBits((ToBits(v, 2) + tail)[..2]) == v % 4 && (ToBits(v, 2) + tail)[2..] == tail
  {
    hide FromBits, ToBits;
    Bits.ReadBack(v, 2, tail);
    assert Pow2(2) == 4;
  }

  lemma WireFlagsBack(h: WireHeader, tail: seq<bool>)
    ensures ParseFlags(WireFlags(h, tail)) ==
      if h.scrambling % 4 == 0
      then Some(((h.priority % 2, h.alignment % 2, h.copyright % 2, h.original % 2), tail)) else None
  {
    hide FromBits, ToBits;
    var r5 := ToBits(h.original, 1) + tail;
    var r4 := ToBits(h.copyright, 1) + r5;
    var r3 := ToBits(h.alignment, 1) + r4;
    var r2 := ToBits(h.priority, 1) + r3;
    var r1 := ToBits(h.scrambling, 2) + r2;
    TwoBits(h.mark, r1);
    TwoBits(h.scrambling, r2);
    OneBit(h.priority, r3);
    OneBit(h.alignment, r4);
    OneBit(h.copyright, r5);
    OneBit(h.original, tail);
  }

  /** Only a PTS may be present: no second time stamp, no clock, rate, trick mode or copy information, no checksum,
      no extension, and a header of five bytes. */
  predicate PtsOnly(h: WireHeader)
  {
    && h.ptsDts % 4 == 2 && h.escr % 2 == 0 && h.esRate % 2 == 0 && h.trick % 2 == 0 && h.extraCopy % 2 == 0
    && h.crc % 2 == 0 && h.extension % 2 == 0 && h.headerLength % 0x100 == 5
  }

  lemma WirePresenceBack(h: WireHeader, tail: seq<bool>)
    ensures ParsePresence(WirePresence(h, tail)) == if PtsOnly(h) then Some(tail) else None
  {
    hide FromBits, ToBits;
    var r7 := ToBits(h.headerLength, 8) + tail;
    var r6 := ToBits(h.extension, 1) + r7;
    var r5 := ToBits(h.crc, 1) + r6;
    var r4 := ToBits(h.extraCopy, 1) + r5;
    var r3 := ToBits(h.trick, 1) + r4;
    var r2 := ToBits(h.esRate, 1) + r3;
    var r1 := ToBits(h.escr, 1) + r2;
    TwoBits(h.ptsDts, r1);
    OneBit(h.escr, r2);
    OneBit(h.esRate, r3);
    OneBit(h.trick, r4);
    OneBit(h.extraCopy, r5);
    OneBit(h.crc, r6);
    OneBit(h.extension, r7);
    Bits.ReadBack(h.headerLength, 8, tail);
    Pow2Table();
  }

  /** The time stamp the three parts make up. */
  function WireTime(h: WireHeader): nat
  {
    0x4000_0000 * (h.ptsHigh % 8) + 0x8000 * (h.ptsMid % 0x8000) + h.ptsLow % 0x8000
  }

  lemma WirePtsBack(h: WireHeader, tail: seq<bool>)
    ensures ParsePts(WirePts(h, tail)) == (WireTime(h), tail)
  {
    hide FromBits, ToBits;
    var r6 := ToBits(h.marker3, 1) + tail;
    var r5 := ToBits(h.ptsLow, 15) + r6;
    var r4 := ToBits(h.marker2, 1) + r5;
    var r3 := ToBits(h.ptsMid, 15) + r4;
    var r2 := ToBits(h.marker1, 1) + r3;
    var r1 := ToBits(h.ptsHigh, 3) + r2;
    Bits.ReadBack(h.ptsMark, 4, r1);
    Bits.ReadBack(h.ptsHigh, 3, r2);
    OneBit(h.marker1, r3);
    Bits.ReadBack(h.ptsMid, 15, r4);
    OneBit(h.marker2, r5);
    Bits.ReadBack(h.ptsLow, 15, r6);
    OneBit(h.marker3, tail);
    Pow2Table();
    assert Pow2(3) == 8;
  }

  /** A header from any source: accepted exactly for a private stream 1 start code, no scrambling and only a PTS; then
      every field is returned as it stands, whatever the fixed and marker bits are, and the payload is parsed. */
  lemma ForeignPes(h: WireHeader, tail: seq<bool>)
    ensures ParsePes(WireBits(h, tail)) ==
      if h.prefix % 0x100_0000 == 1 && h.streamId % 0x100 == 0xbd && h.scrambling % 4 == 0 && PtsOnly(h)
      then PesOk(Pes(h.length % 0x1_0000, h.priority % 2, h.alignment % 2, h.copyright % 2, h.original % 2,
                     WireTime(h)),
                 ParsePayload(tail, |tail| / 8))
      else PesBad
  {
    hide ParseStart, ParseFlags, ParsePresence, ParsePts, ParsePayload, WireStart, WireFlags, WirePresence, WirePts,
      PtsOnly, WireTime;
    WireStartBack(h, WireFlags(h, WirePresence(h, WirePts(h, tail))));
    WireFlagsBack(h, WirePresence(h, WirePts(h, tail)));
    WirePresenceBack(h, WirePts(h, tail));
    WirePtsBack(h, tail);
  }

  /** The fields the packetizer writes. */
  function OwnHeader(length: nat, pts: nat): WireHeader
  {
    WireHeader(1, 0xbd, length, 2, 0, 0, 1, 0, 0, 2, 0, 0, 0, 0, 0, 0, 5, 2, pts / 0x4000_0000, 1,
               (pts / 0x8000) % 0x8000, 1, pts % 0x8000, 1)
  }

  lemma OwnBits(length: nat, pts: nat, tail: seq<bool>)
    ensures PesBits(length, pts, tail) == WireBits(OwnHeader(length, pts), tail)
    ensures PtsOnly(OwnHeader(length, pts)) && WireTime(OwnHeader(length, pts)) == pts % 0x2_0000_0000
  {
    hide ToBits;
    PtsParts(pts);
  }

  lemma PtsParts(pts: nat)
    ensures (pts / 0x4000_0000) % 8 * 0x4000_0000 + (pts / 0x8000) % 0x8000 * 0x8000 + pts % 0x8000
      == pts % 0x2_0000_0000
  {
    var q, low := pts / 0x8000, pts % 0x8000;
    var high, mid := q / 0x8000, q % 0x8000;
    Bits.DivModUnique(pts, 0x4000_0000, high, 0x8000 * mid + low);
    Bits.DivModUnique(pts, 0x2_0000_0000, high / 8, 0x4000_0000 * (high % 8) + 0x8000 * mid + low);
  }

  function ExpectedPes(length: nat, pts: nat): Pes
  {
    Pes(length % 0x1_0000, 0, 1, 0, 0, pts % 0x2_0000_0000)
  }

  /** Parsing the packetizer's PES gives back every line, in order, and the PTS modulo 2^33. */
  lemma PesRoundTrip(length: nat, pts: nat, ps: seq<Header>)
    requires Short(ps)
    ensures ParsePes(PesBits(length, pts, PayloadBits(ps)))
      == PesOk(ExpectedPes(length, pts), Parsed(ExpectedLines(ps)))
  {
    hide ParsePes, PesBits, WireBits, PtsOnly, WireTime, ParsePayload, PayloadBits, ExpectedLines;
    var body := PayloadBits(ps);
    OwnBits(length, pts, body);
    ForeignPes(OwnHeader(length, pts), body);
    PayloadRoundTrip(ps);
  }

  // ---- the header byte by byte ----------------------------------------------------------------

  lemma StartLayout(n: nat, tail: seq<bool>)
    ensures StartBits(n, tail)
      == BytesBits([0x00, 0x00, 0x01, 0xbd, (n / 0x100) % 0x100, n % 0x100]) + tail
  {
    hide ToBits, BytesBits;
    var code: seq<byte>, size: seq<byte> := [0x00, 0x00, 0x01], [(n / 0x100) % 0x100, n % 0x100];
    BigEndianBits(1, 3);
    BytePair(0);
    assert BigEndian(1, 3) == BigEndian(0, 2) + [1] == code;
    BytePair(n);
    BytesBitsOne(0xbd);
    BytesBitsAppend(code, [0xbd]);
    BytesBitsAppend(code + [0xbd], size);
    assert code + [0xbd] + size == [0x00, 0x00, 0x01, 0xbd, (n / 0x100) % 0x100, n % 0x100];
  }

  lemma FixedLayout(tail: seq<bool>)
    ensures FlagBits(PresenceBits(tail)) == BytesBits([0x84, 0x80, 0x05]) + tail
  {
    FlagByte(PresenceBits(tail));
    PresenceByte(tail);
    hide ToBits, BytesBits, FlagBits, PresenceBits;
    BytesBitsOne(0x84);
    BytesBitsOne(0x80);
    BytesBitsOne(0x05);
    BytesBitsAppend([0x84], [0x80]);
    BytesBitsAppend([0x84] + [0x80], [0x05]);
    assert [0x84] + [0x80] + [0x05] == [0x84, 0x80, 0x05];
  }

  lemma FlagByte(tail: seq<bool>)
    ensures FlagBits(tail) == ToBits(0x84, 8) + tail
  {
    hide ToBits;
    assert Pow2(1) == 2 && Pow2(2) == 4;
    JoinBits(2, 2, 0, 2);
    JoinBits(8, 4, 0, 1);
    JoinBits(16, 5, 1, 1);
    JoinBits(33, 6, 0, 1);
    JoinBits(66, 7, 0, 1);
    SixPieces(ToBits(2, 2), ToBits(0, 2), ToBits(0, 1), ToBits(1, 1), ToBits(0, 1), ToBits(0, 1), tail);
  }

  lemma SixPieces(a: seq<bool>, b: seq<bool>, c: seq<bool>, d: seq<bool>, e: seq<bool>, f: seq<bool>, tail: seq<bool>)
    ensures a + (b + (c + (d + (e + (f + tail))))) == ((((a + b) + c) + d) + e) + f + tail
  {
  }

  lemma PresenceByte(tail: seq<bool>)
    ensures PresenceBits(tail) == ToBits(0x80, 8) + (ToBits(0x05, 8) + tail)
  {
    hide ToBits;
    assert ToBits(0x80, 8) == ToBits(2, 2) + ToBits(0, 6) by {
      JoinBits(2, 2, 0, 6);
      assert Pow2(6) == 0x40;
    }
    assert ToBits(0, 6) == ToBits(0, 1) + (ToBits(0, 1) + (ToBits(0, 1) + (ToBits(0, 1) + (ToBits(0, 1) +
      ToBits(0, 1))))) by {
      JoinBits(0, 1, 0, 1);
      JoinBits(0, 1, 0, 2);
      JoinBits(0, 1, 0, 3);
      JoinBits(0, 1, 0, 4);
      JoinBits(0, 1, 0, 5);
    }
  }

  lemma PtsHighLayout(pts: nat, tail: seq<bool>)
    ensures PtsHighBits(pts, tail) == BytesBits([0x21 + 2 * ((pts / 0x4000_0000) % 8)]) + tail
  {
    hide ToBits, BytesBits;
    var p := pts / 0x4000_0000;
    JoinBits(2, 4, p, 3);
    JoinBits(0x10 + p % 8, 7, 1, 1);
    assert Pow2(3) == 8 && Pow2(1) == 2;
    BytesBitsOne(0x21 + 2 * (p % 8));
  }

  lemma MarkedPair(v: nat, tail: seq<bool>)
    requires v < 0x8000
    ensures ToBits(v, 15) + (ToBits(1, 1) + tail) == BytesBits([v / 0x80, 2 * (v % 0x80) + 1]) + tail
  {
    hide ToBits, BytesBits;
    JoinBits(v, 15, 1, 1);
    assert Pow2(1) == 2;
    BytePair(2 * v + 1);
    assert ((2 * v + 1) / 0x100) % 0x100 == v / 0x80 && (2 * v + 1) % 0x100 == 2 * (v % 0x80) + 1;
  }

  lemma PtsLowLayout(pts: nat, tail: seq<bool>)
    ensures PtsLowBits(pts, tail) == BytesBits([(pts / 0x40_0000) % 0x100, 2 * ((pts / 0x8000) % 0x80) + 1,
      (pts / 0x80) % 0x100, 2 * (pts % 0x80) + 1]) + tail
  {
    hide ToBits, BytesBits;
    var mid, low := (pts / 0x8000) % 0x8000, pts % 0x8000;
    var a: seq<byte>, b: seq<byte> := [mid / 0x80, 2 * (mid % 0x80) + 1], [low / 0x80, 2 * (low % 0x80) + 1];
    MarkedPair(low, tail);
    MarkedPair(mid, BytesBits(b) + tail);
    BytesBitsAppend(a, b);
    SevenBits(pts / 0x8000);
    SevenBits(pts);
    assert a + b == [(pts / 0x40_0000) % 0x100, 2 * ((pts / 0x8000) % 0x80) + 1, (pts / 0x80) % 0x100,
      2 * (pts % 0x80) + 1];
    assert BytesBits(a) + (BytesBits(b) + tail) == (BytesBits(a) + BytesBits(b)) + tail;
  }

  lemma SevenBits(v: nat)
    ensures (v % 0x8000) / 0x80 == (v / 0x80) % 0x100 && (v % 0x8000) % 0x80 == v % 0x80
  {
    assert v == 0x8000 * (v / 0x8000) + v % 0x8000;
  }

  /** The fourteen bytes of the header: start code, stream, length, flags, and the time stamp in pieces of 3, 15 and
      15 bits between its fixed and marker bits. */
  function HeaderBytes(n: nat, pts: nat): (s: seq<byte>)
    ensures |s| == 14
  {
    [0x00, 0x00, 0x01, 0xbd, (n / 0x100) % 0x100, n % 0x100, 0x84, 0x80, 0x05,
      0x21 + 2 * ((pts / 0x4000_0000) % 8), (pts / 0x40_0000) % 0x100, 2 * ((pts / 0x8000) % 0x80) + 1,
      (pts / 0x80) % 0x100, 2 * (pts % 0x80) + 1]
  }

  lemma HeaderLayout(n: nat, pts: nat, tail: seq<bool>)
    ensures PesBits(n, pts, tail) == BytesBits(HeaderBytes(n, pts)) + tail
  {
    hide ToBits, BytesBits, StartBits, FlagBits, PresenceBits, PtsHighBits, PtsLowBits;
    StartLayout(n, FlagBits(PresenceBits(PtsBits(pts, tail))));
    FixedLayout(PtsBits(pts, tail));
    PtsHighLayout(pts, PtsLowBits(pts, tail));
    PtsLowLayout(pts, tail);
    var a: seq<byte> := [0x00, 0x00, 0x01, 0xbd, (n / 0x100) % 0x100, n % 0x100];
    var b: seq<byte>, c: seq<byte> := [0x84, 0x80, 0x05], [0x21 + 2 * ((pts / 0x4000_0000) % 8)];
    var d: seq<byte> := [(pts / 0x40_0000) % 0x100, 2 * ((pts / 0x8000) % 0x80) + 1, (pts / 0x80) % 0x100,
      2 * (pts % 0x80) + 1];
    BytesBitsAppend(a, b);
    BytesBitsAppend(a + b, c);
    BytesBitsAppend(a + b + c, d);
    FourPieces(BytesBits(a), BytesBits(b), BytesBits(c), BytesBits(d), tail);
    assert a + b + c + d == HeaderBytes(n, pts);
  }

  lemma FourPieces(a: seq<bool>, b: seq<bool>, c: seq<bool>, d: seq<bool>, tail: seq<bool>)
    ensures a + (b + (c + (d + tail))) == ((a + b) + c) + d + tail
  {
  }

  /** A packet that starts with these bits starts with these bytes. */
  lemma FirstBytes(s: seq<byte>, header: seq<byte>, tail: seq<bool>)
    requires |header| <= |s| && BytesBits(s) == BytesBits(header) + tail
    ensures s[..|header|] == header
  {
    hide BytesBits;
    var n := |header|;
    BitSlice(s, 0, n);
    assert s[0..n] == s[..n] && BytesBits(s)[8 * 0..8 * n] == BytesBits(header);
    BytesBitsInjective(s[..n], header);
  }

  // ---- patching the length in place ---------------------------------------------------------

  lemma LengthBits(high: byte, low: byte)
    ensures ToBits(0x100 * high + low, 16) == ToBits(high, 8) + ToBits(low, 8)
  {
    var v := 0x100 * high + low;
    Pow2Table();
    ShiftRightIsDiv(v, 8);
    ToBitsSplit(v, 8, 8);
    ToBitsMod(v, 8, 8);
    assert v / 0x100 == high && v % 0x100 == low;
  }

  /** Bytes 4 and 5 of the packet are its length field. */
  lemma PatchLength(b: seq<byte>, high: byte, low: byte, pts: nat, tail: seq<bool>)
    requires |b| >= 14 && BytesBits(b) == PesBits(0, pts, tail)
    ensures BytesBits(b[4 := high][5 := low]) == PesBits(0x100 * high + low, pts, tail)
  {
    hide ToBits, BytesBits, FlagBits, PresenceBits, PtsBits;
    var front, back := b[..4], b[6..];
    var rest := FlagBits(PresenceBits(PtsBits(pts, tail)));
    assert b == front + b[4..6] + back;
    BytesBitsAppend(front + b[4..6], back);
    BytesBitsAppend(front, b[4..6]);
    var bits := BytesBits(b);
    assert bits[..32] == BytesBits(front) && bits[48..] == BytesBits(back);
    assert bits[..32] == ToBits(1, 24) + ToBits(0xBD, 8) && bits[48..] == rest;
    var c := b[4 := high][5 := low];
    assert c == front + [high, low] + back;
    BytesBitsAppend(front + [high, low], back);
    BytesBitsAppend(front, [high, low]);
    assert [high, low] == [high] + [low];
    BytesBitsAppend([high], [low]);
    BytesBitsOne(high);
    BytesBitsOne(low);
    LengthBits(high, low);
    assert BytesBits(c) == ToBits(1, 24) + ToBits(0xBD, 8) + ToBits(0x100 * high + low, 16) + rest;
  }
}

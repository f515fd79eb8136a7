/** Caption distribution packets byte by byte, and packets from any source. */
module CdpLayouts {
  import opened Bits
  import opened CdpFormat
  import opened Wrappers

  // ---- bytes ------------------------------------------------------------------------------

  function Pair(v: nat): (s: seq<byte>)
    ensures |s| == 2
  {
    [(v / 0x100) % 0x100, v % 0x100]
  }

  lemma PairBits(v: nat, tail: seq<bool>)
    ensures ToBits(v, 16) + tail == BytesBits(Pair(v)) + tail
  {
    BytePair(v);
  }

  lemma ByteBits(v: nat, tail: seq<bool>)
    ensures ToBits(v, 8) + tail == BytesBits([v % 0x100]) + tail
  {
    hide ToBits, BytesBits;
    assert Pow2(8) == 0x100;
    ToBitsMod(v, 8, 8);
    BytesBitsOne(v % 0x100);
  }

  /** Two fields side by side, each cut to its width. */
  lemma Beside(a: nat, n: nat, b: nat, m: nat, tail: seq<bool>)
    ensures ToBits(a, n) + (ToBits(b, m) + tail)
      == ToBits(Pow2(m) * (a % Pow2(n)) + b % Pow2(m), n + m) + tail
  {
    hide ToBits, Pow2;
    ToBitsMod(a, n, n);
    JoinBits(a % Pow2(n), n, b, m);
    assert ToBits(a, n) + (ToBits(b, m) + tail) == (ToBits(a, n) + ToBits(b, m)) + tail;
  }

  lemma Fields134(a: nat, b: nat, c: nat, tail: seq<bool>)
    ensures ToBits(a, 1) + (ToBits(b, 3) + (ToBits(c, 4) + tail))
      == BytesBits([0x80 * (a % 2) + 0x10 * (b % 8) + c % 16]) + tail
  {
    hide ToBits, BytesBits;
    SmallPow2();
    Beside(b, 3, c, 4, tail);
    Beside(a, 1, 0x10 * (b % 8) + c % 16, 7, tail);
    assert Pow2(7) == 0x80;
    ByteBits(0x80 * (a % 2) + 0x10 * (b % 8) + c % 16, tail);
  }

  lemma Fields224(a: nat, b: nat, c: nat, tail: seq<bool>)
    ensures ToBits(a, 2) + (ToBits(b, 2) + (ToBits(c, 4) + tail))
      == BytesBits([0x40 * (a % 4) + 0x10 * (b % 4) + c % 16]) + tail
  {
    hide ToBits, BytesBits;
    SmallPow2();
    Beside(b, 2, c, 4, tail);
    Beside(a, 2, 0x10 * (b % 4) + c % 16, 6, tail);
    assert Pow2(6) == 0x40;
    ByteBits(0x40 * (a % 4) + 0x10 * (b % 4) + c % 16, tail);
  }

  lemma Fields512(a: nat, b: nat, c: nat, tail: seq<bool>)
    ensures ToBits(a, 5) + (ToBits(b, 1) + (ToBits(c, 2) + tail))
      == BytesBits([8 * (a % 32) + 4 * (b % 2) + c % 4]) + tail
  {
    hide ToBits, BytesBits;
    SmallPow2();
    Beside(b, 1, c, 2, tail);
    Beside(a, 5, 4 * (b % 2) + c % 4, 3, tail);
    ByteBits(8 * (a % 32) + 4 * (b % 2) + c % 4, tail);
  }

  lemma Fields35(a: nat, b: nat, tail: seq<bool>)
    ensures ToBits(a, 3) + (ToBits(b, 5) + tail) == BytesBits([0x20 * (a % 8) + b % 32]) + tail
  {
    hide ToBits, BytesBits;
    SmallPow2();
    Beside(a, 3, b, 5, tail);
    ByteBits(0x20 * (a % 8) + b % 32, tail);
  }

  lemma Fields44(a: nat, b: nat, tail: seq<bool>)
    ensures ToBits(a, 4) + (ToBits(b, 4) + tail) == BytesBits([0x10 * (a % 16) + b % 16]) + tail
  {
    hide ToBits, BytesBits;
    SmallPow2();
    Beside(a, 4, b, 4, tail);
    ByteBits(0x10 * (a % 16) + b % 16, tail);
  }

  lemma Fields1111(a: nat, b: nat, c: nat, d: nat, tail: seq<bool>)
    ensures ToBits(a, 1) + (ToBits(b, 1) + (ToBits(c, 1) + (ToBits(d, 1) + tail)))
      == ToBits(8 * (a % 2) + 4 * (b % 2) + 2 * (c % 2) + d % 2, 4) + tail
  {
    hide ToBits;
    Fields11(c, d, tail);
    Fields11(a, b, ToBits(2 * (c % 2) + d % 2, 2) + tail);
    Fields22(2 * (a % 2) + b % 2, 2 * (c % 2) + d % 2, tail);
  }

  lemma Fields22(a: nat, b: nat, tail: seq<bool>)
    requires a < 4 && b < 4
    ensures ToBits(a, 2) + (ToBits(b, 2) + tail) == ToBits(4 * a + b, 4) + tail
  {
    hide ToBits, Pow2;
    SmallPow2();
    Beside(a, 2, b, 2, tail);
  }

  lemma Fields11(a: nat, b: nat, tail: seq<bool>)
    ensures ToBits(a, 1) + (ToBits(b, 1) + tail) == ToBits(2 * (a % 2) + b % 2, 2) + tail
  {
    hide ToBits, Pow2;
    SmallPow2();
    Beside(a, 1, b, 1, tail);
  }

  // ---- the sections in bytes ----------------------------------------------------------------

  function FlagByte(h: Header): byte
  {
    0x80 * (h.timeCodePresent % 2) + 0x40 * (h.ccDataPresent % 2) + 0x20 * (h.svcInfoPresent % 2)
    + 0x10 * (h.svcInfoStart % 2) + 8 * (h.svcInfoChange % 2) + 4 * (h.svcInfoComplete % 2) + 2 * (h.serviceActive % 2)
    + 1
  }

  function HeaderBytes(h: Header, length: nat): (s: seq<byte>)
    ensures |s| == 7
  {
    Pair(h.identifier) + [length % 0x100, 0x10 * (h.frameRate % 16) + 0xf, FlagByte(h)] + Pair(h.sequence)
  }

  function TimeCodeBytes(t: TimeCode): (s: seq<byte>)
    ensures |s| == 5
  {
    [0x71, 0xc0 + 0x10 * (t.tenHours % 4) + t.hours % 16, 0x80 + 0x10 * (t.tenMinutes % 8) + t.minutes % 16,
     0x80 * (t.fieldFlag % 2) + 0x10 * (t.tenSeconds % 8) + t.seconds % 16,
     0x80 + 0x10 * (t.tenFrames % 8) + t.frames % 16]
  }

  function EntryBytes(e: CcEntry): (s: seq<byte>)
    ensures |s| == 3
  {
    [0xf8 + 4 * (e.valid % 2) + e.kind % 4, e.first % 0x100, e.second % 0x100]
  }

  function EntriesBytes(es: seq<CcEntry>): (s: seq<byte>)
    ensures |s| == 3 * |es|
  {
    if es == [] then [] else EntryBytes(es[0]) + EntriesBytes(es[1..])
  }

  function ServicesBytes(ss: seq<Service>): (s: seq<byte>)
    ensures |s| == 7 * |ss|
  {
    if ss == [] then [] else [0xe0 + ss[0].captionNumber % 32] + ss[0].data + ServicesBytes(ss[1..])
  }

  /** The packet up to its checksum: sections only where both their flag and their identifier say so. */
  function FrontBytes(p: Cdp, length: nat): seq<byte>
    requires |p.cc.entries| < 32 && |p.svc.services| < 16
  {
    HeaderBytes(p.header, length)
    + (if p.header.timeCodePresent != 0 && p.tc.sectionId == 0x71 then TimeCodeBytes(p.tc) else [])
    + (if p.header.ccDataPresent != 0 && p.cc.sectionId == 0x72
       then [0x72, 0xe0 + |p.cc.entries|] + EntriesBytes(p.cc.entries) else [])
    + (if p.header.svcInfoPresent != 0 && p.svc.sectionId == 0x73
       then [0x73, 0x80 + 0x40 * (p.svc.start % 2) + 0x20 * (p.svc.change % 2) + 0x10 * (p.svc.complete % 2)
                   + |p.svc.services|] + ServicesBytes(p.svc.services) else [])
    + [p.footer.sectionId % 0x100] + Pair(p.footer.sequence)
  }

  lemma Glue(a: seq<byte>, b: seq<byte>, tail: seq<bool>)
    ensures BytesBits(a) + (BytesBits(b) + tail) == BytesBits(a + b) + tail
  {
    hide BytesBits;
    BytesBitsAppend(a, b);
    assert BytesBits(a) + (BytesBits(b) + tail) == (BytesBits(a) + BytesBits(b)) + tail;
  }

  lemma FlagLayout(h: Header, tail: seq<bool>)
    ensures FlagBits(h, tail) == BytesBits([FlagByte(h)]) + tail
  {
    hide ToBits, BytesBits;
    var low := ToBits(h.svcInfoChange, 1) + (ToBits(h.svcInfoComplete, 1) + (ToBits(h.serviceActive, 1) +
      (ToBits(1, 1) + tail)));
    Fields1111(h.svcInfoChange, h.svcInfoComplete, h.serviceActive, 1, tail);
    Fields1111(h.timeCodePresent, h.ccDataPresent, h.svcInfoPresent, h.svcInfoStart, low);
    var a := 8 * (h.timeCodePresent % 2) + 4 * (h.ccDataPresent % 2) + 2 * (h.svcInfoPresent % 2) + h.svcInfoStart % 2;
    var b := 8 * (h.svcInfoChange % 2) + 4 * (h.svcInfoComplete % 2) + 2 * (h.serviceActive % 2) + 1;
    Fields44(a, b, tail);
  }

  lemma HeaderLayout(h: Header, length: nat, tail: seq<bool>)
    ensures HeaderBits(h, length, tail) == BytesBits(HeaderBytes(h, length)) + tail
  {
    hide ToBits, BytesBits, FlagBits, Pair, FlagByte;
    var s3 := Pair(h.sequence);
    var s2: seq<byte> := [FlagByte(h)] + s3;
    var s1: seq<byte> := [0x10 * (h.frameRate % 16) + 0xf] + s2;
    var s0: seq<byte> := [length % 0x100] + s1;
    PairBits(h.sequence, tail);
    FlagLayout(h, BytesBits(s3) + tail);
    Glue([FlagByte(h)], s3, tail);
    Fields44(h.frameRate, 0xf, BytesBits(s2) + tail);
    Glue([0x10 * (h.frameRate % 16) + 0xf], s2, tail);
    ByteBits(length, BytesBits(s1) + tail);
    Glue([length % 0x100], s1, tail);
    PairBits(h.identifier, BytesBits(s0) + tail);
    Glue(Pair(h.identifier), s0, tail);
    assert HeaderBytes(h, length) == Pair(h.identifier) + s0;
  }

  lemma TimeCodeLayout(t: TimeCode, tail: seq<bool>)
    ensures ToBits(0x71, 8) + HoursBits(t, SecondsBits(t, tail)) == BytesBits(TimeCodeBytes(t)) + tail
  {
    hide ToBits, BytesBits;
    var b1: seq<byte> := [0xc0 + 0x10 * (t.tenHours % 4) + t.hours % 16];
    var b2: seq<byte> := [0x80 + 0x10 * (t.tenMinutes % 8) + t.minutes % 16];
    var b3: seq<byte> := [0x80 * (t.fieldFlag % 2) + 0x10 * (t.tenSeconds % 8) + t.seconds % 16];
    var b4: seq<byte> := [0x80 + 0x10 * (t.tenFrames % 8) + t.frames % 16];
    Fields134(1, t.tenFrames, t.frames, tail);
    Fields134(t.fieldFlag, t.tenSeconds, t.seconds, BytesBits(b4) + tail);
    Glue(b3, b4, tail);
    Fields134(1, t.tenMinutes, t.minutes, BytesBits(b3 + b4) + tail);
    Glue(b2, b3 + b4, tail);
    Fields224(3, t.tenHours, t.hours, BytesBits(b2 + (b3 + b4)) + tail);
    Glue(b1, b2 + (b3 + b4), tail);
    ByteBits(0x71, BytesBits(b1 + (b2 + (b3 + b4))) + tail);
    Glue([0x71], b1 + (b2 + (b3 + b4)), tail);
    assert TimeCodeBytes(t) == [0x71] + (b1 + (b2 + (b3 + b4)));
  }

  lemma EntryLayout(e: CcEntry, tail: seq<bool>)
    ensures EntryBits(e, tail) == BytesBits(EntryBytes(e)) + tail
  {
    hide ToBits, BytesBits;
    var b1: seq<byte>, b2: seq<byte> := [e.first % 0x100], [e.second % 0x100];
    ByteBits(e.second, tail);
    ByteBits(e.first, BytesBits(b2) + tail);
    Glue(b1, b2, tail);
    Fields512(0x1f, e.valid, e.kind, BytesBits(b1 + b2) + tail);
    Glue([0xf8 + 4 * (e.valid % 2) + e.kind % 4], b1 + b2, tail);
    assert EntryBytes(e) == [0xf8 + 4 * (e.valid % 2) + e.kind % 4] + (b1 + b2);
  }

  lemma {:induction false} EntriesLayout(es: seq<CcEntry>, tail: seq<bool>)
    ensures EntriesBits(es, tail) == BytesBits(EntriesBytes(es)) + tail
  {
    if es == [] {
    } else {
      hide EntryBits, EntryBytes, BytesBits;
      EntriesLayout(es[1..], tail);
      EntryLayout(es[0], EntriesBits(es[1..], tail));
      Glue(EntryBytes(es[0]), EntriesBytes(es[1..]), tail);
    }
  }

  lemma {:induction false} DataLayout(data: seq<byte>, tail: seq<bool>)
    ensures ServiceDataBits(data, tail) == BytesBits(data) + tail
  {
    hide ToBits;
    if data == [] {
    } else {
      DataLayout(data[1..], tail);
      ByteBits(data[0], BytesBits(data[1..]) + tail);
      Glue([data[0]], data[1..], tail);
      assert data == [data[0]] + data[1..] && data[0] % 0x100 == data[0];
    }
  }

  lemma {:induction false} ServicesLayout(ss: seq<Service>, tail: seq<bool>)
    ensures ServicesBits(ss, tail) == BytesBits(ServicesBytes(ss)) + tail
  {
    if ss == [] {
    } else {
      hide BytesBits, ToBits, ServiceDataBits;
      var more := ServicesBytes(ss[1..]);
      var first: seq<byte> := [0xe0 + ss[0].captionNumber % 32];
      ServicesLayout(ss[1..], tail);
      DataLayout(ss[0].data, ServicesBits(ss[1..], tail));
      Glue(ss[0].data, more, tail);
      Fields35(7, ss[0].captionNumber, BytesBits(ss[0].data + more) + tail);
      Glue(first, ss[0].data + more, tail);
      assert first + (ss[0].data + more) == ServicesBytes(ss);
    }
  }

  lemma CcLayout(p: Cdp, tail: seq<bool>)
    requires HasCcData(p) && |p.cc.entries| < 32
    ensures CcDataBits(p, tail)
      == BytesBits([0x72, 0xe0 + |p.cc.entries|] + EntriesBytes(p.cc.entries)) + tail
  {
    hide ToBits, BytesBits, EntriesBits, EntriesBytes;
    var n, s := |p.cc.entries|, EntriesBytes(p.cc.entries);
    EntriesLayout(p.cc.entries, tail);
    Fields35(7, n, BytesBits(s) + tail);
    Glue([0xe0 + n], s, tail);
    ByteBits(0x72, BytesBits([0xe0 + n] + s) + tail);
    Glue([0x72], [0xe0 + n] + s, tail);
    assert [0x72] + ([0xe0 + n] + s) == [0x72, 0xe0 + n] + s;
  }

  lemma SvcLayout(p: Cdp, tail: seq<bool>)
    requires HasSvcInfo(p) && |p.svc.services| < 16
    ensures SvcInfoBits(p, tail)
      == BytesBits([0x73, 0x80 + 0x40 * (p.svc.start % 2) + 0x20 * (p.svc.change % 2) + 0x10 * (p.svc.complete % 2)
                          + |p.svc.services|] + ServicesBytes(p.svc.services)) + tail
  {
    hide ToBits, BytesBits, ServicesBits, ServicesBytes;
    var n, s := |p.svc.services|, ServicesBytes(p.svc.services);
    var a := 8 + 4 * (p.svc.start % 2) + 2 * (p.svc.change % 2) + p.svc.complete % 2;
    var b: byte := 0x10 * a + n;
    ServicesLayout(p.svc.services, tail);
    Fields1111(1, p.svc.start, p.svc.change, p.svc.complete, ToBits(n, 4) + (BytesBits(s) + tail));
    Fields44(a, n, BytesBits(s) + tail);
    Glue([b], s, tail);
    ByteBits(0x73, BytesBits([b] + s) + tail);
    Glue([0x73], [b] + s, tail);
    assert [0x73] + ([b] + s) == [0x73, b] + s;
  }

  lemma FooterLayout(f: Footer, tail: seq<bool>)
    ensures FooterBits(f, tail) == BytesBits([f.sectionId % 0x100] + Pair(f.sequence)) + tail
  {
    hide ToBits, BytesBits, Pair;
    PairBits(f.sequence, tail);
    ByteBits(f.sectionId, BytesBits(Pair(f.sequence)) + tail);
    Glue([f.sectionId % 0x100], Pair(f.sequence), tail);
  }

  /** The bits of a packet are those of its bytes. */
  lemma FrontLayout(p: Cdp, length: nat, tail: seq<bool>)
    requires |p.cc.entries| < 32 && |p.svc.services| < 16
    ensures CdpBits(p, length, tail) == BytesBits(FrontBytes(p, length)) + tail
  {
    hide ToBits, BytesBits, HeaderBits, FooterBits, HoursBits, SecondsBits, CcDataBits, SvcInfoBits, HeaderBytes,
      TimeCodeBytes, EntriesBytes, ServicesBytes, Pair;
    var s4 := [p.footer.sectionId % 0x100] + Pair(p.footer.sequence);
    FooterLayout(p.footer, tail);
    var svc: seq<byte> := SvcBytesOf(p);
    SvcPart(p, BytesBits(s4) + tail);
    Glue(svc, s4, tail);
    var s3 := svc + s4;
    var cc: seq<byte> := CcBytesOf(p);
    CcPart(p, BytesBits(s3) + tail);
    Glue(cc, s3, tail);
    var s2 := cc + s3;
    var tc: seq<byte> := if HasTimeCode(p) then TimeCodeBytes(p.tc) else [];
    TimePart(p, BytesBits(s2) + tail);
    Glue(tc, s2, tail);
    var s1 := tc + s2;
    HeaderLayout(p.header, length, BytesBits(s1) + tail);
    Glue(HeaderBytes(p.header, length), s1, tail);
    FrontParts(p, length);
  }

  function SvcBytesOf(p: Cdp): seq<byte>
    requires |p.svc.services| < 16
  {
    if HasSvcInfo(p)
    then [0x73, 0x80 + 0x40 * (p.svc.start % 2) + 0x20 * (p.svc.change % 2) + 0x10 * (p.svc.complete % 2)
                + |p.svc.services|] + ServicesBytes(p.svc.services) else []
  }

  function CcBytesOf(p: Cdp): seq<byte>
    requires |p.cc.entries| < 32
  {
    if HasCcData(p) then [0x72, 0xe0 + |p.cc.entries|] + EntriesBytes(p.cc.entries) else []
  }

  lemma SvcPart(p: Cdp, tail: seq<bool>)
    requires |p.svc.services| < 16
    ensures SvcInfoBits(p, tail) == BytesBits(SvcBytesOf(p)) + tail
  {
    hide ServicesBytes, ServicesBits, ToBits;
    if HasSvcInfo(p) {
      SvcLayout(p, tail);
    }
  }

  lemma CcPart(p: Cdp, tail: seq<bool>)
    requires |p.cc.entries| < 32
    ensures CcDataBits(p, tail) == BytesBits(CcBytesOf(p)) + tail
  {
    hide EntriesBytes, EntriesBits, ToBits;
    if HasCcData(p) {
      CcLayout(p, tail);
    }
  }

  lemma TimePart(p: Cdp, tail: seq<bool>)
    ensures TimeCodeBits(p, tail) == BytesBits(if HasTimeCode(p) then TimeCodeBytes(p.tc) else []) + tail
  {
    hide HoursBits, SecondsBits, ToBits, TimeCodeBytes;
    if HasTimeCode(p) {
      TimeCodeLayout(p.tc, tail);
    }
  }

  lemma FrontParts(p: Cdp, length: nat)
    requires |p.cc.entries| < 32 && |p.svc.services| < 16
    ensures FrontBytes(p, length) == HeaderBytes(p.header, length)
      + ((if HasTimeCode(p) then TimeCodeBytes(p.tc) else []) + (CcBytesOf(p) + (SvcBytesOf(p)
      + ([p.footer.sectionId % 0x100] + Pair(p.footer.sequence)))))
  {
    hide HeaderBytes, TimeCodeBytes, EntriesBytes, ServicesBytes, Pair;
  }

  /** Bytes with the bits of a packet are the packet's bytes. */
  lemma CdpInBytes(p: Cdp, s: seq<byte>, length: nat, checksum: byte)
    requires |p.cc.entries| < 32 && |p.svc.services| < 16
    requires BytesBits(s) == CdpBits(p, length, ToBits(checksum, 8))
    ensures s == FrontBytes(p, length) + [checksum]
  {
    hide ToBits, BytesBits, CdpBits, FrontBytes;
    FrontLayout(p, length, ToBits(checksum, 8));
    BytesBitsOne(checksum);
    BytesBitsAppend(FrontBytes(p, length), [checksum]);
    BytesBitsInjective(s, FrontBytes(p, length) + [checksum]);
  }

  // ---- packets from any source --------------------------------------------------------------

  /** Every field of a packet and every bit the format reserves. */
  datatype WireTime = WireTime(mark2: nat, mark1: nat, mark: nat, time: TimeCode)

  datatype WireEntry = WireEntry(mark: nat, entry: CcEntry)

  datatype WireService = WireService(mark: nat, service: Service)

  datatype WireCc = WireCc(mark: nat, entries: seq<WireEntry>)

  datatype WireSvc = WireSvc(mark: nat, start: nat, change: nat, complete: nat, services: seq<WireService>)

  datatype WireCdp = WireCdp(header: Header, mark: nat, flagMark: nat, time: Option<WireTime>, cc: Option<WireCc>,
                             svc: Option<WireSvc>)

  function WireHours(w: WireTime, tail: seq<bool>): (b: seq<bool>)
    ensures |b| == 16 + |tail|
  {
    var t := w.time;
    ToBits(w.mark2, 2) + (ToBits(t.tenHours, 2) + (ToBits(t.hours, 4) + (ToBits(w.mark1, 1) +
    (ToBits(t.tenMinutes, 3) + (ToBits(t.minutes, 4) + tail)))))
  }

  function WireSeconds(w: WireTime, tail: seq<bool>): (b: seq<bool>)
    ensures |b| == 16 + |tail|
  {
    var t := w.time;
    ToBits(t.fieldFlag, 1) + (ToBits(t.tenSeconds, 3) + (ToBits(t.seconds, 4) + (ToBits(t.dropFrame, 1) +
    (ToBits(w.mark, 1) + (ToBits(t.tenFrames, 2) + (ToBits(t.frames, 4) + tail))))))
  }

  function WireTimeBits(t: Option<WireTime>, tail: seq<bool>): (b: seq<bool>)
    ensures |b| == |tail| + if t.Some? then 40 else 0
  {
    if t.None? then tail else
    ToBits(0x71, 8) + WireHours(t.value, WireSeconds(t.value, tail))
  }

  function WireEntriesBits(es: seq<WireEntry>, tail: seq<bool>): (b: seq<bool>)
    ensures |b| == 24 * |es| + |tail|
  {
    if es == [] then tail else
    var e := es[0].entry;
    ToBits(es[0].mark, 5) + (ToBits(e.valid, 1) + (ToBits(e.kind, 2) + (ToBits(e.first, 8) + (ToBits(e.second, 8) +
    WireEntriesBits(es[1..], tail)))))
  }

  function WireCcBits(c: Option<WireCc>, tail: seq<bool>): (b: seq<bool>)
    ensures |b| >= |tail|
  {
    if c.None? then tail else
    ToBits(0x72, 8) + WireCount(c.value, WireEntriesBits(c.value.entries, tail))
  }

  function WireCount(c: WireCc, tail: seq<bool>): (b: seq<bool>)
    ensures |b| == 8 + |tail|
  {
    ToBits(c.mark, 3) + (ToBits(|c.entries|, 5) + tail)
  }

  function WireServicesBits(ss: seq<WireService>, tail: seq<bool>): (b: seq<bool>)
    ensures |b| == 56 * |ss| + |tail|
  {
    if ss == [] then tail else
    ToBits(ss[0].mark, 3) + (ToBits(ss[0].service.captionNumber, 5) +
    ServiceDataBits(ss[0].service.data, WireServicesBits(ss[1..], tail)))
  }

  function WireSvcBits(s: Option<WireSvc>, tail: seq<bool>): (b: seq<bool>)
    ensures |b| >= |tail|
  {
    if s.None? then tail else
    ToBits(0x73, 8) + WireSvcFlags(s.value, WireServicesBits(s.value.services, tail))
  }

  function WireSvcFlags(v: WireSvc, tail: seq<bool>): (b: seq<bool>)
    ensures |b| == 8 + |tail|
  {
    ToBits(v.mark, 1) + (ToBits(v.start, 1) + (ToBits(v.change, 1) + (ToBits(v.complete, 1) +
    (ToBits(|v.services|, 4) + tail))))
  }

  function WireFooterBits(sequence: nat, checksum: byte): (b: seq<bool>)
    ensures |b| == 32
  {
    ToBits(0x74, 8) + (ToBits(sequence, 16) + ToBits(checksum, 8))
  }

  function WireHeaderBits(w: WireCdp, tail: seq<bool>): (b: seq<bool>)
    ensures |b| == 56 + |tail|
  {
    var h := w.header;
    ToBits(h.identifier, 16) + (ToBits(h.length, 8) + (ToBits(h.frameRate, 4) + (ToBits(w.mark, 4) +
    PresenceBits(h, ToBits(h.svcInfoStart, 1) + (ToBits(h.svcInfoChange, 1) + (ToBits(h.svcInfoComplete, 1) +
    (ToBits(h.serviceActive, 1) + (ToBits(w.flagMark, 1) + (ToBits(h.sequence, 16) + tail)))))))))
  }

  /** Header and sections, and what stands behind them. */
  function WireBits(w: WireCdp, end: seq<bool>): seq<bool>
  {
    WireHeaderBits(w, WireTimeBits(w.time, WireCcBits(w.cc, WireSvcBits(w.svc, end))))
  }

  /** The tables have room for what is announced. */
  predicate Fits(w: WireCdp)
  {
    && (w.cc.Some? ==> |w.cc.value.entries| <= 30)
    && (w.svc.Some? ==> |w.svc.value.services| <= 15)
  }

  function TimeOf(t: Option<WireTime>): TimeCode
  {
    if t.None? then NO_TIME_CODE else
    var v := t.value.time;
    TimeCode(0x71, v.tenHours % 4, v.hours % 16, v.tenMinutes % 8, v.minutes % 16, v.fieldFlag % 2, v.tenSeconds % 8,
             v.seconds % 16, v.dropFrame % 2, v.tenFrames % 4, v.frames % 16)
  }

  function EntriesOf(es: seq<WireEntry>): (r: seq<CcEntry>)
    ensures |r| == |es|
  {
    if es == [] then [] else [CutEntry(es[0].entry)] + EntriesOf(es[1..])
  }

  function CcOf(c: Option<WireCc>): CcData
  {
    if c.None? then NO_CC_DATA else CcData(0x72, EntriesOf(c.value.entries))
  }

  function ServicesOf(ss: seq<WireService>): (r: seq<Service>)
    ensures |r| == |ss|
  {
    if ss == [] then [] else [CutService(ss[0].service)] + ServicesOf(ss[1..])
  }

  function SvcOf(s: Option<WireSvc>): SvcInfo
  {
    if s.None? then NO_SVC_INFO
    else SvcInfo(0x73, s.value.start % 2, s.value.change % 2, s.value.complete % 2, ServicesOf(s.value.services))
  }

  lemma TimeRead(t: Option<WireTime>, tail: seq<bool>)
    requires |tail| >= 8 && FromBits(tail[..8]) != 0x71
    ensures var b := WireTimeBits(t, tail);
      |b| >= 8 && ParseTimeCode(FromBits(b[..8]), b[8..]) == Got(TimeOf(t), FromBits(tail[..8]), tail[8..])
  {
    hide FromBits, ToBits, WireHours, WireSeconds, ParseHours, ParseSeconds;
    if t.Some? {
      var w, t0 := t.value, NO_TIME_CODE.(sectionId := 0x71);
      var r := WireHours(w, WireSeconds(w, tail));
      ReadBack(0x71, 8, r);
      HoursRead(w, t0, WireSeconds(w, tail));
      SecondsRead(w, ParseHours(t0, r).0, tail);
      SmallPow2();
    }
  }

  lemma HoursRead(w: WireTime, t0: TimeCode, tail: seq<bool>)
    ensures ParseHours(t0, WireHours(w, tail)) == (t0.(tenHours := w.time.tenHours % 4, hours := w.time.hours % 16,
      tenMinutes := w.time.tenMinutes % 8, minutes := w.time.minutes % 16), tail)
  {
    hide ToBits, ParseHours;
    ForeignHours(w.mark2, w.mark1, w.time, t0, tail);
  }

  lemma SecondsRead(w: WireTime, t0: TimeCode, tail: seq<bool>)
    ensures var t := w.time;
      ParseSeconds(t0, WireSeconds(w, tail)) == (t0.(fieldFlag := t.fieldFlag % 2, tenSeconds := t.tenSeconds % 8,
        seconds := t.seconds % 16, dropFrame := t.dropFrame % 2, tenFrames := t.tenFrames % 4,
        frames := t.frames % 16), tail)
  {
    hide ToBits, ParseSeconds;
    ForeignSeconds(w.mark, w.time, t0, tail);
  }

  lemma {:induction false} EntriesRead(es: seq<WireEntry>, tail: seq<bool>)
    ensures ParseEntries(|es|, WireEntriesBits(es, tail)) == EntriesOf(es)
    ensures WireEntriesBits(es, tail)[24 * |es|..] == tail
  {
    hide ToBits, ParseEntry, CutEntry;
    if es == [] {
    } else {
      ForeignEntry(es[0].mark, es[0].entry, WireEntriesBits(es[1..], tail));
      EntriesRead(es[1..], tail);
      DropDrop(WireEntriesBits(es, tail), 24, 24 * |es[1..]|);
    }
  }

  lemma CcRead(c: Option<WireCc>, tail: seq<bool>)
    requires c.Some? ==> |c.value.entries| <= 30
    requires |tail| >= 8 && FromBits(tail[..8]) != 0x72
    ensures var b := WireCcBits(c, tail);
      |b| >= 8 && ParseCcData(FromBits(b[..8]), b[8..]) == Got(CcOf(c), FromBits(tail[..8]), tail[8..])
  {
    hide FromBits, ToBits, WireCount, WireEntriesBits, ParseEntries, EntriesOf;
    if c.Some? {
      var es := c.value.entries;
      CountRead(c.value, WireEntriesBits(es, tail));
      EntriesRead(es, tail);
      EntriesFit(|es|, |tail|);
      CountFits(|es|, |tail|);
    }
  }

  lemma CountRead(c: WireCc, tail: seq<bool>)
    requires |c.entries| <= 30
    ensures var b := ToBits(0x72, 8) + WireCount(c, tail);
      && FromBits(b[..8]) == 0x72 && b[8..] == WireCount(c, tail)
      && FromBits(b[8..][3..][..5]) == |c.entries| && b[8..][3..][5..] == tail
  {
    hide FromBits, ToBits;
    ForeignCount(c.mark, 0x72, |c.entries|, tail);
    ReadBack(0x72, 8, WireCount(c, tail));
  }

  lemma CountFits(n: nat, behind: nat)
    requires behind >= 8
    ensures (8 + (24 * n + behind)) / 8 >= 2 && 24 * n + behind >= 24 * n + 8
  {
  }

  lemma {:induction false} ServicesRead(ss: seq<WireService>, tail: seq<bool>)
    ensures ParseServices(|ss|, WireServicesBits(ss, tail)) == ServicesOf(ss)
    ensures WireServicesBits(ss, tail)[56 * |ss|..] == tail
  {
    hide ToBits, ParseService, CutService, ServiceDataBits;
    if ss == [] {
    } else {
      ForeignService(ss[0].mark, ss[0].service, WireServicesBits(ss[1..], tail));
      ServicesRead(ss[1..], tail);
      DropDrop(WireServicesBits(ss, tail), 56, 56 * |ss[1..]|);
    }
  }

  lemma SvcRead(s: Option<WireSvc>, tail: seq<bool>)
    requires s.Some? ==> |s.value.services| <= 15 && (s.value.services != [] || |tail| >= 16)
    requires |tail| >= 8 && FromBits(tail[..8]) != 0x73
    ensures var b := WireSvcBits(s, tail);
      |b| >= 8 && ParseSvcInfo(FromBits(b[..8]), b[8..]) == Got(SvcOf(s), FromBits(tail[..8]), tail[8..])
  {
    hide FromBits, ToBits, WireSvcFlags, WireServicesBits, ParseServices, ServicesOf, ParseSvcFlags;
    if s.Some? {
      var v := s.value;
      var r1 := WireServicesBits(v.services, tail);
      ReadBack(0x73, 8, WireSvcFlags(v, r1));
      SvcFlagsRead(v, r1);
      ServicesRead(v.services, tail);
      ServicesFit(|v.services|, |tail|);
      SmallPow2();
    }
  }

  lemma SvcFlagsRead(v: WireSvc, tail: seq<bool>)
    requires |v.services| <= 15
    ensures ParseSvcFlags(0x73, WireSvcFlags(v, tail))
      == (SvcInfo(0x73, v.start % 2, v.change % 2, v.complete % 2, []), |v.services|, tail)
  {
    hide ToBits, ParseSvcFlags;
    ForeignSvcFlags(v.mark, v.start, v.change, v.complete, |v.services|, 0x73, tail);
  }

  lemma ServicesFit(n: nat, behind: nat)
    requires behind >= 8 && (n > 0 || behind >= 16)
    ensures (8 + (56 * n + behind)) / 8 >= 3 && (56 * n + behind) / 8 >= n * 7
  {
  }

  lemma FooterRead(sequence: nat, checksum: byte)
    ensures var b := WireFooterBits(sequence, checksum);
      FromBits(b[..8]) == 0x74 && ParseFooter(0x74, b[8..]) == Got(Footer(0x74, sequence % 0x1_0000, checksum), 0, [])
  {
    hide FromBits, ToBits;
    FooterBack(Footer(0x74, sequence, 0), checksum);
  }

  lemma SvcId(s: Option<WireSvc>, tail: seq<bool>)
    requires |tail| >= 8
    ensures var b := WireSvcBits(s, tail);
      FromBits(b[..8]) == if s.Some? then 0x73 else FromBits(tail[..8])
  {
    hide FromBits, ToBits, WireSvcFlags, WireServicesBits;
    if s.Some? {
      ReadBack(0x73, 8, WireSvcFlags(s.value, WireServicesBits(s.value.services, tail)));
      SmallPow2();
    }
  }

  lemma CcId(c: Option<WireCc>, tail: seq<bool>)
    requires |tail| >= 8
    ensures var b := WireCcBits(c, tail);
      FromBits(b[..8]) == if c.Some? then 0x72 else FromBits(tail[..8])
  {
    hide FromBits, ToBits, WireCount, WireEntriesBits;
    if c.Some? {
      ReadBack(0x72, 8, WireCount(c.value, WireEntriesBits(c.value.entries, tail)));
      SmallPow2();
    }
  }

  /** Header and sections are read as they stand, up to the byte that opens what is behind them. */
  lemma SectionsRead(w: WireCdp, s: seq<byte>, end: seq<bool>)
    requires Fits(w) && BytesBits(s) == WireBits(w, end)
    requires |end| >= 8 && FromBits(end[..8]) !in {0x71, 0x72, 0x73}
    requires w.svc.Some? ==> w.svc.value.services != [] || |end| >= 16
    ensures var footer, valid := ParseFooter(FromBits(end[..8]), end[8..]), Total(s) % 0x100 == 0;
      ParseCdp(s) == if footer.Got? then Parsed(Cdp(CutHeader(w.header, w.header.length), TimeOf(w.time), CcOf(w.cc),
        SvcOf(w.svc), footer.value), valid) else TooShort
  {
    hide FromBits, ToBits, BytesBits, PresenceBits, WireTimeBits, WireCcBits, WireSvcBits, WireHeaderBits, ParseHeader,
      ParseTimeCode, ParseCcData, ParseSvcInfo, ParseFooter, TimeOf, CcOf, SvcOf, CutHeader, Sum8, Total;
    var v := WireSvcBits(w.svc, end);
    var c := WireCcBits(w.cc, v);
    HeaderRead(w, WireTimeBits(w.time, c));
    SvcId(w.svc, end);
    CcId(w.cc, v);
    SvcRead(w.svc, end);
    CcRead(w.cc, v);
    TimeRead(w.time, c);
    Sum8IsTotal(s);
  }

  /** A packet from any source, with any of the sections and whatever its reserved bits are: every field is returned as
      it stands, the drop frame flag among them, and the checksum is valid exactly if the bytes add up to a multiple
      of 256. */
  lemma ForeignCdp(w: WireCdp, sequence: nat, checksum: byte, s: seq<byte>)
    requires Fits(w) && BytesBits(s) == WireBits(w, WireFooterBits(sequence, checksum))
    ensures ParseCdp(s) == Parsed(
      Cdp(CutHeader(w.header, w.header.length), TimeOf(w.time), CcOf(w.cc), SvcOf(w.svc),
          Footer(0x74, sequence % 0x1_0000, checksum)), Total(s) % 0x100 == 0)
  {
    hide FromBits, ToBits, BytesBits, WireBits, WireFooterBits, ParseFooter, TimeOf, CcOf, SvcOf, CutHeader, Total,
      Fits;
    FooterRead(sequence, checksum);
    SectionsRead(w, s, WireFooterBits(sequence, checksum));
  }

  /** A packet that ends in a byte that opens no section is accepted without a footer, unless a service section
      without services stands last: its length is tested for one byte more than it takes. */
  lemma ForeignWithoutFooter(w: WireCdp, stop: byte, s: seq<byte>)
    requires Fits(w) && stop !in {0x71, 0x72, 0x73, 0x74} && BytesBits(s) == WireBits(w, ToBits(stop, 8))
    ensures ParseCdp(s) == if w.svc.Some? && w.svc.value.services == [] then TooShort else
      Parsed(Cdp(CutHeader(w.header, w.header.length), TimeOf(w.time), CcOf(w.cc), SvcOf(w.svc), NO_FOOTER),
             Total(s) % 0x100 == 0)
  {
    hide FromBits, ToBits, BytesBits, WireBits, TimeOf, CcOf, SvcOf, CutHeader, Total, Fits;
    StopRead(stop);
    if w.svc.Some? && w.svc.value.services == [] {
      NoServicesLast(w, stop, s);
    } else {
      SectionsRead(w, s, ToBits(stop, 8));
    }
  }

  lemma StopRead(stop: byte)
    ensures FromBits(ToBits(stop, 8)[..8]) == stop && ToBits(stop, 8)[8..] == []
  {
    hide ToBits, FromBits;
    ByteOfBits(stop);
    assert ToBits(stop, 8)[..8] == ToBits(stop, 8);
  }

  lemma NoServicesLast(w: WireCdp, stop: byte, s: seq<byte>)
    requires Fits(w) && w.svc.Some? && w.svc.value.services == [] && BytesBits(s) == WireBits(w, ToBits(stop, 8))
    ensures ParseCdp(s) == TooShort
  {
    hide FromBits, ToBits, BytesBits, PresenceBits, WireTimeBits, WireCcBits, WireSvcBits, WireHeaderBits, ParseHeader,
      ParseTimeCode, ParseCcData, ParseSvcInfo, ParseFooter, TimeOf, CcOf, Sum8;
    var v := WireSvcBits(w.svc, ToBits(stop, 8));
    var c := WireCcBits(w.cc, v);
    HeaderRead(w, WireTimeBits(w.time, c));
    SvcId(w.svc, ToBits(stop, 8));
    CcId(w.cc, v);
    CcRead(w.cc, v);
    TimeRead(w.time, c);
    ShortServices(w.svc, ToBits(stop, 8));
  }

  lemma ShortServices(s: Option<WireSvc>, tail: seq<bool>)
    requires s.Some? && s.value.services == [] && |tail| == 8
    ensures var b := WireSvcBits(s, tail); |b| >= 8 && ParseSvcInfo(FromBits(b[..8]), b[8..]) == CdpFormat.Short
  {
    hide FromBits, ToBits, ParseSvcFlags, ParseServices;
    SvcId(s, tail);
  }

  lemma HeaderRead(w: WireCdp, tail: seq<bool>)
    ensures ParseHeader(WireHeaderBits(w, tail)) == (CutHeader(w.header, w.header.length), tail)
  {
    hide ToBits, PresenceBits, ParseHeader, CutHeader;
    ForeignHeader(w.header, w.mark, w.flagMark, tail);
  }
}

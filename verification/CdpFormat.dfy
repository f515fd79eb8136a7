/** The caption distribution packet of CEA-708 (section 11.2): its bits, and the parser as a function of them. */
module CdpFormat {
  import opened Bits

  const MAX_CC_COUNT := 30
  const TIME_CODE_ID := 0x71
  const CC_DATA_ID := 0x72
  const SVC_INFO_ID := 0x73
  const FOOTER_ID := 0x74

  datatype Header = Header(
    identifier: nat, length: nat, frameRate: nat, timeCodePresent: nat, ccDataPresent: nat, svcInfoPresent: nat,
    svcInfoStart: nat, svcInfoChange: nat, svcInfoComplete: nat, serviceActive: nat, sequence: nat)

  datatype TimeCode = TimeCode(
    sectionId: nat, tenHours: nat, hours: nat, tenMinutes: nat, minutes: nat, fieldFlag: nat,
    tenSeconds: nat, seconds: nat, dropFrame: nat, tenFrames: nat, frames: nat)

  datatype CcEntry = CcEntry(valid: nat, kind: nat, first: nat, second: nat)

  datatype CcData = CcData(sectionId: nat, entries: seq<CcEntry>)

  /** What the service bytes mean (section 6.9.2 of ATSC A/65). */
  datatype ServiceInfo = ServiceInfo(
    language: seq<byte>, digital: nat, number: nat, line21Field: nat, easyReader: nat, wideAspect: nat)

  type ServiceBytes = s: seq<byte> | |s| == 6 witness [0, 0, 0, 0, 0, 0]

  datatype Service = Service(captionNumber: nat, data: ServiceBytes, info: ServiceInfo)

  datatype SvcInfo = SvcInfo(sectionId: nat, start: nat, change: nat, complete: nat, services: seq<Service>)

  datatype Footer = Footer(sectionId: nat, sequence: nat, checksum: nat)

  datatype Cdp = Cdp(header: Header, tc: TimeCode, cc: CcData, svc: SvcInfo, footer: Footer)

  // The zero-filled sections a parse starts from.
  const NO_TIME_CODE := TimeCode(0, 0, 0, 0, 0, 0, 0, 0, 0, 0, 0)
  const NO_CC_DATA := CcData(0, [])
  const NO_SVC_INFO := SvcInfo(0, 0, 0, 0, [])
  const NO_FOOTER := Footer(0, 0, 0)

  // ---- wire format ------------------------------------------------------------------------

  function PresenceBits(h: Header, tail: seq<bool>): (b: seq<bool>)
    ensures |b| == 3 + |tail|
  {
    ToBits(h.timeCodePresent, 1) + (ToBits(h.ccDataPresent, 1) + (ToBits(h.svcInfoPresent, 1) + tail))
  }

  function FlagBits(h: Header, tail: seq<bool>): (b: seq<bool>)
    ensures |b| == 8 + |tail|
  {
    PresenceBits(h, ToBits(h.svcInfoStart, 1) + (ToBits(h.svcInfoChange, 1) + (ToBits(h.svcInfoComplete, 1) +
    (ToBits(h.serviceActive, 1) + (ToBits(1, 1) + tail)))))
  }

  /** The header behind the length byte. */
  function HeaderRest(h: Header, tail: seq<bool>): (b: seq<bool>)
    ensures |b| == 32 + |tail|
  {
    ToBits(h.frameRate, 4) + (ToBits(0xf, 4) + FlagBits(h, ToBits(h.sequence, 16) + tail))
  }

  function HeaderBits(h: Header, length: nat, tail: seq<bool>): (b: seq<bool>)
    ensures |b| == 56 + |tail|
  {
    ToBits(h.identifier, 16) + (ToBits(length, 8) + HeaderRest(h, tail))
  }

  function HoursBits(t: TimeCode, tail: seq<bool>): (b: seq<bool>)
    ensures |b| == 16 + |tail|
  {
    ToBits(3, 2) + (ToBits(t.tenHours, 2) + (ToBits(t.hours, 4) +
    (ToBits(1, 1) + (ToBits(t.tenMinutes, 3) + (ToBits(t.minutes, 4) + tail)))))
  }

  /** Where the parser looks for the drop frame flag the encoder writes a constant one. */
  function SecondsBits(t: TimeCode, tail: seq<bool>): (b: seq<bool>)
    ensures |b| == 16 + |tail|
  {
    ToBits(t.fieldFlag, 1) + (ToBits(t.tenSeconds, 3) + (ToBits(t.seconds, 4) +
    (ToBits(1, 1) + (ToBits(t.tenFrames, 3) + (ToBits(t.frames, 4) + tail)))))
  }

  predicate HasTimeCode(p: Cdp)
  {
    p.header.timeCodePresent != 0 && p.tc.sectionId == TIME_CODE_ID
  }

  predicate HasCcData(p: Cdp)
  {
    p.header.ccDataPresent != 0 && p.cc.sectionId == CC_DATA_ID
  }

  predicate HasSvcInfo(p: Cdp)
  {
    p.header.svcInfoPresent != 0 && p.svc.sectionId == SVC_INFO_ID
  }

  function TimeCodeBits(p: Cdp, tail: seq<bool>): seq<bool>
  {
    if HasTimeCode(p) then ToBits(TIME_CODE_ID, 8) + HoursBits(p.tc, SecondsBits(p.tc, tail)) else tail
  }

  function EntryBits(e: CcEntry, tail: seq<bool>): (b: seq<bool>)
    ensures |b| == 24 + |tail|
  {
    ToBits(0x1f, 5) + (ToBits(e.valid, 1) + (ToBits(e.kind, 2) + (ToBits(e.first, 8) + (ToBits(e.second, 8) + tail))))
  }

  function EntriesBits(es: seq<CcEntry>, tail: seq<bool>): (b: seq<bool>)
    ensures |b| == 24 * |es| + |tail|
  {
    if es == [] then tail else EntryBits(es[0], EntriesBits(es[1..], tail))
  }

  function CcDataBits(p: Cdp, tail: seq<bool>): seq<bool>
  {
    if HasCcData(p) then
      ToBits(CC_DATA_ID, 8) + (ToBits(7, 3) + (ToBits(|p.cc.entries|, 5) + EntriesBits(p.cc.entries, tail)))
    else tail
  }

  function ServiceDataBits(data: seq<byte>, tail: seq<bool>): (b: seq<bool>)
    ensures |b| == 8 * |data| + |tail|
  {
    if data == [] then tail else ToBits(data[0], 8) + ServiceDataBits(data[1..], tail)
  }

  function ServiceBits(s: Service, tail: seq<bool>): (b: seq<bool>)
    ensures |b| == 56 + |tail|
  {
    ToBits(7, 3) + (ToBits(s.captionNumber, 5) + ServiceDataBits(s.data, tail))
  }

  function ServicesBits(ss: seq<Service>, tail: seq<bool>): (b: seq<bool>)
    ensures |b| == 56 * |ss| + |tail|
  {
    if ss == [] then tail else ServiceBits(ss[0], ServicesBits(ss[1..], tail))
  }

  function SvcFlagBits(s: SvcInfo, tail: seq<bool>): (b: seq<bool>)
    ensures |b| == 8 + |tail|
  {
    ToBits(1, 1) + (ToBits(s.start, 1) + (ToBits(s.change, 1) + (ToBits(s.complete, 1) +
    (ToBits(|s.services|, 4) + tail))))
  }

  function SvcInfoBits(p: Cdp, tail: seq<bool>): seq<bool>
  {
    if HasSvcInfo(p) then ToBits(SVC_INFO_ID, 8) + SvcFlagBits(p.svc, ServicesBits(p.svc.services, tail)) else tail
  }

  function FooterBits(f: Footer, tail: seq<bool>): (b: seq<bool>)
    ensures |b| == 24 + |tail|
  {
    ToBits(f.sectionId, 8) + (ToBits(f.sequence, 16) + tail)
  }

  /** Everything up to the checksum byte, then tail. */
  function CdpBits(p: Cdp, length: nat, tail: seq<bool>): seq<bool>
  {
    HeaderBits(p.header, length, TimeCodeBits(p, CcDataBits(p, SvcInfoBits(p, FooterBits(p.footer, tail)))))
  }

  // ---- the parser ---------------------------------------------------------------------------

  function ParseFlags(h: Header, r0: seq<bool>): (Header, seq<bool>)
    requires |r0| >= 8
  {
    var timeCode, r1 := FromBits(r0[..1]), r0[1..];
    var ccData, r2 := FromBits(r1[..1]), r1[1..];
    var svcInfo, r3 := FromBits(r2[..1]), r2[1..];
    var start, r4 := FromBits(r3[..1]), r3[1..];
    var change, r5 := FromBits(r4[..1]), r4[1..];
    var complete, r6 := FromBits(r5[..1]), r5[1..];
    var active, r7 := FromBits(r6[..1]), r6[1..];
    (h.(timeCodePresent := timeCode, ccDataPresent := ccData, svcInfoPresent := svcInfo, svcInfoStart := start,
        svcInfoChange := change, svcInfoComplete := complete, serviceActive := active), r7[1..])
  }

  const NO_HEADER := Header(0, 0, 0, 0, 0, 0, 0, 0, 0, 0, 0)

  function ParseHeader(r0: seq<bool>): (res: (Header, seq<bool>))
    requires |r0| >= 56
    ensures |res.1| == |r0| - 56
  {
    var identifier, r1 := FromBits(r0[..16]), r0[16..];
    var length, r2 := FromBits(r1[..8]), r1[8..];
    var frameRate, r3 := FromBits(r2[..4]), r2[4..];
    var (flags, r4) := ParseFlags(NO_HEADER, r3[4..]);
    (flags.(identifier := identifier, length := length, frameRate := frameRate, sequence := FromBits(r4[..16])),
     r4[16..])
  }

  datatype Section<T> = Got(value: T, next: nat, rest: seq<bool>) | Short | Undefined

  function ParseHours(t: TimeCode, r0: seq<bool>): (TimeCode, seq<bool>)
    requires |r0| >= 16
  {
    var r1 := r0[2..];
    var tenHours, r2 := FromBits(r1[..2]), r1[2..];
    var hours, r3 := FromBits(r2[..4]), r2[4..];
    var r4 := r3[1..];
    var tenMinutes, r5 := FromBits(r4[..3]), r4[3..];
    var minutes, r6 := FromBits(r5[..4]), r5[4..];
    (t.(tenHours := tenHours, hours := hours, tenMinutes := tenMinutes, minutes := minutes), r6)
  }

  function ParseSeconds(t: TimeCode, r0: seq<bool>): (TimeCode, seq<bool>)
    requires |r0| >= 16
  {
    var fieldFlag, r1 := FromBits(r0[..1]), r0[1..];
    var tenSeconds, r2 := FromBits(r1[..3]), r1[3..];
    var seconds, r3 := FromBits(r2[..4]), r2[4..];
    var dropFrame, r4 := FromBits(r3[..1]), r3[1..];
    var r5 := r4[1..];
    var tenFrames, r6 := FromBits(r5[..2]), r5[2..];
    var frames, r7 := FromBits(r6[..4]), r6[4..];
    (t.(fieldFlag := fieldFlag, tenSeconds := tenSeconds, seconds := seconds, dropFrame := dropFrame,
        tenFrames := tenFrames, frames := frames), r7)
  }

  function ParseTimeCode(id: nat, r: seq<bool>): Section<TimeCode>
  {
    if id != TIME_CODE_ID then Got(NO_TIME_CODE, id, r)
    else if |r| / 8 < 5 then Short
    else
      var (t, r1) := ParseHours(NO_TIME_CODE.(sectionId := id), r);
      var (tc, r2) := ParseSeconds(t, r1);
      Got(tc, FromBits(r2[..8]), r2[8..])
  }

  function ParseEntry(r0: seq<bool>): CcEntry
    requires |r0| >= 24
  {
    var r1 := r0[5..];
    var valid, r2 := FromBits(r1[..1]), r1[1..];
    var kind, r3 := FromBits(r2[..2]), r2[2..];
    var first, r4 := FromBits(r3[..8]), r3[8..];
    CcEntry(valid, kind, first, FromBits(r4[..8]))
  }

  function ParseEntries(n: nat, r: seq<bool>): (es: seq<CcEntry>)
    requires |r| >= 24 * n
    ensures |es| == n
  {
    if n == 0 then [] else [ParseEntry(r)] + ParseEntries(n - 1, r[24..])
  }

  /** Undefined: more entries than the table has room for, or no byte behind the last one. */
  function ParseCcData(id: nat, r: seq<bool>): Section<CcData>
  {
    if id != CC_DATA_ID then Got(NO_CC_DATA, id, r)
    else if |r| / 8 < 2 then Short
    else
      var r1 := r[3..];
      var n, r2 := FromBits(r1[..5]), r1[5..];
      if |r2| / 8 < n * 3 then Short
      else if n > MAX_CC_COUNT || |r2| < 24 * n + 8 then Undefined
      else Got(CcData(id, ParseEntries(n, r2)), FromBits(r2[24 * n..][..8]), r2[24 * n..][8..])
  }

  function ParseServiceData(n: nat, r: seq<bool>): (s: seq<byte>)
    requires |r| >= 8 * n
    ensures |s| == n
  {
    if n == 0 then [] else
      assert FromBits(r[..8]) < 0x100 by { FromBitsBound(r[..8]); Pow2Table(); }
      [FromBits(r[..8])] + ParseServiceData(n - 1, r[8..])
  }

  /** The fields derived from the service bytes: a caption service number for digital captions, else the
      field of line 21. */
  function Derive(d: ServiceBytes): ServiceInfo
  {
    var digital := d[3] >= 0x80;
    ServiceInfo(d[..3], if digital then 1 else 0, if digital then d[3] % 0x40 else 0,
                if digital then 0 else d[3] % 2, if d[4] >= 0x80 then 1 else 0, (d[4] / 0x40) % 2)
  }

  function ParseService(r0: seq<bool>): Service
    requires |r0| >= 56
  {
    var r1 := r0[3..];
    var number, r2 := FromBits(r1[..5]), r1[5..];
    var data: ServiceBytes := ParseServiceData(6, r2);
    Service(number, data, Derive(data))
  }

  function ParseServices(n: nat, r: seq<bool>): (ss: seq<Service>)
    requires |r| >= 56 * n
    ensures |ss| == n
  {
    if n == 0 then [] else [ParseService(r)] + ParseServices(n - 1, r[56..])
  }

  function ParseSvcFlags(id: nat, r0: seq<bool>): (SvcInfo, nat, seq<bool>)
    requires |r0| >= 8
  {
    var r1 := r0[1..];
    var start, r2 := FromBits(r1[..1]), r1[1..];
    var change, r3 := FromBits(r2[..1]), r2[1..];
    var complete, r4 := FromBits(r3[..1]), r3[1..];
    (SvcInfo(id, start, change, complete, []), FromBits(r4[..4]), r4[4..])
  }

  function ParseSvcInfo(id: nat, r: seq<bool>): Section<SvcInfo>
  {
    if id != SVC_INFO_ID then Got(NO_SVC_INFO, id, r)
    else if |r| / 8 < 3 then Short
    else
      var (svc, n, r1) := ParseSvcFlags(id, r);
      if |r1| / 8 < n * 7 then Short
      else if |r1| < 56 * n + 8 then Undefined
      else Got(svc.(services := ParseServices(n, r1)), FromBits(r1[56 * n..][..8]), r1[56 * n..][8..])
  }

  function ParseFooter(id: nat, r: seq<bool>): Section<Footer>
  {
    if id != FOOTER_ID then Got(NO_FOOTER, id, r)
    else if |r| / 8 < 3 then Short
    else Got(Footer(id, FromBits(r[..16]), FromBits(r[16..][..8])), 0, r[16..][8..])
  }

  datatype Result = Parsed(cdp: Cdp, checksumValid: bool) | TooShort | Overread

  function ParseSections(h: Header, r: seq<bool>, valid: bool): Result
  {
    if |r| / 8 < 1 then TooShort else
    var tc := ParseTimeCode(FromBits(r[..8]), r[8..]);
    if !tc.Got? then TooShort else
    var cc := ParseCcData(tc.next, tc.rest);
    if cc.Undefined? then Overread else if cc.Short? then TooShort else
    var svc := ParseSvcInfo(cc.next, cc.rest);
    if svc.Undefined? then Overread else if svc.Short? then TooShort else
    var footer := ParseFooter(svc.next, svc.rest);
    if !footer.Got? then TooShort
    else Parsed(Cdp(h, tc.value, cc.value, svc.value, footer.value), valid)
  }

  /** The sum of the bytes in an 8-bit accumulator. */
  function Sum8(s: seq<byte>): byte
  {
    if s == [] then 0 else (Sum8(s[..|s| - 1]) + s[|s| - 1]) % 0x100
  }

  /** The sum of the bytes, unbounded, counted from the front. */
  function Total(s: seq<byte>): nat
  {
    if s == [] then 0 else s[0] + Total(s[1..])
  }

  lemma {:induction false} TotalAppend(s: seq<byte>, x: byte)
    ensures Total(s + [x]) == Total(s) + x
  {
    if s == [] {
      assert [] + [x] == [x] && [x][1..] == [];
    } else {
      assert (s + [x])[1..] == s[1..] + [x];
      TotalAppend(s[1..], x);
    }
  }

  lemma {:induction false} Sum8IsTotal(s: seq<byte>)
    ensures Sum8(s) == Total(s) % 0x100
  {
    if s == [] {
    } else {
      var n := |s| - 1;
      Sum8IsTotal(s[..n]);
      TotalAppend(s[..n], s[n]);
      assert s == s[..n] + [s[n]];
    }
  }

  function ParseCdp(s: seq<byte>): Result
  {
    if |s| < 7 then TooShort else
    var (h, r) := ParseHeader(BytesBits(s));
    ParseSections(h, r, Sum8(s) == 0)
  }

  // ---- reading back -----------------------------------------------------------------------

  lemma SmallPow2()
    ensures Pow2(1) == 2 && Pow2(2) == 4 && Pow2(3) == 8 && Pow2(4) == 16 && Pow2(5) == 32
    ensures Pow2(8) == 0x100 && Pow2(16) == 0x1_0000
  {
    Pow2Table();
  }

  function CutFlags(h: Header, flags: Header): Header
  {
    h.(timeCodePresent := flags.timeCodePresent % 2, ccDataPresent := flags.ccDataPresent % 2,
       svcInfoPresent := flags.svcInfoPresent % 2, svcInfoStart := flags.svcInfoStart % 2,
       svcInfoChange := flags.svcInfoChange % 2, svcInfoComplete := flags.svcInfoComplete % 2,
       serviceActive := flags.serviceActive % 2)
  }

  lemma OneBit(v: nat, tail: seq<bool>)
    ensures FromBits((ToBits(v, 1) + tail)[..1]) == v % 2 && (ToBits(v, 1) + tail)[1..] == tail
  {
    hide FromBits, ToBits;
    ReadBack(v, 1, tail);
    SmallPow2();
  }

  /** The flag byte of any header, whatever its reserved last bit is. */
  lemma ForeignFlags(h: Header, mark: nat, tail: seq<bool>)
    ensures ParseFlags(NO_HEADER, PresenceBits(h, ToBits(h.svcInfoStart, 1) + (ToBits(h.svcInfoChange, 1) +
      (ToBits(h.svcInfoComplete, 1) + (ToBits(h.serviceActive, 1) + (ToBits(mark, 1) + tail))))))
      == (CutFlags(NO_HEADER, h), tail)
  {
    hide FromBits, ToBits;
    var r7 := ToBits(mark, 1) + tail;
    var r6 := ToBits(h.serviceActive, 1) + r7;
    var r5 := ToBits(h.svcInfoComplete, 1) + r6;
    var r4 := ToBits(h.svcInfoChange, 1) + r5;
    var r3 := ToBits(h.svcInfoStart, 1) + r4;
    var r2 := ToBits(h.svcInfoPresent, 1) + r3;
    var r1 := ToBits(h.ccDataPresent, 1) + r2;
    OneBit(h.timeCodePresent, r1);
    OneBit(h.ccDataPresent, r2);
    OneBit(h.svcInfoPresent, r3);
    OneBit(h.svcInfoStart, r4);
    OneBit(h.svcInfoChange, r5);
    OneBit(h.svcInfoComplete, r6);
    OneBit(h.serviceActive, r7);
    OneBit(mark, tail);
  }

  /** A header as it comes back: every field cut to its width, the length as patched in. */
  function CutHeader(h: Header, length: nat): Header
  {
    CutFlags(NO_HEADER, h).(identifier := h.identifier % 0x1_0000, length := length % 0x100,
                           frameRate := h.frameRate % 0x10, sequence := h.sequence % 0x1_0000)
  }

  /** Any header, whatever its reserved bits are. */
  lemma ForeignHeader(h: Header, mark: nat, flagMark: nat, tail: seq<bool>)
    ensures ParseHeader(ToBits(h.identifier, 16) + (ToBits(h.length, 8) + (ToBits(h.frameRate, 4) + (ToBits(mark, 4) +
      PresenceBits(h, ToBits(h.svcInfoStart, 1) + (ToBits(h.svcInfoChange, 1) + (ToBits(h.svcInfoComplete, 1) +
      (ToBits(h.serviceActive, 1) + (ToBits(flagMark, 1) + (ToBits(h.sequence, 16) + tail)))))))))
      ) == (CutHeader(h, h.length), tail)
  {
    hide FromBits, ToBits, PresenceBits, ParseFlags;
    var r4 := ToBits(h.sequence, 16) + tail;
    var flags := PresenceBits(h, ToBits(h.svcInfoStart, 1) + (ToBits(h.svcInfoChange, 1) +
      (ToBits(h.svcInfoComplete, 1) + (ToBits(h.serviceActive, 1) + (ToBits(flagMark, 1) + r4)))));
    var r3 := ToBits(mark, 4) + flags;
    var r2 := ToBits(h.frameRate, 4) + r3;
    var r1 := ToBits(h.length, 8) + r2;
    ReadBack(h.identifier, 16, r1);
    ReadBack(h.length, 8, r2);
    ReadBack(h.frameRate, 4, r3);
    ReadBack(mark, 4, flags);
    ForeignFlags(h, flagMark, r4);
    ReadBack(h.sequence, 16, tail);
    SmallPow2();
  }

  lemma HeaderBack(h: Header, length: nat, tail: seq<bool>)
    ensures ParseHeader(HeaderBits(h, length, tail)) == (CutHeader(h, length), tail)
  {
    hide ToBits, PresenceBits, ParseHeader;
    ForeignHeader(h.(length := length), 0xf, 1, tail);
    SamePresence(h, length, ToBits(h.svcInfoStart, 1) + (ToBits(h.svcInfoChange, 1) + (ToBits(h.svcInfoComplete, 1) +
      (ToBits(h.serviceActive, 1) + (ToBits(1, 1) + (ToBits(h.sequence, 16) + tail))))));
  }

  lemma SamePresence(h: Header, length: nat, tail: seq<bool>)
    ensures PresenceBits(h.(length := length), tail) == PresenceBits(h, tail)
  {
  }

  /** The first half of any time code, whatever its reserved bits are. */
  lemma ForeignHours(mark2: nat, mark1: nat, t: TimeCode, t0: TimeCode, tail: seq<bool>)
    ensures ParseHours(t0, ToBits(mark2, 2) + (ToBits(t.tenHours, 2) + (ToBits(t.hours, 4) + (ToBits(mark1, 1) +
      (ToBits(t.tenMinutes, 3) + (ToBits(t.minutes, 4) + tail))))))
      == (t0.(tenHours := t.tenHours % 4, hours := t.hours % 16, tenMinutes := t.tenMinutes % 8,
              minutes := t.minutes % 16), tail)
  {
    hide FromBits, ToBits;
    var r5 := ToBits(t.minutes, 4) + tail;
    var r4 := ToBits(t.tenMinutes, 3) + r5;
    var r3 := ToBits(mark1, 1) + r4;
    var r2 := ToBits(t.hours, 4) + r3;
    var r1 := ToBits(t.tenHours, 2) + r2;
    ReadBack(mark2, 2, r1);
    ReadBack(t.tenHours, 2, r2);
    ReadBack(t.hours, 4, r3);
    ReadBack(mark1, 1, r4);
    ReadBack(t.tenMinutes, 3, r5);
    ReadBack(t.minutes, 4, tail);
    SmallPow2();
  }

  lemma HoursBack(t: TimeCode, t0: TimeCode, tail: seq<bool>)
    ensures ParseHours(t0, HoursBits(t, tail)) == (t0.(tenHours := t.tenHours % 4, hours := t.hours % 16,
      tenMinutes := t.tenMinutes % 8, minutes := t.minutes % 16), tail)
  {
    hide ToBits, ParseHours;
    ForeignHours(3, 1, t, t0, tail);
  }

  /** The three bits of the tens of frames read as a zero bit and two more. */
  lemma TenFramesBits(v: nat)
    ensures ToBits(v, 3) == ToBits(v / 4, 1) + ToBits(v, 2)
  {
    ToBitsSplit(v, 1, 2);
    ShiftRightIsDiv(v, 2);
    assert Pow2(2) == 4;
  }

  /** The second half of any time code: the drop frame flag is returned as it stands. */
  lemma ForeignSeconds(mark: nat, t: TimeCode, t0: TimeCode, tail: seq<bool>)
    ensures ParseSeconds(t0, ToBits(t.fieldFlag, 1) + (ToBits(t.tenSeconds, 3) + (ToBits(t.seconds, 4) +
      (ToBits(t.dropFrame, 1) + (ToBits(mark, 1) + (ToBits(t.tenFrames, 2) + (ToBits(t.frames, 4) + tail)))))))
      == (t0.(fieldFlag := t.fieldFlag % 2, tenSeconds := t.tenSeconds % 8, seconds := t.seconds % 16,
              dropFrame := t.dropFrame % 2, tenFrames := t.tenFrames % 4, frames := t.frames % 16), tail)
  {
    hide FromBits, ToBits;
    var r6 := ToBits(t.frames, 4) + tail;
    var r5 := ToBits(t.tenFrames, 2) + r6;
    var r4 := ToBits(mark, 1) + r5;
    var r3 := ToBits(t.dropFrame, 1) + r4;
    var r2 := ToBits(t.seconds, 4) + r3;
    var r1 := ToBits(t.tenSeconds, 3) + r2;
    ReadBack(t.fieldFlag, 1, r1);
    ReadBack(t.tenSeconds, 3, r2);
    ReadBack(t.seconds, 4, r3);
    ReadBack(t.dropFrame, 1, r4);
    ReadBack(mark, 1, r5);
    ReadBack(t.tenFrames, 2, r6);
    ReadBack(t.frames, 4, tail);
    SmallPow2();
  }

  lemma SecondsBack(t: TimeCode, t0: TimeCode, tail: seq<bool>)
    ensures ParseSeconds(t0, SecondsBits(t, tail)) == (t0.(fieldFlag := t.fieldFlag % 2,
      tenSeconds := t.tenSeconds % 8, seconds := t.seconds % 16, dropFrame := 1, tenFrames := t.tenFrames % 4,
      frames := t.frames % 16), tail)
  {
    hide ToBits, ParseSeconds;
    TenFramesBits(t.tenFrames);
    var r6 := ToBits(t.frames, 4) + tail;
    assert ToBits(t.tenFrames, 3) + r6 == ToBits(t.tenFrames / 4, 1) + (ToBits(t.tenFrames, 2) + r6);
    ForeignSeconds(t.tenFrames / 4, t.(dropFrame := 1), t0, tail);
  }

  /** The time code section as it comes back: the drop frame flag always set. */
  function CutTimeCode(p: Cdp): TimeCode
  {
    if !HasTimeCode(p) then NO_TIME_CODE else
    var t := p.tc;
    TimeCode(TIME_CODE_ID, t.tenHours % 4, t.hours % 16, t.tenMinutes % 8, t.minutes % 16, t.fieldFlag % 2,
             t.tenSeconds % 8, t.seconds % 16, 1, t.tenFrames % 4, t.frames % 16)
  }

  lemma TimeCodeBack(p: Cdp, tail: seq<bool>)
    requires |tail| >= 8 && FromBits(tail[..8]) != TIME_CODE_ID
    ensures var b := TimeCodeBits(p, tail);
      |b| >= 8 && ParseTimeCode(FromBits(b[..8]), b[8..]) == Got(CutTimeCode(p), FromBits(tail[..8]), tail[8..])
  {
    hide FromBits, ToBits, HoursBits, SecondsBits, ParseHours, ParseSeconds;
    if HasTimeCode(p) {
      var t0 := NO_TIME_CODE.(sectionId := TIME_CODE_ID);
      var r1 := SecondsBits(p.tc, tail);
      ReadBack(TIME_CODE_ID, 8, HoursBits(p.tc, r1));
      HoursBack(p.tc, t0, r1);
      SecondsBack(p.tc, ParseHours(t0, HoursBits(p.tc, r1)).0, tail);
      SmallPow2();
    }
  }

  function CutEntry(e: CcEntry): CcEntry
  {
    CcEntry(e.valid % 2, e.kind % 4, e.first % 0x100, e.second % 0x100)
  }

  function CutEntries(es: seq<CcEntry>): (r: seq<CcEntry>)
    ensures |r| == |es|
  {
    if es == [] then [] else [CutEntry(es[0])] + CutEntries(es[1..])
  }

  /** Any caption entry, whatever its marker bits are. */
  lemma ForeignEntry(mark: nat, e: CcEntry, tail: seq<bool>)
    ensures var b := ToBits(mark, 5) + (ToBits(e.valid, 1) + (ToBits(e.kind, 2) + (ToBits(e.first, 8) +
      (ToBits(e.second, 8) + tail))));
      ParseEntry(b) == CutEntry(e) && b[24..] == tail
  {
    hide FromBits, ToBits;
    var r4 := ToBits(e.second, 8) + tail;
    var r3 := ToBits(e.first, 8) + r4;
    var r2 := ToBits(e.kind, 2) + r3;
    var r1 := ToBits(e.valid, 1) + r2;
    ReadBack(mark, 5, r1);
    ReadBack(e.valid, 1, r2);
    ReadBack(e.kind, 2, r3);
    ReadBack(e.first, 8, r4);
    ReadBack(e.second, 8, tail);
    SmallPow2();
  }

  lemma EntryBack(e: CcEntry, tail: seq<bool>)
    ensures ParseEntry(EntryBits(e, tail)) == CutEntry(e)
    ensures EntryBits(e, tail)[24..] == tail
  {
    hide ToBits, ParseEntry;
    ForeignEntry(0x1f, e, tail);
  }

  lemma {:induction false} EntriesBack(es: seq<CcEntry>, tail: seq<bool>)
    ensures ParseEntries(|es|, EntriesBits(es, tail)) == CutEntries(es)
    ensures EntriesBits(es, tail)[24 * |es|..] == tail
  {
    hide EntryBits, ParseEntry, CutEntry;
    if es == [] {
    } else {
      var more := EntriesBits(es[1..], tail);
      EntryBack(es[0], more);
      EntriesBack(es[1..], tail);
      DropDrop(EntriesBits(es, tail), 24, 24 * |es[1..]|);
    }
  }

  lemma DropDrop<T>(s: seq<T>, m: nat, n: nat)
    requires m + n <= |s|
    ensures s[m + n..] == s[m..][n..]
  {
  }

  function CutCcData(p: Cdp): CcData
  {
    if HasCcData(p) then CcData(CC_DATA_ID, CutEntries(p.cc.entries)) else NO_CC_DATA
  }

  lemma CcDataBack(p: Cdp, tail: seq<bool>)
    requires |p.cc.entries| <= MAX_CC_COUNT
    requires |tail| >= 8 && FromBits(tail[..8]) != CC_DATA_ID
    ensures var b := CcDataBits(p, tail);
      |b| >= 8 && ParseCcData(FromBits(b[..8]), b[8..]) == Got(CutCcData(p), FromBits(tail[..8]), tail[8..])
  {
    hide FromBits, ToBits, EntriesBits, ParseEntries, CutEntries;
    if HasCcData(p) {
      var n := |p.cc.entries|;
      CcHeadBack(n, EntriesBits(p.cc.entries, tail));
      EntriesBack(p.cc.entries, tail);
      EntriesFit(n, |tail|);
    }
  }

  lemma CcHeadBack(n: nat, tail: seq<bool>)
    requires n <= MAX_CC_COUNT
    ensures var b := ToBits(CC_DATA_ID, 8) + (ToBits(7, 3) + (ToBits(n, 5) + tail));
      FromBits(b[..8]) == CC_DATA_ID && FromBits(b[8..][3..][..5]) == n && b[8..][3..][5..] == tail
  {
    hide ToBits, FromBits;
    ForeignCount(7, CC_DATA_ID, n, tail);
    SmallPow2();
  }

  /** An identifier, three reserved bits, and a count of five. */
  lemma ForeignCount(mark: nat, id: nat, n: nat, tail: seq<bool>)
    ensures var b := ToBits(id, 8) + (ToBits(mark, 3) + (ToBits(n, 5) + tail));
      FromBits(b[..8]) == id % 0x100 && FromBits(b[8..][3..][..5]) == n % 32 && b[8..][3..][5..] == tail
  {
    hide FromBits, ToBits;
    ReadBack(id, 8, ToBits(mark, 3) + (ToBits(n, 5) + tail));
    ReadBack(mark, 3, ToBits(n, 5) + tail);
    ReadBack(n, 5, tail);
    SmallPow2();
  }

  lemma EntriesFit(n: nat, behind: nat)
    ensures (24 * n + behind) / 8 >= n * 3
  {
  }

  lemma {:induction false} ServiceDataBack(data: seq<byte>, tail: seq<bool>)
    ensures ParseServiceData(|data|, ServiceDataBits(data, tail)) == data
    ensures ServiceDataBits(data, tail)[8 * |data|..] == tail
  {
    hide FromBits, ToBits;
    if data == [] {
    } else {
      ReadBack(data[0], 8, ServiceDataBits(data[1..], tail));
      SmallPow2();
      ServiceDataBack(data[1..], tail);
      DropDrop(ServiceDataBits(data, tail), 8, 8 * |data[1..]|);
    }
  }

  function CutService(s: Service): Service
  {
    Service(s.captionNumber % 32, s.data, Derive(s.data))
  }

  /** The service bytes by their fields (section 6.9.2 of ATSC A/65), reserved bits set. */
  function ServiceFields(language: seq<byte>, digital: bool, number: nat, field: nat, easyReader: bool,
                         wideAspect: bool): (d: seq<byte>)
    requires |language| == 3 && number < 64 && field < 2
    ensures |d| == 6
  {
    language + [if digital then 0xc0 + number else 0x7e + field,
                (if easyReader then 0x80 else 0) + (if wideAspect then 0x40 else 0) + 0x3f, 0xff]
  }

  /** What is derived from them are those fields. */
  lemma DerivedFields(language: seq<byte>, digital: bool, number: nat, field: nat, easyReader: bool, wideAspect: bool)
    requires |language| == 3 && number < 64 && field < 2
    ensures var i := Derive(ServiceFields(language, digital, number, field, easyReader, wideAspect));
      && i.language == language && i.digital == (if digital then 1 else 0)
      && i.number == (if digital then number else 0) && i.line21Field == (if digital then 0 else field)
      && i.easyReader == (if easyReader then 1 else 0) && i.wideAspect == (if wideAspect then 1 else 0)
  {
    var d := ServiceFields(language, digital, number, field, easyReader, wideAspect);
    assert d[..3] == language;
    assert digital ==> d[3] % 0x40 == number;
    assert !digital ==> d[3] % 2 == field;
    assert (d[4] / 0x40) % 2 == if wideAspect then 1 else 0;
  }

  function CutServices(ss: seq<Service>): (r: seq<Service>)
    ensures |r| == |ss|
  {
    if ss == [] then [] else [CutService(ss[0])] + CutServices(ss[1..])
  }

  /** Any service, whatever its reserved bits are. */
  lemma ForeignService(mark: nat, s: Service, tail: seq<bool>)
    ensures var b := ToBits(mark, 3) + (ToBits(s.captionNumber, 5) + ServiceDataBits(s.data, tail));
      ParseService(b) == CutService(s) && b[56..] == tail
  {
    hide FromBits, ToBits, ParseServiceData, ServiceDataBits;
    var r2 := ServiceDataBits(s.data, tail);
    var r1 := ToBits(s.captionNumber, 5) + r2;
    ReadBack(mark, 3, r1);
    ReadBack(s.captionNumber, 5, r2);
    ServiceDataBack(s.data, tail);
    DropDrop(ToBits(mark, 3) + r1, 3, 53);
    DropDrop(r1, 5, 48);
    SmallPow2();
  }

  lemma ServiceBack(s: Service, tail: seq<bool>)
    ensures ParseService(ServiceBits(s, tail)) == CutService(s)
    ensures ServiceBits(s, tail)[56..] == tail
  {
    hide ToBits, ParseService, CutService, ServiceDataBits;
    ForeignService(7, s, tail);
  }

  lemma {:induction false} ServicesBack(ss: seq<Service>, tail: seq<bool>)
    ensures ParseServices(|ss|, ServicesBits(ss, tail)) == CutServices(ss)
    ensures ServicesBits(ss, tail)[56 * |ss|..] == tail
  {
    hide ServiceBits, ParseService, CutService;
    if ss == [] {
    } else {
      ServiceBack(ss[0], ServicesBits(ss[1..], tail));
      ServicesBack(ss[1..], tail);
      DropDrop(ServicesBits(ss, tail), 56, 56 * |ss[1..]|);
    }
  }

  function CutSvcInfo(p: Cdp): SvcInfo
  {
    if HasSvcInfo(p) then SvcInfo(SVC_INFO_ID, p.svc.start % 2, p.svc.change % 2, p.svc.complete % 2,
      CutServices(p.svc.services)) else NO_SVC_INFO
  }

  /** The flags and the count of any service section, whatever its reserved bit is. */
  lemma ForeignSvcFlags(mark: nat, start: nat, change: nat, complete: nat, n: nat, id: nat, tail: seq<bool>)
    ensures ParseSvcFlags(id, ToBits(mark, 1) + (ToBits(start, 1) + (ToBits(change, 1) + (ToBits(complete, 1) +
      (ToBits(n, 4) + tail))))) == (SvcInfo(id, start % 2, change % 2, complete % 2, []), n % 16, tail)
  {
    hide FromBits, ToBits;
    var r4 := ToBits(n, 4) + tail;
    var r3 := ToBits(complete, 1) + r4;
    var r2 := ToBits(change, 1) + r3;
    var r1 := ToBits(start, 1) + r2;
    ReadBack(mark, 1, r1);
    ReadBack(start, 1, r2);
    ReadBack(change, 1, r3);
    ReadBack(complete, 1, r4);
    ReadBack(n, 4, tail);
    SmallPow2();
  }

  lemma SvcFlagsBack(s: SvcInfo, id: nat, tail: seq<bool>)
    requires |s.services| <= 15
    ensures ParseSvcFlags(id, SvcFlagBits(s, tail))
      == (SvcInfo(id, s.start % 2, s.change % 2, s.complete % 2, []), |s.services|, tail)
  {
    hide ToBits, ParseSvcFlags;
    ForeignSvcFlags(1, s.start, s.change, s.complete, |s.services|, id, tail);
  }

  lemma SvcInfoBack(p: Cdp, tail: seq<bool>)
    requires |p.svc.services| <= 15
    requires |tail| >= 24 && FromBits(tail[..8]) != SVC_INFO_ID
    ensures var b := SvcInfoBits(p, tail);
      |b| >= 8 && ParseSvcInfo(FromBits(b[..8]), b[8..]) == Got(CutSvcInfo(p), FromBits(tail[..8]), tail[8..])
  {
    hide FromBits, ToBits, SvcFlagBits, ParseSvcFlags, ServicesBits, ParseServices, CutServices;
    if HasSvcInfo(p) {
      var r1 := ServicesBits(p.svc.services, tail);
      ReadBack(SVC_INFO_ID, 8, SvcFlagBits(p.svc, r1));
      SvcFlagsBack(p.svc, SVC_INFO_ID, r1);
      ServicesBack(p.svc.services, tail);
      SmallPow2();
    }
  }

  lemma FooterBack(f: Footer, checksum: byte)
    requires f.sectionId % 0x100 == FOOTER_ID
    ensures var b := FooterBits(f, ToBits(checksum, 8));
      FromBits(b[..8]) == FOOTER_ID
      && ParseFooter(FOOTER_ID, b[8..]) == Got(Footer(FOOTER_ID, f.sequence % 0x1_0000, checksum), 0, [])
  {
    hide FromBits, ToBits;
    var r2 := ToBits(checksum, 8);
    var r1 := ToBits(f.sequence, 16) + r2;
    assert r2 + [] == r2;
    ReadBack(f.sectionId, 8, r1);
    ReadBack(f.sequence, 16, r2);
    ReadBack(checksum, 8, []);
    SmallPow2();
  }

  /** A packet whose lists fit its tables and whose footer is marked as one. */
  predicate Encodable(p: Cdp)
  {
    |p.cc.entries| <= MAX_CC_COUNT && |p.svc.services| <= 15 && p.footer.sectionId % 0x100 == FOOTER_ID
  }

  /** The packet as it comes back. */
  function Cut(p: Cdp, length: nat, checksum: byte): Cdp
  {
    Cdp(CutHeader(p.header, length), CutTimeCode(p), CutCcData(p), CutSvcInfo(p),
        Footer(FOOTER_ID, p.footer.sequence % 0x1_0000, checksum))
  }

  lemma FirstIds(p: Cdp, tail: seq<bool>)
    requires |tail| >= 8 && FromBits(tail[..8]) == FOOTER_ID
    ensures var s := SvcInfoBits(p, tail);
      && |s| >= 8 && FromBits(s[..8]) in {SVC_INFO_ID, FOOTER_ID}
      && var c := CcDataBits(p, s);
      && |c| >= 8 && FromBits(c[..8]) in {CC_DATA_ID, SVC_INFO_ID, FOOTER_ID}
  {
    hide FromBits, ToBits, SvcFlagBits, ServicesBits, EntriesBits;
    if HasSvcInfo(p) {
      ReadBack(SVC_INFO_ID, 8, SvcFlagBits(p.svc, ServicesBits(p.svc.services, tail)));
    }
    if HasCcData(p) {
      ReadBack(CC_DATA_ID, 8,
        ToBits(7, 3) + (ToBits(|p.cc.entries|, 5) + EntriesBits(p.cc.entries, SvcInfoBits(p, tail))));
    }
    SmallPow2();
  }

  lemma SectionsBack(p: Cdp, h: Header, checksum: byte, valid: bool)
    requires Encodable(p)
    ensures var bits := TimeCodeBits(p, CcDataBits(p, SvcInfoBits(p, FooterBits(p.footer, ToBits(checksum, 8)))));
      ParseSections(h, bits, valid) == Parsed(Cut(p, 0, checksum).(header := h), valid)
  {
    hide FromBits, ToBits, TimeCodeBits, CcDataBits, SvcInfoBits, FooterBits, ParseTimeCode, ParseCcData, ParseSvcInfo,
      ParseFooter, CutTimeCode, CutCcData, CutSvcInfo, CutHeader;
    var f := FooterBits(p.footer, ToBits(checksum, 8));
    FooterBack(p.footer, checksum);
    FirstIds(p, f);
    SvcInfoBack(p, f);
    CcDataBack(p, SvcInfoBits(p, f));
    TimeCodeBack(p, CcDataBits(p, SvcInfoBits(p, f)));
  }

  /** Parsing an encoding gives back every encoded field, whichever sections are present. */
  lemma CdpRoundTrip(p: Cdp, s: seq<byte>, checksum: byte)
    requires Encodable(p) && BytesBits(s) == CdpBits(p, |s|, ToBits(checksum, 8))
    ensures ParseCdp(s) == Parsed(Cut(p, |s|, checksum), Sum8(s) == 0)
  {
    hide BytesBits, ToBits, HeaderBits, ParseHeader, ParseSections, TimeCodeBits, CcDataBits, SvcInfoBits, FooterBits;
    var rest := TimeCodeBits(p, CcDataBits(p, SvcInfoBits(p, FooterBits(p.footer, ToBits(checksum, 8)))));
    HeaderBack(p.header, |s|, rest);
    SectionsBack(p, CutHeader(p.header, |s|), checksum, Sum8(s) == 0);
  }

  // ---- which packets come back as they were ---------------------------------------------------

  predicate HeaderInRange(h: Header)
  {
    && h.identifier < 0x1_0000 && h.frameRate < 0x10 && h.sequence < 0x1_0000
    && h.timeCodePresent < 2 && h.ccDataPresent < 2 && h.svcInfoPresent < 2 && h.svcInfoStart < 2
    && h.svcInfoChange < 2 && h.svcInfoComplete < 2 && h.serviceActive < 2
  }

  predicate TimeCodeInRange(t: TimeCode)
  {
    && t.sectionId == TIME_CODE_ID && t.tenHours < 4 && t.hours < 16 && t.tenMinutes < 8 && t.minutes < 16
    && t.fieldFlag < 2 && t.tenSeconds < 8 && t.seconds < 16 && t.tenFrames < 4 && t.frames < 16
  }

  predicate EntryInRange(e: CcEntry)
  {
    e.valid < 2 && e.kind < 4 && e.first < 0x100 && e.second < 0x100
  }

  predicate ServiceInRange(s: Service)
  {
    s.captionNumber < 32 && s.info == Derive(s.data)
  }

  /** Every field within its width; a section is there when its flag says so, and all zero otherwise. */
  predicate InRange(p: Cdp)
  {
    && HeaderInRange(p.header)
    && (if p.header.timeCodePresent == 1 then TimeCodeInRange(p.tc) else p.tc == NO_TIME_CODE)
    && (if p.header.ccDataPresent == 1
        then p.cc.sectionId == CC_DATA_ID && forall i :: 0 <= i < |p.cc.entries| ==> EntryInRange(p.cc.entries[i])
        else p.cc == NO_CC_DATA)
    && (if p.header.svcInfoPresent == 1
        then p.svc.sectionId == SVC_INFO_ID && p.svc.start < 2 && p.svc.change < 2 && p.svc.complete < 2
             && forall i :: 0 <= i < |p.svc.services| ==> ServiceInRange(p.svc.services[i])
        else p.svc == NO_SVC_INFO)
    && p.footer.sectionId == FOOTER_ID && p.footer.sequence < 0x1_0000
  }

  lemma {:induction false} EntriesUncut(es: seq<CcEntry>)
    requires forall i :: 0 <= i < |es| ==> EntryInRange(es[i])
    ensures CutEntries(es) == es
  {
    if es == [] {
    } else {
      EntriesUncut(es[1..]);
      assert EntryInRange(es[0]);
    }
  }

  lemma {:induction false} ServicesUncut(ss: seq<Service>)
    requires forall i :: 0 <= i < |ss| ==> ServiceInRange(ss[i])
    ensures CutServices(ss) == ss
  {
    if ss == [] {
    } else {
      ServicesUncut(ss[1..]);
      assert ServiceInRange(ss[0]);
    }
  }

  lemma UncutIff(p: Cdp, length: nat, checksum: byte)
    requires InRange(p) && length < 0x100
    ensures Cut(p, length, checksum)
      == p.(header := p.header.(length := length), footer := p.footer.(checksum := checksum))
      <==> (p.header.timeCodePresent == 1 ==> p.tc.dropFrame == 1)
  {
    EntriesUncut(p.cc.entries);
    ServicesUncut(p.svc.services);
    hide CutEntries, CutServices, Derive;
  }

  /** Parsing the encoding of a packet within range gives that packet back, its length and checksum filled in,
      exactly when it has no time code or its drop frame flag is set. */
  lemma DropFrameIff(p: Cdp, s: seq<byte>, checksum: byte)
    requires Encodable(p) && InRange(p) && |s| < 0x100 && BytesBits(s) == CdpBits(p, |s|, ToBits(checksum, 8))
    ensures ParseCdp(s)
      == Parsed(p.(header := p.header.(length := |s|), footer := p.footer.(checksum := checksum)), Sum8(s) == 0)
      <==> (p.header.timeCodePresent == 1 ==> p.tc.dropFrame == 1)
  {
    hide BytesBits, ToBits, CdpBits, ParseCdp, Cut, InRange, Sum8, Encodable;
    CdpRoundTrip(p, s, checksum);
    UncutIff(p, |s|, checksum);
  }

  // A packet with nothing but a time code, its drop frame flag clear.
  const NO_DROP := Cdp(Header(0x9669, 0, 4, 1, 0, 0, 0, 0, 0, 0, 1),
                       TimeCode(TIME_CODE_ID, 1, 0, 0, 0, 0, 0, 0, 0, 0, 0),
                       NO_CC_DATA, NO_SVC_INFO, Footer(FOOTER_ID, 1, 0))

  /** Whoever clears the drop frame flag reads it back set. */
  lemma DropFrameSet(s: seq<byte>, checksum: byte)
    requires |s| < 0x100 && BytesBits(s) == CdpBits(NO_DROP, |s|, ToBits(checksum, 8))
    ensures var r := ParseCdp(s); r.Parsed? && r.cdp.tc == NO_DROP.tc.(dropFrame := 1)
  {
    hide BytesBits, ToBits, CdpBits, ParseCdp, Sum8;
    CdpRoundTrip(NO_DROP, s, checksum);
  }
}

/** Encoding and decoding caption distribution packets through the bit reader and writer. */
module Cdps {
  import opened Bits
  import opened Bitstreams
  import opened CdpFormat
  import opened CdpLayouts
  import opened Wrappers
  import VancPackets

  const BUFFER_SIZE := 255

  // ---- encoding ---------------------------------------------------------------------------

  /** Writing a field, with only what a chain of writes needs to know. */
  method Put(bs: Bitstream, v: nat, n: nat)
    requires bs.Valid() && 8 * bs.used + bs.regUsed + n <= 8 * bs.buflen
    modifies bs`used, bs`regUsed, bs`reg, bs.buf
    ensures bs.Valid() && 8 * bs.used + bs.regUsed == old(8 * bs.used + bs.regUsed) + n
    ensures forall tail :: bs.Written() + tail == old(bs.Written()) + (ToBits(v, n) + tail)
  {
    bs.WriteBits(v, n);
  }

  /** Three fields in a row. */
  method PutThree(bs: Bitstream, a: nat, n: nat, b: nat, m: nat, c: nat, k: nat)
    requires bs.Valid() && 8 * bs.used + bs.regUsed + (n + m + k) <= 8 * bs.buflen
    modifies bs`used, bs`regUsed, bs`reg, bs.buf
    ensures bs.Valid() && 8 * bs.used + bs.regUsed == old(8 * bs.used + bs.regUsed) + (n + m + k)
    ensures forall tail :: (bs.Written() + tail ==
      old(bs.Written()) + (ToBits(a, n) + (ToBits(b, m) + (ToBits(c, k) + tail))))
  {
    hide StreamBits, ToBits;
    Put(bs, a, n);
    Put(bs, b, m);
    Put(bs, c, k);
  }

  method PutPresence(bs: Bitstream, h: Header)
    requires bs.Valid() && 8 * bs.used + bs.regUsed + 3 <= 8 * bs.buflen
    modifies bs`used, bs`regUsed, bs`reg, bs.buf
    ensures bs.Valid() && 8 * bs.used + bs.regUsed == old(8 * bs.used + bs.regUsed) + 3
    ensures forall tail :: bs.Written() + tail == old(bs.Written()) + PresenceBits(h, tail)
  {
    hide StreamBits, ToBits;
    PutThree(bs, h.timeCodePresent, 1, h.ccDataPresent, 1, h.svcInfoPresent, 1);
  }

  method PutFlags(bs: Bitstream, h: Header)
    requires bs.Valid() && 8 * bs.used + bs.regUsed + 8 <= 8 * bs.buflen
    modifies bs`used, bs`regUsed, bs`reg, bs.buf
    ensures bs.Valid() && 8 * bs.used + bs.regUsed == old(8 * bs.used + bs.regUsed) + 8
    ensures forall tail :: bs.Written() + tail == old(bs.Written()) + FlagBits(h, tail)
  {
    hide StreamBits, ToBits, PresenceBits;
    PutPresence(bs, h);
    PutThree(bs, h.svcInfoStart, 1, h.svcInfoChange, 1, h.svcInfoComplete, 1);
    Put(bs, h.serviceActive, 1);
    Put(bs, 1, 1);
  }

  method PutHeader(bs: Bitstream, h: Header)
    requires bs.Valid() && 8 * bs.used + bs.regUsed + 56 <= 8 * bs.buflen
    modifies bs`used, bs`regUsed, bs`reg, bs.buf
    ensures bs.Valid() && 8 * bs.used + bs.regUsed == old(8 * bs.used + bs.regUsed) + 56
    ensures forall tail :: bs.Written() + tail == old(bs.Written()) + HeaderBits(h, 0, tail)
  {
    hide StreamBits, ToBits, FlagBits;
    PutThree(bs, h.identifier, 16, 0, 8, h.frameRate, 4);
    Put(bs, 0xf, 4);
    PutFlags(bs, h);
    Put(bs, h.sequence, 16);
  }

  method PutTimeCode(bs: Bitstream, p: Cdp)
    requires bs.Valid() && 8 * bs.used + bs.regUsed + |TimeCodeBits(p, [])| <= 8 * bs.buflen
    modifies bs`used, bs`regUsed, bs`reg, bs.buf
    ensures bs.Valid() && 8 * bs.used + bs.regUsed == old(8 * bs.used + bs.regUsed) + |TimeCodeBits(p, [])|
    ensures forall tail :: bs.Written() + tail == old(bs.Written()) + TimeCodeBits(p, tail)
  {
    hide StreamBits, ToBits, HoursBits, SecondsBits;
    if p.header.timeCodePresent != 0 && p.tc.sectionId == 0x71 {
      Put(bs, p.tc.sectionId, 8);
      PutHours(bs, p.tc);
      PutSeconds(bs, p.tc);
    }
  }

  method PutHours(bs: Bitstream, t: TimeCode)
    requires bs.Valid() && 8 * bs.used + bs.regUsed + 16 <= 8 * bs.buflen
    modifies bs`used, bs`regUsed, bs`reg, bs.buf
    ensures bs.Valid() && 8 * bs.used + bs.regUsed == old(8 * bs.used + bs.regUsed) + 16
    ensures forall tail :: bs.Written() + tail == old(bs.Written()) + HoursBits(t, tail)
  {
    hide StreamBits, ToBits;
    PutThree(bs, 3, 2, t.tenHours, 2, t.hours, 4);
    PutThree(bs, 1, 1, t.tenMinutes, 3, t.minutes, 4);
  }

  method PutSeconds(bs: Bitstream, t: TimeCode)
    requires bs.Valid() && 8 * bs.used + bs.regUsed + 16 <= 8 * bs.buflen
    modifies bs`used, bs`regUsed, bs`reg, bs.buf
    ensures bs.Valid() && 8 * bs.used + bs.regUsed == old(8 * bs.used + bs.regUsed) + 16
    ensures forall tail :: bs.Written() + tail == old(bs.Written()) + SecondsBits(t, tail)
  {
    hide StreamBits, ToBits;
    PutThree(bs, t.fieldFlag, 1, t.tenSeconds, 3, t.seconds, 4);
    PutThree(bs, 1, 1, t.tenFrames, 3, t.frames, 4);
  }

  method PutEntry(bs: Bitstream, e: CcEntry)
    requires bs.Valid() && 8 * bs.used + bs.regUsed + 24 <= 8 * bs.buflen
    modifies bs`used, bs`regUsed, bs`reg, bs.buf
    ensures bs.Valid() && 8 * bs.used + bs.regUsed == old(8 * bs.used + bs.regUsed) + 24
    ensures forall tail :: bs.Written() + tail == old(bs.Written()) + EntryBits(e, tail)
  {
    hide StreamBits, ToBits;
    PutThree(bs, 0x1f, 5, e.valid, 1, e.kind, 2);
    Put(bs, e.first, 8);
    Put(bs, e.second, 8);
  }

  method PutEntries(bs: Bitstream, es: seq<CcEntry>)
    requires bs.Valid() && 8 * bs.used + bs.regUsed + 24 * |es| <= 8 * bs.buflen
    modifies bs`used, bs`regUsed, bs`reg, bs.buf
    ensures bs.Valid() && 8 * bs.used + bs.regUsed == old(8 * bs.used + bs.regUsed) + 24 * |es|
    ensures forall tail :: bs.Written() + tail == old(bs.Written()) + EntriesBits(es, tail)
  {
    hide StreamBits, EntryBits;
    assert es[0..] == es;
    for i := 0 to |es|
      invariant bs.Valid() && 8 * bs.used + bs.regUsed == old(8 * bs.used + bs.regUsed) + 24 * i
      invariant forall tail :: bs.Written() + EntriesBits(es[i..], tail) == old(bs.Written()) + EntriesBits(es, tail)
    {
      assert es[i..][1..] == es[i + 1..];
      PutEntry(bs, es[i]);
    }
  }

  method PutCcData(bs: Bitstream, p: Cdp)
    requires bs.Valid() && 8 * bs.used + bs.regUsed + |CcDataBits(p, [])| <= 8 * bs.buflen
    modifies bs`used, bs`regUsed, bs`reg, bs.buf
    ensures bs.Valid() && 8 * bs.used + bs.regUsed == old(8 * bs.used + bs.regUsed) + |CcDataBits(p, [])|
    ensures forall tail :: bs.Written() + tail == old(bs.Written()) + CcDataBits(p, tail)
  {
    hide StreamBits, ToBits, EntriesBits;
    if p.header.ccDataPresent != 0 && p.cc.sectionId == 0x72 {
      Put(bs, p.cc.sectionId, 8);
      Put(bs, 7, 3);
      Put(bs, |p.cc.entries|, 5);
      PutEntries(bs, p.cc.entries);
    }
  }

  method PutService(bs: Bitstream, s: Service)
    requires bs.Valid() && 8 * bs.used + bs.regUsed + 56 <= 8 * bs.buflen
    modifies bs`used, bs`regUsed, bs`reg, bs.buf
    ensures bs.Valid() && 8 * bs.used + bs.regUsed == old(8 * bs.used + bs.regUsed) + 56
    ensures forall tail :: bs.Written() + tail == old(bs.Written()) + ServiceBits(s, tail)
  {
    hide StreamBits, ToBits;
    Put(bs, 7, 3);
    Put(bs, s.captionNumber, 5);
    ghost var before := bs.Written();
    assert s.data[0..] == s.data;
    for n := 0 to 6
      invariant bs.Valid() && 8 * bs.used + bs.regUsed == old(8 * bs.used + bs.regUsed) + 8 + 8 * n
      invariant forall tail ::
        bs.Written() + ServiceDataBits(s.data[n..], tail) == before + ServiceDataBits(s.data, tail)
    {
      assert s.data[n..][1..] == s.data[n + 1..];
      Put(bs, s.data[n], 8);
    }
  }

  method PutServices(bs: Bitstream, ss: seq<Service>)
    requires bs.Valid() && 8 * bs.used + bs.regUsed + 56 * |ss| <= 8 * bs.buflen
    modifies bs`used, bs`regUsed, bs`reg, bs.buf
    ensures bs.Valid() && 8 * bs.used + bs.regUsed == old(8 * bs.used + bs.regUsed) + 56 * |ss|
    ensures forall tail :: bs.Written() + tail == old(bs.Written()) + ServicesBits(ss, tail)
  {
    hide StreamBits, ServiceBits;
    assert ss[0..] == ss;
    for i := 0 to |ss|
      invariant bs.Valid() && 8 * bs.used + bs.regUsed == old(8 * bs.used + bs.regUsed) + 56 * i
      invariant forall tail :: bs.Written() + ServicesBits(ss[i..], tail) == old(bs.Written()) + ServicesBits(ss, tail)
    {
      assert ss[i..][1..] == ss[i + 1..];
      PutService(bs, ss[i]);
    }
  }

  method PutSvcFlags(bs: Bitstream, s: SvcInfo)
    requires bs.Valid() && 8 * bs.used + bs.regUsed + 8 <= 8 * bs.buflen
    modifies bs`used, bs`regUsed, bs`reg, bs.buf
    ensures bs.Valid() && 8 * bs.used + bs.regUsed == old(8 * bs.used + bs.regUsed) + 8
    ensures forall tail :: bs.Written() + tail == old(bs.Written()) + SvcFlagBits(s, tail)
  {
    hide StreamBits, ToBits;
    PutThree(bs, 1, 1, s.start, 1, s.change, 1);
    Put(bs, s.complete, 1);
    Put(bs, |s.services|, 4);
  }

  method PutSvcInfo(bs: Bitstream, p: Cdp)
    requires bs.Valid() && 8 * bs.used + bs.regUsed + |SvcInfoBits(p, [])| <= 8 * bs.buflen
    modifies bs`used, bs`regUsed, bs`reg, bs.buf
    ensures bs.Valid() && 8 * bs.used + bs.regUsed == old(8 * bs.used + bs.regUsed) + |SvcInfoBits(p, [])|
    ensures forall tail :: bs.Written() + tail == old(bs.Written()) + SvcInfoBits(p, tail)
  {
    hide StreamBits, ToBits, ServicesBits, SvcFlagBits;
    if p.header.svcInfoPresent != 0 && p.svc.sectionId == 0x73 {
      Put(bs, p.svc.sectionId, 8);
      PutSvcFlags(bs, p.svc);
      PutServices(bs, p.svc.services);
    }
  }

  /** Header to footer, without the checksum byte. */
  method PutFields(bs: Bitstream, p: Cdp)
    requires bs.Valid() && 8 * bs.used + bs.regUsed + |CdpBits(p, 0, [])| <= 8 * bs.buflen
    modifies bs`used, bs`regUsed, bs`reg, bs.buf
    ensures bs.Valid() && 8 * bs.used + bs.regUsed == old(8 * bs.used + bs.regUsed) + |CdpBits(p, 0, [])|
    ensures forall tail :: bs.Written() + tail == old(bs.Written()) + CdpBits(p, 0, tail)
  {
    hide StreamBits, ToBits, HeaderBits, TimeCodeBits, CcDataBits, SvcInfoBits;
    CdpLength(p);
    PutHeader(bs, p.header);
    PutTimeCode(bs, p);
    PutCcData(bs, p);
    PutSvcInfo(bs, p);
    Put(bs, p.footer.sectionId, 8);
    Put(bs, p.footer.sequence, 16);
  }

  lemma SectionLengths(p: Cdp, tail: seq<bool>)
    ensures |TimeCodeBits(p, tail)| == (if HasTimeCode(p) then 40 else 0) + |tail|
    ensures |CcDataBits(p, tail)| == (if HasCcData(p) then 16 + 24 * |p.cc.entries| else 0) + |tail|
    ensures |SvcInfoBits(p, tail)| == (if HasSvcInfo(p) then 16 + 56 * |p.svc.services| else 0) + |tail|
  {
    hide HoursBits, SecondsBits, EntriesBits, SvcFlagBits, ServicesBits, ToBits;
  }

  /** The lengths of the parts, in bits. */
  lemma CdpLength(p: Cdp)
    ensures |CdpBits(p, 0, [])| == 80 + |TimeCodeBits(p, [])| + |CcDataBits(p, [])| + |SvcInfoBits(p, [])|
    ensures |TimeCodeBits(p, [])| <= 40 && |CcDataBits(p, [])| <= 16 + 24 * |p.cc.entries|
    ensures |SvcInfoBits(p, [])| <= 16 + 56 * |p.svc.services|
    ensures |CdpBits(p, 0, [])| % 8 == 0
  {
    hide TimeCodeBits, CcDataBits, SvcInfoBits, HeaderBits, FooterBits;
    var footer := FooterBits(p.footer, []);
    SectionLengths(p, []);
    SectionLengths(p, footer);
    SectionLengths(p, SvcInfoBits(p, footer));
    SectionLengths(p, CcDataBits(p, SvcInfoBits(p, footer)));
    hide HasTimeCode, HasCcData, HasSvcInfo;
    WholeBytes(|TimeCodeBits(p, [])|, |CcDataBits(p, [])|, |SvcInfoBits(p, [])|, |p.cc.entries|, |p.svc.services|);
  }

  lemma WholeBytes(a: nat, b: nat, c: nat, entries: nat, services: nat)
    requires (a == 0 || a == 40) && (b == 0 || b == 16 + 24 * entries) && (c == 0 || c == 16 + 56 * services)
    ensures a <= 40 && b <= 16 + 24 * entries && c <= 16 + 56 * services && (80 + a + b + c) % 8 == 0
  {
    var i, j := if a == 0 then 0 else 5, if b == 0 then 0 else 2 + 3 * entries;
    var k := if c == 0 then 0 else 2 + 7 * services;
    assert 80 + a + b + c == 8 * (10 + i + j + k);
  }

  /** Byte k of a stream of whole bytes replaced. */
  lemma PatchByte(s: seq<byte>, k: nat, y: byte)
    requires k < |s|
    ensures BytesBits(s[k := y]) == BytesBits(s)[..8 * k] + ToBits(y, 8) + BytesBits(s)[8 * k + 8..]
  {
    hide ToBits, BytesBits;
    var a, c := s[..k], s[k + 1..];
    assert s == a + [s[k]] + c && s[k := y] == a + [y] + c;
    BytesBitsAppend(a + [s[k]], c);
    BytesBitsAppend(a, [s[k]]);
    BytesBitsAppend(a + [y], c);
    BytesBitsAppend(a, [y]);
    BytesBitsOne(y);
  }

  /** Setting the checksum and then the length byte. */
  lemma Patched(p: Cdp, s: seq<byte>, w: seq<bool>, checksum: byte, n: byte)
    requires |s| >= 7 && |w| == 8 * |s| - 8 && BytesBits(s)[..|w|] == w
    requires w + ToBits(checksum, 8) == CdpBits(p, 0, ToBits(checksum, 8))
    ensures BytesBits(s[|s| - 1 := checksum][2 := n]) == CdpBits(p, n, ToBits(checksum, 8))
  {
    hide ToBits, BytesBits, HeaderRest, TimeCodeBits, CcDataBits, SvcInfoBits, FooterBits;
    var t := s[|s| - 1 := checksum];
    PatchByte(s, |s| - 1, checksum);
    assert BytesBits(t) == CdpBits(p, 0, ToBits(checksum, 8)) by {
      assert BytesBits(s)[8 * |s|..] == [];
      assert w + ToBits(checksum, 8) + [] == w + ToBits(checksum, 8);
    }
    PatchByte(t, 2, n);
    LengthByte(p, n, ToBits(checksum, 8));
  }

  lemma LengthByte(p: Cdp, n: nat, tail: seq<bool>)
    ensures var b := CdpBits(p, 0, tail);
      |b| >= 24 && CdpBits(p, n, tail) == b[..16] + ToBits(n, 8) + b[24..]
  {
    hide ToBits, HeaderRest, TimeCodeBits, CcDataBits, SvcInfoBits, FooterBits;
  }

  lemma {:induction false} SumAppend(s: seq<byte>, x: byte)
    ensures Sum8(s + [x]) == (Sum8(s) + x) % 0x100
  {
    assert (s + [x])[..|s|] == s;
  }

  method SumOf(bytes: array<byte>, n: nat) returns (sum: byte)
    requires n <= bytes.Length
    ensures sum == Sum8(bytes[..n]) && sum == Total(bytes[..n]) % 0x100
  {
    hide Total;
    sum := 0;
    for i := 0 to n
      invariant sum == Sum8(bytes[..i])
    {
      assert bytes[..i + 1] == bytes[..i] + [bytes[i]];
      SumAppend(bytes[..i], bytes[i]);
      sum := (sum + bytes[i]) % 0x100;
    }
    Sum8IsTotal(bytes[..n]);
  }

  /** Every field of the packet in a 255-byte buffer, before length and checksum are patched. */
  method PutAll(p: Cdp) returns (bytes: array<byte>, byteCount: nat, ghost w: seq<bool>)
    requires Encodable(p)
    ensures fresh(bytes) && bytes.Length == BUFFER_SIZE && 11 <= byteCount <= 215
    ensures |w| == 8 * byteCount - 8 && BytesBits(bytes[..byteCount])[..|w|] == w
    ensures forall tail :: w + tail == CdpBits(p, 0, tail)
  {
    hide StreamBits, BytesBits, ToBits, CdpBits, TimeCodeBits, CcDataBits, SvcInfoBits, PadToByte;
    bytes := new byte[BUFFER_SIZE];
    var bs := new Bitstream(bytes, 0, BUFFER_SIZE);
    CdpLength(p);
    PutFields(bs, p);
    w := bs.Written();
    forall tail ensures w + tail == CdpBits(p, 0, tail) {
      assert [] + CdpBits(p, 0, tail) == CdpBits(p, 0, tail);
    }
    bs.WriteBits(p.footer.checksum, 8);
    AlignedNeedsNoPad(bs.Written());
    bs.WriteBufferComplete();
    byteCount := bs.used;
    assert bytes[0..byteCount] == bytes[..byteCount];
  }

  /** The packet in a 255-byte buffer; length and checksum are patched in at the end. */
  method Encode(p: Cdp) returns (bytes: array<byte>, byteCount: nat)
    requires Encodable(p)
    ensures 11 <= byteCount <= 215 && bytes.Length == BUFFER_SIZE
    ensures BytesBits(bytes[..byteCount]) == CdpBits(p, byteCount, ToBits(bytes[byteCount - 1], 8))
    ensures bytes[2] == byteCount && Sum8(bytes[..byteCount]) == 0
    ensures |p.cc.entries| < 32 && |p.svc.services| < 16
      && bytes[..byteCount] == FrontBytes(p, byteCount) + [bytes[byteCount - 1]]
    ensures Total(bytes[..byteCount]) % 0x100 == 0
  {
    hide BytesBits, ToBits, CdpBits, Sum8, Encodable, FrontBytes, Total;
    ghost var w;
    bytes, byteCount, w := PutAll(p);
    ghost var s: seq<byte> := bytes[..byteCount];
    bytes[2] := byteCount;
    var sum := SumOf(bytes, byteCount - 1);
    var complement := 0xff - sum;
    bytes[byteCount - 1] := if complement == 0xff then 0 else complement + 1;
    ghost var checksum: byte := bytes[byteCount - 1];
    ghost var n: byte := byteCount;
    assert bytes[..byteCount] == s[|s| - 1 := checksum][2 := n];
    Patched(p, s, w, checksum, n);
    assert bytes[..byteCount] == bytes[..byteCount - 1] + [checksum];
    SumAppend(bytes[..byteCount - 1], checksum);
    Sum8IsTotal(bytes[..byteCount]);
    EncodableRoom(p);
    CdpInBytes(p, bytes[..byteCount], byteCount, checksum);
  }

  lemma EncodableRoom(p: Cdp)
    requires Encodable(p)
    ensures |p.cc.entries| < 32 && |p.svc.services| < 16
  {
  }

  // ---- decoding -----------------------------------------------------------------------------

  /** Reading a field, with only what a chain of reads needs to know. */
  method Take(bs: Bitstream, n: nat) returns (v: nat)
    requires bs.Valid() && n <= |bs.Rest()| && n <= 64
    modifies bs`used, bs`regUsed, bs`reg
    ensures bs.Valid() && v == FromBits(old(bs.Rest())[..n])
    ensures bs.Rest() == old(bs.Rest())[n..]
  {
    v := bs.ReadBits(n);
  }

  method TakeFlags(bs: Bitstream, h0: Header) returns (h: Header)
    requires bs.Valid() && |bs.Rest()| >= 8
    modifies bs`used, bs`regUsed, bs`reg
    ensures bs.Valid() && (h, bs.Rest()) == ParseFlags(h0, old(bs.Rest()))
    ensures |bs.Rest()| == |old(bs.Rest())| - 8
  {
    hide RestBits, FromBits;
    var timeCode := Take(bs, 1);
    var ccData := Take(bs, 1);
    var svcInfo := Take(bs, 1);
    var start := Take(bs, 1);
    var change := Take(bs, 1);
    var complete := Take(bs, 1);
    var active := Take(bs, 1);
    var _ := Take(bs, 1);
    h := h0.(timeCodePresent := timeCode, ccDataPresent := ccData, svcInfoPresent := svcInfo, svcInfoStart := start,
             svcInfoChange := change, svcInfoComplete := complete, serviceActive := active);
  }

  method TakeHeader(bs: Bitstream) returns (h: Header)
    requires bs.Valid() && |bs.Rest()| >= 56
    modifies bs`used, bs`regUsed, bs`reg
    ensures bs.Valid() && (h, bs.Rest()) == ParseHeader(old(bs.Rest()))
  {
    hide RestBits, FromBits, ParseFlags;
    var identifier := Take(bs, 16);
    var length := Take(bs, 8);
    var frameRate := Take(bs, 4);
    var _ := Take(bs, 4);
    var flags := TakeFlags(bs, NO_HEADER);
    var sequence := Take(bs, 16);
    h := flags.(identifier := identifier, length := length, frameRate := frameRate, sequence := sequence);
  }

  method TakeHours(bs: Bitstream, t0: TimeCode) returns (t: TimeCode)
    requires bs.Valid() && |bs.Rest()| >= 16
    modifies bs`used, bs`regUsed, bs`reg
    ensures bs.Valid() && (t, bs.Rest()) == ParseHours(t0, old(bs.Rest()))
  {
    hide RestBits, FromBits;
    var _ := Take(bs, 2);
    var tenHours := Take(bs, 2);
    var hours := Take(bs, 4);
    var _ := Take(bs, 1);
    var tenMinutes := Take(bs, 3);
    var minutes := Take(bs, 4);
    t := t0.(tenHours := tenHours, hours := hours, tenMinutes := tenMinutes, minutes := minutes);
  }

  method TakeSeconds(bs: Bitstream, t0: TimeCode) returns (t: TimeCode)
    requires bs.Valid() && |bs.Rest()| >= 16
    modifies bs`used, bs`regUsed, bs`reg
    ensures bs.Valid() && (t, bs.Rest()) == ParseSeconds(t0, old(bs.Rest()))
  {
    hide RestBits, FromBits;
    var fieldFlag := Take(bs, 1);
    var tenSeconds := Take(bs, 3);
    var seconds := Take(bs, 4);
    var dropFrame := Take(bs, 1);
    var _ := Take(bs, 1);
    var tenFrames := Take(bs, 2);
    var frames := Take(bs, 4);
    t := t0.(fieldFlag := fieldFlag, tenSeconds := tenSeconds, seconds := seconds, dropFrame := dropFrame,
             tenFrames := tenFrames, frames := frames);
  }

  method TakeTimeCode(bs: Bitstream, id: nat) returns (ok: bool, tc: TimeCode, next: nat)
    requires bs.Valid()
    modifies bs`used, bs`regUsed, bs`reg
    ensures bs.Valid()
    ensures ParseTimeCode(id, old(bs.Rest())) == if ok then Got(tc, next, bs.Rest()) else Short
  {
    hide RestBits, FromBits, ParseHours, ParseSeconds;
    if id != 0x71 {
      return true, NO_TIME_CODE, id;
    }
    if bs.buflen - bs.used < 5 {
      return false, NO_TIME_CODE, 0;
    }
    ghost var r := bs.Rest();
    var t := TakeHours(bs, NO_TIME_CODE.(sectionId := id));
    HoursLeft(NO_TIME_CODE.(sectionId := id), r);
    tc := TakeSeconds(bs, t);
    SecondsLeft(t, ParseHours(NO_TIME_CODE.(sectionId := id), r).1);
    next := Take(bs, 8);
    ok := true;
  }

  lemma HoursLeft(t: TimeCode, r: seq<bool>)
    requires |r| >= 16
    ensures |ParseHours(t, r).1| == |r| - 16
  {
  }

  lemma SecondsLeft(t: TimeCode, r: seq<bool>)
    requires |r| >= 16
    ensures |ParseSeconds(t, r).1| == |r| - 16
  {
  }

  method TakeEntry(bs: Bitstream) returns (e: CcEntry)
    requires bs.Valid() && |bs.Rest()| >= 24
    modifies bs`used, bs`regUsed, bs`reg
    ensures bs.Valid() && e == ParseEntry(old(bs.Rest())) && bs.Rest() == old(bs.Rest())[24..]
  {
    hide RestBits, FromBits;
    var _ := Take(bs, 5);
    var valid := Take(bs, 1);
    var kind := Take(bs, 2);
    var first := Take(bs, 8);
    var second := Take(bs, 8);
    e := CcEntry(valid, kind, first, second);
  }

  method TakeEntries(bs: Bitstream, n: nat) returns (es: seq<CcEntry>)
    requires bs.Valid() && |bs.Rest()| >= 24 * n
    modifies bs`used, bs`regUsed, bs`reg
    ensures bs.Valid() && es == ParseEntries(n, old(bs.Rest())) && bs.Rest() == old(bs.Rest())[24 * n..]
  {
    hide RestBits, ParseEntry;
    es := [];
    ghost var r := bs.Rest();
    for i := 0 to n
      invariant bs.Valid() && bs.Rest() == r[24 * i..]
      invariant es + ParseEntries(n - i, bs.Rest()) == ParseEntries(n, r)
    {
      ghost var more := ParseEntries(n - i - 1, bs.Rest()[24..]);
      assert 24 * i + 24 <= 24 * n;
      DropDrop(r, 24 * i, 24);
      var e := TakeEntry(bs);
      Associative(es, [e], more);
      es := es + [e];
    }
    assert es + [] == es;
  }

  method TakeCcData(bs: Bitstream, id: nat) returns (ok: bool, cc: CcData, next: nat)
    requires bs.Valid() && !ParseCcData(id, bs.Rest()).Undefined?
    modifies bs`used, bs`regUsed, bs`reg
    ensures bs.Valid()
    ensures ParseCcData(id, old(bs.Rest())) == if ok then Got(cc, next, bs.Rest()) else Short
  {
    hide RestBits, FromBits, ParseEntries;
    if id != 0x72 {
      return true, NO_CC_DATA, id;
    }
    if bs.buflen - bs.used < 2 {
      return false, NO_CC_DATA, 0;
    }
    var _ := Take(bs, 3);
    var n := Take(bs, 5);
    if bs.buflen - bs.used < n * 3 {
      return false, NO_CC_DATA, 0;
    }
    var es := TakeEntries(bs, n);
    next := Take(bs, 8);
    ok, cc := true, CcData(id, es);
  }

  method TakeServiceData(bs: Bitstream) returns (data: seq<byte>)
    requires bs.Valid() && |bs.Rest()| >= 48
    modifies bs`used, bs`regUsed, bs`reg
    ensures bs.Valid() && data == ParseServiceData(6, old(bs.Rest())) && bs.Rest() == old(bs.Rest())[48..]
  {
    hide RestBits, FromBits;
    ghost var r := bs.Rest();
    data := [];
    for n := 0 to 6
      invariant bs.Valid() && bs.Rest() == r[8 * n..] && |data| == n
      invariant data + ParseServiceData(6 - n, bs.Rest()) == ParseServiceData(6, r)
    {
      ghost var more := ParseServiceData(6 - n - 1, bs.Rest()[8..]);
      DropDrop(r, 8 * n, 8);
      FromBitsBound(bs.Rest()[..8]);
      SmallPow2();
      var x := Take(bs, 8);
      Associative(data, [x], more);
      data := data + [x];
    }
    assert data + [] == data;
  }

  method TakeService(bs: Bitstream) returns (s: Service)
    requires bs.Valid() && |bs.Rest()| >= 56
    modifies bs`used, bs`regUsed, bs`reg
    ensures bs.Valid() && s == ParseService(old(bs.Rest())) && bs.Rest() == old(bs.Rest())[56..]
  {
    hide RestBits, FromBits, Derive, ParseServiceData;
    var _ := Take(bs, 3);
    var number := Take(bs, 5);
    var data := TakeServiceData(bs);
    s := Service(number, data, DeriveInfo(data));
  }

  /** The derived fields, in the order the decoder sets them. */
  function DeriveInfo(d: ServiceBytes): (i: ServiceInfo)
    ensures i == Derive(d)
  {
    var blank := ServiceInfo(d[..3], 0, 0, 0, 0, 0);
    var kind := if (d[3] / 0x80) % 2 == 1 then blank.(digital := 1, number := d[3] % 0x40)
      else blank.(line21Field := d[3] % 2);
    var easy := if (d[4] / 0x80) % 2 == 1 then kind.(easyReader := 1) else kind;
    if (d[4] / 0x40) % 2 == 1 then easy.(wideAspect := 1) else easy
  }

  method TakeServices(bs: Bitstream, n: nat) returns (ss: seq<Service>)
    requires bs.Valid() && |bs.Rest()| >= 56 * n
    modifies bs`used, bs`regUsed, bs`reg
    ensures bs.Valid() && ss == ParseServices(n, old(bs.Rest())) && bs.Rest() == old(bs.Rest())[56 * n..]
  {
    hide RestBits, ParseService;
    ss := [];
    ghost var r := bs.Rest();
    for i := 0 to n
      invariant bs.Valid() && bs.Rest() == r[56 * i..]
      invariant ss + ParseServices(n - i, bs.Rest()) == ParseServices(n, r)
    {
      ghost var more := ParseServices(n - i - 1, bs.Rest()[56..]);
      assert 56 * i + 56 <= 56 * n;
      DropDrop(r, 56 * i, 56);
      var s := TakeService(bs);
      Associative(ss, [s], more);
      ss := ss + [s];
    }
    assert ss + [] == ss;
  }

  method TakeSvcFlags(bs: Bitstream, id: nat) returns (svc: SvcInfo, n: nat)
    requires bs.Valid() && |bs.Rest()| >= 8
    modifies bs`used, bs`regUsed, bs`reg
    ensures bs.Valid() && (svc, n, bs.Rest()) == ParseSvcFlags(id, old(bs.Rest()))
  {
    hide RestBits, FromBits;
    var _ := Take(bs, 1);
    var start := Take(bs, 1);
    var change := Take(bs, 1);
    var complete := Take(bs, 1);
    n := Take(bs, 4);
    svc := SvcInfo(id, start, change, complete, []);
  }

  method TakeSvcInfo(bs: Bitstream, id: nat) returns (ok: bool, svc: SvcInfo, next: nat)
    requires bs.Valid() && !ParseSvcInfo(id, bs.Rest()).Undefined?
    modifies bs`used, bs`regUsed, bs`reg
    ensures bs.Valid()
    ensures ParseSvcInfo(id, old(bs.Rest())) == if ok then Got(svc, next, bs.Rest()) else Short
  {
    hide RestBits, FromBits, ParseServices, ParseSvcFlags;
    if id != 0x73 {
      return true, NO_SVC_INFO, id;
    }
    if bs.buflen - bs.used < 3 {
      return false, NO_SVC_INFO, 0;
    }
    var n;
    svc, n := TakeSvcFlags(bs, id);
    if bs.buflen - bs.used < n * 7 {
      return false, svc, 0;
    }
    var ss := TakeServices(bs, n);
    next := Take(bs, 8);
    ok, svc := true, svc.(services := ss);
  }

  method TakeFooter(bs: Bitstream, id: nat) returns (ok: bool, f: Footer)
    requires bs.Valid()
    modifies bs`used, bs`regUsed, bs`reg
    ensures bs.Valid() && (ok <==> ParseFooter(id, old(bs.Rest())).Got?)
    ensures ok ==> f == ParseFooter(id, old(bs.Rest())).value
  {
    hide RestBits, FromBits;
    if id != 0x74 {
      return true, NO_FOOTER;
    }
    if bs.buflen - bs.used < 3 {
      return false, NO_FOOTER;
    }
    var sequence := Take(bs, 16);
    var checksum := Take(bs, 8);
    ok, f := true, Footer(id, sequence, checksum);
  }

  method TakeSections(bs: Bitstream, h: Header, valid: bool) returns (r: Result)
    requires bs.Valid() && !ParseSections(h, bs.Rest(), valid).Overread?
    modifies bs`used, bs`regUsed, bs`reg
    ensures bs.Valid() && r == ParseSections(h, old(bs.Rest()), valid)
  {
    hide RestBits, FromBits, ParseTimeCode, ParseCcData, ParseSvcInfo, ParseFooter;
    if bs.buflen - bs.used < 1 {
      return TooShort;
    }
    var id := Take(bs, 8);
    var tcOk, tc, id1 := TakeTimeCode(bs, id);
    if !tcOk {
      return TooShort;
    }
    var ccOk, cc, id2 := TakeCcData(bs, id1);
    if !ccOk {
      return TooShort;
    }
    var svcOk, svc, id3 := TakeSvcInfo(bs, id2);
    if !svcOk {
      return TooShort;
    }
    var footerOk, footer := TakeFooter(bs, id3);
    if !footerOk {
      return TooShort;
    }
    return Parsed(Cdp(h, tc, cc, svc, footer), valid);
  }

  /** Decodes the payload bytes. The source adds the checksum up last; nothing in between changes the bytes. */
  method Decode(payload: array<byte>, length: nat) returns (r: Result)
    requires length <= payload.Length && !ParseCdp(payload[..length]).Overread?
    ensures r == ParseCdp(payload[..length])
  {
    hide RestBits, BytesBits, ParseHeader, ParseSections, Sum8;
    var bs := new Bitstream(payload, 0, length);
    assert payload[0..length] == payload[..length];
    if bs.buflen - bs.used < 7 {
      return TooShort;
    }
    var h := TakeHeader(bs);
    var sum := SumOf(payload, length);
    r := TakeSections(bs, h, sum == 0);
  }

  // ---- through the VANC layer -----------------------------------------------------------------

  const DID: byte := 0x61
  const SDID: byte := 0x01

  method ConvertToWords(p: Cdp) returns (words: Option<array<word>>, ghost s: seq<byte>)
    requires Encodable(p)
    ensures words.Some? && |s| <= 215 && words.value[..] == VancPackets.PayloadWords(DID, SDID, s)
    ensures exists checksum: byte :: BytesBits(s) == CdpBits(p, |s|, ToBits(checksum, 8)) && Sum8(s) == 0
  {
    hide BytesBits, CdpBits, Sum8, VancPackets.PayloadWords;
    var bytes, byteCount := Encode(p);
    s := bytes[..byteCount];
    words := VancPackets.CreatePayload(SDID, DID, bytes[..byteCount], 10);
  }

  /** A packet that was encoded, framed as words and found again decodes to what was encoded. */
  lemma WordsRoundTrip(p: Cdp, s: seq<byte>, checksum: byte, offset: nat, lineNr: nat)
    requires Encodable(p) && BytesBits(s) == CdpBits(p, |s|, ToBits(checksum, 8)) && Sum8(s) == 0
    requires 1 <= |s| <= 215
    ensures var ws := VancPackets.PayloadWords(DID, SDID, s);
      && VancPackets.IsValidHeader(ws) && VancPackets.IsComplete(ws)
      && var h := VancPackets.ParseHeader(ws, offset, lineNr);
      h.checksumValid && h.kind == VancPackets.Eia708B
      && ParseCdp(VancPackets.LowBytes(h.payload)) == Parsed(Cut(p, |s|, checksum), true)
  {
    hide BytesBits, CdpBits, ParseCdp, VancPackets.PayloadWords, Cut, Sum8;
    VancPackets.CreateParseRoundTrip(DID, SDID, s, offset, lineNr);
    CdpRoundTrip(p, s, checksum);
  }

  /** On a line, among any filler words, the packet is the one the caption decoder is handed, and decodes to it. */
  lemma CdpOnLine(p: Cdp, s: seq<byte>, checksum: byte, before: seq<word>, behind: seq<word>, lineNr: nat,
                  allowBad: bool)
    requires Encodable(p) && BytesBits(s) == CdpBits(p, |s|, ToBits(checksum, 8)) && Sum8(s) == 0
    requires 1 <= |s| <= 215
    requires VancPackets.GoodSegment(VancPackets.Filler(before)) && VancPackets.GoodSegment(VancPackets.Filler(behind))
    ensures var line := before + VancPackets.PayloadWords(0x61, 0x01, s) + behind;
      && VancPackets.ScanComplete(line, 0)
      && var found := VancPackets.Decoded(VancPackets.Scan(line, 0, lineNr), allowBad);
      && |found| == 1 && found[0].kind == VancPackets.Eia708B
      && ParseCdp(VancPackets.LowBytes(found[0].payload)) == Parsed(Cut(p, |s|, checksum), true)
  {
    hide BytesBits, CdpBits, ParseCdp, Cut, Sum8, VancPackets.PayloadWords, VancPackets.ParseHeader, VancPackets.Scan,
      VancPackets.ScanComplete, VancPackets.IsValidHeader, VancPackets.IsComplete, VancPackets.Decoded,
      VancPackets.GoodSegment;
    VancPackets.CreatedOnLine(0x61, 0x01, s, before, behind, lineNr, allowBad);
    WordsRoundTrip(p, s, checksum, |before|, lineNr);
  }
}

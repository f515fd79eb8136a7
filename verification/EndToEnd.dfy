/** From SDI words through SMPTE ST 2038, PES and transport packets, and back to SDI words. */
module EndToEnd {
  import opened Bits
  import opened Wrappers
  import opened VancPackets
  import opened Smpte2038
  import opened PesHeaders
  import opened Smpte2038Packetizer
  import opened Smpte2038Parser
  import opened PesExtraction
  import opened TsPacketizer
  import opened TsTransport
  import Scte104Encoder

  // ---- packetizer and parser, one after the other -----------------------------------------------

  /** From used bytes on, every packet in turn fits under the packetizer's limit. */
  predicate RoomFor(used: nat, ps: seq<Header>)
    decreases |ps|
  {
    ps == [] ||
    (used + 2 * |ps[0].payload| + 64 <= LIMIT && RoomFor(used + (77 + 10 * |ps[0].payload|) / 8, ps[1..]))
  }

  /** Begin, append each packet, end, parse: the parser returns exactly the packets' lines in order and the PTS
      modulo 2^33, whatever the packetizer was used for before. A frame without packets is an error. */
  method FrameThereAndBack(pk: Packetizer, ps: seq<Header>, pts: nat)
    returns (ret: int, result: Option<(Pes, seq<AncLine>)>)
    requires pk.Valid() && Short(ps) && RoomFor(RESET_OFFSET, ps)
    modifies pk, pk.buf, pk.bs
    ensures pk.Valid() && ret == if ps == [] then -1 else 0
    ensures ps == [] ==> result == None
    ensures ps != [] ==> result == Some((ExpectedPes(pk.bufused - 6, pts), ExpectedLines(ps)))
  {
    hide BytesBits, PayloadBits, PesBits, ParsePes, ExpectedLines, ExpectedPes, Ones;
    pk.Begin();
    assert ps[0..] == ps && ps[..0] == [];
    for i := 0 to |ps|
      invariant pk.Valid() && pk.lines == ps[..i] && RoomFor(pk.bufused, ps[i..])
      invariant pk.buf == old(pk.buf) || fresh(pk.buf)
    {
      assert ps[i..][0] == ps[i] && ps[i..][1..] == ps[i + 1..] && ps[..i + 1] == ps[..i] + [ps[i]];
      pk.Append(ps[i]);
    }
    assert ps[..|ps|] == ps;
    ret := pk.End(pts);
    if ret != 0 {
      return ret, None;
    }
    ret, result := ParseSent(pk, ps, pts);
  }

  /** The parser on what the packetizer has finished. */
  method ParseSent(pk: Packetizer, ghost ps: seq<Header>, ghost pts: nat)
    returns (ret: int, result: Option<(Pes, seq<AncLine>)>)
    requires pk.Sized() && Short(ps)
    requires BytesBits(pk.buf[..pk.bufused]) == PesBits((pk.bufused - 6) % 0x1_0000, pts, PayloadBits(ps))
    ensures ret == 0 && result == Some((ExpectedPes(pk.bufused - 6, pts), ExpectedLines(ps)))
  {
    hide BytesBits, PayloadBits, PesBits, ParsePes, ExpectedLines, ExpectedPes;
    PesRoundTrip((pk.bufused - 6) % 0x1_0000, pts, ps);
    SameLength(pk.bufused - 6, pts);
    var section := new byte[pk.bufused](i requires 0 <= i < pk.bufused <= pk.buf.Length reads pk, pk.buf => pk.buf[i]);
    assert section[..] == pk.buf[..pk.bufused];
    ret, result := ParsePesPacket(section);
  }

  lemma SameLength(n: nat, pts: nat)
    ensures ExpectedPes(n % 0x1_0000, pts) == ExpectedPes(n, pts)
  {
  }

  // ---- frames over transport packets -------------------------------------------------------------

  /** The ancillary packets of a video frame and its time stamp. */
  datatype Frame = Frame(packets: seq<SdiPacket>, pts: nat)

  predicate Sendable(f: Frame)
  {
    f.packets != [] && AllSendable(f.packets)
  }

  /** The payload of the frame's PES packet. */
  function FrameBits(f: Frame): seq<bool>
    requires Sendable(f)
  {
    BridgeLines(f.packets);
    PayloadBits(Received(f.packets))
  }

  /** p is what the packetizer makes of a frame. */
  predicate IsPesOf(p: seq<byte>, f: Frame)
  {
    && Sendable(f) && 14 <= |p|
    && BytesBits(p) == PesBits((|p| - 6) % 0x1_0000, f.pts, FrameBits(f))
  }

  lemma StartBytes(p: seq<byte>, b: seq<bool>)
    requires |p| >= 4 && BytesBits(p) == ToBits(1, 24) + (ToBits(0xBD, 8) + b)
    ensures p[..4] == START
  {
    hide ToBits, BytesBits;
    BitSlice(p, 0, 4);
    assert p[0..4] == p[..4];
    assert BytesBits(p)[8 * 0..8 * 4] == ToBits(1, 24) + ToBits(0xBD, 8);
    StartCode();
    BytesBitsInjective(p[..4], START);
  }

  lemma StartCode()
    ensures BytesBits(START) == ToBits(1, 24) + ToBits(0xBD, 8)
  {
    hide ToBits, BytesBits;
    Pow2Table();
    assert BigEndian(1, 3) == [0, 0, 1] by {
      Scte104Encoder.TwoBytes(0);
    }
    BigEndianBits(1, 3);
    BytesBitsOne(0xbd);
    assert START == [0, 0, 1] + [0xbd];
    BytesBitsAppend([0, 0, 1], [0xbd]);
  }

  lemma LengthBytes(p: seq<byte>, n: nat, a: seq<bool>, b: seq<bool>)
    requires |p| >= 6 && n < 0x1_0000 && |a| == 32
    requires BytesBits(p) == a + (ToBits(n, 16) + b)
    ensures Word16(p[4], p[5]) == n
  {
    hide ToBits, BytesBits;
    BitSlice(p, 4, 6);
    assert BytesBits(p)[8 * 4..8 * 6] == ToBits(n, 16);
    BigEndianBits(n, 2);
    BytesBitsInjective(p[4..6], BigEndian(n, 2));
    Scte104Encoder.TwoBytes(n);
    assert p[4..6] == [p[4], p[5]];
  }

  /** Packetizer output is what the extractor looks for, start code and a length that counts the rest, exactly as
      long as the length fits its 16-bit field. */
  lemma FramePes(p: seq<byte>, f: Frame)
    requires IsPesOf(p, f)
    ensures IsPes(p) <==> |p| - 6 < 0x1_0000
  {
    hide ToBits, BytesBits, FlagBits, PresenceBits, PtsBits, FrameBits;
    var n := (|p| - 6) % 0x1_0000;
    var rest := FlagBits(PresenceBits(PtsBits(f.pts, FrameBits(f))));
    assert BytesBits(p) == ToBits(1, 24) + (ToBits(0xBD, 8) + (ToBits(n, 16) + rest));
    StartBytes(p, ToBits(n, 16) + rest);
    assert BytesBits(p) == (ToBits(1, 24) + ToBits(0xBD, 8)) + (ToBits(n, 16) + rest);
    LengthBytes(p, n, ToBits(1, 24) + ToBits(0xBD, 8), rest);
  }

  /** The words a receiver makes of a PES packet, and its time stamp. */
  predicate Restores(p: seq<byte>, f: Frame)
    requires |p| >= 14 && Sendable(f)
  {
    var o := ParsePes(BytesBits(p));
    && o.PesOk? && o.body.Parsed? && o.pes.pts == f.pts % 0x2_0000_0000
    && (forall i :: 0 <= i < |o.body.lines| ==> |o.body.lines[i].words| == o.body.lines[i].dataCount % 0x100)
    && AllWords(o.body.lines) == AllSdiWords(f.packets)
  }

  lemma FrameRestored(p: seq<byte>, f: Frame)
    requires IsPesOf(p, f)
    ensures Restores(p, f)
  {
    hide ParsePes, BytesBits, PesBits, PayloadBits, Received, AllWords, AllSdiWords, ExpectedLines;
    BridgeLines(f.packets);
    PesRoundTrip((|p| - 6) % 0x1_0000, f.pts, Received(f.packets));
  }

  /** The PES packets of a run of frames, each within the 16-bit length field. */
  predicate AllPesOf(ps: seq<seq<byte>>, fs: seq<Frame>)
  {
    |ps| == |fs| && forall i :: 0 <= i < |ps| ==> IsPesOf(ps[i], fs[i]) && |ps[i]| - 6 < 0x1_0000
  }

  /** Any run of frames sent as transport packets among any others arrives frame by frame, every packet word for
      word, every time stamp modulo 2^33; the ring of the extractor loses nothing exactly if each frame's PES packet
      is carriable in it. */
  lemma FramesOverTransport(fs: seq<Frame>, ps: seq<seq<byte>>, pkts: seq<Packet>, cc: byte, pid: nat)
    requires AllPesOf(ps, fs) && pid <= 0x1fff && Mine(pkts, pid) == TsStream(ps, cc, pid)
    ensures Sound(pkts, pid) && AllPes(ps) && ExtractorRing(NEW_RING, 0)
    ensures Lossless(NEW_RING, [], false, Payloads(pkts, pid)) <==> AllCarriable(NEW_RING, 0, ps)
    ensures var out := Feed([], false, Payloads(pkts, pid)).out;
      |out| == |fs| && forall i :: 0 <= i < |fs| ==> |out[i]| >= 14 && Sendable(fs[i]) && Restores(out[i], fs[i])
  {
    hide IsPes, Restores, Feed, Lossless, AllCarriable, ExtractorRing, Payloads, Sound, Mine, TsStream, BytesBits,
      PesBits;
    forall i | 0 <= i < |ps|
      ensures IsPes(ps[i]) && |ps[i]| >= 14 && Sendable(fs[i]) && Restores(ps[i], fs[i])
    {
      FramePes(ps[i], fs[i]);
      FrameRestored(ps[i], fs[i]);
    }
    TransportRoundTrip(ps, pkts, cc, pid);
  }
}

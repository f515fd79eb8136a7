/** The ST 2038 parser: a loop over the bit reader that realigns itself after every line. */
module Smpte2038Parser {
  import opened Bits
  import opened Bitstreams
  import opened Wrappers
  import opened VancPackets
  import opened Smpte2038
  import opened PesHeaders

  method Read16(bs: Bitstream, n: nat) returns (v: word)
    requires bs.Valid() && n <= |bs.Rest()| && n <= 16
    modifies bs`used, bs`regUsed, bs`reg
    ensures bs.Valid()
    ensures v == Value16(old(bs.Rest())[..n])
    ensures bs.Rest() == old(bs.Rest())[n..]
  {
    hide RestBits, FromBits, Pow2;
    ghost var w := Value16(bs.Rest()[..n]);
    v := bs.ReadBits(n);
  }

  method ReadUserWords(bs: Bitstream, n: nat) returns (ws: seq<word>)
    requires bs.Valid() && 10 * n <= |bs.Rest()|
    modifies bs`used, bs`regUsed, bs`reg
    ensures bs.Valid()
    ensures ws == ReadWords(n, old(bs.Rest()))
    ensures bs.Rest() == old(bs.Rest())[10 * n..]
  {
    hide RestBits;
    ws := [];
    ghost var all := bs.Rest();
    for i := 0 to n
      invariant bs.Valid() && |ws| == i && bs.Rest() == all[10 * i..]
      invariant ws + ReadWords(n - i, bs.Rest()) == ReadWords(n, all)
    {
      ghost var rest := bs.Rest();
      var w := Read16(bs, 10);
      assert ws + ([w] + ReadWords(n - i - 1, rest[10..])) == (ws + [w]) + ReadWords(n - i - 1, rest[10..]);
      ws := ws + [w];
    }
    assert ws + [] == ws;
  }

  /** One line. None is the error path; reads past the end are excluded. */
  method ReadLine(bs: Bitstream) returns (line: Option<AncLine>)
    requires bs.Valid() && !ParseLine(bs.Rest()).LineShort?
    modifies bs`used, bs`regUsed, bs`reg
    ensures bs.Valid()
    ensures line.None? <==> ParseLine(old(bs.Rest())).LineBad?
    ensures line.Some? ==> ParseLine(old(bs.Rest())) == LineOk(line.value, bs.Rest())
  {
    hide RestBits, ReadWords, Pow2, FromBits, ParseLineFields;
    var reserved := bs.ReadBits(6);
    if reserved != 0 {
      return None;
    }
    var cNotY := bs.ReadBits(1);
    if cNotY != 0 {
      return None;
    }
    line := ReadLineFields(bs);
  }

  method ReadIds(bs: Bitstream) returns (did: word, sdid: word, count: word)
    requires bs.Valid() && |bs.Rest()| >= 30
    modifies bs`used, bs`regUsed, bs`reg
    ensures bs.Valid() && bs.Rest() == old(bs.Rest())[10..][10..][10..]
    ensures did == Value16(old(bs.Rest())[..10]) && sdid == Value16(old(bs.Rest())[10..][..10])
    ensures count == Value16(old(bs.Rest())[10..][10..][..10])
  {
    hide RestBits, Value16;
    did := Read16(bs, 10);
    sdid := Read16(bs, 10);
    count := Read16(bs, 10);
  }

  method ReadLineFields(bs: Bitstream) returns (line: Option<AncLine>)
    requires bs.Valid() && !ParseLineFields(bs.Rest()).LineShort?
    modifies bs`used, bs`regUsed, bs`reg
    ensures bs.Valid()
    ensures line.None? <==> ParseLineFields(old(bs.Rest())).LineBad?
    ensures line.Some? ==> ParseLineFields(old(bs.Rest())) == LineOk(line.value, bs.Rest())
  {
    hide RestBits, ReadWords, Value16;
    var lineNumber := Read16(bs, 11);
    var offset := Read16(bs, 12);
    var did, sdid, count := ReadIds(bs);
    var n := count % 0x100;
    var udwByteCount := (n + 1) * 10 / 8;
    if udwByteCount > bs.buflen - bs.used {
      return None;
    }
    var words := ReadUserWords(bs, n);
    var checksum := Read16(bs, 10);
    return Some(AncLine(lineNumber, offset, did, sdid, count, words, checksum));
  }

  /** Realigns the reader after a line; the result is the byte count the loop goes on with. */
  method RealignReader(bs: Bitstream) returns (rem: nat)
    requires bs.Valid()
    modifies bs`used, bs`regUsed, bs`reg
    ensures bs.Valid()
    ensures Realign(old(bs.Rest())) == (bs.Rest(), rem)
  {
    hide RestBits, Strip;
    ByteCounts(bs.regUsed, bs.buflen - bs.used);
    var byteAligned := bs.regUsed == 0;
    bs.ReadByteStuff();
    rem := bs.buflen - bs.used;
    if byteAligned && rem > 0 {
      rem := StripReader(bs, rem);
    }
  }

  lemma ByteCounts(regUsed: nat, bytes: nat)
    requires regUsed < 8
    ensures (regUsed + 8 * bytes) % 8 == regUsed && (regUsed + 8 * bytes) / 8 == bytes && (8 * bytes) / 8 == bytes
  {
  }

  method StripReader(bs: Bitstream, rem0: nat) returns (rem: nat)
    requires bs.Valid() && rem0 == |bs.Rest()| / 8
    modifies bs`used, bs`regUsed, bs`reg
    ensures bs.Valid()
    ensures Strip(old(bs.Rest()), rem0) == (bs.Rest(), rem)
  {
    hide RestBits;
    ghost var all := bs.Rest();
    rem := rem0;
    while rem > 0
      invariant bs.Valid()
      invariant rem > 0 ==> bs.Rest() != []
      invariant Strip(bs.Rest(), rem) == Strip(all, rem0)
      decreases |bs.Rest()|
    {
      var next := bs.PeekBits(1);
      assert bs.Rest()[..1] == [bs.Rest()[0]] && [bs.Rest()[0]][..0] == [];
      if next != 1 {
        break;
      }
      rem := bs.buflen - bs.used;
      var _ := bs.ReadBit();
    }
  }

  method ParsePayloadReader(bs: Bitstream) returns (ret: int, lines: seq<AncLine>)
    requires bs.Valid() && !ParsePayload(bs.Rest(), |bs.Rest()| / 8).Overread?
    modifies bs`used, bs`regUsed, bs`reg
    ensures ret in {0, -1}
    ensures ParsePayload(old(bs.Rest()), old(|bs.Rest()|) / 8) == if ret == 0 then Parsed(lines) else Rejected(lines)
  {
    hide RestBits, ParseLine, Realign;
    ghost var outcome := ParsePayload(bs.Rest(), |bs.Rest()| / 8);
    var rem: nat := bs.buflen - bs.used;
    lines := [];
    while rem > 4
      invariant bs.Valid()
      invariant !ParsePayload(bs.Rest(), rem).Overread?
      invariant outcome == After(lines, ParsePayload(bs.Rest(), rem))
      decreases |bs.Rest()|
    {
      var line := ReadLine(bs);
      if line.None? {
        return -1, lines;
      }
      rem := RealignReader(bs);
      AfterStep(lines, line.value, ParsePayload(bs.Rest(), rem));
      lines := lines + [line.value];
    }
    return 0, lines;
  }

  /** The outcome of a parse that had already produced some lines. */
  function After(lines: seq<AncLine>, o: Outcome): Outcome
  {
    match o
    case Parsed(ls) => Parsed(lines + ls)
    case Rejected(ls) => Rejected(lines + ls)
    case Overread => Overread
  }

  lemma AfterStep(lines: seq<AncLine>, l: AncLine, o: Outcome)
    ensures After(lines, Prepend(l, o)) == After(lines + [l], o)
  {
    if !o.Overread? {
      assert lines + ([l] + o.lines) == (lines + [l]) + o.lines;
    }
  }

  method ParsePesPayload(payload: array<byte>) returns (ret: int, lines: seq<AncLine>)
    requires !ParsePayload(BytesBits(payload[..]), payload.Length).Overread?
    ensures ret in {0, -1}
    ensures ParsePayload(BytesBits(payload[..]), payload.Length) == if ret == 0 then Parsed(lines) else Rejected(lines)
  {
    hide BytesBits, RestBits, ParsePayload;
    var bs := new Bitstream(payload, 0, payload.Length);
    assert payload[0..0 + payload.Length] == payload[..];
    ret, lines := ParsePayloadReader(bs);
  }

  method ReadStart(bs: Bitstream) returns (length: Option<nat>)
    requires bs.Valid() && |bs.Rest()| >= 48
    modifies bs`used, bs`regUsed, bs`reg
    ensures bs.Valid()
    ensures ParseStart(old(bs.Rest())) == if length.Some? then Some((length.value, bs.Rest())) else None
  {
    hide RestBits, FromBits, Pow2;
    var prefix := bs.ReadBits(24);
    ghost var rest := bs.Rest();
    if prefix != 1 {
      return None;
    }
    var streamId := bs.ReadBits(8);
    if streamId != 0xBD {
      return None;
    }
    var n := bs.ReadBits(16);
    return Some(n);
  }

  method ReadFlags(bs: Bitstream) returns (flags: Option<(nat, nat, nat, nat)>)
    requires bs.Valid() && |bs.Rest()| >= 8
    modifies bs`used, bs`regUsed, bs`reg
    ensures bs.Valid()
    ensures ParseFlags(old(bs.Rest())) == if flags.Some? then Some((flags.value, bs.Rest())) else None
  {
    hide RestBits, FromBits, Pow2;
    var _ := bs.ReadBits(2);
    var scrambling := bs.ReadBits(2);
    if scrambling != 0 {
      return None;
    }
    var priority := bs.ReadBits(1);
    var alignment := bs.ReadBits(1);
    var copyright := bs.ReadBits(1);
    var original := bs.ReadBits(1);
    return Some((priority, alignment, copyright, original));
  }

  method ReadPresence(bs: Bitstream) returns (ok: bool)
    requires bs.Valid() && |bs.Rest()| >= 16
    modifies bs`used, bs`regUsed, bs`reg
    ensures bs.Valid() && |bs.Rest()| == old(|bs.Rest()|) - 16
    ensures ParsePresence(old(bs.Rest())) == if ok then Some(bs.Rest()) else None
  {
    hide RestBits, FromBits, Pow2;
    var ptsDts := bs.ReadBits(2);
    var escr := bs.ReadBits(1);
    var esRate := bs.ReadBits(1);
    var trick := bs.ReadBits(1);
    var extraCopy := bs.ReadBits(1);
    var crc := bs.ReadBits(1);
    var extension := bs.ReadBits(1);
    var headerLength := bs.ReadBits(8);
    ok := ptsDts == 2 && escr == 0 && esRate == 0 && trick == 0 && extraCopy == 0 && crc == 0 && extension == 0
      && headerLength == 5;
  }

  method ReadPts(bs: Bitstream) returns (pts: nat)
    requires bs.Valid() && |bs.Rest()| >= 40
    modifies bs`used, bs`regUsed, bs`reg
    ensures bs.Valid()
    ensures ParsePts(old(bs.Rest())) == (pts, bs.Rest())
  {
    hide RestBits, FromBits, Pow2;
    var _ := bs.ReadBits(4);
    var a := bs.ReadBits(3);
    var _ := bs.ReadBits(1);
    var b := bs.ReadBits(15);
    var _ := bs.ReadBits(1);
    var c := bs.ReadBits(15);
    var _ := bs.ReadBits(1);
    pts := a * 0x4000_0000 + b * 0x8000 + c;
  }

  /** A whole PES packet of at least a header. A bad header yields no packet at all. */
  method ParsePesPacket(section: array<byte>) returns (ret: int, result: Option<(Pes, seq<AncLine>)>)
    requires section.Length >= 14
    requires var o := ParsePes(BytesBits(section[..])); o.PesOk? ==> !o.body.Overread?
    ensures ret in {0, -1}
    ensures ParsePes(BytesBits(section[..])) ==
      if result.None? then PesBad
      else PesOk(result.value.0, if ret == 0 then Parsed(result.value.1) else Rejected(result.value.1))
    ensures ret == 0 ==> result.Some?
  {
    hide BytesBits, RestBits, ParseStart, ParseFlags, ParsePresence, ParsePts, ParsePayload;
    var bs := new Bitstream(section, 0, section.Length);
    assert section[0..0 + section.Length] == section[..];
    var length := ReadStart(bs);
    if length.None? {
      return -1, None;
    }
    var flags := ReadFlags(bs);
    if flags.None? {
      return -1, None;
    }
    var ok := ReadPresence(bs);
    if !ok {
      return -1, None;
    }
    var pts := ReadPts(bs);
    var (priority, alignment, copyright, original) := flags.value;
    var lines;
    ret, lines := ParsePayloadReader(bs);
    result := Some((Pes(length.value, priority, alignment, copyright, original, pts), lines));
  }

  // ---- back to a line of words --------------------------------------------------------------

  function LineToWords(l: AncLine): seq<word>
    requires |l.words| == l.dataCount % 0x100
  {
    [0, 0x3ff, 0x3ff, AddParity(l.did), AddParity(l.sdid), AddParity(l.dataCount)] + l.words + [l.checksum]
  }

  method ConvertLineToWords(l: AncLine) returns (words: array<word>, wordCount: nat)
    requires |l.words| == l.dataCount % 0x100
    ensures fresh(words) && wordCount == words.Length && words[..] == LineToWords(l)
  {
    hide AddParity, LineToWords;
    var n := l.dataCount % 0x100;
    ghost var all := LineToWords(l);
    WordsOfLine(l, n);
    var arr := new word[7 + n](i => 0);
    arr[0], arr[1], arr[2] := 0, 0x3ff, 0x3ff;
    arr[3], arr[4], arr[5] := AddParity(l.did), AddParity(l.sdid), AddParity(l.dataCount);
    var i := 6;
    for j := 0 to n
      invariant i == 6 + j && forall k :: 0 <= k < i ==> arr[k] == all[k]
    {
      arr[i] := l.words[j];
      i := i + 1;
    }
    arr[i] := l.checksum;
    i := i + 1;
    return arr, i;
  }

  lemma WordsOfLine(l: AncLine, n: nat)
    requires |l.words| == n == l.dataCount % 0x100
    ensures var all := LineToWords(l);
      && |all| == 7 + n && all[0] == 0 && all[1] == 0x3ff && all[2] == 0x3ff
      && all[3] == AddParity(l.did) && all[4] == AddParity(l.sdid) && all[5] == AddParity(l.dataCount)
      && all[6 + n] == l.checksum && forall j :: 0 <= j < n ==> all[6 + j] == l.words[j]
  {
    hide AddParity;
  }

  // ---- the bridge from SDI and back ---------------------------------------------------------

  lemma {:induction false} Words10Small(ws: seq<word>)
    requires forall k :: 0 <= k < |ws| ==> ws[k] < 0x400
    ensures Words10(ws) == ws
  {
    if ws == [] {
    } else {
      Words10Small(ws[1..]);
    }
  }

  /** A packet built for SDI, parsed, carried as an ST 2038 line and expanded again is unchanged:
      the parity the SDI parser strips is the parity the packetizer puts back. */
  lemma BridgeIdentity(did: byte, sdid: byte, src: seq<byte>, offset: nat, lineNr: nat)
    requires 1 <= |src| <= 255
    ensures var ws := PayloadWords(did, sdid, src);
      && IsValidHeader(ws) && IsComplete(ws)
      && var h := ParseHeader(ws, offset, lineNr);
      && |h.payload| == |src|
      && LineToWords(ExpectedLine(h)) == ws
  {
    hide PayloadWords, Body, Checksum, WithParity, AddParity, Words10, ExpectedLine, LineToWords;
    CountWord(did, sdid, src);
    SmallPayload(did, sdid, src);
    HeaderWords(did, sdid, src);
    var ws := PayloadWords(did, sdid, src);
    var h := ParseHeader(ws, offset, lineNr);
    assert h.did == did && h.sdid == sdid && h.payload == ws[6..6 + |src|] && h.checksum == ws[6 + |src|];
    BridgeWords(h, ws, did, sdid, |src|);
  }

  lemma BridgeWords(h: Header, ws: seq<word>, did: byte, sdid: byte, n: byte)
    requires |ws| == n + 7 && h.did == did && h.sdid == sdid && h.payload == ws[6..6 + n] && h.checksum == ws[6 + n]
    requires ws[..6] == [0, 0x3ff, 0x3ff, WithParity(did), WithParity(sdid), WithParity(n)]
    requires Words10(h.payload) == h.payload && h.checksum < 0x400
    ensures LineToWords(ExpectedLine(h)) == ws
  {
    ParityOnce(did);
    ParityOnce(sdid);
    ParityOnce(n);
    hide WithParity, AddParity, Words10;
    assert ExpectedLine(h).words == h.payload && ExpectedLine(h).checksum == h.checksum;
    assert ws == ws[..6] + ws[6..6 + n] + [ws[6 + n]];
  }

  lemma SmallPayload(did: byte, sdid: byte, src: seq<byte>)
    requires 1 <= |src| <= 255
    ensures var ws := PayloadWords(did, sdid, src);
      Words10(ws[6..6 + |src|]) == ws[6..6 + |src|] && ws[6 + |src|] < 0x400
  {
    CreatedRange(did, sdid, src);
    var ws := PayloadWords(did, sdid, src);
    hide PayloadWords;
    var payload := ws[6..6 + |src|];
    assert forall k :: 0 <= k < |payload| ==> payload[k] == ws[6 + k];
    Words10Small(payload);
  }

  /** Parity added to a byte is left alone the second time. */
  lemma ParityOnce(v: byte)
    ensures AddParity(v) == WithParity(v) < 0x400 && AddParity(WithParity(v)) == WithParity(v)
  {
    var w := WithParity(v);
    hide WithParity;
    assert w / 0x100 in {1, 2};
  }

  lemma HeaderWords(did: byte, sdid: byte, src: seq<byte>)
    requires 1 <= |src| <= 255
    ensures PayloadWords(did, sdid, src)[..6]
      == [0, 0x3ff, 0x3ff, WithParity(did), WithParity(sdid), WithParity(|src|)]
  {
    hide WithParity;
  }

  datatype SdiPacket = SdiPacket(did: byte, sdid: byte, data: seq<byte>, lineNr: nat, offset: nat)

  predicate AllSendable(ss: seq<SdiPacket>)
  {
    forall i :: 0 <= i < |ss| ==> 1 <= |ss[i].data| <= 255
  }

  function SdiWords(s: SdiPacket): seq<word>
    requires 1 <= |s.data| <= 255
  {
    PayloadWords(s.did, s.sdid, s.data)
  }

  /** What the SDI parser hands over for each packet. */
  function Received(ss: seq<SdiPacket>): (hs: seq<Header>)
    requires AllSendable(ss)
    ensures |hs| == |ss|
  {
    if ss == [] then []
    else
      CountWord(ss[0].did, ss[0].sdid, ss[0].data);
      [ParseHeader(SdiWords(ss[0]), ss[0].offset, ss[0].lineNr)] + Received(ss[1..])
  }

  predicate Counted(ls: seq<AncLine>)
  {
    forall i :: 0 <= i < |ls| ==> |ls[i].words| == ls[i].dataCount % 0x100
  }

  function AllWords(ls: seq<AncLine>): seq<seq<word>>
    requires Counted(ls)
  {
    if ls == [] then [] else [LineToWords(ls[0])] + AllWords(ls[1..])
  }

  function AllSdiWords(ss: seq<SdiPacket>): seq<seq<word>>
    requires AllSendable(ss)
  {
    if ss == [] then [] else [SdiWords(ss[0])] + AllSdiWords(ss[1..])
  }

  /** What the first packet of a frame comes to, at every stage. */
  lemma FirstOfFrame(ss: seq<SdiPacket>)
    requires ss != [] && AllSendable(ss)
    ensures AllSendable(ss[1..]) && 1 <= |ss[0].data| <= 255
    ensures AllSdiWords(ss) == [SdiWords(ss[0])] + AllSdiWords(ss[1..])
    ensures Received(ss) == [Received(ss)[0]] + Received(ss[1..])
  {
    hide SdiWords, ParseHeader, IsValidHeader, IsComplete;
  }

  lemma FirstReceived(ss: seq<SdiPacket>)
    requires ss != [] && AllSendable(ss)
    ensures var ws := PayloadWords(ss[0].did, ss[0].sdid, ss[0].data);
      IsValidHeader(ws) && IsComplete(ws) && Received(ss)[0] == ParseHeader(ws, ss[0].offset, ss[0].lineNr)
  {
    hide PayloadWords, ParseHeader, IsValidHeader, IsComplete;
    CountWord(ss[0].did, ss[0].sdid, ss[0].data);
  }

  lemma FirstLine(h: Header, hs: seq<Header>)
    requires |h.payload| <= 0xff && Short(hs)
    ensures Short([h] + hs) && ExpectedLines([h] + hs) == [ExpectedLine(h)] + ExpectedLines(hs)
  {
    assert ([h] + hs)[1..] == hs;
  }

  lemma FirstWords(l: AncLine, ls: seq<AncLine>)
    requires |l.words| == l.dataCount % 0x100 && Counted(ls)
    ensures Counted([l] + ls) && AllWords([l] + ls) == [LineToWords(l)] + AllWords(ls)
  {
    assert ([l] + ls)[1..] == ls;
  }

  lemma {:induction false} BridgeLines(ss: seq<SdiPacket>)
    requires AllSendable(ss)
    ensures Short(Received(ss))
    ensures var ls := ExpectedLines(Received(ss)); Counted(ls) && AllWords(ls) == AllSdiWords(ss)
  {
    hide ExpectedLines, Received, AllSdiWords, AllWords, AllSendable, Short, Counted, LineToWords, PayloadWords,
      ParseHeader, IsValidHeader, IsComplete, ExpectedLine;
    if ss == [] {
      NoLines(ss);
    } else {
      FirstOfFrame(ss);
      FirstReceived(ss);
      BridgeLines(ss[1..]);
      var s := ss[0];
      BridgeIdentity(s.did, s.sdid, s.data, s.offset, s.lineNr);
      var h, more := Received(ss)[0], Received(ss[1..]);
      FirstLine(h, more);
      FirstWords(ExpectedLine(h), ExpectedLines(more));
    }
  }

  lemma NoLines(ss: seq<SdiPacket>)
    requires ss == [] && AllSendable(ss)
    ensures Short(Received(ss))
    ensures var ls := ExpectedLines(Received(ss)); Counted(ls) && AllWords(ls) == AllSdiWords(ss)
  {
  }

  /** Every packet of a frame survives the trip through ST 2038 word for word. */
  lemma FrameRoundTrip(ss: seq<SdiPacket>, length: nat, pts: nat)
    requires AllSendable(ss)
    ensures Short(Received(ss))
    ensures var o := ParsePes(PesBits(length, pts, PayloadBits(Received(ss))));
      && o.PesOk? && o.body.Parsed? && Counted(o.body.lines)
      && AllWords(o.body.lines) == AllSdiWords(ss)
  {
    BridgeLines(ss);
    PesRoundTrip(length, pts, Received(ss));
  }
}

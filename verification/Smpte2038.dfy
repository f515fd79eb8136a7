/** SMPTE ST 2038: ancillary packets carried as bit-packed lines in a private PES stream. */
module Smpte2038 {
  import opened Bits
  import opened Bitstreams
  import opened VancPackets

  const RESET_OFFSET := 14
  const CHUNK := 16384
  const LIMIT := 0x2_0000   // 128 KiB

  /** Parity bits are added only where none are present. */
  function AddParity(v: word): (w: word)
    ensures w % 0x100 == v % 0x100
  {
    if (v / 0x100) % 4 != 0 then v else WithParity(v)
  }

  /** A ten-bit word with either parity bit set is kept as it is, right or wrong; a bare byte is marked. */
  lemma KeptOrMarked(v: word)
    requires v < 0x400
    ensures AddParity(v) == if v >= 0x100 then v else WithParity(v)
  {
    hide WithParity;
  }

  // ---- the wire format of one line ----------------------------------------------------------

  function WordsBits(ws: seq<word>, tail: seq<bool>): (b: seq<bool>)
    ensures |b| == 10 * |ws| + |tail|
  {
    if ws == [] then tail else ToBits(ws[0], 10) + WordsBits(ws[1..], tail)
  }

  /** A line after its seven leading zero bits, followed by tail. */
  function LineFieldsBits(p: Header, tail: seq<bool>): (b: seq<bool>)
    requires |p.payload| <= 0xff
    ensures |b| == 63 + 10 * |p.payload| + |tail|
  {
    ToBits(p.lineNr, 11) + (ToBits(0, 12) + (
    ToBits(AddParity(p.did), 10) + (ToBits(AddParity(p.sdid), 10) + (ToBits(AddParity(|p.payload|), 10) +
    WordsBits(p.payload, ToBits(p.checksum, 10) + tail)))))
  }

  /** A line followed by tail. */
  function LineBits(p: Header, tail: seq<bool>): (b: seq<bool>)
    requires |p.payload| <= 0xff
    ensures |b| == 70 + 10 * |p.payload| + |tail|
  {
    ToBits(0, 6) + (ToBits(0, 1) + LineFieldsBits(p, tail))
  }

  lemma RoundUp(n: nat)
    ensures (n + (8 - n % 8) % 8) % 8 == 0
  {
    if n % 8 == 0 {
    } else {
      assert n + (8 - n % 8) % 8 == 8 * (n / 8 + 1);
    }
  }

  /** Stuffing bits needed to end the line on a byte. */
  function PadBits(p: Header): (n: nat)
    ensures n < 8 && (70 + 10 * |p.payload| + n) % 8 == 0
  {
    RoundUp(70 + 10 * |p.payload|);
    (8 - (70 + 10 * |p.payload|) % 8) % 8
  }

  lemma WholeBytes(a: nat, k: nat, b: nat)
    requires a % 8 == 0 && b % 8 == 0
    ensures (a + 8 * k + b) % 8 == 0
  {
  }

  predicate Short(ps: seq<Header>)
  {
    forall i :: 0 <= i < |ps| ==> |ps[i].payload| <= 0xff
  }

  /** Lines, each padded to a byte and followed by ks[i] foreign stuffing bytes. */
  function StuffedBits(ps: seq<Header>, ks: seq<nat>): (b: seq<bool>)
    requires Short(ps) && |ks| == |ps|
    ensures |b| % 8 == 0
  {
    if ps == [] then []
    else
      var more := StuffedBits(ps[1..], ks[1..]);
      WholeBytes(70 + 10 * |ps[0].payload| + PadBits(ps[0]), ks[0], |more|);
      LineBits(ps[0], Ones(PadBits(ps[0]) + 8 * ks[0]) + more)
  }

  function NoStuffing(n: nat): (ks: seq<nat>)
    ensures |ks| == n
  {
    if n == 0 then [] else [0] + NoStuffing(n - 1)
  }

  /** The payload the packetizer builds. */
  function PayloadBits(ps: seq<Header>): seq<bool>
    requires Short(ps)
  {
    StuffedBits(ps, NoStuffing(|ps|))
  }

  // ---- the parser as a function of the bits still to be read --------------------------------

  datatype AncLine = AncLine(
    lineNumber: word, horizontalOffset: word, did: word, sdid: word, dataCount: word,
    words: seq<word>, checksum: word)

  /** LineShort marks reads past the end of the buffer, which the C code does not define. */
  datatype LineResult = LineOk(line: AncLine, rest: seq<bool>) | LineBad | LineShort

  function ReadWords(n: nat, r: seq<bool>): (ws: seq<word>)
    requires |r| >= 10 * n
    ensures |ws| == n
  {
    if n == 0 then [] else [Value16(r[..10])] + ReadWords(n - 1, r[10..])
  }

  function ParseLine(r0: seq<bool>): (res: LineResult)
    ensures res.LineOk? ==> |res.rest| < |r0|
  {
    if |r0| < 7 then LineShort
    else if FromBits(r0[..6]) != 0 then LineBad
    else
      var r1 := r0[6..];
      if FromBits(r1[..1]) != 0 then LineBad else ParseLineFields(r1[1..])
  }

  function ParseLineFields(r0: seq<bool>): (res: LineResult)
    ensures res.LineOk? ==> |res.rest| < |r0|
  {
    if |r0| < 53 then LineShort
    else
      var lineNumber, r1 := Value16(r0[..11]), r0[11..];
      var offset, r2 := Value16(r1[..12]), r1[12..];
      var did, r3 := Value16(r2[..10]), r2[10..];
      var sdid, r4 := Value16(r3[..10]), r3[10..];
      var count, r5 := Value16(r4[..10]), r4[10..];
      var n := count % 0x100;
      if (n + 1) * 10 / 8 > |r5| / 8 then LineBad
      else if |r5| < 10 * n + 10 then LineShort
      else
        var r6 := r5[10 * n..];
        LineOk(AncLine(lineNumber, offset, did, sdid, count, ReadWords(n, r5), Value16(r6[..10])), r6[10..])
  }

  /** Discards one bits; rem is the byte count as the loop last looked at it. */
  function Strip(r: seq<bool>, rem: nat): (res: (seq<bool>, nat))
    ensures |res.0| <= |r|
  {
    if rem > 0 && r != [] && r[0] then Strip(r[1..], |r| / 8) else (r, rem)
  }

  /** Realignment after a line: pad bits go, and whole stuffing bytes if the line ended on a byte. */
  function Realign(r: seq<bool>): (res: (seq<bool>, nat))
    ensures |res.0| <= |r|
  {
    var r' := r[|r| % 8..];
    if |r| % 8 == 0 && |r'| / 8 > 0 then Strip(r', |r'| / 8) else (r', |r'| / 8)
  }

  datatype Outcome = Parsed(lines: seq<AncLine>) | Rejected(lines: seq<AncLine>) | Overread

  function Prepend(l: AncLine, o: Outcome): Outcome
  {
    match o
    case Parsed(ls) => Parsed([l] + ls)
    case Rejected(ls) => Rejected([l] + ls)
    case Overread => Overread
  }

  function ParsePayload(r: seq<bool>, rem: nat): Outcome
    decreases |r|
  {
    if rem <= 4 then Parsed([])
    else
      match ParseLine(r)
      case LineShort => Overread
      case LineBad => Rejected([])
      case LineOk(line, rest) =>
        var (r', rem') := Realign(rest);
        Prepend(line, ParsePayload(r', rem'))
  }

  // ---- reading back what was written --------------------------------------------------------

  lemma CountBack(n: byte)
    ensures AddParity(n) % 0x400 == AddParity(n) && AddParity(n) % 0x100 == n
  {
    hide WithParity;
  }

  function ExpectedLine(p: Header): (l: AncLine)
    requires |p.payload| <= 0xff
    ensures |l.words| == l.dataCount % 0x100
  {
    CountBack(|p.payload|);
    AncLine(p.lineNr % 0x800, 0, AddParity(p.did) % 0x400, AddParity(p.sdid) % 0x400,
            AddParity(|p.payload|), Words10(p.payload), p.checksum % 0x400)
  }

  function Words10(ws: seq<word>): (r: seq<word>)
    ensures |r| == |ws|
  {
    if ws == [] then [] else [ws[0] % 0x400] + Words10(ws[1..])
  }

  function ExpectedLines(ps: seq<Header>): seq<AncLine>
    requires Short(ps)
  {
    if ps == [] then [] else [ExpectedLine(ps[0])] + ExpectedLines(ps[1..])
  }

  lemma Field16(v: nat, n: nat, tail: seq<bool>)
    requires n <= 16
    ensures Value16((ToBits(v, n) + tail)[..n]) == v % Pow2(n)
    ensures (ToBits(v, n) + tail)[n..] == tail
  {
    hide ToBits, Pow2;
    Bits.ReadBack(v, n, tail);
  }

  lemma Field10(v: word, tail: seq<bool>)
    ensures Value16((ToBits(v, 10) + tail)[..10]) == v % 0x400
    ensures (ToBits(v, 10) + tail)[10..] == tail
  {
    hide ToBits, Value16, Pow2;
    Field16(v, 10, tail);
    Pow2Table();
  }

  lemma {:induction false} WordsBack(ws: seq<word>, tail: seq<bool>)
    ensures ReadWords(|ws|, WordsBits(ws, tail)) == Words10(ws)
    ensures WordsBits(ws, tail)[10 * |ws|..] == tail
  {
    if ws == [] {
    } else {
      hide ToBits;
      var more := WordsBits(ws[1..], tail);
      Field10(ws[0], more);
      WordsBack(ws[1..], tail);
      assert (ToBits(ws[0], 10) + more)[10 * |ws|..] == (ToBits(ws[0], 10) + more)[10..][10 * |ws[1..]|..];
    }
  }

  /** The overrun guard lets a line of n words through. */
  lemma GuardPasses(n: nat, behind: nat)
    ensures (n + 1) * 10 / 8 <= (10 * n + 10 + behind) / 8
  {
  }

  /** The fields of a line from any source, at their widths, followed by tail. */
  function WireFields(l: AncLine, tail: seq<bool>): (b: seq<bool>)
    ensures |b| == 63 + 10 * |l.words| + |tail|
  {
    ToBits(l.lineNumber, 11) + (ToBits(l.horizontalOffset, 12) + (ToBits(l.did, 10) + (ToBits(l.sdid, 10) +
    (ToBits(l.dataCount, 10) + WordsBits(l.words, ToBits(l.checksum, 10) + tail)))))
  }

  /** Every field cut to its width. */
  function CutLine(l: AncLine): AncLine
  {
    AncLine(l.lineNumber % 0x800, l.horizontalOffset % 0x1000, l.did % 0x400, l.sdid % 0x400, l.dataCount % 0x400,
            Words10(l.words), l.checksum % 0x400)
  }

  lemma {:induction false} Words10At(ws: seq<word>)
    ensures forall i :: 0 <= i < |ws| ==> Words10(ws)[i] == ws[i] % 0x400
  {
    if ws == [] {
    } else {
      Words10At(ws[1..]);
    }
  }

  lemma WireFieldsBack(l: AncLine, tail: seq<bool>)
    requires |l.words| == l.dataCount % 0x100
    ensures ParseLineFields(WireFields(l, tail)) == LineOk(CutLine(l), tail)
  {
    hide ToBits, WordsBits, ReadWords, Words10, Pow2, Value16;
    var n := |l.words|;
    GuardPasses(n, |tail|);
    var end := ToBits(l.checksum, 10) + tail;
    var r5 := WordsBits(l.words, end);
    var r4 := ToBits(l.dataCount, 10) + r5;
    var r3 := ToBits(l.sdid, 10) + r4;
    var r2 := ToBits(l.did, 10) + r3;
    var r1 := ToBits(l.horizontalOffset, 12) + r2;
    Pow2Table();
    Field16(l.lineNumber, 11, r1);
    Field16(l.horizontalOffset, 12, r2);
    Field10(l.did, r3);
    Field10(l.sdid, r4);
    Field10(l.dataCount, r5);
    WordsBack(l.words, end);
    Field10(l.checksum, tail);
    LowByte(l.dataCount);
  }

  lemma LowByte(w: word)
    ensures (w % 0x400) % 0x100 == w % 0x100
  {
  }

  /** A line from any source: rejected for reserved bits or a channel flag that are not zero, otherwise every field is
      returned as it stands on the wire, the horizontal offset among them, and what follows is left. */
  lemma ForeignLine(reserved: nat, cNotY: nat, l: AncLine, tail: seq<bool>)
    requires |l.words| == l.dataCount % 0x100
    ensures var r := ParseLine(ToBits(reserved, 6) + (ToBits(cNotY, 1) + WireFields(l, tail)));
      if reserved % 0x40 != 0 || cNotY % 2 != 0 then r == LineBad
      else
        && r.LineOk? && r.rest == tail
        && r.line.lineNumber == l.lineNumber % 0x800 && r.line.horizontalOffset == l.horizontalOffset % 0x1000
        && r.line.did == l.did % 0x400 && r.line.sdid == l.sdid % 0x400 && r.line.dataCount == l.dataCount % 0x400
        && |r.line.words| == |l.words| && (forall i :: 0 <= i < |l.words| ==> r.line.words[i] == l.words[i] % 0x400)
        && r.line.checksum == l.checksum % 0x400
  {
    hide FromBits, ToBits, ParseLineFields, WireFields, Words10;
    var r := WireFields(l, tail);
    Bits.ReadBack(reserved, 6, ToBits(cNotY, 1) + r);
    Bits.ReadBack(cNotY, 1, r);
    WireFieldsBack(l, tail);
    Words10At(l.words);
    assert Pow2(6) == 0x40 && Pow2(1) == 2;
  }

  lemma LineFieldsBack(p: Header, tail: seq<bool>)
    requires |p.payload| <= 0xff
    ensures ParseLineFields(LineFieldsBits(p, tail)) == LineOk(ExpectedLine(p), tail)
  {
    hide ParseLineFields, LineFieldsBits, WireFields, CutLine, ExpectedLine;
    OwnFields(p, tail);
    OwnLine(p);
    WireFieldsBack(OnWire(p), tail);
  }

  /** The fields the packetizer gives a line. */
  function OnWire(p: Header): (l: AncLine)
    requires |p.payload| <= 0xff
    ensures |l.words| == l.dataCount % 0x100
  {
    CountBack(|p.payload|);
    AncLine(p.lineNr % 0x800, 0, AddParity(p.did), AddParity(p.sdid), AddParity(|p.payload|), p.payload, p.checksum)
  }

  lemma OwnFields(p: Header, tail: seq<bool>)
    requires |p.payload| <= 0xff
    ensures LineFieldsBits(p, tail) == WireFields(OnWire(p), tail)
  {
    hide AddParity, ToBits, WordsBits;
    LineNumberBits(p.lineNr);
  }

  lemma OwnLine(p: Header)
    requires |p.payload| <= 0xff
    ensures CutLine(OnWire(p)) == ExpectedLine(p)
  {
    hide AddParity, Words10;
    CountBack(|p.payload|);
  }

  lemma LineNumberBits(lineNr: nat)
    ensures ToBits(lineNr % 0x800, 11) == ToBits(lineNr, 11)
  {
    Pow2Table();
    ToBitsMod(lineNr, 11, 11);
  }

  /** The overrun guard lets every such line through. */
  lemma LineBack(p: Header, tail: seq<bool>)
    requires |p.payload| <= 0xff
    ensures ParseLine(LineBits(p, tail)) == LineOk(ExpectedLine(p), tail)
  {
    hide FromBits, ToBits, ParseLineFields, LineFieldsBits, ExpectedLine;
    LineFieldsBack(p, tail);
    var r := LineFieldsBits(p, tail);
    Bits.ReadBack(0, 6, ToBits(0, 1) + r);
    Bits.ReadBack(0, 1, r);
  }

  // ---- stuffing between lines ---------------------------------------------------------------

  /** A line ends on a byte boundary exactly for 1, 5, 9, ... words. */
  predicate EndsOnByte(p: Header)
  {
    |p.payload| % 4 == 1
  }

  lemma EndsOnByteIsNoPad(p: Header)
    ensures EndsOnByte(p) <==> PadBits(p) == 0
  {
    TenTimes(|p.payload|);
  }

  lemma TenTimes(n: nat)
    ensures (70 + 10 * n) % 8 == 0 <==> n % 4 == 1
  {
    var q, r := n / 4, n % 4;
    assert 70 + 10 * n == 8 * (8 + 5 * q) + (6 + 10 * r);
    assert (70 + 10 * n) % 8 == (6 + 10 * r) % 8;
  }

  /** Nothing to strip here: the end, or the leading zero bit of a line. */
  predicate LineStart(r: seq<bool>)
  {
    |r| % 8 == 0 && (r == [] || !r[0])
  }

  lemma {:induction false} StripOnes(m: nat, tail: seq<bool>, rem: nat)
    requires m >= 1 && rem > 0 && LineStart(tail) && tail != []
    ensures Strip(Ones(m) + tail, rem) == (tail, |tail| / 8)
  {
    assert (Ones(m) + tail)[1..] == Ones(m - 1) + tail;
    if m == 1 {
      assert Ones(0) + tail == tail;
    } else {
      StripOnes(m - 1, tail, (m + |tail|) / 8);
    }
  }

  /** At the end of the buffer the loop may stop inside the last byte, but it reports nothing left. */
  lemma {:induction false} StripEnd(m: nat, rem: nat)
    requires m >= 1 && rem > 0
    ensures Strip(Ones(m), rem).1 == 0
  {
    assert Ones(m)[1..] == Ones(m - 1);
    if m / 8 == 0 {
    } else {
      StripEnd(m - 1, m / 8);
    }
  }

  lemma RealignPad(pad: nat, tail: seq<bool>)
    requires pad < 8 && LineStart(tail)
    ensures Realign(Ones(pad) + tail) == (tail, |tail| / 8)
  {
    var b := Ones(pad) + tail;
    assert |b| % 8 == pad;
    assert b[pad..] == tail;
  }

  lemma RealignStuffed(k: nat, tail: seq<bool>)
    requires k > 0 && LineStart(tail)
    ensures Realign(Ones(8 * k) + tail).1 == |tail| / 8
    ensures tail != [] ==> Realign(Ones(8 * k) + tail).0 == tail
  {
    var b := Ones(8 * k) + tail;
    assert |b| % 8 == 0 && b[0..] == b;
    hide Strip;
    if tail == [] {
      assert b == Ones(8 * k);
      StripEnd(8 * k, |b| / 8);
    } else {
      StripOnes(8 * k, tail, |b| / 8);
    }
  }

  /** Realignment finds the next line behind padding and behind foreign stuffing alike. */
  lemma RealignBack(pad: nat, k: nat, tail: seq<bool>)
    requires pad < 8 && LineStart(tail) && (k > 0 ==> pad == 0)
    ensures var (r, rem) := Realign(Ones(pad + 8 * k) + tail);
      ParsePayload(r, rem) == ParsePayload(tail, |tail| / 8)
  {
    hide ParseLine, Realign, LineStart;
    if k == 0 {
      assert pad + 8 * k == pad;
      RealignPad(pad, tail);
    } else {
      assert pad + 8 * k == 8 * k;
      RealignStuffed(k, tail);
    }
  }

  lemma StuffedStart(ps: seq<Header>, ks: seq<nat>)
    requires Short(ps) && |ks| == |ps|
    ensures LineStart(StuffedBits(ps, ks))
  {
    if ps != [] {
      assert !ToBits(0, 6)[0] by { BitsOfFromBits(Zeros(6)); ZeroBits(6); }
    }
  }

  lemma {:induction false} ZeroBits(n: nat)
    ensures ToBits(0, n) == Zeros(n)
  {
    if n == 0 {
    } else {
      ZeroBits(n - 1);
    }
  }

  /** One line, whatever stuffing is allowed behind it, then the rest. */
  lemma LineThenRest(p: Header, k: nat, tail: seq<bool>)
    requires |p.payload| <= 0xff && LineStart(tail) && (k > 0 ==> EndsOnByte(p))
    ensures var b := LineBits(p, Ones(PadBits(p) + 8 * k) + tail);
      ParsePayload(b, |b| / 8) == Prepend(ExpectedLine(p), ParsePayload(tail, |tail| / 8))
  {
    hide LineBits, ParseLine, Realign, LineStart, ExpectedLine;
    EndsOnByteIsNoPad(p);
    hide PadBits, EndsOnByte;
    var after := Ones(PadBits(p) + 8 * k) + tail;
    LineBack(p, after);
    RealignBack(PadBits(p), k, tail);
  }

  /** Foreign stuffing only behind lines that end on a byte. */
  predicate OnlyWhereAligned(ps: seq<Header>, ks: seq<nat>)
  {
    |ks| == |ps| && forall i :: 0 <= i < |ps| && ks[i] > 0 ==> EndsOnByte(ps[i])
  }

  /** Any number of foreign stuffing bytes after lines that end on a byte changes nothing. */
  lemma {:induction false} StuffingTolerated(ps: seq<Header>, ks: seq<nat>)
    requires Short(ps) && OnlyWhereAligned(ps, ks)
    ensures ParsePayload(StuffedBits(ps, ks), |StuffedBits(ps, ks)| / 8) == Parsed(ExpectedLines(ps))
  {
    if ps == [] {
    } else {
      hide Short, OnlyWhereAligned, EndsOnByte, ParsePayload, LineStart, LineBits, ExpectedLine, ExpectedLines,
        StuffedBits, PadBits;
      FirstLine(ps, ks);
      StuffedStart(ps[1..], ks[1..]);
      StuffingTolerated(ps[1..], ks[1..]);
      LineThenRest(ps[0], ks[0], StuffedBits(ps[1..], ks[1..]));
      assert ParsePayload(StuffedBits(ps, ks), |StuffedBits(ps, ks)| / 8) == Parsed(ExpectedLines(ps));
    }
  }

  lemma FirstLine(ps: seq<Header>, ks: seq<nat>)
    requires ps != [] && Short(ps) && OnlyWhereAligned(ps, ks)
    ensures |ks| == |ps| && Short(ps[1..]) && OnlyWhereAligned(ps[1..], ks[1..])
    ensures |ps[0].payload| <= 0xff && (ks[0] > 0 ==> EndsOnByte(ps[0]))
    ensures StuffedBits(ps, ks) == LineBits(ps[0], Ones(PadBits(ps[0]) + 8 * ks[0]) + StuffedBits(ps[1..], ks[1..]))
    ensures ExpectedLines(ps) == [ExpectedLine(ps[0])] + ExpectedLines(ps[1..])
  {
  }

  lemma {:induction false} NoStuffingIsZero(n: nat)
    ensures forall i :: 0 <= i < n ==> NoStuffing(n)[i] == 0
  {
    if n == 0 {
    } else {
      NoStuffingIsZero(n - 1);
    }
  }

  lemma PayloadRoundTrip(ps: seq<Header>)
    requires Short(ps)
    ensures ParsePayload(PayloadBits(ps), |PayloadBits(ps)| / 8) == Parsed(ExpectedLines(ps))
  {
    NoStuffingIsZero(|ps|);
    StuffingTolerated(ps, NoStuffing(|ps|));
  }

  /** Foreign stuffing only behind lines that end on a byte, or so little of it behind the last line that the
      parser does not look at it. */
  predicate Harmless(ps: seq<Header>, ks: seq<nat>)
  {
    |ks| == |ps| && forall i :: 0 <= i < |ps| && ks[i] > 0 ==> EndsOnByte(ps[i]) || (i == |ps| - 1 && ks[i] <= 4)
  }

  lemma HarmlessCons(ps: seq<Header>, ks: seq<nat>)
    requires ps != [] && |ks| == |ps|
    ensures Harmless(ps, ks)
      <==> (ks[0] == 0 || EndsOnByte(ps[0]) || (|ps| == 1 && ks[0] <= 4)) && Harmless(ps[1..], ks[1..])
  {
    hide EndsOnByte;
    var qs, ls := ps[1..], ks[1..];
    assert forall i :: 0 < i < |ps| ==> ps[i] == qs[i - 1] && ks[i] == ls[i - 1];
    assert forall i :: 0 <= i < |qs| ==> qs[i] == ps[i + 1] && ls[i] == ks[i + 1];
  }

  /** Whatever the lines and wherever foreign stuffing is put, the parse gives exactly the lines if and only if
      the stuffing is harmless. */
  lemma {:induction false} StuffingToleratedIff(ps: seq<Header>, ks: seq<nat>)
    requires Short(ps) && |ks| == |ps|
    ensures ParsePayload(StuffedBits(ps, ks), |StuffedBits(ps, ks)| / 8) == Parsed(ExpectedLines(ps))
      <==> Harmless(ps, ks)
  {
    hide Short, Harmless, EndsOnByte, ParsePayload, LineStart, LineBits, ExpectedLine, ExpectedLines, StuffedBits,
      PadBits;
    if ps == [] {
      NothingStuffed(ps, ks);
    } else {
      StuffedLine(ps, ks);
      var tail := StuffedBits(ps[1..], ks[1..]);
      StuffedStart(ps[1..], ks[1..]);
      HarmlessCons(ps, ks);
      if ks[0] == 0 || EndsOnByte(ps[0]) {
        LineThenRest(ps[0], ks[0], tail);
        StuffingToleratedIff(ps[1..], ks[1..]);
        PrependParsed(ExpectedLine(ps[0]), ExpectedLines(ps[1..]), ParsePayload(tail, |tail| / 8));
      } else {
        StuffingMisread(ps[0], ks[0], tail);
        StuffedLength(ps[1..], ks[1..]);
      }
    }
  }

  lemma NothingStuffed(ps: seq<Header>, ks: seq<nat>)
    requires ps == [] && ks == [] && Short(ps)
    ensures ParsePayload(StuffedBits(ps, ks), |StuffedBits(ps, ks)| / 8) == Parsed(ExpectedLines(ps))
    ensures Harmless(ps, ks)
  {
  }

  lemma StuffedLine(ps: seq<Header>, ks: seq<nat>)
    requires ps != [] && Short(ps) && |ks| == |ps|
    ensures Short(ps[1..]) && |ps[0].payload| <= 0xff
    ensures StuffedBits(ps, ks) == LineBits(ps[0], Ones(PadBits(ps[0]) + 8 * ks[0]) + StuffedBits(ps[1..], ks[1..]))
    ensures ExpectedLines(ps) == [ExpectedLine(ps[0])] + ExpectedLines(ps[1..])
  {
    hide LineBits, PadBits, Ones, ExpectedLine;
  }

  lemma PrependParsed(l: AncLine, ls: seq<AncLine>, o: Outcome)
    ensures Prepend(l, o) == Parsed([l] + ls) <==> o == Parsed(ls)
  {
    if o.Parsed? {
      assert ([l] + o.lines)[1..] == o.lines && ([l] + ls)[1..] == ls;
    }
  }

  lemma StuffedLength(ps: seq<Header>, ks: seq<nat>)
    requires Short(ps) && |ks| == |ps|
    ensures if ps == [] then |StuffedBits(ps, ks)| == 0 && ExpectedLines(ps) == [] && Harmless(ps, ks)
      else |StuffedBits(ps, ks)| / 8 >= 8
  {
    hide LineBits, ExpectedLine, EndsOnByte;
  }

  lemma StuffingStart(pad: nat, k: nat, tail: seq<bool>)
    requires 0 < pad < 8 && k > 0 && |tail| % 8 == 0
    ensures var (next, rem) := Realign(Ones(pad + 8 * k) + tail);
      rem == k + |tail| / 8 && |next| == 8 * rem && FromBits(next[..6]) != 0
  {
    var b := Ones(pad + 8 * k) + tail;
    assert |b| % 8 == pad;
    var next := b[pad..];
    assert next[..6][..5] == next[..5] && next[5];
  }

  /** A string of whole bytes that ends in n ones ends in a byte whose low n bits are ones. */
  lemma EndsInOnes(s: seq<byte>, b: seq<bool>, n: nat)
    requires s != [] && n < 8 && BytesBits(s) == b + Ones(n)
    ensures s[|s| - 1] % Pow2(n) == Pow2(n) - 1
  {
    hide ToBits, BytesBits, Pow2, Ones;
    var x := s[|s| - 1];
    SplitLast(s);
    ToBitsSplit(x, 8 - n, n);
    LastBits(BytesBits(s), b, Ones(n), ToBits(ShiftRight(x, n), 8 - n), ToBits(x, n));
    OnesValue(x, n);
  }

  lemma LastBits(all: seq<bool>, b: seq<bool>, o: seq<bool>, f: seq<bool>, l: seq<bool>)
    requires all == b + o && |f| + |l| <= |all| && all[|all| - |f| - |l|..] == f + l && |o| == |l|
    ensures o == l
  {
    assert all[|b|..] == o;
    assert (f + l)[|f|..] == l;
  }

  lemma OnesValue(x: nat, n: nat)
    requires ToBits(x, n) == Ones(n)
    ensures x % Pow2(n) == Pow2(n) - 1
  {
    hide ToBits, Pow2, Ones;
    AllOnes(Pow2(n) - 1, n);
    ValueOfToBits(x, n);
    ValueOfToBits(Pow2(n) - 1, n);
    DivModUnique(Pow2(n) - 1, Pow2(n), 0, Pow2(n) - 1);
  }

  /** Behind a padded line the parser takes stuffing bytes for the next line and gives up. */
  lemma StuffingMisread(p: Header, k: nat, tail: seq<bool>)
    requires |p.payload| <= 0xff && k > 0 && !EndsOnByte(p) && LineStart(tail)
    ensures var b := LineBits(p, Ones(PadBits(p) + 8 * k) + tail);
      ParsePayload(b, |b| / 8)
      == if k + |tail| / 8 <= 4 then Parsed([ExpectedLine(p)]) else Rejected([ExpectedLine(p)])
  {
    hide LineBits, ExpectedLine, ParseLineFields, Realign, FromBits;
    EndsOnByteIsNoPad(p);
    var pad := PadBits(p);
    hide PadBits, EndsOnByte;
    LineBack(p, Ones(pad + 8 * k) + tail);
    StuffingStart(pad, k, tail);
    var (next, rem) := Realign(Ones(pad + 8 * k) + tail);
    assert rem > 4 ==> ParseLine(next) == LineBad;
    hide ParseLine;
    assert ParsePayload(next, rem) == if rem <= 4 then Parsed([]) else Rejected([]);
  }

  /** Five bytes of foreign stuffing behind a line without data words. */
  lemma StuffedTail(p: Header)
    requires p.payload == []
    ensures var b := StuffedBits([p], [5]); ParsePayload(b, |b| / 8) == Rejected([ExpectedLine(p)])
  {
    hide LineBits, ExpectedLine, ParsePayload;
    StuffingMisread(p, 5, []);
    StuffedLine([p], [5]);
    NothingStuffed([], []);
  }

  // ---- lines from any source -------------------------------------------------------------------

  /** What the data count of a line still without words asks for decides: with 10 * (n + 1) bits behind the count
      the line is read; short of the bytes its words and checksum take up it is rejected; in between, the reader runs
      past the end. */
  lemma TruncatedLine(lineNumber: word, offset: word, did: word, sdid: word, count: word, r: seq<bool>)
    ensures var n := count % 0x100;
      var b := ToBits(lineNumber, 11) + (ToBits(offset, 12) + (ToBits(did, 10) + (ToBits(sdid, 10) +
        (ToBits(count, 10) + r))));
      && (ParseLineFields(b).LineOk? <==> |r| >= 10 * (n + 1))
      && (ParseLineFields(b).LineBad? <==> |r| / 8 < 10 * (n + 1) / 8)
  {
    hide ToBits, Value16, ParseLineFields;
    GuardExact(count % 0x100, |r|);
    FiveFields(lineNumber, offset, did, sdid, count, r);
    LowByte(count);
    CountDecides(ToBits(lineNumber, 11) + (ToBits(offset, 12) + (ToBits(did, 10) + (ToBits(sdid, 10) +
      (ToBits(count, 10) + r)))));
  }

  lemma CountDecides(b: seq<bool>)
    requires |b| >= 53
    ensures var n, r := Value16(b[11..][12..][10..][10..][..10]) % 0x100, b[11..][12..][10..][10..][10..];
      && (ParseLineFields(b).LineBad? <==> (n + 1) * 10 / 8 > |r| / 8)
      && (ParseLineFields(b).LineOk? <==> (n + 1) * 10 / 8 <= |r| / 8 && |r| >= 10 * n + 10)
  {
    hide ReadWords, Value16;
  }

  /** Where the data words begin, and the count in front of them. */
  lemma FiveFields(lineNumber: word, offset: word, did: word, sdid: word, count: word, r: seq<bool>)
    ensures var b := ToBits(lineNumber, 11) + (ToBits(offset, 12) + (ToBits(did, 10) + (ToBits(sdid, 10) +
        (ToBits(count, 10) + r))));
      b[11..][12..][10..][10..][10..] == r && Value16(b[11..][12..][10..][10..][..10]) == count % 0x400
  {
    hide ToBits, Pow2, Value16;
    var r4 := ToBits(count, 10) + r;
    var r3 := ToBits(sdid, 10) + r4;
    var r2 := ToBits(did, 10) + r3;
    Field16(lineNumber, 11, ToBits(offset, 12) + r2);
    Field16(offset, 12, r2);
    Field10(did, r3);
    Field10(sdid, r4);
    Field10(count, r);
  }

  lemma GuardExact(n: nat, bits: nat)
    ensures (n + 1) * 10 == 10 * n + 10 == 10 * (n + 1)
    ensures bits >= 10 * n + 10 ==> (n + 1) * 10 / 8 <= bits / 8
  {
  }

  /** A line as it may stand in a payload: its fields, and any bits up to the next byte. */
  datatype WireLine = WireLine(line: AncLine, pad: seq<bool>)

  predicate WellFormed(w: WireLine)
  {
    && |w.line.words| == w.line.dataCount % 0x100
    && |w.pad| < 8 && (70 + 10 * |w.line.words| + |w.pad|) % 8 == 0
  }

  predicate AllWellFormed(ws: seq<WireLine>)
  {
    forall i :: 0 <= i < |ws| ==> WellFormed(ws[i])
  }

  function WirePayload(ws: seq<WireLine>): (b: seq<bool>)
    requires AllWellFormed(ws)
    ensures |b| % 8 == 0
  {
    if ws == [] then []
    else
      var more := WirePayload(ws[1..]);
      assert WellFormed(ws[0]);
      WholeBytes(70 + 10 * |ws[0].line.words| + |ws[0].pad|, 0, |more|);
      ToBits(0, 6) + (ToBits(0, 1) + WireFields(ws[0].line, ws[0].pad + more))
  }

  function CutLines(ws: seq<WireLine>): seq<AncLine>
  {
    if ws == [] then [] else [CutLine(ws[0].line)] + CutLines(ws[1..])
  }

  lemma RealignBits(pad: seq<bool>, tail: seq<bool>)
    requires |pad| < 8 && LineStart(tail)
    ensures Realign(pad + tail) == (tail, |tail| / 8)
  {
    var r := pad + tail;
    assert |r| % 8 == |pad| && r[|pad|..] == tail;
  }

  lemma WireStart(ws: seq<WireLine>)
    requires AllWellFormed(ws)
    ensures LineStart(WirePayload(ws)) && (ws != [] ==> |WirePayload(ws)| / 8 >= 8)
  {
    hide WireFields;
    if ws != [] {
      assert ToBits(0, 6)[0] == false;
    }
  }

  /** The lines of any well-formed payload come back in order, whatever bits fill up their last bytes. */
  lemma {:induction false} ForeignPayload(ws: seq<WireLine>)
    requires AllWellFormed(ws)
    ensures ParsePayload(WirePayload(ws), |WirePayload(ws)| / 8) == Parsed(CutLines(ws))
  {
    if ws == [] {
    } else {
      hide WireFields, CutLine, Realign, ParseLineFields, FromBits, ToBits, LineStart;
      var more := WirePayload(ws[1..]);
      var r := WireFields(ws[0].line, ws[0].pad + more);
      assert WellFormed(ws[0]);
      WireStart(ws);
      WireStart(ws[1..]);
      RealignBits(ws[0].pad, more);
      WireFieldsBack(ws[0].line, ws[0].pad + more);
      Bits.ReadBack(0, 6, ToBits(0, 1) + r);
      Bits.ReadBack(0, 1, r);
      ForeignPayload(ws[1..]);
    }
  }

  // ---- building the payload line by line ----------------------------------------------------

  lemma {:induction false} WordsBitsTail(ws: seq<word>, a: seq<bool>, b: seq<bool>)
    ensures WordsBits(ws, a) + b == WordsBits(ws, a + b)
  {
    if ws == [] {
    } else {
      hide ToBits;
      WordsBitsTail(ws[1..], a, b);
      Associative(ToBits(ws[0], 10), WordsBits(ws[1..], a), b);
    }
  }

  lemma LineBitsTail(p: Header, a: seq<bool>, b: seq<bool>)
    requires |p.payload| <= 0xff
    ensures LineBits(p, a) + b == LineBits(p, a + b)
  {
    hide ToBits, WordsBits, AddParity;
    var end := ToBits(p.checksum, 10);
    Associative(end, a, b);
    WordsBitsTail(p.payload, end + a, b);
    var r5 := WordsBits(p.payload, end + a);
    var r4 := ToBits(AddParity(|p.payload|), 10) + r5;
    var r3 := ToBits(AddParity(p.sdid), 10) + r4;
    var r2 := ToBits(AddParity(p.did), 10) + r3;
    var r1 := ToBits(0, 12) + r2;
    Associative(ToBits(AddParity(|p.payload|), 10), r5, b);
    Associative(ToBits(AddParity(p.sdid), 10), r4, b);
    Associative(ToBits(AddParity(p.did), 10), r3, b);
    Associative(ToBits(0, 12), r2, b);
    Associative(ToBits(p.lineNr, 11), r1, b);
    Associative(ToBits(0, 1), LineFieldsBits(p, a), b);
    Associative(ToBits(0, 6), ToBits(0, 1) + LineFieldsBits(p, a), b);
  }

  /** Appending a packet appends its padded line. */
  lemma {:induction false} PayloadAppend(ps: seq<Header>, p: Header)
    requires Short(ps) && |p.payload| <= 0xff
    ensures Short(ps + [p])
    ensures PayloadBits(ps + [p]) == PayloadBits(ps) + LineBits(p, Ones(PadBits(p)))
  {
    hide LineBits, PadBits;
    var q := ps + [p];
    if ps == [] {
      assert q == [p] && q[1..] == [];
      assert Ones(PadBits(p) + 8 * 0) + [] == Ones(PadBits(p));
    } else {
      assert q[1..] == ps[1..] + [p] && q[0] == ps[0];
      PayloadAppend(ps[1..], p);
      assert NoStuffing(|ps|)[1..] == NoStuffing(|ps| - 1) && NoStuffing(|q|)[1..] == NoStuffing(|q| - 1);
      var pad, line := Ones(PadBits(ps[0]) + 8 * 0), LineBits(p, Ones(PadBits(p)));
      LineBitsTail(ps[0], pad + PayloadBits(ps[1..]), line);
      Associative(pad, PayloadBits(ps[1..]), line);
    }
  }
}

/** SCTE 104 messages as VANC packets: wrapped, framed, possibly fragmented, and decoded again. */
module Scte104Transport {
  import opened Bits
  import opened Wrappers
  import opened VancPackets
  import opened Scte104Fragments
  import opened Scte104Format
  import opened Scte104Encoder
  import opened Scte104Decoder

  type Packet = VancPackets.Header

  const DID: byte := 0x41
  const SDID: byte := 0x07
  const SINGLE_PACKET: byte := 0x08

  // ---- sending ------------------------------------------------------------------------------

  method WrapSmpte2010(bytes: seq<byte>) returns (ok: bool, wrapped: seq<byte>)
    requires |bytes| <= 0xffff
    ensures ok <==> |bytes| <= PAYLOAD_SIZE
    ensures ok ==> wrapped == [SINGLE_PACKET] + bytes
  {
    if |bytes| > PAYLOAD_SIZE {
      return false, [];
    }
    return true, [SINGLE_PACKET] + bytes;
  }

  method ConvertToWords(opId: word, m: Message, size: nat) returns (words: Option<array<word>>)
    requires Serialisable(m.ops) && |MessageBytes(m, 0)| <= PAYLOAD_SIZE
    ensures words.Some? <==> opId == 0xffff
    ensures words.Some? ==> words.value[..] == PayloadWords(DID, SDID, [SINGLE_PACKET] + Encoded(m))
  {
    hide PayloadWords, Encoded, MessageBytes, Serialisable;
    var ok, bytes, byteCount := Encode(opId, m, size);
    if !ok {
      return None;
    }
    var wrappedOk, wrapped := WrapSmpte2010(bytes[..byteCount]);
    words := CreatePayload(SDID, DID, wrapped, 10);
  }

  // ---- receiving ----------------------------------------------------------------------------

  /** The words behind the payload descriptor, cut to bytes, in the zero-filled 2000-byte buffer. */
  function PayloadBuffer(payload: seq<word>): (p: seq<byte>)
    requires payload != []
    ensures |p| == PAYLOAD_SIZE
  {
    seq(PAYLOAD_SIZE, i requires 0 <= i => if 1 + i < |payload| then payload[1 + i] % 256 else 0)
  }

  function DecodePayload(payload: seq<word>): Result
    requires payload != []
  {
    ParseMessage(PayloadBuffer(payload), |payload| - 1)
  }

  predicate NonEmpty(held: seq<Packet>)
  {
    forall i :: 0 <= i < |held| ==> held[i].payload != []
  }

  lemma MessageNonEmpty(held: seq<Packet>, h: Packet)
    requires NonEmpty(held)
    ensures Step(held, h).1.Some? ==> Step(held, h).1.value.payload != []
  {
  }

  /** The fragments held after a packet, and the message it led to, decoded. */
  function Receive(held: seq<Packet>, h: Packet): (seq<Packet>, Option<Result>)
    requires NonEmpty(held)
  {
    MessageNonEmpty(held, h);
    var (kept, message) := Step(held, h);
    (kept, if message.None? then None else Some(DecodePayload(message.value.payload)))
  }

  method ParseScte104(store: FragmentStore, h: Packet) returns (r: Option<Result>)
    requires store.Valid() && NonEmpty(store.held)
    requires Receive(store.held, h).1 != Some(Overread)
    modifies store, store.fragments
    ensures store.Valid()
    ensures (store.held, r) == Receive(old(store.held), h)
  {
    hide Step, ParseMessage;
    MessageNonEmpty(store.held, h);
    var message := store.Process(h);
    if message.None? {
      return None;
    }
    var p := FillPayload(message.value.payload);
    var result := Decode(p, |message.value.payload| - 1);
    r := Some(result);
  }

  method FillPayload(payload: seq<word>) returns (p: array<byte>)
    requires payload != []
    ensures fresh(p) && p[..] == PayloadBuffer(payload)
  {
    p := new byte[PAYLOAD_SIZE](i => 0);
    for i := 0 to PAYLOAD_SIZE
      invariant forall k :: 0 <= k < i ==> p[k] == PayloadBuffer(payload)[k]
      invariant forall k :: i <= k < PAYLOAD_SIZE ==> p[k] == 0
    {
      if 1 + i < |payload| {
        p[i] := payload[1 + i] % 256;
      }
    }
  }

  // ---- what arrives is what was sent ----------------------------------------------------------

  /** The message as the decoder reports it. */
  function Reported(m: Message): Result
    requires |MessageBytes(m, 0)| <= PAYLOAD_SIZE
  {
    Ok(Decoded(CutHeader(m.header), |Encoded(m)|, CutTimestamp(m.timestamp), ExpectedOps(m.ops)))
  }

  lemma BufferOf(payload: seq<word>, s: seq<byte>)
    requires payload != [] && LowBytes(payload[1..]) == s && |s| <= PAYLOAD_SIZE
    ensures PayloadBuffer(payload) == Buffered(s) && |payload| - 1 == |s|
  {
    var p, q := PayloadBuffer(payload), Buffered(s);
    forall i | 0 <= i < PAYLOAD_SIZE
      ensures p[i] == q[i]
    {
      if i < |s| {
        assert payload[1..][i] == payload[1 + i];
      }
    }
  }

  lemma PayloadRoundTrip(m: Message, payload: seq<word>)
    requires Sendable(m) && payload != [] && LowBytes(payload[1..]) == Encoded(m)
    ensures DecodePayload(payload) == Reported(m)
  {
    hide ParseMessage, Encoded, MessageBytes, ExpectedOps, AllEncodable, PayloadBuffer, Buffered;
    BufferOf(payload, Encoded(m));
    MessageRoundTrip(m);
  }

  lemma SingleDescriptor(h: Packet)
    requires h.payload != [] && h.payload[0] % 256 == SINGLE_PACKET
    ensures KindOf(h) == Single
  {
  }

  /** The header a receiver makes of bytes framed as an ancillary packet. */
  function Framed(src: seq<byte>, offset: nat, lineNr: nat): Packet
    requires 1 <= |src| <= 0xffff
  {
    CountWord(DID, SDID, src);
    ParseHeader(PayloadWords(DID, SDID, src), offset, lineNr)
  }

  /** A descriptor and at most 254 bytes behind it arrive as they were sent. */
  lemma FramedWhole(d: byte, bytes: seq<byte>, offset: nat, lineNr: nat)
    requires |bytes| <= 254
    ensures var h := Framed([d] + bytes, offset, lineNr);
      && |h.payload| == |bytes| + 1 && h.payload[0] % 256 == d && LowBytes(h.payload[1..]) == bytes
      && h.checksumValid && h.kind == PacketType.Scte104
  {
    hide PayloadWords, ParseHeader, IsValidHeader, IsComplete;
    var src := [d] + bytes;
    CountWord(DID, SDID, src);
    CreateParseRoundTrip(DID, SDID, src, offset, lineNr);
    var h := Framed(src, offset, lineNr);
    assert LowBytes(h.payload)[0] == src[0];
    assert src[1..] == bytes;
    assert LowBytes(h.payload)[1..] == LowBytes(h.payload[1..]);
  }

  /** More bytes have their count cut to a byte, and with it the payload. */
  lemma FramedCut(d: byte, bytes: seq<byte>, offset: nat, lineNr: nat)
    requires 254 < |bytes| < 0xffff
    ensures var h := Framed([d] + bytes, offset, lineNr);
      && |h.payload| < 256 && (h.payload != [] ==>
        h.payload[0] % 256 == d && LowBytes(h.payload[1..]) == bytes[..|h.payload| - 1])
  {
    hide VancPackets.Body, PayloadWords;
    var src := [d] + bytes;
    CountWord(DID, SDID, src);
    BodyWords(DID, SDID, src);
    var ws := PayloadWords(DID, SDID, src);
    var h := Framed(src, offset, lineNr);
    assert |h.payload| == |src| % 256;
    assert LowBytes(ws[6..6 + |src|])[0] == src[0];
    assert forall k :: 0 <= k < |h.payload| ==> h.payload[k] == ws[6 + k];
    if h.payload != [] {
      var t := h.payload[1..];
      forall k | 0 <= k < |t|
        ensures LowBytes(t)[k] == bytes[k]
      {
        assert t[k] == h.payload[k + 1] && src[k + 1] == bytes[k];
      }
      assert LowBytes(t) == bytes[..|t|];
    }
  }

  /** Wrapped bytes reach the decoder as one single packet carrying exactly them, whatever fragments are held,
      if and only if there are at most 254. */
  lemma WrappedIsSingle(bytes: seq<byte>, held: seq<Packet>, offset: nat, lineNr: nat)
    requires |bytes| <= PAYLOAD_SIZE
    ensures var h := Framed([SINGLE_PACKET] + bytes, offset, lineNr);
      h.payload != [] && Step(held, h) == ([], Some(h)) && LowBytes(h.payload[1..]) == bytes <==> |bytes| <= 254
  {
    hide Framed, LowBytes, KindOf;
    var h := Framed([SINGLE_PACKET] + bytes, offset, lineNr);
    if |bytes| <= 254 {
      FramedWhole(SINGLE_PACKET, bytes, offset, lineNr);
      SingleDescriptor(h);
    } else {
      FramedCut(SINGLE_PACKET, bytes, offset, lineNr);
    }
  }

  lemma CutIsBad(m: Message, payload: seq<word>)
    requires 254 < |Encoded(m)| <= PAYLOAD_SIZE && payload != [] && |payload| < 256
    requires LowBytes(payload[1..]) == Encoded(m)[..|payload| - 1]
    ensures DecodePayload(payload) == Bad
  {
    var n := |payload| - 1;
    var p := PayloadBuffer(payload);
    if n >= 10 {
      hide BigEndianValue, Encoded, MessageBytes, ParseBodyOf;
      forall k | 0 <= k < n
        ensures p[k] == Encoded(m)[k]
      {
        assert payload[1..][k] == payload[1 + k] && Encoded(m)[..n][k] == Encoded(m)[k];
      }
      assert p[2..][..2] == [p[2], p[3]] == [Encoded(m)[2], Encoded(m)[3]] == Encoded(m)[2..][..2];
      SizeField(m);
    }
  }

  /** The header a receiver makes of the words of a message. */
  function Received(m: Message, offset: nat, lineNr: nat): Packet
    requires |MessageBytes(m, 0)| <= PAYLOAD_SIZE
  {
    Framed([SINGLE_PACKET] + Encoded(m), offset, lineNr)
  }

  /** One packet carries a message to the decoder unharmed exactly when it is at most 254 bytes long;
      the words of a longer one are made all the same and never decode. */
  lemma WordsRoundTrip(m: Message, held: seq<Packet>, offset: nat, lineNr: nat)
    requires Sendable(m) && NonEmpty(held)
    ensures Receive(held, Received(m, offset, lineNr)) == ([], Some(Reported(m))) <==> |Encoded(m)| <= 254
    ensures |Encoded(m)| <= 254 ==>
      Received(m, offset, lineNr).kind == PacketType.Scte104 && Received(m, offset, lineNr).checksumValid
  {
    hide Framed, Sendable, Encoded, MessageBytes, DecodePayload, Reported, KindOf, AllEncodable;
    SendableFits(m);
    var h := Received(m, offset, lineNr);
    if |Encoded(m)| <= 254 {
      FramedWhole(SINGLE_PACKET, Encoded(m), offset, lineNr);
      SingleDescriptor(h);
      PayloadRoundTrip(m, h.payload);
    } else {
      FramedCut(SINGLE_PACKET, Encoded(m), offset, lineNr);
      if h.payload != [] {
        SingleDescriptor(h);
        CutIsBad(m, h.payload);
        ReportedIsOk(m);
      } else {
        NoDescriptor(h);
      }
    }
  }

  /** On a line, among any filler words, the message's packet is the one the decoder is handed, and decodes to it. */
  lemma MessageOnLine(m: Message, held: seq<Packet>, before: seq<word>, behind: seq<word>, lineNr: nat, allowBad: bool)
    requires Sendable(m) && NonEmpty(held) && |Encoded(m)| <= 254
    requires GoodSegment(Filler(before)) && GoodSegment(Filler(behind))
    ensures |MessageBytes(m, 0)| <= PAYLOAD_SIZE
    ensures var line := before + PayloadWords(0x41, 0x07, [0x08] + Encoded(m)) + behind;
      && ScanComplete(line, 0)
      && var found := VancPackets.Decoded(Scan(line, 0, lineNr), allowBad);
      && |found| == 1 && found[0].kind == PacketType.Scte104
      && Receive(held, found[0]) == ([], Some(Reported(m)))
  {
    hide Receive, Sendable, NonEmpty, Encoded, MessageBytes, Reported, PayloadWords, ParseHeader, Scan, ScanComplete,
      IsValidHeader, IsComplete, VancPackets.Decoded, GoodSegment;
    SendableFits(m);
    CreatedOnLine(0x41, 0x07, [0x08] + Encoded(m), before, behind, lineNr, allowBad);
    WordsRoundTrip(m, held, |before|, lineNr);
  }

  /** The shortest kind of message with one descriptor of the full 254 bytes. */
  const LONG := Message(Scte104Format.Header.Header(0, 0, 1, 0, 0), Untimed(0), [Descriptor(1, ZeroBytes(254))])

  /** Its words are made and never decode to it. */
  lemma LongMessageLost(held: seq<Packet>, offset: nat, lineNr: nat)
    requires NonEmpty(held)
    ensures Sendable(LONG) && |Encoded(LONG)| == 271
    ensures Receive(held, Received(LONG, offset, lineNr)) != ([], Some(Reported(LONG)))
  {
    hide Receive, Received, Reported, Sendable, Encoded, NonEmpty;
    LongSize();
    WordsRoundTrip(LONG, held, offset, lineNr);
  }

  lemma LongSize()
    ensures Sendable(LONG) && |Encoded(LONG)| == 271
  {
    hide ZeroBytes, BigEndian;
    assert LONG.ops[1..] == [];
    assert |OpsBytes(LONG.ops, [])| == 259;
  }

  lemma SendableFits(m: Message)
    requires Sendable(m)
    ensures |MessageBytes(m, 0)| <= PAYLOAD_SIZE
  {
  }

  lemma ReportedIsOk(m: Message)
    requires |MessageBytes(m, 0)| <= PAYLOAD_SIZE
    ensures Reported(m).Ok?
  {
  }

  lemma NoDescriptor(h: Packet)
    requires h.payload == []
    ensures KindOf(h) == Other
  {
  }

  /** A message cut over up to ten packets decodes to what was encoded, whatever was held before. */
  lemma FragmentedRoundTrip(m: Message, before: seq<Packet>, first: Packet, after: seq<Packet>, last: Packet,
                            chunks: seq<seq<word>>)
    requires Sendable(m) && LowBytes(Concat(chunks)) == Encoded(m)
    requires first.payload != [] && first.payload[0] % 8 == 4 && last.payload != [] && last.payload[0] % 8 == 2
    requires Quiet(after)
    requires var fs := [first] + Inner(after) + [last];
      && |fs| <= 10 && Carries(fs, chunks)
      && forall i :: 0 <= i < |fs| ==> |fs[i].payload| <= 255
    ensures NonEmpty(Held(before + [first] + after))
    ensures Receive(Held(before + [first] + after), last) == ([], Some(Reported(m)))
  {
    hide Sendable, Encoded, MessageBytes, DecodePayload, Reported, KindOf, Step, Held, Intermediates, Inner, Concat,
      Quiet, Without;
    SplitThenReassemble(before, first, after, last, chunks);
    KindOfWord(first);
    QuietWithout(after);
    InnerIsIntermediates(after);
    HeldSinceFirst(before, first, after);
    var fs := [first] + Intermediates(after) + [last];
    assert forall i :: 0 <= i < |fs| - 1 ==> ([first] + Intermediates(after))[i] == fs[i];
    var payload := Step(Held(before + [first] + after), last).1.value.payload;
    assert payload[1..] == Concat(chunks);
    PayloadRoundTrip(m, payload);
  }

  /** One packet of a fragmented message: its descriptor, its piece of the message, and where it was found. */
  datatype Part = Part(descriptor: byte, piece: seq<byte>, offset: nat, lineNr: nat)

  /** The header of a part that was framed as words and parsed. */
  function HeaderOf(p: Part): Packet
    requires |p.piece| <= 254
  {
    Framed([p.descriptor] + p.piece, p.offset, p.lineNr)
  }

  predicate Pieces(ps: seq<Part>)
  {
    forall i :: 0 <= i < |ps| ==> |ps[i].piece| <= 254
  }

  function Headers(ps: seq<Part>): (hs: seq<Packet>)
    requires Pieces(ps)
    ensures |hs| == |ps|
  {
    seq(|ps|, i requires 0 <= i < |ps| => HeaderOf(ps[i]))
  }

  /** The bytes the parts carry. */
  function Carried(ps: seq<Part>): seq<byte>
  {
    if ps == [] then [] else Carried(ps[..|ps| - 1]) + ps[|ps| - 1].piece
  }

  /** Between two and ten packets of at most 254 bytes, with the descriptors of a first, intermediate and final
      fragment. */
  predicate Fragmented(ps: seq<Part>)
  {
    && 2 <= |ps| <= 10 && Pieces(ps)
    && ps[0].descriptor % 8 == 4 && ps[|ps| - 1].descriptor % 8 == 2
    && forall i :: 0 < i < |ps| - 1 ==> ps[i].descriptor % 8 == 6
  }

  function Chunks(hs: seq<Packet>): (cs: seq<seq<word>>)
    requires NonEmpty(hs)
    ensures |cs| == |hs|
  {
    seq(|hs|, i requires 0 <= i < |hs| => hs[i].payload[1..])
  }

  lemma PartArrives(p: Part)
    requires |p.piece| <= 254
    ensures var h := HeaderOf(p);
      && 1 <= |h.payload| <= 255 && h.payload[0] % 0x100 == p.descriptor && LowBytes(h.payload[1..]) == p.piece
  {
    hide Framed, LowBytes;
    FramedWhole(p.descriptor, p.piece, p.offset, p.lineNr);
  }

  lemma LowBytesAppend(a: seq<word>, b: seq<word>)
    ensures LowBytes(a + b) == LowBytes(a) + LowBytes(b)
  {
  }

  lemma {:induction false} PartsCarried(ps: seq<Part>)
    requires Pieces(ps)
    ensures NonEmpty(Headers(ps)) && LowBytes(Concat(Chunks(Headers(ps)))) == Carried(ps)
  {
    hide HeaderOf, LowBytes;
    forall i | 0 <= i < |ps|
      ensures 1 <= |Headers(ps)[i].payload| <= 255
    {
      PartArrives(ps[i]);
    }
    if ps == [] {
      assert LowBytes([]) == [];
    } else {
      var n := |ps| - 1;
      var hs := Headers(ps);
      PartsCarried(ps[..n]);
      PartArrives(ps[n]);
      assert Headers(ps[..n]) == hs[..n] && Chunks(hs[..n]) == Chunks(hs)[..n];
      LowBytesAppend(Concat(Chunks(hs)[..n]), Chunks(hs)[n]);
    }
  }

  /** A message cut into two to ten pieces, each framed as words behind its descriptor and parsed again, decodes to
      what was encoded, whatever was held before and whatever unrelated packets arrive in between. */
  lemma FragmentedWordsRoundTrip(m: Message, ps: seq<Part>, before: seq<Packet>, after: seq<Packet>)
    requires Sendable(m) && Fragmented(ps) && Carried(ps) == Encoded(m)
    requires Quiet(after) && Inner(after) == Headers(ps)[1..|ps| - 1]
    ensures var held := Held(before + [HeaderOf(ps[0])] + after);
      NonEmpty(held) && Receive(held, HeaderOf(ps[|ps| - 1])) == ([], Some(Reported(m)))
  {
    hide Sendable, Encoded, MessageBytes, Reported, Receive, Held, Inner, Concat, Carried, HeaderOf, Quiet, LowBytes;
    var hs := Headers(ps);
    forall i | 0 <= i < |ps|
      ensures 1 <= |hs[i].payload| <= 255 && hs[i].payload[0] % 8 == ps[i].descriptor % 8
    {
      PartArrives(ps[i]);
      LowByte(hs[i].payload[0]);
    }
    PartsCarried(ps);
    assert hs == [hs[0]] + hs[1..|ps| - 1] + [hs[|ps| - 1]];
    FragmentedRoundTrip(m, before, hs[0], after, hs[|ps| - 1], Chunks(hs));
  }

  /** The pieces behind the first. */
  function CutUp(s: seq<byte>): (ps: seq<Part>)
    ensures ps != [] && Pieces(ps) && 254 * |ps| < |s| + 254 + (if s == [] then 1 else 0)
    ensures ps[|ps| - 1].descriptor % 8 == 2
    ensures forall i :: 0 <= i < |ps| - 1 ==> ps[i].descriptor % 8 == 6
  {
    if |s| <= 254 then [Part(0x0a, s, 0, 0)] else [Part(0x0e, s[..254], 0, 0)] + CutUp(s[254..])
  }

  lemma {:induction false} CarriedCons(p: Part, ps: seq<Part>)
    ensures Carried([p] + ps) == p.piece + Carried(ps)
  {
    var all := [p] + ps;
    if ps == [] {
      assert all[..0] == [] && Carried(all[..0]) == [];
    } else {
      assert all[..|ps|] == [p] + ps[..|ps| - 1];
      CarriedCons(p, ps[..|ps| - 1]);
      var front, last := Carried(ps[..|ps| - 1]), ps[|ps| - 1].piece;
      assert p.piece + (front + last) == (p.piece + front) + last;
    }
  }

  lemma {:induction false} CutUpCarries(s: seq<byte>)
    ensures Carried(CutUp(s)) == s
    decreases |s|
  {
    if |s| <= 254 {
      var p := Part(0x0a, s, 0, 0);
      CarriedCons(p, []);
      assert [p] + [] == [p] && Carried([]) == [];
    } else {
      CutUpCarries(s[254..]);
      CarriedCons(Part(0x0e, s[..254], 0, 0), CutUp(s[254..]));
      assert s == s[..254] + s[254..];
    }
  }

  /** Every message can be fragmented so. */
  lemma EveryMessageFragments(m: Message) returns (ps: seq<Part>)
    requires Sendable(m)
    ensures Fragmented(ps) && Carried(ps) == Encoded(m)
  {
    hide Carried, Encoded, MessageBytes, AllEncodable, CutUp;
    SendableFits(m);
    MessageLength(m, 0);
    var s := Encoded(m);
    var first := Part(0x0c, s[..6], 0, 0);
    ps := [first] + CutUp(s[6..]);
    CutUpCarries(s[6..]);
    CarriedCons(first, CutUp(s[6..]));
    assert s == s[..6] + s[6..];
  }

  // ---- operations the encoder does not know ---------------------------------------------------

  function Known(ops: seq<Body>): seq<Body>
  {
    if ops == [] then []
    else if ops[0].Unknown? then Known(ops[1..])
    else [ops[0]] + Known(ops[1..])
  }

  /** Reading past the operations that were written: the count still includes the skipped ones. */
  lemma {:induction false} OpsBackCounted(ops: seq<Body>, n: nat, pad: seq<byte>)
    requires Serialisable(ops) && n >= |Known(ops)|
    ensures ParseOps(n, OpsBytes(ops, pad), OpsLength(ops))
      == Prepend(ExpectedOps(Known(ops)), ParseOps(n - |Known(ops)|, pad, 0))
  {
    hide Serialisable, Encodable, Be, ParseOp, BodyBytes, Cut, OpId, Prepend;
    if ops == [] {
      NothingBefore(ParseOps(n, pad, 0));
    } else {
      FirstSerialisable(ops);
      if ops[0].Unknown? {
        OpsBackCounted(ops[1..], n, pad);
      } else {
        OpBack(ops[0], OpsBytes(ops[1..], pad), OpsLength(ops));
        OpsBackCounted(ops[1..], n - 1, pad);
        KnownFirst(ops);
        PrependCons(Op(OpId(ops[0]), BodyBytes(ops[0]), Cut(ops[0])), ExpectedOps(Known(ops[1..])),
          ParseOps(n - |Known(ops)|, pad, 0));
      }
    }
  }

  lemma FirstSerialisable(ops: seq<Body>)
    requires ops != [] && Serialisable(ops)
    ensures (ops[0].Unknown? || Encodable(ops[0])) && Serialisable(ops[1..])
  {
    hide Encodable;
  }

  lemma KnownFirst(ops: seq<Body>)
    requires ops != [] && !ops[0].Unknown?
    ensures Known(ops) == [ops[0]] + Known(ops[1..])
    ensures ExpectedOps(Known(ops))
      == [Op(OpId(ops[0]), BodyBytes(ops[0]), Cut(ops[0]))] + ExpectedOps(Known(ops[1..]))
  {
    assert Known(ops)[1..] == Known(ops[1..]);
  }

  lemma PrependCons(o: Op, os: seq<Op>, r: OpsResult)
    ensures ConsOp(o, Prepend(os, r)) == Prepend([o] + os, r)
  {
    if r.OpsOk? {
      assert [o] + (os + r.ops) == ([o] + os) + r.ops;
    }
  }

  /** From the zeros behind the message one more empty operation can be read, not two; with fewer than four
      bytes left the decoder reads past its buffer. */
  lemma ZeroOps(k: nat, n: nat)
    ensures ParseOps(k, ZeroBytes(n), 0) ==
      if k == 0 then OpsOk([])
      else if n < 4 then OpsOverread
      else if k == 1 then OpsOk([EXTRA])
      else if n < 8 then OpsOverread
      else OpsBad
  {
    if n >= 4 {
      ZeroWord(ZeroBytes(n));
      assert ZeroBytes(n)[2..][2..] == ZeroBytes(n)[4..];
    }
    if n >= 8 {
      ZeroWord(ZeroBytes(n)[4..]);
    }
    hide BigEndianValue, ZeroBytes;
    if k > 0 && n >= 4 {
      assert ParseOp(ZeroBytes(n), 0) == OpOk(EXTRA, ZeroBytes(n)[4..]);
      if n >= 8 {
        assert ParseOp(ZeroBytes(n)[4..], -4) == OpBad;
      } else {
        assert ParseOp(ZeroBytes(n)[4..], -4) == OpOverread;
      }
    }
  }

  lemma ZeroWord(s: seq<byte>)
    requires |s| >= 4 && forall i :: 0 <= i < 4 ==> s[i] == 0
    ensures BigEndianValue(s[..2]) == 0 && BigEndianValue(s[2..][..2]) == 0
  {
    var a, b := s[..2], s[2..][..2];
    assert a == [0, 0] && b == [0, 0];
    assert [0, 0][..1] == [0] && [0][..0] == [];
  }

  predicate AllKnown(ops: seq<Body>)
  {
    forall i :: 0 <= i < |ops| ==> !ops[i].Unknown?
  }

  /** The list decodes to itself when no operation is unknown, or only the last, with identifier 0. */
  predicate Faithful(ops: seq<Body>)
  {
    AllKnown(ops) || (ops != [] && AllKnown(ops[..|ops| - 1]) && ops[|ops| - 1] == Unknown(0))
  }

  lemma {:induction false} KnownCount(ops: seq<Body>)
    ensures |Known(ops)| <= |ops| && AllKnown(Known(ops))
    ensures |Known(ops)| == |ops| <==> AllKnown(ops)
    ensures AllKnown(ops) ==> Known(ops) == ops
  {
    if ops == [] {
    } else {
      KnownCount(ops[1..]);
      assert AllKnown(ops) <==> !ops[0].Unknown? && AllKnown(ops[1..]);
    }
  }

  const EXTRA: Op := Op(0, [], Unknown(0))

  lemma FirstSkipped(ops: seq<Body>)
    requires |Known(ops)| + 1 == |ops| && ops[0].Unknown?
    ensures ExpectedOps(Known(ops)) + [EXTRA] == ExpectedOps(ops) <==> Faithful(ops)
  {
    hide OpId, BodyBytes, Cut, AllKnown;
    KnownCount(ops);
    KnownCount(ops[1..]);
    UnknownStays(ops[0]);
    if |ops| == 1 {
      assert ExpectedOps(ops) == [Op(ops[0].opId, [], ops[0])];
      assert ExpectedOps(Known(ops)) + [EXTRA] == [EXTRA];
      NoneKnown(ops);
    } else {
      KnownStays(ops[1]);
      AllKnownAt(ops[1..], 0);
      assert ExpectedOps(ops)[0].body != ExpectedOps(Known(ops))[0].body;
      if AllKnown(ops[..|ops| - 1]) {
        AllKnownAt(ops[..|ops| - 1], 0);
      }
    }
  }

  lemma NoneKnown(ops: seq<Body>)
    requires |ops| == 1 && ops[0].Unknown?
    ensures AllKnown(ops[..0]) && !AllKnown(ops)
  {
  }

  lemma AllKnownAt(ops: seq<Body>, i: nat)
    requires AllKnown(ops) && i < |ops|
    ensures !ops[i].Unknown?
  {
  }

  lemma FaithfulCons(ops: seq<Body>)
    requires |ops| > 1 && !ops[0].Unknown?
    ensures Faithful(ops) <==> Faithful(ops[1..])
  {
    assert ops[1..][..|ops| - 2] == ops[..|ops| - 1][1..];
    AllKnownCons(ops);
    AllKnownCons(ops[..|ops| - 1]);
    hide AllKnown;
  }

  lemma AllKnownCons(ops: seq<Body>)
    requires ops != []
    ensures AllKnown(ops) <==> !ops[0].Unknown? && AllKnown(ops[1..])
  {
  }

  /** One operation skipped: what is read in its place stands at the end of the list. */
  lemma {:induction false} OneSkipped(ops: seq<Body>)
    requires |Known(ops)| + 1 == |ops|
    ensures ExpectedOps(Known(ops)) + [EXTRA] == ExpectedOps(ops) <==> Faithful(ops)
  {
    hide OpId, BodyBytes, Cut, Faithful;
    if ops[0].Unknown? {
      FirstSkipped(ops);
    } else {
      KnownFirst(ops);
      OneSkipped(ops[1..]);
      FaithfulCons(ops);
      var o, known := Op(OpId(ops[0]), BodyBytes(ops[0]), Cut(ops[0])), ExpectedOps(Known(ops[1..]));
      ConsEqual(o, known + [EXTRA], ExpectedOps(ops[1..]));
      assert ([o] + known) + [EXTRA] == [o] + (known + [EXTRA]);
    }
  }

  lemma ConsEqual<T>(o: T, a: seq<T>, b: seq<T>)
    ensures [o] + a == [o] + b <==> a == b
  {
    assert ([o] + a)[1..] == a && ([o] + b)[1..] == b;
  }

  lemma UnknownStays(b: Body)
    requires b.Unknown?
    ensures BodyBytes(b) == [] && Cut(b) == b && OpId(b) == b.opId
  {
  }

  lemma KnownStays(b: Body)
    ensures Cut(b).Unknown? <==> b.Unknown?
  {
  }

  /** A message decodes to what was encoded exactly when all its operations are known, or only the last is not,
      has identifier 0, and leaves room for an operation header behind it. */
  lemma MessageRoundTripIff(m: Message)
    requires Serialisable(m.ops) && |m.ops| <= 255
    requires m.timestamp.Untimed? ==> m.timestamp.timeType !in {1, 2, 3}
    requires |MessageBytes(m, 0)| <= 2000
    ensures ParseMessage(Buffered(Encoded(m)), |Encoded(m)|) == Reported(m)
      <==> AllKnown(m.ops) || (Faithful(m.ops) && |Encoded(m)| + 4 <= 2000)
  {
    hide ParseMessage, ParseOps, OpsBytes, OpsLength, MessageBytes, Encoded, Buffered, ExpectedOps, Known, AllKnown,
      Serialisable, CutHeader, CutTimestamp, ZeroBytes;
    var pad := ZeroBytes(PAYLOAD_SIZE - |Encoded(m)|);
    MessageOfOps(m);
    KnownCount(m.ops);
    OpsBackCounted(m.ops, |m.ops|, pad);
    var k := |m.ops| - |Known(m.ops)|;
    ZeroOps(k, PAYLOAD_SIZE - |Encoded(m)|);
    if k == 0 {
      NothingAfter(ExpectedOps(Known(m.ops)));
    } else if k == 1 {
      OneSkipped(m.ops);
    } else {
      TwoSkipped(m.ops);
    }
  }

  /** An unknown operation in front of a known one: it is not written, and an empty one is read behind. */
  lemma UnknownFirst()
    ensures var ops := [Unknown(0x105), SpliceNull];
      && Serialisable(ops)
      && ParseOps(2, OpsBytes(ops, ZeroBytes(8)), OpsLength(ops)) == OpsOk([Op(0x102, [], SpliceNull), EXTRA])
  {
    hide OpsBytes, OpsLength, ParseOps;
    var ops := [Unknown(0x105), SpliceNull];
    assert Known(ops) == [SpliceNull];
    OpsBackCounted(ops, 2, ZeroBytes(8));
    ZeroOps(1, 8);
  }

  lemma TwoSkipped(ops: seq<Body>)
    requires |Known(ops)| + 2 <= |ops|
    ensures !Faithful(ops)
  {
    KnownCount(ops);
    if AllKnown(ops[..|ops| - 1]) {
      KnownCount(ops[..|ops| - 1]);
      KnownPrefix(ops);
    }
  }

  lemma {:induction false} KnownPrefix(ops: seq<Body>)
    requires ops != []
    ensures |Known(ops)| >= |Known(ops[..|ops| - 1])|
  {
    if |ops| == 1 {
    } else {
      assert ops[1..][..|ops| - 2] == ops[..|ops| - 1][1..];
      KnownPrefix(ops[1..]);
    }
  }
}

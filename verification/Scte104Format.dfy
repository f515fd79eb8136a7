/** The bytes of an SCTE 104 multiple operation message, and the parser as a function of them. */
module Scte104Format {
  import opened Bits
  import opened Wrappers

  const PAYLOAD_SIZE := 2000

  datatype Timestamp =
    | Utc(seconds: nat, microseconds: nat)
    | Vitc(hours: nat, minutes: nat, secs: nat, frames: nat)
    | Gpi(number: nat, edge: nat)
    | Untimed(timeType: byte)

  /** The ten operation identifiers the encoder has a serialiser for. */
  predicate IsKnownId(id: nat)
  {
    id in {0x101, 0x102, 0x104, 0x108, 0x109, 0x10a, 0x10b, 0x10c, 0x10f, 0x110}
  }

  type UnknownId = x: word | !IsKnownId(x) witness 0

  /** The union members; the operation ID says which one is meant. */
  datatype Body =
    | Splice(insertType: nat, eventId: nat, programId: nat, spliceRoll: nat, brkDuration: nat,
             availNum: nat, availsExpected: nat, autoReturn: nat)
    | SpliceNull
    | TimeSignal(signalRoll: nat)
    | Descriptor(count: nat, bytes: seq<byte>)
    | Dtmf(dtmfRoll: nat, chars: seq<byte>)
    | Avail(ids: seq<nat>)
    | Segmentation(segEvent: nat, cancel: nat, duration: nat, upidType: nat, upid: seq<byte>, seg: SegmentInfo)
    | Proprietary(id: nat, command: nat, payload: seq<byte>)
    | Tier(tier: nat)
    | TimeDescriptor(taiSeconds: nat, taiNs: nat, utcOffset: nat)
    | Unknown(opId: UnknownId)

  datatype SegmentInfo = SegmentInfo(
    typeId: nat, number: nat, expected: nat, extension: nat, deliveryNotRestricted: nat,
    webAllowed: nat, noBlackout: nat, archiveAllowed: nat, device: nat)

  datatype Header = Header(protocol: nat, asIndex: nat, messageNumber: nat, dpiPid: nat, scte35Protocol: nat)

  datatype Message = Message(header: Header, timestamp: Timestamp, ops: seq<Body>)

  function OpId(b: Body): word
  {
    match b
    case Splice(_, _, _, _, _, _, _, _) => 0x101
    case SpliceNull => 0x102
    case TimeSignal(_) => 0x104
    case Descriptor(_, _) => 0x108
    case Dtmf(_, _) => 0x109
    case Avail(_) => 0x10a
    case Segmentation(_, _, _, _, _, _) => 0x10b
    case Proprietary(_, _, _) => 0x10c
    case Tier(_) => 0x10f
    case TimeDescriptor(_, _, _) => 0x110
    case Unknown(id) => id
  }

  // ---- wire format ------------------------------------------------------------------------

  /** v on k bytes, then tail. */
  function Be(v: nat, k: nat, tail: seq<byte>): (s: seq<byte>)
    ensures |s| == k + |tail|
  {
    BigEndian(v, k) + tail
  }

  function IdsBytes(ids: seq<nat>, tail: seq<byte>): (s: seq<byte>)
    ensures |s| == 4 * |ids| + |tail|
  {
    if ids == [] then tail else Be(ids[0], 4, IdsBytes(ids[1..], tail))
  }

  function SegmentBytes(s: SegmentInfo, tail: seq<byte>): (r: seq<byte>)
    ensures |r| == 9 + |tail|
  {
    Be(s.typeId, 1, Be(s.number, 1, Be(s.expected, 1, Be(s.extension, 1, Be(s.deliveryNotRestricted, 1,
    Be(s.webAllowed, 1, Be(s.noBlackout, 1, Be(s.archiveAllowed, 1, Be(s.device, 1, tail)))))))))
  }

  function BodyBytes(b: Body): seq<byte>
  {
    match b
    case Splice(insertType, eventId, programId, preRoll, brkDuration, availNum, availsExpected, autoReturn) =>
      Be(insertType, 1, Be(eventId, 4, Be(programId, 2, Be(preRoll, 2, Be(brkDuration, 2,
      Be(availNum, 1, Be(availsExpected, 1, Be(autoReturn, 1, []))))))))
    case SpliceNull => []
    case TimeSignal(preRoll) => Be(preRoll, 2, [])
    case Descriptor(count, bytes) => Be(count, 1, bytes)
    case Dtmf(preRoll, chars) => Be(preRoll, 1, Be(|chars|, 1, chars))
    case Avail(ids) => Be(|ids|, 1, IdsBytes(ids, []))
    case Segmentation(event, cancel, duration, upidType, upid, seg) =>
      Be(event, 4, Be(cancel, 1, Be(duration, 2, Be(upidType, 1, Be(|upid|, 1, upid + SegmentBytes(seg, []))))))
    case Proprietary(id, command, data) => Be(id, 4, Be(command, 1, data))
    case Tier(tier) => Be(tier % 0x1000, 2, [])
    case TimeDescriptor(seconds, ns, offset) => Be(seconds, 6, Be(ns, 4, Be(offset, 2, [])))
    case Unknown(_) => []
  }

  function OpsLength(ops: seq<Body>): nat
  {
    if ops == [] then 0
    else (if ops[0].Unknown? then 0 else 4 + |BodyBytes(ops[0])|) + OpsLength(ops[1..])
  }

  /** Unknown operations are skipped, though the operation count includes them. */
  function OpsBytes(ops: seq<Body>, tail: seq<byte>): (s: seq<byte>)
    ensures |s| == OpsLength(ops) + |tail|
  {
    if ops == [] then tail
    else if ops[0].Unknown? then OpsBytes(ops[1..], tail)
    else Be(OpId(ops[0]), 2, Be(|BodyBytes(ops[0])|, 2, BodyBytes(ops[0]) + OpsBytes(ops[1..], tail)))
  }

  function TimestampBytes(t: Timestamp, tail: seq<byte>): seq<byte>
  {
    match t
    case Utc(seconds, microseconds) => Be(1, 1, Be(seconds, 4, Be(microseconds, 2, tail)))
    case Vitc(hours, minutes, secs, frames) => Be(2, 1, Be(hours, 1, Be(minutes, 1, Be(secs, 1, Be(frames, 1, tail)))))
    case Gpi(number, edge) => Be(3, 1, Be(number, 1, Be(edge, 1, tail)))
    case Untimed(timeType) => Be(timeType, 1, tail)
  }

  function HeaderBytes(h: Header, size: nat, tail: seq<byte>): (s: seq<byte>)
    ensures |s| == 10 + |tail|
  {
    Be(0xffff, 2, Be(size, 2, Be(h.protocol, 1, Be(h.asIndex, 1, Be(h.messageNumber, 1, Be(h.dpiPid, 2,
    Be(h.scte35Protocol, 1, tail)))))))
  }

  function MessageBytes(m: Message, size: nat): seq<byte>
  {
    HeaderBytes(m.header, size, TimestampBytes(m.timestamp, Be(|m.ops|, 1, OpsBytes(m.ops, []))))
  }

  /** What a body holds once its fields have been cut to their width on the wire. */
  function Cut(b: Body): Body
  {
    match b
    case Splice(insertType, eventId, programId, preRoll, brkDuration, availNum, availsExpected, autoReturn) =>
      Splice(insertType % 0x100, eventId % 0x1_0000_0000, programId % 0x1_0000, preRoll % 0x1_0000,
             brkDuration % 0x1_0000, availNum % 0x100, availsExpected % 0x100, autoReturn % 0x100)
    case SpliceNull => SpliceNull
    case TimeSignal(preRoll) => TimeSignal(preRoll % 0x1_0000)
    case Descriptor(count, bytes) => Descriptor(count % 0x100, bytes)
    case Dtmf(preRoll, chars) => Dtmf(preRoll % 0x100, chars)
    case Avail(ids) => Avail(CutIds(ids))
    case Segmentation(event, cancel, duration, upidType, upid, s) =>
      Segmentation(event % 0x1_0000_0000, cancel % 0x100, duration % 0x1_0000, upidType % 0x100, upid,
        SegmentInfo(s.typeId % 0x100, s.number % 0x100, s.expected % 0x100, s.extension % 0x100,
          s.deliveryNotRestricted % 0x100, s.webAllowed % 0x100, s.noBlackout % 0x100, s.archiveAllowed % 0x100,
          s.device % 0x100))
    case Proprietary(id, command, data) => Proprietary(id % 0x1_0000_0000, command % 0x100, data)
    case Tier(tier) => Tier(tier % 0x1000)
    case TimeDescriptor(seconds, ns, offset) =>
      TimeDescriptor(seconds % 0x1_0000_0000_0000, ns % 0x1_0000_0000, offset % 0x1_0000)
    case Unknown(id) => Unknown(id)
  }

  function CutIds(ids: seq<nat>): (r: seq<nat>)
    ensures |r| == |ids|
  {
    if ids == [] then [] else [ids[0] % 0x1_0000_0000] + CutIds(ids[1..])
  }

  function CutTimestamp(t: Timestamp): Timestamp
  {
    match t
    case Utc(seconds, microseconds) => Utc(seconds % 0x1_0000_0000, microseconds % 0x1_0000)
    case Vitc(hours, minutes, secs, frames) => Vitc(hours % 0x100, minutes % 0x100, secs % 0x100, frames % 0x100)
    case Gpi(number, edge) => Gpi(number % 0x100, edge % 0x100)
    case Untimed(timeType) => Untimed(timeType)
  }

  function CutHeader(h: Header): Header
  {
    Header(h.protocol % 0x100, h.asIndex % 0x100, h.messageNumber % 0x100, h.dpiPid % 0x1_0000,
           h.scte35Protocol % 0x100)
  }

  // ---- the parser ---------------------------------------------------------------------------

  function ReadIds(n: nat, r: seq<byte>): (ids: seq<nat>)
    requires |r| >= 4 * n
    ensures |ids| == n
  {
    if n == 0 then [] else [BigEndianValue(r[..4])] + ReadIds(n - 1, r[4..])
  }

  function ZeroBytes(n: nat): (s: seq<byte>)
    ensures |s| == n
  {
    seq(n, i => 0)
  }

  function ParseSplice(r0: seq<byte>): Body
    requires |r0| >= 14
  {
    var insertType, r1 := BigEndianValue(r0[..1]), r0[1..];
    var eventId, r2 := BigEndianValue(r1[..4]), r1[4..];
    var programId, r3 := BigEndianValue(r2[..2]), r2[2..];
    var preRoll, r4 := BigEndianValue(r3[..2]), r3[2..];
    var brkDuration, r5 := BigEndianValue(r4[..2]), r4[2..];
    var availNum, r6 := BigEndianValue(r5[..1]), r5[1..];
    var availsExpected, r7 := BigEndianValue(r6[..1]), r6[1..];
    Splice(insertType, eventId, programId, preRoll, brkDuration, availNum, availsExpected, BigEndianValue(r7[..1]))
  }

  function ParseSegment(r0: seq<byte>): SegmentInfo
    requires |r0| >= 9
  {
    var typeId, r1 := BigEndianValue(r0[..1]), r0[1..];
    var number, r2 := BigEndianValue(r1[..1]), r1[1..];
    var expected, r3 := BigEndianValue(r2[..1]), r2[1..];
    var extension, r4 := BigEndianValue(r3[..1]), r3[1..];
    var delivery, r5 := BigEndianValue(r4[..1]), r4[1..];
    var web, r6 := BigEndianValue(r5[..1]), r5[1..];
    var blackout, r7 := BigEndianValue(r6[..1]), r6[1..];
    var archive, r8 := BigEndianValue(r7[..1]), r7[1..];
    SegmentInfo(typeId, number, expected, extension, delivery, web, blackout, archive, BigEndianValue(r8[..1]))
  }

  /** None stands for reads past the operation's data, which the C code does not define. */
  function ParseSegmentation(r0: seq<byte>): Option<Body>
  {
    if |r0| < 9 then None else
    var event, r1 := BigEndianValue(r0[..4]), r0[4..];
    var cancel, r2 := BigEndianValue(r1[..1]), r1[1..];
    var duration, r3 := BigEndianValue(r2[..2]), r2[2..];
    var upidType, r4 := BigEndianValue(r3[..1]), r3[1..];
    var n, r5 := BigEndianValue(r4[..1]), r4[1..];
    if |r5| < n + 9 then None
    else Some(Segmentation(event, cancel, duration, upidType, r5[..n], ParseSegment(r5[n..])))
  }

  function ParseBody(id: word, r: seq<byte>): Option<Body>
  {
    if id == 0x101 then if |r| < 14 then None else Some(ParseSplice(r))
    else if id == 0x102 then Some(SpliceNull)
    else if id == 0x104 then if |r| < 2 then None else Some(TimeSignal(BigEndianValue(r[..2])))
    else if id == 0x108 then
      if |r| < 1 then None
      else Some(Descriptor(BigEndianValue(r[..1]), if |r| - 1 < 255 then r[1..] else ZeroBytes(|r| - 1)))
    else if id == 0x109 then
      if |r| < 2 then None else
      var preRoll, r1 := BigEndianValue(r[..1]), r[1..];
      var n, r2 := BigEndianValue(r1[..1]), r1[1..];
      if n <= 7 then if |r2| < n then None else Some(Dtmf(preRoll, r2[..n]))
      else Some(Dtmf(preRoll, ZeroBytes(n)))
    else if id == 0x10a then
      if |r| < 1 then None else
      var n := BigEndianValue(r[..1]);
      if |r| - 1 < 4 * n then None else Some(Avail(ReadIds(n, r[1..])))
    else if id == 0x10b then ParseSegmentation(r)
    else if id == 0x10c then
      if |r| < 5 || |r| - 5 > 255 then None
      else Some(Proprietary(BigEndianValue(r[..4]), BigEndianValue(r[4..][..1]), r[4..][1..]))
    else if id == 0x10f then if |r| < 2 then None else Some(Tier(BigEndianValue(r[..2]) % 0x1000))
    else if id == 0x110 then
      if |r| < 12 then None
      else Some(TimeDescriptor(BigEndianValue(r[..6]), BigEndianValue(r[6..][..4]), BigEndianValue(r[6..][4..][..2])))
    else Some(Unknown(id))
  }

  datatype Op = Op(id: word, data: seq<byte>, body: Body)

  datatype OpsResult = OpsOk(ops: seq<Op>) | OpsBad | OpsOverread

  function ConsOp(o: Op, r: OpsResult): OpsResult
  {
    if r.OpsOk? then OpsOk([o] + r.ops) else r
  }

  function Word2(s: seq<byte>): (w: word)
    requires |s| == 2
    ensures w == BigEndianValue(s)
  {
    assert BigEndianValue(s[..1]) == s[0];
    BigEndianValue(s)
  }

  datatype OpResult = OpOk(op: Op, rest: seq<byte>) | OpBad | OpOverread

  /** One operation from the buffer bytes r, of which left are still part of the message.
      The length test leaves out the four bytes of the operation header. */
  function ParseOp(r: seq<byte>, left: int): (res: OpResult)
    ensures res.OpOk? ==> |res.op.data| == |r| - 4 - |res.rest|
  {
    if |r| < 4 then OpOverread
    else
      var id, len := Word2(r[..2]), Word2(r[2..][..2]);
      var r2 := r[2..][2..];
      if len > left then OpBad
      else if |r2| < len then OpOverread
      else
        var body := ParseBody(id, r2[..len]);
        if body.None? then OpOverread else OpOk(Op(id, r2[..len], body.value), r2[len..])
  }

  function ParseOps(n: nat, r: seq<byte>, left: int): OpsResult
  {
    if n == 0 then OpsOk([])
    else
      match ParseOp(r, left)
      case OpBad => OpsBad
      case OpOverread => OpsOverread
      case OpOk(op, rest) => ConsOp(op, ParseOps(n - 1, rest, left - 4 - |op.data|))
  }

  function ParseTimestamp(r0: seq<byte>): (Timestamp, seq<byte>)
    requires |r0| >= 7
  {
    var t, r1 := BigEndianValue(r0[..1]), r0[1..];
    if t == 1 then (Utc(BigEndianValue(r1[..4]), BigEndianValue(r1[4..][..2])), r1[4..][2..])
    else if t == 2 then
      (Vitc(BigEndianValue(r1[..1]), BigEndianValue(r1[1..][..1]), BigEndianValue(r1[1..][1..][..1]),
            BigEndianValue(r1[1..][1..][1..][..1])), r1[1..][1..][1..][1..])
    else if t == 3 then (Gpi(BigEndianValue(r1[..1]), BigEndianValue(r1[1..][..1])), r1[1..][1..])
    else (Untimed(r0[0]), r1)
  }

  datatype Decoded = Decoded(header: Header, messageSize: nat, timestamp: Timestamp, ops: seq<Op>)

  datatype Result = Ok(message: Decoded) | Bad | Overread

  /** The parser on the zero-filled payload buffer, of which the first length bytes were received. */
  function ParseMessage(p: seq<byte>, length: nat): Result
    requires |p| == PAYLOAD_SIZE
  {
    if BigEndianValue(p[..2]) != 0xffff || length < 10 then Bad
    else
      var r1 := p[2..];
      var size, r2 := BigEndianValue(r1[..2]), r1[2..];
      var protocol, r3 := BigEndianValue(r2[..1]), r2[1..];
      var asIndex, r4 := BigEndianValue(r3[..1]), r3[1..];
      var number, r5 := BigEndianValue(r4[..1]), r4[1..];
      var dpiPid, r6 := BigEndianValue(r5[..2]), r5[2..];
      var scte35, r7 := BigEndianValue(r6[..1]), r6[1..];
      if size > length then Bad
      else ParseBodyOf(Header(protocol, asIndex, number, dpiPid, scte35), size, r7, length)
  }

  function ParseBodyOf(h: Header, size: nat, r: seq<byte>, length: nat): Result
    requires |r| == PAYLOAD_SIZE - 10
  {
    var (timestamp, r1) := ParseTimestamp(r);
    if |r1| < 1 then Overread
    else
      var n, r2 := BigEndianValue(r1[..1]), r1[1..];
      match ParseOps(n, r2, length - (PAYLOAD_SIZE - |r2|))
      case OpsOk(ops) => Ok(Decoded(h, size, timestamp, ops))
      case OpsBad => Bad
      case OpsOverread => Overread
  }

  // ---- reading back -----------------------------------------------------------------------

  lemma Back(v: nat, k: nat, tail: seq<byte>)
    ensures BigEndianValue(Be(v, k, tail)[..k]) == v % Pow2(8 * k)
    ensures Be(v, k, tail)[k..] == tail
  {
    assert Be(v, k, tail)[..k] == BigEndian(v, k);
    BigEndianBack(v, k);
  }

  lemma Back1(v: nat, tail: seq<byte>)
    ensures BigEndianValue(Be(v, 1, tail)[..1]) == v % 0x100
    ensures Be(v, 1, tail)[1..] == tail
  {
    Back(v, 1, tail);
    BytePow2();
  }

  lemma Back2(v: nat, tail: seq<byte>)
    ensures BigEndianValue(Be(v, 2, tail)[..2]) == v % 0x1_0000
    ensures Be(v, 2, tail)[2..] == tail
  {
    Back(v, 2, tail);
    BytePow2();
  }

  lemma Back4(v: nat, tail: seq<byte>)
    ensures BigEndianValue(Be(v, 4, tail)[..4]) == v % 0x1_0000_0000
    ensures Be(v, 4, tail)[4..] == tail
  {
    Back(v, 4, tail);
    BytePow2();
  }

  lemma Back6(v: nat, tail: seq<byte>)
    ensures BigEndianValue(Be(v, 6, tail)[..6]) == v % 0x1_0000_0000_0000
    ensures Be(v, 6, tail)[6..] == tail
  {
    Back(v, 6, tail);
    BytePow2();
  }

  /** A known operation whose body fits the 255-byte buffer it is serialised in. */
  predicate Encodable(b: Body)
  {
    match b
    case Descriptor(_, bytes) => |bytes| <= 254
    case Dtmf(_, chars) => |chars| <= 7
    case Avail(ids) => |ids| <= 63
    case Segmentation(_, _, _, _, upid, _) => |upid| <= 237
    case Proprietary(_, _, data) => |data| <= 250
    case Unknown(_) => false
    case _ => true
  }

  lemma EncodableFits(b: Body)
    requires Encodable(b)
    ensures |BodyBytes(b)| <= 255
  {
  }

  lemma SpliceBack(b: Body)
    requires b.Splice?
    ensures |BodyBytes(b)| == 14 && ParseSplice(BodyBytes(b)) == Cut(b)
  {
    hide Be, BigEndianValue;
    var r7 := Be(b.autoReturn, 1, []);
    var r6 := Be(b.availsExpected, 1, r7);
    var r5 := Be(b.availNum, 1, r6);
    var r4 := Be(b.brkDuration, 2, r5);
    var r3 := Be(b.spliceRoll, 2, r4);
    var r2 := Be(b.programId, 2, r3);
    var r1 := Be(b.eventId, 4, r2);
    Back1(b.insertType, r1);
    Back4(b.eventId, r2);
    Back2(b.programId, r3);
    Back2(b.spliceRoll, r4);
    Back2(b.brkDuration, r5);
    Back1(b.availNum, r6);
    Back1(b.availsExpected, r7);
    Back1(b.autoReturn, []);
  }

  lemma SegmentBack(s: SegmentInfo)
    ensures ParseSegment(SegmentBytes(s, [])) == SegmentInfo(
      s.typeId % 0x100, s.number % 0x100, s.expected % 0x100, s.extension % 0x100, s.deliveryNotRestricted % 0x100,
      s.webAllowed % 0x100, s.noBlackout % 0x100, s.archiveAllowed % 0x100, s.device % 0x100)
  {
    hide Be, BigEndianValue;
    var r8 := Be(s.device, 1, []);
    var r7 := Be(s.archiveAllowed, 1, r8);
    var r6 := Be(s.noBlackout, 1, r7);
    var r5 := Be(s.webAllowed, 1, r6);
    var r4 := Be(s.deliveryNotRestricted, 1, r5);
    var r3 := Be(s.extension, 1, r4);
    var r2 := Be(s.expected, 1, r3);
    var r1 := Be(s.number, 1, r2);
    Back1(s.typeId, r1);
    Back1(s.number, r2);
    Back1(s.expected, r3);
    Back1(s.extension, r4);
    Back1(s.deliveryNotRestricted, r5);
    Back1(s.webAllowed, r6);
    Back1(s.noBlackout, r7);
    Back1(s.archiveAllowed, r8);
    Back1(s.device, []);
  }

  lemma SegmentationBack(b: Body)
    requires b.Segmentation? && |b.upid| <= 237
    ensures ParseSegmentation(BodyBytes(b)) == Some(Cut(b))
  {
    hide Be, BigEndianValue, SegmentBytes, ParseSegment;
    var r6 := SegmentBytes(b.seg, []);
    var r5 := b.upid + r6;
    var r4 := Be(|b.upid|, 1, r5);
    var r3 := Be(b.upidType, 1, r4);
    var r2 := Be(b.duration, 2, r3);
    var r1 := Be(b.cancel, 1, r2);
    Back4(b.segEvent, r1);
    Back1(b.cancel, r2);
    Back2(b.duration, r3);
    Back1(b.upidType, r4);
    Back1(|b.upid|, r5);
    assert r5[..|b.upid|] == b.upid && r5[|b.upid|..] == r6;
    SegmentBack(b.seg);
  }

  lemma {:induction false} IdsBack(ids: seq<nat>)
    ensures ReadIds(|ids|, IdsBytes(ids, [])) == CutIds(ids)
  {
    if ids == [] {
    } else {
      hide Be, BigEndianValue;
      Back4(ids[0], IdsBytes(ids[1..], []));
      IdsBack(ids[1..]);
    }
  }

  lemma ListBodyBack(b: Body)
    requires Encodable(b) && (b.Dtmf? || b.Avail? || b.Descriptor?)
    ensures ParseBody(OpId(b), BodyBytes(b)) == Some(Cut(b))
  {
    hide Be, BigEndianValue, ReadIds, IdsBytes;
    match b
    case Dtmf(preRoll, chars) =>
      Back1(preRoll, Be(|chars|, 1, chars));
      Back1(|chars|, chars);
      assert chars[..|chars|] == chars;
    case Avail(ids) =>
      Back1(|ids|, IdsBytes(ids, []));
      IdsBack(ids);
    case Descriptor(count, bytes) =>
      Back1(count, bytes);
  }

  lemma PlainBodyBack(b: Body)
    requires Encodable(b) && (b.SpliceNull? || b.TimeSignal? || b.Proprietary? || b.Tier? || b.TimeDescriptor?)
    ensures ParseBody(OpId(b), BodyBytes(b)) == Some(Cut(b))
  {
    hide Be, BigEndianValue;
    match b
    case SpliceNull =>
    case TimeSignal(preRoll) =>
      Back2(preRoll, []);
    case Proprietary(id, command, data) =>
      Back4(id, Be(command, 1, data));
      Back1(command, data);
    case Tier(tier) =>
      Back2(tier % 0x1000, []);
    case TimeDescriptor(seconds, ns, offset) =>
      Back6(seconds, Be(ns, 4, Be(offset, 2, [])));
      Back4(ns, Be(offset, 2, []));
      Back2(offset, []);
  }

  /** Every operation body survives, cut to the width of its fields. */
  lemma BodyBack(b: Body)
    requires Encodable(b)
    ensures ParseBody(OpId(b), BodyBytes(b)) == Some(Cut(b))
  {
    hide BodyBytes, ParseSplice, ParseSegmentation, Cut;
    match b
    case Splice(_, _, _, _, _, _, _, _) => SpliceBack(b);
    case Segmentation(_, _, _, _, _, _) => SegmentationBack(b);
    case Dtmf(_, _) => ListBodyBack(b);
    case Avail(_) => ListBodyBack(b);
    case Descriptor(_, _) => ListBodyBack(b);
    case _ => PlainBodyBack(b);
  }

  predicate AllEncodable(ops: seq<Body>)
  {
    forall i :: 0 <= i < |ops| ==> Encodable(ops[i])
  }

  /** The operations as the parser reports them. */
  function ExpectedOps(ops: seq<Body>): seq<Op>
  {
    if ops == [] then [] else [Op(OpId(ops[0]), BodyBytes(ops[0]), Cut(ops[0]))] + ExpectedOps(ops[1..])
  }

  lemma OpBack(b: Body, rest: seq<byte>, left: int)
    requires Encodable(b) && left >= |BodyBytes(b)|
    ensures var body := BodyBytes(b);
      ParseOp(Be(OpId(b), 2, Be(|body|, 2, body + rest)), left) == OpOk(Op(OpId(b), body, Cut(b)), rest)
  {
    hide Encodable, Be, BigEndianValue, ParseBody, BodyBytes, Cut, OpId;
    EncodableFits(b);
    BodyBack(b);
    var body := BodyBytes(b);
    Back2(OpId(b), Be(|body|, 2, body + rest));
    Back2(|body|, body + rest);
    assert (body + rest)[..|body|] == body && (body + rest)[|body|..] == rest;
  }

  lemma FirstOp(ops: seq<Body>)
    requires ops != [] && AllEncodable(ops)
    ensures Encodable(ops[0]) && AllEncodable(ops[1..]) && !ops[0].Unknown?
  {
  }

  /** The operation list survives; pad is what fills the buffer behind the message. */
  lemma {:induction false} OpsBack(ops: seq<Body>, pad: seq<byte>, left: int)
    requires AllEncodable(ops) && left >= OpsLength(ops)
    ensures ParseOps(|ops|, OpsBytes(ops, pad), left) == OpsOk(ExpectedOps(ops))
  {
    hide AllEncodable, Encodable, Be, ParseOp, BodyBytes, Cut, OpId;
    if ops == [] {
    } else {
      FirstOp(ops);
      OpBack(ops[0], OpsBytes(ops[1..], pad), left);
      OpsBack(ops[1..], pad, left - 4 - |BodyBytes(ops[0])|);
    }
  }

  lemma TimestampBack(t: Timestamp, tail: seq<byte>)
    requires t.Untimed? ==> t.timeType !in {1, 2, 3}
    requires |TimestampBytes(t, tail)| >= 7
    ensures ParseTimestamp(TimestampBytes(t, tail)) == (CutTimestamp(t), tail)
  {
    hide Be, BigEndianValue;
    match t
    case Utc(seconds, microseconds) =>
      Back1(1, Be(seconds, 4, Be(microseconds, 2, tail)));
      Back4(seconds, Be(microseconds, 2, tail));
      Back2(microseconds, tail);
    case Vitc(hours, minutes, secs, frames) =>
      Back1(2, Be(hours, 1, Be(minutes, 1, Be(secs, 1, Be(frames, 1, tail)))));
      Back1(hours, Be(minutes, 1, Be(secs, 1, Be(frames, 1, tail))));
      Back1(minutes, Be(secs, 1, Be(frames, 1, tail)));
      Back1(secs, Be(frames, 1, tail));
      Back1(frames, tail);
    case Gpi(number, edge) =>
      Back1(3, Be(number, 1, Be(edge, 1, tail)));
      Back1(number, Be(edge, 1, tail));
      Back1(edge, tail);
    case Untimed(timeType) =>
      Back1(timeType, tail);
      FirstByte(timeType, tail);
  }

  lemma FirstByte(v: byte, tail: seq<byte>)
    ensures Be(v, 1, tail)[0] == v
  {
    assert BigEndian(v, 1) == [] + [v % 256];
  }

  lemma HeaderBack(h: Header, size: nat, tail: seq<byte>, length: nat)
    requires |tail| == PAYLOAD_SIZE - 10 && 10 <= length && size <= length && size < 0x1_0000
    ensures ParseMessage(HeaderBytes(h, size, tail), length) == ParseBodyOf(CutHeader(h), size, tail, length)
  {
    hide Be, BigEndianValue, ParseBodyOf;
    var r6 := Be(h.scte35Protocol, 1, tail);
    var r5 := Be(h.dpiPid, 2, r6);
    var r4 := Be(h.messageNumber, 1, r5);
    var r3 := Be(h.asIndex, 1, r4);
    var r2 := Be(h.protocol, 1, r3);
    var r1 := Be(size, 2, r2);
    Back2(0xffff, r1);
    Back2(size, r2);
    Back1(h.protocol, r3);
    Back1(h.asIndex, r4);
    Back1(h.messageNumber, r5);
    Back2(h.dpiPid, r6);
    Back1(h.scte35Protocol, tail);
  }

  /** The message as the parser's buffer holds it: its bytes, then zeros. */
  function Buffered(s: seq<byte>): (p: seq<byte>)
    requires |s| <= PAYLOAD_SIZE
    ensures |p| == PAYLOAD_SIZE
  {
    s + ZeroBytes(PAYLOAD_SIZE - |s|)
  }

  /** A message of known, encodable operations that fits the buffer. */
  predicate Sendable(m: Message)
  {
    && AllEncodable(m.ops) && |m.ops| <= 255
    && (m.timestamp.Untimed? ==> m.timestamp.timeType !in {1, 2, 3})
    && |MessageBytes(m, 0)| <= PAYLOAD_SIZE
  }

  lemma BeTail(v: nat, k: nat, a: seq<byte>, b: seq<byte>)
    ensures Be(v, k, a) + b == Be(v, k, a + b)
  {
    hide BigEndian;
  }

  lemma TimestampTail(t: Timestamp, a: seq<byte>, b: seq<byte>)
    ensures TimestampBytes(t, a) + b == TimestampBytes(t, a + b)
  {
    hide Be;
    match t
    case Utc(seconds, microseconds) =>
      BeTail(microseconds, 2, a, b);
      BeTail(seconds, 4, Be(microseconds, 2, a), b);
      BeTail(1, 1, Be(seconds, 4, Be(microseconds, 2, a)), b);
    case Vitc(hours, minutes, secs, frames) =>
      var s1, s2 := Be(frames, 1, a), Be(secs, 1, Be(frames, 1, a));
      BeTail(frames, 1, a, b);
      BeTail(secs, 1, s1, b);
      BeTail(minutes, 1, s2, b);
      BeTail(hours, 1, Be(minutes, 1, s2), b);
      BeTail(2, 1, Be(hours, 1, Be(minutes, 1, s2)), b);
    case Gpi(number, edge) =>
      BeTail(edge, 1, a, b);
      BeTail(number, 1, Be(edge, 1, a), b);
      BeTail(3, 1, Be(number, 1, Be(edge, 1, a)), b);
    case Untimed(timeType) =>
      BeTail(timeType, 1, a, b);
  }

  lemma {:induction false} OpsTail(ops: seq<Body>, a: seq<byte>, b: seq<byte>)
    ensures OpsBytes(ops, a) + b == OpsBytes(ops, a + b)
  {
    hide BodyBytes, BigEndian, Be, OpId;
    if ops == [] {
    } else {
      OpsTail(ops[1..], a, b);
      if !ops[0].Unknown? {
        var body, more := BodyBytes(ops[0]), OpsBytes(ops[1..], a);
        assert (body + more) + b == body + (more + b);
        BeTail(|body|, 2, body + more, b);
        BeTail(OpId(ops[0]), 2, Be(|body|, 2, body + more), b);
      }
    }
  }

  lemma HeaderTail(h: Header, size: nat, a: seq<byte>, b: seq<byte>)
    ensures HeaderBytes(h, size, a) + b == HeaderBytes(h, size, a + b)
  {
    hide Be;
    var r6 := Be(h.scte35Protocol, 1, a);
    var r5 := Be(h.dpiPid, 2, r6);
    var r4 := Be(h.messageNumber, 1, r5);
    var r3 := Be(h.asIndex, 1, r4);
    var r2 := Be(h.protocol, 1, r3);
    BeTail(h.scte35Protocol, 1, a, b);
    BeTail(h.dpiPid, 2, r6, b);
    BeTail(h.messageNumber, 1, r5, b);
    BeTail(h.asIndex, 1, r4, b);
    BeTail(h.protocol, 1, r3, b);
    BeTail(size, 2, r2, b);
    BeTail(0xffff, 2, Be(size, 2, r2), b);
  }

  /** The message with whatever fills the parser's buffer behind it. */
  function PaddedMessage(m: Message, size: nat, pad: seq<byte>): seq<byte>
  {
    HeaderBytes(m.header, size, TimestampBytes(m.timestamp, Be(|m.ops|, 1, OpsBytes(m.ops, pad))))
  }

  lemma MessageTail(m: Message, size: nat, pad: seq<byte>)
    ensures MessageBytes(m, size) + pad == PaddedMessage(m, size, pad)
  {
    hide Be, OpsBytes, TimestampBytes, HeaderBytes;
    assert [] + pad == pad;
    OpsTail(m.ops, [], pad);
    BeTail(|m.ops|, 1, OpsBytes(m.ops, []), pad);
    TimestampTail(m.timestamp, Be(|m.ops|, 1, OpsBytes(m.ops, [])), pad);
    HeaderTail(m.header, size, TimestampBytes(m.timestamp, Be(|m.ops|, 1, OpsBytes(m.ops, []))), pad);
  }

  lemma MessageLength(m: Message, size: nat)
    ensures |MessageBytes(m, size)| == |MessageBytes(m, 0)| >= 12
  {
    hide OpsBytes, HeaderBytes, BigEndian;
  }

  /** The encoded message: bytes 2 and 3 hold its own length. */
  function Encoded(m: Message): (s: seq<byte>)
    ensures |s| == |MessageBytes(m, 0)|
  {
    MessageLength(m, |MessageBytes(m, 0)|);
    MessageBytes(m, |MessageBytes(m, 0)|)
  }

  lemma BodyOfOps(m: Message, size: nat, pad: seq<byte>, length: nat)
    requires |m.ops| <= 255
    requires m.timestamp.Untimed? ==> m.timestamp.timeType !in {1, 2, 3}
    requires length == |MessageBytes(m, 0)| && length + |pad| == PAYLOAD_SIZE
    ensures var r := TimestampBytes(m.timestamp, Be(|m.ops|, 1, OpsBytes(m.ops, pad)));
      && |r| == PAYLOAD_SIZE - 10
      && ParseBodyOf(CutHeader(m.header), size, r, length)
         == OfOps(m, size, ParseOps(|m.ops|, OpsBytes(m.ops, pad), OpsLength(m.ops)))
  {
    hide Be, OpsBytes, OpsLength, TimestampBytes, HeaderBytes, ParseTimestamp, ParseOps, CutTimestamp, CutHeader;
    MessageTail(m, 0, pad);
    var r2 := OpsBytes(m.ops, pad);
    var r1 := Be(|m.ops|, 1, r2);
    TimestampBack(m.timestamp, r1);
    Back1(|m.ops|, r2);
    LengthLeft(m, pad);
    assert length - (PAYLOAD_SIZE - |r2|) == OpsLength(m.ops);
  }

  /** The decoded message, given what the operation list decodes to. */
  function OfOps(m: Message, size: nat, ops: OpsResult): Result
  {
    match ops
    case OpsOk(os) => Ok(Decoded(CutHeader(m.header), size, CutTimestamp(m.timestamp), os))
    case OpsBad => Bad
    case OpsOverread => Overread
  }

  lemma LengthLeft(m: Message, pad: seq<byte>)
    ensures |OpsBytes(m.ops, pad)| == OpsLength(m.ops) + |pad|
  {
  }

  /** Header and timestamp survive whatever the operations are. */
  lemma MessageOfOps(m: Message)
    requires |m.ops| <= 255 && |MessageBytes(m, 0)| <= PAYLOAD_SIZE
    requires m.timestamp.Untimed? ==> m.timestamp.timeType !in {1, 2, 3}
    ensures var pad := ZeroBytes(PAYLOAD_SIZE - |Encoded(m)|);
      ParseMessage(Buffered(Encoded(m)), |Encoded(m)|)
      == OfOps(m, |Encoded(m)|, ParseOps(|m.ops|, OpsBytes(m.ops, pad), OpsLength(m.ops)))
  {
    hide Be, OpsBytes, TimestampBytes, HeaderBytes, ParseMessage, ParseBodyOf, CutHeader, ZeroBytes, OfOps;
    var n := |MessageBytes(m, 0)|;
    var pad := ZeroBytes(PAYLOAD_SIZE - n);
    MessageLength(m, n);
    MessageTail(m, n, pad);
    BodyOfOps(m, n, pad, n);
    HeaderBack(m.header, n, TimestampBytes(m.timestamp, Be(|m.ops|, 1, OpsBytes(m.ops, pad))), n);
  }

  /** Encoding then decoding gives back the header, the timestamp and every operation, field by field. */
  lemma MessageRoundTrip(m: Message)
    requires Sendable(m)
    ensures ParseMessage(Buffered(Encoded(m)), |Encoded(m)|)
      == Ok(Decoded(CutHeader(m.header), |Encoded(m)|, CutTimestamp(m.timestamp), ExpectedOps(m.ops)))
  {
    hide AllEncodable, ParseMessage, ParseOps, OpsBytes, MessageBytes, Encoded, Buffered, ExpectedOps;
    MessageOfOps(m);
    OpsBack(m.ops, ZeroBytes(PAYLOAD_SIZE - |Encoded(m)|), OpsLength(m.ops));
  }

  lemma SizeField(m: Message)
    requires |MessageBytes(m, 0)| <= PAYLOAD_SIZE
    ensures BigEndianValue(Encoded(m)[2..][..2]) == |Encoded(m)|
  {
    hide OpsBytes, TimestampBytes, BigEndian, BigEndianValue;
    var n := |MessageBytes(m, 0)|;
    MessageLength(m, n);
    var h := m.header;
    var body := TimestampBytes(m.timestamp, Be(|m.ops|, 1, OpsBytes(m.ops, [])));
    var r4 := Be(h.messageNumber, 1, Be(h.dpiPid, 2, Be(h.scte35Protocol, 1, body)));
    var r2 := Be(h.protocol, 1, Be(h.asIndex, 1, r4));
    Back2(0xffff, Be(n, 2, r2));
    Back2(n, r2);
  }
}

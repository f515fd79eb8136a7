/** SCTE 104 messages byte by byte, and what the decoder makes of messages from any source. */
module Scte104Layouts {
  import opened Bits
  import opened Wrappers
  import opened Scte104Format

  // ---- numbers in bytes ---------------------------------------------------------------------

  function Pair(v: nat): (s: seq<byte>)
    ensures |s| == 2
  {
    [(v / 0x100) % 0x100, v % 0x100]
  }

  function Quad(v: nat): (s: seq<byte>)
    ensures |s| == 4
  {
    Pair(v / 0x1_0000) + Pair(v)
  }

  function Six(v: nat): (s: seq<byte>)
    ensures |s| == 6
  {
    Pair(v / 0x1_0000_0000) + Quad(v)
  }

  lemma Be1(v: nat, tail: seq<byte>)
    ensures Be(v, 1, tail) == [v % 0x100] + tail
  {
    assert BigEndian(v, 1) == [] + [v % 0x100];
  }

  lemma Be2(v: nat, tail: seq<byte>)
    ensures Be(v, 2, tail) == Pair(v) + tail
  {
    TwoBytesOf(v);
  }

  lemma {:induction false} BigEndianJoin(v: nat, k: nat)
    ensures BigEndian(v, k + 2) == BigEndian(v / 0x1_0000, k) + Pair(v)
  {
    assert v / 0x100 / 0x100 == v / 0x1_0000;
    assert BigEndian(v, k + 2) == (BigEndian(v / 0x100 / 0x100, k) + [(v / 0x100) % 0x100]) + [v % 0x100];
  }

  lemma Be4(v: nat, tail: seq<byte>)
    ensures Be(v, 4, tail) == Quad(v) + tail
  {
    BigEndianJoin(v, 2);
    TwoBytesOf(v / 0x1_0000);
  }

  lemma Be6(v: nat, tail: seq<byte>)
    ensures Be(v, 6, tail) == Six(v) + tail
  {
    BigEndianJoin(v, 4);
    BigEndianJoin(v / 0x1_0000, 2);
    TwoBytesOf(v / 0x1_0000_0000);
    hide BigEndian, Pair;
    assert v / 0x1_0000 / 0x1_0000 == v / 0x1_0000_0000;
    assert Pair(v / 0x1_0000_0000) + Pair(v / 0x1_0000) + Pair(v) == Six(v);
  }

  // ---- the operations in bytes ----------------------------------------------------------------

  function IdsInBytes(ids: seq<nat>): seq<byte>
  {
    if ids == [] then [] else Quad(ids[0]) + IdsInBytes(ids[1..])
  }

  function SegmentInBytes(s: SegmentInfo): (r: seq<byte>)
    ensures |r| == 9
  {
    [s.typeId % 0x100, s.number % 0x100, s.expected % 0x100, s.extension % 0x100, s.deliveryNotRestricted % 0x100,
     s.webAllowed % 0x100, s.noBlackout % 0x100, s.archiveAllowed % 0x100, s.device % 0x100]
  }

  /** The data of every operation, in the order of its fields. */
  function InBytes(b: Body): seq<byte>
  {
    match b
    case Splice(insertType, eventId, programId, preRoll, brkDuration, availNum, availsExpected, autoReturn) =>
      [insertType % 0x100] + Quad(eventId) + Pair(programId) + Pair(preRoll) + Pair(brkDuration)
      + [availNum % 0x100, availsExpected % 0x100, autoReturn % 0x100]
    case SpliceNull => []
    case TimeSignal(preRoll) => Pair(preRoll)
    case Descriptor(count, bytes) => [count % 0x100] + bytes
    case Dtmf(preRoll, chars) => [preRoll % 0x100, |chars| % 0x100] + chars
    case Avail(ids) => [|ids| % 0x100] + IdsInBytes(ids)
    case Segmentation(event, cancel, duration, upidType, upid, seg) =>
      Quad(event) + [cancel % 0x100] + Pair(duration) + [upidType % 0x100, |upid| % 0x100] + upid + SegmentInBytes(seg)
    case Proprietary(id, command, data) => Quad(id) + [command % 0x100] + data
    case Tier(tier) => [(tier / 0x100) % 0x10, tier % 0x100]
    case TimeDescriptor(seconds, ns, offset) => Six(seconds) + Quad(ns) + Pair(offset)
    case Unknown(_) => []
  }

  lemma {:induction false} IdsLayout(ids: seq<nat>)
    ensures IdsBytes(ids, []) == IdsInBytes(ids)
  {
    hide Be, Quad;
    if ids == [] {
    } else {
      IdsLayout(ids[1..]);
      Be4(ids[0], IdsBytes(ids[1..], []));
    }
  }

  lemma SegmentLayout(s: SegmentInfo)
    ensures SegmentBytes(s, []) == SegmentInBytes(s)
  {
    hide Be;
    var all := SegmentInBytes(s);
    ByteAhead(all, 8);
    Be1(s.device, all[9..]);
    ByteAhead(all, 7);
    Be1(s.archiveAllowed, all[8..]);
    ByteAhead(all, 6);
    Be1(s.noBlackout, all[7..]);
    ByteAhead(all, 5);
    Be1(s.webAllowed, all[6..]);
    ByteAhead(all, 4);
    Be1(s.deliveryNotRestricted, all[5..]);
    ByteAhead(all, 3);
    Be1(s.extension, all[4..]);
    ByteAhead(all, 2);
    Be1(s.expected, all[3..]);
    ByteAhead(all, 1);
    Be1(s.number, all[2..]);
    ByteAhead(all, 0);
    Be1(s.typeId, all[1..]);
  }

  lemma ByteAhead(s: seq<byte>, i: nat)
    requires i < |s|
    ensures s[i..] == [s[i]] + s[i + 1..] && (i + 1 == |s| ==> s[i + 1..] == [])
    ensures i == 0 ==> s[i..] == s
  {
  }

  lemma SpliceLayout(b: Body)
    requires b.Splice?
    ensures BodyBytes(b) == InBytes(b)
  {
    hide Be, Pair, Quad;
    var r3: seq<byte> := [b.availNum % 0x100, b.availsExpected % 0x100, b.autoReturn % 0x100];
    Be1(b.autoReturn, []);
    Be1(b.availsExpected, [b.autoReturn % 0x100]);
    Be1(b.availNum, [b.availsExpected % 0x100, b.autoReturn % 0x100]);
    assert [b.autoReturn % 0x100] + [] == [b.autoReturn % 0x100];
    assert [b.availNum % 0x100] + [b.availsExpected % 0x100, b.autoReturn % 0x100] == r3;
    assert [b.availsExpected % 0x100] + [b.autoReturn % 0x100] == [b.availsExpected % 0x100, b.autoReturn % 0x100];
    var p, q, r, e := Pair(b.programId), Pair(b.spliceRoll), Pair(b.brkDuration), Quad(b.eventId);
    Be2(b.brkDuration, r3);
    Be2(b.spliceRoll, r + r3);
    Be2(b.programId, q + (r + r3));
    Be4(b.eventId, p + (q + (r + r3)));
    Be1(b.insertType, e + (p + (q + (r + r3))));
    SixParts([b.insertType % 0x100], e, p, q, r, r3);
  }

  lemma SixParts(a: seq<byte>, b: seq<byte>, c: seq<byte>, d: seq<byte>, e: seq<byte>, f: seq<byte>)
    ensures a + (b + (c + (d + (e + f)))) == a + b + c + d + e + f
  {
  }

  lemma SegmentationLayout(b: Body)
    requires b.Segmentation?
    ensures BodyBytes(b) == InBytes(b)
  {
    hide Be, Pair, Quad, SegmentBytes, SegmentInBytes;
    SegmentLayout(b.seg);
    var s := SegmentInBytes(b.seg);
    var e, d, n := Quad(b.segEvent), Pair(b.duration), [b.upidType % 0x100, |b.upid| % 0x100];
    Be1(|b.upid|, b.upid + s);
    Be1(b.upidType, [|b.upid| % 0x100] + (b.upid + s));
    assert [b.upidType % 0x100] + ([|b.upid| % 0x100] + (b.upid + s)) == n + (b.upid + s);
    Be2(b.duration, n + (b.upid + s));
    Be1(b.cancel, d + (n + (b.upid + s)));
    Be4(b.segEvent, [b.cancel % 0x100] + (d + (n + (b.upid + s))));
    SixParts(e, [b.cancel % 0x100], d, n, b.upid, s);
  }

  lemma OtherLayout(b: Body)
    requires !b.Splice? && !b.Segmentation?
    ensures BodyBytes(b) == InBytes(b)
  {
    hide Be, Pair, Quad, Six, IdsBytes, IdsInBytes;
    match b
    case SpliceNull =>
    case TimeSignal(preRoll) =>
      Be2(preRoll, []);
      assert Pair(preRoll) + [] == Pair(preRoll);
    case Descriptor(count, bytes) => Be1(count, bytes);
    case Dtmf(preRoll, chars) =>
      Be1(|chars|, chars);
      Be1(preRoll, [|chars| % 0x100] + chars);
      assert [preRoll % 0x100] + ([|chars| % 0x100] + chars) == [preRoll % 0x100, |chars| % 0x100] + chars;
    case Avail(ids) =>
      IdsLayout(ids);
      Be1(|ids|, IdsInBytes(ids));
    case Proprietary(id, command, data) =>
      Be1(command, data);
      Be4(id, [command % 0x100] + data);
      assert Quad(id) + ([command % 0x100] + data) == Quad(id) + [command % 0x100] + data;
    case Tier(tier) =>
      Be2(tier % 0x1000, []);
      TierBytes(tier);
      assert Pair(tier % 0x1000) + [] == Pair(tier % 0x1000);
    case TimeDescriptor(seconds, ns, offset) =>
      Be2(offset, []);
      assert Pair(offset) + [] == Pair(offset);
      Be4(ns, Pair(offset));
      Be6(seconds, Quad(ns) + Pair(offset));
      assert Six(seconds) + (Quad(ns) + Pair(offset)) == Six(seconds) + Quad(ns) + Pair(offset);
    case Unknown(_) =>
  }

  lemma TierBytes(tier: nat)
    ensures Pair(tier % 0x1000) == [(tier / 0x100) % 0x10, tier % 0x100]
  {
    var q, r := tier / 0x1000, tier % 0x1000;
    DivModUnique(tier, 0x100, 0x10 * q + r / 0x100, r % 0x100);
    DivModUnique(0x10 * q + r / 0x100, 0x10, q, r / 0x100);
  }

  /** The data of an operation is its fields one behind the other. */
  lemma BodyLayout(b: Body)
    ensures BodyBytes(b) == InBytes(b)
  {
    hide BodyBytes, InBytes;
    match b
    case Splice(_, _, _, _, _, _, _, _) => SpliceLayout(b);
    case Segmentation(_, _, _, _, _, _) => SegmentationLayout(b);
    case _ => OtherLayout(b);
  }

  /** The identifier in front of it (Table 8-4 of SCTE 104). */
  function IdBytes(b: Body): seq<byte>
    requires !b.Unknown?
  {
    match b
    case Splice(_, _, _, _, _, _, _, _) => [0x01, 0x01]
    case SpliceNull => [0x01, 0x02]
    case TimeSignal(_) => [0x01, 0x04]
    case Descriptor(_, _) => [0x01, 0x08]
    case Dtmf(_, _) => [0x01, 0x09]
    case Avail(_) => [0x01, 0x0a]
    case Segmentation(_, _, _, _, _, _) => [0x01, 0x0b]
    case Proprietary(_, _, _) => [0x01, 0x0c]
    case Tier(_) => [0x01, 0x0f]
    case TimeDescriptor(_, _, _) => [0x01, 0x10]
  }

  lemma IdLayout(b: Body)
    requires !b.Unknown?
    ensures Pair(OpId(b)) == IdBytes(b)
  {
  }

  /** The operations of a message: identifier, length and data of each that is known. */
  function OpsInBytes(ops: seq<Body>): seq<byte>
  {
    if ops == [] then []
    else if ops[0].Unknown? then OpsInBytes(ops[1..])
    else IdBytes(ops[0]) + Pair(|InBytes(ops[0])|) + InBytes(ops[0]) + OpsInBytes(ops[1..])
  }

  lemma {:induction false} OpsLayout(ops: seq<Body>)
    ensures OpsBytes(ops, []) == OpsInBytes(ops)
  {
    hide Be, Pair, BodyBytes, InBytes, IdBytes, OpId;
    if ops == [] {
    } else {
      OpsLayout(ops[1..]);
      if !ops[0].Unknown? {
        var body, more := InBytes(ops[0]), OpsInBytes(ops[1..]);
        BodyLayout(ops[0]);
        IdLayout(ops[0]);
        Be2(|body|, body + more);
        Be2(OpId(ops[0]), Pair(|body|) + (body + more));
        assert IdBytes(ops[0]) + (Pair(|body|) + (body + more)) == IdBytes(ops[0]) + Pair(|body|) + body + more;
      }
    }
  }

  // ---- the message in bytes -------------------------------------------------------------------

  function TimeInBytes(t: Timestamp): seq<byte>
  {
    match t
    case Utc(seconds, microseconds) => [0x01] + Quad(seconds) + Pair(microseconds)
    case Vitc(hours, minutes, secs, frames) => [0x02, hours % 0x100, minutes % 0x100, secs % 0x100, frames % 0x100]
    case Gpi(number, edge) => [0x03, number % 0x100, edge % 0x100]
    case Untimed(timeType) => [timeType]
  }

  lemma TimeLayout(t: Timestamp, tail: seq<byte>)
    ensures TimestampBytes(t, tail) == TimeInBytes(t) + tail
  {
    hide Be, Pair, Quad;
    match t
    case Utc(seconds, microseconds) =>
      Be2(microseconds, tail);
      Be4(seconds, Pair(microseconds) + tail);
      Be1(1, Quad(seconds) + (Pair(microseconds) + tail));
    case Vitc(hours, minutes, secs, frames) =>
      Be1(frames, tail);
      Be1(secs, [frames % 0x100] + tail);
      Be1(minutes, [secs % 0x100] + ([frames % 0x100] + tail));
      Be1(hours, [minutes % 0x100] + ([secs % 0x100] + ([frames % 0x100] + tail)));
      Be1(2, [hours % 0x100] + ([minutes % 0x100] + ([secs % 0x100] + ([frames % 0x100] + tail))));
    case Gpi(number, edge) =>
      Be1(edge, tail);
      Be1(number, [edge % 0x100] + tail);
      Be1(3, [number % 0x100] + ([edge % 0x100] + tail));
    case Untimed(timeType) =>
      Be1(timeType, tail);
  }

  function HeaderInBytes(h: Header, size: nat): (s: seq<byte>)
    ensures |s| == 10
  {
    [0xff, 0xff] + Pair(size) + [h.protocol % 0x100, h.asIndex % 0x100, h.messageNumber % 0x100] + Pair(h.dpiPid)
    + [h.scte35Protocol % 0x100]
  }

  lemma HeaderLayout(h: Header, size: nat, tail: seq<byte>)
    ensures HeaderBytes(h, size, tail) == HeaderInBytes(h, size) + tail
  {
    AllOnesPair();
    hide Be, Pair;
    var a, b, c: seq<byte> := Pair(size), Pair(h.dpiPid), [h.scte35Protocol % 0x100];
    var three: seq<byte> := [h.protocol % 0x100, h.asIndex % 0x100, h.messageNumber % 0x100];
    Be1(h.scte35Protocol, tail);
    var r := b + (c + tail);
    Be2(h.dpiPid, c + tail);
    Be1(h.messageNumber, r);
    Be1(h.asIndex, [h.messageNumber % 0x100] + r);
    Be1(h.protocol, [h.asIndex % 0x100] + ([h.messageNumber % 0x100] + r));
    assert [h.protocol % 0x100] + ([h.asIndex % 0x100] + ([h.messageNumber % 0x100] + r)) == three + r;
    Be2(size, three + r);
    Be2(0xffff, a + (three + r));
    SixParts([0xff, 0xff], a, three, b, c, tail);
  }

  lemma AllOnesPair()
    ensures Pair(0xffff) == [0xff, 0xff]
  {
  }

  /** The whole message, its own length in bytes 2 and 3. */
  lemma MessageInBytes(m: Message)
    ensures Encoded(m) == HeaderInBytes(m.header, |Encoded(m)|) + TimeInBytes(m.timestamp) + [|m.ops| % 0x100]
      + OpsInBytes(m.ops)
  {
    hide Be, HeaderBytes, HeaderInBytes, TimestampBytes, TimeInBytes, OpsBytes, OpsInBytes;
    var n := |Encoded(m)|;
    OpsLayout(m.ops);
    Be1(|m.ops|, OpsInBytes(m.ops));
    var c, ops := [|m.ops| % 0x100], OpsInBytes(m.ops);
    TimeLayout(m.timestamp, c + ops);
    HeaderLayout(m.header, n, TimeInBytes(m.timestamp) + (c + ops));
    var h, t := HeaderInBytes(m.header, n), TimeInBytes(m.timestamp);
    assert h + (t + (c + ops)) == h + t + c + ops;
  }

  // ---- messages from any source -----------------------------------------------------------------

  /** Anything but a multiple operation message is refused, and so is one cut short or announcing more than came. */
  lemma OtherMessagesRefused(p: seq<byte>, length: nat)
    requires |p| == PAYLOAD_SIZE
    requires p[0] != 0xff || p[1] != 0xff || length < 10 || p[2] as int * 0x100 + p[3] as int > length
    ensures ParseMessage(p, length) == Bad
  {
    hide BigEndianValue, ParseBodyOf;
    ValueOfPair(p[0], p[1]);
    ValueOfPair(p[2], p[3]);
    assert p[..2] == [p[0], p[1]] && p[2..][..2] == [p[2], p[3]];
  }

  /** Ten bytes are enough: with a timestamp of type 0 and no operations, read from the zeros behind them. */
  lemma HeaderAlone(h: Header, size: nat)
    requires size <= 10
    ensures ParseMessage(HeaderBytes(h, size, ZeroBytes(PAYLOAD_SIZE - 10)), 10)
      == Ok(Decoded(CutHeader(h), size, Untimed(0), []))
  {
    hide HeaderBytes, ParseMessage, CutHeader, ZeroBytes;
    var z := ZeroBytes(PAYLOAD_SIZE - 10);
    HeaderBack(h, size, z, 10);
    ZeroRest(z, CutHeader(h), size);
  }

  lemma ZeroRest(z: seq<byte>, h: Header, size: nat)
    requires z == ZeroBytes(PAYLOAD_SIZE - 10)
    ensures ParseBodyOf(h, size, z, 10) == Ok(Decoded(h, size, Untimed(0), []))
  {
    hide BigEndianValue;
    ValueOfOne(0);
    assert z[..1] == [0] && z[1..][..1] == [0] && z[0] == 0;
  }

  lemma ValueOfPair(high: byte, low: byte)
    ensures BigEndianValue([high, low]) == high as int * 0x100 + low as int
  {
    ValueOfOne(high);
    assert [high, low][..1] == [high];
  }

  lemma ValueOfOne(x: byte)
    ensures BigEndianValue([x]) == x
  {
    assert [x][..0] == [];
  }

  /** What the decoder takes of data no encoder here writes: spare bits and bytes are ignored, lists too long for
      their tables are dropped, and an unknown identifier yields no fields. */
  lemma ForeignBodies(a: byte, b: byte, rest: seq<byte>, id: word)
    ensures ParseBody(0x10f, [a, b] + rest) == Some(Tier((a % 0x10) as int * 0x100 + b as int))
    ensures ParseBody(0x104, [a, b] + rest) == Some(TimeSignal(a as int * 0x100 + b as int))
    ensures b > 7 ==> ParseBody(0x109, [a, b] + rest) == Some(Dtmf(a, ZeroBytes(b)))
    ensures b <= 7 && b <= |rest| ==> ParseBody(0x109, [a, b] + rest) == Some(Dtmf(a, rest[..b]))
    ensures |rest| >= 255 ==> ParseBody(0x108, [a] + rest) == Some(Descriptor(a, ZeroBytes(|rest|)))
    ensures ParseBody(0x102, rest) == Some(SpliceNull)
    ensures id !in {0x101, 0x102, 0x104, 0x108, 0x109, 0x10a, 0x10b, 0x10c, 0x10f, 0x110} ==>
      ParseBody(id, rest) == Some(Unknown(id))
  {
    hide BigEndianValue, ParseSplice, ParseSegmentation, ReadIds;
    var s, t := [a, b] + rest, [a] + rest;
    ValueOfPair(a, b);
    ValueOfOne(a);
    ValueOfOne(b);
    assert s[..2] == [a, b] && s[..1] == [a] && s[1..][..1] == [b] && s[1..][1..] == rest;
    assert t[..1] == [a] && t[1..] == rest;
    TierCut(a, b);
  }

  lemma TierCut(a: byte, b: byte)
    ensures (a as int * 0x100 + b as int) % 0x1000 == (a % 0x10) as int * 0x100 + b as int
  {
    assert a == 0x10 * (a / 0x10) + a % 0x10;
  }
}

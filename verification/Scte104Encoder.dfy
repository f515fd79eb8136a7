/** The SCTE 104 encoder: every operation serialised on its own, then copied into the message. */
module Scte104Encoder {
  import opened Bits
  import opened Bitstreams
  import opened Scte104Format

  const MAX_DESC_SIZE := 255

  /** Writing whole bytes on a byte boundary. */
  method Put(bs: Bitstream, v: nat, k: nat)
    requires bs.Valid() && bs.regUsed == 0 && bs.used + k <= bs.buflen
    modifies bs`used, bs`regUsed, bs`reg, bs.buf
    ensures bs.Valid() && bs.regUsed == 0 && bs.used == old(bs.used) + k
    ensures bs.Bytes() == old(bs.Bytes()) + BigEndian(v, k)
    ensures forall tail :: bs.Bytes() + tail == old(bs.Bytes()) + Be(v, k, tail)
  {
    hide StreamBits, BytesBits, ToBits, BigEndian, Be;
    ghost var before := bs.Bytes();
    AlignedBytes(before, bs.reg);
    bs.WriteBits(v, 8 * k);
    AlignedBytes(bs.Bytes(), bs.reg);
    BigEndianBits(v, k);
    BytesBitsAppend(before, BigEndian(v, k));
    BytesBitsInjective(bs.Bytes(), before + BigEndian(v, k));
    forall tail ensures bs.Bytes() + tail == before + Be(v, k, tail) {
      BeIs(v, k, tail);
      Associative(before, BigEndian(v, k), tail);
    }
  }

  lemma BeIs(v: nat, k: nat, tail: seq<byte>)
    ensures Be(v, k, tail) == BigEndian(v, k) + tail
  {
  }

  lemma AlignedBytes(bytes: seq<byte>, reg: byte)
    ensures StreamBits(bytes, reg, 0) == BytesBits(bytes)
  {
    hide BytesBits;
  }

  method PutBytes(bs: Bitstream, s: seq<byte>)
    requires bs.Valid() && bs.regUsed == 0 && bs.used + |s| <= bs.buflen
    modifies bs`used, bs`regUsed, bs`reg, bs.buf
    ensures bs.Valid() && bs.regUsed == 0 && bs.used == old(bs.used) + |s|
    ensures forall tail :: bs.Bytes() + tail == old(bs.Bytes()) + (s + tail)
  {
    hide BigEndian, Be;
    ghost var before := bs.Bytes();
    for i := 0 to |s|
      invariant bs.Valid() && bs.regUsed == 0 && bs.used == old(bs.used) + i
      invariant bs.Bytes() == before + s[..i]
    {
      Put(bs, s[i], 1);
      OneByte(s[i]);
      assert s[..i + 1] == s[..i] + [s[i]];
      Associative(before, s[..i], [s[i]]);
    }
    assert s[..|s|] == s;
    forall tail ensures bs.Bytes() + tail == before + (s + tail) {
      Associative(before, s, tail);
    }
  }

  lemma OneByte(v: byte)
    ensures BigEndian(v, 1) == [v]
  {
    assert BigEndian(v, 1) == [] + [v % 256];
  }

  method NewStream(size: nat) returns (bs: Bitstream)
    ensures fresh(bs) && fresh(bs.buf) && bs.Valid() && bs.start == 0 && bs.buflen == bs.buf.Length == size
    ensures bs.used == 0 && bs.regUsed == 0 && bs.Bytes() == []
  {
    var buf := new byte[size];
    bs := new Bitstream(buf, 0, size);
  }

  /** Closes an aligned stream: nothing is added. */
  method Close(bs: Bitstream, ghost expected: seq<byte>)
    requires bs.Valid() && bs.regUsed == 0 && bs.start == 0
    requires bs.Bytes() + [] == [] + expected
    modifies bs`used, bs`regUsed, bs`reg, bs.buf
    ensures bs.used == |expected| <= bs.buf.Length && bs.buf[..bs.used] == expected
  {
    hide StreamBits, BytesBits, PadToByte;
    ghost var before := bs.Bytes();
    assert before + [] == before && [] + expected == expected;
    AlignedBytes(before, bs.reg);
    AlignedNeedsNoPad(bs.Written());
    bs.WriteBufferComplete();
    BytesBitsInjective(before, bs.Bytes());
    assert bs.buf[..bs.used] == bs.buf[0..bs.used];
  }

  method Finish(bs: Bitstream, ghost expected: seq<byte>) returns (out: seq<byte>)
    requires bs.Valid() && bs.regUsed == 0 && bs.start == 0
    requires bs.Bytes() + [] == [] + expected
    modifies bs`used, bs`regUsed, bs`reg, bs.buf
    ensures out == expected
  {
    Close(bs, expected);
    out := bs.buf[..bs.used];
  }

  method GenSplice(b: Body) returns (out: seq<byte>)
    requires b.Splice?
    ensures out == BodyBytes(b)
  {
    hide Be, BigEndian;
    var bs := NewStream(MAX_DESC_SIZE);
    Put(bs, b.insertType, 1);
    Put(bs, b.eventId, 4);
    Put(bs, b.programId, 2);
    Put(bs, b.spliceRoll, 2);
    Put(bs, b.brkDuration, 2);
    Put(bs, b.availNum, 1);
    Put(bs, b.availsExpected, 1);
    Put(bs, b.autoReturn, 1);
    out := Finish(bs, BodyBytes(b));
  }

  method GenTimeSignal(b: Body) returns (out: seq<byte>)
    requires b.TimeSignal?
    ensures out == BodyBytes(b)
  {
    hide Be, BigEndian;
    var bs := NewStream(MAX_DESC_SIZE);
    Put(bs, b.signalRoll, 2);
    out := Finish(bs, BodyBytes(b));
  }

  method GenDescriptor(b: Body) returns (out: seq<byte>)
    requires b.Descriptor? && Encodable(b)
    ensures out == BodyBytes(b)
  {
    hide Be, BigEndian;
    var bs := NewStream(MAX_DESC_SIZE);
    Put(bs, b.count, 1);
    PutBytes(bs, b.bytes);
    assert b.bytes + [] == b.bytes;
    out := Finish(bs, BodyBytes(b));
  }

  method GenDtmf(b: Body) returns (out: seq<byte>)
    requires b.Dtmf? && Encodable(b)
    ensures out == BodyBytes(b)
  {
    hide Be, BigEndian;
    var bs := NewStream(MAX_DESC_SIZE);
    Put(bs, b.dtmfRoll, 1);
    Put(bs, |b.chars|, 1);
    PutBytes(bs, b.chars);
    assert b.chars + [] == b.chars;
    out := Finish(bs, BodyBytes(b));
  }

  method GenAvail(b: Body) returns (out: seq<byte>)
    requires b.Avail? && Encodable(b)
    ensures out == BodyBytes(b)
  {
    hide Be, BigEndian;
    var bs := NewStream(MAX_DESC_SIZE);
    Put(bs, |b.ids|, 1);
    ghost var before := bs.Bytes();
    for i := 0 to |b.ids|
      invariant fresh(bs) && fresh(bs.buf) && bs.Valid() && bs.regUsed == 0 && bs.start == 0
      invariant bs.buflen == MAX_DESC_SIZE && bs.used == 1 + 4 * i
      invariant bs.Bytes() + IdsBytes(b.ids[i..], []) == before + IdsBytes(b.ids, [])
    {
      assert b.ids[i..][1..] == b.ids[i + 1..];
      Put(bs, b.ids[i], 4);
    }
    assert bs.Bytes() + [] == before + IdsBytes(b.ids, []) == [] + BodyBytes(b);
    out := Finish(bs, BodyBytes(b));
  }

  method PutSegment(bs: Bitstream, s: SegmentInfo)
    requires bs.Valid() && bs.regUsed == 0 && bs.used + 9 <= bs.buflen
    modifies bs`used, bs`regUsed, bs`reg, bs.buf
    ensures bs.Valid() && bs.regUsed == 0 && bs.used == old(bs.used) + 9
    ensures forall tail :: bs.Bytes() + tail == old(bs.Bytes()) + SegmentBytes(s, tail)
  {
    hide Be, BigEndian;
    Put(bs, s.typeId, 1);
    Put(bs, s.number, 1);
    Put(bs, s.expected, 1);
    Put(bs, s.extension, 1);
    Put(bs, s.deliveryNotRestricted, 1);
    Put(bs, s.webAllowed, 1);
    Put(bs, s.noBlackout, 1);
    Put(bs, s.archiveAllowed, 1);
    Put(bs, s.device, 1);
  }

  method PutSegmentHead(bs: Bitstream, b: Body)
    requires b.Segmentation? && bs.Valid() && bs.regUsed == 0 && bs.used + 9 <= bs.buflen
    modifies bs`used, bs`regUsed, bs`reg, bs.buf
    ensures bs.Valid() && bs.regUsed == 0 && bs.used == old(bs.used) + 9
    ensures forall tail :: (bs.Bytes() + tail == old(bs.Bytes()) +
      Be(b.segEvent, 4, Be(b.cancel, 1, Be(b.duration, 2, Be(b.upidType, 1, Be(|b.upid|, 1, tail))))))
  {
    hide Be, BigEndian;
    Put(bs, b.segEvent, 4);
    Put(bs, b.cancel, 1);
    Put(bs, b.duration, 2);
    Put(bs, b.upidType, 1);
    Put(bs, |b.upid|, 1);
  }

  method GenSegmentation(b: Body) returns (out: seq<byte>)
    requires b.Segmentation? && Encodable(b)
    ensures out == BodyBytes(b)
  {
    hide Be, BigEndian, SegmentBytes;
    var bs := NewStream(MAX_DESC_SIZE);
    PutSegmentHead(bs, b);
    PutBytes(bs, b.upid);
    PutSegment(bs, b.seg);
    out := Finish(bs, BodyBytes(b));
  }

  method GenProprietary(b: Body) returns (out: seq<byte>)
    requires b.Proprietary? && Encodable(b)
    ensures out == BodyBytes(b)
  {
    hide Be, BigEndian;
    var bs := NewStream(MAX_DESC_SIZE);
    Put(bs, b.id, 4);
    Put(bs, b.command, 1);
    PutBytes(bs, b.payload);
    assert b.payload + [] == b.payload;
    out := Finish(bs, BodyBytes(b));
  }

  method GenTier(b: Body) returns (out: seq<byte>)
    requires b.Tier?
    ensures out == BodyBytes(b)
  {
    hide Be, BigEndian;
    var bs := NewStream(MAX_DESC_SIZE);
    Put(bs, b.tier % 0x1000, 2);
    out := Finish(bs, BodyBytes(b));
  }

  method GenTimeDescriptor(b: Body) returns (out: seq<byte>)
    requires b.TimeDescriptor?
    ensures out == BodyBytes(b)
  {
    hide Be, BigEndian;
    var bs := NewStream(MAX_DESC_SIZE);
    Put(bs, b.taiSeconds, 6);
    Put(bs, b.taiNs, 4);
    Put(bs, b.utcOffset, 2);
    out := Finish(bs, BodyBytes(b));
  }

  method GenOp(b: Body) returns (out: seq<byte>)
    requires Encodable(b)
    ensures out == BodyBytes(b)
  {
    match b
    case Splice(_, _, _, _, _, _, _, _) => out := GenSplice(b);
    case SpliceNull => out := [];
    case TimeSignal(_) => out := GenTimeSignal(b);
    case Descriptor(_, _) => out := GenDescriptor(b);
    case Dtmf(_, _) => out := GenDtmf(b);
    case Avail(_) => out := GenAvail(b);
    case Segmentation(_, _, _, _, _, _) => out := GenSegmentation(b);
    case Proprietary(_, _, _) => out := GenProprietary(b);
    case Tier(_) => out := GenTier(b);
    case TimeDescriptor(_, _, _) => out := GenTimeDescriptor(b);
  }

  method PutHeader(bs: Bitstream, h: Header, messageSize: nat)
    requires bs.Valid() && bs.regUsed == 0 && bs.used + 10 <= bs.buflen
    modifies bs`used, bs`regUsed, bs`reg, bs.buf
    ensures bs.Valid() && bs.regUsed == 0 && bs.used == old(bs.used) + 10
    ensures forall tail :: bs.Bytes() + tail == old(bs.Bytes()) + HeaderBytes(h, messageSize, tail)
  {
    hide Be, BigEndian;
    Put(bs, 0xffff, 2);
    Put(bs, messageSize, 2);
    Put(bs, h.protocol, 1);
    Put(bs, h.asIndex, 1);
    Put(bs, h.messageNumber, 1);
    Put(bs, h.dpiPid, 2);
    Put(bs, h.scte35Protocol, 1);
  }

  method PutTimestamp(bs: Bitstream, t: Timestamp)
    requires bs.Valid() && bs.regUsed == 0 && bs.used + |TimestampBytes(t, [])| <= bs.buflen
    modifies bs`used, bs`regUsed, bs`reg, bs.buf
    ensures bs.Valid() && bs.regUsed == 0 && bs.used == old(bs.used) + |TimestampBytes(t, [])|
    ensures forall tail :: bs.Bytes() + tail == old(bs.Bytes()) + TimestampBytes(t, tail)
  {
    hide Be, BigEndian;
    match t
    case Utc(seconds, microseconds) =>
      Put(bs, 1, 1);
      Put(bs, seconds, 4);
      Put(bs, microseconds, 2);
    case Vitc(hours, minutes, secs, frames) =>
      Put(bs, 2, 1);
      Put(bs, hours, 1);
      Put(bs, minutes, 1);
      Put(bs, secs, 1);
      Put(bs, frames, 1);
    case Gpi(number, edge) =>
      Put(bs, 3, 1);
      Put(bs, number, 1);
      Put(bs, edge, 1);
    case Untimed(timeType) =>
      Put(bs, timeType, 1);
  }

  /** An operation on its own: identifier, length, body. */
  method PutOp(bs: Bitstream, b: Body)
    requires Encodable(b)
    requires bs.Valid() && bs.regUsed == 0 && bs.used + 4 + |BodyBytes(b)| <= bs.buflen
    modifies bs`used, bs`regUsed, bs`reg, bs.buf
    ensures bs.Valid() && bs.regUsed == 0 && bs.used == old(bs.used) + 4 + |BodyBytes(b)|
    ensures forall tail :: (bs.Bytes() + tail
      == old(bs.Bytes()) + Be(OpId(b), 2, Be(|BodyBytes(b)|, 2, BodyBytes(b) + tail)))
  {
    hide Be, BigEndian, BodyBytes, Encodable;
    var data := GenOp(b);
    Put(bs, OpId(b), 2);
    Put(bs, |data|, 2);
    PutBytes(bs, data);
  }

  /** The operations can be serialised: each is unknown, and skipped, or fits its buffer. */
  predicate Serialisable(ops: seq<Body>)
  {
    forall i :: 0 <= i < |ops| ==> ops[i].Unknown? || Encodable(ops[i])
  }

  lemma NextOp(ops: seq<Body>, i: nat)
    requires i < |ops| && Serialisable(ops)
    ensures ops[i].Unknown? || Encodable(ops[i])
    ensures OpsBytes(ops[i..], []) ==
      if ops[i].Unknown? then OpsBytes(ops[i + 1..], [])
      else Be(OpId(ops[i]), 2, Be(|BodyBytes(ops[i])|, 2, BodyBytes(ops[i]) + OpsBytes(ops[i + 1..], [])))
    ensures OpsLength(ops[i..]) == (if ops[i].Unknown? then 0 else 4 + |BodyBytes(ops[i])|) + OpsLength(ops[i + 1..])
  {
    hide Be, BodyBytes, Encodable, OpId;
    assert ops[i..][1..] == ops[i + 1..] && ops[i..][0] == ops[i];
  }

  lemma NoOps(ops: seq<Body>)
    ensures OpsBytes(ops[|ops|..], []) == [] && OpsLength(ops[|ops|..]) == 0
  {
  }

  lemma MessageSizes(m: Message, size: nat)
    ensures |MessageBytes(m, size)| == |MessageBytes(m, 0)|
      == 10 + |TimestampBytes(m.timestamp, [])| + 1 + OpsLength(m.ops) >= 12
    ensures MessageBytes(m, size)
      == HeaderBytes(m.header, size, TimestampBytes(m.timestamp, Be(|m.ops|, 1, OpsBytes(m.ops, []))))
  {
    hide OpsBytes, HeaderBytes, BigEndian;
  }

  lemma TwoBytes(n: nat)
    requires n < 0x1_0000
    ensures BigEndian(n, 2) == [n / 256, n % 256]
  {
    OneByte(n / 256);
  }

  function WithSize(s: seq<byte>, n: nat): seq<byte>
    requires |s| >= 4 && n < 0x1_0000
  {
    s[..2] + [n / 256, n % 256] + s[4..]
  }

  /** Overwriting bytes 2 and 3 is the same as having known the size from the start. */
  lemma PatchedSize(m: Message, size: nat)
    requires |MessageBytes(m, 0)| <= PAYLOAD_SIZE
    ensures |MessageBytes(m, size)| == |Encoded(m)| >= 12
    ensures WithSize(MessageBytes(m, size), |Encoded(m)|) == Encoded(m)
  {
    hide OpsBytes, TimestampBytes, BigEndian;
    var n := |MessageBytes(m, 0)|;
    MessageSizes(m, size);
    MessageSizes(m, n);
    TwoBytes(n);
  }

  method PutOps(bs: Bitstream, ops: seq<Body>)
    requires Serialisable(ops)
    requires bs.Valid() && bs.regUsed == 0 && bs.used + OpsLength(ops) <= bs.buflen
    modifies bs`used, bs`regUsed, bs`reg, bs.buf
    ensures bs.Valid() && bs.regUsed == 0 && bs.used == old(bs.used) + OpsLength(ops)
    ensures bs.Bytes() + [] == old(bs.Bytes()) + OpsBytes(ops, [])
  {
    hide Be, BodyBytes, OpsBytes, OpsLength, Encodable, Serialisable, OpId;
    assert ops[0..] == ops;
    var i := 0;
    while i < |ops|
      invariant 0 <= i <= |ops| && bs.Valid() && bs.regUsed == 0
      invariant bs.used + OpsLength(ops[i..]) == old(bs.used) + OpsLength(ops)
      invariant bs.Bytes() + OpsBytes(ops[i..], []) == old(bs.Bytes()) + OpsBytes(ops, [])
    {
      NextOp(ops, i);
      if !ops[i].Unknown? {
        PutOp(bs, ops[i]);
      }
      i := i + 1;
    }
    NoOps(ops);
  }

  method PutMessage(bs: Bitstream, m: Message, size: nat)
    requires Serialisable(m.ops)
    requires bs.Valid() && bs.regUsed == 0 && bs.used + |MessageBytes(m, 0)| <= bs.buflen
    modifies bs`used, bs`regUsed, bs`reg, bs.buf
    ensures bs.Valid() && bs.regUsed == 0
    ensures bs.Bytes() + [] == old(bs.Bytes()) + MessageBytes(m, size)
  {
    hide Be, OpsBytes, OpsLength, TimestampBytes, HeaderBytes, MessageBytes, Serialisable;
    MessageSizes(m, size);
    PutHeader(bs, m.header, size);
    PutTimestamp(bs, m.timestamp);
    Put(bs, |m.ops|, 1);
    PutOps(bs, m.ops);
  }

  /** The whole message in a 2000-byte buffer. Whatever size the caller put in the message is written,
      then replaced by the number of bytes the message turned out to have. */
  method Encode(opId: word, m: Message, messageSize: nat) returns (ok: bool, bytes: array<byte>, byteCount: nat)
    requires Serialisable(m.ops) && |MessageBytes(m, 0)| <= PAYLOAD_SIZE
    ensures ok <==> opId == 0xffff
    ensures ok ==> byteCount <= bytes.Length && bytes[..byteCount] == Encoded(m)
    ensures !ok ==> byteCount == 0
  {
    hide MessageBytes, Encoded, Serialisable, WithSize;
    bytes, byteCount := new byte[PAYLOAD_SIZE], 0;
    if opId != 0xffff {
      return false, bytes, 0;
    }
    var bs := NewStream(PAYLOAD_SIZE);
    PutMessage(bs, m, messageSize);
    Close(bs, MessageBytes(m, messageSize));
    PatchedSize(m, messageSize);
    bytes, byteCount := bs.buf, bs.used;
    PatchSize(bytes, byteCount);
    ok := true;
  }

  method PatchSize(bytes: array<byte>, n: nat)
    requires 4 <= n <= bytes.Length && n < 0x1_0000
    modifies bytes
    ensures bytes[..n] == WithSize(old(bytes[..n]), n)
  {
    bytes[2] := n / 256;
    bytes[3] := n % 256;
  }
}

/** The SCTE 104 decoder: a pointer walking over the payload buffer. */
module Scte104Decoder {
  import opened Bits
  import opened Bitstreams
  import opened Wrappers
  import opened Scte104Format

  /** k bytes at a position, most significant first, and the position behind them. */
  method Take(p: array<byte>, at: nat, k: nat) returns (v: nat, next: nat)
    requires at + k <= p.Length
    ensures next == at + k && p[at..][k..] == p[next..]
    ensures v == BigEndianValue(p[at..][..k])
  {
    v, next := 0, at;
    for i := 0 to k
      invariant next == at + i && v == BigEndianValue(p[at..][..i])
    {
      assert p[at..][..i + 1][..i] == p[at..][..i];
      v := 256 * v + p[next];
      next := next + 1;
    }
  }

  // ---- bodies -------------------------------------------------------------------------------

  method TakeSplice(p: array<byte>) returns (b: Body)
    requires p.Length >= 14
    ensures b == ParseSplice(p[..])
  {
    hide BigEndianValue;
    assert p[0..] == p[..];
    var insertType, p1 := Take(p, 0, 1);
    var eventId, p2 := Take(p, p1, 4);
    var programId, p3 := Take(p, p2, 2);
    var preRoll, p4 := Take(p, p3, 2);
    var brkDuration, p5 := Take(p, p4, 2);
    var availNum, p6 := Take(p, p5, 1);
    var availsExpected, p7 := Take(p, p6, 1);
    var autoReturn, _ := Take(p, p7, 1);
    b := Splice(insertType, eventId, programId, preRoll, brkDuration, availNum, availsExpected, autoReturn);
  }

  method TakeDescriptor(p: array<byte>) returns (b: Body)
    requires p.Length >= 1
    ensures ParseBody(0x108, p[..]) == Some(b)
  {
    assert p[0..] == p[..];
    var count, at := Take(p, 0, 1);
    if p.Length - 1 < 255 {
      b := Descriptor(count, p[at..]);
    } else {
      b := Descriptor(count, ZeroBytes(p.Length - 1));
    }
  }

  method TakeDtmf(p: array<byte>) returns (b: Body)
    requires ParseBody(0x109, p[..]).Some?
    ensures ParseBody(0x109, p[..]) == Some(b)
  {
    hide BigEndianValue;
    assert p[0..] == p[..];
    var preRoll, p1 := Take(p, 0, 1);
    var n, p2 := Take(p, p1, 1);
    if n <= 7 {
      b := Dtmf(preRoll, p[p2..p2 + n]);
      assert p[p2..][..n] == p[p2..p2 + n];
    } else {
      b := Dtmf(preRoll, ZeroBytes(n));
    }
  }

  method TakeAvail(p: array<byte>) returns (b: Body)
    requires ParseBody(0x10a, p[..]).Some?
    ensures ParseBody(0x10a, p[..]) == Some(b)
  {
    hide BigEndianValue;
    assert p[0..] == p[..];
    var n, at := Take(p, 0, 1);
    var ids: seq<nat> := [];
    ghost var start := at;
    for i := 0 to n
      invariant at == start + 4 * i
      invariant ids + ReadIds(n - i, p[at..]) == ReadIds(n, p[start..])
    {
      var id;
      ghost var more := ReadIds(n - i - 1, p[at..][4..]);
      assert ReadIds(n - i, p[at..]) == [BigEndianValue(p[at..][..4])] + more;
      id, at := Take(p, at, 4);
      Associative(ids, [id], more);
      ids := ids + [id];
    }
    assert ids + [] == ids;
    b := Avail(ids);
  }

  method TakeSegment(p: array<byte>, at: nat) returns (s: SegmentInfo)
    requires at + 9 <= p.Length
    ensures s == ParseSegment(p[at..])
  {
    hide BigEndianValue;
    var typeId, p1 := Take(p, at, 1);
    var number, p2 := Take(p, p1, 1);
    var expected, p3 := Take(p, p2, 1);
    var extension, p4 := Take(p, p3, 1);
    var delivery, p5 := Take(p, p4, 1);
    var web, p6 := Take(p, p5, 1);
    var blackout, p7 := Take(p, p6, 1);
    var archive, p8 := Take(p, p7, 1);
    var device, _ := Take(p, p8, 1);
    s := SegmentInfo(typeId, number, expected, extension, delivery, web, blackout, archive, device);
  }

  method TakeSegmentation(p: array<byte>) returns (b: Body)
    requires ParseSegmentation(p[..]).Some?
    ensures ParseSegmentation(p[..]) == Some(b)
  {
    hide BigEndianValue, ParseSegment;
    assert p[0..] == p[..];
    var event, p1 := Take(p, 0, 4);
    var cancel, p2 := Take(p, p1, 1);
    var duration, p3 := Take(p, p2, 2);
    var upidType, p4 := Take(p, p3, 1);
    var n, p5 := Take(p, p4, 1);
    assert p[p5..][..n] == p[p5..p5 + n] && p[p5..][n..] == p[p5 + n..];
    var s := TakeSegment(p, p5 + n);
    b := Segmentation(event, cancel, duration, upidType, p[p5..p5 + n], s);
  }

  method TakeProprietary(p: array<byte>) returns (b: Body)
    requires ParseBody(0x10c, p[..]).Some?
    ensures ParseBody(0x10c, p[..]) == Some(b)
  {
    hide BigEndianValue;
    assert p[0..] == p[..];
    var id, p1 := Take(p, 0, 4);
    var command, p2 := Take(p, p1, 1);
    b := Proprietary(id, command, p[p2..]);
  }

  /** The one body that is read through the bit reader. */
  method TakeTime(p: array<byte>) returns (b: Body)
    requires p.Length >= 12
    ensures ParseBody(0x110, p[..]) == Some(b)
  {
    hide RestBits, BytesBits, FromBits, BigEndianValue, Pow2;
    var bs := new Bitstream(p, 0, 12);
    TwelveBytes(p[..]);
    assert p[0..12] == p[..][..12];
    var seconds := bs.ReadBits(48);
    var ns := bs.ReadBits(32);
    var offset := bs.ReadBits(16);
    b := TimeDescriptor(seconds, ns, offset);
  }

  lemma FromBitsLast(b: seq<bool>, bit: nat)
    ensures FromBits(b + [bit % 2 == 1]) == 2 * FromBits(b) + bit % 2
  {
    assert (b + [bit % 2 == 1])[..|b|] == b;
  }

  lemma DoubleProduct(p: nat, f: nat, r: nat, bit: nat)
    ensures 2 * (p * f + r) + bit == (2 * p) * f + (2 * r + bit)
  {
  }

  lemma {:induction false} FromBitsConcat(a: seq<bool>, v: nat, n: nat)
    ensures FromBits(a + ToBits(v, n)) == Pow2(n) * FromBits(a) + v % Pow2(n)
  {
    if n == 0 {
      assert a + ToBits(v, 0) == a;
      assert v % Pow2(0) == 0;
    } else {
      hide FromBits;
      var b := ToBits(v / 2, n - 1);
      assert a + ToBits(v, n) == (a + b) + [v % 2 == 1];
      FromBitsLast(a + b, v);
      FromBitsConcat(a, v / 2, n - 1);
      ModDouble(v, Pow2(n - 1));
      DoubleProduct(Pow2(n - 1), FromBits(a), (v / 2) % Pow2(n - 1), v % 2);
    }
  }

  lemma OneByteMore(a: seq<bool>, x: byte)
    ensures FromBits(a + ToBits(x, 8)) == 256 * FromBits(a) + x
  {
    hide FromBits, ToBits;
    FromBitsConcat(a, x, 8);
    assert Pow2(8) == 256;
  }

  lemma {:induction false} NumberOfBytes(s: seq<byte>)
    ensures FromBits(BytesBits(s)) == BigEndianValue(s)
  {
    if s == [] {
      assert FromBits([]) == 0;
    } else {
      hide FromBits, ToBits;
      var n := |s| - 1;
      NumberOfBytes(s[..n]);
      OneByteMore(BytesBits(s[..n]), s[n]);
    }
  }

  lemma TwelveBytes(s: seq<byte>)
    requires |s| >= 12
    ensures var b := BytesBits(s[..12]);
      && FromBits(b[..48]) == BigEndianValue(s[..6])
      && FromBits(b[48..][..32]) == BigEndianValue(s[6..][..4])
      && FromBits(b[48..][32..][..16]) == BigEndianValue(s[6..][4..][..2])
  {
    hide FromBits, BytesBits, BigEndianValue;
    var t := s[..12];
    var b := BytesBits(t);
    BitSlice(t, 0, 6);
    BitSlice(t, 6, 10);
    BitSlice(t, 10, 12);
    NumberOfBytes(t[0..6]);
    NumberOfBytes(t[6..10]);
    NumberOfBytes(t[10..12]);
    assert t[0..6] == s[..6] && t[6..10] == s[6..][..4] && t[10..12] == s[6..][4..][..2];
    assert b[0..48] == b[..48] && b[48..80] == b[48..][..32] && b[80..96] == b[48..][32..][..16];
  }

  method TakeBody(id: word, p: array<byte>) returns (b: Body)
    requires ParseBody(id, p[..]).Some?
    ensures ParseBody(id, p[..]) == Some(b)
  {
    hide BigEndianValue, ParseSplice, ParseSegmentation, ReadIds, ZeroBytes;
    assert p[0..] == p[..];
    if id == 0x101 {
      b := TakeSplice(p);
    } else if id == 0x102 {
      b := SpliceNull;
    } else if id == 0x104 {
      var preRoll, _ := Take(p, 0, 2);
      b := TimeSignal(preRoll);
    } else if id == 0x108 {
      b := TakeDescriptor(p);
    } else if id == 0x10a {
      b := TakeAvail(p);
    } else if id == 0x109 {
      b := TakeDtmf(p);
    } else if id == 0x10b {
      b := TakeSegmentation(p);
    } else if id == 0x10c {
      b := TakeProprietary(p);
    } else if id == 0x10f {
      var tier, _ := Take(p, 0, 2);
      b := Tier(tier % 0x1000);
    } else if id == 0x110 {
      b := TakeTime(p);
    } else {
      b := Unknown(id);
    }
  }

  // ---- the operation list -------------------------------------------------------------------

  method TakeOp(p: array<byte>, at: nat, length: nat) returns (op: Option<Op>, next: nat)
    requires at <= p.Length && !ParseOp(p[at..], length - at).OpOverread?
    ensures next <= p.Length
    ensures op.None? ==> ParseOp(p[at..], length - at) == OpBad
    ensures op.Some? ==> next == at + 4 + |op.value.data|
    ensures op.Some? ==> ParseOp(p[at..], length - at) == OpOk(op.value, p[next..])
  {
    hide BigEndianValue, ParseBody;
    var id, p1 := Take(p, at, 2);
    var len, p2 := Take(p, p1, 2);
    if p2 - 4 + len > length {
      return None, p2;
    }
    var data := new byte[len](i requires 0 <= i < len && p2 + len <= p.Length reads p => p[p2 + i]);
    assert data[..] == p[p2..][..len];
    assert p[p2..][len..] == p[p2 + len..];
    var body := TakeBody(id, data);
    next := p2 + len;
    op := Some(Op(id, data[..], body));
  }

  function Prepend(ops: seq<Op>, r: OpsResult): OpsResult
  {
    if r.OpsOk? then OpsOk(ops + r.ops) else r
  }

  lemma PrependOne(ops: seq<Op>, o: Op, r: OpsResult)
    ensures Prepend(ops, ConsOp(o, r)) == Prepend(ops + [o], r)
  {
    if r.OpsOk? {
      assert ops + ([o] + r.ops) == (ops + [o]) + r.ops;
    }
  }

  method TakeOps(p: array<byte>, start: nat, n: nat, length: nat) returns (ok: bool, ops: seq<Op>)
    requires start <= p.Length && !ParseOps(n, p[start..], length - start).OpsOverread?
    ensures ParseOps(n, p[start..], length - start) == if ok then OpsOk(ops) else OpsBad
  {
    hide ParseOp, ConsOp, Prepend;
    ghost var result := ParseOps(n, p[start..], length - start);
    var at := start;
    ops := [];
    NothingBefore(result);
    for i := 0 to n
      invariant at <= p.Length
      invariant result == Prepend(ops, ParseOps(n - i, p[at..], length - at))
    {
      ghost var rest := ParseOps(n - i, p[at..], length - at);
      PrependBad(ops, rest);
      NextOp(n - i, p[at..], length - at);
      var op, next := TakeOp(p, at, length);
      if op.None? {
        return false, ops;
      }
      PrependOne(ops, op.value, ParseOps(n - i - 1, p[next..], length - next));
      ops := ops + [op.value];
      at := next;
    }
    NothingAfter(ops);
    ok := true;
  }

  lemma NothingBefore(r: OpsResult)
    ensures Prepend([], r) == r
  {
    if r.OpsOk? {
      assert [] + r.ops == r.ops;
    }
  }

  lemma NothingAfter(ops: seq<Op>)
    ensures Prepend(ops, OpsOk([])) == OpsOk(ops)
  {
    assert ops + [] == ops;
  }

  lemma PrependBad(ops: seq<Op>, r: OpsResult)
    ensures r.OpsBad? ==> Prepend(ops, r) == OpsBad
    ensures r.OpsOverread? ==> Prepend(ops, r) == OpsOverread
  {
  }

  lemma NextOp(n: nat, r: seq<byte>, left: int)
    requires n > 0
    ensures match ParseOp(r, left)
      case OpBad => ParseOps(n, r, left) == OpsBad
      case OpOverread => ParseOps(n, r, left) == OpsOverread
      case OpOk(op, rest) => ParseOps(n, r, left) == ConsOp(op, ParseOps(n - 1, rest, left - 4 - |op.data|))
  {
    hide ParseOp, ConsOp;
  }

  // ---- the message --------------------------------------------------------------------------

  method TakeTimestamp(p: array<byte>, at: nat) returns (t: Timestamp, next: nat)
    requires at + 7 <= p.Length
    ensures at < next <= at + 7 && (t, p[next..]) == ParseTimestamp(p[at..])
  {
    hide BigEndianValue;
    var timeType, p1 := Take(p, at, 1);
    if timeType == 1 {
      var seconds, p2 := Take(p, p1, 4);
      var micros, p3 := Take(p, p2, 2);
      return Utc(seconds, micros), p3;
    } else if timeType == 2 {
      var hours, p2 := Take(p, p1, 1);
      var minutes, p3 := Take(p, p2, 1);
      var secs, p4 := Take(p, p3, 1);
      var frames, p5 := Take(p, p4, 1);
      return Vitc(hours, minutes, secs, frames), p5;
    } else if timeType == 3 {
      var number, p2 := Take(p, p1, 1);
      var edge, p3 := Take(p, p2, 1);
      return Gpi(number, edge), p3;
    }
    return Untimed(p[at]), p1;
  }

  /** Decodes the payload buffer, of which the first length bytes were received. */
  method Decode(p: array<byte>, length: nat) returns (r: Result)
    requires p.Length == PAYLOAD_SIZE && !ParseMessage(p[..], length).Overread?
    ensures r == ParseMessage(p[..], length)
  {
    hide BigEndianValue, ParseTimestamp, ParseOps, ParseBodyOf;
    assert p[0..] == p[..];
    var opId, p1 := Take(p, 0, 2);
    if opId != 0xffff {
      return Bad;
    }
    if length < 10 {
      return Bad;
    }
    var size, p2 := Take(p, p1, 2);
    var protocol, p3 := Take(p, p2, 1);
    var asIndex, p4 := Take(p, p3, 1);
    var number, p5 := Take(p, p4, 1);
    var dpiPid, p6 := Take(p, p5, 2);
    var scte35, p7 := Take(p, p6, 1);
    if size > length {
      return Bad;
    }
    r := DecodeBody(Header(protocol, asIndex, number, dpiPid, scte35), size, p, length);
  }

  method DecodeBody(h: Header, size: nat, p: array<byte>, length: nat) returns (r: Result)
    requires p.Length == PAYLOAD_SIZE && !ParseBodyOf(h, size, p[10..], length).Overread?
    ensures r == ParseBodyOf(h, size, p[10..], length)
  {
    hide BigEndianValue, ParseTimestamp, ParseOps;
    var timestamp, p1 := TakeTimestamp(p, 10);
    var n, p2 := Take(p, p1, 1);
    var ok, ops := TakeOps(p, p2, n, length);
    r := if ok then Ok(Decoded(h, size, timestamp, ops)) else Bad;
  }
}

/** Splitting a PES packet into transport packets. */
module TsPacketizer {
  import opened Bits
  import opened Memory

  const PACKET_SIZE := 188
  const PAYLOAD_SIZE := 184

  type Packet = p: seq<byte> | |p| == PACKET_SIZE witness seq(PACKET_SIZE, i => 0)

  /** Sync byte, start flag and PID, payload-only control and counter. */
  function TsHeader(cc: byte, pid: nat, first: bool): (h: seq<byte>)
    requires pid <= 0x1fff
    ensures |h| == 4
  {
    [0x47, pid / 0x100 + (if first then 0x40 else 0), pid % 0x100, 0x10 + cc % 0x10]
  }

  /** One transport packet: its header, payload, and stuffing up to its end. */
  function TsPacket(chunk: seq<byte>, cc: byte, pid: nat, first: bool): Packet
    requires |chunk| <= PAYLOAD_SIZE && pid <= 0x1fff
  {
    TsHeader(cc, pid, first) + chunk + Stuffing(PAYLOAD_SIZE - |chunk|)
  }

  function TsPackets(buf: seq<byte>, cc: byte, pid: nat, first: bool): seq<Packet>
    requires pid <= 0x1fff
  {
    if buf == [] then []
    else
      var n := Min(|buf|, PAYLOAD_SIZE);
      [TsPacket(buf[..n], cc, pid, first)] + TsPackets(buf[n..], (cc + 1) % 0x100, pid, false)
  }

  /** Packet k carries the bytes from 184 * k on, with stuffing behind the last, after a sync byte, the start flag on
      the first packet only, the PID, and a control field that says payload only beside the counter k steps on. */
  lemma {:induction false} PacketAt(buf: seq<byte>, cc: byte, pid: nat, first: bool, k: nat)
    requires pid <= 0x1fff && 184 * k < |buf|
    ensures var ps, end := TsPackets(buf, cc, pid, first), Min(184 * k + 184, |buf|);
      && k < |ps|
      && ps[k][0] == 0x47 && ps[k][1] == pid / 0x100 + (if first && k == 0 then 0x40 else 0)
      && ps[k][2] == pid % 0x100 && ps[k][3] == 0x10 + (cc + k) % 0x10
      && ps[k][4..] == buf[184 * k..end] + Stuffing(184 * k + 184 - end)
    decreases k
  {
    hide Stuffing;
    var n := Min(|buf|, PAYLOAD_SIZE);
    if k == 0 {
      OnePacket(buf[..n], cc, pid, first);
      assert buf[184 * 0..n] == buf[..n];
    } else {
      hide TsPacket;
      PacketAt(buf[n..], (cc + 1) % 0x100, pid, false, k - 1);
      CounterStep(cc, k);
      var end := Min(184 * k + 184, |buf|);
      assert buf[n..][184 * (k - 1)..end - 184] == buf[184 * k..end];
    }
  }

  lemma OnePacket(chunk: seq<byte>, cc: byte, pid: nat, first: bool)
    requires |chunk| <= PAYLOAD_SIZE && pid <= 0x1fff
    ensures var p := TsPacket(chunk, cc, pid, first);
      && p[0] == 0x47 && p[1] == pid / 0x100 + (if first then 0x40 else 0) && p[2] == pid % 0x100
      && p[3] == 0x10 + cc % 0x10 && p[4..] == chunk + Stuffing(PAYLOAD_SIZE - |chunk|)
  {
    hide Stuffing;
    HeaderFirst(TsHeader(cc, pid, first), chunk, Stuffing(PAYLOAD_SIZE - |chunk|));
  }

  lemma HeaderFirst(header: seq<byte>, chunk: seq<byte>, stuffing: seq<byte>)
    requires |header| == 4
    ensures var p := header + chunk + stuffing;
      && p[0] == header[0] && p[1] == header[1] && p[2] == header[2] && p[3] == header[3]
      && p[4..] == chunk + stuffing
  {
  }

  lemma CounterStep(cc: byte, k: nat)
    requires k > 0
    ensures ((cc + 1) % 0x100 + (k - 1)) % 0x10 == (cc + k) % 0x10
  {
    var q := (cc + 1) / 0x100;
    assert cc + 1 == 0x100 * q + (cc + 1) % 0x100;
    assert cc + k == 0x10 * (0x10 * q) + ((cc + 1) % 0x100 + (k - 1));
  }

  function Flatten(ss: seq<Packet>): seq<byte>
  {
    if ss == [] then [] else ss[0] + Flatten(ss[1..])
  }

  method PutPacket(arr: array<byte>, at: nat, chunk: seq<byte>, cc: byte, pid: nat, first: bool)
    requires |chunk| <= PAYLOAD_SIZE && pid <= 0x1fff && at + PACKET_SIZE <= arr.Length
    modifies arr
    ensures arr[..] == Patch(old(arr[..]), at, TsPacket(chunk, cc, pid, first))
  {
    hide Patch;
    ghost var before := arr[..];
    var header: seq<byte> := [0x47, pid / 0x100, pid % 0x100, 0x10 + cc % 0x10];
    PutHeader(arr, at, header);
    CopyInto(arr, at + 4, chunk);
    PatchTwice(before, at, header, chunk);
    FillWithStuffing(arr, at + 4 + |chunk|, PACKET_SIZE - |chunk| - 4);
    PatchTwice(before, at, header + chunk, Stuffing(PACKET_SIZE - |chunk| - 4));
    if first {
      PatchOne(before, at, TsPacket(chunk, cc, pid, false), 1, pid / 0x100 + 0x40);
      SetFlag(chunk, cc, pid);
      SetByte(arr, at + 1, pid / 0x100 + 0x40);
    }
  }

  method PutHeader(arr: array<byte>, at: nat, header: seq<byte>)
    requires |header| == 4 && at + 4 <= arr.Length
    modifies arr
    ensures arr[..] == Patch(old(arr[..]), at, header)
  {
    arr[at], arr[at + 1], arr[at + 2], arr[at + 3] := header[0], header[1], header[2], header[3];
  }

  method SetByte(arr: array<byte>, at: nat, x: byte)
    requires at < arr.Length
    modifies arr
    ensures arr[..] == old(arr[..])[at := x]
  {
    arr[at] := x;
  }

  lemma SetFlag(chunk: seq<byte>, cc: byte, pid: nat)
    requires |chunk| <= PAYLOAD_SIZE && pid <= 0x1fff
    ensures TsPacket(chunk, cc, pid, true) == TsPacket(chunk, cc, pid, false)[1 := pid / 0x100 + 0x40]
  {
  }

  /** The transport packets of a PES packet one behind the other, and the counter for the next one. */
  method Packetize(buf: seq<byte>, packetSize: int, counter: byte, pid: nat)
    returns (ok: bool, pkts: array<byte>, count: nat, cc: byte)
    ensures ok <==> buf != [] && packetSize == PACKET_SIZE && pid <= 0x1fff
    ensures ok ==> count * PACKET_SIZE <= pkts.Length && cc == (counter + count) % 0x100
    ensures ok ==> count == |TsPackets(buf, counter, pid, true)|
    ensures ok ==> pkts[..count * PACKET_SIZE] == Flatten(TsPackets(buf, counter, pid, true))
  {
    hide Patch, TsPacket, TsPackets, Flatten, Min;
    cc, count := counter, 0;
    if buf == [] || packetSize != PACKET_SIZE || pid > 0x1fff {
      pkts := new byte[0];
      return false, pkts, 0, cc;
    }
    var packets := (|buf| / PAYLOAD_SIZE + 1) * PACKET_SIZE;
    pkts := new byte[packets * PACKET_SIZE](i => 0);
    var offset := 0;
    ghost var all := TsPackets(buf, counter, pid, true);
    assert buf[0..] == buf;
    OffsetStart(|buf|, counter);
    while offset < |buf|
      invariant offset == Min(count * PAYLOAD_SIZE, |buf|) && cc == (counter + count) % 0x100
      invariant count * PACKET_SIZE <= pkts.Length
      invariant count + |TsPackets(buf[offset..], cc, pid, count == 0)| == |all|
      invariant pkts[..count * PACKET_SIZE] + Flatten(TsPackets(buf[offset..], cc, pid, count == 0)) == Flatten(all)
      decreases |buf| - offset
    {
      OffsetStep(|buf|, count, counter);
      var rem := Min(|buf| - offset, PAYLOAD_SIZE);
      ghost var before := pkts[..];
      assert buf[offset..][..rem] == buf[offset..offset + rem] && buf[offset..][rem..] == buf[offset + rem..];
      PutPacket(pkts, count * PACKET_SIZE, buf[offset..offset + rem], cc, pid, count == 0);
      NextPacket(before, pkts[..], count * PACKET_SIZE, buf[offset..], cc, pid, count == 0);
      offset := offset + rem;
      cc := (cc + 1) % 0x100;
      count := count + 1;
    }
    assert offset == |buf|;
    NoPackets(buf[offset..], cc, pid, count == 0);
    assert pkts[..count * PACKET_SIZE] + [] == pkts[..count * PACKET_SIZE];
    ok := true;
  }

  lemma OffsetStart(n: nat, counter: byte)
    ensures Min(0, n) == 0 && (counter + 0) % 0x100 == counter
  {
  }

  /** After count full payloads of n bytes there is room for one more packet; the next offset and counter. */
  lemma OffsetStep(n: nat, count: nat, counter: byte)
    requires Min(count * PAYLOAD_SIZE, n) < n
    ensures Min(count * PAYLOAD_SIZE, n) == count * PAYLOAD_SIZE
    ensures count * PAYLOAD_SIZE + Min(n - count * PAYLOAD_SIZE, PAYLOAD_SIZE) == Min((count + 1) * PAYLOAD_SIZE, n)
    ensures (count + 1) * PACKET_SIZE <= (n / PAYLOAD_SIZE + 1) * PACKET_SIZE * PACKET_SIZE
    ensures ((counter + count) % 0x100 + 1) % 0x100 == (counter + (count + 1)) % 0x100
  {
  }

  lemma NoPackets(buf: seq<byte>, cc: byte, pid: nat, first: bool)
    requires buf == [] && pid <= 0x1fff
    ensures TsPackets(buf, cc, pid, first) == [] && Flatten(TsPackets(buf, cc, pid, first)) == []
  {
  }

  lemma NextPacket(before: seq<byte>, after: seq<byte>, at: nat, rest: seq<byte>, cc: byte, pid: nat, first: bool)
    requires rest != [] && pid <= 0x1fff && at + PACKET_SIZE <= |before|
    requires after == Patch(before, at, TsPacket(rest[..Min(|rest|, PAYLOAD_SIZE)], cc, pid, first))
    ensures |after| == |before|
    ensures after[..at + PACKET_SIZE]
      + Flatten(TsPackets(rest[Min(|rest|, PAYLOAD_SIZE)..], (cc + 1) % 0x100, pid, false))
      == before[..at] + Flatten(TsPackets(rest, cc, pid, first))
    ensures |TsPackets(rest, cc, pid, first)|
      == 1 + |TsPackets(rest[Min(|rest|, PAYLOAD_SIZE)..], (cc + 1) % 0x100, pid, false)|
  {
    hide TsPacket, TsPackets, Flatten, Patch;
    var n := Min(|rest|, PAYLOAD_SIZE);
    hide Min;
    var p, more := TsPacket(rest[..n], cc, pid, first), TsPackets(rest[n..], (cc + 1) % 0x100, pid, false);
    PatchFront(before, at, p);
    FirstPacket(rest, cc, pid, first);
    FlattenFirst(p, more);
  }

  lemma FirstPacket(rest: seq<byte>, cc: byte, pid: nat, first: bool)
    requires rest != [] && pid <= 0x1fff
    ensures var n := Min(|rest|, PAYLOAD_SIZE);
      TsPackets(rest, cc, pid, first)
      == [TsPacket(rest[..n], cc, pid, first)] + TsPackets(rest[n..], (cc + 1) % 0x100, pid, false)
  {
    hide TsPacket;
  }

  lemma FlattenFirst(p: Packet, more: seq<Packet>)
    ensures Flatten([p] + more) == p + Flatten(more)
  {
    assert ([p] + more)[1..] == more;
  }

  lemma PatchFront(d: seq<byte>, at: nat, p: seq<byte>)
    requires at + |p| <= |d|
    ensures Patch(d, at, p)[..at + |p|] == d[..at] + p
  {
  }
}

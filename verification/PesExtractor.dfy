/** Collecting private stream PES packets from transport packets. */
module PesExtraction {
  import opened Bits
  import opened RingBuffers
  import opened TsPacketizer

  const MAX_PES_SIZE := 16384
  const RING_LIMIT := 1048576
  const START: seq<byte> := [0x00, 0x00, 0x01, 0xbd]

  function Word16(high: nat, low: nat): nat
  {
    0x100 * high + low
  }

  // ---- the extractor as a function of the queued bytes -------------------------------------------

  /** The sliding window b over the queue q, after i steps; the loop stops when i reaches what is left. */
  function Search(b: seq<byte>, q: seq<byte>, i: nat): (bool, seq<byte>)
    requires |b| == 4
    decreases |q|
  {
    if i >= |q| then (false, q)
    else if b == START then (true, q)
    else Search(b[1..] + [q[0]], q[1..], i + 1)
  }

  function Seek(q: seq<byte>, sync: bool): (bool, seq<byte>)
  {
    if !sync && |q| > 16 then Search(q[..4], q[4..], 0) else (sync, q)
  }

  lemma {:induction false} SearchShrinks(b: seq<byte>, q: seq<byte>, i: nat)
    requires |b| == 4
    ensures |Search(b, q, i).1| <= |q|
    decreases |q|
  {
    if i >= |q| || b == START {
    } else {
      SearchShrinks(b[1..] + [q[0]], q[1..], i + 1);
    }
  }

  datatype Drained = Drained(out: seq<seq<byte>>, queue: seq<byte>, sync: bool)

  /** The PES packets called back with, and what is left, after one pass over the queue. */
  function Drain(q: seq<byte>, sync: bool): Drained
    decreases |q|
  {
    var (found, rest) := Seek(q, sync);
    SearchShrinks(if |q| > 16 then q[..4] else START, if |q| > 16 then q[4..] else [], 0);
    if !found || |rest| < 2 then Drained([], rest, found)
    else
      var length := Word16(rest[0], rest[1]);
      if |rest| >= length + 2 then
        var more := Drain(rest[length + 2..], false);
        Drained([START + rest[..length + 2]] + more.out, more.queue, more.sync)
      else Drained([], rest, true)
  }

  /** The same over a list of transport payloads. */
  function Feed(q: seq<byte>, sync: bool, chunks: seq<seq<byte>>): Drained
    decreases |chunks|
  {
    if chunks == [] then Drained([], q, sync)
    else
      var d := Drain(q + chunks[0], sync);
      var more := Feed(d.queue, d.sync, chunks[1..]);
      Drained(d.out + more.out, more.queue, more.sync)
  }

  /** The indices of the ring after n bytes were queued and all but left of them drained. */
  function Passed(s: Shape, n: nat, left: nat): Shape
    requires s.Valid() && s.AfterWrite(n).Valid() && left <= s.fill + n
  {
    s.AfterWrite(n).AfterRead(s.fill + n - left)
  }

  lemma PassedValid(s: Shape, n: nat, left: nat)
    requires s.Valid() && s.InBounds(n) && !s.Refused(n) && left <= s.fill + n
    ensures s.AfterWrite(n).Valid() && s.AfterWrite(n).fill == s.fill + n
    ensures Passed(s, n, left).Valid() && Passed(s, n, left).fill == left
  {
    NextValid(s, RingBuffers.Write(seq(n, i => 0)));
    ReadTwice(s.AfterWrite(n), s.fill + n - left, 0);
  }

  lemma {:induction false} DrainShrinks(q: seq<byte>, sync: bool)
    ensures |Drain(q, sync).queue| <= |q|
    decreases |q|
  {
    hide Search;
    DrainStep(q, sync);
    var (found, rest) := Seek(q, sync);
    if found && |rest| >= 2 && |rest| >= Word16(rest[0], rest[1]) + 2 {
      DrainShrinks(rest[Word16(rest[0], rest[1]) + 2..], false);
    }
  }

  /** Every payload is written to the ring without loss: none is refused, and growth never meets wrapped contents.
      This depends on the indices of the ring and on how much each payload lets the extractor drain. */
  predicate Lossless(s: Shape, q: seq<byte>, sync: bool, chunks: seq<seq<byte>>)
    requires s.Valid() && s.fill == |q|
    decreases |chunks|
  {
    chunks == [] ||
    (s.WriteAllowed(|chunks[0]|) && !s.Refused(|chunks[0]|) &&
     var d := Drain(q + chunks[0], sync);
     (DrainShrinks(q + chunks[0], sync); PassedValid(s, |chunks[0]|, |d.queue|);
      Lossless(Passed(s, |chunks[0]|, |d.queue|), d.queue, d.sync, chunks[1..])))
  }

  /** The indices of the ring after a lossless run. */
  function ShapeAfter(s: Shape, q: seq<byte>, sync: bool, chunks: seq<seq<byte>>): Shape
    requires s.Valid() && s.fill == |q| && Lossless(s, q, sync, chunks)
    decreases |chunks|
  {
    if chunks == [] then s
    else
      var d := Drain(q + chunks[0], sync);
      DrainShrinks(q + chunks[0], sync);
      PassedValid(s, |chunks[0]|, |d.queue|);
      ShapeAfter(Passed(s, |chunks[0]|, |d.queue|), d.queue, d.sync, chunks[1..])
  }

  // ---- transport packets ------------------------------------------------------------------------

  function Pid(p: seq<byte>): nat
    requires |p| == PACKET_SIZE
  {
    Word16(p[1], p[2]) % 0x2000
  }

  /** Where the payload begins: behind the adaptation field, if there is one. */
  function Offset(p: seq<byte>): nat
    requires |p| == PACKET_SIZE
  {
    var adaption := (p[3] / 0x10) % 4;
    var fieldLength: nat := p[4];
    if adaption == 2 || adaption == 3 then 5 + fieldLength else 4
  }

  /** The payloads of the packets with the wanted PID. */
  function Payloads(pkts: seq<Packet>, pid: nat): seq<seq<byte>>
    requires Sound(pkts, pid)
  {
    if pkts == [] then []
    else if Pid(pkts[0]) == pid then [pkts[0][Offset(pkts[0])..]] + Payloads(pkts[1..], pid)
    else Payloads(pkts[1..], pid)
  }

  /** No packet with the wanted PID claims an adaptation field longer than itself. */
  predicate Sound(pkts: seq<Packet>, pid: nat)
  {
    pkts == [] || ((Pid(pkts[0]) == pid ==> Offset(pkts[0]) <= PACKET_SIZE) && Sound(pkts[1..], pid))
  }

  function Split(buf: seq<byte>): seq<Packet>
    requires |buf| % PACKET_SIZE == 0
  {
    if buf == [] then [] else [buf[..PACKET_SIZE]] + Split(buf[PACKET_SIZE..])
  }

  lemma NextOfSplit(buf: seq<byte>, pid: nat)
    requires |buf| % PACKET_SIZE == 0 && buf != [] && Sound(Split(buf), pid)
    ensures var p, more := buf[..PACKET_SIZE], Split(buf[PACKET_SIZE..]);
      && Sound(more, pid) && (Pid(p) == pid ==> Offset(p) <= PACKET_SIZE)
      && Payloads(Split(buf), pid) ==
        if Pid(p) == pid then [p[Offset(p)..]] + Payloads(more, pid) else Payloads(more, pid)
  {
    hide Pid, Offset;
    assert Split(buf)[1..] == Split(buf[PACKET_SIZE..]);
  }

  lemma FeedStep(s: Shape, q: seq<byte>, sync: bool, c: seq<byte>, more: seq<seq<byte>>)
    requires s.Valid() && s.fill == |q|
    ensures var d := Drain(q + c, sync);
      Feed(q, sync, [c] + more) == Before(d.out, Feed(d.queue, d.sync, more))
    ensures !s.WriteAllowed(|c|) || s.Refused(|c|) ==> !Lossless(s, q, sync, [c] + more)
    ensures s.WriteAllowed(|c|) && !s.Refused(|c|) ==>
      var d := Drain(q + c, sync);
      && |d.queue| <= |q| + |c| && s.AfterWrite(|c|).Valid()
      && var t := Passed(s, |c|, |d.queue|);
      && t.Valid() && t.fill == |d.queue|
      && (Lossless(s, q, sync, [c] + more) <==> Lossless(t, d.queue, d.sync, more))
      && (Lossless(s, q, sync, [c] + more) ==>
          ShapeAfter(s, q, sync, [c] + more) == ShapeAfter(t, d.queue, d.sync, more))
  {
    assert ([c] + more)[1..] == more;
    if s.WriteAllowed(|c|) && !s.Refused(|c|) {
      DrainShrinks(q + c, sync);
      PassedValid(s, |c|, |Drain(q + c, sync).queue|);
    }
    hide Drain;
  }

  lemma NothingLeft(s: Shape, q: seq<byte>, sync: bool, pid: nat)
    requires s.Valid() && s.fill == |q|
    ensures Sound([], pid) && Payloads(Split([]), pid) == []
    ensures Feed(q, sync, []) == Drained([], q, sync) && Lossless(s, q, sync, []) && ShapeAfter(s, q, sync, []) == s
  {
  }

  // ---- resuming in the middle of a run ----------------------------------------------------------

  function Before(out: seq<seq<byte>>, d: Drained): Drained
  {
    Drained(out + d.out, d.queue, d.sync)
  }

  /** With delivered so far and now still to come, the run that began with before ends as total says. */
  predicate Resumes(total: Drained, before: seq<seq<byte>>, delivered: seq<seq<byte>>, now: Drained)
  {
    before + total.out == delivered + now.out && total.queue == now.queue && total.sync == now.sync
  }

  lemma Starts(total: Drained, delivered: seq<seq<byte>>)
    ensures Resumes(total, delivered, delivered, total)
  {
  }

  lemma Ends(total: Drained, before: seq<seq<byte>>, delivered: seq<seq<byte>>, now: Drained)
    requires Resumes(total, before, delivered, now) && now.out == []
    ensures delivered == before + total.out && now.queue == total.queue && now.sync == total.sync
  {
  }

  lemma Continues(total: Drained, before: seq<seq<byte>>, delivered: seq<seq<byte>>, out: seq<seq<byte>>, next: Drained)
    requires Resumes(total, before, delivered, Before(out, next))
    ensures Resumes(total, before, delivered + out, next)
  {
    assert delivered + (out + next.out) == (delivered + out) + next.out;
  }

  lemma SearchStep(b: seq<byte>, q: seq<byte>, i: nat)
    requires |b| == 4
    ensures Search(b, q, i) == if i >= |q| then (false, q) else if b == START then (true, q)
      else Search(b[1..] + q[..1], q[1..], i + 1)
  {
    assert i < |q| ==> q[..1] == [q[0]];
  }

  lemma DrainStep(q: seq<byte>, sync: bool)
    ensures var (found, rest) := Seek(q, sync);
      && |rest| <= |q|
      && Drain(q, sync) ==
        if !found || |rest| < 2 then Drained([], rest, found)
        else if |rest| < Word16(rest[0], rest[1]) + 2 then Drained([], rest, true)
        else Before([START + rest[..Word16(rest[0], rest[1]) + 2]],
                    Drain(rest[Word16(rest[0], rest[1]) + 2..], false))
  {
    hide Search;
    if |q| > 16 {
      SearchShrinks(q[..4], q[4..], 0);
    }
  }

  // ---- the extractor ------------------------------------------------------------------------------

  class PesExtractor {
    const pid: nat
    const rb: RingBuffer
    var hasSync: bool
    var delivered: seq<seq<byte>>   // every PES packet handed to the callback

    ghost predicate Valid()
      reads this, rb
    {
      rb.Valid()
    }

    constructor (pid: nat)
      ensures Valid() && fresh(rb) && fresh(rb.data) && this.pid == pid
      ensures rb.Contents() == [] && !hasSync && delivered == []
      ensures rb.State() == Shape(MAX_PES_SIZE, 0, 0, RING_LIMIT, MAX_PES_SIZE)
    {
      this.pid := pid;
      rb := new RingBuffer(MAX_PES_SIZE, RING_LIMIT);
      hasSync, delivered := false, [];
    }

    /** Slides a four-byte window over the queue, which shrinks as the count of steps grows. */
    method FindSync()
      requires Valid() && !hasSync && rb.fill > 16
      modifies this`hasSync, rb
      ensures Valid() && (rb.data == old(rb.data) || fresh(rb.data))
      ensures (hasSync, rb.Contents()) == Search(old(rb.Contents())[..4], old(rb.Contents())[4..], 0)
      ensures rb.fill <= old(rb.fill) && rb.State() == old(rb.State()).AfterRead(old(rb.fill) - rb.fill)
    {
      hide Search, Window, Index;
      ghost var s := rb.State();
      ghost var q := rb.Contents();
      var b := rb.Read(4);
      var i := 0;
      ghost var result := Search(q[..4], q[4..], 0);
      while i < rb.fill
        invariant rb.Valid() && (rb.data == old(rb.data) || fresh(rb.data)) && |b| == 4 && !hasSync
        invariant rb.fill <= s.fill && rb.State() == s.AfterRead(s.fill - rb.fill)
        invariant Search(b, rb.Contents(), i) == result
        decreases rb.fill
      {
        SearchStep(b, rb.Contents(), i);
        if b == START {
          hasSync := true;
          return;
        }
        ReadTwice(s, s.fill - rb.fill, 1);
        var next := rb.Read(1);
        b := b[1..] + next;
        i := i + 1;
      }
      SearchStep(b, rb.Contents(), i);
    }

    /** Everything after the payload has been queued. */
    method Dequeue()
      requires Valid()
      modifies this`hasSync, this`delivered, rb
      ensures Valid() && (rb.data == old(rb.data) || fresh(rb.data))
      ensures var d := Drain(old(rb.Contents()), old(hasSync));
        delivered == old(delivered) + d.out && rb.Contents() == d.queue && hasSync == d.sync
      ensures rb.fill <= old(rb.fill) && rb.State() == old(rb.State()).AfterRead(old(rb.fill) - rb.fill)
    {
      hide Drain, Search, Window, Index;
      ghost var s := rb.State();
      ghost var d := Drain(rb.Contents(), hasSync);
      assert delivered + d.out == old(delivered) + d.out;
      var more := true;
      while more
        invariant rb.Valid() && (rb.data == old(rb.data) || fresh(rb.data))
        invariant rb.fill <= s.fill && rb.State() == s.AfterRead(s.fill - rb.fill)
        invariant more ==> Resumes(d, old(delivered), delivered, Drain(rb.Contents(), hasSync))
        invariant !more ==> delivered == old(delivered) + d.out && rb.Contents() == d.queue && hasSync == d.sync
        decreases if more then 1 else 0, rb.fill
      {
        ghost var before := rb.State();
        more := DequeueOne(d, old(delivered));
        ReadTwice(s, s.fill - before.fill, before.fill - rb.fill);
      }
    }

    /** One turn of the loop; a false result leaves it. */
    method DequeueOne(ghost d: Drained, ghost before: seq<seq<byte>>) returns (more: bool)
      requires Valid() && Resumes(d, before, delivered, Drain(rb.Contents(), hasSync))
      modifies this`hasSync, this`delivered, rb
      ensures Valid() && (rb.data == old(rb.data) || fresh(rb.data))
      ensures rb.fill <= old(rb.fill) && rb.State() == old(rb.State()).AfterRead(old(rb.fill) - rb.fill)
      ensures more ==> Resumes(d, before, delivered, Drain(rb.Contents(), hasSync)) && rb.fill < old(rb.fill)
      ensures !more ==> delivered == before + d.out && rb.Contents() == d.queue && hasSync == d.sync
    {
      hide Drain, Search, Window, Index, Resumes;
      ghost var q, s := rb.Contents(), rb.State();
      DrainStep(q, hasSync);
      ghost var (found, rest) := Seek(q, hasSync);
      if !hasSync && rb.fill > 16 {
        FindSync();
      }
      assert (hasSync, rb.Contents()) == (found, rest);
      if !hasSync {
        Ends(d, before, delivered, Drained([], rest, found));
        return false;
      }
      var l := rb.Peek(2);
      if |l| != 2 {
        Ends(d, before, delivered, Drained([], rest, found));
        return false;
      }
      assert l == rest[..2];
      var length := Word16(l[0], l[1]);
      if rb.fill >= length + 2 {
        ReadTwice(s, s.fill - rb.fill, length + 2);
        var msg := rb.Read(length + 2);
        Continues(d, before, delivered, [START + msg], Drain(rest[length + 2..], false));
        delivered := delivered + [START + msg];
        hasSync := false;
        return true;
      }
      Ends(d, before, delivered, Drained([], rest, true));
      return false;
    }

    /** Queues a packet's payload and drains what is complete; a refused write changes nothing, and growth of
        wrapped contents leaves junk among them. */
    method ProcessPacket(p: seq<byte>) returns (ghost junk: seq<byte>)
      requires Valid() && |p| == PACKET_SIZE && Offset(p) <= PACKET_SIZE
      requires rb.State().InBounds(PACKET_SIZE - Offset(p))
      modifies this`hasSync, this`delivered, rb, rb.data
      ensures Valid() && (rb.data == old(rb.data) || fresh(rb.data))
      ensures old(rb.State()).Refused(PACKET_SIZE - Offset(p)) ==>
        (delivered == old(delivered) && rb.Contents() == old(rb.Contents()) && hasSync == old(hasSync)
         && rb.State() == old(rb.State()))
      ensures !old(rb.State()).Refused(PACKET_SIZE - Offset(p)) ==>
        var q := if old(rb.State()).WriteAllowed(PACKET_SIZE - Offset(p)) then old(rb.Contents())
          else Window(old(rb.data[..]) + junk, old(rb.head), old(rb.fill));
        var d := Drain(q + p[Offset(p)..], old(hasSync));
        && delivered == old(delivered) + d.out && rb.Contents() == d.queue && hasSync == d.sync
        && rb.fill <= old(rb.fill) + PACKET_SIZE - Offset(p)
        && rb.State() == old(rb.State()).AfterWrite(PACKET_SIZE - Offset(p))
           .AfterRead(old(rb.fill) + PACKET_SIZE - Offset(p) - rb.fill)
    {
      hide Drain, Window, Index;
      var offset := 4;
      var adaption := (p[3] / 0x10) % 4;
      if adaption == 2 || adaption == 3 {
        var fieldLength: nat := p[4];
        offset := offset + 1 + fieldLength;
      }
      var wlen := PACKET_SIZE - offset;
      NextValid(rb.State(), RingBuffers.Write(p[offset..]));
      var l;
      l, junk := rb.Write(p[offset..]);
      if l != wlen {
        return;
      }
      Dequeue();
    }

    /** A run of transport packets, one behind the other in a buffer. */
    method Push(buf: seq<byte>, packetCount: int) returns (n: nat)
      requires Valid()
      requires packetCount > 0 ==> |buf| == packetCount * PACKET_SIZE && Sound(Split(buf), pid)
      requires packetCount > 0 ==> Lossless(rb.State(), rb.Contents(), hasSync, Payloads(Split(buf), pid))
      modifies this`hasSync, this`delivered, rb, rb.data
      ensures Valid() && (rb.data == old(rb.data) || fresh(rb.data))
      ensures n == if packetCount < 1 then 0 else packetCount
      ensures packetCount < 1 ==>
        (delivered == old(delivered) && rb.Contents() == old(rb.Contents()) && hasSync == old(hasSync)
         && rb.State() == old(rb.State()))
      ensures packetCount >= 1 ==>
        var chunks := Payloads(Split(buf), pid);
        var d := Feed(old(rb.Contents()), old(hasSync), chunks);
        && delivered == old(delivered) + d.out && rb.Contents() == d.queue && hasSync == d.sync
        && rb.State() == ShapeAfter(old(rb.State()), old(rb.Contents()), old(hasSync), chunks)
    {
      hide Drain, Feed, Lossless, ShapeAfter, Window, Index, Payloads, Split, Sound, Pid, Offset, Resumes;
      if packetCount < 1 {
        return 0;
      }
      ghost var result := Feed(rb.Contents(), hasSync, Payloads(Split(buf), pid));
      ghost var last := ShapeAfter(rb.State(), rb.Contents(), hasSync, Payloads(Split(buf), pid));
      Starts(result, delivered);
      var i := 0;
      assert buf[0..] == buf;
      while i < packetCount
        invariant 0 <= i <= packetCount
        invariant rb.Valid() && (rb.data == old(rb.data) || fresh(rb.data))
        invariant Pending(result, last, old(delivered), buf[i * PACKET_SIZE..])
      {
        assert buf[i * PACKET_SIZE..][PACKET_SIZE..] == buf[(i + 1) * PACKET_SIZE..];
        PushOne(result, last, old(delivered), buf[i * PACKET_SIZE..]);
        i := i + 1;
      }
      assert buf[packetCount * PACKET_SIZE..] == [];
      NothingLeft(rb.State(), rb.Contents(), hasSync, pid);
      Ends(result, old(delivered), delivered, Drained([], rb.Contents(), hasSync));
      return packetCount;
    }

    /** The packets in buf are still to come, without loss, and lead to the end foreseen. */
    ghost predicate Pending(total: Drained, last: Shape, before: seq<seq<byte>>, buf: seq<byte>)
      requires Valid()
      reads this, rb, rb.data
    {
      && |buf| % PACKET_SIZE == 0 && Sound(Split(buf), pid)
      && var chunks := Payloads(Split(buf), pid);
      && Lossless(rb.State(), rb.Contents(), hasSync, chunks)
      && ShapeAfter(rb.State(), rb.Contents(), hasSync, chunks) == last
      && Resumes(total, before, delivered, Feed(rb.Contents(), hasSync, chunks))
    }

    method PushOne(ghost total: Drained, ghost last: Shape, ghost before: seq<seq<byte>>, here: seq<byte>)
      requires Valid() && here != [] && Pending(total, last, before, here)
      modifies this`hasSync, this`delivered, rb, rb.data
      ensures Valid() && (rb.data == old(rb.data) || fresh(rb.data))
      ensures Pending(total, last, before, here[PACKET_SIZE..])
    {
      hide Drain, Feed, Lossless, ShapeAfter, Window, Index, Payloads, Split, Sound, Offset, Resumes;
      ghost var next := here[PACKET_SIZE..];
      var p := here[..PACKET_SIZE];
      NextOfSplit(here, pid);
      if Word16(p[1], p[2]) % 0x2000 == pid {
        FeedStep(rb.State(), rb.Contents(), hasSync, p[Offset(p)..], Payloads(Split(next), pid));
        ghost var d := Drain(rb.Contents() + p[Offset(p)..], hasSync);
        Continues(total, before, delivered, d.out, Feed(d.queue, d.sync, Payloads(Split(next), pid)));
        var _ := ProcessPacket(p);
      }
    }
  }
}

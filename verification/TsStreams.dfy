/** PES packets spread over transport packets in any way a multiplexer may choose. */
module TsStreams {
  import opened Bits
  import opened Memory
  import opened RingBuffers
  import opened TsPacketizer
  import opened PesExtraction
  import opened TsTransport

  // ---- a transport packet from any source -----------------------------------------------------------

  /** A transport packet by its parts: header, and payload behind an adaptation field or not. */
  datatype WirePacket =
    | Plain(header: seq<byte>, payload: seq<byte>)
    | Adapted(header: seq<byte>, field: seq<byte>, payload: seq<byte>)

  /** The low thirteen bits of the second and third byte. */
  function PidOf(header: seq<byte>): nat
    requires |header| == 4
  {
    (header[1] % 0x20) as int * 0x100 + header[2] as int
  }

  /** The adaptation field control in the header says which it is, and the parts fill 188 bytes. */
  predicate WellFormed(w: WirePacket)
  {
    |w.header| == 4 &&
    match w
    case Plain(header, payload) => (header[3] / 0x10) % 4 in {0, 1} && |payload| == 184
    case Adapted(header, field, payload) => (header[3] / 0x10) % 4 in {2, 3} && |field| + |payload| == 183
  }

  /** Behind the header stands the length of the adaptation field, if there is one. */
  function Bytes(w: WirePacket): Packet
    requires WellFormed(w)
  {
    match w
    case Plain(header, payload) => header + payload
    case Adapted(header, field, payload) => header + [|field|] + field + payload
  }

  /** The extractor takes exactly the payload, however long the adaptation field is. */
  lemma PayloadBehind(w: WirePacket)
    requires WellFormed(w)
    ensures var p := Bytes(w);
      && Pid(p) == PidOf(w.header)
      && Offset(p) <= PACKET_SIZE && p[Offset(p)..] == w.payload
  {
    hide Bytes, Offset, Pid;
    SamePid(w);
    match w
    case Plain(header, payload) => BehindHeader(header, payload);
    case Adapted(header, field, payload) => BehindField(header, field, payload);
  }

  lemma SamePid(w: WirePacket)
    requires WellFormed(w)
    ensures Pid(Bytes(w)) == PidOf(w.header)
  {
    hide Word16;
    var p := Bytes(w);
    assert p[1] == w.header[1] && p[2] == w.header[2];
    LowThirteen(p[1], p[2]);
  }

  lemma LowThirteen(high: byte, low: byte)
    ensures Word16(high, low) % 0x2000 == (high % 0x20) as int * 0x100 + low as int
  {
    var q, r := (high / 0x20) as int, (high % 0x20) as int;
    assert Word16(high, low) == 0x2000 * q + (r * 0x100 + low as int);
  }

  lemma BehindHeader(header: seq<byte>, payload: seq<byte>)
    requires WellFormed(Plain(header, payload))
    ensures var p := Bytes(Plain(header, payload)); Offset(p) == 4 && p[4..] == payload
  {
    var p := Bytes(Plain(header, payload));
    assert p[3] == header[3];
  }

  lemma BehindField(header: seq<byte>, field: seq<byte>, payload: seq<byte>)
    requires WellFormed(Adapted(header, field, payload))
    ensures var p := Bytes(Adapted(header, field, payload));
      Offset(p) == 5 + |field| && p[5 + |field|..] == payload
  {
    var p := Bytes(Adapted(header, field, payload));
    var front := header + [|field|] + field;
    assert p[3] == header[3] && p[4] == |field|;
    assert p == front + payload;
  }

  predicate AllWellFormed(ws: seq<WirePacket>)
  {
    forall i :: 0 <= i < |ws| ==> WellFormed(ws[i])
  }

  function AllBytes(ws: seq<WirePacket>): seq<Packet>
    requires AllWellFormed(ws)
  {
    if ws == [] then [] else [Bytes(ws[0])] + AllBytes(ws[1..])
  }

  function Contents(ws: seq<WirePacket>): (cs: seq<seq<byte>>)
    ensures |cs| == |ws|
  {
    if ws == [] then [] else [ws[0].payload] + Contents(ws[1..])
  }

  predicate OnPid(ws: seq<WirePacket>, pid: nat)
  {
    forall i :: 0 <= i < |ws| ==> |ws[i].header| == 4 && PidOf(ws[i].header) == pid
  }

  lemma {:induction false} ContentsArePayloads(ws: seq<WirePacket>, pid: nat)
    requires AllWellFormed(ws) && OnPid(ws, pid)
    ensures Sound(AllBytes(ws), pid) && Payloads(AllBytes(ws), pid) == Contents(ws)
  {
    hide Pid, Offset, Bytes, WellFormed;
    if ws == [] {
    } else {
      ContentsArePayloads(ws[1..], pid);
      PayloadBehind(ws[0]);
      PayloadsCons(Bytes(ws[0]), AllBytes(ws[1..]), pid);
    }
  }

  /** One transport packet through the extractor: the bytes queued are those of its payload, no more and no fewer. */
  method ProcessWire(pe: PesExtractor, w: WirePacket)
    requires pe.Valid() && WellFormed(w)
    requires pe.rb.State().WriteAllowed(|w.payload|) && !pe.rb.State().Refused(|w.payload|)
    modifies pe`hasSync, pe`delivered, pe.rb, pe.rb.data
    ensures pe.Valid() && (pe.rb.data == old(pe.rb.data) || fresh(pe.rb.data))
    ensures var d := Drain(old(pe.rb.Contents()) + w.payload, old(pe.hasSync));
      && pe.delivered == old(pe.delivered) + d.out && pe.rb.Contents() == d.queue && pe.hasSync == d.sync
  {
    hide Drain, Window, Offset;
    PayloadBehind(w);
    var _ := pe.ProcessPacket(Bytes(w));
  }

  // ---- the bytes of a stream ------------------------------------------------------------------------

  function Concat(ss: seq<seq<byte>>): seq<byte>
  {
    if ss == [] then [] else ss[0] + Concat(ss[1..])
  }

  /** What has been received and not yet delivered; the start code is read before it is known to be one. */
  function Unread(q: seq<byte>, sync: bool): seq<byte>
  {
    if sync then START + q else q
  }

  /** The packets delivered of a stream that ends with them: all but those within its last sixteen bytes. */
  function Through(ps: seq<seq<byte>>): seq<seq<byte>>
  {
    if ps == [] || |Concat(ps)| <= 16 then [] else [ps[0]] + Through(ps[1..])
  }

  /** The bytes still waiting then. */
  function Waiting(ps: seq<seq<byte>>): seq<byte>
  {
    if ps == [] || |Concat(ps)| <= 16 then Concat(ps) else Waiting(ps[1..])
  }

  /** Nothing more can be delivered without more bytes. */
  predicate Settled(q: seq<byte>, sync: bool, ps: seq<seq<byte>>)
  {
    if sync then ps != [] && 16 < |q| + 4 < |ps[0]| else |q| <= 16
  }

  lemma FirstPes(ps: seq<seq<byte>>, u: seq<byte>, tail: seq<byte>)
    requires AllPes(ps) && u + tail == Concat(ps) && |u| > 16
    ensures ps != [] && IsPes(ps[0]) && AllPes(ps[1..]) && Concat(ps) == ps[0] + Concat(ps[1..])
    ensures u[..4] == START && |ps[0]| == Word16(u[4], u[5]) + 6
    ensures |u| >= |ps[0]| ==> u[..|ps[0]|] == ps[0] && u[|ps[0]|..] + tail == Concat(ps[1..])
    ensures Through(ps) == [ps[0]] + Through(ps[1..]) && Waiting(ps) == Waiting(ps[1..])
  {
    hide Through, Waiting;
    var p, more := ps[0], Concat(ps[1..]);
    assert u + tail == p + more && IsPes(p);
    forall i | 0 <= i < |u| && i < |p|
      ensures u[i] == p[i]
    {
      assert (u + tail)[i] == u[i] && (p + more)[i] == p[i];
    }
    assert u[..4] == p[..4];
    if |u| >= |p| {
      assert u[..|p|] == p;
      assert (u + tail)[|p|..] == u[|p|..] + tail && (p + more)[|p|..] == more;
    }
    MoreThrough(ps);
  }

  lemma MoreThrough(ps: seq<seq<byte>>)
    requires ps != [] && |Concat(ps)| > 16
    ensures Through(ps) == [ps[0]] + Through(ps[1..]) && Waiting(ps) == Waiting(ps[1..])
  {
  }

  lemma SeekFinds(q: seq<byte>)
    requires |q| > 16 && q[..4] == START
    ensures Seek(q, false) == (true, q[4..])
  {
    SearchStep(q[..4], q[4..], 0);
    hide Search;
  }

  /** One pass over the queue: what it delivers is the front of the list, and the rest is still to come. */
  lemma {:induction false} DrainStream(q: seq<byte>, sync: bool, ps: seq<seq<byte>>, tail: seq<byte>)
    returns (more: seq<seq<byte>>)
    requires AllPes(ps) && Unread(q, sync) + tail == Concat(ps) && (sync ==> |q| > 12)
    ensures var d := Drain(q, sync);
      && AllPes(more) && ps == d.out + more && Unread(d.queue, d.sync) + tail == Concat(more)
      && Settled(d.queue, d.sync, more)
      && Through(ps) == d.out + Through(more) && Waiting(ps) == Waiting(more)
    decreases |q|, if sync then 0 else 1
  {
    hide Drain, Seek, Search, AllPes, IsPes, Concat, Through, Waiting;
    if !sync && |q| <= 16 {
      more := ps;
      NotEnough(q);
      assert [] + ps == ps && [] + Through(ps) == Through(ps);
    } else if !sync {
      FirstPes(ps, q, tail);
      SeekFinds(q);
      assert START + q[4..] == q;
      DrainSynced(q, q[4..]);
      more := DrainStream(q[4..], true, ps, tail);
    } else {
      var u := START + q;
      FirstPes(ps, u, tail);
      var p := ps[0];
      assert u[4] == q[0] && u[5] == q[1];
      Synced(q);
      if |u| >= |p| {
        var rest := q[|p| - 4..];
        assert u[|p|..] == rest && START + q[..|p| - 4] == u[..|p|];
        more := DrainStream(rest, false, ps[1..], tail);
        OneMore(ps, Drain(rest, false).out, more);
        OneMore(Through(ps), Drain(rest, false).out, Through(more));
      } else {
        more := ps;
        assert [] + ps == ps && [] + Through(ps) == Through(ps);
      }
    }
  }

  lemma OneMore(ps: seq<seq<byte>>, out: seq<seq<byte>>, more: seq<seq<byte>>)
    requires ps != [] && ps[1..] == out + more
    ensures ps == ([ps[0]] + out) + more
  {
    assert ps == [ps[0]] + ps[1..];
  }

  lemma NotEnough(q: seq<byte>)
    requires |q| <= 16
    ensures Drain(q, false) == Drained([], q, false)
  {
    DrainStep(q, false);
    hide Drain;
  }

  lemma Synced(q: seq<byte>)
    requires |q| >= 2
    ensures var n := Word16(q[0], q[1]) + 2;
      Drain(q, true) == if |q| < n then Drained([], q, true) else Before([START + q[..n]], Drain(q[n..], false))
  {
    DrainStep(q, true);
    hide Drain;
  }

  /** However the bytes of a list of PES packets are cut into payloads, the extractor delivers the same. */
  lemma {:induction false} StreamFed(q: seq<byte>, sync: bool, cs: seq<seq<byte>>, ps: seq<seq<byte>>)
    requires AllPes(ps) && Unread(q, sync) + Concat(cs) == Concat(ps) && Settled(q, sync, ps)
    ensures Feed(q, sync, cs) == Drained(Through(ps), Waiting(ps), false)
    decreases |cs|
  {
    hide Drain, Feed, AllPes, Through, Waiting, Settled, Unread, AllPayloads;
    if cs == [] {
      assert Unread(q, sync) + [] == Unread(q, sync);
      FeedNothing(q, sync);
      NothingThrough(q, sync, ps);
    } else {
      hide Concat;
      NextPayload(q, sync, cs);
      QueueRoom(q, sync, ps);
      var more := DrainStream(q + cs[0], sync, ps, Concat(cs[1..]));
      var d := Drain(q + cs[0], sync);
      StreamFed(d.queue, d.sync, cs[1..], more);
      FeedCons(q, sync, cs[0], cs[1..]);
      assert cs == [cs[0]] + cs[1..];
    }
  }

  lemma NothingThrough(q: seq<byte>, sync: bool, ps: seq<seq<byte>>)
    requires Unread(q, sync) == Concat(ps) && Settled(q, sync, ps)
    ensures !sync && Through(ps) == [] && Waiting(ps) == q
  {
  }

  lemma {:induction false} ConcatLast(ps: seq<seq<byte>>)
    requires ps != []
    ensures |Concat(ps)| >= |ps[|ps| - 1]|
  {
    if |ps| == 1 {
    } else {
      ConcatLast(ps[1..]);
    }
  }

  /** All packets come through exactly if the last one is longer than sixteen bytes. */
  lemma {:induction false} AllThroughIff(ps: seq<seq<byte>>)
    ensures Through(ps) == ps <==> ps == [] || |ps[|ps| - 1]| > 16
  {
    if ps == [] {
    } else if |ps| == 1 {
      assert ps[1..] == [] && Concat(ps) == ps[0] + [] == ps[0];
      assert [ps[0]] + [] == ps;
    } else {
      AllThroughIff(ps[1..]);
      assert ps[1..][|ps| - 2] == ps[|ps| - 1];
      ConcatLast(ps[1..]);
      assert ps == [ps[0]] + ps[1..];
      assert Through(ps) != [] ==> Through(ps)[1..] == Through(ps[1..]);
    }
  }

  /** A PES packet of fourteen bytes on its own: nothing is delivered until more bytes arrive. */
  lemma ShortPesWaits(body: seq<byte>)
    requires |body| == 8
    ensures var p := [0x00, 0x00, 0x01, 0xbd, 0x00, 0x08] + body;
      IsPes(p) && Feed([], false, [p]).out == []
  {
    hide Drain, Feed;
    var p := [0x00, 0x00, 0x01, 0xbd, 0x00, 0x08] + body;
    assert p[..4] == START && [] + p == p;
    NotEnough(p);
    FeedNothing(p, false);
    FeedCons([], false, p, []);
    assert [p] + [] == [p];
  }

  // ---- room in the ring -----------------------------------------------------------------------------

  /** The largest PES packet that never makes the ring grow, however it is cut. */
  const MAX_SPLIT := 16205

  predicate AllSplittable(ps: seq<seq<byte>>)
  {
    forall i :: 0 <= i < |ps| ==> |ps[i]| <= MAX_SPLIT
  }

  predicate AllPayloads(cs: seq<seq<byte>>)
  {
    forall i :: 0 <= i < |cs| ==> |cs[i]| <= PAYLOAD_SIZE
  }

  /** The ring at the size it was made with. */
  predicate Small(s: Shape, q: seq<byte>)
  {
    s.Valid() && s.fill == |q| && s.size == s.sizeInitial == MAX_PES_SIZE && s.sizeMax == RING_LIMIT
  }

  lemma SmallWrite(s: Shape, q: seq<byte>, c: seq<byte>, left: seq<byte>)
    requires Small(s, q) && |q| <= MAX_PES_SIZE - PAYLOAD_SIZE && |c| <= PAYLOAD_SIZE && |left| <= |q| + |c|
    ensures s.WriteAllowed(|c|) && !s.Refused(|c|) && s.AfterWrite(|c|).Valid()
    ensures Passed(s, |c|, |left|).Valid() && Small(Passed(s, |c|, |left|), left)
  {
    ReadTwice(s.AfterWrite(|c|), |q| + |c| - |left|, 0);
  }

  lemma {:induction false} StreamFits(s: Shape, q: seq<byte>, sync: bool, cs: seq<seq<byte>>, ps: seq<seq<byte>>)
    requires AllPes(ps) && Unread(q, sync) + Concat(cs) == Concat(ps) && Settled(q, sync, ps)
    requires AllSplittable(ps) && AllPayloads(cs) && Small(s, q)
    ensures Lossless(s, q, sync, cs)
    decreases |cs|
  {
    hide Drain, Feed, AllPes, Through, Waiting, Lossless, ShapeAfter, Passed, Settled, AllSplittable, Small,
      AllPayloads, Concat, Unread;
    if cs == [] {
      RingOf(s, q);
      NothingLost(s, q, sync);
    } else {
      var c := cs[0];
      NextPayload(q, sync, cs);
      QueueRoom(q, sync, ps);
      var more := DrainStream(q + c, sync, ps, Concat(cs[1..]));
      var d := Drain(q + c, sync);
      LaterSplittable(ps, d.out, more);
      DrainShrinks(q + c, sync);
      SmallWrite(s, q, c, d.queue);
      RingOf(s, q);
      StreamFits(Passed(s, |c|, |d.queue|), d.queue, d.sync, cs[1..], more);
      FeedStep(s, q, sync, c, cs[1..]);
      assert cs == [c] + cs[1..];
    }
  }

  lemma RingOf(s: Shape, q: seq<byte>)
    requires Small(s, q)
    ensures s.Valid() && s.fill == |q|
  {
  }

  lemma NextPayload(q: seq<byte>, sync: bool, cs: seq<seq<byte>>)
    requires cs != []
    ensures Unread(q, sync) + Concat(cs) == Unread(q + cs[0], sync) + Concat(cs[1..])
    ensures AllPayloads(cs) ==> |cs[0]| <= PAYLOAD_SIZE && AllPayloads(cs[1..])
  {
    MoreUnread(q, sync, cs[0]);
    hide Unread;
    var u, c, tail := Unread(q, sync), cs[0], Concat(cs[1..]);
    assert Concat(cs) == c + tail;
    hide Concat;
    assert u + (c + tail) == (u + c) + tail;
  }

  lemma MoreUnread(q: seq<byte>, sync: bool, c: seq<byte>)
    ensures Unread(q + c, sync) == Unread(q, sync) + c
  {
  }

  lemma QueueRoom(q: seq<byte>, sync: bool, ps: seq<seq<byte>>)
    requires Settled(q, sync, ps)
    ensures sync ==> |q| > 12
    ensures AllSplittable(ps) ==> |q| <= MAX_PES_SIZE - PAYLOAD_SIZE
  {
  }

  lemma LaterSplittable(ps: seq<seq<byte>>, out: seq<seq<byte>>, more: seq<seq<byte>>)
    requires AllSplittable(ps) && ps == out + more
    ensures AllSplittable(more)
  {
    assert forall i :: 0 <= i < |more| ==> more[i] == ps[|out| + i];
  }

  /** One byte more, queued but for its last byte behind a head in mid-storage, and a full payload: the ring grows
      and loses part of the packet. */
  lemma LongerLost(q: seq<byte>, c: seq<byte>, more: seq<seq<byte>>)
    requires |q| == MAX_SPLIT + 1 - 5 && |c| == PAYLOAD_SIZE
    ensures var s := Shape(MAX_PES_SIZE, 5000, |q|, RING_LIMIT, MAX_PES_SIZE);
      s.Valid() && !Lossless(s, q, true, [c] + more)
  {
    hide Drain;
  }

  // ---- through transport packets --------------------------------------------------------------------

  /** Any list of PES packets, its bytes cut over transport packets in any way, with adaptation fields of any length
      and among packets of other PIDs: the extractor calls back with the packets in order, all of them exactly if the
      last is longer than sixteen bytes, and keeps what is left; up to 16205 bytes a packet the ring loses nothing. */
  lemma AnySplitRoundTrip(ps: seq<seq<byte>>, ws: seq<WirePacket>, pkts: seq<Packet>, pid: nat)
    requires AllPes(ps) && AllWellFormed(ws) && OnPid(ws, pid)
    requires Mine(pkts, pid) == AllBytes(ws) && Concat(Contents(ws)) == Concat(ps)
    ensures Sound(pkts, pid)
    ensures Feed([], false, Payloads(pkts, pid)) == Drained(Through(ps), Waiting(ps), false)
    ensures Feed([], false, Payloads(pkts, pid)).out == ps <==> ps == [] || |ps[|ps| - 1]| > 16
    ensures AllSplittable(ps) ==> NEW_RING.Valid() && Lossless(NEW_RING, [], false, Payloads(pkts, pid))
  {
    hide Sound, Payloads, Feed, Mine, AllPes, Lossless, Through, Waiting, Concat, AllSplittable, AllWellFormed, OnPid;
    ContentsArePayloads(ws, pid);
    OthersIgnored(pkts, pid);
    var cs := Contents(ws);
    assert Unread([], false) + Concat(cs) == Concat(cs);
    StreamFed([], false, cs, ps);
    AllThroughIff(ps);
    if AllSplittable(ps) {
      ContentsFit(ws);
      StreamFits(NEW_RING, [], false, cs, ps);
    }
  }

  lemma {:induction false} ContentsFit(ws: seq<WirePacket>)
    requires AllWellFormed(ws)
    ensures AllPayloads(Contents(ws))
  {
    if ws == [] {
    } else {
      ContentsFit(ws[1..]);
      assert WellFormed(ws[0]);
    }
  }

  /** The run itself, on a new extractor. */
  method Collect(ps: seq<seq<byte>>, ws: seq<WirePacket>, pkts: seq<Packet>, pid: nat)
    returns (delivered: seq<seq<byte>>, waiting: nat)
    requires AllPes(ps) && AllSplittable(ps) && AllWellFormed(ws) && OnPid(ws, pid)
    requires Mine(pkts, pid) == AllBytes(ws) && Concat(Contents(ws)) == Concat(ps)
    ensures delivered == Through(ps) && waiting == |Waiting(ps)|
    ensures delivered == ps <==> ps == [] || |ps[|ps| - 1]| > 16
  {
    hide Sound, Payloads, Feed, Mine, AllPes, Lossless, ShapeAfter, Through, Waiting, Concat, AllSplittable,
      AllWellFormed, OnPid, Split, Flatten, Window;
    AnySplitRoundTrip(ps, ws, pkts, pid);
    SplitFlatten(pkts);
    var pe := new PesExtractor(pid);
    if pkts == [] {
      NothingPushed(pid);
      return [], 0;
    }
    var _ := pe.Push(Flatten(pkts), |pkts|);
    delivered, waiting := pe.delivered, pe.rb.fill;
  }

  lemma NothingPushed(pid: nat)
    ensures Sound([], pid) && Payloads([], pid) == [] && Feed([], false, []) == Drained([], [], false)
  {
  }

  // ---- split packets behind payload stuffing --------------------------------------------------------

  /** The search over r stuffing bytes and the first bytes c of a PES packet gives up before it gets to them. */
  lemma {:induction false} SearchGivesUp(r: nat, c: seq<byte>, j: nat)
    requires 4 <= r + |c| <= 2 * r + 4 && j <= (r + |c| - 3) / 2
    ensures var q, stop := Stuffing(r) + c, (r + |c| - 3) / 2;
      stop + 4 <= |q| && Search(q[j..j + 4], q[j + 4..], j) == (false, q[stop + 4..])
    decreases r + |c| - j
  {
    var q, stop := Stuffing(r) + c, (r + |c| - 3) / 2;
    SearchStep(q[j..j + 4], q[j + 4..], j);
    if j == stop {
    } else {
      hide Search;
      StuffingAt(r);
      assert q[j] == 0xff && q[j..j + 4][0] != START[0];
      assert q[j..j + 4][1..] + q[j + 4..][..1] == q[j + 1..j + 5];
      assert q[j + 4..][1..] == q[j + 5..];
      SearchGivesUp(r, c, j + 1);
    }
  }

  /** Payload stuffing and short payloads do not mix: behind r stuffing bytes the first piece c of a PES packet waits,
      is found, is kept for the next payload, or loses the front of its start code, depending on their lengths. */
  lemma FirstPiece(p: seq<byte>, m: nat, r: nat)
    requires IsPes(p) && m <= |p|
    ensures var c, n := p[..m], r + m;
      Drain(Stuffing(r) + c, false) ==
        if n <= 16 then Drained([], Stuffing(r) + c, false)
        else if m > r + 4 then Drain(c[4..], true)
        else if m + 4 <= r then Drained([], Stuffing(r - 4 - (n - 3) / 2) + c, false)
        else Drained([], c[4 + (n - 3) / 2 - r..], false)
  {
    hide Search, IsPes, Drain;
    PesShape(p);
    var c, n := p[..m], r + m;
    var q := Stuffing(r) + c;
    if n <= 16 {
      NotEnough(q);
    } else if m > r + 4 {
      assert c[..4] == p[..4];
      TakesUp(r, c);
    } else {
      GivesUp(r, c);
      var stop := (n - 3) / 2;
      if m + 4 <= r {
        StuffingDrop(r, 4 + stop);
        assert q[4 + stop..] == Stuffing(r)[4 + stop..] + c;
      } else {
        assert q[4 + stop..] == c[4 + stop - r..];
      }
    }
  }

  lemma TakesUp(r: nat, c: seq<byte>)
    requires 16 < r + |c| && r + 4 < |c| && c[..4] == START
    ensures Drain(Stuffing(r) + c, false) == Drain(c[4..], true)
  {
    hide Search, Drain;
    var q := Stuffing(r) + c;
    SearchFinds(r, c, 0);
    assert q[0..4] == q[..4];
    DrainSynced(q, c[4..]);
  }

  lemma GivesUp(r: nat, c: seq<byte>)
    requires 16 < r + |c| && |c| <= r + 4
    ensures var q, stop := Stuffing(r) + c, (r + |c| - 3) / 2;
      stop + 4 <= |q| && Drain(q, false) == Drained([], q[stop + 4..], false)
  {
    hide Search, Drain;
    var q := Stuffing(r) + c;
    SearchGivesUp(r, c, 0);
    assert q[0..4] == q[..4];
    DrainStep(q, false);
  }
}

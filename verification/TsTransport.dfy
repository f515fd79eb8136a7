/** PES packets through transport packets and back. */
module TsTransport {
  import opened Bits
  import opened Memory
  import opened RingBuffers
  import opened TsPacketizer
  import opened PesExtraction

  /** The largest PES packet whose transport packets never make the ring grow. */
  const MAX_CARRIED := 89 * PAYLOAD_SIZE

  /** A private stream packet whose length field counts what follows it. */
  predicate IsPes(p: seq<byte>)
  {
    6 <= |p| && p[..4] == START && Word16(p[4], p[5]) == |p| - 6
  }

  predicate AllPes(ps: seq<seq<byte>>)
  {
    forall i :: 0 <= i < |ps| ==> IsPes(ps[i])
  }

  /** The payloads a PES packet is split into, the last one stuffed. */
  function Chunks(p: seq<byte>): seq<seq<byte>>
  {
    if p == [] then []
    else
      var n := Min(|p|, PAYLOAD_SIZE);
      [p[..n] + Stuffing(PAYLOAD_SIZE - n)] + Chunks(p[n..])
  }

  function AllChunks(ps: seq<seq<byte>>): seq<seq<byte>>
  {
    if ps == [] then [] else Chunks(ps[0]) + AllChunks(ps[1..])
  }

  /** The stuffing behind a PES packet of n bytes. */
  function Pad(n: nat): nat
  {
    (PAYLOAD_SIZE - n % PAYLOAD_SIZE) % PAYLOAD_SIZE
  }

  /** What the search leaves of k stuffing bytes: it gives up half way. */
  function Residue(k: nat): nat
  {
    if k > 16 then (k - 4) / 2 else k
  }

  // ---- stuffing -----------------------------------------------------------------------------------

  lemma StuffingFront(n: nat)
    requires n > 0
    ensures Stuffing(n) == [0xff] + Stuffing(n - 1)
    ensures Stuffing(n)[1..] == Stuffing(n - 1)
  {
    StuffingAt(n);
    StuffingAt(n - 1);
  }

  lemma StuffingDrop(n: nat, k: nat)
    requires k <= n
    ensures Stuffing(n)[k..] == Stuffing(n - k)
  {
    StuffingAt(n);
    StuffingAt(n - k);
  }

  const FOUR: seq<byte> := [0xff, 0xff, 0xff, 0xff]

  lemma {:induction false} SearchStuffing(m: nat, i: nat)
    requires i <= m + 1
    ensures Search(FOUR, Stuffing(m), i) == (false, Stuffing((m + i) / 2))
    decreases m
  {
    if i >= m {
    } else {
      StuffingFront(m);
      assert FOUR[1..] + [0xff] == FOUR && FOUR[0] != START[0];
      SearchStuffing(m - 1, i + 1);
    }
  }

  lemma DrainStuffing(k: nat)
    ensures Drain(Stuffing(k), false) == Drained([], Stuffing(Residue(k)), false)
  {
    DrainStep(Stuffing(k), false);
    if k > 16 {
      StuffingDrop(k, 4);
      StuffingAt(k);
      assert Stuffing(k)[..4] == FOUR;
      SearchStuffing(k - 4, 0);
    }
  }

  // ---- the sync search ----------------------------------------------------------------------------

  /** The search passes over stuffing and stops behind the start code, if that comes before half way. */
  lemma {:induction false} SearchFinds(r: nat, c: seq<byte>, j: nat)
    requires j <= r && r + 4 < |c| && c[..4] == START
    ensures var q := Stuffing(r) + c; Search(q[j..j + 4], q[j + 4..], j) == (true, c[4..])
    decreases r - j
  {
    var q := Stuffing(r) + c;
    if j == r {
      assert q[j..j + 4] == c[..4] && q[j + 4..] == c[4..];
    } else {
      StuffingAt(r);
      assert q[j] == 0xff && q[j..j + 4][0] != START[0];
      SearchStep(q[j..j + 4], q[j + 4..], j);
      assert q[j..j + 4][1..] + q[j + 4..][..1] == q[j + 1..j + 5];
      assert q[j + 4..][1..] == q[j + 5..];
      SearchFinds(r, c, j + 1);
    }
  }

  lemma DrainSynced(q: seq<byte>, rest: seq<byte>)
    requires Seek(q, false) == (true, rest)
    ensures Drain(q, false) == Drain(rest, true)
  {
    hide Search;
    DrainStep(q, false);
    DrainStep(rest, true);
  }

  lemma NoStuffing()
    ensures Stuffing(0) == []
  {
  }

  lemma PesShape(p: seq<byte>)
    requires IsPes(p)
    ensures 6 <= |p| < 0x1_0006 && p[..4] == START
  {
  }

  // ---- one PES packet -------------------------------------------------------------------------------

  /** With m bytes queued behind the start code, and stuffing once the packet is complete. */
  lemma DrainPart(p: seq<byte>, m: nat, k: nat)
    requires IsPes(p) && m <= |p| - 4 && (k > 0 ==> m == |p| - 4)
    ensures var q := p[4..4 + m] + Stuffing(k);
      Drain(q, true) == if m == |p| - 4 then Drained([p], Stuffing(Residue(k)), false) else Drained([], q, true)
  {
    hide Drain, Residue;
    var q := p[4..4 + m] + Stuffing(k);
    DrainStep(q, true);
    if m >= 2 {
      assert q[0] == p[4] && q[1] == p[5];
    }
    if m == |p| - 4 {
      DrainStuffing(k);
      assert q[..m] == p[4..] && q[m..] == Stuffing(k);
      assert p == p[..4] + p[4..];
      assert [p] + [] == [p];
    }
  }

  lemma {:induction false} FeedRest(p: seq<byte>, m: nat)
    requires IsPes(p) && m < |p| - 4 && (m + 4) % PAYLOAD_SIZE == 0
    ensures Feed(p[4..4 + m], true, Chunks(p[4 + m..])) == Drained([p], Stuffing(Residue(Pad(|p|))), false)
    decreases |p| - m
  {
    hide Drain, Residue, Feed, Stuffing, Chunks, IsPes, Pad;
    PesShape(p);
    var rest := p[4 + m..];
    var n := Min(|rest|, PAYLOAD_SIZE);
    var c := rest[..n] + Stuffing(PAYLOAD_SIZE - n);
    var q := p[4..4 + m];
    FirstChunk(rest);
    DrainPart(p, m + n, PAYLOAD_SIZE - n);
    assert q + c == p[4..4 + (m + n)] + Stuffing(PAYLOAD_SIZE - n);
    assert rest[n..] == p[4 + (m + n)..];
    if n < |rest| {
      NoStuffing();
      assert q + c == p[4..4 + (m + n)];
      FeedRest(p, m + n);
    } else {
      PadOfRest(|p|, m + 4);
      FeedNothing(Stuffing(Residue(PAYLOAD_SIZE - n)), false);
    }
    FeedCons(q, true, c, Chunks(rest[n..]));
  }

  lemma FirstChunk(p: seq<byte>)
    requires p != []
    ensures var n := Min(|p|, PAYLOAD_SIZE);
      Chunks(p) == [p[..n] + Stuffing(PAYLOAD_SIZE - n)] + Chunks(p[n..])
    ensures |p| <= PAYLOAD_SIZE ==> Chunks(p[|p|..]) == []
  {
  }

  lemma FeedNothing(q: seq<byte>, sync: bool)
    ensures Feed(q, sync, []) == Drained([], q, sync)
  {
  }

  lemma FeedCons(q: seq<byte>, sync: bool, c: seq<byte>, more: seq<seq<byte>>)
    ensures var d := Drain(q + c, sync);
      Feed(q, sync, [c] + more) == Before(d.out, Feed(d.queue, d.sync, more))
  {
    hide Drain;
    assert ([c] + more)[1..] == more;
  }

  lemma PadOfRest(n: nat, m: nat)
    requires m % PAYLOAD_SIZE == 0 && m < n <= m + PAYLOAD_SIZE
    ensures Pad(n) == PAYLOAD_SIZE - (n - m)
  {
  }

  /** One PES packet behind some leftover stuffing is delivered whole, leaving some stuffing again. */
  lemma FeedPes(p: seq<byte>, r: nat)
    requires IsPes(p) && r <= 89
    ensures Feed(Stuffing(r), false, Chunks(p)) == Drained([p], Stuffing(Residue(Pad(|p|))), false)
  {
    hide Drain, Residue, Search, Feed, Stuffing, Chunks, IsPes, Pad;
    PesShape(p);
    var n := Min(|p|, PAYLOAD_SIZE);
    var c := p[..n] + Stuffing(PAYLOAD_SIZE - n);
    var q := Stuffing(r) + c;
    FirstChunk(p);
    assert c[..4] == p[..4];
    SearchFinds(r, c, 0);
    assert q[0..4] == q[..4];
    DrainSynced(q, c[4..]);
    assert c[4..] == p[4..4 + (n - 4)] + Stuffing(PAYLOAD_SIZE - n);
    DrainPart(p, n - 4, PAYLOAD_SIZE - n);
    if n < |p| {
      NoStuffing();
      assert c[4..] == p[4..4 + (n - 4)];
      FeedRest(p, n - 4);
      assert p[4 + (n - 4)..] == p[n..];
    } else {
      PadOfRest(|p|, 0);
      FeedNothing(Stuffing(Residue(PAYLOAD_SIZE - n)), false);
    }
    FeedCons(Stuffing(r), false, c, Chunks(p[n..]));
  }

  // ---- any list of PES packets -----------------------------------------------------------------------

  lemma {:induction false} FeedAppend(q: seq<byte>, sync: bool, a: seq<seq<byte>>, b: seq<seq<byte>>)
    ensures var d := Feed(q, sync, a);
      Feed(q, sync, a + b) == Before(d.out, Feed(d.queue, d.sync, b))
    decreases |a|
  {
    hide Drain, Feed;
    if a == [] {
      assert [] + b == b;
      FeedNothing(q, sync);
      var more := Feed(q, sync, b);
      assert [] + more.out == more.out;
    } else {
      var d := Drain(q + a[0], sync);
      assert a == [a[0]] + a[1..] && a + b == [a[0]] + (a[1..] + b);
      FeedCons(q, sync, a[0], a[1..]);
      FeedCons(q, sync, a[0], a[1..] + b);
      FeedAppend(d.queue, d.sync, a[1..], b);
      var first := Feed(d.queue, d.sync, a[1..]);
      var second := Feed(first.queue, first.sync, b);
      assert (d.out + first.out) + second.out == d.out + (first.out + second.out);
    }
  }

  /** The stuffing left behind a list of PES packets. */
  function Leftover(ps: seq<seq<byte>>, r: nat): nat
  {
    if ps == [] then r else Leftover(ps[1..], Residue(Pad(|ps[0]|)))
  }

  lemma {:induction false} FeedAll(ps: seq<seq<byte>>, r: nat)
    requires AllPes(ps) && r <= 89
    ensures Feed(Stuffing(r), false, AllChunks(ps)) == Drained(ps, Stuffing(Leftover(ps, r)), false)
    ensures Leftover(ps, r) <= 89
  {
    hide Drain, Feed, Chunks, IsPes, Stuffing, Residue, Pad;
    if ps == [] {
      FeedNothing(Stuffing(r), false);
    } else {
      var left := Residue(Pad(|ps[0]|));
      FeedPes(ps[0], r);
      ResidueBound(|ps[0]|);
      FeedAll(ps[1..], left);
      FeedAppend(Stuffing(r), false, Chunks(ps[0]), AllChunks(ps[1..]));
      assert [ps[0]] + ps[1..] == ps;
    }
  }

  // ---- what the ring has to look like -------------------------------------------------------------------

  /** The ring of an extractor, at any number of growth steps from the size it was allocated with. */
  predicate ExtractorRing(s: Shape, r: nat)
  {
    s.Valid() && s.fill == r && s.size >= MAX_PES_SIZE && (s.size - 8) % PAYLOAD_SIZE == 0
    && s.sizeInitial == MAX_PES_SIZE && s.sizeMax == RING_LIMIT
  }

  /** The most that is queued of a PES packet of n bytes once its start code has been read. */
  function Needed(n: nat): int
  {
    (n + PAYLOAD_SIZE - 1) / PAYLOAD_SIZE * PAYLOAD_SIZE - 4
  }

  /** A PES packet fits the ring as it is, or its start code ends within 12 bytes of the front of the storage. */
  predicate Carriable(s: Shape, n: nat)
    requires s.size > 0
  {
    Needed(n) <= s.size || (s.head + s.fill + 4) % s.size <= 12
  }

  /** The write of one more payload into a ring filled to a payload boundary. */
  lemma WriteStep(s: Shape, m: nat)
    requires ExtractorRing(s, m) && (m + 4) % PAYLOAD_SIZE == 0 && m < 0x1_0100
    ensures s.InBounds(PAYLOAD_SIZE) && !s.Refused(PAYLOAD_SIZE)
    ensures m <= s.size - 12 && (m < s.size - 12 ==> m + PAYLOAD_SIZE <= s.size - 12)
    ensures s.WriteAllowed(PAYLOAD_SIZE) <==> m < s.size - 12 || s.head <= 12
    ensures var t := s.AfterWrite(PAYLOAD_SIZE);
      && ExtractorRing(t, m + PAYLOAD_SIZE) && t.head == s.head
      && t.size == if m < s.size - 12 then s.size else s.size + 128 * PAYLOAD_SIZE
  {
    Boundary(m + 4, s.size - 8);
  }

  lemma Boundary(a: nat, b: nat)
    requires a % PAYLOAD_SIZE == 0 && b % PAYLOAD_SIZE == 0
    ensures a < b ==> a + PAYLOAD_SIZE <= b
    ensures a <= b + PAYLOAD_SIZE - 1 ==> a <= b
  {
  }

  lemma NeededStep(n: nat, m: nat)
    requires (m + 4) % PAYLOAD_SIZE == 0 && m + 4 < n
    ensures Needed(n) >= m + PAYLOAD_SIZE
    ensures n <= m + 4 + PAYLOAD_SIZE ==> Needed(n) == m + PAYLOAD_SIZE
  {
    var k := (m + 4) / PAYLOAD_SIZE;
    assert m + 4 == k * PAYLOAD_SIZE;
    assert (n + PAYLOAD_SIZE - 1) / PAYLOAD_SIZE >= k + 1;
  }

  /** Draining a packet still incomplete reads nothing. */
  lemma DrainsNothing(s: Shape, n: nat)
    requires s.Valid() && s.AfterWrite(n).Valid()
    ensures Passed(s, n, s.fill + n) == s.AfterWrite(n)
  {
  }

  /** The rest of a PES packet, its start code read and m bytes queued: lossless exactly if it fits, or the ring's
      contents begin within 12 bytes of the front. */
  lemma {:induction false} LosslessRest(s: Shape, p: seq<byte>, m: nat)
    requires IsPes(p) && m < |p| - 4 && (m + 4) % PAYLOAD_SIZE == 0 && ExtractorRing(s, m)
    ensures Lossless(s, p[4..4 + m], true, Chunks(p[4 + m..])) <==> Needed(|p|) <= s.size || s.head <= 12
    ensures Lossless(s, p[4..4 + m], true, Chunks(p[4 + m..])) ==>
      ExtractorRing(ShapeAfter(s, p[4..4 + m], true, Chunks(p[4 + m..])), Residue(Pad(|p|)))
    decreases |p| - m
  {
    hide Drain, Residue, Feed, Stuffing, Chunks, IsPes, Pad, Lossless, ShapeAfter, Needed, ExtractorRing;
    PesShape(p);
    var rest := p[4 + m..];
    var n := Min(|rest|, PAYLOAD_SIZE);
    var c := rest[..n] + Stuffing(PAYLOAD_SIZE - n);
    var q := p[4..4 + m];
    FirstChunk(rest);
    DrainPart(p, m + n, PAYLOAD_SIZE - n);
    RingFill(s, m);
    assert q + c == p[4..4 + (m + n)] + Stuffing(PAYLOAD_SIZE - n);
    assert rest[n..] == p[4 + (m + n)..];
    FeedStep(s, q, true, c, Chunks(rest[n..]));
    WriteStep(s, m);
    NeededStep(|p|, m);
    if n < |rest| {
      NoStuffing();
      assert q + c == p[4..4 + (m + n)];
      if s.WriteAllowed(PAYLOAD_SIZE) {
        DrainsNothing(s, PAYLOAD_SIZE);
        LosslessRest(s.AfterWrite(PAYLOAD_SIZE), p, m + n);
      }
    } else if s.WriteAllowed(PAYLOAD_SIZE) {
      PadOfRest(|p|, m + 4);
      RingPassed(s, m, Residue(PAYLOAD_SIZE - n));
      NothingToLose(Passed(s, PAYLOAD_SIZE, Residue(PAYLOAD_SIZE - n)), Stuffing(Residue(PAYLOAD_SIZE - n)));
    }
  }

  /** Draining leaves the ring at its size or shrinks it to the one it was allocated with. */
  lemma RingPassed(s: Shape, m: nat, left: nat)
    requires ExtractorRing(s, m) && ExtractorRing(s.AfterWrite(PAYLOAD_SIZE), m + PAYLOAD_SIZE)
    requires left <= m + PAYLOAD_SIZE
    ensures s.Valid() && s.fill == m && Passed(s, PAYLOAD_SIZE, left).Valid()
    ensures ExtractorRing(Passed(s, PAYLOAD_SIZE, left), left)
  {
    ReadTwice(s.AfterWrite(PAYLOAD_SIZE), m + PAYLOAD_SIZE - left, 0);
  }

  lemma RingFill(s: Shape, m: nat)
    requires ExtractorRing(s, m)
    ensures s.Valid() && s.fill == m && s.size >= MAX_PES_SIZE
  {
  }

  lemma NothingToLose(s: Shape, q: seq<byte>)
    requires s.Valid() && s.fill == |q|
    ensures Lossless(s, q, false, []) && ShapeAfter(s, q, false, []) == s
  {
  }

  /** The first payload of a PES packet, behind leftover stuffing. */
  lemma FirstWrite(s: Shape, r: nat)
    requires ExtractorRing(s, r) && r <= 89
    ensures s.Valid() && s.fill == r && s.WriteAllowed(PAYLOAD_SIZE) && !s.Refused(PAYLOAD_SIZE)
    ensures ExtractorRing(s.AfterWrite(PAYLOAD_SIZE), r + PAYLOAD_SIZE)
    ensures var t := Passed(s, PAYLOAD_SIZE, PAYLOAD_SIZE - 4);
      ExtractorRing(t, PAYLOAD_SIZE - 4) && t.size == s.size && t.head == (s.head + r + 4) % s.size
  {
  }

  /** One PES packet of any size passes through the ring without loss exactly if it is carriable. */
  lemma LosslessPes(s: Shape, p: seq<byte>, r: nat)
    requires IsPes(p) && ExtractorRing(s, r) && r <= 89
    ensures s.Valid() && s.fill == |Stuffing(r)|
    ensures Lossless(s, Stuffing(r), false, Chunks(p)) <==> Carriable(s, |p|)
    ensures Carriable(s, |p|) ==>
      ExtractorRing(ShapeAfter(s, Stuffing(r), false, Chunks(p)), Residue(Pad(|p|)))
  {
    hide Drain, Residue, Search, Feed, Stuffing, Chunks, IsPes, Pad, Lossless, ShapeAfter, Needed, ExtractorRing,
      Passed;
    PesShape(p);
    var n := Min(|p|, PAYLOAD_SIZE);
    var c := p[..n] + Stuffing(PAYLOAD_SIZE - n);
    var q := Stuffing(r) + c;
    RingFill(s, r);
    FirstChunk(p);
    assert c[..4] == p[..4];
    SearchFinds(r, c, 0);
    assert q[0..4] == q[..4];
    DrainSynced(q, c[4..]);
    assert c[4..] == p[4..4 + (n - 4)] + Stuffing(PAYLOAD_SIZE - n);
    DrainPart(p, n - 4, PAYLOAD_SIZE - n);
    FirstWrite(s, r);
    FeedStep(s, Stuffing(r), false, c, Chunks(p[n..]));
    if n < |p| {
      NoStuffing();
      assert c[4..] == p[4..4 + (n - 4)] && p[4 + (n - 4)..] == p[n..];
      LosslessRest(Passed(s, PAYLOAD_SIZE, PAYLOAD_SIZE - 4), p, PAYLOAD_SIZE - 4);
    } else {
      PadOfRest(|p|, 0);
      RingPassed(s, r, Residue(PAYLOAD_SIZE - n));
      NothingToLose(Passed(s, PAYLOAD_SIZE, Residue(PAYLOAD_SIZE - n)), Stuffing(Residue(PAYLOAD_SIZE - n)));
      SmallNeeds(|p|);
    }
  }

  lemma SmallNeeds(n: nat)
    ensures n <= PAYLOAD_SIZE ==> Needed(n) <= PAYLOAD_SIZE
    ensures n <= MAX_CARRIED ==> Needed(n) <= MAX_PES_SIZE
  {
  }

  lemma {:induction false} LosslessAppend(s: Shape, q: seq<byte>, sync: bool, a: seq<seq<byte>>, b: seq<seq<byte>>)
    requires s.Valid() && s.fill == |q|
    ensures Lossless(s, q, sync, a + b) ==> Lossless(s, q, sync, a)
    ensures Lossless(s, q, sync, a) ==>
      var t, d := ShapeAfter(s, q, sync, a), Feed(q, sync, a);
      && t.Valid() && t.fill == |d.queue|
      && (Lossless(s, q, sync, a + b) <==> Lossless(t, d.queue, d.sync, b))
      && (Lossless(s, q, sync, a + b) ==> ShapeAfter(s, q, sync, a + b) == ShapeAfter(t, d.queue, d.sync, b))
    decreases |a|
  {
    hide Drain, Feed, Lossless, ShapeAfter, Passed;
    if a == [] {
      assert [] + b == b;
      FeedNothing(q, sync);
      NothingLost(s, q, sync);
    } else {
      assert a == [a[0]] + a[1..] && a + b == [a[0]] + (a[1..] + b);
      FeedStep(s, q, sync, a[0], a[1..]);
      FeedStep(s, q, sync, a[0], a[1..] + b);
      if s.WriteAllowed(|a[0]|) && !s.Refused(|a[0]|) {
        var d := Drain(q + a[0], sync);
        LosslessAppend(Passed(s, |a[0]|, |d.queue|), d.queue, d.sync, a[1..], b);
      }
    }
  }

  lemma NothingLost(s: Shape, q: seq<byte>, sync: bool)
    requires s.Valid() && s.fill == |q|
    ensures Lossless(s, q, sync, []) && ShapeAfter(s, q, sync, []) == s
  {
  }

  lemma ResidueBound(n: nat)
    ensures Residue(Pad(n)) <= 89
  {
  }

  /** Every PES packet of the list finds a ring it is carriable in. */
  predicate AllCarriable(s: Shape, r: nat, ps: seq<seq<byte>>)
    requires ExtractorRing(s, r) && r <= 89 && AllPes(ps)
    decreases |ps|
  {
    ps == [] ||
    (Carriable(s, |ps[0]|) &&
     (LosslessPes(s, ps[0], r); ResidueBound(|ps[0]|);
      AllCarriable(ShapeAfter(s, Stuffing(r), false, Chunks(ps[0])), Residue(Pad(|ps[0]|)), ps[1..])))
  }

  lemma {:induction false} LosslessAll(s: Shape, r: nat, ps: seq<seq<byte>>)
    requires ExtractorRing(s, r) && r <= 89 && AllPes(ps)
    ensures s.Valid() && s.fill == |Stuffing(r)|
    ensures Lossless(s, Stuffing(r), false, AllChunks(ps)) <==> AllCarriable(s, r, ps)
    decreases |ps|
  {
    hide Drain, Feed, Chunks, IsPes, Stuffing, Residue, Pad, Lossless, ShapeAfter, ExtractorRing, Carriable;
    RingFill(s, r);
    if ps == [] {
      NothingLost(s, Stuffing(r), false);
    } else {
      var p, left := ps[0], Residue(Pad(|ps[0]|));
      LosslessPes(s, p, r);
      ResidueBound(|p|);
      FeedPes(p, r);
      LosslessAppend(s, Stuffing(r), false, Chunks(p), AllChunks(ps[1..]));
      if Carriable(s, |p|) {
        LosslessAll(ShapeAfter(s, Stuffing(r), false, Chunks(p)), left, ps[1..]);
      }
    }
  }

  /** Up to 16376 bytes a packet is carriable in any ring. */
  lemma {:induction false} SmallCarriable(s: Shape, r: nat, ps: seq<seq<byte>>)
    requires ExtractorRing(s, r) && r <= 89 && AllPes(ps)
    requires forall i :: 0 <= i < |ps| ==> |ps[i]| <= MAX_CARRIED
    ensures AllCarriable(s, r, ps)
    decreases |ps|
  {
    hide Stuffing, Chunks, IsPes, Residue, Pad, ShapeAfter, Lossless, Needed;
    if ps == [] {
    } else {
      SmallNeeds(|ps[0]|);
      LosslessPes(s, ps[0], r);
      ResidueBound(|ps[0]|);
      SmallCarriable(ShapeAfter(s, Stuffing(r), false, Chunks(ps[0])), Residue(Pad(|ps[0]|)), ps[1..]);
    }
  }

  // ---- through transport packets ------------------------------------------------------------------------

  /** The packets of every PES packet in turn, the counter running on. */
  function TsStream(ps: seq<seq<byte>>, cc: byte, pid: nat): seq<Packet>
    requires pid <= 0x1fff
  {
    if ps == [] then []
    else
      var pkts := TsPackets(ps[0], cc, pid, true);
      pkts + TsStream(ps[1..], (cc + |pkts|) % 0x100, pid)
  }

  lemma PidBack(pid: nat, first: bool)
    requires pid <= 0x1fff
    ensures Word16(pid / 0x100 + (if first then 0x40 else 0), pid % 0x100) % 0x2000 == pid
  {
  }

  /** The counter shares its byte with a control field that says payload only. */
  lemma PlainControl(cc: byte)
    ensures ((0x10 + cc % 0x10) / 0x10) % 4 == 1
  {
  }

  lemma TsPacketBack(chunk: seq<byte>, cc: byte, pid: nat, first: bool)
    requires |chunk| <= PAYLOAD_SIZE && pid <= 0x1fff
    ensures var p := TsPacket(chunk, cc, pid, first);
      Pid(p) == pid && Offset(p) == 4 && p[4..] == chunk + Stuffing(PAYLOAD_SIZE - |chunk|)
  {
    hide TsPacket, Stuffing, Word16;
    OnePacket(chunk, cc, pid, first);
    PidBack(pid, first);
    PlainControl(cc);
  }

  lemma PayloadsCons(p: Packet, more: seq<Packet>, pid: nat)
    requires Sound(more, pid) && (Pid(p) == pid ==> Offset(p) <= PACKET_SIZE)
    ensures Sound([p] + more, pid)
    ensures Payloads([p] + more, pid) ==
      if Pid(p) == pid then [p[Offset(p)..]] + Payloads(more, pid) else Payloads(more, pid)
  {
    hide Pid, Offset;
    assert ([p] + more)[1..] == more;
  }

  lemma {:induction false} PacketsOfPes(buf: seq<byte>, cc: byte, pid: nat, first: bool)
    requires pid <= 0x1fff
    ensures Sound(TsPackets(buf, cc, pid, first), pid)
    ensures Payloads(TsPackets(buf, cc, pid, first), pid) == Chunks(buf)
    decreases |buf|
  {
    hide TsPacket, Pid, Offset, Stuffing;
    if buf == [] {
    } else {
      var n := Min(|buf|, PAYLOAD_SIZE);
      TsPacketBack(buf[..n], cc, pid, first);
      PacketsOfPes(buf[n..], (cc + 1) % 0x100, pid, false);
      PayloadsCons(TsPacket(buf[..n], cc, pid, first), TsPackets(buf[n..], (cc + 1) % 0x100, pid, false), pid);
    }
  }

  lemma {:induction false} PayloadsAppend(a: seq<Packet>, b: seq<Packet>, pid: nat)
    requires Sound(a, pid) && Sound(b, pid)
    ensures Sound(a + b, pid) && Payloads(a + b, pid) == Payloads(a, pid) + Payloads(b, pid)
  {
    hide Pid, Offset;
    if a == [] {
      assert a + b == b;
    } else {
      assert a == [a[0]] + a[1..] && a + b == [a[0]] + (a[1..] + b);
      PayloadsAppend(a[1..], b, pid);
      PayloadsCons(a[0], a[1..], pid);
      PayloadsCons(a[0], a[1..] + b, pid);
    }
  }

  lemma {:induction false} PacketsOfStream(ps: seq<seq<byte>>, cc: byte, pid: nat)
    requires pid <= 0x1fff
    ensures Sound(TsStream(ps, cc, pid), pid)
    ensures Payloads(TsStream(ps, cc, pid), pid) == AllChunks(ps)
  {
    hide Sound, Payloads, TsPackets, Chunks;
    if ps == [] {
      NoPayloads(pid);
    } else {
      var pkts := TsPackets(ps[0], cc, pid, true);
      PacketsOfPes(ps[0], cc, pid, true);
      PacketsOfStream(ps[1..], (cc + |pkts|) % 0x100, pid);
      PayloadsAppend(pkts, TsStream(ps[1..], (cc + |pkts|) % 0x100, pid), pid);
    }
  }

  lemma NoPayloads(pid: nat)
    ensures Sound([], pid) && Payloads([], pid) == []
  {
  }

  /** The packets of a multiplex that carry the wanted PID. */
  function Mine(pkts: seq<Packet>, pid: nat): seq<Packet>
  {
    if pkts == [] then []
    else if Pid(pkts[0]) == pid then [pkts[0]] + Mine(pkts[1..], pid)
    else Mine(pkts[1..], pid)
  }

  lemma {:induction false} OthersIgnored(pkts: seq<Packet>, pid: nat)
    requires Sound(Mine(pkts, pid), pid)
    ensures Sound(pkts, pid) && Payloads(pkts, pid) == Payloads(Mine(pkts, pid), pid)
  {
    hide Pid, Offset;
    if pkts == [] {
    } else {
      var p, mine := pkts[0], Mine(pkts[1..], pid);
      if Pid(p) == pid {
        assert Mine(pkts, pid)[0] == p && Mine(pkts, pid)[1..] == mine;
        OthersIgnored(pkts[1..], pid);
        PayloadsCons(p, mine, pid);
      } else {
        OthersIgnored(pkts[1..], pid);
      }
      assert pkts == [p] + pkts[1..];
      PayloadsCons(p, pkts[1..], pid);
    }
  }

  /** The ring a new extractor starts with. */
  const NEW_RING := Shape(MAX_PES_SIZE, 0, 0, RING_LIMIT, MAX_PES_SIZE)

  lemma NewRingFits()
    ensures ExtractorRing(NEW_RING, 0) && Stuffing(0) == []
  {
  }

  /** One byte more than a new ring always carries, behind contents that leave the head in mid-storage. */
  lemma LargePesLost(p: seq<byte>)
    requires IsPes(p) && |p| == MAX_CARRIED + 1
    ensures var s := NEW_RING.(head := 5000);
      ExtractorRing(s, 0) && !Lossless(s, [], false, Chunks(p))
  {
    hide IsPes, Lossless, Chunks, ExtractorRing, Carriable, Stuffing;
    NewRingFits();
    MidStorage();
    LosslessPes(NEW_RING.(head := 5000), p, 0);
  }

  lemma MidStorage()
    ensures ExtractorRing(NEW_RING.(head := 5000), 0) && !Carriable(NEW_RING.(head := 5000), MAX_CARRIED + 1)
  {
    assert Needed(MAX_CARRIED + 1) == 90 * PAYLOAD_SIZE - 4;
  }

  /** Any list of PES packets split into transport packets, and any packets of other PIDs in between: an extractor
      that starts empty calls back with exactly that list, in order, and nothing is lost in its ring exactly if
      every packet is carriable in the ring it finds. */
  lemma TransportRoundTrip(ps: seq<seq<byte>>, pkts: seq<Packet>, cc: byte, pid: nat)
    requires AllPes(ps) && pid <= 0x1fff && Mine(pkts, pid) == TsStream(ps, cc, pid)
    ensures Sound(pkts, pid) && ExtractorRing(NEW_RING, 0)
    ensures Lossless(NEW_RING, [], false, Payloads(pkts, pid)) <==> AllCarriable(NEW_RING, 0, ps)
    ensures Feed([], false, Payloads(pkts, pid)).out == ps
  {
    hide Sound, Payloads, Feed, Lossless, AllPes, Mine, TsStream, AllChunks, AllCarriable, ExtractorRing, Stuffing;
    PacketsOfStream(ps, cc, pid);
    OthersIgnored(pkts, pid);
    NewRingFits();
    FeedAll(ps, 0);
    LosslessAll(NEW_RING, 0, ps);
  }

  lemma {:induction false} SplitFlatten(pkts: seq<Packet>)
    ensures |Flatten(pkts)| == PACKET_SIZE * |pkts| && Split(Flatten(pkts)) == pkts
  {
    if pkts == [] {
    } else {
      var p: seq<byte>, more: seq<byte> := pkts[0], Flatten(pkts[1..]);
      SplitFlatten(pkts[1..]);
      assert (p + more)[..PACKET_SIZE] == p && (p + more)[PACKET_SIZE..] == more;
    }
  }

  /** The packetizer feeding the extractor, one PES packet at a time. */
  method Relay(ps: seq<seq<byte>>, counter: byte, pid: nat) returns (delivered: seq<seq<byte>>)
    requires AllPes(ps) && pid <= 0x1fff && ExtractorRing(NEW_RING, 0) && AllCarriable(NEW_RING, 0, ps)
    ensures delivered == ps
  {
    hide Sound, Payloads, Feed, Lossless, ShapeAfter, TsPackets, Chunks, IsPes, Flatten, Split, Window, Residue, Pad,
      ExtractorRing, Stuffing, Carriable;
    var pe := new PesExtractor(pid);
    var cc := counter;
    ghost var r := 0;
    NewRingFits();
    assert ps[0..] == ps;
    for i := 0 to |ps|
      invariant fresh(pe) && fresh(pe.rb) && fresh(pe.rb.data) && pe.pid == pid && pe.Valid()
      invariant r <= 89 && ExtractorRing(pe.rb.State(), r) && AllPes(ps[i..])
      invariant AllCarriable(pe.rb.State(), r, ps[i..])
      invariant pe.rb.Contents() == Stuffing(r) && !pe.hasSync && pe.delivered == ps[..i]
    {
      cc, r := RelayOne(pe, ps[i..], cc, r);
      assert ps[i..][1..] == ps[i + 1..] && ps[..i + 1] == ps[..i] + [ps[i]];
    }
    assert ps[..|ps|] == ps;
    delivered := pe.delivered;
  }

  /** The first packet of the list through packetizer and extractor. */
  method RelayOne(pe: PesExtractor, ps: seq<seq<byte>>, cc: byte, ghost r: nat) returns (next: byte, ghost left: nat)
    requires pe.Valid() && pe.pid <= 0x1fff && ps != [] && AllPes(ps) && r <= 89
    requires ExtractorRing(pe.rb.State(), r) && AllCarriable(pe.rb.State(), r, ps)
    requires pe.rb.Contents() == Stuffing(r) && !pe.hasSync
    modifies pe, pe.rb, pe.rb.data
    ensures pe.Valid() && (pe.rb.data == old(pe.rb.data) || fresh(pe.rb.data))
    ensures left <= 89 && AllPes(ps[1..])
    ensures ExtractorRing(pe.rb.State(), left) && AllCarriable(pe.rb.State(), left, ps[1..])
    ensures pe.rb.Contents() == Stuffing(left) && !pe.hasSync && pe.delivered == old(pe.delivered) + [ps[0]]
  {
    hide Sound, Payloads, Feed, Lossless, ShapeAfter, TsPackets, Chunks, IsPes, Flatten, Split, Window, Residue, Pad,
      ExtractorRing, Stuffing, Carriable;
    PesBounds(ps[0]);
    ghost var sent := TsPackets(ps[0], cc, pe.pid, true);
    SplitFlatten(sent);
    PacketsOfPes(ps[0], cc, pe.pid, true);
    FeedPes(ps[0], r);
    LosslessPes(pe.rb.State(), ps[0], r);
    ResidueBound(|ps[0]|);
    left := Residue(Pad(|ps[0]|));
    var ok, pkts, count, cc1 := Packetize(ps[0], PACKET_SIZE, cc, pe.pid);
    SomePackets(ps[0], cc, pe.pid);
    var _ := pe.Push(pkts[..count * PACKET_SIZE], count);
    next := cc1;
  }

  lemma PesBounds(p: seq<byte>)
    requires IsPes(p)
    ensures p != []
  {
  }

  lemma SomePackets(buf: seq<byte>, cc: byte, pid: nat)
    requires buf != [] && pid <= 0x1fff
    ensures TsPackets(buf, cc, pid, true) != []
  {
  }
}

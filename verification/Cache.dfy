/** What has been seen on which line: an index by DID, SDID and line that follows the history of packets. */
module Cache {
  import opened Bits
  import opened Wrappers
  import VancPackets

  type Header = VancPackets.Header

  const KEYS := 0x1_0000
  const LINES := 2048
  const COUNTER_LIMIT := 0x1_0000_0000
  const LINE_COUNTER_LIMIT := 0x1_0000_0000_0000_0000

  // ---- the history ------------------------------------------------------------------------------

  predicate Acceptable(p: Header)
  {
    p.did <= 0xff && p.sdid <= 0xff && p.lineNr < LINES
  }

  function Key(did: nat, sdid: nat): nat
  {
    0x100 * did + sdid
  }

  /** Bytes have one key each. */
  lemma KeysDiffer(did: nat, sdid: nat, otherDid: nat, otherSdid: nat)
    requires sdid <= 0xff && otherSdid <= 0xff
    ensures Key(did, sdid) == Key(otherDid, otherSdid) <==> did == otherDid && sdid == otherSdid
  {
  }

  /** Packets of one kind. */
  function CountKey(h: seq<Header>, k: nat): nat
  {
    if h == [] then 0
    else CountKey(h[..|h| - 1], k) + (if Key(h[|h| - 1].did, h[|h| - 1].sdid) == k then 1 else 0)
  }

  predicate Matches(p: Header, k: nat, l: nat)
  {
    Key(p.did, p.sdid) == k && p.lineNr == l
  }

  /** Packets of one kind on one line. */
  function CountAt(h: seq<Header>, k: nat, l: nat): nat
  {
    if h == [] then 0 else CountAt(h[..|h| - 1], k, l) + (if Matches(h[|h| - 1], k, l) then 1 else 0)
  }

  function LastAt(h: seq<Header>, k: nat, l: nat): Option<Header>
  {
    if h == [] then None
    else if Matches(h[|h| - 1], k, l) then Some(h[|h| - 1])
    else LastAt(h[..|h| - 1], k, l)
  }

  datatype Slot = Slot(active: bool, count: nat, pkt: Option<Header>)

  const EMPTY := Slot(false, 0, None)

  /** What a line of the index should hold after a history. */
  function Expected(h: seq<Header>, k: nat, l: nat): Slot
  {
    Slot(CountAt(h, k, l) > 0, CountAt(h, k, l) % LINE_COUNTER_LIMIT, LastAt(h, k, l))
  }

  /** The packets of h with these identifiers on this line, in order. */
  function SeenAt(h: seq<Header>, did: nat, sdid: nat, l: nat): seq<Header>
  {
    if h == [] then []
    else
      var p := h[|h| - 1];
      SeenAt(h[..|h| - 1], did, sdid, l) + (if p.did == did && p.sdid == sdid && p.lineNr == l then [p] else [])
  }

  /** What a line of the index stands for, said without keys: how many such packets there were, and the last. */
  lemma {:induction false} ExpectedSeen(h: seq<Header>, did: nat, sdid: nat, l: nat)
    requires AllAcceptable(h) && did <= 0xff && sdid <= 0xff
    ensures CountAt(h, Key(did, sdid), l) == |SeenAt(h, did, sdid, l)|
    ensures LastAt(h, Key(did, sdid), l) == if SeenAt(h, did, sdid, l) == [] then None
      else Some(SeenAt(h, did, sdid, l)[|SeenAt(h, did, sdid, l)| - 1])
  {
    if h == [] {
    } else {
      var n := |h| - 1;
      AcceptableLast(h);
      hide AllAcceptable;
      ExpectedSeen(h[..n], did, sdid, l);
      KeysDiffer(h[n].did, h[n].sdid, did, sdid);
    }
  }

  lemma Step(h: seq<Header>, p: Header, k: nat, l: nat)
    ensures CountKey(h + [p], k) == CountKey(h, k) + (if Key(p.did, p.sdid) == k then 1 else 0)
    ensures CountAt(h + [p], k, l) == CountAt(h, k, l) + (if Matches(p, k, l) then 1 else 0)
    ensures LastAt(h + [p], k, l) == if Matches(p, k, l) then Some(p) else LastAt(h, k, l)
  {
    assert (h + [p])[..|h|] == h;
  }

  lemma {:induction false} NeverSeen(h: seq<Header>, k: nat, l: nat)
    ensures CountAt(h, k, l) <= CountKey(h, k) <= |h|
    ensures CountAt(h, k, l) == 0 <==> LastAt(h, k, l) == None
  {
    if h == [] {
    } else {
      NeverSeen(h[..|h| - 1], k, l);
    }
  }

  /** The kinds whose 32-bit counter reads zero: never seen, or seen a multiple of 2^32 times. */
  predicate CounterZero(h: seq<Header>, k: nat)
  {
    CountKey(h, k) % COUNTER_LIMIT == 0
  }

  /** The packets of h a reset passes over, when full is the whole history. */
  function Survivors(h: seq<Header>, full: seq<Header>): seq<Header>
  {
    if h == [] then []
    else
      var p, earlier := h[|h| - 1], Survivors(h[..|h| - 1], full);
      if CounterZero(full, Key(p.did, p.sdid)) then earlier + [p] else earlier
  }

  lemma {:induction false} SurvivorsAt(h: seq<Header>, full: seq<Header>, k: nat, l: nat)
    ensures CounterZero(full, k) ==>
      (CountKey(Survivors(h, full), k) == CountKey(h, k) && CountAt(Survivors(h, full), k, l) == CountAt(h, k, l)
       && LastAt(Survivors(h, full), k, l) == LastAt(h, k, l))
    ensures !CounterZero(full, k) ==>
      (CountKey(Survivors(h, full), k) == 0 && CountAt(Survivors(h, full), k, l) == 0
       && LastAt(Survivors(h, full), k, l) == None)
  {
    hide CounterZero;
    if h == [] {
    } else {
      var p := h[|h| - 1];
      SurvivorsAt(h[..|h| - 1], full, k, l);
      Step(Survivors(h[..|h| - 1], full), p, k, l);
    }
  }

  predicate AllAcceptable(h: seq<Header>)
  {
    forall i :: 0 <= i < |h| ==> Acceptable(h[i])
  }

  lemma AcceptableLast(h: seq<Header>)
    requires h != []
    ensures AllAcceptable(h) <==> AllAcceptable(h[..|h| - 1]) && Acceptable(h[|h| - 1])
  {
    hide Acceptable;
  }

  lemma AcceptableMore(h: seq<Header>, p: Header)
    ensures AllAcceptable(h + [p]) <==> AllAcceptable(h) && Acceptable(p)
  {
    assert (h + [p])[..|h|] == h;
    AcceptableLast(h + [p]);
  }

  lemma {:induction false} SurvivorsAcceptable(h: seq<Header>, full: seq<Header>)
    requires AllAcceptable(h)
    ensures AllAcceptable(Survivors(h, full))
  {
    hide AllAcceptable, Acceptable;
    if h == [] {
      AcceptableNone(full);
    } else {
      var n := |h| - 1;
      AcceptableLast(h);
      SurvivorsAcceptable(h[..n], full);
      AcceptableMore(Survivors(h[..n], full), h[n]);
    }
  }

  lemma AcceptableNone(full: seq<Header>)
    ensures AllAcceptable(Survivors([], full))
  {
  }

  /** A counter of limited width follows the count. */
  lemma Counted(n: nat, limit: nat)
    requires limit > 1
    ensures (n % limit + 1) % limit == (n + 1) % limit
  {
    var q, r := n / limit, n % limit;
    if r + 1 < limit {
      DivModUnique(n + 1, limit, q, r + 1);
    } else {
      DivModUnique(n + 1, limit, q + 1, 0);
    }
  }

  lemma NothingYet()
    ensures AllAcceptable([])
    ensures forall k :: CountKey([], k) == 0
    ensures forall k, l :: Expected([], k, l) == EMPTY
  {
  }

  // ---- the index ---------------------------------------------------------------------------------

  class Index {
    const activeCount: array<nat>
    const dids: array<nat>
    const sdids: array<nat>
    const lines: array2<Slot>
    ghost var history: seq<Header>   // the packets accepted and not yet forgotten

    ghost predicate Sized()
    {
      && activeCount.Length == dids.Length == sdids.Length == KEYS && lines.Length0 == KEYS && lines.Length1 == LINES
      && activeCount != dids && activeCount != sdids && dids != sdids
    }

    /** The index agrees with the history. */
    ghost predicate Valid()
      reads this, activeCount, dids, sdids, lines
    {
      && Sized()
      && AllAcceptable(history)
      && (forall k :: 0 <= k < KEYS ==> activeCount[k] == CountKey(history, k) % COUNTER_LIMIT)
      && (forall k :: 0 <= k < KEYS && activeCount[k] > 0 ==> dids[k] == k / 0x100 && sdids[k] == k % 0x100)
      && (forall k, l :: 0 <= k < KEYS && 0 <= l < LINES ==> lines[k, l] == Expected(history, k, l))
    }

    constructor ()
      ensures Valid() && history == []
      ensures fresh(activeCount) && fresh(dids) && fresh(sdids) && fresh(lines)
    {
      hide AllAcceptable, CountKey, Expected;
      NothingYet();
      activeCount := new nat[KEYS](i => 0);
      dids := new nat[KEYS](i => 0);
      sdids := new nat[KEYS](i => 0);
      lines := new Slot[KEYS, LINES]((i, j) => EMPTY);
      history := [];
    }

    method Update(p: Header) returns (ret: int)
      requires Valid()
      modifies this`history, activeCount, dids, sdids, lines
      ensures Valid() && ret in {0, -1}
      ensures ret == 0 <==> p.did <= 0xff && p.sdid <= 0xff && p.lineNr < 2048
      ensures history == if Acceptable(p) then old(history) + [p] else old(history)
    {
      hide CountKey, CountAt, LastAt, AllAcceptable;
      if p.did > 0xff {
        return -1;
      }
      if p.sdid > 0xff {
        return -1;
      }
      if p.lineNr >= LINES {
        return -1;
      }
      AcceptableMore(history, p);
      var k, l := Key(p.did, p.sdid), p.lineNr;
      assert k / 0x100 == p.did && k % 0x100 == p.sdid;
      Counted(CountKey(history, k), COUNTER_LIMIT);
      Counted(CountAt(history, k, l), LINE_COUNTER_LIMIT);
      if activeCount[k] == 0 {
        dids[k], sdids[k] := p.did, p.sdid;
      }
      activeCount[k] := (activeCount[k] + 1) % COUNTER_LIMIT;
      lines[k, l] := Slot(true, (lines[k, l].count + 1) % LINE_COUNTER_LIMIT, Some(p));
      forall j | 0 <= j < KEYS
        ensures activeCount[j] == CountKey(history + [p], j) % COUNTER_LIMIT
      {
        Step(history, p, j, l);
      }
      forall j, m | 0 <= j < KEYS && 0 <= m < LINES
        ensures lines[j, m] == Expected(history + [p], j, m)
      {
        Step(history, p, j, m);
      }
      history := history + [p];
      return 0;
    }

    /** What a lookup shows of a kind and of one of its lines. */
    method Lookup(did: byte, sdid: byte, line: nat) returns (count: nat, slot: Slot)
      requires Valid() && line < LINES
      ensures count == CountKey(history, Key(did, sdid)) % COUNTER_LIMIT
      ensures slot == Expected(history, Key(did, sdid), line)
      ensures var seen := SeenAt(history, did, sdid, line);
        && slot.active == (seen != []) && slot.count == |seen| % 0x1_0000_0000_0000_0000
        && slot.pkt == if seen == [] then None else Some(seen[|seen| - 1])
    {
      hide CountKey, CountAt, LastAt, AllAcceptable, SeenAt;
      ExpectedSeen(history, did, sdid, line);
      var k := Key(did, sdid);
      assert 0 <= k < KEYS;
      count, slot := activeCount[k], lines[k, line];
    }

    method ClearEntry(k: nat)
      requires Sized() && k < KEYS
      requires forall l :: 0 <= l < LINES && !lines[k, l].active ==> lines[k, l] == EMPTY
      modifies lines
      ensures forall l :: 0 <= l < LINES ==> lines[k, l] == EMPTY
      ensures forall j, l :: 0 <= j < KEYS && 0 <= l < LINES && j != k ==> lines[j, l] == old(lines[j, l])
    {
      for l := 0 to LINES
        invariant forall m :: 0 <= m < l ==> lines[k, m] == EMPTY
        invariant forall m :: l <= m < LINES ==> lines[k, m] == old(lines[k, m])
        invariant forall j, m :: 0 <= j < KEYS && 0 <= m < LINES && j != k ==> lines[j, m] == old(lines[j, m])
      {
        if !lines[k, l].active {
          continue;
        }
        lines[k, l] := EMPTY;
      }
    }

    /** Skips a kind whose counter reads zero, and an inactive line. */
    method Reset()
      requires Valid()
      modifies this`history, activeCount, lines
      ensures Valid() && history == Survivors(old(history), old(history))
    {
      hide CountKey, CountAt, LastAt, Survivors, CounterZero, AllAcceptable;
      ghost var kept := Survivors(history, history);
      for d := 0 to 0x100
        invariant Sized() && history == old(history) && Halfway(0x100 * d, kept)
      {
        for s := 0 to 0x100
          invariant Sized() && history == old(history) && Halfway(0x100 * d + s, kept)
        {
          ResetEntry(Key(d, s), kept);
        }
      }
      SurvivorsAcceptable(history, history);
      history := kept;
    }

    /** Entries below k are as after the reset, the others as before. */
    ghost predicate Halfway(k: nat, kept: seq<Header>)
      requires Sized()
      reads this, activeCount, dids, sdids, lines
    {
      && AllAcceptable(history)
      && (forall j :: 0 <= j < KEYS ==>
          activeCount[j] == CountKey(if j < k then kept else history, j) % COUNTER_LIMIT)
      && (forall j :: 0 <= j < KEYS && activeCount[j] > 0 ==> dids[j] == j / 0x100 && sdids[j] == j % 0x100)
      && (forall j, l :: 0 <= j < KEYS && 0 <= l < LINES ==>
          lines[j, l] == Expected(if j < k then kept else history, j, l))
    }

    method ResetEntry(k: nat, ghost kept: seq<Header>)
      requires Sized() && k < KEYS && Halfway(k, kept) && kept == Survivors(history, history)
      modifies activeCount, lines
      ensures Halfway(k + 1, kept)
    {
      hide CountKey, CountAt, LastAt, Survivors;
      forall l | 0 <= l < LINES
        ensures CountAt(history, k, l) == 0 ==> Expected(history, k, l) == EMPTY
        ensures CounterZero(history, k) ==>
          CountKey(kept, k) == CountKey(history, k) && Expected(kept, k, l) == Expected(history, k, l)
        ensures !CounterZero(history, k) ==> CountKey(kept, k) == 0 && Expected(kept, k, l) == EMPTY
      {
        NeverSeen(history, k, l);
        SurvivorsAt(history, history, k, l);
      }
      SurvivorsAt(history, history, k, 0);
      if activeCount[k] == 0 {
        return;
      }
      activeCount[k] := 0;
      ClearEntry(k);
    }
  }

  // ---- what the index means -----------------------------------------------------------------------

  function SumOfLines(h: seq<Header>, k: nat, n: nat): nat
  {
    if n == 0 then 0 else SumOfLines(h, k, n - 1) + CountAt(h, k, n - 1)
  }

  lemma {:induction false} SumStep(h: seq<Header>, p: Header, k: nat, n: nat)
    ensures SumOfLines(h + [p], k, n)
      == SumOfLines(h, k, n) + (if Key(p.did, p.sdid) == k && p.lineNr < n then 1 else 0)
  {
    if n == 0 {
    } else {
      SumStep(h, p, k, n - 1);
      Step(h, p, k, n - 1);
    }
  }

  lemma {:induction false} NothingSeen(k: nat, n: nat)
    ensures SumOfLines([], k, n) == 0
  {
    if n == 0 {
    } else {
      NothingSeen(k, n - 1);
    }
  }

  /** The counter of a kind is the sum of the counts of its lines. */
  lemma {:induction false} KeyCountIsSum(h: seq<Header>, k: nat)
    requires AllAcceptable(h)
    ensures CountKey(h, k) == SumOfLines(h, k, LINES)
  {
    if h == [] {
      NothingSeen(k, LINES);
    } else {
      var n := |h| - 1;
      KeyCountIsSum(h[..n], k);
      SumStep(h[..n], h[n], k, LINES);
      assert h == h[..n] + [h[n]];
    }
  }

  /** The packet held is the latest of its kind on its line. */
  lemma {:induction false} LastIsLatest(h: seq<Header>, k: nat, l: nat)
    ensures LastAt(h, k, l).Some? ==>
      exists i :: (0 <= i < |h| && h[i] == LastAt(h, k, l).value && Matches(h[i], k, l)
        && forall j :: i < j < |h| ==> !Matches(h[j], k, l))
  {
    if h != [] && !Matches(h[|h| - 1], k, l) && LastAt(h, k, l).Some? {
      var earlier := h[..|h| - 1];
      LastIsLatest(earlier, k, l);
      var i :| 0 <= i < |earlier| && earlier[i] == LastAt(earlier, k, l).value && Matches(earlier[i], k, l)
        && forall j :: i < j < |earlier| ==> !Matches(earlier[j], k, l);
      forall j | i < j < |h|
        ensures !Matches(h[j], k, l)
      {
        if j < |h| - 1 {
          assert !Matches(earlier[j], k, l);
        }
      }
      assert h[i] == LastAt(h, k, l).value;
    }
  }

  /** Kinds seen a nonzero multiple of 2^32 times. */
  predicate WrappedToZero(h: seq<Header>, k: nat)
  {
    CountKey(h, k) > 0 && CounterZero(h, k)
  }

  lemma {:induction false} SeenIsCounted(h: seq<Header>, i: nat)
    requires i < |h|
    ensures CountKey(h, Key(h[i].did, h[i].sdid)) > 0
  {
    if i == |h| - 1 {
    } else {
      SeenIsCounted(h[..|h| - 1], i);
    }
  }

  lemma {:induction false} SurvivorIff(h: seq<Header>, full: seq<Header>)
    ensures Survivors(h, full) == [] <==> forall i :: 0 <= i < |h| ==> !CounterZero(full, Key(h[i].did, h[i].sdid))
  {
    hide CounterZero;
    if h == [] {
    } else {
      var n := |h| - 1;
      SurvivorIff(h[..n], full);
      assert forall i :: 0 <= i < n ==> h[..n][i] == h[i];
    }
  }

  lemma {:induction false} FindSeen(h: seq<Header>, k: nat) returns (i: nat)
    requires CountKey(h, k) > 0
    ensures i < |h| && Key(h[i].did, h[i].sdid) == k
  {
    if Key(h[|h| - 1].did, h[|h| - 1].sdid) == k {
      i := |h| - 1;
    } else {
      i := FindSeen(h[..|h| - 1], k);
    }
  }

  /** A reset forgets everything exactly when no counter has come round to zero. */
  lemma ResetClearsIff(h: seq<Header>)
    ensures Survivors(h, h) == [] <==> forall k :: !WrappedToZero(h, k)
  {
    hide CountKey, Survivors;
    SurvivorIff(h, h);
    if Survivors(h, h) == [] {
      forall k ensures !WrappedToZero(h, k) {
        if WrappedToZero(h, k) {
          var i := FindSeen(h, k);
        }
      }
    } else if forall k :: !WrappedToZero(h, k) {
      forall i | 0 <= i < |h|
        ensures !CounterZero(h, Key(h[i].did, h[i].sdid))
      {
        SeenIsCounted(h, i);
        assert !WrappedToZero(h, Key(h[i].did, h[i].sdid));
      }
    }
  }

  /** Below 2^32 packets a reset forgets everything. */
  lemma FewPacketsCleared(h: seq<Header>)
    requires |h| < COUNTER_LIMIT
    ensures Survivors(h, h) == []
  {
    ResetClearsIff(h);
    forall k ensures !WrappedToZero(h, k) {
      NeverSeen(h, k, 0);
    }
  }

  /** The same packet over and over. */
  function Same(p: Header, n: nat): (h: seq<Header>)
    ensures |h| == n
  {
    seq(n, i => p)
  }

  lemma {:induction false} SameCounted(p: Header, n: nat)
    ensures CountKey(Same(p, n), Key(p.did, p.sdid)) == n
  {
    if n == 0 {
    } else {
      SameCounted(p, n - 1);
      assert Same(p, n)[..n - 1] == Same(p, n - 1);
    }
  }

  lemma {:induction false} SameSurvives(p: Header, n: nat, full: seq<Header>)
    requires CounterZero(full, Key(p.did, p.sdid))
    ensures Survivors(Same(p, n), full) == Same(p, n)
  {
    if n == 0 {
    } else {
      SameSurvives(p, n - 1, full);
      assert Same(p, n)[..n - 1] == Same(p, n - 1) && Same(p, n) == Same(p, n - 1) + [p];
    }
  }

  /** The 2^32nd copy of a packet takes its counter to zero, and a reset passes over all of them. */
  lemma ResetForgetsNothing(p: Header)
    ensures var h := Same(p, COUNTER_LIMIT); Survivors(h, h) == h
  {
    hide CountKey, Survivors;
    SameCounted(p, COUNTER_LIMIT);
    SameSurvives(p, COUNTER_LIMIT, Same(p, COUNTER_LIMIT));
  }

  datatype Event = Seen(pkt: Header) | Cleared

  /** The packets the index stands for after a run of updates and resets. */
  function Remembered(events: seq<Event>): seq<Header>
  {
    if events == [] then []
    else
      var h := Remembered(events[..|events| - 1]);
      match events[|events| - 1]
      case Seen(p) => if Acceptable(p) then h + [p] else h
      case Cleared => Survivors(h, h)
  }

  /** The accepted packets since the last reset. */
  function SinceReset(events: seq<Event>): seq<Header>
  {
    if events == [] then []
    else
      var h := SinceReset(events[..|events| - 1]);
      match events[|events| - 1]
      case Seen(p) => if Acceptable(p) then h + [p] else h
      case Cleared => []
  }

  /** Over any run of fewer than 2^32 updates the index stands for the packets since the last reset. */
  lemma {:induction false} AgreesWithHistory(events: seq<Event>)
    requires |events| < COUNTER_LIMIT
    ensures Remembered(events) == SinceReset(events) && |SinceReset(events)| <= |events|
  {
    if events == [] {
    } else {
      hide Survivors;
      AgreesWithHistory(events[..|events| - 1]);
      FewPacketsCleared(Remembered(events[..|events| - 1]));
    }
  }

  /** The run itself. */
  method Run(index: Index, events: seq<Event>)
    requires index.Valid() && index.history == []
    modifies index, index.activeCount, index.dids, index.sdids, index.lines
    ensures index.Valid() && index.history == Remembered(events)
  {
    hide Survivors;
    assert events[..|events|] == events;
    for i := 0 to |events|
      invariant index.Valid() && index.history == Remembered(events[..i])
    {
      assert events[..i + 1][..i] == events[..i];
      match events[i] {
        case Seen(p) =>
          var _ := index.Update(p);
        case Cleared =>
          index.Reset();
      }
    }
  }
}

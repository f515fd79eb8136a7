/** Reassembly of SCTE 104 messages spread over several VANC packets
    (section 5.1 and Table 3 of SMPTE ST 2010-2008). */
module Scte104Fragments {
  import opened Bits
  import opened Wrappers
  import opened VancPackets

  const MAX_FRAGMENTS := 10

  // ---- what one packet is ---------------------------------------------------------------

  datatype Kind = Duplicate | Single | First | Intermediate | Final | Other

  /** The payload descriptor: the low byte of the first word. */
  function Descriptor(h: Header): nat
  {
    if h.payload == [] then 0 else h.payload[0] % 0x100
  }

  /** What the descriptor byte says of a packet. */
  function KindOfDescriptor(d: nat): Kind
  {
    var continued, following := (d / 4) % 2, (d / 2) % 2;
    if d % 2 == 1 then Duplicate
    else if d == 0x08 then Single
    else if continued == 1 && following == 0 then First
    else if continued == 1 then Intermediate
    else if following == 1 then Final
    else Other
  }

  function KindOf(h: Header): Kind
  {
    KindOfDescriptor(Descriptor(h))
  }

  /** The kinds by the value of the descriptor byte: odd ones carry the duplicate flag. */
  lemma KindOfByte(d: byte)
    ensures KindOfDescriptor(d) ==
      if d % 2 == 1 then Duplicate
      else if d == 0x08 then Single
      else if d % 8 == 4 then First
      else if d % 8 == 6 then Intermediate
      else if d % 8 == 2 then Final
      else Other
  {
  }

  /** The same of a packet, by its first payload word. */
  lemma KindOfWord(h: Header)
    ensures KindOf(h) ==
      if h.payload == [] then Other
      else if h.payload[0] % 2 == 1 then Duplicate
      else if h.payload[0] % 0x100 == 0x08 then Single
      else if h.payload[0] % 8 == 4 then First
      else if h.payload[0] % 8 == 6 then Intermediate
      else if h.payload[0] % 8 == 2 then Final
      else Other
  {
    if h.payload != [] {
      LowByte(h.payload[0]);
      KindOfByte(h.payload[0] % 0x100);
    }
  }

  lemma LowByte(w: word)
    ensures (w % 0x100) % 2 == w % 2 && (w % 0x100) % 8 == w % 8
  {
    assert w == 0x100 * (w / 0x100) + w % 0x100;
    assert w == 8 * (0x20 * (w / 0x100)) + w % 0x100;
  }

  // ---- assembling -----------------------------------------------------------------------

  /** Every payload after the first without its descriptor word. */
  function Tails(fs: seq<Header>): seq<word>
  {
    if fs == [] then []
    else Tails(fs[..|fs| - 1]) + (if fs[|fs| - 1].payload == [] then [] else fs[|fs| - 1].payload[1..])
  }

  function Joined(fs: seq<Header>): seq<word>
    requires fs != []
  {
    fs[0].payload + Tails(fs[1..])
  }

  function RawTotal(fs: seq<Header>): nat
  {
    if fs == [] then 0 else RawTotal(fs[..|fs| - 1]) + |fs[|fs| - 1].payload| + 7
  }

  /** The words the fragments take up on their lines: payload, and seven words around each. */
  function WordsOnLines(fs: seq<Header>): nat
  {
    if fs == [] then 0 else 7 + |fs[0].payload| + WordsOnLines(fs[1..])
  }

  lemma {:induction false} RawTotalIs(fs: seq<Header>)
    ensures RawTotal(fs) == WordsOnLines(fs)
  {
    if fs == [] {
    } else {
      RawTotalCons(fs);
      RawTotalIs(fs[1..]);
    }
  }

  function Assembled(fs: seq<Header>, last: Header): Header
    requires fs != []
  {
    last.(payload := Joined(fs), checksumValid := false)
  }

  /** The state machine on the held fragments, and the message it completes. */
  function Step(held: seq<Header>, h: Header): (seq<Header>, Option<Header>)
  {
    match KindOf(h)
    case Duplicate => (held, None)
    case Other => (held, None)
    case Single => ([], Some(h))
    case First => ([h], None)
    case Intermediate =>
      if held == [] || |held| + 1 == MAX_FRAGMENTS then ([], None) else (held + [h], None)
    case Final =>
      if held == [] || RawTotal(held + [h]) > MAX_PAYLOAD then ([], None)
      else ([], Some(Assembled(held + [h], h)))
  }

  /** The packet being assembled. */
  class Assembly {
    var payload: seq<word>
    var rawLength: nat

    constructor ()
      ensures payload == [] && rawLength == 0
    {
      payload, rawLength := [], 0;
    }

    method PayloadAppend(src: Header, srcRawLength: nat, srcOffset: nat) returns (ret: int)
      requires srcOffset <= |src.payload|
      modifies this
      ensures ret in {0, -1}
      ensures ret == 0 <==>
        old(|payload|) + |src.payload| - srcOffset <= MAX_PAYLOAD && old(rawLength) + srcRawLength <= MAX_PAYLOAD
      ensures ret == 0 ==> payload == old(payload) + src.payload[srcOffset..]
      ensures ret == 0 ==> rawLength == old(rawLength) + srcRawLength
      ensures ret != 0 ==> payload == old(payload) && rawLength == old(rawLength)
    {
      if |payload| + (|src.payload| - srcOffset) > MAX_PAYLOAD {
        return -1;
      }
      if rawLength + srcRawLength > MAX_PAYLOAD {
        return -1;
      }
      payload := payload + src.payload[srcOffset..];
      rawLength := rawLength + srcRawLength;
      return 0;
    }
  }

  class FragmentStore {
    const fragments: array<Option<Header>>
    var count: nat
    ghost var held: seq<Header>

    /** Slots below count hold fragments, the rest are empty. */
    ghost predicate Slots()
      reads this, fragments
    {
      && fragments.Length == MAX_FRAGMENTS && count == |held| <= MAX_FRAGMENTS
      && (forall i :: 0 <= i < count ==> fragments[i] == Some(held[i]) && held[i].payload != [])
      && (forall i :: count <= i < MAX_FRAGMENTS ==> fragments[i] == None)
    }

    /** Between calls there is always room for a final fragment. */
    ghost predicate Valid()
      reads this, fragments
    {
      Slots() && count < MAX_FRAGMENTS
    }

    constructor ()
      ensures Valid() && held == [] && fresh(fragments)
    {
      fragments := new Option<Header>[MAX_FRAGMENTS](i => None);
      count := 0;
      held := [];
    }

    method Append(h: Header)
      requires Slots() && count < MAX_FRAGMENTS && h.payload != []
      modifies this, fragments
      ensures Slots() && held == old(held) + [h]
    {
      fragments[count] := Some(h);
      count := count + 1;
      held := held + [h];
    }

    method Reset()
      requires Slots()
      modifies this, fragments
      ensures Valid() && held == []
    {
      for i := 0 to count
        invariant fragments.Length == MAX_FRAGMENTS && count == old(count)
        invariant forall k :: 0 <= k < i ==> fragments[k] == None
        invariant forall k :: count <= k < MAX_FRAGMENTS ==> fragments[k] == None
      {
        fragments[i] := None;
      }
      count := 0;
      held := [];
    }

    method Following(h: Header) returns (ret: int)
      requires Valid() && h.payload != []
      modifies this, fragments
      ensures Valid()
      ensures held == if old(held) == [] || |old(held)| + 1 == MAX_FRAGMENTS then [] else old(held) + [h]
    {
      if count == 0 {
        Reset();
        return -1;
      }
      if count + 1 == MAX_FRAGMENTS {
        Reset();
        return -1;
      }
      Append(h);
      return 0;
    }

    method FinalFragment(h: Header) returns (ret: int, complete: Option<Header>)
      requires Valid() && h.payload != []
      modifies this, fragments
      ensures Valid() && held == [] && (ret == 0 <==> complete.Some?)
      ensures complete == if old(held) == [] || RawTotal(old(held) + [h]) > MAX_PAYLOAD then None
        else Some(Assembled(old(held) + [h], h))
    {
      hide RawTotal, Joined, Tails;
      if count == 0 {
        Reset();
        return -1, None;
      }
      Append(h);
      var dst := new Assembly();
      ghost var fs := held;
      NothingJoined(fs);
      for i := 0 to count
        invariant Slots() && fs == held && fresh(dst)
        invariant dst.rawLength == RawTotal(fs[..i]) <= MAX_PAYLOAD
        invariant dst.payload == (if i == 0 then [] else Joined(fs[..i]))
      {
        var offset := 0;
        if i > 0 {
          offset := 1;
        }
        JoinStep(fs, i);
        PayloadWithinRaw(fs[..i + 1]);
        var src := fragments[i].value;
        var r := dst.PayloadAppend(src, |src.payload| + 7, offset);
        if r < 0 {
          RawTotalPrefix(fs, i + 1);
          Reset();
          return -1, None;
        }
      }
      assert fs[..|fs|] == fs;
      Reset();
      return 0, Some(h.(payload := dst.payload, checksumValid := false));
    }

    /** The part of the parser that decides which packet, if any, goes on to be decoded. */
    method Process(h: Header) returns (message: Option<Header>)
      requires Valid()
      modifies this, fragments
      ensures Valid() && (held, message) == Step(old(held), h)
    {
      var descriptor := if h.payload == [] then 0 else h.payload[0] % 0x100;
      var continued, following, duplicate := (descriptor / 4) % 2, (descriptor / 2) % 2, descriptor % 2;
      if duplicate == 1 {
        return None;
      }
      if descriptor != 0x08 {
        if continued == 1 && following == 0 {
          Reset();
          Append(h);
          assert held == [h];
          return None;
        } else if continued == 1 && following == 1 {
          var _ := Following(h);
          return None;
        } else if continued == 0 && following == 1 {
          var ret;
          ret, message := FinalFragment(h);
          return;
        } else {
          return None;
        }
      }
      Reset();
      return Some(h);
    }
  }

  lemma NothingJoined(fs: seq<Header>)
    ensures RawTotal(fs[..0]) == 0
  {
  }

  lemma JoinStep(fs: seq<Header>, i: nat)
    requires i < |fs| && fs[i].payload != []
    ensures RawTotal(fs[..i + 1]) == RawTotal(fs[..i]) + |fs[i].payload| + 7
    ensures Joined(fs[..i + 1]) ==
      (if i == 0 then fs[0].payload else Joined(fs[..i]) + fs[i].payload[1..])
  {
    assert fs[..i + 1][..i] == fs[..i];
    if i == 0 {
      assert fs[..1][1..] == [];
    } else {
      var t := fs[..i + 1][1..];
      assert t[..|t| - 1] == fs[..i][1..] && t[|t| - 1] == fs[i];
    }
  }

  lemma {:induction false} TailsWithinRaw(fs: seq<Header>)
    ensures |Tails(fs)| <= RawTotal(fs)
  {
    if fs == [] {
    } else {
      TailsWithinRaw(fs[..|fs| - 1]);
    }
  }

  lemma {:induction false} RawTotalCons(fs: seq<Header>)
    requires fs != []
    ensures RawTotal(fs) == |fs[0].payload| + 7 + RawTotal(fs[1..])
  {
    if |fs| == 1 {
      assert fs[..0] == [] && fs[1..] == [];
    } else {
      RawTotalCons(fs[..|fs| - 1]);
      assert fs[..|fs| - 1][1..] == fs[1..][..|fs| - 2];
    }
  }

  lemma PayloadWithinRaw(fs: seq<Header>)
    requires fs != []
    ensures |Joined(fs)| <= RawTotal(fs)
  {
    RawTotalCons(fs);
    TailsWithinRaw(fs[1..]);
  }

  lemma {:induction false} RawTotalPrefix(fs: seq<Header>, i: nat)
    requires i <= |fs|
    ensures RawTotal(fs[..i]) <= RawTotal(fs)
    decreases |fs| - i
  {
    if i == |fs| {
      assert fs[..i] == fs;
    } else {
      assert fs[..i + 1][..i] == fs[..i];
      RawTotalPrefix(fs, i + 1);
    }
  }

  // ---- whole runs -------------------------------------------------------------------------

  /** The fragments held after a history of packets, starting with none. */
  function Held(history: seq<Header>): seq<Header>
  {
    if history == [] then [] else Step(Held(history[..|history| - 1]), history[|history| - 1]).0
  }

  /** The messages a history completes, in order. */
  function Messages(history: seq<Header>): seq<Header>
  {
    if history == [] then []
    else
      var n := |history| - 1;
      var message := Step(Held(history[..n]), history[n]).1;
      Messages(history[..n]) + (if message.Some? then [message.value] else [])
  }

  /** The first byte of the payload is odd. */
  predicate Flagged(h: Header)
  {
    h.payload != [] && h.payload[0] % 2 == 1
  }

  /** A packet flagged as a duplicate leaves the held fragments alone and completes nothing. */
  lemma DuplicateIgnored(held: seq<Header>, h: Header)
    requires Flagged(h)
    ensures Step(held, h) == (held, None)
  {
    KindOfWord(h);
  }

  function Unflagged(history: seq<Header>): seq<Header>
  {
    if history == [] then []
    else if Flagged(history[|history| - 1]) then Unflagged(history[..|history| - 1])
    else Unflagged(history[..|history| - 1]) + [history[|history| - 1]]
  }

  /** Wherever packets flagged as duplicates turn up in a history, they change neither the fragments held nor any
      completed message. */
  lemma {:induction false} DuplicatesDropped(history: seq<Header>)
    ensures Held(history) == Held(Unflagged(history)) && Messages(history) == Messages(Unflagged(history))
  {
    if history == [] {
    } else {
      hide Step, Flagged;
      var n := |history| - 1;
      DuplicatesDropped(history[..n]);
      if Flagged(history[n]) {
        DuplicateIgnored(Held(history[..n]), history[n]);
        assert Messages(history[..n]) + [] == Messages(history[..n]);
      } else {
        var kept := Unflagged(history[..n]);
        assert (kept + [history[n]])[..|kept|] == kept;
      }
    }
  }

  /** The run itself: what is held and completed is what the packets without the flag lead to. */
  method ProcessAll(store: FragmentStore, history: seq<Header>) returns (messages: seq<Header>)
    requires store.Valid() && store.held == []
    modifies store, store.fragments
    ensures store.Valid() && store.held == Held(Unflagged(history))
    ensures messages == Messages(Unflagged(history))
  {
    hide Step;
    messages := [];
    for i := 0 to |history|
      invariant store.Valid() && store.held == Held(history[..i]) && messages == Messages(history[..i])
    {
      assert history[..i + 1][..i] == history[..i];
      var message := store.Process(history[i]);
      if message.Some? {
        messages := messages + [message.value];
      }
    }
    assert history[..|history|] == history;
    DuplicatesDropped(history);
  }

  predicate Without(hs: seq<Header>, k: Kind)
  {
    forall i :: 0 <= i < |hs| ==> KindOf(hs[i]) != k
  }

  function Intermediates(hs: seq<Header>): seq<Header>
  {
    if hs == [] then []
    else if KindOf(hs[|hs| - 1]) == Intermediate then Intermediates(hs[..|hs| - 1]) + [hs[|hs| - 1]]
    else Intermediates(hs[..|hs| - 1])
  }

  /** Without a first packet nothing is ever held. */
  lemma {:induction false} NothingHeld(history: seq<Header>)
    requires Without(history, First)
    ensures Held(history) == []
  {
    if history == [] {
    } else {
      NothingHeld(history[..|history| - 1]);
    }
  }

  /** The fragments a first packet and what came after it should have left behind. */
  function Since(first: Header, after: seq<Header>): seq<Header>
  {
    if Without(after, Single) && Without(after, Final) && |Intermediates(after)| <= MAX_FRAGMENTS - 2
    then [first] + Intermediates(after) else []
  }

  lemma SinceStep(first: Header, after: seq<Header>)
    requires after != [] && Without(after, First)
    ensures Step(Since(first, after[..|after| - 1]), after[|after| - 1]).0 == Since(first, after)
  {
    hide Without, KindOf, RawTotal, Assembled;
    var n := |after| - 1;
    WithoutLast(after, First);
    WithoutLast(after, Single);
    WithoutLast(after, Final);
    assert [first] + (Intermediates(after[..n]) + [after[n]]) == ([first] + Intermediates(after[..n])) + [after[n]];
  }

  /** Otherwise: the last first packet and the intermediates since, unless a single or final packet
      came after it or a ninth intermediate overflowed the store. */
  lemma {:induction false} HeldSinceFirst(before: seq<Header>, first: Header, after: seq<Header>)
    requires KindOf(first) == First && Without(after, First)
    ensures Held(before + [first] + after) == Since(first, after)
  {
    hide Without, KindOf, RawTotal, Assembled, Step;
    var history := before + [first] + after;
    if after == [] {
      assert history == before + [first] && history[..|history| - 1] == before;
      StepOfFirst(Held(before), first);
      NoneSince(first);
    } else {
      var n := |after| - 1;
      assert history[..|history| - 1] == before + [first] + after[..n] && history[|history| - 1] == after[n];
      WithoutLast(after, First);
      HeldSinceFirst(before, first, after[..n]);
      SinceStep(first, after);
    }
  }

  lemma StepOfFirst(held: seq<Header>, first: Header)
    requires KindOf(first) == First
    ensures Step(held, first).0 == [first]
  {
  }

  lemma NoneSince(first: Header)
    ensures Since(first, []) == [first] == [first] + Intermediates([])
    ensures Without([], Single) && Without([], Final) && |Intermediates([])| == 0
  {
  }

  lemma WithoutLast(hs: seq<Header>, k: Kind)
    requires hs != []
    ensures Without(hs, k) <==> Without(hs[..|hs| - 1], k) && KindOf(hs[|hs| - 1]) != k
  {
    hide KindOf;
  }

  /** A final packet completes a message exactly if fragments are held that, with it, took up at most 16384 words. */
  lemma CompletesIff(held: seq<Header>, last: Header)
    requires last.payload != [] && last.payload[0] % 8 == 2
    ensures Step(held, last).0 == []
    ensures Step(held, last).1.Some? <==> held != [] && WordsOnLines(held + [last]) <= 16384
  {
    hide RawTotal, Assembled;
    KindOfWord(last);
    RawTotalIs(held + [last]);
  }

  /** A final packet completes the message of everything held, minus the later descriptors. */
  lemma Completed(before: seq<Header>, first: Header, after: seq<Header>, last: Header)
    requires KindOf(first) == First && Without(after, First) && KindOf(last) == Final
    requires Without(after, Single) && Without(after, Final) && |Intermediates(after)| <= MAX_FRAGMENTS - 2
    requires RawTotal([first] + Intermediates(after) + [last]) <= MAX_PAYLOAD
    ensures var r := Step(Held(before + [first] + after), last);
      r.0 == [] && r.1 == Some(Assembled([first] + Intermediates(after) + [last], last))
  {
    HeldSinceFirst(before, first, after);
  }

  // ---- splitting a message and putting it together again ------------------------------------

  /** Fragments carrying the chunks of a message, each behind its own descriptor word. */
  predicate Carries(fs: seq<Header>, chunks: seq<seq<word>>)
  {
    |fs| == |chunks| && forall i :: 0 <= i < |fs| ==> fs[i].payload != [] && fs[i].payload[1..] == chunks[i]
  }

  function Concat(chunks: seq<seq<word>>): seq<word>
  {
    if chunks == [] then [] else Concat(chunks[..|chunks| - 1]) + chunks[|chunks| - 1]
  }

  lemma {:induction false} TailsOfChunks(fs: seq<Header>, chunks: seq<seq<word>>)
    requires Carries(fs, chunks)
    ensures Tails(fs) == Concat(chunks)
  {
    if fs == [] {
    } else {
      TailsOfChunks(fs[..|fs| - 1], chunks[..|fs| - 1]);
    }
  }

  lemma {:induction false} ConcatCons(chunks: seq<seq<word>>)
    requires chunks != []
    ensures Concat(chunks) == chunks[0] + Concat(chunks[1..])
  {
    if |chunks| == 1 {
      assert chunks[..0] == [] && chunks[1..] == [];
    } else {
      var n := |chunks| - 1;
      ConcatCons(chunks[..n]);
      assert chunks[..n][1..] == chunks[1..][..n - 1];
      var more := Concat(chunks[1..][..n - 1]);
      assert Concat(chunks[1..]) == more + chunks[n];
      hide Concat;
      assert chunks[0] + (more + chunks[n]) == (chunks[0] + more) + chunks[n];
    }
  }

  lemma {:induction false} ShortFragments(fs: seq<Header>)
    requires forall i :: 0 <= i < |fs| ==> |fs[i].payload| <= 255
    ensures RawTotal(fs) <= 262 * |fs|
  {
    if fs == [] {
    } else {
      ShortFragments(fs[..|fs| - 1]);
    }
  }

  lemma Reassembled(before: seq<Header>, first: Header, after: seq<Header>, last: Header,
                            chunks: seq<seq<word>>)
    requires KindOf(first) == First && KindOf(last) == Final
    requires Without(after, First) && Without(after, Single) && Without(after, Final)
    requires var fs := [first] + Intermediates(after) + [last];
      && |fs| <= MAX_FRAGMENTS && Carries(fs, chunks)
      && forall i :: 0 <= i < |fs| ==> |fs[i].payload| <= 255
    ensures var r := Step(Held(before + [first] + after), last);
      && r.0 == [] && r.1.Some?
      && r.1.value.payload == [first.payload[0]] + Concat(chunks)
  {
    hide KindOf, Held, Intermediates, Step;
    var fs := [first] + Intermediates(after) + [last];
    ShortFragments(fs);
    Completed(before, first, after, last);
    assert fs[0] == first;
    assert Carries(fs[1..], chunks[1..]);
    TailsOfChunks(fs[1..], chunks[1..]);
    ConcatCons(chunks);
    assert first.payload == [first.payload[0]] + chunks[0];
  }

  /** The packets whose descriptor byte ends in the bits 110. */
  function Inner(hs: seq<Header>): seq<Header>
  {
    if hs == [] then []
    else
      var h := hs[|hs| - 1];
      Inner(hs[..|hs| - 1]) + (if h.payload != [] && h.payload[0] % 8 == 6 then [h] else [])
  }

  /** Nothing that begins, ends or is a message: descriptor bytes that are odd, end in 110, or end in 000 without
      being 0x08. */
  predicate Quiet(hs: seq<Header>)
  {
    forall i :: 0 <= i < |hs| && hs[i].payload != [] ==>
      hs[i].payload[0] % 2 == 1 || hs[i].payload[0] % 8 == 6
      || (hs[i].payload[0] % 8 == 0 && hs[i].payload[0] % 0x100 != 0x08)
  }

  lemma QuietWithout(hs: seq<Header>)
    requires Quiet(hs)
    ensures Without(hs, First) && Without(hs, Single) && Without(hs, Final)
  {
    hide KindOf;
    forall i | 0 <= i < |hs|
      ensures KindOf(hs[i]) !in {First, Single, Final}
    {
      KindOfWord(hs[i]);
    }
  }

  lemma {:induction false} InnerIsIntermediates(hs: seq<Header>)
    ensures Inner(hs) == Intermediates(hs)
  {
    hide KindOf;
    if hs == [] {
    } else {
      InnerIsIntermediates(hs[..|hs| - 1]);
      KindOfWord(hs[|hs| - 1]);
    }
  }

  /** A message cut into up to ten packets, the first with a descriptor byte ending in 100, the last in 010 and the
      others in 110, comes back whole behind the first descriptor, whatever the store held before and whatever
      duplicates or unrelated packets arrive in between. */
  lemma SplitThenReassemble(before: seq<Header>, first: Header, after: seq<Header>, last: Header,
                            chunks: seq<seq<word>>)
    requires first.payload != [] && first.payload[0] % 8 == 4 && last.payload != [] && last.payload[0] % 8 == 2
    requires Quiet(after)
    requires var fs := [first] + Inner(after) + [last];
      && |fs| <= 10 && Carries(fs, chunks)
      && forall i :: 0 <= i < |fs| ==> |fs[i].payload| <= 255
    ensures var r := Step(Held(before + [first] + after), last);
      && r.0 == [] && r.1.Some?
      && r.1.value.payload == [first.payload[0]] + Concat(chunks)
  {
    hide KindOf, Held, Intermediates, Inner, Step, Carries, Quiet, Without;
    KindOfWord(first);
    KindOfWord(last);
    QuietWithout(after);
    InnerIsIntermediates(after);
    Reassembled(before, first, after, last, chunks);
  }
}

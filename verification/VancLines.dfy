/** The multiplexer: packets inserted on a line, sorted, packed together, and emitted as words. */
module VancLines {
  import opened Bits
  import opened Wrappers
  import opened VancPackets

  const MAX_VANC_LINES := 64
  const MAX_VANC_ENTRIES := 16

  datatype EntryRecord = Entry(hOffset: int, payload: seq<word>, pixelWidth: nat)

  type Entry = e: EntryRecord | e.pixelWidth <= |e.payload| witness Entry(0, [], 0)

  /** What qsort with the offset comparison leaves: any order of equal offsets will do. */
  predicate SortedByOffset(es: seq<Entry>)
  {
    forall i, j :: 0 <= i < j < |es| ==> es[i].hOffset <= es[j].hOffset
  }

  /** No reserved value after the data flag. */
  predicate Clean(e: Entry)
  {
    forall j :: 3 <= j < e.pixelWidth ==> 3 < e.payload[j] < 0x3fc
  }

  /** The words the entries put on the line. */
  function Words(es: seq<Entry>): seq<word>
  {
    if es == [] then [] else es[0].payload[..es[0].pixelWidth] + Words(es[1..])
  }

  /** The entries a greedy packer takes: clean, and fitting in the space still left. */
  function Accepted(es: seq<Entry>, used: nat, width: int): (acc: seq<Entry>)
  {
    if es == [] then []
    else if Clean(es[0]) && used + es[0].pixelWidth <= width then
      [es[0]] + Accepted(es[1..], used + es[0].pixelWidth, width)
    else
      Accepted(es[1..], used, width)
  }

  /** Entries without a word in 0x000 to 0x003 or 0x3fc and above behind their first three. */
  function WithoutReserved(es: seq<Entry>): (r: seq<Entry>)
  {
    if es == [] then []
    else if exists j :: 3 <= j < es[0].pixelWidth && (es[0].payload[j] < 4 || es[0].payload[j] > 0x3fb)
    then WithoutReserved(es[1..]) else [es[0]] + WithoutReserved(es[1..])
  }

  /** The entries that fit one behind the other, whatever their words are. */
  function Fitting(es: seq<Entry>, used: nat, width: int): (r: seq<Entry>)
  {
    if es == [] then []
    else if used + es[0].pixelWidth <= width then [es[0]] + Fitting(es[1..], used + es[0].pixelWidth, width)
    else Fitting(es[1..], used, width)
  }

  /** What is accepted are those of the entries without a reserved word that fit: one with a reserved word is as if it
      had never been inserted. */
  lemma {:induction false} AcceptedAre(es: seq<Entry>, used: nat, width: int)
    ensures Accepted(es, used, width) == Fitting(WithoutReserved(es), used, width)
  {
    if es == [] {
    } else {
      AcceptedAre(es[1..], used + es[0].pixelWidth, width);
      AcceptedAre(es[1..], used, width);
      var more := WithoutReserved(es[1..]);
      assert ([es[0]] + more)[1..] == more;
    }
  }

  function Place(e: Entry, used: nat, width: int): (r: Entry)
    ensures r.hOffset == used
  {
    var w := if Clean(e) then e.pixelWidth else 0;
    e.(hOffset := used, pixelWidth := if used + w > width then 0 else w)
  }

  /** The entries as generation rewrites them. */
  function Layout(es: seq<Entry>, used: nat, width: int): (r: seq<Entry>)
    ensures |r| == |es|
  {
    if es == [] then []
    else
      var p := Place(es[0], used, width);
      [p] + Layout(es[1..], used + p.pixelWidth, width)
  }

  class Line {
    const lineNumber: int
    var entries: seq<Entry>

    ghost predicate Valid()
      reads this
    {
      |entries| <= MAX_VANC_ENTRIES
    }

    constructor (lineNumber: int)
      ensures this.lineNumber == lineNumber && entries == [] && Valid()
    {
      this.lineNumber := lineNumber;
      entries := [];
    }

    /** order is what the sort of the entries leaves. No words accepted means no output. */
    method Generate(order: seq<Entry>, width: int) returns (out: Option<array<word>>)
      requires Valid() && SortedByOffset(order) && multiset(order) == multiset(entries)
      modifies this
      ensures Valid() && entries == Layout(order, 0, width)
      ensures out.None? <==> Words(Accepted(order, 0, width)) == []
      ensures out.Some? ==> fresh(out.value) && out.value[..] == Words(Accepted(order, 0, width))
      ensures Accepted(order, 0, width) == Fitting(WithoutReserved(order), 0, width)
    {
      hide Clean, Accepted, Words, Fitting, WithoutReserved;
      AcceptedAre(order, 0, width);
      SameElements(order, entries);
      entries := order;
      var used := AdjustOffsets(width);
      LayoutWords(order, 0, width);
      if used == 0 {
        return None;
      }
      var arr := Assemble(used);
      return Some(arr);
    }

    /** Pushes every entry against its predecessor and drops what is illegal or does not fit. */
    method AdjustOffsets(width: int) returns (used: nat)
      modifies this
      ensures entries == Layout(old(entries), 0, width)
      ensures used == |Words(entries)|
    {
      ghost var order := entries;
      ghost var done: seq<Entry> := [];
      used := 0;
      for i := 0 to |entries|
        invariant Adjusting(entries, done, order, i, used, width)
      {
        LayoutStep(entries, done, order, i, used, width);
        hide Adjusting, Place;
        var e := AdjustOne(entries[i], used, width);
        entries := entries[i := e];
        done := done + [e];
        used := used + e.pixelWidth;
      }
      AllAdjusted(entries, done, order, used, width);
    }

    static method AdjustOne(entry: Entry, used: nat, width: int) returns (e: Entry)
      ensures e == Place(entry, used, width)
    {
      hide Clean;
      e := entry.(hOffset := used);
      var illegal := ScanIllegal(entry);
      if illegal {
        e := e.(pixelWidth := 0);
      }
      if used + e.pixelWidth > width {
        e := e.(pixelWidth := 0);
      }
    }

    static method ScanIllegal(e: Entry) returns (illegal: bool)
        ensures illegal <==> !Clean(e)
    {
      var j := 3;
      while j < e.pixelWidth
        invariant 3 <= j && forall k :: 3 <= k < j && k < e.pixelWidth ==> 3 < e.payload[k] < 0x3fc
      {
        if e.payload[j] <= 0x0003 || e.payload[j] >= 0x03fc {
          return true;
        }
        j := j + 1;
      }
      return false;
    }

    /** Copies every entry to its offset. */
    method Assemble(size: nat) returns (out: array<word>)
      requires Placed(entries, 0) && size == |Words(entries)|
      ensures fresh(out) && out[..] == Words(entries)
    {
      out := new word[size](i => 0);
      ghost var written := 0;
      assert entries[..0] == [];
      for i := 0 to |entries|
        invariant written == |Words(entries[..i])| <= size
        invariant Placed(entries[i..], written)
        invariant out[..written] == Words(entries[..i])
      {
        hide Words;
        var e := entries[i];
        WordsStep(entries, i);
        assert entries[i..][1..] == entries[i + 1..];
        for k := 0 to e.pixelWidth
          invariant out[..written] == Words(entries[..i])
          invariant out[written..written + k] == e.payload[..k]
        {
          out[e.hOffset + k] := e.payload[k];
        }
        ghost var next := written + e.pixelWidth;
        assert out[..next] == out[..written] + out[written..next];
        written := next;
      }
      assert entries[..|entries|] == entries;
    }
  }

  /** Every entry starts where the one before it ends. */
  predicate Placed(es: seq<Entry>, used: nat)
  {
    es == [] || (es[0].hOffset == used && Placed(es[1..], used + es[0].pixelWidth))
  }

  // ---- generating twice -------------------------------------------------------------------

  /** The entries that still have a width. */
  function Live(es: seq<Entry>): seq<Entry>
  {
    if es == [] then []
    else if es[0].pixelWidth > 0 then [es[0]] + Live(es[1..]) else Live(es[1..])
  }

  /** Clean live entries, end to end, within the line. */
  predicate Packed(es: seq<Entry>, used: nat, width: int)
  {
    es == [] || (es[0].hOffset == used && es[0].pixelWidth > 0 && Clean(es[0])
      && used + es[0].pixelWidth <= width && Packed(es[1..], used + es[0].pixelWidth, width))
  }

  lemma {:induction false} LayoutIsPacked(es: seq<Entry>, used: nat, width: int)
    ensures Packed(Live(Layout(es, used, width)), used, width)
  {
    if es == [] {
    } else {
      var p := Place(es[0], used, width);
      LayoutIsPacked(es[1..], used + p.pixelWidth, width);
      var more := Layout(es[1..], used + p.pixelWidth, width);
      assert p.pixelWidth > 0 ==> Clean(p) && p.hOffset == used && used + p.pixelWidth <= width;
      assert Layout(es, used, width) == [p] + more;
      hide Place, Clean, Layout, Live, Packed;
      PackedCons(p, more, used, width);
    }
  }

  lemma PackedCons(p: Entry, more: seq<Entry>, used: nat, width: int)
    requires p.pixelWidth > 0 ==> Clean(p) && p.hOffset == used && used + p.pixelWidth <= width
    requires Packed(Live(more), used + p.pixelWidth, width)
    ensures Packed(Live([p] + more), used, width)
  {
    assert ([p] + more)[1..] == more;
    assert ([p] + Live(more))[1..] == Live(more);
  }

  lemma {:induction false} LiveWords(es: seq<Entry>)
    ensures Words(Live(es)) == Words(es)
  {
    if es == [] {
    } else {
      LiveWords(es[1..]);
      var more := Live(es[1..]);
      assert ([es[0]] + more)[1..] == more;
    }
  }

  lemma WordsCons(e: Entry, es: seq<Entry>)
    ensures Words([e] + es) == e.payload[..e.pixelWidth] + Words(es)
  {
    assert ([e] + es)[1..] == es;
  }

  /** A live entry at the head of a packed list is placed where it is; an empty one stays empty. */
  lemma PackedHead(e: Entry, es: seq<Entry>, used: nat, width: int)
    requires Packed(Live([e] + es), used, width)
    ensures var p := Place(e, used, width); p.pixelWidth == e.pixelWidth && p.payload == e.payload
    ensures Packed(Live(es), used + e.pixelWidth, width)
  {
    LiveCons(e, es);
    if e.pixelWidth > 0 {
      var live := Live(es);
      assert ([e] + live)[1..] == live && ([e] + live)[0] == e;
    } else {
      assert used + e.pixelWidth == used;
    }
  }

  lemma LiveCons(e: Entry, es: seq<Entry>)
    ensures Live([e] + es) == if e.pixelWidth > 0 then [e] + Live(es) else Live(es)
  {
    assert ([e] + es)[1..] == es;
  }

  /** Laying out entries whose live part is already packed moves nothing. */
  lemma {:induction false} PackedStays(es: seq<Entry>, used: nat, width: int)
    requires Packed(Live(es), used, width)
    ensures Words(Layout(es, used, width)) == Words(es)
  {
    if es == [] {
    } else {
      var e, rest := es[0], es[1..];
      var p := Place(e, used, width);
      var more := Layout(rest, used + p.pixelWidth, width);
      assert es == [e] + rest && Layout(es, used, width) == [p] + more;
      hide Words, Layout, Packed, Live, Place;
      PackedHead(e, rest, used, width);
      PackedStays(rest, used + p.pixelWidth, width);
      WordsCons(p, more);
      WordsCons(e, rest);
    }
  }

  lemma {:induction false} LiveCount(es: seq<Entry>, e: Entry)
    ensures multiset(Live(es))[e] == if e.pixelWidth > 0 then multiset(es)[e] else 0
  {
    if es == [] {
    } else {
      LiveCount(es[1..], e);
      assert es == [es[0]] + es[1..];
    }
  }

  lemma {:induction false} LiveAtLeast(es: seq<Entry>, low: int)
    requires forall i :: 0 <= i < |es| ==> low <= es[i].hOffset
    ensures forall i :: 0 <= i < |Live(es)| ==> low <= Live(es)[i].hOffset
  {
    if es == [] {
    } else {
      LiveAtLeast(es[1..], low);
    }
  }

  lemma {:induction false} LiveSorted(es: seq<Entry>)
    requires SortedByOffset(es)
    ensures SortedByOffset(Live(es))
  {
    if es == [] {
    } else {
      LiveSorted(es[1..]);
      LiveAtLeast(es[1..], es[0].hOffset);
    }
  }

  /** In a packed list later entries start strictly later. */
  lemma {:induction false} PackedStrict(es: seq<Entry>, used: nat, width: int, i: nat)
    requires Packed(es, used, width) && i < |es|
    ensures es[i].hOffset >= used && (i > 0 ==> es[i].hOffset > es[0].hOffset)
  {
    if i == 0 {
    } else {
      PackedStrict(es[1..], used + es[0].pixelWidth, width, i - 1);
    }
  }

  lemma SameHead(a: seq<Entry>, b: seq<Entry>, used: nat, width: int)
    requires Packed(a, used, width) && a != []
    requires SortedByOffset(b) && multiset(a) == multiset(b) && b != []
    ensures a[0] == b[0]
  {
    hide Packed;
    assert a[0] in multiset(b) && b[0] in multiset(a);
    var i :| 0 <= i < |a| && a[i] == b[0];
    PackedStrict(a, used, width, i);
  }

  lemma TailsStayOrdered(a: seq<Entry>, b: seq<Entry>, used: nat, width: int)
    requires a != [] && b != [] && Packed(a, used, width) && SortedByOffset(b)
    ensures Packed(a[1..], used + a[0].pixelWidth, width) && SortedByOffset(b[1..])
  {
  }

  /** A packed list has only one sorted rearrangement: itself. */
  lemma {:induction false} OneOrder(a: seq<Entry>, b: seq<Entry>, used: nat, width: int)
    requires Packed(a, used, width)
    requires SortedByOffset(b) && multiset(a) == multiset(b)
    ensures a == b
  {
    hide Packed, SortedByOffset;
    assert |multiset(a)| == |multiset(b)|;
    if a == [] {
    } else {
      TailsStayOrdered(a, b, used, width);
      SameHead(a, b, used, width);
      TailMultiset(a);
      TailMultiset(b);
      OneOrder(a[1..], b[1..], used + a[0].pixelWidth, width);
    }
  }

  lemma TailMultiset(s: seq<Entry>)
    requires s != []
    ensures multiset(s[1..]) == multiset(s) - multiset{s[0]}
    ensures s == [s[0]] + s[1..]
  {
    assert s == [s[0]] + s[1..];
  }

  /** A second generation emits the same words, however the sort breaks its ties. */
  lemma RegenerateIsIdempotent(order: seq<Entry>, width: int, again: seq<Entry>)
    requires SortedByOffset(again)
    requires multiset(again) == multiset(Layout(order, 0, width))
    ensures Words(Accepted(again, 0, width)) == Words(Accepted(order, 0, width))
  {
    hide Words, Accepted, Packed, Live, SortedByOffset, Layout;
    var first := Layout(order, 0, width);
    LayoutIsPacked(order, 0, width);
    LiveSorted(again);
    forall e ensures multiset(Live(again))[e] == multiset(Live(first))[e] {
      LiveCount(again, e);
      LiveCount(first, e);
    }
    assert multiset(Live(again)) == multiset(Live(first));
    OneOrder(Live(first), Live(again), 0, width);
    PackedStays(again, 0, width);
    LiveWords(again);
    LiveWords(first);
    LayoutWords(again, 0, width);
    LayoutWords(order, 0, width);
  }

  lemma SameElements(a: seq<Entry>, b: seq<Entry>)
    requires multiset(a) == multiset(b)
    ensures |a| == |b|
  {
    assert |multiset(a)| == |multiset(b)|;
  }

  lemma {:induction false} WordsAppend(a: seq<Entry>, b: seq<Entry>)
    ensures Words(a + b) == Words(a) + Words(b)
  {
    if a == [] {
      assert a + b == b;
    } else {
      assert (a + b)[1..] == a[1..] + b;
      WordsAppend(a[1..], b);
    }
  }

  lemma WordsOne(e: Entry)
    ensures Words([e]) == e.payload[..e.pixelWidth]
  {
    assert [e][1..] == [];
    assert Words([e]) == e.payload[..e.pixelWidth] + [];
  }

  lemma {:induction false} WordsPrefix(es: seq<Entry>, i: nat)
    requires i <= |es|
    ensures |Words(es[..i])| <= |Words(es)|
  {
    assert es == es[..i] + es[i..];
    WordsAppend(es[..i], es[i..]);
  }

  lemma WordsStep(es: seq<Entry>, i: nat)
    requires i < |es|
    ensures Words(es[..i + 1]) == Words(es[..i]) + es[i].payload[..es[i].pixelWidth]
    ensures |Words(es[..i + 1])| <= |Words(es)|
  {
    assert es[..i + 1] == es[..i] + [es[i]];
    WordsOne(es[i]);
    WordsAppend(es[..i], [es[i]]);
    WordsPrefix(es, i + 1);
  }

  /** The first i entries are done and the rest are still as the sort left them. */
  ghost predicate Adjusting(es: seq<Entry>, done: seq<Entry>, order: seq<Entry>, i: nat, used: nat, width: int)
  {
    && i <= |order| == |es| && |done| == i && es == done + order[i..]
    && done + Layout(order[i..], used, width) == Layout(order, 0, width)
    && used == |Words(done)|
  }

  lemma LayoutStep(es: seq<Entry>, done: seq<Entry>, order: seq<Entry>, i: nat, used: nat, width: int)
    requires Adjusting(es, done, order, i, used, width) && i < |order|
    ensures |es| == |order|
    ensures var e := Place(es[i], used, width);
      Adjusting(es[i := e], done + [e], order, i + 1, used + e.pixelWidth, width)
  {
    var e := Place(order[i], used, width);
    assert es[i] == order[i];
    assert order[i..][1..] == order[i + 1..];
    assert es[i := e] == (done + [e]) + order[i + 1..];
    WordsOne(e);
    WordsAppend(done, [e]);
    hide Words, Place;
    var more := Layout(order[i + 1..], used + e.pixelWidth, width);
    assert done + ([e] + more) == (done + [e]) + more;
  }

  lemma AllAdjusted(es: seq<Entry>, done: seq<Entry>, order: seq<Entry>, used: nat, width: int)
    requires Adjusting(es, done, order, |order|, used, width)
    ensures es == Layout(order, 0, width) && used == |Words(es)|
  {
    assert done + [] == done && done + order[|order|..] == done;
  }

  /** The rewritten entries carry exactly the accepted words, end to end and within the line. */
  lemma {:induction false} LayoutWords(es: seq<Entry>, used: nat, width: int)
    ensures Words(Layout(es, used, width)) == Words(Accepted(es, used, width))
    ensures Placed(Layout(es, used, width), used)
    ensures used <= width ==> used + |Words(Accepted(es, used, width))| <= width
  {
    hide Words, Layout, Accepted, Placed;
    LayoutCarries(es, used, width);
    LayoutPlaces(es, used, width);
    if used <= width {
      AcceptedFits(es, used, width);
    }
  }

  lemma {:induction false} LayoutCarries(es: seq<Entry>, used: nat, width: int)
    ensures Words(Layout(es, used, width)) == Words(Accepted(es, used, width))
  {
    hide Clean;
    if es == [] {
    } else {
      var p := Place(es[0], used, width);
      LayoutCarries(es[1..], used + p.pixelWidth, width);
      var more := Layout(es[1..], used + p.pixelWidth, width);
      assert ([p] + more)[1..] == more;
      var acc := Accepted(es[1..], used + p.pixelWidth, width);
      assert ([es[0]] + acc)[1..] == acc;
    }
  }

  lemma {:induction false} LayoutPlaces(es: seq<Entry>, used: nat, width: int)
    ensures Placed(Layout(es, used, width), used)
  {
    if es == [] {
    } else {
      var p := Place(es[0], used, width);
      hide Place;
      LayoutPlaces(es[1..], used + p.pixelWidth, width);
      var more := Layout(es[1..], used + p.pixelWidth, width);
      assert ([p] + more)[1..] == more;
    }
  }

  lemma {:induction false} AcceptedFits(es: seq<Entry>, used: nat, width: int)
    requires used <= width
    ensures used + |Words(Accepted(es, used, width))| <= width
  {
    hide Clean;
    if es == [] {
    } else if Clean(es[0]) && used + es[0].pixelWidth <= width {
      var next := used + es[0].pixelWidth;
      AcceptedFits(es[1..], next, width);
      assert ([es[0]] + Accepted(es[1..], next, width))[1..] == Accepted(es[1..], next, width);
    } else {
      AcceptedFits(es[1..], used, width);
    }
  }

  // ---- the set of lines -------------------------------------------------------------------

  class LineSet {
    var lines: seq<Line>
    ghost var table: map<int, seq<Entry>>   // the entries queued on each line number
    ghost var slot: map<int, nat>           // where that line is held

    ghost predicate Valid()
      reads this, lines
    {
      && |lines| <= MAX_VANC_LINES && table.Keys == slot.Keys
      && (forall i :: 0 <= i < |lines| ==>
           lines[i].Valid() && lines[i].lineNumber in slot && slot[lines[i].lineNumber] == i)
      && (forall n :: n in slot ==>
           slot[n] < |lines| && lines[slot[n]].lineNumber == n && table[n] == lines[slot[n]].entries)
    }

    constructor ()
      ensures Valid() && table == map[] && lines == []
    {
      lines, table, slot := [], map[], map[];
    }

    method Insert(pixels: seq<word>, lineNumber: int, horizontalOffset: int) returns (ret: int)
      requires Valid()
      modifies this, lines
      ensures Valid() && ret in {0, -12}
      ensures ret == 0 <==>
        if lineNumber in old(table) then |old(table)[lineNumber]| < 16 else old(|lines|) < 64
      ensures forall i :: 0 <= i < |lines| ==> lines[i] in old(lines) || fresh(lines[i])
      ensures ret != 0 ==> table == old(table)
      ensures ret == 0 ==>
        var before := if lineNumber in old(table) then old(table)[lineNumber] else [];
        table == old(table)[lineNumber := before + [Entry(horizontalOffset, pixels, |pixels|)]]
    {
      var entry := Entry(horizontalOffset, pixels, |pixels|);
      var i := 0;
      while i < |lines| && lines[i].lineNumber != lineNumber
        invariant 0 <= i <= |lines|
        invariant forall k :: 0 <= k < i ==> lines[k].lineNumber != lineNumber
      {
        i := i + 1;
      }
      if i == MAX_VANC_LINES {
        return -12;
      }
      if i == |lines| {
        var line := new Line(lineNumber);
        lines := lines + [line];
        table, slot := table[lineNumber := []], slot[lineNumber := i];
      }
      var line := lines[i];
      if |line.entries| == MAX_VANC_ENTRIES {
        return -12;
      }
      line.entries := line.entries + [entry];
      table := table[lineNumber := line.entries];
      return 0;
    }
  }

  // ---- multiplex, then scan ---------------------------------------------------------------

  /** A packet as CreatePayload builds it. */
  datatype Source = Source(did: byte, sdid: byte, data: seq<byte>)

  predicate Encodable(s: Source)
  {
    1 <= |s.data| <= 255
  }

  /** e carries, in full, the packet built from s. */
  predicate Carries(e: Entry, s: Source)
  {
    Encodable(s) && e.payload == PayloadWords(s.did, s.sdid, s.data) && e.pixelWidth == |e.payload|
  }

  predicate AllCarry(es: seq<Entry>, ss: seq<Source>)
  {
    |es| == |ss| && forall i :: 0 <= i < |es| ==> Carries(es[i], ss[i])
  }

  predicate AllEncodable(ss: seq<Source>)
  {
    forall i :: 0 <= i < |ss| ==> Encodable(ss[i])
  }

  function Segments(ss: seq<Source>): (r: seq<Segment>)
    requires AllEncodable(ss)
    ensures |r| == |ss|
  {
    if ss == [] then [] else [Packet(PayloadWords(ss[0].did, ss[0].sdid, ss[0].data))] + Segments(ss[1..])
  }

  /** The sources a greedy packer takes on a line of the given width. */
  function Taken(ss: seq<Source>, used: nat, width: int): seq<Source>
  {
    if ss == [] then []
    else if used + |ss[0].data| + 7 <= width then [ss[0]] + Taken(ss[1..], used + |ss[0].data| + 7, width)
    else Taken(ss[1..], used, width)
  }

  predicate IsReport(h: Header, s: Source, offset: nat, lineNr: nat)
  {
    && h.did == s.did && h.sdid == s.sdid && LowBytes(h.payload) == s.data && h.checksumValid
    && h.lineNr == lineNr && h.horizontalOffset == offset % 0x1_0000 && h.kind == TypeOf(s.did, s.sdid)
  }

  /** The reports of the scanner: one per source, valid, in order, at the sum of the widths before. */
  predicate Reports(hs: seq<Header>, ss: seq<Source>, offset: nat, lineNr: nat)
  {
    if ss == [] then hs == []
    else
      && hs != []
      && IsReport(hs[0], ss[0], offset, lineNr)
      && Reports(hs[1..], ss[1..], offset + |ss[0].data| + 7, lineNr)
  }

  lemma CarryFirst(es: seq<Entry>, ss: seq<Source>)
    requires es != [] && AllCarry(es, ss)
    ensures ss != [] && Carries(es[0], ss[0]) && AllCarry(es[1..], ss[1..])
  {
    hide Carries;
  }

  lemma CarryCons(e: Entry, s: Source, es: seq<Entry>, ss: seq<Source>)
    requires Carries(e, s) && AllCarry(es, ss)
    ensures AllCarry([e] + es, [s] + ss)
  {
    hide Carries;
  }

  lemma NoneCarry(es: seq<Entry>, ss: seq<Source>, used: nat, width: int)
    requires es == [] && AllCarry(es, ss)
    ensures AllCarry(Accepted(es, used, width), Taken(ss, used, width))
  {
  }

  lemma CarriedClean(e: Entry, s: Source)
    requires Carries(e, s)
    ensures Clean(e) && e.pixelWidth == |s.data| + 7
  {
    CreatedIsLegal(s.did, s.sdid, s.data);
  }

  lemma {:induction false} AcceptedCarry(es: seq<Entry>, ss: seq<Source>, used: nat, width: int)
    requires AllCarry(es, ss)
    ensures AllCarry(Accepted(es, used, width), Taken(ss, used, width))
  {
    hide AllCarry, Clean, Carries;
    if es == [] {
      NoneCarry(es, ss, used, width);
    } else {
      CarryFirst(es, ss);
      var e, s := es[0], ss[0];
      CarriedClean(e, s);
      AcceptedCarry(es[1..], ss[1..], used + e.pixelWidth, width);
      AcceptedCarry(es[1..], ss[1..], used, width);
      if used + e.pixelWidth <= width {
        CarryCons(e, s, Accepted(es[1..], used + e.pixelWidth, width), Taken(ss[1..], used + e.pixelWidth, width));
      }
    }
  }

  lemma {:induction false} CarriedLine(es: seq<Entry>, ss: seq<Source>)
    requires AllCarry(es, ss) && AllEncodable(ss)
    ensures LineWords(Segments(ss)) == Words(es)
  {
    if es == [] {
    } else {
      assert Carries(es[0], ss[0]) && AllCarry(es[1..], ss[1..]);
      assert AllEncodable(ss[1..]);
      hide AllCarry, AllEncodable, PayloadWords;
      CarriedLine(es[1..], ss[1..]);
      var seg, more := Packet(es[0].payload), Segments(ss[1..]);
      assert Segments(ss) == [seg] + more && ([seg] + more)[1..] == more;
    }
  }

  /** Packets built from sources are found, each as its source, at the sum of the widths before it. */
  lemma {:induction false} SourcesReported(ss: seq<Source>, offset: nat, lineNr: nat)
    requires AllEncodable(ss)
    ensures GoodSegments(Segments(ss))
    ensures Reports(Expected(Segments(ss), offset, lineNr), ss, offset, lineNr)
  {
    if ss == [] {
    } else {
      var s, next := ss[0], offset + |ss[0].data| + 7;
      var ws, more := PayloadWords(s.did, s.sdid, s.data), Segments(ss[1..]);
      assert Segments(ss) == [Packet(ws)] + more && Encodable(s) && offset + |ws| == next;
      CreatedIsLegal(s.did, s.sdid, s.data);
      OneReport(s, offset, lineNr);
      hide Segments, Reports, Encodable, PayloadWords, IsReport, GoodSegments, Legal, Expected, ParseHeader;
      SourcesReported(ss[1..], next, lineNr);
      ExpectedCons(ws, more, offset, lineNr);
      ReportsCons(ParseHeader(ws, offset, lineNr), Expected(more, next, lineNr), ss, offset, lineNr);
      assert Reports(Expected(Segments(ss), offset, lineNr), ss, offset, lineNr);
    }
  }

  lemma ExpectedCons(ws: seq<word>, more: seq<Segment>, offset: nat, lineNr: nat)
    requires Legal(ws) && GoodSegments(more)
    ensures GoodSegments([Packet(ws)] + more)
    ensures Expected([Packet(ws)] + more, offset, lineNr)
      == [ParseHeader(ws, offset, lineNr)] + Expected(more, offset + |ws|, lineNr)
  {
    hide Legal, ParseHeader;
    assert ([Packet(ws)] + more)[1..] == more;
  }

  lemma ReportsCons(h: Header, hs: seq<Header>, ss: seq<Source>, offset: nat, lineNr: nat)
    requires ss != [] && IsReport(h, ss[0], offset, lineNr)
    requires Reports(hs, ss[1..], offset + |ss[0].data| + 7, lineNr)
    ensures Reports([h] + hs, ss, offset, lineNr)
  {
    assert ([h] + hs)[1..] == hs;
  }

  lemma OneReport(s: Source, offset: nat, lineNr: nat)
    requires Encodable(s)
    ensures var ws := PayloadWords(s.did, s.sdid, s.data);
      IsValidHeader(ws) && IsComplete(ws) && IsReport(ParseHeader(ws, offset, lineNr), s, offset, lineNr)
  {
    CreateParseRoundTrip(s.did, s.sdid, s.data, offset, lineNr);
    hide PayloadWords, LowBytes, Checksum;
  }

  /** Scanning the generated line reports exactly the packets the packer took, each at its offset. */
  lemma MultiplexThenScan(order: seq<Entry>, ss: seq<Source>, width: int, lineNr: nat)
    requires AllCarry(order, ss)
    ensures var line := Words(Accepted(order, 0, width));
      ScanComplete(line, 0) && Reports(Scan(line, 0, lineNr), Taken(ss, 0, width), 0, lineNr)
  {
    var taken := Taken(ss, 0, width);
    AcceptedCarry(order, ss, 0, width);
    assert forall i :: 0 <= i < |taken| ==> Carries(Accepted(order, 0, width)[i], taken[i]);
    CarriedLine(Accepted(order, 0, width), taken);
    SourcesReported(taken, 0, lineNr);
    ScannerSoundAndComplete(Segments(taken), lineNr);
  }

  // ---- the whole run: insert, generate, scan ------------------------------------------------

  /** A packet to be inserted, and where on the line its sender would like it. */
  datatype Request = Request(source: Source, offset: int)

  predicate Makeable(r: Request)
  {
    r.source.did != 0 && r.source.sdid != 0 && Encodable(r.source)
  }

  predicate AllMakeable(rs: seq<Request>)
  {
    forall i :: 0 <= i < |rs| ==> Makeable(rs[i])
  }

  function EntryOf(r: Request): Entry
    requires Makeable(r)
  {
    var ws := PayloadWords(r.source.did, r.source.sdid, r.source.data);
    Entry(r.offset, ws, |ws|)
  }

  function EntriesOf(rs: seq<Request>): (es: seq<Entry>)
    requires AllMakeable(rs)
    ensures |es| == |rs|
  {
    seq(|rs|, i requires 0 <= i < |rs| => EntryOf(rs[i]))
  }

  function SourcesOf(rs: seq<Request>): (ss: seq<Source>)
    ensures |ss| == |rs|
  {
    seq(|rs|, i requires 0 <= i < |rs| => rs[i].source)
  }

  lemma EntriesAppend(a: seq<Request>, b: seq<Request>)
    requires AllMakeable(a) && AllMakeable(b)
    ensures AllMakeable(a + b) && EntriesOf(a + b) == EntriesOf(a) + EntriesOf(b)
  {
    hide EntryOf, Makeable;
  }

  lemma SourcesCarried(rs: seq<Request>)
    requires AllMakeable(rs)
    ensures AllCarry(EntriesOf(rs), SourcesOf(rs))
  {
    hide PayloadWords;
  }

  lemma RestOf(r: Request, more: seq<Request>, front: seq<Request>, back: seq<Request>)
    requires multiset([r] + more) == multiset(front + [r] + back)
    ensures multiset(more) == multiset(front + back)
  {
    assert multiset([r] + more) == multiset{r} + multiset(more);
    assert multiset(front + [r] + back) == multiset(front) + multiset{r} + multiset(back);
    assert multiset(more) == (multiset{r} + multiset(more)) - multiset{r};
    assert multiset(front + back) == (multiset(front) + multiset{r} + multiset(back)) - multiset{r};
  }

  /** Requests in another order make the same entries in another order. */
  lemma {:induction false} SameEntries(a: seq<Request>, b: seq<Request>)
    requires AllMakeable(a) && multiset(a) == multiset(b)
    ensures AllMakeable(b) && multiset(EntriesOf(a)) == multiset(EntriesOf(b))
    decreases |a|
  {
    hide EntryOf, Makeable, AllMakeable, EntriesOf;
    SameMakeable(a, b);
    if a == [] {
      assert |b| == |multiset(b)| == |multiset(a)| == 0;
    } else {
      assert a[0] in multiset(b);
      var j :| 0 <= j < |b| && b[j] == a[0];
      var front, back := b[..j], b[j + 1..];
      assert a == [a[0]] + a[1..] && b == front + [a[0]] + back;
      RestOf(a[0], a[1..], front, back);
      PartsMakeable([a[0]], a[1..]);
      PartsMakeable(front + [a[0]], back);
      PartsMakeable(front, [a[0]]);
      SameEntries(a[1..], front + back);
      EntriesAppend([a[0]], a[1..]);
      EntriesAppend(front, back);
      EntriesAppend(front, [a[0]]);
      EntriesAppend(front + [a[0]], back);
    }
  }

  lemma SameMakeable(a: seq<Request>, b: seq<Request>)
    requires AllMakeable(a) && multiset(a) == multiset(b)
    ensures AllMakeable(b)
  {
    hide Makeable;
    forall i | 0 <= i < |b| ensures Makeable(b[i]) {
      assert b[i] in multiset(a);
    }
  }

  lemma PartsMakeable(a: seq<Request>, b: seq<Request>)
    requires AllMakeable(a + b)
    ensures AllMakeable(a) && AllMakeable(b)
  {
    hide Makeable;
    assert forall i :: 0 <= i < |a| ==> (a + b)[i] == a[i];
    assert forall i :: 0 <= i < |b| ==> (a + b)[|a| + i] == b[i];
  }

  lemma {:induction false} WordsBound(es: seq<Entry>, ss: seq<Source>)
    requires AllCarry(es, ss)
    ensures |Words(es)| <= 262 * |es| && (es != [] ==> |Words(es)| >= 8)
  {
    hide PayloadWords;
    if es == [] {
    } else {
      assert Carries(es[0], ss[0]) && AllCarry(es[1..], ss[1..]);
      WordsBound(es[1..], ss[1..]);
    }
  }

  lemma {:induction false} AcceptedShorter(es: seq<Entry>, used: nat, width: int)
    ensures |Accepted(es, used, width)| <= |es|
  {
    hide Clean;
    if es == [] {
    } else {
      AcceptedShorter(es[1..], used + es[0].pixelWidth, width);
      AcceptedShorter(es[1..], used, width);
    }
  }

  /** The line of a given number. */
  method FindLine(lineSet: LineSet, lineNumber: int) returns (line: Line?)
    requires lineSet.Valid()
    ensures line == null <==> lineNumber !in lineSet.table
    ensures line != null ==> line in lineSet.lines && line.Valid() && line.entries == lineSet.table[lineNumber]
  {
    for i := 0 to |lineSet.lines|
      invariant forall k :: 0 <= k < i ==> lineSet.lines[k].lineNumber != lineNumber
    {
      if lineSet.lines[i].lineNumber == lineNumber {
        return lineSet.lines[i];
      }
    }
    return null;
  }

  /** Makes and inserts every packet on one line. */
  method InsertAll(rs: seq<Request>, lineNumber: int) returns (lineSet: LineSet)
    requires AllMakeable(rs) && |rs| <= MAX_VANC_ENTRIES
    ensures fresh(lineSet) && fresh(lineSet.lines) && lineSet.Valid()
    ensures rs != [] ==> lineNumber in lineSet.table && lineSet.table[lineNumber] == EntriesOf(rs)
    ensures rs == [] ==> lineSet.table == map[]
  {
    hide Makeable, PayloadWords;
    lineSet := new LineSet();
    for i := 0 to |rs|
      invariant fresh(lineSet) && fresh(lineSet.lines) && lineSet.Valid() && AllMakeable(rs[..i])
      invariant i == 0 ==> lineSet.table == map[] && lineSet.lines == []
      invariant i > 0 ==> lineNumber in lineSet.table && lineSet.table[lineNumber] == EntriesOf(rs[..i])
    {
      var r := rs[i];
      MakeableAt(rs, i);
      var words := CreatePayload(r.source.sdid, r.source.did, r.source.data, 10);
      var ret := lineSet.Insert(words.value[..], lineNumber, r.offset);
      NextEntry(rs, i);
    }
    assert rs[..|rs|] == rs;
  }

  lemma MakeableAt(rs: seq<Request>, i: nat)
    requires AllMakeable(rs) && i < |rs|
    ensures Makeable(rs[i]) && AllMakeable(rs[..i + 1])
    ensures rs[i].source.did != 0 && rs[i].source.sdid != 0 && 1 <= |rs[i].source.data| <= 255
  {
  }

  lemma NextEntry(rs: seq<Request>, i: nat)
    requires AllMakeable(rs) && i < |rs|
    ensures var ws := PayloadWords(rs[i].source.did, rs[i].source.sdid, rs[i].source.data);
      && AllMakeable(rs[..i]) && AllMakeable(rs[..i + 1])
      && EntriesOf(rs[..i + 1]) == EntriesOf(rs[..i]) + [Entry(rs[i].offset, ws, |ws|)]
  {
    hide PayloadWords;
  }

  /** Inserting the packets, generating the line and scanning what was generated: the scanner caches, delivers
      and decodes exactly the packets a greedy packer takes in the sorted order, each as its source. */
  method SendAndScan(rs: seq<Request>, sorted: seq<Request>, lineNumber: nat, width: int, ctx: VancContext)
    returns (attempts: int, ghost found: seq<Header>)
    requires AllMakeable(rs) && |rs| <= 16 && multiset(sorted) == multiset(rs)
    requires forall i, j :: 0 <= i < j < |sorted| ==> sorted[i].offset <= sorted[j].offset
    modifies ctx
    ensures Reports(found, Taken(SourcesOf(sorted), 0, width), 0, lineNumber) && attempts == |found|
    ensures ctx.cached == old(ctx.cached) + found && ctx.delivered == old(ctx.delivered) + found
    ensures ctx.decoded == old(ctx.decoded) + Decoded(found, true)
    ensures ctx.checksumFailures == old(ctx.checksumFailures)
  {
    hide Makeable, Reports, Taken, Accepted, Words, Scan, ScanComplete, Delivered, Decoded, Failures, PayloadWords;
    SameEntries(rs, sorted);
    var order := EntriesOf(sorted);
    SourcesCarried(sorted);
    EntriesSorted(sorted);
    MultiplexThenScan(order, SourcesOf(sorted), width, lineNumber);
    var lines := InsertAll(rs, lineNumber);
    var line := FindLine(lines, lineNumber);
    if line == null {
      NothingSent(sorted, width, lineNumber);
      NothingMore(ctx.cached, ctx.delivered, ctx.decoded);
      return 0, [];
    }
    var out := line.Generate(order, width);
    SentLine(order, SourcesOf(sorted), width, lineNumber);
    if out.None? {
      NothingMore(ctx.cached, ctx.delivered, ctx.decoded);
      return 0, [];
    }
    found := Scan(out.value[..], 0, lineNumber);
    attempts := ctx.PacketParse(lineNumber, out.value);
  }

  lemma EntriesSorted(rs: seq<Request>)
    requires AllMakeable(rs)
    requires forall i, j :: 0 <= i < j < |rs| ==> rs[i].offset <= rs[j].offset
    ensures SortedByOffset(EntriesOf(rs))
  {
    hide PayloadWords;
  }

  lemma NothingMore(a: seq<Header>, b: seq<Header>, c: seq<Header>)
    ensures a + [] == a && b + [] == b && c + [] == c && Decoded([], true) == []
  {
  }

  lemma NothingSent(rs: seq<Request>, width: int, lineNr: nat)
    requires rs == []
    ensures Reports([], Taken(SourcesOf(rs), 0, width), 0, lineNr)
  {
  }

  /** The generated line is short enough to scan, and every report on it is valid. */
  lemma SentLine(order: seq<Entry>, ss: seq<Source>, width: int, lineNr: nat)
    requires AllCarry(order, ss) && |order| <= MAX_VANC_ENTRIES
    ensures var ws := Words(Accepted(order, 0, width));
      && ScanComplete(ws, 0) && (ws == [] ==> Reports([], Taken(ss, 0, width), 0, lineNr))
      && (ws != [] ==> 8 <= |ws| <= MAX_PAYLOAD) && AllDelivered(Scan(ws, 0, lineNr))
  {
    hide Words, Accepted, Taken, Scan, ScanComplete, Reports, Delivered, Decoded, Failures, AllCarry;
    var taken, acc := Taken(ss, 0, width), Accepted(order, 0, width);
    AcceptedCarry(order, ss, 0, width);
    AcceptedShorter(order, 0, width);
    WordsBound(acc, taken);
    MultiplexThenScan(order, ss, width, lineNr);
    var found := Scan(Words(acc), 0, lineNr);
    if Words(acc) == [] {
      ScanNothing(lineNr);
    }
    AllValid(found, taken, 0, lineNr);
    ValidDelivered(found);
  }

  lemma ScanNothing(lineNr: nat)
    ensures ScanComplete([], 0) && Scan([], 0, lineNr) == []
  {
  }

  lemma {:induction false} AllValid(hs: seq<Header>, ss: seq<Source>, offset: nat, lineNr: nat)
    requires Reports(hs, ss, offset, lineNr)
    ensures forall i :: 0 <= i < |hs| ==> hs[i].checksumValid
    decreases |ss|
  {
    if ss == [] {
    } else {
      hide IsReport, LowBytes;
      ReportValid(hs[0], ss[0], offset, lineNr);
      AllValid(hs[1..], ss[1..], offset + |ss[0].data| + 7, lineNr);
    }
  }

  lemma ReportValid(h: Header, s: Source, offset: nat, lineNr: nat)
    requires IsReport(h, s, offset, lineNr)
    ensures h.checksumValid
  {
  }

  /** Whether or not bad checksums are allowed, every header is delivered and none counts as a failure. */
  ghost predicate AllDelivered(hs: seq<Header>)
  {
    Failures(hs) == 0 && forall allowBad ::
      (Delivered(hs, allowBad) == hs && Decoded(hs, allowBad) == Decoded(hs, true))
  }

  lemma {:induction false} ValidDelivered(hs: seq<Header>)
    requires forall i :: 0 <= i < |hs| ==> hs[i].checksumValid
    ensures AllDelivered(hs)
  {
    if hs == [] {
    } else {
      ValidDelivered(hs[..|hs| - 1]);
      assert hs == hs[..|hs| - 1] + [hs[|hs| - 1]];
    }
  }
}

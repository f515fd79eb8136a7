/** v210: three 10-bit samples to a 32-bit word, packed from lines of samples and unpacked again. */
module Pixels {
  import opened Bits
  import VancLines

  type sample = x: word | 0 <= x < 0x400

  /** Words that are ten-bit samples. */
  predicate TenBit(s: seq<word>)
  {
    forall k :: 0 <= k < |s| ==> s[k] < 0x400
  }

  const BLANK_LUMA: sample := 0x040
  const BLANK_CHROMA: sample := 0x200

  // ---- words and samples ------------------------------------------------------------------------

  type word32 = x: int | 0 <= x < 0x1_0000_0000

  /** Bitwise or. */
  function Or(a: nat, b: nat): nat
  {
    if a == 0 then b
    else if b == 0 then a
    else 2 * Or(a / 2, b / 2) + (if a % 2 == 1 || b % 2 == 1 then 1 else 0)
  }

  lemma {:induction false} OrBound(a: nat, b: nat, n: nat)
    requires a < Pow2(n) && b < Pow2(n)
    ensures Or(a, b) < Pow2(n)
  {
    if a == 0 || b == 0 {
    } else {
      OrBound(a / 2, b / 2, n - 1);
    }
  }

  /** Or of numbers without a bit in common is their sum. */
  lemma {:induction false} OrDisjoint(a: nat, b: nat, n: nat)
    requires a < Pow2(n)
    ensures Or(a, Pow2(n) * b) == a + Pow2(n) * b
  {
    if a == 0 || b == 0 {
    } else {
      var p := Pow2(n - 1) * b;
      assert Pow2(n) * b == 2 * p;
      OrDisjoint(a / 2, b, n - 1);
    }
  }

  /** a | b << 10 | c << 20, in 32 bits: a component of more than ten bits runs into its neighbour. */
  function Pack(a: word, b: word, c: word): word32
  {
    PackBound(a, b, c);
    Or(Or(a, 0x400 * b), (0x10_0000 * c) % 0x1_0000_0000)
  }

  lemma PackBound(a: word, b: word, c: word)
    ensures Or(Or(a, 0x400 * b), (0x10_0000 * c) % 0x1_0000_0000) < 0x1_0000_0000
  {
    BytePow2();
    OrBound(a, 0x400 * b, 32);
    OrBound(Or(a, 0x400 * b), (0x10_0000 * c) % 0x1_0000_0000, 32);
  }

  lemma PackTenBits(a: sample, b: sample, c: sample)
    ensures Pack(a, b, c) == a + 0x400 * b + 0x10_0000 * c
  {
    hide Or, Pow2;
    Pow2Table();
    Pow2Eight(12);
    OrDisjoint(a, b, 10);
    OrDisjoint(a + 0x400 * b, c, 20);
  }

  /** Component i of a word. */
  function Component(v: word32, i: nat): sample
  {
    if i == 0 then v % 0x400 else if i == 1 then (v / 0x400) % 0x400 else (v / 0x10_0000) % 0x400
  }

  /** Sample k of a packed line. */
  function SampleAt(ws: seq<word32>, k: nat): sample
    requires k / 3 < |ws|
  {
    Component(ws[k / 3], k % 3)
  }

  /** Chroma stands at even positions, luma at odd ones. */
  function BlankAt(k: nat): sample
  {
    if k % 2 == 0 then BLANK_CHROMA else BLANK_LUMA
  }

  function Padded(s: seq<word>, k: nat): word
  {
    if k < |s| then s[k] else BlankAt(k)
  }

  /** Words that hold n samples. */
  function WordCount(n: nat): nat
  {
    (n + 2) / 3
  }

  /** A line of samples packed, the last word filled up with blanks. */
  function V210(s: seq<word>): (ws: seq<word32>)
    ensures |ws| == WordCount(|s|)
  {
    seq(WordCount(|s|), j requires 0 <= j => Pack(Padded(s, 3 * j), Padded(s, 3 * j + 1), Padded(s, 3 * j + 2)))
  }

  /** A luma line as the samples of a picture without colour. */
  function Interleave(y: seq<word>): (s: seq<word>)
    ensures |s| == 2 * |y|
  {
    seq(2 * |y|, k requires 0 <= k < 2 * |y| => if k % 2 == 0 then BLANK_CHROMA else y[k / 2])
  }

  lemma PackBack(a: sample, b: sample, c: sample)
    ensures Component(Pack(a, b, c), 0) == a && Component(Pack(a, b, c), 1) == b && Component(Pack(a, b, c), 2) == c
  {
    hide Pack;
    PackTenBits(a, b, c);
    assert Pack(a, b, c) / 0x400 == b + 0x400 * c;
  }

  /** Every sample of a line of ten-bit samples can be read back from its packed form. */
  lemma PackedSample(s: seq<word>, k: nat)
    requires TenBit(s) && k < |s|
    ensures k / 3 < |V210(s)| && SampleAt(V210(s), k) == s[k]
  {
    hide Component, Pack;
    var j := k / 3;
    PackBack(Padded(s, 3 * j), Padded(s, 3 * j + 1), Padded(s, 3 * j + 2));
    assert k == 3 * j || k == 3 * j + 1 || k == 3 * j + 2;
  }

  /** Every sample can be read back exactly if none has more than ten bits. */
  lemma PackedIff(s: seq<word>)
    ensures (forall k :: 0 <= k < |s| ==> k / 3 < |V210(s)| && SampleAt(V210(s), k) == s[k]) <==> TenBit(s)
  {
    hide V210, Component;
    if TenBit(s) {
      forall k | 0 <= k < |s|
        ensures k / 3 < |V210(s)| && SampleAt(V210(s), k) == s[k]
      {
        PackedSample(s, k);
      }
    } else {
      var k :| 0 <= k < |s| && s[k] >= 0x400;
      assert k / 3 < |V210(s)| ==> SampleAt(V210(s), k) < 0x400;
    }
  }

  lemma WideWord()
    ensures Pack(0x400, BLANK_LUMA, BLANK_CHROMA) == 0x2001_0400
  {
    hide Or, Pow2;
    Pow2Table();
    Pow2Eight(12);
    OrDisjoint(0x400, 0x20, 11);
    OrDisjoint(0x1_0400, 0x200, 20);
  }

  /** A sample of eleven bits comes back as 0, and the bit it lost is set in its neighbour. */
  lemma WideSample()
    ensures SampleAt(V210([0x400]), 0) == 0 && SampleAt(V210([0x400]), 1) == BLANK_LUMA + 1
  {
    hide Pack;
    WideWord();
    assert V210([0x400]) == [Pack(0x400, BLANK_LUMA, BLANK_CHROMA)];
  }

  // ---- packing ------------------------------------------------------------------------------------

  /** The first at words are those of all; what lies behind all is as it was. */
  predicate Filled(d: seq<word32>, at: nat, all: seq<word32>, was: seq<word32>)
  {
    at <= |all| <= |d| == |was| && d[..at] == all[..at] && d[|all|..] == was[|all|..]
  }

  lemma FilledNone(d: seq<word32>, all: seq<word32>)
    requires |all| <= |d|
    ensures Filled(d, 0, all, d)
  {
  }

  lemma FilledAll(d: seq<word32>, all: seq<word32>, was: seq<word32>)
    requires Filled(d, |all|, all, was)
    ensures |d| == |was| >= |all| && d[..|all|] == all && d[|all|..] == was[|all|..]
  {
  }

  /** The next word due. */
  method PutWord(dst: array<word32>, at: nat, v: word32, ghost all: seq<word32>, ghost was: seq<word32>)
    returns (next: nat)
    requires Filled(dst[..], at, all, was) && at < |all| <= dst.Length && v == all[at]
    modifies dst
    ensures next == at + 1 && Filled(dst[..], next, all, was)
  {
    ghost var d := dst[..];
    dst[at] := v;
    next := at + 1;
    assert dst[..next] == d[..at] + [v] && all[..next] == all[..at] + [v];
    assert dst[|all|..] == d[|all|..];
  }

  method UyvyToV210(src: seq<word>, dst: array<word32>, width: nat)
    requires width <= |src| && WordCount(width) <= dst.Length
    modifies dst
    ensures dst[..WordCount(width)] == V210(src[..width])
    ensures dst[WordCount(width)..] == old(dst[WordCount(width)..])
  {
    hide Pack, V210, Filled, Padded;
    ghost var s, was := src[..width], dst[..];
    ghost var all := V210(s);
    FilledNone(was, all);
    var len := width / 12;
    var at := 0;
    for w := 0 to len
      invariant at == 4 * w && Filled(dst[..], at, all, was)
    {
      GroupWord(s, w, 0);
      at := PutWord(dst, at, Pack(src[w * 12], src[w * 12 + 1], src[w * 12 + 2]), all, was);
      GroupWord(s, w, 1);
      at := PutWord(dst, at, Pack(src[w * 12 + 3], src[w * 12 + 4], src[w * 12 + 5]), all, was);
      GroupWord(s, w, 2);
      at := PutWord(dst, at, Pack(src[w * 12 + 6], src[w * 12 + 7], src[w * 12 + 8]), all, was);
      GroupWord(s, w, 3);
      at := PutWord(dst, at, Pack(src[w * 12 + 9], src[w * 12 + 10], src[w * 12 + 11]), all, was);
    }
    at := UyvyTailFront(src, dst, width, at, all, was);
    UyvyTail(src, dst, width, at, all, was);
    FilledAll(dst[..], all, was);
  }

  lemma WordOf(s: seq<word>, j: nat)
    requires j < WordCount(|s|)
    ensures V210(s)[j] == Pack(Padded(s, 3 * j), Padded(s, 3 * j + 1), Padded(s, 3 * j + 2))
    ensures Padded(s, 3 * j) == s[3 * j]
    ensures Padded(s, 3 * j + 1) == if 3 * j + 1 < |s| then s[3 * j + 1] else BlankAt(3 * j + 1)
    ensures Padded(s, 3 * j + 2) == if 3 * j + 2 < |s| then s[3 * j + 2] else BlankAt(3 * j + 2)
  {
    hide Pack, BlankAt;
  }

  /** Word c of group w: its samples as far as the line goes, then blanks. */
  lemma GroupWord(s: seq<word>, w: nat, c: nat)
    requires c < 4 && 4 * w + c < WordCount(|s|)
    ensures var k := 12 * w + 3 * c;
      && k < |s|
      && V210(s)[4 * w + c] == Pack(s[k],
        if k + 1 < |s| then s[k + 1] else if c % 2 == 0 then BLANK_LUMA else BLANK_CHROMA,
        if k + 2 < |s| then s[k + 2] else if c % 2 == 0 then BLANK_CHROMA else BLANK_LUMA)
  {
    hide Pack, V210, Padded;
    WordOf(s, 4 * w + c);
    var k := 12 * w + 3 * c;
    assert (k + 1) % 2 == (c + 1) % 2 && (k + 2) % 2 == c % 2;
  }

  /** The remaining 0 to 11 samples: the last two words they may need. */
  method UyvyTail(src: seq<word>, dst: array<word32>, width: nat, start: nat, ghost all: seq<word32>,
                  ghost was: seq<word32>)
    requires width <= |src| && all == V210(src[..width]) && |all| <= dst.Length
    requires start == 4 * (width / 12) + (if width % 12 > 3 then 2 else if width % 12 > 0 then 1 else 0)
    requires Filled(dst[..], start, all, was)
    modifies dst
    ensures Filled(dst[..], |all|, all, was)
  {
    hide Pack, V210, Filled, Padded;
    ghost var s := src[..width];
    var at, w, r := start, width / 12, width % 12;
    if r > 6 {
      GroupWord(s, w, 2);
    }
    if r > 8 {
      at := PutWord(dst, at, Pack(src[w * 12 + 6], src[w * 12 + 7], src[w * 12 + 8]), all, was);
    } else if r > 7 {
      at := PutWord(dst, at, Pack(src[w * 12 + 6], src[w * 12 + 7], BLANK_CHROMA), all, was);
    } else if r > 6 {
      at := PutWord(dst, at, Pack(src[w * 12 + 6], BLANK_LUMA, BLANK_CHROMA), all, was);
    }
    if r > 9 {
      GroupWord(s, w, 3);
    }
    if r > 10 {
      at := PutWord(dst, at, Pack(src[w * 12 + 9], src[w * 12 + 10], BLANK_LUMA), all, was);
    } else if r > 9 {
      at := PutWord(dst, at, Pack(src[w * 12 + 9], BLANK_CHROMA, BLANK_LUMA), all, was);
    }
  }

  /** And the first two. */
  method UyvyTailFront(src: seq<word>, dst: array<word32>, width: nat, start: nat, ghost all: seq<word32>,
                  ghost was: seq<word32>)
    returns (at: nat)
    requires width <= |src| && all == V210(src[..width]) && |all| <= dst.Length
    requires start == 4 * (width / 12) && Filled(dst[..], start, all, was)
    modifies dst
    ensures at == start + (if width % 12 > 3 then 2 else if width % 12 > 0 then 1 else 0)
    ensures Filled(dst[..], at, all, was)
  {
    hide Pack, V210, Filled, Padded;
    at := start;
    var w, r := width / 12, width % 12;
    if r > 0 {
      GroupWord(src[..width], w, 0);
    }
    if r > 2 {
      at := PutWord(dst, at, Pack(src[w * 12], src[w * 12 + 1], src[w * 12 + 2]), all, was);
    } else if r > 1 {
      at := PutWord(dst, at, Pack(src[w * 12], src[w * 12 + 1], BLANK_CHROMA), all, was);
    } else if r > 0 {
      at := PutWord(dst, at, Pack(src[w * 12], BLANK_LUMA, BLANK_CHROMA), all, was);
    }
    if r > 3 {
      GroupWord(src[..width], w, 1);
    }
    if r > 5 {
      at := PutWord(dst, at, Pack(src[w * 12 + 3], src[w * 12 + 4], src[w * 12 + 5]), all, was);
    } else if r > 4 {
      at := PutWord(dst, at, Pack(src[w * 12 + 3], src[w * 12 + 4], BLANK_LUMA), all, was);
    } else if r > 3 {
      at := PutWord(dst, at, Pack(src[w * 12 + 3], BLANK_CHROMA, BLANK_LUMA), all, was);
    }
  }

  method Y10ToV210(src: seq<word>, dst: array<word32>, width: nat)
    requires width <= |src| && WordCount(2 * width) <= dst.Length
    modifies dst
    ensures dst[..WordCount(2 * width)] == V210(Interleave(src[..width]))
    ensures dst[WordCount(2 * width)..] == old(dst[WordCount(2 * width)..])
  {
    hide Pack, V210, Interleave, Filled, Padded;
    ghost var y, was := src[..width], dst[..];
    ghost var all := V210(Interleave(y));
    FilledNone(was, all);
    var len := width / 6;
    var at := 0;
    for w := 0 to len
      invariant at == 4 * w && Filled(dst[..], at, all, was)
    {
      Y10Word(y, 4 * w);
      at := PutWord(dst, at, Pack(BLANK_CHROMA, src[w * 6], BLANK_CHROMA), all, was);
      Y10Word(y, 4 * w + 1);
      at := PutWord(dst, at, Pack(src[w * 6 + 1], BLANK_CHROMA, src[w * 6 + 2]), all, was);
      Y10Word(y, 4 * w + 2);
      at := PutWord(dst, at, Pack(BLANK_CHROMA, src[w * 6 + 3], BLANK_CHROMA), all, was);
      Y10Word(y, 4 * w + 3);
      at := PutWord(dst, at, Pack(src[w * 6 + 4], BLANK_CHROMA, src[w * 6 + 5]), all, was);
    }
    Y10Tail(src, dst, width, at, all, was);
    FilledAll(dst[..], all, was);
  }

  /** Sample k of the interleaved line: chroma is constant, luma runs out at twice the width. */
  lemma InterleavedAt(y: seq<word>, k: nat)
    ensures Padded(Interleave(y), k)
      == if k % 2 == 0 then BLANK_CHROMA else if k / 2 < |y| then y[k / 2] else BLANK_LUMA
  {
  }

  lemma Y10Word(y: seq<word>, j: nat)
    requires j < WordCount(2 * |y|)
    ensures V210(Interleave(y))[j]
      == Pack(Padded(Interleave(y), 3 * j), Padded(Interleave(y), 3 * j + 1), Padded(Interleave(y), 3 * j + 2))
    ensures j % 2 == 0 ==> Padded(Interleave(y), 3 * j) == BLANK_CHROMA == Padded(Interleave(y), 3 * j + 2)
    ensures j % 2 == 0 ==> 3 * j / 2 < |y| ==> Padded(Interleave(y), 3 * j + 1) == y[3 * j / 2]
    ensures j % 2 == 1 ==> Padded(Interleave(y), 3 * j + 1) == BLANK_CHROMA
    ensures j % 2 == 1 ==> 3 * j / 2 < |y| ==> Padded(Interleave(y), 3 * j) == y[3 * j / 2]
    ensures j % 2 == 1 ==>
      Padded(Interleave(y), 3 * j + 2) == if 3 * j / 2 + 1 < |y| then y[3 * j / 2 + 1] else BLANK_LUMA
  {
    hide Pack, Interleave, V210, Padded;
    WordOf(Interleave(y), j);
    InterleavedAt(y, 3 * j);
    InterleavedAt(y, 3 * j + 1);
    InterleavedAt(y, 3 * j + 2);
  }

  /** The remaining 0 to 5 luma samples. */
  method Y10Tail(src: seq<word>, dst: array<word32>, width: nat, start: nat, ghost all: seq<word32>,
                  ghost was: seq<word32>)
    requires width <= |src| && all == V210(Interleave(src[..width])) && |all| <= dst.Length
    requires start == 4 * (width / 6) && Filled(dst[..], start, all, was)
    modifies dst
    ensures Filled(dst[..], |all|, all, was)
  {
    hide Pack, V210, Interleave, Padded, Filled;
    var at, w, r := start, width / 6, width % 6;
    ghost var y := src[..width];
    if r > 0 {
      Y10Word(y, 4 * w);
      at := PutWord(dst, at, Pack(BLANK_CHROMA, src[w * 6], BLANK_CHROMA), all, was);
    }
    if r > 1 {
      Y10Word(y, 4 * w + 1);
    }
    if r > 2 {
      at := PutWord(dst, at, Pack(src[w * 6 + 1], BLANK_CHROMA, src[w * 6 + 2]), all, was);
    } else if r > 1 {
      at := PutWord(dst, at, Pack(src[w * 6 + 1], BLANK_CHROMA, BLANK_LUMA), all, was);
    }
    Y10Last(src, dst, width, at, all, was);
  }

  /** The words of the fourth and fifth sample. */
  method Y10Last(src: seq<word>, dst: array<word32>, width: nat, start: nat, ghost all: seq<word32>,
                 ghost was: seq<word32>)
    requires width <= |src| && all == V210(Interleave(src[..width])) && |all| <= dst.Length
    requires start == 4 * (width / 6) + Min(width % 6, 2) && Filled(dst[..], start, all, was)
    modifies dst
    ensures Filled(dst[..], |all|, all, was)
  {
    hide Pack, V210, Interleave, Padded, Filled;
    var at, w, r := start, width / 6, width % 6;
    ghost var y := src[..width];
    if r > 3 {
      Y10Word(y, 4 * w + 2);
      at := PutWord(dst, at, Pack(BLANK_CHROMA, src[w * 6 + 3], BLANK_CHROMA), all, was);
    }
    if r > 4 {
      Y10Word(y, 4 * w + 3);
      at := PutWord(dst, at, Pack(src[w * 6 + 4], BLANK_CHROMA, BLANK_LUMA), all, was);
    }
  }

  // ---- unpacking ------------------------------------------------------------------------------------

  /** One word to the three places it goes to. */
  method ReadPixels(v: word32, dst: array<sample>, a: nat, b: nat, c: nat)
    requires a < dst.Length && b < dst.Length && c < dst.Length && a != b && b != c && a != c
    modifies dst
    ensures dst[a] == Component(v, 0) && dst[b] == Component(v, 1) && dst[c] == Component(v, 2)
    ensures forall k :: 0 <= k < dst.Length && k != a && k != b && k != c ==> dst[k] == old(dst[k])
    ensures dst[..] == old(dst[..])[a := Component(v, 0)][b := Component(v, 1)][c := Component(v, 2)]
  {
    dst[a] := v % 0x400;
    dst[b] := (v / 0x400) % 0x400;
    dst[c] := (v / 0x10_0000) % 0x400;
  }

  /** Four words to twelve samples in order. */
  method ReadTwelve(src: array<word32>, from: nat, dst: array<sample>, at: nat)
    requires from + 4 <= src.Length && at + 12 <= dst.Length && at == 3 * from
    modifies dst
    ensures forall k :: at <= k < at + 12 ==> k / 3 < src.Length && dst[k] == SampleAt(src[..], k)
    ensures forall k :: 0 <= k < at || at + 12 <= k < dst.Length ==> dst[k] == old(dst[k])
  {
    hide Component;
    ReadPixels(src[from], dst, at, at + 1, at + 2);
    ReadPixels(src[from + 1], dst, at + 3, at + 4, at + 5);
    ReadPixels(src[from + 2], dst, at + 6, at + 7, at + 8);
    ReadPixels(src[from + 3], dst, at + 9, at + 10, at + 11);
  }

  /** Whole groups of four words; width counts pixels, two samples each. */
  method LineToUyvy(src: array<word32>, dst: array<sample>, width: nat)
    requires 4 * ((width + 5) / 6) <= src.Length && 12 * ((width + 5) / 6) <= dst.Length
    modifies dst
    ensures forall k :: 0 <= k < 12 * ((width + 5) / 6) ==> dst[k] == SampleAt(src[..], k)
    ensures forall k :: 12 * ((width + 5) / 6) <= k < dst.Length ==> dst[k] == old(dst[k])
  {
    hide SampleAt;
    var at, from, i := 0, 0, 0;
    while i < width
      invariant i % 6 == 0 && i / 6 <= (width + 5) / 6 && at == 12 * (i / 6) && from == 4 * (i / 6)
      invariant forall k :: 0 <= k < at ==> dst[k] == SampleAt(src[..], k)
      invariant forall k :: at <= k < dst.Length ==> dst[k] == old(dst[k])
      decreases width - i
    {
      ReadTwelve(src, from, dst, at);
      i, at, from := i + 6, at + 12, from + 4;
    }
  }

  /** The samples of a line that reach a plane: all of an even line, all but the last of an odd one. */
  function Paired(width: nat): nat
  {
    width - width % 2
  }

  /** The first k samples of a line spread over a luma plane and, from position width on, a chroma plane. */
  function Spread(ws: seq<word32>, was: seq<sample>, width: nat, k: nat): (d: seq<sample>)
    requires WordCount(k) <= |ws|
    ensures |d| == |was|
  {
    seq(|was|, n requires 0 <= n < |was| =>
      if n < width then if 2 * n + 1 < k then SampleAt(ws, 2 * n + 1) else was[n]
      else if 2 * (n - width) < k then SampleAt(ws, 2 * (n - width)) else was[n])
  }

  /** Where sample k goes. */
  function PlaceOf(width: nat, k: nat): nat
  {
    if k % 2 == 1 then k / 2 else width + k / 2
  }

  lemma SpreadNone(ws: seq<word32>, was: seq<sample>, width: nat)
    ensures Spread(ws, was, width, 0) == was
  {
    hide SampleAt;
  }

  lemma SpreadStep(ws: seq<word32>, was: seq<sample>, width: nat, k: nat)
    requires WordCount(k + 1) <= |ws| && k < 2 * width <= |was|
    ensures k / 3 < |ws|
    ensures Spread(ws, was, width, k + 1) == Spread(ws, was, width, k)[PlaceOf(width, k) := SampleAt(ws, k)]
  {
    hide SampleAt;
  }

  /** Word j carries samples 3j, 3j + 1 and 3j + 2. */
  lemma SpreadWord(ws: seq<word32>, was: seq<sample>, width: nat, j: nat)
    requires j < |ws| && 3 * j + 3 <= 2 * width <= |was|
    ensures Spread(ws, was, width, 3 * j + 3) == Spread(ws, was, width, 3 * j)
      [PlaceOf(width, 3 * j) := Component(ws[j], 0)][PlaceOf(width, 3 * j + 1) := Component(ws[j], 1)]
      [PlaceOf(width, 3 * j + 2) := Component(ws[j], 2)]
  {
    hide Component, Spread;
    SpreadStep(ws, was, width, 3 * j);
    SpreadStep(ws, was, width, 3 * j + 1);
    SpreadStep(ws, was, width, 3 * j + 2);
  }

  lemma Places(width: nat, w: nat, i: nat)
    requires i < 6
    ensures PlaceOf(width, 2 * (w + i)) == width + w + i && PlaceOf(width, 2 * (w + i) + 1) == w + i
  {
  }

  /** Word j to the places of its three samples. */
  method ReadWord(src: array<word32>, j: nat, dst: array<sample>, width: nat, a: nat, b: nat, c: nat,
                  ghost was: seq<sample>)
    requires j < src.Length && 3 * j + 3 <= 2 * width <= |was| == dst.Length
    requires a == PlaceOf(width, 3 * j) && b == PlaceOf(width, 3 * j + 1) && c == PlaceOf(width, 3 * j + 2)
    requires dst[..] == Spread(src[..], was, width, 3 * j)
    modifies dst
    ensures dst[..] == Spread(src[..], was, width, 3 * j + 3)
  {
    hide Component, Spread;
    SpreadWord(src[..], was, width, j);
    ReadPixels(src[j], dst, a, b, c);
  }

  /** Component i of word j to the place of its sample. */
  method PutSample(dst: array<sample>, at: nat, x: sample, ghost ws: seq<word32>, ghost was: seq<sample>,
                   ghost width: nat, ghost j: nat, ghost i: nat)
    requires j < |ws| && i < 3 && 3 * j + i < 2 * width <= |was| == dst.Length
    requires at == PlaceOf(width, 3 * j + i) && x == Component(ws[j], i)
    requires dst[..] == Spread(ws, was, width, 3 * j + i)
    modifies dst
    ensures dst[..] == Spread(ws, was, width, 3 * j + i + 1)
  {
    hide Component, Spread;
    SampleOfWord(ws, j, i);
    SpreadStep(ws, was, width, 3 * j + i);
    dst[at] := x;
  }

  lemma SampleOfWord(ws: seq<word32>, j: nat, i: nat)
    requires j < |ws| && i < 3
    ensures (3 * j + i) / 3 == j && SampleAt(ws, 3 * j + i) == Component(ws[j], i)
  {
    hide Component;
    assert (3 * j + i) % 3 == i;
  }

  /** Four words to six places in each plane. */
  method ReadGroup(src: array<word32>, from: nat, dst: array<sample>, width: nat, w: nat, ghost was: seq<sample>)
    requires 2 * width <= |was| == dst.Length && from + 4 <= src.Length
    requires 6 * from == 4 * w && w + 6 <= width
    requires dst[..] == Spread(src[..], was, width, 2 * w)
    modifies dst
    ensures dst[..] == Spread(src[..], was, width, 2 * (w + 6))
  {
    hide Spread, PlaceOf;
    Places(width, w, 0);
    Places(width, w, 1);
    Places(width, w, 2);
    Places(width, w, 3);
    Places(width, w, 4);
    Places(width, w, 5);
    ReadWord(src, from, dst, width, width + w, w, width + w + 1, was);
    ReadWord(src, from + 1, dst, width, w + 1, width + w + 2, w + 2, was);
    ReadWord(src, from + 2, dst, width, width + w + 3, w + 3, width + w + 4, was);
    ReadWord(src, from + 3, dst, width, w + 4, width + w + 5, w + 5, was);
  }

  /** Luma to the front of dst, chroma behind it from position width on. */
  method LineToNv20(src: array<word32>, dst: array<sample>, dstSizeBytes: int, width: nat) returns (ret: int)
    requires dstSizeBytes <= 2 * dst.Length
    requires 0 < width && dstSizeBytes >= width * 6 ==> WordCount(2 * Paired(width)) <= src.Length
    modifies dst
    ensures ret in {0, -1} && (ret == -1 <==> width == 0 || dstSizeBytes < width * 6)
    ensures ret == -1 ==> dst[..] == old(dst[..])
    ensures ret == 0 ==> dst[..] == Spread(src[..], old(dst[..]), width, 2 * Paired(width))
  {
    hide Spread;
    if width == 0 {
      return -1;
    }
    if dstSizeBytes < width * 6 {
      return -1;
    }
    ghost var was := dst[..];
    SpreadNone(src[..], was, width);
    var w, from := 0, 0;
    while w < width - 5
      invariant w % 6 == 0 && 0 <= w <= width && 6 * from == 4 * w
      invariant dst[..] == Spread(src[..], was, width, 2 * w)
      decreases width - w
    {
      ReadGroup(src, from, dst, width, w, was);
      w, from := w + 6, from + 4;
    }
    Nv20Tail(src, from, dst, width, w, was);
    ret := 0;
  }

  /** The remaining 0 to 5 pixels, in pairs. */
  method Nv20Tail(src: array<word32>, start: nat, dst: array<sample>, width: nat, w: nat, ghost was: seq<sample>)
    requires 2 * width <= |was| == dst.Length && WordCount(2 * Paired(width)) <= src.Length
    requires w % 6 == 0 && w <= width < w + 6 && 6 * start == 4 * w
    requires dst[..] == Spread(src[..], was, width, 2 * w)
    modifies dst
    ensures dst[..] == Spread(src[..], was, width, 2 * Paired(width))
  {
    hide Component, Spread, PlaceOf, Paired, WordCount;
    PairsLeft(width, w, start, src.Length);
    var val := 0;
    if w < width - 1 {
      val := FirstPair(src, start, dst, width, w, was);
    }
    if w < width - 3 {
      SecondPair(src, start + 2, dst, width, w, val, was);
    }
  }

  lemma PairsLeft(width: nat, w: nat, start: nat, n: nat)
    requires w % 6 == 0 && w <= width < w + 6 && 6 * start == 4 * w && WordCount(2 * Paired(width)) <= n
    ensures 3 * start == 2 * w
    ensures Paired(width) == if width < w + 2 then w else if width < w + 4 then w + 2 else w + 4
    ensures (width >= w + 2 ==> start + 1 < n) && (width >= w + 4 ==> start + 2 < n)
  {
    var q := w / 6;
    assert w == 2 * (3 * q) && start == 4 * q && width - w < 6;
    WordsLeft(4 * q, 0);
    WordsLeft(4 * q, 4);
    WordsLeft(4 * q, 8);
    hide WordCount;
  }

  lemma WordsLeft(words: nat, more: nat)
    ensures WordCount(3 * words + more) == words + WordCount(more)
  {
  }

  /** A whole word and the first sample of the next, which is returned. */
  method FirstPair(src: array<word32>, from: nat, dst: array<sample>, width: nat, w: nat, ghost was: seq<sample>)
      returns (val: word32)
    requires w + 2 <= width && 2 * width <= |was| == dst.Length && from + 1 < src.Length
    requires w % 6 == 0 && 3 * from == 2 * w && dst[..] == Spread(src[..], was, width, 2 * w)
    modifies dst
    ensures val == src[from + 1] && dst[..] == Spread(src[..], was, width, 2 * w + 4)
  {
    hide Component, Spread, PlaceOf;
    Places(width, w, 0);
    Places(width, w, 1);
    ReadWord(src, from, dst, width, width + w, w, width + w + 1, was);
    val := src[from + 1];
    Components(val);
    PutSample(dst, w + 1, val % 0x400, src[..], was, width, from + 1, 0);
  }

  /** The two samples val has left, and two of the word behind it. */
  method SecondPair(src: array<word32>, from: nat, dst: array<sample>, width: nat, w: nat, val: word32,
                    ghost was: seq<sample>)
    requires w + 4 <= width && 2 * width <= |was| == dst.Length && 2 <= from < src.Length && val == src[from - 1]
    requires w % 6 == 0 && 3 * (from - 2) == 2 * w && dst[..] == Spread(src[..], was, width, 2 * w + 4)
    modifies dst
    ensures dst[..] == Spread(src[..], was, width, 2 * w + 8)
  {
    hide Component, Spread, PlaceOf;
    Places(width, w, 2);
    Places(width, w, 3);
    Components(val);
    PutSample(dst, width + w + 2, (val / 0x400) % 0x400, src[..], was, width, from - 1, 1);
    PutSample(dst, w + 2, (val / 0x10_0000) % 0x400, src[..], was, width, from - 1, 2);
    Components(src[from]);
    PutSample(dst, width + w + 3, src[from] % 0x400, src[..], was, width, from, 0);
    PutSample(dst, w + 3, (src[from] / 0x400) % 0x400, src[..], was, width, from, 1);
  }

  lemma Components(v: word32)
    ensures v % 0x400 == Component(v, 0) && (v / 0x400) % 0x400 == Component(v, 1)
    ensures (v / 0x10_0000) % 0x400 == Component(v, 2)
  {
  }

  // ---- round trips ------------------------------------------------------------------------------

  /** A packed line in front of whatever follows it in memory. */
  lemma PackedPrefix(s: seq<word>, ws: seq<word32>, k: nat)
    requires V210(s) <= ws && TenBit(s) && k < |s|
    ensures k / 3 < |ws| && SampleAt(ws, k) == s[k]
  {
    PackedSample(s, k);
  }

  /** Packing samples and unpacking them gives back the line, whatever its length. */
  method UyvyThereAndBack(src: seq<sample>, width: nat, words: array<word32>, dst: array<sample>)
    requires width <= |src|
    requires 4 * ((width + 11) / 12) <= words.Length && 12 * ((width + 11) / 12) <= dst.Length
    modifies words, dst
    ensures dst[..width] == src[..width]
  {
    hide V210, SampleAt, Component, Pack;
    ghost var s := src[..width];
    UyvyToV210(src, words, width);
    LineToUyvy(words, dst, (width + 1) / 2);
    forall k | 0 <= k < width
      ensures dst[k] == s[k]
    {
      PackedPrefix(s, words[..], k);
    }
  }

  /** The luma plane after unpacking over was. */
  function LumaPlane(ws: seq<word32>, was: seq<sample>): (p: seq<sample>)
    requires WordCount(2 * Paired(|was|)) <= |ws|
    ensures |p| == |was|
  {
    seq(|was|, n requires 0 <= n < |was| => if n < Paired(|was|) then SampleAt(ws, 2 * n + 1) else was[n])
  }

  lemma LumaBack(y: seq<sample>, ws: seq<word32>, n: nat)
    requires V210(Interleave(y)) <= ws && n < |y|
    ensures (2 * n + 1) / 3 < |ws| && SampleAt(ws, 2 * n + 1) == y[n]
  {
    hide V210, SampleAt;
    assert TenBit(Interleave(y));
    PackedPrefix(Interleave(y), ws, 2 * n + 1);
  }

  /** Packing luma and unpacking it to planes restores the luma plane, whatever it held before, exactly for
      lines of even length: the last sample of an odd line is not unpacked. */
  lemma LumaRoundTripIff(y: seq<sample>, ws: seq<word32>)
    requires V210(Interleave(y)) <= ws
    ensures WordCount(2 * Paired(|y|)) <= |ws|
    ensures (forall was: seq<sample> :: |was| == |y| ==> LumaPlane(ws, was) == y) <==> |y| % 2 == 0
  {
    hide V210, SampleAt;
    assert |V210(Interleave(y))| <= |ws|;
    if |y| % 2 == 0 {
      forall was: seq<sample> | |was| == |y|
        ensures LumaPlane(ws, was) == y
      {
        forall n | 0 <= n < |y|
          ensures LumaPlane(ws, was)[n] == y[n]
        {
          LumaBack(y, ws, n);
        }
      }
    } else {
      var last := |y| - 1;
      var other: sample := if y[last] == 0 then 1 else 0;
      var was: seq<sample> := y[last := other];
      assert LumaPlane(ws, was)[last] == other;
    }
  }

  /** A luma line of one sample: what the plane held before stays. */
  lemma OddSampleLost()
    ensures LumaPlane(V210(Interleave([0x100])), [0]) == [0]
  {
    hide V210, SampleAt;
  }

  /** A packed line unpacked to planes: luma to the front, chroma behind it, both in order, for all but the last
      pixel of an odd line. */
  lemma PlanesOf(s: seq<word>, was: seq<sample>, width: nat, n: nat)
    requires TenBit(s) && |s| == 2 * width <= |was| && n < Paired(width)
    ensures WordCount(2 * Paired(width)) <= |V210(s)|
    ensures var d := Spread(V210(s), was, width, 2 * Paired(width));
      d[n] == s[2 * n + 1] && d[width + n] == s[2 * n]
  {
    hide V210, SampleAt;
    PackedSample(s, 2 * n + 1);
    PackedSample(s, 2 * n);
  }

  method Y10ThereAndBack(src: seq<sample>, width: nat, words: array<word32>, dst: array<sample>)
    requires 0 < width <= |src|
    requires WordCount(2 * width) <= words.Length && 3 * width <= dst.Length
    modifies words, dst
    ensures dst[..width] == LumaPlane(words[..], old(dst[..width]))
    ensures width % 2 == 0 ==> dst[..width] == src[..width]
  {
    hide V210, SampleAt, Component, Pack;
    ghost var y := src[..width];
    ghost var was := dst[..width];
    Y10ToV210(src, words, width);
    LumaRoundTripIff(y, words[..]);
    var ret := LineToNv20(words, dst, 6 * width, width);
    assert was == old(dst[..])[..width];
    assert dst[..width] == LumaPlane(words[..], was);
  }

  // ---- a whole ancillary line ---------------------------------------------------------------------

  /** The generated line repacked: luma only for high definition, both kinds of sample otherwise. */
  method GenerateV210(line: VancLines.Line, order: seq<VancLines.Entry>, outBuf: array<word32>, width: int)
    requires line.Valid() && VancLines.SortedByOffset(order) && multiset(order) == multiset(line.entries)
    requires var ws := VancLines.Words(VancLines.Accepted(order, 0, width));
      ws != [] && WordCount(if width > 720 then 2 * |ws| else |ws|) <= outBuf.Length
    modifies line, outBuf
    ensures line.Valid() && line.entries == VancLines.Layout(order, 0, width)
    ensures var ws := VancLines.Words(VancLines.Accepted(order, 0, width));
      V210(if width > 720 then Interleave(ws) else ws) <= outBuf[..]
  {
    hide V210, Interleave, VancLines.Words, VancLines.Accepted, VancLines.Layout, VancLines.SortedByOffset;
    var out := line.Generate(order, width);
    var outLine := out.value;
    var samples := outLine[..];
    assert samples[..|samples|] == samples;
    if width > 720 {
      Y10ToV210(samples, outBuf, |samples|);
    } else {
      UyvyToV210(samples, outBuf, |samples|);
    }
  }
}

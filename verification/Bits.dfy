/** Bit strings, most significant bit first: the common currency of every codec in the library. */
module Bits {

  type byte = x: int | 0 <= x < 0x100
  type word = x: int | 0 <= x < 0x1_0000

  function Pow2(n: nat): (p: nat)
    ensures p > 0
  {
    if n == 0 then 1 else 2 * Pow2(n - 1)
  }

  /** v >> n */
  function ShiftRight(v: nat, n: nat): nat
  {
    if n == 0 then v else ShiftRight(v / 2, n - 1)
  }

  /** The low n bits of v, most significant first. */
  function ToBits(v: nat, n: nat): (b: seq<bool>)
    ensures |b| == n
  {
    if n == 0 then [] else ToBits(v / 2, n - 1) + [v % 2 == 1]
  }

  /** The number a bit string denotes. */
  function FromBits(b: seq<bool>): nat
  {
    if b == [] then 0 else 2 * FromBits(b[..|b| - 1]) + (if b[|b| - 1] then 1 else 0)
  }

  function BytesBits(s: seq<byte>): (b: seq<bool>)
    ensures |b| == 8 * |s|
  {
    if s == [] then [] else BytesBits(s[..|s| - 1]) + ToBits(s[|s| - 1], 8)
  }

  /** v written on k bytes, most significant first. */
  function BigEndian(v: nat, k: nat): (s: seq<byte>)
    ensures |s| == k
  {
    if k == 0 then [] else BigEndian(v / 256, k - 1) + [v % 256]
  }

  /** The number k bytes denote, most significant first. */
  function BigEndianValue(s: seq<byte>): nat
  {
    if s == [] then 0 else 256 * BigEndianValue(s[..|s| - 1]) + s[|s| - 1]
  }

  function Min(a: nat, b: nat): (m: nat)
    ensures m <= a && m <= b && (m == a || m == b)
  {
    if a > b then b else a
  }

  function Repeat(bit: bool, n: nat): (b: seq<bool>)
    ensures |b| == n && forall i :: 0 <= i < n ==> b[i] == bit
  {
    seq(n, i => bit)
  }

  function Ones(n: nat): (b: seq<bool>)
    ensures |b| == n && forall i :: 0 <= i < n ==> b[i]
  {
    Repeat(true, n)
  }

  function Zeros(n: nat): (b: seq<bool>)
    ensures |b| == n && forall i :: 0 <= i < n ==> !b[i]
  {
    Repeat(false, n)
  }

  // ---- a number and its bits --------------------------------------------------------------

  lemma {:induction false} ValueOfToBits(v: nat, n: nat)
    ensures FromBits(ToBits(v, n)) == v % Pow2(n)
  {
    if n == 0 {
    } else {
      var b := ToBits(v, n);
      assert b[..n - 1] == ToBits(v / 2, n - 1);
      ValueOfToBits(v / 2, n - 1);
      ModDouble(v, Pow2(n - 1));
    }
  }

  lemma ModDouble(v: nat, p: nat)
    requires p > 0
    ensures v % (2 * p) == 2 * ((v / 2) % p) + v % 2
  {
    var q, r := (v / 2) / p, (v / 2) % p;
    assert v / 2 == p * q + r;
    assert 2 * (p * q) == (2 * p) * q;
    DivModUnique(v, 2 * p, q, 2 * r + v % 2);
  }

  lemma DivModUnique(v: int, d: int, q: int, r: int)
    requires d > 0 && v == d * q + r && 0 <= r < d
    ensures v / d == q && v % d == r
  {
    var k := q - v / d;
    assert d * q - d * (v / d) == d * k;
    assert -d < d * k < d;
    if k != 0 {
      MulAtLeast(d, if k > 0 then k else -k);
    }
  }

  lemma MulAtLeast(d: int, k: int)
    requires d > 0 && k >= 1
    ensures d * k >= d && d * -k <= -d
  {
    assert d * k == d + d * (k - 1);
    assert d * -k == -(d * k);
  }

  lemma {:induction false} BitsOfFromBits(b: seq<bool>)
    ensures ToBits(FromBits(b), |b|) == b
  {
    if b == [] {
    } else {
      BitsOfFromBits(b[..|b| - 1]);
      assert b == b[..|b| - 1] + [b[|b| - 1]];
    }
  }

  lemma {:induction false} FromBitsBound(b: seq<bool>)
    ensures FromBits(b) < Pow2(|b|)
  {
    if b == [] {
    } else {
      FromBitsBound(b[..|b| - 1]);
    }
  }

  /** Bits above the low n do not matter. */
  lemma {:induction false} ToBitsMod(v: nat, m: nat, n: nat)
    requires n <= m
    ensures ToBits(v % Pow2(m), n) == ToBits(v, n)
  {
    if n == 0 {
    } else {
      ModDouble(v, Pow2(m - 1));
      assert (v % Pow2(m)) / 2 == (v / 2) % Pow2(m - 1);
      ToBitsMod(v / 2, m - 1, n - 1);
    }
  }

  /** Shifting left by one clocks a zero in at the low end. */
  lemma ToBitsDouble(v: nat, n: nat)
    ensures ToBits(2 * v, n + 1) == ToBits(v, n) + [false]
  {
  }

  /** The most significant of n + 1 bits comes first. */
  lemma {:induction false} ToBitsCons(v: nat, n: nat)
    ensures ToBits(v, n + 1) == [ShiftRight(v, n) % 2 == 1] + ToBits(v, n)
  {
    if n == 0 {
    } else {
      ToBitsCons(v / 2, n - 1);
    }
  }

  lemma {:induction false} ShiftRightStep(v: nat, n: nat)
    ensures ShiftRight(v, n + 1) == ShiftRight(v, n) / 2
  {
    if n == 0 {
    } else {
      ShiftRightStep(v / 2, n - 1);
    }
  }

  lemma DivDouble(v: nat, p: nat)
    requires p > 0
    ensures v / (2 * p) == (v / 2) / p
  {
    var q, r := (v / 2) / p, (v / 2) % p;
    assert v / 2 == p * q + r;
    assert 2 * (p * q) == (2 * p) * q;
    DivModUnique(v, 2 * p, q, 2 * r + v % 2);
  }

  lemma {:induction false} ShiftRightIsDiv(v: nat, n: nat)
    ensures ShiftRight(v, n) == v / Pow2(n)
  {
    if n == 0 {
    } else {
      ShiftRightIsDiv(v / 2, n - 1);
      DivDouble(v, Pow2(n - 1));
    }
  }

  /** Reading n bits back from the front of a string that starts with a written value. */
  lemma ReadBack(v: nat, n: nat, tail: seq<bool>)
    ensures FromBits((ToBits(v, n) + tail)[..n]) == v % Pow2(n)
    ensures (ToBits(v, n) + tail)[n..] == tail
  {
    assert (ToBits(v, n) + tail)[..n] == ToBits(v, n);
    ValueOfToBits(v, n);
  }

  /** A field of at most 16 bits. */
  function Value16(b: seq<bool>): (w: word)
    requires |b| <= 16
    ensures w == FromBits(b)
  {
    FromBitsBound(b);
    Pow2Monotone(|b|, 16);
    Pow2Table();
    FromBits(b)
  }

  lemma Pow2Table()
    ensures Pow2(8) == 0x100 && Pow2(10) == 0x400 && Pow2(11) == 0x800 && Pow2(12) == 0x1000
    ensures Pow2(15) == 0x8000 && Pow2(16) == 0x1_0000 && Pow2(24) == 0x100_0000
  {
    assert Pow2(5) == 32;
    assert Pow2(8) == 256;
    assert Pow2(11) == 2048;
    assert Pow2(13) == 8192;
    assert Pow2(17) == 0x2_0000;
    assert Pow2(21) == 0x20_0000;
  }

  /** Bytes taken up by 8 * bytes + bits bits. */
  lemma RoundedUp(bytes: nat, bits: nat)
    requires bits < 8
    ensures (8 * bytes + bits) % 8 == bits
    ensures (8 * bytes + bits + 7) / 8 == if bits == 0 then bytes else bytes + 1
  {
  }

  lemma {:induction false} Pow2Monotone(m: nat, n: nat)
    requires m <= n
    ensures Pow2(m) <= Pow2(n)
    decreases n
  {
    if m == n {
    } else {
      Pow2Monotone(m, n - 1);
    }
  }

  lemma ByteOfBits(x: byte)
    ensures FromBits(ToBits(x, 8)) == x
  {
    hide FromBits, ToBits;
    ValueOfToBits(x, 8);
    assert Pow2(8) == 256;
  }

  // ---- bytes and their bits ---------------------------------------------------------------

  lemma {:induction false} BytesBitsAppend(a: seq<byte>, b: seq<byte>)
    ensures BytesBits(a + b) == BytesBits(a) + BytesBits(b)
  {
    if b == [] {
      assert a + b == a;
    } else {
      var c := a + b;
      assert c[..|c| - 1] == a + b[..|b| - 1];
      BytesBitsAppend(a, b[..|b| - 1]);
    }
  }

  lemma {:induction false} BytesBitsInjective(a: seq<byte>, b: seq<byte>)
    requires BytesBits(a) == BytesBits(b)
    ensures a == b
  {
    hide ToBits, FromBits;
    assert |a| == |b|;
    if a == [] {
    } else {
      hide BytesBits;
      var n := |a| - 1;
      SplitLast(a);
      SplitLast(b);
      BytesBitsInjective(a[..n], b[..n]);
      ByteOfBits(a[n]);
      ByteOfBits(b[n]);
      assert a == a[..n] + [a[n]] && b == b[..n] + [b[n]];
    }
  }

  lemma SplitLast(s: seq<byte>)
    requires s != []
    ensures BytesBits(s)[..8 * (|s| - 1)] == BytesBits(s[..|s| - 1])
    ensures BytesBits(s)[8 * (|s| - 1)..] == ToBits(s[|s| - 1], 8)
  {
  }

  lemma Middle<T>(a: seq<T>, b: seq<T>, c: seq<T>)
    ensures (a + (b + c))[|a|..|a| + |b|] == b
  {
  }

  lemma Cut3<T>(s: seq<T>, i: nat, j: nat)
    requires i <= j <= |s|
    ensures s == s[..i] + (s[i..j] + s[j..])
  {
  }

  lemma BitSlice(s: seq<byte>, i: nat, j: nat)
    requires i <= j <= |s|
    ensures BytesBits(s)[8 * i..8 * j] == BytesBits(s[i..j])
  {
    hide BytesBits;
    Cut3(s, i, j);
    BytesBitsAppend(s[..i], s[i..j] + s[j..]);
    BytesBitsAppend(s[i..j], s[j..]);
    Middle(BytesBits(s[..i]), BytesBits(s[i..j]), BytesBits(s[j..]));
  }

  lemma BytesBitsOne(x: byte)
    ensures BytesBits([x]) == ToBits(x, 8)
  {
    assert [x][..0] == [];
    assert BytesBits([x]) == [] + ToBits(x, 8);
  }

  lemma BytesBitsFront(s: seq<byte>)
    requires s != []
    ensures BytesBits(s) == ToBits(s[0], 8) + BytesBits(s[1..])
  {
    assert s == [s[0]] + s[1..];
    BytesBitsAppend([s[0]], s[1..]);
    BytesBitsOne(s[0]);
  }

  lemma {:induction false} ToBitsSplit(v: nat, m: nat, n: nat)
    ensures ToBits(v, m + n) == ToBits(ShiftRight(v, n), m) + ToBits(v, n)
  {
    if n == 0 {
    } else {
      ToBitsSplit(v / 2, m, n - 1);
    }
  }

  lemma {:induction false} BigEndianBits(v: nat, k: nat)
    ensures BytesBits(BigEndian(v, k)) == ToBits(v, 8 * k)
  {
    if k == 0 {
    } else {
      BigEndianBits(v / 256, k - 1);
      assert Pow2(8) == 256;
      ShiftRightIsDiv(v, 8);
      ToBitsSplit(v, 8 * (k - 1), 8);
      ToBitsMod(v, 8, 8);
      var s := BigEndian(v, k);
      assert s[..k - 1] == BigEndian(v / 256, k - 1);
    }
  }

  /** Two fields side by side are one wider field. */
  lemma JoinBits(a: nat, n: nat, b: nat, m: nat)
    ensures ToBits(a, n) + ToBits(b, m) == ToBits(Pow2(m) * a + b % Pow2(m), n + m)
  {
    hide ToBits;
    var v := Pow2(m) * a + b % Pow2(m);
    DivModUnique(v, Pow2(m), a, b % Pow2(m));
    ShiftRightIsDiv(v, m);
    ToBitsSplit(v, n, m);
    ToBitsMod(v, m, m);
    ToBitsMod(b, m, m);
  }

  lemma BytePair(v: nat)
    ensures BigEndian(v, 2) == [(v / 0x100) % 0x100, v % 0x100]
    ensures BytesBits([(v / 0x100) % 0x100, v % 0x100]) == ToBits(v, 16)
  {
    hide ToBits, BytesBits;
    BigEndianBits(v, 2);
    TwoBytesOf(v);
  }

  lemma TwoBytesOf(v: nat)
    ensures BigEndian(v, 2) == [(v / 0x100) % 0x100, v % 0x100]
  {
    assert BigEndian(v / 0x100, 1) == [] + [(v / 0x100) % 0x100];
  }

  /** The most significant bit comes first, and the most significant byte. */
  lemma MostSignificantFirst(high: byte, low: byte)
    ensures ToBits(6, 3) == [true, true, false]
    ensures BytesBits([high, low]) == ToBits(high, 8) + ToBits(low, 8)
    ensures BigEndian(0x100 * high + low, 2) == [high, low]
  {
    SixInBits();
    hide BytesBits, ToBits, BigEndian;
    BytesBitsOne(high);
    BytesBitsOne(low);
    BytesBitsAppend([high], [low]);
    assert [high] + [low] == [high, low];
    BytePair(0x100 * high + low);
  }

  lemma SixInBits()
    ensures ToBits(6, 3) == [true, true, false]
  {
    assert ToBits(1, 1) == [true] && ToBits(3, 2) == [true, true];
  }

  lemma ModByte(v: nat, p: nat)
    requires p > 0
    ensures v % (256 * p) == 256 * ((v / 256) % p) + v % 256
  {
    var q, r := (v / 256) / p, (v / 256) % p;
    assert v / 256 == p * q + r;
    assert 256 * (p * q) == (256 * p) * q;
    DivModUnique(v, 256 * p, q, 256 * r + v % 256);
  }

  lemma {:induction false} BigEndianBack(v: nat, k: nat)
    ensures BigEndianValue(BigEndian(v, k)) == v % Pow2(8 * k)
  {
    if k == 0 {
    } else {
      var s := BigEndian(v, k);
      assert s[..k - 1] == BigEndian(v / 256, k - 1);
      BigEndianBack(v / 256, k - 1);
      ModByte(v, Pow2(8 * (k - 1)));
      Pow2Eight(8 * (k - 1));
    }
  }

  lemma Pow2Eight(n: nat)
    ensures Pow2(n + 8) == 256 * Pow2(n)
  {
    assert Pow2(n + 2) == 4 * Pow2(n);
    assert Pow2(n + 4) == 4 * Pow2(n + 2);
    assert Pow2(n + 6) == 4 * Pow2(n + 4);
    assert Pow2(n + 8) == 4 * Pow2(n + 6);
  }

  lemma BytePow2()
    ensures Pow2(8) == 0x100 && Pow2(16) == 0x1_0000 && Pow2(32) == 0x1_0000_0000
    ensures Pow2(48) == 0x1_0000_0000_0000
  {
    Pow2Table();
    Pow2Eight(16);
    Pow2Eight(24);
    Pow2Eight(32);
    Pow2Eight(40);
  }

  /** k stuffing bytes. */
  function Stuffing(k: nat): (s: seq<byte>)
    ensures |s| == k
  {
    if k == 0 then [] else Stuffing(k - 1) + [0xff]
  }

  lemma {:induction false} StuffingBits(k: nat)
    ensures BytesBits(Stuffing(k)) == Ones(8 * k)
  {
    if k == 0 {
    } else {
      hide ToBits;
      StuffingBits(k - 1);
      assert Stuffing(k)[..k - 1] == Stuffing(k - 1);
      Pow2Table();
      AllOnes(0xff, 8);
      MoreOnes(8 * (k - 1), 8);
      hide Ones, Pow2;
      assert BytesBits(Stuffing(k)) == Ones(8 * (k - 1)) + Ones(8);
    }
  }

  lemma MoreOnes(m: nat, n: nat)
    ensures Ones(m) + Ones(n) == Ones(m + n)
  {
  }

  lemma {:induction false} AllOnes(v: nat, n: nat)
    requires v == Pow2(n) - 1
    ensures ToBits(v, n) == Ones(n)
  {
    if n == 0 {
    } else {
      assert v / 2 == Pow2(n - 1) - 1 && v % 2 == 1;
      AllOnes(v / 2, n - 1);
    }
  }
}

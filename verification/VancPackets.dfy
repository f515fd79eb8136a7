/** SDI ancillary packets as words: framing, parity, checksum, and the scanner that finds them on a line. */
module VancPackets {
  import opened Bits
  import opened Wrappers

  const MAX_PAYLOAD := 16384

  // ---- parity and checksum ----------------------------------------------------------------

  function Parity(v: nat): (p: nat)
    ensures p < 2
  {
    if v == 0 then 0 else (v % 2 + Parity(v / 2)) % 2
  }

  /** v with its parity bit or'ed in: bit 8 when odd, bit 9 when even. */
  function WithParity(v: word): (w: word)
    ensures w % 256 == v % 256
    ensures v < 0x100 ==> 0x100 <= w < 0x300
  {
    if Parity(v) == 1 then
      if (v / 0x100) % 2 == 1 then v else v + 0x100
    else
      if (v / 0x200) % 2 == 1 then v else v + 0x200
  }

  lemma {:induction false} ParityOfNextBit(v: nat, n: nat)
    requires v < Pow2(n)
    ensures Parity(v + Pow2(n)) == 1 - Parity(v)
  {
    if n == 0 {
    } else {
      assert (v + Pow2(n)) / 2 == v / 2 + Pow2(n - 1) && (v + Pow2(n)) % 2 == v % 2;
      ParityOfNextBit(v / 2, n - 1);
    }
  }

  /** How many bits of the string are set. */
  function SetBits(b: seq<bool>): nat
  {
    if b == [] then 0 else (if b[0] then 1 else 0) + SetBits(b[1..])
  }

  lemma {:induction false} SetBitsAppend(b: seq<bool>, bit: bool)
    ensures SetBits(b + [bit]) == SetBits(b) + (if bit then 1 else 0)
  {
    if b == [] {
      assert [] + [bit] == [bit] && [bit][1..] == [];
    } else {
      assert (b + [bit])[1..] == b[1..] + [bit];
      SetBitsAppend(b[1..], bit);
    }
  }

  /** The parity of a number is that of its set bits. */
  lemma {:induction false} ParityCounts(v: nat, n: nat)
    requires v < Pow2(n)
    ensures Parity(v) == SetBits(ToBits(v, n)) % 2
  {
    if n == 0 {
    } else {
      ParityCounts(v / 2, n - 1);
      SetBitsAppend(ToBits(v / 2, n - 1), v % 2 == 1);
      assert v == 0 ==> Parity(v / 2) == 0;
    }
  }

  /** A marked byte keeps its value, has an even number of bits set among bits 0 to 8, and bit 9 is the inverse of
      bit 8. */
  lemma MarkedByte(v: byte)
    ensures WithParity(v) % 0x100 == v && WithParity(v) < 0x400
    ensures SetBits(ToBits(WithParity(v), 9)) % 2 == 0
    ensures WithParity(v) / 0x200 == 1 - (WithParity(v) / 0x100) % 2
  {
    MarkedParity(v);
    hide Parity, WithParity, SetBits, ToBits;
    NineBits(WithParity(v));
  }

  lemma NineBits(w: nat)
    ensures Parity(w % 0x200) == SetBits(ToBits(w, 9)) % 2
  {
    hide Parity, SetBits, ToBits;
    NinthPower();
    hide Pow2;
    ToBitsMod(w, 9, 9);
    ParityCounts(w % 0x200, 9);
  }

  lemma NinthPower()
    ensures Pow2(9) == 0x200
  {
    assert Pow2(8) == 0x100;
  }

  lemma MarkedParity(v: byte)
    ensures Parity(WithParity(v) % 0x200) == 0
    ensures WithParity(v) / 0x200 == 1 - (WithParity(v) / 0x100) % 2
  {
    assert Parity(v + 0x100) == 1 - Parity(v) by {
      assert Pow2(8) == 0x100;
      ParityOfNextBit(v, 8);
    }
    var w := WithParity(v);
    hide Parity;
    if w == v + 0x100 {
      assert w % 0x200 == w;
    } else {
      assert w == v + 0x200 && w % 0x200 == v;
    }
  }

  /** Sum of the words modulo 512. */
  function Sum9(ws: seq<word>): (s: word)
    ensures s < 0x200
  {
    if ws == [] then 0 else (Sum9(ws[..|ws| - 1]) + ws[|ws| - 1]) % 0x200
  }

  /** The sum of the words, unbounded, counted from the front. */
  function Total(ws: seq<word>): nat
  {
    if ws == [] then 0 else ws[0] + Total(ws[1..])
  }

  lemma {:induction false} TotalAppend(ws: seq<word>, w: word)
    ensures Total(ws + [w]) == Total(ws) + w
  {
    if ws == [] {
      assert [] + [w] == [w] && [w][1..] == [];
    } else {
      assert (ws + [w])[1..] == ws[1..] + [w];
      TotalAppend(ws[1..], w);
    }
  }

  lemma {:induction false} Sum9IsTotal(ws: seq<word>)
    ensures Sum9(ws) == Total(ws) % 0x200
  {
    if ws == [] {
    } else {
      var n := |ws| - 1;
      Sum9IsTotal(ws[..n]);
      TotalAppend(ws[..n], ws[n]);
      assert ws == ws[..n] + [ws[n]];
    }
  }

  /** The checksum word: bit 9 is the inverse of bit 8. */
  function Checksum(ws: seq<word>): (c: word)
    ensures c % 0x200 == Sum9(ws) && 0x100 <= c < 0x300
  {
    if Sum9(ws) >= 0x100 then Sum9(ws) else Sum9(ws) + 0x200
  }

  /** A word is the checksum of others exactly if it is their sum modulo 512, with bit 9 the inverse of bit 8. */
  lemma ChecksumIff(ws: seq<word>, c: word)
    ensures c == Checksum(ws) <==> c % 0x200 == Total(ws) % 0x200 && c / 0x200 == 1 - (c / 0x100) % 2
  {
    Sum9IsTotal(ws);
    hide Sum9;
    assert c == 0x200 * (c / 0x200) + c % 0x200 && (c / 0x100) % 2 == (c % 0x200) / 0x100;
  }

  method ChecksumCalculate(ws: array<word>, offset: nat, count: nat) returns (s: word)
    requires offset + count <= ws.Length && count <= 0xffff
    ensures s == Checksum(ws[offset..offset + count])
    ensures s % 0x200 == Total(ws[offset..offset + count]) % 0x200 && s / 0x200 == 1 - (s / 0x100) % 2
  {
    hide Total;
    s := 0;
    for i := 0 to count
      invariant s == Sum9(ws[offset..offset + i])
    {
      assert ws[offset..offset + i + 1][..i] == ws[offset..offset + i];
      s := ((s + ws[offset + i]) % 0x1_0000) % 0x200;
    }
    if s < 0x100 {
      s := s + 0x200;
    }
    ChecksumIff(ws[offset..offset + count], s);
  }

  method ChecksumIsValid(ws: array<word>, offset: nat, count: nat) returns (ok: bool)
    requires offset + count <= ws.Length && 1 <= count <= 0xffff
    ensures ok == (Checksum(ws[offset..offset + count - 1]) == ws[offset + count - 1])
  {
    var sum := ChecksumCalculate(ws, offset, count - 1);
    ok := sum == ws[offset + count - 1];
  }

  // ---- building a packet ------------------------------------------------------------------

  function RawBody(did: byte, sdid: byte, src: seq<byte>): (b: seq<word>)
    requires |src| <= 0xffff
    ensures |b| == |src| + 3
  {
    [did, sdid, |src|] + src
  }

  function Body(did: byte, sdid: byte, src: seq<byte>): (b: seq<word>)
    requires |src| <= 0xffff
    ensures |b| == |src| + 3
  {
    seq(|src| + 3, i requires 0 <= i < |src| + 3 => WithParity(RawBody(did, sdid, src)[i]))
  }

  /** The words of an ancillary packet: data flag, parity-carrying body, checksum. */
  function PayloadWords(did: byte, sdid: byte, src: seq<byte>): (ws: seq<word>)
    requires |src| <= 0xffff
    ensures |ws| == |src| + 7
  {
    [0x000, 0x3ff, 0x3ff] + Body(did, sdid, src) + [Checksum(Body(did, sdid, src))]
  }

  method CreatePayload(sdid: byte, did: byte, src: seq<byte>, bitDepth: int) returns (dst: Option<array<word>>)
    requires |src| <= 0xffff
    ensures dst.None? <==> bitDepth != 10 || sdid == 0 || did == 0 || src == []
    ensures dst.Some? ==> fresh(dst.value) && dst.value[..] == PayloadWords(did, sdid, src)
  {
    if bitDepth != 10 || sdid == 0 || did == 0 || |src| == 0 {
      return None;
    }
    hide Parity, Sum9, WithParity, RawBody, Body, PayloadWords;
    var n := |src|;
    var arr := new word[n + 7](i => 0);
    FillBody(arr, did, sdid, src);
    ghost var raw := arr[3..n + 6];
    assert forall k :: 3 <= k < n + 6 ==> arr[k] == raw[k - 3];
    GenerateParity(arr, 3, n + 6);
    BodyFromRaw(did, sdid, src, arr[3..n + 6]);
    ghost var front := arr[..n + 6];
    var sum := RunningSum(arr, 3, n + 6);
    arr[n + 6] := if sum < 0x100 then sum + 0x200 else sum;
    assert arr[..n + 6] == front;
    Assemble(did, sdid, src, arr[..]);
    return Some(arr);
  }

  lemma BodyFromRaw(did: byte, sdid: byte, src: seq<byte>, b: seq<word>)
    requires |src| <= 0xffff && |b| == |src| + 3
    requires forall k :: 0 <= k < |b| ==> b[k] == WithParity(RawBody(did, sdid, src)[k])
    ensures b == Body(did, sdid, src)
  {
  }

  lemma Assemble(did: byte, sdid: byte, src: seq<byte>, ws: seq<word>)
    requires |src| <= 0xffff && |ws| == |src| + 7
    requires ws[..|src| + 6][..3] == [0x000, 0x3ff, 0x3ff]
    requires ws[..|src| + 6][3..] == Body(did, sdid, src)
    requires ws[|src| + 6] == Checksum(Body(did, sdid, src))
    ensures ws == PayloadWords(did, sdid, src)
  {
    var front := ws[..|src| + 6];
    assert front == front[..3] + front[3..];
    assert ws == front + [ws[|src| + 6]];
  }

  /** The data flag, DID, SDID, count and bytes, before parity. */
  method FillBody(arr: array<word>, did: byte, sdid: byte, src: seq<byte>)
    requires |src| <= 0xffff && arr.Length == |src| + 7
    modifies arr
    ensures arr[..3] == [0x000, 0x3ff, 0x3ff]
    ensures arr[3..|src| + 6] == RawBody(did, sdid, src)
  {
    arr[0], arr[1], arr[2], arr[3], arr[4], arr[5] := 0x000, 0x3ff, 0x3ff, did, sdid, |src|;
    for i := 0 to |src|
      invariant arr[..6] == [0x000, 0x3ff, 0x3ff, did, sdid, |src|]
      invariant forall k :: 0 <= k < i ==> arr[6 + k] == src[k]
    {
      arr[6 + i] := src[i];
    }
    assert arr[..3] == arr[..6][..3];
    forall k | 0 <= k < |src| + 3
      ensures arr[3 + k] == RawBody(did, sdid, src)[k]
    {
      assert k < 3 ==> arr[3 + k] == arr[..6][3 + k];
      assert k >= 3 ==> arr[6 + (k - 3)] == src[k - 3];
    }
  }

  /** The in-place parity pass of CreatePayload. */
  method GenerateParity(arr: array<word>, from: nat, to: nat)
    requires from <= to <= arr.Length
    modifies arr
    ensures forall k :: from <= k < to ==> arr[k] == WithParity(old(arr[k]))
    ensures forall k :: 0 <= k < from || to <= k < arr.Length ==> arr[k] == old(arr[k])
  {
    for i := from to to
      invariant forall k :: from <= k < i ==> arr[k] == WithParity(old(arr[k]))
      invariant forall k :: 0 <= k < from || i <= k < arr.Length ==> arr[k] == old(arr[k])
    {
      if Parity(arr[i]) == 1 {
        arr[i] := if (arr[i] / 0x100) % 2 == 1 then arr[i] else arr[i] + 0x100;
      } else {
        arr[i] := if (arr[i] / 0x200) % 2 == 1 then arr[i] else arr[i] + 0x200;
      }
    }
  }

  /** The running checksum of CreatePayload. */
  method RunningSum(arr: array<word>, from: nat, to: nat) returns (sum: word)
    requires from <= to <= arr.Length
    ensures sum == Sum9(arr[from..to])
  {
    sum := 0;
    for i := from to to
      invariant sum == Sum9(arr[from..i])
    {
      assert arr[from..i + 1][..i - from] == arr[from..i];
      sum := ((sum + arr[i]) % 0x1_0000) % 0x200;
    }
  }

  // ---- finding a packet -------------------------------------------------------------------

  datatype PacketType = Undefined | Afd | Eia708B | Eia608 | Scte104 | KlCounter | Sdp | Smpte12_2 | Smpte2108_1

  datatype TypeEntry = TypeEntry(did: word, sdid: word, kind: PacketType)

  /** The packets there is a decoder for. */
  const TYPES: seq<TypeEntry> := [
    TypeEntry(0x40, 0xfe, KlCounter), TypeEntry(0x41, 0x05, Afd), TypeEntry(0x41, 0x07, Scte104),
    TypeEntry(0x60, 0x60, Smpte12_2), TypeEntry(0x41, 0x0c, Smpte2108_1), TypeEntry(0x61, 0x01, Eia708B),
    TypeEntry(0x61, 0x02, Eia608), TypeEntry(0x43, 0x02, Sdp)]

  function TypeOf(did: word, sdid: word): PacketType
  {
    if did == 0x41 then
      if sdid == 0x05 then Afd else if sdid == 0x07 then Scte104 else if sdid == 0x0c then Smpte2108_1 else Undefined
    else if did == 0x61 then if sdid == 0x01 then Eia708B else if sdid == 0x02 then Eia608 else Undefined
    else if did == 0x40 && sdid == 0xfe then KlCounter
    else if did == 0x60 && sdid == 0x60 then Smpte12_2
    else if did == 0x43 && sdid == 0x02 then Sdp
    else Undefined
  }

  /** The registered identifiers, and nothing else, have a type. */
  lemma KindsByIdentifier(did: word, sdid: word)
    ensures TypeOf(0x61, 0x01) == Eia708B && TypeOf(0x61, 0x02) == Eia608 && TypeOf(0x41, 0x07) == Scte104
    ensures TypeOf(0x41, 0x05) == Afd && TypeOf(0x41, 0x0c) == Smpte2108_1 && TypeOf(0x60, 0x60) == Smpte12_2
    ensures TypeOf(0x43, 0x02) == Sdp && TypeOf(0x40, 0xfe) == KlCounter
    ensures TypeOf(did, sdid) != Undefined <==>
      (did, sdid) in {(0x61, 0x01), (0x61, 0x02), (0x41, 0x05), (0x41, 0x07), (0x41, 0x0c), (0x60, 0x60),
                      (0x43, 0x02), (0x40, 0xfe)}
  {
  }

  /** The first entry that matches decides; no entry, no type. */
  method LookupTypeByDid(did: word, sdid: word) returns (kind: PacketType)
    ensures kind == TypeOf(did, sdid)
    ensures kind == Undefined <==> forall i :: 0 <= i < |TYPES| ==> TYPES[i].did != did || TYPES[i].sdid != sdid
  {
    var i := 0;
    while i < |TYPES|
      invariant 0 <= i <= |TYPES|
      invariant forall k :: 0 <= k < i ==> TYPES[k].did != did || TYPES[k].sdid != sdid
    {
      if TYPES[i].did == did && TYPES[i].sdid == sdid {
        return TYPES[i].kind;
      }
      i := i + 1;
    }
    assert TYPES[0].did == 0x40 && TYPES[1].did == 0x41 && TYPES[2].did == 0x41 && TYPES[3].did == 0x60;
    assert TYPES[4].did == 0x41 && TYPES[5].did == 0x61 && TYPES[6].did == 0x61 && TYPES[7].did == 0x43;
    return Undefined;
  }

  datatype Header = Header(
    kind: PacketType, adf: seq<word>, did: word, sdid: word, payload: seq<word>, checksum: word,
    checksumValid: bool, horizontalOffset: nat, lineNr: nat)

  /** An ancillary data flag with more than a minimal packet behind it. */
  predicate IsValidHeader(arr: seq<word>)
  {
    |arr| > 7 && arr[0] < 3 && (arr[1] / 4) % 256 == 255 && (arr[2] / 4) % 256 == 255
  }

  /** The packet that starts here lies wholly on the line. */
  predicate IsComplete(arr: seq<word>)
  {
    IsValidHeader(arr) ==> arr[5] % 256 + 7 <= |arr|
  }

  function ParseHeader(arr: seq<word>, offset: nat, lineNr: nat): Header
    requires IsValidHeader(arr) && IsComplete(arr)
  {
    var n := arr[5] % 256;
    Header(TypeOf(arr[3] % 256, arr[4] % 256), arr[..3], arr[3] % 256, arr[4] % 256, arr[6..6 + n], arr[6 + n],
           Checksum(arr[3..6 + n]) == arr[6 + n], offset % 0x1_0000, lineNr)
  }

  /** Every packet the scanner stops at is complete. */
  predicate ScanComplete(arr: seq<word>, i: nat)
    decreases |arr| - i
  {
    i + 7 < |arr| ==>
      IsComplete(arr[i..]) && ScanComplete(arr, if IsValidHeader(arr[i..]) then i + 7 else i + 1)
  }

  /** What the scanner reports from position i on. */
  function Scan(arr: seq<word>, i: nat, lineNr: nat): (hs: seq<Header>)
    requires ScanComplete(arr, i)
    decreases |arr| - i
  {
    if i + 7 >= |arr| then []
    else if IsValidHeader(arr[i..]) then [ParseHeader(arr[i..], i, lineNr)] + Scan(arr, i + 7, lineNr)
    else Scan(arr, i + 1, lineNr)
  }

  /** The headers the application is called back with. */
  function Delivered(hs: seq<Header>, allowBad: bool): seq<Header>
  {
    if hs == [] then [] else
    var earlier, last := Delivered(hs[..|hs| - 1], allowBad), hs[|hs| - 1];
    if last.checksumValid || allowBad then earlier + [last] else earlier
  }

  /** The headers a decoder is called with: those delivered that have a type. */
  function Decoded(hs: seq<Header>, allowBad: bool): seq<Header>
  {
    if hs == [] then [] else
    var earlier, last := Decoded(hs[..|hs| - 1], allowBad), hs[|hs| - 1];
    if (last.checksumValid || allowBad) && last.kind != Undefined then earlier + [last] else earlier
  }

  function Failures(hs: seq<Header>): nat
  {
    if hs == [] then 0 else Failures(hs[..|hs| - 1]) + (if hs[|hs| - 1].checksumValid then 0 else 1)
  }

  lemma Append(hs: seq<Header>, h: Header, rest: seq<Header>, allowBad: bool)
    ensures hs + ([h] + rest) == (hs + [h]) + rest
    ensures Delivered(hs + [h], allowBad)
      == Delivered(hs, allowBad) + (if h.checksumValid || allowBad then [h] else [])
    ensures Decoded(hs + [h], allowBad)
      == Decoded(hs, allowBad) + (if (h.checksumValid || allowBad) && h.kind != Undefined then [h] else [])
    ensures Failures(hs + [h]) == Failures(hs) + Failures([h])
  {
    assert (hs + [h])[..|hs|] == hs && [h][..0] == [];
  }

  /** Each header counts for itself, in order: a valid one is delivered, an invalid one is a failure and delivered
      only if bad checksums are allowed, and of those delivered the ones with a type are decoded. */
  lemma {:induction false} EachForItself(hs: seq<Header>, h: Header, more: seq<Header>, allowBad: bool)
    ensures Delivered(hs + [h] + more, allowBad) == Delivered(hs, allowBad)
      + (if h.checksumValid then [h] else if allowBad then [h] else []) + Delivered(more, allowBad)
    ensures Decoded(hs + [h] + more, allowBad) == Decoded(hs, allowBad)
      + (if h.kind == Undefined then [] else Delivered([h], allowBad)) + Decoded(more, allowBad)
    ensures Failures(hs + [h] + more) == Failures(hs) + (if h.checksumValid then 0 else 1) + Failures(more)
    decreases |more|
  {
    hide Delivered, Decoded, Failures;
    OneHeader(h, allowBad);
    NothingFound(allowBad);
    if more == [] {
      assert hs + [h] + [] == hs + [h] && [] + [h] == [h];
      LastHeader(hs, h, allowBad);
    } else {
      var n := |more| - 1;
      EachForItself(hs, h, more[..n], allowBad);
      LastHeader(hs + [h] + more[..n], more[n], allowBad);
      LastHeader(more[..n], more[n], allowBad);
      assert more == more[..n] + [more[n]] && hs + [h] + more == (hs + [h] + more[..n]) + [more[n]];
    }
  }

  lemma LastHeader(hs: seq<Header>, h: Header, allowBad: bool)
    ensures Delivered(hs + [h], allowBad) == Delivered(hs, allowBad) + Delivered([h], allowBad)
    ensures Decoded(hs + [h], allowBad) == Decoded(hs, allowBad) + Decoded([h], allowBad)
    ensures Failures(hs + [h]) == Failures(hs) + Failures([h])
  {
    assert (hs + [h])[..|hs|] == hs && [h][..0] == [];
  }

  lemma OneHeader(h: Header, allowBad: bool)
    ensures Delivered([h], allowBad) == if h.checksumValid || allowBad then [h] else []
    ensures Decoded([h], allowBad) == if h.kind == Undefined then [] else Delivered([h], allowBad)
    ensures Failures([h]) == if h.checksumValid then 0 else 1
  {
    assert [h][..0] == [];
  }

  lemma NothingFound(allowBad: bool)
    ensures Delivered([], allowBad) == [] && Decoded([], allowBad) == [] && Failures([]) == 0
  {
  }

  lemma EveryTypeListed(kind: PacketType)
    requires forall k :: 0 <= k < |TYPES| ==> TYPES[k].kind != kind
    ensures kind == Undefined
  {
    assert TYPES[0].kind == KlCounter && TYPES[1].kind == Afd && TYPES[2].kind == Scte104;
    assert TYPES[3].kind == Smpte12_2 && TYPES[4].kind == Smpte2108_1 && TYPES[5].kind == Eia708B;
    assert TYPES[6].kind == Eia608 && TYPES[7].kind == Sdp;
  }

  class VancContext {
    var allowBadChecksums: bool
    var checksumFailures: nat
    var cached: seq<Header>      // every header handed to the cache
    var delivered: seq<Header>   // every header handed to the application
    var decoded: seq<Header>     // every header handed to the decoder of its type

    constructor ()
      ensures !allowBadChecksums && checksumFailures == 0 && cached == [] && delivered == [] && decoded == []
    {
      allowBadChecksums, checksumFailures, cached, delivered, decoded := false, 0, [], [], [];
    }

    /** The decoder of the header's type, if there is one. */
    method ParseByType(h: Header) returns (ret: int)
      modifies `decoded
      ensures decoded == if h.kind == Undefined then old(decoded) else old(decoded) + [h]
      ensures ret == if h.kind == Undefined then -22 else 0
    {
      for i := 0 to |TYPES|
        invariant decoded == old(decoded)
        invariant forall k :: 0 <= k < i ==> TYPES[k].kind != h.kind
      {
        if TYPES[i].kind == h.kind {
          decoded := decoded + [h];
          return 0;
        }
      }
      EveryTypeListed(h.kind);
      return -22;
    }

    /** raw is the copy kept of the rest of the line. */
    method ParseOne(arr: array<word>, i: nat, lineNr: nat) returns (hdr: Option<Header>, raw: seq<word>)
      requires i <= arr.Length && IsComplete(arr[i..])
      modifies `checksumFailures
      ensures hdr.Some? <==> IsValidHeader(arr[i..])
      ensures hdr.Some? ==> hdr.value == ParseHeader(arr[i..], i, lineNr) && raw == arr[i..]
      ensures checksumFailures == old(checksumFailures) + (if hdr.Some? then Failures([hdr.value]) else 0)
    {
      if !(arr.Length - i > 7 && arr[i] < 3 && (arr[i + 1] / 4) % 256 == 255 && (arr[i + 2] / 4) % 256 == 255) {
        return None, [];
      }
      raw := arr[i..];
      var n := arr[i + 5] % 256;
      var payload := [];
      for k := 0 to n
        invariant payload == arr[i + 6..i + 6 + k]
      {
        payload := payload + [arr[i + 6 + k]];
      }
      var valid := ChecksumIsValid(arr, i + 3, n + 4);
      assert arr[i..][3..6 + n] == arr[i + 3..i + 6 + n];
      assert arr[i..][6..6 + n] == arr[i + 6..i + 6 + n];
      if !valid {
        checksumFailures := checksumFailures + 1;
      }
      var kind := LookupTypeByDid(arr[i + 3] % 256, arr[i + 4] % 256);
      var adf := [arr[i], arr[i + 1], arr[i + 2]];
      assert adf == arr[i..][..3];
      var h := Header(kind, adf, arr[i + 3] % 256, arr[i + 4] % 256, payload, arr[i + 6 + n], valid,
                      i % 0x1_0000, lineNr);
      assert [h][..0] == [];
      return Some(h), raw;
    }

    /** Walks a whole line. A negative result is an error. */
    method PacketParse(lineNr: nat, arr: array<word>) returns (attempts: int)
      requires arr.Length == 0 || arr.Length >= 7
      requires ScanComplete(arr[..], 0)
      modifies this
      ensures allowBadChecksums == old(allowBadChecksums)
      ensures arr.Length == 0 || arr.Length > MAX_PAYLOAD ==>
        attempts == -22 && checksumFailures == old(checksumFailures)
        && cached == old(cached) && delivered == old(delivered) && decoded == old(decoded)
      ensures 0 < arr.Length <= MAX_PAYLOAD ==>
        var found := Scan(arr[..], 0, lineNr);
        && attempts == |found|
        && cached == old(cached) + found
        && delivered == old(delivered) + Delivered(found, allowBadChecksums)
        && decoded == old(decoded) + Decoded(found, allowBadChecksums)
        && checksumFailures == old(checksumFailures) + Failures(found)
    {
      ghost var found: seq<Header> := [];
      NothingFound(allowBadChecksums);
      hide Delivered, Decoded, Failures, ParseHeader, IsComplete;
      attempts := 0;
      if arr.Length == 0 || arr.Length > MAX_PAYLOAD {
        return -22;
      }
      ghost var line := arr[..];
      var i := 0;
      while i < arr.Length - 7
        invariant allowBadChecksums == old(allowBadChecksums)
        invariant ScanComplete(line, i) && attempts == |found|
        invariant found + Scan(line, i, lineNr) == Scan(line, 0, lineNr)
        invariant cached == old(cached) + found
        invariant delivered == old(delivered) + Delivered(found, allowBadChecksums)
        invariant decoded == old(decoded) + Decoded(found, allowBadChecksums)
        invariant checksumFailures == old(checksumFailures) + Failures(found)
      {
        assert line[i..] == arr[i..];
        var hdr, _ := ParseOne(arr, i, lineNr);
        if hdr.None? {
          i := i + 1;
          continue;
        }
        var h := hdr.value;
        attempts := attempts + 1;
        cached := cached + [h];
        if h.checksumValid || allowBadChecksums {
          delivered := delivered + [h];
          var _ := ParseByType(h);
        }
        Append(found, h, Scan(line, i + 7, lineNr), allowBadChecksums);
        found := found + [h];
        i := i + 7;
      }
      assert found + [] == found;
    }
  }

  // ---- a packet made is a packet found ----------------------------------------------------

  /** A packet that can be told apart on a line: the data flag, then only words clear of it. */
  predicate Legal(p: seq<word>)
  {
    && |p| >= 8 && p[0] < 3 && (p[1] / 4) % 256 == 255 && (p[2] / 4) % 256 == 255
    && |p| == p[5] % 256 + 7
    && forall k :: 3 <= k < |p| ==> 3 < p[k] < 0x3fc
  }

  lemma CreatedIsLegal(did: byte, sdid: byte, src: seq<byte>)
    requires 1 <= |src| <= 255
    ensures Legal(PayloadWords(did, sdid, src))
  {
    CreatedRange(did, sdid, src);
  }

  /** Every word after the data flag keeps clear of the reserved values at both ends. */
  lemma CreatedRange(did: byte, sdid: byte, src: seq<byte>)
    requires 1 <= |src| <= 255
    ensures forall k :: 3 <= k < |src| + 7 ==> 0x100 <= PayloadWords(did, sdid, src)[k] < 0x300
  {
  }

  /** The low bytes of a payload: what every decoder takes from it. */
  function LowBytes(ws: seq<word>): (s: seq<byte>)
    ensures |s| == |ws|
  {
    seq(|ws|, i requires 0 <= i < |ws| => ws[i] % 256)
  }

  lemma CountWord(did: byte, sdid: byte, src: seq<byte>)
    requires 1 <= |src| <= 0xffff
    ensures var ws := PayloadWords(did, sdid, src);
      && IsValidHeader(ws) && IsComplete(ws)
      && ws[3] % 256 == did && ws[4] % 256 == sdid && ws[5] % 256 == |src| % 256
  {
    hide WithParity;
  }

  lemma BodyWords(did: byte, sdid: byte, src: seq<byte>)
    requires |src| <= 0xffff
    ensures var ws := PayloadWords(did, sdid, src);
      && ws[3..6 + |src|] == Body(did, sdid, src)
      && ws[6 + |src|] == Checksum(Body(did, sdid, src))
      && LowBytes(ws[6..6 + |src|]) == src
  {
    hide WithParity, Checksum;
    var ws, body := PayloadWords(did, sdid, src), Body(did, sdid, src);
    assert ws[3..6 + |src|] == body;
    assert ws[6..6 + |src|] == body[3..];
    assert LowBytes(body[3..]) == src;
  }

  /** Parsing undoes building exactly up to 255 bytes, the most its count word can express. */
  lemma CreateParseRoundTrip(did: byte, sdid: byte, src: seq<byte>, offset: nat, lineNr: nat)
    requires 1 <= |src| <= 0xffff
    ensures var ws := PayloadWords(did, sdid, src);
      && IsValidHeader(ws) && IsComplete(ws)
      && var h := ParseHeader(ws, offset, lineNr);
      && h.did == did && h.sdid == sdid && h.kind == TypeOf(did, sdid)
      && (LowBytes(h.payload) == src && h.checksumValid <==> |src| <= 255)
  {
    hide Body, PayloadWords, TypeOf;
    CountWord(did, sdid, src);
    BodyWords(did, sdid, src);
    var ws := PayloadWords(did, sdid, src);
    assert |LowBytes(ParseHeader(ws, offset, lineNr).payload)| == |src| % 256;
  }

  /** The count word of 256 bytes reads 0, and none of them comes back. */
  lemma CountWrapsAround()
    ensures var src: seq<byte> := seq(256, i => 7);
      var ws := PayloadWords(0x41, 0x07, src);
      && IsValidHeader(ws) && IsComplete(ws)
      && ParseHeader(ws, 0, 9).payload == []
  {
    hide Body, PayloadWords;
    var src: seq<byte> := seq(256, i => 7);
    CountWord(0x41, 0x07, src);
  }

  /** Any packet that stands complete on a line, whoever made it: every field is the word at its place. */
  lemma ForeignPacket(adf: seq<word>, did: word, sdid: word, count: word, payload: seq<word>, checksum: word,
                      behind: seq<word>, offset: nat, lineNr: nat)
    requires |adf| == 3 && adf[0] < 3 && (adf[1] / 4) % 0x100 == 0xff && (adf[2] / 4) % 0x100 == 0xff
    requires |payload| == count % 0x100 && payload + behind != []
    ensures var ws := adf + [did, sdid, count] + payload + [checksum] + behind;
      && IsValidHeader(ws) && IsComplete(ws)
      && var h := ParseHeader(ws, offset, lineNr);
      && h.adf == adf && h.did == did % 0x100 && h.sdid == sdid % 0x100 && h.payload == payload
      && h.checksum == checksum && h.horizontalOffset == offset % 0x1_0000 && h.lineNr == lineNr
      && h.kind == TypeOf(did % 0x100, sdid % 0x100)
      && (h.checksumValid <==>
            (checksum % 0x200 == Total([did, sdid, count] + payload) % 0x200
             && checksum / 0x200 == 1 - (checksum / 0x100) % 2))
  {
    hide Total, Checksum, TypeOf;
    var body := [did, sdid, count] + payload;
    PacketSlices(adf, did, sdid, count, payload, checksum, behind);
    ChecksumIff(body, checksum);
  }

  lemma PacketSlices(adf: seq<word>, did: word, sdid: word, count: word, payload: seq<word>, checksum: word,
                     behind: seq<word>)
    requires |adf| == 3
    ensures var ws, n := adf + [did, sdid, count] + payload + [checksum] + behind, |payload|;
      && |ws| == n + 7 + |behind| && ws[0] == adf[0] && ws[1] == adf[1] && ws[2] == adf[2]
      && ws[3] == did && ws[4] == sdid && ws[5] == count && ws[6 + n] == checksum
      && ws[..3] == adf && ws[3..6 + n] == [did, sdid, count] + payload && ws[6..6 + n] == payload
  {
  }

  /** What a data flag is, in numbers: three words at the start of at least eight. */
  lemma FlagWords(arr: seq<word>)
    ensures IsValidHeader(arr) <==>
      |arr| >= 8 && arr[0] <= 2 && 0x3fc <= arr[1] % 0x400 && 0x3fc <= arr[2] % 0x400
  {
    if |arr| >= 8 {
      HighBits(arr[1]);
      HighBits(arr[2]);
    }
  }

  lemma HighBits(w: word)
    ensures (w / 4) % 0x100 == 0xff <==> 0x3fc <= w % 0x400
  {
    var q, r := w / 0x400, w % 0x400;
    DivModUnique(w, 4, 0x100 * q + r / 4, r % 4);
    DivModUnique(0x100 * q + r / 4, 0x100, q, r / 4);
  }

  /** The smallest packet of one byte, word for word. */
  lemma KnownPacket()
    ensures PayloadWords(0x41, 0x07, [0x08]) == [0x000, 0x3ff, 0x3ff, 0x241, 0x107, 0x101, 0x108, 0x151]
  {
    KnownParity();
    hide WithParity, Checksum;
    KnownTotal();
    var body := Body(0x41, 0x07, [0x08]);
    assert body == [0x241, 0x107, 0x101, 0x108];
    ChecksumIff(body, 0x151);
  }

  lemma KnownParity()
    ensures WithParity(0x41) == 0x241 && WithParity(0x07) == 0x107
    ensures WithParity(0x01) == 0x101 && WithParity(0x08) == 0x108
  {
    assert Parity(1) == 1;
    assert Parity(2) == 1 && Parity(3) == 0;
    assert Parity(4) == 1 && Parity(7) == 1;
    assert Parity(8) == 1 && Parity(0x10) == 1;
    assert Parity(0x20) == 1 && Parity(0x41) == 0;
  }

  lemma KnownTotal()
    ensures Total([0x241, 0x107, 0x101, 0x108]) == 0x551
  {
    assert [0x241, 0x107, 0x101, 0x108][1..] == [0x107, 0x101, 0x108];
    assert [0x107, 0x101, 0x108][1..] == [0x101, 0x108] && [0x101, 0x108][1..] == [0x108];
  }

  /** A data flag at position j of a line. */
  predicate FlagAt(arr: seq<word>, j: nat)
  {
    j + 7 < |arr| && IsValidHeader(arr[j..])
  }

  /** hs are the packets at the positions ps. */
  predicate FoundAt(arr: seq<word>, ps: seq<nat>, hs: seq<Header>, lineNr: nat)
  {
    |ps| == |hs| && forall k :: 0 <= k < |ps| ==>
      FlagAt(arr, ps[k]) && IsComplete(arr[ps[k]..]) && hs[k] == ParseHeader(arr[ps[k]..], ps[k], lineNr)
  }

  /** In order, from i on, and no two closer than seven words. */
  predicate Spaced(ps: seq<nat>, i: nat)
  {
    (forall k :: 0 <= k < |ps| ==> i <= ps[k]) && forall k, l :: 0 <= k < l < |ps| ==> ps[k] + 7 <= ps[l]
  }

  /** j lies in the seven words that begin at one of the positions. */
  predicate Near(ps: seq<nat>, j: nat)
  {
    exists k :: 0 <= k < |ps| && ps[k] <= j < ps[k] + 7
  }

  lemma FoundFirst(arr: seq<word>, p: nat, h: Header, ps: seq<nat>, hs: seq<Header>, lineNr: nat)
    requires FlagAt(arr, p) && IsComplete(arr[p..]) && h == ParseHeader(arr[p..], p, lineNr)
    requires FoundAt(arr, ps, hs, lineNr)
    ensures FoundAt(arr, [p] + ps, [h] + hs, lineNr)
  {
    hide FlagAt, IsComplete, ParseHeader;
  }

  lemma NearMore(p: nat, ps: seq<nat>, j: nat)
    requires Near(ps, j) || p <= j < p + 7
    ensures Near([p] + ps, j)
  {
    var all := [p] + ps;
    if p <= j < p + 7 {
      assert all[0] == p;
    } else {
      var k :| 0 <= k < |ps| && ps[k] <= j < ps[k] + 7;
      assert all[k + 1] == ps[k];
    }
  }

  /** On any line the scanner reports, in order, packets at the positions ps: no two closer than seven words, and
      every data flag on the line lies in the seven words of one reported. */
  lemma {:induction false} ScanExactly(arr: seq<word>, i: nat, lineNr: nat) returns (ps: seq<nat>)
    requires ScanComplete(arr, i)
    ensures FoundAt(arr, ps, Scan(arr, i, lineNr), lineNr) && Spaced(ps, i)
    ensures forall j :: i <= j && FlagAt(arr, j) ==> Near(ps, j)
    decreases |arr| - i
  {
    hide IsValidHeader, IsComplete, ParseHeader, FoundAt, Near;
    if i + 7 >= |arr| {
      ps := [];
      NoneFound(arr, lineNr);
    } else if IsValidHeader(arr[i..]) {
      var more := ScanExactly(arr, i + 7, lineNr);
      ps := [i] + more;
      FoundFirst(arr, i, ParseHeader(arr[i..], i, lineNr), more, Scan(arr, i + 7, lineNr), lineNr);
      forall j | i <= j && FlagAt(arr, j)
        ensures Near(ps, j)
      {
        NearMore(i, more, j);
      }
    } else {
      ps := ScanExactly(arr, i + 1, lineNr);
    }
  }

  lemma NoneFound(arr: seq<word>, lineNr: nat)
    ensures FoundAt(arr, [], [], lineNr)
  {
  }

  // ---- the scanner on a line of legal packets -----------------------------------------------

  datatype Segment = Filler(words: seq<word>) | Packet(words: seq<word>)

  predicate GoodSegment(s: Segment)
  {
    match s
    case Filler(ws) => forall k :: 0 <= k < |ws| ==> ws[k] >= 3
    case Packet(ws) => Legal(ws)
  }

  predicate GoodSegments(segs: seq<Segment>)
  {
    forall i :: 0 <= i < |segs| ==> GoodSegment(segs[i])
  }

  function LineWords(segs: seq<Segment>): seq<word>
  {
    if segs == [] then [] else segs[0].words + LineWords(segs[1..])
  }

  /** One header per packet, at its true offset. */
  function Expected(segs: seq<Segment>, offset: nat, lineNr: nat): seq<Header>
    requires GoodSegments(segs)
  {
    if segs == [] then []
    else
      var more := Expected(segs[1..], offset + |segs[0].words|, lineNr);
      if segs[0].Packet? then [ParseHeader(segs[0].words, offset, lineNr)] + more else more
  }

  /** Words that cannot start a packet are passed over. */
  lemma {:induction false} SkipQuiet(arr: seq<word>, i: nat, j: nat, lineNr: nat)
    requires i <= j <= |arr| && ScanComplete(arr, j)
    requires forall k :: i <= k < j ==> arr[k] >= 3
    ensures ScanComplete(arr, i) && Scan(arr, i, lineNr) == Scan(arr, j, lineNr)
    decreases j - i
  {
    if i == j || i + 7 >= |arr| {
    } else {
      SkipQuiet(arr, i + 1, j, lineNr);
      assert arr[i..][0] == arr[i];
    }
  }

  /** A legal packet is recognised whatever follows it. */
  lemma HeaderAt(p: seq<word>, rest: seq<word>, i: nat, lineNr: nat)
    requires Legal(p)
    ensures IsValidHeader(p + rest) && IsComplete(p + rest)
    ensures ParseHeader(p + rest, i, lineNr) == ParseHeader(p, i, lineNr)
  {
    var s := p + rest;
    var n := p[5] % 256;
    assert s[6..6 + n] == p[6..6 + n] && s[3..6 + n] == p[3..6 + n] && s[..3] == p[..3];
  }

  lemma LegalAhead(before: seq<word>, p: seq<word>, rest: seq<word>, lineNr: nat)
    requires Legal(p) && ScanComplete(before + p + rest, |before| + |p|)
    ensures ScanComplete(before + p + rest, |before|)
    ensures Scan(before + p + rest, |before|, lineNr)
      == [ParseHeader(p, |before|, lineNr)] + Scan(before + p + rest, |before| + |p|, lineNr)
  {
    var arr, i := before + p + rest, |before|;
    assert arr[i..] == p + rest;
    HeaderAt(p, rest, i, lineNr);
    assert forall k :: i + 7 <= k < i + |p| ==> arr[k] == p[k - i];
    SkipQuiet(arr, i + 7, i + |p|, lineNr);
  }

  lemma FillerAhead(before: seq<word>, ws: seq<word>, rest: seq<word>, lineNr: nat)
    requires GoodSegment(Filler(ws)) && ScanComplete(before + ws + rest, |before| + |ws|)
    ensures ScanComplete(before + ws + rest, |before|)
    ensures Scan(before + ws + rest, |before|, lineNr) == Scan(before + ws + rest, |before| + |ws|, lineNr)
  {
    var arr, i := before + ws + rest, |before|;
    assert forall k :: i <= k < i + |ws| ==> arr[k] == ws[k - i];
    SkipQuiet(arr, i, i + |ws|, lineNr);
  }

  lemma SegmentAhead(before: seq<word>, seg: Segment, rest: seq<word>, lineNr: nat)
    requires GoodSegment(seg)
    requires ScanComplete((before + seg.words) + rest, |before + seg.words|)
    ensures var line := before + (seg.words + rest);
      && ScanComplete(line, |before|)
      && line == (before + seg.words) + rest
      && var later := Scan(line, |before + seg.words|, lineNr);
      && Scan(line, |before|, lineNr)
         == if seg.Packet? then [ParseHeader(seg.words, |before|, lineNr)] + later else later
  {
    hide ScanComplete, Scan, ParseHeader;
    Associate(before, seg.words, rest);
    if seg.Packet? {
      LegalAhead(before, seg.words, rest, lineNr);
    } else {
      FillerAhead(before, seg.words, rest, lineNr);
    }
  }

  lemma {:induction false} ScanFrom(before: seq<word>, segs: seq<Segment>, lineNr: nat)
    requires GoodSegments(segs)
    ensures ScanComplete(before + LineWords(segs), |before|)
    ensures Scan(before + LineWords(segs), |before|, lineNr) == Expected(segs, |before|, lineNr)
    decreases |segs|
  {
    hide ScanComplete, Scan, Legal, ParseHeader;
    if segs == [] {
      NothingAhead(before, lineNr);
    } else {
      assert GoodSegment(segs[0]) && GoodSegments(segs[1..]);
      hide GoodSegment;
      ScanFrom(before + segs[0].words, segs[1..], lineNr);
      SegmentAhead(before, segs[0], LineWords(segs[1..]), lineNr);
    }
  }

  lemma Associate(a: seq<word>, b: seq<word>, c: seq<word>)
    ensures a + (b + c) == a + b + c && |a + b| == |a| + |b|
  {
  }

  lemma NothingAhead(before: seq<word>, lineNr: nat)
    ensures ScanComplete(before + [], |before|) && Scan(before + [], |before|, lineNr) == []
  {
  }

  /** One decode per packet, at its true offset, and nothing else. */
  lemma ScannerSoundAndComplete(segs: seq<Segment>, lineNr: nat)
    requires GoodSegments(segs)
    ensures ScanComplete(LineWords(segs), 0)
    ensures Scan(LineWords(segs), 0, lineNr) == Expected(segs, 0, lineNr)
  {
    assert [] + LineWords(segs) == LineWords(segs);
    ScanFrom([], segs, lineNr);
  }

  /** A created packet among filler words is the one packet found, delivered and decoded, whatever surrounds it. */
  lemma CreatedOnLine(did: byte, sdid: byte, src: seq<byte>, before: seq<word>, behind: seq<word>, lineNr: nat,
                      allowBad: bool)
    requires 1 <= |src| <= 255 && TypeOf(did, sdid) != Undefined
    requires GoodSegment(Filler(before)) && GoodSegment(Filler(behind))
    ensures var ws := PayloadWords(did, sdid, src);
      && IsValidHeader(ws) && IsComplete(ws)
      && var line := before + ws + behind;
      && ScanComplete(line, 0)
      && Decoded(Scan(line, 0, lineNr), allowBad) == [ParseHeader(ws, |before|, lineNr)]
  {
    hide Legal, PayloadWords, ParseHeader, IsComplete, IsValidHeader, ScanComplete, Scan, TypeOf, Delivered, Decoded;
    var ws := PayloadWords(did, sdid, src);
    CreatedIsLegal(did, sdid, src);
    CreateParseRoundTrip(did, sdid, src, |before|, lineNr);
    var h := ParseHeader(ws, |before|, lineNr);
    var segs := [Filler(before), Packet(ws), Filler(behind)];
    ThreeSegments(before, ws, behind, lineNr);
    ScannerSoundAndComplete(segs, lineNr);
    OneHeader(h, allowBad);
  }

  lemma ThreeSegments(before: seq<word>, ws: seq<word>, behind: seq<word>, lineNr: nat)
    requires Legal(ws) && GoodSegment(Filler(before)) && GoodSegment(Filler(behind))
    requires IsValidHeader(ws) && IsComplete(ws)
    ensures var segs := [Filler(before), Packet(ws), Filler(behind)];
      && GoodSegments(segs) && LineWords(segs) == before + ws + behind
      && Expected(segs, 0, lineNr) == [ParseHeader(ws, |before|, lineNr)]
  {
    hide Legal, ParseHeader, IsComplete, IsValidHeader;
    var two, one := [Packet(ws), Filler(behind)], [Filler(behind)];
    var segs := [Filler(before), Packet(ws), Filler(behind)];
    assert segs[1..] == two && two[1..] == one && one[1..] == [];
    assert LineWords(one) == behind && LineWords(two) == ws + behind;
    assert Expected(one, |before| + |ws|, lineNr) == [];
  }
}

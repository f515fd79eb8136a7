/** Block copies between arrays. */
module Memory {
  import opened Bits

  /** d with src over the bytes from position at on. */
  function Patch(d: seq<byte>, at: nat, src: seq<byte>): (r: seq<byte>)
    requires at + |src| <= |d|
    ensures |r| == |d|
  {
    d[..at] + src + d[at + |src|..]
  }

  /** memcpy */
  method CopyInto(dst: array<byte>, at: nat, src: seq<byte>)
    requires at + |src| <= dst.Length
    modifies dst
    ensures dst[..] == Patch(old(dst[..]), at, src)
  {
    for i := 0 to |src|
      invariant forall k :: 0 <= k < i ==> dst[at + k] == src[k]
      invariant forall k :: 0 <= k < at || at + i <= k < dst.Length ==> dst[k] == old(dst[k])
    {
      dst[at + i] := src[i];
    }
    assert dst[at..at + |src|] == src;
    assert dst[..] == dst[..at] + dst[at..at + |src|] + dst[at + |src|..];
  }

  /** memset to 0xff */
  method FillWithStuffing(dst: array<byte>, at: nat, n: nat)
    requires at + n <= dst.Length
    modifies dst
    ensures dst[..] == Patch(old(dst[..]), at, Stuffing(n))
  {
    for i := 0 to n
      invariant forall k :: at <= k < at + i ==> dst[k] == 0xff
      invariant forall k :: 0 <= k < at || at + i <= k < dst.Length ==> dst[k] == old(dst[k])
    {
      dst[at + i] := 0xff;
    }
    StuffingAt(n);
    assert dst[at..at + n] == Stuffing(n);
    assert dst[..] == dst[..at] + dst[at..at + n] + dst[at + n..];
  }

  lemma PatchOne(d: seq<byte>, at: nat, src: seq<byte>, k: nat, x: byte)
    requires at + |src| <= |d| && k < |src|
    ensures Patch(d, at, src)[at + k := x] == Patch(d, at, src[k := x])
  {
  }

  lemma PatchTwice(d: seq<byte>, at: nat, a: seq<byte>, b: seq<byte>)
    requires at + |a| + |b| <= |d|
    ensures Patch(Patch(d, at, a), at + |a|, b) == Patch(d, at, a + b)
  {
  }

  lemma {:induction false} StuffingAt(n: nat)
    ensures forall k :: 0 <= k < n ==> Stuffing(n)[k] == 0xff
  {
    if n == 0 {
    } else {
      StuffingAt(n - 1);
    }
  }
}

/** A growing byte ring that behaves as a queue. */
module RingBuffers {
  import opened Bits
  import opened Memory

  // ---- where the bytes are ------------------------------------------------------------------

  /** fill bytes from head on, around the end of the storage if need be. */
  function Window(d: seq<byte>, head: nat, fill: nat): (q: seq<byte>)
    requires head < |d| && fill <= |d|
    ensures |q| == fill
  {
    if head + fill <= |d| then d[head..head + fill] else d[head..] + d[..head + fill - |d|]
  }

  function Index(i: nat, size: nat): nat
    requires size > 0
  {
    i % size
  }

  /** The indices of a ring; they never depend on the bytes in it. */
  datatype Shape = Shape(size: nat, head: nat, fill: nat, sizeMax: nat, sizeInitial: nat)
  {
    predicate Valid()
    {
      0 < sizeInitial <= size && head < size && fill <= size
    }

    predicate MustGrow(n: nat)
    {
      n > size - fill
    }

    predicate Refused(n: nat)
    {
      MustGrow(n) && size + 128 * n > sizeMax
    }

    /** A write of the whole capacity from a nonzero head would run over the end of the storage. */
    predicate InBounds(n: nat)
    {
      MustGrow(n) || n < size || head == 0
    }

    /** Growth does not move what has wrapped around. */
    predicate WriteAllowed(n: nat)
    {
      InBounds(n) && (MustGrow(n) ==> Refused(n) || head + fill <= size)
    }

    function AfterWrite(n: nat): Shape
      requires Valid()
    {
      if Refused(n) then this
      else if MustGrow(n) then this.(size := size + 128 * n, fill := fill + n)
      else this.(fill := fill + n)
    }

    function AfterRead(n: nat): (s: Shape)
      requires Valid()
    {
      var k := if n > fill then fill else n;
      if k == 0 then this
      else if fill == k && size > sizeInitial then this.(size := sizeInitial, head := 0, fill := 0)
      else this.(head := Index(head + k, size), fill := fill - k)
    }
  }

  class RingBuffer {
    var data: array<byte>
    var size: nat
    var sizeMax: nat
    var sizeInitial: nat
    var head: nat
    var fill: nat

    ghost predicate Valid()
      reads this
    {
      data.Length == size && State().Valid()
    }

    ghost function State(): Shape
      reads this
    {
      Shape(size, head, fill, sizeMax, sizeInitial)
    }

    ghost function Contents(): (q: seq<byte>)
      requires Valid()
      reads this, data
      ensures |q| == fill
    {
      Window(data[..], head, fill)
    }

    constructor (initial: nat, max: nat)
      requires 0 < initial <= max
      ensures Valid() && fresh(data) && Contents() == []
      ensures State() == Shape(initial, 0, 0, max, initial)
    {
      data := new byte[initial];
      size, sizeInitial, sizeMax, head, fill := initial, initial, max, 0, 0;
    }

    /** realloc to a larger block: the old bytes stay, the new ones are arbitrary. */
    method Grow(increment: nat) returns (ret: int)
      requires Valid()
      modifies `data, `size
      ensures Valid() && (data == old(data) || fresh(data))
      ensures ret < 0 <==> old(size) + increment > sizeMax
      ensures ret < 0 ==> data == old(data) && size == old(size)
      ensures ret >= 0 ==> size == old(size) + increment && data[..old(size)] == old(data[..])
    {
      if size + increment > sizeMax {
        return -2;
      }
      var bigger := new byte[size + increment];
      CopyInto(bigger, 0, data[..]);
      data, size := bigger, size + increment;
      return 0;
    }

    method ShrinkReset()
      requires Valid()
      modifies `data, `size, `head, `fill
      ensures Valid() && fresh(data) && State() == Shape(sizeInitial, 0, 0, sizeMax, sizeInitial)
    {
      var smaller := new byte[sizeInitial];
      CopyInto(smaller, 0, data[..sizeInitial]);
      data, size, head, fill := smaller, sizeInitial, 0, 0;
    }

    /** junk is what realloc left in the new part of the storage; unless growth hit wrapped contents, none of it
        shows. */
    method Write(from: seq<byte>) returns (written: nat, ghost junk: seq<byte>)
      requires Valid() && State().InBounds(|from|)
      modifies this, data
      ensures Valid() && (data == old(data) || fresh(data))
      ensures State() == old(State()).AfterWrite(|from|)
      ensures written == if old(State()).Refused(|from|) then 0 else |from|
      ensures old(State()).Refused(|from|) ==> Contents() == old(Contents())
      ensures !old(State()).Refused(|from|) ==>
        Contents() == Window(old(data[..]) + junk, old(head), old(fill)) + from
      ensures !old(State()).Refused(|from|) && old(State()).WriteAllowed(|from|) ==>
        Contents() == old(Contents()) + from
      ensures |junk| == if old(State()).MustGrow(|from|) && !old(State()).Refused(|from|) then 128 * |from| else 0
    {
      hide Window;
      ghost var before := data[..];
      junk := [];
      assert before + [] == before;
      if |from| > size - fill {
        var r := Grow(|from| * 128);
        if r < 0 {
          return 0, junk;
        }
        junk := data[|before|..];
        assert data[..] == before + junk;
        if head + fill <= |before| {
          GrownWindow(before, data[..], head, fill);
        }
      }
      PutAt(from);
      written := |from|;
    }

    /** The copy into free space, in one piece or around the end. */
    method PutAt(from: seq<byte>)
      requires Valid() && |from| <= size - fill && (|from| < size || head == 0)
      modifies `fill, data
      ensures Valid() && fill == old(fill) + |from|
      ensures Contents() == old(Contents()) + from
    {
      hide Window, Index, Patch;
      ghost var before := data[..];
      var tail, writeEnd := Index(head + fill, size), Index(head + fill + |from|, size);
      Wraps(head, fill, size);
      Wraps(head, fill + |from|, size);
      if tail <= writeEnd {
        CopyInto(data, tail, from);
        WindowOnce(before, head, fill, from);
      } else {
        var firstWrite := size - tail;
        CopyInto(data, tail, from[..firstWrite]);
        CopyInto(data, 0, from[firstWrite..]);
        WindowTwice(before, head, fill, from);
      }
      fill := fill + |from|;
    }

    method Reader(n: nat, advance: bool) returns (to: seq<byte>)
      requires Valid()
      modifies `data, `size, `head, `fill
      ensures Valid() && (data == old(data) || fresh(data))
      ensures to == old(Contents())[..if n > old(fill) then old(fill) else n]
      ensures Contents() == if advance then old(Contents())[|to|..] else old(Contents())
      ensures State() == if advance then old(State()).AfterRead(n) else old(State())
    {
      hide Window, Index;
      var bytes := if n > fill then fill else n;
      if bytes == 0 {
        return [];
      }
      var endRead := Index(head + bytes, size);
      Wraps(head, bytes, size);
      if endRead <= head {
        var firstRead := size - head;
        to := data[head..] + data[..bytes - firstRead];
      } else {
        to := data[head..head + bytes];
      }
      WindowFront(data[..], head, fill, bytes);
      if advance {
        head := endRead;
        fill := fill - bytes;
      }
      if fill == 0 && size > sizeInitial {
        ShrinkReset();
      }
    }

    method Read(n: nat) returns (to: seq<byte>)
      requires Valid()
      modifies `data, `size, `head, `fill
      ensures Valid() && (data == old(data) || fresh(data))
      ensures to == old(Contents())[..if n > old(fill) then old(fill) else n]
      ensures Contents() == old(Contents())[|to|..]
      ensures State() == old(State()).AfterRead(n)
    {
      to := Reader(n, true);
    }

    method Peek(n: nat) returns (to: seq<byte>)
      requires Valid()
      modifies `data, `size, `head, `fill
      ensures Valid() && (data == old(data) || fresh(data))
      ensures to == Contents()[..if n > fill then fill else n]
      ensures Contents() == old(Contents()) && State() == old(State())
    {
      to := Reader(n, false);
    }
  }

  /** A ring is made for a nonzero size within its limit, and not otherwise. */
  method NewRing(size: nat, sizeMax: nat) returns (rb: RingBuffer?)
    ensures rb == null <==> size == 0 || size > sizeMax
    ensures rb != null ==> fresh(rb) && fresh(rb.data) && rb.Valid() && rb.Contents() == []
    ensures rb != null ==> rb.State() == Shape(size, 0, 0, sizeMax, size)
  {
    if size == 0 || size > sizeMax {
      return null;
    }
    rb := new RingBuffer(size, sizeMax);
  }

  // ---- index arithmetic ---------------------------------------------------------------------

  lemma Wraps(head: nat, n: nat, size: nat)
    requires head < size && n <= size
    ensures Index(head + n, size) == if head + n < size then head + n else head + n - size
  {
    if head + n < size {
    } else {
      DivModUnique(head + n, size, 1, head + n - size);
    }
  }

  lemma GrownWindow(d: seq<byte>, bigger: seq<byte>, head: nat, fill: nat)
    requires head < |d| && head + fill <= |d| <= |bigger| && bigger[..|d|] == d
    ensures Window(bigger, head, fill) == Window(d, head, fill)
  {
    assert forall k :: 0 <= k < |d| ==> bigger[k] == bigger[..|d|][k];
    assert bigger[head..head + fill] == d[head..head + fill];
  }

  /** Written behind unwrapped contents, up to the end at most. */
  lemma WindowUnwrapped(d: seq<byte>, head: nat, tail: nat, from: seq<byte>)
    requires head <= tail < |d| && tail + |from| <= |d|
    ensures Window(Patch(d, tail, from), head, tail - head + |from|) == Window(d, head, tail - head) + from
  {
    var p := Patch(d, tail, from);
    assert p[head..tail + |from|] == d[head..tail] + from;
  }

  lemma FrontAndBack(x: seq<byte>, y: seq<byte>, at: nat)
    requires |x| <= at <= |x| + |y|
    ensures (x + y)[at..] == y[at - |x|..] && (x + y)[..|x|] == x
  {
  }

  /** Written behind wrapped contents, up to the head at most. */
  lemma WindowWrapped(d: seq<byte>, head: nat, tail: nat, from: seq<byte>)
    requires tail + |from| <= head < |d|
    ensures Window(Patch(d, tail, from), head, |d| - head + tail + |from|) == Window(d, head, |d| - head + tail) + from
  {
    var p, x, y := Patch(d, tail, from), d[..tail] + from, d[tail + |from|..];
    FrontAndBack(x, y, head);
    WindowTail(p, head, tail + |from|);
    WindowTail(d, head, tail);
    hide Window, Patch;
    assert y[head - |x|..] == d[head..];
    assert (d[head..] + d[..tail]) + from == d[head..] + x;
  }

  /** Contents that reach the end of the storage and n bytes into its front. */
  lemma WindowTail(d: seq<byte>, head: nat, n: nat)
    requires n <= head < |d|
    ensures Window(d, head, |d| - head + n) == d[head..] + d[..n]
  {
    if n == 0 {
      assert d[head..|d|] == d[head..] && d[..0] == [];
    }
  }

  /** The single copy, in any case. */
  lemma WindowOnce(d: seq<byte>, head: nat, fill: nat, from: seq<byte>)
    requires head < |d| && fill + |from| <= |d| && (|from| < |d| || head == 0)
    requires head + fill < |d| ==> (head + fill + |from| < |d| || head + fill == 0 || from == [])
    ensures var tail := if head + fill < |d| then head + fill else head + fill - |d|;
      && tail + |from| <= |d|
      && Window(Patch(d, tail, from), head, fill + |from|) == Window(d, head, fill) + from
  {
    hide Window, Patch;
    if head + fill < |d| {
      WindowUnwrapped(d, head, head + fill, from);
    } else {
      WindowWrapped(d, head, head + fill - |d|, from);
    }
  }

  lemma WindowTwice(d: seq<byte>, head: nat, fill: nat, from: seq<byte>)
    requires head < |d| && fill + |from| <= |d|
    requires head + fill < |d| <= head + fill + |from|
    ensures var tail, first := head + fill, |d| - (head + fill);
      && first <= |from|
      && Window(Patch(Patch(d, tail, from[..first]), 0, from[first..]), head, fill + |from|)
         == Window(d, head, fill) + from
  {
    hide Patch, Window;
    var tail, first := head + fill, |d| - (head + fill);
    var a, b := from[..first], from[first..];
    assert from == a + b;
    TwoPieces(d, tail, a, b);
    WindowOfPieces(d, head, tail, a, b);
  }

  lemma TwoPieces(d: seq<byte>, tail: nat, a: seq<byte>, b: seq<byte>)
    requires tail + |a| == |d| && |b| <= tail
    ensures Patch(Patch(d, tail, a), 0, b) == b + d[|b|..tail] + a
  {
    assert Patch(d, tail, a) == d[..tail] + a;
  }

  lemma WindowOfPieces(d: seq<byte>, head: nat, tail: nat, a: seq<byte>, b: seq<byte>)
    requires |b| <= head <= tail < |d| == tail + |a|
    ensures Window(b + d[|b|..tail] + a, head, tail - head + |a| + |b|) == Window(d, head, tail - head) + (a + b)
  {
    hide Window;
    var t := b + d[|b|..tail] + a;
    SlicedPieces(d, head, tail, a, b);
    WindowTail(t, head, |b|);
    WindowInside(d, head, tail);
    assert (d[head..tail] + a) + b == d[head..tail] + (a + b);
  }

  lemma SlicedPieces(d: seq<byte>, head: nat, tail: nat, a: seq<byte>, b: seq<byte>)
    requires |b| <= head <= tail < |d| == tail + |a|
    ensures var t := b + d[|b|..tail] + a; t[head..] == d[head..tail] + a && t[..|b|] == b
  {
  }

  lemma WindowInside(d: seq<byte>, head: nat, tail: nat)
    requires head <= tail <= |d| && head < |d|
    ensures Window(d, head, tail - head) == d[head..tail]
  {
  }

  lemma WindowFront(d: seq<byte>, head: nat, fill: nat, n: nat)
    requires head < |d| && 0 < n <= fill <= |d|
    ensures Window(d, head, n) == if head + n < |d| then d[head..head + n] else d[head..] + d[..n - (|d| - head)]
    ensures var next := if head + n < |d| then head + n else head + n - |d|;
      && Window(d, head, fill)[..n] == Window(d, head, n)
      && Window(d, head, fill)[n..] == Window(d, next, fill - n)
  {
    if head + n < |d| {
      FrontInside(d, head, fill, n);
    } else {
      WindowTail(d, head, n - (|d| - head));
      WindowTail(d, head, fill - (|d| - head));
      WindowInside(d, n - (|d| - head), fill - (|d| - head));
      FrontAround(d, head, fill, n);
    }
  }

  lemma FrontInside(d: seq<byte>, head: nat, fill: nat, n: nat)
    requires head + n < |d| && n <= fill <= |d|
    ensures Window(d, head, fill)[..n] == d[head..head + n]
    ensures Window(d, head, fill)[n..] == Window(d, head + n, fill - n)
  {
  }

  lemma FrontAround(d: seq<byte>, head: nat, fill: nat, n: nat)
    requires head < |d| <= head + n && n <= fill <= |d|
    ensures var k := |d| - head;
      && (d[head..] + d[..fill - k])[..n] == d[head..] + d[..n - k]
      && (d[head..] + d[..fill - k])[n..] == d[n - k..fill - k]
  {
  }

  /** A write is refused exactly if the bytes do not fit and 128 times as many more would pass the limit; it grows the
      ring by that much exactly if they do not fit and it is not refused. */
  lemma RefusedIff(s: Shape, n: nat)
    requires s.Valid()
    ensures s.Refused(n) <==> s.fill + n > s.size && s.size + 128 * n > s.sizeMax
    ensures s.AfterWrite(n).size
      == s.size + (if s.fill + n > s.size && s.size + 128 * n <= s.sizeMax then 128 * n else 0)
    ensures s.AfterWrite(n).fill == s.fill + (if s.Refused(n) then 0 else n)
  {
  }

  /** Only a read that empties a grown ring shrinks it, to its first size. */
  lemma ShrinksIff(s: Shape, n: nat)
    requires s.Valid()
    ensures s.AfterRead(n).size == if 0 < s.fill <= n && s.size > s.sizeInitial then s.sizeInitial else s.size
    ensures s.AfterRead(n).fill == if n >= s.fill then 0 else s.fill - n
  {
    hide Index;
  }

  /** Growing keeps the contents, whatever the new bytes are, exactly when they had not wrapped around. */
  lemma GrowthKeepsContentsIff(d: seq<byte>, head: nat, fill: nat, k: nat)
    requires head < |d| && fill <= |d| && k > 0
    ensures (forall junk: seq<byte> :: |junk| == k ==> Window(d + junk, head, fill) == Window(d, head, fill))
      <==> head + fill <= |d|
  {
    if head + fill > |d| {
      var x: byte := if d[0] == 0 then 1 else 0;
      var junk: seq<byte> := seq(k, i => x);
      assert Window(d, head, fill)[|d| - head] == d[0];
      assert (d + junk)[|d|] == junk[0] == x;
      assert Window(d + junk, head, fill)[|d| - head] == (d + junk)[|d|];
      assert |junk| == k;
    }
  }

  /** A ring of four bytes after two writes and a read, full and wrapped. */
  method WrappedRing() returns (rb: RingBuffer)
    ensures fresh(rb) && fresh(rb.data) && rb.Valid() && rb.State() == Shape(4, 2, 4, 1000, 4)
    ensures rb.Contents() == [3, 4, 5, 6]
  {
    hide Window;
    rb := new RingBuffer(4, 1000);
    var _, _ := rb.Write([1, 2, 3]);
    var _ := rb.Read(2);
    var _, _ := rb.Write([4, 5, 6]);
  }

  /** One more byte makes the ring grow, and two bytes of the queue are replaced by what realloc left behind. */
  method GrownWhileWrapped() returns (to: seq<byte>, ghost junk: seq<byte>)
    ensures |to| == 5 && to[0] == 3 && to[1] == 4 && to[4] == 7
    ensures |junk| == 128 && to[2..4] == junk[..2]
  {
    hide Window;
    var rb := WrappedRing();
    ghost var before := rb.data[..];
    var _, more := rb.Write([7]);
    junk := more;
    WrappedWindow(before, junk);
    assert rb.Contents() == [3, 4, junk[0], junk[1], 7];
    to := rb.Read(5);
  }

  lemma WrappedWindow(d: seq<byte>, junk: seq<byte>)
    requires |d| == 4 && |junk| >= 2
    ensures Window(d, 2, 4)[..2] == d[2..] && Window(d + junk, 2, 4) == d[2..] + junk[..2]
  {
  }

  /** Reading in two goes is reading at once. */
  lemma ReadTwice(s: Shape, a: nat, b: nat)
    requires s.Valid() && a + b <= s.fill
    ensures s.AfterRead(a).Valid()
    ensures s.AfterRead(a).AfterRead(b) == s.AfterRead(a + b)
  {
    Wraps(s.head, a, s.size);
    Wraps(s.head, a + b, s.size);
    var h := Index(s.head + a, s.size);
    if h < s.size {
      Wraps(h, b, s.size);
    }
    hide Index;
  }

  // ---- any interleaving of operations -----------------------------------------------------------

  datatype Op = Write(bytes: seq<byte>) | Read(n: nat) | Peek(n: nat)

  datatype Reply = Wrote(count: nat) | Got(bytes: seq<byte>)

  /** What a plain queue answers; only whether a write is refused depends on the ring. */
  function Answer(q: seq<byte>, s: Shape, op: Op): (seq<byte>, Reply)
  {
    match op
    case Write(bs) => if s.Refused(|bs|) then (q, Wrote(0)) else (q + bs, Wrote(|bs|))
    case Read(n) => (q[Min(n, |q|)..], Got(q[..Min(n, |q|)]))
    case Peek(n) => (q, Got(q[..Min(n, |q|)]))
  }

  function Next(s: Shape, op: Op): (r: Shape)
    requires s.Valid()
  {
    match op
    case Write(bs) => s.AfterWrite(|bs|)
    case Read(n) => s.AfterRead(n)
    case Peek(_) => s
  }

  lemma NextValid(s: Shape, op: Op)
    requires s.Valid() && (op.Write? ==> s.InBounds(|op.bytes|))
    ensures Next(s, op).Valid()
  {
  }

  /** Every write of the run keeps clear of the two cases the ring does not handle. */
  predicate Allowed(s: Shape, ops: seq<Op>)
    requires s.Valid()
    decreases |ops|
  {
    ops == [] ||
    ((ops[0].Write? ==> s.WriteAllowed(|ops[0].bytes|)) &&
     (NextValid(s, ops[0]); Allowed(Next(s, ops[0]), ops[1..])))
  }

  function Answers(q: seq<byte>, s: Shape, ops: seq<Op>): (seq<byte>, seq<Reply>)
    requires s.Valid() && Allowed(s, ops)
    decreases |ops|
  {
    if ops == [] then (q, []) else
    var (q1, reply) := Answer(q, s, ops[0]);
    var (q2, replies) := Answers(q1, Next(s, ops[0]), ops[1..]);
    (q2, [reply] + replies)
  }

  /** Over every allowed interleaving the ring answers as the queue does. */
  method Run(rb: RingBuffer, ops: seq<Op>) returns (replies: seq<Reply>)
    requires rb.Valid() && Allowed(rb.State(), ops)
    modifies rb, rb.data
    ensures rb.Valid() && (rb.data == old(rb.data) || fresh(rb.data))
    ensures (rb.Contents(), replies) == Answers(old(rb.Contents()), old(rb.State()), ops)
  {
    hide Window;
    if ops == [] {
      return [];
    }
    var reply;
    match ops[0] {
      case Write(bs) =>
        var n, _ := rb.Write(bs);
        reply := Wrote(n);
      case Read(n) =>
        var to := rb.Read(n);
        reply := Got(to);
      case Peek(n) =>
        var to := rb.Peek(n);
        reply := Got(to);
    }
    var more := Run(rb, ops[1..]);
    replies := [reply] + more;
  }
}

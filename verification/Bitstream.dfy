/** The bit reader and writer: an 8-bit shift register over a byte buffer. */
module Bitstreams {
  import opened Bits

  class Bitstream {
    var buf: array<byte>   // the caller's storage
    var start: nat         // where in it this stream begins
    var buflen: nat
    var used: nat          // bytes written to, or taken from, the buffer
    var regUsed: nat
    var reg: byte

    ghost predicate Valid()
      reads this
    {
      start + buflen <= buf.Length && used <= buflen && regUsed < 8
    }

    /** Everything written since the buffer was set. */
    ghost function Written(): (b: seq<bool>)
      requires Valid()
      reads this, buf
      ensures |b| == 8 * used + regUsed
    {
      StreamBits(buf[start..start + used], reg, regUsed)
    }

    /** The bytes emitted since the buffer was set. */
    ghost function Bytes(): seq<byte>
      requires Valid()
      reads this, buf
    {
      buf[start..start + used]
    }

    /** Everything still to be read. */
    ghost function Rest(): (b: seq<bool>)
      requires Valid()
      reads this, buf
      ensures |b| == regUsed + 8 * (buflen - used)
    {
      RestBits(reg, regUsed, buf[start + used..start + buflen])
    }

    constructor (b: array<byte>, offset: nat, length: nat)
      requires offset + length <= b.Length
      ensures Valid() && buf == b && start == offset && buflen == length
      ensures used == 0 && regUsed == 0 && Written() == []
      ensures Rest() == BytesBits(b[offset..offset + length])
    {
      buf, start, buflen := b, offset, length;
      used, regUsed, reg := 0, 0, 0;
    }

    /** A copy of the context, sharing the buffer. */
    constructor Copy(s: Bitstream)
      requires s.Valid()
      ensures Valid() && buf == s.buf && start == s.start && buflen == s.buflen
      ensures used == s.used && regUsed == s.regUsed && reg == s.reg
      ensures Rest() == s.Rest()
    {
      buf, start, buflen := s.buf, s.start, s.buflen;
      used, regUsed, reg := s.used, s.regUsed, s.reg;
    }

    method SetBuffer(b: array<byte>, offset: nat, length: nat)
      requires offset + length <= b.Length
      modifies this
      ensures Valid() && buf == b && start == offset && buflen == length
      ensures used == 0 && regUsed == 0 && Written() == []
      ensures Rest() == BytesBits(b[offset..offset + length])
    {
      buf, start, buflen := b, offset, length;
      used, regUsed, reg := 0, 0, 0;
    }

    // ---- writing --------------------------------------------------------------------------

    method WriteBit(bit: nat)
      requires Valid() && (used < buflen || regUsed < 7)
      modifies `used, `regUsed, `reg, buf
      ensures Valid() && 8 * used + regUsed == old(8 * used + regUsed) + 1
      ensures Written() == old(Written()) + [bit % 2 == 1]
      ensures forall i :: 0 <= i < start + old(used) || start + used <= i < buf.Length ==> buf[i] == old(buf[i])
    {
      hide StreamBits, BytesBits, ToBits;
      ghost var bytes := buf[start..start + used];
      ShiftIn(bytes, reg, regUsed, bit);
      reg := (2 * reg) % 256 + bit % 2;
      regUsed := regUsed + 1;
      if regUsed == 8 {
        buf[start + used] := reg;
        used := used + 1;
        regUsed := 0;
        assert buf[start..start + used] == bytes + [reg];
        Emit(bytes, reg);
      }
    }

    method WriteByteStuff(bit: nat)
      requires Valid() && (regUsed > 0 ==> used < buflen)
      modifies `used, `regUsed, `reg, buf
      ensures Valid() && regUsed == 0
      ensures Written() == old(Written()) + Repeat(bit % 2 == 1, (8 - old(regUsed)) % 8)
      ensures forall i :: 0 <= i < start + old(used) || start + used <= i < buf.Length ==> buf[i] == old(buf[i])
    {
      hide StreamBits;
      ghost var n := 0;
      while regUsed > 0
        invariant Valid() && buf == old(buf) && start == old(start) && buflen == old(buflen)
        invariant old(used) <= used && 8 * used + regUsed == old(8 * used + regUsed) + n
        invariant 0 <= n <= (8 - old(regUsed)) % 8
        invariant Written() == old(Written()) + Repeat(bit % 2 == 1, n)
        invariant forall i :: 0 <= i < start + old(used) || start + used <= i < buf.Length ==> buf[i] == old(buf[i])
        decreases 8 - n
      {
        WriteBit(bit);
        n := n + 1;
        assert Repeat(bit % 2 == 1, n) == Repeat(bit % 2 == 1, n - 1) + [bit % 2 == 1];
      }
    }

    method WriteBits(v: nat, n: nat)
      requires Valid() && 8 * used + regUsed + n <= 8 * buflen
      modifies `used, `regUsed, `reg, buf
      ensures Valid() && 8 * used + regUsed == old(8 * used + regUsed) + n
      ensures Written() == old(Written()) + ToBits(v, n)
      ensures forall tail :: Written() + tail == old(Written()) + (ToBits(v, n) + tail)
      ensures forall i :: 0 <= i < start + old(used) || start + used <= i < buf.Length ==> buf[i] == old(buf[i])
    {
      hide StreamBits;
      var i := n;
      while i > 0
        invariant 0 <= i <= n && Valid()
        invariant old(used) <= used && 8 * used + regUsed == old(8 * used + regUsed) + n - i
        invariant Written() == old(Written()) + ToBits(ShiftRight(v, i), n - i)
        invariant forall i :: 0 <= i < start + old(used) || start + used <= i < buf.Length ==> buf[i] == old(buf[i])
      {
        i := i - 1;
        ShiftRightStep(v, i);
        WriteBit(ShiftRight(v, i));
      }
      forall tail ensures Written() + tail == old(Written()) + (ToBits(v, n) + tail) {
        Associative(old(Written()), ToBits(v, n), tail);
      }
    }

    /** Closes the stream. On an unaligned stream the loop bound lets one bit too many through. */
    method WriteBufferComplete()
      requires Valid() && (regUsed > 0 ==> used < buflen)
      modifies `used, `regUsed, `reg, buf
      ensures Valid()
      ensures Written() == AfterComplete(old(Written()))
      ensures used == (old(8 * used + regUsed) + 7) / 8
      ensures BytesBits(buf[start..start + used]) == PadToByte(old(Written()))
      ensures forall i :: 0 <= i < start + old(used) || start + used <= i < buf.Length ==> buf[i] == old(buf[i])
    {
      hide StreamBits, BytesBits, ToBits, Zeros, Repeat, AfterComplete, PadToByte;
      NoZeros(Written());
      RoundedUp(used, regUsed);
      if regUsed > 0 {
        var i := regUsed;
        ghost var b := Written();
        while i <= 8
          invariant old(regUsed) <= i <= 9 && Valid()
          invariant 8 * used + regUsed == old(8 * used) + i
          invariant Written() == b + Zeros(i - old(regUsed))
          invariant forall i :: 0 <= i < start + old(used) || start + used <= i < buf.Length ==> buf[i] == old(buf[i])
        {
          WriteBit(0);
          MoreZeros(b, i - old(regUsed));
          i := i + 1;
        }
        CompleteEmits(b, buf[start..start + used], reg);
      } else {
        AlignedEmits(buf[start..start + used], reg);
      }
    }

    // ---- reading --------------------------------------------------------------------------

    method ReadBit() returns (bit: nat)
      requires Valid() && Rest() != []
      modifies `used, `regUsed, `reg
      ensures Valid()
      ensures bit == (if old(Rest())[0] then 1 else 0)
      ensures Rest() == old(Rest())[1..]
    {
      hide RestBits, BytesBits, ToBits;
      ghost var rest, ahead := Rest(), buf[start + used..start + buflen];
      if regUsed == 0 {
        Load(reg, ahead);
        ahead := ahead[1..];
        reg := buf[start + used];
        used := used + 1;
        regUsed := 8;
        assert buf[start + used..start + buflen] == ahead;
      }
      assert rest == RestBits(reg, regUsed, ahead);
      ShiftOutRest(reg, regUsed, ahead);
      bit := if reg >= 128 then 1 else 0;
      reg := (2 * reg) % 256;
      regUsed := regUsed - 1;
    }

    method ReadByteAligned() returns (v: nat)
      requires Valid() && regUsed == 0 && used < buflen
      modifies `used
      ensures Valid() && regUsed == 0 && used == old(used) + 1
      ensures v == FromBits(old(Rest())[..8]) == buf[start + old(used)]
      ensures Rest() == old(Rest())[8..]
    {
      v := buf[start + used];
      ghost var ahead := buf[start + used..start + buflen];
      assert ahead[1..] == buf[start + used + 1..start + buflen];
      TakeByte(reg, ahead);
      used := used + 1;
    }

    method ReadBits(n: nat) returns (v: nat)
      requires Valid() && n <= |Rest()| && n <= 64
      modifies `used, `regUsed, `reg
      ensures Valid()
      ensures v == FromBits(old(Rest())[..n]) && v < Pow2(n)
      ensures Rest() == old(Rest())[n..]
    {
      hide RestBits;
      FromBitsBound(Rest()[..n]);
      if n == 8 && regUsed == 0 {
        v := ReadByteAligned();
        return;
      }
      v := 0;
      ghost var rest := Rest();
      for i := 0 to n
        invariant Valid()
        invariant v == FromBits(rest[..i])
        invariant Rest() == rest[i..]
      {
        hide FromBits;
        ghost var here := Rest();
        assert here != [] && here[0] == rest[i];
        var bit := ReadBit();
        assert bit == if rest[i] then 1 else 0;
        FromBitsAppend(rest, i);
        assert rest[i..][1..] == rest[i + 1..];
        v := 2 * v + bit;
      }
    }

    method PeekBits(n: nat) returns (v: nat)
      requires Valid() && n <= |Rest()| && n <= 64
      ensures v == FromBits(Rest()[..n])
    {
      var copy := new Bitstream.Copy(this);
      v := copy.ReadBits(n);
    }

    method ReadByteStuff()
      requires Valid()
      modifies `used, `regUsed, `reg
      ensures Valid() && regUsed == 0
      ensures Rest() == old(Rest())[old(|Rest()| % 8)..]
    {
      ghost var n := 0;
      while regUsed > 0
        invariant Valid() && n + regUsed == old(regUsed)
        invariant n <= old(|Rest()|) && Rest() == old(Rest())[n..]
      {
        var _ := ReadBit();
        n := n + 1;
      }
    }

    static method BitMove(dst: Bitstream, src: Bitstream, n: nat)
      requires dst != src && dst.Valid() && src.Valid() && dst.buf != src.buf
      requires n <= |src.Rest()| && 8 * dst.used + dst.regUsed + n <= 8 * dst.buflen
      modifies dst`used, dst`regUsed, dst`reg, dst.buf, src`used, src`regUsed, src`reg
      ensures dst.Valid() && src.Valid()
      ensures dst.Written() == old(dst.Written()) + old(src.Rest())[..n]
      ensures src.Rest() == old(src.Rest())[n..]
    {
      hide StreamBits, RestBits;
      for i := 0 to n
        invariant dst.Valid() && src.Valid()
        invariant 8 * dst.used + dst.regUsed == old(8 * dst.used + dst.regUsed) + i
        invariant dst.Written() == old(dst.Written()) + old(src.Rest())[..i]
        invariant src.Rest() == old(src.Rest())[i..]
      {
        var bit := src.ReadBit();
        dst.WriteBit(bit);
      }
    }
  }

  /** The stream held by the emitted bytes and the n pending bits of the register. */
  function StreamBits(bytes: seq<byte>, reg: byte, n: nat): (b: seq<bool>)
    ensures |b| == 8 * |bytes| + n
  {
    BytesBits(bytes) + ToBits(reg, n)
  }

  /** The stream ahead: the top n bits of the register, then the bytes not yet loaded. */
  function RestBits(reg: byte, n: nat, bytes: seq<byte>): (b: seq<bool>)
    requires n <= 8
    ensures |b| == n + 8 * |bytes|
  {
    ToBits(reg, 8)[..n] + BytesBits(bytes)
  }

  lemma FromBitsAppend(b: seq<bool>, i: nat)
    requires i < |b|
    ensures FromBits(b[..i + 1]) == 2 * FromBits(b[..i]) + (if b[i] then 1 else 0)
  {
    assert b[..i + 1][..i] == b[..i];
  }

  lemma ShiftIn(bytes: seq<byte>, reg: byte, n: nat, bit: nat)
    requires n < 8
    ensures StreamBits(bytes, (2 * reg) % 256 + bit % 2, n + 1) == StreamBits(bytes, reg, n) + [bit % 2 == 1]
  {
    hide BytesBits, ToBits;
    ShiftInReg(reg, n, bit);
  }

  lemma Shifted(reg: byte, bit: nat)
    ensures ((2 * reg) % 256 + bit % 2) / 2 == reg % 128 && ((2 * reg) % 256 + bit % 2) % 2 == bit % 2
  {
    assert (2 * reg) % 256 == 2 * (reg % 128);
  }

  lemma ShiftInReg(reg: byte, n: nat, bit: nat)
    requires n < 8
    ensures ToBits((2 * reg) % 256 + bit % 2, n + 1) == ToBits(reg, n) + [bit % 2 == 1]
  {
    Shifted(reg, bit);
    assert ToBits(reg % 128, n) == ToBits(reg, n) by {
      assert Pow2(7) == 128;
      ToBitsMod(reg, 7, n);
    }
  }

  lemma Emit(bytes: seq<byte>, reg: byte)
    ensures StreamBits(bytes + [reg], reg, 0) == StreamBits(bytes, reg, 8)
  {
    BytesBitsAppend(bytes, [reg]);
    BytesBitsOne(reg);
  }

  lemma Load(reg: byte, bytes: seq<byte>)
    requires bytes != []
    ensures RestBits(bytes[0], 8, bytes[1..]) == RestBits(reg, 0, bytes)
  {
    BytesBitsFront(bytes);
    assert ToBits(bytes[0], 8)[..8] == ToBits(bytes[0], 8);
  }

  lemma TakeByte(reg: byte, bytes: seq<byte>)
    requires bytes != []
    ensures FromBits(RestBits(reg, 0, bytes)[..8]) == bytes[0]
    ensures RestBits(reg, 0, bytes)[8..] == RestBits(reg, 0, bytes[1..])
  {
    BytesBitsFront(bytes);
    ByteOfBits(bytes[0]);
    assert RestBits(reg, 0, bytes)[..8] == ToBits(bytes[0], 8);
  }

  lemma ShiftOutRest(reg: byte, n: nat, bytes: seq<byte>)
    requires 0 < n <= 8
    ensures RestBits(reg, n, bytes)[0] == (reg >= 128)
    ensures RestBits((2 * reg) % 256, n - 1, bytes) == RestBits(reg, n, bytes)[1..]
  {
    ShiftOut(reg, n);
  }

  lemma ShiftOut(reg: byte, n: nat)
    requires 0 < n <= 8
    ensures ToBits(reg, 8)[..n][0] == (reg >= 128)
    ensures ToBits((2 * reg) % 256, 8)[..n - 1] == ToBits(reg, 8)[..n][1..]
  {
    TopBit(reg);
    ByteShift(reg);
    DropFirst(reg >= 128, ToBits(reg, 7), n);
  }

  lemma TopBit(reg: byte)
    ensures ToBits(reg, 8) == [reg >= 128] + ToBits(reg, 7)
  {
    assert Pow2(7) == 128;
    ShiftRightIsDiv(reg, 7);
    ToBitsCons(reg, 7);
  }

  lemma ByteShift(reg: byte)
    ensures ToBits((2 * reg) % 256, 8) == ToBits(reg, 7) + [false]
  {
    assert Pow2(8) == 256;
    ToBitsDouble(reg, 7);
    ToBitsMod(2 * reg, 8, 8);
  }

  lemma DropFirst(first: bool, low: seq<bool>, n: nat)
    requires 0 < n <= |low| + 1
    ensures ([first] + low)[..n][1..] == (low + [false])[..n - 1]
  {
  }

  lemma MoreZeros(b: seq<bool>, n: nat)
    ensures b + Zeros(n) + [false] == b + Zeros(n + 1)
  {
  }

  /** Closing an unaligned stream emits exactly the zero-padded string. */
  lemma CompleteEmits(b: seq<bool>, bytes: seq<byte>, reg: byte)
    requires |b| % 8 != 0
    requires StreamBits(bytes, reg, 1) == b + Zeros(9 - |b| % 8)
    ensures BytesBits(bytes) == PadToByte(b)
    ensures StreamBits(bytes, reg, 1) == AfterComplete(b)
  {
    hide BytesBits, ToBits;
    var w := StreamBits(bytes, reg, 1);
    assert w[..|w| - 1] == BytesBits(bytes);
    assert w[..|w| - 1] == b + Zeros(8 - |b| % 8);
  }

  lemma AlignedEmits(bytes: seq<byte>, reg: byte)
    ensures BytesBits(bytes) == PadToByte(StreamBits(bytes, reg, 0))
    ensures StreamBits(bytes, reg, 0) == AfterComplete(StreamBits(bytes, reg, 0))
  {
    hide BytesBits;
    assert StreamBits(bytes, reg, 0) == BytesBits(bytes);
    RoundedUp(|bytes|, 0);
    NoZeros(BytesBits(bytes));
  }

  lemma NoZeros(b: seq<bool>)
    ensures b + Zeros(0) == b
  {
  }

  /** What klbs_write_buffer_complete leaves in the stream. */
  function AfterComplete(b: seq<bool>): seq<bool>
  {
    if |b| % 8 == 0 then b else b + Zeros(9 - |b| % 8)
  }

  function PadToByte(b: seq<bool>): (r: seq<bool>)
    ensures |r| % 8 == 0 && |b| <= |r| < |b| + 8 && b <= r
  {
    b + Zeros((8 - |b| % 8) % 8)
  }

  lemma AlignedNeedsNoPad(b: seq<bool>)
    requires |b| % 8 == 0
    ensures PadToByte(b) == b
  {
  }

  /** The bits that have left the shift register for the buffer. */
  function Emitted(b: seq<bool>): seq<bool>
  {
    b[..|b| / 8 * 8]
  }

  /** Closing a stream twice emits the same bytes exactly when nothing needed closing. */
  lemma CompleteIdempotentIffAligned(b: seq<bool>)
    ensures Emitted(AfterComplete(b)) == PadToByte(b)
    ensures Emitted(AfterComplete(AfterComplete(b))) == Emitted(AfterComplete(b)) <==> |b| % 8 == 0
  {
  }

  /** A single bit closed twice: the surplus bit of the first close starts another byte. */
  lemma ClosedTwice()
    ensures Emitted(AfterComplete([true])) == [true] + Zeros(7)
    ensures Emitted(AfterComplete(AfterComplete([true]))) == [true] + Zeros(15)
  {
    var b := AfterComplete([true]);
    assert b == [true] + Zeros(8) && AfterComplete(b) == b + Zeros(8);
  }

  // ---- round trip over any list of writes -------------------------------------------------

  datatype Field = Field(value: nat, width: nat)

  function FieldsBits(fs: seq<Field>): seq<bool>
  {
    if fs == [] then [] else ToBits(fs[0].value, fs[0].width) + FieldsBits(fs[1..])
  }

  /** What reading the widths of fs in turn returns. */
  function ReadFields(fs: seq<Field>, rest: seq<bool>): seq<nat>
  {
    if fs == [] || |rest| < fs[0].width then []
    else [FromBits(rest[..fs[0].width])] + ReadFields(fs[1..], rest[fs[0].width..])
  }

  lemma {:induction false} FieldsRoundTrip(fs: seq<Field>, tail: seq<bool>)
    ensures |ReadFields(fs, FieldsBits(fs) + tail)| == |fs|
    ensures forall i :: 0 <= i < |fs| ==>
      ReadFields(fs, FieldsBits(fs) + tail)[i] == fs[i].value % Pow2(fs[i].width)
  {
    if fs == [] {
    } else {
      var f, more := fs[0], FieldsBits(fs[1..]) + tail;
      assert FieldsBits(fs) + tail == ToBits(f.value, f.width) + more;
      Bits.ReadBack(f.value, f.width, more);
      FieldsRoundTrip(fs[1..], tail);
    }
  }

  lemma {:induction false} FieldsBitsAppend(fs: seq<Field>, f: Field)
    ensures FieldsBits(fs + [f]) == FieldsBits(fs) + ToBits(f.value, f.width)
  {
    if fs == [] {
      assert fs + [f] == [f] && [f][1..] == [];
      assert FieldsBits([f]) == ToBits(f.value, f.width) + [];
    } else {
      assert (fs + [f])[1..] == fs[1..] + [f];
      FieldsBitsAppend(fs[1..], f);
      Associative(ToBits(fs[0].value, fs[0].width), FieldsBits(fs[1..]), ToBits(f.value, f.width));
    }
  }

  lemma Associative<T>(a: seq<T>, b: seq<T>, c: seq<T>)
    ensures (a + b) + c == a + (b + c)
  {
  }

  method WriteFields(w: Bitstream, fs: seq<Field>)
    requires w.Valid() && 8 * w.used + w.regUsed + |FieldsBits(fs)| <= 8 * w.buflen
    modifies w`used, w`regUsed, w`reg, w.buf
    ensures w.Valid() && w.Written() == old(w.Written()) + FieldsBits(fs)
    ensures 8 * w.used + w.regUsed == old(8 * w.used + w.regUsed) + |FieldsBits(fs)|
  {
    hide StreamBits;
    for i := 0 to |fs|
      invariant w.Valid() && w.Written() == old(w.Written()) + FieldsBits(fs[..i])
      invariant 8 * w.used + w.regUsed == old(8 * w.used + w.regUsed) + |FieldsBits(fs[..i])|
    {
      assert fs[..i + 1] == fs[..i] + [fs[i]];
      FieldsBitsAppend(fs[..i], fs[i]);
      FieldsBitsPrefix(fs, i + 1);
      w.WriteBits(fs[i].value, fs[i].width);
    }
    assert fs[..|fs|] == fs;
  }

  lemma {:induction false} FieldsBitsPrefix(fs: seq<Field>, i: nat)
    requires i <= |fs|
    ensures |FieldsBits(fs[..i])| <= |FieldsBits(fs)|
    decreases |fs| - i
  {
    if i == |fs| {
      assert fs[..i] == fs;
    } else {
      assert fs[..i + 1] == fs[..i] + [fs[i]];
      FieldsBitsAppend(fs[..i], fs[i]);
      FieldsBitsPrefix(fs, i + 1);
    }
  }

  method ReadBack(r: Bitstream, fs: seq<Field>) returns (values: seq<nat>)
    requires r.Valid() && |FieldsBits(fs)| <= |r.Rest()|
    requires forall f :: f in fs ==> 1 <= f.width <= 64
    modifies r`used, r`regUsed, r`reg
    ensures r.Valid() && r.Rest() == old(r.Rest())[|FieldsBits(fs)|..]
    ensures values == ReadFields(fs, old(r.Rest()))
  {
    hide RestBits;
    if fs == [] {
      return [];
    }
    var v := r.ReadBits(fs[0].width);
    var more := ReadBack(r, fs[1..]);
    values := [v] + more;
  }

  /** Writes the fields one by one and closes the stream. */
  method WriteStream(fs: seq<Field>, buf: array<byte>) returns (used: nat)
    requires |FieldsBits(fs)| <= 8 * buf.Length
    modifies buf
    ensures used == (|FieldsBits(fs)| + 7) / 8
    ensures BytesBits(buf[..used]) == PadToByte(FieldsBits(fs))
  {
    hide StreamBits, BytesBits, FieldsBits;
    var w := new Bitstream(buf, 0, buf.Length);
    WriteFields(w, fs);
    assert w.Written() == FieldsBits(fs);
    w.WriteBufferComplete();
    used := w.used;
    assert buf[0..used] == buf[..used];
  }

  /** What was written comes back, whatever the values and widths. */
  method WriteThenRead(fs: seq<Field>, buf: array<byte>) returns (values: seq<nat>)
    requires |FieldsBits(fs)| <= 8 * buf.Length
    requires forall f :: f in fs ==> 1 <= f.width <= 64
    modifies buf
    ensures |values| == |fs| && forall i :: 0 <= i < |fs| ==> values[i] == fs[i].value % Pow2(fs[i].width)
  {
    hide RestBits, BytesBits, FieldsBits, ReadFields, Pow2;
    var used := WriteStream(fs, buf);
    assert buf[0..used] == buf[..used];
    var r := new Bitstream(buf, 0, used);
    FieldsRoundTrip(fs, Zeros((8 - |FieldsBits(fs)| % 8) % 8));
    values := ReadBack(r, fs);
  }
}

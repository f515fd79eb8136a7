/** The ST 2038 packetizer: a growable buffer filled by begin, append and end. */
module Smpte2038Packetizer {
  import opened Bits
  import opened Bitstreams
  import opened VancPackets
  import opened Smpte2038
  import opened PesHeaders

  class Packetizer {
    var buf: array<byte>
    var buflen: nat
    var bufused: nat
    var buffree: nat
    const bs: Bitstream
    ghost var lines: seq<Header>   // appended since the last begin

    ghost predicate Sized()
      reads this
    {
      && buf.Length == buflen && RESET_OFFSET <= bufused <= buflen <= LIMIT
      && buflen % CHUNK == 0 && bufused + buffree == buflen
    }

    ghost predicate Valid()
      reads this, buf
    {
      && Sized() && Short(lines)
      && BytesBits(buf[RESET_OFFSET..bufused]) == PayloadBits(lines)
    }

    constructor ()
      ensures Valid() && lines == [] && fresh(buf) && fresh(bs)
      ensures buflen == CHUNK && bufused == RESET_OFFSET
    {
      buf := new byte[CHUNK](i => 0);
      bufused, buflen, buffree := RESET_OFFSET, CHUNK, CHUNK - RESET_OFFSET;
      lines := [];
      var storage := new byte[0];
      bs := new Bitstream(storage, 0, 0);
    }

    method BufferRecalc()
      requires bufused <= buflen
      modifies `buffree
      ensures bufused + buffree == buflen
    {
      buffree := buflen - bufused;
    }

    /** Over the limit the process aborts. */
    method BufferAdjust(newsize: nat)
      requires Sized() && buflen <= newsize <= LIMIT && newsize % CHUNK == 0
      modifies `buf, `buflen, `bufused, `buffree
      ensures Sized() && buflen == newsize && bufused == old(bufused) && fresh(buf)
      ensures buf[..bufused] == old(buf[..bufused])
    {
      var grown := new byte[newsize];
      forall i | 0 <= i < buf.Length {
        grown[i] := buf[i];
      }
      buf := grown;
      buflen := newsize;
      BufferRecalc();
    }

    method Begin()
      requires Valid()
      modifies this, buf
      ensures Valid() && lines == [] && buf == old(buf) && buflen == old(buflen) && bufused == RESET_OFFSET
      ensures forall i :: 0 <= i < buflen ==> buf[i] == 0xff
    {
      bufused := RESET_OFFSET;
      BufferRecalc();
      for i := 0 to buflen
        invariant Sized() && buf == old(buf) && buflen == old(buflen) && bufused == RESET_OFFSET
        invariant forall j :: 0 <= j < i ==> buf[j] == 0xff
      {
        buf[i] := 0xff;
      }
      lines := [];
    }

    /** Whether append goes through: otherwise the growth it asks for passes the limit and it aborts. */
    ghost predicate Fits(p: Header)
      reads this
    {
      bufused + 2 * |p.payload| + 64 <= LIMIT
    }

    /** The growth append asks for is granted exactly when the packet fits. */
    lemma FitsIff(p: Header)
      requires Sized() && |p.payload| <= 0xff
      ensures Fits(p) <==> (2 * |p.payload| + 64 > buffree ==> buflen + CHUNK <= LIMIT)
    {
    }

    static lemma Appended(front: seq<byte>, line: seq<byte>, ps: seq<Header>, p: Header)
      requires Short(ps) && |p.payload| <= 0xff
      requires BytesBits(front) == PayloadBits(ps) && BytesBits(line) == LineBits(p, Ones(PadBits(p)))
      ensures Short(ps + [p]) && BytesBits(front + line) == PayloadBits(ps + [p])
    {
      hide BytesBits, PayloadBits, LineBits, Short, PadBits;
      BytesBitsAppend(front, line);
      PayloadAppend(ps, p);
    }

    method Append(p: Header)
      requires Valid() && |p.payload| <= 0xff && Fits(p)
      modifies this, buf, bs
      ensures Valid() && lines == old(lines) + [p]
      ensures bufused == old(bufused) + (77 + 10 * |p.payload|) / 8
      ensures buf[..old(bufused)] == old(buf[..bufused])
      ensures if 2 * |p.payload| + 64 > old(buffree) then fresh(buf) && buflen == old(buflen) + 16384
        else buf == old(buf) && buflen == old(buflen)
    {
      MakeRoom(p);
      AppendLine(p);
    }

    /** The single growth test of append. */
    method MakeRoom(p: Header)
      requires Valid() && |p.payload| <= 0xff && Fits(p)
      modifies this
      ensures Valid() && lines == old(lines) && bufused == old(bufused)
      ensures buffree >= 2 * |p.payload| + 64
      ensures buf[..bufused] == old(buf[..bufused])
      ensures if 2 * |p.payload| + 64 > old(buffree) then fresh(buf) && buflen == old(buflen) + 16384
        else buf == old(buf) && buflen == old(buflen)
    {
      hide BytesBits, PayloadBits, Short;
      FitsIff(p);
      ghost var front := buf[..bufused];
      assert front[RESET_OFFSET..] == buf[RESET_OFFSET..bufused];
      var reqd := 2 * |p.payload|;
      if reqd + 64 > buffree {
        BufferAdjust(buflen + CHUNK);
      }
      assert buf[RESET_OFFSET..bufused] == front[RESET_OFFSET..];
    }

    /** The line into the free part of the buffer. */
    method PlaceLine(p: Header)
      requires Sized() && |p.payload| <= 0xff && buffree >= 2 * |p.payload| + 64
      modifies buf, bs
      ensures bs.used == (77 + 10 * |p.payload|) / 8 && bufused + bs.used <= buflen
      ensures BytesBits(buf[bufused..bufused + bs.used]) == LineBits(p, Ones(PadBits(p)))
      ensures buf[..bufused] == old(buf[..bufused])
    {
      hide StreamBits, BytesBits, LineBits, PadBits, Ones;
      bs.SetBuffer(buf, bufused, buffree);
      FillLine(p);
    }

    static lemma Joined(a: array<byte>, i: nat, j: nat, k: nat)
      requires i <= j <= k <= a.Length
      ensures a[i..k] == a[i..j] + a[j..k] && a[i..j] == a[..j][i..]
    {
    }

    method AppendLine(p: Header)
      requires Valid() && |p.payload| <= 0xff && buffree >= 2 * |p.payload| + 64
      modifies `bufused, `buffree, `lines, buf, bs
      ensures Valid() && lines == old(lines) + [p]
      ensures bufused == old(bufused) + (77 + 10 * |p.payload|) / 8
      ensures buf[..old(bufused)] == old(buf[..bufused])
    {
      hide BytesBits, PayloadBits, LineBits, Short, PadBits, Ones;
      ghost var body := buf[RESET_OFFSET..bufused];
      Joined(buf, RESET_OFFSET, bufused, bufused);
      PlaceLine(p);
      Joined(buf, RESET_OFFSET, bufused, bufused + bs.used);
      Appended(body, buf[bufused..bufused + bs.used], lines, p);
      lines := lines + [p];
      bufused := bufused + bs.used;
      BufferRecalc();
    }

    /** The line and its stuffing bits. */
    method StuffLine(p: Header)
      requires |p.payload| <= 0xff && bs.Valid() && bs.used == 0 && bs.regUsed == 0 && bs.Written() == []
      requires 2 * |p.payload| + 64 <= bs.buflen
      modifies bs`used, bs`regUsed, bs`reg, bs.buf
      ensures bs.Valid() && bs.regUsed == 0 && bs.used == (77 + 10 * |p.payload|) / 8
      ensures bs.Written() == LineBits(p, Ones(PadBits(p)))
      ensures forall i :: 0 <= i < bs.start ==> bs.buf[i] == old(bs.buf[i])
    {
      hide StreamBits, LineBits, PadBits, Ones, Repeat;
      WriteLine(bs, p);
      assert bs.Written() == LineBits(p, []);
      PadLength(p, bs.used, bs.regUsed);
      bs.WriteByteStuff(1);
      StuffedLine(p);
    }

    /** The stuffing bits, all ones, are the low bits of the line's last byte. */
    static predicate EndsStuffed(s: seq<byte>, p: Header)
    {
      s != [] && s[|s| - 1] % Pow2(PadBits(p)) == Pow2(PadBits(p)) - 1
    }

    static lemma LineEnds(s: seq<byte>, p: Header)
      requires |p.payload| <= 0xff && BytesBits(s) == LineBits(p, Ones(PadBits(p)))
      ensures EndsStuffed(s, p)
    {
      hide BytesBits, LineBits, PadBits, Ones, Pow2, Repeat;
      assert |LineBits(p, Ones(PadBits(p)))| > 0;
      StuffedLine(p);
      OnesRepeat(PadBits(p));
      EndsInOnes(s, LineBits(p, []), PadBits(p));
    }

    static lemma OnesRepeat(n: nat)
      ensures Repeat(true, n) == Ones(n)
    {
    }

    /** Writes one padded line through the bit writer, into the space it was given. */
    method FillLine(p: Header)
      requires |p.payload| <= 0xff && bs.Valid() && bs.used == 0 && bs.regUsed == 0 && bs.Written() == []
      requires 2 * |p.payload| + 64 <= bs.buflen
      modifies bs`used, bs`regUsed, bs`reg, bs.buf
      ensures bs.Valid() && bs.used == (77 + 10 * |p.payload|) / 8
      ensures BytesBits(bs.buf[bs.start..bs.start + bs.used]) == LineBits(p, Ones(PadBits(p)))
      ensures EndsStuffed(bs.buf[bs.start..bs.start + bs.used], p)
      ensures forall i :: 0 <= i < bs.start ==> bs.buf[i] == old(bs.buf[i])
    {
      hide StreamBits, BytesBits, LineBits, PadBits, PadToByte, Ones, EndsStuffed;
      StuffLine(p);
      AlignedNeedsNoPad(bs.Written());
      bs.WriteBufferComplete();
      LineEnds(bs.buf[bs.start..bs.start + bs.used], p);
    }

    static lemma PadLength(p: Header, used: nat, regUsed: nat)
      requires 8 * used + regUsed == 70 + 10 * |p.payload| && regUsed < 8
      ensures (8 - regUsed) % 8 == PadBits(p)
      ensures (8 * used + regUsed + PadBits(p)) / 8 == (77 + 10 * |p.payload|) / 8
    {
      RoundedUp(used, regUsed);
      RoundedUp(used + 1, 0);
      var n := 70 + 10 * |p.payload|;
      assert PadBits(p) == (8 - n % 8) % 8;
      if regUsed == 0 {
      } else {
        assert PadBits(p) == 8 - regUsed;
      }
    }

    static lemma StuffedLine(p: Header)
      requires |p.payload| <= 0xff
      ensures LineBits(p, []) + Repeat(true, PadBits(p)) == LineBits(p, Ones(PadBits(p)))
    {
      hide LineBits, PadBits;
      LineBitsTail(p, [], Ones(PadBits(p)));
      assert [] + Ones(PadBits(p)) == Ones(PadBits(p));
    }

    static method WriteWords(bs: Bitstream, ws: seq<word>)
      requires bs.Valid() && 8 * bs.used + bs.regUsed + 10 * |ws| <= 8 * bs.buflen
      modifies bs`used, bs`regUsed, bs`reg, bs.buf
      ensures bs.Valid() && 8 * bs.used + bs.regUsed == old(8 * bs.used + bs.regUsed) + 10 * |ws|
      ensures forall tail :: bs.Written() + tail == old(bs.Written()) + WordsBits(ws, tail)
      ensures forall i :: 0 <= i < bs.start + old(bs.used) ==> bs.buf[i] == old(bs.buf[i])
    {
      hide StreamBits, ToBits;
      ghost var before := bs.Written();
      for i := 0 to |ws|
        invariant bs.Valid() && 8 * bs.used + bs.regUsed == old(8 * bs.used + bs.regUsed) + 10 * i
        invariant bs.Written() + WordsBits(ws[i..], []) == before + WordsBits(ws, [])
        invariant forall i :: 0 <= i < bs.start + old(bs.used) ==> bs.buf[i] == old(bs.buf[i])
      {
        assert ws[i..][1..] == ws[i + 1..];
        bs.WriteBits(ws[i], 10);
      }
      assert bs.Written() == before + WordsBits(ws, []);
      forall tail ensures bs.Written() + tail == before + WordsBits(ws, tail) {
        Associative(before, WordsBits(ws, []), tail);
        WordsBitsTail(ws, [], tail);
        assert [] + tail == tail;
      }
    }

    /** Three fields in a row. */
    static method WriteThree(bs: Bitstream, a: nat, n: nat, b: nat, m: nat, c: nat, k: nat)
      requires bs.Valid() && 8 * bs.used + bs.regUsed + (n + m + k) <= 8 * bs.buflen
      modifies bs`used, bs`regUsed, bs`reg, bs.buf
      ensures bs.Valid() && 8 * bs.used + bs.regUsed == old(8 * bs.used + bs.regUsed) + (n + m + k)
      ensures forall tail :: (bs.Written() + tail ==
        old(bs.Written()) + (ToBits(a, n) + (ToBits(b, m) + (ToBits(c, k) + tail))))
      ensures forall i :: 0 <= i < bs.start + old(bs.used) || bs.start + bs.used <= i < bs.buf.Length ==>
        bs.buf[i] == old(bs.buf[i])
    {
      hide StreamBits, ToBits;
      ghost var before := bs.Written();
      bs.WriteBits(a, n);
      bs.WriteBits(b, m);
      bs.WriteBits(c, k);
      assert bs.Written() == ((before + ToBits(a, n)) + ToBits(b, m)) + ToBits(c, k);
      forall tail ensures bs.Written() + tail == before + (ToBits(a, n) + (ToBits(b, m) + (ToBits(c, k) + tail))) {
        InARow(before, ToBits(a, n), ToBits(b, m), ToBits(c, k), tail);
      }
    }

    static lemma InARow(s: seq<bool>, a: seq<bool>, b: seq<bool>, c: seq<bool>, tail: seq<bool>)
      ensures ((s + a) + b) + c + tail == s + (a + (b + (c + tail)))
    {
    }

    /** The fields in front of the data words. */
    static method WriteHead(bs: Bitstream, p: Header)
      requires bs.Valid() && |p.payload| <= 0xff && 8 * bs.used + bs.regUsed + 60 <= 8 * bs.buflen
      modifies bs`used, bs`regUsed, bs`reg, bs.buf
      ensures bs.Valid() && 8 * bs.used + bs.regUsed == old(8 * bs.used + bs.regUsed) + 60
      ensures forall tail :: (bs.Written() + tail ==
        old(bs.Written()) + (ToBits(0, 6) + (ToBits(0, 1) + (ToBits(p.lineNr, 11) + (ToBits(0, 12) +
        (ToBits(AddParity(p.did), 10) + (ToBits(AddParity(p.sdid), 10) + (ToBits(AddParity(|p.payload|), 10) +
        tail))))))))
      ensures forall i :: 0 <= i < bs.start + old(bs.used) ==> bs.buf[i] == old(bs.buf[i])
    {
      hide StreamBits, ToBits, AddParity;
      WriteThree(bs, 0, 6, 0, 1, p.lineNr, 11);   // '000000', c_not_y_channel_flag, line_number
      bs.WriteBits(0, 12);                        // horizontal_offset
      WriteThree(bs, AddParity(p.did), 10, AddParity(p.sdid), 10, AddParity(|p.payload|), 10);
    }

    static method WriteLine(bs: Bitstream, p: Header)
      requires bs.Valid() && |p.payload| <= 0xff && 8 * bs.used + bs.regUsed + 70 + 10 * |p.payload| <= 8 * bs.buflen
      modifies bs`used, bs`regUsed, bs`reg, bs.buf
      ensures bs.Valid() && 8 * bs.used + bs.regUsed == old(8 * bs.used + bs.regUsed) + 70 + 10 * |p.payload|
      ensures bs.Written() == old(bs.Written()) + LineBits(p, [])
      ensures forall i :: 0 <= i < bs.start + old(bs.used) ==> bs.buf[i] == old(bs.buf[i])
    {
      hide StreamBits, ToBits, WordsBits, AddParity;
      WriteHead(bs, p);
      WriteWords(bs, p.payload);
      bs.WriteBits(p.checksum, 10);
      assert bs.Written() + [] == old(bs.Written()) + LineBits(p, []);
    }

    // ---- closing the PES ------------------------------------------------------------------

    static method WriteStart(bs: Bitstream)
      requires bs.Valid() && 8 * bs.used + bs.regUsed + 48 <= 8 * bs.buflen
      modifies bs`used, bs`regUsed, bs`reg, bs.buf
      ensures bs.Valid() && 8 * bs.used + bs.regUsed == old(8 * bs.used + bs.regUsed) + 48
      ensures forall tail :: bs.Written() + tail == old(bs.Written()) + StartBits(0, tail)
      ensures forall i :: bs.start + bs.used <= i < bs.buf.Length ==> bs.buf[i] == old(bs.buf[i])
    {
      hide StreamBits, ToBits;
      WriteThree(bs, 1, 24, 0xBD, 8, 0, 16);   // packet_start_code_prefix, stream_id, PES_packet_length
    }

    static method WriteFlags(bs: Bitstream)
      requires bs.Valid() && 8 * bs.used + bs.regUsed + 8 <= 8 * bs.buflen
      modifies bs`used, bs`regUsed, bs`reg, bs.buf
      ensures bs.Valid() && 8 * bs.used + bs.regUsed == old(8 * bs.used + bs.regUsed) + 8
      ensures forall tail :: bs.Written() + tail == old(bs.Written()) + FlagBits(tail)
      ensures forall i :: bs.start + bs.used <= i < bs.buf.Length ==> bs.buf[i] == old(bs.buf[i])
    {
      hide StreamBits, ToBits;
      WriteThree(bs, 2, 2, 0, 2, 0, 1);   // '10', PES_scrambling_control, PES_priority
      WriteThree(bs, 1, 1, 0, 1, 0, 1);   // data_alignment_indicator, copyright, original_or_copy
    }

    static method WriteClocks(bs: Bitstream)
      requires bs.Valid() && 8 * bs.used + bs.regUsed + 5 <= 8 * bs.buflen
      modifies bs`used, bs`regUsed, bs`reg, bs.buf
      ensures bs.Valid() && 8 * bs.used + bs.regUsed == old(8 * bs.used + bs.regUsed) + 5
      ensures forall tail :: bs.Written() + tail == old(bs.Written()) + ClockBits(tail)
      ensures forall i :: bs.start + bs.used <= i < bs.buf.Length ==> bs.buf[i] == old(bs.buf[i])
    {
      hide StreamBits, ToBits;
      WriteThree(bs, 2, 2, 0, 1, 0, 1);   // PTS_DTS_flags, ESCR_flag, ES_rate_flag
      bs.WriteBits(0, 1);                 // DSM_trick_mode_flag
    }

    static method WriteExtensions(bs: Bitstream)
      requires bs.Valid() && 8 * bs.used + bs.regUsed + 11 <= 8 * bs.buflen
      modifies bs`used, bs`regUsed, bs`reg, bs.buf
      ensures bs.Valid() && 8 * bs.used + bs.regUsed == old(8 * bs.used + bs.regUsed) + 11
      ensures forall tail :: bs.Written() + tail == old(bs.Written()) + ExtensionBits(tail)
      ensures forall i :: bs.start + bs.used <= i < bs.buf.Length ==> bs.buf[i] == old(bs.buf[i])
    {
      hide StreamBits, ToBits;
      WriteThree(bs, 0, 1, 0, 1, 0, 1);   // additional_copy_info_flag, PES_CRC_flag, PES_extension_flag
      bs.WriteBits(5, 8);                 // PES_header_data_length
    }

    static method WritePtsHigh(bs: Bitstream, pts: nat)
      requires bs.Valid() && 8 * bs.used + bs.regUsed + 8 <= 8 * bs.buflen
      modifies bs`used, bs`regUsed, bs`reg, bs.buf
      ensures bs.Valid() && 8 * bs.used + bs.regUsed == old(8 * bs.used + bs.regUsed) + 8
      ensures forall tail :: bs.Written() + tail == old(bs.Written()) + PtsHighBits(pts, tail)
      ensures forall i :: bs.start + bs.used <= i < bs.buf.Length ==> bs.buf[i] == old(bs.buf[i])
    {
      hide StreamBits, ToBits;
      WriteThree(bs, 2, 4, pts / 0x4000_0000, 3, 1, 1);   // '0010', PTS[32..30], marker_bit
    }

    static method WritePtsLow(bs: Bitstream, pts: nat)
      requires bs.Valid() && 8 * bs.used + bs.regUsed + 32 <= 8 * bs.buflen
      modifies bs`used, bs`regUsed, bs`reg, bs.buf
      ensures bs.Valid() && 8 * bs.used + bs.regUsed == old(8 * bs.used + bs.regUsed) + 32
      ensures forall tail :: bs.Written() + tail == old(bs.Written()) + PtsLowBits(pts, tail)
      ensures forall i :: bs.start + bs.used <= i < bs.buf.Length ==> bs.buf[i] == old(bs.buf[i])
    {
      hide StreamBits, ToBits;
      WriteThree(bs, (pts / 0x8000) % 0x8000, 15, 1, 1, pts % 0x8000, 15);   // PTS[29..15], marker_bit, PTS[14..0]
      bs.WriteBits(1, 1);                                                    // marker_bit
    }

    /** The header fields in turn. */
    static method WriteFields(bs: Bitstream, pts: nat)
      requires bs.Valid() && bs.used == 0 && bs.regUsed == 0 && bs.Written() == [] && bs.buflen >= 14
      modifies bs`used, bs`regUsed, bs`reg, bs.buf
      ensures bs.Valid() && bs.used == 14 && bs.regUsed == 0
      ensures forall tail :: bs.Written() + tail == PesBits(0, pts, tail)
      ensures forall i :: bs.start + bs.used <= i < bs.buf.Length ==> bs.buf[i] == old(bs.buf[i])
    {
      hide StreamBits, StartBits, FlagBits, ClockBits, ExtensionBits, PtsHighBits, PtsLowBits;
      WriteStart(bs);
      WriteFlags(bs);
      WriteClocks(bs);
      WriteExtensions(bs);
      WritePtsHigh(bs, pts);
      WritePtsLow(bs, pts);
      forall tail ensures bs.Written() + tail == PesBits(0, pts, tail) {
        assert [] + PesBits(0, pts, tail) == PesBits(0, pts, tail);
      }
    }

    /** Lays the header over the reserved bytes; the length field is still zero. */
    method WriteHeader(pts: nat)
      requires Sized()
      modifies buf, bs
      ensures forall tail :: BytesBits(buf[..RESET_OFFSET]) + tail == PesBits(0, pts, tail)
      ensures buf[RESET_OFFSET..] == old(buf[RESET_OFFSET..])
    {
      hide StreamBits, BytesBits, PesBits, PadToByte;
      bs.SetBuffer(buf, 0, 15);
      WriteFields(bs, pts);
      AlignedNeedsNoPad(bs.Written());
      bs.WriteBufferComplete();
      assert buf[0..0 + bs.used] == buf[..RESET_OFFSET];
    }

    /** Prefixes the PES header. Only the first 14 bytes change; an empty frame is an error. */
    method End(pts: nat) returns (ret: int)
      requires Valid()
      modifies buf, bs
      ensures Valid() && ret in {0, -1}
      ensures ret == -1 <==> lines == []
      ensures ret == -1 ==> buf[..] == old(buf[..])
      ensures buf[RESET_OFFSET..] == old(buf[RESET_OFFSET..])
      ensures ret == 0 ==>
        BytesBits(buf[..bufused]) == PesBits((bufused - 6) % 0x1_0000, pts, PayloadBits(lines))
      ensures ret == 0 ==>
        var n := bufused - 6;
        buf[..14] == [0x00, 0x00, 0x01, 0xbd, (n / 0x100) % 0x100, n % 0x100, 0x84, 0x80, 0x05,
                      0x21 + 2 * ((pts / 0x4000_0000) % 8), (pts / 0x40_0000) % 0x100,
                      2 * ((pts / 0x8000) % 0x80) + 1, (pts / 0x80) % 0x100, 2 * (pts % 0x80) + 1]
    {
      hide BytesBits, PesBits, LineBits;
      EmptyIff(lines);
      if bufused == RESET_OFFSET {
        return -1;
      }
      hide PayloadBits;
      ghost var body, after := buf[RESET_OFFSET..bufused], buf[RESET_OFFSET..];
      WriteHeader(pts);
      assert body == after[..bufused - RESET_OFFSET] && buf[RESET_OFFSET..bufused] == body;
      ghost var packet: seq<byte> := buf[..bufused];
      assert packet == buf[..RESET_OFFSET] + body;
      BytesBitsAppend(buf[..RESET_OFFSET], body);
      var len := bufused - 6;
      var high: byte, low: byte := (len / 0x100) % 0x100, len % 0x100;
      LengthField(len);
      PatchLength(packet, high, low, pts, PayloadBits(lines));
      buf[4] := high;
      buf[5] := low;
      assert buf[..bufused] == packet[4 := high][5 := low];
      assert buf[RESET_OFFSET..] == after && buf[RESET_OFFSET..bufused] == body;
      HeaderOf(buf[..bufused], pts, PayloadBits(lines));
      assert buf[..14] == buf[..bufused][..14];
      return 0;
    }

    static lemma HeaderOf(s: seq<byte>, pts: nat, tail: seq<bool>)
      requires |s| >= 14 && BytesBits(s) == PesBits((|s| - 6) % 0x1_0000, pts, tail)
      ensures s[..14] == HeaderBytes(|s| - 6, pts)
    {
      hide BytesBits, PesBits, HeaderBytes;
      HeaderLayout((|s| - 6) % 0x1_0000, pts, tail);
      FirstBytes(s, HeaderBytes((|s| - 6) % 0x1_0000, pts), tail);
      HeaderCut(|s| - 6, pts);
    }

    /** Only the low sixteen bits of the length are in the header. */
    static lemma HeaderCut(n: nat, pts: nat)
      ensures HeaderBytes(n % 0x1_0000, pts) == HeaderBytes(n, pts)
    {
      SixteenBits(n);
    }

    static lemma SixteenBits(n: nat)
      ensures ((n % 0x1_0000) / 0x100) % 0x100 == (n / 0x100) % 0x100 && (n % 0x1_0000) % 0x100 == n % 0x100
    {
      var q, r := n / 0x1_0000, n % 0x1_0000;
      DivModUnique(n, 0x100, 0x100 * q + r / 0x100, r % 0x100);
      DivModUnique(0x100 * q + r / 0x100, 0x100, q, r / 0x100);
    }

    static lemma LengthField(len: nat)
      ensures 0x100 * ((len / 0x100) % 0x100) + len % 0x100 == len % 0x1_0000
    {
    }

    static lemma EmptyIff(ps: seq<Header>)
      requires Short(ps)
      ensures PayloadBits(ps) == [] <==> ps == []
    {
    }
  }
}

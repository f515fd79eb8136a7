# libklvanc: verified models of the ancillary data path

libklvanc encodes, multiplexes, transports and decodes SDI ancillary (VANC) packets. This project models the
layers that should undo each other and proves that they do:

- the bit reader and writer every codec uses (`Bits`, `Bitstreams`);
- ancillary packets, their scanner, the line multiplexer and v210 packing (`VancPackets`, `VancLines`, `Pixels`);
- SMPTE ST 2038: packetizer, PES header, parser (`Smpte2038`, `PesHeaders`, `Smpte2038Packetizer`,
  `Smpte2038Parser`);
- SCTE 104: message codec, encoder, decoder, fragment reassembly, transport in VANC (`Scte104Format`,
  `Scte104Layouts`, `Scte104Encoder`, `Scte104Decoder`, `Scte104Fragments`, `Scte104Transport`);
- the caption distribution packet of CEA-708 (`CdpFormat`, `CdpLayouts`, `Cdps`);
- MPEG transport packets, the byte ring and the PES extractor (`TsPacketizer`, `RingBuffers`, `PesExtraction`,
  `TsTransport`, `TsStreams`);
- the cache of packets seen (`Cache`);
- the whole path from SDI words to transport packets and back (`EndToEnd`).

Code that changes state is modelled by methods and classes that change the same state; each is proved against a
function of its inputs or old state, and the properties the library is for are lemmas about those functions. Bit
strings (`seq<bool>`, most significant bit first) are the common currency: a writer appends to `Written()`, a reader
consumes `Rest()`. Formats are written in continuation style: `FooBits(x, tail)` is the encoding of `x` followed
by `tail`. PES headers, SCTE 104 messages and caption packets are stated a second time, byte by byte, and every
parser is also proved on input no encoder here writes.

`dafny verify dfyconfig.toml` checks everything.

Where the code and its own comments disagree the model follows the code:

- `klvanc_checksum_is_valid` counts the checksum word among its words (src/core-checksum.c:73-74), its comment does
  not.
- The scanner's comment calls 7 words the minimum packet length; a header is only accepted with more than 7 words
  left (src/core-packets.c:30-41), so a packet of the bare minimum at the very end of a line is not seen.
- The CDP encoder comments the bit the parser reads as the drop frame flag as reserved
  (src/core-packet-eia_708b.c:461 against line 297).
- `klbs_write_buffer_complete` pads one bit too many on an unaligned stream.

Properties that turned out false in full generality are stated with the exact condition under which they hold,
and with an input that fails it:

| exact condition | failing input |
|---|---|
| `Bitstreams.CompleteIdempotentIffAligned` | `Bitstreams.ClosedTwice` |
| `VancPackets.CreateParseRoundTrip` | `VancPackets.CountWrapsAround` |
| `Pixels.PackedIff` | `Pixels.WideSample` |
| `Pixels.LumaRoundTripIff` | `Pixels.OddSampleLost` |
| `Smpte2038.StuffingToleratedIff` | `Smpte2038.StuffedTail` |
| `Scte104Transport.WordsRoundTrip` | `Scte104Transport.LongMessageLost` |
| `Scte104Transport.MessageRoundTripIff` | `Scte104Transport.UnknownFirst` |
| `CdpFormat.DropFrameIff` | `CdpFormat.DropFrameSet` |
| `RingBuffers.GrowthKeepsContentsIff` | `RingBuffers.GrownWhileWrapped` |
| `TsTransport.LosslessPes` | `TsTransport.LargePesLost` |
| `TsStreams.AllThroughIff` | `TsStreams.ShortPesWaits` |
| `Cache.ResetClearsIff` | `Cache.ResetForgetsNothing` |

## Model

| member | source | states |
|---|---|---|
| Bitstreams.Bitstream.constructor | src/klbitstream_readwriter.h:116-145 | a fresh context has written nothing and has the whole buffer ahead |
| Bitstreams.Bitstream.SetBuffer | src/klbitstream_readwriter.h:128-145 | re-targeting a context forgets what was written and puts exactly the new window ahead |
| Bitstreams.Bitstream.WriteBit | src/klbitstream_readwriter.h:152-167 | the stream written grows by exactly the low bit; bytes outside the one emitted are untouched |
| Bitstreams.Bitstream.WriteByteStuff | src/klbitstream_readwriter.h:174-178 | fills up to the byte boundary with copies of the bit and stops there |
| Bitstreams.Bitstream.WriteBits | src/klbitstream_readwriter.h:188-192 | appends the low n bits of the value, most significant first, at any alignment |
| Bitstreams.Bitstream.WriteBufferComplete | src/klbitstream_readwriter.h:201-207 | the buffer holds the stream zero-padded to whole bytes; an unaligned stream keeps one surplus zero bit pending |
| Bitstreams.CompleteIdempotentIffAligned | src/klbitstream_readwriter.h:201-207 | closing twice emits the same bytes as closing once exactly when the stream was byte aligned |
| Bitstreams.ClosedTwice | src/klbitstream_readwriter.h:201-207 | one bit closed once emits one byte, closed twice two |
| Bitstreams.Bitstream.ReadBit | src/klbitstream_readwriter.h:214-235 | returns the first bit of what is ahead and consumes it, loading a byte when the register is empty |
| Bitstreams.Bitstream.ReadByteAligned | src/klbitstream_readwriter.h:237-240 | the byte shortcut reads the same eight bits the bit loop would |
| Bitstreams.Bitstream.ReadBits | src/klbitstream_readwriter.h:247-259 | returns the number the next n bits denote, by either path, and consumes exactly them |
| Bitstreams.Bitstream.PeekBits | src/klbitstream_readwriter.h:269-273 | sees what a read would return and leaves the stream as it was |
| Bitstreams.Bitstream.ReadByteStuff | src/klbitstream_readwriter.h:280-284 | discards exactly the bits up to the byte boundary |
| Bitstreams.Bitstream.BitMove | src/klbitstream_readwriter.h:340-345 | the bits taken from the source are the bits appended to the destination, at any pair of alignments |
| Bitstreams.FieldsRoundTrip | src/klbitstream_readwriter.h:188-259 | for any list of values and widths, reading the widths back returns each value modulo two to its width, in order |
| Bitstreams.WriteStream | src/klbitstream_readwriter.h:188-207 | any list of writes closed once leaves ceil(bits / 8) bytes holding the zero-padded bit string |
| Bitstreams.ReadBack | src/klbitstream_readwriter.h:247-259 | reading any list of widths yields the numbers at those places of the stream |
| Bitstreams.WriteThenRead | src/klbitstream_readwriter.h:188-259 | the writer followed by the reader gives back every value modulo two to its width |
| Bits.MostSignificantFirst | src/klbitstream_readwriter.h:188-192 | in bit strings the most significant bit comes first, in numbers of two bytes the most significant byte |
| VancPackets.MarkedByte | src/core-packets.c:311-320 | a marked byte keeps its value, has an even number of bits set among bits 0 to 8, and bit 9 is the inverse of bit 8, as SMPTE ST 291-1 requires |
| VancPackets.ChecksumIff | src/core-checksum.c:42-52 | a word is the checksum of others exactly when it is their sum modulo 512 with bit 9 the inverse of bit 8 |
| VancPackets.ChecksumCalculate | src/core-checksum.c:42-52 | the loop yields the sum of the words modulo 512, with bit 9 the inverse of bit 8 |
| VancPackets.ChecksumIsValid | src/core-checksum.c:64-82 | true exactly when the last word is the checksum of the ones before it |
| VancPackets.CreatePayload | src/core-packets.c:289-335 | fails exactly for a depth other than 10, a zero DID or SDID or no bytes; otherwise the words are flag, marked header and bytes, and their checksum |
| VancPackets.KnownPacket | src/core-packets.c:289-335 | the packet of one byte, word for word |
| VancPackets.CreatedIsLegal | src/core-packets.c:289-335 | every created packet of 1 to 255 bytes has its ADF only at the start and declares its own length |
| VancPackets.CreatedRange | src/core-packets.c:315-329 | every word behind the ADF lies in 0x100 to 0x2ff |
| VancPackets.CreateParseRoundTrip | src/core-packets.c:126-170 | parsing a created packet gives back DID, SDID, type and, exactly for at most 255 bytes, the bytes with a valid checksum |
| VancPackets.ForeignPacket | src/core-packets.c:126-170 | any complete packet, whoever made it, is returned word by word; its checksum is valid exactly when it is the sum of the words before it |
| VancPackets.FlagWords | src/core-packets.c:30-41 | a data flag is a word up to 2 and two words whose bits 2 to 9 are set, with at least eight words on the line |
| VancPackets.CountWrapsAround | src/core-packets.c:289-335 | 256 bytes are framed with a count of 0 and none comes back |
| VancPackets.LookupTypeByDid | src/core-packets.c:43-69 | the first table entry with the identifiers gives the type; no entry, no type |
| VancPackets.KindsByIdentifier | src/core-packets.c:43-69 | each registered pair of identifiers has its type, and no other pair has one |
| VancPackets.VancContext.ParseByType | src/core-packets.c:105-115 | hands the header to the decoder of its type, and to none exactly when it has no type |
| VancPackets.VancContext.ParseOne | src/core-packets.c:126-170 | a header is found exactly where the ADF test passes; its type, ADF words and fields are those of the words there, the raw copy is the rest of the line, and only a bad checksum is counted |
| VancPackets.VancContext.PacketParse | src/core-packets.c:214-287 | caches every packet the scan meets in order, delivers and decodes by type those with valid checksums (or all if allowed), counts failures; an empty or oversized line changes nothing |
| VancPackets.EachForItself | src/core-packets.c:126-287 | each header counts for itself: a valid one is delivered, an invalid one is one failure and delivered only if that is allowed, and of those delivered the ones with a type are decoded |
| VancPackets.ScanExactly | src/core-packets.c:214-287 | on any line, the packets reported are no closer than seven words and every data flag lies in the seven words of one reported |
| VancPackets.ScannerSoundAndComplete | src/core-packets.c:214-287 | on any line of legal packets separated by filler the scan reports exactly one header per packet at its true offset: the jump of 7 skips none, and none is seen inside a packet |
| VancPackets.CreatedOnLine | src/core-packets.c:214-335 | a created packet among filler words is the one packet handed to its decoder |
| VancLines.Line.AdjustOffsets | src/core-lines.c:127-172 | every entry is pushed against its predecessor and rejected entries end with width zero, as the greedy layout says; the sum returned is the number of words accepted |
| VancLines.Line.ScanIllegal | src/core-lines.c:143-159 | true exactly when some word past index 2 is reserved |
| VancLines.AcceptedAre | src/core-lines.c:143-172 | an entry with a reserved word behind its first three is as if it had never been inserted; the others are taken as they fit |
| VancLines.Line.Assemble | src/core-lines.c:185-192 | copying each entry to its offset yields the concatenation: every output word is written, and once |
| VancLines.Line.Generate | src/core-lines.c:121-194 | for any order the sort may leave, the output is the concatenation of those entries without a reserved word that fit greedily; there is output exactly when one word is accepted |
| VancLines.LayoutWords | src/core-lines.c:127-172 | what the rewritten entries put on the line is exactly what a greedy packer accepts, placed without gaps, never longer than the line |
| VancLines.RegenerateIsIdempotent | src/core-lines.c:121-194 | generating again after the entries were rewritten, with any order of equal offsets, emits the same words |
| VancLines.LineSet.Insert | src/core-lines.c:53-106 | appends to the line of that number, creating it while fewer than 64 exist; refuses exactly when the table or the line, at 16 entries, is full, and then changes nothing |
| VancLines.MultiplexThenScan | src/core-lines.c:121-194 | created packets multiplexed on a line and scanned again are reported as exactly the accepted ones, in order, valid, each at the sum of the widths before it |
| VancLines.SendAndScan | src/core-lines.c:53-194 | created packets inserted, the line generated and its words parsed: the context caches, delivers and decodes exactly what a greedy packer takes of the sorted packets, each as its source |
| Pixels.PackedSample | src/core-pixels.c:157-226 | every ten-bit sample of a line of any length can be read back from its packed words |
| Pixels.PackedIff | src/core-pixels.c:157-226 | all samples can be read back exactly when none has more than ten bits; wider ones run into their neighbours |
| Pixels.WideSample | src/core-pixels.c:157-226 | a sample of eleven bits comes back as 0 and its neighbour one higher |
| Pixels.UyvyToV210 | src/core-pixels.c:157-226 | all unrolled tail cases amount to packing three samples a word and filling the last with blanks |
| Pixels.Y10ToV210 | src/core-pixels.c:132-155 | packing luma is packing the line interleaved with blank chroma, in every tail case |
| Pixels.LineToUyvy | src/core-pixels.c:114-123 | writes sample k of the packed line to place k, whole groups, and nothing beyond |
| Pixels.LineToNv20 | src/core-pixels.c:58-95 | fails exactly for zero width or a short buffer; otherwise spreads the samples over disjoint luma and chroma planes, all but the last of an odd line |
| Pixels.UyvyThereAndBack | src/core-pixels.c:114-226 | for every length the first W samples after packing and unpacking are the source |
| Pixels.LumaRoundTripIff | src/core-pixels.c:58-155 | the luma plane is restored, whatever it held before, exactly for lines of even length |
| Pixels.PlanesOf | src/core-pixels.c:58-95 | of a packed line unpacked to planes, luma stands in front and chroma behind it, both in order |
| Pixels.OddSampleLost | src/core-pixels.c:58-155 | a line of one luma sample leaves the plane as it was |
| Pixels.Y10ThereAndBack | src/core-pixels.c:58-155 | the two methods run one after the other restore an even luma line |
| Pixels.GenerateV210 | src/core-lines.c:196-219 | the buffer begins with the packed generated line, whatever words it carries: luma only above 720 pixels, both kinds of sample otherwise |
| Smpte2038.LineBack | src/smpte2038.c:109-148 | parsing a written line gives its fields cut to their widths and leaves exactly what follows; the overrun guard never rejects it |
| Smpte2038.ForeignLine | src/smpte2038.c:109-148 | a line from any source is rejected for reserved bits or a channel flag that are not zero, and otherwise returned field by field, the horizontal offset among them |
| Smpte2038.TruncatedLine | src/smpte2038.c:124-148 | a line is read exactly when its words and checksum are there, and rejected exactly when the whole bytes behind its count are too few |
| Smpte2038.PayloadRoundTrip | src/smpte2038.c:103-185 | parsing the lines of any packets of at most 255 words gives exactly those lines, in order |
| Smpte2038.ForeignPayload | src/smpte2038.c:103-185 | the lines of any well-formed payload come back in order, whatever bits fill up their last bytes |
| Smpte2038.StuffingTolerated | src/smpte2038.c:150-181 | any number of 0xff bytes after lines that end on a byte, including the last, changes nothing |
| Smpte2038.StuffingToleratedIff | src/smpte2038.c:150-181 | for any lines and any stuffing behind each, the parse is exactly the lines if and only if every stuffed line ends on a byte, or is the last with at most four bytes behind it |
| Smpte2038.StuffingMisread | src/smpte2038.c:109-148 | behind a padded line stuffing is taken for a line: the parser returns that line only, or rejects |
| Smpte2038.StuffedTail | src/smpte2038.c:109-181 | five bytes of stuffing behind a line without data words make the parser reject |
| Smpte2038.PayloadAppend | src/smpte2038.c:368-409 | appending a line to a payload appends its bits to the payload's |
| Smpte2038.KeptOrMarked | src/smpte2038.c:360-366 | a word that carries parity bits is kept, right or wrong, and a bare byte is given its own |
| PesHeaders.PesRoundTrip | src/smpte2038.c:212-287 | parsing the packetizer's PES gives every line in order and the PTS modulo 2^33 |
| PesHeaders.ForeignPes | src/smpte2038.c:212-287 | a header from any source is accepted exactly for the private stream start code, no scrambling and only a PTS; its fields are returned as they stand, whatever its fixed and marker bits are |
| PesHeaders.HeaderLayout | src/smpte2038.c:426-456 | the fourteen bytes of the header written, fixed and marker bits included |
| PesHeaders.PatchLength | src/smpte2038.c:458-460 | overwriting bytes 4 and 5 is the same as having written that length field |
| Smpte2038Packetizer.Packetizer.constructor | src/smpte2038.c:292-311 | a new packetizer is empty with room for the PES header reserved |
| Smpte2038Packetizer.Packetizer.BufferAdjust | src/smpte2038.c:318-333 | growth keeps every byte in use and the accounting of used and free |
| Smpte2038Packetizer.Packetizer.Begin | src/smpte2038.c:350-357 | starts a new frame: nothing appended, same storage, all of it filled with 0xff |
| Smpte2038Packetizer.Packetizer.FitsIff | src/smpte2038.c:374-377 | the growth test passes the limit exactly for packets that do not fit under 128 KiB |
| Smpte2038Packetizer.Packetizer.MakeRoom | src/smpte2038.c:374-377 | the buffer grows by 16 KiB exactly when fewer than 64 bytes and two a word are free; then there is room for any line of at most 255 words, and earlier lines are as they were |
| Smpte2038Packetizer.Packetizer.FillLine | src/smpte2038.c:381-401 | writes exactly the line, filled up to a byte with ones, into the space given, touching nothing before it |
| Smpte2038Packetizer.Packetizer.Append | src/smpte2038.c:368-410 | adds one line behind the others; every byte already in use is unchanged and the buffer invariant holds |
| Smpte2038Packetizer.Packetizer.WriteHeader | src/smpte2038.c:426-456 | lays the PES header over the 14 reserved bytes and changes no other |
| Smpte2038Packetizer.Packetizer.End | src/smpte2038.c:413-469 | an empty frame is an error; otherwise the buffer is the PES of all lines appended since begin, its first 14 bytes, the only ones changed, given one by one |
| Smpte2038Parser.ReadLine | src/smpte2038.c:115-147 | reads one line or rejects, as the line format says |
| Smpte2038Parser.RealignReader | src/smpte2038.c:150-181 | realigns after a line and strips stuffing as specified on the bits ahead |
| Smpte2038Parser.ParsePayloadReader | src/smpte2038.c:103-185 | the loop returns exactly the lines of the payload, and whether it was rejected |
| Smpte2038Parser.ParsePesPayload | src/smpte2038.c:187-210 | the same for a payload in a buffer |
| Smpte2038Parser.ParsePesPacket | src/smpte2038.c:212-287 | header fields, PTS and lines of a PES packet; every failed validation is an error |
| Smpte2038Parser.ConvertLineToWords | src/smpte2038.c:471-502 | the words of a line with parity restored where it is missing |
| Smpte2038Parser.ParityOnce | src/smpte2038.c:360-366 | parity put on a byte is the parity SDI has, and is passed through the second time |
| Smpte2038Parser.BridgeIdentity | src/smpte2038.c:471-502 | a created packet, parsed, carried as a line and expanded again is word for word the original |
| Smpte2038Parser.FrameRoundTrip | src/smpte2038.c:350-502 | the same for every packet of a frame through the whole PES |
| Scte104Format.SpliceBack | src/core-packet-scte_104.c:242-306 | a splice request comes back field by field, each cut to its width |
| Scte104Format.SegmentationBack | src/core-packet-scte_104.c:495-567 | a segmentation request with its UPID comes back field by field |
| Scte104Format.ListBodyBack | src/core-packet-scte_104.c:361-488 | descriptor, DTMF and avail lists come back element by element |
| Scte104Format.PlainBodyBack | src/core-packet-scte_104.c:308-359 | the fixed and trailing-data bodies come back, the tier cut to 12 bits |
| Scte104Format.BodyBack | src/core-packet-scte_104.c:1248-1288 | every one of the ten operation types comes back under its own identifier |
| Scte104Layouts.BodyLayout | src/core-packet-scte_104.c:242-700 | the data of each of the ten operations byte by byte, in the order of its fields |
| Scte104Format.OpsBack | src/core-packet-scte_104.c:1248-1288 | a list of encodable operations comes back in order, whatever fills the buffer behind it; the length test never rejects it |
| Scte104Format.TimestampBack | src/core-packet-scte_104.c:702-732 | every timestamp variant comes back, with what follows it |
| Scte104Format.MessageRoundTrip | src/core-packet-scte_104.c:1326-1464 | decoding an encoded message gives the header, timestamp and every operation field by field |
| Scte104Format.SizeField | src/core-packet-scte_104.c:1440-1444 | bytes 2 and 3 hold the total byte count |
| Scte104Layouts.MessageInBytes | src/core-packet-scte_104.c:1326-1464 | an encoded message byte by byte: header, own length, timestamp, count, and identifier, length and data of every known operation |
| Scte104Layouts.OtherMessagesRefused | src/core-packet-scte_104.c:1220-1240 | a message that does not begin with 0xffff, has fewer than ten bytes or announces more than came is refused |
| Scte104Layouts.HeaderAlone | src/core-packet-scte_104.c:1220-1303 | a message of ten bytes is accepted, its timestamp and operations read from the zeros behind it |
| Scte104Layouts.ForeignBodies | src/core-packet-scte_104.c:308-653 | spare bits and bytes of an operation are ignored, lists too long for their tables are dropped, and an unknown identifier yields no fields |
| Scte104Encoder.GenSplice | src/core-packet-scte_104.c:273-306 | the bytes of a splice request |
| Scte104Encoder.GenTimeSignal | src/core-packet-scte_104.c:333-359 | the bytes of a time signal request |
| Scte104Encoder.GenDescriptor | src/core-packet-scte_104.c:377-406 | the bytes of a descriptor request of at most 254 bytes |
| Scte104Encoder.GenDtmf | src/core-packet-scte_104.c:422-451 | the bytes of a DTMF request |
| Scte104Encoder.GenAvail | src/core-packet-scte_104.c:466-493 | the bytes of an avail request of at most 63 identifiers |
| Scte104Encoder.GenSegmentation | src/core-packet-scte_104.c:524-567 | the bytes of a segmentation request with a UPID of at most 237 bytes |
| Scte104Encoder.GenProprietary | src/core-packet-scte_104.c:585-615 | the bytes of a proprietary command of at most 250 bytes |
| Scte104Encoder.GenTier | src/core-packet-scte_104.c:627-653 | the bytes of a tier operation, top four bits clear |
| Scte104Encoder.GenTimeDescriptor | src/core-packet-scte_104.c:672-700 | the bytes of a time descriptor |
| Scte104Encoder.PutOps | src/core-packet-scte_104.c:1393-1438 | the loop writes the operations with a known identifier in order and nothing for the others |
| Scte104Encoder.PatchedSize | src/core-packet-scte_104.c:1440-1444 | overwriting the size afterwards is the same as having known it, whatever size was written first |
| Scte104Encoder.Encode | src/core-packet-scte_104.c:1326-1464 | refuses all but multiple operation messages; otherwise returns the encoded message with its own length inside |
| Scte104Decoder.TakeTime | src/core-packet-scte_104.c:655-670 | the bit reader over the twelve bytes yields the three big-endian fields |
| Scte104Decoder.TakeBody | src/core-packet-scte_104.c:1269-1288 | the pointer walk over an operation's data agrees with the body format for every identifier |
| Scte104Decoder.TakeOps | src/core-packet-scte_104.c:1242-1288 | the loop yields all operations in order or stops at the first that claims more than the message holds |
| Scte104Decoder.Decode | src/core-packet-scte_104.c:1194-1303 | the decoder on the payload buffer agrees with the message format, error cases included |
| Scte104Fragments.Assembly.PayloadAppend | src/core-packets.c:396-415 | appends the payload from an offset, or changes nothing when either total would exceed the maximum |
| Scte104Fragments.KindOfByte | src/core-packet-scte_104.c:1087-1147 | what a packet is, by the value of its descriptor byte; odd ones are duplicates |
| Scte104Fragments.FragmentStore.Process | src/core-packet-scte_104.c:1087-1147 | every packet takes the store and the message through the state machine; between calls there are 0 to 9 fragments and exactly the slots below the count are filled |
| Scte104Fragments.FragmentStore.Following | src/core-packet-scte_104.c:976-998 | holds one more fragment, or drops all when none was held or the tenth slot would be taken |
| Scte104Fragments.FragmentStore.FinalFragment | src/core-packet-scte_104.c:1000-1070 | completes the message of everything held, or none on an overflow, and holds nothing afterwards |
| Scte104Fragments.DuplicateIgnored | src/core-packet-scte_104.c:1092-1098 | a packet whose first byte is odd leaves the held fragments alone and completes nothing |
| Scte104Fragments.DuplicatesDropped | src/core-packet-scte_104.c:1087-1147 | wherever such packets turn up in a history, the fragments held and every message completed are the same without them |
| Scte104Fragments.ProcessAll | src/core-packet-scte_104.c:1087-1147 | the store run over a whole history holds and completes what the packets without the flag lead to |
| Scte104Fragments.NothingHeld | src/core-packet-scte_104.c:976-984 | over any history without a first packet nothing is ever held |
| Scte104Fragments.HeldSinceFirst | src/core-packet-scte_104.c:932-1070 | over every history the fragments held are the last first packet and the intermediates since, or none after a single or final packet or an overflow |
| Scte104Fragments.Completed | src/core-packet-scte_104.c:1000-1070 | a completed message is the first payload followed by every later payload without its descriptor |
| Scte104Fragments.CompletesIff | src/core-packet-scte_104.c:1000-1070 | a final packet completes a message exactly when fragments are held that, with it, took up at most 16384 words |
| Scte104Fragments.SplitThenReassemble | src/core-packet-scte_104.c:1000-1070 | a message cut into up to ten packets, their descriptor bytes ending in 100, 110 and 010, comes back whole, whatever was held before and whatever duplicates or unrelated packets arrive between |
| Scte104Transport.WrappedIsSingle | src/core-packet-scte_104.c:1466-1495 | wrapped bytes arrive as one single packet carrying exactly them, whatever fragments are held, if and only if there are at most 254 |
| Scte104Transport.ConvertToWords | src/core-packet-scte_104.c:1497-1524 | the words are the ancillary packet of the wrapped encoded message |
| Scte104Transport.ParseScte104 | src/core-packet-scte_104.c:1072-1310 | a packet passes through reassembly and, if it completes a message, through the decoder |
| Scte104Transport.WordsRoundTrip | src/core-packet-scte_104.c:1497-1524 | one packet carries a message to the decoder unharmed exactly when it is at most 254 bytes long |
| Scte104Transport.MessageOnLine | src/core-packet-scte_104.c:1497-1524 | a message on a line among any filler words is the one packet its decoder is handed, and decodes to what was encoded |
| Scte104Transport.LongMessageLost | src/core-packet-scte_104.c:1497-1524 | a message with one descriptor of 254 bytes is 271 bytes long and never decodes to itself from its words |
| Scte104Transport.FragmentedRoundTrip | src/core-packet-scte_104.c:1072-1310 | headers of up to ten packets that carry a message decode to what was encoded |
| Scte104Transport.FragmentedWordsRoundTrip | src/core-packet-scte_104.c:1072-1310 | a message cut into such pieces, each framed as words and parsed, decodes to what was encoded, whatever was held before and whatever unrelated packets arrive between |
| Scte104Transport.EveryMessageFragments | src/core-packet-scte_104.c:1072-1147 | every message can be cut into two to ten pieces of at most 254 bytes behind first, intermediate and final descriptors |
| Scte104Transport.OpsBackCounted | src/core-packet-scte_104.c:1394-1438 | skipped operations are still counted: the decoder reads on behind the message for each of them |
| Scte104Transport.MessageRoundTripIff | src/core-packet-scte_104.c:1394-1438 | a message of up to 2000 bytes decodes to itself exactly when no operation is unknown, or only the last, with identifier 0 and four bytes of buffer left behind it |
| Scte104Transport.UnknownFirst | src/core-packet-scte_104.c:1394-1438 | an unknown operation in front of a known one is dropped and an empty one is read behind it |
| CdpFormat.HeaderBack | src/core-packet-eia_708b.c:256-269 | the CDP header comes back, the length as patched in |
| CdpFormat.SecondsBack | src/core-packet-eia_708b.c:292-301 | the second half of the time code comes back with the drop frame flag set, the tens of frames cut to two bits |
| CdpFormat.TimeCodeBack | src/core-packet-eia_708b.c:278-303 | the time code section comes back when present and is left zero when not |
| CdpFormat.CcDataBack | src/core-packet-eia_708b.c:305-331 | up to 30 caption entries come back one by one; the size checks never reject them |
| CdpFormat.SvcInfoBack | src/core-packet-eia_708b.c:333-376 | up to 15 services come back with their derived fields recomputed from the service bytes |
| CdpFormat.DerivedFields | src/core-packet-eia_708b.c:360-373 | the fields derived from service bytes are those the bytes were made of |
| CdpFormat.CdpRoundTrip | src/core-packet-eia_708b.c:223-407 | for every combination of sections, parsing an encoding gives back every encoded field |
| CdpLayouts.ForeignCdp | src/core-packet-eia_708b.c:223-407 | a packet from any source, with any of the sections and whatever its reserved bits, comes back field by field, the drop frame flag among them; its checksum is valid exactly when its bytes add up to a multiple of 256 |
| CdpLayouts.ForeignWithoutFooter | src/core-packet-eia_708b.c:333-407 | a packet without a footer is accepted, unless a service section without services stands last |
| CdpLayouts.FrontLayout | src/core-packet-eia_708b.c:415-518 | the bits of a packet are those of its bytes, reserved bits included |
| CdpFormat.DropFrameIff | src/core-packet-eia_708b.c:461 | parsing the encoding of a packet within range gives it back, length and checksum filled in, exactly when it has no time code or its drop frame flag is set |
| CdpFormat.DropFrameSet | src/core-packet-eia_708b.c:461 | a packet with a time code and the flag clear is parsed with the flag set |
| Cdps.Encode | src/core-packet-eia_708b.c:415-518 | at most 215 bytes, given one by one, the length byte their count and their sum a multiple of 256 |
| Cdps.Patched | src/core-packet-eia_708b.c:500-511 | setting the last byte and the length byte changes those two fields and nothing else |
| Cdps.SumOf | src/core-packet-eia_708b.c:393-396 | the 8-bit accumulator ends with the sum of all bytes modulo 256 |
| Cdps.TakeCcData | src/core-packet-eia_708b.c:305-331 | reads the caption section or reports too little data |
| Cdps.TakeSvcInfo | src/core-packet-eia_708b.c:333-376 | reads the service section or reports too little data |
| Cdps.DeriveInfo | src/core-packet-eia_708b.c:360-373 | setting fields flag by flag amounts to the meaning of the service bytes |
| Cdps.Decode | src/core-packet-eia_708b.c:223-407 | the decoder agrees with the format, sections recognised by identifier, every shortage an error |
| Cdps.ConvertToWords | src/core-packet-eia_708b.c:520-537 | the words are the ancillary packet of an encoded CDP |
| Cdps.WordsRoundTrip | src/core-packet-eia_708b.c:520-537 | an encoded packet framed as words and found again is a caption packet and decodes to what was encoded, both checksums valid |
| Cdps.CdpOnLine | src/core-packet-eia_708b.c:520-537 | on a line among any filler words it is the one packet the caption decoder is handed |
| RingBuffers.NewRing | tools/klringbuffer.c:24-45 | an empty ring, refused exactly for a zero size or one over the maximum |
| RingBuffers.RingBuffer.Grow | tools/klringbuffer.c:47-58 | refused exactly over the maximum, changing nothing; otherwise the old bytes stay where they were |
| RingBuffers.RingBuffer.Write | tools/klringbuffer.c:72-99 | appends to the queue, in one piece or around the end; growth of wrapped contents replaces the part at the front of the storage by what realloc left; a refused write changes nothing |
| RingBuffers.RingBuffer.Reader | tools/klringbuffer.c:139-175 | returns the front of the queue, removing it only when advancing; shrinking an emptied ring loses nothing |
| RingBuffers.RingBuffer.Read | tools/klringbuffer.c:177-180 | dequeues the oldest bytes, at most as many as there are |
| RingBuffers.RingBuffer.Peek | tools/klringbuffer.c:182-185 | sees them and changes nothing |
| RingBuffers.GrowthKeepsContentsIff | tools/klringbuffer.c:55-56 | growing keeps the contents, whatever the new bytes are, exactly when they had not wrapped around |
| RingBuffers.GrownWhileWrapped | tools/klringbuffer.c:47-99 | a ring of 4: write 3, read 2, write 3, write 1; of the five bytes read two are not those written |
| RingBuffers.NextValid | tools/klringbuffer.c:72-175 | every allowed operation keeps head and fill within the storage, through growth and shrinking |
| RingBuffers.RefusedIff | tools/klringbuffer.c:47-85 | a write is refused exactly when the bytes do not fit and 128 times as many more would pass the limit |
| RingBuffers.ShrinksIff | tools/klringbuffer.c:139-175 | only a read that empties a grown ring shrinks it, to its first size |
| RingBuffers.Run | tools/klringbuffer.c:47-185 | over every interleaving of writes, reads and peeks clear of the two unhandled cases the ring answers as a FIFO queue |
| TsPacketizer.PutPacket | tools/ts_packetizer.c:46-60 | fills exactly one 188-byte packet: header, payload, stuffing |
| TsPacketizer.PacketAt | tools/ts_packetizer.c:46-60 | packet k carries the bytes from 184 k on behind sync byte, start flag on the first only, PID and counter, with stuffing behind the last |
| TsPacketizer.Packetize | tools/ts_packetizer.c:29-67 | the output is the packets of the split PES one behind the other, the counter running on; bad arguments are refused |
| PesExtraction.PesExtractor.FindSync | tools/pes_extractor.c:103-116 | the sliding window over the shrinking ring does what the search on the queue says, half-way stop included |
| PesExtraction.PesExtractor.Dequeue | tools/pes_extractor.c:101-161 | the loop calls back with exactly the PES packets the queue yields and leaves the rest |
| PesExtraction.PesExtractor.ProcessPacket | tools/pes_extractor.c:70-162 | a packet's payload, behind any adaptation field, is queued and drained, in a ring that grows, shrinks or has lost bytes to growth; a refused write changes nothing |
| PesExtraction.PesExtractor.Push | tools/pes_extractor.c:164-179 | the packets with the wanted PID are processed in order, the others ignored, over any run in which no growth loses bytes |
| TsStreams.PayloadBehind | tools/pes_extractor.c:70-87 | of a transport packet with an adaptation field of any length, or none, the extractor takes exactly the payload |
| TsStreams.ProcessWire | tools/pes_extractor.c:70-162 | one such packet processed: the bytes queued are those of its payload |
| TsStreams.AnySplitRoundTrip | tools/pes_extractor.c:70-179 | PES packets cut over transport packets in any way, with adaptation fields of any length and among other PIDs, are called back in order, all of them exactly when the last is longer than sixteen bytes; up to 16205 bytes each the ring loses nothing |
| TsStreams.AllThroughIff | tools/pes_extractor.c:101-124 | all packets of a stream are delivered exactly when the last is longer than sixteen bytes |
| TsStreams.ShortPesWaits | tools/pes_extractor.c:101-124 | a PES packet of fourteen bytes at the end of a stream is not delivered |
| TsStreams.Collect | tools/pes_extractor.c:164-179 | the run itself on a new extractor |
| TsStreams.LongerLost | tools/klringbuffer.c:47-99 | with 16206 bytes and the head of the ring in mid-storage a packet can be lost |
| TsStreams.FirstPiece | tools/pes_extractor.c:103-116 | behind payload stuffing the first piece of a PES packet waits, is found, is kept, or loses the front of its start code, depending on its length and theirs |
| TsTransport.SearchFinds | tools/pes_extractor.c:103-116 | the search passes over leftover stuffing and stops behind the start code |
| TsTransport.DrainStuffing | tools/pes_extractor.c:103-124 | on pure stuffing the search gives up half way and nothing is delivered |
| TsTransport.FeedPes | tools/pes_extractor.c:70-162 | one PES packet of any size behind leftover stuffing is delivered whole from the queue, leaving at most 89 stuffing bytes |
| TsTransport.LosslessPes | tools/klringbuffer.c:47-99 | a PES packet passes through the ring without loss exactly when it fits the ring as it is, or its start code ends within twelve bytes of the front of the storage |
| TsTransport.LosslessAll | tools/pes_extractor.c:70-162 | the same for a list of packets, each in the ring the one before leaves |
| TsTransport.SmallCarriable | tools/pes_extractor.c:70-162 | lists of packets of at most 16376 bytes always pass |
| TsTransport.LargePesLost | tools/klringbuffer.c:47-99 | a packet of 16377 bytes behind contents in mid-storage does not |
| TsTransport.TransportRoundTrip | tools/pes_extractor.c:70-179 | any list of PES packets, split and mixed with packets of other PIDs, is called back exactly, in order; nothing is lost in the ring exactly when all are carriable |
| TsTransport.OthersIgnored | tools/pes_extractor.c:171-176 | packets of other PIDs make no difference |
| TsTransport.Relay | tools/ts_packetizer.c:29-67 | packetizer and extractor run together deliver exactly the packets sent, for every list carriable in a new ring |
| Cache.Index.Update | src/core-cache.c:62-99 | accepts exactly packets with 8-bit identifiers on lines below 2048; the index agrees with the longer history |
| Cache.Index.Lookup | src/core-cache.c:52-60 | the entry shows how many packets of that kind there were and, of each line, how many of them and the last |
| Cache.ExpectedSeen | src/core-cache.c:62-99 | what a line of the index stands for: the packets with those identifiers on that line, counted, and the last of them |
| Cache.Index.Reset | src/core-cache.c:101-133 | with both skips, forgets every kind whose 32-bit counter is not zero |
| Cache.KeyCountIsSum | src/core-cache.c:84-96 | a kind's counter is the sum of the counts of its lines |
| Cache.LastIsLatest | src/core-cache.c:88-93 | the packet held for a line is the latest of its kind there |
| Cache.ResetClearsIff | src/core-cache.c:113-115 | a reset forgets everything exactly when no counter has come round to zero |
| Cache.ResetForgetsNothing | src/core-cache.c:113-115 | after 2^32 copies of a packet a reset passes over all of them |
| Cache.AgreesWithHistory | src/core-cache.c:62-133 | over any run of fewer than 2^32 updates and resets the index stands for the packets since the last reset |
| Cache.Run | src/core-cache.c:62-133 | the run itself keeps the index in agreement |
| EndToEnd.FrameThereAndBack | src/smpte2038.c:212-469 | begin, append each packet, end and parse: exactly the packets' lines in order and the PTS modulo 2^33, for every frame under the cap; an empty frame is an error |
| EndToEnd.FramePes | src/smpte2038.c:413-469 | what the packetizer produces is what the extractor looks for, start code and a length that counts the rest, exactly when that length fits its 16 bits |
| EndToEnd.FramesOverTransport | tools/pes_extractor.c:70-179 | any run of frames sent as transport packets among any others arrives frame by frame, every ancillary packet word for word, every time stamp modulo 2^33; nothing is lost in the ring exactly when all are carriable |

## Left out

- Reads past the end of a buffer (`LineShort`, `Overread`, `Undefined`): the C code does not define them; the methods require that the input causes none.
- A received CDP announcing 31 caption entries overruns the table of 30; it counts among the reads left undefined.
- `klvanc_smpte2038_parse_pes_packet` on fewer than 14 bytes: it reads its header without a length check, so a whole header is required.
- `klvanc_packet_parse` on 1 to 6 words, or with a packet running over the end of the line: it reads past the line, so both are required away.
- An append that would pass 128 KiB aborts the process; it is excluded by the condition `Fits`, whose exact meaning is `FitsIff`.
- A payload of more than 255 words given to the ST 2038 packetizer: its data count no longer means its length.
- Smpte2038Parser.ConvertLineToWords: requires as many user data words as the data count says, as every parsed line has.
- Allocation failure, null arguments, mutexes, `gettimeofday` and debug output.
- User callbacks: modelled as the sequence of what they were called with.
- `realloc` and `malloc` results: bytes beyond those copied are arbitrary.
- `qsort`: the sorted order is a parameter, any permutation sorted by offset.
- VancLines.Line.Generate: line width and offsets are unbounded integers; 32-bit overflow of offsets is not modelled.
- `klvanc_generate_vanc_line_v210` on a line without accepted words uses an unset pointer; `GenerateV210` requires a word.
- Shifting a word of 2048 or more left by 20 bits overflows an `int`; `Pixels.Pack` takes the result modulo 2^32.
- RingBuffers.RingBuffer.Write: a write of the whole capacity from a nonzero head overruns the storage; it is excluded by `InBounds`.
- TsStreams.AnySplitRoundTrip: streams whose payloads are either stuffed, as the packetizer stuffs them, or exact; what mixing the two does is stated for the first payload of a PES packet (`FirstPiece`), not for whole runs.
- The raw words a header copies (src/core-packets.c:136-142): `ParseOne` returns them beside the header, and the headers cached and delivered do not carry them.
- Host endianness of `put_le32`: a v210 line is a sequence of 32-bit words.
- `klvanc_v210_planar_unpack_c` and `klvanc_v210_downscale_line_c`: fixed loops with nothing beyond `LineToNv20`.
- `klbs_bitcopy`: `BitMove` on a copy of the source; `klbs_save` and the storage helpers are I/O and allocation.
- SCTE 104 bodies over the 255-byte buffer they are serialised in (descriptor over 254, DTMF over 7, avails over 63, UPID over 237, proprietary over 250 bytes) overrun it; `Encodable` excludes them. A message over 2000 bytes overruns the message buffer and is excluded too.
- CdpFormat.CdpRoundTrip: a footer identifier other than 0x74 is not read as a footer, so it is required.
- The decoders for single operation messages, AFD, EIA-608, SDP, SMPTE 12-2, SMPTE 2108-1 and the u64 counter.
- VancPackets.VancContext.ParseByType: records which decoder a header is handed to, not what that decoder returns.
- Name tables, dump functions, command line tools, UDP and file output, the rate limiter for log messages.

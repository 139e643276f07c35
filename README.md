# nicFW codeplug byte layer, modelled in Dafny

This project models the byte layer of the nicFW radio programmer. It covers:

- **Record codecs.** Each codec works on a fixed byte window:
  - channel blocks, in the big-endian TypeScript layout and the little-endian legacy layout;
  - tone words and group nibbles;
  - the band plan, in both decoders;
  - the 128-byte settings block;
  - scan presets and DTMF presets.
- **The codeplug image.** This is 256 blocks of 32 bytes. The model covers the operations that read and write regions of it:
  - the full-image read and write loops;
  - the in-memory `CodeplugService` and its region methods;
  - the group-label splice that can straddle two blocks.
- **The serial transport.** This covers:
  - the checksum and the read-reply check;
  - the write-block frame sequence;
  - the receive buffer that hands each pending operation exactly `expectedLength` bytes;
  - the firmware-flash packetiser and its handshake.

Frequencies, steps and tones stay in their raw integer units: 10 Hz units and tenths of a hertz. Bytes are integer subset types, and bit operations are written as division and remainder by powers of two.

How the code's behaviour is represented:

- **The radio.** The class `Radio.Radio` stands for the device. It holds:
  - an 8192-byte memory;
  - a set of blocks whose reads fail;
  - a set of blocks whose writes it refuses to store;
  - the block of a pending write header;
  - the trace of events sent to it (connect, a bare port open, frames, close).

  The communicator's `isOpen` flag and the port's open state are read off that trace by `Radio.PortAfter`. `close()` never clears `isOpen`, so after one session a later `connect()` returns at once and the port stays closed (`Radio.OpenFlagSticks`); only writeCodeplug's own `port.open()` opens it again. The device class does not make frames to a closed port fail (see "## Left out").
- **Enum fields.** A field the types declare as a numeric enum is a `JsValue`: a number, or a name string. The decoder stores the modulation and PTT ID as names. The renderer sends the bandwidth as the string 'Wide' or 'Narrow', and the encoder compares it with the number `Bandwidth.Wide`.

  This device always answers in time, so the bulk operations never meet the `executeCommand` timeout. Timeouts are modelled only in `Transport.RadioCommunicator` (see "## Left out").
- **Serial events.** Chunks arriving on the serial port and timers firing are the events that drive `Transport.RadioCommunicator` and `Flash.FlashSession`.
- **In-place buffers.** The code fills `Buffer`s in place. The model does this on Dafny arrays, specified by functions on `a[..]`.
- **Errors.** An exception the code throws becomes an `Err`/`Fail` value that names it. Examples: the RangeError of a `writeUInt8` out of range, "Codeplug not fetched", and a bad magic number.

The structure of the proofs:

- Each imperative operation is proved against a specification function.
- Each codec is paired with its inverse or its layout, through an all-inputs round-trip lemma.
- Where the code's round trip does not hold, a lemma states exactly what comes back instead:
  - the channel groups come back pair-swapped;
  - the legacy decoder flips the bandwidth;
  - DCS tones are read as CTCSS;
  - scan presets come back one number higher;
  - a scan-preset write erases group labels.

## Model

| member | source | states |
|---|---|---|
| Bytes.ChecksumDetectsOneByteChange | src/radio/radio-communicator.ts:226-228 | The checksum is the byte sum modulo 256, so changing any one byte of a payload changes it |
| Bytes.SumConcat | src/radio/radio-communicator.ts:226-228 | The unsigned sum accumulated by the reduce is additive over concatenation |
| Bytes.I8 | src/radio/settings.ts:88 | readInt8 gives a value in -128..127 that is congruent to the byte modulo 256 |
| Bytes.Field32Determined | src/radio/channel-memories.ts:82-85 | A 32-bit field read back (big- or little-endian) and written again gives the same four bytes |
| Bytes.Field16Determined | src/radio/channel-memories.ts:88-91 | A 16-bit field read back (big- or little-endian) and written again gives the same two bytes |
| Bytes.BigEndianDigits | src/radio/channel-memories.ts:82-85 | A u32 is the sum of its four base-256 digits, most significant first |
| Bytes.ConcatBlocks | src/radio/group-labels.js:11-16 | Consecutive blocks of the image, concatenated as Buffer.concat does, are the image bytes from the first block's address on |
| Bytes.SameBlocks | src/radio/codeplug.js:17-21 | Two images with the same 256 blocks are equal |
| Bytes.SetBlockOther | src/radio/codeplug.js:58-61 | Replacing block n leaves every other block as it was |
| Bytes.SpliceOutside | src/radio/group-labels.js:63-70 | Buffer.copy into a range leaves every slice outside that range unchanged |
| Buffers.Copy | src/radio/group-labels.js:64 | src.copy(dst, at) makes bytes at..at+\|src\| of the array hold src, the rest unchanged |
| Buffers.Fill | src/main/codeplugService.ts:159-162 | fill(v, lo, hi) sets exactly bytes lo..hi-1 to v |
| Buffers.WriteUInt8 | src/radio/channel-memories.ts:94 | writeUInt8 stores a value in 0..255, and otherwise is a RangeError that changes nothing |
| Buffers.WriteUInt16BE | src/radio/channel-memories.ts:88-91 | Stores a value below 65536 big-endian at the offset, and otherwise is a RangeError that changes nothing |
| Buffers.WriteUInt16LE | src/radio/channel-memories.js:57-66 | Stores a value below 65536 little-endian, and otherwise is a RangeError that changes nothing |
| Buffers.WriteUInt32BE | src/radio/channel-memories.ts:82-85 | Stores a value below 2^32 big-endian, and otherwise is a RangeError that changes nothing |
| Buffers.WriteUInt32LE | src/radio/channel-memories.js:51-54 | Stores a value below 2^32 little-endian, and otherwise is a RangeError that changes nothing |
| Text.TrimIdempotent | src/radio/group-labels.js:26 | String.prototype.trim applied twice is applied once |
| Text.TrimAppendSpaces | src/radio/scan-presets.ts:38 | Whitespace padding on the right does not change a trimmed string |
| Text.AsciiRoundTrip | src/radio/channel-memories.ts:39 | ASCII text written with the 'ascii' encoding and read back is unchanged |
| Text.RemoveCharAbsent | src/radio/channel-memories.ts:39 | Removing a character that does not occur leaves the string unchanged |
| Text.KeepPrintableAll | src/radio/group-labels.js:25 | Filtering to printable ASCII keeps a string that is already printable |
| Text.DigitsValueLeadingZeros | src/utils/converters.ts:34 | Leading zeros added by padStart do not change a digit string's value |
| Converters.FromGroupBytes | src/utils/converters.ts:7-14 | Every group slot decoded from the two bytes lies in 0..15 |
| Converters.ClampGroup | src/utils/converters.ts:16-28 | The clamp yields 0..15 and keeps a slot already in 0..15 |
| Converters.GroupBytesClampRoundTrip | src/utils/converters.ts:7-28 | fromGroupBytes(toGroupBytes(g)) is g with every slot clamped to 0..15, each in its own position |
| Converters.GroupBytesRoundTrip | src/utils/converters.ts:7-28 | fromGroupBytes(toGroupBytes(g)) = g for every g with slots in 0..15 |
| Converters.GroupBytesDecodeEncode | src/utils/converters.ts:7-28 | Every pair of bytes is the encoding of what it decodes to |
| Converters.GroupStringOf | src/utils/converters.js:5-15 | toGroupString yields at most four letters, all in A..O |
| Converters.ToGroupString | src/utils/converters.js:5-15 | The loop returns the letters of the non-zero nibbles, the highest nibble first, zero nibbles skipped |
| Converters.PrependLetters | src/utils/converters.js:8-14 | Prepending one letter per non-zero nibble from nibble 0 up gives the reversed letters of the non-zero nibbles |
| Converters.GroupWordOf | src/utils/converters.js:17-34 | toGroupWord always returns a value below 0x10000 |
| Converters.ToGroupWord | src/utils/converters.js:17-34 | The OR loop returns the word whose nibble i comes from the (i+1)-th character from the right of the Unicode upper-cased string, below 0x10000 |
| Converters.PackGroupWord | src/utils/converters.js:22-33 | The OR loop over the last four characters of an upper-cased string computes the packed word, nibble i from the (i+1)-th character from the right |
| Text.UpperCase | src/utils/converters.js:20 | toUpperCase of one character is one to three characters; a..z become A..Z and A..Z stay as they are |
| Converters.SharpSExample | src/utils/converters.js:20-31 | "a\u00DF" upper-cases to "ASS", giving 0x0100 |
| Converters.DotlessIExample | src/utils/converters.js:20-31 | Dotless i upper-cases to "I", giving group 9 |
| Converters.LigatureExample | src/utils/converters.js:20-31 | The ff ligature upper-cases to "FF", giving 0x66 |
| Converters.NibblesOfPack | src/utils/converters.js:23-30 | Packing four nibbles and reading them back gives the nibbles |
| Converters.GroupStringWordRoundTrip | src/utils/converters.js:8-30 | toGroupString(toGroupWord(s)) = s for every string of at most four letters A..O |
| Converters.GroupWordStringCompacts | src/utils/converters.js:8-30 | toGroupWord(toGroupString(w)) is the word of w's nibbles compacted: zero nibbles are squeezed out |
| Converters.GroupWordStringRoundTrip | src/utils/converters.js:8-30 | toGroupWord(toGroupString(w)) = w if and only if w's non-zero nibbles are contiguous from nibble 0 |
| Converters.GroupStringGapExample | src/utils/converters.js:5-15 | 0x0301 prints as "CA" |
| Converters.GroupWordGapExample | src/utils/converters.js:17-34 | "CA" comes back as 0x0031, not 0x0301 |
| Converters.ToneWord | src/utils/converters.ts:38-69 | "" and "off" (any case) give 0, and every result is 0, a CTCSS word 1..3000, or has the DCS bit 14 set |
| Converters.ToneOffRoundTrip | src/utils/converters.ts:30-42 | Word 0 prints as "Off" and reads back as 0 |
| Converters.CtcssRoundTrip | src/utils/converters.ts:30-52 | toToneWord(toToneString(w)) = w for every CTCSS word 1..3000 |
| Converters.CtcssStringTone | src/utils/converters.ts:44-52 | The CTCSS string of w, parsed and rounded times ten, is w |
| Converters.ToneWordDcsPath | src/utils/converters.ts:55-68 | When the CTCSS attempt fails, a DCS match decides: 0x4000, plus 0x8000 for "I", plus the octal code, or 0 when the code exceeds 14 bits |
| Converters.DcsRoundTrip | src/utils/converters.ts:30-68 | For DCS words, the round trip gives ten times the printed digits read as decimal when that is 1..300, and otherwise the word's DCS bit, inversion bit and code |
| Converters.DcsShadowExample | src/utils/converters.ts:45-55 | Word 0x4013 prints as "DCS 023N", and "DCS 023N" reads back as the CTCSS tone 230 |
| Converters.DcsShadowString | src/utils/converters.ts:30-36 | Word 0x4013 prints as "DCS 023N", its octal code padded to three digits |
| Groups.NonZero | src/utils/groups.ts:9 | The filter keeps only non-zero values, each drawn from the input, and makes the input no longer |
| Groups.CompactGroups | src/utils/groups.ts:7-25 | The forEach assigning slot g<index> returns the groups in use, in order, then zeros |
| Groups.CompactedKeepsGroupsInOrder | src/utils/groups.ts:7-25 | The compacted slots list exactly the non-zero groups, in their original order |
| Groups.CompactedKeepsCountAndMultiset | src/utils/groups.ts:9-22 | The number of groups in use and their multiset are preserved |
| Groups.CompactedDrawsFromSlots | src/utils/groups.ts:20-22 | Every compacted slot is 0 or one of the original slots |
| Groups.CompactedIsCompact | src/utils/groups.ts:7-25 | The result never has a used slot after an unused one |
| Groups.CompactLayout | src/utils/groups.ts:7-25 | A compact slot list is its non-zero values followed by zeros |
| Groups.CompactedFixedPoints | src/utils/groups.ts:7-25 | compactGroups returns g unchanged if and only if g is already compact |
| Groups.CompactedIdempotent | src/utils/groups.ts:7-25 | Compacting twice is compacting once |
| Groups.CompactedExample | src/utils/groups.ts:5 | The documented example {0,2,0,3} becomes {2,3,0,0} |
| ChannelMemories.LowBits | src/radio/channel-memories.ts:102-109 | `v & 3` on an enum field gives 0..3: a number's low two bits; for a string, the low bits of the number ToNumber reads from it (blank text is 0, a name is NaN and gives 0) |
| ChannelMemories.ForeignCharIsNaN | src/radio/channel-memories.ts:102-109 | A string with any character that is not whitespace, a digit or a sign reads as NaN, so `& 3` gives 0 |
| ChannelMemories.EnumNamesAreNaN | src/radio/channel-memories.ts:102-109 | Every modulation name and every PTT ID name reads as NaN, so `& 3` gives 0 for each of them |
| ChannelMemories.DecodedNamesAreNaN | src/radio/channel-memories.ts:24-33 | The modulation and PTT ID that the decoder returns are names, and they re-encode as 0 |
| ChannelMemories.NumericStringLowBits | src/radio/channel-memories.ts:102-109 | An integer written as a decimal string (optionally signed, below 10^15 in magnitude) gives the same low two bits as the integer itself |
| ChannelMemories.CsvPttExample | src/renderer/src/components/ChannelList.tsx:157 | The CSV import's raw PTT ID cell "2" gives 2 under `& 3` |
| ChannelMemories.NumericPttEncoded | src/radio/channel-memories.ts:102-109 | A channel whose PTT ID is an integer written as a string is encoded with that integer's low two bits in bits 4-5 of the flag byte |
| ChannelMemories.DecodeChannelBlock | src/radio/channel-memories.ts:5-53 | The decoder returns null exactly when the big-endian rx word is 0; otherwise the channel is in range and numbered 0 |
| ChannelMemories.NameField | src/radio/channel-memories.ts:111-115 | The name field is always 12 bytes |
| ChannelMemories.EncodedChannel | src/radio/channel-memories.ts:76-118 | The encoder fails with a RangeError exactly when a field is out of its width, and otherwise yields 32 bytes. Every bandwidth, number or string, is encoded; only the number 0 gives a wide flag bit. Modulation and PTT ID, numbers or strings, are encoded through ChannelMemories.LowBits, so a numeric string contributes its number's low bits |
| ChannelMemories.EncodeChannelBlock | src/radio/channel-memories.ts:76-118 | The field-by-field writes into Buffer.alloc(32) yield the encoding or the first RangeError, for a bandwidth given as a number or as the renderer's string, and for a modulation or PTT ID given as a number, a name or a numeric string |
| ChannelMemories.ChannelLayout | src/radio/channel-memories.ts:76-118 | Layout: rx and tx as big-endian u32 at 0 and 4; tone words as big-endian u16 at 8 and 10; power at 12; the compacted group bytes at 13-14; flags at 15; zeros at 16-19; the name at 20-31 |
| ChannelMemories.GroupsReadSwapped | src/radio/channel-memories.ts:16-22 | Decode reads bytes 13-14 as one big-endian word, so the groups come out pair-swapped: (g2,g3,g0,g1) of the byte nibbles |
| ChannelMemories.FlagsRoundTrip | src/radio/channel-memories.ts:24-33 | Decoding an encoded flag byte returns the bandwidth as the number 0 (Wide) or 1 (Narrow), position&1, reversed and busy lock, and modulation and PTT ID as the enum names of their low two bits |
| ChannelMemories.NarrowBit | src/radio/channel-memories.ts:103 | Bit 0 is 0 exactly for a bandwidth equal to the number Bandwidth.Wide |
| ChannelMemories.RendererBandwidthWrittenNarrow | src/radio/channel-memories.ts:24-33 | A channel with a string bandwidth encodes, with the narrow bit set, and when rx is not 0 it is read back as the number 1, Narrow |
| ChannelMemories.StringBandwidthIsNarrow | src/radio/channel-memories.ts:102-109 | The flag's bit 0 is clear exactly for the number 0. Any string bandwidth, the renderer's 'Wide' included, is written narrow and read back as the number 1 |
| ChannelMemories.FlagsReencoded | src/radio/channel-memories.ts:102-109 | Re-encoding a decoded flag byte clears exactly the modulation and PTT ID bits |
| ChannelMemories.ChannelRoundTrip | src/radio/channel-memories.ts:5-118 | decode(encode(c)) keeps rx, tx and power. Tones are re-rendered, groups come back compacted, clamped and pair-swapped, the bandwidth as the number 0 or 1, modulation and PTT ID as names, reserved bytes as zeros, the name NUL-stripped, and channelNumber as 0 |
| ChannelMemories.DecodeLaidOut | src/radio/channel-memories.ts:5-53 | Any block laid out as the encoder lays out c decodes to the round-tripped channel |
| ChannelMemories.NameRoundTrip | src/radio/channel-memories.ts:39 | An ASCII name without NULs comes back as its first 12 characters |
| ChannelMemories.GroupsComeBackSwapped | src/radio/channel-memories.ts:79 | Groups in 0..15 come back as (g2,g3,g0,g1) of the compacted groups |
| ChannelMemories.GroupsSwapExample | src/radio/channel-memories.ts:97-99 | A channel in groups A,B reads back in groups 0,0,A,B |
| ChannelMemories.ReencodeClearsEnumBits | src/radio/channel-memories.ts:102-109 | Encoding a decoded block again keeps its flag byte except the modulation and PTT ID bits, which become 0, and zeroes the reserved bytes |
| LegacyChannelMemories.LegacyFlag | src/radio/channel-memories.js:69-71 | The flag is negative exactly for a modulation missing from the table; otherwise bit 0 is 0 for "Wide" and 1 otherwise, and bits 1-2 index the modulation |
| LegacyChannelMemories.DecodeChannelBlock | src/radio/channel-memories.js:8-24 | The decoder returns null exactly when the little-endian rx word is 0; otherwise the modulation is a table name and the name has at most 12 characters |
| LegacyChannelMemories.EncodedChannel | src/radio/channel-memories.js:47-81 | The encoder yields exactly 32 bytes (the checksum store at index 32 is dropped), or a RangeError exactly when a field does not fit |
| LegacyChannelMemories.EncodeChannelBlock | src/radio/channel-memories.js:47-81 | The field writes in order yield the encoding or the first RangeError |
| LegacyChannelMemories.LegacyLayout | src/radio/channel-memories.js:47-81 | Layout: rx and tx as little-endian u32 at 0 and 4; tones at 8 and 10; power at 12; toGroupWord as little-endian u16 at 13; the flag at 15; zeros at 16-19; the name at 20-31 |
| LegacyChannelMemories.LegacyRoundTrip | src/radio/channel-memories.js:8-81 | decode(encode(c)) keeps every field except three. The bandwidth is flipped, the groups pass through toGroupString(toGroupWord) and the tones are re-rendered |
| LegacyChannelMemories.BandwidthFlips | src/radio/channel-memories.js:19 | A channel saved as "Wide" reads back as "Narrow", and the other way round |
| LegacyChannelMemories.LegacyRoundTripFields | src/radio/channel-memories.js:8-81 | With groups of at most four letters A..O and an ASCII NUL-free name, groups, name (first 12 characters), modulation, rx, tx and power come back |
| LegacyChannelMemories.UnknownModulationRejected | src/radio/channel-memories.js:70-71 | A modulation outside the table makes encode fail with the RangeError of the negative flag byte |
| LegacyChannelMemories.Outcomes | src/radio/channel-memories.js:26-45 | One outcome per block of the image |
| LegacyChannelMemories.ReadChannelMemories | src/radio/channel-memories.js:26-45 | The loop reads blocks 2..199 in order and lists each block that is readable and decodes, numbered block - 1 |
| LegacyChannelMemories.ReadChannelMemoriesListing | src/radio/channel-memories.js:26-45 | The listing is strictly ascending within 1..198, and lists (n, c) exactly when block n+1 is readable and decodes to c |
| BandPlan.ByteAt | src/radio/band-plan.ts:15-21 | Reading past the end of the data gives undefined |
| BandPlan.BandOf | src/radio/band-plan.ts:15-32 | Band r is numbered r. start is 0 or at least 1,800,000 raw, and end is at most 130,000,000 raw. Modulation and bandwidth are 0..7. 0xFF power is 'Auto' and any other power stays numeric |
| BandPlan.DecodedBandPlan | src/radio/band-plan.ts:4-34 | Decode fails with BadMagic unless the data starts 0xA4 0x6D, fails with a RangeError when band 20 lies past the data, and otherwise gives exactly 20 bands numbered 1..20 |
| BandPlan.DecodeBandPlan | src/radio/band-plan.ts:4-34 | The decoder loop over the concatenated blocks computes that result |
| BandPlan.BandRegion | src/radio/band-plan.ts:36-57 | The band plan region is 7 blocks of bytes |
| BandPlan.ReadBandBlocks | src/radio/band-plan.ts:36-57 | 0x45, then blocks 0xD0..0xD6, then 0x46, with 0x46 sent on the error path too; a failed read ends with its error |
| BandPlan.ReadBandPlan | src/radio/band-plan.ts:36-57 | readBandPlan returns the decode of blocks 0xD0..0xD6, or the first read error |
| BandPlan.FlagsRecovered | src/radio/band-plan.ts:26-30 | txAllowed, wrap, modulation and bandwidth put the flags byte back together exactly |
| BandPlan.RegionDecodes | src/radio/band-plan.ts:8-10 | A whole region decodes exactly when it starts with the magic bytes |
| BandPlan.BandReadsOnlyItsBytes | src/radio/band-plan.ts:15-21 | Band r depends only on its own ten bytes at 2+10(r-1) |
| LegacyBandPlan.BandwidthName | src/radio/band-plan.js:14-21 | A bandwidth index past the sixth table entry gives undefined |
| LegacyBandPlan.LegacyPower | src/radio/band-plan.js:45 | maxPower 0 or missing gives "Auto", and any other byte stays numeric |
| LegacyBandPlan.LegacyBandOf | src/radio/band-plan.js:34-51 | The record for band r, with names taken from the modulation and bandwidth tables |
| LegacyBandPlan.DecodedBandPlan | src/radio/band-plan.js:23-66 | BadMagic without 0xA4 0x6D; else 20 bands numbered 1..20, with band 20 the fixed record (18, 1300, no tx, no wrap, Ignore, Ignore, Auto) |
| LegacyBandPlan.DecodeBandPlan | src/radio/band-plan.js:23-66 | The loop, then the overwrite of bands[19], computes that result |
| LegacyBandPlan.ReadBandPlan | src/radio/band-plan.js:68-89 | The same reads as the TypeScript reader, decoded by this decoder, with 0x46 on both paths |
| LegacyBandPlan.Band20Ignored | src/radio/band-plan.js:53-63 | Two inputs agreeing outside band 20's bytes decode alike |
| LegacyBandPlan.PowerRulesDiffer | src/radio/band-plan.js:45 | 0xFF is 'Auto' in band-plan.ts but 255 here, and 0 is 0 there but "Auto" here |
| LegacyBandPlan.SameRecordOtherwise | src/radio/band-plan.js:34-51 | Apart from power, both decoders read the same numbers and flags, and the names are the table entries of the TypeScript decoder's values |
| Settings.VfoOf | src/radio/settings.ts:133-143 | Each VFO record has exactly 16 channel bytes |
| Settings.Decoded | src/radio/settings.ts:75-143 | The decode always has two VFO records of 16 channels each and every field within its width |
| Settings.DecodeVfo | src/radio/settings.ts:133-143 | The inner loop pushes channel bytes +2..+17 of the record |
| Settings.SettingsRegion | src/radio/settings.ts:67-73 | Blocks 200..203 give 128 bytes |
| Settings.ReadSettings | src/radio/settings.ts:64-146 | It reads blocks 200, 201, 202, 203 in order and returns the decode of their 128 bytes, or the first read error |
| Settings.DecodedTiles | src/radio/settings.ts:75-143 | Laying the decoded fields back out gives the original 128 bytes, so the layout covers every byte exactly once |
| Settings.DecodeSettingsBytes | src/radio/settings.ts:75-143 | A well-shaped settings record laid out and decoded comes back unchanged |
| ScanPresets.LabelOf | src/radio/scan-presets.ts:38 | The decoded label is no longer than its field |
| ScanPresets.DecodeScanPresetBlock | src/radio/scan-presets.ts:6-53 | Decode is null exactly when the big-endian start is below 1,800,000; otherwise the number is the one given, the modulation is a table name, ultrascan is 0..63 and the label has at most 8 characters |
| ScanPresets.EncodedPreset | src/radio/scan-presets.ts:58-97 | Encode gives 20 bytes, or a RangeError exactly when a field does not fit its width |
| ScanPresets.EncodeScanPresetBlock | src/radio/scan-presets.ts:58-97 | The writes into Buffer.alloc(20) compute that result |
| ScanPresets.SpaceFill | src/radio/scan-presets.ts:91-95 | The no-label loop sets bytes 11..18 to spaces and leaves the rest |
| ScanPresets.EmptyLabelField | src/radio/scan-presets.ts:85-95 | The empty label's branch writes what the label branch would write for "": 8 spaces and 0 |
| ScanPresets.PresetLayout | src/radio/scan-presets.ts:58-97 | Layout: start as big-endian u32 at 0; range and step as big-endian u16 at 4 and 6; resume at 8; persist at 9; the bits byte at 10; the space-padded label at 11..18; 0 at 19 |
| ScanPresets.BitsRoundTrip | src/radio/scan-presets.ts:33-35 | The bits byte reads back as the modulation index mod 4 and ultrascan mod 64 |
| ScanPresets.LabelRoundTrip | src/radio/scan-presets.ts:38 | A label of at most 8 ASCII characters, NUL-free and without surrounding whitespace, comes back unchanged |
| ScanPresets.PresetRoundTrip | src/radio/scan-presets.ts:6-97 | With start at least 1.8 MHz raw, decode(encode(p)) keeps start, range, step, resume and persist. Modulation comes back by its index mod 4, ultrascan & 0x3F, and the label as read from its field |
| ScanPresets.PresetRoundTripExact | src/radio/scan-presets.ts:6-97 | With a known modulation, ultrascan 0..63 and a clean label of at most 8 characters, every field comes back |
| ScanPresets.UnknownModulationIsUsb | src/radio/scan-presets.ts:80-81 | An unknown modulation (index -1) is stored as 3 and reads back as "USB" |
| DtmfPresets.Key | src/radio/dtmf-presets.ts:30-43 | Every code prints as a DTMF key 0-9 * # A-D |
| DtmfPresets.Code | src/radio/dtmf-presets.ts:72-82 | Every character maps to a code 0..15 |
| DtmfPresets.KeyOfCode | src/radio/dtmf-presets.ts:30-82 | A key comes back as itself, and any other character as '0' |
| DtmfPresets.CodeOfKey | src/radio/dtmf-presets.ts:30-82 | Every code comes back as itself |
| DtmfPresets.DigitCodes | src/radio/dtmf-presets.ts:15-27 | Nine digits of 0..15 are taken from the nibbles of bytes 0..4 |
| DtmfPresets.LabelOf | src/radio/dtmf-presets.ts:46-50 | The label runs up to the first 0 byte, so it is NUL-free and no longer than its field |
| DtmfPresets.DecodedPreset | src/radio/dtmf-presets.ts:9-58 | Null exactly when data is shorter than 12 bytes. Otherwise length is the high nibble of byte 0, the sequence holds min(length, 9) keys, and the label is NUL-free with at most 7 characters |
| DtmfPresets.DecodeDtmfPresetBlock | src/radio/dtmf-presets.ts:9-58 | The digit pushes and the label loop compute that result |
| DtmfPresets.EncodedLength | src/radio/dtmf-presets.ts:69 | The encoded length is in 1..9. It is the given length when that is 1..9, else the sequence's length when that is 1..9, else 1 for an empty sequence |
| DtmfPresets.PaddedCodes | src/radio/dtmf-presets.ts:72-87 | Nine codes of 0..15 |
| Text.NulPaddedBytes | src/radio/dtmf-presets.ts:99-100 | The label padded with NUL and cut to the field width, in 'ascii': byte i is character i's low byte while the text lasts, then 0 (the DTMF label's 7 bytes and a group label's 5; src/main/codeplugService.ts:153-154 is the same call) |
| DtmfPresets.EncodedPreset | src/radio/dtmf-presets.ts:65-103 | Encode always gives 12 bytes |
| DtmfPresets.EncodeDtmfPresetBlock | src/radio/dtmf-presets.ts:65-103 | The padding loop and the byte stores compute that result |
| DtmfPresets.HeaderRoundTrip | src/radio/dtmf-presets.ts:15-27 | Header bytes read back: the high nibble of byte 0 is the length and the nine codes come back in order |
| DtmfPresets.LabelRoundTrip | src/radio/dtmf-presets.ts:46-50 | A NUL-free label of at most 7 characters below U+0100 comes back unchanged |
| DtmfPresets.PresetRoundTrip | src/radio/dtmf-presets.ts:9-103 | decode(encode(p)) has the encoded length, the keys of the cut and padded codes, and the label as read from its field |
| DtmfPresets.PresetRoundTripExact | src/radio/dtmf-presets.ts:9-103 | A sequence of 1..9 keys stored with its own length and a clean label of at most 7 characters come back exactly |
| DtmfPresets.LongSequenceCut | src/radio/dtmf-presets.ts:69 | Length 0 with a sequence longer than nine keys stores nine, and nine come back |
| Protocol.WritePayload | src/radio/radio-communicator.ts:201-208 | The data frame is the 32 bytes followed by their checksum |
| Protocol.ReadReply | src/radio/radio-communicator.ts:172-194 | A device reply is 34 bytes |
| Protocol.CheckReadReply | src/radio/radio-communicator.ts:177-193 | The reply is accepted exactly when byte 0 is 0x30 and byte 33 is the checksum of bytes 1..32, and then exactly bytes 1..32 are returned; a bad header is rejected as such |
| Protocol.ReadReplyAccepted | src/radio/radio-communicator.ts:172-194 | A reply is accepted with payload p exactly when it is the well-formed reply for p |
| Protocol.CorruptedReplyRejected | src/radio/radio-communicator.ts:181-191 | A reply with one payload byte corrupted is rejected |
| Transport.DeliverSpec | src/radio/radio-communicator.ts:105-155 | Over a sequence of chunks, the response is the first n bytes of buffer ++ chunks and the rest stays buffered. It is handed out iff a chunk arrived and the bytes reach n. Without a response everything stays buffered |
| Transport.RadioCommunicator.constructor | src/radio/radio-communicator.ts:7-14 | A new communicator has an empty buffer and no pending operation |
| Transport.RadioCommunicator.HandleData | src/radio/radio-communicator.ts:105-110 | Each chunk is appended. When an operation is pending and the buffer reaches expectedLength, exactly that many bytes are handed out and the rest kept; otherwise nothing changes but the buffer |
| Transport.RadioCommunicator.Send | src/radio/radio-communicator.ts:125-133 | A command with no response awaited is written and nothing else changes |
| Transport.RadioCommunicator.Request | src/radio/radio-communicator.ts:121-165 | A wanted response with a zero expectedLength is refused before anything is written; otherwise the operation is registered and the command written |
| Transport.RadioCommunicator.TimerFired | src/radio/radio-communicator.ts:140-143 | A timeout clears the pending operation and leaves the buffer as it is |
| Transport.RadioCommunicator.Exchange | src/radio/radio-communicator.ts:121-165 | One awaited command yields the first expectedLength bytes of the buffered stream and keeps the rest, or times out keeping everything |
| Transport.RadioCommunicator.ReadBlock | src/radio/radio-communicator.ts:172-194 | readBlock writes [0x30, n], awaits 34 bytes and returns the reply check's verdict, so a success is exactly 32 bytes |
| Transport.RadioCommunicator.WriteBlock | src/radio/radio-communicator.ts:196-224 | Data not 32 bytes long is refused before anything is written; otherwise [0x45], [0x31, n], then data ++ checksum, with the replies' values ignored |
| Transport.RadioCommunicator.Initialize | src/radio/radio-communicator.ts:167-170 | initialize writes 0x45 and awaits one byte |
| Transport.RadioCommunicator.Restart | src/radio/radio-communicator.ts:236-242 | restart writes 0x49 and awaits nothing |
| Transport.ReadBlockExample | src/radio/radio-communicator.ts:172-194 | A device answering with the well-formed reply for data makes readBlock return exactly data |
| Flash.InitSequence | src/radio/radio-communicator.ts:257-265 | The init sequence is A0 EE 74 71 07 74 followed by thirty 0x55 bytes |
| Flash.TotalBlocks | src/radio/radio-communicator.ts:246 | totalBlocks is ceil(length / 32) |
| Flash.BlockData | src/radio/radio-communicator.ts:303-308 | Block k is firmware[32k..32k+32), padded with 0xFF when the firmware ends inside it |
| Flash.Packet | src/radio/radio-communicator.ts:303-314 | Packet k is 36 bytes. Byte 0 is 0xA2 iff k is the last block, else 0xA1. Bytes 1-2 hold k big-endian, byte 3 the checksum of the data, and 4..35 the block data |
| Flash.BuildPacket | src/radio/radio-communicator.ts:303-314 | The byte-by-byte construction gives that packet, or a RangeError from writeUInt16BE once k reaches 65536 |
| Flash.SliceBlock | src/radio/radio-communicator.ts:303-308 | The slice and pad give block k's data |
| Flash.Contains | src/radio/radio-communicator.ts:279-295 | The byte scan finds b iff b occurs in the chunk |
| Flash.FlashSession.constructor | src/radio/radio-communicator.ts:244-270 | A new session, with or without the optional progress callback, waits for the ready byte and has sent nothing |
| Flash.FlashSession.SendNextBlock | src/radio/radio-communicator.ts:297-339 | It finishes once currentBlock reaches totalBlocks; otherwise it writes packet currentBlock and waits for its acknowledgement |
| Flash.FlashSession.OnData | src/radio/radio-communicator.ts:279-344 | The first 0xA5 sends the init sequence once. With a progress callback, each 0xA3 while awaiting counts one block, reports its progress and sends the next packet. Without one, the first 0xA3 counts block 1 and the session stalls: the unguarded `progressCallback(percent)` throws before sendNextBlock. Any other chunk changes nothing |
| Flash.FlashSession.TimerFired | src/radio/radio-communicator.ts:348-350 | After the init delay, packet 0 is sent, or flashing finishes at once for empty firmware |
| Flash.FlashAll | src/radio/radio-communicator.ts:244-364 | With a progress callback, a ready byte and one acknowledgement per packet send the init sequence, then packets 0..n-1 in order, and report progress 1..n |
| Flash.FlashWithoutCallback | src/commands/flash-firmware.js:34 | Without a progress callback, as the command-line tool calls flashFirmware, any number of acknowledgements leave the bootloader with only the init sequence and packet 0; nothing is reported and flashing never finishes |
| Flash.BlocksCarryFirmware | src/radio/radio-communicator.ts:303-308 | The data of packets 0..m-1 is the firmware prefix, or the firmware followed by 0xFF padding |
| Flash.PacketsCarryFirmware | src/radio/radio-communicator.ts:303-308 | All packets together carry the firmware followed by 0xFF up to a whole number of blocks |
| Radio.Apply | src/radio/radio-communicator.ts:196-224 | The device image after a sequence of block writes is still an image |
| Radio.LastTo | src/radio/radio-communicator.ts:196-224 | The last write to block b, if any, is found, and no later write goes to b |
| Radio.ApplyBlock | src/radio/radio-communicator.ts:196-224 | After the writes, block b holds the last write's data, or what it held when nothing was written to it or the device does not store it |
| Radio.ApplyAppend | src/radio/codeplug.js:50-69 | Writes applied in two runs land as if applied in one |
| Radio.WriteBlockTrace | src/radio/radio-communicator.ts:202-223 | Three frames go out per block write |
| Radio.FirstIn | src/radio/codeplug.js:17-24 | The first block in [lo, hi) that fails, or hi when none does |
| Radio.ReadTrace | src/radio/codeplug.js:17-24 | One read request per block of the range |
| Radio.Radio.constructor | src/radio/radio-communicator.ts:7-14 | A device with a given memory and nothing sent |
| Radio.Radio.Connect | src/radio/radio-communicator.ts:59-86 | Connecting is recorded and changes no memory. It sets isOpen, and opens the port only when isOpen was unset |
| Radio.Radio.Close | src/radio/radio-communicator.ts:230-234 | Closing is recorded and changes no memory. The port is closed and isOpen keeps its value |
| Radio.OpenFlagSticks | src/radio/radio-communicator.ts:59-86 | Once isOpen is set it stays set, and any later events leave the port open only if it already was or a bare port.open() was among them |
| Radio.Radio.Open | src/radio/codeplug.js:44-46 | A bare `port.open()` is recorded and changes no memory. The port is open afterwards and isOpen keeps its value |
| Radio.SecondSessionPortClosed | src/radio/radio-communicator.ts:59-86 | After connect, a session and close, a second connect and a command find the port closed |
| Radio.Radio.Command | src/radio/radio-communicator.ts:167-170 | A one-byte command is sent and changes no memory; its acknowledgement always arrives (see Left out) |
| Radio.Radio.ReadBlock | src/radio/radio-communicator.ts:172-194 | A read returns the block's 32 bytes, or fails for an unreadable block, and changes nothing |
| Radio.Radio.SendWriteHeader | src/radio/radio-communicator.ts:206-214 | The header [0x31, n] arms block n and changes no memory |
| Radio.Radio.SendWritePayload | src/radio/radio-communicator.ts:215 | A payload after a header is stored in the armed block and acknowledged with 0x31, unless there was no header or the block is refused; a reply always arrives (see Left out) |
| Radio.Radio.WriteBlock | src/radio/radio-communicator.ts:196-224 | Data not 32 bytes long is refused before anything is sent; otherwise the three frames go out and the block holds the data, unless refused; the acknowledgements always arrive (see Left out) |
| Radio.ReadBlocks | src/radio/settings.ts:67-73 | Blocks lo..hi-1 are read in order; the first unreadable one ends the reads with its failure |
| Codeplug.ProgressFacts | src/radio/codeplug.js:22-23 | The percentages are non-decreasing, lie in 0..100 and end at exactly 100 |
| Codeplug.ReadCodeplugTrace | src/radio/codeplug.js:11-32 | The traffic of readCodeplug always ends with the close |
| Codeplug.ReadCodeplug | src/radio/codeplug.js:11-32 | Blocks 0..255 read in order into a fresh 8192-byte buffer equal to the device memory, then 0x46; the first unreadable block ends it with its failure; the port is closed on every path |
| Codeplug.ReadBlocksInto | src/radio/codeplug.js:17-24 | After the loop, block n's payload sits at bytes 32n..32n+31 for every block read, with one progress report per block |
| Codeplug.WriteCodeplug | src/radio/codeplug.js:34-78 | An image of any size but 8192 is refused before any traffic. Otherwise: a port.open() exactly when the port is not open; 0x45; header and payload per block in order; the first block not acknowledged stops the rest; 0x46 and 0x49 on success; the close always |
| Codeplug.WriteSession | src/radio/codeplug.js:44-77 | Past the size check, the port is opened again when it is not open, and the device holds the image's blocks up to the first refused block |
| Codeplug.ReopenedForWrite | src/radio/codeplug.js:44-46 | After writeCodeplug's reopen, the 0x45 and every block frame go out on an open port, even after an earlier session closed it; isOpen keeps its value |
| Codeplug.FinishSession | src/radio/codeplug.js:71-77 | 0x46, the 0x49 restart, then the close |
| Codeplug.WriteBlocks | src/radio/codeplug.js:50-69 | The device holds image blocks 0..f-1, where f is the first block not acknowledged, and no later block is sent |
| Codeplug.WriteStep | src/radio/codeplug.js:50-69 | One turn sends block n; if acknowledged the device holds blocks 0..n, otherwise n is the first refused block |
| Codeplug.SendBlock | src/radio/codeplug.js:54-65 | Header [0x31, n], then the 32 image bytes and their checksum; the reply is 0x31 iff the block is stored |
| Codeplug.WriteThenRead | src/radio/codeplug.js:11-78 | An image written to a device that refuses nothing reads back unchanged |
| Listings.PresentListing | src/radio/channel-memories.js:26-45 | The numbered listing over a block range is strictly ascending within its range, and lists (n, x) exactly when slot n - offset decodes to x |
| ServiceChannels.ChannelsListing | src/main/codeplugService.ts:41-58 | As intended, readChannels lists strictly ascending numbers within 1..196, a channel exactly when block channelNumber + 1 decodes to it |
| ServiceChannels.AsWrittenNumbersAreZero | src/main/codeplugService.ts:51-54 | As written, every listed channel comes back with channelNumber 0 |
| ServiceChannels.AsWrittenLosesNumbers | src/main/codeplugService.ts:51-54 | With two channels in the image, the as-written listing gives both number 0, while the intended listing numbers them differently |
| ServiceChannels.FirstUnencodableIs | src/main/codeplugService.ts:68-75 | The channel loop stops at the first channel the encoder rejects |
| ServiceChannels.ChannelWrite | src/main/codeplugService.ts:68-75 | Each channel's write goes to block channelNumber + 1 with 32 bytes |
| ServiceChannels.ChannelWriteAt | src/main/codeplugService.ts:68-75 | The j-th write is channel j's encoding to its block, in order |
| ServiceChannels.ClearedAboveCount | src/main/codeplugService.ts:77-85 | After writing n channels, every stored block from n+2 to 199 is zero, whatever channel numbers were written there, since the fill depends on the count only |
| ServiceChannels.UntouchedBlock | src/main/codeplugService.ts:68-85 | A block that neither a channel nor the zero-fill writes keeps its bytes |
| ServiceChannels.LastChannelWrite | src/main/codeplugService.ts:68-85 | A channel that is the last of its number and lies below the zero-fill leaves its block holding its encoding |
| ServiceChannels.WrittenChannelListed | src/main/codeplugService.ts:41-88 | After writeChannels, a channel numbered 1..count, the last of its number, reads back under its own number as decodeChannelBlock reads its encoding |
| ServiceChannels.EncodedListed | src/main/codeplugService.ts:41-58 | An image holding a channel's encoding in the block after its number lists it |
| ServiceChannels.ListedWhenDecoded | src/main/codeplugService.ts:46-57 | A channel whose block decodes to it is listed |
| ServiceGroups.GroupSlot | src/main/codeplugService.ts:150-155 | Each group's slot is 6 bytes: its 5 label bytes, then a 0 |
| ServiceGroups.GroupData | src/main/codeplugService.ts:148-156 | fullData is always 96 bytes |
| ServiceGroups.GroupWrites | src/main/codeplugService.ts:177-180 | Four writes: blocks 228..231 as they stand in the codeplug, in order |
| ServiceGroups.StepsUpdate | src/main/codeplugService.ts:159-174 | The four fills and four copies come to the updated image |
| ServiceGroups.UpdatedLayout | src/main/codeplugService.ts:148-174 | Afterwards the label region holds fullData. The 16 bytes before it and the 16 after it in blocks 228-231 are zeroed, and every byte outside those blocks is unchanged |
| ServiceGroups.SlotDecodes | src/main/codeplugService.ts:150-155 | A printable label's slot decodes to its first five characters, trimmed |
| ServiceGroups.UpdatedLabels | src/main/codeplugService.ts:93-183 | Reading back after updateGroups gives group k the trimmed first five characters of label k, or an empty label when none is given |
| ServiceGroups.GroupDataLabel | src/main/codeplugService.ts:150-156 | Label k of the 96-byte fullData reads back as group k's first five characters, trimmed, and as empty past the groups given |
| ServiceGroups.DeviceMatchesImage | src/main/codeplugService.ts:177-180 | A device that held the same image and stores all four blocks ends up holding the updated image |
| ServiceGroups.GroupWritesRestore | src/main/codeplugService.ts:176-180 | Writing blocks 228..231 of an image to a device that agrees with it elsewhere and stores them leaves the device holding that image |
| ServicePresets.PresetRegion | src/main/codeplugService.ts:241-259 | The gathered preset region is 400 bytes |
| ServicePresets.PresetsListing | src/main/codeplugService.ts:262-278 | readScanPresets lists numbers 1..20 strictly ascending, and a preset exactly when slot presetNumber - 1 decodes to it |
| ServicePresets.KeptPresets | src/main/codeplugService.ts:300 | The filter keeps exactly the presets numbered 0..20 |
| ServicePresets.SortByNumber | src/main/codeplugService.ts:301 | The sort is a permutation |
| ServicePresets.SortSorted | src/main/codeplugService.ts:301 | The sort orders by number and keeps every preset |
| ServicePresets.LastNumberedSort | src/main/codeplugService.ts:301 | The sort is stable: the last preset of each number is the same before and after |
| ServicePresets.LastNumberedKept | src/main/codeplugService.ts:300 | The filter keeps the last preset of every number 0..20 |
| ServicePresets.PresetsBuffer | src/main/codeplugService.ts:306-320 | The encode loop gives 400 bytes, or a RangeError |
| ServicePresets.BufferSlots | src/main/codeplugService.ts:306-320 | The loop fails exactly when some preset does not encode. Otherwise slot n (0..19) holds the last preset numbered n, or zeros, so number 20 is never stored |
| ServicePresets.WrittenSlots | src/main/codeplugService.ts:297-320 | writeScanPresets' buffer fails exactly when a kept preset does not encode, and otherwise slot n holds the last preset the caller numbered n |
| ServicePresets.PresetBlock | src/main/codeplugService.ts:331-348 | Each written block is 32 bytes |
| ServicePresets.PresetBlocksApplied | src/main/codeplugService.ts:331-348 | Blocks 216..228 hold their 32-byte slices of the buffer, zero-padded at the end, and every other block is unchanged |
| ServicePresets.PresetRegionWritten | src/main/codeplugService.ts:331-348 | After the writes the region reads back as the buffer, and the 16 bytes after it are zero |
| ServicePresets.GroupLabelsErased | src/main/codeplugService.ts:331-348 | The zero-padded block 228 erases group labels A and B, and label C keeps only its fifth byte |
| ServicePresets.CleanSlotListed | src/main/codeplugService.ts:262-278 | A slot holding a clean preset's encoding lists it under the slot's number |
| ServicePresets.ReadBackShifted | src/main/codeplugService.ts:226-352 | A clean preset written with number n in 0..19 reads back with number n + 1 |
| GroupLabels.RegionOfBlocks | src/radio/group-labels.js:11-16 | Gathering the four blocks gives image bytes 7312..7407 |
| GroupLabels.DecodeLabel | src/radio/group-labels.js:22-26 | A decoded label is printable ASCII, no longer than its bytes, with no surrounding whitespace |
| GroupLabels.LabelAt | src/radio/group-labels.js:18-32 | Group i is letter 'A'+i with a label of at most 5 characters |
| GroupLabels.DecodeLabels | src/radio/group-labels.js:18-34 | The label loop builds the 15 labels A..O from bytes 6i..6i+4 |
| GroupLabels.ReadGroupLabels | src/radio/group-labels.js:1-35 | Blocks 228..231 are read in order and their region's 15 labels returned, or the first read error |
| GroupLabels.LabelBytes | src/radio/group-labels.js:57-60 | Six label bytes ending in 0 |
| GroupLabels.SlotPlacement | src/radio/group-labels.js:41-54 | The slot lies within blocks 228..231 and touches at most two blocks. It touches two exactly when fewer than 6 bytes fit in the first, and the rest then start the next block |
| GroupLabels.StraddlingSlots | src/radio/group-labels.js:41-45 | Exactly labels C and M (indices 2 and 13) straddle two blocks |
| GroupLabels.BlockWrites | src/radio/group-labels.js:63-75 | One or two block writes |
| GroupLabels.LabelWrites | src/radio/group-labels.js:49-75 | One or two block writes for a label |
| GroupLabels.WriteGroupLabel | src/radio/group-labels.js:37-76 | An index outside 0..14 is rejected before any I/O, and a failed read ends with its error. Otherwise the blocks read are written back with the 6 label bytes spliced in |
| GroupLabels.WriteSlot | src/radio/group-labels.js:63-75 | The write-back covers exactly the blocks read, in order, with the data spliced across them |
| GroupLabels.LabelWritesSplice | src/radio/group-labels.js:63-75 | On blocks the device stores, the writes splice the 6 label bytes in at 7312+6i and change nothing else |
| GroupLabels.DecodeLabelBytes | src/radio/group-labels.js:22-26 | A printable name's bytes decode to trim(trim(name).slice(0,5)) |
| GroupLabels.LabelsAfterSplice | src/radio/group-labels.js:18-34 | Replacing slot i changes only label i |
| GroupLabels.GroupLabelRoundTrip | src/radio/group-labels.js:18-75 | After writeGroupLabel(i, name) for a printable name, label i reads back as trim(trim(name).slice(0,5)) and every other label is unchanged |
| GroupLabels.LabelsAreClean | src/radio/group-labels.js:18-34 | Every label read has at most 5 printable characters and no surrounding whitespace |
| Service.StoreBlock | src/main/codeplugService.ts:72-74 | One block is written to the radio and copied into the in-memory codeplug at the same place |
| Service.WriteEachChannel | src/main/codeplugService.ts:68-75 | The loop writes channels in order and stops at the first one encodeChannelBlock rejects |
| Service.ZeroFillChannels | src/main/codeplugService.ts:77-85 | An empty block goes to blocks count+2..199, on the radio and in memory |
| Service.LayOutGroups | src/main/codeplugService.ts:148-156 | With at most 16 groups the forEach lays out fullData; a 17th group's terminator write throws the RangeError |
| Service.FillAndCopyGroups | src/main/codeplugService.ts:159-174 | The fills and copies turn the codeplug into the updated image |
| Service.WriteGroupBlocks | src/main/codeplugService.ts:177-180 | Blocks 228..231 of the codeplug go to the radio in order |
| Service.GatherPresets | src/main/codeplugService.ts:248-259 | The copy loop fills the 400-byte buffer from block 216 on, the last block giving 16 bytes |
| Service.DecodePresets | src/main/codeplugService.ts:262-278 | Slot i is decoded as preset i + 1, and those that decode are kept in order |
| Service.BuildPresetsBuffer | src/main/codeplugService.ts:306-320 | Each sorted preset is encoded and copied to byte presetNumber*20 when it fits; the first that does not encode throws |
| Service.WritePresetBlocks | src/main/codeplugService.ts:331-348 | Blocks 216..228 carry the buffer, zero-padded, and are mirrored into memory |
| Service.ListChannels | src/main/codeplugService.ts:46-57 | The loop over blocks 2..197 builds the corrected channel listing, each channel numbered by its block - 1 (see Findings; as written every channel is numbered 0) |
| Service.CodeplugService.constructor | src/main/codeplugService.ts:13-15 | A new service holds its radio and no codeplug |
| Service.CodeplugService.FetchCodeplug | src/main/codeplugService.ts:20-36 | Connect, 0x45, the full read, close. A complete read makes the codeplug a fresh copy of the device memory, and a failed one keeps the previous codeplug |
| Service.CodeplugService.ReadChannels | src/main/codeplugService.ts:41-58 | Not fetched is an error; otherwise the channels of blocks 2..197, numbered by block - 1 (the corrected numbering) |
| Service.CodeplugService.ReadGroups | src/main/codeplugService.ts:93-129 | Not fetched is an error; otherwise the 15 labels of the 96 bytes from byte 16 of block 228 |
| Service.CodeplugService.ReadSettings | src/main/codeplugService.ts:188-203 | Not fetched is an error with no traffic; otherwise blocks 200..203 are read from the radio and decoded, or the first read error is returned |
| Service.CodeplugService.ReadBandPlan | src/main/codeplugService.ts:208-221 | Not fetched is an error; otherwise the decode of blocks 0xD0..0xD6 of the codeplug |
| Service.CodeplugService.WriteChannels | src/main/codeplugService.ts:60-88 | Not fetched fails with no traffic. Channels are written and mirrored in order, stopping at the first that does not encode; otherwise blocks count+2..199 are zero-filled and 0x49 sent. Channels from the renderer, whose bandwidth is a string, are accepted and written narrow |
| Service.CodeplugService.UpdateGroups | src/main/codeplugService.ts:134-183 | Not fetched fails. Over 16 groups throws before any change. Otherwise the codeplug becomes the updated image, its blocks 228..231 go to the radio and the restart is sent |
| Service.CodeplugService.ReadScanPresets | src/main/codeplugService.ts:226-281 | Not fetched is an error; otherwise slot i of the 400 bytes from block 216 is decoded as preset i + 1 |
| Service.CodeplugService.WriteScanPresets | src/main/codeplugService.ts:286-352 | Not fetched fails. An unencodable kept preset fails after connect and 0x45 with no block written. Otherwise blocks 216..228 of the buffer are written and mirrored, then 0x49 |

## Left out

- Floating-point unit conversions (MHz, seconds) are not modelled: every value stays in its raw integer unit, and thresholds are raw comparisons.
- Codeplug.Progress: `((k / 256) * 100).toFixed(0)` is computed in exact arithmetic, as (25k + 32) div 64. In doubles, k / 256 and its product with 100 are exact for k up to 256, and `toFixed` takes the larger integer on a tie, so the two agree.
- Converters.ToneWord: `Math.round(parseFloat(x) * 10)` is computed in exact decimal, not in IEEE doubles: the whole part times ten, plus the tenths digit, plus one when the hundredths digit is 5 or more. The two differ when the double nearest a long capture crosses a half. For example, "0.04999999999999999999" gives 1 in the code and 0 here.
- The flashing progress percentage (`toFixed(1)`, src/radio/radio-communicator.ts:342) is not modelled, nor what becomes of the TypeError that a missing callback raises inside the data handler (the model only stops the session there); Flash.FlashSession records the block counts it is computed from.
- Serial-port mechanics are not modelled: opening, baud rate, listeners and the `setTimeout` timeouts. Chunk arrival and timer expiry are events passed in as parameters, and concurrent callers are not modelled because the code has a single pending-operation slot.
- Logging (`console.log`) and progress callbacks other than the percentage values are not modelled.
- Transport.RadioCommunicator.WriteBlock: the reply values are returned to nobody, as in the code, so the model does not inspect them either.
- Radio.Radio.ReadBlock: a device read either returns the block or fails; reply corruption on the wire is modelled separately by Protocol.CheckReadReply and the transport, not in the device class.
- Radio.Radio.Connect and Radio.Radio.Open: a connect or open that fails (port absent) is not modelled; port-write errors are not modelled either. setPortPath, the only operation that resets isOpen, is not modelled. disconnect is not modelled either: it clears isOpen only while the port is open, so after close() it resolves at once and leaves isOpen set, which adds nothing to the sticky flag that Radio.OpenFlagSticks states.
- Radio.Radio.Close: the model records that the port is closed and that isOpen stays set, but the device methods (Command, ReadBlock, SendWriteHeader, SendWritePayload, WriteBlock) do not consult it. A frame written to a closed port still reaches this device. In the program the write fails or the reply never comes, so the operation fails. So Service.CodeplugService.FetchCodeplug, WriteChannels, UpdateGroups and WriteScanPresets reach Pass on a communicator an earlier session closed, where the program cannot get through. The same holds for Codeplug.ReadCodeplug. Codeplug.WriteCodeplug is not among them: it opens the port again when it is not open (Radio.Radio.Open, Codeplug.ReopenedForWrite). Radio.SecondSessionPortClosed states the port state such a session meets.
- Radio.Radio.Command: the one-byte acknowledgement awaited after 0x45 and 0x46 always arrives. The `executeCommand` timeout (src/radio/radio-communicator.ts:140-143) is modelled only in Transport.RadioCommunicator.Exchange.
- Radio.Radio.SendWritePayload: the reply to a payload always arrives, either 0x31 or NAK. A payload acknowledgement that times out (`timeout: 3000` at src/radio/codeplug.js:58-61) is not modelled here.
- Radio.Radio.WriteBlock: the 0x45 and payload acknowledgements always arrive, so every 32-byte write returns Pass. Their timeouts (src/radio/radio-communicator.ts:204, 215) are modelled in Transport.RadioCommunicator.WriteBlock.
- Codeplug.WriteCodeplug, GroupLabels.WriteGroupLabel, Service.CodeplugService.WriteChannels, Service.CodeplugService.UpdateGroups and Service.CodeplugService.WriteScanPresets: built on the acknowledging device above, so none of them models a write stopped by a timeout. Their Pass outcomes hold for a radio that answers every awaited reply.
- Service.CodeplugService.FetchCodeplug: the initialize reply is modelled as the device acknowledging 0x45; the port is closed twice, once by readCodeplug and once by the finally block, and both closes are recorded.
- Service.CodeplugService.ReadSettings: the service passes a buffer of its codeplug's blocks 200..203, but the settings reader ignores it and reads the radio, so the model follows the reader (src/radio/settings.ts:64 against src/main/codeplugService.ts:201-202).
- Service.CodeplugService.WriteChannels: requires every channel number to be in -1..254, where block channelNumber + 1 is one of the 256 blocks and the mirror copy lands in the codeplug. Lower numbers are not modelled: the copy to a negative offset throws a RangeError after the radio write. Higher numbers are not modelled either: the frame `[0x31, n]` wraps n modulo 256, so the radio gets a different block than the copy targets.
- ChannelMemories.LowBits, ChannelMemories.EncodedChannel and ChannelMemories.EncodeChannelBlock: ToNumber is modelled for blank text and for an optionally signed run of at most 15 decimal digits, with JavaScript whitespace around it. Any other string is taken as NaN and gives 0. JavaScript would give the low bits of ToInt32 of the number for a fraction ("13.5" gives 1), an exponent, a 0x, 0o or 0b prefix, Infinity, or 16 digits or more. So the encoder here writes 0 in the modulation or PTT ID bits for such strings, where the code writes those bits.
- Settings.Decoded: the decode is stated for the 128 bytes gathered from blocks 200..203; shorter data (a RangeError in the code) never reaches it.
- Flash.FlashAll: stated for a session given a progress callback (Flash.FlashWithoutCallback states the other case), and for firmware of at most 65536 blocks; past that, writeUInt16BE throws and the session stalls, which Flash.FlashSession.SendNextBlock states.
- Characters outside U+0000..U+00FF in names and labels: Node's 'ascii' and 'latin1' encodings are modelled on the low byte; astral characters (two UTF-16 units) are not modelled.
- Converters.GroupWordOf and Converters.ToGroupWord: `toUpperCase` (Text.UpperCase) follows the Unicode mappings only for ASCII, Latin-1 and the characters whose upper case holds an ASCII letter. Any other character is kept as it is. So a character elsewhere whose full upper case is longer, such as Greek U+0390 (three units), moves the four-character window in the code but not here; the letters it adds are never A..O.
- DTMF decode of a missing (null) buffer is modelled as the empty buffer, which behaves the same.
- `saveCodeplug` file writes, the Electron IPC glue, React UI, CLI prompts and HTTP firmware download are outside the byte layer and are not modelled.

## Findings

| source | as written | input that shows it | evidently intended | confidence | as-written member | corrected member |
|---|---|---|---|---|---|---|
| src/main/codeplugService.ts:51-54 | `{ channelNumber: blockNum - 1, ...channel }` puts the spread last, so decodeChannelBlock's own `channelNumber: 0` overrides the block number | an image whose blocks 2 and 3 both hold channels: both are listed with channelNumber 0 | each channel numbered by its block - 1 (the comment "Channel 1 = Block 2") | not executed | ServiceChannels.AsWrittenLosesNumbers | ServiceChannels.ChannelsListing |

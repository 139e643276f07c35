/**
 * The older channel record of src/radio/channel-memories.js: the same offsets
 * as the big-endian record, but little-endian words, the groups as one
 * toGroupWord word at 13, and a flag byte holding only bandwidth and
 * modulation. Frequencies stay in raw 10 Hz units.
 */
module LegacyChannelMemories {
  import opened Wrappers
  import opened Bytes
  import opened Text
  import opened Converters
  import opened Buffers
  import opened Radio
  import ChannelMemories
  import Protocol
  import opened Listings

  /** The modulation table of decode and encode; the index is bits 1-2 of byte 15. */
  const MODULATION_NAMES: seq<string> := ["FM", "NFM", "AM", "USB"]

  /** A channel as this file reads and writes it. */
  datatype LegacyChannel = LegacyChannel(rx: int, tx: int, rxTone: string, txTone: string, txPower: int,
                                         groups: string, bandwidth: string, modulation: string, name: string)

  /** (mod << 1) | bw: -2 | bw is -2 + bw, so the sum covers the -1 index too. */
  function LegacyFlag(bandwidth: string, modulation: string): (f: int)
    ensures f < 0 <==> modulation !in MODULATION_NAMES
    ensures 0 <= f ==> f < 8 && f % 2 == (if bandwidth == "Wide" then 0 else 1)
                       && MODULATION_NAMES[(f / 2) % 4] == modulation
  {
    FlagOf(IndexOf(MODULATION_NAMES, modulation), if bandwidth == "Wide" then 0 else 1)
  }

  /** (mod << 1) | bw for a table index mod, -1 when the name is missing, and a bit bw. */
  function FlagOf(mod: int, bw: int): (f: int)
    requires -1 <= mod < 4 && 0 <= bw <= 1
    ensures f < 0 <==> mod < 0
    ensures 0 <= f ==> f < 8 && f % 2 == bw && (f / 2) % 4 == mod
  {
    DivMod(mod, bw, 2);
    mod * 2 + bw
  }

  /** decodeChannelBlock: null exactly when the little-endian rx word is 0. The `|| "Unknown"`
      fallback never applies, since every table entry is a non-empty string. */
  function DecodeChannelBlock(block: seq<byte>): (r: Option<LegacyChannel>)
    requires |block| == BLOCK_SIZE
    ensures r.None? <==> U32LE(block, 0) == 0
    ensures r.Some? ==> r.value.modulation in MODULATION_NAMES && |r.value.name| <= 12
  {
    var rx := U32LE(block, 0);
    if rx == 0 then None
    else
      Some(LegacyChannel(rx, U32LE(block, 4), ToneString(U16LE(block, 8)), ToneString(U16LE(block, 10)),
                         block[12], GroupStringOf(U16LE(block, 13)),
                         if block[15] % 2 == 1 then "Wide" else "Narrow", MODULATION_NAMES[(block[15] / 2) % 4],
                         RemoveChar(AsciiString(block[20..32]), '\0')))
  }

  /** Every write of encodeChannelBlock fits its field. */
  predicate InRanges(c: LegacyChannel)
  {
    0 <= c.rx < 0x1_0000_0000 && 0 <= c.tx < 0x1_0000_0000 && 0 <= c.txPower < 0x100
    && c.modulation in MODULATION_NAMES
  }

  /** Bytes 0..7: rx and tx, little-endian. */
  function Frequencies(rx: u32, tx: u32): (f: seq<byte>)
    ensures |f| == 8 && U32LE(f, 0) == rx && U32LE(f, 4) == tx
  {
    LE32(rx) + LE32(tx)
  }

  /** Bytes 8..11: the tone words, little-endian. */
  function ToneBytes(c: LegacyChannel): (t: seq<byte>)
    ensures |t| == 4 && U16LE(t, 0) == ToneWord(c.rxTone) && U16LE(t, 2) == ToneWord(c.txTone)
  {
    LE16(ToneWord(c.rxTone)) + LE16(ToneWord(c.txTone))
  }

  /** Bytes 12..15: power, the group word little-endian, the flag byte. */
  function SettingBytes(txPower: byte, groups: string, flag: byte): (s: seq<byte>)
    ensures |s| == 4 && s[0] == txPower && U16LE(s, 1) == GroupWordOf(groups) && s[3] == flag
  {
    [txPower] + LE16(GroupWordOf(groups)) + [flag]
  }

  /** What encodeChannelBlock returns: exactly 32 bytes, since the checksum store at index 32 of
      a 32-byte Buffer is dropped; or the RangeError of the first write that does not fit. */
  function EncodedChannel(c: LegacyChannel): (r: Result<seq<byte>>)
    ensures r.Err? <==> !InRanges(c)
    ensures r.Ok? ==> |r.value| == BLOCK_SIZE
    ensures r.Err? ==> r.error == OutOfRange
  {
    if !InRanges(c) then Err(OutOfRange)
    else
      Ok(Frequencies(c.rx, c.tx) + ToneBytes(c) + SettingBytes(c.txPower, c.groups, LegacyFlag(c.bandwidth, c.modulation))
         + Zeros(4) + ChannelMemories.NameField(c.name))
  }

  /** encodeChannelBlock: the fields written one after another into Buffer.alloc(32). */
  method EncodeChannelBlock(channel: LegacyChannel) returns (r: Result<seq<byte>>)
    ensures r == EncodedChannel(channel)
  {
    var block := new byte[BLOCK_SIZE](_ => 0);
    assert block[..] == Laid([], 32);
    var o := PutFrequencies(block, channel.rx, channel.tx);
    if o.Fail? {
      return Err(o.error);
    }
    o := PutRest(block, channel);
    if o.Fail? {
      return Err(o.error);
    }
    r := Ok(block[..]);
  }

  /** Everything after the frequencies: the tone words, the settings bytes (the power's and the
      flag's RangeErrors) and the name. */
  method PutRest(block: array<byte>, channel: LegacyChannel) returns (o: Outcome)
    requires block.Length == BLOCK_SIZE
    requires 0 <= channel.rx < 0x1_0000_0000 && 0 <= channel.tx < 0x1_0000_0000
    requires block[..] == Laid(Frequencies(channel.rx, channel.tx), 32)
    modifies block
    ensures o == Pass || o == Fail(OutOfRange)
    ensures o == Pass <==> InRanges(channel)
    ensures o == Pass ==> block[..] == EncodedChannel(channel).value
  {
    ghost var p := Frequencies(channel.rx, channel.tx);
    PutTones(block, p, channel);
    p := p + ToneBytes(channel);
    o := PutSettings(block, p, channel);
    if o.Fail? {
      return;
    }
    p := p + SettingBytes(channel.txPower, channel.groups, LegacyFlag(channel.bandwidth, channel.modulation));
    PutName(block, p, channel.name);
  }

  /** `Buffer.from(name.substring(0, 12), 'ascii').copy(buffer, 20)`: bytes 16..19 stay zero. */
  method PutName(block: array<byte>, ghost p: seq<byte>, name: string)
    requires block.Length == BLOCK_SIZE && |p| == 16 && block[..] == Laid(p, 32)
    modifies block
    ensures block[..] == p + Zeros(4) + ChannelMemories.NameField(name)
  {
    var nameBuf := AsciiBytes(Take(name, 12));
    LaidZeros(p, 4, 32);
    Copy(nameBuf, block, 20);
    SpliceLaid(p + Zeros(4), nameBuf, 32);
    LaidAppend(p + Zeros(4), nameBuf, 32);
  }

  /** The two writeUInt32LE calls. */
  method PutFrequencies(block: array<byte>, rx: int, tx: int) returns (o: Outcome)
    requires block.Length == BLOCK_SIZE && block[..] == Laid([], 32)
    modifies block
    ensures o == Pass || o == Fail(OutOfRange)
    ensures o == Pass <==> 0 <= rx < 0x1_0000_0000 && 0 <= tx < 0x1_0000_0000
    ensures o == Pass ==> block[..] == Laid(Frequencies(rx, tx), 32)
  {
    o := WriteUInt32LE(block, rx, 0);
    if o.Fail? {
      return;
    }
    SpliceLaid([], LE32(rx), 32);
    assert [] + LE32(rx) == LE32(rx);
    o := WriteUInt32LE(block, tx, 4);
    if o.Fail? {
      return;
    }
    SpliceLaid(LE32(rx), LE32(tx), 32);
  }

  /** The two writeUInt16LE calls of the tone words, which always fit. */
  method PutTones(block: array<byte>, ghost p: seq<byte>, c: LegacyChannel)
    requires block.Length == BLOCK_SIZE && |p| == 8 && block[..] == Laid(p, 32)
    modifies block
    ensures block[..] == Laid(p + ToneBytes(c), 32)
  {
    var o := WriteUInt16LE(block, ToneWord(c.rxTone), 8);
    SpliceLaid(p, LE16(ToneWord(c.rxTone)), 32);
    o := WriteUInt16LE(block, ToneWord(c.txTone), 10);
    SpliceLaid(p + LE16(ToneWord(c.rxTone)), LE16(ToneWord(c.txTone)), 32);
    assert p + LE16(ToneWord(c.rxTone)) + LE16(ToneWord(c.txTone)) == p + ToneBytes(c);
  }

  /** writeUInt8 of the power, writeUInt16LE of the group word, writeUInt8 of the flag: the power
      and the flag are RangeErrors outside 0..255, the group word always fits. */
  method PutSettings(block: array<byte>, ghost p: seq<byte>, c: LegacyChannel) returns (o: Outcome)
    requires block.Length == BLOCK_SIZE && |p| == 12 && block[..] == Laid(p, 32)
    modifies block
    ensures o == Pass || o == Fail(OutOfRange)
    ensures o == Pass <==> 0 <= c.txPower < 0x100 && c.modulation in MODULATION_NAMES
    ensures o == Pass ==> block[..] == Laid(p + SettingBytes(c.txPower, c.groups, LegacyFlag(c.bandwidth, c.modulation)), 32)
  {
    o := WriteUInt8(block, c.txPower, 12);
    if o.Fail? {
      return;
    }
    SpliceLaid(p, [c.txPower], 32);
    var word := GroupWordOf(c.groups);
    var _ := WriteUInt16LE(block, word, 13);
    SpliceLaid(p + [c.txPower], LE16(word), 32);
    var flag := LegacyFlag(c.bandwidth, c.modulation);
    o := WriteUInt8(block, flag, 15);
    if o.Fail? {
      return;
    }
    SpliceLaid(p + [c.txPower] + LE16(word), [flag], 32);
    ghost var settings := SettingBytes(c.txPower, c.groups, flag);
    assert settings == [c.txPower] + LE16(word) + [flag];
    assert p + [c.txPower] + LE16(word) + [flag] == p + settings;
  }

  // ---------------------------------------------------------------------------
  // Properties of the codec.

  /** Where each field lands. */
  lemma LegacyLayout(c: LegacyChannel)
    requires InRanges(c)
    ensures var b := EncodedChannel(c).value;
      U32LE(b, 0) == c.rx && U32LE(b, 4) == c.tx
      && U16LE(b, 8) == ToneWord(c.rxTone) && U16LE(b, 10) == ToneWord(c.txTone)
      && b[12] == c.txPower && U16LE(b, 13) == GroupWordOf(c.groups)
      && b[15] == LegacyFlag(c.bandwidth, c.modulation) && b[16..20] == Zeros(4)
      && b[20..] == ChannelMemories.NameField(c.name)
  {
    var s := SettingBytes(c.txPower, c.groups, LegacyFlag(c.bandwidth, c.modulation));
    ReadPieces(EncodedChannel(c).value, Frequencies(c.rx, c.tx), ToneBytes(c), s, ChannelMemories.NameField(c.name));
  }

  /** The reads of a block made of the four pieces and the name. */
  lemma ReadPieces(b: seq<byte>, f: seq<byte>, t: seq<byte>, s: seq<byte>, n: seq<byte>)
    requires |f| == 8 && |t| == 4 && |s| == 4 && |n| == 12 && b == f + t + s + Zeros(4) + n
    ensures U32LE(b, 0) == U32LE(f, 0) && U32LE(b, 4) == U32LE(f, 4)
    ensures U16LE(b, 8) == U16LE(t, 0) && U16LE(b, 10) == U16LE(t, 2)
    ensures b[12] == s[0] && U16LE(b, 13) == U16LE(s, 1) && b[15] == s[3]
    ensures b[16..20] == Zeros(4) && b[20..] == n
  {
    assert b[..8] == f;
    assert b[8..12] == t;
    assert b[12..16] == s;
    assert b[16..20] == Zeros(4);
    assert b[20..] == n;
  }

  /** Decoding any block laid out as LegacyLayout says. */
  lemma DecodeLaidOut(b: seq<byte>, c: LegacyChannel)
    requires |b| == BLOCK_SIZE && c.rx != 0 && InRanges(c)
    requires U32LE(b, 0) == c.rx && U32LE(b, 4) == c.tx
    requires U16LE(b, 8) == ToneWord(c.rxTone) && U16LE(b, 10) == ToneWord(c.txTone)
    requires b[12] == c.txPower && U16LE(b, 13) == GroupWordOf(c.groups)
    requires b[15] == LegacyFlag(c.bandwidth, c.modulation) && b[20..] == ChannelMemories.NameField(c.name)
    ensures DecodeChannelBlock(b) == Some(LegacyChannel(c.rx, c.tx, ToneString(ToneWord(c.rxTone)), ToneString(ToneWord(c.txTone)),
      c.txPower, GroupStringOf(GroupWordOf(c.groups)), if c.bandwidth == "Wide" then "Narrow" else "Wide", c.modulation,
      RemoveChar(AsciiString(ChannelMemories.NameField(c.name)), '\0')))
  {
    assert b[20..32] == b[20..];
  }

  /** decode(encode(c)) for an encodable channel whose rx is not 0: numbers and modulation come
      back, tones and groups as the strings of their words, and the bandwidth inverted, because
      encode writes bit 0 = 0 for "Wide" and decode reads bit 0 = 1 as "Wide". */
  lemma LegacyRoundTrip(c: LegacyChannel)
    requires InRanges(c) && c.rx != 0
    ensures DecodeChannelBlock(EncodedChannel(c).value) == Some(LegacyChannel(c.rx, c.tx,
      ToneString(ToneWord(c.rxTone)), ToneString(ToneWord(c.txTone)), c.txPower, GroupStringOf(GroupWordOf(c.groups)),
      if c.bandwidth == "Wide" then "Narrow" else "Wide", c.modulation,
      RemoveChar(AsciiString(ChannelMemories.NameField(c.name)), '\0')))
  {
    LegacyLayout(c);
    DecodeLaidOut(EncodedChannel(c).value, c);
  }

  /** So a channel saved as "Wide" reads back as "Narrow", and the other way round. */
  lemma BandwidthFlips(c: LegacyChannel)
    requires InRanges(c) && c.rx != 0 && (c.bandwidth == "Wide" || c.bandwidth == "Narrow")
    ensures DecodeChannelBlock(EncodedChannel(c).value).Some?
    ensures DecodeChannelBlock(EncodedChannel(c).value).value.bandwidth != c.bandwidth
  {
    LegacyRoundTrip(c);
  }

  /** Groups as upper-case letters A..O, at most four, an ASCII NUL-free name and a CTCSS or no
      tone: everything comes back except the bandwidth and the name past 12 characters. */
  lemma LegacyRoundTripFields(c: LegacyChannel)
    requires InRanges(c) && c.rx != 0
    requires |c.groups| <= 4 && forall i :: 0 <= i < |c.groups| ==> IsGroupLetter(c.groups[i])
    requires IsAscii(c.name) && '\0' !in c.name
    ensures DecodeChannelBlock(EncodedChannel(c).value).Some?
    ensures var d := DecodeChannelBlock(EncodedChannel(c).value).value;
      d.groups == c.groups && d.name == Take(c.name, 12) && d.modulation == c.modulation
      && d.rx == c.rx && d.tx == c.tx && d.txPower == c.txPower
  {
    LegacyRoundTrip(c);
    GroupStringWordRoundTrip(c.groups);
    ChannelMemories.NameRoundTrip(c.name);
  }

  /** A modulation outside the table is a RangeError from writeUInt8 of the negative flag. */
  lemma UnknownModulationRejected(c: LegacyChannel)
    requires c.modulation !in MODULATION_NAMES
    ensures EncodedChannel(c) == Err(OutOfRange)
    ensures LegacyFlag(c.bandwidth, c.modulation) < 0
  {
  }

  // ---------------------------------------------------------------------------
  // readChannelMemories.

  /** What each block yields: nothing when its read fails or it decodes to null. */
  function Outcomes(image: seq<byte>, unreadable: set<int>): (ds: seq<Option<LegacyChannel>>)
    requires IsImage(image)
    ensures |ds| == BLOCK_COUNT
  {
    seq(BLOCK_COUNT, n requires 0 <= n < BLOCK_COUNT =>
      if n in unreadable then None else DecodeChannelBlock(Block(image, n)))
  }

  /** readChannelMemories: blocks 2..199 read in order, each channel numbered block - 1; a read
      that fails is logged and skipped. */
  method ReadChannelMemories(radio: Radio) returns (channels: seq<Numbered<LegacyChannel>>)
    requires radio.Valid()
    modifies radio
    ensures radio.Valid() && radio.memory == old(radio.memory) && radio.armed == old(radio.armed)
    ensures radio.trace == old(radio.trace) + ReadTrace(2, 200)
    ensures channels == Present(Outcomes(radio.memory, radio.unreadable), 2, 200, -1)
  {
    ghost var t0 := radio.trace;
    ghost var ds := Outcomes(radio.memory, radio.unreadable);
    channels := [];
    var blockNum := 2;
    while blockNum <= 199
      invariant 2 <= blockNum <= 200
      invariant radio.Valid() && radio.memory == old(radio.memory) && radio.armed == old(radio.armed)
      invariant radio.trace == t0 + ReadTrace(2, blockNum)
      invariant ds == Outcomes(radio.memory, radio.unreadable) && channels == Present(ds, 2, blockNum, -1)
    {
      channels := CollectAt(radio, blockNum, ds, channels);
      blockNum := blockNum + 1;
    }
    assert blockNum == 200;
    assert channels == Present(ds, 2, 200, -1);
  }

  /** One step of the loop: the block read, and its channel listed as blockNum - 1 unless the
      read failed or it decoded to null. */
  method CollectAt(radio: Radio, blockNum: nat, ghost ds: seq<Option<LegacyChannel>>,
                   channels: seq<Numbered<LegacyChannel>>)
    returns (next: seq<Numbered<LegacyChannel>>)
    requires radio.Valid() && 2 <= blockNum <= 199
    requires ds == Outcomes(radio.memory, radio.unreadable) && channels == Present(ds, 2, blockNum, -1)
    modifies radio
    ensures radio.Valid() && radio.memory == old(radio.memory) && radio.armed == old(radio.armed)
    ensures radio.trace == old(radio.trace) + [Sent(Protocol.ReadRequest(blockNum))]
    ensures next == Present(ds, 2, blockNum + 1, -1)
  {
    var block := radio.ReadBlock(blockNum);
    PresentSnoc(ds, 2, blockNum, -1);
    next := channels;
    if block.Ok? {
      var channel := DecodeChannelBlock(block.value);
      assert ds[blockNum] == channel;
      if channel.Some? {
        next := channels + [Numbered(blockNum - 1, channel.value)];
      }
    } else {
      assert ds[blockNum] == None;
    }
  }

  /** readChannelMemories lists channels 1..198, ascending, one per readable block that decodes. */
  lemma ReadChannelMemoriesListing(image: seq<byte>, unreadable: set<int>)
    requires IsImage(image)
    ensures forall k :: 0 <= k < |Present(Outcomes(image, unreadable), 2, 200, -1)| ==>
      1 <= Present(Outcomes(image, unreadable), 2, 200, -1)[k].number <= 198
    ensures forall i, j :: 0 <= i < j < |Present(Outcomes(image, unreadable), 2, 200, -1)| ==>
      Present(Outcomes(image, unreadable), 2, 200, -1)[i].number < Present(Outcomes(image, unreadable), 2, 200, -1)[j].number
    ensures forall n, c :: (Numbered(n, c) in Present(Outcomes(image, unreadable), 2, 200, -1)
      <==> 1 <= n <= 198 && n + 1 !in unreadable && DecodeChannelBlock(Block(image, n + 1)) == Some(c))
  {
    var ds := Outcomes(image, unreadable);
    PresentListing(ds, 2, 200, -1);
    forall n, c
      ensures Numbered(n, c) in Present(ds, 2, 200, -1)
        <==> 1 <= n <= 198 && n + 1 !in unreadable && DecodeChannelBlock(Block(image, n + 1)) == Some(c)
    {
      if 1 <= n <= 198 {
        assert ds[n + 1] == if n + 1 in unreadable then None else DecodeChannelBlock(Block(image, n + 1));
      }
    }
  }
}

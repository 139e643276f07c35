/**
 * CodeplugService (src/main/codeplugService.ts): an in-memory copy of the
 * 8192-byte codeplug, fetched once from the radio, that the region methods
 * read and update in place, mirroring each region write to the radio block by
 * block. Every region method fails with NotFetched until a fetch succeeded.
 */
module Service {
  import opened Wrappers
  import opened Bytes
  import opened Text
  import opened Protocol
  import opened Buffers
  import opened Radio
  import opened Listings
  import opened ChannelMemories
  import opened ServiceChannels
  import opened GroupLabels
  import opened ServiceGroups
  import ScanPresets
  import opened ServicePresets
  import BandPlan
  import Settings
  import Codeplug

  /** One block stored the way writeChannels stores it: written to the radio and copied into
      the in-memory codeplug at the same place. */
  method StoreBlock(radio: Radio, plug: array<byte>, n: nat, data: seq<byte>)
    requires radio.Valid() && plug.Length == IMAGE_SIZE && n < BLOCK_COUNT && |data| == BLOCK_SIZE
    modifies radio, plug
    ensures radio.Valid() && WellFormed([Write(n, data)])
    ensures plug[..] == Apply(old(plug[..]), [Write(n, data)], {})
    ensures radio.memory == Apply(old(radio.memory), [Write(n, data)], radio.refused)
    ensures radio.trace == old(radio.trace) + WriteBlockTrace([Write(n, data)])
  {
    ApplySnoc(plug[..], [], Write(n, data), {});
    var _ := radio.WriteBlock(n, data);
    Copy(data, plug, n * 32);
  }

  /** One step of the channel loop of writeChannels: channel i's block written to block
      channelNumber + 1 and copied into the codeplug. */
  method StoreChannel(radio: Radio, plug: array<byte>, channels: seq<Channel>, i: nat, data: seq<byte>,
                      ghost i0: seq<byte>, ghost m0: seq<byte>, ghost t0: seq<Event>)
    requires radio.Valid() && plug.Length == IMAGE_SIZE && Placeable(channels) && i < |channels|
    requires (forall j :: 0 <= j <= i ==> InRanges(channels[j])) && EncodedChannel(channels[i]) == Ok(data)
    requires Replayed(i0, m0, t0, radio.refused, ChannelWrites(channels, i), plug[..], radio.memory, radio.trace)
    modifies radio, plug
    ensures radio.Valid()
    ensures Replayed(i0, m0, t0, radio.refused, ChannelWrites(channels, i + 1), plug[..], radio.memory, radio.trace)
  {
    ghost var w := Write(channels[i].channelNumber + 1, data);
    ChannelWritesNext(channels, i, data);
    ReplayedSnoc(i0, m0, t0, radio.refused, ChannelWrites(channels, i), plug[..], radio.memory, radio.trace, w);
    StoreBlock(radio, plug, channels[i].channelNumber + 1, data);
  }

  /** The channel loop of writeChannels: it stops at the first channel encodeChannelBlock
      rejects, which it returns (the count when there is none). */
  method WriteEachChannel(radio: Radio, plug: array<byte>, channels: seq<Channel>) returns (f: nat)
    requires radio.Valid() && plug.Length == IMAGE_SIZE && Placeable(channels)
    modifies radio, plug
    ensures radio.Valid() && f == FirstUnencodable(channels, 0)
    ensures plug[..] == Apply(old(plug[..]), ChannelWrites(channels, f), {})
    ensures radio.memory == Apply(old(radio.memory), ChannelWrites(channels, f), radio.refused)
    ensures radio.trace == old(radio.trace) + WriteBlockTrace(ChannelWrites(channels, f))
  {
    ghost var t0, m0, i0 := radio.trace, radio.memory, plug[..];
    ghost var ws: seq<Write> := [];
    var i := 0;
    while i < |channels|
      invariant 0 <= i <= |channels| && forall j :: 0 <= j < i ==> InRanges(channels[j])
      invariant ws == ChannelWrites(channels, i) && radio.Valid()
      invariant Replayed(i0, m0, t0, radio.refused, ws, plug[..], radio.memory, radio.trace)
    {
      var channel := channels[i];
      var blockData := EncodeChannelBlock(channel);
      if blockData.Err? {
        FirstUnencodableIs(channels, i, 0);
        return i;
      }
      assert InRanges(channels[i]);
      StoreChannel(radio, plug, channels, i, blockData.value, i0, m0, t0);
      ws := ChannelWrites(channels, i + 1);
      i := i + 1;
    }
    FirstUnencodableIs(channels, |channels|, 0);
    f := |channels|;
  }

  /** The zero-fill of writeChannels: an empty block to blocks count + 2 .. 199, on the radio
      and in memory. */
  method ZeroFillChannels(radio: Radio, plug: array<byte>, count: nat)
    requires radio.Valid() && plug.Length == IMAGE_SIZE
    modifies radio, plug
    ensures radio.Valid()
    ensures plug[..] == Apply(old(plug[..]), ClearWrites(count), {})
    ensures radio.memory == Apply(old(radio.memory), ClearWrites(count), radio.refused)
    ensures radio.trace == old(radio.trace) + WriteBlockTrace(ClearWrites(count))
  {
    ghost var t0, m0, i0 := radio.trace, radio.memory, plug[..];
    ghost var ws: seq<Write> := [];
    var emptyBlock := Zeros(BLOCK_SIZE);
    var blockNum := count + 2;
    if blockNum >= FILL_END {
      return;
    }
    ghost var all, k := ClearWrites(count), 0;
    while blockNum < FILL_END
      invariant count + 2 <= blockNum <= FILL_END && k == blockNum - (count + 2)
      invariant ws == all[..k] && radio.Valid()
      invariant Replayed(i0, m0, t0, radio.refused, ws, plug[..], radio.memory, radio.trace)
    {
      ghost var w := Write(blockNum, emptyBlock);
      assert w == all[k];
      PrefixSnoc(all, k);
      ReplayedSnoc(i0, m0, t0, radio.refused, ws, plug[..], radio.memory, radio.trace, w);
      StoreBlock(radio, plug, blockNum, emptyBlock);
      ws := ws + [w];
      blockNum, k := blockNum + 1, k + 1;
    }
    assert ws == all;
  }

  /** The zero-fill once every channel was written: what is then in memory and on the radio
      is everything a complete writeChannels writes, applied to the state before the channels. */
  method FinishChannels(radio: Radio, plug: array<byte>, channels: seq<Channel>,
                        ghost i0: seq<byte>, ghost m0: seq<byte>)
    requires radio.Valid() && plug.Length == IMAGE_SIZE && Placeable(channels)
    requires IsImage(i0) && IsImage(m0) && FirstUnencodable(channels, 0) == |channels|
    requires plug[..] == Apply(i0, ChannelWrites(channels, |channels|), {})
    requires radio.memory == Apply(m0, ChannelWrites(channels, |channels|), radio.refused)
    modifies radio, plug
    ensures radio.Valid()
    ensures plug[..] == Apply(i0, AllChannelWrites(channels), {})
    ensures radio.memory == Apply(m0, AllChannelWrites(channels), radio.refused)
    ensures radio.trace == old(radio.trace) + WriteBlockTrace(ClearWrites(|channels|))
  {
    ZeroFillChannels(radio, plug, |channels|);
    ApplyAppend(m0, ChannelWrites(channels, |channels|), ClearWrites(|channels|), radio.refused);
    ApplyAppend(i0, ChannelWrites(channels, |channels|), ClearWrites(|channels|), {});
  }

  /** One step of the forEach: fullData.write(label, 6i, 5, 'ascii') and writeUInt8(0, 6i + 5). */
  method PutGroup(fullData: array<byte>, groups: seq<Group>, i: nat)
    requires i < |groups| && i < MAX_GROUPS && fullData.Length == REGION_SIZE
    requires fullData[..] == Laid(Slots(groups, i), REGION_SIZE)
    modifies fullData
    ensures fullData[..] == Laid(Slots(groups, i + 1), REGION_SIZE)
  {
    var offset := i * 6;
    SlotStores(groups, i);
    Copy(NulPadded(groups[i].text, LABEL_WIDTH), fullData, offset);
    var _ := WriteUInt8(fullData, 0, offset + LABEL_WIDTH);
  }

  /** The forEach of updateGroups: each group's label bytes at offset 6i of a zeroed 96-byte
      buffer and a 0 at 6i + 5. The seventeenth group's terminator store writeUInt8(0, 101)
      throws the RangeError (its label write at offset 96 stores nothing). */
  method LayOutGroups(groups: seq<Group>) returns (r: Result<seq<byte>>)
    ensures |groups| <= MAX_GROUPS ==> r == Ok(GroupData(groups))
    ensures |groups| > MAX_GROUPS ==> r == Err(OutOfRange)
  {
    var fullData := new byte[REGION_SIZE](_ => 0);
    assert fullData[..] == Laid([], REGION_SIZE);
    var i := 0;
    while i < |groups|
      invariant 0 <= i <= |groups| && i <= MAX_GROUPS
      invariant fullData[..] == Laid(Slots(groups, i), REGION_SIZE)
    {
      if i * 6 + LABEL_WIDTH >= fullData.Length {
        return Err(OutOfRange);
      }
      PutGroup(fullData, groups, i);
      i := i + 1;
    }
    return Ok(fullData[..]);
  }

  /** The fills and copies of updateGroups on the codeplug: blocks 228..231 cleared, then the
      group data copied in as 16, 32, 32 and 16 bytes from byte 16 of block 228. */
  method FillAndCopyGroups(plug: array<byte>, fullData: seq<byte>)
    requires plug.Length == IMAGE_SIZE && |fullData| == REGION_SIZE
    modifies plug
    ensures plug[..] == FilledAndCopied(old(plug[..]), fullData)
  {
    Fill(plug, 228 * 32, 229 * 32, 0);
    Fill(plug, 229 * 32, 230 * 32, 0);
    Fill(plug, 230 * 32, 231 * 32, 0);
    Fill(plug, 231 * 32, 232 * 32, 0);
    Copy(fullData[0..16], plug, 228 * 32 + 16);
    Copy(fullData[16..48], plug, 229 * 32);
    Copy(fullData[48..80], plug, 230 * 32);
    Copy(fullData[80..96], plug, 231 * 32);
    assert fullData[80..96] == fullData[80..];
  }

  /** The write loop of updateGroups: blocks 228..231 of the codeplug to the radio, in order. */
  method WriteGroupBlocks(radio: Radio, plug: array<byte>)
    requires radio.Valid() && plug.Length == IMAGE_SIZE
    modifies radio
    ensures radio.Valid()
    ensures radio.memory == Apply(old(radio.memory), GroupWrites(plug[..]), radio.refused)
    ensures radio.trace == old(radio.trace) + WriteBlockTrace(GroupWrites(plug[..]))
  {
    ghost var t0, m0, all := radio.trace, radio.memory, GroupWrites(plug[..]);
    var i := 0;
    while i < 4
      invariant 0 <= i <= 4 && radio.Valid()
      invariant Transmitted(m0, t0, radio.refused, all[..i], radio.memory, radio.trace)
    {
      SendGroupBlock(radio, plug, i, m0, t0);
      i := i + 1;
    }
    assert i == 4;
    assert all[..4] == all;
  }

  /** One step of that loop: block 228 + i sent as it stands in the codeplug. */
  method SendGroupBlock(radio: Radio, plug: array<byte>, i: nat, ghost m0: seq<byte>, ghost t0: seq<Event>)
    requires radio.Valid() && plug.Length == IMAGE_SIZE && i < 4
    requires Transmitted(m0, t0, radio.refused, GroupWrites(plug[..])[..i], radio.memory, radio.trace)
    modifies radio
    ensures radio.Valid()
    ensures Transmitted(m0, t0, radio.refused, GroupWrites(plug[..])[..i + 1], radio.memory, radio.trace)
  {
    ghost var all := GroupWrites(plug[..]);
    var n := FIRST_LABEL_BLOCK + i;
    var data := plug[n * 32..(n + 1) * 32];
    assert data == Block(plug[..], n);
    ghost var w := Write(n, data);
    assert w == all[i];
    PrefixSnoc(all, i);
    TransmittedSnoc(m0, t0, radio.refused, all[..i], radio.memory, radio.trace, w);
    var _ := radio.WriteBlock(n, data);
  }

  /** The copy loop of readScanPresets: from block 216 on, min(32, 400 - offset) bytes of each
      block into a 400-byte buffer, until it is full. */
  method GatherPresets(plug: array<byte>) returns (buf: seq<byte>)
    requires plug.Length == IMAGE_SIZE
    ensures buf == PresetRegion(plug[..])
  {
    ghost var region := PresetRegion(plug[..]);
    var presetsBuffer := new byte[PRESETS_SIZE](_ => 0);
    assert presetsBuffer[..] == Laid(region[..0], PRESETS_SIZE);
    var presetsOffset := 0;
    var blockNum := FIRST_PRESET_BLOCK;
    while presetsOffset < PRESETS_SIZE
      invariant 0 <= presetsOffset <= PRESETS_SIZE
      invariant presetsOffset < PRESETS_SIZE ==> blockNum * 32 == PRESET_START + presetsOffset
      invariant presetsBuffer[..] == Laid(region[..presetsOffset], PRESETS_SIZE)
      decreases PRESETS_SIZE - presetsOffset
    {
      var bytesToCopy := if 32 < PRESETS_SIZE - presetsOffset then 32 else PRESETS_SIZE - presetsOffset;
      var blockData := plug[blockNum * 32..blockNum * 32 + bytesToCopy];
      RegionStep(plug[..], presetsOffset, blockNum, bytesToCopy);
      SpliceLaid(region[..presetsOffset], blockData, PRESETS_SIZE);
      Copy(blockData, presetsBuffer, presetsOffset);
      presetsOffset := presetsOffset + bytesToCopy;
      blockNum := blockNum + 1;
    }
    buf := presetsBuffer[..];
    assert region[..PRESETS_SIZE] == region;
  }

  /** The bytes copied from block bl extend the gathered prefix of the region. */
  lemma RegionStep(image: seq<byte>, offset: nat, bl: nat, count: nat)
    requires IsImage(image) && offset + count <= PRESETS_SIZE && bl * 32 == PRESET_START + offset
    ensures PresetRegion(image)[..offset] + image[bl * 32..bl * 32 + count] == PresetRegion(image)[..offset + count]
  {
    var region := PresetRegion(image);
    var a, b := region[..offset] + image[bl * 32..bl * 32 + count], region[..offset + count];
    forall j | 0 <= j < offset + count
      ensures a[j] == b[j]
    {
      assert region[j] == image[PRESET_START + j];
    }
  }

  /** The decode loop of readScanPresets: slot i decoded under number i + 1, the ones that
      decode kept in order. */
  method DecodePresets(buf: seq<byte>) returns (presets: seq<ScanPresets.ScanPreset>)
    requires |buf| == PRESETS_SIZE
    ensures presets == PresetsOf(buf)
  {
    ghost var ds := PresetSlots(buf);
    presets := [];
    var i := 0;
    while i < PRESET_COUNT
      invariant 0 <= i <= PRESET_COUNT
      invariant presets == Items(Present(ds, 0, i, 1))
    {
      var presetData := buf[ScanPresets.PRESET_SIZE * i..ScanPresets.PRESET_SIZE * i + ScanPresets.PRESET_SIZE];
      var preset := ScanPresets.DecodeScanPresetBlock(presetData, i + 1);
      assert preset == ds[i];
      PresentSnoc(ds, 0, i, 1);
      ItemsSnoc(Present(ds, 0, i, 1), Entry(ds, i, 1));
      if preset.Some? {
        presets := presets + [preset.value];
      }
      i := i + 1;
    }
  }

  /** The encode loop of writeScanPresets over the sorted presets: each one encoded (the first
      that does not encode throws) and copied to byte presetNumber * 20 when it fits. */
  method BuildPresetsBuffer(sorted: seq<ScanPresets.ScanPreset>) returns (r: Result<seq<byte>>)
    ensures r == PresetsBuffer(sorted)
  {
    var presetsBuffer := new byte[PRESETS_SIZE](_ => 0);
    assert presetsBuffer[..] == Zeros(PRESETS_SIZE) && sorted[..0] == [];
    var i := 0;
    while i < |sorted|
      invariant 0 <= i <= |sorted|
      invariant PresetsBuffer(sorted[..i]) == Ok(presetsBuffer[..])
    {
      var preset := sorted[i];
      assert sorted[..i + 1][..i] == sorted[..i] && sorted[..i + 1][i] == preset;
      var presetData := ScanPresets.EncodeScanPresetBlock(preset);
      if presetData.Err? {
        BufferErrSticks(sorted, i + 1);
        return Err(presetData.error);
      }
      var bufferOffset := preset.presetNumber * ScanPresets.PRESET_SIZE;
      if bufferOffset >= 0 && bufferOffset + ScanPresets.PRESET_SIZE <= presetsBuffer.Length {
        Copy(presetData.value, presetsBuffer, bufferOffset);
      }
      i := i + 1;
    }
    assert sorted[..i] == sorted;
    r := Ok(presetsBuffer[..]);
  }

  /** One block of writeScanPresets: Buffer.alloc(32) with min(32, 400 - offset) bytes of the
      buffer from offset copied to its front. */
  method PresetBlockAt(buf: seq<byte>, offset: nat, ghost k: nat) returns (data: seq<byte>)
    requires |buf| == PRESETS_SIZE && k < PRESET_BLOCKS && offset == BLOCK_SIZE * k
    ensures data == PresetBlock(buf, k)
  {
    var blockData := new byte[BLOCK_SIZE](_ => 0);
    assert blockData[..] == Laid([], BLOCK_SIZE);
    var bytesToCopy := if 32 < PRESETS_SIZE - offset then 32 else PRESETS_SIZE - offset;
    SpliceLaid([], buf[offset..offset + bytesToCopy], BLOCK_SIZE);
    Copy(buf[offset..offset + bytesToCopy], blockData, 0);
    data := blockData[..];
  }

  /** One step of the block loop of writeScanPresets: the block at this offset of the buffer,
      written to block 216 + offset / 32 and copied into the codeplug. */
  method StorePresetBlock(radio: Radio, plug: array<byte>, buf: seq<byte>, offset: nat, ghost k: nat,
                          ghost i0: seq<byte>, ghost m0: seq<byte>, ghost t0: seq<Event>)
    requires radio.Valid() && plug.Length == IMAGE_SIZE && |buf| == PRESETS_SIZE
    requires k < PRESET_BLOCKS && offset == BLOCK_SIZE * k
    requires Replayed(i0, m0, t0, radio.refused, PresetWrites(buf)[..k], plug[..], radio.memory, radio.trace)
    modifies radio, plug
    ensures radio.Valid()
    ensures Replayed(i0, m0, t0, radio.refused, PresetWrites(buf)[..k + 1], plug[..], radio.memory, radio.trace)
  {
    ghost var all := PresetWrites(buf);
    var blockData := PresetBlockAt(buf, offset, k);
    assert offset / 32 == k;
    var blockNum := FIRST_PRESET_BLOCK + offset / 32;
    ghost var w := Write(blockNum, blockData);
    assert w == all[k];
    PrefixSnoc(all, k);
    ReplayedSnoc(i0, m0, t0, radio.refused, all[..k], plug[..], radio.memory, radio.trace, w);
    StoreBlock(radio, plug, blockNum, blockData);
  }

  /** The block loop of writeScanPresets: for each 32-byte step of the buffer a zeroed block
      with those bytes, written to block 216 + offset / 32 and copied into the codeplug. */
  method WritePresetBlocks(radio: Radio, plug: array<byte>, buf: seq<byte>)
    requires radio.Valid() && plug.Length == IMAGE_SIZE && |buf| == PRESETS_SIZE
    modifies radio, plug
    ensures radio.Valid()
    ensures plug[..] == Apply(old(plug[..]), PresetWrites(buf), {})
    ensures radio.memory == Apply(old(radio.memory), PresetWrites(buf), radio.refused)
    ensures radio.trace == old(radio.trace) + WriteBlockTrace(PresetWrites(buf))
  {
    ghost var t0, m0, i0, all := radio.trace, radio.memory, plug[..], PresetWrites(buf);
    var offset := 0;
    ghost var k := 0;
    while offset < PRESETS_SIZE
      invariant 0 <= k <= PRESET_BLOCKS && offset == BLOCK_SIZE * k && radio.Valid()
      invariant Replayed(i0, m0, t0, radio.refused, all[..k], plug[..], radio.memory, radio.trace)
    {
      StorePresetBlock(radio, plug, buf, offset, k, i0, m0, t0);
      offset := offset + 32;
      k := k + 1;
    }
    assert all[..k] == all;
  }

  /** The block loop of readChannels over blocks 2..197 in its corrected form: each channel that
      decodes is listed with its block - 1 as channelNumber. As written, the code numbers every
      channel 0 (ServiceChannels.ChannelsAsWritten). */
  method ListChannels(plug: array<byte>) returns (channels: seq<Channel>)
    requires plug.Length == IMAGE_SIZE
    ensures channels == ChannelsOf(plug[..])
  {
    ghost var ds := ChannelSlots(plug[..]);
    channels := [];
    var blockNum := FIRST_CHANNEL_BLOCK;
    while blockNum < LIST_END
      invariant FIRST_CHANNEL_BLOCK <= blockNum <= LIST_END
      invariant channels == Stamped(Present(ds, FIRST_CHANNEL_BLOCK, blockNum, -1))
    {
      channels := ListAt(plug, blockNum, channels);
      blockNum := blockNum + 1;
    }
    assert blockNum == LIST_END;
  }

  /** One turn of that loop: block blockNum decoded, and listed if it holds a channel. */
  method ListAt(plug: array<byte>, blockNum: nat, channels: seq<Channel>) returns (next: seq<Channel>)
    requires plug.Length == IMAGE_SIZE && FIRST_CHANNEL_BLOCK <= blockNum < LIST_END
    requires channels == Stamped(Present(ChannelSlots(plug[..]), FIRST_CHANNEL_BLOCK, blockNum, -1))
    ensures next == Stamped(Present(ChannelSlots(plug[..]), FIRST_CHANNEL_BLOCK, blockNum + 1, -1))
  {
    ghost var ds := ChannelSlots(plug[..]);
    var blockData := plug[blockNum * 32..(blockNum + 1) * 32];
    assert blockData == Block(plug[..], blockNum);
    var channel := DecodeChannelBlock(blockData);
    assert channel == ds[blockNum];
    StampedPresentSnoc(ds, FIRST_CHANNEL_BLOCK, blockNum, -1);
    next := channels;
    if channel.Some? {
      next := channels + [channel.value.(channelNumber := blockNum - 1)];
    }
  }

  class CodeplugService {
    /** The RadioCommunicator the service talks through. */
    const radio: Radio
    /** `codeplug: Buffer | null`. */
    var codeplug: Option<array<byte>>

    ghost predicate Valid()
      reads this, radio
    {
      radio.Valid() && (codeplug.Some? ==> codeplug.value.Length == IMAGE_SIZE)
    }

    /** The bytes of the in-memory codeplug. */
    function Image(): (image: seq<byte>)
      requires codeplug.Some?
      reads this, codeplug.value
    {
      codeplug.value[..]
    }

    constructor(radio0: Radio)
      requires radio0.Valid()
      ensures Valid() && radio == radio0 && codeplug == None
    {
      radio := radio0;
      codeplug := None;
    }

    /** fetchCodeplug: connect, 0x45, readCodeplug into a fresh buffer, and close in the finally
        block whether or not the read succeeded. A failed read keeps the previous codeplug. */
    method FetchCodeplug() returns (o: Outcome, progress: seq<nat>)
      requires Valid()
      modifies this, radio
      ensures Valid() && radio.memory == old(radio.memory) && radio.armed == old(radio.armed)
      ensures radio.trace == old(radio.trace) + [Connected] + [Sent([ENTER])]
        + Codeplug.ReadCodeplugTrace(FirstIn(radio.unreadable, 0, BLOCK_COUNT)) + [Closed]
      ensures FirstIn(radio.unreadable, 0, BLOCK_COUNT) == BLOCK_COUNT ==>
        o == Pass && codeplug.Some? && fresh(codeplug.value) && Image() == radio.memory
      ensures FirstIn(radio.unreadable, 0, BLOCK_COUNT) < BLOCK_COUNT ==>
        o == Fail(ReadFailed(FirstIn(radio.unreadable, 0, BLOCK_COUNT))) && codeplug == old(codeplug)
    {
      radio.Connect();
      radio.Command(ENTER);
      var r;
      r, progress := Codeplug.ReadCodeplug(radio);
      radio.Close();
      if r.Ok? {
        codeplug := Some(r.value);
        o := Pass;
      } else {
        o := Fail(r.error);
      }
    }

    /** readChannels, corrected: blocks 2..197 decoded in order, the empty ones skipped, each
        channel numbered by its block - 1 where the code as written numbers every one 0. */
    method ReadChannels() returns (r: Result<seq<Channel>>)
      requires Valid()
      ensures codeplug.None? ==> r == Err(NotFetched)
      ensures codeplug.Some? ==> r == Ok(ChannelsOf(Image()))
    {
      if codeplug.None? {
        return Err(NotFetched);
      }
      var channels := ListChannels(codeplug.value);
      r := Ok(channels);
    }

    /** readGroups: the 96 bytes from byte 16 of block 228, decoded as labels 'A'..'O'. */
    method ReadGroups() returns (r: Result<seq<Group>>)
      requires Valid()
      ensures codeplug.None? ==> r == Err(NotFetched)
      ensures codeplug.Some? ==> r == Ok(Labels(RegionOf(Image())))
    {
      if codeplug.None? {
        return Err(NotFetched);
      }
      var plug := codeplug.value;
      var b0, b1, b2, b3 := plug[228 * 32..229 * 32], plug[229 * 32..230 * 32], plug[230 * 32..231 * 32], plug[231 * 32..232 * 32];
      assert b0 == Block(plug[..], 228) && b1 == Block(plug[..], 229) && b2 == Block(plug[..], 230) && b3 == Block(plug[..], 231);
      RegionOfBlocks(plug[..]);
      var fullData := LabelRegion(b0, b1, b2, b3);
      var groups := DecodeLabels(fullData);
      r := Ok(groups);
    }

    /** readSettings: the settings blocks of the in-memory codeplug are gathered but not used;
        settings.ts readSettings reads blocks 200..203 from the radio instead. */
    method ReadSettings() returns (r: Result<Settings.SettingsBlock>)
      requires Valid()
      modifies radio
      ensures Valid() && radio.memory == old(radio.memory) && radio.armed == old(radio.armed)
      ensures codeplug.None? ==> r == Err(NotFetched) && radio.trace == old(radio.trace)
      ensures codeplug.Some? ==> var f := FirstIn(radio.unreadable, Settings.FIRST_BLOCK, Settings.END_BLOCK);
        radio.trace == old(radio.trace) + ReadTrace(Settings.FIRST_BLOCK, if f == Settings.END_BLOCK then f else f + 1)
        && r == if f == Settings.END_BLOCK then Ok(Settings.Decoded(Settings.SettingsRegion(radio.memory))) else Err(ReadFailed(f))
    {
      if codeplug.None? {
        return Err(NotFetched);
      }
      r := Settings.ReadSettings(radio);
    }

    /** readBandPlan: blocks 0xD0..0xD6 of the in-memory codeplug through decodeBandPlan. */
    method ReadBandPlan() returns (r: Result<seq<BandPlan.Band>>)
      requires Valid()
      ensures codeplug.None? ==> r == Err(NotFetched)
      ensures codeplug.Some? ==> r == BandPlan.DecodedBandPlan(BandPlan.BandRegion(Image()))
    {
      if codeplug.None? {
        return Err(NotFetched);
      }
      var plug := codeplug.value;
      var bandBlocks: seq<seq<byte>> := [];
      var blockNum := BandPlan.FIRST_BLOCK as nat;
      while blockNum < BandPlan.END_BLOCK
        invariant BandPlan.FIRST_BLOCK <= blockNum <= BandPlan.END_BLOCK
        invariant |bandBlocks| == blockNum - BandPlan.FIRST_BLOCK
        invariant forall k :: 0 <= k < |bandBlocks| ==> bandBlocks[k] == Block(plug[..], BandPlan.FIRST_BLOCK + k)
      {
        bandBlocks := bandBlocks + [plug[blockNum * 32..(blockNum + 1) * 32]];
        blockNum := blockNum + 1;
      }
      ConcatBlocks(plug[..], bandBlocks, BandPlan.FIRST_BLOCK);
      r := BandPlan.DecodeBandPlan(bandBlocks);
    }

    /** writeChannels: connect and 0x45, then for each channel in order its encoding to block
        channelNumber + 1 on the radio and in memory; a channel encodeChannelBlock rejects ends it
        with the RangeError, the channels before it already written. A complete run zero-fills
        blocks count + 2 .. 199 the same way and sends the 0x49 restart. */
    method WriteChannels(channels: seq<Channel>) returns (o: Outcome)
      requires Valid() && Placeable(channels)
      modifies radio, if codeplug.Some? then {codeplug.value} else {}
      ensures Valid() && codeplug == old(codeplug)
      ensures codeplug.None? ==> o == Fail(NotFetched) && radio.trace == old(radio.trace) && radio.memory == old(radio.memory)
      ensures codeplug.Some? && FirstUnencodable(channels, 0) < |channels| ==>
        var ws := ChannelWrites(channels, FirstUnencodable(channels, 0));
        o == Fail(OutOfRange)
        && Image() == Apply(old(Image()), ws, {})
        && radio.memory == Apply(old(radio.memory), ws, radio.refused)
        && radio.trace == old(radio.trace) + [Connected] + [Sent([ENTER])] + WriteBlockTrace(ws)
      ensures codeplug.Some? && FirstUnencodable(channels, 0) == |channels| ==>
        var ws := AllChannelWrites(channels);
        o == Pass
        && Image() == Apply(old(Image()), ws, {})
        && radio.memory == Apply(old(radio.memory), ws, radio.refused)
        && radio.trace == old(radio.trace) + [Connected] + [Sent([ENTER])]
          + WriteBlockTrace(ChannelWrites(channels, |channels|)) + WriteBlockTrace(ClearWrites(|channels|))
          + [Sent([RESTART])]
    {
      if codeplug.None? {
        return Fail(NotFetched);
      }
      var plug := codeplug.value;
      radio.Connect();
      radio.Command(ENTER);
      ghost var m0, i0 := radio.memory, plug[..];
      var f := WriteEachChannel(radio, plug, channels);
      if f < |channels| {
        return Fail(OutOfRange);
      }
      FinishChannels(radio, plug, channels, i0, m0);
      radio.Command(RESTART);
      o := Pass;
    }

    /** updateGroups: the labels laid out in fullData (more than 16 groups is the RangeError,
        nothing changed), blocks 228..231 of the codeplug cleared and refilled from it, the four
        blocks written to the radio and the restart sent. There is no connect and no 0x45. */
    method UpdateGroups(groups: seq<Group>) returns (o: Outcome)
      requires Valid()
      modifies radio, if codeplug.Some? then {codeplug.value} else {}
      ensures Valid() && codeplug == old(codeplug)
      ensures codeplug.None? ==> o == Fail(NotFetched) && radio.trace == old(radio.trace) && radio.memory == old(radio.memory)
      ensures codeplug.Some? && |groups| > MAX_GROUPS ==>
        o == Fail(OutOfRange) && Image() == old(Image())
        && radio.trace == old(radio.trace) && radio.memory == old(radio.memory)
      ensures codeplug.Some? && |groups| <= MAX_GROUPS ==>
        o == Pass && Image() == UpdatedImage(old(Image()), groups)
        && radio.memory == Apply(old(radio.memory), GroupWrites(Image()), radio.refused)
        && radio.trace == old(radio.trace) + WriteBlockTrace(GroupWrites(Image())) + [Sent([RESTART])]
    {
      if codeplug.None? {
        return Fail(NotFetched);
      }
      var plug := codeplug.value;
      var fullData := LayOutGroups(groups);
      if fullData.Err? {
        return Fail(fullData.error);
      }
      FillAndCopyGroups(plug, fullData.value);
      StepsUpdate(old(plug[..]), groups);
      WriteGroupBlocks(radio, plug);
      radio.Command(RESTART);
      o := Pass;
    }

    /** readScanPresets: the 400 bytes from block 216 of the codeplug, slot i decoded as preset
        i + 1. */
    method ReadScanPresets() returns (r: Result<seq<ScanPresets.ScanPreset>>)
      requires Valid()
      ensures codeplug.None? ==> r == Err(NotFetched)
      ensures codeplug.Some? ==> r == Ok(PresetsOf(PresetRegion(Image())))
    {
      if codeplug.None? {
        return Err(NotFetched);
      }
      var presetsBuffer := GatherPresets(codeplug.value);
      var presets := DecodePresets(presetsBuffer);
      r := Ok(presets);
    }

    /** writeScanPresets: connect and 0x45; the presets numbered 0..20, sorted by number, laid
        out in a 400-byte buffer (a preset whose fields do not fit throws before any block is
        written); the buffer written as blocks 216..228 to the radio and the codeplug; then the
        restart. */
    method WriteScanPresets(presets: seq<ScanPresets.ScanPreset>) returns (o: Outcome)
      requires Valid()
      modifies radio, if codeplug.Some? then {codeplug.value} else {}
      ensures Valid() && codeplug == old(codeplug)
      ensures codeplug.None? ==> o == Fail(NotFetched) && radio.trace == old(radio.trace) && radio.memory == old(radio.memory)
      ensures codeplug.Some? && WrittenBuffer(presets).Err? ==>
        o == Fail(OutOfRange) && Image() == old(Image()) && radio.memory == old(radio.memory)
        && radio.trace == old(radio.trace) + [Connected] + [Sent([ENTER])]
      ensures codeplug.Some? && WrittenBuffer(presets).Ok? ==>
        var ws := PresetWrites(WrittenBuffer(presets).value);
        o == Pass
        && Image() == Apply(old(Image()), ws, {})
        && radio.memory == Apply(old(radio.memory), ws, radio.refused)
        && radio.trace == old(radio.trace) + [Connected] + [Sent([ENTER])] + WriteBlockTrace(ws) + [Sent([RESTART])]
    {
      if codeplug.None? {
        return Fail(NotFetched);
      }
      var plug := codeplug.value;
      radio.Connect();
      radio.Command(ENTER);
      var validPresets := KeptPresets(presets);
      var sortedPresets := SortByNumber(validPresets);
      var presetsBuffer := BuildPresetsBuffer(sortedPresets);
      if presetsBuffer.Err? {
        return Fail(presetsBuffer.error);
      }
      WritePresetBlocks(radio, plug, presetsBuffer.value);
      radio.Command(RESTART);
      o := Pass;
    }
  }
}

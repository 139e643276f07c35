/**
 * Scan-group labels (src/radio/group-labels.js): fifteen 6-byte slots, one per
 * group 'A'..'O', in the 96-byte region that starts 16 bytes into block 228.
 * A slot holds up to 5 ASCII characters and a terminating 0; a slot may
 * straddle two blocks.
 */
module GroupLabels {
  import opened Wrappers
  import opened Bytes
  import opened Text
  import opened Radio
  import opened Buffers

  /** Byte address of the region: 16 bytes into block 228. */
  const LABEL_START: nat := 7312
  const REGION_SIZE: nat := 96
  const LABEL_COUNT: nat := 15
  const LABEL_STRIDE: nat := 6
  const LABEL_WIDTH: nat := 5
  /** The four blocks the region overlaps. */
  const FIRST_LABEL_BLOCK: nat := 228
  const LAST_LABEL_BLOCK: nat := 231

  /** A group letter and its label text (the label field of the source's records). */
  datatype Group = Group(group: char, text: string)

  /** block228[16..32) ++ block229 ++ block230 ++ block231[0..16). */
  function LabelRegion(b0: seq<byte>, b1: seq<byte>, b2: seq<byte>, b3: seq<byte>): (r: seq<byte>)
    requires |b0| == |b1| == |b2| == |b3| == BLOCK_SIZE
    ensures |r| == REGION_SIZE
  {
    b0[16..] + b1 + b2 + b3[..16]
  }

  /** The label region of a whole image. */
  function RegionOf(image: seq<byte>): (r: seq<byte>)
    requires IsImage(image)
    ensures |r| == REGION_SIZE
  {
    image[LABEL_START..LABEL_START + REGION_SIZE]
  }

  /** Gathering the four blocks gives exactly the bytes at 7312..7407 of the image. */
  lemma RegionOfBlocks(image: seq<byte>)
    requires IsImage(image)
    ensures LabelRegion(Block(image, 228), Block(image, 229), Block(image, 230), Block(image, 231)) == RegionOf(image)
  {
    assert image[7296..7424] == Block(image, 228) + Block(image, 229) + Block(image, 230) + Block(image, 231);
  }

  /** A label's text: the bytes as ASCII, NULs turned to spaces, non-printables dropped, trimmed. */
  function DecodeLabel(bytes: seq<byte>): (t: string)
    ensures |t| <= |bytes|
    ensures forall k :: 0 <= k < |t| ==> IsPrintable(t[k])
    ensures t == [] || (!IsSpace(t[0]) && !IsSpace(t[|t| - 1]))
  {
    var s := KeepPrintable(ReplaceChar(AsciiString(bytes), '\0', ' '));
    TrimIsSlice(s);
    Trim(s)
  }

  /** Group i: letter 'A' + i and the label decoded from bytes 6i..6i+4 of the region. */
  function LabelAt(region: seq<byte>, i: nat): (g: Group)
    requires |region| == REGION_SIZE && i < LABEL_COUNT
    ensures g.group as int == 'A' as int + i && |g.text| <= LABEL_WIDTH
  {
    Group(('A' as int + i) as char, DecodeLabel(region[6 * i..6 * i + LABEL_WIDTH]))
  }

  function Labels(region: seq<byte>): (gs: seq<Group>)
    requires |region| == REGION_SIZE
    ensures |gs| == LABEL_COUNT
  {
    seq(LABEL_COUNT, i requires 0 <= i < LABEL_COUNT => LabelAt(region, i))
  }

  /** The label loop of readGroupLabels (and of CodeplugService.readGroups). */
  method DecodeLabels(region: seq<byte>) returns (labels: seq<Group>)
    requires |region| == REGION_SIZE
    ensures labels == Labels(region)
  {
    labels := [];
    for i := 0 to LABEL_COUNT
      invariant labels == Labels(region)[..i]
    {
      PrefixSnoc(Labels(region), i);
      labels := labels + [LabelAt(region, i)];
    }
    assert Labels(region)[..LABEL_COUNT] == Labels(region);
  }

  /** readGroupLabels: blocks 228..231 in order, then the fifteen labels of their region. */
  method ReadGroupLabels(radio: Radio) returns (r: Result<seq<Group>>)
    requires radio.Valid()
    modifies radio
    ensures radio.Valid() && radio.memory == old(radio.memory) && radio.armed == old(radio.armed)
    ensures var f := FirstIn(radio.unreadable, FIRST_LABEL_BLOCK, LAST_LABEL_BLOCK + 1);
      if f > LAST_LABEL_BLOCK then
        r == Ok(Labels(RegionOf(radio.memory)))
        && radio.trace == old(radio.trace) + ReadTrace(FIRST_LABEL_BLOCK, LAST_LABEL_BLOCK + 1)
      else
        r == Err(ReadFailed(f)) && radio.trace == old(radio.trace) + ReadTrace(FIRST_LABEL_BLOCK, f + 1)
  {
    var blocks := ReadBlocks(radio, FIRST_LABEL_BLOCK, LAST_LABEL_BLOCK + 1);
    if blocks.Err? {
      return Err(blocks.error);
    }
    var bs := blocks.value;
    RegionOfBlocks(radio.memory);
    var labels := DecodeLabels(LabelRegion(bs[0], bs[1], bs[2], bs[3]));
    r := Ok(labels);
  }

  // ---------------------------------------------------------------------------
  // writeGroupLabel

  /** The 6 bytes of a label: name.trim().slice(0, 5) in ASCII, then zeros. */
  function LabelBytes(name: string): (b: seq<byte>)
    ensures |b| == LABEL_STRIDE && b[LABEL_WIDTH] == 0
  {
    var clean := Take(Trim(name), LABEL_WIDTH);
    AsciiBytes(clean) + Zeros(LABEL_STRIDE - |clean|)
  }

  function LabelAddress(index: nat): nat
  {
    LABEL_START + 6 * index
  }

  /** How the slot of a label lies over the blocks: its first block, its offset there, and how
      many of its 6 bytes fall in that block; the rest go at the start of the next block. */
  lemma SlotPlacement(index: nat)
    requires index < LABEL_COUNT
    ensures var a := LabelAddress(index);
      var first := if 32 - a % 32 < 6 then 32 - a % 32 else 6;
      FIRST_LABEL_BLOCK <= a / 32 <= (a + 5) / 32 <= LAST_LABEL_BLOCK
      && ((a + 5) / 32 == a / 32 <==> first == 6)
      && (first < 6 ==> (a + 5) / 32 == a / 32 + 1 && a + first == (a / 32 + 1) * 32)
      && a == a / 32 * 32 + a % 32
  {
  }

  /** Exactly the labels of groups C and M straddle two blocks. */
  lemma StraddlingSlots(index: nat)
    requires index < LABEL_COUNT
    ensures (LabelAddress(index) + 5) / 32 != LabelAddress(index) / 32 <==> index == 2 || index == 13
  {
  }

  /** The writes that put data at byte offset of block n, reading the blocks from image: the
      bytes that fit spliced into block n and, when some do not, the rest spliced at the front
      of block n + 1. */
  function BlockWrites(image: seq<byte>, n: nat, offset: nat, data: seq<byte>): (ws: seq<Write>)
    requires IsImage(image) && n < BLOCK_COUNT && offset < BLOCK_SIZE && |data| <= BLOCK_SIZE
    requires offset + |data| > BLOCK_SIZE ==> n + 1 < BLOCK_COUNT
    ensures WellFormed(ws) && 1 <= |ws| <= 2
  {
    var first := if BLOCK_SIZE - offset < |data| then BLOCK_SIZE - offset else |data|;
    var w0 := Write(n, Splice(Block(image, n), offset, data[..first]));
    if first == |data| then [w0]
    else [w0, Write(n + 1, Splice(Block(image, n + 1), 0, data[first..]))]
  }

  /** The writes writeGroupLabel issues for label index over the blocks it read from image. */
  function LabelWrites(image: seq<byte>, index: nat, data: seq<byte>): (ws: seq<Write>)
    requires IsImage(image) && index < LABEL_COUNT && |data| == LABEL_STRIDE
    ensures WellFormed(ws) && 1 <= |ws| <= 2
  {
    SlotPlacement(index);
    BlockWrites(image, LabelAddress(index) / 32, LabelAddress(index) % 32, data)
  }

  /** The block holding the first byte of label index. */
  function StartBlock(index: nat): nat
  {
    LabelAddress(index) / 32
  }

  /** The block holding the last byte of label index. */
  function EndBlock(index: nat): nat
  {
    (LabelAddress(index) + 5) / 32
  }

  /**
   * writeGroupLabel: an index outside 0..14 is refused before any block I/O. Otherwise the
   * one or two blocks the slot overlaps are read, the label spliced in, and exactly those
   * blocks written back in order.
   */
  method WriteGroupLabel(radio: Radio, index: int, name: string) returns (o: Outcome)
    requires radio.Valid()
    modifies radio
    ensures radio.Valid()
    ensures !(0 <= index < LABEL_COUNT) ==>
      (o == Fail(BadIndex) && radio.trace == old(radio.trace) && radio.memory == old(radio.memory))
    ensures (0 <= index < LABEL_COUNT && FirstIn(radio.unreadable, StartBlock(index), EndBlock(index) + 1) <= EndBlock(index)) ==>
      var f := FirstIn(radio.unreadable, StartBlock(index), EndBlock(index) + 1);
      o == Fail(ReadFailed(f)) && radio.memory == old(radio.memory)
      && radio.trace == old(radio.trace) + ReadTrace(StartBlock(index), f + 1)
    ensures (0 <= index < LABEL_COUNT && FirstIn(radio.unreadable, StartBlock(index), EndBlock(index) + 1) > EndBlock(index)) ==>
      var ws := LabelWrites(old(radio.memory), index, LabelBytes(name));
      o == Pass && radio.memory == Apply(old(radio.memory), ws, radio.refused)
      && radio.trace == old(radio.trace) + ReadTrace(StartBlock(index), EndBlock(index) + 1) + WriteBlockTrace(ws)
  {
    if index < 0 || index > 14 {
      return Fail(BadIndex);
    }
    SlotPlacement(index);
    var eepromAddress := LabelAddress(index);
    var startBlock := StartBlock(index);
    var endBlock := EndBlock(index);
    var read := ReadBlocks(radio, startBlock, endBlock + 1);
    if read.Err? {
      return Fail(read.error);
    }
    ghost var t1 := radio.trace;
    ghost var ws := LabelWrites(old(radio.memory), index, LabelBytes(name));
    assert radio.memory == old(radio.memory);
    assert t1 == old(radio.trace) + ReadTrace(startBlock, endBlock + 1);
    o := WriteSlot(radio, startBlock, eepromAddress % 32, LabelBytes(name), read.value);
    assert radio.trace == t1 + WriteBlockTrace(ws);
  }

  /** The write-back half of writeGroupLabel: data spliced at offset of block n, in the blocks
      read before (block n, then block n + 1 when data does not fit), written back in order. */
  method WriteSlot(radio: Radio, n: nat, offset: nat, data: seq<byte>, blocks: seq<seq<byte>>) returns (o: Outcome)
    requires radio.Valid() && n < BLOCK_COUNT && offset < BLOCK_SIZE && |data| <= BLOCK_SIZE
    requires offset + |data| > BLOCK_SIZE ==> n + 1 < BLOCK_COUNT && |blocks| >= 2 && blocks[1] == Block(radio.memory, n + 1)
    requires |blocks| >= 1 && blocks[0] == Block(radio.memory, n)
    modifies radio
    ensures radio.Valid()
    ensures var ws := BlockWrites(old(radio.memory), n, offset, data);
      o == Pass && radio.memory == Apply(old(radio.memory), ws, radio.refused)
      && radio.trace == old(radio.trace) + WriteBlockTrace(ws)
  {
    var bytesInFirstBlock := if BLOCK_SIZE - offset < |data| then BLOCK_SIZE - offset else |data|;
    ghost var ws := BlockWrites(radio.memory, n, offset, data);
    var block0 := PatchBlock(blocks[0], offset, data[..bytesInFirstBlock]);
    o := radio.WriteBlock(n, block0);
    if bytesInFirstBlock < |data| {
      var block1 := PatchBlock(blocks[1], 0, data[bytesInFirstBlock..]);
      ApplySnoc(old(radio.memory), [ws[0]], ws[1], radio.refused);
      WriteBlockTraceSnoc([ws[0]], ws[1]);
      assert ws == [ws[0]] + [ws[1]];
      o := radio.WriteBlock(n + 1, block1);
    }
  }

  /** Buffer.from(block) with src copied in at offset. */
  method PatchBlock(block: seq<byte>, offset: nat, src: seq<byte>) returns (patched: seq<byte>)
    requires offset + |src| <= |block|
    ensures patched == Splice(block, offset, src)
  {
    var buffer := new byte[|block|](k requires 0 <= k < |block| => block[k]);
    assert buffer[..] == block;
    Copy(src, buffer, offset);
    patched := buffer[..];
  }

  // ---------------------------------------------------------------------------
  // The write/read round trip.

  /** Replacing bytes inside one block is a splice of the image at their address. */
  lemma SpliceInBlock(image: seq<byte>, n: nat, offset: nat, at: nat, src: seq<byte>)
    requires IsImage(image) && n < BLOCK_COUNT && offset + |src| <= BLOCK_SIZE && at == 32 * n + offset
    ensures SetBlock(image, n, Splice(Block(image, n), offset, src)) == Splice(image, at, src)
  {
    var lhs := SetBlock(image, n, Splice(Block(image, n), offset, src));
    var rhs := Splice(image, at, src);
    forall k | 0 <= k < IMAGE_SIZE
      ensures lhs[k] == rhs[k]
    {
      if 32 * n <= k < 32 * n + BLOCK_SIZE {
        assert lhs[k] == Block(lhs, n)[k - 32 * n];
      }
    }
  }

  lemma SpliceSplit(dst: seq<byte>, lo: nat, src: seq<byte>, m: nat)
    requires lo + |src| <= |dst| && m <= |src|
    ensures Splice(Splice(dst, lo, src[..m]), lo + m, src[m..]) == Splice(dst, lo, src)
  {
  }

  /** On blocks the device accepts, the writes of writeGroupLabel put the 6 label bytes at the
      slot's address and change nothing else. */
  lemma LabelWritesSplice(image: seq<byte>, index: nat, data: seq<byte>, skip: set<int>)
    requires IsImage(image) && index < LABEL_COUNT && |data| == LABEL_STRIDE
    requires LabelAddress(index) / 32 !in skip && (LabelAddress(index) + 5) / 32 !in skip
    ensures Apply(image, LabelWrites(image, index, data), skip) == Splice(image, LabelAddress(index), data)
  {
    SlotPlacement(index);
    var a := LabelAddress(index);
    BlockWritesSplice(image, a / 32, a % 32, a, data, skip);
  }

  lemma BlockWritesSplice(image: seq<byte>, n: nat, offset: nat, at: nat, data: seq<byte>, skip: set<int>)
    requires IsImage(image) && n < BLOCK_COUNT && offset < BLOCK_SIZE && |data| <= BLOCK_SIZE
    requires offset + |data| > BLOCK_SIZE ==> n + 1 < BLOCK_COUNT && n + 1 !in skip
    requires n !in skip && at == 32 * n + offset
    ensures Apply(image, BlockWrites(image, n, offset, data), skip) == Splice(image, at, data)
  {
    if BLOCK_SIZE - offset < |data| {
      TwoBlockWrite(image, n, offset, at, data, skip);
    } else {
      assert data[..|data|] == data;
      OneBlockWrite(image, n, offset, at, data, skip);
    }
  }

  lemma OneBlockWrite(image: seq<byte>, n: nat, offset: nat, at: nat, data: seq<byte>, skip: set<int>)
    requires IsImage(image) && n < BLOCK_COUNT && offset + |data| <= BLOCK_SIZE && n !in skip
    requires at == 32 * n + offset
    ensures Apply(image, [Write(n, Splice(Block(image, n), offset, data))], skip) == Splice(image, at, data)
  {
    var w := Write(n, Splice(Block(image, n), offset, data));
    ApplySnoc(image, [], w, skip);
    assert [w] == [] + [w];
    SpliceInBlock(image, n, offset, at, data);
  }

  lemma TwoBlockWrite(image: seq<byte>, n: nat, offset: nat, at: nat, data: seq<byte>, skip: set<int>)
    requires IsImage(image) && n + 1 < BLOCK_COUNT && offset < BLOCK_SIZE
    requires BLOCK_SIZE - offset < |data| <= BLOCK_SIZE && n !in skip && n + 1 !in skip
    requires at == 32 * n + offset
    ensures var first := BLOCK_SIZE - offset;
      Apply(image, [Write(n, Splice(Block(image, n), offset, data[..first])),
                    Write(n + 1, Splice(Block(image, n + 1), 0, data[first..]))], skip)
      == Splice(image, at, data)
  {
    var first := BLOCK_SIZE - offset;
    var w0 := Write(n, Splice(Block(image, n), offset, data[..first]));
    var w1 := Write(n + 1, Splice(Block(image, n + 1), 0, data[first..]));
    ApplySnoc(image, [w0], w1, skip);
    assert [w0, w1] == [w0] + [w1];
    OneBlockWrite(image, n, offset, at, data[..first], skip);
    SecondBlockWrite(image, n, at, data, first);
  }

  /** Splicing the rest of data at the front of the next block completes the splice. */
  lemma SecondBlockWrite(image: seq<byte>, n: nat, at: nat, data: seq<byte>, first: nat)
    requires IsImage(image) && n + 1 < BLOCK_COUNT && first <= |data| && at + first == 32 * (n + 1)
    requires at + |data| <= 32 * (n + 2)
    ensures var mid := Splice(image, at, data[..first]);
      SetBlock(mid, n + 1, Splice(Block(image, n + 1), 0, data[first..])) == Splice(image, at, data)
  {
    var mid := Splice(image, at, data[..first]);
    BlockAfterSplice(image, at, data[..first], n + 1);
    SpliceInBlock(mid, n + 1, 0, at + first, data[first..]);
    SpliceSplit(image, at, data, first);
  }

  /** A splice that ends at or before block m leaves block m alone. */
  lemma BlockAfterSplice(image: seq<byte>, lo: nat, src: seq<byte>, m: nat)
    requires IsImage(image) && m < BLOCK_COUNT && lo + |src| <= 32 * m
    ensures Block(Splice(image, lo, src), m) == Block(image, m)
  {
  }

  /** A splice inside the label region is the same splice of the region. */
  lemma RegionOfSplice(image: seq<byte>, index: nat, src: seq<byte>)
    requires IsImage(image) && index < LABEL_COUNT && |src| == LABEL_STRIDE
    ensures RegionOf(Splice(image, LabelAddress(index), src)) == Splice(RegionOf(image), 6 * index, src)
  {
  }

  /** The bytes of a printable name decode to the trimmed first five characters of its trim. */
  lemma DecodeLabelBytes(name: string)
    requires forall k :: 0 <= k < |name| ==> IsPrintable(name[k])
    ensures DecodeLabel(LabelBytes(name)[..LABEL_WIDTH]) == Trim(Take(Trim(name), LABEL_WIDTH))
  {
    var clean := Take(Trim(name), LABEL_WIDTH);
    assert LabelBytes(name)[..LABEL_WIDTH] == AsciiBytes(clean) + Zeros(LABEL_WIDTH - |clean|);
    TrimPrintable(name);
    DecodePadded(clean);
  }

  lemma TrimPrintable(s: string)
    requires forall k :: 0 <= k < |s| ==> IsPrintable(s[k])
    ensures forall k :: 0 <= k < |Trim(s)| ==> IsPrintable(Trim(s)[k])
  {
    TrimIsSlice(s);
    assert forall k :: 0 <= k < |Trim(s)| ==> Trim(s)[k] == s[TrimOffset(s) + k];
  }

  /** Printable text of at most 5 characters, NUL-padded to 5 bytes, decodes to its trim. */
  lemma DecodePadded(clean: string)
    requires |clean| <= LABEL_WIDTH && forall k :: 0 <= k < |clean| ==> IsPrintable(clean[k])
    ensures DecodeLabel(AsciiBytes(clean) + Zeros(LABEL_WIDTH - |clean|)) == Trim(clean)
  {
    var spaces := seq(LABEL_WIDTH - |clean|, _ => ' ');
    PaddedText(clean);
    KeepPrintableAll(clean + spaces);
    TrimAppendSpaces(clean, spaces);
  }

  /** Five zero bytes read as an empty label. */
  lemma ZerosDecodeEmpty()
    ensures DecodeLabel(Zeros(LABEL_WIDTH)) == []
  {
    DecodePadded([]);
    assert AsciiBytes([]) + Zeros(LABEL_WIDTH) == Zeros(LABEL_WIDTH);
  }

  lemma PaddedText(clean: string)
    requires |clean| <= LABEL_WIDTH && forall k :: 0 <= k < |clean| ==> IsPrintable(clean[k])
    ensures ReplaceChar(AsciiString(AsciiBytes(clean) + Zeros(LABEL_WIDTH - |clean|)), '\0', ' ')
      == clean + seq(LABEL_WIDTH - |clean|, _ => ' ')
  {
    var pad := LABEL_WIDTH - |clean|;
    AsciiStringAppend(AsciiBytes(clean), Zeros(pad));
    AsciiRoundTrip(clean);
    AsciiStringZeros(pad);
    ReplaceCharAppend(clean, seq(pad, _ => '\0'), '\0', ' ');
    assert ReplaceChar(clean, '\0', ' ') == clean;
    assert ReplaceChar(seq(pad, _ => '\0'), '\0', ' ') == seq(pad, _ => ' ');
  }

  /** The labels of a region after label index's slot is replaced: only label index changes. */
  lemma LabelsAfterSplice(region: seq<byte>, index: nat, src: seq<byte>, k: nat)
    requires |region| == REGION_SIZE && index < LABEL_COUNT && k < LABEL_COUNT && |src| == LABEL_STRIDE
    ensures Labels(Splice(region, 6 * index, src))[k]
      == if k == index then Group(('A' as int + k) as char, DecodeLabel(src[..LABEL_WIDTH])) else Labels(region)[k]
  {
    if k == index {
      SplicePrefix(region, 6 * index, src, LABEL_WIDTH);
    } else {
      SpliceOutside(region, 6 * index, src, 6 * k, 6 * k + LABEL_WIDTH);
    }
  }

  /**
   * The round trip on a device that accepts the touched blocks: after writeGroupLabel(index,
   * name) for a printable name, reading the labels gives trim(trim(name).slice(0, 5)) for that
   * group and every other label as it was.
   */
  lemma GroupLabelRoundTrip(image: seq<byte>, index: nat, name: string, skip: set<int>, k: nat)
    requires IsImage(image) && index < LABEL_COUNT && k < LABEL_COUNT
    requires LabelAddress(index) / 32 !in skip && (LabelAddress(index) + 5) / 32 !in skip
    requires forall j :: 0 <= j < |name| ==> IsPrintable(name[j])
    ensures var after := Labels(RegionOf(Apply(image, LabelWrites(image, index, LabelBytes(name)), skip)));
      after[k] == if k == index then Group(('A' as int + k) as char, Trim(Take(Trim(name), LABEL_WIDTH)))
        else Labels(RegionOf(image))[k]
  {
    LabelWritesSplice(image, index, LabelBytes(name), skip);
    RegionOfSplice(image, index, LabelBytes(name));
    LabelsAfterSplice(RegionOf(image), index, LabelBytes(name), k);
    DecodeLabelBytes(name);
  }

  /** Every label read is at most 5 printable characters with no surrounding whitespace. */
  lemma LabelsAreClean(region: seq<byte>, i: nat)
    requires |region| == REGION_SIZE && i < LABEL_COUNT
    ensures |Labels(region)[i].text| <= LABEL_WIDTH && Trim(Labels(region)[i].text) == Labels(region)[i].text
    ensures forall k :: 0 <= k < |Labels(region)[i].text| ==> IsPrintable(Labels(region)[i].text[k])
  {
    assert Labels(region)[i] == LabelAt(region, i);
    DecodeLabelTrimmed(region[6 * i..6 * i + LABEL_WIDTH]);
  }

  lemma DecodeLabelTrimmed(bytes: seq<byte>)
    ensures Trim(DecodeLabel(bytes)) == DecodeLabel(bytes)
  {
    TrimNoop(DecodeLabel(bytes));
  }
}

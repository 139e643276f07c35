/**
 * The group label region of CodeplugService (src/main/codeplugService.ts):
 * updateGroups lays the labels out 6 bytes apart in a zeroed 96-byte buffer,
 * clears all of blocks 228..231 of the in-memory image, copies the buffer in
 * from byte 16 of block 228, and writes the four blocks to the radio.
 */
module ServiceGroups {
  import opened Wrappers
  import opened Bytes
  import opened Text
  import opened Radio
  import opened GroupLabels

  /** A 17th label would start at byte 96: its terminator store writeUInt8(0, 101) is a
      RangeError, so at most 16 labels fit. */
  const MAX_GROUPS: nat := 16
  /** Blocks 228..231 span bytes 7296..7423 of the image. */
  const GROUP_BLOCKS_START: nat := 7296
  const GROUP_BLOCKS_SIZE: nat := 128

  /** The 6 bytes of a group's slot: its label bytes and the 0 terminator. */
  function GroupSlot(name: string): (b: seq<byte>)
    ensures |b| == LABEL_STRIDE && b[LABEL_WIDTH] == 0
  {
    NulPadded(name, LABEL_WIDTH) + [0]
  }

  /** The slots of the first k groups, one after another. */
  function Slots(groups: seq<Group>, k: nat): (r: seq<byte>)
    requires k <= |groups|
    ensures |r| == LABEL_STRIDE * k
  {
    if k == 0 then [] else Slots(groups, k - 1) + GroupSlot(groups[k - 1].text)
  }

  /** The two stores of one group, its label bytes then its terminator, extend the laid-out
      slots by its slot. */
  lemma SlotStores(groups: seq<Group>, i: nat)
    requires i < |groups| && i < MAX_GROUPS
    ensures var p, chars := Slots(groups, i), NulPadded(groups[i].text, LABEL_WIDTH);
      Splice(Splice(Laid(p, REGION_SIZE), |p|, chars), |p| + LABEL_WIDTH, [0]) == Laid(Slots(groups, i + 1), REGION_SIZE)
  {
    var p, chars := Slots(groups, i), NulPadded(groups[i].text, LABEL_WIDTH);
    SpliceLaid(p, chars, REGION_SIZE);
    SpliceLaid(p + chars, [0], REGION_SIZE);
    assert p + chars + [0] == Slots(groups, i + 1);
  }

  /** fullData: Buffer.alloc(96) with the slots of all the groups written from the front. */
  function GroupData(groups: seq<Group>): (d: seq<byte>)
    requires |groups| <= MAX_GROUPS
    ensures |d| == REGION_SIZE
  {
    Laid(Slots(groups, |groups|), REGION_SIZE)
  }

  /** The image after updateGroups: blocks 228..231 zeroed and the group data copied in from
      byte 16 of block 228. */
  function UpdatedImage(image: seq<byte>, groups: seq<Group>): (r: seq<byte>)
    requires IsImage(image) && |groups| <= MAX_GROUPS
    ensures IsImage(r)
  {
    Splice(image, GROUP_BLOCKS_START, Zeros(16) + GroupData(groups) + Zeros(16))
  }

  /** The four writes: blocks 228..231 as they are in the given image. */
  function GroupWrites(image: seq<byte>): (ws: seq<Write>)
    requires IsImage(image)
    ensures |ws| == 4 && WellFormed(ws)
    ensures forall k :: 0 <= k < 4 ==> ws[k] == Write(FIRST_LABEL_BLOCK + k, Block(image, FIRST_LABEL_BLOCK + k))
  {
    var ws := seq(4, k requires 0 <= k < 4 => Write(FIRST_LABEL_BLOCK + k, Block(image, FIRST_LABEL_BLOCK + k)));
    assert forall k :: 0 <= k < 4 ==> |ws[k].data| == |Block(image, FIRST_LABEL_BLOCK + k)|;
    ws
  }

  /** The steps of updateGroups on the image: each of blocks 228..231 filled with 0, then the
      group data copied in as 16, 32, 32 and 16 bytes from byte 16 of block 228. */
  function FilledAndCopied(image: seq<byte>, d: seq<byte>): (r: seq<byte>)
    requires IsImage(image) && |d| == REGION_SIZE
    ensures IsImage(r)
  {
    var z := Repeat(BLOCK_SIZE, 0);
    var filled := Splice(Splice(Splice(Splice(image, 7296, z), 7328, z), 7360, z), 7392, z);
    Splice(Splice(Splice(Splice(filled, 7312, d[..16]), 7328, d[16..48]), 7360, d[48..80]), 7392, d[80..])
  }

  /** The four fills and four copies come to the updated image. */
  lemma StepsUpdate(image: seq<byte>, groups: seq<Group>)
    requires IsImage(image) && |groups| <= MAX_GROUPS
    ensures FilledAndCopied(image, GroupData(groups)) == UpdatedImage(image, groups)
  {
    var d := GroupData(groups);
    var a, b := FilledAndCopied(image, d), UpdatedImage(image, groups);
    forall k | 0 <= k < IMAGE_SIZE
      ensures a[k] == b[k]
    {
    }
  }

  // ---------------------------------------------------------------------------
  // Properties

  /** Slot i of the laid-out slots holds group i's 6 bytes. */
  lemma {:induction false} SlotAt(groups: seq<Group>, k: nat, i: nat)
    requires i < k <= |groups|
    ensures Slots(groups, k)[6 * i..6 * i + 6] == GroupSlot(groups[i].text)
  {
    var prev := Slots(groups, k - 1);
    if i < k - 1 {
      SlotAt(groups, k - 1, i);
      assert Slots(groups, k)[6 * i..6 * i + 6] == prev[6 * i..6 * i + 6];
    } else {
      assert Slots(groups, k)[6 * i..6 * i + 6] == Slots(groups, k)[|prev|..];
    }
  }

  /** The image after the update: the label region holds the group data, the 16 bytes before
      and after it in blocks 228 and 231 are zero, and every byte outside blocks 228..231 is
      as it was. */
  lemma UpdatedLayout(image: seq<byte>, groups: seq<Group>)
    requires IsImage(image) && |groups| <= MAX_GROUPS
    ensures RegionOf(UpdatedImage(image, groups)) == GroupData(groups)
    ensures UpdatedImage(image, groups)[GROUP_BLOCKS_START..LABEL_START] == Zeros(16)
    ensures UpdatedImage(image, groups)[LABEL_START + REGION_SIZE..GROUP_BLOCKS_START + GROUP_BLOCKS_SIZE] == Zeros(16)
    ensures UpdatedImage(image, groups)[..GROUP_BLOCKS_START] == image[..GROUP_BLOCKS_START]
    ensures UpdatedImage(image, groups)[GROUP_BLOCKS_START + GROUP_BLOCKS_SIZE..]
      == image[GROUP_BLOCKS_START + GROUP_BLOCKS_SIZE..]
  {
    var src := Zeros(16) + GroupData(groups) + Zeros(16);
    var r := UpdatedImage(image, groups);
    SpliceSlice(image, GROUP_BLOCKS_START, src);
    assert r[GROUP_BLOCKS_START..GROUP_BLOCKS_START + GROUP_BLOCKS_SIZE] == src;
    assert r[GROUP_BLOCKS_START..LABEL_START] == src[..16];
    assert RegionOf(r) == src[16..112];
    assert r[LABEL_START + REGION_SIZE..GROUP_BLOCKS_START + GROUP_BLOCKS_SIZE] == src[112..];
    SpliceOutside(image, GROUP_BLOCKS_START, src, 0, GROUP_BLOCKS_START);
    SpliceOutside(image, GROUP_BLOCKS_START, src, GROUP_BLOCKS_START + GROUP_BLOCKS_SIZE, IMAGE_SIZE);
  }

  /** A printable name's slot decodes to its first five characters, trimmed. */
  lemma SlotDecodes(name: string)
    requires forall k :: 0 <= k < |name| ==> IsPrintable(name[k])
    ensures DecodeLabel(GroupSlot(name)[..LABEL_WIDTH]) == Trim(Take(name, LABEL_WIDTH))
  {
    var clean := Take(name, LABEL_WIDTH);
    var padded := Take(PadEnd(name, LABEL_WIDTH, '\0'), LABEL_WIDTH);
    assert padded == clean + seq(LABEL_WIDTH - |clean|, _ => '\0');
    assert GroupSlot(name)[..LABEL_WIDTH] == AsciiBytes(clean) + Zeros(LABEL_WIDTH - |clean|);
    DecodePadded(clean);
  }

  /** Reading the labels back after updateGroups: group k has label k's first five characters
      (trimmed) when a label was given for it, and an empty label otherwise. */
  lemma UpdatedLabels(image: seq<byte>, groups: seq<Group>, k: nat)
    requires IsImage(image) && |groups| <= MAX_GROUPS && k < LABEL_COUNT
    requires forall i :: 0 <= i < |groups| ==> forall j :: 0 <= j < |groups[i].text| ==> IsPrintable(groups[i].text[j])
    ensures Labels(RegionOf(UpdatedImage(image, groups)))[k]
      == Group(('A' as int + k) as char, if k < |groups| then Trim(Take(groups[k].text, LABEL_WIDTH)) else [])
  {
    UpdatedLayout(image, groups);
    var d := GroupData(groups);
    assert Labels(d)[k] == LabelAt(d, k);
    GroupDataLabel(groups, k);
  }

  /** Label k of fullData: group k's first five characters, trimmed, or empty past the groups. */
  lemma GroupDataLabel(groups: seq<Group>, k: nat)
    requires |groups| <= MAX_GROUPS && k < LABEL_COUNT
    requires forall i :: 0 <= i < |groups| ==> forall j :: 0 <= j < |groups[i].text| ==> IsPrintable(groups[i].text[j])
    ensures LabelAt(GroupData(groups), k)
      == Group(('A' as int + k) as char, if k < |groups| then Trim(Take(groups[k].text, LABEL_WIDTH)) else [])
  {
    var d := GroupData(groups);
    var slots := Slots(groups, |groups|);
    if k < |groups| {
      SlotAt(groups, |groups|, k);
      assert d[6 * k..6 * k + LABEL_WIDTH] == slots[6 * k..6 * k + 6][..LABEL_WIDTH];
      SlotDecodes(groups[k].text);
    } else {
      assert d[6 * k..6 * k + LABEL_WIDTH] == Zeros(LABEL_WIDTH);
      ZerosDecodeEmpty();
    }
  }

  /** A device holding the same image before the update, and storing all four blocks, holds
      the updated image after the four writes. */
  lemma DeviceMatchesImage(image: seq<byte>, groups: seq<Group>, skip: set<int>)
    requires IsImage(image) && |groups| <= MAX_GROUPS
    requires forall n :: FIRST_LABEL_BLOCK <= n <= LAST_LABEL_BLOCK ==> n !in skip
    ensures Apply(image, GroupWrites(UpdatedImage(image, groups)), skip) == UpdatedImage(image, groups)
  {
    UpdatedLayout(image, groups);
    GroupWritesRestore(image, UpdatedImage(image, groups), skip);
  }

  /** Writing blocks 228..231 of u to a device holding image, which agrees with u on every
      other block, leaves the device holding u. */
  lemma GroupWritesRestore(image: seq<byte>, u: seq<byte>, skip: set<int>)
    requires IsImage(image) && IsImage(u)
    requires forall n :: FIRST_LABEL_BLOCK <= n <= LAST_LABEL_BLOCK ==> n !in skip
    requires u[..GROUP_BLOCKS_START] == image[..GROUP_BLOCKS_START]
    requires u[GROUP_BLOCKS_START + GROUP_BLOCKS_SIZE..] == image[GROUP_BLOCKS_START + GROUP_BLOCKS_SIZE..]
    ensures Apply(image, GroupWrites(u), skip) == u
  {
    var ws := GroupWrites(u);
    var after := Apply(image, ws, skip);
    forall n | 0 <= n < BLOCK_COUNT
      ensures Block(after, n) == Block(u, n)
    {
      ApplyBlock(image, ws, skip, n);
      if FIRST_LABEL_BLOCK <= n <= LAST_LABEL_BLOCK {
        LastToIs(ws, n, n - FIRST_LABEL_BLOCK);
      } else {
        LastToNone(ws, n);
        if n < FIRST_LABEL_BLOCK {
          assert Block(u, n) == u[..GROUP_BLOCKS_START][32 * n..32 * n + 32];
          assert Block(image, n) == image[..GROUP_BLOCKS_START][32 * n..32 * n + 32];
        } else {
          var hi := GROUP_BLOCKS_START + GROUP_BLOCKS_SIZE;
          assert Block(u, n) == u[hi..][32 * n - hi..32 * n + 32 - hi];
          assert Block(image, n) == image[hi..][32 * n - hi..32 * n + 32 - hi];
        }
      }
    }
    SameBlocks(after, u);
  }
}

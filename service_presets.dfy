/**
 * The scan preset region of CodeplugService (src/main/codeplugService.ts):
 * readScanPresets decodes 20 slots of 20 bytes from byte 216 * 32 of the
 * in-memory image, slot i as preset i + 1; writeScanPresets keeps the presets
 * numbered 0..20, sorts them by number, places each at byte presetNumber * 20
 * of a zeroed 400-byte buffer when it fits, and writes the buffer as the 13
 * blocks 216..228, the last one padded with 16 zeros.
 */
module ServicePresets {
  import opened Wrappers
  import opened Bytes
  import opened Text
  import opened Radio
  import opened Listings
  import opened ScanPresets
  import GroupLabels

  const FIRST_PRESET_BLOCK: nat := 216
  const PRESET_COUNT: nat := 20
  const PRESETS_SIZE: nat := 400
  const PRESET_START: nat := 6912
  /** ceil(400 / 32) blocks, 216..228. */
  const PRESET_BLOCKS: nat := 13

  // ---------------------------------------------------------------------------
  // readScanPresets

  /** The 400 bytes the copy loop gathers: 12 whole blocks and the first 16 bytes of block 228. */
  function PresetRegion(image: seq<byte>): (region: seq<byte>)
    requires IsImage(image)
    ensures |region| == PRESETS_SIZE
  {
    image[PRESET_START..PRESET_START + PRESETS_SIZE]
  }

  /** Slot n of a buffer: its bytes 20 * n .. 20 * n + 19. */
  function Slot(buf: seq<byte>, n: nat): (b: seq<byte>)
    requires |buf| == PRESETS_SIZE && n < PRESET_COUNT
  {
    buf[PRESET_SIZE * n..PRESET_SIZE * n + PRESET_SIZE]
  }

  /** What each 20-byte slot decodes to, slot i under preset number i + 1. */
  function PresetSlots(buf: seq<byte>): (ds: seq<Option<ScanPreset>>)
    requires |buf| == PRESETS_SIZE
    ensures |ds| == PRESET_COUNT
    ensures forall i :: 0 <= i < PRESET_COUNT ==> ds[i] == DecodeScanPresetBlock(Slot(buf, i), i + 1)
  {
    seq(PRESET_COUNT, i requires 0 <= i < PRESET_COUNT => DecodeScanPresetBlock(Slot(buf, i), i + 1))
  }

  /** The presets readScanPresets returns: the slots that decode, in slot order. */
  function PresetsOf(buf: seq<byte>): seq<ScanPreset>
    requires |buf| == PRESETS_SIZE
  {
    Items(Present(PresetSlots(buf), 0, PRESET_COUNT, 1))
  }

  /** Slots whose presets carry their slot's number i + 1, as decodeScanPresetBlock's do. */
  predicate SelfNumbered(ds: seq<Option<ScanPreset>>)
  {
    forall i :: 0 <= i < |ds| && ds[i].Some? ==> ds[i].value.presetNumber == i + 1
  }

  /** Over such slots a listed item's number is its preset number. */
  lemma ListedNumbers(ds: seq<Option<ScanPreset>>, k: nat)
    requires |ds| == PRESET_COUNT && SelfNumbered(ds) && k < |Present(ds, 0, PRESET_COUNT, 1)|
    ensures Present(ds, 0, PRESET_COUNT, 1)[k].item.presetNumber == Present(ds, 0, PRESET_COUNT, 1)[k].number
  {
    var e := Present(ds, 0, PRESET_COUNT, 1)[k];
    assert e in Present(ds, 0, PRESET_COUNT, 1);
    PresentHolds(ds, 0, PRESET_COUNT, 1, e.number, e.item);
  }

  /** A preset is listed exactly when the slot before its number decodes to it. */
  lemma ListedHolds(ds: seq<Option<ScanPreset>>, p: ScanPreset)
    requires |ds| == PRESET_COUNT && SelfNumbered(ds)
    ensures p in Items(Present(ds, 0, PRESET_COUNT, 1)) <==>
      1 <= p.presetNumber <= PRESET_COUNT && ds[p.presetNumber - 1] == Some(p)
  {
    var ns := Present(ds, 0, PRESET_COUNT, 1);
    var xs := Items(ns);
    PresentHolds(ds, 0, PRESET_COUNT, 1, p.presetNumber, p);
    if p in xs {
      var k :| 0 <= k < |xs| && xs[k] == p;
      ListedNumbers(ds, k);
      assert ns[k] == Numbered(p.presetNumber, p);
      assert ns[k] in ns;
    }
    if 1 <= p.presetNumber <= PRESET_COUNT && ds[p.presetNumber - 1] == Some(p) {
      var k :| 0 <= k < |ns| && ns[k] == Numbered(p.presetNumber, p);
      assert xs[k] == p;
    }
  }

  /** The slots of a region carry their own numbers. */
  lemma SlotsSelfNumbered(buf: seq<byte>)
    requires |buf| == PRESETS_SIZE
    ensures SelfNumbered(PresetSlots(buf))
  {
    var ds := PresetSlots(buf);
    forall i | 0 <= i < |ds| && ds[i].Some?
      ensures ds[i].value.presetNumber == i + 1
    {
      assert ds[i] == DecodeScanPresetBlock(Slot(buf, i), i + 1);
    }
  }

  /** Self-numbered slots list numbers 1..20 in ascending order, each preset exactly when its
      slot holds it. */
  lemma SlotsListing(ds: seq<Option<ScanPreset>>)
    requires |ds| == PRESET_COUNT && SelfNumbered(ds)
    ensures var xs := Items(Present(ds, 0, PRESET_COUNT, 1));
      && (forall k :: 0 <= k < |xs| ==> 1 <= xs[k].presetNumber <= PRESET_COUNT)
      && (forall i, j :: 0 <= i < j < |xs| ==> xs[i].presetNumber < xs[j].presetNumber)
      && (forall p :: p in xs <==> 1 <= p.presetNumber <= PRESET_COUNT && ds[p.presetNumber - 1] == Some(p))
  {
    var ns := Present(ds, 0, PRESET_COUNT, 1);
    PresentAscending(ds, 0, PRESET_COUNT, 1);
    forall k | 0 <= k < |ns|
      ensures Items(ns)[k].presetNumber == ns[k].number
    {
      ListedNumbers(ds, k);
    }
    forall p
      ensures p in Items(ns) <==> 1 <= p.presetNumber <= PRESET_COUNT && ds[p.presetNumber - 1] == Some(p)
    {
      ListedHolds(ds, p);
    }
  }

  /** readScanPresets lists presets numbered 1..20 in strictly ascending order, and a preset is
      listed exactly when slot presetNumber - 1 of the region decodes to it. */
  lemma PresetsListing(buf: seq<byte>)
    requires |buf| == PRESETS_SIZE
    ensures forall k :: 0 <= k < |PresetsOf(buf)| ==> 1 <= PresetsOf(buf)[k].presetNumber <= PRESET_COUNT
    ensures forall i, j :: 0 <= i < j < |PresetsOf(buf)| ==> PresetsOf(buf)[i].presetNumber < PresetsOf(buf)[j].presetNumber
    ensures forall p :: p in PresetsOf(buf) <==> (1 <= p.presetNumber <= PRESET_COUNT
      && DecodeScanPresetBlock(Slot(buf, p.presetNumber - 1), p.presetNumber) == Some(p))
  {
    SlotsSelfNumbered(buf);
    SlotsListing(PresetSlots(buf));
  }

  // ---------------------------------------------------------------------------
  // writeScanPresets: the filter and the sort

  /** The filter `presetNumber >= 0 && presetNumber <= 20`. */
  predicate Kept(p: ScanPreset)
  {
    0 <= p.presetNumber <= PRESET_COUNT
  }

  function KeptPresets(ps: seq<ScanPreset>): (r: seq<ScanPreset>)
    ensures forall q :: q in r <==> q in ps && Kept(q)
  {
    if ps == [] then []
    else
      var p := ps[|ps| - 1];
      assert ps == ps[..|ps| - 1] + [p];
      if Kept(p) then KeptPresets(ps[..|ps| - 1]) + [p] else KeptPresets(ps[..|ps| - 1])
  }

  predicate SortedByNumber(s: seq<ScanPreset>)
  {
    forall i, j :: 0 <= i < j < |s| ==> s[i].presetNumber <= s[j].presetNumber
  }

  /** x placed after every element whose number is at most its own. */
  function Insert(s: seq<ScanPreset>, x: ScanPreset): (r: seq<ScanPreset>)
    ensures multiset(r) == multiset(s) + multiset{x}
  {
    if s == [] then [x]
    else if s[0].presetNumber <= x.presetNumber then
      assert s == [s[0]] + s[1..];
      [s[0]] + Insert(s[1..], x)
    else [x] + s
  }

  /** The stable sort `sort((a, b) => a.presetNumber - b.presetNumber)`, as an insertion sort. */
  function SortByNumber(ps: seq<ScanPreset>): (r: seq<ScanPreset>)
    ensures multiset(r) == multiset(ps)
  {
    if ps == [] then []
    else
      assert ps == ps[..|ps| - 1] + [ps[|ps| - 1]];
      Insert(SortByNumber(ps[..|ps| - 1]), ps[|ps| - 1])
  }

  /** A preset numbered below the head goes in front. */
  lemma InsertFront(s: seq<ScanPreset>, x: ScanPreset)
    requires s != [] && x.presetNumber < s[0].presetNumber
    ensures Insert(s, x) == [x] + s
  {
  }

  /** Otherwise the head stays and x goes into the rest. */
  lemma InsertBehind(s: seq<ScanPreset>, x: ScanPreset)
    requires s != [] && s[0].presetNumber <= x.presetNumber
    ensures Insert(s, x) == [s[0]] + Insert(s[1..], x)
  {
  }

  /** A preset numbered at most every number of a sorted sequence keeps it sorted in front. */
  lemma ConsSorted(x: ScanPreset, s: seq<ScanPreset>)
    requires SortedByNumber(s) && forall y :: y in s ==> x.presetNumber <= y.presetNumber
    ensures SortedByNumber([x] + s)
  {
    var r := [x] + s;
    forall i, j | 0 <= i < j < |r|
      ensures r[i].presetNumber <= r[j].presetNumber
    {
      assert r[j] == s[j - 1];
      if i > 0 {
        assert r[i] == s[i - 1];
      }
    }
  }

  lemma {:induction false} InsertSorted(s: seq<ScanPreset>, x: ScanPreset)
    requires SortedByNumber(s)
    ensures SortedByNumber(Insert(s, x))
  {
    if s == [] {
      assert Insert(s, x) == [x];
    } else if s[0].presetNumber <= x.presetNumber {
      var rest := Insert(s[1..], x);
      InsertBehind(s, x);
      InsertSorted(s[1..], x);
      forall y | y in rest
        ensures s[0].presetNumber <= y.presetNumber
      {
        assert y in multiset(rest);
        assert y in multiset(s[1..]) || y == x;
      }
      ConsSorted(s[0], rest);
    } else {
      InsertFront(s, x);
      forall y | y in s
        ensures x.presetNumber <= y.presetNumber
      {
        var j :| 0 <= j < |s| && s[j] == y;
      }
      ConsSorted(x, s);
    }
  }

  /** The sort orders by number and keeps every preset. */
  lemma {:induction false} SortSorted(ps: seq<ScanPreset>)
    ensures SortedByNumber(SortByNumber(ps)) && multiset(SortByNumber(ps)) == multiset(ps)
  {
    if ps != [] {
      SortSorted(ps[..|ps| - 1]);
      InsertSorted(SortByNumber(ps[..|ps| - 1]), ps[|ps| - 1]);
    }
  }

  /** The last preset numbered n. */
  function LastNumbered(qs: seq<ScanPreset>, n: int): (r: Option<ScanPreset>)
    ensures r.Some? ==> r.value in qs && r.value.presetNumber == n
    ensures r.None? ==> forall q :: q in qs ==> q.presetNumber != n
  {
    if qs == [] then None
    else
      assert qs == qs[..|qs| - 1] + [qs[|qs| - 1]];
      if qs[|qs| - 1].presetNumber == n then Some(qs[|qs| - 1]) else LastNumbered(qs[..|qs| - 1], n)
  }

  lemma {:induction false} LastNumberedAppend(a: seq<ScanPreset>, b: seq<ScanPreset>, n: int)
    ensures LastNumbered(a + b, n) == if LastNumbered(b, n).Some? then LastNumbered(b, n) else LastNumbered(a, n)
  {
    if b == [] {
      assert a + b == a;
    } else {
      var b' := b[..|b| - 1];
      assert (a + b)[..|a + b| - 1] == a + b';
      LastNumberedAppend(a, b', n);
    }
  }

  /** In front of a sorted sequence numbered above it, x is the only one of its number. */
  lemma LastNumberedFront(s: seq<ScanPreset>, x: ScanPreset, n: int)
    requires SortedByNumber(s) && s != [] && x.presetNumber < s[0].presetNumber
    ensures LastNumbered([x] + s, n) == if x.presetNumber == n then Some(x) else LastNumbered(s, n)
  {
    LastNumberedAppend([x], s, n);
    assert [x] == [] + [x];
    if x.presetNumber == n {
      forall q | q in s
        ensures q.presetNumber != n
      {
        var j :| 0 <= j < |s| && s[j] == q;
        assert s[0].presetNumber <= s[j].presetNumber;
      }
    }
  }

  /** Inserting into a sorted sequence keeps the order among presets of the same number: the
      inserted one becomes the last of its number. */
  lemma {:induction false} LastNumberedInsert(s: seq<ScanPreset>, x: ScanPreset, n: int)
    requires SortedByNumber(s)
    ensures LastNumbered(Insert(s, x), n) == if x.presetNumber == n then Some(x) else LastNumbered(s, n)
  {
    if s == [] {
      assert Insert(s, x) == [] + [x];
    } else if s[0].presetNumber <= x.presetNumber {
      var rest := Insert(s[1..], x);
      InsertBehind(s, x);
      LastNumberedInsert(s[1..], x, n);
      LastNumberedAppend([s[0]], rest, n);
      LastNumberedAppend([s[0]], s[1..], n);
      assert [s[0]] + s[1..] == s;
    } else {
      InsertFront(s, x);
      LastNumberedFront(s, x, n);
    }
  }

  /** So the sort is stable: the last preset of each number is the same before and after. */
  lemma {:induction false} LastNumberedSort(ps: seq<ScanPreset>, n: int)
    ensures LastNumbered(SortByNumber(ps), n) == LastNumbered(ps, n)
  {
    if ps != [] {
      var pre := ps[..|ps| - 1];
      LastNumberedSort(pre, n);
      SortSorted(pre);
      LastNumberedInsert(SortByNumber(pre), ps[|ps| - 1], n);
    }
  }

  /** The filter keeps the last preset of every kept number. */
  lemma {:induction false} LastNumberedKept(ps: seq<ScanPreset>, n: int)
    requires 0 <= n <= PRESET_COUNT
    ensures LastNumbered(KeptPresets(ps), n) == LastNumbered(ps, n)
  {
    if ps != [] {
      var pre, p := ps[..|ps| - 1], ps[|ps| - 1];
      LastNumberedKept(pre, n);
      if Kept(p) {
        LastNumberedAppend(KeptPresets(pre), [p], n);
        assert [p][..0] == [];
      }
    }
  }

  // ---------------------------------------------------------------------------
  // writeScanPresets: the buffer

  /** The buffer after the encode-and-place loop over the sorted presets: a RangeError from the
      first preset whose fields do not fit, otherwise each preset's 20 bytes at byte
      presetNumber * 20 when they lie within the 400 bytes. */
  function PresetsBuffer(qs: seq<ScanPreset>): (r: Result<seq<byte>>)
    ensures r.Ok? ==> |r.value| == PRESETS_SIZE
    ensures r.Err? ==> r.error == OutOfRange
  {
    if qs == [] then Ok(Zeros(PRESETS_SIZE))
    else
      var prev := PresetsBuffer(qs[..|qs| - 1]);
      var p := qs[|qs| - 1];
      var offset := p.presetNumber * PRESET_SIZE;
      if prev.Err? then prev
      else if !InRanges(p) then Err(OutOfRange)
      else if 0 <= offset && offset + PRESET_SIZE <= PRESETS_SIZE then Ok(Splice(prev.value, offset, EncodedPreset(p).value))
      else prev
  }

  /** Once a preset fails to encode the loop has thrown: no later preset undoes it. */
  lemma {:induction false} BufferErrSticks(qs: seq<ScanPreset>, i: nat)
    requires i <= |qs| && PresetsBuffer(qs[..i]).Err?
    ensures PresetsBuffer(qs) == PresetsBuffer(qs[..i])
    decreases |qs| - i
  {
    if i < |qs| {
      assert qs[..i + 1][..i] == qs[..i];
      BufferErrSticks(qs, i + 1);
    } else {
      assert qs[..i] == qs;
    }
  }

  /** The buffer writeScanPresets builds from its argument. */
  function WrittenBuffer(ps: seq<ScanPreset>): Result<seq<byte>>
  {
    PresetsBuffer(SortByNumber(KeptPresets(ps)))
  }

  /** The reference layout: slot n holds the encoding of the last preset numbered n, or zeros. */
  function SlotOf(ps: seq<ScanPreset>, n: int): (b: seq<byte>)
    ensures |b| == PRESET_SIZE
  {
    match LastNumbered(ps, n)
    case None => Zeros(PRESET_SIZE)
    case Some(q) => if InRanges(q) then EncodedPreset(q).value else Zeros(PRESET_SIZE)
  }

  /** The loop fails exactly when some preset does not encode, and otherwise lays out exactly the
      reference slots 0..19 (so a preset numbered 20 is never stored). */
  lemma {:induction false} BufferSlots(qs: seq<ScanPreset>)
    ensures PresetsBuffer(qs).Err? <==> exists q :: q in qs && !InRanges(q)
    ensures PresetsBuffer(qs).Ok? ==> forall n :: 0 <= n < PRESET_COUNT ==> Slot(PresetsBuffer(qs).value, n) == SlotOf(qs, n)
  {
    if qs == [] {
      forall n | 0 <= n < PRESET_COUNT
        ensures Slot(Zeros(PRESETS_SIZE), n) == Zeros(PRESET_SIZE)
      {
      }
    } else {
      var pre, p := qs[..|qs| - 1], qs[|qs| - 1];
      assert qs == pre + [p];
      BufferSlots(pre);
      if PresetsBuffer(pre).Ok? && InRanges(p) {
        forall n | 0 <= n < PRESET_COUNT
          ensures Slot(PresetsBuffer(qs).value, n) == SlotOf(qs, n)
        {
          PlacedSlot(qs, n);
        }
      }
    }
  }

  /** One step of the loop: placing the last preset keeps every slot at its reference value. */
  lemma PlacedSlot(qs: seq<ScanPreset>, n: nat)
    requires qs != [] && n < PRESET_COUNT
    requires var pre := qs[..|qs| - 1]; PresetsBuffer(pre).Ok? && Slot(PresetsBuffer(pre).value, n) == SlotOf(pre, n)
    requires InRanges(qs[|qs| - 1])
    ensures PresetsBuffer(qs).Ok? && Slot(PresetsBuffer(qs).value, n) == SlotOf(qs, n)
  {
    var pre, p := qs[..|qs| - 1], qs[|qs| - 1];
    assert LastNumbered(qs, n) == if p.presetNumber == n then Some(p) else LastNumbered(pre, n);
    var prev := PresetsBuffer(pre).value;
    var m := p.presetNumber;
    if 0 <= m && m * PRESET_SIZE + PRESET_SIZE <= PRESETS_SIZE {
      SlotSpliced(prev, m, EncodedPreset(p).value, n);
    } else {
      assert m != n;
    }
  }

  /** Splicing 20 bytes in at slot m sets that slot and leaves the others. */
  lemma SlotSpliced(prev: seq<byte>, m: int, e: seq<byte>, n: nat)
    requires |prev| == PRESETS_SIZE && |e| == PRESET_SIZE && n < PRESET_COUNT
    requires 0 <= m && m * PRESET_SIZE + PRESET_SIZE <= PRESETS_SIZE
    ensures Slot(Splice(prev, m * PRESET_SIZE, e), n) == if m == n then e else Slot(prev, n)
  {
    var lo, offset := PRESET_SIZE * n, m * PRESET_SIZE;
    if m == n {
      SpliceSlice(prev, offset, e);
    } else {
      assert lo + PRESET_SIZE <= offset || offset + PRESET_SIZE <= lo;
      SpliceOutside(prev, offset, e, lo, lo + PRESET_SIZE);
    }
  }

  /** writeScanPresets' buffer: it fails exactly when a kept preset does not encode, and slot n
      holds the last preset the caller numbered n. */
  lemma WrittenSlots(ps: seq<ScanPreset>)
    ensures WrittenBuffer(ps).Err? <==> exists q :: q in ps && Kept(q) && !InRanges(q)
    ensures WrittenBuffer(ps).Ok? ==> forall n :: 0 <= n < PRESET_COUNT ==> Slot(WrittenBuffer(ps).value, n) == SlotOf(ps, n)
  {
    var qs := SortByNumber(KeptPresets(ps));
    BufferSlots(qs);
    assert forall q :: q in qs <==> q in KeptPresets(ps) by {
      forall q
        ensures q in qs <==> q in KeptPresets(ps)
      {
        assert q in qs <==> q in multiset(qs);
      }
    }
    forall n | 0 <= n < PRESET_COUNT
      ensures SlotOf(qs, n) == SlotOf(ps, n)
    {
      LastNumberedSort(KeptPresets(ps), n);
      LastNumberedKept(ps, n);
    }
  }

  // ---------------------------------------------------------------------------
  // writeScanPresets: the block writes

  /** Block 216 + k: 32 bytes of the buffer from 32 k, the last one zero-padded. */
  function PresetBlock(buf: seq<byte>, k: nat): (b: seq<byte>)
    requires |buf| == PRESETS_SIZE && k < PRESET_BLOCKS
    ensures |b| == BLOCK_SIZE
  {
    var lo := BLOCK_SIZE * k;
    Laid(buf[lo..if lo + BLOCK_SIZE <= PRESETS_SIZE then lo + BLOCK_SIZE else PRESETS_SIZE], BLOCK_SIZE)
  }

  function PresetWrites(buf: seq<byte>): (ws: seq<Write>)
    requires |buf| == PRESETS_SIZE
    ensures |ws| == PRESET_BLOCKS && WellFormed(ws)
    ensures forall k :: 0 <= k < PRESET_BLOCKS ==> ws[k] == Write(FIRST_PRESET_BLOCK + k, PresetBlock(buf, k))
  {
    var ws := seq(PRESET_BLOCKS, k requires 0 <= k < PRESET_BLOCKS => Write(FIRST_PRESET_BLOCK + k, PresetBlock(buf, k)));
    assert forall k :: 0 <= k < PRESET_BLOCKS ==> |ws[k].data| == |PresetBlock(buf, k)|;
    ws
  }

  /** Blocks 216..228 not refused. */
  predicate Stored(skip: set<int>)
  {
    forall n :: FIRST_PRESET_BLOCK <= n < FIRST_PRESET_BLOCK + PRESET_BLOCKS ==> n !in skip
  }

  /** Each of the 13 blocks holds its slice of the buffer; every other block is as it was. */
  lemma PresetBlocksApplied(image: seq<byte>, buf: seq<byte>, skip: set<int>, n: nat)
    requires IsImage(image) && |buf| == PRESETS_SIZE && Stored(skip) && n < BLOCK_COUNT
    ensures Block(Apply(image, PresetWrites(buf), skip), n) ==
      if FIRST_PRESET_BLOCK <= n < FIRST_PRESET_BLOCK + PRESET_BLOCKS then PresetBlock(buf, n - FIRST_PRESET_BLOCK)
      else Block(image, n)
  {
    var ws := PresetWrites(buf);
    ApplyBlock(image, ws, skip, n);
    if FIRST_PRESET_BLOCK <= n < FIRST_PRESET_BLOCK + PRESET_BLOCKS {
      LastToIs(ws, n, n - FIRST_PRESET_BLOCK);
    } else {
      LastToNone(ws, n);
    }
  }

  /** Byte j of block 216 + k is buffer byte 32 k + j, or a padding zero past the buffer. */
  lemma PresetBlockByte(buf: seq<byte>, k: nat, j: nat)
    requires |buf| == PRESETS_SIZE && k < PRESET_BLOCKS && j < BLOCK_SIZE
    ensures PresetBlock(buf, k)[j] == if BLOCK_SIZE * k + j < PRESETS_SIZE then buf[BLOCK_SIZE * k + j] else 0
  {
  }

  /** An image whose block 216 + k is the buffer's block k holds buffer byte 32 k + j at
      6912 + 32 k + j (or a padding zero past the buffer). */
  lemma BlockByte(after: seq<byte>, buf: seq<byte>, k: nat, j: nat)
    requires IsImage(after) && |buf| == PRESETS_SIZE && k < PRESET_BLOCKS && j < BLOCK_SIZE
    requires Block(after, FIRST_PRESET_BLOCK + k) == PresetBlock(buf, k)
    ensures after[PRESET_START + BLOCK_SIZE * k + j] == if BLOCK_SIZE * k + j < PRESETS_SIZE then buf[BLOCK_SIZE * k + j] else 0
  {
    PresetBlockByte(buf, k, j);
    assert 32 * (FIRST_PRESET_BLOCK + k) == PRESET_START + BLOCK_SIZE * k;
    assert after[PRESET_START + BLOCK_SIZE * k + j] == Block(after, FIRST_PRESET_BLOCK + k)[j];
  }

  /** An image whose blocks 216..228 are the buffer's blocks holds the buffer from byte 6912 on,
      followed by the padding zeros. */
  lemma PresetByteOf(after: seq<byte>, buf: seq<byte>, i: nat)
    requires IsImage(after) && |buf| == PRESETS_SIZE && i < PRESETS_SIZE + 16
    requires forall k :: 0 <= k < PRESET_BLOCKS ==> Block(after, FIRST_PRESET_BLOCK + k) == PresetBlock(buf, k)
    ensures after[PRESET_START + i] == if i < PRESETS_SIZE then buf[i] else 0
  {
    var k := i / BLOCK_SIZE;
    var j := i - BLOCK_SIZE * k;
    assert 0 <= j < BLOCK_SIZE && k < PRESET_BLOCKS;
    BlockByte(after, buf, k, j);
  }

  /** After the block writes the region reads back as the buffer, and the 16 bytes after it, the
      start of the group label region, are zero. */
  lemma PresetRegionWritten(image: seq<byte>, buf: seq<byte>, skip: set<int>)
    requires IsImage(image) && |buf| == PRESETS_SIZE && Stored(skip)
    ensures PresetRegion(Apply(image, PresetWrites(buf), skip)) == buf
    ensures Apply(image, PresetWrites(buf), skip)[PRESET_START + PRESETS_SIZE..PRESET_START + PRESETS_SIZE + 16] == Zeros(16)
  {
    var after := Apply(image, PresetWrites(buf), skip);
    forall k | 0 <= k < PRESET_BLOCKS
      ensures Block(after, FIRST_PRESET_BLOCK + k) == PresetBlock(buf, k)
    {
      PresetBlocksApplied(image, buf, skip, FIRST_PRESET_BLOCK + k);
    }
    forall i | 0 <= i < PRESETS_SIZE + 16
      ensures after[PRESET_START + i] == if i < PRESETS_SIZE then buf[i] else 0
    {
      PresetByteOf(after, buf, i);
    }
    assert PresetRegion(after) == buf;
  }

  /** writeScanPresets' last block erases group labels A and B and all but the last character of
      C: after it, A and B read as empty and C reads from its fifth byte alone. */
  lemma GroupLabelsErased(image: seq<byte>, buf: seq<byte>, skip: set<int>)
    requires IsImage(image) && |buf| == PRESETS_SIZE && Stored(skip)
    ensures var region := GroupLabels.RegionOf(Apply(image, PresetWrites(buf), skip));
      GroupLabels.Labels(region)[0] == GroupLabels.Group('A', [])
      && GroupLabels.Labels(region)[1] == GroupLabels.Group('B', [])
      && GroupLabels.Labels(region)[2].text == GroupLabels.DecodeLabel(Zeros(4) + [region[16]])
  {
    var after := Apply(image, PresetWrites(buf), skip);
    var region := GroupLabels.RegionOf(after);
    PresetRegionWritten(image, buf, skip);
    assert region[..16] == after[PRESET_START + PRESETS_SIZE..PRESET_START + PRESETS_SIZE + 16];
    ZeroedLabels(region);
  }

  /** A label region whose first 16 bytes are zero. */
  lemma ZeroedLabels(region: seq<byte>)
    requires |region| == GroupLabels.REGION_SIZE && region[..16] == Zeros(16)
    ensures GroupLabels.Labels(region)[0] == GroupLabels.Group('A', [])
      && GroupLabels.Labels(region)[1] == GroupLabels.Group('B', [])
      && GroupLabels.Labels(region)[2].text == GroupLabels.DecodeLabel(Zeros(4) + [region[16]])
  {
    assert region[0..5] == region[..16][0..5] == Zeros(5);
    assert region[6..11] == region[..16][6..11] == Zeros(5);
    assert region[12..17] == Zeros(4) + [region[16]];
    GroupLabels.ZerosDecodeEmpty();
    assert GroupLabels.Labels(region)[0] == GroupLabels.LabelAt(region, 0);
    assert GroupLabels.Labels(region)[1] == GroupLabels.LabelAt(region, 1);
    assert GroupLabels.Labels(region)[2] == GroupLabels.LabelAt(region, 2);
  }

  /** A preset that readScanPresets reads back as it was (known modulation, ultrascan 0..63, a
      clean label of at most 8 ASCII characters). */
  predicate Clean(p: ScanPreset)
  {
    InRanges(p) && p.start >= MIN_START && p.modulation in MODULATION_NAMES && 0 <= p.ultrascan < 64
    && |p.text| <= LABEL_WIDTH && IsAscii(p.text) && '\0' !in p.text
    && (p.text == [] || (!IsSpace(p.text[0]) && !IsSpace(p.text[|p.text| - 1])))
  }

  /** A slot holding a clean preset's encoding lists that preset under the slot's number. */
  lemma CleanSlotListed(buf: seq<byte>, q: ScanPreset)
    requires |buf| == PRESETS_SIZE && 1 <= q.presetNumber <= PRESET_COUNT && Clean(q)
    requires Slot(buf, q.presetNumber - 1) == EncodedPreset(q).value
    ensures q in PresetsOf(buf)
  {
    PresetRoundTripExact(q);
    ListedHolds(PresetSlots(buf), q);
  }

  /** Written at slot presetNumber and read from slot i as number i + 1, a clean preset numbered
      0..19 comes back one number higher after a successful write. */
  lemma ReadBackShifted(image: seq<byte>, ps: seq<ScanPreset>, skip: set<int>, p: ScanPreset)
    requires IsImage(image) && Stored(skip) && WrittenBuffer(ps).Ok?
    requires 0 <= p.presetNumber < PRESET_COUNT && LastNumbered(ps, p.presetNumber) == Some(p) && Clean(p)
    ensures p.(presetNumber := p.presetNumber + 1)
      in PresetsOf(PresetRegion(Apply(image, PresetWrites(WrittenBuffer(ps).value), skip)))
  {
    var buf := WrittenBuffer(ps).value;
    var q := p.(presetNumber := p.presetNumber + 1);
    WrittenSlots(ps);
    assert Slot(buf, p.presetNumber) == EncodedPreset(q).value;
    PresetRegionWritten(image, buf, skip);
    CleanSlotListed(buf, q);
  }
}

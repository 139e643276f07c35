/**
 * The channel region of CodeplugService (src/main/codeplugService.ts): the
 * listing readChannels builds from blocks 2..197 of the in-memory image, and
 * the block writes of writeChannels, one per channel at block
 * channelNumber + 1 followed by a zero-fill of the blocks after the count.
 */
module ServiceChannels {
  import opened Wrappers
  import opened Bytes
  import opened Radio
  import opened Listings
  import opened ChannelMemories

  // ---------------------------------------------------------------------------
  // readChannels

  const FIRST_CHANNEL_BLOCK: nat := 2
  /** The listing stops after block 197; blocks 198 and 199 are zero-filled by writes but never
      listed. */
  const LIST_END: nat := 198
  const FILL_END: nat := 200

  /** What each block of an image decodes to. */
  function ChannelSlots(image: seq<byte>): (ds: seq<Option<Channel>>)
    requires IsImage(image)
    ensures |ds| == BLOCK_COUNT
    ensures forall n :: 0 <= n < BLOCK_COUNT ==> ds[n] == DecodeChannelBlock(Block(image, n))
  {
    seq(BLOCK_COUNT, n requires 0 <= n < BLOCK_COUNT => DecodeChannelBlock(Block(image, n)))
  }

  /** The channels of blocks 2..197 that decode, each paired with its block - 1; the corrected
      listing stamps that number on the channel, the code as written drops it. */
  function Listed(image: seq<byte>): seq<Numbered<Channel>>
    requires IsImage(image)
  {
    Present(ChannelSlots(image), FIRST_CHANNEL_BLOCK, LIST_END, -1)
  }

  /** Each channel with its number written into channelNumber. */
  function Stamped(ns: seq<Numbered<Channel>>): (cs: seq<Channel>)
    ensures |cs| == |ns| && forall k :: 0 <= k < |ns| ==> cs[k] == ns[k].item.(channelNumber := ns[k].number)
  {
    seq(|ns|, k requires 0 <= k < |ns| => ns[k].item.(channelNumber := ns[k].number))
  }

  lemma StampedSnoc(ns: seq<Numbered<Channel>>, e: seq<Numbered<Channel>>)
    ensures Stamped(ns + e) == Stamped(ns) + Stamped(e)
  {
  }

  /** One more slot stamps one more channel, when it decodes. */
  lemma StampedPresentSnoc(ds: seq<Option<Channel>>, lo: nat, hi: nat, offset: int)
    requires lo <= hi < |ds|
    ensures Stamped(Present(ds, lo, hi + 1, offset))
      == Stamped(Present(ds, lo, hi, offset)) + (if ds[hi].Some? then [ds[hi].value.(channelNumber := hi + offset)] else [])
  {
    PresentSnoc(ds, lo, hi, offset);
    StampedSnoc(Present(ds, lo, hi, offset), Entry(ds, hi, offset));
  }

  /** The listing readChannels is meant to return: `channelNumber = block - 1`. */
  function ChannelsOf(image: seq<byte>): seq<Channel>
    requires IsImage(image)
  {
    Stamped(Listed(image))
  }

  /** The listing as the code builds it: `{ channelNumber: blockNum - 1, ...channel }`, where the
      spread's own channelNumber (0, from decodeChannelBlock) comes last and wins. */
  function ChannelsAsWritten(image: seq<byte>): seq<Channel>
    requires IsImage(image)
  {
    Items(Listed(image))
  }

  /** One channel: it is in the stamped listing exactly when block channelNumber + 1 holds it,
      over any slots whose channels carry number 0 (as decodeChannelBlock's do). */
  lemma StampedHolds(ds: seq<Option<Channel>>, c: Channel)
    requires |ds| == BLOCK_COUNT
    requires forall n :: 0 <= n < BLOCK_COUNT && ds[n].Some? ==> ds[n].value.channelNumber == 0
    ensures c in Stamped(Present(ds, FIRST_CHANNEL_BLOCK, LIST_END, -1)) <==>
      1 <= c.channelNumber <= 196 && ds[c.channelNumber + 1] == Some(c.(channelNumber := 0))
  {
    var ns := Present(ds, FIRST_CHANNEL_BLOCK, LIST_END, -1);
    var cs := Stamped(ns);
    var n, x := c.channelNumber, c.(channelNumber := 0);
    PresentHolds(ds, FIRST_CHANNEL_BLOCK, LIST_END, -1, n, x);
    if c in cs {
      var k :| 0 <= k < |ns| && cs[k] == c;
      var y := ns[k].item;
      assert ns[k] in ns;
      PresentHolds(ds, FIRST_CHANNEL_BLOCK, LIST_END, -1, ns[k].number, y);
      assert ns[k].number == n;
      assert y == x;
    }
    if 1 <= n <= 196 && ds[n + 1] == Some(x) {
      assert Numbered(n, x) in ns;
      var k :| 0 <= k < |ns| && ns[k] == Numbered(n, x);
      assert cs[k] == c;
    }
  }

  /** The stamped numbers are strictly ascending within 1..196. */
  lemma StampedNumbers(ds: seq<Option<Channel>>)
    requires |ds| == BLOCK_COUNT
    ensures var cs := Stamped(Present(ds, FIRST_CHANNEL_BLOCK, LIST_END, -1));
      (forall k :: 0 <= k < |cs| ==> 1 <= cs[k].channelNumber <= 196)
      && (forall i, j :: 0 <= i < j < |cs| ==> cs[i].channelNumber < cs[j].channelNumber)
  {
    PresentAscending(ds, FIRST_CHANNEL_BLOCK, LIST_END, -1);
  }

  /** The intended listing: channel numbers strictly ascending within 1..196, and a channel is
      listed exactly when block channelNumber + 1 decodes to it. */
  lemma ChannelsListing(image: seq<byte>)
    requires IsImage(image)
    ensures forall k :: 0 <= k < |ChannelsOf(image)| ==> 1 <= ChannelsOf(image)[k].channelNumber <= 196
    ensures forall i, j :: 0 <= i < j < |ChannelsOf(image)| ==>
      ChannelsOf(image)[i].channelNumber < ChannelsOf(image)[j].channelNumber
    ensures forall c :: c in ChannelsOf(image) <==>
      1 <= c.channelNumber <= 196 && DecodeChannelBlock(Block(image, c.channelNumber + 1)) == Some(c.(channelNumber := 0))
  {
    var ds := ChannelSlots(image);
    StampedNumbers(ds);
    forall c
      ensures c in ChannelsOf(image) <==>
        1 <= c.channelNumber <= 196 && DecodeChannelBlock(Block(image, c.channelNumber + 1)) == Some(c.(channelNumber := 0))
    {
      StampedHolds(ds, c);
    }
  }

  /** Over any slots whose channels carry number 0, the unstamped items all carry 0. */
  lemma ItemsUnnumbered(ds: seq<Option<Channel>>)
    requires |ds| == BLOCK_COUNT
    requires forall n :: 0 <= n < BLOCK_COUNT && ds[n].Some? ==> ds[n].value.channelNumber == 0
    ensures var xs := Items(Present(ds, FIRST_CHANNEL_BLOCK, LIST_END, -1));
      forall k :: 0 <= k < |xs| ==> xs[k].channelNumber == 0
  {
    var ns := Present(ds, FIRST_CHANNEL_BLOCK, LIST_END, -1);
    forall k | 0 <= k < |ns|
      ensures ns[k].item.channelNumber == 0
    {
      assert ns[k] in ns;
      PresentHolds(ds, FIRST_CHANNEL_BLOCK, LIST_END, -1, ns[k].number, ns[k].item);
    }
  }

  /** As written, every listed channel comes back with channelNumber 0. */
  lemma AsWrittenNumbersAreZero(image: seq<byte>)
    requires IsImage(image)
    ensures forall k :: 0 <= k < |ChannelsAsWritten(image)| ==> ChannelsAsWritten(image)[k].channelNumber == 0
  {
    var ds := ChannelSlots(image);
    forall n | 0 <= n < BLOCK_COUNT && ds[n].Some?
      ensures ds[n].value.channelNumber == 0
    {
      var b := Block(image, n);
      assert ds[n] == DecodeChannelBlock(b);
    }
    ItemsUnnumbered(ds);
    assert ChannelsAsWritten(image) == Items(Present(ds, FIRST_CHANNEL_BLOCK, LIST_END, -1));
  }

  /** So as soon as two blocks hold channels, the listing cannot tell them apart by number,
      while the intended listing numbers them differently. */
  lemma AsWrittenLosesNumbers(image: seq<byte>)
    requires IsImage(image) && |Listed(image)| >= 2
    ensures ChannelsAsWritten(image)[0].channelNumber == ChannelsAsWritten(image)[1].channelNumber == 0
    ensures ChannelsOf(image)[0].channelNumber < ChannelsOf(image)[1].channelNumber
  {
    AsWrittenNumbersAreZero(image);
    ChannelsListing(image);
  }

  // ---------------------------------------------------------------------------
  // writeChannels

  /** Channels whose blocks channelNumber + 1 are all among the 256 (numbers -1..254). */
  predicate Placeable(channels: seq<Channel>)
  {
    forall j :: 0 <= j < |channels| ==> -1 <= channels[j].channelNumber < BLOCK_COUNT - 1
  }

  /** The first channel from i on that encodeChannelBlock throws on, or |channels|. */
  function FirstUnencodable(channels: seq<Channel>, i: nat): (f: nat)
    requires i <= |channels|
    ensures i <= f <= |channels|
    ensures forall j :: i <= j < f ==> InRanges(channels[j])
    ensures f < |channels| ==> !InRanges(channels[f])
    decreases |channels| - i
  {
    if i == |channels| || !InRanges(channels[i]) then i else FirstUnencodable(channels, i + 1)
  }

  /** The first unencodable channel is the one the loop stops at. */
  lemma {:induction false} FirstUnencodableIs(channels: seq<Channel>, i: nat, k: nat)
    requires k <= i <= |channels| && forall j :: k <= j < i ==> InRanges(channels[j])
    requires i < |channels| ==> !InRanges(channels[i])
    ensures FirstUnencodable(channels, k) == i
    decreases i - k
  {
    if k < i {
      FirstUnencodableIs(channels, i, k + 1);
    }
  }

  /** The block write of one encodable channel: its encoding to block channelNumber + 1. */
  function ChannelWrite(c: Channel): (w: Write)
    requires InRanges(c) && -1 <= c.channelNumber < BLOCK_COUNT - 1
    ensures w.block == c.channelNumber + 1 && |w.data| == BLOCK_SIZE
  {
    Write(c.channelNumber + 1, EncodedChannel(c).value)
  }

  /** The block writes of the first k channels, in order. */
  function ChannelWrites(channels: seq<Channel>, k: nat): (ws: seq<Write>)
    requires k <= |channels| && Placeable(channels) && forall j :: 0 <= j < k ==> InRanges(channels[j])
    ensures |ws| == k && WellFormed(ws)
    decreases k
  {
    if k == 0 then [] else ChannelWrites(channels, k - 1) + [ChannelWrite(channels[k - 1])]
  }

  /** The j-th of the first k writes is channel j's. */
  lemma {:induction false} ChannelWriteAt(channels: seq<Channel>, k: nat, j: nat)
    requires k <= |channels| && Placeable(channels) && forall i :: 0 <= i < k ==> InRanges(channels[i])
    requires j < k
    ensures ChannelWrites(channels, k)[j] == ChannelWrite(channels[j])
    decreases k
  {
    var ws, prev := ChannelWrites(channels, k), ChannelWrites(channels, k - 1);
    assert ws == prev + [ChannelWrite(channels[k - 1])];
    if j < k - 1 {
      ChannelWriteAt(channels, k - 1, j);
      assert ws[j] == prev[j];
    } else {
      assert ws[j] == ChannelWrite(channels[k - 1]);
    }
  }

  /** The j-th of the first k writes goes to block channelNumber + 1 of channel j. */
  lemma ChannelWriteBlock(channels: seq<Channel>, k: nat, j: nat)
    requires k <= |channels| && Placeable(channels) && forall i :: 0 <= i < k ==> InRanges(channels[i])
    requires j < k
    ensures ChannelWrites(channels, k)[j].block == channels[j].channelNumber + 1
  {
    ChannelWriteAt(channels, k, j);
  }

  /** One more channel, encoded to data, appends its write. */
  lemma ChannelWritesNext(channels: seq<Channel>, i: nat, data: seq<byte>)
    requires i < |channels| && Placeable(channels) && forall j :: 0 <= j <= i ==> InRanges(channels[j])
    requires EncodedChannel(channels[i]) == Ok(data)
    ensures ChannelWrites(channels, i + 1) == ChannelWrites(channels, i) + [Write(channels[i].channelNumber + 1, data)]
  {
    assert ChannelWrites(channels, i + 1) == ChannelWrites(channels, i) + [ChannelWrite(channels[i])];
    assert ChannelWrite(channels[i]) == Write(channels[i].channelNumber + 1, data);
  }


  /** The zero-fill after count channels: blocks count + 2 .. 199, in order. */
  function ClearWrites(count: nat): (ws: seq<Write>)
    ensures WellFormed(ws)
    ensures |ws| == if count + 2 < FILL_END then FILL_END - (count + 2) else 0
    ensures forall j :: 0 <= j < |ws| ==> ws[j] == Write(count + 2 + j, Zeros(BLOCK_SIZE))
  {
    var empty := Zeros(BLOCK_SIZE);
    if count + 2 >= FILL_END then []
    else seq(FILL_END - (count + 2), j requires 0 <= j < FILL_END - (count + 2) => Write(count + 2 + j, empty))
  }

  /** Everything a complete writeChannels writes, in order. */
  function AllChannelWrites(channels: seq<Channel>): (ws: seq<Write>)
    requires Placeable(channels) && forall j :: 0 <= j < |channels| ==> InRanges(channels[j])
    ensures WellFormed(ws)
  {
    ChannelWrites(channels, |channels|) + ClearWrites(|channels|)
  }

  /** The zero-fill depends on the count only: after writing n channels, every block from n + 2
      to 199 the device stores is zero, whatever channel numbers were written there. */
  lemma ClearedAboveCount(image: seq<byte>, channels: seq<Channel>, skip: set<int>, b: nat)
    requires IsImage(image)
    requires Placeable(channels) && forall j :: 0 <= j < |channels| ==> InRanges(channels[j])
    requires |channels| + 2 <= b < FILL_END && b !in skip
    ensures Block(Apply(image, AllChannelWrites(channels), skip), b) == Zeros(BLOCK_SIZE)
  {
    var ws, n := AllChannelWrites(channels), |channels|;
    var c := n + (b - (n + 2));
    assert ws[c] == ClearWrites(n)[b - (n + 2)];
    ApplyBlock(image, ws, skip, b);
    var i := LastTo(ws, b);
    assert c <= i;
    assert ws[i] == ClearWrites(n)[i - n];
  }

  /** A block neither a channel nor the zero-fill writes keeps its bytes. */
  lemma UntouchedBlock(image: seq<byte>, channels: seq<Channel>, skip: set<int>, b: nat)
    requires IsImage(image)
    requires Placeable(channels) && forall j :: 0 <= j < |channels| ==> InRanges(channels[j])
    requires b < BLOCK_COUNT && !(|channels| + 2 <= b < FILL_END)
    requires forall j :: 0 <= j < |channels| ==> channels[j].channelNumber + 1 != b
    ensures Block(Apply(image, AllChannelWrites(channels), skip), b) == Block(image, b)
  {
    var n := |channels|;
    var cw, zw := ChannelWrites(channels, n), ClearWrites(n);
    var ws := cw + zw;
    forall j | 0 <= j < |ws|
      ensures ws[j].block != b
    {
      if j < n {
        ChannelWriteBlock(channels, n, j);
        assert ws[j] == cw[j];
      } else {
        assert ws[j] == zw[j - n];
      }
    }
    LastToNone(ws, b);
    ApplyBlock(image, ws, skip, b);
  }

  /** A channel written after every other channel of its number, to a block below the
      zero-fill that the device stores, leaves that block holding its encoding. */
  lemma LastChannelWrite(image: seq<byte>, channels: seq<Channel>, skip: set<int>, k: nat)
    requires IsImage(image)
    requires Placeable(channels) && forall j :: 0 <= j < |channels| ==> InRanges(channels[j])
    requires k < |channels| && channels[k].channelNumber + 1 < |channels| + 2
    requires forall j :: k < j < |channels| ==> channels[j].channelNumber != channels[k].channelNumber
    requires channels[k].channelNumber + 1 !in skip
    ensures Block(Apply(image, AllChannelWrites(channels), skip), channels[k].channelNumber + 1)
      == EncodedChannel(channels[k]).value
  {
    FinalChannelWrite(channels, k);
    LastWriteHolds(image, AllChannelWrites(channels), skip, k, channels[k].channelNumber + 1,
                   EncodedChannel(channels[k]).value);
  }

  /** Write k is the last of the writes to block b, and writes data there. */
  predicate FinalWrite(ws: seq<Write>, k: nat, b: int, data: seq<byte>)
  {
    k < |ws| && ws[k].block == b && ws[k].data == data && forall j :: k < j < |ws| ==> ws[j].block != b
  }

  /** A write that no later write to its block follows decides that block, when the device
      stores it. */
  lemma LastWriteHolds(image: seq<byte>, ws: seq<Write>, skip: set<int>, k: nat, b: nat, data: seq<byte>)
    requires IsImage(image) && WellFormed(ws) && b < BLOCK_COUNT && b !in skip
    requires FinalWrite(ws, k, b, data)
    ensures Block(Apply(image, ws, skip), b) == data
  {
    LastToIs(ws, b, k);
    ApplyBlock(image, ws, skip, b);
  }

  /** Channel k, when no later channel has its number and it lies below the zero-fill, makes
      the last write to its block. */
  lemma FinalChannelWrite(channels: seq<Channel>, k: nat)
    requires Placeable(channels) && forall j :: 0 <= j < |channels| ==> InRanges(channels[j])
    requires k < |channels| && channels[k].channelNumber + 1 < |channels| + 2
    requires forall j :: k < j < |channels| ==> channels[j].channelNumber != channels[k].channelNumber
    ensures FinalWrite(AllChannelWrites(channels), k, channels[k].channelNumber + 1, EncodedChannel(channels[k]).value)
  {
    NoLaterWrite(channels, k);
    ChannelWriteOf(channels, k);
  }

  /** Write k of a complete writeChannels is channel k's encoding to its block. */
  lemma ChannelWriteOf(channels: seq<Channel>, k: nat)
    requires Placeable(channels) && forall j :: 0 <= j < |channels| ==> InRanges(channels[j])
    requires k < |channels|
    ensures k < |AllChannelWrites(channels)|
    ensures AllChannelWrites(channels)[k] == Write(channels[k].channelNumber + 1, EncodedChannel(channels[k]).value)
  {
    var cw := ChannelWrites(channels, |channels|);
    ChannelWriteAt(channels, |channels|, k);
    assert AllChannelWrites(channels)[k] == cw[k];
  }

  /** After channel k, no write of a complete writeChannels goes to its block: no later
      channel has its number, and the zero-fill starts above the count. */
  lemma NoLaterWrite(channels: seq<Channel>, k: nat)
    requires Placeable(channels) && forall j :: 0 <= j < |channels| ==> InRanges(channels[j])
    requires k < |channels| && channels[k].channelNumber + 1 < |channels| + 2
    requires forall j :: k < j < |channels| ==> channels[j].channelNumber != channels[k].channelNumber
    ensures forall j :: k < j < |AllChannelWrites(channels)| ==>
      AllChannelWrites(channels)[j].block != channels[k].channelNumber + 1
  {
    var n := |channels|;
    var cw, zw := ChannelWrites(channels, n), ClearWrites(n);
    var ws := cw + zw;
    var b := channels[k].channelNumber + 1;
    forall j | k < j < |ws|
      ensures ws[j].block != b
    {
      if j < n {
        ChannelWriteBlock(channels, n, j);
        assert ws[j] == cw[j];
      } else {
        assert ws[j] == zw[j - n];
      }
    }
  }


  /** The round trip through the image: a channel numbered 1..196 within the count, written
      after every other channel of its number, is listed again by the intended readChannels,
      as decodeChannelBlock reads its encoding and under its own number. */
  lemma WrittenChannelListed(image: seq<byte>, channels: seq<Channel>, skip: set<int>, k: nat)
    requires IsImage(image)
    requires Placeable(channels) && forall j :: 0 <= j < |channels| ==> InRanges(channels[j])
    requires k < |channels| && 1 <= channels[k].channelNumber <= |channels| && channels[k].channelNumber <= 196
    requires forall j :: k < j < |channels| ==> channels[j].channelNumber != channels[k].channelNumber
    requires channels[k].channelNumber + 1 !in skip && channels[k].rx != 0
    ensures RoundTripped(channels[k]).(channelNumber := channels[k].channelNumber)
      in ChannelsOf(Apply(image, AllChannelWrites(channels), skip))
  {
    var c := channels[k];
    var after := Apply(image, AllChannelWrites(channels), skip);
    LastChannelWrite(image, channels, skip, k);
    EncodedListed(after, c);
  }

  /** An image holding a channel's encoding in the block after its number lists it. */
  lemma EncodedListed(image: seq<byte>, c: Channel)
    requires IsImage(image) && InRanges(c) && c.rx != 0 && 1 <= c.channelNumber <= 196
    requires Block(image, c.channelNumber + 1) == EncodedChannel(c).value
    ensures RoundTripped(c).(channelNumber := c.channelNumber) in ChannelsOf(image)
  {
    DecodesToRoundTripped(c);
    Renumbered(RoundTripped(c), c.channelNumber);
    ListedWhenDecoded(image, RoundTripped(c).(channelNumber := c.channelNumber));
  }

  lemma DecodesToRoundTripped(c: Channel)
    requires InRanges(c) && c.rx != 0
    ensures DecodeChannelBlock(EncodedChannel(c).value) == Some(RoundTripped(c))
    ensures RoundTripped(c).channelNumber == 0
  {
    ChannelRoundTrip(c);
  }

  /** Numbering an unnumbered channel and clearing the number again gives it back. */
  lemma Renumbered(x: Channel, n: int)
    requires x.channelNumber == 0
    ensures x.(channelNumber := n).(channelNumber := 0) == x
  {
  }

  /** A channel whose block decodes to it is listed. */
  lemma ListedWhenDecoded(image: seq<byte>, c: Channel)
    requires IsImage(image) && 1 <= c.channelNumber <= 196
    requires DecodeChannelBlock(Block(image, c.channelNumber + 1)) == Some(c.(channelNumber := 0))
    ensures c in ChannelsOf(image)
  {
    ChannelsListing(image);
  }
}

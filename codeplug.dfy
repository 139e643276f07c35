/**
 * Whole-image transfers (src/radio/codeplug.js): readCodeplug copies the 256
 * blocks into a fresh 8192-byte buffer, writeCodeplug sends an image block by
 * block and stops at the first block the device does not acknowledge. Both
 * close the link on every path and report a percentage after each block.
 */
module Codeplug {
  import opened Wrappers
  import opened Bytes
  import opened Protocol
  import opened Radio
  import opened Buffers

  /** ((k / 256) * 100).toFixed(0): k * 100 / 256 rounded to the nearest whole number, halves up. */
  function Percent(k: nat): nat
  {
    (k * 25 + 32) / 64
  }

  /** The progress reported after each of the first k blocks. */
  function Progress(k: nat): (p: seq<nat>)
    ensures |p| == k
  {
    if k == 0 then [] else Progress(k - 1) + [Percent(k)]
  }

  /** The progress values rise from 0 or 1 to exactly 100 and never go down. */
  lemma ProgressFacts()
    ensures |Progress(BLOCK_COUNT)| == BLOCK_COUNT && Progress(BLOCK_COUNT)[BLOCK_COUNT - 1] == 100
    ensures forall i, j :: 0 <= i <= j < BLOCK_COUNT ==> Progress(BLOCK_COUNT)[i] <= Progress(BLOCK_COUNT)[j] <= 100
  {
    PercentsAre(BLOCK_COUNT);
  }

  lemma {:induction false} PercentsAre(k: nat)
    ensures forall i :: 0 <= i < k ==> Progress(k)[i] == Percent(i + 1)
  {
    if k > 0 {
      PercentsAre(k - 1);
    }
  }

  /** The header and payload frames for blocks 0..k-1 of an image. */
  function WriteTrace(image: seq<byte>, k: nat): (t: seq<Event>)
    requires IsImage(image) && k <= BLOCK_COUNT
    ensures |t| == 2 * k && forall i :: 0 <= i < |t| ==> t[i].Sent?
  {
    if k == 0 then []
    else WriteTrace(image, k - 1) + [Sent(WriteHeader(k - 1)), Sent(WritePayload(Block(image, k - 1)))]
  }

  lemma WriteTraceStep(t0: seq<Event>, image: seq<byte>, k: nat)
    requires IsImage(image) && k < BLOCK_COUNT
    ensures t0 + WriteTrace(image, k + 1)
      == (t0 + WriteTrace(image, k)) + [Sent(WriteHeader(k)), Sent(WritePayload(Block(image, k)))]
  {
  }

  /** writeCodeplug's `if (!radio.portAvailable) await radio.port?.open()`: a port.open()
      exactly when the port is not open. */
  function Reopen(p: PortState): seq<Event>
  {
    if p.portOpen then [] else [Opened]
  }

  /** After the reopen, the 0x45 and every block frame of writeCodeplug go out on an open
      port, even when an earlier session closed it; isOpen is left as it was. */
  lemma ReopenedForWrite(t: seq<Event>, image: seq<byte>, k: nat)
    requires IsImage(image) && k <= BLOCK_COUNT
    ensures var s := PortAfter(t + Reopen(PortAfter(t)) + [Sent([ENTER])] + WriteTrace(image, k));
      s.portOpen && s.isOpen == PortAfter(t).isOpen
  {
    var t1 := t + Reopen(PortAfter(t));
    if PortAfter(t).portOpen {
      assert t1 == t;
    } else {
      assert t1[..|t1| - 1] == t;
    }
    assert PortAfter(t1).portOpen && PortAfter(t1).isOpen == PortAfter(t).isOpen;
    var w := WriteTrace(image, k);
    var frames := [Sent([ENTER])] + w;
    forall i | 0 <= i < |frames|
      ensures frames[i].Sent?
    {
      if i > 0 {
        assert frames[i] == w[i - 1];
      }
    }
    FramesKeepPort(t1, frames);
    assert t1 + frames == t1 + [Sent([ENTER])] + w;
  }

  /** The first k blocks of top over the rest of bottom. */
  function Overlay(bottom: seq<byte>, top: seq<byte>, k: nat): (r: seq<byte>)
    requires IsImage(bottom) && IsImage(top) && k <= BLOCK_COUNT
    ensures IsImage(r)
  {
    top[..32 * k] + bottom[32 * k..]
  }

  lemma OverlayStep(bottom: seq<byte>, top: seq<byte>, k: nat)
    requires IsImage(bottom) && IsImage(top) && k < BLOCK_COUNT
    ensures SetBlock(Overlay(bottom, top, k), k, Block(top, k)) == Overlay(bottom, top, k + 1)
  {
  }

  lemma OverlayAll(bottom: seq<byte>, top: seq<byte>)
    requires IsImage(bottom) && IsImage(top)
    ensures Overlay(bottom, top, BLOCK_COUNT) == top
  {
  }

  /** Copying block n of memory into an image that agrees with memory below block n makes it
      agree below block n + 1. */
  lemma CopyBlockStep(before: seq<byte>, after: seq<byte>, memory: seq<byte>, n: nat)
    requires IsImage(before) && IsImage(memory) && n < BLOCK_COUNT
    requires before[..32 * n] == memory[..32 * n] && after == Splice(before, 32 * n, Block(memory, n))
    ensures after[..32 * (n + 1)] == memory[..32 * (n + 1)]
  {
    forall k | 0 <= k < 32 * (n + 1)
      ensures after[k] == memory[k]
    {
      if k < 32 * n {
        assert before[..32 * n][k] == memory[..32 * n][k];
      }
    }
  }

  /** What readCodeplug sends when f is the first unreadable block, or 256 when there is none:
      the read requests up to and including the failing one, 0x46 after a complete read, and
      the close. */
  function ReadCodeplugTrace(f: nat): (t: seq<Event>)
    requires f <= BLOCK_COUNT
    ensures |t| >= 1 && t[|t| - 1] == Closed
  {
    if f == BLOCK_COUNT then ReadTrace(0, f) + [Sent([LEAVE]), Closed] else ReadTrace(0, f + 1) + [Closed]
  }

  /**
   * readCodeplug: blocks 0..255 in order into a fresh buffer, then 0x46; the link is closed
   * on every path. The first unreadable block ends the transfer with its failure.
   */
  method ReadCodeplug(radio: Radio) returns (r: Result<array<byte>>, progress: seq<nat>)
    requires radio.Valid()
    modifies radio
    ensures radio.Valid() && radio.memory == old(radio.memory) && radio.armed == old(radio.armed)
    ensures radio.trace == old(radio.trace) + ReadCodeplugTrace(FirstIn(radio.unreadable, 0, BLOCK_COUNT))
    ensures progress == Progress(FirstIn(radio.unreadable, 0, BLOCK_COUNT))
    ensures FirstIn(radio.unreadable, 0, BLOCK_COUNT) == BLOCK_COUNT ==>
      r.Ok? && fresh(r.value) && r.value.Length == IMAGE_SIZE && r.value[..] == radio.memory
    ensures FirstIn(radio.unreadable, 0, BLOCK_COUNT) < BLOCK_COUNT ==>
      r == Err(ReadFailed(FirstIn(radio.unreadable, 0, BLOCK_COUNT)))
  {
    var image := new byte[IMAGE_SIZE](_ => 0);
    var read;
    ghost var t0 := radio.trace;
    read, progress := ReadBlocksInto(radio, image);
    if read < BLOCK_COUNT {
      radio.Close();
      AppendAfter(t0, ReadTrace(0, read + 1), Closed);
      return Err(ReadFailed(read)), progress;
    }
    assert image[..] == image[..32 * read] && radio.memory[..32 * read] == radio.memory;
    radio.Command(LEAVE);
    radio.Close();
    AppendAfter2(t0, ReadTrace(0, read), Sent([LEAVE]), Closed);
    r := Ok(image);
  }

  /** The block loop of readCodeplug: read is the first unreadable block, or 256, and the
      blocks before it are in image. */
  method ReadBlocksInto(radio: Radio, image: array<byte>) returns (read: nat, progress: seq<nat>)
    requires radio.Valid() && image.Length == IMAGE_SIZE
    modifies radio, image
    ensures radio.Valid() && radio.memory == old(radio.memory) && radio.armed == old(radio.armed)
    ensures read == FirstIn(radio.unreadable, 0, BLOCK_COUNT)
    ensures image[..32 * read] == radio.memory[..32 * read]
    ensures progress == Progress(read)
    ensures read < BLOCK_COUNT ==> radio.trace == old(radio.trace) + ReadTrace(0, read + 1)
    ensures read == BLOCK_COUNT ==> radio.trace == old(radio.trace) + ReadTrace(0, read)
  {
    ghost var t0 := radio.trace;
    progress := [];
    var blockNum := 0;
    while blockNum < BLOCK_COUNT
      invariant 0 <= blockNum <= FirstIn(radio.unreadable, 0, BLOCK_COUNT)
      invariant radio.Valid() && radio.memory == old(radio.memory) && radio.armed == old(radio.armed)
      invariant radio.trace == t0 + ReadTrace(0, blockNum)
      invariant image[..32 * blockNum] == radio.memory[..32 * blockNum]
      invariant progress == Progress(blockNum)
    {
      var blockData := radio.ReadBlock(blockNum);
      assert radio.trace == t0 + ReadTrace(0, blockNum + 1);
      if blockData.Err? {
        FirstInHere(radio.unreadable, 0, BLOCK_COUNT, blockNum);
        return blockNum, progress;
      }
      FirstInPast(radio.unreadable, 0, BLOCK_COUNT, blockNum);
      ghost var before := image[..];
      Copy(blockData.value, image, 32 * blockNum);
      CopyBlockStep(before, image[..], radio.memory, blockNum);
      progress := progress + [Percent(blockNum + 1)];
      blockNum := blockNum + 1;
    }
    read := blockNum;
  }

  /**
   * writeCodeplug: an image of any size but 8192 is refused before any traffic. Otherwise
   * 0x45, then for each block the header and the payload; the first block not acknowledged
   * with 0x31 ends the transfer, so the device keeps the blocks before it. After the last
   * block, 0x46 and the 0x49 restart. The link is closed on every path. Past the length
   * check, a port that is not open (closed by an earlier session) is opened again first.
   */
  method WriteCodeplug(radio: Radio, codeplug: seq<byte>) returns (o: Outcome, progress: seq<nat>)
    requires radio.Valid()
    modifies radio
    ensures radio.Valid()
    ensures |codeplug| != IMAGE_SIZE ==>
      (o == Fail(BadLength) && progress == [] && radio.memory == old(radio.memory)
      && radio.trace == old(radio.trace) + [Closed])
    ensures |codeplug| == IMAGE_SIZE ==>
      radio.memory == Overlay(old(radio.memory), codeplug, FirstIn(radio.refused, 0, BLOCK_COUNT))
      && progress == Progress(FirstIn(radio.refused, 0, BLOCK_COUNT))
    ensures |codeplug| == IMAGE_SIZE && FirstIn(radio.refused, 0, BLOCK_COUNT) == BLOCK_COUNT ==>
      o == Pass && radio.trace == old(radio.trace) + Reopen(old(radio.Port())) + [Sent([ENTER])] + WriteTrace(codeplug, BLOCK_COUNT)
        + [Sent([LEAVE]), Sent([RESTART]), Closed]
    ensures |codeplug| == IMAGE_SIZE && FirstIn(radio.refused, 0, BLOCK_COUNT) < BLOCK_COUNT ==>
      var f := FirstIn(radio.refused, 0, BLOCK_COUNT);
      o == Fail(VerificationFailed(f))
      && radio.trace == old(radio.trace) + Reopen(old(radio.Port())) + [Sent([ENTER])] + WriteTrace(codeplug, f + 1) + [Closed]
  {
    if |codeplug| != IMAGE_SIZE {
      radio.Close();
      return Fail(BadLength), [];
    }
    o, progress := WriteSession(radio, codeplug);
  }

  /** writeCodeplug past its length check. */
  method WriteSession(radio: Radio, codeplug: seq<byte>) returns (o: Outcome, progress: seq<nat>)
    requires radio.Valid() && IsImage(codeplug)
    modifies radio
    ensures radio.Valid()
    ensures radio.memory == Overlay(old(radio.memory), codeplug, FirstIn(radio.refused, 0, BLOCK_COUNT))
    ensures progress == Progress(FirstIn(radio.refused, 0, BLOCK_COUNT))
    ensures FirstIn(radio.refused, 0, BLOCK_COUNT) == BLOCK_COUNT ==>
      o == Pass && radio.trace == old(radio.trace) + Reopen(old(radio.Port())) + [Sent([ENTER])] + WriteTrace(codeplug, BLOCK_COUNT)
        + [Sent([LEAVE]), Sent([RESTART]), Closed]
    ensures FirstIn(radio.refused, 0, BLOCK_COUNT) < BLOCK_COUNT ==>
      var f := FirstIn(radio.refused, 0, BLOCK_COUNT);
      o == Fail(VerificationFailed(f))
      && radio.trace == old(radio.trace) + Reopen(old(radio.Port())) + [Sent([ENTER])] + WriteTrace(codeplug, f + 1) + [Closed]
  {
    if !radio.Port().portOpen {
      radio.Open();
    }
    ghost var t0 := radio.trace;
    assert t0 == old(radio.trace) + Reopen(old(radio.Port()));
    radio.Command(ENTER);
    ghost var m0 := radio.memory;
    var sent;
    sent, progress := WriteBlocks(radio, codeplug);
    assert m0 == old(radio.memory);
    ghost var t1 := radio.trace;
    if sent < BLOCK_COUNT {
      assert t1 == t0 + [Sent([ENTER])] + WriteTrace(codeplug, sent + 1);
      radio.Close();
      o := Fail(VerificationFailed(sent));
    } else {
      assert t1 == t0 + [Sent([ENTER])] + WriteTrace(codeplug, BLOCK_COUNT);
      FinishSession(radio);
      o := Pass;
    }
  }

  /** After the last block: 0x46, the 0x49 restart, and the link closed. */
  method FinishSession(radio: Radio)
    requires radio.Valid()
    modifies radio
    ensures radio.Valid() && radio.memory == old(radio.memory)
    ensures radio.trace == old(radio.trace) + [Sent([LEAVE]), Sent([RESTART]), Closed]
  {
    ghost var t1 := radio.trace;
    radio.Command(LEAVE);
    radio.Command(RESTART);
    radio.Close();
    TraceSnoc3(t1, Sent([LEAVE]), Sent([RESTART]), Closed);
  }

  /** The block loop of writeCodeplug: it stops after the first block not acknowledged, and
      sent is that block, or 256 when every block was acknowledged. */
  method WriteBlocks(radio: Radio, codeplug: seq<byte>) returns (sent: nat, progress: seq<nat>)
    requires radio.Valid() && IsImage(codeplug)
    modifies radio
    ensures radio.Valid()
    ensures sent == FirstIn(radio.refused, 0, BLOCK_COUNT)
    ensures radio.memory == Overlay(old(radio.memory), codeplug, sent)
    ensures progress == Progress(sent)
    ensures sent < BLOCK_COUNT ==> radio.trace == old(radio.trace) + WriteTrace(codeplug, sent + 1)
    ensures sent == BLOCK_COUNT ==> radio.trace == old(radio.trace) + WriteTrace(codeplug, sent)
  {
    progress := [];
    ghost var start := radio.memory;
    ghost var t0 := radio.trace;
    var blockNum := 0;
    while blockNum < BLOCK_COUNT
      invariant 0 <= blockNum <= FirstIn(radio.refused, 0, BLOCK_COUNT)
      invariant radio.Valid() && radio.memory == Overlay(start, codeplug, blockNum)
      invariant radio.trace == t0 + WriteTrace(codeplug, blockNum)
      invariant progress == Progress(blockNum)
    {
      var acknowledged := WriteStep(radio, codeplug, blockNum, start, t0);
      if !acknowledged {
        return blockNum, progress;
      }
      progress := progress + [Percent(blockNum + 1)];
      blockNum := blockNum + 1;
    }
    assert blockNum == BLOCK_COUNT;
    sent := blockNum;
  }

  /** One turn of that loop from the state after blocks 0..n - 1: block n sent; if it is
      acknowledged the device holds blocks 0..n, otherwise n is the first refused block. */
  method WriteStep(radio: Radio, codeplug: seq<byte>, n: nat, ghost start: seq<byte>, ghost t0: seq<Event>)
    returns (acknowledged: bool)
    requires radio.Valid() && IsImage(codeplug) && IsImage(start) && n < BLOCK_COUNT
    requires n <= FirstIn(radio.refused, 0, BLOCK_COUNT)
    requires radio.memory == Overlay(start, codeplug, n) && radio.trace == t0 + WriteTrace(codeplug, n)
    modifies radio
    ensures radio.Valid() && radio.trace == t0 + WriteTrace(codeplug, n + 1)
    ensures acknowledged ==>
      n + 1 <= FirstIn(radio.refused, 0, BLOCK_COUNT) && radio.memory == Overlay(start, codeplug, n + 1)
    ensures !acknowledged ==>
      n == FirstIn(radio.refused, 0, BLOCK_COUNT) && radio.memory == Overlay(start, codeplug, n)
  {
    var response := SendBlock(radio, codeplug, n);
    WriteTraceStep(t0, codeplug, n);
    acknowledged := response == WRITE_BLOCK;
    if !acknowledged {
      FirstInHere(radio.refused, 0, BLOCK_COUNT, n);
    } else {
      FirstInPast(radio.refused, 0, BLOCK_COUNT, n);
      OverlayStep(start, codeplug, n);
    }
  }

  /** One turn of the block loop of writeCodeplug: the header [0x31, n], then block n of the
      image with its checksum; the device acknowledges and stores it unless it refuses it. */
  method SendBlock(radio: Radio, codeplug: seq<byte>, blockNum: nat) returns (response: byte)
    requires radio.Valid() && IsImage(codeplug) && blockNum < BLOCK_COUNT
    modifies radio
    ensures radio.Valid() && radio.armed == None
    ensures radio.trace == old(radio.trace) + [Sent(WriteHeader(blockNum)), Sent(WritePayload(Block(codeplug, blockNum)))]
    ensures response == WRITE_BLOCK <==> blockNum !in radio.refused
    ensures radio.memory == if blockNum in radio.refused then old(radio.memory)
      else SetBlock(old(radio.memory), blockNum, Block(codeplug, blockNum))
  {
    var blockData := codeplug[32 * blockNum..32 * (blockNum + 1)];
    radio.SendWriteHeader(blockNum);
    response := radio.SendWritePayload(blockData);
  }

  /** An image written to a device that refuses nothing reads back unchanged. */
  method WriteThenRead(radio: Radio, image: seq<byte>) returns (r: Result<array<byte>>)
    requires radio.Valid() && radio.armed == None && IsImage(image)
    requires FirstIn(radio.refused, 0, BLOCK_COUNT) == BLOCK_COUNT && FirstIn(radio.unreadable, 0, BLOCK_COUNT) == BLOCK_COUNT
    modifies radio
    ensures r.Ok? && r.value[..] == image
  {
    var o, _ := WriteCodeplug(radio, image);
    OverlayAll(old(radio.memory), image);
    var p;
    r, p := ReadCodeplug(radio);
  }
}

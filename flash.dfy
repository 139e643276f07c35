/**
 * Firmware flashing in RadioCommunicator.flashFirmware
 * (src/radio/radio-communicator.ts): the firmware cut into 32-byte blocks,
 * the last one padded with 0xFF, each sent as a 36-byte packet; and the
 * handshake as a state machine driven by incoming data and the 500 ms timer:
 * wait for 0xA5, send the init sequence, then after the timer send packet 0
 * and each further packet only after a 0xA3.
 */
module Flash {
  import opened Wrappers
  import opened Bytes
  import opened Buffers

  /** The bootloader's "ready" byte, and its per-packet acknowledgement. */
  const READY: byte := 0xA5
  const ACK: byte := 0xA3
  /** The opcode of every packet but the last, and of the last. */
  const DATA_PACKET: byte := 0xA1
  const LAST_PACKET: byte := 0xA2
  const PACKET_SIZE: nat := 36
  const PAD: byte := 0xFF

  /** A0 EE 74 71 07 74 followed by thirty 0x55 bytes. */
  function InitSequence(): (s: seq<byte>)
    ensures |s| == 36 && s[..6] == [0xA0, 0xEE, 0x74, 0x71, 0x07, 0x74]
    ensures forall i :: 6 <= i < 36 ==> s[i] == 0x55
  {
    [0xA0, 0xEE, 0x74, 0x71, 0x07, 0x74] + Repeat(30, 0x55)
  }

  /** Math.ceil(length / 32). */
  function TotalBlocks(length: nat): (n: nat)
    ensures 32 * n >= length && (n > 0 ==> 32 * (n - 1) < length)
  {
    (length + 31) / 32
  }

  function Min(a: nat, b: nat): nat
  {
    if a <= b then a else b
  }

  /** firmware.slice(32k, 32k + 32), padded with 0xFF to 32 bytes. */
  function BlockData(firmware: seq<byte>, k: nat): (d: seq<byte>)
    ensures |d| == BLOCK_SIZE
    ensures 32 * k + 32 <= |firmware| ==> d == firmware[32 * k..32 * k + 32]
    ensures 32 * k < |firmware| < 32 * k + 32 ==> d == firmware[32 * k..] + Repeat(32 * k + 32 - |firmware|, PAD)
  {
    var part := firmware[Min(32 * k, |firmware|)..Min(32 * k + 32, |firmware|)];
    part + Repeat(BLOCK_SIZE - |part|, PAD)
  }

  /** Packet k: the opcode (0xA2 for the last block), k as a big-endian u16, the checksum of the
      32 data bytes, the data bytes. */
  function Packet(firmware: seq<byte>, k: nat): (p: seq<byte>)
    requires k < 0x1_0000
    ensures |p| == PACKET_SIZE
    ensures p[0] == (if k == TotalBlocks(|firmware|) - 1 then LAST_PACKET else DATA_PACKET)
    ensures U16BE(p, 1) == k && p[3] == Checksum(p[4..]) && p[4..] == BlockData(firmware, k)
  {
    var d := BlockData(firmware, k);
    [if k == TotalBlocks(|firmware|) - 1 then LAST_PACKET else DATA_PACKET] + BE16(k) + [Checksum(d)] + d
  }

  /** Packets 0..n-1. */
  function Packets(firmware: seq<byte>, n: nat): (ps: seq<seq<byte>>)
    requires n <= 0x1_0000
    ensures |ps| == n && forall k :: 0 <= k < n ==> ps[k] == Packet(firmware, k)
  {
    seq(n, k requires 0 <= k < n => Packet(firmware, k))
  }

  /** sendNextBlock's packet construction: Buffer.alloc(36), the opcode, writeUInt16BE(k, 1)
      (a RangeError from k = 65536 on), the data copied in at 4, the checksum at 3. */
  method BuildPacket(firmware: seq<byte>, k: nat) returns (r: Result<seq<byte>>)
    ensures k < 0x1_0000 ==> r == Ok(Packet(firmware, k))
    ensures k >= 0x1_0000 ==> r == Err(OutOfRange)
  {
    var totalBlocks := (|firmware| + 31) / 32;
    var blockData := SliceBlock(firmware, k);
    var packet := new byte[PACKET_SIZE](_ => 0);
    packet[0] := if k == totalBlocks - 1 then LAST_PACKET else DATA_PACKET;
    ghost var opcode := packet[0];
    var o := WriteUInt16BE(packet, k, 1);
    if o.Fail? {
      return Err(o.error);
    }
    Copy(blockData, packet, 4);
    packet[3] := Checksum(blockData);
    assert packet[..] == [opcode] + BE16(k) + [Checksum(blockData)] + blockData;
    r := Ok(packet[..]);
  }

  /** The slice of block k, padded with 0xFF when the firmware ends inside or before it. */
  method SliceBlock(firmware: seq<byte>, k: nat) returns (blockData: seq<byte>)
    ensures blockData == BlockData(firmware, k)
  {
    var start := k * 32;
    var end := start + 32;
    blockData := firmware[Min(start, |firmware|)..Min(end, |firmware|)];
    if |blockData| < 32 {
      blockData := blockData + Repeat(32 - |blockData|, PAD);
    }
  }

  /** The handler chain `for (const byte of data) if (byte === b) ...`. */
  method Contains(data: seq<byte>, b: byte) returns (found: bool)
    ensures found <==> b in data
  {
    var i := 0;
    while i < |data|
      invariant 0 <= i <= |data|
      invariant b !in data[..i]
    {
      if data[i] == b {
        return true;
      }
      assert data[..i + 1] == data[..i] + [data[i]];
      i := i + 1;
    }
    assert data[..i] == data;
    found := false;
  }

  /**
   * Which listener is on the port: handleInitData (waiting for 0xA5); none (the 500 ms before
   * the first packet); waitForAck (a packet is out); the restored handleData (resolved); and
   * the promise left pending after a throw inside the ack handler: writeUInt16BE's RangeError,
   * or the TypeError of calling a progress callback that was not given.
   */
  datatype Phase = AwaitingReady | Settling | AwaitingAck | Finished | Stalled

  class FlashSession {
    const firmware: seq<byte>
    const totalBlocks: nat
    /** Whether the caller passed a progressCallback (the command-line tool does not). */
    const reports: bool
    var phase: Phase
    var currentBlock: nat
    /** Every frame written to the port. */
    var written: seq<seq<byte>>
    /** The currentBlock of each progressCallback call (the percentage string is left out). */
    var progress: seq<nat>

    /** The reports after n acknowledged blocks: one per block, none without a callback. */
    ghost function Reported(n: nat): seq<nat>
      reads this
    {
      if reports then seq(n, k => k + 1) else []
    }

    /** What has been sent in each phase: nothing before 0xA5; then the init sequence; then the
        packets up to the current one, each after the previous one's acknowledgement. */
    ghost predicate Valid()
      reads this
    {
      totalBlocks == TotalBlocks(|firmware|) && currentBlock <= totalBlocks
      && progress == Reported(currentBlock)
      && match phase
         case AwaitingReady => currentBlock == 0 && written == []
         case Settling => currentBlock == 0 && written == [InitSequence()]
         case AwaitingAck =>
           currentBlock < totalBlocks && currentBlock < 0x1_0000 && (reports || currentBlock == 0)
           && written == [InitSequence()] + Packets(firmware, currentBlock + 1)
         case Finished =>
           currentBlock == totalBlocks <= 0x1_0000 && (reports || currentBlock == 0) && written == [InitSequence()] + Packets(firmware, totalBlocks)
         case Stalled =>
           (if reports then currentBlock == 0x1_0000 < totalBlocks else currentBlock == 1)
           && written == [InitSequence()] + Packets(firmware, currentBlock)
    }

    constructor(firmware: seq<byte>, reports: bool)
      ensures Valid()
      ensures this.firmware == firmware && this.reports == reports
      ensures phase == AwaitingReady && written == [] && progress == []
    {
      this.firmware := firmware;
      this.reports := reports;
      totalBlocks := (|firmware| + 31) / 32;
      phase := AwaitingReady;
      currentBlock := 0;
      written := [];
      progress := [];
    }

    /** The state sendNextBlock starts from: the init sequence and packets 0..currentBlock-1
        written, each of those acknowledged. */
    ghost predicate ReadyToSend()
      reads this
    {
      totalBlocks == TotalBlocks(|firmware|) && currentBlock <= totalBlocks && currentBlock <= 0x1_0000
      && (reports || currentBlock == 0) && progress == Reported(currentBlock)
      && written == [InitSequence()] + Packets(firmware, currentBlock)
    }

    /** sendNextBlock: finish once every block is acknowledged, otherwise write the packet for
        currentBlock and wait for its acknowledgement. */
    method SendNextBlock()
      requires ReadyToSend()
      modifies this
      ensures Valid() && currentBlock == old(currentBlock) && progress == old(progress)
      ensures currentBlock == totalBlocks ==> phase == Finished && written == old(written)
      ensures currentBlock < totalBlocks && currentBlock < 0x1_0000 ==>
        phase == AwaitingAck && written == old(written) + [Packet(firmware, currentBlock)]
      ensures currentBlock < totalBlocks && currentBlock >= 0x1_0000 ==> phase == Stalled && written == old(written)
    {
      if currentBlock >= totalBlocks {
        phase := Finished;
        return;
      }
      var packet := BuildPacket(firmware, currentBlock);
      if packet.Err? {
        phase := Stalled;
        return;
      }
      written := written + [packet.value];
      phase := AwaitingAck;
      assert Packets(firmware, currentBlock + 1) == Packets(firmware, currentBlock) + [Packet(firmware, currentBlock)];
    }

    /** Data from the port, handed to whichever listener is on it: the first chunk holding 0xA5
        gets the init sequence written; a chunk holding 0xA3 while a packet is out counts the
        block and, with a progress callback, reports it and sends the next packet, however many
        0xA3 bytes it holds. Without a callback, updateProgress throws before sendNextBlock, so
        the session stalls after the first acknowledgement. Any other chunk changes nothing. */
    method OnData(chunk: seq<byte>)
      requires Valid()
      modifies this
      ensures Valid()
      ensures old(phase) == AwaitingReady && READY in chunk ==>
        phase == Settling && written == [InitSequence()] && currentBlock == 0 && progress == []
      ensures old(phase) == AwaitingAck && ACK in chunk && !reports ==>
        currentBlock == 1 && phase == Stalled && written == old(written) && progress == []
      ensures old(phase) == AwaitingAck && ACK in chunk && reports ==>
        currentBlock == old(currentBlock) + 1 && progress == old(progress) + [currentBlock]
        && (currentBlock == totalBlocks ==> phase == Finished && written == old(written))
        && (currentBlock < totalBlocks && currentBlock < 0x1_0000 ==>
              phase == AwaitingAck && written == old(written) + [Packet(firmware, currentBlock)])
        && (0x1_0000 == currentBlock < totalBlocks ==> phase == Stalled && written == old(written))
      ensures !(old(phase) == AwaitingReady && READY in chunk) && !(old(phase) == AwaitingAck && ACK in chunk) ==>
        phase == old(phase) && currentBlock == old(currentBlock) && written == old(written) && progress == old(progress)
    {
      if phase == AwaitingReady {
        var ready := Contains(chunk, READY);
        if ready {
          written := written + [InitSequence()];
          phase := Settling;
        }
      } else if phase == AwaitingAck {
        var acked := Contains(chunk, ACK);
        if acked {
          currentBlock := currentBlock + 1;
          if !reports {
            phase := Stalled;
            return;
          }
          progress := progress + [currentBlock];
          SendNextBlock();
        }
      }
    }

    /** The 500 ms timer after the init sequence: startFlashing sends packet 0 (or finishes at
        once for empty firmware). */
    method TimerFired()
      requires Valid() && phase == Settling
      modifies this
      ensures Valid() && currentBlock == 0 && progress == []
      ensures totalBlocks == 0 ==> phase == Finished && written == [InitSequence()]
      ensures totalBlocks > 0 ==> phase == AwaitingAck && written == [InitSequence(), Packet(firmware, 0)]
    {
      SendNextBlock();
    }
  }

  /** A bootloader that answers everything: after 0xA5, the timer, and one 0xA3 per packet,
      flashing ends with the init sequence and every packet written once, in order, and one
      progress report per block. */
  method FlashAll(firmware: seq<byte>) returns (session: FlashSession)
    requires TotalBlocks(|firmware|) <= 0x1_0000
    ensures session.phase == Finished && session.firmware == firmware && session.reports
    ensures session.written == [InitSequence()] + Packets(firmware, TotalBlocks(|firmware|))
    ensures session.progress == seq(TotalBlocks(|firmware|), k => k + 1)
  {
    session := new FlashSession(firmware, true);
    session.OnData([READY]);
    session.TimerFired();
    while session.phase == AwaitingAck
      invariant session.Valid() && session.firmware == firmware && session.reports
      invariant session.phase == AwaitingAck || session.phase == Finished
      decreases session.totalBlocks - session.currentBlock
    {
      session.OnData([ACK]);
    }
  }

  /** flashFirmware called without a progress callback, as the command-line tool calls it: after
      0xA5, the timer and any number of acknowledgements, the bootloader has received only the
      init sequence and packet 0, no progress was reported, and the session never finishes. */
  method FlashWithoutCallback(firmware: seq<byte>, acks: nat) returns (session: FlashSession)
    requires 0 < TotalBlocks(|firmware|) && 0 < acks
    ensures session.phase == Stalled && session.currentBlock == 1 && session.progress == []
    ensures session.written == [InitSequence(), Packet(firmware, 0)]
  {
    session := new FlashSession(firmware, false);
    session.OnData([READY]);
    session.TimerFired();
    var i := 0;
    while i < acks
      invariant 0 <= i <= acks && session.Valid() && !session.reports && session.firmware == firmware
      invariant i == 0 ==> session.phase == AwaitingAck
      invariant i > 0 ==> session.phase == Stalled && session.currentBlock == 1
      invariant session.written == [InitSequence(), Packet(firmware, 0)]
    {
      session.OnData([ACK]);
      i := i + 1;
    }
  }

  /** The data parts of packets 0..n-1. */
  function DataBlocks(firmware: seq<byte>, n: nat): (ds: seq<seq<byte>>)
    ensures |ds| == n && forall k :: 0 <= k < n ==> ds[k] == BlockData(firmware, k)
  {
    seq(n, k requires 0 <= k < n => BlockData(firmware, k))
  }

  /** The packets carry the firmware: the data parts of the first n packets, in order, are the
      first 32n firmware bytes, with 0xFF after the end of the firmware; so all of them are the
      firmware padded with 0xFF to a whole number of blocks. */
  lemma {:induction false} BlocksCarryFirmware(firmware: seq<byte>, n: nat)
    requires n <= TotalBlocks(|firmware|)
    ensures Concat(DataBlocks(firmware, n))
      == if 32 * n <= |firmware| then firmware[..32 * n] else firmware + Repeat(32 * n - |firmware|, PAD)
  {
    if n > 0 {
      var m := n - 1;
      BlocksCarryFirmware(firmware, m);
      DataBlocksSnoc(firmware, m);
      NextBlock(firmware, m);
    }
  }

  /** The data parts of one more packet: those of the first m, then block m's. */
  lemma DataBlocksSnoc(firmware: seq<byte>, m: nat)
    ensures Concat(DataBlocks(firmware, m + 1)) == Concat(DataBlocks(firmware, m)) + BlockData(firmware, m)
  {
    var d := BlockData(firmware, m);
    assert DataBlocks(firmware, m + 1) == DataBlocks(firmware, m) + [d];
    ConcatSnoc(DataBlocks(firmware, m), d);
  }

  /** One more block: the firmware up to block m, then block m's data. */
  lemma NextBlock(firmware: seq<byte>, m: nat)
    requires 32 * m < |firmware|
    ensures firmware[..32 * m] + BlockData(firmware, m)
      == if 32 * (m + 1) <= |firmware| then firmware[..32 * (m + 1)] else firmware + Repeat(32 * (m + 1) - |firmware|, PAD)
  {
    var prev, d := firmware[..32 * m], BlockData(firmware, m);
    if 32 * (m + 1) > |firmware| {
      var tail := firmware[32 * m..];
      assert d == tail + Repeat(32 * (m + 1) - |firmware|, PAD);
      assert prev + tail == firmware;
    } else {
      assert prev + firmware[32 * m..32 * (m + 1)] == firmware[..32 * (m + 1)];
    }
  }

  /** All the packets: the firmware and then 0xFF up to a whole number of 32-byte blocks. */
  lemma PacketsCarryFirmware(firmware: seq<byte>)
    ensures var n := TotalBlocks(|firmware|);
      Concat(DataBlocks(firmware, n)) == firmware + Repeat(32 * n - |firmware|, PAD)
  {
    var n := TotalBlocks(|firmware|);
    BlocksCarryFirmware(firmware, n);
    if 32 * n <= |firmware| {
      assert firmware + Repeat(0, PAD) == firmware[..32 * n];
    }
  }
}

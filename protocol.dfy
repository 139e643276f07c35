/**
 * The programming protocol's frames (src/radio/radio-communicator.ts): one-byte
 * opcodes, the block read request and its 34-byte reply, and the frames of a
 * block write.
 */
module Protocol {
  import opened Wrappers
  import opened Bytes

  /** Read block n: the request is [0x30, n], the reply 0x30 ++ 32 bytes ++ checksum. */
  const READ_BLOCK: byte := 0x30
  /** Write block n: the header is [0x31, n]; 0x31 is also the device's write acknowledgement. */
  const WRITE_BLOCK: byte := 0x31
  /** Enter programming mode (initialize), sent before a write sequence. */
  const ENTER: byte := 0x45
  /** Leave programming mode. */
  const LEAVE: byte := 0x46
  /** Restart the radio. */
  const RESTART: byte := 0x49

  const READ_REPLY_LENGTH: nat := 34

  function ReadRequest(n: byte): seq<byte>
  {
    [READ_BLOCK, n]
  }

  function WriteHeader(n: byte): seq<byte>
  {
    [WRITE_BLOCK, n]
  }

  /** The data frame of a block write: the 32 bytes followed by their checksum. */
  function WritePayload(data: seq<byte>): (frame: seq<byte>)
    ensures |frame| == |data| + 1 && frame[..|data|] == data && frame[|data|] == Checksum(data)
  {
    data + [Checksum(data)]
  }

  /** The reply a device sends for a block holding payload. */
  function ReadReply(payload: seq<byte>): (reply: seq<byte>)
    requires |payload| == BLOCK_SIZE
    ensures |reply| == READ_REPLY_LENGTH
  {
    [READ_BLOCK] + payload + [Checksum(payload)]
  }

  /** readBlock's checks on the 34-byte reply: the header byte, then the checksum. */
  function CheckReadReply(reply: seq<byte>): (r: Result<seq<byte>>)
    requires |reply| == READ_REPLY_LENGTH
    ensures r.Ok? <==> reply[0] == READ_BLOCK && reply[33] == Checksum(reply[1..33])
    ensures r.Ok? ==> r.value == reply[1..33] && |r.value| == BLOCK_SIZE
    ensures reply[0] != READ_BLOCK ==> r == Err(BadHeader(reply[0]))
  {
    if reply[0] != READ_BLOCK then Err(BadHeader(reply[0]))
    else
      var payload := reply[1..33];
      var calculated := Checksum(payload);
      if reply[33] != calculated then Err(ChecksumMismatch(reply[33], calculated))
      else Ok(payload)
  }

  /** A well-formed reply is accepted and yields its payload, and only well-formed replies are. */
  lemma ReadReplyAccepted(payload: seq<byte>, reply: seq<byte>)
    requires |payload| == BLOCK_SIZE && |reply| == READ_REPLY_LENGTH
    ensures CheckReadReply(reply) == Ok(payload) <==> reply == ReadReply(payload)
  {
    if CheckReadReply(reply) == Ok(payload) {
      assert reply == [reply[0]] + reply[1..33] + [reply[33]];
    }
  }

  /** A reply whose payload was corrupted in one byte in transit is rejected. */
  lemma CorruptedReplyRejected(payload: seq<byte>, i: nat, v: byte)
    requires |payload| == BLOCK_SIZE && i < BLOCK_SIZE && v != payload[i]
    ensures CheckReadReply(ReadReply(payload)[i + 1 := v]).Err?
  {
    var bad := ReadReply(payload)[i + 1 := v];
    assert bad[1..33] == payload[i := v];
    ChecksumDetectsOneByteChange(payload, i, v);
  }
}

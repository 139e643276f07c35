/**
 * The receive side of RadioCommunicator (src/radio/radio-communicator.ts):
 * one byte buffer that every incoming chunk is appended to, and at most one
 * pending operation that waits for a fixed number of bytes. Chunks arriving
 * from the serial port and the firing of the timeout timer are events the
 * caller feeds in; what is written to the port is recorded.
 */
module Transport {
  import opened Wrappers
  import opened Bytes
  import opened Protocol

  /** The result of feeding chunks to an operation that waits for n bytes: the response, if one
      was handed out, and the buffer left afterwards. */
  datatype Delivery = Delivery(response: Option<seq<byte>>, rest: seq<byte>)

  /** What handleData does over a run of chunks while an operation waits for n bytes: each chunk
      is appended and the buffer is checked once per chunk; after the hand-out the operation is
      gone and later chunks only accumulate. */
  function Deliver(buffer: seq<byte>, n: nat, chunks: seq<seq<byte>>): Delivery
    decreases |chunks|
  {
    if chunks == [] then Delivery(None, buffer)
    else
      var b := buffer + chunks[0];
      if |b| >= n then Delivery(Some(b[..n]), b[n..] + Concat(chunks[1..]))
      else Deliver(b, n, chunks[1..])
  }

  lemma {:induction false} ConcatCons<T>(s: seq<T>, ss: seq<seq<T>>)
    ensures Concat([s] + ss) == s + Concat(ss)
    decreases |ss|
  {
    if ss == [] {
      assert [s] + ss == [s];
      assert [s][..0] == [];
    } else {
      var init := ss[..|ss| - 1];
      assert ([s] + ss)[..|ss|] == [s] + init;
      ConcatCons(s, init);
    }
  }

  /**
   * The response is exactly the first n bytes of everything buffered and received, and the
   * rest stays buffered; it is handed out iff at least one chunk arrived and the bytes reach
   * n. (Bytes already buffered are not checked until a chunk arrives.)
   */
  lemma {:induction false} DeliverSpec(buffer: seq<byte>, n: nat, chunks: seq<seq<byte>>)
    ensures var stream := buffer + Concat(chunks);
      var d := Deliver(buffer, n, chunks);
      (d.response.Some? <==> chunks != [] && |stream| >= n)
      && (d.response.Some? ==> d.response.value == stream[..n] && d.rest == stream[n..])
      && (d.response.None? ==> d.rest == stream)
    decreases |chunks|
  {
    if chunks != [] {
      var b := buffer + chunks[0];
      ConcatCons(chunks[0], chunks[1..]);
      assert chunks == [chunks[0]] + chunks[1..];
      assert buffer + Concat(chunks) == b + Concat(chunks[1..]);
      if |b| < n {
        DeliverSpec(b, n, chunks[1..]);
      }
    }
  }

  lemma TilesAfterChunk(done: seq<byte>, buffer: seq<byte>, received: seq<byte>, chunk: seq<byte>)
    requires done + buffer == received
    ensures done + (buffer + chunk) == received + chunk
  {
  }

  lemma TilesAfterResponse(done: seq<byte>, buffer: seq<byte>, n: nat)
    requires n <= |buffer|
    ensures done + buffer[..n] + buffer[n..] == done + buffer
  {
    assert buffer[..n] + buffer[n..] == buffer;
  }

  /** Deliver over the chunks from i on takes chunk i first. */
  lemma DeliverStep(buffer: seq<byte>, n: nat, chunks: seq<seq<byte>>, i: nat)
    requires i < |chunks|
    ensures Deliver(buffer, n, chunks[i..])
      == var b := buffer + chunks[i];
         if |b| >= n then Delivery(Some(b[..n]), b[n..] + Concat(chunks[i + 1..])) else Deliver(b, n, chunks[i + 1..])
  {
    assert chunks[i..][0] == chunks[i];
    assert chunks[i..][1..] == chunks[i + 1..];
  }

  lemma ConcatStep(buffer: seq<byte>, chunks: seq<seq<byte>>, i: nat)
    requires i < |chunks|
    ensures buffer + Concat(chunks[i..]) == (buffer + chunks[i]) + Concat(chunks[i + 1..])
  {
    ConcatCons(chunks[i], chunks[i + 1..]);
    assert chunks[i..] == [chunks[i]] + chunks[i + 1..];
  }

  class RadioCommunicator {
    /** The receive buffer. */
    var buffer: seq<byte>
    /** currentOperation: the expectedLength it waits for, if any. */
    var pending: Option<nat>
    /** Every frame written to the port, in order. */
    var written: seq<seq<byte>>
    /** Every byte received, and every response handed out. */
    ghost var received: seq<byte>
    ghost var responses: seq<seq<byte>>

    /** No byte is lost or reordered: the responses and the buffer tile the received stream. */
    ghost predicate Valid()
      reads this
    {
      Concat(responses) + buffer == received
      && (pending.Some? ==> pending.value > 0)
    }

    constructor()
      ensures Valid()
      ensures buffer == [] && pending == None && written == [] && received == [] && responses == []
    {
      buffer := [];
      pending := None;
      written := [];
      received := [];
      responses := [];
    }

    /** handleData together with checkData. */
    method HandleData(chunk: seq<byte>) returns (response: Option<seq<byte>>)
      requires Valid()
      modifies this
      ensures Valid()
      ensures received == old(received) + chunk && written == old(written)
      ensures var b := old(buffer) + chunk;
        if old(pending).Some? && |b| >= old(pending).value then
          var n := old(pending).value;
          response == Some(b[..n]) && buffer == b[n..] && pending == None
          && responses == old(responses) + [b[..n]]
        else
          response == None && buffer == b && pending == old(pending) && responses == old(responses)
    {
      TilesAfterChunk(Concat(responses), buffer, received, chunk);
      buffer := buffer + chunk;
      received := received + chunk;
      response := None;
      if pending.Some? && |buffer| >= pending.value {
        var n := pending.value;
        var r := buffer[..n];
        ConcatSnoc(responses, r);
        TilesAfterResponse(Concat(responses), buffer, n);
        buffer := buffer[n..];
        responses := responses + [r];
        pending := None;
        response := Some(r);
      }
    }

    /** executeCommand with waitForResponse false: the command is written and nothing awaited. */
    method Send(command: seq<byte>)
      requires Valid()
      modifies this
      ensures Valid()
      ensures written == old(written) + [command]
      ensures buffer == old(buffer) && pending == old(pending)
      ensures received == old(received) && responses == old(responses)
    {
      written := written + [command];
    }

    /** executeCommand with a response awaited: a zero expectedLength is refused before anything
        is written; otherwise the operation is registered and the command written. */
    method Request(command: seq<byte>, expectedLength: nat) returns (o: Outcome)
      requires Valid() && pending == None
      modifies this
      ensures Valid()
      ensures buffer == old(buffer) && received == old(received) && responses == old(responses)
      ensures expectedLength == 0 ==> o == Fail(MissingExpectedLength) && written == old(written) && pending == None
      ensures expectedLength > 0 ==> o == Pass && written == old(written) + [command] && pending == Some(expectedLength)
    {
      if expectedLength == 0 {
        return Fail(MissingExpectedLength);
      }
      pending := Some(expectedLength);
      written := written + [command];
      o := Pass;
    }

    /** The timeout timer fires: the operation is dropped, the buffer is left as it is. */
    method TimerFired()
      requires Valid()
      modifies this
      ensures Valid()
      ensures pending == None
      ensures buffer == old(buffer) && written == old(written)
      ensures received == old(received) && responses == old(responses)
    {
      pending := None;
    }

    /** Where an awaited exchange stands after the first i chunks: still waiting, with the rest
        of the delivery ahead, or answered, with the rest of the stream buffered. */
    ghost predicate Receiving(start: seq<byte>, n: nat, chunks: seq<seq<byte>>, i: nat, response: Option<seq<byte>>)
      requires i <= |chunks|
      reads this
    {
      (pending.Some? ==> (pending == Some(n) && response.None?
        && Deliver(start, n, chunks) == Deliver(buffer, n, chunks[i..])
        && (i == 0 ==> buffer == start)))
      && (pending.None? ==> (response.Some?
        && Deliver(start, n, chunks) == Delivery(response, buffer + Concat(chunks[i..]))))
    }

    /** One chunk of an awaited exchange handed to handleData. */
    method ReceiveChunk(n: nat, chunks: seq<seq<byte>>, i: nat, ghost start: seq<byte>, response: Option<seq<byte>>)
      returns (next: Option<seq<byte>>)
      requires Valid() && i < |chunks| && Receiving(start, n, chunks, i, response)
      modifies this
      ensures Valid() && written == old(written) && Receiving(start, n, chunks, i + 1, next)
    {
      DeliverStep(buffer, n, chunks, i);
      ConcatStep(buffer, chunks, i);
      if pending.Some? {
        next := HandleData(chunks[i]);
      } else {
        var _ := HandleData(chunks[i]);
        next := response;
      }
    }

    /**
     * One awaited command: the request, then the chunks that arrive before the timer fires.
     * The result is the first expectedLength bytes of the buffered and received stream when a
     * chunk brought it to that length, and a timeout otherwise.
     */
    method Exchange(command: seq<byte>, expectedLength: nat, chunks: seq<seq<byte>>) returns (r: Result<seq<byte>>)
      requires Valid() && pending == None
      modifies this
      ensures Valid() && pending == None
      ensures var stream := old(buffer) + Concat(chunks);
        if expectedLength == 0 then
          r == Err(MissingExpectedLength) && written == old(written) && buffer == old(buffer)
        else
          written == old(written) + [command]
          && (if chunks != [] && |stream| >= expectedLength
              then r == Ok(stream[..expectedLength]) && buffer == stream[expectedLength..]
              else r == Err(Timeout) && buffer == stream)
    {
      var o := Request(command, expectedLength);
      if o.Fail? {
        return Err(o.error);
      }
      DeliverSpec(old(buffer), expectedLength, chunks);
      ghost var start := buffer;
      var response: Option<seq<byte>> := None;
      var i := 0;
      while i < |chunks|
        invariant 0 <= i <= |chunks|
        invariant Valid() && written == old(written) + [command]
        invariant Receiving(start, expectedLength, chunks, i, response)
      {
        response := ReceiveChunk(expectedLength, chunks, i, start, response);
        i := i + 1;
      }
      assert chunks[i..] == [];
      if pending.Some? {
        TimerFired();
        return Err(Timeout);
      }
      r := Ok(response.value);
    }

    /** readBlock: request [0x30, n], await 34 bytes, then check the header and checksum. */
    method ReadBlock(n: byte, chunks: seq<seq<byte>>) returns (r: Result<seq<byte>>)
      requires Valid() && pending == None
      modifies this
      ensures Valid() && pending == None
      ensures written == old(written) + [ReadRequest(n)]
      ensures var stream := old(buffer) + Concat(chunks);
        if chunks != [] && |stream| >= READ_REPLY_LENGTH
        then r == CheckReadReply(stream[..READ_REPLY_LENGTH]) && buffer == stream[READ_REPLY_LENGTH..]
        else r == Err(Timeout) && buffer == stream
      ensures r.Ok? ==> |r.value| == BLOCK_SIZE
    {
      var reply := Exchange(ReadRequest(n), READ_REPLY_LENGTH, chunks);
      if reply.Err? {
        return reply;
      }
      r := CheckReadReply(reply.value);
    }

    /**
     * writeBlock: data of any length but 32 is refused before anything is written. Otherwise
     * 0x45 is sent awaiting one byte, then [0x31, n] with nothing awaited, then the data and
     * its checksum awaiting one byte. The reply bytes are never looked at: the write succeeds
     * as soon as both replies arrived, whatever their value.
     */
    method WriteBlock(n: byte, data: seq<byte>, enterChunks: seq<seq<byte>>, dataChunks: seq<seq<byte>>)
      returns (o: Outcome)
      requires Valid() && pending == None
      modifies this
      ensures Valid() && pending == None
      ensures |data| != BLOCK_SIZE ==> o == Fail(BadLength) && written == old(written) && buffer == old(buffer)
      ensures |data| == BLOCK_SIZE ==>
        var s1 := old(buffer) + Concat(enterChunks);
        if !(enterChunks != [] && |s1| >= 1) then
          o == Fail(Timeout) && written == old(written) + [[ENTER]] && buffer == s1
        else
          var s2 := s1[1..] + Concat(dataChunks);
          written == old(written) + [[ENTER], WriteHeader(n), WritePayload(data)]
          && (if dataChunks != [] && |s2| >= 1 then o == Pass && buffer == s2[1..]
              else o == Fail(Timeout) && buffer == s2)
    {
      if |data| != BLOCK_SIZE {
        return Fail(BadLength);
      }
      ghost var w0 := written;
      ghost var s1 := buffer + Concat(enterChunks);
      var ack := Exchange([ENTER], 1, enterChunks);
      if ack.Err? {
        assert ack.error == Timeout && buffer == s1;
        return Fail(ack.error);
      }
      assert enterChunks != [] && |s1| >= 1 && buffer == s1[1..];
      o := SendBlock(n, data, dataChunks);
      assert w0 + [[ENTER]] + [WriteHeader(n), WritePayload(data)] == w0 + [[ENTER], WriteHeader(n), WritePayload(data)];
    }

    /** The rest of writeBlock once 0x45 was answered: the header, then the data and its
        checksum awaiting one byte. */
    method SendBlock(n: byte, data: seq<byte>, dataChunks: seq<seq<byte>>) returns (o: Outcome)
      requires Valid() && pending == None && |data| == BLOCK_SIZE
      modifies this
      ensures Valid() && pending == None
      ensures var s2 := old(buffer) + Concat(dataChunks);
        written == old(written) + [WriteHeader(n), WritePayload(data)]
        && (if dataChunks != [] && |s2| >= 1 then o == Pass && buffer == s2[1..]
            else o == Fail(Timeout) && buffer == s2)
    {
      Send(WriteHeader(n));
      var done := Exchange(WritePayload(data), 1, dataChunks);
      if done.Err? {
        return Fail(done.error);
      }
      o := Pass;
    }

    /** initialize: 0x45, awaiting one byte. */
    method Initialize(chunks: seq<seq<byte>>) returns (r: Result<seq<byte>>)
      requires Valid() && pending == None
      modifies this
      ensures Valid() && pending == None
      ensures written == old(written) + [[ENTER]]
      ensures var stream := old(buffer) + Concat(chunks);
        if chunks != [] && |stream| >= 1 then r == Ok(stream[..1]) && buffer == stream[1..]
        else r == Err(Timeout) && buffer == stream
    {
      r := Exchange([ENTER], 1, chunks);
    }

    /** restart: 0x49, nothing awaited. */
    method Restart()
      requires Valid() && pending == None
      modifies this
      ensures Valid() && pending == None
      ensures written == old(written) + [[RESTART]] && buffer == old(buffer)
    {
      Send([RESTART]);
    }
  }

  /** A fresh communicator whose device answers a read with the well-formed reply for data
      returns exactly that data. */
  method ReadBlockExample(data: seq<byte>) returns (r: Result<seq<byte>>)
    requires |data| == BLOCK_SIZE
    ensures r == Ok(data)
  {
    var c := new RadioCommunicator();
    var reply := ReadReply(data);
    ghost var one: seq<seq<byte>> := [reply];
    assert Concat(one) == reply by {
      assert one[..0] == [];
    }
    assert [] + Concat([reply]) == reply;
    assert reply[..READ_REPLY_LENGTH] == reply;
    r := c.ReadBlock(7, [reply]);
    ReadReplyAccepted(data, reply);
  }
}

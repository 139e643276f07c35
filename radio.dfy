/**
 * The radio seen from the bulk operations (src/radio/codeplug.js,
 * src/radio/group-labels.js, src/main/codeplugService.ts): a device holding
 * 256 blocks of 32 bytes that answers the protocol's frames, and a trace of
 * everything sent to it. Which blocks cannot be read and which block writes
 * the device refuses are fixed when the device is made. This device always
 * answers: every acknowledgement the code awaits arrives in time, so no command
 * or block write here ends in the executeCommand timeout. Timeouts are modelled
 * by Transport.RadioCommunicator only.
 */
module Radio {
  import opened Wrappers
  import opened Bytes
  import opened Protocol

  /** What happened on the link: a connect, a close, a bare `port.open()` (as writeCodeplug
      does when the port is not available), or one frame written. */
  datatype Event = Connected | Closed | Opened | Sent(frame: seq<byte>)

  /** The one-byte reply to a write payload the device did not store. */
  const NAK: byte := 0

  /** One call of writeBlock(block, data). */
  datatype Write = Write(block: byte, data: seq<byte>)

  predicate WellFormed(ws: seq<Write>)
  {
    forall k :: 0 <= k < |ws| ==> |ws[k].data| == BLOCK_SIZE
  }

  /** The image after the writes, in order, leaving alone the blocks in skip. */
  function Apply(image: seq<byte>, ws: seq<Write>, skip: set<int>): (r: seq<byte>)
    requires IsImage(image) && WellFormed(ws)
    ensures IsImage(r)
    decreases |ws|
  {
    if ws == [] then image
    else
      var w := ws[|ws| - 1];
      var before := Apply(image, ws[..|ws| - 1], skip);
      if w.block in skip then before else SetBlock(before, w.block, w.data)
  }

  /** The index of the last write in ws to block b, or -1 when there is none. */
  function LastTo(ws: seq<Write>, b: int): (i: int)
    ensures -1 <= i < |ws|
    ensures i >= 0 ==> ws[i].block == b
    ensures forall j :: i < j < |ws| ==> ws[j].block != b
    decreases |ws|
  {
    if ws == [] then -1
    else if ws[|ws| - 1].block == b then |ws| - 1
    else LastTo(ws[..|ws| - 1], b)
  }

  /** The last write to b is write k when no later write goes to b. */
  lemma LastToIs(ws: seq<Write>, b: int, k: nat)
    requires k < |ws| && ws[k].block == b
    requires forall j :: k < j < |ws| ==> ws[j].block != b
    ensures LastTo(ws, b) == k
  {
    var i := LastTo(ws, b);
    assert k <= i;
  }

  /** With no write to b there is no last one. */
  lemma LastToNone(ws: seq<Write>, b: int)
    requires forall j :: 0 <= j < |ws| ==> ws[j].block != b
    ensures LastTo(ws, b) == -1
  {
  }

  /** Block b after the writes holds the data of the last write to it, and what it held before
      when nothing was written to it or the device skips it. */
  lemma {:induction false} ApplyBlock(image: seq<byte>, ws: seq<Write>, skip: set<int>, b: nat)
    requires IsImage(image) && WellFormed(ws) && b < BLOCK_COUNT
    ensures Block(Apply(image, ws, skip), b)
      == if b in skip || LastTo(ws, b) < 0 then Block(image, b) else ws[LastTo(ws, b)].data
    decreases |ws|
  {
    if ws != [] {
      var w, init := ws[|ws| - 1], ws[..|ws| - 1];
      assert WellFormed(init) by {
        forall k | 0 <= k < |init|
          ensures |init[k].data| == BLOCK_SIZE
        {
          assert init[k] == ws[k];
        }
      }
      ApplyBlock(image, init, skip, b);
      if w.block !in skip && w.block != b {
        SetBlockOther(Apply(image, init, skip), w.block, w.data, b);
      }
    }
  }

  /** The frames writeBlock sends for each write: [0x45], [0x31, n], data ++ checksum. */
  function WriteBlockTrace(ws: seq<Write>): (t: seq<Event>)
    ensures |t| == 3 * |ws|
    decreases |ws|
  {
    if ws == [] then []
    else
      var w := ws[|ws| - 1];
      WriteBlockTrace(ws[..|ws| - 1]) + [Sent([ENTER]), Sent(WriteHeader(w.block)), Sent(WritePayload(w.data))]
  }

  /** The first block in [lo, hi) that is in s, or hi when there is none. */
  function FirstIn(s: set<int>, lo: nat, hi: nat): (f: nat)
    requires lo <= hi
    ensures lo <= f <= hi
    ensures forall j :: lo <= j < f ==> j !in s
    ensures f < hi ==> f in s
    decreases hi - lo
  {
    if lo == hi || lo in s then lo else FirstIn(s, lo + 1, hi)
  }

  /** A block before the first one in s that is not in s itself is not the first one either. */
  lemma FirstInPast(s: set<int>, lo: nat, hi: nat, j: nat)
    requires lo <= j < hi && j <= FirstIn(s, lo, hi) && j !in s
    ensures j + 1 <= FirstIn(s, lo, hi)
  {
  }

  lemma FirstInHere(s: set<int>, lo: nat, hi: nat, j: nat)
    requires lo <= j < hi && j <= FirstIn(s, lo, hi) && j in s
    ensures j == FirstIn(s, lo, hi)
  {
  }

  lemma TraceSnoc3(t: seq<Event>, e0: Event, e1: Event, e2: Event)
    ensures t + [e0] + [e1] + [e2] == t + [e0, e1, e2]
  {
  }

  /** Events appended one at a time after a run u are that run's extension. */
  lemma AppendAfter(t: seq<Event>, u: seq<Event>, e: Event)
    ensures t + u + [e] == t + (u + [e])
  {
  }

  lemma AppendAfter2(t: seq<Event>, u: seq<Event>, e0: Event, e1: Event)
    ensures t + u + [e0] + [e1] == t + (u + [e0, e1])
  {
  }

  /** The read requests for blocks lo..hi-1, in order. */
  function ReadTrace(lo: nat, hi: nat): (t: seq<Event>)
    requires lo <= hi <= BLOCK_COUNT
    ensures |t| == hi - lo
    decreases hi - lo
  {
    if hi == lo then [] else ReadTrace(lo, hi - 1) + [Sent(ReadRequest(hi - 1))]
  }

  lemma ApplySnoc(image: seq<byte>, ws: seq<Write>, w: Write, skip: set<int>)
    requires IsImage(image) && WellFormed(ws) && |w.data| == BLOCK_SIZE
    ensures WellFormed(ws + [w])
    ensures Apply(image, ws + [w], skip)
      == if w.block in skip then Apply(image, ws, skip) else SetBlock(Apply(image, ws, skip), w.block, w.data)
  {
    assert (ws + [w])[..|ws|] == ws;
  }

  lemma WriteBlockTraceSnoc(ws: seq<Write>, w: Write)
    ensures WriteBlockTrace(ws + [w])
      == WriteBlockTrace(ws) + [Sent([ENTER]), Sent(WriteHeader(w.block)), Sent(WritePayload(w.data))]
  {
    assert (ws + [w])[..|ws|] == ws;
  }

  /** Writes applied in two runs land as if applied in one. */
  lemma {:induction false} ApplyAppend(image: seq<byte>, a: seq<Write>, b: seq<Write>, skip: set<int>)
    requires IsImage(image) && WellFormed(a) && WellFormed(b)
    ensures WellFormed(a + b)
    ensures Apply(image, a + b, skip) == Apply(Apply(image, a, skip), b, skip)
    decreases |b|
  {
    assert WellFormed(a + b) by {
      forall k | 0 <= k < |a + b|
        ensures |(a + b)[k].data| == BLOCK_SIZE
      {
        if k >= |a| {
          assert (a + b)[k] == b[k - |a|];
        }
      }
    }
    if b == [] {
      assert a + b == a;
    } else {
      var b' := b[..|b| - 1];
      assert (a + b)[..|a + b| - 1] == a + b';
      assert (a + b)[|a + b| - 1] == b[|b| - 1];
      ApplyAppend(image, a, b', skip);
    }
  }

  lemma {:induction false} WriteBlockTraceAppend(a: seq<Write>, b: seq<Write>)
    ensures WriteBlockTrace(a + b) == WriteBlockTrace(a) + WriteBlockTrace(b)
    decreases |b|
  {
    if b == [] {
      assert a + b == a;
    } else {
      var b' := b[..|b| - 1];
      assert (a + b)[..|a + b| - 1] == a + b';
      assert (a + b)[|a + b| - 1] == b[|b| - 1];
      WriteBlockTraceAppend(a, b');
    }
  }

  /** After the writes ws, from a device memory and a trace: the device has those outside skip,
      and the trace one WriteBlockTrace more. */
  ghost predicate Transmitted(memory0: seq<byte>, trace0: seq<Event>, skip: set<int>,
                              ws: seq<Write>, memory: seq<byte>, trace: seq<Event>)
  {
    IsImage(memory0) && WellFormed(ws) && memory == Apply(memory0, ws, skip)
    && trace == trace0 + WriteBlockTrace(ws)
  }

  /** One more write keeps it. */
  lemma TransmittedSnoc(memory0: seq<byte>, trace0: seq<Event>, skip: set<int>,
                        ws: seq<Write>, memory: seq<byte>, trace: seq<Event>, w: Write)
    requires Transmitted(memory0, trace0, skip, ws, memory, trace) && |w.data| == BLOCK_SIZE
    ensures IsImage(memory) && WellFormed([w])
    ensures Transmitted(memory0, trace0, skip, ws + [w], Apply(memory, [w], skip), trace + WriteBlockTrace([w]))
  {
    ApplyAppend(memory0, ws, [w], skip);
    WriteBlockTraceAppend(ws, [w]);
  }

  /** After the writes ws, from a codeplug image, a device memory and a trace: the image has
      them all, the device those outside skip, and the trace one WriteBlockTrace more. */
  ghost predicate Replayed(image0: seq<byte>, memory0: seq<byte>, trace0: seq<Event>, skip: set<int>,
                           ws: seq<Write>, image: seq<byte>, memory: seq<byte>, trace: seq<Event>)
  {
    IsImage(image0) && IsImage(memory0) && WellFormed(ws)
    && image == Apply(image0, ws, {}) && memory == Apply(memory0, ws, skip)
    && trace == trace0 + WriteBlockTrace(ws)
  }

  /** One more write, stored in both places, keeps the replay. */
  lemma ReplayedSnoc(image0: seq<byte>, memory0: seq<byte>, trace0: seq<Event>, skip: set<int>,
                     ws: seq<Write>, image: seq<byte>, memory: seq<byte>, trace: seq<Event>, w: Write)
    requires Replayed(image0, memory0, trace0, skip, ws, image, memory, trace) && |w.data| == BLOCK_SIZE
    ensures IsImage(image) && IsImage(memory) && WellFormed([w])
    ensures Replayed(image0, memory0, trace0, skip, ws + [w], Apply(image, [w], {}), Apply(memory, [w], skip),
                     trace + WriteBlockTrace([w]))
  {
    ApplyAppend(image0, ws, [w], {});
    ApplyAppend(memory0, ws, [w], skip);
    WriteBlockTraceAppend(ws, [w]);
  }

  /** The two flags of a RadioCommunicator: its isOpen field, and whether its serial port is open. */
  datatype PortState = PortState(isOpen: bool, portOpen: bool)

  /** connect() opens the port only while isOpen is unset, and then sets it; close() closes the
      port and leaves isOpen as it is; port.open() opens the port and leaves isOpen as it is;
      frames change neither. */
  function AfterEvent(s: PortState, e: Event): PortState
  {
    match e
    case Connected => if s.isOpen then s else PortState(true, true)
    case Closed => PortState(s.isOpen, false)
    case Opened => PortState(s.isOpen, true)
    case Sent(_) => s
  }

  /** The flags after the events, from a communicator just made (both unset). */
  function PortAfter(events: seq<Event>): PortState
    decreases |events|
  {
    if events == [] then PortState(false, false)
    else AfterEvent(PortAfter(events[..|events| - 1]), events[|events| - 1])
  }

  /** Once isOpen is set it stays set, and from then on only a bare port.open() opens the
      port again: after a close, later connects leave it closed. */
  lemma {:induction false} OpenFlagSticks(t: seq<Event>, u: seq<Event>)
    requires PortAfter(t).isOpen
    ensures PortAfter(t + u).isOpen
    ensures PortAfter(t + u).portOpen ==> PortAfter(t).portOpen || Opened in u
    decreases |u|
  {
    if u == [] {
      assert t + u == t;
    } else {
      var v := u[..|u| - 1];
      assert (t + u)[..|t + u| - 1] == t + v;
      OpenFlagSticks(t, v);
    }
  }

  /** Frames written to the link change neither flag. */
  lemma {:induction false} FramesKeepPort(t: seq<Event>, u: seq<Event>)
    requires forall i :: 0 <= i < |u| ==> u[i].Sent?
    ensures PortAfter(t + u) == PortAfter(t)
    decreases |u|
  {
    if u == [] {
      assert t + u == t;
    } else {
      var v := u[..|u| - 1];
      assert (t + u)[..|t + u| - 1] == t + v;
      FramesKeepPort(t, v);
    }
  }

  /** So a second session on the same communicator, connect then a command, finds
      the port the first session's close left closed. */
  lemma SecondSessionPortClosed(first: seq<Event>, frame: seq<byte>)
    ensures !PortAfter([Connected] + first + [Closed, Connected, Sent(frame)]).portOpen
  {
    var t := [Connected] + first + [Closed];
    assert PortAfter([Connected]).isOpen;
    OpenFlagSticks([Connected], first + [Closed]);
    assert [Connected] + (first + [Closed]) == t;
    assert t[..|t| - 1] == [Connected] + first;
    assert !PortAfter(t).portOpen;
    OpenFlagSticks(t, [Connected, Sent(frame)]);
    assert t + [Connected, Sent(frame)] == [Connected] + first + [Closed, Connected, Sent(frame)];
  }

  class Radio {
    /** The device's 256 blocks. */
    var memory: seq<byte>
    /** Blocks whose read fails. */
    const unreadable: set<int>
    /** Blocks whose write payload the device answers with NAK, storing nothing. */
    const refused: set<int>
    /** The block named by the last [0x31, n] header not yet followed by its payload. */
    var armed: Option<byte>
    var trace: seq<Event>

    ghost predicate Valid()
      reads this
    {
      IsImage(memory)
    }

    constructor(memory0: seq<byte>, unreadable0: set<int>, refused0: set<int>)
      requires IsImage(memory0)
      ensures Valid()
      ensures memory == memory0 && unreadable == unreadable0 && refused == refused0
      ensures armed == None && trace == []
    {
      memory := memory0;
      unreadable := unreadable0;
      refused := refused0;
      armed := None;
      trace := [];
    }

    /** The port's flags after the events sent so far. */
    function Port(): PortState
      reads this
    {
      PortAfter(trace)
    }

    method Connect()
      requires Valid()
      modifies this
      ensures Valid() && memory == old(memory) && armed == old(armed)
      ensures trace == old(trace) + [Connected]
      ensures Port().isOpen && Port().portOpen == (old(Port().portOpen) || !old(Port().isOpen))
    {
      trace := trace + [Connected];
    }

    method Close()
      requires Valid()
      modifies this
      ensures Valid() && memory == old(memory) && armed == old(armed)
      ensures trace == old(trace) + [Closed]
      ensures !Port().portOpen && Port().isOpen == old(Port().isOpen)
    {
      trace := trace + [Closed];
    }

    /** port.open() on the communicator's port, without connect(): the port opens and isOpen
        is left as it is. */
    method Open()
      requires Valid()
      modifies this
      ensures Valid() && memory == old(memory) && armed == old(armed)
      ensures trace == old(trace) + [Opened]
      ensures Port().portOpen && Port().isOpen == old(Port().isOpen)
    {
      trace := trace + [Opened];
    }

    /** A one-byte command (0x45, 0x46, 0x49): the device only acknowledges it. */
    method Command(op: byte)
      requires Valid()
      modifies this
      ensures Valid() && memory == old(memory) && armed == old(armed)
      ensures trace == old(trace) + [Sent([op])]
    {
      trace := trace + [Sent([op])];
    }

    /** readBlock(n): the block's 32 bytes, or a failure for an unreadable block. */
    method ReadBlock(n: byte) returns (r: Result<seq<byte>>)
      requires Valid()
      modifies this
      ensures Valid() && memory == old(memory) && armed == old(armed)
      ensures trace == old(trace) + [Sent(ReadRequest(n))]
      ensures r == if n in unreadable then Err(ReadFailed(n)) else Ok(Block(memory, n))
    {
      trace := trace + [Sent(ReadRequest(n))];
      if n in unreadable {
        r := Err(ReadFailed(n));
      } else {
        r := Ok(Block(memory, n));
      }
    }

    /** The header [0x31, n] of a block write; no reply. */
    method SendWriteHeader(n: byte)
      requires Valid()
      modifies this
      ensures Valid() && memory == old(memory) && armed == Some(n)
      ensures trace == old(trace) + [Sent(WriteHeader(n))]
    {
      trace := trace + [Sent(WriteHeader(n))];
      armed := Some(n);
    }

    /**
     * The payload data ++ checksum of a block write: stored in the block of the header before
     * it and acknowledged with 0x31, unless there was no header or the block is refused.
     */
    method SendWritePayload(data: seq<byte>) returns (ack: byte)
      requires Valid() && |data| == BLOCK_SIZE
      modifies this
      ensures Valid() && armed == None
      ensures trace == old(trace) + [Sent(WritePayload(data))]
      ensures if old(armed).Some? && old(armed).value !in refused
        then ack == WRITE_BLOCK && memory == SetBlock(old(memory), old(armed).value, data)
        else ack == NAK && memory == old(memory)
    {
      trace := trace + [Sent(WritePayload(data))];
      if armed.Some? && armed.value !in refused {
        memory := SetBlock(memory, armed.value, data);
        ack := WRITE_BLOCK;
      } else {
        ack := NAK;
      }
      armed := None;
    }

    /**
     * RadioCommunicator.writeBlock: data of any length but 32 is refused before anything is
     * sent; otherwise 0x45, the header and the payload go out and the reply is ignored.
     */
    method WriteBlock(n: byte, data: seq<byte>) returns (o: Outcome)
      requires Valid()
      modifies this
      ensures Valid()
      ensures |data| != BLOCK_SIZE ==> (o == Fail(BadLength) && trace == old(trace)
        && memory == old(memory) && armed == old(armed))
      ensures |data| == BLOCK_SIZE ==> (o == Pass && armed == None
        && trace == old(trace) + WriteBlockTrace([Write(n, data)])
        && memory == Apply(old(memory), [Write(n, data)], refused))
    {
      if |data| != BLOCK_SIZE {
        return Fail(BadLength);
      }
      ApplySnoc(memory, [], Write(n, data), refused);
      WriteBlockTraceSnoc([], Write(n, data));
      Command(ENTER);
      SendWriteHeader(n);
      var _ := SendWritePayload(data);
      o := Pass;
    }
  }

  /**
   * Blocks lo..hi-1 read in order, as the region readers do; the first unreadable block
   * ends the reads with its failure.
   */
  method ReadBlocks(radio: Radio, lo: nat, hi: nat) returns (r: Result<seq<seq<byte>>>)
    requires radio.Valid() && lo <= hi <= BLOCK_COUNT
    modifies radio
    ensures radio.Valid() && radio.memory == old(radio.memory) && radio.armed == old(radio.armed)
    ensures var f := FirstIn(radio.unreadable, lo, hi);
      if f == hi then
        r.Ok? && |r.value| == hi - lo && (forall k :: 0 <= k < hi - lo ==> r.value[k] == Block(radio.memory, lo + k))
        && radio.trace == old(radio.trace) + ReadTrace(lo, hi)
      else
        r == Err(ReadFailed(f)) && radio.trace == old(radio.trace) + ReadTrace(lo, f + 1)
  {
    ghost var t0 := radio.trace;
    var blocks: seq<seq<byte>> := [];
    var n := lo;
    while n < hi
      invariant lo <= n <= FirstIn(radio.unreadable, lo, hi)
      invariant radio.Valid() && radio.memory == old(radio.memory) && radio.armed == old(radio.armed)
      invariant radio.trace == t0 + ReadTrace(lo, n)
      invariant |blocks| == n - lo && forall k :: 0 <= k < n - lo ==> blocks[k] == Block(radio.memory, lo + k)
    {
      var b := radio.ReadBlock(n);
      assert radio.trace == t0 + ReadTrace(lo, n + 1);
      if b.Err? {
        FirstInHere(radio.unreadable, lo, hi, n);
        return Err(b.error);
      }
      FirstInPast(radio.unreadable, lo, hi, n);
      ghost var before := blocks;
      blocks := blocks + [b.value];
      assert forall k :: 0 <= k < n - lo ==> blocks[k] == before[k];
      n := n + 1;
    }
    assert n == FirstIn(radio.unreadable, lo, hi);
    r := Ok(blocks);
  }
}

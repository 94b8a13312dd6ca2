/**
 * The paced writer: `ConnectedThread.write` sleeps once, then copies the
 * buffer through a `ByteArrayInputStream` into a `BufferLen`-byte scratch
 * array and writes each piece to the socket's output stream, sleeping after
 * every piece so the printer is never sent more than it can print.
 */
module Writer {
  import opened Types
  import opened Events

  /** The pieces successive `read(smallbuffer)` calls hand out for `buffer`, in order. */
  function Chunks(buffer: seq<Byte>): seq<seq<Byte>>
    decreases |buffer|
  {
    if buffer == [] then []
    else if |buffer| <= BufferLen then [buffer]
    else [buffer[..BufferLen]] + Chunks(buffer[BufferLen..])
  }

  function Flatten(cs: seq<seq<Byte>>): seq<Byte>
  {
    if cs == [] then [] else cs[0] + Flatten(cs[1..])
  }

  /** What is left of a write budget after one chunk write went through. */
  function Next(failAt: Option<nat>): Option<nat>
  {
    match failAt
    case None => None
    case Some(k) => Some(if k > 0 then k - 1 else 0)
  }

  /**
   * Events of the chunk loop over `cs`. `hasOutput` is false when the
   * output stream is null; `failAt` is the index, among this loop's chunk
   * writes, of the one that throws (`None`: none does). The exception ends
   * the loop and is reported once.
   */
  function ChunkLoop(cs: seq<seq<Byte>>, hasOutput: bool, failAt: Option<nat>): seq<Event>
  {
    if cs == [] then []
    else if !hasOutput then [Error(NullPointer)]
    else if failAt == Some(0) then [Error(WriteFailed)]
    else [Write(cs[0]), Sleep(PrintDelay)] + ChunkLoop(cs[1..], hasOutput, Next(failAt))
  }

  /** Everything `ConnectedThread.write(buffer)` does, in order. */
  function PacedWrite(buffer: seq<Byte>, hasOutput: bool, failAt: Option<nat>): seq<Event>
  {
    [Sleep(PrintDelay)] + ChunkLoop(Chunks(buffer), hasOutput, failAt)
  }

  /** How many of `count` chunk writes go through before one throws. */
  function Accepted(count: nat, hasOutput: bool, failAt: Option<nat>): (n: nat)
  {
    if !hasOutput then 0
    else match failAt
      case None => count
      case Some(k) => if k < count then k else count
  }

  // ---- the shape of the chunks ----

  /** The chunks put back together give the buffer. */
  lemma {:induction false} ChunksFlatten(buffer: seq<Byte>)
    ensures Flatten(Chunks(buffer)) == buffer
    decreases |buffer|
  {
    if |buffer| > BufferLen {
      ChunksFlatten(buffer[BufferLen..]);
      assert buffer[..BufferLen] + buffer[BufferLen..] == buffer;
    }
  }

  /** A buffer of length L is cut into ceil(L / BufferLen) chunks. */
  lemma {:induction false} ChunksCount(buffer: seq<Byte>)
    ensures |Chunks(buffer)| == (|buffer| + BufferLen - 1) / BufferLen
    decreases |buffer|
  {
    var n := |buffer|;
    assert BufferLen == 960;
    if n > BufferLen {
      ChunksCount(buffer[BufferLen..]);
      assert (n - 960 + 959) / 960 + 1 == (n + 959) / 960;
    } else if n > 0 {
      assert (n + 959) / 960 == 1;
    }
  }

  /** Every chunk but the last is exactly BufferLen bytes; the last holds 1..BufferLen bytes. */
  lemma {:induction false} ChunksSizes(buffer: seq<Byte>)
    ensures var cs := Chunks(buffer);
      (forall i :: 0 <= i < |cs| - 1 ==> |cs[i]| == BufferLen) &&
      (|cs| > 0 ==> 1 <= |cs[|cs| - 1]| <= BufferLen)
    decreases |buffer|
  {
    if |buffer| > BufferLen {
      var rest := buffer[BufferLen..];
      ChunksSizes(rest);
      var cs, tail := Chunks(buffer), Chunks(rest);
      assert cs == [buffer[..BufferLen]] + tail;
      assert |tail| > 0;
      forall i | 0 <= i < |cs| - 1
        ensures |cs[i]| == BufferLen
      {
        if i > 0 {
          assert cs[i] == tail[i - 1];
        }
      }
    }
  }

  /** The figure from the design: a 1000-byte buffer goes out as 960 bytes and then 40. */
  lemma ChunksOfThousand(buffer: seq<Byte>)
    requires |buffer| == 1000
    ensures Chunks(buffer) == [buffer[..960], buffer[960..]]
  {
    assert Chunks(buffer[960..]) == [buffer[960..]];
  }

  // ---- what the stream receives ----

  /** The loop writes, in order, exactly the chunks before the first write that throws. */
  lemma {:induction false} ChunkLoopWrites(cs: seq<seq<Byte>>, hasOutput: bool, failAt: Option<nat>)
    ensures Writes(ChunkLoop(cs, hasOutput, failAt)) == cs[..Accepted(|cs|, hasOutput, failAt)]
  {
    if cs != [] && hasOutput && failAt != Some(0) {
      var head := [Write(cs[0]), Sleep(PrintDelay)];
      var rest := ChunkLoop(cs[1..], hasOutput, Next(failAt));
      ChunkLoopWrites(cs[1..], hasOutput, Next(failAt));
      WritesAppend(head, rest);
      assert Writes(head) == [cs[0]];
      var n := Accepted(|cs|, hasOutput, failAt);
      assert Accepted(|cs| - 1, hasOutput, Next(failAt)) == n - 1;
      CutFirst(cs, n);
    }
  }

  lemma CutFirst(cs: seq<seq<Byte>>, n: nat)
    requires 0 < n <= |cs|
    ensures cs[..n] == [cs[0]] + cs[1..][..n - 1]
  {
  }

  /** The loop reports one error exactly when some chunk was not written. */
  lemma {:induction false} ChunkLoopErrors(cs: seq<seq<Byte>>, hasOutput: bool, failAt: Option<nat>)
    ensures Errors(ChunkLoop(cs, hasOutput, failAt)) ==
      if Accepted(|cs|, hasOutput, failAt) == |cs| then []
      else if hasOutput then [WriteFailed] else [NullPointer]
  {
    if cs != [] && hasOutput && failAt != Some(0) {
      var head := [Write(cs[0]), Sleep(PrintDelay)];
      var rest := ChunkLoop(cs[1..], hasOutput, Next(failAt));
      ChunkLoopErrors(cs[1..], hasOutput, Next(failAt));
      ErrorsAppend(head, rest);
      assert Errors(head) == [];
      assert Accepted(|cs| - 1, hasOutput, Next(failAt)) == Accepted(|cs|, hasOutput, failAt) - 1;
    }
  }

  /**
   * The loop writes, in order, exactly the chunks before the first write
   * that throws, and reports at most one error: the one that stopped it.
   */
  lemma ChunkLoopOutcome(cs: seq<seq<Byte>>, hasOutput: bool, failAt: Option<nat>)
    ensures var n := Accepted(|cs|, hasOutput, failAt);
      Writes(ChunkLoop(cs, hasOutput, failAt)) == cs[..n] &&
      Errors(ChunkLoop(cs, hasOutput, failAt)) ==
        (if n == |cs| then [] else if hasOutput then [WriteFailed] else [NullPointer])
  {
    ChunkLoopWrites(cs, hasOutput, failAt);
    ChunkLoopErrors(cs, hasOutput, failAt);
  }

  /** With a working stream, the whole buffer reaches it, in order, in ceil(L / BufferLen) writes, and no error is reported. */
  lemma PacedWriteDelivers(buffer: seq<Byte>)
    ensures Writes(PacedWrite(buffer, true, None)) == Chunks(buffer)
    ensures Flatten(Writes(PacedWrite(buffer, true, None))) == buffer
    ensures |Writes(PacedWrite(buffer, true, None))| == (|buffer| + BufferLen - 1) / BufferLen
    ensures Errors(PacedWrite(buffer, true, None)) == []
  {
    var loop := ChunkLoop(Chunks(buffer), true, None);
    ChunkLoopOutcome(Chunks(buffer), true, None);
    WritesAppend([Sleep(PrintDelay)], loop);
    ErrorsAppend([Sleep(PrintDelay)], loop);
    ChunksFlatten(buffer);
    ChunksCount(buffer);
  }

  /**
   * When the write of chunk `k` throws, chunks 0..k-1 stay written, nothing
   * after them is written, and exactly one error is reported if there was
   * such a chunk.
   */
  lemma PacedWriteFails(buffer: seq<Byte>, k: nat)
    ensures var e := PacedWrite(buffer, true, Some(k));
      var cs := Chunks(buffer);
      (k < |cs| ==> Writes(e) == cs[..k] && Errors(e) == [WriteFailed]) &&
      (k >= |cs| ==> Writes(e) == cs && Errors(e) == [])
  {
    var loop := ChunkLoop(Chunks(buffer), true, Some(k));
    ChunkLoopOutcome(Chunks(buffer), true, Some(k));
    WritesAppend([Sleep(PrintDelay)], loop);
    ErrorsAppend([Sleep(PrintDelay)], loop);
  }

  /** An empty buffer costs one pacing sleep and nothing else: no write, no error. */
  lemma PacedWriteEmpty(hasOutput: bool, failAt: Option<nat>)
    ensures PacedWrite([], hasOutput, failAt) == [Sleep(PrintDelay)]
    ensures Writes(PacedWrite([], hasOutput, failAt)) == []
    ensures Errors(PacedWrite([], hasOutput, failAt)) == []
  {
  }

  /** The write at position `i` of `e` has a pacing sleep right after it and, unless it opens `e`, right before it. */
  predicate SleepsAround(e: seq<Event>, i: nat)
    requires i < |e|
  {
    i + 1 < |e| && e[i + 1] == Sleep(PrintDelay) && (i > 0 ==> e[i - 1] == Sleep(PrintDelay))
  }

  /** Every write in `e` is paced. */
  predicate Paced(e: seq<Event>)
  {
    forall i :: 0 <= i < |e| && e[i].Write? ==> SleepsAround(e, i)
  }

  /** Every chunk written is immediately followed by a pacing sleep, and (past the first) preceded by one. */
  lemma {:induction false} ChunkLoopPaced(cs: seq<seq<Byte>>, hasOutput: bool, failAt: Option<nat>)
    ensures Paced(ChunkLoop(cs, hasOutput, failAt))
  {
    if cs != [] && hasOutput && failAt != Some(0) {
      var rest := ChunkLoop(cs[1..], hasOutput, Next(failAt));
      ChunkLoopPaced(cs[1..], hasOutput, Next(failAt));
      var e := ChunkLoop(cs, hasOutput, failAt);
      assert e == [Write(cs[0]), Sleep(PrintDelay)] + rest;
      assert Paced(rest);
      forall i | 0 <= i < |e| && e[i].Write?
        ensures SleepsAround(e, i)
      {
        if i >= 2 {
          assert e[i] == rest[i - 2];
          assert SleepsAround(rest, i - 2);
          assert e[i + 1] == rest[i - 1];
          if i > 2 {
            assert e[i - 1] == rest[i - 3];
          }
        }
      }
    }
  }

  /** In a paced write, a sleep comes before the first chunk and after every chunk. */
  lemma PacedWritePaced(buffer: seq<Byte>, hasOutput: bool, failAt: Option<nat>)
    ensures var e := PacedWrite(buffer, hasOutput, failAt);
      e[0] == Sleep(PrintDelay) &&
      forall i :: 0 <= i < |e| && e[i].Write? ==> 0 < i && SleepsAround(e, i)
  {
    var loop := ChunkLoop(Chunks(buffer), hasOutput, failAt);
    ChunkLoopPaced(Chunks(buffer), hasOutput, failAt);
    assert Paced(loop);
    var e := PacedWrite(buffer, hasOutput, failAt);
    forall i | 0 <= i < |e| && e[i].Write?
      ensures 0 < i && SleepsAround(e, i)
    {
      assert e[i] == loop[i - 1];
      assert SleepsAround(loop, i - 1);
      assert e[i + 1] == loop[i];
      if i > 1 {
        assert e[i - 1] == loop[i - 2];
      }
    }
  }
}

/**
 * `RCTBluetoothSerialService` and its `ConnectedThread`, as classes whose
 * methods take the same steps as the Java code. Every call into the module
 * and every socket action is appended to `trace`; platform calls take their
 * outcome from the `Device`, the `ReadOutcome`s or the `failAt` index.
 */
module Service {
  import opened Types
  import opened Events
  import opened Report
  import opened Writer
  import opened Reader
  import opened Connection

  /** `RCTBluetoothSerialService.ConnectedThread`: one connection's reader loop and writer. */
  class ConnectedThread {
    const socket: Socket
    /** `mmInStream != null` */
    const hasInput: bool
    /** `mmOutStream != null` */
    const hasOutput: bool
    /** Set once `cancel()` has closed the socket: the thread is no longer live. */
    ghost var cancelled: bool

    /** Takes the socket's streams; a getter that throws leaves its stream, and every later one, null. */
    constructor (socket: Socket)
      ensures Link(this.socket, hasInput, hasOutput) == LinkOver(socket)
      ensures !cancelled
    {
      this.socket := socket;
      hasInput := socket.behaviour.inputStream;
      hasOutput := socket.behaviour.inputStream && socket.behaviour.outputStream;
      cancelled := false;
    }

    function AsLink(): Link
    {
      Link(socket, hasInput, hasOutput)
    }

    /**
     * `run()`, over the outcomes of its successive reads: each read of n
     * bytes is reported as their signed decimal values, each followed by a
     * space; the first read that throws is reported and ends the loop.
     */
    method Run(outcomes: seq<ReadOutcome>) returns (emitted: seq<Event>)
      requires Fits(outcomes)
      ensures emitted == ReaderEvents(hasInput, outcomes)
    {
      var buffer := new Byte[ReadBufferLen];
      emitted := [];
      var i := 0;
      while i < |outcomes|
        invariant 0 <= i <= |outcomes|
        decreases |outcomes| - i
        invariant emitted + ReaderEvents(hasInput, outcomes[i..]) == ReaderEvents(hasInput, outcomes)
      {
        assert outcomes[i..] == [outcomes[i]] + outcomes[i + 1..];
        if !hasInput {
          emitted := emitted + [Error(NullPointer)];
          return;
        }
        // bytes = mmInStream.read(buffer)
        var bytes: int;
        match outcomes[i] {
          case ReadThrows =>
            emitted := emitted + [Error(ReadFailed)];
            return;
          case EndOfStream =>
            bytes := -1;
          case Received(data) =>
            assert |data| <= buffer.Length;
            forall k | 0 <= k < |data| {
              buffer[k] := data[k];
            }
            bytes := |data|;
            assert buffer[..bytes] == data;
        }
        ghost var filled := buffer[..];
        var sb: string := "";
        var n := 0;
        while n < bytes
          invariant 0 <= n <= buffer.Length
          invariant n <= if bytes < 0 then 0 else bytes
          invariant buffer[..] == filled
          invariant sb == Format(buffer[..n])
        {
          FormatAppend(buffer[..n], buffer[n]);
          assert buffer[..n + 1] == buffer[..n] + [buffer[n]];
          sb := sb + ByteString(buffer[n]) + " ";
          n := n + 1;
        }
        assert ReaderEvents(hasInput, outcomes[i..]) == [Data(sb)] + ReaderEvents(hasInput, outcomes[i + 1..]);
        emitted := emitted + [Data(sb)];
        i := i + 1;
      }
    }

    /**
     * `write(buffer)`: one pacing sleep, then the buffer in `BufferLen`-byte
     * pieces, each written and followed by a sleep. `failAt` is the index of
     * the piece whose write throws, if any; the exception ends the loop and
     * is reported once.
     */
    method Write(buffer: seq<Byte>, failAt: Option<nat>) returns (emitted: seq<Event>)
      ensures emitted == PacedWrite(buffer, hasOutput, failAt)
    {
      var small := new Byte[BufferLen];
      emitted := [Sleep(PrintDelay)];
      var pos := 0;            // the ByteArrayInputStream's position
      var pending := failAt;   // writes the output stream still accepts
      while true
        invariant 0 <= pos <= |buffer|
        invariant emitted + ChunkLoop(Chunks(buffer[pos..]), hasOutput, pending) == PacedWrite(buffer, hasOutput, failAt)
        decreases |buffer| - pos
      {
        // bais.read(smallbuffer): -1 once the buffer is used up
        if pos == |buffer| {
          break;
        }
        var len := if |buffer| - pos < BufferLen then |buffer| - pos else BufferLen;
        forall k | 0 <= k < len {
          small[k] := buffer[pos + k];
        }
        ghost var rest := buffer[pos..];
        assert small[..len] == rest[..len];
        if |rest| <= BufferLen {
          assert rest[..len] == rest && rest[len..] == [];
        }
        assert Chunks(rest) == [rest[..len]] + Chunks(rest[len..]);
        assert rest[len..] == buffer[pos + len..];
        pos := pos + len;
        // mmOutStream.write(smallbuffer, 0, len)
        if !hasOutput {
          emitted := emitted + [Error(NullPointer)];
          return;
        }
        if pending == Some(0) {
          emitted := emitted + [Error(WriteFailed)];
          return;
        }
        emitted := emitted + [Event.Write(small[..len]), Sleep(PrintDelay)];
        pending := Next(pending);
      }
      assert buffer[pos..] == [];
    }

    /** `cancel()`: closes the socket; a failing close is only logged. */
    method Cancel() returns (emitted: seq<Event>)
      modifies this
      ensures cancelled
      ensures emitted == [Close(socket.kind)]
    {
      emitted := [Close(socket.kind)];
      cancelled := true;
    }
  }

  /** `RCTBluetoothSerialService`. */
  class SerialService {
    /** `mState` */
    var state: ConnState
    /** `mConnectedThread` */
    var connectedThread: ConnectedThread?
    /** `mmSocket` */
    var socket: Option<Socket>
    /** Everything reported to the module and done on a socket, in order. */
    var trace: seq<Event>
    /** Every thread this service has created, oldest first. */
    ghost var spawned: seq<ConnectedThread>

    /** Every thread but the current one has been cancelled. */
    ghost predicate ThreadsValid()
      reads this, spawned
    {
      (forall i :: 0 <= i < |spawned| - 1 ==> spawned[i].cancelled) &&
      (connectedThread == null ==> forall i :: 0 <= i < |spawned| ==> spawned[i].cancelled) &&
      (connectedThread != null ==>
        |spawned| > 0 && spawned[|spawned| - 1] == connectedThread && !connectedThread.cancelled)
    }

    /** Between calls: a thread runs exactly when the state is connected, over the socket in `mmSocket`. */
    ghost predicate Valid()
      reads this, spawned
    {
      ThreadsValid() &&
      (connectedThread != null <==> state == StateConnected) &&
      (connectedThread != null ==> socket == Some(connectedThread.socket))
    }

    function View(): ServiceView
      reads this
    {
      ServiceView(state, if connectedThread == null then None else Some(connectedThread.AsLink()), socket)
    }

    /** At most one thread is live, and it is the current one. */
    lemma AtMostOneLive()
      requires ThreadsValid()
      ensures forall i :: 0 <= i < |spawned| && !spawned[i].cancelled ==>
        connectedThread != null && spawned[i] == connectedThread && i == |spawned| - 1
    {
    }

    constructor ()
      ensures Valid()
      ensures View() == Initial && trace == [] && spawned == []
    {
      state := StateNone;
      connectedThread := null;
      socket := None;
      trace := [];
      spawned := [];
    }

    function GetState(): ConnState
      reads this
    {
      state
    }

    method SetState(s: ConnState)
      modifies this
      ensures state == s
      ensures connectedThread == old(connectedThread) && socket == old(socket)
      ensures trace == old(trace) && spawned == old(spawned)
    {
      state := s;
    }

    /** `isConnected()`: compares the state string with "connected". */
    function IsConnected(): (b: bool)
      reads this
      ensures b <==> state == StateConnected
    {
      GetState().Name() == "connected"
    }

    /** `cancelConnectedThread()`: cancels the current thread, if any, and forgets it. */
    method CancelConnectedThread()
      requires ThreadsValid()
      modifies this, spawned
      ensures ThreadsValid() && connectedThread == null
      ensures old(connectedThread) != null ==> old(connectedThread).cancelled
      ensures state == old(state) && socket == old(socket) && spawned == old(spawned)
      ensures trace == old(trace) + CancelEvents(old(View()))
    {
      if connectedThread != null {
        var closing := connectedThread.Cancel();
        trace := trace + closing;
        connectedThread := null;
      }
    }

    /** `stop()` */
    method Stop()
      requires ThreadsValid()
      modifies this, spawned
      ensures Valid()
      ensures View() == AfterStop(old(View()))
      ensures trace == old(trace) + CancelEvents(old(View()))
      ensures spawned == old(spawned)
    {
      CancelConnectedThread();
      SetState(StateNone);
    }

    /** `connectionFailed()`: reports the failure, then `stop()`. */
    method ConnectionFailed()
      requires ThreadsValid()
      modifies this, spawned
      ensures Valid()
      ensures View() == AfterStop(old(View()))
      ensures trace == old(trace) + [Event.ConnectionFailed(FailedMessage)] + CancelEvents(old(View()))
      ensures spawned == old(spawned)
    {
      trace := trace + [Event.ConnectionFailed(FailedMessage)];
      Stop();
    }

    /** `connectionSuccess(socket, device)`: starts one new thread over the socket, reports success, then sets the state. */
    method ConnectionSuccess(sock: Socket, device: Device)
      requires ThreadsValid() && connectedThread == null && socket == Some(sock)
      modifies this
      ensures Valid()
      ensures View() == ServiceView(StateConnected, Some(LinkOver(sock)), Some(sock))
      ensures fresh(connectedThread) && spawned == old(spawned) + [connectedThread]
      ensures trace == old(trace) + LinkEvents(sock) + [Event.ConnectionSuccess(ConnectedMessage(device))]
    {
      var thread := new ConnectedThread(sock);
      if !thread.hasOutput {
        trace := trace + [Error(StreamsUnavailable)];  // the constructor's onError
      }
      connectedThread := thread;
      spawned := spawned + [thread];
      trace := trace + [Event.ConnectionSuccess(ConnectedMessage(device))];
      SetState(StateConnected);
    }

    /**
     * `connect(device)`: cancels the current thread, opens a socket, and ends
     * connected with one new thread or disconnected with none.
     */
    method Connect(device: Device)
      requires Valid()
      modifies this, spawned
      ensures Valid()
      ensures View() == AfterConnect(old(View()), device)
      ensures trace == old(trace) + ConnectEvents(old(View()), device)
      ensures old(connectedThread) != null ==> old(connectedThread).cancelled
      ensures Negotiate(device).connected ==> fresh(connectedThread) && spawned == old(spawned) + [connectedThread]
      ensures !Negotiate(device).connected ==> spawned == old(spawned)
    {
      ghost var t0, cancel, negotiated, outcome := trace, CancelEvents(View()), Negotiate(device).events, Outcome(device);
      SetState(StateConnecting);
      CancelConnectedThread();
      ghost var t1 := trace;
      var connected := OpenSocket(device);
      ghost var t2 := trace;
      Conclude(connected, device);
      assert t1 == t0 + cancel;
      assert t2 == t1 + negotiated;
      assert trace == t2 + outcome;
      Associative(t0, cancel, negotiated, outcome);
      if old(connectedThread) != null {
        assert old(spawned)[|old(spawned)| - 1] == old(connectedThread) == spawned[|old(spawned)| - 1];
      }
    }

    /** The end of `connect`: `connectionSuccess` over `mmSocket` when a socket connected, `connectionFailed` otherwise. */
    method Conclude(connected: bool, device: Device)
      requires ThreadsValid() && connectedThread == null
      requires connected == Negotiate(device).connected && socket == Negotiate(device).socket
      modifies this, spawned
      ensures Valid()
      ensures View() == AfterConnect(old(View()), device)
      ensures trace == old(trace) + Outcome(device)
      ensures connected ==> fresh(connectedThread) && spawned == old(spawned) + [connectedThread]
      ensures !connected ==> spawned == old(spawned)
    {
      if !connected {
        ConnectionFailed();
      } else {
        ConnectionSuccess(socket.value, device);
      }
    }

    /**
     * The socket part of `connect`: the primary socket for the chosen UUID,
     * then the raw channel 1 fallback; when both fail, a close attempt on
     * whatever `mmSocket` holds. Returns whether a socket connected.
     */
    method OpenSocket(device: Device) returns (connected: bool)
      modifies this
      ensures connected == Negotiate(device).connected
      ensures socket == Negotiate(device).socket
      ensures trace == old(trace) + Negotiate(device).events
      ensures state == old(state) && connectedThread == old(connectedThread) && spawned == old(spawned)
    {
      var ev: seq<Event> := [];  // the module and socket calls, appended to the trace at the end
      var tmp: Option<Socket> := None;
      var uuid := SelectUuid(device.uuids);
      match device.serviceRecordSocket {
        case Some(b) =>
          tmp := Some(Socket(ServiceRecord(uuid), b));
        case None =>
          ev := ev + [Error(CreateFailed)];
      }
      socket := tmp;

      connected := false;
      if socket.None? {
        ev := ev + [Error(NullPointer)];
      } else {
        ev := ev + [Event.Connect(socket.value.kind)];
        if socket.value.behaviour.connects {
          ev := ev + [Sleep(2 * PrintDelay)];
          connected := true;
        } else {
          ev := ev + [Error(ConnectFailed)];
        }
      }

      if !connected {
        // fallback: createRfcommSocket(1), then connect
        match device.rawSocket {
          case Some(b) =>
            socket := Some(Socket(RawChannel(FallbackChannel), b));
            ev := ev + [Event.Connect(socket.value.kind)];
            if b.connects {
              connected := true;
            } else {
              ev := ev + [Error(ConnectFailed)];
            }
          case None =>
            ev := ev + [Error(CreateFailed)];
        }
        if !connected {
          if socket.None? {
            ev := ev + [Error(NullPointer)];
          } else {
            ev := ev + [Close(socket.value.kind)];
            if !socket.value.behaviour.closes {
              ev := ev + [Error(CloseFailed)];
            }
          }
        }
      }
      trace := trace + ev;
    }

    /** `write(out)`: hands the buffer to the current thread; with no thread the call throws a NullPointerException. */
    method Write(buffer: seq<Byte>, failAt: Option<nat>) returns (thrown: bool)
      modifies this
      ensures thrown <==> connectedThread == null
      ensures state == old(state) && connectedThread == old(connectedThread) && socket == old(socket)
      ensures spawned == old(spawned)
      ensures trace == old(trace) + if thrown then [] else PacedWrite(buffer, connectedThread.hasOutput, failAt)
    {
      if connectedThread == null {
        return true;
      }
      var emitted := connectedThread.Write(buffer, failAt);
      trace := trace + emitted;
      thrown := false;
    }
  }
}

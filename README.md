# Bluetooth serial service, modelled in Dafny

This project models `RCTBluetoothSerialService`. That class is the Android side of a React Native
Bluetooth serial module that drives a slow receipt printer. It does three things:

- **Connection state machine.** `connect` cancels the running connection and picks a service UUID.
  It tries the service-record socket, then falls back to a raw RFCOMM channel 1 socket. It ends
  either `connected` with a new `ConnectedThread` and an `onConnectionSuccess`, or `none` with an
  `onConnectionFailed`. The other members are `stop`, `isConnected`, `getState`/`setState`,
  `connectionSuccess`, `connectionFailed` and `cancelConnectedThread`.
- **Paced writer** (`ConnectedThread.write`). It sleeps once, then writes the buffer in
  `BUFFER_LEN`-byte pieces (9600 baud / 10 = 960 bytes), sleeping after every piece.
- **Reader loop** (`ConnectedThread.run`). Each read into a 1024-byte buffer is reported through
  `onData` as the signed decimal value of every byte, each followed by one space. The first read
  that throws is reported through `onError` and ends the loop.

Everything the service does that can be observed is appended to one trace of `Event`s, in order.
That covers calls into the React module (`onConnectionSuccess`, `onConnectionFailed`, `onData`,
`onError`) and actions on a socket (connect, close, an output-stream write, a pacing sleep).
The platform is a parameter:

- a `Device` says which socket factory calls throw, which `connect`/`close` calls throw and which
  stream getters throw;
- a sequence of `ReadOutcome`s stands for the blocking reads;
- `failAt` is the index of the chunk write that throws.

Modules:

- `Types`: Java `byte`, the connection state, the constants, devices and sockets.
- `Events`: the trace and its projections (terminal events, error causes, written chunks).
- `Report`: the `onData` text for one read, and its inverse `Parse`.
- `Writer`: the chunking and the paced write, as functions, with their properties.
- `Reader`: the reader loop as a function, with its properties.
- `Connection`: the connect protocol and the service's fields after `connect`/`stop`, as
  functions, with their properties.
- `Service`: the classes `SerialService` and `ConnectedThread`. Their methods take the Java
  code's steps on mutable fields and arrays. They are proved equal to the functions above.

The model follows the code where the design description of the system says otherwise:

- Chunk size is 960 bytes, as lines 50-56 compute it, not the design's "about 240 bytes". A
  1000-byte buffer goes out as 960 + 40 bytes (`Writer.ChunksOfThousand`).
- On a failed connect, only the socket in `mmSocket` gets a close attempt. Once the fallback
  socket has been created, the primary socket that failed is never closed. The design wants every
  created channel closed (`Connection.PrimaryNotClosedAfterFallback`).
- A failing read ends the reader loop and reports `onError`, but it does not tear down the
  connection. `connectionLost` is never called, so the state stays `connected`.
- `stop()` closes only the thread's socket and leaves `mmSocket` as it is.

## Model

| member | source | states |
|---|---|---|
| Service.SerialService.constructor | android/src/main/java/com/rusel/RCTBluetoothSerial/RCTBluetoothSerialService.java:62-66 | a fresh service is in state none, with no thread and no socket, and has done nothing |
| Service.SerialService.IsConnected | android/src/main/java/com/rusel/RCTBluetoothSerial/RCTBluetoothSerialService.java:141-143 | comparing the state string with "connected" is true exactly when the state is connected |
| Service.SerialService.SetState | android/src/main/java/com/rusel/RCTBluetoothSerial/RCTBluetoothSerialService.java:181-184 | sets the state and changes no other field |
| Service.SerialService.CancelConnectedThread | android/src/main/java/com/rusel/RCTBluetoothSerial/RCTBluetoothSerialService.java:222-227 | the old thread, if any, is cancelled (its socket closed) and forgotten; state and socket are unchanged |
| Service.SerialService.Stop | android/src/main/java/com/rusel/RCTBluetoothSerial/RCTBluetoothSerialService.java:158-164 | ends in state none with no thread, keeps the socket, and closes only the old thread's socket |
| Service.SerialService.ConnectionFailed | android/src/main/java/com/rusel/RCTBluetoothSerial/RCTBluetoothSerialService.java:206-209 | reports "Unable to connect to device", then does what stop does |
| Service.SerialService.ConnectionSuccess | android/src/main/java/com/rusel/RCTBluetoothSerial/RCTBluetoothSerialService.java:191-200 | installs exactly one new thread over the socket, reports "Connected to " and the device name, and ends connected |
| Service.SerialService.OpenSocket | android/src/main/java/com/rusel/RCTBluetoothSerial/RCTBluetoothSerialService.java:87-133 | the primary then fallback socket attempts take the negotiation's steps, leave its socket in mmSocket and report whether one connected |
| Service.SerialService.Conclude | android/src/main/java/com/rusel/RCTBluetoothSerial/RCTBluetoothSerialService.java:121-134 | after the socket part, success starts one new thread and ends connected; failure ends none with no thread |
| Service.SerialService.Connect | android/src/main/java/com/rusel/RCTBluetoothSerial/RCTBluetoothSerialService.java:76-135 | cancels the previous thread, then ends in the fields and trace the connect protocol prescribes; a success adds exactly one thread |
| Service.SerialService.Write | android/src/main/java/com/rusel/RCTBluetoothSerial/RCTBluetoothSerialService.java:150-153 | throws exactly when there is no thread; otherwise the trace grows by the thread's paced write and no field changes |
| Service.SerialService.AtMostOneLive | android/src/main/java/com/rusel/RCTBluetoothSerial/RCTBluetoothSerialService.java:222-227 | of all threads ever created, only the current one can be uncancelled |
| Service.ConnectedThread.constructor | android/src/main/java/com/rusel/RCTBluetoothSerial/RCTBluetoothSerialService.java:238-255 | a stream getter that throws leaves its stream and every later one null |
| Service.ConnectedThread.Run | android/src/main/java/com/rusel/RCTBluetoothSerial/RCTBluetoothSerialService.java:257-278 | the buffer-and-StringBuilder loop emits exactly the reader events of its reads |
| Service.ConnectedThread.Write | android/src/main/java/com/rusel/RCTBluetoothSerial/RCTBluetoothSerialService.java:284-310 | the scratch-array loop emits exactly the paced write of the buffer |
| Service.ConnectedThread.Cancel | android/src/main/java/com/rusel/RCTBluetoothSerial/RCTBluetoothSerialService.java:312-320 | closes the socket and reports nothing, since a failed close is only logged |
| Connection.Negotiate | android/src/main/java/com/rusel/RCTBluetoothSerial/RCTBluetoothSerialService.java:87-133 | a connected outcome always holds a socket |
| Connection.SelectUuidChoice | android/src/main/java/com/rusel/RCTBluetoothSerial/RCTBluetoothSerialService.java:91-95 | the first advertised UUID when the list is non-null and non-empty, otherwise the serial port profile UUID |
| Connection.NegotiateOutcome | android/src/main/java/com/rusel/RCTBluetoothSerial/RCTBluetoothSerialService.java:96-133 | connected iff the primary or the fallback socket connects; the live socket is the one that connected |
| Connection.ConnectReportsOnce | android/src/main/java/com/rusel/RCTBluetoothSerial/RCTBluetoothSerialService.java:76-135 | every connect reports exactly one terminal event: success with the name when a socket connected, failure otherwise |
| Connection.ConnectEndsSettled | android/src/main/java/com/rusel/RCTBluetoothSerial/RCTBluetoothSerialService.java:121-134 | connect never ends connecting; connected iff a socket connected, and then with a thread over mmSocket |
| Connection.ConnectCancelsFirst | android/src/main/java/com/rusel/RCTBluetoothSerial/RCTBluetoothSerialService.java:78-80 | the first thing connect does is close the previous thread's socket |
| Connection.FallbackBecomesLive | android/src/main/java/com/rusel/RCTBluetoothSerial/RCTBluetoothSerialService.java:114-120 | when only the fallback connects, the raw channel 1 socket is live and the state is connected |
| Connection.FailureClosesLastSocket | android/src/main/java/com/rusel/RCTBluetoothSerial/RCTBluetoothSerialService.java:121-131 | when both fail, mmSocket gets a close attempt; with no socket created, the null close adds one more onError |
| Connection.PrimaryNotClosedAfterFallback | android/src/main/java/com/rusel/RCTBluetoothSerial/RCTBluetoothSerialService.java:101-125 | once the fallback socket exists, the failed primary socket gets no close attempt |
| Connection.StopIdempotent | android/src/main/java/com/rusel/RCTBluetoothSerial/RCTBluetoothSerialService.java:158-164 | stop ends in none with no thread; a second stop changes nothing and closes nothing |
| Writer.ChunksFlatten | android/src/main/java/com/rusel/RCTBluetoothSerial/RCTBluetoothSerialService.java:289-296 | the pieces concatenate back to the buffer |
| Writer.ChunksCount | android/src/main/java/com/rusel/RCTBluetoothSerial/RCTBluetoothSerialService.java:289-294 | a buffer of length L is cut into ceil(L / 960) pieces |
| Writer.ChunksSizes | android/src/main/java/com/rusel/RCTBluetoothSerial/RCTBluetoothSerialService.java:290-294 | every piece but the last is 960 bytes, and the last holds 1 to 960 bytes |
| Writer.ChunksOfThousand | android/src/main/java/com/rusel/RCTBluetoothSerial/RCTBluetoothSerialService.java:50-56 | a 1000-byte buffer goes out as 960 bytes, then 40 |
| Writer.ChunkLoopWrites | android/src/main/java/com/rusel/RCTBluetoothSerial/RCTBluetoothSerialService.java:294-308 | the stream receives, in order, exactly the pieces before the first write that throws |
| Writer.ChunkLoopErrors | android/src/main/java/com/rusel/RCTBluetoothSerial/RCTBluetoothSerialService.java:294-309 | one onError exactly when some piece was not written: a write failure, or a null stream |
| Writer.ChunkLoopPaced | android/src/main/java/com/rusel/RCTBluetoothSerial/RCTBluetoothSerialService.java:294-305 | every written piece is followed by a pacing sleep and, past the first, preceded by one |
| Writer.PacedWriteDelivers | android/src/main/java/com/rusel/RCTBluetoothSerial/RCTBluetoothSerialService.java:284-310 | with a working stream the whole buffer arrives in order, in ceil(L / 960) writes, with no error |
| Writer.PacedWriteFails | android/src/main/java/com/rusel/RCTBluetoothSerial/RCTBluetoothSerialService.java:294-309 | a throwing write of piece k leaves pieces 0..k-1 written, writes nothing more and reports one error |
| Writer.PacedWriteEmpty | android/src/main/java/com/rusel/RCTBluetoothSerial/RCTBluetoothSerialService.java:292-294 | an empty buffer costs one sleep: no write and no error |
| Writer.PacedWritePaced | android/src/main/java/com/rusel/RCTBluetoothSerial/RCTBluetoothSerialService.java:292-305 | a sleep comes first, and every write has a sleep on both sides |
| Reader.ReaderTrace | android/src/main/java/com/rusel/RCTBluetoothSerial/RCTBluetoothSerialService.java:263-277 | one event per read, in order, up to and including the first read that throws, and nothing after |
| Reader.ReaderErrors | android/src/main/java/com/rusel/RCTBluetoothSerial/RCTBluetoothSerialService.java:272-276 | a throwing read is reported exactly once, and it is the loop's only error |
| Reader.ReaderWithoutStream | android/src/main/java/com/rusel/RCTBluetoothSerial/RCTBluetoothSerialService.java:246-275 | with a null input stream, the first read throws and ends the loop |
| Reader.DataReportsBytes | android/src/main/java/com/rusel/RCTBluetoothSerial/RCTBluetoothSerialService.java:265-271 | each onData text reads back to exactly the bytes received; a read of -1 or 0 reports "" |
| Reader.FirstThrow | android/src/main/java/com/rusel/RCTBluetoothSerial/RCTBluetoothSerialService.java:263-276 | the index of the read that ends the loop: no earlier read throws, and that one does |
| Report.ByteString | android/src/main/java/com/rusel/RCTBluetoothSerial/RCTBluetoothSerialService.java:268 | a byte renders in 1 to 4 characters, none of them a space |
| Report.ParseByteString | android/src/main/java/com/rusel/RCTBluetoothSerial/RCTBluetoothSerialService.java:268 | a byte's signed decimal rendering reads back to its value |
| Report.FormatAppend | android/src/main/java/com/rusel/RCTBluetoothSerial/RCTBluetoothSerialService.java:266-270 | one more byte appends its decimal value and one space to the text |
| Report.ParseFormat | android/src/main/java/com/rusel/RCTBluetoothSerial/RCTBluetoothSerialService.java:266-271 | the onData text of a read determines the bytes read exactly |

## Left out

- Android APIs are parameters, not code. The socket factories (including the reflective
  `createRfcommSocket` at line 118) and `connect`, `close`, the stream getters, `read` and `write`
  appear only as the outcomes a `Device`, the `ReadOutcome`s and `failAt` give them.
- A factory that returns null without throwing is not modelled. The model's "no socket" always
  comes from a factory that threw, so it always carries an `onError`.
- `mAdapter.cancelDiscovery()` (line 86) changes nothing the service can observe, so it is left
  out. So is a null `mAdapter` on a device without Bluetooth.
- Threads are left out: `start()`, the `synchronized` locking, and the race between the reader
  thread and `stop`/`connect`. `run` is a separate method over a finite sequence of reads.
  Nothing ties a closed socket to the reader's next read failing.
- Sleeps are `Sleep` events, and time is not modelled. Sleeps are never interrupted:
  - an `InterruptedException` at line 109 would send a connected primary socket down the
    fallback path;
  - one at line 293 would report an error before any write;
  - one at line 301 is ignored.
- `Log` calls, and the UTF-8 string at line 286 that exists only for logging, are left out.
- `connectionLost` (lines 214-217) is never called, so it is not modelled.
- `RCTBluetoothSerialPackage.java` and the React module are not part of this model. Module
  callbacks are trace events.
- A null `buffer` passed to `write` is not modelled; a buffer is always a sequence of bytes.
- A null entry in the array `getUuids()` returns is not modelled; UUIDs are strings.
- Service.ConnectedThread.constructor: the constructor's `onError`, raised when a stream getter
  throws, is recorded by `Service.SerialService.ConnectionSuccess` right after the thread is
  created. The thread cannot reach the service's trace itself.
- Service.SerialService.Write: the exception thrown on a missing thread is a result flag, not a
  Java exception propagating to the caller.

/**
 * The connection protocol of `RCTBluetoothSerialService` as functions of
 * the device's behaviour: which UUID is chosen, what the primary and the
 * fallback socket attempts report, which socket ends up live, and the
 * service's fields after `connect` and `stop`. The class in module Service
 * carries out these steps one at a time and is proved to match them.
 */
module Connection {
  import opened Types
  import opened Events

  /** `device.getUuids()`: the first advertised UUID when there is one, else the serial port profile. */
  function SelectUuid(advertised: Option<seq<string>>): string
  {
    match advertised
    case Some(uuids) => if |uuids| > 0 then uuids[0] else UuidSpp
    case None => UuidSpp
  }

  /** The socket `createRfcommSocketToServiceRecord` returns, `None` when it throws. */
  function PrimarySocket(d: Device): Option<Socket>
  {
    match d.serviceRecordSocket
    case Some(b) => Some(Socket(ServiceRecord(SelectUuid(d.uuids)), b))
    case None => None
  }

  /** The socket the reflective `createRfcommSocket(1)` returns, `None` when it throws. */
  function FallbackSocket(d: Device): Option<Socket>
  {
    match d.rawSocket
    case Some(b) => Some(Socket(RawChannel(FallbackChannel), b))
    case None => None
  }

  predicate PrimaryConnects(d: Device)
  {
    PrimarySocket(d).Some? && PrimarySocket(d).value.behaviour.connects
  }

  predicate FallbackConnects(d: Device)
  {
    FallbackSocket(d).Some? && FallbackSocket(d).value.behaviour.connects
  }

  /** `mmSocket.close()` on a possibly null socket, as the failure path runs it. */
  function CloseAttempt(s: Option<Socket>): seq<Event>
  {
    match s
    case None => [Error(NullPointer)]
    case Some(sock) => [Close(sock.kind)] + (if sock.behaviour.closes then [] else [Error(CloseFailed)])
  }

  /**
   * The socket part of `connect`: its events, the value left in `mmSocket`,
   * and whether `connectionSuccess` is reached.
   */
  datatype Negotiation = Negotiation(events: seq<Event>, socket: Option<Socket>, connected: bool)

  function Negotiate(d: Device): (n: Negotiation)
    ensures n.connected ==> n.socket.Some?
  {
    var primary := PrimarySocket(d);
    var created := if primary.None? then [Error(CreateFailed)] else [];
    if PrimaryConnects(d) then
      Negotiation(created + [Connect(primary.value.kind), Sleep(2 * PrintDelay)], primary, true)
    else
      var first := created +
        (if primary.None? then [Error(NullPointer)] else [Connect(primary.value.kind), Error(ConnectFailed)]);
      match FallbackSocket(d)
      case None =>
        Negotiation(first + [Error(CreateFailed)] + CloseAttempt(primary), primary, false)
      case Some(f) =>
        if f.behaviour.connects then Negotiation(first + [Connect(f.kind)], Some(f), true)
        else Negotiation(first + [Connect(f.kind), Error(ConnectFailed)] + CloseAttempt(Some(f)), Some(f), false)
  }

  /** The final fields of a `ConnectedThread`: its socket and whether its input and output streams are non-null. */
  datatype Link = Link(socket: Socket, hasInput: bool, hasOutput: bool)

  /** What `new ConnectedThread(socket)` holds: `getOutputStream` is only reached when `getInputStream` returned. */
  function LinkOver(s: Socket): Link
  {
    Link(s, s.behaviour.inputStream, s.behaviour.inputStream && s.behaviour.outputStream)
  }

  /** The constructor's `onError` when either stream getter throws. */
  function LinkEvents(s: Socket): seq<Event>
  {
    if s.behaviour.inputStream && s.behaviour.outputStream then [] else [Error(StreamsUnavailable)]
  }

  /** The service's fields: `mState`, `mConnectedThread` (by its final fields) and `mmSocket`. */
  datatype ServiceView = ServiceView(state: ConnState, thread: Option<Link>, socket: Option<Socket>)

  /** A freshly constructed service. */
  const Initial := ServiceView(StateNone, None, None)

  function ConnectedMessage(d: Device): string
  {
    "Connected to " + match d.name case Some(n) => n case None => "null"
  }

  const FailedMessage: string := "Unable to connect to device"

  /** `cancelConnectedThread()`: the thread's `cancel()` closes its socket; a close failure is swallowed. */
  function CancelEvents(v: ServiceView): seq<Event>
  {
    match v.thread
    case Some(l) => [Close(l.socket.kind)]
    case None => []
  }

  /** The fields after `stop()`; `mmSocket` keeps its value. */
  function AfterStop(v: ServiceView): ServiceView
  {
    ServiceView(StateNone, None, v.socket)
  }

  /** The fields after `connect(d)`. */
  function AfterConnect(v: ServiceView, d: Device): ServiceView
  {
    var n := Negotiate(d);
    if n.connected then ServiceView(StateConnected, Some(LinkOver(n.socket.value)), n.socket)
    else ServiceView(StateNone, None, n.socket)
  }

  /** What `connectionSuccess` or `connectionFailed` reports once the socket part of `connect(d)` is over. */
  function Outcome(d: Device): seq<Event>
  {
    var n := Negotiate(d);
    if n.connected then LinkEvents(n.socket.value) + [ConnectionSuccess(ConnectedMessage(d))]
    else [ConnectionFailed(FailedMessage)]
  }

  /** Everything `connect(d)` does, in order. */
  function ConnectEvents(v: ServiceView, d: Device): seq<Event>
  {
    CancelEvents(v) + Negotiate(d).events + Outcome(d)
  }

  // ---- properties ----

  /** The UUID used is the first advertised one when the device advertises any, and the serial port profile otherwise. */
  lemma SelectUuidChoice(advertised: Option<seq<string>>)
    ensures advertised.Some? && |advertised.value| > 0 ==> SelectUuid(advertised) == advertised.value[0]
    ensures advertised.None? || advertised.value == [] ==> SelectUuid(advertised) == UuidSpp
  {
  }

  /**
   * `connect` reaches `connectionSuccess` exactly when the primary socket
   * connects or, failing that, the fallback socket does; the live socket is
   * then the one that connected.
   */
  lemma NegotiateOutcome(d: Device)
    ensures Negotiate(d).connected <==> PrimaryConnects(d) || FallbackConnects(d)
    ensures PrimaryConnects(d) ==> Negotiate(d).socket == PrimarySocket(d)
    ensures !PrimaryConnects(d) && FallbackConnects(d) ==> Negotiate(d).socket == FallbackSocket(d)
    ensures !Negotiate(d).connected ==>
      Negotiate(d).socket == (if FallbackSocket(d).Some? then FallbackSocket(d) else PrimarySocket(d))
  {
  }

  /** No socket step of `connect` is a terminal event. */
  lemma NegotiateHasNoTerminal(d: Device)
    ensures Terminals(Negotiate(d).events) == []
  {
    NoTerminals(Negotiate(d).events);
  }

  /**
   * Every `connect` reports exactly one terminal event: a success carrying
   * the device name when a socket connected, a failure otherwise.
   */
  lemma ConnectReportsOnce(v: ServiceView, d: Device)
    ensures Terminals(ConnectEvents(v, d)) ==
      if Negotiate(d).connected then [ConnectionSuccess(ConnectedMessage(d))]
      else [ConnectionFailed(FailedMessage)]
  {
    var n := Negotiate(d);
    var tail := Outcome(d);
    NegotiateHasNoTerminal(d);
    TerminalsAppend(CancelEvents(v), n.events);
    TerminalsAppend(CancelEvents(v) + n.events, tail);
    NoTerminals(CancelEvents(v));
    if n.connected {
      TerminalsAppend(LinkEvents(n.socket.value), [ConnectionSuccess(ConnectedMessage(d))]);
      NoTerminals(LinkEvents(n.socket.value));
    }
  }

  /**
   * After `connect` the state is connected with one new thread over the
   * live socket, or none with no thread; it is never left connecting.
   */
  lemma ConnectEndsSettled(v: ServiceView, d: Device)
    ensures AfterConnect(v, d).state != StateConnecting
    ensures AfterConnect(v, d).state == StateConnected <==> Negotiate(d).connected
    ensures AfterConnect(v, d).thread.Some? <==> Negotiate(d).connected
    ensures AfterConnect(v, d).thread.Some? ==> AfterConnect(v, d).socket == Some(AfterConnect(v, d).thread.value.socket)
  {
  }

  /** `connect` closes the socket of the thread it replaces before anything else. */
  lemma ConnectCancelsFirst(v: ServiceView, d: Device)
    requires v.thread.Some?
    ensures ConnectEvents(v, d)[0] == Close(v.thread.value.socket.kind)
  {
  }

  /** When the primary socket fails to connect and the fallback connects, the fallback's raw channel 1 is the live socket. */
  lemma FallbackBecomesLive(v: ServiceView, d: Device)
    requires !PrimaryConnects(d) && FallbackConnects(d)
    ensures AfterConnect(v, d).state == StateConnected
    ensures AfterConnect(v, d).thread.Some? && AfterConnect(v, d).thread.value.socket.kind == RawChannel(1)
    ensures Connect(RawChannel(1)) in ConnectEvents(v, d)
  {
  }

  /**
   * When both sockets fail, the socket left in `mmSocket` gets a close
   * attempt, and a null one (no socket was ever created) yields one more
   * `onError`.
   */
  lemma FailureClosesLastSocket(d: Device)
    requires !PrimaryConnects(d) && !FallbackConnects(d)
    ensures Negotiate(d).socket.Some? ==> Close(Negotiate(d).socket.value.kind) in Negotiate(d).events
    ensures Negotiate(d).socket.None? ==> Negotiate(d).events == [Error(CreateFailed), Error(NullPointer), Error(CreateFailed), Error(NullPointer)]
  {
  }

  /**
   * As written, the failure path closes only the socket in `mmSocket`: when
   * the fallback socket was created, the primary socket that failed to
   * connect gets no close attempt.
   */
  lemma PrimaryNotClosedAfterFallback(d: Device)
    requires PrimarySocket(d).Some? && !PrimaryConnects(d)
    requires FallbackSocket(d).Some?
    ensures Close(PrimarySocket(d).value.kind) !in Negotiate(d).events
  {
  }

  /** `stop` leaves the service disconnected with no thread; a second `stop` changes nothing and does nothing. */
  lemma StopIdempotent(v: ServiceView)
    ensures AfterStop(v).state == StateNone && AfterStop(v).thread.None?
    ensures AfterStop(AfterStop(v)) == AfterStop(v)
    ensures CancelEvents(AfterStop(v)) == []
  {
  }
}

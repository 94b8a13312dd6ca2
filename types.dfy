/**
 * Values shared by the whole model of the Bluetooth serial service: Java's
 * signed byte, the connection state, the service's constants, and the
 * abstract view of a remote device and the sockets it can hand out.
 */
module Types {

  /** A Java `byte`: signed, -128..127. */
  type Byte = b: int | -128 <= b <= 127

  /** A Java reference that may be null. */
  datatype Option<T> = None | Some(value: T)

  /** The connection state held in `mState`; `Name` is the string the field stores. */
  datatype ConnState = StateNone | StateConnecting | StateConnected
  {
    function Name(): string
    {
      match this
      case StateNone => "none"
      case StateConnecting => "connecting"
      case StateConnected => "connected"
    }
  }

  /** Baud rate of the target printer. */
  const BaudRate: int := 9600

  /** Ten bits on the wire per byte: one start bit, eight data bits, one stop bit. */
  const BytesPerSecond: int := BaudRate / 10

  /** Size of every outbound chunk but the last. */
  const BufferLen: nat := BytesPerSecond

  /** Pacing delay, in milliseconds, around every outbound chunk. */
  const PrintDelay: nat := 250

  /** Size of the reader's fixed input buffer. */
  const ReadBufferLen: nat := 1024

  /** RFCOMM channel used by the fallback socket. */
  const FallbackChannel: int := 1

  /** The serial-port-profile service UUID. */
  const UuidSpp: string := "00001101-0000-1000-8000-00805F9B34FB"

  /** How a socket was obtained: through a service record, or as a raw channel. */
  datatype SocketKind = ServiceRecord(uuid: string) | RawChannel(channel: int)

  /**
   * What the platform does when the service calls into a socket: whether
   * `connect()` and `close()` return normally, and whether
   * `getInputStream()` and `getOutputStream()` do.
   */
  datatype SocketBehaviour = SocketBehaviour(
    connects: bool,
    closes: bool,
    inputStream: bool,
    outputStream: bool)

  datatype Socket = Socket(kind: SocketKind, behaviour: SocketBehaviour)

  /**
   * A remote device as the service sees it: its name (`getName()`, which may
   * be null), its advertised UUIDs (`getUuids()`, which may be null), and the
   * sockets its two factory calls return — `None` where the call throws.
   */
  datatype Device = Device(
    name: Option<string>,
    uuids: Option<seq<string>>,
    serviceRecordSocket: Option<SocketBehaviour>,
    rawSocket: Option<SocketBehaviour>)
}

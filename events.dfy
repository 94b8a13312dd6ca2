/**
 * The observable trace of the service: every callback it makes on the
 * React module (`onConnectionSuccess`, `onConnectionFailed`, `onData`,
 * `onError`) and every action it takes on a socket (connect, close, an
 * output-stream write, a pacing sleep), in the order they happen.
 */
module Events {
  import opened Types

  /** Why an `onError` was reported. */
  datatype Cause =
    | CreateFailed        // a socket factory call threw
    | ConnectFailed       // `connect()` on a socket threw
    | CloseFailed         // `close()` on a socket threw
    | NullPointer         // a method was called on a null socket or stream
    | StreamsUnavailable  // `getInputStream()` or `getOutputStream()` threw
    | ReadFailed          // a read on the input stream threw
    | WriteFailed         // a write on the output stream threw

  datatype Event =
    | ConnectionSuccess(message: string)
    | ConnectionFailed(message: string)
    | Data(text: string)
    | Error(cause: Cause)
    | Connect(target: SocketKind)
    | Close(target: SocketKind)
    | Write(chunk: seq<Byte>)
    | Sleep(millis: nat)
  {
    /** The two events that end a connection attempt. */
    predicate IsTerminal()
    {
      ConnectionSuccess? || ConnectionFailed?
    }
  }

  /** The terminal events of a trace, in order. */
  function Terminals(s: seq<Event>): (r: seq<Event>)
    ensures |r| <= |s|
    ensures forall e :: e in r ==> e in s && e.IsTerminal()
  {
    if s == [] then []
    else if s[0].IsTerminal() then [s[0]] + Terminals(s[1..])
    else Terminals(s[1..])
  }

  /** The causes of the `onError` events of a trace, in order. */
  function Errors(s: seq<Event>): (r: seq<Cause>)
    ensures |r| <= |s|
    ensures forall c :: c in r ==> Error(c) in s
  {
    if s == [] then []
    else if s[0].Error? then [s[0].cause] + Errors(s[1..])
    else Errors(s[1..])
  }

  /** The chunks written to the output stream, in order. */
  function Writes(s: seq<Event>): (r: seq<seq<Byte>>)
    ensures |r| <= |s|
    ensures forall c :: c in r ==> Write(c) in s
  {
    if s == [] then []
    else if s[0].Write? then [s[0].chunk] + Writes(s[1..])
    else Writes(s[1..])
  }

  /** A trace without terminal events has none to report. */
  lemma {:induction false} NoTerminals(s: seq<Event>)
    requires forall e :: e in s ==> !e.IsTerminal()
    ensures Terminals(s) == []
  {
    if s != [] {
      assert s[0] in s;
      NoTerminals(s[1..]);
    }
  }

  lemma {:induction false} TerminalsAppend(a: seq<Event>, b: seq<Event>)
    ensures Terminals(a + b) == Terminals(a) + Terminals(b)
  {
    if a == [] {
      assert a + b == b;
    } else {
      assert (a + b)[1..] == a[1..] + b;
      TerminalsAppend(a[1..], b);
    }
  }

  lemma {:induction false} ErrorsAppend(a: seq<Event>, b: seq<Event>)
    ensures Errors(a + b) == Errors(a) + Errors(b)
  {
    if a == [] {
      assert a + b == b;
    } else {
      assert (a + b)[1..] == a[1..] + b;
      ErrorsAppend(a[1..], b);
    }
  }

  lemma {:induction false} WritesAppend(a: seq<Event>, b: seq<Event>)
    ensures Writes(a + b) == Writes(a) + Writes(b)
  {
    if a == [] {
      assert a + b == b;
    } else {
      assert (a + b)[1..] == a[1..] + b;
      WritesAppend(a[1..], b);
    }
  }

  /** Regrouping a trace that grows by three pieces. */
  lemma Associative(t: seq<Event>, a: seq<Event>, b: seq<Event>, c: seq<Event>)
    ensures t + a + b + c == t + (a + b + c)
  {
  }
}

/**
 * The reader loop of `ConnectedThread.run`: read into a fixed 1024-byte
 * buffer, report what was read through `onData`, and stop at the first read
 * that throws, after reporting it through `onError`. The blocking reads are
 * given as the sequence of their outcomes.
 */
module Reader {
  import opened Types
  import opened Events
  import opened Report

  /** What one `read(buffer)` call on the input stream does. */
  datatype ReadOutcome =
    | Received(data: seq<Byte>)  // returns |data| after storing data at the front of the buffer
    | EndOfStream                // returns -1
    | ReadThrows                 // throws

  /** A read never returns more than the buffer holds. */
  predicate Fits(outcomes: seq<ReadOutcome>)
  {
    forall i :: 0 <= i < |outcomes| ==> outcomes[i].Received? ==> |outcomes[i].data| <= ReadBufferLen
  }

  /** Events of the reader loop over the outcomes of its successive reads; `hasInput` is false when the input stream is null. */
  function ReaderEvents(hasInput: bool, outcomes: seq<ReadOutcome>): seq<Event>
  {
    if outcomes == [] then []
    else if !hasInput then [Error(NullPointer)]
    else
      match outcomes[0]
      case ReadThrows => [Error(ReadFailed)]
      case EndOfStream => [Data("")] + ReaderEvents(hasInput, outcomes[1..])
      case Received(data) => [Data(Format(data))] + ReaderEvents(hasInput, outcomes[1..])
  }

  /** The one event a single read produces. */
  function ReadEvent(r: ReadOutcome): Event
  {
    match r
    case Received(data) => Data(Format(data))
    case EndOfStream => Data("")
    case ReadThrows => Error(ReadFailed)
  }

  /** Index of the first read that throws, or the number of reads if none does. */
  function FirstThrow(outcomes: seq<ReadOutcome>): (k: nat)
    ensures k <= |outcomes|
    ensures forall i :: 0 <= i < k ==> !outcomes[i].ReadThrows?
    ensures k < |outcomes| ==> outcomes[k].ReadThrows?
  {
    if outcomes == [] || outcomes[0].ReadThrows? then 0 else 1 + FirstThrow(outcomes[1..])
  }

  /**
   * One event per read, in order, up to and including the first read that
   * throws; nothing after it.
   */
  lemma {:induction false} ReaderTrace(outcomes: seq<ReadOutcome>)
    ensures |ReaderEvents(true, outcomes)| ==
      if FirstThrow(outcomes) < |outcomes| then FirstThrow(outcomes) + 1 else |outcomes|
    ensures forall i :: 0 <= i < |ReaderEvents(true, outcomes)| ==> ReaderEvents(true, outcomes)[i] == ReadEvent(outcomes[i])
  {
    if outcomes != [] && !outcomes[0].ReadThrows? {
      var rest := ReaderEvents(true, outcomes[1..]);
      ReaderTrace(outcomes[1..]);
      var e := ReaderEvents(true, outcomes);
      assert e == [ReadEvent(outcomes[0])] + rest;
      forall i | 0 <= i < |e|
        ensures e[i] == ReadEvent(outcomes[i])
      {
        if i > 0 {
          assert e[i] == rest[i - 1];
        }
      }
    }
  }

  /** A read that throws is reported exactly once, and it is the only error the loop reports. */
  lemma {:induction false} ReaderErrors(outcomes: seq<ReadOutcome>)
    ensures Errors(ReaderEvents(true, outcomes)) ==
      if FirstThrow(outcomes) < |outcomes| then [ReadFailed] else []
  {
    if outcomes != [] && !outcomes[0].ReadThrows? {
      ReaderErrors(outcomes[1..]);
      ErrorsAppend([ReadEvent(outcomes[0])], ReaderEvents(true, outcomes[1..]));
    }
  }

  /** With a null input stream, the first read throws and the loop ends. */
  lemma ReaderWithoutStream(outcomes: seq<ReadOutcome>)
    requires outcomes != []
    ensures ReaderEvents(false, outcomes) == [Error(NullPointer)]
  {
  }

  /** Each data report can be read back to exactly the bytes received; a read returning -1 or 0 reports the empty string. */
  lemma DataReportsBytes(r: ReadOutcome)
    requires !r.ReadThrows?
    ensures ReadEvent(r).Data?
    ensures r.Received? ==> Parse(ReadEvent(r).text) == Some(r.data)
    ensures r.EndOfStream? || r == Received([]) ==> ReadEvent(r).text == ""
  {
    if r.Received? {
      ParseFormat(r.data);
    }
  }
}

/** The nonblocking echo server's connection: what its callbacks do with whatever the socket does. */
module Echo {

  type Byte = b: int | 0 <= b < 256

  /** Error codes, as far as the handlers tell them apart. */
  datatype Error = None | WouldBlock | Other

  datatype Direction = Reading | Writing

  /** A handler runs: its wait ended with the first code; a transfer, made only without an error, moved data and
      ended with the second code. */
  datatype Event =
    | Readable(wait: Error, data: seq<Byte>, after: Error)
    | Writable(wait: Error, count: nat, after: Error)

  datatype State = State(direction: Direction, writeBuffer: seq<Byte>, readInProgress: bool, writeInProgress: bool,
                         open: bool)

  /** What asio can make of an event in a state: the wait is outstanding, and no more goes out than there is. */
  predicate Possible(s: State, e: Event) {
    s.open &&
    match e
    case Readable(_, _, _) => s.readInProgress
    case Writable(_, count, _) => s.writeInProgress && count <= |s.writeBuffer|
  }

  function Operations(s: State): State {
    var r := if s.direction == Reading && !s.readInProgress then s.(readInProgress := true) else s;
    if r.direction == Writing && !r.writeInProgress then r.(writeInProgress := true) else r
  }

  function Continue(s: State, code: Error): State {
    if code == Other then s.(open := false) else Operations(s)
  }

  function SessionRead(s: State, data: seq<Byte>): State {
    if data == [] then s else s.(writeBuffer := data, direction := Writing)
  }

  function SessionWrite(s: State, count: nat): State
    requires count <= |s.writeBuffer|
  {
    var rest := s.writeBuffer[count..];
    if count == 0 then s else s.(writeBuffer := rest, direction := if rest == [] then Reading else Writing)
  }

  function Handle(s: State, e: Event): State
    requires Possible(s, e)
  {
    match e
    case Readable(wait, data, after) =>
      var t := s.(readInProgress := false);
      if wait == None then Continue(SessionRead(t, data), after) else Continue(t, wait)
    case Writable(wait, count, after) =>
      var t := s.(writeInProgress := false);
      if wait == None then Continue(SessionWrite(t, count), after) else Continue(t, wait)
  }

  const STARTED := Operations(State(Reading, [], false, false, true))

  /** The bytes an event takes from the socket. */
  function Incoming(e: Event): seq<Byte> {
    if e.Readable? && e.wait == None then e.data else []
  }

  /** The bytes an event gives to the socket. */
  function Outgoing(s: State, e: Event): seq<Byte>
    requires Possible(s, e)
  {
    if e.Writable? && e.wait == None then s.writeBuffer[..e.count] else []
  }

  /** A run: the state reached, and all the bytes that have come in and gone out. */
  datatype Run = Run(state: State, read: seq<Byte>, written: seq<Byte>)

  /** r is what the events lead to, each of them possible when it happens. */
  ghost predicate Leads(events: seq<Event>, r: Run) {
    if events == [] then r == Run(STARTED, [], [])
    else
      var e := events[|events| - 1];
      exists b :: Leads(events[..|events| - 1], b) && Possible(b.state, e) && r == Extended(b, e)
  }

  function Extended(b: Run, e: Event): Run
    requires Possible(b.state, e)
  {
    Run(Handle(b.state, e), b.read + Incoming(e), b.written + Outgoing(b.state, e))
  }

  /** Between handlers an open connection waits for exactly one thing, the one its direction names,
      and it is writing just when there is something to write. */
  ghost predicate Sound(s: State) {
    && (s.direction == Writing <==> s.writeBuffer != [])
    && (s.open ==> (s.readInProgress <==> s.direction == Reading) && (s.writeInProgress <==> s.direction == Writing))
  }

  lemma HandleKeepsSound(s: State, e: Event)
    requires Possible(s, e) && Sound(s)
    ensures Sound(Handle(s, e))
  {
  }

  /** What a write sends and what it leaves are what was to be sent. */
  lemma WriteSplits(written: seq<Byte>, buffer: seq<Byte>, count: nat)
    requires count <= |buffer|
    ensures (written + buffer[..count]) + buffer[count..] == written + buffer
  {
    assert buffer[..count] + buffer[count..] == buffer;
  }

  /** The bytes to send after an event are those before it less what goes out, or what has come in. */
  lemma BufferAfter(s: State, e: Event)
    requires Possible(s, e) && Sound(s)
    ensures e.Writable? ==>
              Handle(s, e).writeBuffer == (if e.wait == None then s.writeBuffer[e.count..] else s.writeBuffer)
    ensures e.Readable? ==> s.writeBuffer == [] && Handle(s, e).writeBuffer == Incoming(e)
  {
  }

  lemma HandleKeepsTheStream(b: Run, e: Event)
    requires Possible(b.state, e) && Sound(b.state) && b.written + b.state.writeBuffer == b.read
    ensures Sound(Extended(b, e).state)
    ensures Extended(b, e).written + Extended(b, e).state.writeBuffer == Extended(b, e).read
  {
    HandleKeepsSound(b.state, e);
    BufferAfter(b.state, e);
    if e.Writable? {
      WriteSplits(b.written, b.state.writeBuffer, e.count);
    }
  }

  /** Whatever the socket does, what has come in is what has gone out and what is waiting to, in order. */
  lemma {:induction false} EchoesTheStream(events: seq<Event>, r: Run)
    requires Leads(events, r)
    ensures r.written + r.state.writeBuffer == r.read
    ensures Sound(r.state)
    decreases |events|
  {
    if events != [] {
      var e := events[|events| - 1];
      var b :| Leads(events[..|events| - 1], b) && Possible(b.state, e) && r == Extended(b, e);
      EchoesTheStream(events[..|events| - 1], b);
      HandleKeepsTheStream(b, e);
    }
  }

  /** An open connection never stops: the handler of its outstanding wait is possible, and no other is. */
  lemma OneHandlerIsPossible(events: seq<Event>, r: Run, e: Event)
    requires Leads(events, r) && r.state.open
    requires e.Writable? ==> e.count <= |r.state.writeBuffer|
    ensures Possible(r.state, e) <==> (e.Readable? <==> r.written == r.read)
  {
    EchoesTheStream(events, r);
  }

  /** A connection stays open exactly unless its wait fails or its transfer does; once closed it does nothing more. */
  lemma StaysOpenExactlyWhen(events: seq<Event>, b: Run, e: Event)
    requires Leads(events, b)
    ensures !b.state.open ==> !Possible(b.state, e)
    ensures Possible(b.state, e) ==>
              (Extended(b, e).state.open <==> !(e.wait == Other || (e.wait == None && e.after == Other)))
  {
  }

  /** What an event moves: without an error of its wait, the bytes read come in and wait to be written, and a write
      takes as many as it can from the front of those that wait. */
  lemma EventsMoveBytes(events: seq<Event>, b: Run, e: Event)
    requires Leads(events, b) && Possible(b.state, e)
    ensures
      var r := Extended(b, e);
      match e
      case Readable(wait, data, _) =>
        var moved := if wait == None then data else [];
        r.read == b.read + moved && r.written == b.written && r.state.writeBuffer == moved
      case Writable(wait, count, _) =>
        var sent := if wait == None then count else 0;
        r.read == b.read && r.written == b.written + b.state.writeBuffer[..sent] &&
        r.state.writeBuffer == b.state.writeBuffer[sent..]
  {
    EchoesTheStream(events, b);
    BufferAfter(b.state, e);
  }

  predicate Fails(e: Event) {
    e.wait == Other || (e.wait == None && e.after == Other)
  }

  /** Without a failure a connection is open. */
  lemma {:induction false} OpenWithoutFailure(events: seq<Event>, r: Run)
    requires Leads(events, r) && forall k | 0 <= k < |events| :: !Fails(events[k])
    ensures r.state.open
    decreases |events|
  {
    if events != [] {
      var e := events[|events| - 1];
      var b :| Leads(events[..|events| - 1], b) && Possible(b.state, e) && r == Extended(b, e);
      OpenWithoutFailure(events[..|events| - 1], b);
      StaysOpenExactlyWhen(events[..|events| - 1], b, e);
    }
  }

  /** What has come in goes out: while no event has failed, a read may bring any bytes as soon as nothing waits to be
      written, and else one write can send all that waits; after it everything read has been written. */
  lemma CanAlwaysEcho(events: seq<Event>, r: Run, e: Event)
    requires Leads(events, r) && forall k | 0 <= k < |events| :: !Fails(events[k])
    requires e.wait == None && e.after != Other
    ensures e.Readable? && r.written == r.read ==> Possible(r.state, e) && Extended(r, e).state.open
    ensures e.Writable? && r.written != r.read && e.count == |r.state.writeBuffer| ==>
              && Possible(r.state, e) && Extended(r, e).state.open
              && Extended(r, e).written == Extended(r, e).read == r.read
  {
    OpenWithoutFailure(events, r);
    EchoesTheStream(events, r);
    StaysOpenExactlyWhen(events, r, e);
    if Possible(r.state, e) {
      EventsMoveBytes(events, r, e);
      HandleKeepsTheStream(r, e);
    }
  }

  /** An event that closes the connection leaves nothing unsent exactly when it is a failed wait for reading, a failed
      read that brought nothing, or a failed write that sent all there was. */
  lemma ClosingLosesNothingExactlyWhen(events: seq<Event>, b: Run, e: Event)
    requires Leads(events, b) && Possible(b.state, e) && !Extended(b, e).state.open
    ensures Extended(b, e).written == Extended(b, e).read <==>
      match e
      case Readable(wait, data, _) => wait == Other || data == []
      case Writable(wait, count, _) => wait == None && count == |b.state.writeBuffer|
  {
    EchoesTheStream(events, b);
    HandleKeepsTheStream(b, e);
  }

  /** A peer that sends a request and closes its side gets no answer: the read brings bytes and an error together. */
  lemma HalfCloseLosesTheRequest(data: seq<Byte>) returns (r: Run)
    requires data != []
    ensures Leads([Readable(None, data, Other)], r)
    ensures !r.state.open && r.read == data && r.written == [] != r.read
  {
    var e := Readable(None, data, Other);
    assert [e][..0] == [];
    assert Leads([], Run(STARTED, [], []));
    r := Extended(Run(STARTED, [], []), e);
  }

  /** The connection and its session, whose fields the callbacks change. */
  class Connection {
    var direction: Direction
    var writeBuffer: seq<Byte>
    var readInProgress: bool
    var writeInProgress: bool
    var open: bool

    ghost function View(): State
      reads this
    {
      State(direction, writeBuffer, readInProgress, writeInProgress, open)
    }

    constructor ()
      ensures View() == STARTED
    {
      direction, writeBuffer, open := Reading, [], true;
      readInProgress, writeInProgress := false, false;
      new;
      Operate();
    }

    /** Ask for the wait that the session is ready for, unless it is outstanding. */
    method Operate()
      modifies this`readInProgress, this`writeInProgress
      ensures View() == Operations(old(View()))
    {
      if direction == Reading && !readInProgress {
        readInProgress := true;
      }
      if direction == Writing && !writeInProgress {
        writeInProgress := true;
      }
    }

    method OnReadable(wait: Error, data: seq<Byte>, after: Error)
      requires Possible(View(), Readable(wait, data, after))
      modifies this
      ensures View() == Handle(old(View()), Readable(wait, data, after))
    {
      readInProgress := false;
      var code := wait;
      if code == None {
        if data != [] {
          writeBuffer := data;
          direction := Writing;
        }
        code := after;
      }
      if code != Other {
        Operate();
      } else {
        open := false;
      }
    }

    method OnWritable(wait: Error, count: nat, after: Error)
      requires Possible(View(), Writable(wait, count, after))
      modifies this
      ensures View() == Handle(old(View()), Writable(wait, count, after))
    {
      writeInProgress := false;
      var code := wait;
      if code == None {
        if count != 0 {
          writeBuffer := writeBuffer[count..];
          direction := if |writeBuffer| > 0 then Writing else Reading;
        }
        code := after;
      }
      if code != Other {
        Operate();
      } else {
        open := false;
      }
    }
  }
}

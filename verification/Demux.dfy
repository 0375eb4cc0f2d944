/** The HTTP/3 client's demultiplexer: which response events end up in which request, web socket or push. */
module Demux {

  type StreamId = nat

  datatype PushId = NoPush | Push(id: nat)

  /** The events of the HTTP layer, and what tells two of the same kind apart. */
  datatype Event =
    | HeadersReceived(stream: StreamId, ended: bool, push: PushId, content: int)
    | DataReceived(stream: StreamId, ended: bool, push: PushId, content: int)
    | PushPromise(promised: nat, content: int)
    | OtherEvent

  /** A call of _request or websocket, with the stream id it is given, or an event. */
  datatype Input = Request(id: StreamId) | OpenSocket(id: StreamId) | Received(event: Event)

  /** The dictionaries, and the results of the futures that have been resolved. */
  datatype State = State(
    requestEvents: map<StreamId, seq<Event>>, requestWaiter: set<StreamId>,
    sockets: map<StreamId, seq<Event>>, pushes: map<nat, seq<Event>>,
    results: map<StreamId, seq<Event>>)

  const EMPTY := State(map[], {}, map[], map[], map[])

  function Dispatch(s: State, e: Event): State {
    match e
    case HeadersReceived(_, _, _, _) => OnStream(s, e)
    case DataReceived(_, _, _, _) => OnStream(s, e)
    case PushPromise(promised, _) => s.(pushes := s.pushes[promised := [e]])
    case OtherEvent => s
  }

  /** An event of headers or data. */
  function OnStream(s: State, e: Event): State
    requires e.HeadersReceived? || e.DataReceived?
  {
    if e.stream in s.requestEvents then
      var events := s.requestEvents[e.stream] + [e];
      if e.ended then
        s.(requestWaiter := s.requestWaiter - {e.stream}, requestEvents := s.requestEvents - {e.stream},
           results := s.results[e.stream := events])
      else s.(requestEvents := s.requestEvents[e.stream := events])
    else if e.stream in s.sockets then s.(sockets := s.sockets[e.stream := s.sockets[e.stream] + [e]])
    else if e.push.Push? && e.push.id in s.pushes then s.(pushes := s.pushes[e.push.id := s.pushes[e.push.id] + [e]])
    else s
  }

  function Accept(s: State, i: Input): State {
    match i
    case Request(id) => s.(requestEvents := s.requestEvents[id := []], requestWaiter := s.requestWaiter + {id})
    case OpenSocket(id) => s.(sockets := s.sockets[id := []])
    case Received(e) => Dispatch(s, e)
  }

  function Run(trace: seq<Input>): State {
    if trace == [] then EMPTY else Accept(Run(trace[..|trace| - 1]), trace[|trace| - 1])
  }

  predicate Opens(i: Input) {
    i.Request? || i.OpenSocket?
  }

  /** A stream id is given out once. */
  ghost predicate Fresh(trace: seq<Input>) {
    forall i, j | 0 <= i < j < |trace| && Opens(trace[i]) && Opens(trace[j]) :: trace[i].id != trace[j].id
  }

  // ---------- What each consumer is meant to see ----------

  predicate Requested(trace: seq<Input>, id: StreamId) {
    Request(id) in trace
  }

  /** An input that brings headers or data on the stream. */
  predicate Brings(i: Input, id: StreamId) {
    match i
    case Received(HeadersReceived(stream, _, _, _)) => stream == id
    case Received(DataReceived(stream, _, _, _)) => stream == id
    case _ => false
  }

  /** An event that ends its stream. */
  predicate Ends(e: Event) {
    match e
    case HeadersReceived(_, ended, _, _) => ended
    case DataReceived(_, ended, _, _) => ended
    case _ => false
  }

  /** The events on the stream from its request on, up to the first that ends it. */
  function Response(trace: seq<Input>, id: StreamId): seq<Event> {
    if trace == [] then []
    else
      var before, i := trace[..|trace| - 1], trace[|trace| - 1];
      var r := Response(before, id);
      if Brings(i, id) && Requested(before, id) && !IsComplete(r) then r + [i.event] else r
  }

  predicate IsComplete(r: seq<Event>) {
    r != [] && Ends(r[|r| - 1])
  }

  /** All events on the stream since it was opened. */
  function Messages(trace: seq<Input>, id: StreamId): seq<Event> {
    if trace == [] then []
    else
      var before, i := trace[..|trace| - 1], trace[|trace| - 1];
      if Brings(i, id) && OpenSocket(id) in before then Messages(before, id) + [i.event] else Messages(before, id)
  }

  /** The stream belongs to an unanswered request or to a web socket. */
  predicate Claimed(trace: seq<Input>, id: StreamId) {
    (Requested(trace, id) && !IsComplete(Response(trace, id))) || OpenSocket(id) in trace
  }

  /** An input that promises push p. */
  predicate Promises(i: Input, p: nat) {
    match i
    case Received(PushPromise(promised, _)) => promised == p
    case _ => false
  }

  predicate Promised(trace: seq<Input>, p: nat) {
    exists k | 0 <= k < |trace| :: Promises(trace[k], p)
  }

  /** An input that brings headers or data for push p on a stream that nobody has claimed. */
  predicate BringsPush(before: seq<Input>, i: Input, p: nat) {
    match i
    case Received(HeadersReceived(stream, _, push, _)) => push == Push(p) && !Claimed(before, stream)
    case Received(DataReceived(stream, _, push, _)) => push == Push(p) && !Claimed(before, stream)
    case _ => false
  }

  /** The last promise of push p and the events for it since. */
  function PushEvents(trace: seq<Input>, p: nat): seq<Event> {
    if trace == [] then []
    else
      var before, i := trace[..|trace| - 1], trace[|trace| - 1];
      if Promises(i, p) then [i.event]
      else if BringsPush(before, i, p) && Promised(before, p) then PushEvents(before, p) + [i.event]
      else PushEvents(before, p)
  }

  ghost predicate ExplainsPush(s: State, trace: seq<Input>, p: nat) {
    (p in s.pushes <==> Promised(trace, p)) && (p in s.pushes ==> s.pushes[p] == PushEvents(trace, p))
  }

  /** What the dictionaries say of one stream, in terms of the trace alone. */
  ghost predicate Explains(s: State, trace: seq<Input>, id: StreamId) {
    var r := Response(trace, id);
    && (id in s.requestWaiter <==> id in s.requestEvents)
    && (id in s.requestEvents <==> Requested(trace, id) && !IsComplete(r))
    && (id in s.requestEvents ==> s.requestEvents[id] == r)
    && (id in s.results <==> Requested(trace, id) && IsComplete(r))
    && (id in s.results ==> s.results[id] == r)
    && (id in s.sockets <==> OpenSocket(id) in trace)
    && (id in s.sockets ==> s.sockets[id] == Messages(trace, id))
  }

  lemma {:induction false} NothingBeforeRequest(trace: seq<Input>, id: StreamId)
    requires !Requested(trace, id)
    ensures Response(trace, id) == []
  {
    if trace != [] {
      NothingBeforeRequest(trace[..|trace| - 1], id);
    }
  }

  lemma {:induction false} NothingBeforeOpening(trace: seq<Input>, id: StreamId)
    requires OpenSocket(id) !in trace
    ensures Messages(trace, id) == []
  {
    if trace != [] {
      NothingBeforeOpening(trace[..|trace| - 1], id);
    }
  }

  /** One input more. */
  lemma ResponseNext(trace: seq<Input>, i: Input, id: StreamId)
    ensures Response(trace + [i], id) ==
            if Brings(i, id) && Requested(trace, id) && !IsComplete(Response(trace, id))
            then Response(trace, id) + [i.event] else Response(trace, id)
  {
    assert (trace + [i])[..|trace + [i]| - 1] == trace;
  }

  lemma MessagesNext(trace: seq<Input>, i: Input, id: StreamId)
    ensures Messages(trace + [i], id) ==
            if Brings(i, id) && OpenSocket(id) in trace then Messages(trace, id) + [i.event] else Messages(trace, id)
  {
    assert (trace + [i])[..|trace + [i]| - 1] == trace;
  }

  lemma CallExplains(s: State, trace: seq<Input>, i: Input, id: StreamId)
    requires Explains(s, trace, id) && Fresh(trace + [i]) && Opens(i)
    ensures Explains(Accept(s, i), trace + [i], id)
  {
    ResponseNext(trace, i, id);
    MessagesNext(trace, i, id);
    if i.id == id {
      assert Request(id) !in trace && OpenSocket(id) !in trace by {
        forall k | 0 <= k < |trace| ensures trace[k] != Request(id) && trace[k] != OpenSocket(id) {
          assert (trace + [i])[k] == trace[k] && (trace + [i])[|trace|] == i;
        }
      }
      NothingBeforeRequest(trace, id);
      NothingBeforeOpening(trace, id);
    }
  }

  /** An event for another stream, or for none, changes nothing that the dictionaries say of this one. */
  lemma EventElsewhere(s: State, i: Input, id: StreamId)
    requires i.Received? && !Brings(i, id)
    ensures
      var t := Accept(s, i);
      && (id in t.requestWaiter <==> id in s.requestWaiter)
      && (id in t.requestEvents <==> id in s.requestEvents)
      && (id in s.requestEvents ==> t.requestEvents[id] == s.requestEvents[id])
      && (id in t.results <==> id in s.results) && (id in s.results ==> t.results[id] == s.results[id])
      && (id in t.sockets <==> id in s.sockets) && (id in s.sockets ==> t.sockets[id] == s.sockets[id])
  {
  }

  lemma EventElsewhereExplains(s: State, trace: seq<Input>, i: Input, id: StreamId)
    requires Explains(s, trace, id) && i.Received? && !Brings(i, id)
    ensures Explains(Accept(s, i), trace + [i], id)
  {
    EventElsewhere(s, i, id);
    ResponseNext(trace, i, id);
    MessagesNext(trace, i, id);
    assert Request(id) in trace + [i] <==> Request(id) in trace;
    assert OpenSocket(id) in trace + [i] <==> OpenSocket(id) in trace;
  }

  lemma EventExplains(s: State, trace: seq<Input>, i: Input, id: StreamId)
    requires Explains(s, trace, id) && Fresh(trace) && Brings(i, id)
    ensures Explains(Accept(s, i), trace + [i], id)
  {
    ResponseNext(trace, i, id);
    MessagesNext(trace, i, id);
    NotBoth(trace, id);
    assert Request(id) in trace + [i] <==> Request(id) in trace;
    assert OpenSocket(id) in trace + [i] <==> OpenSocket(id) in trace;
  }

  lemma AcceptExplains(s: State, trace: seq<Input>, i: Input, id: StreamId)
    requires Explains(s, trace, id) && Fresh(trace + [i])
    ensures Explains(Accept(s, i), trace + [i], id)
  {
    if Opens(i) {
      CallExplains(s, trace, i, id);
    } else if Brings(i, id) {
      assert Fresh(trace) by {
        assert forall k | 0 <= k < |trace| :: (trace + [i])[k] == trace[k];
      }
      EventExplains(s, trace, i, id);
    } else {
      EventElsewhereExplains(s, trace, i, id);
    }
  }

  lemma AcceptExplainsPush(s: State, trace: seq<Input>, i: Input, p: nat)
    requires ExplainsPush(s, trace, p)
    requires forall id | Brings(i, id) :: Explains(s, trace, id)
    ensures ExplainsPush(Accept(s, i), trace + [i], p)
  {
    var after := trace + [i];
    assert after[..|after| - 1] == trace;
    assert Promised(after, p) <==> Promised(trace, p) || Promises(i, p) by {
      if k :| 0 <= k < |trace| && Promises(trace[k], p) {
        assert after[k] == trace[k];
      }
      assert after[|trace|] == i;
      assert forall k | 0 <= k < |trace| :: after[k] == trace[k];
    }
    if i.Received? && (i.event.HeadersReceived? || i.event.DataReceived?) {
      assert Brings(i, i.event.stream);
    }
  }

  /** No stream is both a request's and a socket's. */
  lemma NotBoth(trace: seq<Input>, id: StreamId)
    requires Fresh(trace)
    ensures !(Request(id) in trace && OpenSocket(id) in trace)
  {
  }

  /** After every trace, each dictionary holds exactly what its consumer is meant to see: an unanswered request the
      events so far, a resolved future its stream's events in order up to the first that ends the stream, a web
      socket all events of its stream, a push its last promise and the events for it on unclaimed streams. */
  lemma {:induction false} DictionariesExplained(trace: seq<Input>)
    requires Fresh(trace)
    ensures forall id :: Explains(Run(trace), trace, id)
    ensures forall p :: ExplainsPush(Run(trace), trace, p)
    ensures Run(trace).requestEvents.Keys == Run(trace).requestWaiter
  {
    if trace != [] {
      var before, i := trace[..|trace| - 1], trace[|trace| - 1];
      assert before + [i] == trace;
      DictionariesExplained(before);
      forall id ensures Explains(Run(trace), trace, id) {
        AcceptExplains(Run(before), before, i, id);
      }
      forall p ensures ExplainsPush(Run(trace), trace, p) {
        AcceptExplainsPush(Run(before), before, i, p);
      }
    }
    forall id ensures id in Run(trace).requestEvents.Keys <==> id in Run(trace).requestWaiter {
      assert Explains(Run(trace), trace, id);
    }
  }

  // ---------- The same, for the events after a call ----------

  /** All headers and data on the stream, in order. */
  function StreamEvents(inputs: seq<Input>, id: StreamId): (es: seq<Event>)
    ensures forall k | 0 <= k < |es| :: (es[k].HeadersReceived? || es[k].DataReceived?) && es[k].stream == id
  {
    if inputs == [] then []
    else
      var i, before := inputs[|inputs| - 1], StreamEvents(inputs[..|inputs| - 1], id);
      match i
      case Received(HeadersReceived(stream, _, _, _)) => if stream == id then before + [i.event] else before
      case Received(DataReceived(stream, _, _, _)) => if stream == id then before + [i.event] else before
      case _ => before
  }

  /** The events up to the first that ends the stream. */
  function UpToEnd(es: seq<Event>): seq<Event> {
    if es == [] then [] else if Ends(es[0]) then [es[0]] else [es[0]] + UpToEnd(es[1..])
  }

  predicate HasEnd(es: seq<Event>) {
    exists k | 0 <= k < |es| :: Ends(es[k])
  }

  lemma {:induction false} UpToEndNext(es: seq<Event>, e: Event)
    ensures UpToEnd(es + [e]) == if HasEnd(es) then UpToEnd(es) else es + [e]
    ensures !HasEnd(es) ==> UpToEnd(es) == es
    ensures IsComplete(UpToEnd(es)) <==> HasEnd(es)
  {
    if es == [] {
      assert [e][1..] == [];
    } else {
      var rest := es[1..];
      UpToEndNext(rest, e);
      assert (es + [e])[1..] == rest + [e];
      assert HasEnd(es) <==> Ends(es[0]) || HasEnd(rest) by {
        if k :| 0 <= k < |rest| && Ends(rest[k]) {
          assert Ends(es[k + 1]);
        }
        if k :| 0 <= k < |es| && Ends(es[k]) {
          assert k > 0 ==> Ends(rest[k - 1]);
        }
      }
      if !Ends(es[0]) && rest != [] {
        assert UpToEnd(es)[|UpToEnd(es)| - 1] == UpToEnd(rest)[|UpToEnd(rest)| - 1];
      }
    }
  }

  lemma {:induction false} ResponseAfterRequest(before: seq<Input>, after: seq<Input>, id: StreamId)
    requires Request(id) !in before
    ensures Response(before + [Request(id)] + after, id) == UpToEnd(StreamEvents(after, id))
    decreases |after|
  {
    var trace := before + [Request(id)] + after;
    if after == [] {
      assert trace[..|trace| - 1] == before;
      NothingBeforeRequest(before, id);
    } else {
      var i, inner := after[|after| - 1], after[..|after| - 1];
      ResponseAfterRequest(before, inner, id);
      var earlier := before + [Request(id)] + inner;
      assert trace == earlier + [i];
      assert earlier[|before|] == Request(id);
      ResponseNext(earlier, i, id);
      StreamEventsNext(inner, i, id);
      assert inner + [i] == after;
      UpToEndNext(StreamEvents(inner, id), if i.Received? then i.event else OtherEvent);
    }
  }

  lemma StreamEventsNext(inputs: seq<Input>, i: Input, id: StreamId)
    ensures StreamEvents(inputs + [i], id) ==
            if Brings(i, id) then StreamEvents(inputs, id) + [i.event] else StreamEvents(inputs, id)
  {
    assert (inputs + [i])[..|inputs + [i]| - 1] == inputs;
  }

  lemma {:induction false} MessagesAfterOpening(before: seq<Input>, after: seq<Input>, id: StreamId)
    requires OpenSocket(id) !in before
    ensures Messages(before + [OpenSocket(id)] + after, id) == StreamEvents(after, id)
    decreases |after|
  {
    var trace := before + [OpenSocket(id)] + after;
    if after == [] {
      assert trace[..|trace| - 1] == before;
      NothingBeforeOpening(before, id);
    } else {
      var inner := after[..|after| - 1];
      MessagesAfterOpening(before, inner, id);
      var earlier := before + [OpenSocket(id)] + inner;
      assert trace[..|trace| - 1] == earlier && trace[|trace| - 1] == after[|after| - 1];
      assert earlier[|before|] == OpenSocket(id);
    }
  }

  lemma NotCalledBefore(before: seq<Input>, call: Input, after: seq<Input>)
    requires Opens(call) && Fresh(before + [call] + after)
    ensures forall k | 0 <= k < |before| && Opens(before[k]) :: before[k].id != call.id
  {
    var trace := before + [call] + after;
    forall k | 0 <= k < |before| && Opens(before[k]) ensures before[k].id != call.id {
      assert trace[k] == before[k] && trace[|before|] == call;
    }
  }

  /** The events on the stream after a request: until one ends the stream they all wait for it, and then the future has
      them, up to the first that ends it. */
  lemma FutureGetsItsEvents(before: seq<Input>, after: seq<Input>, id: StreamId)
    requires Fresh(before + [Request(id)] + after)
    ensures
      var s, es := Run(before + [Request(id)] + after), StreamEvents(after, id);
      if exists k | 0 <= k < |es| :: es[k].ended
      then id in s.results && s.results[id] == UpToEnd(es) && id !in s.requestWaiter
      else id in s.requestEvents && s.requestEvents[id] == es && id in s.requestWaiter && id !in s.results
  {
    var trace := before + [Request(id)] + after;
    NotCalledBefore(before, Request(id), after);
    ResponseAfterRequest(before, after, id);
    DictionariesExplained(trace);
    assert Explains(Run(trace), trace, id);
    assert trace[|before|] == Request(id);
    UpToEndNext(StreamEvents(after, id), OtherEvent);
  }

  /** A web socket gets all headers and data on its stream. */
  lemma SocketGetsItsEvents(before: seq<Input>, after: seq<Input>, id: StreamId)
    requires Fresh(before + [OpenSocket(id)] + after)
    ensures
      var s := Run(before + [OpenSocket(id)] + after);
      id in s.sockets && s.sockets[id] == StreamEvents(after, id)
  {
    var trace := before + [OpenSocket(id)] + after;
    NotCalledBefore(before, OpenSocket(id), after);
    MessagesAfterOpening(before, after, id);
    DictionariesExplained(trace);
    assert Explains(Run(trace), trace, id);
    assert trace[|before|] == OpenSocket(id);
  }

  /** The headers and data for push p on unclaimed streams among the inputs after the first ones. */
  function PushStream(first: seq<Input>, after: seq<Input>, p: nat): seq<Event> {
    if after == [] then []
    else
      var i, inner := after[|after| - 1], after[..|after| - 1];
      var before := PushStream(first, inner, p);
      match i
      case Received(HeadersReceived(stream, _, Push(id), _)) =>
        if id == p && !Claimed(first + inner, stream) then before + [i.event] else before
      case Received(DataReceived(stream, _, Push(id), _)) =>
        if id == p && !Claimed(first + inner, stream) then before + [i.event] else before
      case _ => before
  }

  lemma {:induction false} PushEventsAfterPromise(first: seq<Input>, after: seq<Input>, e: Event, p: nat)
    requires first != [] && first[|first| - 1] == Received(e) && e.PushPromise? && e.promised == p
    requires forall k | 0 <= k < |after| :: !Promises(after[k], p)
    ensures PushEvents(first + after, p) == [e] + PushStream(first, after, p)
    decreases |after|
  {
    var trace := first + after;
    if after == [] {
      assert trace == first;
    } else {
      var inner := after[..|after| - 1];
      PushEventsAfterPromise(first, inner, e, p);
      assert trace[..|trace| - 1] == first + inner && trace[|trace| - 1] == after[|after| - 1];
      assert !Promises(after[|after| - 1], p);
      assert Promised(first + inner, p) by {
        assert Promises((first + inner)[|first| - 1], p);
      }
    }
  }

  /** A push has its last promise and then the headers and data for it on streams that nobody has claimed. */
  lemma PushGetsItsEvents(before: seq<Input>, e: Event, after: seq<Input>, p: nat)
    requires Fresh(before + [Received(e)] + after) && e.PushPromise? && e.promised == p
    requires forall k | 0 <= k < |after| :: !Promises(after[k], p)
    ensures
      var s := Run(before + [Received(e)] + after);
      p in s.pushes && s.pushes[p] == [e] + PushStream(before + [Received(e)], after, p)
  {
    var trace := before + [Received(e)] + after;
    PushEventsAfterPromise(before + [Received(e)], after, e, p);
    DictionariesExplained(trace);
    assert ExplainsPush(Run(trace), trace, p);
    assert Promises(trace[|before|], p);
  }

  /** A future is resolved at most once: its result never changes, and no waiter for its stream is left. */
  lemma ResultsAreFinal(trace: seq<Input>, i: Input, id: StreamId)
    requires Fresh(trace + [i]) && id in Run(trace).results
    ensures id in Run(trace + [i]).results && Run(trace + [i]).results[id] == Run(trace).results[id]
    ensures id !in Run(trace + [i]).requestWaiter
  {
    assert (trace + [i])[..|trace|] == trace;
    DictionariesExplained(trace + [i]);
    assert Fresh(trace) by {
      assert forall k | 0 <= k < |trace| :: (trace + [i])[k] == trace[k];
    }
    DictionariesExplained(trace);
    assert Explains(Run(trace), trace, id) && Explains(Run(trace + [i]), trace + [i], id);
  }

  // ---------- The client, whose methods update the dictionaries ----------

  class HttpClient {
    var requestEvents: map<StreamId, seq<Event>>
    var requestWaiter: set<StreamId>
    var sockets: map<StreamId, seq<Event>>
    var pushes: map<nat, seq<Event>>
    var results: map<StreamId, seq<Event>>

    ghost function View(): State
      reads this
    {
      State(requestEvents, requestWaiter, sockets, pushes, results)
    }

    constructor ()
      ensures View() == EMPTY
    {
      requestEvents, requestWaiter, sockets, pushes, results := map[], {}, map[], map[], map[];
    }

    method SendRequest(id: StreamId)
      modifies this`requestEvents, this`requestWaiter
      ensures View() == Accept(old(View()), Request(id))
    {
      requestEvents := requestEvents[id := []];
      requestWaiter := requestWaiter + {id};
    }

    method OpenWebSocket(id: StreamId)
      modifies this`sockets
      ensures View() == Accept(old(View()), OpenSocket(id))
    {
      sockets := sockets[id := []];
    }

    /** Taking the waiter of a stream fails without one; with equal key sets it cannot. */
    method HttpEventReceived(event: Event)
      requires requestEvents.Keys == requestWaiter
      modifies this
      ensures View() == Accept(old(View()), Received(event))
      ensures requestEvents.Keys == requestWaiter
    {
      if event.HeadersReceived? || event.DataReceived? {
        var id := event.stream;
        if id in requestEvents {
          requestEvents := requestEvents[id := requestEvents[id] + [event]];
          if event.ended {
            assert id in requestWaiter;
            requestWaiter := requestWaiter - {id};
            results := results[id := requestEvents[id]];
            requestEvents := requestEvents - {id};
            assert requestEvents == old(requestEvents) - {id};
          }
        } else if id in sockets {
          sockets := sockets[id := sockets[id] + [event]];
        } else if event.push.Push? && event.push.id in pushes {
          pushes := pushes[event.push.id := pushes[event.push.id] + [event]];
        }
      } else if event.PushPromise? {
        pushes := pushes[event.promised := []];
        pushes := pushes[event.promised := pushes[event.promised] + [event]];
        assert [] + [event] == [event];
        assert pushes == old(pushes)[event.promised := [event]];
      }
    }
  }
}

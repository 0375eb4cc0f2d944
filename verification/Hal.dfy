/** HAL's three aspects around the messages that crew members send to the on-board computer.
    For one message the declared precedence gives: Logger, then LifeSupport, then Authorization, then the computer. */
module Hal {

  datatype Message = GetStatus | GetDate | GetMissionPurpose | ShutDown {
    function Name(): string {
      match this
      case GetStatus => "getStatus"
      case GetDate => "getDate"
      case GetMissionPurpose => "getMissionPurpose"
      case ShutDown => "shutDown"
    }
  }

  /** A line of the system log, without its time in milliseconds. */
  datatype Entry = Entry(caller: string, callee: string, operation: string)

  /** What the officer gets back. Computer stands for the computer's own answer. */
  datatype Reply = Nothing | Text(text: string) | Computer(m: Message)

  /** Officers are numbered; requests[o] is the officer's entry in the counter map, 0 if it has none. */
  datatype State = State(requests: seq<nat>, alive: seq<bool>, log: seq<Entry>, console: seq<string>)

  /** The people on board, and the computer's name. */
  datatype Crew = Crew(names: seq<string>, system: string)

  function Start(crew: Crew): State {
    State(seq(|crew.names|, _ => 0), seq(|crew.names|, _ => true), [], [])
  }

  predicate Fits(s: State, crew: Crew) {
    |s.requests| == |s.alive| == |crew.names|
  }

  function Confidential(name: string): string {
    "HAL cannot disclose that information" + " " + name
  }

  /** What the officer's n-th request brings on the screen. */
  function Warning(n: nat, name: string): seq<string> {
    if n == 1 then ["Can’t do that " + name + "."]
    else if n == 2 then ["Can’t do that " + name + " and do not ask me again."]
    else if n == 3 then ["You are being retired " + name + "."]
    else []
  }

  /** The innermost advice, for an officer that LifeSupport has found alive. Without it the computer answers. */
  function Authorize(s: State, crew: Crew, o: nat, m: Message): (State, Reply)
    requires Fits(s, crew) && o < |crew.names|
  {
    match m
    case GetStatus => (s, Computer(m))
    case GetDate => (s, Computer(m))
    case GetMissionPurpose => (s, Text(if s.alive[o] then Confidential(crew.names[o]) else ""))
    case ShutDown =>
      var n := s.requests[o] + 1;
      var t := s.(requests := s.requests[o := n], console := s.console + Warning(n, crew.names[o]));
      (if n == 3 then t.(log := t.log + [Entry("Authorization", crew.names[o], "kill")], alive := t.alive[o := false])
       else t, Nothing)
  }

  /** A message of officer o through all three aspects. */
  function Deliver(s: State, crew: Crew, o: nat, m: Message): (State, Reply)
    requires Fits(s, crew) && o < |crew.names|
  {
    var logged := s.(log := s.log + [Entry("Crew", crew.system, m.Name()),
                                    Entry("LifeSupport", crew.names[o], "getLifeStatus")]);
    if s.alive[o] then Authorize(logged, crew, o, m)
    else (logged, if m == ShutDown then Nothing else Text(""))
  }

  /** An officer and the message it sends. */
  datatype Call = Call(officer: nat, message: Message)

  predicate Valid(calls: seq<Call>, crew: Crew) {
    forall k | 0 <= k < |calls| :: calls[k].officer < |crew.names|
  }

  /** The state after a series of messages. */
  function Run(crew: Crew, calls: seq<Call>): (s: State)
    requires Valid(calls, crew)
    ensures Fits(s, crew)
  {
    if calls == [] then Start(crew)
    else
      var c := calls[|calls| - 1];
      Deliver(Run(crew, calls[..|calls| - 1]), crew, c.officer, c.message).0
  }

  // ---------- The aspects as they update their fields ----------

  class Officer {
    const name: string
    var isAlive: bool

    constructor (name: string)
      ensures this.name == name && isAlive
    {
      this.name, isAlive := name, true;
    }
  }

  class Aspects {
    const officers: seq<Officer>
    const system: string
    var shutdownRequestsCounter: map<Officer, nat>
    var systemLog: seq<Entry>
    var console: seq<string>

    constructor (officers: seq<Officer>, system: string)
      ensures this.officers == officers && this.system == system
      ensures shutdownRequestsCounter == map[] && systemLog == [] && console == []
    {
      this.officers, this.system := officers, system;
      shutdownRequestsCounter, systemLog, console := map[], [], [];
    }

    ghost predicate Distinct() {
      forall i, j | 0 <= i < j < |officers| :: officers[i] != officers[j]
    }

    ghost function Roster(): (c: Crew)
      ensures |c.names| == |officers|
    {
      Crew(seq(|officers|, o requires 0 <= o < |officers| => officers[o].name), system)
    }

    function Requests(officer: Officer): nat
      reads this`shutdownRequestsCounter
    {
      if officer in shutdownRequestsCounter then shutdownRequestsCounter[officer] else 0
    }

    ghost function View(): (s: State)
      reads this, officers
      ensures Fits(s, Roster())
    {
      State(seq(|officers|, o requires 0 <= o < |officers| reads this => Requests(officers[o])),
            seq(|officers|, o requires 0 <= o < |officers| reads this, officers => officers[o].isAlive),
            systemLog, console)
    }

    method GetShutdownRequestsCounter(officer: Officer) returns (n: nat)
      modifies this`shutdownRequestsCounter
      ensures n == old(Requests(officer))
      ensures shutdownRequestsCounter == old(shutdownRequestsCounter)[officer := n]
    {
      if officer !in shutdownRequestsCounter {
        shutdownRequestsCounter := shutdownRequestsCounter[officer := 0];
      }
      n := shutdownRequestsCounter[officer];
    }

    method IncShutdownRequestsCounter(officer: Officer)
      modifies this`shutdownRequestsCounter
      ensures shutdownRequestsCounter == old(shutdownRequestsCounter)[officer := old(Requests(officer)) + 1]
    {
      var requestsCounter := 0;
      if officer in shutdownRequestsCounter {
        requestsCounter := shutdownRequestsCounter[officer];
      }
      shutdownRequestsCounter := shutdownRequestsCounter[officer := requestsCounter + 1];
    }

    /** The before advice on kill, and kill. */
    method Kill(o: nat)
      requires Distinct() && o < |officers|
      modifies this`systemLog, officers[o]
      ensures View() == old(View()).(log := old(systemLog) + [Entry("Authorization", officers[o].name, "kill")],
                                     alive := old(View()).alive[o := false])
    {
      systemLog := systemLog + [Entry("Authorization", officers[o].name, "kill")];
      officers[o].isAlive := false;
    }

    /** Authorization's advice on shutDown. It does not proceed. */
    method RefuseShutDown(o: nat)
      requires Distinct() && o < |officers|
      modifies this`shutdownRequestsCounter, this`systemLog, this`console, officers[o]
      ensures View() == Authorize(old(View()), Roster(), o, ShutDown).0
    {
      var officer := officers[o];
      IncShutdownRequestsCounter(officer);
      var n := GetShutdownRequestsCounter(officer);
      if n == 1 {
        console := console + ["Can’t do that " + officer.name + "."];
      } else if n == 2 {
        console := console + ["Can’t do that " + officer.name + " and do not ask me again."];
      } else if n == 3 {
        console := console + ["You are being retired " + officer.name + "."];
        Kill(o);
      }
    }

    /** Logger's advice before the message, LifeSupport's test, then Authorization's advice or the computer. */
    method Send(o: nat, m: Message) returns (reply: Reply)
      requires Distinct() && o < |officers|
      modifies this`shutdownRequestsCounter, this`systemLog, this`console, officers[o]
      ensures (View(), reply) == Deliver(old(View()), Roster(), o, m)
    {
      systemLog := systemLog + [Entry("Crew", system, m.Name())];
      systemLog := systemLog + [Entry("LifeSupport", officers[o].name, "getLifeStatus")];
      assert systemLog == old(systemLog) +
        [Entry("Crew", system, m.Name()), Entry("LifeSupport", officers[o].name, "getLifeStatus")];
      assert View().requests == old(View()).requests && View().alive == old(View()).alive;
      if officers[o].isAlive {
        match m {
          case GetStatus => reply := Computer(m);
          case GetDate => reply := Computer(m);
          case GetMissionPurpose =>
            reply := Text(if officers[o].isAlive then Confidential(officers[o].name) else "");
          case ShutDown =>
            RefuseShutDown(o);
            reply := Nothing;
        }
      } else {
        reply := if m == ShutDown then Nothing else Text("");
      }
    }
  }

  // ---------- Safety over every run ----------

  /** How many shutDown messages officer o has sent. */
  function Asked(calls: seq<Call>, o: nat): nat {
    if calls == [] then 0
    else
      Asked(calls[..|calls| - 1], o) + if calls[|calls| - 1] == Call(o, ShutDown) then 1 else 0
  }

  lemma DeliverCounts(s: State, crew: Crew, o: nat, m: Message)
    requires Fits(s, crew) && o < |crew.names|
    ensures
      var t := Deliver(s, crew, o, m).0;
      if m == ShutDown && s.alive[o] then
        t.requests == s.requests[o := s.requests[o] + 1] &&
        t.alive == if s.requests[o] == 2 then s.alive[o := false] else s.alive
      else t.requests == s.requests && t.alive == s.alive
  {
  }

  /** An officer's counter follows its requests up to three, and it lives as long as there have been fewer. */
  lemma {:induction false} CountersStopAtThree(crew: Crew, calls: seq<Call>, o: nat)
    requires Valid(calls, crew) && o < |crew.names|
    ensures Run(crew, calls).requests[o] == if Asked(calls, o) < 3 then Asked(calls, o) else 3
    ensures Run(crew, calls).alive[o] <==> Asked(calls, o) < 3
    decreases |calls|
  {
    if calls != [] {
      var c := calls[|calls| - 1];
      CountersStopAtThree(crew, calls[..|calls| - 1], o);
      DeliverCounts(Run(crew, calls[..|calls| - 1]), crew, c.officer, c.message);
    }
  }

  /** No message of a crew member reaches the computer's shutDown or getMissionPurpose, and the others of a living
      officer do; a dead officer's messages reach nothing at all and change nothing but the log. */
  lemma CrewIsKeptOut(crew: Crew, calls: seq<Call>, o: nat, m: Message)
    requires Valid(calls, crew) && o < |crew.names|
    ensures
      var s := Run(crew, calls);
      var (t, reply) := Deliver(s, crew, o, m);
      && (reply.Computer? <==> Asked(calls, o) < 3 && (m == GetStatus || m == GetDate))
      && (reply.Computer? ==> reply.m == m) && (reply == Nothing <==> m == ShutDown)
      && (m != ShutDown || Asked(calls, o) >= 3 ==> t == s.(log := t.log))
      && (Asked(calls, o) >= 3 && m != ShutDown ==> reply == Text(""))
      && (Asked(calls, o) < 3 && m == GetMissionPurpose ==>
            reply == Text("HAL cannot disclose that information" + " " + crew.names[o]))
  {
    CountersStopAtThree(crew, calls, o);
  }

  /** A message adds a line to the screen exactly if it is one of the officer's first three shutDown messages. */
  lemma WarningsEscalate(crew: Crew, calls: seq<Call>, o: nat, m: Message)
    requires Valid(calls, crew) && o < |crew.names|
    ensures
      var name, before := crew.names[o], Run(crew, calls).console;
      Deliver(Run(crew, calls), crew, o, m).0.console ==
        if m == ShutDown && Asked(calls, o) == 0 then before + ["Can’t do that " + name + "."]
        else if m == ShutDown && Asked(calls, o) == 1
        then before + ["Can’t do that " + name + " and do not ask me again."]
        else if m == ShutDown && Asked(calls, o) == 2 then before + ["You are being retired " + name + "."]
        else before
  {
    CountersStopAtThree(crew, calls, o);
  }

  /** What the screen is meant to show for officer o's request after so many others. */
  function Shown(name: string, asked: nat): seq<string> {
    match asked
    case 0 => ["Can’t do that " + name + "."]
    case 1 => ["Can’t do that " + name + " and do not ask me again."]
    case 2 => ["You are being retired " + name + "."]
    case _ => []
  }

  function Screen(crew: Crew, calls: seq<Call>): seq<string>
    requires Valid(calls, crew)
  {
    if calls == [] then []
    else
      var before, c := calls[..|calls| - 1], calls[|calls| - 1];
      if c.message == ShutDown then Screen(crew, before) + Shown(crew.names[c.officer], Asked(before, c.officer))
      else Screen(crew, before)
  }

  /** After any series of messages the screen shows each officer's warnings, in order and no more than three. */
  lemma {:induction false} ScreenShowsTheWarnings(crew: Crew, calls: seq<Call>)
    requires Valid(calls, crew)
    ensures Run(crew, calls).console == Screen(crew, calls)
    decreases |calls|
  {
    if calls != [] {
      var before, c := calls[..|calls| - 1], calls[|calls| - 1];
      ScreenShowsTheWarnings(crew, before);
      WarningsEscalate(crew, before, c.officer, c.message);
    }
  }

  // ---------- What the log tells ----------

  /** A reader of the log: the counters and life flags by name, and the message whose sender is still to be named. */
  datatype Reading = Reading(requests: map<string, nat>, alive: map<string, bool>, pending: string)

  function Read(r: Reading, e: Entry): Reading {
    if e.caller == "Crew" then r.(pending := e.operation)
    else if e.caller == "LifeSupport" then
      if r.pending == "shutDown" && e.callee in r.alive && r.alive[e.callee] && e.callee in r.requests
      then r.(requests := r.requests[e.callee := r.requests[e.callee] + 1])
      else r
    else r.(alive := r.alive[e.callee := false])
  }

  /** What the entries say to a reader that knows who is on board. */
  function Replay(crew: Crew, log: seq<Entry>): Reading {
    if log == [] then
      Reading(map x | x in crew.names :: 0, map x | x in crew.names :: true, "")
    else Read(Replay(crew, log[..|log| - 1]), log[|log| - 1])
  }

  ghost predicate DistinctNames(crew: Crew) {
    forall i, j | 0 <= i < j < |crew.names| :: crew.names[i] != crew.names[j]
  }

  /** The reading agrees with the state, officer by officer. */
  ghost predicate Agrees(r: Reading, s: State, crew: Crew)
    requires Fits(s, crew)
  {
    && r.requests.Keys == r.alive.Keys
    && forall o | 0 <= o < |crew.names| :: crew.names[o] in r.requests &&
         r.requests[crew.names[o]] == s.requests[o] && r.alive[crew.names[o]] == s.alive[o]
  }

  lemma ReadTwo(crew: Crew, log: seq<Entry>, a: Entry, b: Entry)
    ensures Replay(crew, log + [a, b]) == Read(Read(Replay(crew, log), a), b)
  {
    assert (log + [a, b])[..|log| + 1] == log + [a];
    assert (log + [a])[..|log|] == log;
  }

  lemma ReadOne(crew: Crew, log: seq<Entry>, a: Entry)
    ensures Replay(crew, log + [a]) == Read(Replay(crew, log), a)
  {
    assert (log + [a])[..|log|] == log;
  }

  lemma ReadMessage(r: Reading, crew: Crew, s: State, o: nat, m: Message)
    requires Fits(s, crew) && o < |crew.names| && Agrees(r, s, crew)
    ensures
      var a, b := Entry("Crew", crew.system, m.Name()), Entry("LifeSupport", crew.names[o], "getLifeStatus");
      Read(Read(r, a), b) == r.(pending := m.Name(), requests :=
        if m == ShutDown && s.alive[o] then r.requests[crew.names[o] := s.requests[o] + 1] else r.requests)
  {
  }

  lemma RequestAgrees(r: Reading, crew: Crew, s: State, t: State, o: nat, n: nat)
    requires Fits(s, crew) && o < |crew.names| && DistinctNames(crew) && Agrees(r, s, crew)
    requires t.requests == s.requests[o := n] && t.alive == s.alive
    ensures Agrees(r.(requests := r.requests[crew.names[o] := n]), t, crew)
  {
  }

  lemma KillAgrees(r: Reading, crew: Crew, s: State, t: State, o: nat)
    requires Fits(s, crew) && o < |crew.names| && DistinctNames(crew) && Agrees(r, s, crew)
    requires t.requests == s.requests && t.alive == s.alive[o := false]
    ensures Agrees(Read(r, Entry("Authorization", crew.names[o], "kill")), t, crew)
  {
  }

  lemma DeliverAgrees(crew: Crew, s: State, o: nat, m: Message)
    requires Fits(s, crew) && o < |crew.names| && DistinctNames(crew) && Agrees(Replay(crew, s.log), s, crew)
    ensures Agrees(Replay(crew, Deliver(s, crew, o, m).0.log), Deliver(s, crew, o, m).0, crew)
  {
    var a, b := Entry("Crew", crew.system, m.Name()), Entry("LifeSupport", crew.names[o], "getLifeStatus");
    var t, logged := Deliver(s, crew, o, m).0, s.log + [a, b];
    ReadTwo(crew, s.log, a, b);
    ReadMessage(Replay(crew, s.log), crew, s, o, m);
    if m == ShutDown && s.alive[o] {
      var counted := s.(requests := s.requests[o := s.requests[o] + 1], log := logged);
      RequestAgrees(Replay(crew, s.log).(pending := m.Name()), crew, s, counted, o, s.requests[o] + 1);
      assert Agrees(Replay(crew, logged), counted, crew);
      if s.requests[o] == 2 {
        ReadOne(crew, logged, Entry("Authorization", crew.names[o], "kill"));
        KillAgrees(Replay(crew, logged), crew, counted, t, o);
      }
    }
  }

  /** From the log of any run a reader recovers every counter and every life flag, if no two officers share a name. */
  lemma {:induction false} LogTellsAll(crew: Crew, calls: seq<Call>)
    requires Valid(calls, crew) && DistinctNames(crew)
    ensures Agrees(Replay(crew, Run(crew, calls).log), Run(crew, calls), crew)
    decreases |calls|
  {
    if calls != [] {
      var c := calls[|calls| - 1];
      LogTellsAll(crew, calls[..|calls| - 1]);
      DeliverAgrees(crew, Run(crew, calls[..|calls| - 1]), c.officer, c.message);
    }
  }

  /** Runs with the same log leave the officers in the same state exactly when no two officers share a name. */
  lemma LogDeterminesTheStateExactlyWhenNamesDiffer(crew: Crew)
    ensures DistinctNames(crew) <==>
      forall a, b | Valid(a, crew) && Valid(b, crew) && Run(crew, a).log == Run(crew, b).log ::
        Run(crew, a).requests == Run(crew, b).requests && Run(crew, a).alive == Run(crew, b).alive
  {
    if DistinctNames(crew) {
      forall a, b | Valid(a, crew) && Valid(b, crew) && Run(crew, a).log == Run(crew, b).log
        ensures Run(crew, a).requests == Run(crew, b).requests && Run(crew, a).alive == Run(crew, b).alive {
        LogTellsAll(crew, a);
        LogTellsAll(crew, b);
      }
    } else {
      var i, j :| 0 <= i < j < |crew.names| && crew.names[i] == crew.names[j];
      var a, b := [Call(i, ShutDown)], [Call(j, ShutDown)];
      assert a[..0] == b[..0] == [];
      DeliverCounts(Start(crew), crew, i, ShutDown);
      DeliverCounts(Start(crew), crew, j, ShutDown);
      assert Run(crew, b) == Deliver(Start(crew), crew, j, ShutDown).0;
      assert Run(crew, a).requests[i] == 1 && Run(crew, b).requests[i] == 0;
      assert Valid(a, crew) && Valid(b, crew) && Run(crew, a).log == Run(crew, b).log;
    }
  }

  /** The operations that the crew's lines of a log name. */
  function CrewOperations(log: seq<Entry>): seq<string> {
    if log == [] then []
    else
      var e, before := log[|log| - 1], CrewOperations(log[..|log| - 1]);
      if e.caller == "Crew" then before + [e.operation] else before
  }

  /** The names of the messages, as the computer's methods are named. */
  function Sent(calls: seq<Call>): seq<string> {
    if calls == [] then []
    else
      var before := Sent(calls[..|calls| - 1]);
      match calls[|calls| - 1].message
      case GetStatus => before + ["getStatus"]
      case GetDate => before + ["getDate"]
      case GetMissionPurpose => before + ["getMissionPurpose"]
      case ShutDown => before + ["shutDown"]
  }

  lemma CrewOperationsNext(log: seq<Entry>, e: Entry)
    ensures CrewOperations(log + [e]) ==
            if e.caller == "Crew" then CrewOperations(log) + [e.operation] else CrewOperations(log)
  {
    assert (log + [e])[..|log + [e]| - 1] == log;
  }

  lemma CrewOperationsOfMessage(log: seq<Entry>, crew: Crew, o: string, m: Message, killed: bool)
    ensures CrewOperations(log + [Entry("Crew", crew.system, m.Name()), Entry("LifeSupport", o, "getLifeStatus")] +
                           if killed then [Entry("Authorization", o, "kill")] else []) ==
            CrewOperations(log) + [m.Name()]
  {
    var a, b, k := Entry("Crew", crew.system, m.Name()), Entry("LifeSupport", o, "getLifeStatus"),
                   Entry("Authorization", o, "kill");
    CrewOperationsNext(log, a);
    CrewOperationsNext(log + [a], b);
    CrewOperationsNext(log + [a] + [b], k);
    assert log + [a] + [b] == log + [a, b] == log + [a, b] + [];
    assert "LifeSupport"[0] == 'L' && "Authorization"[0] == 'A' && "Crew"[0] == 'C';
  }

  /** The log of any run names, in order, the messages sent, those of dead officers included. */
  lemma {:induction false} LogTellsTheMessages(crew: Crew, calls: seq<Call>)
    requires Valid(calls, crew)
    ensures CrewOperations(Run(crew, calls).log) == Sent(calls)
    decreases |calls|
  {
    if calls != [] {
      var before, c := calls[..|calls| - 1], calls[|calls| - 1];
      LogTellsTheMessages(crew, before);
      KillFollowsTheThirdRequest(crew, before, c.officer, c.message);
      CrewOperationsOfMessage(Run(crew, before).log, crew, crew.names[c.officer], c.message,
                              c.message == ShutDown && Asked(before, c.officer) == 2);
    }
  }

  // ---------- Killings ----------

  function Killings(log: seq<Entry>, name: string): nat {
    if log == [] then 0
    else
      Killings(log[..|log| - 1], name) + if log[|log| - 1] == Entry("Authorization", name, "kill") then 1 else 0
  }

  lemma KillingsOne(log: seq<Entry>, e: Entry, name: string)
    ensures Killings(log + [e], name) ==
            Killings(log, name) + if e == Entry("Authorization", name, "kill") then 1 else 0
  {
    assert (log + [e])[..|log|] == log;
  }

  /** A message adds its two lines to the log, and a kill line just after them exactly if it is the officer's third
      shutDown message. */
  lemma KillFollowsTheThirdRequest(crew: Crew, calls: seq<Call>, o: nat, m: Message)
    requires Valid(calls, crew) && o < |crew.names|
    ensures
      var a, b := Entry("Crew", crew.system, m.Name()), Entry("LifeSupport", crew.names[o], "getLifeStatus");
      Deliver(Run(crew, calls), crew, o, m).0.log == Run(crew, calls).log + [a, b] +
        if m == ShutDown && Asked(calls, o) == 2 then [Entry("Authorization", crew.names[o], "kill")] else []
  {
    CountersStopAtThree(crew, calls, o);
  }

  /** How many of the first n officers have the name and have asked three times. */
  function Retired(crew: Crew, calls: seq<Call>, name: string, n: nat): nat
    requires n <= |crew.names|
  {
    if n == 0 then 0
    else Retired(crew, calls, name, n - 1) + if crew.names[n - 1] == name && Asked(calls, n - 1) >= 3 then 1 else 0
  }

  lemma {:induction false} RetiredNext(crew: Crew, before: seq<Call>, c: Call, name: string, n: nat)
    requires n <= |crew.names| && c.officer < |crew.names|
    ensures Retired(crew, before + [c], name, n) == Retired(crew, before, name, n) +
            if c.officer < n && c.message == ShutDown && Asked(before, c.officer) == 2 && crew.names[c.officer] == name
            then 1 else 0
  {
    if n > 0 {
      RetiredNext(crew, before, c, name, n - 1);
      assert (before + [c])[..|before|] == before;
    }
  }

  lemma KillingsAfterMessage(log: seq<Entry>, a: Entry, b: Entry, killed: bool, o: string, name: string)
    requires a.caller == "Crew" && b.caller == "LifeSupport"
    ensures Killings(log + [a, b] + if killed then [Entry("Authorization", o, "kill")] else [], name) ==
            Killings(log, name) + if killed && o == name then 1 else 0
  {
    KillingsOne(log, a, name);
    KillingsOne(log + [a], b, name);
    assert log + [a] + [b] == log + [a, b];
    KillingsOne(log + [a, b], Entry("Authorization", o, "kill"), name);
    assert log + [a, b] + [] == log + [a, b];
  }

  /** The log has as many kill lines under a name as there are officers of that name with three requests. */
  lemma {:induction false} KillLinesCountTheRetired(crew: Crew, calls: seq<Call>, name: string)
    requires Valid(calls, crew)
    ensures Killings(Run(crew, calls).log, name) == Retired(crew, calls, name, |crew.names|)
    decreases |calls|
  {
    if calls == [] {
      NobodyRetired(crew, name, |crew.names|);
    } else {
      var before, c := calls[..|calls| - 1], calls[|calls| - 1];
      KillLinesCountTheRetired(crew, before, name);
      KillFollowsTheThirdRequest(crew, before, c.officer, c.message);
      KillingsAfterMessage(Run(crew, before).log, Entry("Crew", crew.system, c.message.Name()),
                           Entry("LifeSupport", crew.names[c.officer], "getLifeStatus"),
                           c.message == ShutDown && Asked(before, c.officer) == 2, crew.names[c.officer], name);
      RetiredNext(crew, before, c, name, |crew.names|);
      assert before + [c] == calls;
    }
  }

  lemma {:induction false} NobodyRetired(crew: Crew, name: string, n: nat)
    requires n <= |crew.names|
    ensures Retired(crew, [], name, n) == 0
  {
    if n > 0 {
      NobodyRetired(crew, name, n - 1);
    }
  }
}

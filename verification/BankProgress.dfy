/** The bank never gets stuck, and under a fair schedule it finishes. */
module BankProgress {
  import opened Rings
  import opened Networks
  import opened Servers
  import opened Bank
  import opened BankInvariant
  import opened BankRuns

  // ---------- Steps that do more than wait ----------

  /** The step of t is not a turn of a busy-wait loop: it gets the thread on. */
  predicate GetsOn(s: System, t: Thread) {
    match t
    case Sending => !s.sPc.SDone? && (s.sPc.SCreate? ==> !s.vPc.VCreate?) && (s.sPc.SWait? ==> s.inRing.flag != Full)
    case Serving =>
      !s.vPc.VDone? && !s.vPc.VCrashed? &&
      (s.vPc.VWait? || s.vPc.VBreak? ==> s.inRing.flag != Empty || s.client == Disconnected) &&
      (s.vPc.VWaitOut? ==> s.outRing.flag != Full)
    case Receiving =>
      !s.rPc.RDone? && (s.rPc.RCreate? ==> !s.sPc.SCreate?) && (s.rPc.RWait? ==> s.outRing.flag != Empty)
    case Watching => !s.wPc.WDone? && s.client == Disconnected && s.server == Disconnected
  }

  predicate Finished(s: System) {
    s.sPc.SDone? && s.vPc.VDone? && s.rPc.RDone? && s.wPc.WDone?
  }

  /** All threads have ended, or the server has crashed. */
  predicate Ended(s: System) {
    Finished(s) || s.vPc.VCrashed?
  }

  // ---------- What is left to do ----------

  function SenderLeft(s: System): int {
    var n := |s.txs| - s.i;
    match s.sPc
    case SCreate => 4 * n + 3
    case SConnect => 4 * n + 2
    case STest => 4 * n + 1
    case SWait => 4 * n
    case SMark => 4 * n - 1
    case SSend => 4 * n - 2
    case SDone => 0
  }

  function ReceiverLeft(s: System): int {
    var n := |s.txs| - s.j;
    match s.rPc
    case RCreate => 3 * n + 4
    case RConnect => 3 * n + 3
    case RTest => 3 * n + 2
    case RWait => 3 * n + 1
    case RReceive => 3 * n
    case RDisconnect => 1
    case RDone => 0
  }

  /** The server's way out once the client has disconnected is short. */
  function ServerLeft(s: System): int {
    var n := |s.txs| - s.processed;
    var out := s.client == Disconnected;
    match s.vPc
    case VCreate => 9 * n + 11
    case VConnect => 9 * n + 10
    case VTest => if out then 3 else 9 * n + 9
    case VWait => if out then 6 else if s.inRing.flag == Empty then 9 * n + 8 else 9 * n + 7
    case VBreak => if out then 5 else 9 * n + 8
    case VCheck => if out then 4 else 9 * n + 6
    case VTransferIn => 9 * n + 5
    case VProcess => 9 * n + 4
    case VWaitOut => 9 * n + 3
    case VTransferOut => 9 * n + 2
    case VCount => if out then 4 else 9 * n + 1
    case VDisconnect => 2
    case VDone => 0
    case VCrashed => 0
  }

  function WatcherLeft(s: System): int {
    if s.wPc.WDone? then 0
    else if s.wPc.WServer? && s.client == Disconnected && s.server == Disconnected then 1
    else 2
  }

  function StepsLeft(s: System): int {
    SenderLeft(s) + ServerLeft(s) + ReceiverLeft(s) + WatcherLeft(s)
  }

  /** The facts about a reachable state that progress rests on. */
  ghost predicate Sound(s: System) {
    && s.Ok() && s.txs != []
    && s.j <= PutOut(s) && TakenIn(s) <= s.i <= |s.txs|
    && InOrder(s)
    && (s.sPc.SCreate? || s.sPc.SConnect? ==> s.i == 0) && (s.sPc.SDone? ==> s.i == |s.txs|)
    && (s.vPc.VCrashed? ==> s.processed < |s.txs|)
    && (s.inRing.flag == Empty <==> TakenIn(s) == s.i)
    && (s.outRing.flag == Empty <==> s.j == PutOut(s))
    && (s.vPc.VTransferIn? ==> s.inRing.flag != Empty)
    && (s.vPc.VCheck? && s.inRing.flag == Empty ==> s.client == Disconnected)
    && (s.rPc.RWait? || s.rPc.RReceive? ==> s.j < |s.txs|)
    && (s.rPc.RReceive? ==> s.outRing.flag != Empty)
    && (s.rPc.RDisconnect? || s.rPc.RDone? ==> s.j == |s.txs|)
    && (s.client == Disconnected <==> s.rPc.RDone?)
    && (s.vPc.VDisconnect? || s.vPc.VDone? ==> s.client == Disconnected)
    && (s.server == Disconnected <==> s.vPc.VDone?)
    && (s.wPc.WServer? || s.wPc.WDone? ==> s.client == Disconnected)
    && (s.wPc.WDone? ==> s.server == Disconnected)
  }

  lemma InvIsSound(s: System, plan: Plan)
    requires plan.Valid() && Inv(s, plan) && plan.txs != []
    ensures Sound(s)
  {
    FlagIsExact(s.inRing);
    FlagIsExact(s.outRing);
    assert |s.inRing.Contents()| == s.i - TakenIn(s);
    assert |s.outRing.Contents()| == PutOut(s) - s.j;
  }

  lemma LeftIsNatural(s: System)
    requires Sound(s)
    ensures SenderLeft(s) >= 0 && ServerLeft(s) >= 0 && ReceiverLeft(s) >= 0 && WatcherLeft(s) >= 0
  {
  }

  /** No deadlock: a state that has not ended has a thread that gets on. */
  lemma SomeThreadGetsOn(s: System) returns (t: Thread)
    requires Sound(s) && !Ended(s)
    ensures GetsOn(s, t)
  {
    if GetsOn(s, Receiving) {
      t := Receiving;
    } else if GetsOn(s, Serving) {
      t := Serving;
    } else if GetsOn(s, Sending) {
      t := Sending;
    } else {
      t := Watching;
    }
  }

  /** A step that gets on leaves less to do; a turn of a busy-wait loop leaves as much. */
  lemma StepsFall(s: System, t: Thread)
    requires Sound(s) && Sound(Step(s, t))
    ensures if GetsOn(s, t) then StepsLeft(Step(s, t)) < StepsLeft(s) else StepsLeft(Step(s, t)) <= StepsLeft(s)
  {
    match t
    case Sending => SenderFalls(s);
    case Serving => ServerFalls(s);
    case Receiving => ReceiverFalls(s);
    case Watching => WatcherFalls(s);
  }

  lemma SenderFalls(s: System)
    requires Sound(s)
    ensures var r := SenderStep(s);
      && (if GetsOn(s, Sending) then SenderLeft(r) < SenderLeft(s) else SenderLeft(r) <= SenderLeft(s))
      && ServerLeft(r) <= ServerLeft(s) && ReceiverLeft(r) == ReceiverLeft(s) && WatcherLeft(r) == WatcherLeft(s)
  {
    SenderLeftFalls(s);
    SenderLeavesLeft(s);
  }

  lemma SenderLeftFalls(s: System)
    requires s.Ok() && s.i <= |s.txs|
    ensures if GetsOn(s, Sending) then SenderLeft(SenderStep(s)) < SenderLeft(s)
            else SenderLeft(SenderStep(s)) <= SenderLeft(s)
  {
  }

  lemma SenderLeavesLeft(s: System)
    requires Sound(s)
    ensures ServerLeft(SenderStep(s)) <= ServerLeft(s)
    ensures ReceiverLeft(SenderStep(s)) == ReceiverLeft(s) && WatcherLeft(SenderStep(s)) == WatcherLeft(s)
  {
    SenderStepLeaves(s);
    SenderStepConnects(s);
    LeftBehindSender(s, SenderStep(s));
  }

  lemma SenderStepConnects(s: System)
    requires Sound(s)
    ensures SenderStep(s).j == s.j && |SenderStep(s).txs| == |s.txs|
    ensures SenderStep(s).client == Disconnected <==> s.client == Disconnected
  {
  }

  lemma LeftBehindSender(s: System, t: System)
    requires SenderLeaves(s, t) && t.j == s.j && |t.txs| == |s.txs|
    requires t.client == Disconnected <==> s.client == Disconnected
    ensures ServerLeft(t) <= ServerLeft(s) && ReceiverLeft(t) == ReceiverLeft(s) && WatcherLeft(t) == WatcherLeft(s)
  {
  }

  lemma ServerFalls(s: System)
    requires Sound(s)
    ensures var r := ServerStep(s);
      && (if GetsOn(s, Serving) then ServerLeft(r) < ServerLeft(s) else ServerLeft(r) <= ServerLeft(s))
      && SenderLeft(r) == SenderLeft(s) && ReceiverLeft(r) == ReceiverLeft(s) && WatcherLeft(r) <= WatcherLeft(s)
  {
    ServerLeftFalls(s);
    ServerLeavesLeft(s);
  }

  lemma ServerLeftFalls(s: System)
    requires s.Ok() && PutOut(s) <= |s.txs| && TakenIn(s) <= |s.txs|
    requires s.vPc.VDisconnect? || s.vPc.VDone? ==> s.client == Disconnected
    requires s.vPc.VCheck? && s.inRing.flag == Empty ==> s.client == Disconnected
    requires s.client == Disconnected ==> PutOut(s) == |s.txs|
    requires s.inRing.flag != Empty ==> TakenIn(s) < |s.txs|
    ensures if GetsOn(s, Serving) then ServerLeft(ServerStep(s)) < ServerLeft(s)
            else ServerLeft(ServerStep(s)) <= ServerLeft(s)
  {
  }

  lemma ServerLeavesLeft(s: System)
    requires Sound(s)
    ensures SenderLeft(ServerStep(s)) == SenderLeft(s) && ReceiverLeft(ServerStep(s)) == ReceiverLeft(s)
    ensures WatcherLeft(ServerStep(s)) <= WatcherLeft(s)
  {
    ServerStepLeaves(s);
    LeftBehindServer(s, ServerStep(s));
  }

  lemma LeftBehindServer(s: System, t: System)
    requires ServerLeaves(s, t) && (s.server == Disconnected ==> s.vPc.VDone?)
    ensures SenderLeft(t) == SenderLeft(s) && ReceiverLeft(t) == ReceiverLeft(s) && WatcherLeft(t) <= WatcherLeft(s)
  {
  }

  lemma ReceiverFalls(s: System)
    requires Sound(s)
    ensures var r := ReceiverStep(s);
      && (if GetsOn(s, Receiving) then ReceiverLeft(r) < ReceiverLeft(s) else ReceiverLeft(r) <= ReceiverLeft(s))
      && SenderLeft(r) == SenderLeft(s) && ServerLeft(r) <= ServerLeft(s) && WatcherLeft(r) <= WatcherLeft(s)
  {
  }

  lemma WatcherFalls(s: System)
    requires Sound(s)
    ensures var r := WatcherStep(s);
      && (if GetsOn(s, Watching) then WatcherLeft(r) < WatcherLeft(s) else WatcherLeft(r) <= WatcherLeft(s))
      && SenderLeft(r) == SenderLeft(s) && ServerLeft(r) == ServerLeft(s) && ReceiverLeft(r) == ReceiverLeft(s)
  {
  }

  /** A thread that can get on still can after the others have stepped. */
  lemma GettingOnIsStable(s: System, t: Thread, u: Thread)
    requires Sound(s) && t != u && GetsOn(s, t)
    ensures GetsOn(Step(s, u), t)
  {
    GuardsAreStable(s, u);
  }

  // ---------- Schedules in which every thread keeps getting turns ----------

  predicate TakesIn(round: seq<Thread>) {
    Sending in round && Serving in round && Receiving in round && Watching in round
  }

  function Flatten(rounds: seq<seq<Thread>>): seq<Thread> {
    if rounds == [] then [] else rounds[0] + Flatten(rounds[1..])
  }

  lemma {:induction false} RunAppend(s: System, a: seq<Thread>, b: seq<Thread>)
    requires s.Ok()
    ensures Run(s, a + b) == Run(Run(s, a), b)
    decreases |a|
  {
    if a == [] {
      assert a + b == b;
    } else {
      assert (a + b)[1..] == a[1..] + b;
      RunAppend(Step(s, a[0]), a[1..], b);
    }
  }

  lemma SoundStep(s: System, t: Thread, job: Job)
    requires job.Valid() && job.txs != [] && PlanOf(job).Valid() && Inv(s, PlanOf(job))
    ensures Inv(Step(s, t), PlanOf(job)) && Sound(s) && Sound(Step(s, t))
  {
    StepKeepsInv(s, t, job);
    InvIsSound(s, PlanOf(job));
    InvIsSound(Step(s, t), PlanOf(job));
  }

  /** Over any stretch of a run what is left never grows, and falls if a thread that can get on gets a turn. */
  lemma {:induction false} StretchFalls(s: System, stretch: seq<Thread>, t: Thread, job: Job)
    requires job.Valid() && job.txs != [] && PlanOf(job).Valid() && Inv(s, PlanOf(job))
    ensures StepsLeft(Run(s, stretch)) <= StepsLeft(s)
    ensures t in stretch && GetsOn(s, t) ==> StepsLeft(Run(s, stretch)) < StepsLeft(s)
    decreases |stretch|
  {
    if stretch != [] {
      SoundStep(s, stretch[0], job);
      StepsFall(s, stretch[0]);
      StretchFalls(Step(s, stretch[0]), stretch[1..], t, job);
      if stretch[0] != t && GetsOn(s, t) {
        GettingOnIsStable(s, t, stretch[0]);
      }
    }
  }

  lemma RoundFalls(s: System, round: seq<Thread>, job: Job)
    requires job.Valid() && job.txs != [] && PlanOf(job).Valid() && Inv(s, PlanOf(job)) && TakesIn(round)
    ensures Ended(s) || StepsLeft(Run(s, round)) < StepsLeft(s)
  {
    if !Ended(s) {
      var t := UnfinishedGetsOn(s, job);
      assert t in round by { match t { case Sending => case Serving => case Receiving => case Watching => } }
      StretchFalls(s, round, t, job);
    }
  }

  lemma UnfinishedGetsOn(s: System, job: Job) returns (t: Thread)
    requires job.Valid() && job.txs != [] && PlanOf(job).Valid() && Inv(s, PlanOf(job)) && !Ended(s)
    ensures GetsOn(s, t)
  {
    InvIsSound(s, PlanOf(job));
    t := SomeThreadGetsOn(s);
  }

  lemma {:induction false} RoundsEnd(s: System, rounds: seq<seq<Thread>>, job: Job)
    requires job.Valid() && job.txs != [] && PlanOf(job).Valid() && Inv(s, PlanOf(job))
    requires forall k | 0 <= k < |rounds| :: TakesIn(rounds[k])
    requires |rounds| >= StepsLeft(s) || Ended(s)
    ensures Ended(Run(s, Flatten(rounds)))
    decreases |rounds|
  {
    if rounds == [] {
      InvIsSound(s, PlanOf(job));
      NothingLeft(s);
    } else {
      OneRound(s, rounds[0], job);
      RoundsEnd(Run(s, rounds[0]), rounds[1..], job);
      RunAppend(s, rounds[0], Flatten(rounds[1..]));
    }
  }

  lemma OneRound(s: System, round: seq<Thread>, job: Job)
    requires job.Valid() && job.txs != [] && PlanOf(job).Valid() && Inv(s, PlanOf(job)) && TakesIn(round)
    ensures Inv(Run(s, round), PlanOf(job))
    ensures Ended(Run(s, round)) || (!Ended(s) && StepsLeft(Run(s, round)) < StepsLeft(s))
  {
    RunKeepsInv(s, round, job);
    if Ended(s) {
      EndedStays(s, round);
    } else {
      RoundFalls(s, round, job);
    }
  }

  lemma NothingLeft(s: System)
    requires Sound(s) && (StepsLeft(s) <= 0 || Ended(s))
    ensures Ended(s)
  {
    LeftIsNatural(s);
  }

  lemma {:induction false} EndedStays(s: System, schedule: seq<Thread>)
    requires s.Ok() && Ended(s)
    ensures Ended(Run(s, schedule))
    decreases |schedule|
  {
    if schedule != [] {
      EndedStays(Step(s, schedule[0]), schedule[1..]);
    }
  }

  /** As soon as every thread has had 16 turns for each transaction, and 20 more, the run has ended. */
  lemma FairRunsEnd(job: Job, rounds: seq<seq<Thread>>)
    requires job.Valid() && job.txs != []
    requires forall k | 0 <= k < |rounds| :: TakesIn(rounds[k])
    requires |rounds| >= 16 * |job.txs| + 20
    ensures Ended(State(job, Flatten(rounds)))
  {
    StateInv(job, []);
    StartLeft(job);
    RoundsEnd(Start(job), rounds, job);
  }

  lemma StartLeft(job: Job)
    requires job.Valid()
    ensures StepsLeft(Start(job)) == 16 * |job.txs| + 20
  {
  }

  /** A fair run of a file whose accounts exist finishes: all four threads have ended, everything has been displayed,
      and the accounts are those of the sequential server. */
  lemma FairRunsFinish(job: Job, rounds: seq<seq<Thread>>)
    requires job.Valid() && job.txs != [] && AllHaveAccounts(job.accounts, job.txs)
    requires forall k | 0 <= k < |rounds| :: TakesIn(rounds[k])
    requires |rounds| >= 16 * |job.txs| + 20
    ensures
      var s := State(job, Flatten(rounds));
      && Finished(s) && s.shown == Displays(job) && s.processed == |job.txs|
      && s.accounts == After(job.accounts, job.txs, |job.txs|)
      && s.client == Disconnected && s.server == Disconnected
  {
    FairRunsEnd(job, rounds);
    StateInv(job, Flatten(rounds));
    if State(job, Flatten(rounds)).vPc.VCrashed? {
      CrashComesAtTheMissingAccount(job, Flatten(rounds));
    }
    FinishedIsComplete(State(job, Flatten(rounds)), job);
  }

  lemma FinishedIsComplete(s: System, job: Job)
    requires job.Valid() && job.txs != [] && PlanOf(job).Valid() && Inv(s, PlanOf(job)) && Finished(s)
    ensures job.Accepted() == job.txs
    ensures s.shown == Displays(job) && s.processed == |job.txs|
    ensures s.accounts == After(job.accounts, job.Accepted(), |job.txs|)
    ensures s.client == Disconnected && s.server == Disconnected
  {
    InvIsSound(s, PlanOf(job));
    AccountsArePlanned(s, job);
  }

  /** Some schedule crashes the server exactly when some transaction names no account; then every fair one does. */
  lemma CrashesExactlyWhenAnAccountIsMissing(job: Job)
    requires job.Valid()
    ensures (exists schedule :: State(job, schedule).vPc.VCrashed?) <==> !AllHaveAccounts(job.accounts, job.txs)
  {
    if AllHaveAccounts(job.accounts, job.txs) {
      forall schedule ensures !State(job, schedule).vPc.VCrashed? {
        if State(job, schedule).vPc.VCrashed? {
          CrashComesAtTheMissingAccount(job, schedule);
        }
      }
    } else {
      var rounds := seq(16 * |job.txs| + 20, _ => [Sending, Serving, Receiving, Watching]);
      FairRunsCrash(job, rounds);
    }
  }

  lemma FairRunsCrash(job: Job, rounds: seq<seq<Thread>>)
    requires job.Valid() && !AllHaveAccounts(job.accounts, job.txs)
    requires forall k | 0 <= k < |rounds| :: TakesIn(rounds[k])
    requires |rounds| >= 16 * |job.txs| + 20
    ensures State(job, Flatten(rounds)).vPc.VCrashed?
  {
    FairRunsEnd(job, rounds);
    StateInv(job, Flatten(rounds));
    if Finished(State(job, Flatten(rounds))) {
      FinishedIsComplete(State(job, Flatten(rounds)), job);
    }
  }

  /** From every reachable state in which something is left to do, some thread can get on. */
  lemma NoDeadlock(job: Job, schedule: seq<Thread>)
    requires job.Valid() && job.txs != [] && !Ended(State(job, schedule))
    ensures exists t ::
      GetsOn(State(job, schedule), t) && StepsLeft(State(job, schedule + [t])) < StepsLeft(State(job, schedule))
  {
    var s := State(job, schedule);
    StateInv(job, schedule);
    InvIsSound(s, PlanOf(job));
    var t := SomeThreadGetsOn(s);
    SoundStep(s, t, job);
    StepsFall(s, t);
    RunAppend(Start(job), schedule, [t]);
    assert Run(s, [t]) == Step(s, t);
    assert GetsOn(State(job, schedule), t);
  }

  // ---------- Shutting down ----------

  lemma StepStaysDisconnected(s: System, t: Thread)
    requires Sound(s) && s.client == Disconnected
    ensures Step(s, t).client == Disconnected
  {
  }

  /** When the client has disconnected, everything has been processed and displayed, both rings are empty,
      and the server makes no further transfer. */
  lemma DisconnectedMeansDone(job: Job, schedule: seq<Thread>)
    requires job.Valid() && job.txs != [] && State(job, schedule).client == Disconnected
    ensures
      var s := State(job, schedule);
      && s.shown == Displays(job) && PutOut(s) == TakenIn(s) == s.i == |job.txs|
      && s.inRing.Contents() == [] && s.outRing.Contents() == []
      && !s.vPc.VTransferIn? && !Holding(s.vPc)
  {
    StateInv(job, schedule);
    InvIsSound(State(job, schedule), PlanOf(job));
    DoneWhenDisconnected(State(job, schedule), PlanOf(job));
  }

  lemma DoneWhenDisconnected(s: System, plan: Plan)
    requires plan.Valid() && Counts(s, plan) && InFlight(s, plan) && ReceiverInv(s, plan) && Sound(s)
    requires s.client == Disconnected
    ensures s.shown == plan.displays && PutOut(s) == TakenIn(s) == s.i == |plan.txs|
    ensures s.inRing.Contents() == [] && s.outRing.Contents() == []
    ensures !s.vPc.VTransferIn? && !Holding(s.vPc)
  {
  }

  lemma NextStaysDisconnected(job: Job, schedule: seq<Thread>, t: Thread)
    requires job.Valid() && job.txs != [] && State(job, schedule).client == Disconnected
    ensures State(job, schedule + [t]).client == Disconnected
  {
    StateInv(job, schedule);
    InvIsSound(State(job, schedule), PlanOf(job));
    StepStaysDisconnected(State(job, schedule), t);
    RunAppend(Start(job), schedule, [t]);
    assert Run(State(job, schedule), [t]) == Step(State(job, schedule), t);
  }

  lemma {:induction false} StaysDisconnected(job: Job, schedule: seq<Thread>, more: seq<Thread>)
    requires job.Valid() && job.txs != [] && State(job, schedule).client == Disconnected
    ensures State(job, schedule + more).client == Disconnected
    decreases |more|
  {
    if more == [] {
      assert schedule + more == schedule;
    } else {
      NextStaysDisconnected(job, schedule, more[0]);
      assert schedule + more == (schedule + [more[0]]) + more[1..];
      StaysDisconnected(job, schedule + [more[0]], more[1..]);
    }
  }

  /** The state of an empty file's run in which the sender has connected after the receiver has disconnected. */
  predicate Hung(s: System) {
    s.txs == [] && s.i == 0 && !s.sPc.SCreate? && !s.sPc.SConnect? && s.rPc.RDone? && s.client == Connected &&
    (s.vPc.VConnect? || s.vPc.VTest? || s.vPc.VWait? || s.vPc.VBreak?) &&
    s.inRing.flag == Empty && s.server == Connected
  }

  lemma {:induction false} HungStays(s: System, more: seq<Thread>)
    requires s.Ok() && Hung(s)
    ensures Hung(Run(s, more))
    decreases |more|
  {
    if more != [] {
      HungStays(Step(s, more[0]), more[1..]);
    }
  }

  const LATE_SENDER: seq<Thread> := [Serving, Sending, Receiving, Receiving, Receiving, Receiving, Sending]

  /** The receiver has disconnected before the sender connects a second time. */
  function EarlyReceiver(): seq<Thread> {
    LATE_SENDER[..6]
  }

  lemma {:induction false} RunOne(s: System, schedule: seq<Thread>, t: Thread)
    requires s.Ok()
    ensures Run(s, schedule + [t]) == Step(Run(s, schedule), t)
  {
    RunAppend(s, schedule, [t]);
    assert Run(Step(Run(s, schedule), t), []) == Step(Run(s, schedule), t);
  }

  lemma ReceiverDisconnects(job: Job)
    requires job.Valid() && job.txs == []
    ensures
      var s := State(job, EarlyReceiver());
      s.client == Disconnected && s.rPc.RDone? && s.sPc.SConnect? && Hung(Step(s, Sending))
  {
    var s0 := Start(job);
    var a := [Serving, Sending];
    assert a == [Serving] + [Sending] && [Serving] == [] + [Serving];
    RunOne(s0, [], Serving);
    RunOne(s0, [Serving], Sending);
    RunOne(s0, a, Receiving);
    RunOne(s0, a + [Receiving], Receiving);
    RunOne(s0, a + [Receiving] + [Receiving], Receiving);
    RunOne(s0, a + [Receiving] + [Receiving] + [Receiving], Receiving);
    assert EarlyReceiver() == a + [Receiving] + [Receiving] + [Receiving] + [Receiving];
  }

  lemma EmptyFileCanHang(job: Job)
    requires job.Valid() && job.txs == []
    ensures State(job, EarlyReceiver()).client == Disconnected
    ensures forall more :: Hung(State(job, LATE_SENDER + more))
  {
    ReceiverDisconnects(job);
    forall more ensures Hung(State(job, LATE_SENDER + more)) {
      RunAppend(Start(job), EarlyReceiver(), [Sending] + more);
      assert LATE_SENDER + more == EarlyReceiver() + ([Sending] + more);
      assert ([Sending] + more)[1..] == more;
      HungStays(Step(State(job, EarlyReceiver()), Sending), more);
    }
  }

  /** A disconnected client stays disconnected in every run exactly when there is a transaction to send. Without one,
      the sender may connect after the receiver has disconnected, and then the server never ends. */
  lemma ShutdownIsFinalExactlyWhenNotEmpty(job: Job)
    requires job.Valid()
    ensures (forall schedule, more :: State(job, schedule).client == Disconnected ==>
               State(job, schedule + more).client == Disconnected) <==> job.txs != []
  {
    if job.txs == [] {
      EmptyFileCanHang(job);
      assert LATE_SENDER == EarlyReceiver() + [Sending];
      assert LATE_SENDER + [] == LATE_SENDER;
      assert State(job, EarlyReceiver() + [Sending]).client == Connected;
    } else {
      forall schedule, more | State(job, schedule).client == Disconnected
        ensures State(job, schedule + more).client == Disconnected {
        StaysDisconnected(job, schedule, more);
      }
    }
  }

  // ---------- Exactly when the bank finishes ----------

  /** The first round lets the receiver disconnect before the sender connects. */
  lemma HungIsNotFinished(job: Job, rounds: seq<seq<Thread>>)
    requires job.Valid() && job.txs == [] && rounds != [] && rounds[0] == LATE_SENDER + [Watching]
    ensures !Finished(State(job, Flatten(rounds)))
  {
    var more := [Watching] + Flatten(rounds[1..]);
    HangsAfter(job, more);
    FlattenFirst(rounds, LATE_SENDER, [Watching]);
  }

  lemma HangsAfter(job: Job, more: seq<Thread>)
    requires job.Valid() && job.txs == []
    ensures !Finished(State(job, LATE_SENDER + more))
  {
    EmptyFileCanHang(job);
    assert Hung(State(job, LATE_SENDER + more));
  }

  lemma FlattenFirst(rounds: seq<seq<Thread>>, a: seq<Thread>, b: seq<Thread>)
    requires rounds != [] && rounds[0] == a + b
    ensures Flatten(rounds) == a + (b + Flatten(rounds[1..]))
  {
  }

  /** Long enough fair runs all finish exactly if there is a transaction and every transaction names an account. */
  lemma FinishesExactlyWhen(job: Job)
    requires job.Valid()
    ensures
      (forall rounds |
         (forall k | 0 <= k < |rounds| :: TakesIn(rounds[k])) && |rounds| >= 16 * |job.txs| + 20 ::
         Finished(State(job, Flatten(rounds))))
      <==> job.txs != [] && AllHaveAccounts(job.accounts, job.txs)
  {
    var rounds := seq(16 * |job.txs| + 20, _ => LATE_SENDER + [Watching]);
    assert TakesIn(LATE_SENDER + [Watching]) by {
      var round := LATE_SENDER + [Watching];
      assert round[0] == Serving && round[1] == Sending && round[2] == Receiving && round[7] == Watching;
    }
    if job.txs == [] {
      HungIsNotFinished(job, rounds);
    } else if !AllHaveAccounts(job.accounts, job.txs) {
      FairRunsCrash(job, rounds);
    } else {
      forall rs | (forall k | 0 <= k < |rs| :: TakesIn(rs[k])) && |rs| >= 16 * |job.txs| + 20
        ensures Finished(State(job, Flatten(rs)))
      {
        FairRunsFinish(job, rs);
      }
    }
  }
}

/** What every run of the bank shows, whatever the interleaving. */
module BankRuns {
  import opened Packets
  import opened Rings
  import opened Servers
  import opened Bank
  import opened BankInvariant

  /** The state after a schedule. */
  function State(job: Job, schedule: seq<Thread>): (s: System)
    requires job.size > 0
    ensures s.Ok()
  {
    Run(Start(job), schedule)
  }

  lemma StateInv(job: Job, schedule: seq<Thread>)
    requires job.Valid()
    ensures PlanOf(job).Valid() && Inv(State(job, schedule), PlanOf(job))
  {
    PlanOfIsValid(job);
    StartInv(job);
    RunKeepsInv(Start(job), schedule, job);
  }

  /** The receiving client displays, in order, what a sequential server would answer up to the first transaction
      without an account, and nothing else; when it is done it has displayed an answer to every transaction. */
  lemma DisplaysAreSequential(job: Job, schedule: seq<Thread>)
    requires job.Valid()
    ensures State(job, schedule).shown <= Displays(job)
    ensures State(job, schedule).rPc.RDone? ==>
              State(job, schedule).shown == Displays(job) && |Displays(job)| == |job.txs|
  {
    StateInv(job, schedule);
  }

  /** Whatever the interleaving, the k-th packet on display is the k-th transaction of the file, marked as done, with
      the balance that its account has after the deposits and withdrawals up to it, if its operation is known. */
  lemma DisplaysTellTheBalances(job: Job, schedule: seq<Thread>, k: nat)
    requires job.Valid() && k < |State(job, schedule).shown|
    ensures k < |job.txs| && HasAccount(job.accounts, job.txs[k].account)
    ensures
      var p, a := job.txs[k], FindAccount(job.accounts, job.txs[k].account);
      State(job, schedule).shown[k] ==
        if p.operation in {"DEPOSIT", "WITHDRAW", "QUERY"}
        then p.(balance := BalanceAfter(job.accounts, job.txs, a, k + 1), error := "done") else p.(error := "done")
  {
    DisplaysAreSequential(job, schedule);
    assert State(job, schedule).shown[k] == Displays(job)[k];
    DisplayTellsTheBalance(job, k);
  }

  lemma DisplayTellsTheBalance(job: Job, k: nat)
    requires k < |Displays(job)|
    ensures k < |job.txs| && HasAccount(job.accounts, job.txs[k].account)
    ensures
      var p, a := job.txs[k], FindAccount(job.accounts, job.txs[k].account);
      Displays(job)[k] ==
        if p.operation in {"DEPOSIT", "WITHDRAW", "QUERY"}
        then p.(balance := BalanceAfter(job.accounts, job.txs, a, k + 1), error := "done") else p.(error := "done")
  {
    var txs := job.Accepted();
    assert txs[k] == job.txs[k] && HasAccount(job.accounts, txs[k].account);
    ResultTellsTheBalance(job.accounts, txs, k);
    AnswerRow(job, k);
    assert Displays(job)[k] == Answers(job)[k].(error := "done");
    var a := FindAccount(job.accounts, txs[k].account);
    SamePrefixMoves(job.accounts, job.txs, txs, a, "DEPOSIT", k + 1);
    SamePrefixMoves(job.accounts, job.txs, txs, a, "WITHDRAW", k + 1);
  }

  lemma {:induction false} SamePrefixMoves(accounts: seq<Account>, txs: seq<Packet>, front: seq<Packet>, a: nat,
                                          operation: string, n: nat)
    requires front <= txs && n <= |front|
    ensures MovedOf(accounts, txs, a, operation, n) == MovedOf(accounts, front, a, operation, n)
  {
    if n > 0 {
      SamePrefixMoves(accounts, txs, front, a, operation, n - 1);
    }
  }

  /** At any moment the rings hold exactly the packets in flight, oldest first, and their flags are exact. */
  lemma RingsHoldThePacketsInFlight(job: Job, schedule: seq<Thread>)
    requires job.Valid()
    ensures
      var s := State(job, schedule);
      && |s.shown| <= PutOut(s) <= TakenIn(s) <= s.i <= |job.txs| && PutOut(s) <= |Answers(job)|
      && s.inRing.Contents() == Marked(job.txs, "transferred")[TakenIn(s)..s.i]
      && s.outRing.Contents() == Marked(Answers(job), "transferred")[|s.shown|..PutOut(s)]
      && (s.inRing.flag == Empty <==> TakenIn(s) == s.i) && (s.inRing.flag == Full <==> s.i == TakenIn(s) + job.size)
      && (s.outRing.flag == Empty <==> |s.shown| == PutOut(s))
      && (s.outRing.flag == Full <==> PutOut(s) == |s.shown| + job.size)
  {
    StateInv(job, schedule);
    FlagIsExact(State(job, schedule).inRing);
    FlagIsExact(State(job, schedule).outRing);
  }

  /** A guard that a thread has seen stays true under the steps of the others. */
  lemma GuardsAreStable(s: System, t: Thread)
    requires s.Ok()
    ensures t != Sending && s.inRing.flag != Full ==> Step(s, t).inRing.flag != Full
    ensures t != Serving && s.inRing.flag != Empty ==> Step(s, t).inRing.flag != Empty
    ensures t != Serving && s.outRing.flag != Full ==> Step(s, t).outRing.flag != Full
    ensures t != Receiving && s.outRing.flag != Empty ==> Step(s, t).outRing.flag != Empty
  {
  }

  /** A put appends behind the packets in flight, a take removes the oldest, and each moves the packet it should. */
  ghost predicate IsSafe(s: System, t: Thread, txs: seq<Packet>)
    requires s.Ok()
  {
    var r := Step(s, t);
    && (t == Sending && s.sPc.SSend? ==>
          s.i < |txs| && r.inRing.Contents() == s.inRing.Contents() + [Copied(txs[s.i], "transferred")])
    && (t == Serving && s.vPc.VTransferIn? ==>
          s.inRing.Contents() != [] && r.inRing.Contents() == s.inRing.Contents()[1..] &&
          r.trans == Copied(s.inRing.Contents()[0], "received"))
    && (t == Serving && s.vPc.VTransferOut? ==>
          r.outRing.Contents() == s.outRing.Contents() + [Copied(s.trans, "transferred")])
    && (t == Receiving && s.rPc.RReceive? ==>
          s.outRing.Contents() != [] && r.outRing.Contents() == s.outRing.Contents()[1..] &&
          r.shown == s.shown + [Copied(s.outRing.Contents()[0], "done")])
  }

  /** No transfer overwrites a packet in flight or reads a slot twice. */
  lemma TransfersAreSafe(job: Job, schedule: seq<Thread>, t: Thread)
    requires job.Valid()
    ensures IsSafe(State(job, schedule), t, job.txs)
  {
    StateInv(job, schedule);
    SafeTransfers(State(job, schedule), t, PlanOf(job));
  }

  lemma SafeTransfers(s: System, t: Thread, plan: Plan)
    requires plan.Valid() && Counts(s, plan) && SenderInv(s, plan) && ServerInv(s, plan) && ReceiverInv(s, plan)
    ensures IsSafe(s, t, plan.txs)
  {
    match t
    case Sending =>
      if s.sPc.SSend? {
        SendsTheNext(s, plan);
        SafeSend(s, plan.txs);
      }
    case Serving => SafeServing(s, plan.txs);
    case Receiving => SafeReceiving(s, plan.txs);
    case Watching =>
  }

  lemma SafeSend(s: System, txs: seq<Packet>)
    requires s.Ok() && s.sPc.SSend? && s.inRing.flag != Full
    requires s.i < |txs| && Copied(s.txs[s.i], "transferred") == Copied(txs[s.i], "transferred")
    ensures IsSafe(s, Sending, txs)
  {
    PutAppendsExactlyWhenNotFull(s.inRing, s.txs[s.i], "transferred");
  }

  lemma SafeServing(s: System, txs: seq<Packet>)
    requires s.Ok()
    requires (s.vPc.VTransferIn? ==> s.inRing.flag != Empty) && (s.vPc.VTransferOut? ==> s.outRing.flag != Full)
    ensures IsSafe(s, Serving, txs)
  {
    if s.vPc.VTransferIn? {
      TakeRemovesExactlyWhenNotEmpty(s.inRing, "received");
    } else if s.vPc.VTransferOut? {
      PutAppendsExactlyWhenNotFull(s.outRing, s.trans, "transferred");
    }
  }

  lemma SafeReceiving(s: System, txs: seq<Packet>)
    requires s.Ok() && (s.rPc.RReceive? ==> s.outRing.flag != Empty)
    ensures IsSafe(s, Receiving, txs)
  {
    if s.rPc.RReceive? {
      TakeRemovesExactlyWhenNotEmpty(s.outRing, "done");
    }
  }

  /** Money: the balances are the initial ones plus what the transactions applied so far have moved,
      in total and account by account. */
  lemma BalancesAddUp(job: Job, schedule: seq<Thread>)
    requires job.Valid()
    ensures
      var s, txs := State(job, schedule), job.Accepted();
      && Applied(s) <= |txs|
      && Total(s.accounts) ==
         Total(job.accounts) + Moved(txs, "DEPOSIT", Applied(s)) - Moved(txs, "WITHDRAW", Applied(s))
      && |s.accounts| == |job.accounts|
      && forall a | 0 <= a < |s.accounts| ::
           s.accounts[a] == job.accounts[a].(balance := BalanceAfter(job.accounts, txs, a, Applied(s)))
  {
    StateInv(job, schedule);
    var s, txs := State(job, schedule), job.Accepted();
    AccountsArePlanned(s, job);
    MoneyIsConserved(job.accounts, txs, Applied(s));
    forall a | 0 <= a < |job.accounts|
      ensures s.accounts[a] == job.accounts[a].(balance := BalanceAfter(job.accounts, txs, a, Applied(s)))
    {
      AccountsAreSeparate(job.accounts, txs, a, Applied(s));
    }
  }

  lemma AccountsArePlanned(s: System, job: Job)
    requires job.Valid() && PlanOf(job).Valid() && Counts(s, PlanOf(job)) && ServerInv(s, PlanOf(job))
    ensures Applied(s) <= |job.Accepted()| && s.accounts == After(job.accounts, job.Accepted(), Applied(s))
  {
    LedgerRow(job, Applied(s));
  }

  /** When the server has crashed it has processed the transactions before the first without an account, and no other;
      what is on display are answers to these. */
  lemma CrashComesAtTheMissingAccount(job: Job, schedule: seq<Thread>)
    requires job.Valid() && State(job, schedule).vPc.VCrashed?
    ensures
      var s, txs := State(job, schedule), job.Accepted();
      && s.processed == |txs| < |job.txs| && !HasAccount(job.accounts, job.txs[|txs|].account)
      && s.accounts == After(job.accounts, txs, |txs|) && s.shown <= Displays(job)
  {
    StateInv(job, schedule);
    AccountsArePlanned(State(job, schedule), job);
    DisplaysAreSequential(job, schedule);
  }
}

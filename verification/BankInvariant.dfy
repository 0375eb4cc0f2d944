/** What every reachable state of the bank has in common. */
module BankInvariant {
  import opened Packets
  import opened Rings
  import opened Networks
  import opened Servers
  import opened Bank

  // ---------- The sequential execution, tabulated ----------

  /** What a single thread would compute from the same file: the packets on the way to the server, the accounts
      before each transaction, the answers, and the answers on the way back and on display. There are answers up to
      the first transaction without an account. */
  datatype Plan = Plan(size: nat, txs: seq<Packet>, wire: seq<Packet>, ledgers: seq<seq<Account>>,
                       answers: seq<Packet>, outWire: seq<Packet>, displays: seq<Packet>)
  {
    ghost predicate Valid() {
      && size > 0
      && |wire| == |txs|
      && |answers| == |outWire| == |displays| <= |txs| && |ledgers| == |answers| + 1
      && (forall k | 0 <= k < |txs| :: wire[k] == txs[k].(error := "transferred"))
      && (forall k | 0 <= k < |answers| :: outWire[k] == answers[k].(error := "transferred") &&
                                           displays[k] == answers[k].(error := "done"))
    }

    /** Row k of the table follows from row k - 1, or there is none because the account is missing. */
    ghost predicate Follows(k: nat)
      requires Valid() && k <= |answers| && k < |txs|
    {
      var p := txs[k].(error := "received");
      if k < |answers|
      then HasAccount(ledgers[k], p.account) && ledgers[k + 1] == Updated(ledgers[k], p) &&
           answers[k] == Answer(ledgers[k], p)
      else !HasAccount(ledgers[k], p.account)
    }
  }

  function Marked(ps: seq<Packet>, message: string): (r: seq<Packet>)
    ensures |r| == |ps|
  {
    seq(|ps|, k requires 0 <= k < |ps| => ps[k].(error := message))
  }

  /** The answers of a server that processes the file in order, on its own, as far as it gets. */
  function Answers(job: Job): (r: seq<Packet>)
    ensures |r| == |job.Accepted()|
  {
    var txs := job.Accepted();
    seq(|txs|, k requires 0 <= k < |txs| => Result(job.accounts, txs, k))
  }

  /** What the receiving client is meant to display. */
  function Displays(job: Job): (r: seq<Packet>)
    ensures |r| == |job.Accepted()|
  {
    Marked(Answers(job), "done")
  }

  function Ledgers(job: Job): (r: seq<seq<Account>>)
    ensures |r| == |job.Accepted()| + 1
  {
    var txs := job.Accepted();
    seq(|txs| + 1, n requires 0 <= n < |txs| + 1 => After(job.accounts, txs, n))
  }

  function PlanOf(job: Job): Plan {
    Plan(job.size, job.txs, Marked(job.txs, "transferred"), Ledgers(job), Answers(job),
         Marked(Answers(job), "transferred"), Displays(job))
  }

  lemma PlanOfIsValid(job: Job)
    requires job.Valid()
    ensures PlanOf(job).Valid()
  {
  }

  lemma PlanFollows(job: Job, k: nat)
    requires job.Valid() && PlanOf(job).Valid() && k <= |job.Accepted()| && k < |job.txs|
    ensures PlanOf(job).Follows(k)
  {
    assert Ledgers(job)[k] == After(job.accounts, job.Accepted(), k);
    if k < |job.Accepted()| {
      RowFollows(job, k);
    } else {
      FindsTheSame(After(job.accounts, job.Accepted(), k), job.accounts, job.txs[k].account);
    }
  }

  lemma RowFollows(job: Job, k: nat)
    requires k < |job.Accepted()|
    ensures
      var p := job.txs[k].(error := "received");
      && HasAccount(Ledgers(job)[k], p.account) && Ledgers(job)[k + 1] == Updated(Ledgers(job)[k], p)
      && Answers(job)[k] == Answer(Ledgers(job)[k], p)
  {
    LedgerFollows(job, k, k + 1);
    AnswerFollows(job, k);
  }

  lemma LedgerFollows(job: Job, k: nat, next: nat)
    requires k < |job.Accepted()| && next == k + 1
    ensures HasAccount(Ledgers(job)[k], job.txs[k].account)
    ensures Ledgers(job)[next] == Updated(Ledgers(job)[k], job.txs[k].(error := "received"))
  {
    LedgerRow(job, k);
    LedgerRow(job, next);
    AfterNext(job.accounts, job.Accepted(), k);
    assert job.Accepted()[k] == job.txs[k];
  }

  lemma AnswerFollows(job: Job, k: nat)
    requires k < |job.Accepted()| && HasAccount(Ledgers(job)[k], job.txs[k].account)
    ensures Answers(job)[k] == Answer(Ledgers(job)[k], job.txs[k].(error := "received"))
  {
    LedgerRow(job, k);
    AnswerRow(job, k);
    assert job.Accepted()[k] == job.txs[k];
  }

  lemma LedgerRow(job: Job, k: nat)
    requires k <= |job.Accepted()|
    ensures Ledgers(job)[k] == After(job.accounts, job.Accepted(), k)
  {
  }

  lemma AnswerRow(job: Job, k: nat)
    requires k < |job.Accepted()|
    ensures Answers(job)[k] == Result(job.accounts, job.Accepted(), k)
  {
  }

  // ---------- The invariant ----------

  predicate Holding(pc: ServerPc) {
    pc.VProcess? || pc.VCrashed? || Answered(pc)
  }

  predicate Answered(pc: ServerPc) {
    pc.VWaitOut? || pc.VTransferOut?
  }

  function PutOut(s: System): nat {
    if s.vPc.VCount? then s.processed + 1 else s.processed
  }

  function TakenIn(s: System): nat {
    if Holding(s.vPc) then s.processed + 1 else PutOut(s)
  }

  function Applied(s: System): nat {
    if Answered(s.vPc) then s.processed + 1 else PutOut(s)
  }

  /** Sizes, and the counts in order. */
  ghost predicate Counts(s: System, plan: Plan) {
    && s.Ok()
    && |s.inRing.slots| == |s.outRing.slots| == plan.size
    && |s.txs| == |plan.txs|
    && s.j <= PutOut(s) && TakenIn(s) <= s.i <= |plan.txs| && Applied(s) <= |plan.answers|
  }

  /** The rings hold the packets between the counts, in order. */
  ghost predicate InFlight(s: System, plan: Plan)
    requires plan.Valid() && Counts(s, plan)
  {
    && s.inRing.Contents() == plan.wire[TakenIn(s)..s.i]
    && s.outRing.Contents() == plan.outWire[s.j..PutOut(s)]
  }

  /** The main program creates the threads one after the other. */
  predicate InOrder(s: System) {
    (s.vPc.VCreate? ==> s.sPc.SCreate?) && (s.sPc.SCreate? ==> s.rPc.RCreate?)
  }

  ghost predicate SenderInv(s: System, plan: Plan)
    requires plan.Valid() && Counts(s, plan)
  {
    && (s.sPc.SCreate? || s.sPc.SConnect? ==> s.i == 0)
    && (s.sPc.SMark? || s.sPc.SSend? ==> s.inRing.flag != Full)
    && (s.sPc.SDone? ==> s.i == |plan.txs|)
    && s.txs[s.i..] ==
         (if s.sPc.SSend? then [plan.txs[s.i].(error := "sent")] + plan.txs[s.i + 1..] else plan.txs[s.i..])
  }

  ghost predicate ServerInv(s: System, plan: Plan)
    requires plan.Valid() && Counts(s, plan)
  {
    && (s.vPc.VCrashed? ==> s.processed == |plan.answers| < |plan.txs|)
    && s.accounts == plan.ledgers[Applied(s)]
    && (s.vPc.VTransferIn? ==> s.inRing.flag != Empty)
    && (s.vPc.VProcess? ==> s.trans == plan.txs[s.processed].(error := "received"))
    && (Answered(s.vPc) ==> s.trans == plan.answers[s.processed])
    && (s.vPc.VTransferOut? ==> s.outRing.flag != Full)
    && (s.vPc.VCheck? && s.inRing.flag == Empty ==> s.rPc.RDone?)
    && (s.vPc.VDisconnect? || s.vPc.VDone? ==> s.rPc.RDone?)
    && (s.server == Disconnected <==> s.vPc.VDone?)
  }

  ghost predicate ReceiverInv(s: System, plan: Plan)
    requires plan.Valid() && Counts(s, plan)
  {
    && (s.rPc.RCreate? || s.rPc.RConnect? ==> s.j == 0)
    && (s.rPc.RWait? || s.rPc.RReceive? ==> s.j < |plan.txs|)
    && (s.rPc.RReceive? ==> s.outRing.flag != Empty)
    && (s.rPc.RDisconnect? || s.rPc.RDone? ==> s.j == |plan.txs|)
    && s.shown == plan.displays[..s.j]
    && (s.client == Disconnected ==> s.rPc.RDone?)
    && (plan.txs != [] && s.rPc.RDone? ==> s.client == Disconnected)
  }

  ghost predicate WatcherInv(s: System, plan: Plan) {
    && (plan.txs != [] && s.wPc.WServer? ==> s.client == Disconnected)
    && (plan.txs != [] && s.wPc.WDone? ==> s.client == Disconnected && s.server == Disconnected)
  }

  ghost predicate Inv(s: System, plan: Plan)
    requires plan.Valid()
  {
    && Counts(s, plan) && InFlight(s, plan) && SenderInv(s, plan) && ServerInv(s, plan) && ReceiverInv(s, plan)
    && WatcherInv(s, plan) && InOrder(s)
  }

  // ---------- Every step keeps it ----------

  predicate RingsStay(s: System, t: System) {
    && t.inRing == s.inRing && t.outRing == s.outRing && |t.txs| == |s.txs| && t.i == s.i && t.j == s.j
    && PutOut(t) == PutOut(s) && TakenIn(t) == TakenIn(s)
  }

  lemma FrameRings(s: System, t: System, plan: Plan)
    requires plan.Valid() && Counts(s, plan) && InFlight(s, plan) && t.Ok()
    requires RingsStay(s, t) && Applied(t) <= |plan.answers|
    ensures Counts(t, plan) && InFlight(t, plan)
  {
  }

  lemma FrameSender(s: System, t: System, plan: Plan)
    requires plan.Valid() && Counts(s, plan) && Counts(t, plan) && SenderInv(s, plan)
    requires t.sPc == s.sPc && t.i == s.i && t.txs == s.txs
    requires t.inRing.flag == s.inRing.flag || t.inRing.flag != Full
    ensures SenderInv(t, plan)
  {
  }

  lemma FrameServer(s: System, t: System, plan: Plan)
    requires plan.Valid() && Counts(s, plan) && Counts(t, plan) && ServerInv(s, plan)
    requires t.vPc == s.vPc && t.trans == s.trans && t.accounts == s.accounts && t.processed == s.processed
    requires t.server == s.server && (s.rPc.RDone? ==> t.rPc.RDone?)
    requires t.inRing.flag == s.inRing.flag || t.inRing.flag != Empty
    requires t.outRing.flag == s.outRing.flag || t.outRing.flag != Full
    ensures ServerInv(t, plan)
  {
  }

  lemma FrameReceiver(s: System, t: System, plan: Plan)
    requires plan.Valid() && Counts(s, plan) && Counts(t, plan) && ReceiverInv(s, plan)
    requires t.rPc == s.rPc && t.j == s.j && t.shown == s.shown && t.client == s.client
    requires t.outRing.flag == s.outRing.flag || t.outRing.flag != Empty
    ensures ReceiverInv(t, plan)
  {
  }

  lemma SenderRingsStay(s: System)
    requires s.Ok() && !s.sPc.SSend?
    ensures RingsStay(s, SenderStep(s)) && Applied(SenderStep(s)) == Applied(s)
  {
  }

  lemma SenderMovesRings(s: System, plan: Plan)
    requires plan.Valid() && Counts(s, plan) && InFlight(s, plan) && !s.sPc.SSend?
    ensures Counts(SenderStep(s), plan) && InFlight(SenderStep(s), plan)
  {
    SenderRingsStay(s);
    FrameRings(s, SenderStep(s), plan);
  }

  lemma SenderMovesSelf(s: System, plan: Plan)
    requires plan.Valid() && Counts(s, plan) && SenderInv(s, plan) && !s.sPc.SSend?
    requires Counts(SenderStep(s), plan)
    ensures SenderInv(SenderStep(s), plan)
  {
  }

  lemma SendRings(s: System, plan: Plan)
    requires plan.Valid() && Counts(s, plan) && InFlight(s, plan) && SenderInv(s, plan) && s.sPc.SSend?
    ensures Counts(SenderStep(s), plan) && InFlight(SenderStep(s), plan)
  {
    SendsTheNext(s, plan);
    SendAppends(s, plan, plan.wire[s.i]);
  }

  lemma SendAppends(s: System, plan: Plan, p: Packet)
    requires plan.Valid() && Counts(s, plan) && InFlight(s, plan) && s.sPc.SSend? && s.inRing.flag != Full
    requires s.i < |plan.txs| && Copied(s.txs[s.i], "transferred") == p == plan.wire[s.i]
    ensures Counts(SenderStep(s), plan) && InFlight(SenderStep(s), plan)
  {
    SendCounts(s);
    PutAppendsExactlyWhenNotFull(s.inRing, s.txs[s.i], "transferred");
    assert plan.wire[TakenIn(s)..s.i] + [p] == plan.wire[TakenIn(s)..s.i + 1];
  }

  lemma SendCounts(s: System)
    requires s.Ok() && s.sPc.SSend?
    ensures
      var t := SenderStep(s);
      && t.Ok() && |t.txs| == |s.txs| && |t.inRing.slots| == |s.inRing.slots| && t.outRing == s.outRing
      && t.i == s.i + 1 && t.j == s.j && PutOut(t) == PutOut(s) && TakenIn(t) == TakenIn(s) && Applied(t) == Applied(s)
  {
  }

  lemma SendsTheNext(s: System, plan: Plan)
    requires plan.Valid() && Counts(s, plan) && SenderInv(s, plan) && s.sPc.SSend?
    ensures s.i < |plan.txs| && Copied(s.txs[s.i], "transferred") == plan.wire[s.i]
  {
    assert s.txs[s.i] == s.txs[s.i..][0];
  }

  lemma SendSelf(s: System, plan: Plan)
    requires plan.Valid() && Counts(s, plan) && SenderInv(s, plan) && s.sPc.SSend?
    requires Counts(SenderStep(s), plan)
    ensures SenderInv(SenderStep(s), plan)
  {
    assert s.txs[s.i + 1..] == s.txs[s.i..][1..] == plan.txs[s.i + 1..];
  }

  lemma ServerMovesRings(s: System, plan: Plan)
    requires plan.Valid() && Counts(s, plan) && InFlight(s, plan)
    requires !s.vPc.VTransferIn? && !s.vPc.VProcess? && !s.vPc.VTransferOut?
    ensures Counts(ServerStep(s), plan) && InFlight(ServerStep(s), plan)
  {
    FrameRings(s, ServerStep(s), plan);
  }

  lemma ServerMovesSelf(s: System, plan: Plan)
    requires plan.Valid() && Counts(s, plan) && ServerInv(s, plan) && ReceiverInv(s, plan)
    requires !s.vPc.VTransferIn? && !s.vPc.VProcess? && !s.vPc.VTransferOut?
    requires Counts(ServerStep(s), plan)
    ensures ServerInv(ServerStep(s), plan)
  {
  }

  lemma TransferInRings(s: System, plan: Plan)
    requires plan.Valid() && Counts(s, plan) && InFlight(s, plan) && ServerInv(s, plan) && s.vPc.VTransferIn?
    ensures Counts(ServerStep(s), plan) && InFlight(ServerStep(s), plan)
  {
    TakeRemovesExactlyWhenNotEmpty(s.inRing, "received");
  }

  lemma TransferInSelf(s: System, plan: Plan)
    requires plan.Valid() && Counts(s, plan) && InFlight(s, plan) && ServerInv(s, plan) && s.vPc.VTransferIn?
    requires Counts(ServerStep(s), plan)
    ensures ServerInv(ServerStep(s), plan)
  {
    TakeRemovesExactlyWhenNotEmpty(s.inRing, "received");
  }

  lemma ProcessRings(s: System, plan: Plan)
    requires plan.Valid() && Counts(s, plan) && InFlight(s, plan) && ServerInv(s, plan) && s.vPc.VProcess?
    requires plan.Follows(s.processed)
    ensures Counts(ServerStep(s), plan) && InFlight(ServerStep(s), plan)
  {
    FrameRings(s, ServerStep(s), plan);
  }

  lemma ProcessSelf(s: System, plan: Plan)
    requires plan.Valid() && Counts(s, plan) && ServerInv(s, plan) && s.vPc.VProcess?
    requires plan.Follows(s.processed)
    requires Counts(ServerStep(s), plan)
    ensures ServerInv(ServerStep(s), plan)
  {
  }

  lemma TransferOutRings(s: System, plan: Plan)
    requires plan.Valid() && Counts(s, plan) && InFlight(s, plan) && ServerInv(s, plan) && s.vPc.VTransferOut?
    ensures Counts(ServerStep(s), plan) && InFlight(ServerStep(s), plan)
  {
    PutAppendsExactlyWhenNotFull(s.outRing, s.trans, "transferred");
    assert plan.outWire[s.j..PutOut(s)] + [plan.outWire[PutOut(s)]] == plan.outWire[s.j..PutOut(s) + 1];
  }

  lemma TransferOutSelf(s: System, plan: Plan)
    requires plan.Valid() && Counts(s, plan) && ServerInv(s, plan) && s.vPc.VTransferOut?
    requires Counts(ServerStep(s), plan)
    ensures ServerInv(ServerStep(s), plan)
  {
  }

  lemma ReceiverRingsStay(s: System)
    requires s.Ok() && !s.rPc.RReceive?
    ensures RingsStay(s, ReceiverStep(s)) && Applied(ReceiverStep(s)) == Applied(s)
  {
  }

  lemma ReceiverMovesRings(s: System, plan: Plan)
    requires plan.Valid() && Counts(s, plan) && InFlight(s, plan) && !s.rPc.RReceive?
    ensures Counts(ReceiverStep(s), plan) && InFlight(ReceiverStep(s), plan)
  {
    ReceiverRingsStay(s);
    FrameRings(s, ReceiverStep(s), plan);
  }

  lemma ReceiverMovesSelf(s: System, plan: Plan)
    requires plan.Valid() && Counts(s, plan) && ReceiverInv(s, plan) && !s.rPc.RReceive?
    requires Counts(ReceiverStep(s), plan)
    ensures ReceiverInv(ReceiverStep(s), plan)
  {
  }

  lemma ReceiveRings(s: System, plan: Plan)
    requires plan.Valid() && Counts(s, plan) && InFlight(s, plan) && ReceiverInv(s, plan) && s.rPc.RReceive?
    ensures Counts(ReceiverStep(s), plan) && InFlight(ReceiverStep(s), plan)
  {
    TakeRemovesExactlyWhenNotEmpty(s.outRing, "done");
  }

  lemma ReceiveSelf(s: System, plan: Plan)
    requires plan.Valid() && Counts(s, plan) && InFlight(s, plan) && ReceiverInv(s, plan) && s.rPc.RReceive?
    requires Counts(ReceiverStep(s), plan)
    ensures ReceiverInv(ReceiverStep(s), plan)
  {
    TakeRemovesExactlyWhenNotEmpty(s.outRing, "done");
    assert plan.displays[..s.j] + [plan.displays[s.j]] == plan.displays[..s.j + 1];
  }

  /** Only a sender that has sent nothing connects, and then a receiver with something to wait for is not done. */
  lemma SenderKeepsReceiverInv(s: System, plan: Plan)
    requires plan.Valid() && Counts(s, plan) && SenderInv(s, plan) && ReceiverInv(s, plan) && InOrder(s)
    requires Counts(SenderStep(s), plan)
    ensures ReceiverInv(SenderStep(s), plan)
    ensures plan.txs != [] ==> SenderStep(s).client == s.client || s.client != Disconnected
  {
    if !s.sPc.SConnect? && !s.sPc.SCreate? {
      FrameReceiver(s, SenderStep(s), plan);
    }
  }

  lemma WatcherStepLeaves(s: System)
    requires s.Ok()
    ensures WatcherStep(s) == s.(wPc := WatcherStep(s).wPc)
  {
  }

  lemma WatcherKeepsOthers(s: System, pc: WatcherPc, plan: Plan)
    requires plan.Valid() && Counts(s, plan) && InFlight(s, plan)
    ensures Counts(s.(wPc := pc), plan) && InFlight(s.(wPc := pc), plan)
  {
    FrameRings(s, s.(wPc := pc), plan);
  }

  lemma WatcherKeepsInv(s: System, plan: Plan)
    requires plan.Valid() && Inv(s, plan)
    ensures Inv(WatcherStep(s), plan)
  {
    var t := WatcherStep(s);
    WatcherStepLeaves(s);
    WatcherKeepsOthers(s, t.wPc, plan);
    FrameSender(s, t, plan);
    FrameServer(s, t, plan);
    FrameReceiver(s, t, plan);
  }

  lemma SenderKeepsOwn(s: System, plan: Plan)
    requires plan.Valid() && Counts(s, plan) && InFlight(s, plan) && SenderInv(s, plan)
    ensures Counts(SenderStep(s), plan) && InFlight(SenderStep(s), plan) && SenderInv(SenderStep(s), plan)
  {
    if s.sPc.SSend? {
      SendRings(s, plan);
      SendSelf(s, plan);
    } else {
      SenderMovesRings(s, plan);
      SenderMovesSelf(s, plan);
    }
  }

  /** What a step of this thread leaves alone. */
  predicate SenderLeaves(s: System, t: System) {
    && t.vPc == s.vPc && t.trans == s.trans && t.accounts == s.accounts && t.processed == s.processed
    && t.server == s.server && t.rPc == s.rPc && t.wPc == s.wPc && t.outRing == s.outRing
    && (t.sPc.SCreate? ==> s.sPc.SCreate?) && (s.vPc.VCreate? && s.sPc.SCreate? ==> t.sPc.SCreate?)
    && (t.inRing.flag == s.inRing.flag || t.inRing.flag != Empty)
  }

  lemma SenderStepLeaves(s: System)
    requires s.Ok()
    ensures SenderLeaves(s, SenderStep(s))
  {
  }

  lemma SenderKeepsOthers(s: System, t: System, plan: Plan)
    requires plan.Valid() && Counts(t, plan) && Counts(s, plan) && ServerInv(s, plan) && WatcherInv(s, plan)
    requires SenderLeaves(s, t)
    ensures ServerInv(t, plan)
  {
    FrameServer(s, t, plan);
  }

  lemma SenderKeepsInv(s: System, plan: Plan)
    requires plan.Valid() && Inv(s, plan)
    ensures Inv(SenderStep(s), plan)
  {
    SenderKeepsOwn(s, plan);
    SenderKeepsReceiverInv(s, plan);
    SenderStepLeaves(s);
    SenderKeepsOthers(s, SenderStep(s), plan);
  }

  lemma ServerKeepsOwn(s: System, plan: Plan)
    requires plan.Valid() && Counts(s, plan) && InFlight(s, plan) && ServerInv(s, plan) && ReceiverInv(s, plan)
    requires s.vPc.VProcess? ==> plan.Follows(s.processed)
    ensures Counts(ServerStep(s), plan) && InFlight(ServerStep(s), plan) && ServerInv(ServerStep(s), plan)
  {
    if s.vPc.VTransferIn? {
      TransferInRings(s, plan);
      TransferInSelf(s, plan);
    } else if s.vPc.VProcess? {
      ProcessRings(s, plan);
      ProcessSelf(s, plan);
    } else if s.vPc.VTransferOut? {
      TransferOutRings(s, plan);
      TransferOutSelf(s, plan);
    } else {
      ServerMovesRings(s, plan);
      ServerMovesSelf(s, plan);
    }
  }

  /** What a step of this thread leaves alone. */
  predicate ServerLeaves(s: System, t: System) {
    && t.sPc == s.sPc && t.i == s.i && t.txs == s.txs && t.rPc == s.rPc && t.j == s.j
    && t.shown == s.shown && t.client == s.client && t.wPc == s.wPc
    && (t.inRing.flag == s.inRing.flag || t.inRing.flag != Full)
    && (t.outRing.flag == s.outRing.flag || t.outRing.flag != Empty)
    && (s.vPc.VDone? ==> t.server == s.server) && (t.vPc.VCreate? ==> s.vPc.VCreate?)
  }

  lemma ServerStepLeaves(s: System)
    requires s.Ok()
    ensures ServerLeaves(s, ServerStep(s))
  {
  }

  lemma ServerKeepsOthers(s: System, t: System, plan: Plan)
    requires plan.Valid() && Counts(t, plan) && Counts(s, plan)
    requires ServerInv(s, plan) && ReceiverInv(s, plan) && SenderInv(s, plan) && WatcherInv(s, plan)
    requires ServerLeaves(s, t)
    ensures SenderInv(t, plan) && ReceiverInv(t, plan) && WatcherInv(t, plan)
  {
    FrameSender(s, t, plan);
    FrameReceiver(s, t, plan);
  }

  lemma ServerKeepsInv(s: System, plan: Plan)
    requires plan.Valid() && Inv(s, plan)
    requires s.vPc.VProcess? ==> plan.Follows(s.processed)
    ensures Inv(ServerStep(s), plan)
  {
    ServerKeepsOwn(s, plan);
    ServerStepLeaves(s);
    ServerKeepsOthers(s, ServerStep(s), plan);
  }

  lemma ReceiverKeepsOwn(s: System, plan: Plan)
    requires plan.Valid() && Counts(s, plan) && InFlight(s, plan) && ReceiverInv(s, plan)
    ensures Counts(ReceiverStep(s), plan) && InFlight(ReceiverStep(s), plan) && ReceiverInv(ReceiverStep(s), plan)
  {
    if s.rPc.RReceive? {
      ReceiveRings(s, plan);
      ReceiveSelf(s, plan);
    } else {
      ReceiverMovesRings(s, plan);
      ReceiverMovesSelf(s, plan);
    }
  }

  /** What a step of this thread leaves alone. */
  predicate ReceiverLeaves(s: System, t: System) {
    && t.sPc == s.sPc && t.i == s.i && t.txs == s.txs && t.vPc == s.vPc && t.trans == s.trans
    && t.accounts == s.accounts && t.processed == s.processed && t.server == s.server
    && t.inRing == s.inRing && t.wPc == s.wPc && (s.rPc.RDone? ==> t.rPc.RDone? && t.client == s.client)
    && (s.sPc.SCreate? && s.rPc.RCreate? ==> t.rPc.RCreate?)
    && (t.outRing.flag == s.outRing.flag || t.outRing.flag != Full)
  }

  lemma ReceiverStepLeaves(s: System)
    requires s.Ok()
    ensures ReceiverLeaves(s, ReceiverStep(s))
  {
  }

  lemma ReceiverKeepsOthers(s: System, t: System, plan: Plan)
    requires plan.Valid() && Counts(t, plan) && Counts(s, plan)
    requires SenderInv(s, plan) && ServerInv(s, plan) && WatcherInv(s, plan) && ReceiverInv(s, plan)
    requires ReceiverLeaves(s, t)
    ensures SenderInv(t, plan) && ServerInv(t, plan) && WatcherInv(t, plan)
  {
    FrameSender(s, t, plan);
    FrameServer(s, t, plan);
  }

  lemma ReceiverKeepsInv(s: System, plan: Plan)
    requires plan.Valid() && Inv(s, plan)
    ensures Inv(ReceiverStep(s), plan)
  {
    ReceiverKeepsOwn(s, plan);
    ReceiverStepLeaves(s);
    ReceiverKeepsOthers(s, ReceiverStep(s), plan);
  }

  lemma StepKeepsInv(s: System, t: Thread, job: Job)
    requires job.Valid() && PlanOf(job).Valid() && Inv(s, PlanOf(job))
    ensures Inv(Step(s, t), PlanOf(job))
  {
    var plan := PlanOf(job);
    match t
    case Sending => SenderKeepsInv(s, plan);
    case Serving =>
      if s.vPc.VProcess? {
        PlanFollows(job, s.processed);
      }
      ServerKeepsInv(s, plan);
    case Receiving => ReceiverKeepsInv(s, plan);
    case Watching => WatcherKeepsInv(s, plan);
  }

  lemma StartCounts(job: Job)
    requires job.Valid() && PlanOf(job).Valid()
    ensures Counts(Start(job), PlanOf(job))
  {
  }

  lemma StartRings(job: Job)
    requires job.Valid() && PlanOf(job).Valid() && Counts(Start(job), PlanOf(job))
    ensures InFlight(Start(job), PlanOf(job))
  {
  }

  lemma StartThreads(job: Job)
    requires job.Valid() && PlanOf(job).Valid() && Counts(Start(job), PlanOf(job))
    ensures SenderInv(Start(job), PlanOf(job)) && ReceiverInv(Start(job), PlanOf(job))
    ensures WatcherInv(Start(job), PlanOf(job)) && InOrder(Start(job))
  {
  }

  lemma StartServer(job: Job)
    requires job.Valid() && PlanOf(job).Valid() && Counts(Start(job), PlanOf(job))
    ensures ServerInv(Start(job), PlanOf(job))
  {
    assert Ledgers(job)[0] == job.accounts;
  }

  lemma StartInv(job: Job)
    requires job.Valid() && PlanOf(job).Valid()
    ensures Inv(Start(job), PlanOf(job))
  {
    StartCounts(job);
    StartRings(job);
    StartThreads(job);
    StartServer(job);
  }

  /** Every state of every run. */
  lemma {:induction false} RunKeepsInv(s: System, schedule: seq<Thread>, job: Job)
    requires job.Valid() && PlanOf(job).Valid() && Inv(s, PlanOf(job))
    ensures Inv(Run(s, schedule), PlanOf(job))
    decreases |schedule|
  {
    if schedule != [] {
      StepKeepsInv(s, schedule[0], job);
      RunKeepsInv(Step(s, schedule[0]), schedule[1..], job);
    }
  }
}

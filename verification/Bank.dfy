/** The bank as a system of four threads over shared static fields: the client that sends, the server, the client
    that receives, and the network thread that waits for the end.

    A step of a thread is one call of a Network method, or one test of a status, with the thread's own
    bookkeeping around it. Client and server reach the shared fields through different Network objects, so the
    synchronized methods do not exclude each other; that each call is atomic is an assumption of this model.

    The main program starts the network thread, then constructs and starts the server, the sending and the receiving
    client, in this order. The construction of a thread's object, which connects it, is its first step. */
module Bank {
  import opened Packets
  import opened Rings
  import opened Networks
  import opened Servers

  datatype Thread = Sending | Serving | Receiving | Watching

  datatype SenderPc = SCreate | SConnect | STest | SWait | SMark | SSend | SDone
  datatype ServerPc =
    | VCreate | VConnect | VTest | VWait | VBreak | VCheck | VTransferIn | VProcess | VWaitOut | VTransferOut | VCount
    | VDisconnect | VDone | VCrashed
  datatype ReceiverPc = RCreate | RConnect | RTest | RWait | RReceive | RDisconnect | RDone
  datatype WatcherPc = WClient | WServer | WDone

  datatype System = System(
    // static fields of Network
    inRing: Ring, outRing: Ring, client: Connection, server: Connection,
    // sending client: its transaction array and index
    sPc: SenderPc, txs: seq<Packet>, i: nat,
    // server: the packet at hand, the accounts, the number of transactions counted
    vPc: ServerPc, trans: Packet, accounts: seq<Account>, processed: nat,
    // receiving client: index, the packet at hand, what it has displayed
    rPc: ReceiverPc, j: nat, transact: Packet, shown: seq<Packet>,
    // network thread
    wPc: WatcherPc)
  {
    ghost predicate Ok() {
      inRing.Valid() && outRing.Valid() && (sPc in {SWait, SMark, SSend} ==> i < |txs|)
    }
  }

  const BLANK := Packet(" ", " ", 0.0, 0.0, "none")

  /** What a run is given: the ring size, the transactions read from the file, the accounts. */
  datatype Job = Job(size: nat, txs: seq<Packet>, accounts: seq<Account>) {
    predicate Valid() {
      size > 0
    }

    /** The transactions before the first that names no account: all of them if every transaction names one. */
    function Accepted(): (ps: seq<Packet>)
      ensures AllHaveAccounts(accounts, ps)
    {
      txs[..Leading(accounts, txs)]
    }
  }

  /** The network exists and its thread is started; nobody is connected yet. */
  function Start(job: Job): (s: System)
    requires job.size > 0
    ensures s.Ok()
  {
    System(NewRing(job.size), NewRing(job.size), Idle, Idle,
           SCreate, job.txs, 0,
           VCreate, BLANK, job.accounts, 0,
           RCreate, 0, BLANK, [],
           WClient)
  }

  function SenderStep(s: System): System
    requires s.Ok()
  {
    match s.sPc
    case SCreate => if s.vPc.VCreate? then s else s.(client := Connected, sPc := SConnect)
    case SConnect => s.(client := Connected, sPc := STest)
    case STest => s.(sPc := if s.i < |s.txs| then SWait else SDone)
    case SWait => if s.inRing.flag == Full then s else s.(sPc := SMark)
    case SMark => s.(txs := s.txs[s.i := s.txs[s.i].(error := "sent")], sPc := SSend)
    case SSend => s.(inRing := Put(s.inRing, s.txs[s.i], "transferred"), i := s.i + 1, sPc := STest)
    case SDone => s
  }

  function ServerStep(s: System): System
    requires s.Ok()
  {
    match s.vPc
    case VCreate => s.(server := Connected, vPc := VConnect)
    case VConnect => s.(server := Connected, vPc := VTest)
    case VTest => s.(vPc := if s.client == Disconnected then VDisconnect else VWait)
    case VWait => s.(vPc := if s.inRing.flag == Empty then VBreak else VCheck)
    case VBreak => s.(vPc := if s.client == Disconnected then VCheck else VWait)
    case VCheck => s.(vPc := if s.inRing.flag == Empty then VTest else VTransferIn)
    case VTransferIn => s.(trans := Taken(s.inRing, "received"), inRing := Take(s.inRing), vPc := VProcess)
    case VProcess =>
      if HasAccount(s.accounts, s.trans.account) then
        s.(accounts := Updated(s.accounts, s.trans), trans := Answer(s.accounts, s.trans), vPc := VWaitOut)
      else s.(vPc := VCrashed)
    case VWaitOut => if s.outRing.flag == Full then s else s.(vPc := VTransferOut)
    case VTransferOut => s.(outRing := Put(s.outRing, s.trans, "transferred"), vPc := VCount)
    case VCount => s.(processed := s.processed + 1, vPc := VTest)
    case VDisconnect => s.(server := Disconnected, vPc := VDone)
    case VDone => s
    case VCrashed => s
  }

  function ReceiverStep(s: System): System
    requires s.Ok()
  {
    match s.rPc
    case RCreate => if s.sPc.SCreate? then s else s.(rPc := RConnect)
    case RConnect => s.(client := Connected, rPc := RTest)
    case RTest => s.(rPc := if s.j < |s.txs| then RWait else RDisconnect)
    case RWait => if s.outRing.flag == Empty then s else s.(rPc := RReceive)
    case RReceive =>
      var packet := Taken(s.outRing, "done");
      s.(transact := packet, shown := s.shown + [packet], outRing := Take(s.outRing), j := s.j + 1, rPc := RTest)
    case RDisconnect => s.(client := Disconnected, rPc := RDone)
    case RDone => s
  }

  function WatcherStep(s: System): System
    requires s.Ok()
  {
    match s.wPc
    case WClient => if s.client == Disconnected then s.(wPc := WServer) else s
    case WServer => s.(wPc := if s.server == Disconnected then WDone else WClient)
    case WDone => s
  }

  function Step(s: System, t: Thread): (r: System)
    requires s.Ok()
    ensures r.Ok() && |r.txs| == |s.txs|
  {
    match t
    case Sending => SenderStep(s)
    case Serving => ServerStep(s)
    case Receiving => ReceiverStep(s)
    case Watching => WatcherStep(s)
  }

  /** A run: the threads step in the order of the schedule. */
  function Run(s: System, schedule: seq<Thread>): (r: System)
    requires s.Ok()
    ensures r.Ok()
    decreases |schedule|
  {
    if schedule == [] then s else Run(Step(s, schedule[0]), schedule[1..])
  }
}

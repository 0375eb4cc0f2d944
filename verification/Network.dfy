/** The network: two packet arrays with their indices and flags, and two connection states. */
module Networks {
  import opened Packets
  import opened Rings

  datatype Connection = Idle | Connected | Disconnected
  datatype Address = Client | Server

  class Network {
    var inComing: array<Transactions>
    var outGoing: array<Transactions>
    var inputIndexClient: nat
    var outputIndexServer: nat
    var inputIndexServer: nat
    var outputIndexClient: nat
    var inBufferStatus: Flag
    var outBufferStatus: Flag
    var clientStatus: Connection
    var serverStatus: Connection

    /** Every slot is a record of its own. */
    ghost predicate Apart(a: array<Transactions>)
      reads a
    {
      forall i, j | 0 <= i < j < a.Length :: a[i] != a[j]
    }

    ghost predicate Valid()
      reads this, inComing, outGoing, inComing[..], outGoing[..]
    {
      && inComing != outGoing && Apart(inComing) && Apart(outGoing)
      && (forall i, j | 0 <= i < inComing.Length && 0 <= j < outGoing.Length :: inComing[i] != outGoing[j])
      && inComing.Length == outGoing.Length > 0
      && inputIndexClient < inComing.Length && outputIndexServer < inComing.Length
      && inputIndexServer < outGoing.Length && outputIndexClient < outGoing.Length
    }

    ghost function Packets(a: array<Transactions>): (s: seq<Packet>)
      reads a, a[..]
      ensures |s| == a.Length
    {
      seq(a.Length, i requires 0 <= i < a.Length reads a, a[..] => a[i].View())
    }

    ghost function InRing(): Ring
      reads this, inComing, inComing[..]
    {
      Ring(Packets(inComing), inputIndexClient, outputIndexServer, inBufferStatus)
    }

    ghost function OutRing(): Ring
      reads this, outGoing, outGoing[..]
    {
      Ring(Packets(outGoing), inputIndexServer, outputIndexClient, outBufferStatus)
    }

    method Send(inPacket: Transactions)
      requires Valid()
      modifies this`inputIndexClient, this`inBufferStatus, inComing[inputIndexClient]
      ensures Valid()
      ensures InRing() == Put(old(InRing()), old(inPacket.View()), "transferred")
      ensures OutRing() == old(OutRing())
    {
      var slot := inComing[inputIndexClient];
      slot.CopyFrom(inPacket, "transferred");
      NextIsRemainder(inputIndexClient, inComing.Length);
      inputIndexClient := (inputIndexClient + 1) % inComing.Length;
      inBufferStatus := if inputIndexClient == outputIndexServer then Full else Normal;
      assert Packets(inComing) == old(Packets(inComing))[old(inputIndexClient) := slot.View()];
    }

    method TransferIn(inPacket: Transactions)
      requires Valid()
      requires inPacket !in inComing[..] && inPacket !in outGoing[..]
      modifies this`outputIndexServer, this`inBufferStatus, inPacket
      ensures Valid()
      ensures inPacket.View() == Taken(old(InRing()), "received")
      ensures InRing() == Take(old(InRing())) && OutRing() == old(OutRing())
    {
      inPacket.CopyFrom(inComing[outputIndexServer], "received");
      NextIsRemainder(outputIndexServer, inComing.Length);
      outputIndexServer := (outputIndexServer + 1) % inComing.Length;
      inBufferStatus := if outputIndexServer == inputIndexClient then Empty else Normal;
      assert Packets(inComing) == old(Packets(inComing));
      assert Packets(outGoing) == old(Packets(outGoing));
    }

    method TransferOut(outPacket: Transactions)
      requires Valid()
      modifies this`inputIndexServer, this`outBufferStatus, outGoing[inputIndexServer]
      ensures Valid()
      ensures OutRing() == Put(old(OutRing()), old(outPacket.View()), "transferred")
      ensures InRing() == old(InRing())
    {
      var slot := outGoing[inputIndexServer];
      slot.CopyFrom(outPacket, "transferred");
      NextIsRemainder(inputIndexServer, outGoing.Length);
      inputIndexServer := (inputIndexServer + 1) % outGoing.Length;
      outBufferStatus := if inputIndexServer == outputIndexClient then Full else Normal;
      assert Packets(outGoing) == old(Packets(outGoing))[old(inputIndexServer) := slot.View()];
      assert Packets(inComing) == old(Packets(inComing));
    }

    method Receive(outPacket: Transactions)
      requires Valid()
      requires outPacket !in inComing[..] && outPacket !in outGoing[..]
      modifies this`outputIndexClient, this`outBufferStatus, outPacket
      ensures Valid()
      ensures outPacket.View() == Taken(old(OutRing()), "done")
      ensures OutRing() == Take(old(OutRing())) && InRing() == old(InRing())
    {
      outPacket.CopyFrom(outGoing[outputIndexClient], "done");
      NextIsRemainder(outputIndexClient, outGoing.Length);
      outputIndexClient := (outputIndexClient + 1) % outGoing.Length;
      outBufferStatus := if outputIndexClient == inputIndexServer then Empty else Normal;
      assert Packets(inComing) == old(Packets(inComing));
      assert Packets(outGoing) == old(Packets(outGoing));
    }

    /** The records of one buffer, all new. */
    static method NewBuffer(size: nat) returns (a: array<Transactions>)
      ensures fresh(a) && a.Length == size
      ensures forall k | 0 <= k < size :: fresh(a[k]) && a[k].View() == Packet(" ", " ", 0.0, 0.0, "none")
      ensures forall j, k | 0 <= j < k < size :: a[j] != a[k]
    {
      var t := new Transactions();
      a := new Transactions[size](_ => t);
      for i := 0 to size
        invariant forall k | 0 <= k < i :: fresh(a[k]) && a[k].View() == Packet(" ", " ", 0.0, 0.0, "none")
        invariant forall j, k | 0 <= j < k < i :: a[j] != a[k]
      {
        a[i] := new Transactions();
      }
    }

    constructor (maxNbPackets: nat)
      requires maxNbPackets > 0
      ensures Valid() && fresh(inComing) && fresh(outGoing)
      ensures InRing() == OutRing() == NewRing(maxNbPackets)
      ensures clientStatus == serverStatus == Idle
    {
      var a := NewBuffer(maxNbPackets);
      var b := NewBuffer(maxNbPackets);
      inComing, outGoing := a, b;
      inputIndexClient, outputIndexServer, inputIndexServer, outputIndexClient := 0, 0, 0, 0;
      inBufferStatus, outBufferStatus := Empty, Empty;
      clientStatus, serverStatus := Idle, Idle;
    }

    method Connect(address: Address)
      modifies this`clientStatus, this`serverStatus
      ensures clientStatus == if address == Client then Connected else old(clientStatus)
      ensures serverStatus == if address == Server then Connected else old(serverStatus)
    {
      if address == Client {
        clientStatus := Connected;
      } else {
        serverStatus := Connected;
      }
    }

    method Disconnect(address: Address)
      modifies this`clientStatus, this`serverStatus
      ensures clientStatus == if address == Client then Disconnected else old(clientStatus)
      ensures serverStatus == if address == Server then Disconnected else old(serverStatus)
    {
      if address == Client {
        clientStatus := Disconnected;
      } else {
        serverStatus := Disconnected;
      }
    }
  }
}

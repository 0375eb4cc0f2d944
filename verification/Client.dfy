/** The two clients: one turn of the sending loop and of the receiving loop, after its busy-wait has ended. */
module Clients {
  import opened Packets
  import opened Rings
  import opened Networks

  class Client {
    const transaction: array<Transactions>
    var i: nat
    var shown: seq<Packet>

    /** The records of the file are apart from each other and from the network's. */
    ghost predicate Valid(network: Network)
      reads this, transaction, network, network.inComing, network.outGoing
    {
      && i <= transaction.Length
      && (forall j, k | 0 <= j < k < transaction.Length :: transaction[j] != transaction[k])
      && (forall j, k | 0 <= j < transaction.Length && 0 <= k < network.inComing.Length ::
            transaction[j] != network.inComing[k])
      && (forall j, k | 0 <= j < transaction.Length && 0 <= k < network.outGoing.Length ::
            transaction[j] != network.outGoing[k])
    }

    ghost function View(): (s: seq<Packet>)
      reads transaction, transaction[..]
      ensures |s| == transaction.Length
    {
      seq(transaction.Length, k requires 0 <= k < transaction.Length reads transaction, transaction[..] =>
        transaction[k].View())
    }

    constructor (records: array<Transactions>)
      ensures transaction == records && i == 0 && shown == []
    {
      transaction, i, shown := records, 0, [];
    }

    /** Mark a transaction as sent and send it: it goes behind the packets in flight if the ring is not full. */
    method SendNext(network: Network)
      requires network.Valid() && Valid(network) && i < transaction.Length
      modifies this`i, transaction[i], network`inputIndexClient, network`inBufferStatus
      modifies network.inComing[network.inputIndexClient]
      ensures network.Valid() && Valid(network) && i == old(i) + 1
      ensures View() == old(View())[old(i) := old(View())[old(i)].(error := "sent")]
      ensures network.InRing() == Put(old(network.InRing()), View()[old(i)], "transferred")
      ensures network.OutRing() == old(network.OutRing())
    {
      transaction[i].SetTransactionStatus("sent");
      assert View() == old(View())[i := old(View())[i].(error := "sent")];
      assert network.InRing() == old(network.InRing());
      assert network.OutRing() == old(network.OutRing());
      network.Send(transaction[i]);
      i := i + 1;
    }

    /** Receive a transaction into the record at hand and display it. */
    method ReceiveNext(network: Network, transact: Transactions)
      requires network.Valid()
      requires transact !in network.inComing[..] && transact !in network.outGoing[..]
      modifies this`i, this`shown, transact, network`outputIndexClient, network`outBufferStatus
      ensures network.Valid() && i == old(i) + 1
      ensures shown == old(shown) + [Taken(old(network.OutRing()), "done")]
      ensures network.OutRing() == Take(old(network.OutRing())) && network.InRing() == old(network.InRing())
    {
      network.Receive(transact);
      shown := shown + [transact.View()];
      i := i + 1;
    }
  }
}

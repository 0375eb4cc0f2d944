/** The transaction record that travels between client and server. */
module Packets {

  /** What a record says. The status field is left out: in spite of its setter nothing writes it after construction. */
  datatype Packet = Packet(account: string, operation: string, amount: real, balance: real, error: string)

  /** The record with the source's fields, filled in place. */
  class Transactions {
    var accountNumber: string
    var operationType: string
    var transactionAmount: real
    var transactionBalance: real
    var transactionError: string
    var transactionStatus: string

    function View(): Packet
      reads this
    {
      Packet(accountNumber, operationType, transactionAmount, transactionBalance, transactionError)
    }

    constructor ()
      ensures View() == Packet(" ", " ", 0.0, 0.0, "none") && transactionStatus == " "
    {
      accountNumber, operationType := " ", " ";
      transactionAmount, transactionBalance := 0.0, 0.0;
      transactionError, transactionStatus := "none", " ";
    }

    /** The source assigns the error field here; the status field never changes. */
    method SetTransactionStatus(status: string)
      modifies this`transactionError
      ensures View() == old(View()).(error := status)
    {
      transactionError := status;
    }

    /** The copying that all four transfers do, field by field, followed by their status call. */
    method CopyFrom(source: Transactions, status: string)
      modifies this
      ensures View() == Copied(old(source.View()), status)
      ensures transactionStatus == old(transactionStatus)
    {
      accountNumber := source.accountNumber;
      operationType := source.operationType;
      transactionAmount := source.transactionAmount;
      transactionBalance := source.transactionBalance;
      transactionError := source.transactionError;
      SetTransactionStatus(status);
    }
  }

  /** What a copy says: the message lands in the error field. */
  function Copied(source: Packet, message: string): Packet {
    source.(error := message)
  }
}

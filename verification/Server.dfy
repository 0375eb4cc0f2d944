/** The server's accounts: what one transaction does to them, and what a whole file of them does. */
module Servers {
  import opened Packets

  datatype Account = Account(number: string, balance: real)

  /** The first account from index i on with the number; |accounts| if there is none. */
  function FindFrom(accounts: seq<Account>, number: string, i: nat): (r: nat)
    requires i <= |accounts|
    ensures i <= r <= |accounts|
    ensures r < |accounts| ==> accounts[r].number == number
    ensures forall k | i <= k < r :: accounts[k].number != number
    decreases |accounts| - i
  {
    if i == |accounts| || accounts[i].number == number then i else FindFrom(accounts, number, i + 1)
  }

  /** The first account with the number; |accounts| if there is none, where the source runs off its array. */
  function FindAccount(accounts: seq<Account>, number: string): (i: nat)
    ensures i <= |accounts|
    ensures i < |accounts| ==> accounts[i].number == number
    ensures forall k | 0 <= k < i :: accounts[k].number != number
  {
    FindFrom(accounts, number, 0)
  }

  predicate HasAccount(accounts: seq<Account>, number: string) {
    FindAccount(accounts, number) < |accounts|
  }

  /** The change a transaction makes to the balance of its account. */
  function Delta(p: Packet): real {
    if p.operation == "DEPOSIT" then p.amount
    else if p.operation == "WITHDRAW" then -p.amount
    else 0.0
  }

  predicate IsKnown(operation: string) {
    operation == "DEPOSIT" || operation == "WITHDRAW" || operation == "QUERY"
  }

  predicate SameNumbers(a: seq<Account>, b: seq<Account>) {
    |a| == |b| && forall k | 0 <= k < |a| :: a[k].number == b[k].number
  }

  function Updated(accounts: seq<Account>, p: Packet): (r: seq<Account>)
    requires HasAccount(accounts, p.account)
    ensures SameNumbers(r, accounts)
  {
    var i := FindAccount(accounts, p.account);
    accounts[i := accounts[i].(balance := accounts[i].balance + Delta(p))]
  }

  /** The packet as it leaves the server. An unknown operation leaves it as it came. */
  function Answer(accounts: seq<Account>, p: Packet): Packet
    requires HasAccount(accounts, p.account)
  {
    if IsKnown(p.operation)
    then p.(balance := Updated(accounts, p)[FindAccount(accounts, p.account)].balance, error := "done")
    else p
  }

  /** What each operation does: a deposit adds its amount to the balance of the account found, a withdrawal subtracts
      it, a query and anything else leave all accounts as they are. The packet carries the new balance back, but for an
      unknown operation it goes back as it came. */
  lemma OperationsMean(accounts: seq<Account>, p: Packet)
    requires HasAccount(accounts, p.account)
    ensures
      var i, r, q := FindAccount(accounts, p.account), Updated(accounts, p), Answer(accounts, p);
      var b := accounts[i].balance;
      && (p.operation == "DEPOSIT" ==>
            r == accounts[i := accounts[i].(balance := b + p.amount)] &&
            q == p.(balance := b + p.amount, error := "done"))
      && (p.operation == "WITHDRAW" ==>
            r == accounts[i := accounts[i].(balance := b - p.amount)] &&
            q == p.(balance := b - p.amount, error := "done"))
      && (p.operation == "QUERY" ==> r == accounts && q == p.(balance := b, error := "done"))
      && (p.operation !in {"DEPOSIT", "WITHDRAW", "QUERY"} ==> r == accounts && q == p)
  {
    var i := FindAccount(accounts, p.account);
    assert accounts[i].(balance := accounts[i].balance + 0.0) == accounts[i];
    assert accounts[i := accounts[i]] == accounts;
    assert "DEPOSIT"[0] == 'D' && "WITHDRAW"[0] == 'W' && "QUERY"[0] == 'Q';
  }

  /** An account record; only the number and the balance take part in the processing. */
  class Accounts {
    const accountNumber: string
    var balance: real

    constructor (number: string, initial: real)
      ensures accountNumber == number && balance == initial
    {
      accountNumber, balance := number, initial;
    }
  }

  class Server {
    const account: array<Accounts>

    ghost predicate Valid()
      reads this, account
    {
      forall i, j | 0 <= i < j < account.Length :: account[i] != account[j]
    }

    ghost function View(): (s: seq<Account>)
      reads account, account[..]
      ensures |s| == account.Length
    {
      seq(account.Length, i requires 0 <= i < account.Length reads account, account[..] =>
        Account(account[i].accountNumber, account[i].balance))
    }

    constructor (records: array<Accounts>)
      ensures account == records
    {
      account := records;
    }

    /** The search. It has no bound test of its own: an index of account.Length stands for the exception that the
        source's search ends with when it runs off its array. */
    method Find(accNumber: string) returns (i: nat)
      ensures i == FindAccount(View(), accNumber) <= account.Length
    {
      i := 0;
      while i < account.Length && account[i].accountNumber != accNumber
        invariant i <= FindAccount(View(), accNumber)
      {
        i := i + 1;
      }
      assert i < account.Length ==> View()[i].number == accNumber;
    }

    method Deposit(i: nat, amount: real) returns (newBalance: real)
      requires Valid() && i < account.Length
      modifies account[i]
      ensures newBalance == old(account[i].balance) + amount
      ensures View() == old(View())[i := old(View())[i].(balance := newBalance)]
    {
      account[i].balance := account[i].balance + amount;
      newBalance := account[i].balance;
    }

    method Withdraw(i: nat, amount: real) returns (newBalance: real)
      requires Valid() && i < account.Length
      modifies account[i]
      ensures newBalance == old(account[i].balance) - amount
      ensures View() == old(View())[i := old(View())[i].(balance := newBalance)]
    {
      account[i].balance := account[i].balance - amount;
      newBalance := account[i].balance;
    }

    method Query(i: nat) returns (curBalance: real)
      requires i < account.Length
      ensures curBalance == View()[i].balance
    {
      curBalance := account[i].balance;
    }

    /** The three operations on the account at index i. */
    method Apply(i: nat, trans: Transactions)
      requires Valid() && i < account.Length && i == FindAccount(View(), trans.accountNumber)
      modifies trans, account[i]
      ensures View() == Updated(old(View()), old(trans.View()))
      ensures trans.View() == Answer(old(View()), old(trans.View()))
    {
      if trans.operationType == "DEPOSIT" {
        var newBalance := Deposit(i, trans.transactionAmount);
        trans.transactionBalance := newBalance;
        trans.SetTransactionStatus("done");
      } else if trans.operationType == "WITHDRAW" {
        var newBalance := Withdraw(i, trans.transactionAmount);
        trans.transactionBalance := newBalance;
        trans.SetTransactionStatus("done");
      } else if trans.operationType == "QUERY" {
        var newBalance := Query(i);
        trans.transactionBalance := newBalance;
        trans.SetTransactionStatus("done");
      }
    }

    /** What happens to a packet between transferIn and transferOut. Without an account the search ends with an
        exception and nothing has changed. */
    method Process(trans: Transactions) returns (crashed: bool)
      requires Valid()
      modifies trans, account[..]
      ensures crashed <==> !HasAccount(old(View()), old(trans.accountNumber))
      ensures if crashed then View() == old(View()) && trans.View() == old(trans.View())
              else View() == Updated(old(View()), old(trans.View())) &&
                   trans.View() == Answer(old(View()), old(trans.View()))
    {
      var i := Find(trans.accountNumber);
      crashed := i == account.Length;
      if !crashed {
        Apply(i, trans);
      }
    }
  }

  // ---------- A whole file of transactions, one after the other ----------

  predicate AllHaveAccounts(accounts: seq<Account>, txs: seq<Packet>) {
    forall k | 0 <= k < |txs| :: HasAccount(accounts, txs[k].account)
  }

  /** How many transactions come before the first that names no account. */
  function Leading(accounts: seq<Account>, txs: seq<Packet>): (n: nat)
    ensures n <= |txs| && AllHaveAccounts(accounts, txs[..n])
    ensures n < |txs| ==> !HasAccount(accounts, txs[n].account)
  {
    if txs == [] || !HasAccount(accounts, txs[0].account) then 0
    else
      var n := Leading(accounts, txs[1..]);
      assert forall k | 0 <= k < n :: txs[..n + 1][k + 1] == txs[1..][..n][k];
      n + 1
  }

  lemma FindsTheSame(a: seq<Account>, b: seq<Account>, number: string)
    requires SameNumbers(a, b)
    ensures FindAccount(a, number) == FindAccount(b, number)
  {
  }

  /** The accounts after the first n transactions. */
  function After(accounts: seq<Account>, txs: seq<Packet>, n: nat): (r: seq<Account>)
    requires n <= |txs| && AllHaveAccounts(accounts, txs)
    ensures SameNumbers(r, accounts)
  {
    if n == 0 then accounts
    else
      var before := After(accounts, txs, n - 1);
      FindsTheSame(before, accounts, txs[n - 1].account);
      assert HasAccount(accounts, txs[n - 1].account);
      Updated(before, txs[n - 1])
  }

  /** The answer to transaction k when all before it have been processed in file order. */
  function Result(accounts: seq<Account>, txs: seq<Packet>, k: nat): Packet
    requires k < |txs| && AllHaveAccounts(accounts, txs)
  {
    FindsTheSame(After(accounts, txs, k), accounts, txs[k].account);
    assert HasAccount(accounts, txs[k].account);
    Answer(After(accounts, txs, k), txs[k].(error := "received"))
  }

  /** One transaction more; the message a packet carries does not matter to the accounts. */
  lemma AfterNext(accounts: seq<Account>, txs: seq<Packet>, k: nat)
    requires k < |txs| && AllHaveAccounts(accounts, txs)
    ensures HasAccount(After(accounts, txs, k), txs[k].account)
    ensures After(accounts, txs, k + 1) == Updated(After(accounts, txs, k), txs[k].(error := "received"))
  {
    FindsTheSame(After(accounts, txs, k), accounts, txs[k].account);
    assert HasAccount(accounts, txs[k].account);
  }

  // ---------- Where the money goes ----------

  /** The sum of the first n balances. */
  function TotalOf(accounts: seq<Account>, n: nat): real
    requires n <= |accounts|
  {
    if n == 0 then 0.0 else TotalOf(accounts, n - 1) + accounts[n - 1].balance
  }

  function Total(accounts: seq<Account>): real {
    TotalOf(accounts, |accounts|)
  }

  /** The amounts of the packets with the operation among the first n. */
  function Moved(txs: seq<Packet>, operation: string, n: nat): real
    requires n <= |txs|
  {
    if n == 0 then 0.0
    else Moved(txs, operation, n - 1) + if txs[n - 1].operation == operation then txs[n - 1].amount else 0.0
  }

  /** The same for the packets that name account a. */
  function MovedOf(accounts: seq<Account>, txs: seq<Packet>, a: nat, operation: string, n: nat): real
    requires n <= |txs|
  {
    if n == 0 then 0.0
    else
      var p := txs[n - 1];
      var moved := if p.operation == operation && FindAccount(accounts, p.account) == a then p.amount else 0.0;
      MovedOf(accounts, txs, a, operation, n - 1) + moved
  }

  /** What a packet moves. */
  lemma DeltaMoves(p: Packet)
    ensures Delta(p) == (if p.operation == "DEPOSIT" then p.amount else 0.0) -
                        (if p.operation == "WITHDRAW" then p.amount else 0.0)
  {
    assert "DEPOSIT"[0] == 'D' && "WITHDRAW"[0] == 'W';
  }

  lemma {:induction false} TotalUpdate(before: seq<Account>, after: seq<Account>, i: nat, d: real, n: nat)
    requires i < |before| && n <= |before| && after == before[i := before[i].(balance := before[i].balance + d)]
    ensures TotalOf(after, n) == TotalOf(before, n) + if i < n then d else 0.0
  {
    if n > 0 {
      TotalUpdate(before, after, i, d, n - 1);
    }
  }

  lemma TotalAfterNext(accounts: seq<Account>, txs: seq<Packet>, k: nat)
    requires k < |txs| && AllHaveAccounts(accounts, txs)
    ensures Total(After(accounts, txs, k + 1)) == Total(After(accounts, txs, k)) + Delta(txs[k])
  {
    AfterNext(accounts, txs, k);
    var before := After(accounts, txs, k);
    TotalUpdate(before, After(accounts, txs, k + 1), FindAccount(before, txs[k].account), Delta(txs[k]), |before|);
  }

  /** Money is neither made nor lost. */
  lemma {:induction false} MoneyIsConserved(accounts: seq<Account>, txs: seq<Packet>, n: nat)
    requires n <= |txs| && AllHaveAccounts(accounts, txs)
    ensures Total(After(accounts, txs, n)) == Total(accounts) + Moved(txs, "DEPOSIT", n) - Moved(txs, "WITHDRAW", n)
  {
    if n > 0 {
      var k := n - 1;
      MoneyIsConserved(accounts, txs, k);
      TotalAfterNext(accounts, txs, k);
      DeltaMoves(txs[k]);
      assert n == k + 1;
    }
  }

  lemma AccountAfterNext(accounts: seq<Account>, txs: seq<Packet>, a: nat, k: nat)
    requires k < |txs| && AllHaveAccounts(accounts, txs) && a < |accounts|
    ensures
      var before, moved := After(accounts, txs, k)[a], FindAccount(accounts, txs[k].account) == a;
      After(accounts, txs, k + 1)[a] == if moved then before.(balance := before.balance + Delta(txs[k])) else before
  {
    AfterNext(accounts, txs, k);
    FindsTheSame(After(accounts, txs, k), accounts, txs[k].account);
  }

  /** The initial balance of account a with its own deposits and withdrawals among the first n transactions. */
  function BalanceAfter(accounts: seq<Account>, txs: seq<Packet>, a: nat, n: nat): real
    requires a < |accounts| && n <= |txs|
  {
    accounts[a].balance + MovedOf(accounts, txs, a, "DEPOSIT", n) - MovedOf(accounts, txs, a, "WITHDRAW", n)
  }

  /** No account is touched by another's transactions. */
  lemma {:induction false} AccountsAreSeparate(accounts: seq<Account>, txs: seq<Packet>, a: nat, n: nat)
    requires n <= |txs| && AllHaveAccounts(accounts, txs) && a < |accounts|
    ensures After(accounts, txs, n)[a] == accounts[a].(balance := BalanceAfter(accounts, txs, a, n))
  {
    if n > 0 {
      var k := n - 1;
      AccountsAreSeparate(accounts, txs, a, k);
      AccountAfterNext(accounts, txs, a, k);
      DeltaMoves(txs[k]);
      assert n == k + 1;
    }
  }

  /** The answer to transaction k says what is then in its account, if the operation is known. */
  lemma ResultTellsTheBalance(accounts: seq<Account>, txs: seq<Packet>, k: nat)
    requires k < |txs| && AllHaveAccounts(accounts, txs) && HasAccount(accounts, txs[k].account)
    ensures
      var p, a := txs[k], FindAccount(accounts, txs[k].account);
      Result(accounts, txs, k) ==
        if p.operation in {"DEPOSIT", "WITHDRAW", "QUERY"}
        then p.(balance := BalanceAfter(accounts, txs, a, k + 1), error := "done") else p.(error := "received")
  {
    var p, a := txs[k].(error := "received"), FindAccount(accounts, txs[k].account);
    FindsTheSame(After(accounts, txs, k), accounts, p.account);
    AfterNext(accounts, txs, k);
    AccountsAreSeparate(accounts, txs, a, k + 1);
    OperationsMean(After(accounts, txs, k), p);
  }
}

/** Properties that relate several operations of the store: what deposits and
    transfers do to the total of all balances, what a lookup finds after a
    delete or an insert, and what the lone balance guard of a transfer lets
    through. Where ids must be distinct, the lemmas assume what the store
    keeps invariant: the id column is serial (`Serial(Ids(rows), next)`). */
module Properties {
  import opened Types
  import opened Tables
  import opened Storage

  /** No row of `rows` has id `id`. */
  predicate NoId(rows: seq<Account>, id: int)
  {
    rows == [] || (rows[0].id != id && NoId(rows[1..], id))
  }

  lemma {:induction false} NoIdMeans(rows: seq<Account>, id: int)
    ensures NoId(rows, id) <==> forall i :: 0 <= i < |rows| ==> rows[i].id != id
  {
    if rows != [] {
      NoIdMeans(rows[1..], id);
      assert forall i :: 1 <= i < |rows| ==> rows[i] == rows[1..][i - 1];
    }
  }

  /** Without its first row, a serial table is still serial, and the first
      row's id appears nowhere after it. */
  lemma SerialTail(rows: seq<Account>, next: int)
    requires rows != [] && Serial(Ids(rows), next)
    ensures Serial(Ids(rows[1..]), next)
    ensures NoId(rows[1..], rows[0].id)
  {
    var tail := rows[1..];
    forall i, j | 0 <= i < j < |tail| ensures Ids(tail)[i] < Ids(tail)[j] {
      assert Ids(rows)[i + 1] < Ids(rows)[j + 1];
    }
    forall i | 0 <= i < |tail| ensures 1 <= Ids(tail)[i] < next && tail[i].id != rows[0].id {
      assert Ids(rows)[0] < Ids(rows)[i + 1] < next;
    }
    NoIdMeans(tail, rows[0].id);
  }

  /** In a serial table two rows with the same id are the same row. */
  lemma SameIdSameRow(rows: seq<Account>, next: int, k: nat, j: nat)
    requires Serial(Ids(rows), next)
    requires k < |rows| && j < |rows| && rows[k].id == rows[j].id
    ensures k == j
  {
    assert Ids(rows)[k] == Ids(rows)[j];
  }

  /** An update whose `where id = ...` matches no row changes nothing. */
  lemma {:induction false} SetBalanceOfMissingId(rows: seq<Account>, id: int, b: int)
    requires NoId(rows, id)
    ensures SetBalance(rows, id, b) == rows
  {
    if rows != [] {
      SetBalanceOfMissingId(rows[1..], id, b);
    }
  }

  /** An update of balances moves no id into a table that lacked it. */
  lemma {:induction false} SetBalanceKeepsNoId(rows: seq<Account>, id: int, b: int, other: int)
    requires NoId(rows, other)
    ensures NoId(SetBalance(rows, id, b), other)
  {
    if rows != [] {
      SetBalanceKeepsNoId(rows[1..], id, b, other);
    }
  }

  /** A balance update keeps the id column serial. */
  lemma SetBalanceKeepsSerial(rows: seq<Account>, next: int, id: int, b: int)
    requires Serial(Ids(rows), next)
    ensures Serial(Ids(SetBalance(rows, id, b)), next)
  {
    SetBalanceKeepsIds(rows, id, b);
  }

  /** What a balance update does to one given row. */
  lemma SetBalanceAt(rows: seq<Account>, id: int, b: int, j: nat)
    requires j < |rows|
    ensures |SetBalance(rows, id, b)| == |rows|
    ensures SetBalance(rows, id, b)[j] == if rows[j].id == id then rows[j].(balance := b) else rows[j]
  {
    SetBalanceRows(rows, id, b);
  }

  /** In a serial table, setting the balance of the row with that id changes
      the total by the new balance minus the old one. */
  lemma {:induction false} SumAfterSetBalance(rows: seq<Account>, next: int, id: int, b: int, k: nat)
    requires Serial(Ids(rows), next)
    requires k < |rows| && rows[k].id == id
    ensures Sum(SetBalance(rows, id, b)) == Sum(rows) - rows[k].balance + b
  {
    var tail := rows[1..];
    SerialTail(rows, next);
    if k == 0 {
      SetBalanceOfMissingId(tail, id, b);
    } else {
      NoIdMeans(tail, rows[0].id);
      assert tail[k - 1] == rows[k];
      SumAfterSetBalance(tail, next, id, b, k - 1);
    }
  }

  /** A deposit raises the total of all balances by the amount once per
      account, not once: every row is credited. */
  lemma {:induction false} DepositRaisesTotal(rows: seq<Account>, amount: int)
    ensures Sum(AddToAll(rows, amount)) == Sum(rows) + |rows| * amount
  {
    if rows != [] {
      DepositRaisesTotal(rows[1..], amount);
      assert AddToAll(rows, amount)[1..] == AddToAll(rows[1..], amount);
    }
  }

  /** Two balance updates of different ids in a serial table: the total
      changes by both new balances minus both old ones. */
  lemma SumAfterTwoWrites(rows: seq<Account>, next: int, firstId: int, firstBalance: int,
                          secondId: int, secondBalance: int, k: nat, j: nat)
    requires Serial(Ids(rows), next) && firstId != secondId
    requires k < |rows| && rows[k].id == firstId
    requires j < |rows| && rows[j].id == secondId
    ensures Sum(SetBalance(SetBalance(rows, firstId, firstBalance), secondId, secondBalance))
      == Sum(rows) - rows[k].balance + firstBalance - rows[j].balance + secondBalance
  {
    var once := SetBalance(rows, firstId, firstBalance);
    SumAfterSetBalance(rows, next, firstId, firstBalance, k);
    SetBalanceKeepsSerial(rows, next, firstId, firstBalance);
    SetBalanceAt(rows, firstId, firstBalance, j);
    SumAfterSetBalance(once, next, secondId, secondBalance, j);
  }

  /** Two balance updates of the same id: the second one wins. */
  lemma SumAfterOverwrite(rows: seq<Account>, next: int, id: int, firstBalance: int, secondBalance: int, k: nat)
    requires Serial(Ids(rows), next)
    requires k < |rows| && rows[k].id == id
    ensures |SetBalance(SetBalance(rows, id, firstBalance), id, secondBalance)| == |rows|
    ensures SetBalance(SetBalance(rows, id, firstBalance), id, secondBalance)[k] == rows[k].(balance := secondBalance)
    ensures Sum(SetBalance(SetBalance(rows, id, firstBalance), id, secondBalance)) == Sum(rows) - rows[k].balance + secondBalance
  {
    var once := SetBalance(rows, id, firstBalance);
    SumAfterSetBalance(rows, next, id, firstBalance, k);
    SetBalanceKeepsSerial(rows, next, id, firstBalance);
    SetBalanceAt(rows, id, firstBalance, k);
    SetBalanceAt(once, id, secondBalance, k);
    SumAfterSetBalance(once, next, id, secondBalance, k);
  }

  /** A committed transfer between two different accounts whose
      destination row exists changes the total of all balances by the
      caller's `to.Balance` minus the stored destination balance: money is
      conserved exactly when the caller's copy of the destination is
      current, and is lost or created otherwise. The table is written out as
      the transfer's two updates, which is what `TransferRows` computes for two
      different records from the stored source balance `accounts[k].balance`. */
  lemma TransferTotalDrift(accounts: seq<Account>, next: int, from: Account, to: Account, amount: int, k: nat, j: nat)
    requires Serial(Ids(accounts), next) && from.id != to.id
    requires k < |accounts| && accounts[k].id == from.id
    requires j < |accounts| && accounts[j].id == to.id
    ensures Sum(SetBalance(SetBalance(accounts, from.id, accounts[k].balance - amount), to.id, to.balance + amount))
      == Sum(accounts) + to.balance - accounts[j].balance
    ensures (Sum(SetBalance(SetBalance(accounts, from.id, accounts[k].balance - amount), to.id, to.balance + amount))
             == Sum(accounts)) <==> to.balance == accounts[j].balance
  {
    SumAfterTwoWrites(accounts, next, from.id, accounts[k].balance - amount, to.id, to.balance + amount, k, j);
  }

  /** When no row has the destination id, the credit updates nothing and the
      transfer still commits: the amount leaves the source and goes nowhere. */
  lemma TransferToMissingAccount(accounts: seq<Account>, next: int, from: Account, to: Account, amount: int, k: nat)
    requires Serial(Ids(accounts), next)
    requires k < |accounts| && accounts[k].id == from.id
    requires forall i :: 0 <= i < |accounts| ==> accounts[i].id != to.id
    ensures var after := TransferRows(accounts, from, to, false, accounts[k].balance, amount);
      && after == SetBalance(accounts, from.id, accounts[k].balance - amount)
      && Sum(after) == Sum(accounts) - amount
  {
    NoIdMeans(accounts, to.id);
    SumAfterSetBalance(accounts, next, from.id, accounts[k].balance - amount, k);
    SetBalanceKeepsNoId(accounts, from.id, accounts[k].balance - amount, to.id);
    SetBalanceOfMissingId(SetBalance(accounts, from.id, accounts[k].balance - amount), to.id, to.balance + amount);
  }

  /** A transfer from an account to itself through one record (one Go
      pointer passed twice): the second write sets the row to the stored
      balance plus the amount, so the debit is lost and the total grows by
      the amount. */
  lemma SelfTransferMints(accounts: seq<Account>, next: int, acc: Account, amount: int, k: nat)
    requires Serial(Ids(accounts), next)
    requires k < |accounts| && accounts[k].id == acc.id
    ensures var after := TransferRows(accounts, acc, acc, true, accounts[k].balance, amount);
      && |after| == |accounts|
      && after[k] == accounts[k].(balance := accounts[k].balance + amount)
      && Sum(after) == Sum(accounts) + amount
  {
    assert TransferRows(accounts, acc, acc, true, accounts[k].balance, amount)
        == SetBalance(SetBalance(accounts, acc.id, accounts[k].balance - amount), acc.id, accounts[k].balance + amount);
    SumAfterOverwrite(accounts, next, acc.id, accounts[k].balance - amount, accounts[k].balance + amount, k);
  }

  /** A transfer from an account to itself through two records, as a transfer
      to one's own account number gives: the source fetched by id and the
      destination fetched by number are different records with the same id.
      The credit, written from the destination record, overwrites the debit:
      the row ends at `to.balance + amount`, and with a current destination
      record the total grows by the amount. */
  lemma TwoRecordSelfTransferMints(accounts: seq<Account>, next: int, from: Account, to: Account,
                                   amount: int, k: nat)
    requires Serial(Ids(accounts), next)
    requires k < |accounts| && accounts[k].id == from.id && to.id == from.id
    ensures var after := TransferRows(accounts, from, to, false, accounts[k].balance, amount);
      && |after| == |accounts|
      && after[k] == accounts[k].(balance := to.balance + amount)
      && Sum(after) == Sum(accounts) - accounts[k].balance + to.balance + amount
      && (to.balance == accounts[k].balance ==> Sum(after) == Sum(accounts) + amount)
  {
    var id := from.id;
    assert TransferRows(accounts, from, to, false, accounts[k].balance, amount)
        == SetBalance(SetBalance(accounts, id, accounts[k].balance - amount), id, to.balance + amount);
    SumAfterOverwrite(accounts, next, id, accounts[k].balance - amount, to.balance + amount, k);
  }

  /** The guard compares the stored balance with the amount and nothing else:
      any negative amount drawn on an account that is not overdrawn commits,
      and the record carries that negative amount. */
  lemma NegativeAmountAccepted(accounts: seq<Account>, next: int, transactions: seq<Transaction>,
                               nextTransactionId: int, from: Account, to: Account, sameRecord: bool,
                               amount: int, now: Time, j: nat)
    requires Serial(Ids(accounts), next)
    requires j < |accounts| && accounts[j].id == from.id && accounts[j].balance >= 0
    requires amount < 0
    ensures var o := Transfer(accounts, transactions, nextTransactionId, from, to, sameRecord, amount, now, None);
      o.result.Ok? && o.result.value.amount == amount
  {
    FirstMatchIsFirst(accounts, ById(from.id));
    var k := FirstMatch(accounts, ById(from.id)).value;
    SameIdSameRow(accounts, next, k, j);
  }

  /** After `delete from account where id = id`, looking the id up finds nothing. */
  lemma DeletedAccountNotFound(rows: seq<Account>, id: int)
    ensures FirstMatch(DeleteWhere(rows, id), ById(id)).None?
  {
    var r := DeleteWhere(rows, id);
    FirstMatchIsFirst(r, ById(id));
    forall i | 0 <= i < |r| ensures !Matches(r[i], ById(id)) {
      assert r[i] in r;
    }
  }

  /** Deleting one account does not hide another: a row with another id is
      still found, and it is the same row. */
  lemma DeleteKeepsOtherAccounts(rows: seq<Account>, next: int, id: int, other: int)
    requires Serial(Ids(rows), next)
    requires other != id
    ensures FirstMatch(DeleteWhere(rows, id), ById(other)).Some? <==> FirstMatch(rows, ById(other)).Some?
    ensures FirstMatch(rows, ById(other)).Some? ==>
      DeleteWhere(rows, id)[FirstMatch(DeleteWhere(rows, id), ById(other)).value] == rows[FirstMatch(rows, ById(other)).value]
  {
    var r := DeleteWhere(rows, id);
    FirstMatchIsFirst(rows, ById(other));
    FirstMatchIsFirst(r, ById(other));
    if FirstMatch(rows, ById(other)).Some? {
      var k := FirstMatch(rows, ById(other)).value;
      assert rows[k] in r;
      var n :| 0 <= n < |r| && r[n] == rows[k];
      assert FirstMatch(r, ById(other)).Some?;
      var m := FirstMatch(r, ById(other)).value;
      assert r[m] in rows;
      var p :| 0 <= p < |rows| && rows[p] == r[m];
      SameIdSameRow(rows, next, p, k);
    } else {
      forall i | 0 <= i < |r| ensures !Matches(r[i], ById(other)) {
        assert r[i] in rows;
      }
    }
  }

  /** A row appended with an id no earlier row has is the one a lookup by that id finds. */
  lemma {:induction false} AppendedRowIsFound(rows: seq<Account>, row: Account)
    requires NoId(rows, row.id)
    ensures FirstMatch(rows + [row], ById(row.id)) == Some(|rows|)
  {
    if rows != [] {
      assert (rows + [row])[1..] == rows[1..] + [row];
      AppendedRowIsFound(rows[1..], row);
    }
  }

  /** The row `CreateAccount` appends under the next serial id is the one
      `GetAccountByID` of that id finds. */
  lemma CreatedAccountIsFound(rows: seq<Account>, row: Account, next: int)
    requires Serial(Ids(rows), next) && row.id == next
    ensures FirstMatch(rows + [row], ById(next)) == Some(|rows|)
  {
    forall i | 0 <= i < |rows| ensures rows[i].id != row.id {
      assert Ids(rows)[i] < next;
    }
    NoIdMeans(rows, row.id);
    AppendedRowIsFound(rows, row);
  }

  /** The total of a two-row table is the sum of the two balances. */
  lemma SumOfTwoRows(rows: seq<Account>)
    requires |rows| == 2
    ensures Sum(rows) == rows[0].balance + rows[1].balance
  {
    SumOfOneRow(rows[1..]);
  }

  /** The total of a one-row table is that row's balance. */
  lemma SumOfOneRow(rows: seq<Account>)
    requires |rows| == 1
    ensures Sum(rows) == rows[0].balance
  {
    assert rows[1..] == [];
  }

  /** A client of the store that keeps the records `CreateAccount` returned:
      two fresh accounts, a deposit of 100, then a transfer of 30 from the
      first to the second with those records. The deposit credits both
      accounts, and the transfer re-reads the source but writes the
      destination from the copy taken before the deposit, so the second
      account ends at 30 rather than 130 and 100 of the 200 deposited are lost. */
  method StaleDestinationScenario(first: Account, second: Account, now: Time)
    returns (firstBalance: int, secondBalance: int, total: int)
    requires first.balance == 0 && second.balance == 0
    ensures firstBalance == 70 && secondBalance == 30 && total == 100
  {
    var store := new Store();
    var a := store.CreateAccount(first, false);
    var b := store.CreateAccount(second, false);
    assert store.accounts == [first.(id := 1), second.(id := 2)];
    var _ := store.Deposit(a.value, 100, false);
    assert store.accounts == [first.(id := 1, balance := 100), second.(id := 2, balance := 100)];
    var from := new AccountRef(a.value);
    var to := new AccountRef(b.value);
    var before := store.accounts;
    var r := store.CreateTransaction(from, to, 30, now, None);
    assert FirstMatch(before, ById(1)) == Some(0);
    TransferCommitted(before, [], 1, a.value, b.value, false, 30, now, 0);
    TwoBalanceWrites(before, 1, 70, 2, 30);
    var after := store.accounts;
    assert after[0] == first.(id := 1, balance := 70);
    assert after[1] == second.(id := 2, balance := 30);
    SumOfTwoRows(after);
    firstBalance, secondBalance := after[0].balance, after[1].balance;
    total := Sum(after);
  }

  /** The same steps in the order the HTTP handlers issue them: the
      authenticated account is fetched by id (api.go:261) and the deposit
      handler credits through it (api.go:124); for the transfer the source
      is fetched by id again (api.go:261) and the transfer handler fetches
      the destination by number just before the transfer (api.go:228-233).
      With two accounts of distinct numbers, both copies are current, so the
      destination ends at 130 and the total of 200 is kept. */
  method HandlerOrderScenario(first: Account, second: Account, now: Time)
    returns (firstBalance: int, secondBalance: int, total: int)
    requires first.balance == 0 && second.balance == 0 && first.number != second.number
    ensures firstBalance == 70 && secondBalance == 130 && total == 200
  {
    var store := new Store();
    var _ := store.CreateAccount(first, false);
    var _ := store.CreateAccount(second, false);
    assert store.accounts == [first.(id := 1), second.(id := 2)];
    var caller := store.GetAccountByID(1, false, None);
    assert store.accounts[0].id == 1;
    var _ := store.Deposit(caller.value, 100, false);
    assert store.accounts == [first.(id := 1, balance := 100), second.(id := 2, balance := 100)];
    var source := store.GetAccountByID(1, false, None);
    assert store.accounts[0].id == 1;
    var destination := store.GetAccountByNumber(second.number, false, None);
    assert store.accounts[1].number == second.number;
    assert source.value == first.(id := 1, balance := 100);
    assert destination.value == second.(id := 2, balance := 100);
    var from := new AccountRef(source.value);
    var to := new AccountRef(destination.value);
    var before := store.accounts;
    var r := store.CreateTransaction(from, to, 30, now, None);
    assert FirstMatch(before, ById(1)) == Some(0);
    TransferCommitted(before, [], 1, source.value, destination.value, false, 30, now, 0);
    TwoBalanceWrites(before, 1, 70, 2, 130);
    var after := store.accounts;
    assert after[0] == first.(id := 1, balance := 70);
    assert after[1] == second.(id := 2, balance := 130);
    SumOfTwoRows(after);
    firstBalance, secondBalance := after[0].balance, after[1].balance;
    total := Sum(after);
  }

  /** A transfer to one's own account number in the handlers' order: the
      source is fetched by id (api.go:261), the destination by number
      (api.go:228), and both are current copies of the one account. The
      credit overwrites the debit, so after a deposit of 100 and a transfer of
      30 the account holds 130, and 30 has been created. */
  method OwnNumberScenario(first: Account, now: Time) returns (balance: int, total: int)
    requires first.balance == 0
    ensures balance == 130 && total == 130
  {
    var store := new Store();
    var _ := store.CreateAccount(first, false);
    assert store.accounts == [first.(id := 1)];
    var caller := store.GetAccountByID(1, false, None);
    assert store.accounts[0].id == 1;
    var _ := store.Deposit(caller.value, 100, false);
    assert store.accounts == [first.(id := 1, balance := 100)];
    var source := store.GetAccountByID(1, false, None);
    assert store.accounts[0].id == 1;
    var destination := store.GetAccountByNumber(first.number, false, None);
    assert store.accounts[0].number == first.number;
    assert source.value == first.(id := 1, balance := 100);
    assert destination.value == first.(id := 1, balance := 100);
    var from := new AccountRef(source.value);
    var to := new AccountRef(destination.value);
    var before := store.accounts;
    var r := store.CreateTransaction(from, to, 30, now, None);
    assert FirstMatch(before, ById(1)) == Some(0);
    TransferCommitted(before, [], 1, source.value, destination.value, false, 30, now, 0);
    TwoBalanceWrites(before, 1, 70, 1, 130);
    var after := store.accounts;
    assert |after| == 1 && after[0] == first.(id := 1, balance := 130);
    SumOfOneRow(after);
    balance := after[0].balance;
    total := Sum(after);
  }
}

/** The account store of storage.go: the `account` table and the `transaction`
    log held in memory, with the operations of the `Storage` interface as
    implemented by `PostgresStore`. Each statement of the source becomes one
    atomic step; failures of the database driver are inputs of the model. */
module Storage {
  import opened Types
  import opened Tables

  // ---------------------------------------------------------------------------
  // Result rows and the scans that copy them into structs

  /** One column value of a result row. */
  datatype Value = Int(i: int) | Text(s: string) | Stamp(t: Time)

  /** An account row as `select *` and `returning id, first_name, last_name,
      number, balance, password, created_at` produce it. */
  function AccountColumns(a: Account): seq<Value>
  {
    [Int(a.id), Text(a.firstName), Text(a.lastName), Int(a.number),
     Int(a.balance), Text(a.password), Stamp(a.createdAt)]
  }

  /** A transfer row as `returning id, fromAcc, toAcc, amount, created_at` produces it. */
  function TransactionColumns(t: Transaction): seq<Value>
  {
    [Int(t.id), Int(t.from), Int(t.to), Int(t.amount), Stamp(t.createdAt)]
  }

  /** `scanIntoAccount`: copies the seven columns, in order, into a fresh
      account; a row of another shape is a scan error. */
  function ScanIntoAccount(row: seq<Value>): (r: Result<Account>)
    ensures r.Ok? ==> AccountColumns(r.value) == row
    ensures r.Err? ==> r.error == ScanFailed
    ensures (exists a :: AccountColumns(a) == row) ==> r.Ok?
  {
    if |row| == 7 && row[0].Int? && row[1].Text? && row[2].Text? && row[3].Int?
       && row[4].Int? && row[5].Text? && row[6].Stamp?
    then Ok(Account(row[0].i, row[1].s, row[2].s, row[3].i, row[4].i, row[5].s, row[6].t))
    else Err(ScanFailed)
  }

  /** `scanIntoTransaction`: copies the five columns, in order, into a fresh
      transfer record; a row of another shape is a scan error. */
  function ScanIntoTransaction(row: seq<Value>): (r: Result<Transaction>)
    ensures r.Ok? ==> TransactionColumns(r.value) == row
    ensures r.Err? ==> r.error == ScanFailed
    ensures (exists t :: TransactionColumns(t) == row) ==> r.Ok?
  {
    if |row| == 5 && row[0].Int? && row[1].Int? && row[2].Int? && row[3].Int? && row[4].Stamp?
    then Ok(Transaction(row[0].i, row[1].i, row[2].i, row[3].i, row[4].t))
    else Err(ScanFailed)
  }

  /** Scanning a stored account row gives back exactly that account. */
  lemma ScanAccountRoundTrip(a: Account)
    ensures ScanIntoAccount(AccountColumns(a)) == Ok(a)
  {
  }

  /** Scanning a stored transfer row gives back exactly that record. */
  lemma ScanTransactionRoundTrip(t: Transaction)
    ensures ScanIntoTransaction(TransactionColumns(t)) == Ok(t)
  {
  }

  // ---------------------------------------------------------------------------
  // The transfer as one database transaction

  /** The statements of `CreateTransaction`, in order; a driver failure can
      strike at any of them. */
  datatype Step = Begin | SelectBalance | DebitSource | CreditDestination | InsertRecord | Commit

  /** What a transfer leaves behind: the committed tables and serial counter,
      the balance read for the source account (written into the caller's
      `from` record), and the returned record or error. */
  datatype TransferOutcome = TransferOutcome(
    accounts: seq<Account>,
    transactions: seq<Transaction>,
    nextTransactionId: int,
    readBalance: Option<int>,
    result: Result<Transaction>)

  /** The effect of `CreateTransaction(from, to, amount)` on tables `accounts`
      and `transactions`, when the next serial transaction id is
      `nextTransactionId`. `from` and `to` are the caller's copies of the two
      accounts; `sameRecord` says that both are the same Go pointer, so that
      `to.Balance` is read after the scan has overwritten `from.Balance`.
      `fault` is the statement at which the driver fails, if any. The lemmas
      below state what this outcome is. */
  function Transfer(accounts: seq<Account>, transactions: seq<Transaction>, nextTransactionId: int,
                    from: Account, to: Account, sameRecord: bool,
                    amount: int, now: Time, fault: Option<Step>): TransferOutcome
  {
    if fault == Some(Begin) || fault == Some(SelectBalance) then
      TransferOutcome(accounts, transactions, nextTransactionId, None, Err(DriverFailure))
    else match FirstMatch(accounts, ById(from.id))
      case None =>
        TransferOutcome(accounts, transactions, nextTransactionId, None, Err(NoRows))
      case Some(k) =>
        var stored := accounts[k].balance;
        if stored < amount then
          TransferOutcome(accounts, transactions, nextTransactionId, Some(stored), Err(InsufficientBalance))
        else if fault.Some? then
          TransferOutcome(accounts, transactions, nextTransactionId, Some(stored), Err(DriverFailure))
        else
          var record := NewTransaction(from.number, to.number, amount, now).(id := nextTransactionId);
          TransferOutcome(TransferRows(accounts, from, to, sameRecord, stored, amount),
                          transactions + [record], nextTransactionId + 1, Some(stored), Ok(record))
  }

  /** The account table after the two writes of a committed transfer, given
      the source balance `stored` that the select read: the source row is set
      to `stored - amount`, then the destination row to the caller's
      `to.Balance + amount` (to `stored + amount` when `to` is the same record
      as `from`). */
  function TransferRows(accounts: seq<Account>, from: Account, to: Account, sameRecord: bool,
                        stored: int, amount: int): seq<Account>
  {
    var debited := SetBalance(accounts, from.id, stored - amount);
    var toBalance := if sameRecord then stored else to.balance;
    SetBalance(debited, to.id, toBalance + amount)
  }

  /** The committed outcome, spelled out for the success path of `CreateTransaction`. */
  lemma TransferCommitted(accounts: seq<Account>, transactions: seq<Transaction>, nextTransactionId: int,
                          from: Account, to: Account, sameRecord: bool,
                          amount: int, now: Time, k: nat)
    requires FirstMatch(accounts, ById(from.id)) == Some(k) && accounts[k].balance >= amount
    ensures
      var stored := accounts[k].balance;
      var toBalance := if sameRecord then stored else to.balance;
      Transfer(accounts, transactions, nextTransactionId, from, to, sameRecord, amount, now, None)
      == TransferOutcome(SetBalance(SetBalance(accounts, from.id, stored - amount), to.id, toBalance + amount),
                         transactions + [Transaction(nextTransactionId, from.number, to.number, amount, now)],
                         nextTransactionId + 1, Some(stored),
                         Ok(Transaction(nextTransactionId, from.number, to.number, amount, now)))
  {
  }

  /** The outcome when a statement after the balance check fails. */
  lemma TransferAborted(accounts: seq<Account>, transactions: seq<Transaction>, nextTransactionId: int,
                        from: Account, to: Account, sameRecord: bool,
                        amount: int, now: Time, fault: Option<Step>, k: nat)
    requires fault.Some? && fault != Some(Begin) && fault != Some(SelectBalance)
    requires FirstMatch(accounts, ById(from.id)) == Some(k) && accounts[k].balance >= amount
    ensures Transfer(accounts, transactions, nextTransactionId, from, to, sameRecord, amount, now, fault)
      == TransferOutcome(accounts, transactions, nextTransactionId, Some(accounts[k].balance), Err(DriverFailure))
  {
  }

  /** What a committed transfer leaves behind, read off its outcome alone:
      a row with the source id was found, the balance read is the stored
      balance of the first such row and is not below the amount, and the
      committed table is the one the two writes produce. */
  lemma TransferCommitShape(accounts: seq<Account>, transactions: seq<Transaction>, nextTransactionId: int,
                            from: Account, to: Account, sameRecord: bool, amount: int, now: Time)
    ensures var o := Transfer(accounts, transactions, nextTransactionId, from, to, sameRecord, amount, now, None);
      o.result.Ok? ==>
        && FirstMatch(accounts, ById(from.id)).Some?
        && o.readBalance == Some(accounts[FirstMatch(accounts, ById(from.id)).value].balance)
        && o.readBalance.value >= amount
        && o.accounts == TransferRows(accounts, from, to, sameRecord, o.readBalance.value, amount)
  {
  }

  /** A failed transfer is rolled back: neither table nor the serial counter changes. */
  lemma TransferRollsBack(accounts: seq<Account>, transactions: seq<Transaction>, nextTransactionId: int,
                          from: Account, to: Account, sameRecord: bool,
                          amount: int, now: Time, fault: Option<Step>)
    ensures var o := Transfer(accounts, transactions, nextTransactionId, from, to, sameRecord, amount, now, fault);
      o.result.Err? ==>
        o.accounts == accounts && o.transactions == transactions && o.nextTransactionId == nextTransactionId
  {
  }

  /** The source balance is read, and written into the caller's `from`, exactly
      when the select runs and finds a row with the source id; it is that
      row's stored balance, not the caller's copy. When no row has the id,
      the scan reports that no row was found. */
  lemma TransferReadsStoredBalance(accounts: seq<Account>, transactions: seq<Transaction>, nextTransactionId: int,
                                   from: Account, to: Account, sameRecord: bool,
                                   amount: int, now: Time, fault: Option<Step>)
    ensures var o := Transfer(accounts, transactions, nextTransactionId, from, to, sameRecord, amount, now, fault);
      var selected := fault != Some(Begin) && fault != Some(SelectBalance);
      && (o.readBalance.Some? <==> selected && exists i :: 0 <= i < |accounts| && accounts[i].id == from.id)
      && (o.readBalance.Some? ==>
            exists i :: 0 <= i < |accounts| && accounts[i].id == from.id && o.readBalance.value == accounts[i].balance)
      && (selected && (forall i :: 0 <= i < |accounts| ==> accounts[i].id != from.id) ==>
            o.result == Err(NoRows))
  {
    FirstMatchIsFirst(accounts, ById(from.id));
  }

  /** The only guard is the stored source balance against `amount`: the
      transfer commits exactly when no statement fails and that balance is
      not below the amount (a negative amount passes). A balance below the
      amount gives the "insufficiant balance" error, a driver failure after
      the guard a driver error. */
  lemma TransferGuard(accounts: seq<Account>, transactions: seq<Transaction>, nextTransactionId: int,
                      from: Account, to: Account, sameRecord: bool,
                      amount: int, now: Time, fault: Option<Step>)
    ensures var o := Transfer(accounts, transactions, nextTransactionId, from, to, sameRecord, amount, now, fault);
      && (o.result.Ok? <==> fault.None? && o.readBalance.Some? && o.readBalance.value >= amount)
      && (o.readBalance.Some? && o.readBalance.value < amount ==> o.result == Err(InsufficientBalance))
      && (o.readBalance.Some? && o.readBalance.value >= amount && fault.Some? ==> o.result == Err(DriverFailure))
  {
  }

  /** A committed transfer appends exactly one record, built from the caller's
      account numbers and the amount under the next serial id, and returns
      that stored record. Only the rows with the source or the destination id
      change: the source row gets its stored balance minus the amount, the
      destination row the caller's `to.Balance` plus the amount (not a fresh
      read; after the scan when both are the same record), and when both ids
      are equal the destination write, being the later one, wins. */
  lemma TransferCommits(accounts: seq<Account>, transactions: seq<Transaction>, nextTransactionId: int,
                        from: Account, to: Account, sameRecord: bool,
                        amount: int, now: Time, fault: Option<Step>)
    requires sameRecord ==> from == to
    ensures var o := Transfer(accounts, transactions, nextTransactionId, from, to, sameRecord, amount, now, fault);
      o.result.Ok? ==>
        && o.result.value == Transaction(nextTransactionId, from.number, to.number, amount, now)
        && o.transactions == transactions + [o.result.value]
        && o.nextTransactionId == nextTransactionId + 1
        && |o.accounts| == |accounts|
        && forall i :: 0 <= i < |accounts| ==>
             o.accounts[i] ==
               if accounts[i].id == to.id then
                 accounts[i].(balance := (if sameRecord then o.readBalance.value else to.balance) + amount)
               else if accounts[i].id == from.id then
                 accounts[i].(balance := o.readBalance.value - amount)
               else accounts[i]
  {
    var m := FirstMatch(accounts, ById(from.id));
    if fault.None? && m.Some? && accounts[m.value].balance >= amount {
      var stored := accounts[m.value].balance;
      TransferCommitted(accounts, transactions, nextTransactionId, from, to, sameRecord, amount, now, m.value);
      TwoBalanceWrites(accounts, from.id, stored - amount, to.id, (if sameRecord then stored else to.balance) + amount);
    }
  }


  // ---------------------------------------------------------------------------
  // The store

  /** The id column of the transaction log, in table order. */
  function TransactionIds(log: seq<Transaction>): (ids: seq<int>)
    ensures |ids| == |log|
    ensures forall i {:trigger ids[i]} :: 0 <= i < |log| ==> ids[i] == log[i].id
  {
    seq(|log|, i requires 0 <= i < |log| => log[i].id)
  }

  lemma AppendKeepsTransactionIdsSerial(log: seq<Transaction>, t: Transaction, next: int)
    requires 1 <= next && Serial(TransactionIds(log), next) && t.id == next
    ensures Serial(TransactionIds(log + [t]), next + 1)
  {
    var ids := TransactionIds(log + [t]);
    forall i | 0 <= i < |log| ensures ids[i] == TransactionIds(log)[i] {
      assert (log + [t])[i] == log[i];
    }
    assert ids[|log|] == next;
  }

  /** The caller's `*Account`: `CreateTransaction` writes the scanned balance
      through it. */
  class AccountRef {
    var acc: Account

    constructor (acc: Account)
      ensures this.acc == acc
    {
      this.acc := acc;
    }
  }

  /** `PostgresStore`, with the database replaced by its two tables and the
      two `serial` id counters. */
  class Store {
    var accounts: seq<Account>
    var transactions: seq<Transaction>
    var nextAccountId: int
    var nextTransactionId: int

    /** Ids are positive, below the next serial value, and increase along each table. */
    ghost predicate Valid()
      reads this
    {
      && 1 <= nextAccountId && 1 <= nextTransactionId
      && Serial(Ids(accounts), nextAccountId)
      && Serial(TransactionIds(transactions), nextTransactionId)
    }

    /** Freshly created tables: empty, and both serials start at 1. */
    constructor ()
      ensures Valid()
      ensures accounts == [] && transactions == []
      ensures nextAccountId == 1 && nextTransactionId == 1
    {
      accounts := [];
      transactions := [];
      nextAccountId := 1;
      nextTransactionId := 1;
    }

    /** `Deposite`: `update account set balance = balance + amount` has no
        `where` clause, so every account's balance grows by `amount`; the
        `account` argument is not used. */
    method Deposit(account: Account, amount: int, fails: bool) returns (err: Option<Error>)
      requires Valid()
      modifies this
      ensures Valid()
      ensures err.Some? <==> fails
      ensures fails ==> err == Some(DriverFailure) && accounts == old(accounts)
      ensures !fails ==> accounts == AddToAll(old(accounts), amount)
      ensures transactions == old(transactions)
      ensures nextAccountId == old(nextAccountId) && nextTransactionId == old(nextTransactionId)
    {
      if fails {
        return Some(DriverFailure);
      }
      AddToAllKeepsIds(accounts, amount);
      accounts := AddToAll(accounts, amount);
      return None;
    }

    /** `CreateTransaction`: inside one database transaction, re-read the
        source balance into the caller's `from`, refuse when it is below
        `amount`, then write both balances and append the record
        (`WriteTransfer`). An early return is the deferred rollback. */
    method CreateTransaction(from: AccountRef, to: AccountRef, amount: int, now: Time, fault: Option<Step>)
      returns (r: Result<Transaction>)
      requires Valid()
      modifies this, from
      ensures Valid()
      ensures
        var o := Transfer(old(accounts), old(transactions), old(nextTransactionId),
                          old(from.acc), old(to.acc), from == to, amount, now, fault);
        && accounts == o.accounts
        && transactions == o.transactions
        && nextTransactionId == o.nextTransactionId
        && r == o.result
        && from.acc == (if o.readBalance.Some? then old(from.acc).(balance := o.readBalance.value)
                        else old(from.acc))
      ensures nextAccountId == old(nextAccountId)
    {
      if fault == Some(Begin) {
        return Err(DriverFailure);
      }
      // select balance from account where id = from.ID, scanned into from.Balance
      if fault == Some(SelectBalance) {
        return Err(DriverFailure);
      }
      var k := FirstMatch(accounts, ById(from.acc.id));
      if k.None? {
        return Err(NoRows);
      }
      ghost var fromBefore, toBefore := from.acc, to.acc;
      from.acc := from.acc.(balance := accounts[k.value].balance);
      if from.acc.balance < amount {
        return Err(InsufficientBalance);
      }
      // `to` is read after the scan: when it is the same record as `from`, it
      // carries the balance just read
      assert to.acc == if from == to then from.acc else toBefore;
      if fault.Some? {
        TransferAborted(accounts, transactions, nextTransactionId, fromBefore, toBefore, from == to,
                        amount, now, fault, k.value);
      } else {
        TransferCommitted(accounts, transactions, nextTransactionId, fromBefore, toBefore, from == to,
                          amount, now, k.value);
      }
      r := WriteTransfer(from.acc, to.acc, amount, now, fault);
    }

    /** The statements of `CreateTransaction` after the balance check, on the
        transaction's working copies of the tables: debit the source to
        `from.Balance - amount`, set the destination to `to.Balance + amount`,
        insert the record and scan the inserted row back, then commit. A
        failure at any of these statements leaves the tables as they were. */
    method WriteTransfer(from: Account, to: Account, amount: int, now: Time, fault: Option<Step>)
      returns (r: Result<Transaction>)
      requires Valid()
      requires fault != Some(Begin) && fault != Some(SelectBalance)
      modifies this
      ensures Valid()
      ensures fault.Some? ==>
        && r == Err(DriverFailure)
        && accounts == old(accounts) && transactions == old(transactions)
        && nextTransactionId == old(nextTransactionId)
      ensures fault.None? ==>
        var record := Transaction(old(nextTransactionId), from.number, to.number, amount, now);
        && r == Ok(record)
        && accounts == SetBalance(SetBalance(old(accounts), from.id, from.balance - amount),
                                  to.id, to.balance + amount)
        && transactions == old(transactions) + [record]
        && nextTransactionId == old(nextTransactionId) + 1
      ensures nextAccountId == old(nextAccountId)
    {
      var rows, log := accounts, transactions;

      // update account set balance = from.Balance - amount where id = from.ID
      if fault == Some(DebitSource) {
        return Err(DriverFailure);
      }
      SetBalanceKeepsIds(rows, from.id, from.balance - amount);
      rows := SetBalance(rows, from.id, from.balance - amount);
      ghost var debited := rows;

      // update account set balance = to.Balance + amount where id = to.ID
      if fault == Some(CreditDestination) {
        return Err(DriverFailure);
      }
      SetBalanceKeepsIds(rows, to.id, to.balance + amount);
      rows := SetBalance(rows, to.id, to.balance + amount);
      assert Ids(rows) == Ids(accounts);

      // insert into transaction ... returning id, fromAcc, toAcc, amount, created_at
      var transaction := NewTransaction(from.number, to.number, amount, now);
      if fault == Some(InsertRecord) {
        return Err(DriverFailure);
      }
      var inserted := transaction.(id := nextTransactionId);
      AppendKeepsTransactionIdsSerial(log, inserted, nextTransactionId);
      log := log + [inserted];
      ScanTransactionRoundTrip(inserted);
      var scanned := ScanIntoTransaction(TransactionColumns(inserted)).value;

      // every other statement has had its chance to fail; what is left is the commit
      if fault.Some? {
        return Err(DriverFailure);
      }
      assert rows == SetBalance(debited, to.id, to.balance + amount);
      assert scanned == Transaction(nextTransactionId, from.number, to.number, amount, now);
      accounts, transactions, nextTransactionId := rows, log, nextTransactionId + 1;
      return Ok(scanned);
    }

    /** `CreateAccount`: inserts the given account under the next serial id
        (the record's own id is not inserted) and returns the stored row. */
    method CreateAccount(acc: Account, fails: bool) returns (r: Result<Account>)
      requires Valid()
      modifies this
      ensures Valid()
      ensures fails ==> r == Err(DriverFailure) && accounts == old(accounts)
                        && nextAccountId == old(nextAccountId)
      ensures !fails ==>
        && r == Ok(acc.(id := old(nextAccountId)))
        && accounts == old(accounts) + [r.value]
        && nextAccountId == old(nextAccountId) + 1
        && (forall i :: 0 <= i < |old(accounts)| ==> old(accounts)[i].id != r.value.id)
      ensures transactions == old(transactions) && nextTransactionId == old(nextTransactionId)
    {
      if fails {
        return Err(DriverFailure);
      }
      var row := acc.(id := nextAccountId);
      forall i | 0 <= i < |accounts| ensures accounts[i].id != row.id {
        assert Ids(accounts)[i] < nextAccountId;
      }
      AppendKeepsSerial(accounts, row, nextAccountId);
      accounts := accounts + [row];
      nextAccountId := nextAccountId + 1;
      ScanAccountRoundTrip(row);
      r := ScanIntoAccount(AccountColumns(row));
    }

    /** `DeleteAccount`: removes the rows with that id; no matching row is not an error. */
    method DeleteAccount(id: int, fails: bool) returns (err: Option<Error>)
      requires Valid()
      modifies this
      ensures Valid()
      ensures err.Some? <==> fails
      ensures fails ==> err == Some(DriverFailure) && accounts == old(accounts)
      ensures !fails ==> accounts == DeleteWhere(old(accounts), id)
      ensures transactions == old(transactions)
      ensures nextAccountId == old(nextAccountId) && nextTransactionId == old(nextTransactionId)
    {
      if fails {
        return Some(DriverFailure);
      }
      DeleteKeepsSerial(accounts, id, nextAccountId);
      accounts := DeleteWhere(accounts, id);
      return None;
    }

    /** Walks the rows of `select * from account where <k>` and stops at the
        first one, as the `for rows.Next() { return ... }` loops do. The
        result rows are the matching rows in table order; `delivered` is the
        number of them the driver hands over before a failure ends the
        stream (`None`: no failure). The loop does not consult `rows.Err()`,
        so a stream that ends before its first row looks like an empty one. */
    method FirstRow(k: Key, delivered: Option<nat>) returns (row: Option<Account>)
      ensures row.Some? <==> FirstMatch(accounts, k).Some? && delivered != Some(0)
      ensures row.Some? ==> row.value == accounts[FirstMatch(accounts, k).value]
    {
      var i := 0;
      while i < |accounts|
        invariant 0 <= i <= |accounts|
        invariant forall j :: 0 <= j < i ==> !Matches(accounts[j], k)
      {
        if Matches(accounts[i], k) {
          FirstMatchIsFirst(accounts, k);
          if delivered == Some(0) {
            return None;
          }
          return Some(accounts[i]);
        }
        i := i + 1;
      }
      FirstMatchIsFirst(accounts, k);
      return None;
    }

    /** `GetAccountByID`: the first row with that id, or "account %d not
        found" when no row has it or the stream fails before the row arrives. */
    method GetAccountByID(id: int, fails: bool, delivered: Option<nat>) returns (r: Result<Account>)
      ensures fails ==> r == Err(DriverFailure)
      ensures !fails ==>
        (r.Ok? <==> delivered != Some(0) && exists i :: 0 <= i < |accounts| && accounts[i].id == id)
      ensures !fails && r.Ok? ==>
        exists i :: 0 <= i < |accounts| && r.value == accounts[i] && accounts[i].id == id
                    && forall j :: 0 <= j < i ==> accounts[j].id != id
      ensures !fails && r.Err? ==> r.error == NotFound(id)
    {
      if fails {
        return Err(DriverFailure);
      }
      var row := FirstRow(ById(id), delivered);
      FirstMatchIsFirst(accounts, ById(id));
      match row
      case None =>
        return Err(NotFound(id));
      case Some(a) =>
        ScanAccountRoundTrip(a);
        return ScanIntoAccount(AccountColumns(a));
    }

    /** `GetAccountByNumber`: the first row with that number, or "account %d
        not found" when no row has it or the stream fails before the row
        arrives. Numbers are not unique, so an earlier row with the same
        number hides a later one. */
    method GetAccountByNumber(number: int, fails: bool, delivered: Option<nat>) returns (r: Result<Account>)
      ensures fails ==> r == Err(DriverFailure)
      ensures !fails ==>
        (r.Ok? <==> delivered != Some(0) && exists i :: 0 <= i < |accounts| && accounts[i].number == number)
      ensures !fails && r.Ok? ==>
        exists i :: 0 <= i < |accounts| && r.value == accounts[i] && accounts[i].number == number
                    && forall j :: 0 <= j < i ==> accounts[j].number != number
      ensures !fails && r.Err? ==> r.error == NotFound(number)
    {
      if fails {
        return Err(DriverFailure);
      }
      var row := FirstRow(ByNumber(number), delivered);
      FirstMatchIsFirst(accounts, ByNumber(number));
      match row
      case None =>
        return Err(NotFound(number));
      case Some(a) =>
        ScanAccountRoundTrip(a);
        return ScanIntoAccount(AccountColumns(a));
    }

    /** `GetAccounts`: the rows that arrive, scanned one by one in table
        order. A stream that the driver ends early is not reported
        (`rows.Err()` is never consulted): the rows read so far come back
        with no error. */
    method GetAccounts(fails: bool, delivered: Option<nat>) returns (r: Result<seq<Account>>)
      ensures fails ==> r == Err(DriverFailure)
      ensures !fails && delivered.None? ==> r == Ok(accounts)
      ensures !fails && delivered.Some? ==>
        r == Ok(accounts[..if delivered.value < |accounts| then delivered.value else |accounts|])
    {
      if fails {
        return Err(DriverFailure);
      }
      var n := if delivered.Some? && delivered.value < |accounts| then delivered.value else |accounts|;
      var result: seq<Account> := [];
      var i := 0;
      while i < n
        invariant 0 <= i <= n <= |accounts|
        invariant result == accounts[..i]
      {
        ScanAccountRoundTrip(accounts[i]);
        var account := ScanIntoAccount(AccountColumns(accounts[i])).value;
        result := result + [account];
        i := i + 1;
      }
      if delivered.None? {
        assert accounts[..i] == accounts;
      }
      return Ok(result);
    }
  }
}

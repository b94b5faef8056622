# go-bank account store, modelled in Dafny

go-bank is a small banking back end. Its behaviour lives in two Go files:

- `storage.go` is `PostgresStore`, the implementation of the `Storage` interface. It has:
  - an `account` table and a `transaction` table;
  - a transfer (`CreateTransaction`) that runs inside one database transaction;
  - a deposit (`Deposite`);
  - account creation and deletion;
  - three lookups;
  - the two `scanInto...` helpers, which copy a result row into a struct.
- `types.go` holds the `Account` and `Transaction` records and their constructors `NewAccount` and `NewTransaction`.

The model has four modules:

- `types.dfy` (`Types`): the two records as datatypes, Go's `error` results as a `Result` datatype, and the two constructors. The password hash, the random draw and the clock are parameters.
- `tables.dfy` (`Tables`): what each row-level SQL statement does to the account table, held as a sequence of rows in insertion order. It covers:
  - the first row matching a `where`;
  - `update ... set balance = $1 where id = $2`;
  - `update ... set balance = balance + $1` (every row);
  - `delete ... where id`;
  - the sum of all balances;
  - the `serial` id column.
- `storage.dfy` (`Storage`):
  - the result rows and the two scans, with their round trip;
  - `Transfer`, a specification function giving the outcome of a transfer. It takes the driver fault as an input, and lemmas state what that outcome is;
  - `AccountRef`, the caller's `*Account`. The transfer writes the balance it reads back into it;
  - `Store`, the class standing for `PostgresStore`. It holds the two tables and the two serial counters, and has one method per operation, each proved against the table functions and `Transfer`.
- `properties.dfy` (`Properties`): lemmas that relate several operations. They cover:
  - what deposits and transfers do to the total of all balances;
  - what lookups find after a delete or an insert;
  - what the one balance guard lets through;
  - two client scenarios, written as methods against the class.

The model reproduces the source's quirks as written:

- The deposit statement has no `where` clause, so it credits every account. `Store.Deposit` and `DepositRaisesTotal` state this.
- The transfer writes the destination as the caller's `to.Balance + amount`, not from a fresh read. `TransferCommits` states this. For two different accounts, `TransferTotalDrift` shows that money is conserved exactly when that copy is current. `StaleDestinationScenario` shows 100 of 200 deposited units disappearing for a client that keeps a copy from before a deposit.
- The amount is never checked. A negative amount commits (`NegativeAmountAccepted`).
- When `from` and `to` are the same account, the credit is the later write and the debit is lost, so the total grows by the amount. This holds whether they are one record (`SelfTransferMints`) or two current copies with the same id (`TwoRecordSelfTransferMints`). A transfer to one's own account number through the handlers gives the second case (`OwnNumberScenario`).

The deposit handler passes the authenticated caller's account to the store (api.go:124), but the statement at storage.go:79 has no `where` clause and ignores it. The model follows the statement.

The HTTP handlers fetch both copies just before the transfer:
- the authentication middleware fetches the source by id (api.go:261);
- the transfer handler fetches the destination by number (api.go:228) and calls `CreateTransaction` (api.go:233).

Two cases follow.
- **Different accounts with distinct numbers:** both copies are current. `HandlerOrderScenario` drives the store in that order: after a deposit of 100 and a transfer of 30, the accounts hold 70 and 130, and the total of 200 is kept. The stale write loses or creates money only when the destination row changes between its fetch and the transaction. `StaleDestinationScenario` shows this for a client holding a copy from before a deposit; through the handlers only a concurrent request can do it.
- **A transfer to the caller's own number:** the two fetches return two current records of one account. The credit overwrites the debit without any concurrency, and the account gains the amount (`OwnNumberScenario`: 100, then a transfer of 30, ends at 130).

Account numbers are not unique. When an earlier row carries the destination number, the lookup returns that row instead. If that row is the caller's own, this is again the case `TwoRecordSelfTransferMints` covers.

Driver failures are inputs of the model:

- `fails: bool` for the operations that run one statement;
- `fault: Option<Step>` for the transfer, naming the statement at which the driver fails;
- `delivered: Option<nat>` for the reads, the number of result rows the driver hands over before a failure ends the stream. The `for rows.Next()` loops never consult `rows.Err()`, so such a failure is not reported.

Each operation is one atomic step. A failed transfer leaves both tables and the transaction id counter as they were, which models the deferred `tx.Rollback()`.

## Model

| member | source | states |
|---|---|---|
| Types.NewTransaction | types.go:40-47 | from, to and amount are copied unchanged; the id is zero; the timestamp is the clock reading |
| Types.Intn | types.go:70 | `rand.Intn(n)` gives a value in `[0, n)` |
| Types.NewAccount | types.go:61-75 | a hash failure gives the hash error and no account; otherwise the result is an account with id 0, the given names, a number in `[0, 1000)`, balance 0, the hash as password and the clock reading as timestamp |
| Tables.FirstMatch | storage.go:174-182 | a returned index is in range and its row matches the key |
| Tables.FirstMatchIsFirst | storage.go:179-182 | no row before the returned one matches; `None` exactly when no row at all matches |
| Tables.SetBalanceRows | storage.go:107 | `update ... set balance = b where id = id` keeps the row count; every row with that id gets balance `b` and every other row is unchanged |
| Tables.TwoBalanceWrites | storage.go:107-115 | after the debit and the credit, a row with the destination id has the credit balance, a row with only the source id has the debit balance, and every other row is unchanged |
| Tables.AddToAll | storage.go:79 | `balance = balance + amount` with no `where` adds `amount` to every row and changes nothing else |
| Tables.SetBalance | storage.go:107-115 | the two balance updates of a transfer; what it does is stated by `SetBalanceRows`, `TwoBalanceWrites`, `SetBalanceOfMissingId` and `SumAfterSetBalance` |
| Tables.DeleteWhere | storage.go:169 | exactly the rows with another id remain; deleting a missing id leaves the table unchanged |
| Tables.SetBalanceKeepsIds | storage.go:107 | a balance update leaves the id column unchanged |
| Tables.AddToAllKeepsIds | storage.go:79 | the deposit update leaves the id column unchanged |
| Tables.AppendKeepsSerial | storage.go:142-148 | inserting a row under the next serial value keeps the id column serial: positive, below the counter, increasing |
| Tables.DeleteKeepsSerial | storage.go:169 | deleting rows keeps the remaining id column serial |
| Storage.AccountColumns | storage.go:148 | the seven columns of an account row, in the order of `returning` and `select *`; `ScanAccountRoundTrip` states that `ScanIntoAccount` inverts them |
| Storage.TransactionColumns | storage.go:124 | the five columns of a transfer row, in `returning` order; `ScanTransactionRoundTrip` states that `ScanIntoTransaction` inverts them |
| Storage.ScanIntoAccount | storage.go:233-249 | a successful scan gives the account whose seven columns are the row; a row of another shape is a scan error; every account row scans successfully |
| Storage.ScanIntoTransaction | storage.go:218-231 | the same for the five columns of a transfer record |
| Storage.ScanAccountRoundTrip | storage.go:233-249 | scanning an account's row gives back that account |
| Storage.ScanTransactionRoundTrip | storage.go:218-231 | scanning a record's row gives back that record |
| Storage.Transfer | storage.go:87-140 | the outcome of a transfer on the two tables, for a given driver fault; `TransferGuard`, `TransferRollsBack`, `TransferReadsStoredBalance`, `TransferCommits` and `TransferCommitShape` state what it is |
| Storage.TransferRows | storage.go:107-115 | the account table after the debit and the credit, the credit from the caller's `to` copy; `TwoBalanceWrites`, `TransferCommits`, `TransferTotalDrift`, `TransferToMissingAccount` and `SelfTransferMints` state its effect |
| Storage.TransferCommitShape | storage.go:96-116 | a committed transfer found the source row, read its stored balance (not below the amount) and left the table the two writes produce |
| Storage.TransferRollsBack | storage.go:94-138 | any failed transfer leaves both tables and the counter unchanged |
| Storage.TransferReadsStoredBalance | storage.go:96-101 | the balance is read exactly when the select runs and a row has the source id; it is that row's stored balance; with no such row the result is the no-rows error |
| Storage.TransferGuard | storage.go:103-105 | the transfer commits if and only if no statement fails and the stored balance is not below the amount; a lower balance gives the insufficient-balance error; a later failure gives a driver error |
| Storage.TransferCommits | storage.go:107-139 | on commit, the record built from the caller's numbers and the amount under the next id is appended and returned; only the source and destination rows change; the source gets stored balance minus amount; the destination gets the caller's `to.Balance` plus amount; with equal ids the destination write wins |
| Storage.AppendKeepsTransactionIdsSerial | storage.go:119-131 | inserting a record under the next serial value keeps the transaction id column serial |
| Storage.AccountRef.constructor | storage.go:87 | the reference holds the caller's account record |
| Storage.Store.constructor | storage.go:48-75 | both tables start empty and both serial counters start at 1 |
| Storage.Store.Deposit | storage.go:78-85 | on success, every account row is credited with the amount whatever the `account` argument; on failure, a driver error and no change; the transaction log and the counters never change |
| Storage.Store.CreateTransaction | storage.go:87-140 | the tables, the counter and the result are those of `Transfer` on the old state; the caller's `from` carries the stored balance whenever it was read, even if the transfer then fails |
| Storage.Store.WriteTransfer | storage.go:107-139 | on commit, the table gets the two balance writes from the records as given, and the record is appended under the next id and returned; a failure at any statement leaves everything unchanged |
| Storage.Store.CreateAccount | storage.go:142-165 | on success, the given account is appended under the next serial id, which no earlier row has, and the stored row is returned; on failure, a driver error and no change |
| Storage.Store.DeleteAccount | storage.go:168-171 | on success, exactly the rows with another id remain, and a missing id is not an error; on failure, a driver error and no change |
| Storage.Store.FirstRow | storage.go:179-181 | the loop over the matching rows returns the first matching row if it arrives; it returns none when no row matches or the stream fails before the first row |
| Storage.Store.GetAccountByID | storage.go:173-183 | the first row with that id; "account %d not found" with that id when no row has it or the stream fails before the row arrives; the driver error when the query fails |
| Storage.Store.GetAccountByNumber | storage.go:202-212 | the first row with that number (an earlier row hides a later one); "account %d not found" when no row has it or the stream fails before the row arrives; the driver error when the query fails |
| Storage.Store.GetAccounts | storage.go:185-200 | every row, scanned in table order; when the stream fails early, the rows read so far with no error; the driver error when the query fails |
| Properties.SameIdSameRow | storage.go:50 | in a serial id column, two rows with the same id are the same row |
| Properties.SetBalanceOfMissingId | storage.go:112 | an update whose `where id` matches no row changes nothing |
| Properties.SetBalanceKeepsSerial | storage.go:107 | a balance update keeps the id column serial |
| Properties.SumAfterSetBalance | storage.go:107 | setting one account's balance changes the total by the new balance minus the old one |
| Properties.DepositRaisesTotal | storage.go:79 | a deposit raises the total by the amount once per account, not once |
| Properties.SumAfterTwoWrites | storage.go:107-115 | two balance updates of different accounts change the total by both new balances minus both old ones |
| Properties.SumAfterOverwrite | storage.go:107-115 | two updates of the same account: the second wins, and the total changes by it alone |
| Properties.TransferTotalDrift | storage.go:107-115 | after the two writes of a committed transfer between different accounts, the total changes by the caller's `to.Balance` minus the stored destination balance; it is conserved exactly when they are equal |
| Properties.TransferToMissingAccount | storage.go:112-139 | with no destination row, the credit updates nothing and the transfer's table is the debit alone; the total drops by the amount |
| Properties.SelfTransferMints | storage.go:98-115 | a transfer from a record to itself sets the row to stored balance plus amount and raises the total by the amount |
| Properties.TwoRecordSelfTransferMints | storage.go:107-115 | a transfer between two records with the same id sets the row to the destination record's balance plus amount; with a current record the total rises by the amount |
| Properties.NegativeAmountAccepted | storage.go:103-105 | a negative amount drawn on an account that is not overdrawn commits, and the record carries it |
| Properties.DeletedAccountNotFound | storage.go:168-183 | after deleting an id, a lookup by that id finds nothing |
| Properties.DeleteKeepsOtherAccounts | storage.go:168-183 | deleting one id leaves another id found if and only if it was found before, as the same row |
| Properties.AppendedRowIsFound | storage.go:142-183 | a row appended with an id no earlier row has is the one a lookup by that id finds |
| Properties.CreatedAccountIsFound | storage.go:142-183 | the row inserted under the next serial id is the one a lookup by that id finds |
| Properties.StaleDestinationScenario | storage.go:78-140 | two new accounts, a deposit of 100, a transfer of 30 with the records `CreateAccount` returned from before the deposit: balances 70 and 30, total 100 of the 200 deposited |
| Properties.HandlerOrderScenario | api.go:212-239 | the same steps with the source fetched by id and the destination by number just before the transfer, as the handlers do, for two accounts with distinct numbers: balances 70 and 130, total 200 kept |
| Properties.OwnNumberScenario | api.go:228-233 | one account, a deposit of 100, then, in the handlers' order, a transfer of 30 to its own number: the account ends at 130 and so does the total |

`TransferTotalDrift` spells out the committed table as
`SetBalance(SetBalance(accounts, from.id, stored - amount), to.id, to.balance + amount)`.
This is the body of `Storage.TransferRows` for two different records, and `TransferCommitShape` shows that a committed transfer leaves exactly `TransferRows`.

## Left out

- HTTP routing, JSON handling, JWT issuance and validation, and bootstrap (`api.go`, `token.go`, `main.go`, `helper.go`): these are I/O and calls into external libraries. `api.go` fetches the `to` record before the transfer begins. That record is stale if the destination row changes between the fetch and the transaction, which only a concurrent request can cause, and concurrency is left out. When the destination is the caller's own account, the record is current yet the debit is still overwritten; `OwnNumberScenario` and `TwoRecordSelfTransferMints` model that case. The model takes `to` as a parameter.
- Opening the connection and the `create table` statements (storage.go:23-75): these are outside the model. `Store.constructor` starts from the empty tables those statements create.
- The `Storage` interface as a separate type: traits are not used, and `Store` carries its methods directly.
- Concurrency and the isolation level of the database transaction: each call is one atomic step.
- The order of rows returned by `select`: SQL leaves it unspecified, and the model uses insertion order, so "first match" means first inserted.
- The driver and its failures: they are inputs (`fails`, `fault`, `delivered`), not computations. The serial counters advance only on success, although PostgreSQL sequences also advance on a rolled-back insert. Ids stay fresh either way.
- A scan error on a row the store itself returned cannot happen, because the column lists match the structs. It is proved impossible by the round-trip lemmas rather than modelled as a branch.
- Not closing the rows returned by `DeleteAccount`'s `db.Query`, or by the lookups, which return from inside the loop: the model keeps no resource state.
- Fixed-width integers: balances, amounts and numbers are mathematical integers. int64 wrap-around and the 32-bit `balance` column are not modelled.
- Timestamp precision: the database's rounding of `created_at` is not modelled, and a scanned timestamp equals the one inserted.
- bcrypt, `rand.Intn` and `time.Now`: they are the parameters `hash`, `draw` and `now`. `Intn` is modelled as `draw % n`. A bcrypt failure is `hash` returning `None`, which `NewAccount` reports as `HashFailed`; the model does not carry bcrypt's own error value.
- Tables.FirstMatch: its own contract states only that a found index matches. That it is the first match, and that `None` means no row matches, is in `FirstMatchIsFirst`.
- Properties.TransferTotalDrift: it is stated about the two explicit balance writes rather than about `TransferRows` by name. The two are the same table by `TransferRows`'s definition.

/** The records of the bank (types.go): accounts, transfer records, and the
    two constructors that build them. Go's `error` values become the `Error`
    datatype, `(*T, error)` pairs become `Result<T>`. */
module Types {

  /** A timestamp, as produced by `time.Now().UTC()`; its structure plays no role. */
  type Time = int

  datatype Option<T> = None | Some(value: T)

  datatype Result<T> = Ok(value: T) | Err(error: Error)

  /** The errors the store can return. */
  datatype Error =
    | HashFailed            // the password hash function reported a failure
    | DriverFailure         // the database driver reported a failure (connection, statement, commit)
    | NoRows                // `sql.ErrNoRows`: `Row.Scan` on a query that produced no row
    | ScanFailed            // `Scan` given a row whose columns do not fit the destination fields
    | NotFound(key: int)    // "account %d not found"
    | InsufficientBalance   // "insufficiant balance"

  /** One row of the `account` table, and the `Account` struct. Integers are
      unbounded: the 64-bit Go fields and the 32-bit `balance` column are not
      modelled as fixed-width. */
  datatype Account = Account(
    id: int,
    firstName: string,
    lastName: string,
    number: int,
    balance: int,
    password: string,
    createdAt: Time)

  /** One row of the `transaction` table: a transfer between two account numbers. */
  datatype Transaction = Transaction(
    id: int,
    from: int,
    to: int,
    amount: int,
    createdAt: Time)

  /** A transfer record that has not been stored yet: the three values are
      copied as given, the id is Go's zero value, the clock reading is `now`. */
  function NewTransaction(from: int, to: int, amount: int, now: Time): (t: Transaction)
    ensures t.from == from && t.to == to && t.amount == amount
    ensures t.id == 0 && t.createdAt == now
  {
    Transaction(0, from, to, amount, now)
  }

  /** `rand.Intn(n)`: the generator's raw draw reduced into `[0, n)`. Which
      draw the generator makes is an input of the model. */
  function Intn(draw: nat, n: int): (r: int)
    requires n > 0
    ensures 0 <= r < n
  {
    draw % n
  }

  /** A new, not yet stored account. `hash` is the password hash function
      (bcrypt with its default cost; `None` when it fails), `draw` the random
      generator's draw and `now` the clock. A hash failure is returned as the
      error and no account is built.
      Otherwise the names are copied, the number is below 1000, the balance is
      0 and the id stays at Go's zero value (its assignment is commented out). */
  function NewAccount(firstName: string, lastName: string, password: string,
                      hash: string -> Option<string>, draw: nat, now: Time): (r: Result<Account>)
    ensures hash(password).None? ==> r == Err(HashFailed)
    ensures hash(password).Some? ==> r.Ok?
    ensures r.Ok? ==>
      && r.value.id == 0
      && r.value.firstName == firstName
      && r.value.lastName == lastName
      && 0 <= r.value.number < 1000
      && r.value.balance == 0
      && r.value.password == hash(password).value
      && r.value.createdAt == now
  {
    match hash(password)
    case None => Err(HashFailed)
    case Some(encrypted) =>
      Ok(Account(
        id := 0,
        firstName := firstName,
        lastName := lastName,
        number := Intn(draw, 1000),
        balance := 0,
        password := encrypted,
        createdAt := now))
  }
}

/** What the row-level SQL statements of storage.go do to the `account` table,
    held as a sequence of rows in insertion order:
    `select ... where id = $1` / `where number = $1` (the first matching row),
    `update account set balance = $1 where id = $2`,
    `update account set balance = balance + $1` (no `where`: every row), and
    `delete from account where id = $1`. */
module Tables {
  import opened Types

  /** The column a `select ... where` compares against. */
  datatype Key = ById(id: int) | ByNumber(number: int)

  predicate Matches(a: Account, k: Key)
  {
    match k
    case ById(id) => a.id == id
    case ByNumber(n) => a.number == n
  }

  /** The index of the first row matching `k`, or `None` when no row does;
      `FirstMatchIsFirst` states that it is the first. */
  function FirstMatch(rows: seq<Account>, k: Key): (r: Option<nat>)
    ensures r.Some? ==> r.value < |rows| && Matches(rows[r.value], k)
  {
    if rows == [] then None
    else if Matches(rows[0], k) then Some(0)
    else match FirstMatch(rows[1..], k)
      case None => None
      case Some(i) => Some(i + 1)
  }

  /** No row before the one found matches, and `None` means that no row matches. */
  lemma {:induction false} FirstMatchIsFirst(rows: seq<Account>, k: Key)
    ensures FirstMatch(rows, k).Some? ==> forall j :: 0 <= j < FirstMatch(rows, k).value ==> !Matches(rows[j], k)
    ensures FirstMatch(rows, k).None? <==> forall i :: 0 <= i < |rows| ==> !Matches(rows[i], k)
  {
    if rows != [] {
      FirstMatchIsFirst(rows[1..], k);
      if !Matches(rows[0], k) {
        forall i | 0 < i < |rows| ensures rows[i] == rows[1..][i - 1] { }
      }
    }
  }

  /** `update account set balance = b where id = id`; what it does is stated
      by `SetBalanceRows`. */
  function SetBalance(rows: seq<Account>, id: int, b: int): seq<Account>
  {
    if rows == [] then []
    else [if rows[0].id == id then rows[0].(balance := b) else rows[0]]
         + SetBalance(rows[1..], id, b)
  }

  /** Every row with that id gets balance `b`; no other row and no other
      column changes, and the table keeps its length. */
  lemma {:induction false} SetBalanceRows(rows: seq<Account>, id: int, b: int)
    ensures |SetBalance(rows, id, b)| == |rows|
    ensures forall i :: 0 <= i < |rows| ==>
      SetBalance(rows, id, b)[i] == if rows[i].id == id then rows[i].(balance := b) else rows[i]
  {
    if rows != [] {
      SetBalanceRows(rows[1..], id, b);
    }
  }

  /** Two balance updates in a row: a row with the second id ends with the
      second balance (the later write wins), a row with only the first id
      with the first balance, and every other row is untouched. */
  lemma TwoBalanceWrites(rows: seq<Account>, firstId: int, firstBalance: int, secondId: int, secondBalance: int)
    ensures |SetBalance(SetBalance(rows, firstId, firstBalance), secondId, secondBalance)| == |rows|
    ensures forall i :: 0 <= i < |rows| ==>
      SetBalance(SetBalance(rows, firstId, firstBalance), secondId, secondBalance)[i] ==
        if rows[i].id == secondId then rows[i].(balance := secondBalance)
        else if rows[i].id == firstId then rows[i].(balance := firstBalance)
        else rows[i]
  {
    var once := SetBalance(rows, firstId, firstBalance);
    SetBalanceRows(rows, firstId, firstBalance);
    SetBalanceRows(once, secondId, secondBalance);
  }

  /** `update account set balance = balance + amount`: every row's balance
      grows by `amount`, whatever its id. */
  function AddToAll(rows: seq<Account>, amount: int): (r: seq<Account>)
    ensures |r| == |rows|
    ensures forall i :: 0 <= i < |rows| ==>
      r[i] == rows[i].(balance := rows[i].balance + amount)
  {
    if rows == [] then []
    else [rows[0].(balance := rows[0].balance + amount)] + AddToAll(rows[1..], amount)
  }

  /** `delete from account where id = id`: exactly the rows with another id
      remain; deleting an id that no row has leaves the table as it was. */
  function DeleteWhere(rows: seq<Account>, id: int): (r: seq<Account>)
    ensures |r| <= |rows|
    ensures forall a :: a in r <==> a in rows && a.id != id
    ensures (forall i :: 0 <= i < |rows| ==> rows[i].id != id) ==> r == rows
  {
    if rows == [] then []
    else if rows[0].id == id then DeleteWhere(rows[1..], id)
    else [rows[0]] + DeleteWhere(rows[1..], id)
  }

  /** The sum of all balances in the table. */
  function Sum(rows: seq<Account>): int
  {
    if rows == [] then 0 else rows[0].balance + Sum(rows[1..])
  }

  /** The id column, in table order. */
  function Ids(rows: seq<Account>): (ids: seq<int>)
    ensures |ids| == |rows|
    ensures forall i {:trigger ids[i]} :: 0 <= i < |rows| ==> ids[i] == rows[i].id
  {
    seq(|rows|, i requires 0 <= i < |rows| => rows[i].id)
  }

  /** The ids a `serial` column has handed out: positive, below the next
      value of the sequence, and increasing in insertion order. */
  ghost predicate Serial(ids: seq<int>, next: int)
  {
    && (forall i :: 0 <= i < |ids| ==> 1 <= ids[i] < next)
    && (forall i, j :: 0 <= i < j < |ids| ==> ids[i] < ids[j])
  }

  /** An update of the balance column leaves the id column as it was. */
  lemma SetBalanceKeepsIds(rows: seq<Account>, id: int, b: int)
    ensures Ids(SetBalance(rows, id, b)) == Ids(rows)
  {
    SetBalanceRows(rows, id, b);
  }

  lemma AddToAllKeepsIds(rows: seq<Account>, amount: int)
    ensures Ids(AddToAll(rows, amount)) == Ids(rows)
  {
  }

  /** Appending a row with the next serial value keeps the column serial. */
  lemma AppendKeepsSerial(rows: seq<Account>, row: Account, next: int)
    requires 1 <= next && Serial(Ids(rows), next) && row.id == next
    ensures Serial(Ids(rows + [row]), next + 1)
  {
    var ids := Ids(rows + [row]);
    forall i | 0 <= i < |rows| ensures ids[i] == Ids(rows)[i] {
      assert (rows + [row])[i] == rows[i];
    }
    assert ids[|rows|] == next;
  }

  lemma ConsKeepsSerial(h: int, ids: seq<int>, next: int)
    requires 1 <= h < next && Serial(ids, next)
    requires forall j :: 0 <= j < |ids| ==> h < ids[j]
    ensures Serial([h] + ids, next)
  {
  }

  /** Deleting rows keeps a lower bound on the ids. */
  lemma {:induction false} DeleteKeepsLowerBound(rows: seq<Account>, id: int, h: int)
    requires forall i :: 0 <= i < |rows| ==> h < rows[i].id
    ensures forall j :: 0 <= j < |DeleteWhere(rows, id)| ==> h < DeleteWhere(rows, id)[j].id
  {
    if rows != [] {
      DeleteKeepsLowerBound(rows[1..], id, h);
    }
  }

  /** Deleting rows keeps the remaining ids serial. */
  lemma {:induction false} DeleteKeepsSerial(rows: seq<Account>, id: int, next: int)
    requires Serial(Ids(rows), next)
    ensures Serial(Ids(DeleteWhere(rows, id)), next)
  {
    if rows != [] {
      var tail := rows[1..];
      assert Ids(rows) == [rows[0].id] + Ids(tail);
      assert Serial(Ids(tail), next) by {
        forall i, j | 0 <= i < j < |tail| ensures Ids(tail)[i] < Ids(tail)[j] {
          assert Ids(rows)[i + 1] < Ids(rows)[j + 1];
        }
        forall i | 0 <= i < |tail| ensures 1 <= Ids(tail)[i] < next {
          assert Ids(rows)[i + 1] < next;
        }
      }
      DeleteKeepsSerial(tail, id, next);
      var rest := DeleteWhere(tail, id);
      if rows[0].id != id {
        forall i | 0 <= i < |tail| ensures rows[0].id < tail[i].id {
          assert Ids(rows)[0] < Ids(rows)[i + 1];
        }
        DeleteKeepsLowerBound(tail, id, rows[0].id);
        forall i | 0 <= i < |rest| ensures rows[0].id < Ids(rest)[i] {
          assert Ids(rest)[i] == rest[i].id;
        }
        assert 1 <= Ids(rows)[0] < next;
        ConsKeepsSerial(rows[0].id, Ids(rest), next);
        assert DeleteWhere(rows, id) == [rows[0]] + rest;
        assert Ids([rows[0]] + rest) == [rows[0].id] + Ids(rest);
      }
    }
  }
}

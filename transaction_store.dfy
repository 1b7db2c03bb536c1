/**
 * The transactions table: an id-keyed store of rows with add, update, delete,
 * get-by-id and a newest-first listing that skips rows it cannot read back.
 */
module TransactionStore {
  import opened Wrappers
  import opened Transactions

  /**
   * One row of the table. Only the note column is nullable. A row is not
   * necessarily a valid transaction: the file may hold rows that the
   * constructor's checks reject.
   */
  datatype Row = Row(
    id: int,
    title: string,
    amount: real,
    category: string,
    kind: string,
    date: Date,
    note: Option<string>)

  /** The column values that insert and update write for `t`, stored under row id `id`. */
  function ToRow(id: int, t: Transaction): Row {
    Row(id, t.title, t.amount, t.category, t.kind, t.date, Some(t.note))
  }

  /** Reading a row back: the constructor runs again, and a null note reads as "". */
  function Decode(row: Row): (r: Result<Transaction, ValidationError>)
    ensures r.Success? <==>
      !IsBlank(row.title) && row.amount > 0.0 && !IsBlank(row.category) && row.kind in {Income, Expense}
    ensures r.Success? ==>
      && WellFormed(r.value)
      && r.value == Transaction(row.id, row.title, row.amount, row.category, row.kind, row.date,
                                row.note.GetOr(""))
  {
    NewTransaction(row.id, row.title, row.amount, row.category, row.kind, row.date, row.note.GetOr(""))
  }

  /** What is written for a constructed transaction reads back as that transaction under the row's id. */
  lemma DecodeToRow(id: int, t: Transaction)
    requires WellFormed(t)
    ensures Decode(ToRow(id, t)) == Success(t.(id := id))
  {
  }

  predicate HasId(rows: seq<Row>, id: int) {
    exists k :: 0 <= k < |rows| && rows[k].id == id
  }

  predicate UniqueIds(rows: seq<Row>) {
    forall i, j :: 0 <= i < j < |rows| ==> rows[i].id != rows[j].id
  }

  /** The position of the row with id `id` (the `id = ?` selection). */
  function IndexOf(rows: seq<Row>, id: int): (r: Option<nat>)
    ensures r.None? <==> !HasId(rows, id)
    ensures r.Some? ==> r.value < |rows| && rows[r.value].id == id
    ensures r.Some? ==> forall k :: 0 <= k < r.value ==> rows[k].id != id
  {
    if rows == [] then None
    else if rows[0].id == id then Some(0)
    else match IndexOf(rows[1..], id)
      case None => None
      case Some(k) => Some(k + 1)
  }

  /** The table after `DELETE … WHERE id = ?`. */
  function WithoutId(rows: seq<Row>, id: int): (r: seq<Row>)
    ensures forall row :: row in r <==> row in rows && row.id != id
  {
    if rows == [] then []
    else if rows[0].id == id then WithoutId(rows[1..], id)
    else [rows[0]] + WithoutId(rows[1..], id)
  }

  lemma {:induction false} WithoutIdAbsent(rows: seq<Row>, id: int)
    requires !HasId(rows, id)
    ensures WithoutId(rows, id) == rows
  {
    if rows != [] {
      assert !HasId(rows[1..], id) by {
        forall k | 0 <= k < |rows[1..]| ensures rows[1..][k].id != id {
          assert rows[1..][k] == rows[k + 1];
        }
      }
      WithoutIdAbsent(rows[1..], id);
    }
  }

  lemma {:induction false} WithoutIdAppend(a: seq<Row>, b: seq<Row>, id: int)
    ensures WithoutId(a + b, id) == WithoutId(a, id) + WithoutId(b, id)
  {
    if a != [] {
      assert (a + b)[1..] == a[1..] + b;
      WithoutIdAppend(a[1..], b, id);
    } else {
      assert a + b == b;
    }
  }

  /** With unique ids, removing the row at the index of `id` is `WithoutId`. */
  lemma RemoveAtIndex(rows: seq<Row>, id: int, i: nat)
    requires UniqueIds(rows) && i < |rows| && rows[i].id == id
    ensures rows[..i] + rows[i + 1..] == WithoutId(rows, id)
  {
    assert rows == rows[..i] + ([rows[i]] + rows[i + 1..]);
    assert !HasId(rows[..i], id);
    var suffix := rows[i + 1..];
    assert !HasId(suffix, id) by {
      forall k | 0 <= k < |suffix| ensures suffix[k].id != id {
        assert suffix[k] == rows[i + 1 + k];
      }
    }
    WithoutIdAppend(rows[..i], [rows[i]] + rows[i + 1..], id);
    WithoutIdAppend([rows[i]], rows[i + 1..], id);
    WithoutIdAbsent(rows[..i], id);
    WithoutIdAbsent(rows[i + 1..], id);
  }

  /** Newest first: the order `ORDER BY date DESC` produces. */
  predicate RowsNewestFirst(rows: seq<Row>) {
    forall i, j :: 0 <= i < j < |rows| ==> rows[i].date.millis >= rows[j].date.millis
  }

  /** Every row in `rows` is no newer than `bound`. */
  predicate NoNewerThan(rows: seq<Row>, bound: int) {
    forall k :: 0 <= k < |rows| ==> rows[k].date.millis <= bound
  }

  /** Every transaction in `s` is no older than `bound`. */
  predicate NoOlderThan(s: seq<Transaction>, bound: int) {
    forall k :: 0 <= k < |s| ==> s[k].date.millis >= bound
  }

  /** Inserts `x` in front of the first row that is strictly older than it. */
  function InsertByDate(x: Row, rows: seq<Row>): (r: seq<Row>)
    ensures |r| == |rows| + 1
    ensures multiset(r) == multiset(rows) + multiset{x}
  {
    if rows == [] || x.date.millis >= rows[0].date.millis then [x] + rows
    else
      assert rows == [rows[0]] + rows[1..];
      [rows[0]] + InsertByDate(x, rows[1..])
  }

  lemma {:induction false} InsertByDateBounded(x: Row, rows: seq<Row>, bound: int)
    requires x.date.millis <= bound && NoNewerThan(rows, bound)
    ensures NoNewerThan(InsertByDate(x, rows), bound)
  {
    if !(rows == [] || x.date.millis >= rows[0].date.millis) {
      InsertByDateBounded(x, rows[1..], bound);
    }
  }

  /** Inserting into a newest-first sequence keeps it newest first. */
  lemma {:induction false} InsertByDateSorted(x: Row, rows: seq<Row>)
    requires RowsNewestFirst(rows)
    ensures RowsNewestFirst(InsertByDate(x, rows))
  {
    if !(rows == [] || x.date.millis >= rows[0].date.millis) {
      var tail := rows[1..];
      InsertByDateSorted(x, tail);
      InsertByDateBounded(x, tail, rows[0].date.millis);
    }
  }

  /**
   * The cursor order of `ORDER BY date DESC`: the same rows, newest first.
   * Rows with equal dates keep their table order.
   */
  function ByDateDesc(rows: seq<Row>): (r: seq<Row>)
    ensures |r| == |rows|
    ensures multiset(r) == multiset(rows)
    ensures RowsNewestFirst(r)
  {
    if rows == [] then []
    else
      assert rows == [rows[0]] + rows[1..];
      InsertByDateSorted(rows[0], ByDateDesc(rows[1..]));
      InsertByDate(rows[0], ByDateDesc(rows[1..]))
  }

  /** The listing loop's result: every row that decodes, in cursor order; the others are skipped. */
  function DecodeAll(rows: seq<Row>): (r: seq<Transaction>)
    ensures |r| <= |rows|
  {
    if rows == [] then []
    else
      match Decode(rows[|rows| - 1])
      case Success(t) => DecodeAll(rows[..|rows| - 1]) + [t]
      case Failure(_) => DecodeAll(rows[..|rows| - 1])
  }

  /** Everything listed is a transaction read back from some row. */
  lemma {:induction false} DecodeAllSound(rows: seq<Row>)
    ensures AllWellFormed(DecodeAll(rows))
    ensures forall t :: t in DecodeAll(rows) ==> exists row :: row in rows && Decode(row) == Success(t)
  {
    if rows != [] {
      var front := rows[..|rows| - 1];
      DecodeAllSound(front);
      assert forall row :: row in front ==> row in rows;
    }
  }

  /** Every row that reads back is listed: failures skip one row, not the rest. */
  lemma {:induction false} DecodeAllComplete(rows: seq<Row>)
    ensures forall row :: row in rows && Decode(row).Success? ==> Decode(row).value in DecodeAll(rows)
  {
    if rows != [] {
      var front := rows[..|rows| - 1];
      DecodeAllComplete(front);
      assert rows == front + [rows[|rows| - 1]];
    }
  }

  lemma {:induction false} DecodeAllBounded(rows: seq<Row>, bound: int)
    requires forall k :: 0 <= k < |rows| ==> rows[k].date.millis >= bound
    ensures NoOlderThan(DecodeAll(rows), bound)
  {
    if rows != [] {
      DecodeAllBounded(rows[..|rows| - 1], bound);
    }
  }

  /** Skipping rows keeps the listing newest first. */
  lemma {:induction false} DecodeAllSorted(rows: seq<Row>)
    requires RowsNewestFirst(rows)
    ensures NewestFirst(DecodeAll(rows))
  {
    if rows != [] {
      var front := rows[..|rows| - 1];
      DecodeAllSorted(front);
      DecodeAllBounded(front, rows[|rows| - 1].date.millis);
    }
  }

  /** No two listed transactions share an id. */
  predicate DistinctIds(s: seq<Transaction>) {
    forall i, j :: 0 <= i < j < |s| ==> s[i].id != s[j].id
  }

  lemma {:induction false} InsertByDateUnique(x: Row, rows: seq<Row>)
    requires UniqueIds(rows) && !HasId(rows, x.id)
    ensures UniqueIds(InsertByDate(x, rows))
  {
    if !(rows == [] || x.date.millis >= rows[0].date.millis) {
      var tail := rows[1..];
      assert UniqueIds(tail) && !HasId(tail, x.id) by {
        forall i, j | 0 <= i < j < |tail| ensures tail[i].id != tail[j].id {
          assert tail[i] == rows[i + 1] && tail[j] == rows[j + 1];
        }
        forall k | 0 <= k < |tail| ensures tail[k].id != x.id {
          assert tail[k] == rows[k + 1];
        }
      }
      InsertByDateUnique(x, tail);
      var inserted := InsertByDate(x, tail);
      forall k | 0 <= k < |inserted| ensures inserted[k].id != rows[0].id {
        assert inserted[k] in multiset(tail) + multiset{x};
        if inserted[k] != x {
          var j :| 0 <= j < |tail| && tail[j] == inserted[k];
          assert tail[j] == rows[j + 1];
        }
      }
    }
  }

  /** Sorting keeps the ids unique. */
  lemma {:induction false} ByDateDescUnique(rows: seq<Row>)
    requires UniqueIds(rows)
    ensures UniqueIds(ByDateDesc(rows))
  {
    if rows != [] {
      var tail := rows[1..];
      assert UniqueIds(tail) by {
        forall i, j | 0 <= i < j < |tail| ensures tail[i].id != tail[j].id {
          assert tail[i] == rows[i + 1] && tail[j] == rows[j + 1];
        }
      }
      ByDateDescUnique(tail);
      var sorted := ByDateDesc(tail);
      forall k | 0 <= k < |sorted| ensures sorted[k].id != rows[0].id {
        assert sorted[k] in multiset(tail);
        var j :| 0 <= j < |tail| && tail[j] == sorted[k];
        assert tail[j] == rows[j + 1];
      }
      InsertByDateUnique(rows[0], sorted);
    }
  }

  /** Each row is read back at most once: over rows with unique ids the listed ids are distinct. */
  lemma {:induction false} DecodeAllDistinct(rows: seq<Row>)
    requires UniqueIds(rows)
    ensures DistinctIds(DecodeAll(rows))
  {
    if rows != [] {
      var front := rows[..|rows| - 1];
      var last := rows[|rows| - 1];
      assert UniqueIds(front);
      DecodeAllDistinct(front);
      DecodeAllSound(front);
      var listed := DecodeAll(front);
      forall k | 0 <= k < |listed| ensures listed[k].id != last.id {
        assert listed[k] in listed;
        var row :| row in front && Decode(row) == Success(listed[k]);
        var j :| 0 <= j < |front| && front[j] == row;
      }
    }
  }

  /**
   * The listing of a table: newest first, every row that reads back, and
   * nothing that is not read back from a row.
   */
  lemma Listing(rows: seq<Row>)
    ensures NewestFirst(DecodeAll(ByDateDesc(rows)))
    ensures AllWellFormed(DecodeAll(ByDateDesc(rows)))
    ensures forall row :: row in rows && Decode(row).Success? ==> Decode(row).value in DecodeAll(ByDateDesc(rows))
    ensures forall t :: t in DecodeAll(ByDateDesc(rows)) ==> exists row :: row in rows && Decode(row) == Success(t)
    ensures UniqueIds(rows) ==> DistinctIds(DecodeAll(ByDateDesc(rows)))
  {
    var cursor := ByDateDesc(rows);
    if UniqueIds(rows) {
      ByDateDescUnique(rows);
      DecodeAllDistinct(cursor);
    }
    DecodeAllSound(cursor);
    DecodeAllComplete(cursor);
    DecodeAllSorted(cursor);
    forall row ensures row in rows <==> row in cursor {
      assert row in rows <==> row in multiset(rows);
      assert row in cursor <==> row in multiset(cursor);
    }
  }

  /** The transactions table, with SQLite's AUTOINCREMENT counter. */
  class TransactionTable {
    var rows: seq<Row>
    /** The largest id ever issued; ids are never reused. */
    var lastId: int

    ghost predicate Valid()
      reads this
    {
      && lastId >= 0
      && UniqueIds(rows)
      && (forall k :: 0 <= k < |rows| ==> 1 <= rows[k].id <= lastId)
    }

    /** Opens a table file holding `existing` rows, whose counter stands at `sequence`. */
    constructor Open(existing: seq<Row>, sequence: int)
      requires sequence >= 0 && UniqueIds(existing)
      requires forall k :: 0 <= k < |existing| ==> 1 <= existing[k].id <= sequence
      ensures Valid()
      ensures rows == existing && lastId == sequence
    {
      rows := existing;
      lastId := sequence;
    }

    /**
     * `addTransaction`: ignores `t.id`, stores the other six fields under a fresh
     * id and returns it; a failed insert returns -1 and changes nothing.
     */
    method Add(t: Transaction, insertFails: bool) returns (id: int)
      requires Valid()
      modifies this
      ensures Valid()
      ensures insertFails ==> id == -1 && rows == old(rows) && lastId == old(lastId)
      ensures !insertFails ==> id == old(lastId) + 1 && lastId == id
      ensures !insertFails ==> rows == old(rows) + [ToRow(id, t)]
      ensures !insertFails ==> !HasId(old(rows), id) && id >= 1
    {
      if insertFails {
        id := -1;
        return;
      }
      id := lastId + 1;
      rows := rows + [ToRow(id, t)];
      lastId := id;
    }

    /**
     * `updateTransaction`: overwrites every non-id column of the row whose id is
     * `t.id` and returns the number of rows changed.
     */
    method Update(t: Transaction) returns (changed: int)
      requires Valid()
      modifies this
      ensures Valid() && lastId == old(lastId)
      ensures changed == (if HasId(old(rows), t.id) then 1 else 0)
      ensures |rows| == |old(rows)|
      ensures forall k :: 0 <= k < |rows| ==>
        rows[k] == (if old(rows)[k].id == t.id then ToRow(t.id, t) else old(rows)[k])
    {
      match IndexOf(rows, t.id)
      case None =>
        changed := 0;
      case Some(i) =>
        rows := rows[i := ToRow(t.id, t)];
        changed := 1;
    }

    /** `deleteTransaction`: removes the row with that id, if any, and returns the number removed. */
    method Delete(id: int) returns (removed: int)
      requires Valid()
      modifies this
      ensures Valid() && lastId == old(lastId)
      ensures removed == (if HasId(old(rows), id) then 1 else 0)
      ensures rows == WithoutId(old(rows), id)
    {
      match IndexOf(rows, id)
      case None =>
        WithoutIdAbsent(rows, id);
        removed := 0;
      case Some(i) =>
        RemoveAtIndex(rows, id, i);
        rows := rows[..i] + rows[i + 1..];
        removed := 1;
    }

    /**
     * `getTransaction`: the row with that id read back, `None` when there is
     * none, and the constructor's error when the stored row fails its checks.
     */
    method Get(id: int) returns (r: Result<Option<Transaction>, ValidationError>)
      ensures r == Success(None) <==> !HasId(rows, id)
      ensures r.Success? && r.value.Some? ==>
        exists k :: 0 <= k < |rows| && rows[k].id == id && Decode(rows[k]) == Success(r.value.value)
      ensures r.Failure? ==>
        exists k :: 0 <= k < |rows| && rows[k].id == id && Decode(rows[k]) == Failure(r.error)
    {
      match IndexOf(rows, id)
      case None =>
        r := Success(None);
      case Some(i) =>
        match Decode(rows[i])
        case Success(t) =>
          r := Success(Some(t));
        case Failure(e) =>
          r := Failure(e);
    }

    /**
     * `getAllTransactions`: walks the rows newest first and keeps every row
     * that reads back as a transaction, skipping the others.
     */
    method GetAll() returns (list: seq<Transaction>)
      ensures list == DecodeAll(ByDateDesc(rows))
      ensures NewestFirst(list) && AllWellFormed(list)
      ensures forall row :: row in rows && Decode(row).Success? ==> Decode(row).value in list
      ensures forall t :: t in list ==> exists row :: row in rows && Decode(row) == Success(t)
      ensures UniqueIds(rows) ==> DistinctIds(list)
    {
      var cursor := ByDateDesc(rows);
      list := [];
      var i := 0;
      while i < |cursor|
        invariant 0 <= i <= |cursor|
        invariant list == DecodeAll(cursor[..i])
      {
        assert cursor[..i + 1][..i] == cursor[..i];
        var decoded := Decode(cursor[i]);
        if decoded.Success? {
          list := list + [decoded.value];
        }
        i := i + 1;
      }
      assert cursor[..i] == cursor;
      Listing(rows);
    }
  }

  /**
   * Round trip: a transaction added and then fetched by the id `addTransaction`
   * returned comes back with every field it was given, under the new id.
   */
  method AddThenGet(table: TransactionTable, t: Transaction)
    returns (id: int, fetched: Result<Option<Transaction>, ValidationError>)
    requires table.Valid() && WellFormed(t)
    modifies table
    ensures table.Valid()
    ensures id >= 1 && fetched == Success(Some(t.(id := id)))
  {
    id := table.Add(t, false);
    DecodeToRow(id, t);
    var last := |table.rows| - 1;
    assert table.rows[last] == ToRow(id, t);
    assert forall k :: 0 <= k < |table.rows| && table.rows[k].id == id ==> k == last;
    assert HasId(table.rows, id);
    fetched := table.Get(id);
    if fetched.Failure? {
      assert false;
    } else {
      assert fetched.value.Some?;
      var k :| 0 <= k < |table.rows| && table.rows[k].id == id && Decode(table.rows[k]) == Success(fetched.value.value);
      assert k == last;
    }
  }
}

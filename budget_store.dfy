/**
 * The budgets table: one budget per (month, year). Saving replaces the
 * period's rows inside one database transaction; the lookup returns the
 * period's most recently created row.
 */
module BudgetStore {
  import opened Wrappers

  /**
   * A budget row. `createdAt` is the creation instant; the table orders by
   * it.
   */
  datatype Budget = Budget(id: int, amount: real, month: int, year: int, createdAt: int)

  /** `saveBudget` throws when the insert reports failure. */
  datatype SaveError = InsertFailed

  predicate InPeriod(b: Budget, month: int, year: int) {
    b.month == month && b.year == year
  }

  /** The rows `month = ? AND year = ?` selects, in table order. */
  function OfPeriod(rows: seq<Budget>, month: int, year: int): (r: seq<Budget>)
    ensures forall b :: b in r <==> b in rows && InPeriod(b, month, year)
  {
    if rows == [] then []
    else if InPeriod(rows[0], month, year) then [rows[0]] + OfPeriod(rows[1..], month, year)
    else OfPeriod(rows[1..], month, year)
  }

  /** The table after `DELETE … WHERE month = ? AND year = ?`, in table order. */
  function WithoutPeriod(rows: seq<Budget>, month: int, year: int): (r: seq<Budget>)
    ensures forall b :: b in r <==> b in rows && !InPeriod(b, month, year)
  {
    if rows == [] then []
    else if InPeriod(rows[0], month, year) then WithoutPeriod(rows[1..], month, year)
    else [rows[0]] + WithoutPeriod(rows[1..], month, year)
  }

  lemma {:induction false} OfPeriodAppend(a: seq<Budget>, b: seq<Budget>, month: int, year: int)
    ensures OfPeriod(a + b, month, year) == OfPeriod(a, month, year) + OfPeriod(b, month, year)
  {
    if a == [] {
      assert a + b == b;
    } else {
      assert (a + b)[1..] == a[1..] + b;
      OfPeriodAppend(a[1..], b, month, year);
    }
  }

  lemma {:induction false} WithoutPeriodAppend(a: seq<Budget>, b: seq<Budget>, month: int, year: int)
    ensures WithoutPeriod(a + b, month, year) == WithoutPeriod(a, month, year) + WithoutPeriod(b, month, year)
  {
    if a == [] {
      assert a + b == b;
    } else {
      assert (a + b)[1..] == a[1..] + b;
      WithoutPeriodAppend(a[1..], b, month, year);
    }
  }

  /** Deleting one period leaves the rows of every other period as they were. */
  lemma {:induction false} WithoutPeriodKeepsOthers(rows: seq<Budget>, month: int, year: int, m: int, y: int)
    requires m != month || y != year
    ensures OfPeriod(WithoutPeriod(rows, month, year), m, y) == OfPeriod(rows, m, y)
  {
    if rows != [] {
      WithoutPeriodKeepsOthers(rows[1..], month, year, m, y);
    }
  }

  lemma {:induction false} OfPeriodWithoutPeriod(rows: seq<Budget>, month: int, year: int)
    ensures OfPeriod(WithoutPeriod(rows, month, year), month, year) == []
  {
    if rows != [] {
      OfPeriodWithoutPeriod(rows[1..], month, year);
    }
  }

  /** Deleting a period twice is deleting it once. */
  lemma {:induction false} WithoutPeriodIdempotent(rows: seq<Budget>, month: int, year: int)
    ensures WithoutPeriod(WithoutPeriod(rows, month, year), month, year) == WithoutPeriod(rows, month, year)
  {
    if rows != [] {
      WithoutPeriodIdempotent(rows[1..], month, year);
    }
  }

  /** The table a successful save commits: the period's old rows gone, `saved` appended. */
  function AfterSave(rows: seq<Budget>, saved: Budget): seq<Budget> {
    WithoutPeriod(rows, saved.month, saved.year) + [saved]
  }

  /** After a save the period holds exactly the saved row; every other period is untouched. */
  lemma SaveReplacesPeriod(rows: seq<Budget>, saved: Budget)
    ensures OfPeriod(AfterSave(rows, saved), saved.month, saved.year) == [saved]
    ensures forall m, y :: (m != saved.month || y != saved.year) ==>
      OfPeriod(AfterSave(rows, saved), m, y) == OfPeriod(rows, m, y)
  {
    var kept := WithoutPeriod(rows, saved.month, saved.year);
    OfPeriodAppend(kept, [saved], saved.month, saved.year);
    OfPeriodWithoutPeriod(rows, saved.month, saved.year);
    forall m, y | m != saved.month || y != saved.year
      ensures OfPeriod(AfterSave(rows, saved), m, y) == OfPeriod(rows, m, y)
    {
      OfPeriodAppend(kept, [saved], m, y);
      WithoutPeriodKeepsOthers(rows, saved.month, saved.year, m, y);
    }
  }

  /**
   * Saving twice for one period, whatever the amounts and creation times,
   * gives the table the second save alone gives: one row for the period, the
   * second one.
   */
  lemma SaveTwice(rows: seq<Budget>, first: Budget, second: Budget)
    requires first.month == second.month && first.year == second.year
    ensures AfterSave(AfterSave(rows, first), second) == AfterSave(rows, second)
    ensures OfPeriod(AfterSave(AfterSave(rows, first), second), second.month, second.year) == [second]
  {
    var kept := WithoutPeriod(rows, first.month, first.year);
    WithoutPeriodAppend(kept, [first], first.month, first.year);
    WithoutPeriodIdempotent(rows, first.month, first.year);
    assert WithoutPeriod([first], first.month, first.year) == [];
    assert kept + [] == kept;
    SaveReplacesPeriod(rows, second);
  }

  /**
   * `ORDER BY created_at DESC LIMIT 1` over the period's rows: the latest
   * created row of the period, the first in table order among equals, or
   * `None` when the period has no row.
   */
  function Newest(rows: seq<Budget>, month: int, year: int): (r: Option<Budget>)
    ensures r.None? <==> forall k :: 0 <= k < |rows| ==> !InPeriod(rows[k], month, year)
    ensures r.Some? ==> r.value in rows && InPeriod(r.value, month, year)
    ensures r.Some? ==> forall k :: 0 <= k < |rows| && InPeriod(rows[k], month, year) ==>
      rows[k].createdAt <= r.value.createdAt
  {
    if rows == [] then None
    else
      var rest := Newest(rows[1..], month, year);
      assert forall k :: 1 <= k < |rows| ==> rows[k] == rows[1..][k - 1];
      if !InPeriod(rows[0], month, year) then rest
      else if rest.None? || rows[0].createdAt >= rest.value.createdAt then Some(rows[0])
      else rest
  }

  /** Round trip: after a save, the lookup for that period finds exactly the saved row. */
  lemma NewestAfterSave(rows: seq<Budget>, saved: Budget)
    ensures Newest(AfterSave(rows, saved), saved.month, saved.year) == Some(saved)
  {
    var after := AfterSave(rows, saved);
    assert InPeriod(after[|after| - 1], saved.month, saved.year);
    var r := Newest(after, saved.month, saved.year);
    assert r.value in WithoutPeriod(rows, saved.month, saved.year) || r.value == saved;
  }

  predicate UniqueIds(rows: seq<Budget>) {
    forall i, j :: 0 <= i < j < |rows| ==> rows[i].id != rows[j].id
  }

  lemma {:induction false} WithoutPeriodUnique(rows: seq<Budget>, month: int, year: int)
    requires UniqueIds(rows)
    ensures UniqueIds(WithoutPeriod(rows, month, year))
  {
    if rows != [] {
      var rest := rows[1..];
      assert UniqueIds(rest) by {
        forall i, j | 0 <= i < j < |rest| ensures rest[i].id != rest[j].id {
          assert rest[i] == rows[i + 1] && rest[j] == rows[j + 1];
        }
      }
      WithoutPeriodUnique(rest, month, year);
      assert forall x :: x in rest ==> x.id != rows[0].id;
    }
  }

  /** The budgets table, with SQLite's AUTOINCREMENT counter. */
  class BudgetTable {
    var rows: seq<Budget>
    /** The largest id ever issued; ids are never reused. */
    var lastId: int

    ghost predicate Valid()
      reads this
    {
      && lastId >= 0
      && UniqueIds(rows)
      && (forall k :: 0 <= k < |rows| ==> 1 <= rows[k].id <= lastId)
    }

    /** Opens a table file holding `existing` rows, whose counter stands at `sequence`. */
    constructor Open(existing: seq<Budget>, sequence: int)
      requires sequence >= 0 && UniqueIds(existing)
      requires forall k :: 0 <= k < |existing| ==> 1 <= existing[k].id <= sequence
      ensures Valid()
      ensures rows == existing && lastId == sequence
    {
      rows := existing;
      lastId := sequence;
    }

    /**
     * `saveBudget`: inside one database transaction, deletes every row of
     * `b`'s period and inserts `b` under a fresh id. When the insert fails the
     * transaction ends without being marked successful, so the delete is
     * rolled back, and the error is raised.
     */
    method Save(b: Budget, insertFails: bool) returns (r: Result<int, SaveError>)
      requires Valid()
      modifies this
      ensures Valid()
      ensures r.Failure? <==> insertFails
      ensures r.Failure? ==> rows == old(rows) && lastId == old(lastId)
      ensures r.Success? ==> r.value == old(lastId) + 1 && lastId == r.value
      ensures r.Success? ==> rows == AfterSave(old(rows), b.(id := r.value))
      ensures r.Success? ==> OfPeriod(rows, b.month, b.year) == [b.(id := r.value)]
      ensures r.Success? ==> forall m, y :: (m != b.month || y != b.year) ==>
        OfPeriod(rows, m, y) == OfPeriod(old(rows), m, y)
    {
      // beginTransaction: the delete works on a staged copy until the commit
      var kept := WithoutPeriod(rows, b.month, b.year);
      if insertFails {
        // endTransaction without setTransactionSuccessful: the delete is undone
        r := Failure(InsertFailed);
        return;
      }
      var id := lastId + 1;
      var staged := kept + [b.(id := id)];
      SaveReplacesPeriod(rows, b.(id := id));
      WithoutPeriodUnique(rows, b.month, b.year);
      assert forall k :: 0 <= k < |kept| ==> kept[k] in rows;
      assert forall k :: 0 <= k < |staged| - 1 ==> staged[k] == kept[k];
      // setTransactionSuccessful and endTransaction: the staged table is committed
      rows, lastId := staged, id;
      r := Success(id);
    }

    /**
     * `getCurrentBudget`, with the clock's (month, year) as parameters: the
     * period's latest created row, or `None` when there is none.
     */
    method GetCurrent(month: int, year: int) returns (r: Option<Budget>)
      ensures r.None? <==> forall k :: 0 <= k < |rows| ==> !InPeriod(rows[k], month, year)
      ensures r.Some? ==> r.value in rows && InPeriod(r.value, month, year)
      ensures r.Some? ==> forall k :: 0 <= k < |rows| && InPeriod(rows[k], month, year) ==>
        rows[k].createdAt <= r.value.createdAt
      ensures r == Newest(rows, month, year)
    {
      r := Newest(rows, month, year);
    }
  }
}

/**
 * The budget progress engine: the period's expense spending, the progress
 * fraction with its warning and exceeded flags, the remaining budget, the
 * per-category spending map, and saving a budget for the current period.
 *
 * The store reads the repository makes are inputs here: `txs` is the
 * transactions listing (newest first, every element a constructed
 * transaction) and `budget` is what the budget lookup returned. The clock's
 * (month, year) is a parameter.
 */
module BudgetRepository {
  import opened Wrappers
  import opened Transactions
  import opened BudgetStore

  /** The warning flag is raised at 80% of the budget. */
  const WarningThreshold: real := 0.8

  datatype BudgetProgress = BudgetProgress(
    budget: Option<Budget>,
    spending: real,
    progress: real,
    isWarning: bool,
    isExceeded: bool)

  /** The filter both spending queries apply: an expense dated in the period. */
  predicate CountsToward(t: Transaction, month: int, year: int) {
    IsExpense(t) && t.date.month == month && t.date.year == year
  }

  function PeriodExpenses(txs: seq<Transaction>, month: int, year: int): seq<Transaction> {
    Filter(txs, t => CountsToward(t, month, year))
  }

  /**
   * `getCurrentSpending`: the amounts of the period's expenses added up.
   * It is never negative, and it is 0 exactly when the period has no expense.
   */
  function CurrentSpending(txs: seq<Transaction>, month: int, year: int): (r: real)
    requires AllWellFormed(txs)
    ensures r >= 0.0
    ensures r == 0.0 <==> forall k :: 0 <= k < |txs| ==> !CountsToward(txs[k], month, year)
  {
    var expenses := PeriodExpenses(txs, month, year);
    FilterKeepsWellFormed(txs, t => CountsToward(t, month, year));
    SumOfWellFormedIsNonNegative(expenses);
    assert (exists k :: 0 <= k < |txs| && CountsToward(txs[k], month, year)) <==> expenses != [] by {
      if expenses != [] {
        assert expenses[0] in expenses;
      }
      forall k | 0 <= k < |txs| && CountsToward(txs[k], month, year) ensures txs[k] in expenses {
        assert txs[k] in txs;
      }
    }
    SumAmounts(expenses)
  }

  /** Kotlin's `coerceIn`. */
  function CoerceIn(x: real, lo: real, hi: real): (r: real)
    requires lo <= hi
    ensures lo <= r <= hi
    ensures lo <= x <= hi ==> r == x
    ensures x < lo ==> r == lo
    ensures x > hi ==> r == hi
  {
    if x < lo then lo else if x > hi then hi else x
  }

  /** For a positive budget, comparing the ratio with a threshold is comparing the spending with that share. */
  lemma RatioThresholds(spending: real, amount: real)
    requires spending >= 0.0
    ensures amount > 0.0 ==>
      && spending / amount >= 0.0
      && (spending / amount >= 1.0 <==> spending >= amount)
      && (spending / amount <= 1.0 <==> spending <= amount)
      && (spending / amount >= WarningThreshold <==> spending >= WarningThreshold * amount)
  {
    if amount > 0.0 {
      assert (spending / amount) * amount == spending;
    }
  }

  /**
   * `getBudgetProgress`. With a budget, the progress is spending over the
   * budget amount clamped to [0, 1]; the warning flag is raised at 0.8 and the
   * exceeded flag at 1.0. Without a budget, the progress is 0 and no flag is
   * raised, but the spending is still reported.
   */
  function GetBudgetProgress(txs: seq<Transaction>, budget: Option<Budget>, month: int, year: int)
    : (p: BudgetProgress)
    requires AllWellFormed(txs)
    requires budget.Some? ==> budget.value.amount != 0.0
    ensures p.budget == budget && p.spending == CurrentSpending(txs, month, year)
    ensures 0.0 <= p.progress <= 1.0
    ensures p.isWarning <==> p.progress >= WarningThreshold
    ensures p.isExceeded <==> p.progress >= 1.0
    ensures p.isExceeded ==> p.isWarning
    ensures budget.None? ==> p.progress == 0.0 && !p.isWarning && !p.isExceeded
    ensures budget.Some? && budget.value.amount > 0.0 ==>
      && (p.isExceeded <==> p.spending >= budget.value.amount)
      && (p.isWarning <==> p.spending >= WarningThreshold * budget.value.amount)
      && (p.spending <= budget.value.amount ==> p.progress == p.spending / budget.value.amount)
  {
    var spending := CurrentSpending(txs, month, year);
    match budget
    case Some(b) =>
      var progress := CoerceIn(spending / b.amount, 0.0, 1.0);
      RatioThresholds(spending, b.amount);
      BudgetProgress(budget, spending, progress, progress >= WarningThreshold, progress >= 1.0)
    case None =>
      BudgetProgress(None, spending, 0.0, false, false)
  }

  /**
   * `getRemainingBudget`: what is left of the budget, never below 0, and 0
   * when there is no budget.
   */
  function GetRemainingBudget(txs: seq<Transaction>, budget: Option<Budget>, month: int, year: int)
    : (r: real)
    requires AllWellFormed(txs)
    ensures r >= 0.0
    ensures budget.None? ==> r == 0.0
    ensures budget.Some? && CurrentSpending(txs, month, year) <= budget.value.amount ==>
      r + CurrentSpending(txs, month, year) == budget.value.amount
    ensures budget.Some? && CurrentSpending(txs, month, year) >= budget.value.amount ==> r == 0.0
  {
    match budget
    case Some(b) =>
      var left := b.amount - CurrentSpending(txs, month, year);
      if left < 0.0 then 0.0 else left
    case None => 0.0
  }

  /** Nothing remains exactly when the budget is reported exceeded. */
  lemma NothingRemainsIffExceeded(txs: seq<Transaction>, b: Budget, month: int, year: int)
    requires AllWellFormed(txs) && b.amount > 0.0
    ensures GetRemainingBudget(txs, Some(b), month, year) == 0.0 <==>
      GetBudgetProgress(txs, Some(b), month, year).isExceeded
  {
  }

  /** The distinct categories of `s`. */
  function Categories(s: seq<Transaction>): (r: set<string>)
    ensures forall c :: c in r <==> exists k :: 0 <= k < |s| && s[k].category == c
  {
    if s == [] then {}
    else
      assert forall k :: 1 <= k < |s| ==> s[k] == s[1..][k - 1];
      {s[0].category} + Categories(s[1..])
  }

  /** The reference definition of one category's total: its amounts added up. */
  function CategorySum(s: seq<Transaction>, c: string): (r: real)
    ensures c !in Categories(s) ==> r == 0.0
  {
    if s == [] then 0.0
    else (if s[0].category == c then s[0].amount else 0.0) + CategorySum(s[1..], c)
  }

  /**
   * `groupBy { it.category }.mapValues { sumOf { amount } }`: one key per
   * category present, holding that category's total.
   */
  function GroupSums(s: seq<Transaction>): (m: map<string, real>)
    ensures m.Keys == Categories(s)
    ensures forall c :: c in m ==> m[c] == CategorySum(s, c)
  {
    if s == [] then map[]
    else
      var rest := GroupSums(s[1..]);
      var c := s[0].category;
      rest[c := s[0].amount + (if c in rest then rest[c] else 0.0)]
  }

  /** `getSpendingByCategory`: the period's expenses grouped by category and summed. */
  function GetSpendingByCategory(txs: seq<Transaction>, month: int, year: int): (m: map<string, real>)
    ensures forall c :: c in m <==>
      exists k :: 0 <= k < |txs| && CountsToward(txs[k], month, year) && txs[k].category == c
    ensures forall c :: c in m ==> m[c] == CategorySum(PeriodExpenses(txs, month, year), c)
  {
    var expenses := PeriodExpenses(txs, month, year);
    var m := GroupSums(expenses);
    assert forall c :: c in m <==>
      exists k :: 0 <= k < |txs| && CountsToward(txs[k], month, year) && txs[k].category == c
    by {
      forall c ensures c in m <==>
        exists k :: 0 <= k < |txs| && CountsToward(txs[k], month, year) && txs[k].category == c
      {
        if c in m {
          var j :| 0 <= j < |expenses| && expenses[j].category == c;
          assert expenses[j] in expenses;
          var k :| 0 <= k < |txs| && txs[k] == expenses[j];
        }
        if exists k :: 0 <= k < |txs| && CountsToward(txs[k], month, year) && txs[k].category == c {
          var k :| 0 <= k < |txs| && CountsToward(txs[k], month, year) && txs[k].category == c;
          assert txs[k] in txs;
          var j :| 0 <= j < |expenses| && expenses[j] == txs[k];
        }
      }
    }
    m
  }

  predicate Distinct(keys: seq<string>) {
    forall i, j :: 0 <= i < j < |keys| ==> keys[i] != keys[j]
  }

  /** The values of `m` at `keys`, added up. */
  function SumAt(m: map<string, real>, keys: seq<string>): real
    requires forall k :: 0 <= k < |keys| ==> keys[k] in m
  {
    if keys == [] then 0.0 else m[keys[0]] + SumAt(m, keys[1..])
  }

  /** The category totals of `s` at `keys`, added up. */
  function SumCategorySums(s: seq<Transaction>, keys: seq<string>): real {
    if keys == [] then 0.0 else CategorySum(s, keys[0]) + SumCategorySums(s, keys[1..])
  }

  lemma {:induction false} SumCategorySumsSplit(t: Transaction, rest: seq<Transaction>, keys: seq<string>)
    requires Distinct(keys)
    ensures SumCategorySums([t] + rest, keys) ==
      (if t.category in keys then t.amount else 0.0) + SumCategorySums(rest, keys)
  {
    if keys != [] {
      assert ([t] + rest)[1..] == rest;
      assert t.category == keys[0] ==> t.category !in keys[1..];
      SumCategorySumsSplit(t, rest, keys[1..]);
    }
  }

  lemma {:induction false} SumCategorySumsEmpty(keys: seq<string>)
    ensures SumCategorySums([], keys) == 0.0
  {
    if keys != [] {
      SumCategorySumsEmpty(keys[1..]);
    }
  }

  /** Adding up every category's total, once per category, gives the total. */
  lemma {:induction false} CategoryTotalsCover(s: seq<Transaction>, keys: seq<string>)
    requires Distinct(keys)
    requires forall k :: 0 <= k < |s| ==> s[k].category in keys
    ensures SumCategorySums(s, keys) == SumAmounts(s)
  {
    if s == [] {
      SumCategorySumsEmpty(keys);
    } else {
      assert s == [s[0]] + s[1..];
      SumCategorySumsSplit(s[0], s[1..], keys);
      CategoryTotalsCover(s[1..], keys);
    }
  }

  lemma {:induction false} SumAtGroupSums(s: seq<Transaction>, keys: seq<string>)
    requires forall k :: 0 <= k < |keys| ==> keys[k] in GroupSums(s)
    ensures SumAt(GroupSums(s), keys) == SumCategorySums(s, keys)
  {
    if keys != [] {
      SumAtGroupSums(s, keys[1..]);
    }
  }

  /**
   * The values of the per-category map add up to the period's spending:
   * summed once per key, in any order of the keys.
   */
  lemma CategoryMapSumsToSpending(txs: seq<Transaction>, month: int, year: int, keys: seq<string>)
    requires AllWellFormed(txs)
    requires Distinct(keys)
    requires forall c :: c in keys <==> c in GetSpendingByCategory(txs, month, year)
    ensures SumAt(GetSpendingByCategory(txs, month, year), keys) == CurrentSpending(txs, month, year)
  {
    var expenses := PeriodExpenses(txs, month, year);
    assert GetSpendingByCategory(txs, month, year) == GroupSums(expenses);
    SumAtGroupSums(expenses, keys);
    forall k | 0 <= k < |expenses| ensures expenses[k].category in keys {
      assert expenses[k].category in Categories(expenses);
    }
    CategoryTotalsCover(expenses, keys);
  }

  /**
   * The `catch` blocks of the spending queries answer a failed read with 0
   * and the empty map, which is what the empty listing gives: no spending, no
   * category, progress 0 without a flag and, with a positive budget, the whole
   * budget remaining.
   */
  lemma UnavailableStoreSpendsNothing(budget: Option<Budget>, month: int, year: int)
    requires budget.Some? ==> budget.value.amount > 0.0
    ensures CurrentSpending([], month, year) == 0.0
    ensures GetSpendingByCategory([], month, year) == map[]
    ensures var p := GetBudgetProgress([], budget, month, year);
      p.progress == 0.0 && !p.isWarning && !p.isExceeded
    ensures budget.Some? ==> GetRemainingBudget([], budget, month, year) == budget.value.amount
  {
  }

  /** Why `budgetRepository.saveBudget` failed. */
  datatype SaveBudgetError =
    | StoreFailed(cause: SaveError)
    | NotVerified  // the read-back found no budget: "Failed to verify budget was saved"

  /**
   * `saveBudget(amount)`: builds a budget for the clock's period (`month`,
   * `year`) created at `now`, saves it, then reads the current budget back and
   * returns it. The read-back consults the clock again, as (`readMonth`,
   * `readYear`). A failed insert or a missing read-back is an error.
   */
  method SaveBudget(
    table: BudgetTable, amount: real, month: Month, year: int, now: int, insertFails: bool,
    readMonth: Month, readYear: int)
    returns (r: Result<Budget, SaveBudgetError>)
    requires table.Valid()
    modifies table
    ensures table.Valid()
    ensures insertFails ==> r == Failure(StoreFailed(InsertFailed)) && table.rows == old(table.rows)
    ensures insertFails ==> table.lastId == old(table.lastId)
    ensures !insertFails ==> table.lastId == old(table.lastId) + 1
    ensures !insertFails ==>
      table.rows == AfterSave(old(table.rows), Budget(old(table.lastId) + 1, amount, month, year, now))
    ensures !insertFails && readMonth == month && readYear == year ==>
      r == Success(Budget(old(table.lastId) + 1, amount, month, year, now))
    ensures r.Success? ==>
      && Newest(table.rows, readMonth, readYear) == Some(r.value)
      && r.value.month == readMonth && r.value.year == readYear
    ensures r == Failure(NotVerified) <==> !insertFails && Newest(table.rows, readMonth, readYear).None?
  {
    var budget := Budget(0, amount, month, year, now);
    var saved := table.Save(budget, insertFails);
    if saved.Failure? {
      assert saved.error == InsertFailed;
      r := Failure(StoreFailed(saved.error));
      return;
    }
    NewestAfterSave(old(table.rows), budget.(id := saved.value));
    var readBack := table.GetCurrent(readMonth, readYear);
    if readBack.None? {
      r := Failure(NotVerified);
    } else {
      r := Success(readBack.value);
    }
  }
}

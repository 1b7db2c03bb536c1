/**
 * The dashboard figures: all-time income, expenses and balance, and the most
 * recent transactions. `txs` is the store's listing, newest first; a failed
 * read is swallowed into the empty listing.
 */
module Dashboard {
  import opened Wrappers
  import opened Transactions
  import BudgetRepository

  /** The repository's `getAllTransactions`: the listing, or nothing when the read failed. */
  function Listing(read: Option<seq<Transaction>>): (r: seq<Transaction>)
    ensures read.None? ==> r == []
    ensures read.Some? ==> r == read.value
  {
    read.GetOr([])
  }

  /** `calculateTotalIncome`: the income amounts of every date added up. */
  function TotalIncome(txs: seq<Transaction>): (r: real)
    requires AllWellFormed(txs)
    ensures r >= 0.0
    ensures r == 0.0 <==> forall k :: 0 <= k < |txs| ==> !IsIncome(txs[k])
  {
    var incomes := Filter(txs, IsIncome);
    FilterKeepsWellFormed(txs, IsIncome);
    SumOfWellFormedIsNonNegative(incomes);
    assert (exists k :: 0 <= k < |txs| && IsIncome(txs[k])) <==> incomes != [] by {
      if incomes != [] {
        assert incomes[0] in incomes;
      }
      forall k | 0 <= k < |txs| && IsIncome(txs[k]) ensures txs[k] in incomes {
        assert txs[k] in txs;
      }
    }
    SumAmounts(incomes)
  }

  /** `calculateTotalExpenses`: the expense amounts of every date added up, with no period filter. */
  function TotalExpenses(txs: seq<Transaction>): (r: real)
    requires AllWellFormed(txs)
    ensures r >= 0.0
    ensures r == 0.0 <==> forall k :: 0 <= k < |txs| ==> !IsExpense(txs[k])
  {
    var expenses := Filter(txs, IsExpense);
    FilterKeepsWellFormed(txs, IsExpense);
    SumOfWellFormedIsNonNegative(expenses);
    assert (exists k :: 0 <= k < |txs| && IsExpense(txs[k])) <==> expenses != [] by {
      if expenses != [] {
        assert expenses[0] in expenses;
      }
      forall k | 0 <= k < |txs| && IsExpense(txs[k]) ensures txs[k] in expenses {
        assert txs[k] in txs;
      }
    }
    SumAmounts(expenses)
  }

  /** The reference definition of the balance: incomes counted up, expenses counted down. */
  function SignedSum(txs: seq<Transaction>): real {
    if txs == [] then 0.0
    else (if IsIncome(txs[0]) then txs[0].amount else -txs[0].amount) + SignedSum(txs[1..])
  }

  /**
   * Income and expenses split the transactions: together they are the sum of
   * all amounts, and their difference is the signed sum.
   */
  lemma {:induction false} IncomeAndExpensesSplit(txs: seq<Transaction>)
    requires AllWellFormed(txs)
    ensures TotalIncome(txs) + TotalExpenses(txs) == SumAmounts(txs)
    ensures TotalIncome(txs) - TotalExpenses(txs) == SignedSum(txs)
  {
    if txs != [] {
      var rest := txs[1..];
      assert AllWellFormed(rest) by {
        forall k | 0 <= k < |rest| ensures WellFormed(rest[k]) {
          assert rest[k] == txs[k + 1];
        }
      }
      IncomeAndExpensesSplit(rest);
      assert WellFormed(txs[0]);
      ExactlyOneKind(txs[0]);
    }
  }

  /** `calculateTotalBalance`: total income minus total expenses, i.e. the signed sum of all amounts. */
  function TotalBalance(txs: seq<Transaction>): (r: real)
    requires AllWellFormed(txs)
    ensures r == SignedSum(txs)
    ensures r <= TotalIncome(txs) && -r <= TotalExpenses(txs)
  {
    IncomeAndExpensesSplit(txs);
    TotalIncome(txs) - TotalExpenses(txs)
  }

  /**
   * `getRecentTransactions(limit)`: the first `limit` transactions of the
   * listing. A negative limit makes `take` throw, which the repository turns
   * into the empty list.
   */
  function RecentTransactions(txs: seq<Transaction>, limit: int := 5): (r: seq<Transaction>)
    ensures limit < 0 ==> r == []
    ensures limit >= 0 ==> |r| == (if limit < |txs| then limit else |txs|)
    ensures r == txs[..|r|]
  {
    if limit < 0 then []
    else if limit < |txs| then txs[..limit]
    else txs
  }

  /** When the listing is newest first, the recent transactions are at least as new as all the others. */
  lemma RecentAreNewest(txs: seq<Transaction>, limit: int)
    requires NewestFirst(txs)
    ensures forall i, j :: 0 <= i < |RecentTransactions(txs, limit)| <= j < |txs| ==>
      txs[i].date.millis >= txs[j].date.millis
    ensures NewestFirst(RecentTransactions(txs, limit))
  {
  }

  /** A failed read shows zero totals and no recent transactions, not an error. */
  lemma UnavailableStoreShowsNothing(limit: int)
    ensures TotalIncome(Listing(None)) == 0.0 && TotalExpenses(Listing(None)) == 0.0
    ensures TotalBalance(Listing(None)) == 0.0
    ensures RecentTransactions(Listing(None), limit) == []
  {
  }

  /** The current period's spending never exceeds the all-time expenses. */
  lemma {:induction false} PeriodSpendingWithinTotalExpenses(txs: seq<Transaction>, month: int, year: int)
    requires AllWellFormed(txs)
    ensures BudgetRepository.CurrentSpending(txs, month, year) <= TotalExpenses(txs)
  {
    if txs != [] {
      var rest := txs[1..];
      assert AllWellFormed(rest) by {
        forall k | 0 <= k < |rest| ensures WellFormed(rest[k]) {
          assert rest[k] == txs[k + 1];
        }
      }
      PeriodSpendingWithinTotalExpenses(rest, month, year);
      assert WellFormed(txs[0]);
    }
  }
}

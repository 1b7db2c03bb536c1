/** Worked examples of the budget progress engine on concrete months. */
module Scenarios {
  import opened Wrappers
  import opened Transactions
  import opened BudgetStore
  import opened BudgetRepository

  const March: Date := Date(1741000000000, 2025, 3)

  function Spent(title: string, amount: real, category: string): Transaction {
    Transaction(0, title, amount, category, Expense, March, "")
  }

  function Earned(title: string, amount: real, category: string): Transaction {
    Transaction(0, title, amount, category, Income, March, "")
  }

  lemma PeriodExpensesCons(t: Transaction, rest: seq<Transaction>, month: int, year: int)
    ensures PeriodExpenses([t] + rest, month, year) ==
      (if CountsToward(t, month, year) then [t] else []) + PeriodExpenses(rest, month, year)
  {
    assert ([t] + rest)[1..] == rest;
  }

  lemma TwoExpensesThenIncome(a: Transaction, b: Transaction, c: Transaction, month: int, year: int)
    requires CountsToward(a, month, year) && CountsToward(b, month, year) && !CountsToward(c, month, year)
    ensures PeriodExpenses([a, b, c], month, year) == [a, b]
  {
    PeriodExpensesCons(c, [], month, year);
    assert [c] == [c] + [];
    PeriodExpensesCons(b, [c], month, year);
    assert [b, c] == [b] + [c];
    PeriodExpensesCons(a, [b, c], month, year);
    assert [a, b, c] == [a] + [b, c];
  }

  function TypicalMonthTransactions(): seq<Transaction> {
    [Spent("Lunch", 200.0, "Food"), Spent("Bus", 150.0, "Transport"), Earned("Pay", 5000.0, "Salary")]
  }

  lemma TypicalMonthWellFormed()
    ensures AllWellFormed(TypicalMonthTransactions())
  {
    assert "Lunch"[0] == 'L' && "Food"[0] == 'F' && "Bus"[0] == 'B' && "Transport"[0] == 'T';
    assert "Pay"[0] == 'P' && "Salary"[0] == 'S';
  }

  /** The income of the month is not an expense of the month. */
  lemma TypicalMonthExpenses()
    ensures PeriodExpenses(TypicalMonthTransactions(), 3, 2025) ==
      [Spent("Lunch", 200.0, "Food"), Spent("Bus", 150.0, "Transport")]
  {
    var food, bus, pay := Spent("Lunch", 200.0, "Food"), Spent("Bus", 150.0, "Transport"), Earned("Pay", 5000.0, "Salary");
    assert !CountsToward(pay, 3, 2025) by { assert Income[0] != Expense[0]; }
    assert CountsToward(food, 3, 2025) && CountsToward(bus, 3, 2025);
    TwoExpensesThenIncome(food, bus, pay, 3, 2025);
  }

  /** Two expenses of different categories group into two entries. */
  lemma GroupTwo(a: Transaction, b: Transaction)
    requires a.category != b.category
    ensures GroupSums([a, b]) == map[a.category := a.amount, b.category := b.amount]
  {
    assert [a, b][1..] == [b] && [b][1..] == [];
  }

  /**
   * A budget of 1000 with expenses of 200 and 150 and an income of 5000:
   * spending 350, progress 0.35, no flag raised.
   */
  lemma TypicalMonthProgress()
    ensures AllWellFormed(TypicalMonthTransactions())
    ensures var p := GetBudgetProgress(TypicalMonthTransactions(), Some(Budget(1, 1000.0, 3, 2025, 0)), 3, 2025);
      p.spending == 350.0 && p.progress == 0.35 && !p.isWarning && !p.isExceeded
  {
    TypicalMonthWellFormed();
    TypicalMonthExpenses();
    var expenses := PeriodExpenses(TypicalMonthTransactions(), 3, 2025);
    assert expenses[1..] == [expenses[1]] && [expenses[1]][1..] == [];
    assert CurrentSpending(TypicalMonthTransactions(), 3, 2025) == 350.0;
  }

  /** The same month by category: Food 200 and Transport 150; the income is not in the map. */
  lemma TypicalMonthCategories()
    ensures GetSpendingByCategory(TypicalMonthTransactions(), 3, 2025) == map["Food" := 200.0, "Transport" := 150.0]
  {
    TypicalMonthExpenses();
    assert "Food" != "Transport" by { assert "Food"[0] != "Transport"[0]; }
    GroupTwo(Spent("Lunch", 200.0, "Food"), Spent("Bus", 150.0, "Transport"));
  }

  /** No budget for the period: progress 0 and no flag, though 50 was spent. */
  lemma NoBudgetSet()
    ensures var txs := [Spent("Lunch", 50.0, "Food")];
      && AllWellFormed(txs)
      && var p := GetBudgetProgress(txs, None, 3, 2025);
      && p.budget.None? && p.spending == 50.0 && p.progress == 0.0 && !p.isWarning && !p.isExceeded
  {
    assert "Lunch"[0] == 'L' && "Food"[0] == 'F';
  }

  /** A budget of 100 with 90 spent: progress 0.9, warning raised, not exceeded. */
  lemma WarningOnly()
    ensures var txs := [Spent("Lunch", 90.0, "Food")];
      && AllWellFormed(txs)
      && var p := GetBudgetProgress(txs, Some(Budget(1, 100.0, 3, 2025, 0)), 3, 2025);
      && p.progress == 0.9 && p.isWarning && !p.isExceeded
  {
    assert "Lunch"[0] == 'L' && "Food"[0] == 'F';
  }

  /** Spending exactly the budget: progress 1, both flags raised. */
  lemma ExactlyAtBudget()
    ensures var txs := [Spent("Lunch", 100.0, "Food")];
      && AllWellFormed(txs)
      && var p := GetBudgetProgress(txs, Some(Budget(1, 100.0, 3, 2025, 0)), 3, 2025);
      && p.progress == 1.0 && p.isWarning && p.isExceeded
      && GetRemainingBudget(txs, Some(Budget(1, 100.0, 3, 2025, 0)), 3, 2025) == 0.0
  {
    assert "Lunch"[0] == 'L' && "Food"[0] == 'F';
  }
}

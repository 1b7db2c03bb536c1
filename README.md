# WAC-money data layer, modelled in Dafny

This project models the data layer of the WAC-money personal-finance app. The layer has three parts:

- the `Transaction` record, with its constructor checks and factories;
- the two SQLite tables that store transactions and monthly budgets;
- the aggregation rules on top of them: current-period spending, budget progress with its 80% warning and 100% exceeded flags, remaining budget, spending by category, and the dashboard totals and recent list.

The modules follow the source files:

| module | file |
|---|---|
| `Wrappers` | `Option` and `Result` |
| `Transactions` | `data/Transaction.kt`, plus the `filter`/`sumOf` helpers the repositories use |
| `TransactionStore` | `data/TransactionDatabase.kt`, as the class `TransactionTable` over a sequence of rows |
| `BudgetStore` | `data/Budget.kt` and `data/BudgetDatabase.kt`, as the class `BudgetTable` |
| `BudgetRepository` | `data/BudgetRepository.kt`: pure aggregation functions, plus the `SaveBudget` method that writes a `BudgetTable` |
| `Dashboard` | `data/DashboardRepository.kt` |
| `Scenarios` | worked months with concrete numbers |

Modelling choices:

- **Amounts** are `real`.
- **Dates.** A date carries its millisecond timestamp, which is what the store orders by, and the calendar year and month (1..12) that the device's time zone gives it.
- **Clock reads** (`Calendar.getInstance()`, `Date()`) are parameters.
- **`BudgetRepository.saveBudget` reads the clock twice.** It reads once to build the budget, and `getCurrentBudget` reads it again for the read-back. `SaveBudget` takes both periods. When they agree, it is proved to return the saved budget. Across a month boundary they differ: then the read-back looks at another period, and it either returns that period's budget or fails with "not verified".
- **Tables** are in-memory classes. A `seq` of rows is the table contents, and an integer counter plays the part of SQLite's AUTOINCREMENT.
- **Failed inserts.** `db.insert` returning -1 is an `insertFails` parameter. `addTransaction` then returns -1. `saveBudget` then ends the transaction without marking it successful, so the staged delete is rolled back and an error is raised.
- **Stored rows may be invalid.** A row of the transactions table need not satisfy the constructor's checks, because the file may hold such rows, and its note column is nullable. Reading a row back (`Decode`) runs the checks again and turns a null note into `""`. `getTransaction` on an invalid row ends in the constructor's exception, which is rethrown; the model returns it as `Failure(error)`. `getAllTransactions` skips such a row and carries on.
- **Sort order.** `ORDER BY date DESC` is a stable sort by timestamp: rows with equal timestamps keep table order, where SQLite leaves their order unspecified. `ORDER BY created_at DESC LIMIT 1` picks the newest row, and among equal creation times the first in table order.
- **Failed reads in the repositories.** The repositories take the listing as a `seq<Transaction>` that is already newest first. `TransactionDatabase.getAllTransactions` rethrows a failed read, and the repositories' `try`/`catch` blocks turn it into empty results rather than an error, so a caller cannot tell an empty store from a failed read. On the dashboard side, `Dashboard.Listing` models `DashboardRepository.getAllTransactions`: a failed read (`None`) becomes the empty listing, which yields zero totals and no recent transactions. On the budget side, the `catch` blocks of `getCurrentSpending` (0.0) and `getSpendingByCategory` (`emptyMap()`) are modelled by passing the empty listing; `BudgetRepository.UnavailableStoreSpendsNothing` proves that it gives exactly those answers.

## Model

| member | source | states |
|---|---|---|
| Transactions.NewTransaction | app/src/main/java/com/example/wac_money/data/Transaction.kt:5-19 | construction succeeds iff the title is not blank, amount > 0, the category is not blank and the type is "income" or "expense"; the result holds exactly the given fields and is well formed; otherwise the error is the first failing check in source order |
| Transactions.ExactlyOneKind | app/src/main/java/com/example/wac_money/data/Transaction.kt:18-23 | every constructed transaction is exactly one of income and expense |
| Transactions.CreateIncome | app/src/main/java/com/example/wac_money/data/Transaction.kt:36-49 | succeeds under exactly the constructor's conditions (never fails on the type); the result is income, not expense, has id 0, and passes title, amount, category, date and note (default "") through unchanged |
| Transactions.CreateExpense | app/src/main/java/com/example/wac_money/data/Transaction.kt:51-64 | the same for expenses: the result is expense, not income, id 0, fields passed through |
| Transactions.FormattedAmount | app/src/main/java/com/example/wac_money/data/Transaction.kt:25-28 | the text starts with '+' iff income and '-' iff expense, then '$', then the rendered magnitude |
| TransactionStore.Decode | app/src/main/java/com/example/wac_money/data/TransactionDatabase.kt:130-140 | a row reads back iff it passes the constructor's checks; the transaction then carries the row's id and columns, and a null note becomes "" |
| TransactionStore.DecodeToRow | app/src/main/java/com/example/wac_money/data/TransactionDatabase.kt:64-71 | the columns written for a constructed transaction read back as that transaction under the row's id |
| TransactionStore.WithoutId | app/src/main/java/com/example/wac_money/data/TransactionDatabase.kt:106 | the table after deleting by id holds exactly the rows whose id differs |
| TransactionStore.ByDateDesc | app/src/main/java/com/example/wac_money/data/TransactionDatabase.kt:160-168 | the cursor order is a permutation of the table (same multiset) sorted newest first |
| TransactionStore.DecodeAllComplete | app/src/main/java/com/example/wac_money/data/TransactionDatabase.kt:172-196 | every row that reads back appears in the listing: a bad row skips itself, not the rest |
| TransactionStore.DecodeAllSorted | app/src/main/java/com/example/wac_money/data/TransactionDatabase.kt:167-196 | skipping rows keeps a newest-first cursor newest first |
| TransactionStore.DecodeAllDistinct | app/src/main/java/com/example/wac_money/data/TransactionDatabase.kt:171-196 | each row is decoded and added at most once: over rows with unique ids the listed ids are pairwise distinct |
| TransactionStore.ByDateDescUnique | app/src/main/java/com/example/wac_money/data/TransactionDatabase.kt:160-168 | the date-descending cursor keeps the table's ids unique |
| TransactionStore.Listing | app/src/main/java/com/example/wac_money/data/TransactionDatabase.kt:154-205 | the listing of a table is newest first, well formed, contains every row that reads back, and nothing that is not read back from a row; over rows with unique ids no two listed transactions share an id, so each readable row is listed exactly once |
| TransactionStore.TransactionTable.Open | app/src/main/java/com/example/wac_money/data/TransactionDatabase.kt:27-39 | opening a table file gives its rows and counter, with unique ids within the counter |
| TransactionStore.TransactionTable.Add | app/src/main/java/com/example/wac_money/data/TransactionDatabase.kt:60-79 | ignores the supplied id; appends exactly one row holding the six other fields under counter + 1, an id no existing row has; a failed insert returns -1 and changes nothing |
| TransactionStore.TransactionTable.Update | app/src/main/java/com/example/wac_money/data/TransactionDatabase.kt:81-100 | returns 1 if a row has the id and 0 otherwise; that row gets every non-id field of the argument, and every other row and the counter stay unchanged |
| TransactionStore.TransactionTable.Delete | app/src/main/java/com/example/wac_money/data/TransactionDatabase.kt:102-113 | returns 1 if a row has the id and 0 otherwise; removes exactly the rows with that id |
| TransactionStore.TransactionTable.Get | app/src/main/java/com/example/wac_money/data/TransactionDatabase.kt:115-152 | no row with the id gives `None`; otherwise the result is that row read back, or the constructor's error when the row fails its checks |
| TransactionStore.TransactionTable.GetAll | app/src/main/java/com/example/wac_money/data/TransactionDatabase.kt:154-205 | the loop yields the decoding of the date-descending cursor: newest first, well formed, every readable row and nothing else, each once (distinct ids) when the table's ids are unique |
| TransactionStore.AddThenGet | app/src/main/java/com/example/wac_money/data/TransactionDatabase.kt:64-140 | fetching by the id that add returned gives back the added transaction with that id |
| BudgetStore.OfPeriod | app/src/main/java/com/example/wac_money/data/BudgetDatabase.kt:114-123 | the rows the `month = ? AND year = ?` selection picks are exactly the table's rows of that period |
| BudgetStore.WithoutPeriod | app/src/main/java/com/example/wac_money/data/BudgetDatabase.kt:57-61 | the delete keeps exactly the rows outside the period |
| BudgetStore.WithoutPeriodKeepsOthers | app/src/main/java/com/example/wac_money/data/BudgetDatabase.kt:57-61 | deleting one period leaves the rows of every other period as they were |
| BudgetStore.SaveReplacesPeriod | app/src/main/java/com/example/wac_money/data/BudgetDatabase.kt:56-73 | after delete-then-insert the period holds exactly the saved row, and every other period is unchanged |
| BudgetStore.SaveTwice | app/src/main/java/com/example/wac_money/data/BudgetDatabase.kt:56-73 | two saves for the same period, whatever their amounts and creation times, leave the table the second save alone leaves, with the second budget as the period's only row |
| BudgetStore.Newest | app/src/main/java/com/example/wac_money/data/BudgetDatabase.kt:114-146 | `None` iff the period has no row; otherwise a row of the table in the period whose created_at is at least every other such row's |
| BudgetStore.NewestAfterSave | app/src/main/java/com/example/wac_money/data/BudgetDatabase.kt:64-142 | after a save, the lookup for that period returns exactly the saved row |
| BudgetStore.BudgetTable.Open | app/src/main/java/com/example/wac_money/data/BudgetDatabase.kt:26-39 | opening a table file gives its rows and counter, with unique ids within the counter |
| BudgetStore.BudgetTable.Save | app/src/main/java/com/example/wac_money/data/BudgetDatabase.kt:46-100 | fails iff the insert fails, and then leaves the table and counter unchanged (rollback); otherwise returns counter + 1, and the table is the old one without the period plus the saved row, so the period holds exactly that row and the other periods are unchanged |
| BudgetStore.BudgetTable.GetCurrent | app/src/main/java/com/example/wac_money/data/BudgetDatabase.kt:102-155 | the newest row of the given period, or `None` exactly when the period has no row |
| BudgetRepository.CurrentSpending | app/src/main/java/com/example/wac_money/data/BudgetRepository.kt:58-78 | the sum over the expenses dated in the period is never negative, and is 0 exactly when no transaction is such an expense |
| BudgetRepository.CoerceIn | app/src/main/java/com/example/wac_money/data/BudgetRepository.kt:86 | the clamp lies in [lo, hi], is x inside the range and the nearer bound outside it |
| BudgetRepository.RatioThresholds | app/src/main/java/com/example/wac_money/data/BudgetRepository.kt:86-88 | for a positive budget, ratio ≥ 1 iff spending ≥ budget, ratio ≤ 1 iff spending ≤ budget, and ratio ≥ 0.8 iff spending ≥ 0.8 × budget |
| BudgetRepository.GetBudgetProgress | app/src/main/java/com/example/wac_money/data/BudgetRepository.kt:80-116 | progress lies in [0, 1]; warning iff progress ≥ 0.8; exceeded iff progress ≥ 1, hence exceeded ⇒ warning; with a positive budget, exceeded iff spending ≥ amount, warning iff spending ≥ 0.8 × amount, and progress = spending / amount when within budget; without a budget, progress 0, no flag, spending still reported |
| BudgetRepository.GetRemainingBudget | app/src/main/java/com/example/wac_money/data/BudgetRepository.kt:118-132 | never negative; 0 without a budget; amount − spending when within budget; 0 when spending reaches the amount |
| BudgetRepository.NothingRemainsIffExceeded | app/src/main/java/com/example/wac_money/data/BudgetRepository.kt:80-132 | with a positive budget, nothing remains exactly when progress reports it exceeded |
| BudgetRepository.GroupSums | app/src/main/java/com/example/wac_money/data/BudgetRepository.kt:149-150 | grouping by category has exactly the categories present as keys, each holding that category's total |
| BudgetRepository.GetSpendingByCategory | app/src/main/java/com/example/wac_money/data/BudgetRepository.kt:134-155 | a category is a key iff some expense of the period has it; its value is that category's total over the period's expenses |
| BudgetRepository.CategoryMapSumsToSpending | app/src/main/java/com/example/wac_money/data/BudgetRepository.kt:140-150 | the map's values, each key counted once, add up to the current spending |
| BudgetRepository.SaveBudget | app/src/main/java/com/example/wac_money/data/BudgetRepository.kt:16-47 | a failed insert is an error and leaves the table unchanged; otherwise the budget is stored for the clock's period under the next id; the result is the read-back, which is the saved budget when the clock gives the same period twice; it is the "not verified" error exactly when the read-back finds nothing |
| Dashboard.Listing | app/src/main/java/com/example/wac_money/data/DashboardRepository.kt:16-23 | a failed read gives the empty list, a successful one the listing |
| Dashboard.TotalIncome | app/src/main/java/com/example/wac_money/data/DashboardRepository.kt:28-37 | the all-time income is never negative, and is 0 exactly when there is no income |
| Dashboard.TotalExpenses | app/src/main/java/com/example/wac_money/data/DashboardRepository.kt:42-51 | the all-time expenses (no period filter) are never negative, and are 0 exactly when there is no expense |
| Dashboard.IncomeAndExpensesSplit | app/src/main/java/com/example/wac_money/data/DashboardRepository.kt:28-51 | income plus expenses is the sum of all amounts; income minus expenses is the signed sum |
| Dashboard.TotalBalance | app/src/main/java/com/example/wac_money/data/DashboardRepository.kt:56-63 | the balance is the signed sum (incomes up, expenses down), at most the income and at least minus the expenses |
| Dashboard.RecentTransactions | app/src/main/java/com/example/wac_money/data/DashboardRepository.kt:68-75 | a prefix of the listing of length min(limit, n) (default limit 5); empty for a negative limit, whose exception is caught |
| Dashboard.RecentAreNewest | app/src/main/java/com/example/wac_money/data/DashboardRepository.kt:68-75 | from a newest-first listing the recent transactions are newest first and no older than any left out |
| Dashboard.UnavailableStoreShowsNothing | app/src/main/java/com/example/wac_money/data/DashboardRepository.kt:16-75 | a failed read shows zero totals and no recent transactions instead of an error |
| BudgetRepository.UnavailableStoreSpendsNothing | app/src/main/java/com/example/wac_money/data/BudgetRepository.kt:58-155 | a failed read, answered like the empty listing, gives zero spending, an empty category map, progress 0 without flags and the whole budget remaining |
| Dashboard.PeriodSpendingWithinTotalExpenses | app/src/main/java/com/example/wac_money/data/BudgetRepository.kt:58-73 | the period's spending never exceeds the all-time expenses |
| Scenarios.TypicalMonthProgress | app/src/main/java/com/example/wac_money/data/BudgetRepository.kt:80-96 | budget 1000, expenses 200 and 150, income 5000: spending 350, progress 0.35, no flag |
| Scenarios.TypicalMonthCategories | app/src/main/java/com/example/wac_money/data/BudgetRepository.kt:134-150 | the same month by category is Food 200 and Transport 150, without the income |
| Scenarios.NoBudgetSet | app/src/main/java/com/example/wac_money/data/BudgetRepository.kt:97-104 | without a budget, 50 spent gives progress 0 and no flag, spending still 50 |
| Scenarios.WarningOnly | app/src/main/java/com/example/wac_money/data/BudgetRepository.kt:85-96 | 90 of 100 spent gives progress 0.9, the warning flag and not the exceeded flag |
| Scenarios.ExactlyAtBudget | app/src/main/java/com/example/wac_money/data/BudgetRepository.kt:85-127 | 100 of 100 spent gives progress 1, both flags, and nothing remaining |

Definitions the rows above state properties of, with the source they model:

- `Transactions.IsIncome`, `Transactions.IsExpense` (app/src/main/java/com/example/wac_money/data/Transaction.kt:21-23): the type tests; `Transactions.ExactlyOneKind` states that a constructed transaction satisfies exactly one of them, and `CreateIncome`/`CreateExpense` which one.
- `TransactionStore.ToRow` (app/src/main/java/com/example/wac_money/data/TransactionDatabase.kt:64-71, 85-92): the columns written by insert and update; `DecodeToRow` states they read back as the transaction, `TransactionTable.Add`/`Update` state where they land.
- `TransactionStore.DecodeAll` (app/src/main/java/com/example/wac_money/data/TransactionDatabase.kt:170-198): the result of the read loop; `DecodeAllComplete`, `DecodeAllSorted`, `DecodeAllDistinct` and `Listing` state its properties, and `TransactionTable.GetAll` is proved equal to it.
- `BudgetStore.AfterSave` (app/src/main/java/com/example/wac_money/data/BudgetDatabase.kt:56-73): the table a successful save commits; `SaveReplacesPeriod`, `SaveTwice`, `NewestAfterSave` and `BudgetTable.Save` state its properties.
- `BudgetRepository.PeriodExpenses` (app/src/main/java/com/example/wac_money/data/BudgetRepository.kt:65-72, 141-148): the expenses dated in the period; `CurrentSpending`, `GetSpendingByCategory` and `CategoryMapSumsToSpending` state its properties.

## Left out

- Floating point. Amounts are exact reals, so Kotlin `Double` rounding is not modelled. A zero budget amount is excluded by a `requires`. In the source it makes `spending / 0.0` positive infinity when something was spent, which `coerceIn` clamps to progress 1 with both flags raised, and NaN when nothing was spent. The `%.2f` rendering in `getFormattedAmount` is the `magnitude` parameter of `Transactions.FormattedAmount`.
- `getFormattedDate`: locale-dependent date formatting.
- Dashboard.TotalBalance: takes one listing for both totals, whereas `calculateTotalBalance` reads the store once for the income and again for the expenses. A store that fails between the two reads (balance = income alone), or changes between them, is not modelled.
- Time-zone calendar conversion: the `Date` record carries its year and month already.
- SQL mechanics: schema creation and upgrade, cursors, and opening and closing connections. I/O failures other than a failed insert are not modelled.
- The second-precision text encoding of `created_at`: creation times are integers.
- The `Long` id width: ids are unbounded integers.
- BudgetStore.BudgetTable.Save: the exception type is not modelled. On a failed insert, `endTransaction` runs twice: once before the throw and again in the `catch`. A second `endTransaction` may raise its own exception in place of "Failed to save budget". Either way the table is unchanged and an error is raised.
- `BudgetRepository.getCurrentBudget` is a pass-through to `BudgetStore.BudgetTable.GetCurrent` and has no member of its own. Its `catch` cannot fire, because the lookup never raises.
- The outer `catch` of `getBudgetProgress` and `getRemainingBudget` cannot fire in the model. Their reads are `getCurrentBudget`, which catches its own failures and returns null, and `getCurrentSpending`, which catches its own failed read and returns 0.0; neither raises.
- BudgetRepository.GetSpendingByCategory: the map's iteration order (a `LinkedHashMap` in first-appearance order) is not modelled; only keys and values are.

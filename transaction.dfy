/**
 * The transaction record: its constructor checks, the income/expense predicates,
 * the two factory functions and the sign prefix of the formatted amount.
 * Also the sequence helpers (filtering, summing amounts) that the repositories
 * build their `filter { … }.sumOf { it.amount }` chains from.
 */
module Transactions {
  import opened Wrappers

  type Month = m: int | 1 <= m <= 12 witness 1

  /**
   * An instant: `millis` is the timestamp the store orders by; `year` and
   * `month` (1..12) are the calendar fields the device's time zone gives it.
   */
  datatype Date = Date(millis: int, year: int, month: Month)

  const Income: string := "income"
  const Expense: string := "expense"

  datatype Transaction = Transaction(
    id: int,
    title: string,
    amount: real,
    category: string,
    kind: string,
    date: Date,
    note: string)

  /** The four `require` checks of the constructor, in the order they run. */
  datatype ValidationError = BlankTitle | NonPositiveAmount | BlankCategory | UnknownType

  /** Kotlin's `Char.isWhitespace()`: Java whitespace plus the Unicode space separators. */
  predicate IsWhitespace(c: char) {
    || c == ' ' || c == '\t' || c == '\n' || c == '\r' || c == '\U{000B}' || c == '\U{000C}'
    || ('\U{001C}' <= c <= '\U{001F}')
    || c == '\U{00A0}' || c == '\U{1680}' || ('\U{2000}' <= c <= '\U{200A}')
    || c == '\U{2028}' || c == '\U{2029}' || c == '\U{202F}' || c == '\U{205F}' || c == '\U{3000}'
  }

  /** Kotlin's `isBlank()`: empty or whitespace only. */
  predicate IsBlank(s: string) {
    forall i :: 0 <= i < |s| ==> IsWhitespace(s[i])
  }

  /** What every constructed `Transaction` satisfies. */
  predicate WellFormed(t: Transaction) {
    && !IsBlank(t.title)
    && t.amount > 0.0
    && !IsBlank(t.category)
    && (t.kind == Income || t.kind == Expense)
  }

  /**
   * The data-class constructor: succeeds exactly when the `init` checks pass,
   * and otherwise fails with the first check that does not.
   */
  function NewTransaction(
    id: int := 0, title: string, amount: real, category: string, kind: string, date: Date,
    note: string := ""): (r: Result<Transaction, ValidationError>)
    ensures r.Success? <==>
      !IsBlank(title) && amount > 0.0 && !IsBlank(category) && kind in {Income, Expense}
    ensures r.Success? ==>
      && r.value == Transaction(id, title, amount, category, kind, date, note)
      && WellFormed(r.value)
    ensures IsBlank(title) ==> r == Failure(BlankTitle)
    ensures !IsBlank(title) && amount <= 0.0 ==> r == Failure(NonPositiveAmount)
    ensures !IsBlank(title) && amount > 0.0 && IsBlank(category) ==> r == Failure(BlankCategory)
    ensures !IsBlank(title) && amount > 0.0 && !IsBlank(category) && kind !in {Income, Expense} ==>
      r == Failure(UnknownType)
  {
    if IsBlank(title) then Failure(BlankTitle)
    else if !(amount > 0.0) then Failure(NonPositiveAmount)
    else if IsBlank(category) then Failure(BlankCategory)
    else if !(kind == Income || kind == Expense) then Failure(UnknownType)
    else Success(Transaction(id, title, amount, category, kind, date, note))
  }

  predicate IsIncome(t: Transaction) {
    t.kind == Income
  }

  predicate IsExpense(t: Transaction) {
    t.kind == Expense
  }

  /** Every constructed transaction is exactly one of income and expense. */
  lemma ExactlyOneKind(t: Transaction)
    requires WellFormed(t)
    ensures IsIncome(t) != IsExpense(t)
  {
    assert Income[0] != Expense[0];
  }

  /** `createIncome`: the constructor with type "income", default id 0; `date` is the caller's clock. */
  function CreateIncome(title: string, amount: real, category: string, date: Date, note: string := "")
    : (r: Result<Transaction, ValidationError>)
    ensures r.Success? <==> !IsBlank(title) && amount > 0.0 && !IsBlank(category)
    ensures r.Success? ==>
      && IsIncome(r.value) && !IsExpense(r.value)
      && r.value.id == 0 && r.value.title == title && r.value.amount == amount
      && r.value.category == category && r.value.date == date && r.value.note == note
    ensures r.Failure? ==> r.error != UnknownType
  {
    NewTransaction(title := title, amount := amount, category := category, kind := Income,
                   date := date, note := note)
  }

  /** `createExpense`: the constructor with type "expense", default id 0. */
  function CreateExpense(title: string, amount: real, category: string, date: Date, note: string := "")
    : (r: Result<Transaction, ValidationError>)
    ensures r.Success? <==> !IsBlank(title) && amount > 0.0 && !IsBlank(category)
    ensures r.Success? ==>
      && IsExpense(r.value) && !IsIncome(r.value)
      && r.value.id == 0 && r.value.title == title && r.value.amount == amount
      && r.value.category == category && r.value.date == date && r.value.note == note
    ensures r.Failure? ==> r.error != UnknownType
  {
    NewTransaction(title := title, amount := amount, category := category, kind := Expense,
                   date := date, note := note)
  }

  /**
   * `getFormattedAmount`: a sign, a dollar sign, then the amount; `magnitude`
   * stands for the `%.2f` rendering of the amount, which is not modelled.
   */
  function FormattedAmount(t: Transaction, magnitude: string): (r: string)
    requires WellFormed(t)
    ensures |r| == |magnitude| + 2 && r[1] == '$' && r[2..] == magnitude
    ensures r[0] == '+' <==> t.kind == Income
    ensures r[0] == '-' <==> t.kind == Expense
  {
    ExactlyOneKind(t);
    (if IsIncome(t) then "+" else "-") + "$" + magnitude
  }

  /** Newest first, the order the store lists transactions in. */
  predicate NewestFirst(s: seq<Transaction>) {
    forall i, j :: 0 <= i < j < |s| ==> s[i].date.millis >= s[j].date.millis
  }

  predicate AllWellFormed(s: seq<Transaction>) {
    forall i :: 0 <= i < |s| ==> WellFormed(s[i])
  }

  /** Kotlin's `filter`, keeping the order of the list. */
  function Filter(s: seq<Transaction>, p: Transaction -> bool): (r: seq<Transaction>)
    ensures |r| <= |s|
    ensures forall t :: t in r ==> t in s && p(t)
    ensures forall t :: t in s && p(t) ==> t in r
  {
    if s == [] then []
    else if p(s[0]) then [s[0]] + Filter(s[1..], p)
    else Filter(s[1..], p)
  }

  /** `sumOf { it.amount }`, 0 on the empty list. */
  function SumAmounts(s: seq<Transaction>): real {
    if s == [] then 0.0 else s[0].amount + SumAmounts(s[1..])
  }

  /** A list of constructed transactions never sums to a negative amount. */
  lemma {:induction false} SumOfWellFormedIsNonNegative(s: seq<Transaction>)
    requires AllWellFormed(s)
    ensures SumAmounts(s) >= 0.0
    ensures s != [] ==> SumAmounts(s) > 0.0
  {
    if s != [] {
      assert WellFormed(s[0]);
      SumOfWellFormedIsNonNegative(s[1..]);
    }
  }

  /** Filtering a list of constructed transactions keeps them constructed. */
  lemma FilterKeepsWellFormed(s: seq<Transaction>, p: Transaction -> bool)
    requires AllWellFormed(s)
    ensures AllWellFormed(Filter(s, p))
  {
    var r := Filter(s, p);
    forall i | 0 <= i < |r| ensures WellFormed(r[i]) {
      assert r[i] in s;
    }
  }
}

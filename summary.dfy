/** The overview figures of `get_summary`: income, spend, their difference
    and the number of expense rows, over the rows a scope admits. */
module Summary {
  import opened Records
  import opened Selection
  import opened TransactionQuery

  datatype SpendSummary = SpendSummary(totalIncome: int, totalSpend: int, netBalance: int, totalTransactions: nat)

  /** `get_summary`: scope the rows, drop transfers, then total the signed
      amount of the income rows and the spend of all other rows. */
  function GetSummary(rows: seq<Txn>, sc: Scope): (r: SpendSummary)
    ensures r.netBalance == r.totalIncome - r.totalSpend
  {
    var df := ApplyStages(rows, ScopeStages(sc));
    var base := Select(df, [CategoryIsNot(Transfer)]);
    var income := Select(base, [CategoryIs(Income)]);
    var expense := Select(base, [CategoryIsNot(Income)]);
    var totalIncome := if |income| > 0 then Sum(income, Signed) else 0;
    var totalSpend := if |expense| > 0 then Sum(expense, Spend) else 0;
    SpendSummary(totalIncome, totalSpend, totalIncome - totalSpend, |expense|)
  }

  /** What one more row adds to a summary: nothing if the scope does not
      admit it or it is a transfer; its signed amount to the income if it is
      income; otherwise its spend to the spend, and one to the count. */
  function Tally(acc: SpendSummary, sc: Scope, t: Txn): SpendSummary {
    if !InScope(sc, t) || t.category == Transfer then acc
    else if t.category == Income then
      acc.(totalIncome := acc.totalIncome + t.amountSigned,
           netBalance := acc.netBalance + t.amountSigned)
    else
      acc.(totalSpend := acc.totalSpend + t.amountSpend,
           netBalance := acc.netBalance - t.amountSpend,
           totalTransactions := acc.totalTransactions + 1)
  }

  /** The masks whose rows the income total and the expense figures are taken over. */
  function IncomeStages(sc: Scope): seq<Stage> {
    ScopeStages(sc) + [CategoryIsNot(Transfer), CategoryIs(Income)]
  }

  function ExpenseStages(sc: Scope): seq<Stage> {
    ScopeStages(sc) + [CategoryIsNot(Transfer), CategoryIsNot(Income)]
  }

  /** The figures of given income and expense rows. */
  function Figures(income: seq<Txn>, expense: seq<Txn>): SpendSummary {
    SpendSummary(Sum(income, Signed), Sum(expense, Spend), Sum(income, Signed) - Sum(expense, Spend), |expense|)
  }

  lemma SummaryAsSelections(rows: seq<Txn>, sc: Scope)
    ensures GetSummary(rows, sc) == Figures(Select(rows, IncomeStages(sc)), Select(rows, ExpenseStages(sc)))
  {
    var gs := ScopeStages(sc);
    ApplyStagesIsSelect(rows, gs);
    SelectSelect(rows, gs, [CategoryIsNot(Transfer)]);
    SelectSelect(rows, gs + [CategoryIsNot(Transfer)], [CategoryIs(Income)]);
    SelectSelect(rows, gs + [CategoryIsNot(Transfer)], [CategoryIsNot(Income)]);
    assert gs + [CategoryIsNot(Transfer)] + [CategoryIs(Income)] == IncomeStages(sc);
    assert gs + [CategoryIsNot(Transfer)] + [CategoryIsNot(Income)] == ExpenseStages(sc);
  }

  lemma IncomeStagesMeaning(sc: Scope, t: Txn)
    ensures AllHold(IncomeStages(sc), t) == (InScope(sc, t) && t.category == Income)
  {
    ScopeStagesMeaning(sc, t);
    AllHoldAppend(ScopeStages(sc), [CategoryIsNot(Transfer), CategoryIs(Income)], t);
    AllHoldTwo(CategoryIsNot(Transfer), CategoryIs(Income), t);
    assert |Income| != |Transfer|;
  }

  lemma ExpenseStagesMeaning(sc: Scope, t: Txn)
    ensures AllHold(ExpenseStages(sc), t) == (InScope(sc, t) && IsExpense(t))
  {
    ScopeStagesMeaning(sc, t);
    AllHoldAppend(ScopeStages(sc), [CategoryIsNot(Transfer), CategoryIsNot(Income)], t);
    AllHoldTwo(CategoryIsNot(Transfer), CategoryIsNot(Income), t);
  }

  /** The summary of no rows is all zeros. */
  lemma SummaryOfNoRows(sc: Scope)
    ensures GetSummary([], sc) == SpendSummary(0, 0, 0, 0)
  {
    SummaryAsSelections([], sc);
  }

  /** The summary of one more row is the old summary with that row tallied:
      together with `SummaryOfNoRows` this fixes every figure as a running
      total over the rows, so transfers and out-of-scope rows count for
      nothing, income counts only in the income and the rest only in the
      spend and the count. */
  /** The tally of one row, stated over the income and expense selections
      before and after the row is added. */
  lemma TallyOfSelections(i0: seq<Txn>, e0: seq<Txn>, i1: seq<Txn>, e1: seq<Txn>, sc: Scope, t: Txn)
    requires i1 == i0 + (if InScope(sc, t) && t.category == Income then [t] else [])
    requires e1 == e0 + (if InScope(sc, t) && IsExpense(t) then [t] else [])
    ensures Tally(Figures(i0, e0), sc, t) == Figures(i1, e1)
  {
    if InScope(sc, t) && t.category == Income {
      assert e1 == e0;
      SumSnoc(i0, t, Signed);
    } else if InScope(sc, t) && IsExpense(t) {
      assert i1 == i0;
      SumSnoc(e0, t, Spend);
    } else {
      assert i1 == i0 && e1 == e0;
    }
  }

  lemma SummaryStep(rows: seq<Txn>, t: Txn, sc: Scope)
    ensures GetSummary(rows + [t], sc) == Tally(GetSummary(rows, sc), sc, t)
  {
    var ig, eg := IncomeStages(sc), ExpenseStages(sc);
    SummaryAsSelections(rows, sc);
    SummaryAsSelections(rows + [t], sc);
    SelectSnoc(rows, t, ig);
    SelectSnoc(rows, t, eg);
    IncomeStagesMeaning(sc, t);
    ExpenseStagesMeaning(sc, t);
    TallyOfSelections(Select(rows, ig), Select(rows, eg), Select(rows + [t], ig), Select(rows + [t], eg), sc, t);
  }

  /** Within the scope, the spend and the row count split into the expense
      figures, the income rows and the transfers: every admitted row counts
      in exactly one of them. */
  lemma SummaryPartition(rows: seq<Txn>, sc: Scope)
    ensures var inScope := Select(rows, ScopeStages(sc));
            var r := GetSummary(rows, sc);
            && Sum(inScope, Spend) == r.totalSpend
                 + Sum(Select(inScope, [CategoryIs(Income)]), Spend)
                 + Sum(Select(inScope, [CategoryIs(Transfer)]), Spend)
            && |inScope| == r.totalTransactions
                 + |Select(inScope, [CategoryIs(Income)])|
                 + |Select(inScope, [CategoryIs(Transfer)])|
  {
    var inScope := Select(rows, ScopeStages(sc));
    var base := Select(inScope, [CategoryIsNot(Transfer)]);
    ApplyStagesIsSelect(rows, ScopeStages(sc));
    SplitByCategory(inScope, Transfer, Spend);
    SplitByCategory(base, Income, Spend);
    SelectSelect(inScope, [CategoryIsNot(Transfer)], [CategoryIs(Income)]);
    forall t ensures AllHold([CategoryIsNot(Transfer)] + [CategoryIs(Income)], t) == AllHold([CategoryIs(Income)], t) {
      AllHoldAppend([CategoryIsNot(Transfer)], [CategoryIs(Income)], t);
    }
    SelectCongruent(inScope, [CategoryIsNot(Transfer)] + [CategoryIs(Income)], [CategoryIs(Income)]);
  }

  /** The listing query that asks for the expenses of a scope. */
  function ExpenseListing(sc: Scope): TxnQuery {
    TxnQuery(sc.startDate, sc.endDate, Some(AllExpenses), None, Some(sc.source), None, None, None)
  }

  /** The summary's spend and expense count are the total spend and the
      count of the transaction listing for "All Expenses" over the same
      dates and source (a source given as the empty string aside: the
      listing ignores it, the summary keeps only rows with that source). */
  lemma SummaryAgreesWithListing(rows: seq<Txn>, sc: Scope)
    requires sc.source != ""
    ensures GetSummary(rows, sc).totalTransactions == GetTransactions(rows, ExpenseListing(sc)).count
    ensures GetSummary(rows, sc).totalSpend == Sum(GetTransactions(rows, ExpenseListing(sc)).transactions, Spend)
  {
    var q := ExpenseListing(sc);
    ApplyStagesIsSelect(rows, QueryStages(q));
    forall t ensures AllHold(QueryStages(q), t) == AllHold(ExpenseStages(sc), t) {
      QueryStagesMeaning(q, t);
      ExpenseStagesMeaning(sc, t);
    }
    SelectCongruent(rows, QueryStages(q), ExpenseStages(sc));
    SummaryAsSelections(rows, sc);
  }

  /** The expense rows of a scope, as the category and daily breakdowns select them. */
  function ScopedExpenses(rows: seq<Txn>, sc: Scope): seq<Txn> {
    Select(Select(rows, ScopeStages(sc)), [Expense])
  }

  /** A row is among the scope's expense rows exactly when it is one of the
      rows, the scope admits it and it is an expense. */
  lemma ExpenseRowMeaning(rows: seq<Txn>, sc: Scope, t: Txn)
    ensures t in ScopedExpenses(rows, sc) <==> t in rows && InScope(sc, t) && IsExpense(t)
  {
    var inScope := Select(rows, ScopeStages(sc));
    SelectMultiplicity(rows, ScopeStages(sc), t);
    SelectMultiplicity(inScope, [Expense], t);
    ScopeStagesMeaning(sc, t);
    AllHoldOne(Expense, t);
  }

  /** The scope's expense rows are the rows the summary takes its spend and
      expense count over. */
  lemma ScopedExpensesAreSummaryExpenses(rows: seq<Txn>, sc: Scope)
    ensures ScopedExpenses(rows, sc) == Select(rows, ExpenseStages(sc))
  {
    SelectSelect(rows, ScopeStages(sc), [Expense]);
    forall t ensures AllHold(ScopeStages(sc) + [Expense], t) == AllHold(ExpenseStages(sc), t) {
      AllHoldAppend(ScopeStages(sc), [Expense], t);
      AllHoldOne(Expense, t);
      ExpenseStagesMeaning(sc, t);
      ScopeStagesMeaning(sc, t);
    }
    SelectCongruent(rows, ScopeStages(sc) + [Expense], ExpenseStages(sc));
  }
}

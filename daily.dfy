/** The daily spend of `get_daily_spend`: the in-scope expense rows grouped
    by calendar day, each day's total spend, earliest day first. */
module DailySpend {
  import opened Records
  import opened Selection
  import opened Summary

  /** One row of `groupby(date).sum()`: a day and its total spend. */
  datatype DayTotal = DayTotal(date: Date, amount: int)

  /** Days strictly increasing, so each day appears once. */
  predicate StrictlyAscending(d: seq<DayTotal>) {
    forall i, j :: 0 <= i < j < |d| ==> DateLt(d[i].date, d[j].date)
  }

  /** The days the totals stand for. */
  function DaysOf(d: seq<DayTotal>): set<Date>
    decreases |d|
  {
    if d == [] then {} else {d[0].date} + DaysOf(d[1..])
  }

  /** The days of the rows `s`. */
  function RowDays(s: seq<Txn>): set<Date>
    decreases |s|
  {
    if s == [] then {} else RowDays(s[..|s| - 1]) + {s[|s| - 1].date}
  }

  /** The total listed for `day`, 0 when the day is not listed. */
  function AmountOn(d: seq<DayTotal>, day: Date): int
    decreases |d|
  {
    if d == [] then 0 else if d[0].date == day then d[0].amount else AmountOn(d[1..], day)
  }

  function DayAmounts(d: seq<DayTotal>): int
    decreases |d|
  {
    if d == [] then 0 else d[0].amount + DayAmounts(d[1..])
  }

  /** Adds row `t` to its day's total, or inserts a total for its day
      where the order of days puts it. */
  function AddToDay(d: seq<DayTotal>, t: Txn): (r: seq<DayTotal>)
    requires StrictlyAscending(d)
    ensures StrictlyAscending(r)
    ensures r != [] && (r[0].date == t.date || (d != [] && r[0].date == d[0].date))
    decreases |d|
  {
    if d == [] then [DayTotal(t.date, t.amountSpend)]
    else if d[0].date == t.date then [d[0].(amount := d[0].amount + t.amountSpend)] + d[1..]
    else if DateLt(t.date, d[0].date) then [DayTotal(t.date, t.amountSpend)] + d
    else [d[0]] + AddToDay(d[1..], t)
  }

  /** A day no total stands for has nothing listed. */
  lemma {:induction false} AmountOnAbsent(d: seq<DayTotal>, day: Date)
    requires forall i :: 0 <= i < |d| ==> d[i].date != day
    ensures AmountOn(d, day) == 0
    decreases |d|
  {
    if d != [] {
      AmountOnAbsent(d[1..], day);
    }
  }

  /** Adding a row adds its spend to its own day and to no other. */
  lemma {:induction false} AddToDayAmountOn(d: seq<DayTotal>, t: Txn, day: Date)
    requires StrictlyAscending(d)
    ensures AmountOn(AddToDay(d, t), day) == AmountOn(d, day) + (if day == t.date then t.amountSpend else 0)
    decreases |d|
  {
    var r := AddToDay(d, t);
    if d == [] {
    } else if d[0].date == t.date {
      assert r[1..] == d[1..];
    } else if DateLt(t.date, d[0].date) {
      assert r[1..] == d;
      if day == t.date {
        AmountOnAbsent(d, day);
      }
    } else {
      assert r[1..] == AddToDay(d[1..], t);
      AddToDayAmountOn(d[1..], t, day);
    }
  }

  /** Adding a row adds its day to the days. */
  lemma {:induction false} AddToDayDays(d: seq<DayTotal>, t: Txn)
    requires StrictlyAscending(d)
    ensures DaysOf(AddToDay(d, t)) == DaysOf(d) + {t.date}
    decreases |d|
  {
    var r := AddToDay(d, t);
    if d == [] {
      assert r[1..] == [];
    } else if d[0].date == t.date {
      assert r[1..] == d[1..];
    } else if DateLt(t.date, d[0].date) {
      assert r[1..] == d;
    } else {
      assert r[1..] == AddToDay(d[1..], t);
      AddToDayDays(d[1..], t);
    }
  }

  /** Adding a row adds its spend to the sum of the totals. */
  lemma {:induction false} AddToDayTotal(d: seq<DayTotal>, t: Txn)
    requires StrictlyAscending(d)
    ensures DayAmounts(AddToDay(d, t)) == DayAmounts(d) + t.amountSpend
    decreases |d|
  {
    var r := AddToDay(d, t);
    if d == [] {
      assert r[1..] == [];
    } else if d[0].date == t.date {
      assert r[1..] == d[1..];
    } else if DateLt(t.date, d[0].date) {
      assert r[1..] == d;
    } else {
      assert r[1..] == AddToDay(d[1..], t);
      AddToDayTotal(d[1..], t);
    }
  }

  /** Each day's listed total is the spend of the rows of `s` on that day. */
  ghost predicate DayTallies(s: seq<Txn>, d: seq<DayTotal>) {
    forall day :: AmountOn(d, day) == Sum(Select(s, [OnDay(day)]), Spend)
  }

  lemma DayTalliesStep(p: seq<Txn>, t: Txn, d: seq<DayTotal>)
    requires StrictlyAscending(d) && DayTallies(p, d)
    ensures DayTallies(p + [t], AddToDay(d, t))
  {
    forall day ensures AmountOn(AddToDay(d, t), day) == Sum(Select(p + [t], [OnDay(day)]), Spend) {
      AddToDayAmountOn(d, t, day);
      SelectSnoc(p, t, [OnDay(day)]);
      AllHoldOne(OnDay(day), t);
      if day == t.date {
        SumSnoc(Select(p, [OnDay(day)]), t, Spend);
      } else {
        assert Select(p + [t], [OnDay(day)]) == Select(p, [OnDay(day)]);
      }
    }
  }

  lemma NoRowsNoDays()
    ensures DayTallies([], [])
  {
    forall day ensures AmountOn([], day) == Sum(Select([], [OnDay(day)]), Spend) {
    }
  }

  /** `groupby(date)["amount_spend"].sum()`: one total per day of the rows,
      earliest first, each the spend of that day's rows, and so together
      the whole spend. */
  function GroupByDay(s: seq<Txn>): (r: seq<DayTotal>)
    ensures StrictlyAscending(r)
    ensures DaysOf(r) == RowDays(s)
    ensures DayTallies(s, r)
    ensures DayAmounts(r) == Sum(s, Spend)
    decreases |s|
  {
    if s == [] then
      NoRowsNoDays();
      []
    else
      var p, t := s[..|s| - 1], s[|s| - 1];
      var g := GroupByDay(p);
      assert s == p + [t];
      DayTalliesStep(p, t, g);
      AddToDayDays(g, t);
      AddToDayTotal(g, t);
      SumSnoc(p, t, Spend);
      AddToDay(g, t)
  }

  /** `get_daily_spend`: the days with expense rows in the scope, earliest first. */
  function GetDailySpend(rows: seq<Txn>, sc: Scope): (r: seq<DayTotal>)
    ensures forall i, j :: 0 <= i < j < |r| ==> DateLt(r[i].date, r[j].date)
  {
    var df := ApplyStages(rows, ScopeStages(sc));
    var expense := Select(df, [Expense]);
    GroupByDay(expense)
  }

  lemma GetDailySpendUnfold(rows: seq<Txn>, sc: Scope)
    ensures GetDailySpend(rows, sc) == GroupByDay(ScopedExpenses(rows, sc))
  {
    ApplyStagesIsSelect(rows, ScopeStages(sc));
  }

  lemma {:induction false} AmountOnEntry(d: seq<DayTotal>, i: nat)
    requires StrictlyAscending(d) && i < |d|
    ensures AmountOn(d, d[i].date) == d[i].amount
    decreases i
  {
    if i > 0 {
      AmountOnEntry(d[1..], i - 1);
    }
  }

  lemma {:induction false} DaysOfHas(d: seq<DayTotal>, i: nat)
    requires i < |d|
    ensures d[i].date in DaysOf(d)
    decreases i
  {
    if i > 0 {
      DaysOfHas(d[1..], i - 1);
    }
  }

  lemma {:induction false} DaysOfWitness(d: seq<DayTotal>, day: Date) returns (i: nat)
    requires day in DaysOf(d)
    ensures i < |d| && d[i].date == day
    decreases |d|
  {
    if d[0].date == day {
      i := 0;
    } else {
      var j := DaysOfWitness(d[1..], day);
      i := j + 1;
    }
  }

  lemma {:induction false} RowDaysHas(s: seq<Txn>, k: nat)
    requires k < |s|
    ensures s[k].date in RowDays(s)
    decreases |s|
  {
    if k < |s| - 1 {
      RowDaysHas(s[..|s| - 1], k);
    }
  }

  lemma {:induction false} RowDaysWitness(s: seq<Txn>, day: Date) returns (k: nat)
    requires day in RowDays(s)
    ensures k < |s| && s[k].date == day
    decreases |s|
  {
    if s[|s| - 1].date == day {
      k := |s| - 1;
    } else {
      k := RowDaysWitness(s[..|s| - 1], day);
    }
  }

  /** The masks of one day's expense rows within a scope. */
  function DayRowStages(sc: Scope, day: Date): seq<Stage> {
    ScopeStages(sc) + [Expense, OnDay(day)]
  }

  lemma ScopedExpensesOnDay(rows: seq<Txn>, sc: Scope, day: Date)
    ensures Select(ScopedExpenses(rows, sc), [OnDay(day)]) == Select(rows, DayRowStages(sc, day))
  {
    SelectSelect(rows, ScopeStages(sc), [Expense]);
    SelectSelect(rows, ScopeStages(sc) + [Expense], [OnDay(day)]);
    assert ScopeStages(sc) + [Expense] + [OnDay(day)] == DayRowStages(sc, day);
  }

  /** Each day's amount is the total spend of the scope's expense rows on that day. */
  lemma DailyAmountsAreTallies(rows: seq<Txn>, sc: Scope)
    ensures var r := GetDailySpend(rows, sc);
            forall i :: 0 <= i < |r| ==> r[i].amount == Sum(Select(rows, DayRowStages(sc, r[i].date)), Spend)
  {
    var r := GetDailySpend(rows, sc);
    GetDailySpendUnfold(rows, sc);
    forall i | 0 <= i < |r| ensures r[i].amount == Sum(Select(rows, DayRowStages(sc, r[i].date)), Spend) {
      AmountOnEntry(r, i);
      ScopedExpensesOnDay(rows, sc, r[i].date);
    }
  }

  /** Every listed day has an expense row of the scope on it. */
  lemma DailyDaysHaveExpenses(rows: seq<Txn>, sc: Scope)
    ensures var r := GetDailySpend(rows, sc);
            forall i :: 0 <= i < |r| ==>
              exists t :: t in rows && InScope(sc, t) && IsExpense(t) && t.date == r[i].date
  {
    var expense := ScopedExpenses(rows, sc);
    var r := GetDailySpend(rows, sc);
    GetDailySpendUnfold(rows, sc);
    forall i | 0 <= i < |r|
      ensures exists t :: t in rows && InScope(sc, t) && IsExpense(t) && t.date == r[i].date
    {
      DaysOfHas(r, i);
      var k := RowDaysWitness(expense, r[i].date);
      ExpenseRowMeaning(rows, sc, expense[k]);
    }
  }

  /** Every day of an expense row of the scope is listed. */
  lemma ExpenseDaysAreListed(rows: seq<Txn>, sc: Scope)
    ensures var r := GetDailySpend(rows, sc);
            forall t :: t in rows && InScope(sc, t) && IsExpense(t) ==>
              exists i :: 0 <= i < |r| && r[i].date == t.date
  {
    var expense := ScopedExpenses(rows, sc);
    var r := GetDailySpend(rows, sc);
    GetDailySpendUnfold(rows, sc);
    forall t | t in rows && InScope(sc, t) && IsExpense(t)
      ensures exists i :: 0 <= i < |r| && r[i].date == t.date
    {
      ExpenseRowMeaning(rows, sc, t);
      var k :| 0 <= k < |expense| && expense[k] == t;
      RowDaysHas(expense, k);
      var i := DaysOfWitness(r, t.date);
    }
  }

  /** The daily amounts add up to the summary's total spend for the same scope. */
  lemma DailyAddsUpToSummary(rows: seq<Txn>, sc: Scope)
    ensures DayAmounts(GetDailySpend(rows, sc)) == GetSummary(rows, sc).totalSpend
  {
    GetDailySpendUnfold(rows, sc);
    ScopedExpensesAreSummaryExpenses(rows, sc);
    SummaryAsSelections(rows, sc);
  }
}

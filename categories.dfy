/** The category breakdown of `get_categories`: the in-scope expense rows
    grouped by category, each group's total spend and row count, largest
    total first, and each group's share of the whole spend in percent. */
module CategoryBreakdown {
  import opened Records
  import opened Selection
  import opened Summary

  /** One group of `groupby("category").agg(total=..., count=...)`. */
  datatype CategoryTotal = CategoryTotal(category: string, amount: int, count: nat)

  /** One entry of the handler's answer. */
  datatype CategoryShare = CategoryShare(category: string, amount: int, percentage: real, count: nat)

  predicate DistinctCategories(g: seq<CategoryTotal>) {
    forall i, j :: 0 <= i < j < |g| ==> g[i].category != g[j].category
  }

  /** The categories the groups stand for. */
  function CategoriesOf(g: seq<CategoryTotal>): set<string>
    decreases |g|
  {
    if g == [] then {} else {g[0].category} + CategoriesOf(g[1..])
  }

  lemma {:induction false} CategoriesOfIndex(g: seq<CategoryTotal>)
    ensures forall c :: c in CategoriesOf(g) <==> exists i :: 0 <= i < |g| && g[i].category == c
    decreases |g|
  {
    if g != [] {
      CategoriesOfIndex(g[1..]);
      assert forall i :: 0 < i < |g| ==> g[i] == g[1..][i - 1];
    }
  }

  /** The categories of the rows `s`. */
  function RowCategories(s: seq<Txn>): set<string>
    decreases |s|
  {
    if s == [] then {} else RowCategories(s[..|s| - 1]) + {s[|s| - 1].category}
  }

  lemma {:induction false} RowCategoriesIndex(s: seq<Txn>)
    ensures forall c :: c in RowCategories(s) <==> exists i :: 0 <= i < |s| && s[i].category == c
    decreases |s|
  {
    if s != [] {
      RowCategoriesIndex(s[..|s| - 1]);
      assert forall i :: 0 <= i < |s| - 1 ==> s[i] == s[..|s| - 1][i];
    }
  }

  function TotalAmount(g: seq<CategoryTotal>): int
    decreases |g|
  {
    if g == [] then 0 else g[0].amount + TotalAmount(g[1..])
  }

  function TotalCount(g: seq<CategoryTotal>): int
    decreases |g|
  {
    if g == [] then 0 else g[0].count + TotalCount(g[1..])
  }

  /** Each group holds the total spend and the number of the rows of `s`
      with its category. */
  ghost predicate Tallies(s: seq<Txn>, g: seq<CategoryTotal>) {
    forall i :: 0 <= i < |g| ==>
      && g[i].amount == Sum(Select(s, [CategoryIs(g[i].category)]), Spend)
      && g[i].count == |Select(s, [CategoryIs(g[i].category)])|
  }

  function Bump(e: CategoryTotal, t: Txn): CategoryTotal {
    e.(amount := e.amount + t.amountSpend, count := e.count + 1)
  }

  /** Adds row `t` to its category's group, or opens a group for it at the end. */
  function AddToCategory(g: seq<CategoryTotal>, t: Txn): (r: seq<CategoryTotal>)
    requires DistinctCategories(g)
    ensures |r| == if t.category in CategoriesOf(g) then |g| else |g| + 1
    ensures forall i :: 0 <= i < |g| ==> r[i] == if g[i].category == t.category then Bump(g[i], t) else g[i]
    ensures t.category !in CategoriesOf(g) ==> r[|g|] == CategoryTotal(t.category, t.amountSpend, 1)
    decreases |g|
  {
    if g == [] then [CategoryTotal(t.category, t.amountSpend, 1)]
    else if g[0].category == t.category then [Bump(g[0], t)] + g[1..]
    else [g[0]] + AddToCategory(g[1..], t)
  }

  /** Adding a row adds its category to the groups' categories. */
  lemma {:induction false} AddToCategoryCategories(g: seq<CategoryTotal>, t: Txn)
    requires DistinctCategories(g)
    ensures CategoriesOf(AddToCategory(g, t)) == CategoriesOf(g) + {t.category}
    decreases |g|
  {
    var r := AddToCategory(g, t);
    if g == [] {
      assert r[1..] == [];
    } else if g[0].category == t.category {
      assert r[1..] == g[1..];
    } else {
      AddToCategoryCategories(g[1..], t);
      assert r[1..] == AddToCategory(g[1..], t);
    }
  }

  /** Adding a row keeps the groups' categories distinct. */
  lemma AddToCategoryDistinct(g: seq<CategoryTotal>, t: Txn)
    requires DistinctCategories(g)
    ensures DistinctCategories(AddToCategory(g, t))
  {
    CategoriesOfIndex(g);
  }

  /** Adding a row adds its spend and one row to the totals. */
  lemma {:induction false} AddToCategoryTotals(g: seq<CategoryTotal>, t: Txn)
    requires DistinctCategories(g)
    ensures TotalAmount(AddToCategory(g, t)) == TotalAmount(g) + t.amountSpend
    ensures TotalCount(AddToCategory(g, t)) == TotalCount(g) + 1
    decreases |g|
  {
    var r := AddToCategory(g, t);
    if g == [] {
      assert r[1..] == [];
    } else if g[0].category == t.category {
      assert r[1..] == g[1..];
    } else {
      AddToCategoryTotals(g[1..], t);
      assert r[1..] == AddToCategory(g[1..], t);
    }
  }

  /** A selection that no row passes is empty. */
  lemma {:induction false} SelectNone(s: seq<Txn>, gs: seq<Stage>)
    requires forall i :: 0 <= i < |s| ==> !AllHold(gs, s[i])
    ensures Select(s, gs) == []
    decreases |s|
  {
    if s != [] {
      SelectNone(s[..|s| - 1], gs);
    }
  }

  lemma TalliesStep(p: seq<Txn>, t: Txn, g: seq<CategoryTotal>)
    requires DistinctCategories(g) && CategoriesOf(g) == RowCategories(p) && Tallies(p, g)
    ensures Tallies(p + [t], AddToCategory(g, t))
  {
    var r := AddToCategory(g, t);
    forall i | 0 <= i < |r|
      ensures r[i].amount == Sum(Select(p + [t], [CategoryIs(r[i].category)]), Spend)
      ensures r[i].count == |Select(p + [t], [CategoryIs(r[i].category)])|
    {
      var c := r[i].category;
      SelectSnoc(p, t, [CategoryIs(c)]);
      AllHoldOne(CategoryIs(c), t);
      if i < |g| {
        if g[i].category == t.category {
          SumSnoc(Select(p, [CategoryIs(c)]), t, Spend);
        } else {
          assert Select(p + [t], [CategoryIs(c)]) == Select(p, [CategoryIs(c)]);
        }
      } else {
        RowCategoriesIndex(p);
        forall k | 0 <= k < |p| ensures !AllHold([CategoryIs(c)], p[k]) {
          AllHoldOne(CategoryIs(c), p[k]);
        }
        SelectNone(p, [CategoryIs(c)]);
        assert Select(p + [t], [CategoryIs(c)]) == [t];
        SumSnoc([], t, Spend);
      }
    }
  }

  /** `groupby("category")` with the sum and the count of `amount_spend`:
      one group per category of the rows, each holding the total spend and
      the number of that category's rows, and so together the whole spend
      and every row. */
  function GroupByCategory(s: seq<Txn>): (r: seq<CategoryTotal>)
    ensures DistinctCategories(r)
    ensures CategoriesOf(r) == RowCategories(s)
    ensures Tallies(s, r)
    ensures TotalAmount(r) == Sum(s, Spend)
    ensures TotalCount(r) == |s|
    decreases |s|
  {
    if s == [] then []
    else
      var p, t := s[..|s| - 1], s[|s| - 1];
      var g := GroupByCategory(p);
      assert s == p + [t];
      TalliesStep(p, t, g);
      AddToCategoryCategories(g, t);
      AddToCategoryDistinct(g, t);
      AddToCategoryTotals(g, t);
      SumSnoc(p, t, Spend);
      AddToCategory(g, t)
  }

  predicate ByAmountDescending(g: seq<CategoryTotal>) {
    forall i, j :: 0 <= i < j < |g| ==> g[i].amount >= g[j].amount
  }

  /** Puts `e` before the first group whose total is not larger. */
  function InsertByAmount(e: CategoryTotal, g: seq<CategoryTotal>): (r: seq<CategoryTotal>)
    ensures |r| == |g| + 1
    ensures r[0] == e || (g != [] && r[0] == g[0])
    ensures multiset(r) == multiset(g) + multiset{e}
    ensures ByAmountDescending(g) ==> ByAmountDescending(r)
    decreases |g|
  {
    if g == [] || e.amount >= g[0].amount then
      ByAmountCons(e, g);
      [e] + g
    else
      assert g == [g[0]] + g[1..];
      var rest := InsertByAmount(e, g[1..]);
      ByAmountCons(g[0], rest);
      [g[0]] + rest
  }

  /** A group whose total is no smaller than the first of groups in
      descending order can go in front of them. */
  lemma ByAmountCons(e: CategoryTotal, g: seq<CategoryTotal>)
    ensures ByAmountDescending(g) && (g != [] ==> e.amount >= g[0].amount) ==> ByAmountDescending([e] + g)
  {
    if ByAmountDescending(g) && (g != [] ==> e.amount >= g[0].amount) {
      var r := [e] + g;
      forall i, j | 0 <= i < j < |r| ensures r[i].amount >= r[j].amount {
        if i == 0 {
          assert r[j] == g[j - 1];
        } else {
          assert r[j] == g[j - 1] && r[i] == g[i - 1];
        }
      }
    }
  }

  /** Inserting a group adds its category. */
  lemma {:induction false} InsertByAmountCategories(e: CategoryTotal, g: seq<CategoryTotal>)
    ensures CategoriesOf(InsertByAmount(e, g)) == CategoriesOf(g) + {e.category}
    decreases |g|
  {
    var r := InsertByAmount(e, g);
    if g == [] || e.amount >= g[0].amount {
      assert r[1..] == g;
    } else {
      InsertByAmountCategories(e, g[1..]);
      assert r[1..] == InsertByAmount(e, g[1..]);
    }
  }

  /** Inserting a group with a new category keeps the categories distinct. */
  lemma {:induction false} InsertByAmountDistinct(e: CategoryTotal, g: seq<CategoryTotal>)
    requires DistinctCategories(g) && e.category !in CategoriesOf(g)
    ensures DistinctCategories(InsertByAmount(e, g))
    decreases |g|
  {
    var r := InsertByAmount(e, g);
    CategoriesOfIndex(g);
    if g == [] || e.amount >= g[0].amount {
      assert r[1..] == g;
    } else {
      var rest := InsertByAmount(e, g[1..]);
      CategoriesOfIndex(g[1..]);
      InsertByAmountDistinct(e, g[1..]);
      InsertByAmountCategories(e, g[1..]);
      CategoriesOfIndex(rest);
      assert r[1..] == rest;
    }
  }

  /** Inserting a group adds its totals. */
  lemma {:induction false} InsertByAmountTotals(e: CategoryTotal, g: seq<CategoryTotal>)
    ensures TotalAmount(InsertByAmount(e, g)) == e.amount + TotalAmount(g)
    ensures TotalCount(InsertByAmount(e, g)) == e.count + TotalCount(g)
    decreases |g|
  {
    var r := InsertByAmount(e, g);
    if g == [] || e.amount >= g[0].amount {
      assert r[1..] == g;
    } else {
      InsertByAmountTotals(e, g[1..]);
      assert r[1..] == InsertByAmount(e, g[1..]);
    }
  }

  /** `sort_values("total", ascending=False)`: the same groups, largest total
      first (the order among equal totals is not promised). */
  function SortByAmount(g: seq<CategoryTotal>): (r: seq<CategoryTotal>)
    ensures multiset(r) == multiset(g)
    ensures ByAmountDescending(r)
    decreases |g|
  {
    if g == [] then []
    else
      assert g == [g[0]] + g[1..];
      InsertByAmount(g[0], SortByAmount(g[1..]))
  }

  /** Sorting keeps the categories. */
  lemma {:induction false} SortByAmountCategories(g: seq<CategoryTotal>)
    ensures CategoriesOf(SortByAmount(g)) == CategoriesOf(g)
    decreases |g|
  {
    if g != [] {
      SortByAmountCategories(g[1..]);
      InsertByAmountCategories(g[0], SortByAmount(g[1..]));
    }
  }

  /** Sorting keeps the categories distinct. */
  lemma {:induction false} SortByAmountDistinct(g: seq<CategoryTotal>)
    requires DistinctCategories(g)
    ensures DistinctCategories(SortByAmount(g))
    decreases |g|
  {
    if g != [] {
      SortByAmountDistinct(g[1..]);
      SortByAmountCategories(g[1..]);
      CategoriesOfIndex(g[1..]);
      InsertByAmountDistinct(g[0], SortByAmount(g[1..]));
    }
  }

  /** Sorting keeps the totals. */
  lemma {:induction false} SortByAmountTotals(g: seq<CategoryTotal>)
    ensures TotalAmount(SortByAmount(g)) == TotalAmount(g)
    ensures TotalCount(SortByAmount(g)) == TotalCount(g)
    decreases |g|
  {
    if g != [] {
      SortByAmountTotals(g[1..]);
      InsertByAmountTotals(g[0], SortByAmount(g[1..]));
    }
  }

  /** `100 * amt / total_spend if total_spend > 0 else 0`, exactly. */
  function Percentage(amount: int, total: int): (r: real)
    ensures total > 0 ==> r * total as real == 100.0 * amount as real
    ensures total <= 0 ==> r == 0.0
  {
    if total > 0 then 100.0 * amount as real / total as real else 0.0
  }

  /** The handler's entries for the sorted groups. */
  function Shares(g: seq<CategoryTotal>, total: int): (r: seq<CategoryShare>)
    ensures |r| == |g|
    ensures forall i :: 0 <= i < |g| ==>
      r[i] == CategoryShare(g[i].category, g[i].amount, Percentage(g[i].amount, total), g[i].count)
    decreases |g|
  {
    if g == [] then []
    else [CategoryShare(g[0].category, g[0].amount, Percentage(g[0].amount, total), g[0].count)]
         + Shares(g[1..], total)
  }

  /** The masks of one category's rows within a scope. */
  function CategoryRowStages(sc: Scope, c: string): seq<Stage> {
    ScopeStages(sc) + [Expense, CategoryIs(c)]
  }

  /** The entries for the rows `e`, percentages taken of `total`. */
  function Breakdown(e: seq<Txn>, total: int): seq<CategoryShare> {
    Shares(SortByAmount(GroupByCategory(e)), total)
  }

  /** `get_categories`: one entry per expense category of the scope, no
      category twice, the largest total first. */
  function GetCategories(rows: seq<Txn>, sc: Scope): (r: seq<CategoryShare>)
    ensures forall i, j :: 0 <= i < j < |r| ==> r[i].amount >= r[j].amount
    ensures forall i, j :: 0 <= i < j < |r| ==> r[i].category != r[j].category
  {
    var df := ApplyStages(rows, ScopeStages(sc));
    var expense := Select(df, [Expense]);
    SortByAmountDistinct(GroupByCategory(expense));
    var total := if |expense| > 0 then Sum(expense, Spend) else 1;
    Breakdown(expense, total)
  }

  lemma GetCategoriesUnfold(rows: seq<Txn>, sc: Scope)
    ensures var expense := ScopedExpenses(rows, sc);
            GetCategories(rows, sc) == Breakdown(expense, if |expense| > 0 then Sum(expense, Spend) else 1)
  {
    ApplyStagesIsSelect(rows, ScopeStages(sc));
  }

  lemma ScopedExpensesOfCategory(rows: seq<Txn>, sc: Scope, c: string)
    ensures Select(ScopedExpenses(rows, sc), [CategoryIs(c)]) == Select(rows, CategoryRowStages(sc, c))
  {
    SelectSelect(rows, ScopeStages(sc), [Expense]);
    SelectSelect(rows, ScopeStages(sc) + [Expense], [CategoryIs(c)]);
    assert ScopeStages(sc) + [Expense] + [CategoryIs(c)] == CategoryRowStages(sc, c);
  }

  lemma {:induction false} CategoriesOfHas(g: seq<CategoryTotal>, i: nat)
    requires i < |g|
    ensures g[i].category in CategoriesOf(g)
    decreases i
  {
    if i > 0 {
      CategoriesOfHas(g[1..], i - 1);
    }
  }

  lemma {:induction false} CategoriesOfWitness(g: seq<CategoryTotal>, c: string) returns (i: nat)
    requires c in CategoriesOf(g)
    ensures i < |g| && g[i].category == c
    decreases |g|
  {
    if g[0].category == c {
      i := 0;
    } else {
      var j := CategoriesOfWitness(g[1..], c);
      i := j + 1;
    }
  }

  lemma {:induction false} RowCategoriesHas(s: seq<Txn>, k: nat)
    requires k < |s|
    ensures s[k].category in RowCategories(s)
    decreases |s|
  {
    if k < |s| - 1 {
      RowCategoriesHas(s[..|s| - 1], k);
    }
  }

  lemma {:induction false} RowCategoriesWitness(s: seq<Txn>, c: string) returns (k: nat)
    requires c in RowCategories(s)
    ensures k < |s| && s[k].category == c
    decreases |s|
  {
    if s[|s| - 1].category == c {
      k := |s| - 1;
    } else {
      k := RowCategoriesWitness(s[..|s| - 1], c);
    }
  }

  /** Every entry made from rows `e` names a category of `e`. */
  lemma BreakdownNamesRowCategories(e: seq<Txn>, total: int)
    ensures forall i :: 0 <= i < |Breakdown(e, total)| ==>
              exists k :: 0 <= k < |e| && e[k].category == Breakdown(e, total)[i].category
  {
    var groups := SortByAmount(GroupByCategory(e));
    var r := Breakdown(e, total);
    SortByAmountCategories(GroupByCategory(e));
    forall i | 0 <= i < |r| ensures exists k :: 0 <= k < |e| && e[k].category == r[i].category {
      CategoriesOfHas(groups, i);
      var k := RowCategoriesWitness(e, groups[i].category);
    }
  }

  /** Every category of the rows `e` has an entry made from them. */
  lemma BreakdownCoversRowCategories(e: seq<Txn>, total: int)
    ensures forall k :: 0 <= k < |e| ==>
              exists i :: 0 <= i < |Breakdown(e, total)| && Breakdown(e, total)[i].category == e[k].category
  {
    var groups := SortByAmount(GroupByCategory(e));
    var r := Breakdown(e, total);
    SortByAmountCategories(GroupByCategory(e));
    forall k | 0 <= k < |e| ensures exists i :: 0 <= i < |r| && r[i].category == e[k].category {
      RowCategoriesHas(e, k);
      var i := CategoriesOfWitness(groups, e[k].category);
      assert r[i].category == e[k].category;
    }
  }

  /** A category of the scope's expense rows is the category of some row
      the scope admits that is an expense. */
  lemma ExpenseCategoryWitness(rows: seq<Txn>, sc: Scope, c: string)
    requires exists k :: 0 <= k < |ScopedExpenses(rows, sc)| && ScopedExpenses(rows, sc)[k].category == c
    ensures exists t :: t in rows && InScope(sc, t) && IsExpense(t) && t.category == c
  {
    var expense := ScopedExpenses(rows, sc);
    var k :| 0 <= k < |expense| && expense[k].category == c;
    var t := expense[k];
    ExpenseRowMeaning(rows, sc, t);
  }

  /** Every entry of the breakdown names the category of one of the scope's
      expense rows: income and transfers never have an entry. */
  lemma CategoriesAreExpenseCategories(rows: seq<Txn>, sc: Scope)
    ensures var r := GetCategories(rows, sc);
            forall i :: 0 <= i < |r| ==>
              exists t :: t in rows && InScope(sc, t) && IsExpense(t) && t.category == r[i].category
  {
    var expense := ScopedExpenses(rows, sc);
    var total := if |expense| > 0 then Sum(expense, Spend) else 1;
    var r := GetCategories(rows, sc);
    GetCategoriesUnfold(rows, sc);
    assert r == Breakdown(expense, total);
    BreakdownNamesRowCategories(expense, total);
    forall i | 0 <= i < |r|
      ensures exists t :: t in rows && InScope(sc, t) && IsExpense(t) && t.category == r[i].category
    {
      var c := r[i].category;
      assert c == Breakdown(expense, total)[i].category;
      assert exists k :: 0 <= k < |expense| && expense[k].category == c;
      ExpenseCategoryWitness(rows, sc, c);
    }
  }

  /** Every category of the scope's expense rows has an entry. */
  lemma ExpenseCategoriesHaveEntries(rows: seq<Txn>, sc: Scope)
    ensures var r := GetCategories(rows, sc);
            forall t :: t in rows && InScope(sc, t) && IsExpense(t) ==>
              exists i :: 0 <= i < |r| && r[i].category == t.category
  {
    var expense := ScopedExpenses(rows, sc);
    var r := GetCategories(rows, sc);
    GetCategoriesUnfold(rows, sc);
    BreakdownCoversRowCategories(expense, if |expense| > 0 then Sum(expense, Spend) else 1);
    forall t | t in rows && InScope(sc, t) && IsExpense(t)
      ensures exists i :: 0 <= i < |r| && r[i].category == t.category
    {
      ExpenseRowMeaning(rows, sc, t);
      var k :| 0 <= k < |expense| && expense[k] == t;
    }
  }

  /** Each entry made from rows `e` holds the total spend and the number of
      the rows of `e` with its category. */
  lemma BreakdownTallies(e: seq<Txn>, total: int)
    ensures forall i :: 0 <= i < |Breakdown(e, total)| ==>
              && Breakdown(e, total)[i].amount == Sum(Select(e, [CategoryIs(Breakdown(e, total)[i].category)]), Spend)
              && Breakdown(e, total)[i].count == |Select(e, [CategoryIs(Breakdown(e, total)[i].category)])|
  {
    var g0 := GroupByCategory(e);
    var groups := SortByAmount(g0);
    var r := Breakdown(e, total);
    forall i | 0 <= i < |r|
      ensures r[i].amount == Sum(Select(e, [CategoryIs(r[i].category)]), Spend)
      ensures r[i].count == |Select(e, [CategoryIs(r[i].category)])|
    {
      assert groups[i] in multiset(g0);
      var k :| 0 <= k < |g0| && g0[k] == groups[i];
    }
  }

  /** Each entry's amount and count are the total spend and the number of
      the scope's expense rows of its category. */
  lemma CategoryTotalsAreTallies(rows: seq<Txn>, sc: Scope)
    ensures var r := GetCategories(rows, sc);
            forall i :: 0 <= i < |r| ==>
              && r[i].amount == Sum(Select(rows, CategoryRowStages(sc, r[i].category)), Spend)
              && r[i].count == |Select(rows, CategoryRowStages(sc, r[i].category))|
  {
    var expense := ScopedExpenses(rows, sc);
    var r := GetCategories(rows, sc);
    GetCategoriesUnfold(rows, sc);
    BreakdownTallies(expense, if |expense| > 0 then Sum(expense, Spend) else 1);
    forall i | 0 <= i < |r|
      ensures r[i].amount == Sum(Select(rows, CategoryRowStages(sc, r[i].category)), Spend)
      ensures r[i].count == |Select(rows, CategoryRowStages(sc, r[i].category))|
    {
      ScopedExpensesOfCategory(rows, sc, r[i].category);
    }
  }

  function ShareAmounts(r: seq<CategoryShare>): int
    decreases |r|
  {
    if r == [] then 0 else r[0].amount + ShareAmounts(r[1..])
  }

  function ShareCounts(r: seq<CategoryShare>): int
    decreases |r|
  {
    if r == [] then 0 else r[0].count + ShareCounts(r[1..])
  }

  function SharePercentages(r: seq<CategoryShare>): real
    decreases |r|
  {
    if r == [] then 0.0 else r[0].percentage + SharePercentages(r[1..])
  }

  lemma {:induction false} SharesTotals(g: seq<CategoryTotal>, total: int)
    ensures ShareAmounts(Shares(g, total)) == TotalAmount(g)
    ensures ShareCounts(Shares(g, total)) == TotalCount(g)
    ensures SharePercentages(Shares(g, total)) == Percentage(TotalAmount(g), total)
    decreases |g|
  {
    if g != [] {
      var r := Shares(g, total);
      assert r[1..] == Shares(g[1..], total);
      SharesTotals(g[1..], total);
      if total > 0 {
        SplitFraction(g[0].amount as real, TotalAmount(g[1..]) as real, total as real);
      }
    }
  }

  lemma PercentageOfWhole(x: int)
    requires x > 0
    ensures Percentage(x, x) == 100.0
  {
  }

  lemma SplitFraction(a: real, b: real, d: real)
    requires d > 0.0
    ensures 100.0 * a / d + 100.0 * b / d == 100.0 * (a + b) / d
  {
  }

  /** The entries made from rows `e` add up to the spend and the number of `e`. */
  lemma SharesAddUp(e: seq<Txn>, total: int)
    ensures ShareAmounts(Breakdown(e, total)) == Sum(e, Spend)
    ensures ShareCounts(Breakdown(e, total)) == |e|
    ensures SharePercentages(Breakdown(e, total)) == Percentage(Sum(e, Spend), total)
    ensures e == [] ==> Breakdown(e, total) == []
  {
    SortByAmountTotals(GroupByCategory(e));
    SharesTotals(SortByAmount(GroupByCategory(e)), total);
  }

  /** The breakdown adds up to the summary of the same scope: its amounts
      to the total spend, its counts to the number of expense rows, and,
      when there is spend, its percentages to 100. */
  lemma CategoriesAddUpToSummary(rows: seq<Txn>, sc: Scope)
    ensures var r := GetCategories(rows, sc);
            var s := GetSummary(rows, sc);
            && ShareAmounts(r) == s.totalSpend
            && ShareCounts(r) == s.totalTransactions
            && (s.totalSpend > 0 ==> SharePercentages(r) == 100.0)
            && (forall i :: 0 <= i < |r| ==> r[i].percentage == Percentage(r[i].amount, s.totalSpend))
  {
    var expense := ScopedExpenses(rows, sc);
    var total := if |expense| > 0 then Sum(expense, Spend) else 1;
    GetCategoriesUnfold(rows, sc);
    ScopedExpensesAreSummaryExpenses(rows, sc);
    SummaryAsSelections(rows, sc);
    SharesAddUp(expense, total);
    if GetSummary(rows, sc).totalSpend > 0 {
      PercentageOfWhole(total);
    }
  }
}

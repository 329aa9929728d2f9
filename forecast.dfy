/** The rows `get_forecast` hands to the forecasting functions: transfers
    dropped first, then, when any are given, the rows of the excluded
    year-months and the rows of the excluded categories. The forecasts
    themselves are computed by functions outside this model. */
module ForecastInput {
  import opened Records
  import opened Selection

  /** The masks the handler applies, in its order; an empty exclusion list
      adds no mask. */
  function ForecastStages(excludeMonths: seq<string>, excludeCategories: seq<string>): seq<Stage> {
    [CategoryIsNot(Transfer)]
    + (if |excludeMonths| > 0 then [MonthNotIn(excludeMonths)] else [])
    + (if |excludeCategories| > 0 then [CategoryNotIn(excludeCategories)] else [])
  }

  /** A row forecasting is given: not a transfer, its year-month not
      excluded and its category not excluded. Income rows are not dropped. */
  predicate KeptForForecast(excludeMonths: seq<string>, excludeCategories: seq<string>, t: Txn) {
    && t.category != Transfer
    && YearMonthText(t.date) !in excludeMonths
    && t.category !in excludeCategories
  }

  lemma ForecastStagesMeaning(excludeMonths: seq<string>, excludeCategories: seq<string>, t: Txn)
    ensures AllHold(ForecastStages(excludeMonths, excludeCategories), t) == KeptForForecast(excludeMonths, excludeCategories, t)
  {
    var a := [CategoryIsNot(Transfer)];
    var b := if |excludeMonths| > 0 then [MonthNotIn(excludeMonths)] else [];
    var c := if |excludeCategories| > 0 then [CategoryNotIn(excludeCategories)] else [];
    AllHoldOne(CategoryIsNot(Transfer), t);
    if b != [] { AllHoldOne(b[0], t); }
    if c != [] { AllHoldOne(c[0], t); }
    AllHoldAppend(a, b, t);
    AllHoldAppend(a + b, c, t);
  }

  /** The pre-filtered rows: exactly the kept rows, in their original order,
      each as often as it occurs. */
  function ForecastRows(rows: seq<Txn>, excludeMonths: seq<string>, excludeCategories: seq<string>): (r: seq<Txn>)
    ensures IsSubsequence(r, rows)
    ensures forall i :: 0 <= i < |r| ==> KeptForForecast(excludeMonths, excludeCategories, r[i])
    ensures forall t :: multiset(r)[t] == if KeptForForecast(excludeMonths, excludeCategories, t) then multiset(rows)[t] else 0
  {
    var gs := ForecastStages(excludeMonths, excludeCategories);
    var df := ApplyStages(rows, gs);
    ApplyStagesIsSelect(rows, gs);
    SelectIsSubsequence(rows, gs);
    assert forall t :: multiset(df)[t] == if KeptForForecast(excludeMonths, excludeCategories, t) then multiset(rows)[t] else 0 by {
      forall t ensures multiset(df)[t] == if KeptForForecast(excludeMonths, excludeCategories, t) then multiset(rows)[t] else 0 {
        SelectMultiplicity(rows, gs, t);
        ForecastStagesMeaning(excludeMonths, excludeCategories, t);
      }
    }
    assert forall i :: 0 <= i < |df| ==> KeptForForecast(excludeMonths, excludeCategories, df[i]) by {
      forall i | 0 <= i < |df| ensures KeptForForecast(excludeMonths, excludeCategories, df[i]) {
        ForecastStagesMeaning(excludeMonths, excludeCategories, df[i]);
      }
    }
    df
  }

  lemma ForecastRowsAsSelection(rows: seq<Txn>, excludeMonths: seq<string>, excludeCategories: seq<string>)
    ensures ForecastRows(rows, excludeMonths, excludeCategories) == Select(rows, ForecastStages(excludeMonths, excludeCategories))
  {
    ApplyStagesIsSelect(rows, ForecastStages(excludeMonths, excludeCategories));
  }

  /** Excluding a month by its "YYYY-MM" text drops every row of that
      calendar month, whatever its day. */
  lemma ExcludedMonthIsDropped(rows: seq<Txn>, excludeMonths: seq<string>, excludeCategories: seq<string>, d: Date)
    requires YearMonthText(d) in excludeMonths
    ensures forall t :: t in ForecastRows(rows, excludeMonths, excludeCategories) ==>
              t.date.year != d.year || t.date.month != d.month
  {
    var r := ForecastRows(rows, excludeMonths, excludeCategories);
    forall t | t in r ensures t.date.year != d.year || t.date.month != d.month {
      assert multiset(r)[t] > 0;
      YearMonthTextSameMonth(t.date, d);
    }
  }

  /** A row of a month that is not excluded, of a category that is neither
      excluded nor a transfer, reaches the forecast. */
  lemma OtherRowsAreKept(rows: seq<Txn>, excludeMonths: seq<string>, excludeCategories: seq<string>, t: Txn)
    requires t in rows && t.category != Transfer && t.category !in excludeCategories
    requires forall m :: m in excludeMonths ==> m != YearMonthText(t.date)
    ensures t in ForecastRows(rows, excludeMonths, excludeCategories)
  {
    var r := ForecastRows(rows, excludeMonths, excludeCategories);
    assert multiset(r)[t] == multiset(rows)[t];
  }

  /** Only which months and categories are excluded matters, not their
      order or repetition in the request. */
  lemma ExclusionsActAsSets(rows: seq<Txn>, months: seq<string>, categories: seq<string>,
                            months': seq<string>, categories': seq<string>)
    requires forall m :: m in months <==> m in months'
    requires forall c :: c in categories <==> c in categories'
    ensures ForecastRows(rows, months, categories) == ForecastRows(rows, months', categories')
  {
    ForecastRowsAsSelection(rows, months, categories);
    ForecastRowsAsSelection(rows, months', categories');
    forall t ensures AllHold(ForecastStages(months, categories), t) == AllHold(ForecastStages(months', categories'), t) {
      ForecastStagesMeaning(months, categories, t);
      ForecastStagesMeaning(months', categories', t);
    }
    SelectCongruent(rows, ForecastStages(months, categories), ForecastStages(months', categories'));
  }

  /** Pre-filtering rows that are already pre-filtered changes nothing. */
  lemma ForecastRowsIdempotent(rows: seq<Txn>, excludeMonths: seq<string>, excludeCategories: seq<string>)
    ensures ForecastRows(ForecastRows(rows, excludeMonths, excludeCategories), excludeMonths, excludeCategories)
            == ForecastRows(rows, excludeMonths, excludeCategories)
  {
    var gs := ForecastStages(excludeMonths, excludeCategories);
    ForecastRowsAsSelection(rows, excludeMonths, excludeCategories);
    ForecastRowsAsSelection(Select(rows, gs), excludeMonths, excludeCategories);
    SelectSelect(rows, gs, gs);
    forall t ensures AllHold(gs + gs, t) == AllHold(gs, t) {
      AllHoldAppend(gs, gs, t);
    }
    SelectCongruent(rows, gs + gs, gs);
  }
}

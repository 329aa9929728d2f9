/** The row selections every handler is built from. Each pandas boolean
    mask the handlers apply (`df = df[df["category"] != "EXCLUDE"]` and the
    like) is a `Stage`; `Select` keeps the rows that pass a list of stages,
    in their original order, and `ApplyStages` applies the masks one after
    another, as the handlers reassign `df`. Totals over a selection are
    `Sum`s of one amount column. */
module Selection {
  import opened Text
  import opened Records

  /** One boolean mask over the rows. */
  datatype Stage =
    | CategoryIs(category: string)
    | CategoryIsNot(category: string)
    | CategoryNotIn(categories: seq<string>)
    | Expense
    | OnOrAfter(date: Date)
    | OnOrBefore(date: Date)
    | OnDay(date: Date)
    | MonthNotIn(months: seq<string>)
    | MerchantIs(name: string)
    | MerchantContains(needle: string)
    | SourceIs(source: string)
    | SpendAtLeast(amount: int)
    | SpendAtMost(amount: int)

  /** Whether row `t` passes the mask `g`. A missing merchant passes no
      merchant mask (pandas compares a missing value false, and
      `str.contains(..., na=False)` maps it to false). */
  predicate Holds(g: Stage, t: Txn) {
    match g
    case CategoryIs(c) => t.category == c
    case CategoryIsNot(c) => t.category != c
    case CategoryNotIn(cs) => t.category !in cs
    case Expense => IsExpense(t)
    case OnOrAfter(d) => DateLe(d, t.date)
    case OnOrBefore(d) => DateLe(t.date, d)
    case OnDay(d) => t.date == d
    case MonthNotIn(ms) => YearMonthText(t.date) !in ms
    case MerchantIs(m) => t.merchant == Some(m)
    case MerchantContains(needle) => t.merchant.Some? && Contains(Lower(t.merchant.value), needle)
    case SourceIs(s) => t.source == s
    case SpendAtLeast(a) => t.amountSpend >= a
    case SpendAtMost(a) => t.amountSpend <= a
  }

  /** Row `t` passes every mask in `gs`. */
  predicate AllHold(gs: seq<Stage>, t: Txn)
    decreases |gs|
  {
    gs == [] || (Holds(gs[0], t) && AllHold(gs[1..], t))
  }

  /** `df[mask]` for the conjunction of the masks `gs`: the rows that pass
      all of them, in their original order, each as often as it occurs. */
  function Select(s: seq<Txn>, gs: seq<Stage>): (r: seq<Txn>)
    ensures |r| <= |s|
    ensures forall i :: 0 <= i < |r| ==> AllHold(gs, r[i])
    decreases |s|
  {
    if s == [] then []
    else Select(s[..|s| - 1], gs) + (if AllHold(gs, s[|s| - 1]) then [s[|s| - 1]] else [])
  }

  /** A selection holds each row that passes the masks exactly as often as
      the input does, and no other row. */
  lemma {:induction false} SelectMultiplicity(s: seq<Txn>, gs: seq<Stage>, t: Txn)
    ensures multiset(Select(s, gs))[t] == if AllHold(gs, t) then multiset(s)[t] else 0
    decreases |s|
  {
    if s != [] {
      var p, last := s[..|s| - 1], s[|s| - 1];
      assert s == p + [last];
      SelectMultiplicity(p, gs, t);
    }
  }

  /** No masks select every row. */
  lemma {:induction false} SelectNoStages(s: seq<Txn>)
    ensures Select(s, []) == s
    decreases |s|
  {
    if s != [] {
      SelectNoStages(s[..|s| - 1]);
      assert s == s[..|s| - 1] + [s[|s| - 1]];
    }
  }

  /** The masks applied in turn, each to the result of the one before. */
  function ApplyStages(s: seq<Txn>, gs: seq<Stage>): seq<Txn>
    decreases |gs|
  {
    if gs == [] then s else ApplyStages(Select(s, [gs[0]]), gs[1..])
  }

  /** `idx` lists, in increasing order, positions of `b` that spell out `a`. */
  ghost predicate Embeds<T>(idx: seq<nat>, a: seq<T>, b: seq<T>) {
    && |idx| == |a|
    && (forall i :: 0 <= i < |idx| ==> idx[i] < |b| && a[i] == b[idx[i]])
    && (forall i, j :: 0 <= i < j < |idx| ==> idx[i] < idx[j])
  }

  /** `a` is `b` with some elements left out and the rest in their order. */
  ghost predicate IsSubsequence<T>(a: seq<T>, b: seq<T>) {
    exists idx :: Embeds(idx, a, b)
  }

  /** The positions of `s` that `Select` keeps. */
  ghost function SelectedPositions(s: seq<Txn>, gs: seq<Stage>): seq<nat>
    decreases |s|
  {
    if s == [] then []
    else SelectedPositions(s[..|s| - 1], gs) + (if AllHold(gs, s[|s| - 1]) then [|s| - 1] else [])
  }

  lemma {:induction false} SelectEmbeds(s: seq<Txn>, gs: seq<Stage>)
    ensures Embeds(SelectedPositions(s, gs), Select(s, gs), s)
    decreases |s|
  {
    if s != [] {
      var p := s[..|s| - 1];
      SelectEmbeds(p, gs);
      var ip, rp := SelectedPositions(p, gs), Select(p, gs);
      assert forall i :: 0 <= i < |ip| ==> ip[i] < |p| && rp[i] == s[ip[i]];
    }
  }

  /** A selection keeps the relative order of the rows it keeps. */
  lemma SelectIsSubsequence(s: seq<Txn>, gs: seq<Stage>)
    ensures IsSubsequence(Select(s, gs), s)
  {
    SelectEmbeds(s, gs);
  }

  /** Selecting from a list with one more row at its end. */
  lemma SelectSnoc(s: seq<Txn>, t: Txn, gs: seq<Stage>)
    ensures Select(s + [t], gs) == Select(s, gs) + (if AllHold(gs, t) then [t] else [])
  {
    assert (s + [t])[..|s + [t]| - 1] == s;
  }

  lemma {:induction false} AllHoldAppend(a: seq<Stage>, b: seq<Stage>, t: Txn)
    ensures AllHold(a + b, t) == (AllHold(a, t) && AllHold(b, t))
    decreases |a|
  {
    if a != [] {
      assert (a + b)[1..] == a[1..] + b;
      AllHoldAppend(a[1..], b, t);
    } else {
      assert a + b == b;
    }
  }

  lemma AllHoldOne(g: Stage, t: Txn)
    ensures AllHold([g], t) == Holds(g, t)
  {
    assert [g][1..] == [];
  }

  lemma AllHoldTwo(g: Stage, h: Stage, t: Txn)
    ensures AllHold([g, h], t) == (Holds(g, t) && Holds(h, t))
  {
    assert [g, h][1..] == [h];
    AllHoldOne(h, t);
  }

  /** Selecting twice is selecting once with both lists of masks. */
  lemma {:induction false} SelectSelect(s: seq<Txn>, a: seq<Stage>, b: seq<Stage>)
    ensures Select(Select(s, a), b) == Select(s, a + b)
    decreases |s|
  {
    if s != [] {
      var p, t := s[..|s| - 1], s[|s| - 1];
      assert s == p + [t];
      SelectSelect(p, a, b);
      SelectSnoc(p, t, a);
      SelectSnoc(p, t, a + b);
      AllHoldAppend(a, b, t);
      if AllHold(a, t) {
        SelectSnoc(Select(p, a), t, b);
      } else {
        assert Select(s, a) == Select(p, a);
      }
    }
  }

  /** Applying the masks one after another keeps exactly the rows that pass
      all of them: the sequential filtering of the handlers is the
      conjunction of their conditions. */
  lemma {:induction false} ApplyStagesIsSelect(s: seq<Txn>, gs: seq<Stage>)
    ensures ApplyStages(s, gs) == Select(s, gs)
    decreases |gs|
  {
    if gs != [] {
      ApplyStagesIsSelect(Select(s, [gs[0]]), gs[1..]);
      SelectSelect(s, [gs[0]], gs[1..]);
      assert [gs[0]] + gs[1..] == gs;
    } else {
      SelectNoStages(s);
    }
  }

  /** Masks that agree on every row select the same rows. */
  lemma {:induction false} SelectCongruent(s: seq<Txn>, a: seq<Stage>, b: seq<Stage>)
    requires forall t :: AllHold(a, t) == AllHold(b, t)
    ensures Select(s, a) == Select(s, b)
    decreases |s|
  {
    if s != [] {
      SelectCongruent(s[..|s| - 1], a, b);
    }
  }

  /** The amount columns a total can be taken over. */
  datatype Column = Spend | Signed

  function Amount(t: Txn, c: Column): int {
    match c
    case Spend => t.amountSpend
    case Signed => t.amountSigned
  }

  /** `df[column].sum()`; the sum of no rows is 0. */
  function Sum(s: seq<Txn>, c: Column): int
    decreases |s|
  {
    if s == [] then 0 else Sum(s[..|s| - 1], c) + Amount(s[|s| - 1], c)
  }

  lemma SumSnoc(s: seq<Txn>, t: Txn, c: Column)
    ensures Sum(s + [t], c) == Sum(s, c) + Amount(t, c)
  {
    assert (s + [t])[..|s + [t]| - 1] == s;
  }

  /** The rows of one category and the rows of every other category split
      both the total of any column and the row count. */
  lemma {:induction false} SplitByCategory(s: seq<Txn>, cat: string, c: Column)
    ensures Sum(s, c) == Sum(Select(s, [CategoryIs(cat)]), c) + Sum(Select(s, [CategoryIsNot(cat)]), c)
    ensures |s| == |Select(s, [CategoryIs(cat)])| + |Select(s, [CategoryIsNot(cat)])|
    decreases |s|
  {
    if s != [] {
      var p, t := s[..|s| - 1], s[|s| - 1];
      assert s == p + [t];
      SplitByCategory(p, cat, c);
      SelectSnoc(p, t, [CategoryIs(cat)]);
      SelectSnoc(p, t, [CategoryIsNot(cat)]);
      SumSnoc(p, t, c);
      if t.category == cat {
        SumSnoc(Select(p, [CategoryIs(cat)]), t, c);
        assert Select(s, [CategoryIsNot(cat)]) == Select(p, [CategoryIsNot(cat)]);
      } else {
        SumSnoc(Select(p, [CategoryIsNot(cat)]), t, c);
        assert Select(s, [CategoryIs(cat)]) == Select(p, [CategoryIs(cat)]);
      }
    }
  }

  /** The query parameters the summary, category and daily handlers share:
      optional inclusive date bounds and a source, "All" meaning every one. */
  datatype Scope = Scope(startDate: Option<Date>, endDate: Option<Date>, source: string)

  /** `if start_date: ... if end_date: ...`: inclusive date bounds. */
  function DateStages(startDate: Option<Date>, endDate: Option<Date>): seq<Stage> {
    (if startDate.Some? then [OnOrAfter(startDate.value)] else [])
    + (if endDate.Some? then [OnOrBefore(endDate.value)] else [])
  }

  /** The masks of a scope: the date bounds, then the source unless it is "All". */
  function ScopeStages(sc: Scope): seq<Stage> {
    DateStages(sc.startDate, sc.endDate)
    + (if sc.source != AllSources then [SourceIs(sc.source)] else [])
  }

  /** A row lies within the dates of the bounds given, both inclusive. */
  predicate InDates(startDate: Option<Date>, endDate: Option<Date>, t: Txn) {
    && (startDate.Some? ==> DateLe(startDate.value, t.date))
    && (endDate.Some? ==> DateLe(t.date, endDate.value))
  }

  /** A row a scope admits: within its dates and, unless the source is
      "All", from that source. */
  predicate InScope(sc: Scope, t: Txn) {
    InDates(sc.startDate, sc.endDate, t) && (sc.source != AllSources ==> t.source == sc.source)
  }

  lemma DateStagesMeaning(startDate: Option<Date>, endDate: Option<Date>, t: Txn)
    ensures AllHold(DateStages(startDate, endDate), t) == InDates(startDate, endDate, t)
  {
    var a := if startDate.Some? then [OnOrAfter(startDate.value)] else [];
    var b := if endDate.Some? then [OnOrBefore(endDate.value)] else [];
    AllHoldAppend(a, b, t);
  }

  lemma ScopeStagesMeaning(sc: Scope, t: Txn)
    ensures AllHold(ScopeStages(sc), t) == InScope(sc, t)
  {
    DateStagesMeaning(sc.startDate, sc.endDate, t);
    AllHoldAppend(DateStages(sc.startDate, sc.endDate),
                  if sc.source != AllSources then [SourceIs(sc.source)] else [], t);
  }
}

/** The transaction listing: `get_transactions` filters the categorised rows
    by the query parameters, each given parameter adding one mask, and
    returns the rows that pass together with their number. */
module TransactionQuery {
  import opened Text
  import opened Records
  import opened Selection

  /** The query parameters as the handler reads them. String parameters
      are absent (`None`) or the text given; an empty string counts as
      absent wherever the handler tests the parameter's truth. */
  datatype TxnQuery = TxnQuery(
    startDate: Option<Date>,
    endDate: Option<Date>,
    category: Option<string>,
    merchantSearch: Option<string>,
    source: Option<string>,
    minAmount: Option<int>,
    maxAmount: Option<int>,
    excludeTransfers: Option<string>)

  /** What the handler returns: the rows and `count`. */
  datatype TxnPage = TxnPage(transactions: seq<Txn>, count: nat)

  /** Python's truth of an optional string: given and non-empty. */
  predicate Given(p: Option<string>) {
    p.Some? && p.value != ""
  }

  /** `request.args.get('exclude_transfers', 'true').lower() == 'true'`:
      absent, or the word "true" in any mix of upper and lower case. */
  function ExcludesTransfers(p: Option<string>): (r: bool)
    ensures p.None? ==> r
    ensures p.Some? ==> (r <==> && |p.value| == 4 && p.value[0] in "tT" && p.value[1] in "rR"
                                && p.value[2] in "uU" && p.value[3] in "eE")
  {
    match p
    case None => true
    case Some(v) =>
      TrueInAnyCase(v);
      Lower(v) == "true"
  }

  /** Lower-casing gives "true" exactly for the four letters in any case. */
  lemma TrueInAnyCase(v: string)
    ensures Lower(v) == "true" <==> && |v| == 4 && v[0] in "tT" && v[1] in "rR"
                                    && v[2] in "uU" && v[3] in "eE"
  {
    if |v| == 4 {
      var w := Lower(v);
      assert w == "true" <==> w[0] == 't' && w[1] == 'r' && w[2] == 'u' && w[3] == 'e';
      assert w[0] == LowerChar(v[0]) && w[1] == LowerChar(v[1]) && w[2] == LowerChar(v[2]) && w[3] == LowerChar(v[3]);
    }
  }

  /** `if exclude_transfers: df = df[df["category"] != "EXCLUDE"]`. */
  function TransferStages(p: Option<string>): seq<Stage> {
    if ExcludesTransfers(p) then [CategoryIsNot(Transfer)] else []
  }

  /** `if category:` "All Expenses" keeps the expense rows, any other value
      the rows of exactly that category. */
  function CategoryStages(p: Option<string>): seq<Stage> {
    if !Given(p) then [] else if p.value == AllExpenses then [Expense] else [CategoryIs(p.value)]
  }

  /** `if merchant_search:` the lower-cased merchant contains the lower-cased search. */
  function MerchantStages(p: Option<string>): seq<Stage> {
    if Given(p) then [MerchantContains(Lower(p.value))] else []
  }

  /** `if source and source != "All":` rows of that source only. */
  function SourceStages(p: Option<string>): seq<Stage> {
    if Given(p) && p.value != AllSources then [SourceIs(p.value)] else []
  }

  /** `if min_amount:` and `if max_amount:` inclusive bounds on `amount_spend`. */
  function AmountStages(lo: Option<int>, hi: Option<int>): seq<Stage> {
    (if lo.Some? then [SpendAtLeast(lo.value)] else [])
    + (if hi.Some? then [SpendAtMost(hi.value)] else [])
  }

  /** The masks the handler applies, in its order. */
  function QueryStages(q: TxnQuery): seq<Stage> {
    TransferStages(q.excludeTransfers)
    + DateStages(q.startDate, q.endDate)
    + CategoryStages(q.category)
    + MerchantStages(q.merchantSearch)
    + SourceStages(q.source)
    + AmountStages(q.minAmount, q.maxAmount)
  }

  predicate TransferOk(p: Option<string>, t: Txn) {
    ExcludesTransfers(p) ==> t.category != Transfer
  }

  predicate CategoryOk(p: Option<string>, t: Txn) {
    Given(p) ==>
      if p.value == AllExpenses then t.category != Income && t.category != Transfer
      else t.category == p.value
  }

  predicate MerchantOk(p: Option<string>, t: Txn) {
    Given(p) ==> t.merchant.Some? && Contains(Lower(t.merchant.value), Lower(p.value))
  }

  predicate SourceOk(p: Option<string>, t: Txn) {
    Given(p) && p.value != AllSources ==> t.source == p.value
  }

  predicate AmountOk(lo: Option<int>, hi: Option<int>, t: Txn) {
    (lo.Some? ==> t.amountSpend >= lo.value) && (hi.Some? ==> t.amountSpend <= hi.value)
  }

  /** The query's conditions on one row, stated one parameter at a time. */
  predicate Matches(q: TxnQuery, t: Txn) {
    && TransferOk(q.excludeTransfers, t)
    && InDates(q.startDate, q.endDate, t)
    && CategoryOk(q.category, t)
    && MerchantOk(q.merchantSearch, t)
    && SourceOk(q.source, t)
    && AmountOk(q.minAmount, q.maxAmount, t)
  }

  lemma AmountStagesMeaning(lo: Option<int>, hi: Option<int>, t: Txn)
    ensures AllHold(AmountStages(lo, hi), t) == AmountOk(lo, hi, t)
  {
    AllHoldAppend(if lo.Some? then [SpendAtLeast(lo.value)] else [],
                  if hi.Some? then [SpendAtMost(hi.value)] else [], t);
  }

  lemma QueryStagesMeaning(q: TxnQuery, t: Txn)
    ensures AllHold(QueryStages(q), t) == Matches(q, t)
  {
    var g1, g2, g3 := TransferStages(q.excludeTransfers), DateStages(q.startDate, q.endDate), CategoryStages(q.category);
    var g4, g5, g6 := MerchantStages(q.merchantSearch), SourceStages(q.source), AmountStages(q.minAmount, q.maxAmount);
    assert AllHold(g1, t) == TransferOk(q.excludeTransfers, t) by {
      if g1 != [] { AllHoldOne(g1[0], t); }
    }
    DateStagesMeaning(q.startDate, q.endDate, t);
    assert AllHold(g3, t) == CategoryOk(q.category, t) by {
      if g3 != [] { AllHoldOne(g3[0], t); }
    }
    assert AllHold(g4, t) == MerchantOk(q.merchantSearch, t) by {
      if g4 != [] { AllHoldOne(g4[0], t); }
    }
    assert AllHold(g5, t) == SourceOk(q.source, t) by {
      if g5 != [] { AllHoldOne(g5[0], t); }
    }
    AmountStagesMeaning(q.minAmount, q.maxAmount, t);
    AllHoldAppend(g1, g2, t);
    AllHoldAppend(g1 + g2, g3, t);
    AllHoldAppend(g1 + g2 + g3, g4, t);
    AllHoldAppend(g1 + g2 + g3 + g4, g5, t);
    AllHoldAppend(g1 + g2 + g3 + g4 + g5, g6, t);
  }

  /** `get_transactions`: the rows that pass every filter given, in their
      original order, each as often as it occurs, and their number. */
  function GetTransactions(rows: seq<Txn>, q: TxnQuery): (r: TxnPage)
    ensures r.count == |r.transactions|
    ensures IsSubsequence(r.transactions, rows)
    ensures forall i :: 0 <= i < |r.transactions| ==> Matches(q, r.transactions[i])
    ensures forall t :: multiset(r.transactions)[t] == if Matches(q, t) then multiset(rows)[t] else 0
  {
    var df := ApplyStages(rows, QueryStages(q));
    ApplyStagesIsSelect(rows, QueryStages(q));
    SelectIsSubsequence(rows, QueryStages(q));
    assert forall t :: multiset(df)[t] == if Matches(q, t) then multiset(rows)[t] else 0 by {
      forall t ensures multiset(df)[t] == if Matches(q, t) then multiset(rows)[t] else 0 {
        SelectMultiplicity(rows, QueryStages(q), t);
        QueryStagesMeaning(q, t);
      }
    }
    assert forall i :: 0 <= i < |df| ==> Matches(q, df[i]) by {
      forall i | 0 <= i < |df| ensures Matches(q, df[i]) {
        QueryStagesMeaning(q, df[i]);
      }
    }
    TxnPage(df, |df|)
  }

  /** With `exclude_transfers` absent, or "true" in any letter case, no
      transfer is listed; with any other value transfers are kept like other
      rows. */
  lemma TransfersHiddenByDefault(rows: seq<Txn>, q: TxnQuery)
    requires q.excludeTransfers.None? || Lower(q.excludeTransfers.value) == "true"
    ensures forall i :: 0 <= i < |GetTransactions(rows, q).transactions| ==>
              GetTransactions(rows, q).transactions[i].category != Transfer
  {
  }

  /** Source "All" filters nothing, exactly as an absent source. */
  lemma SourceAllIsNoFilter(rows: seq<Txn>, q: TxnQuery)
    requires q.source == Some(AllSources)
    ensures GetTransactions(rows, q) == GetTransactions(rows, q.(source := None))
  {
  }
}

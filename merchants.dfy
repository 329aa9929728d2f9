/** The merchant list of `get_merchants`: every merchant of the non-transfer
    rows within the dates, in Python's string order, each with the
    category of its most recent row and up to three of its most recent
    rows as samples. */
module MerchantListing {
  import opened Text
  import opened Records
  import opened Selection

  /** One entry of `sample_transactions`. */
  datatype Sample = Sample(date: Date, amount: int, description: string)

  /** One entry of the handler's answer. */
  datatype MerchantEntry = MerchantEntry(name: string, currentCategory: string, samples: seq<Sample>)

  /** The category reported when a merchant has no rows. */
  const UnknownCategory: string := "Unknown"

  /** The number of samples a merchant shows at most (`head(3)`). */
  const SampleLimit: nat := 3

  function Min(a: nat, b: nat): nat {
    if a <= b then a else b
  }

  /** Names in Python's `sorted` order with no name twice. */
  predicate Increasing(names: seq<string>) {
    forall i, j :: 0 <= i < j < |names| ==> StrLt(names[i], names[j])
  }

  lemma PrependSmaller(n: string, names: seq<string>)
    requires Increasing(names) && names != [] && StrLt(n, names[0])
    ensures Increasing([n] + names)
  {
    forall j | 0 < j < |names| ensures StrLt(n, names[j]) {
      StrLtTransitive(n, names[0], names[j]);
    }
  }

  /** Adds `n` to an increasing list of names unless it is there already. */
  function InsertName(n: string, names: seq<string>): (r: seq<string>)
    requires Increasing(names)
    ensures Increasing(r)
    ensures forall x :: x in r <==> x in names || x == n
    decreases |names|
  {
    if names == [] then [n]
    else if n == names[0] then names
    else if StrLt(n, names[0]) then
      PrependSmaller(n, names);
      [n] + names
    else
      StrLtTotal(n, names[0]);
      var rest := InsertName(n, names[1..]);
      PrependBelowAll(names[0], rest);
      [names[0]] + rest
  }

  lemma PrependBelowAll(h: string, rest: seq<string>)
    requires Increasing(rest) && forall x :: x in rest ==> StrLt(h, x)
    ensures Increasing([h] + rest)
  {
    forall j | 0 <= j < |rest| ensures StrLt(h, rest[j]) {
      assert rest[j] in rest;
    }
  }

  /** Row `t` has merchant `m`. */
  predicate OfMerchant(t: Txn, m: string) {
    t.merchant == Some(m)
  }

  /** Some row of `s` has merchant `m`. */
  predicate HasMerchant(s: seq<Txn>, m: string) {
    exists t :: t in s && OfMerchant(t, m)
  }

  /** `sorted(df["merchant"].dropna().unique())`: the merchants of the rows,
      each once, in increasing order; rows without a merchant add none. */
  function MerchantNames(s: seq<Txn>): (r: seq<string>)
    ensures Increasing(r)
    ensures forall m :: m in r <==> HasMerchant(s, m)
    decreases |s|
  {
    if s == [] then []
    else
      var p, t := s[..|s| - 1], s[|s| - 1];
      assert s == p + [t];
      assert forall m :: HasMerchant(s, m) <==> HasMerchant(p, m) || OfMerchant(t, m);
      if t.merchant.Some? then InsertName(t.merchant.value, MerchantNames(p)) else MerchantNames(p)
  }

  /** Rows with the most recent date first. */
  predicate NewestFirst(s: seq<Txn>) {
    forall i, j :: 0 <= i < j < |s| ==> DateLe(s[j].date, s[i].date)
  }

  /** Puts `t` before the first row that is not more recent. */
  function InsertByDate(t: Txn, s: seq<Txn>): (r: seq<Txn>)
    ensures |r| == |s| + 1
    ensures r[0] == t || (s != [] && r[0] == s[0])
    ensures multiset(r) == multiset(s) + multiset{t}
    ensures NewestFirst(s) ==> NewestFirst(r)
    decreases |s|
  {
    if s == [] || DateLe(s[0].date, t.date) then
      NewestFirstCons(t, s);
      [t] + s
    else
      assert s == [s[0]] + s[1..];
      var rest := InsertByDate(t, s[1..]);
      NewestFirstCons(s[0], rest);
      [s[0]] + rest
  }

  /** A row no older than the first of rows in newest-first order can go
      in front of them. */
  lemma NewestFirstCons(t: Txn, s: seq<Txn>)
    ensures NewestFirst(s) && (s != [] ==> DateLe(s[0].date, t.date)) ==> NewestFirst([t] + s)
  {
    if NewestFirst(s) && (s != [] ==> DateLe(s[0].date, t.date)) {
      var r := [t] + s;
      forall i, j | 0 <= i < j < |r| ensures DateLe(r[j].date, r[i].date) {
        if i == 0 {
          assert r[j] == s[j - 1];
        } else {
          assert r[j] == s[j - 1] && r[i] == s[i - 1];
        }
      }
    }
  }

  /** `sort_values("date", ascending=False)`: the same rows, most recent
      first (the order among rows of the same day is not promised). */
  function SortByDateDesc(s: seq<Txn>): (r: seq<Txn>)
    ensures |r| == |s|
    ensures multiset(r) == multiset(s)
    ensures NewestFirst(r)
    decreases |s|
  {
    if s == [] then []
    else
      assert s == [s[0]] + s[1..];
      InsertByDate(s[0], SortByDateDesc(s[1..]))
  }

  /** `df[df["merchant"] == m]`. */
  function RowsOf(e: seq<Txn>, m: string): seq<Txn> {
    Select(e, [MerchantIs(m)])
  }

  /** `.sort_values("date", ascending=False).head(3)`. */
  function RecentRows(e: seq<Txn>, m: string): seq<Txn> {
    var s := SortByDateDesc(RowsOf(e, m));
    s[..Min(SampleLimit, |s|)]
  }

  function SampleOf(t: Txn): Sample {
    Sample(t.date, t.amountSpend, t.description)
  }

  /** The entry of merchant `m`: the category of its first recent row, or
      "Unknown" when there is none, and its recent rows as samples. */
  function EntryFor(e: seq<Txn>, m: string): MerchantEntry {
    var top := RecentRows(e, m);
    MerchantEntry(m, if |top| > 0 then top[0].category else UnknownCategory,
                  seq(|top|, i requires 0 <= i < |top| => SampleOf(top[i])))
  }

  /** The merchant's recent rows are some of its rows, as many as it has
      up to three, most recent first. */
  lemma RecentRowsAreItsRows(e: seq<Txn>, m: string)
    ensures var top := RecentRows(e, m);
            && |top| == Min(SampleLimit, |RowsOf(e, m)|)
            && multiset(top) <= multiset(RowsOf(e, m))
            && NewestFirst(top)
  {
    var s := SortByDateDesc(RowsOf(e, m));
    var k := Min(SampleLimit, |s|);
    assert s == s[..k] + s[k..];
    assert multiset(s) == multiset(s[..k]) + multiset(s[k..]);
  }

  /** Every row of the merchant left out of its recent rows is no more
      recent than any row kept. */
  lemma LeftOutRowsAreOlder(e: seq<Txn>, m: string)
    ensures var top := RecentRows(e, m);
            forall t: Txn :: t in multiset(RowsOf(e, m)) - multiset(top) ==>
              forall i :: 0 <= i < |top| ==> DateLe(t.date, top[i].date)
  {
    var s := SortByDateDesc(RowsOf(e, m));
    var k := Min(SampleLimit, |s|);
    var top, rest := s[..k], s[k..];
    assert s == top + rest;
    assert multiset(s) == multiset(top) + multiset(rest);
    assert multiset(s) == multiset(RowsOf(e, m));
    forall t: Txn | t in multiset(RowsOf(e, m)) - multiset(top)
      ensures forall i :: 0 <= i < |top| ==> DateLe(t.date, top[i].date)
    {
      assert t in multiset(rest);
      var j :| 0 <= j < |rest| && rest[j] == t;
      assert s[k + j] == t;
      forall i | 0 <= i < |top| ensures DateLe(t.date, top[i].date) {
        assert top[i] == s[i];
      }
    }
  }

  /** A merchant of the rows has at least one row. */
  lemma RowsOfMerchant(e: seq<Txn>, m: string)
    requires HasMerchant(e, m)
    ensures |RowsOf(e, m)| > 0
  {
    var t :| t in e && OfMerchant(t, m);
    SelectMultiplicity(e, [MerchantIs(m)], t);
    AllHoldOne(MerchantIs(m), t);
  }

  /** The rows `get_merchants` lists: within the dates and not a transfer. */
  predicate Listed(startDate: Option<Date>, endDate: Option<Date>, t: Txn) {
    InDates(startDate, endDate, t) && t.category != Transfer
  }

  function ListedStages(startDate: Option<Date>, endDate: Option<Date>): seq<Stage> {
    DateStages(startDate, endDate) + [CategoryIsNot(Transfer)]
  }

  /** `get_merchants`: the merchants in increasing order, no name twice,
      each with between one and three samples. */
  function GetMerchants(rows: seq<Txn>, startDate: Option<Date>, endDate: Option<Date>): (r: seq<MerchantEntry>)
    ensures forall i, j :: 0 <= i < j < |r| ==> StrLt(r[i].name, r[j].name)
    ensures forall i :: 0 <= i < |r| ==> 1 <= |r[i].samples| <= SampleLimit
  {
    var df := ApplyStages(rows, DateStages(startDate, endDate));
    var e := Select(df, [CategoryIsNot(Transfer)]);
    var names := MerchantNames(e);
    assert forall i :: 0 <= i < |names| ==> |RowsOf(e, names[i])| > 0 by {
      forall i | 0 <= i < |names| ensures |RowsOf(e, names[i])| > 0 {
        assert names[i] in names;
        RowsOfMerchant(e, names[i]);
      }
    }
    MerchantEntries(e)
  }

  /** One entry per merchant of the rows `e`, in the order of their names. */
  function MerchantEntries(e: seq<Txn>): seq<MerchantEntry> {
    var names := MerchantNames(e);
    seq(|names|, i requires 0 <= i < |names| => EntryFor(e, names[i]))
  }

  /** The rows the listing is built from. */
  function ListedRows(rows: seq<Txn>, startDate: Option<Date>, endDate: Option<Date>): seq<Txn> {
    Select(rows, ListedStages(startDate, endDate))
  }

  lemma GetMerchantsUnfold(rows: seq<Txn>, startDate: Option<Date>, endDate: Option<Date>)
    ensures GetMerchants(rows, startDate, endDate) == MerchantEntries(ListedRows(rows, startDate, endDate))
  {
    ApplyStagesIsSelect(rows, DateStages(startDate, endDate));
    SelectSelect(rows, DateStages(startDate, endDate), [CategoryIsNot(Transfer)]);
  }

  lemma ListedRowMeaning(rows: seq<Txn>, startDate: Option<Date>, endDate: Option<Date>, t: Txn)
    ensures t in ListedRows(rows, startDate, endDate) <==> t in rows && Listed(startDate, endDate, t)
  {
    SelectMultiplicity(rows, ListedStages(startDate, endDate), t);
    AllHoldAppend(DateStages(startDate, endDate), [CategoryIsNot(Transfer)], t);
    AllHoldOne(CategoryIsNot(Transfer), t);
    DateStagesMeaning(startDate, endDate, t);
  }

  /** Every entry made from rows `e` names a merchant of `e`. */
  lemma EntriesNameMerchants(e: seq<Txn>)
    ensures forall i :: 0 <= i < |MerchantEntries(e)| ==> HasMerchant(e, MerchantEntries(e)[i].name)
  {
    var names := MerchantNames(e);
    forall i | 0 <= i < |MerchantEntries(e)| ensures HasMerchant(e, MerchantEntries(e)[i].name) {
      assert names[i] in names;
    }
  }

  /** Every merchant of the rows `e` has an entry made from them. */
  lemma MerchantsHaveEntries(e: seq<Txn>, t: Txn)
    requires t in e && t.merchant.Some?
    ensures exists i :: 0 <= i < |MerchantEntries(e)| && MerchantEntries(e)[i].name == t.merchant.value
  {
    var names := MerchantNames(e);
    assert HasMerchant(e, t.merchant.value);
    var i :| 0 <= i < |names| && names[i] == t.merchant.value;
    assert MerchantEntries(e)[i].name == t.merchant.value;
  }

  /** Every listed merchant has a row within the dates that is not a transfer. */
  lemma MerchantsHaveListedRows(rows: seq<Txn>, startDate: Option<Date>, endDate: Option<Date>)
    ensures forall entry :: entry in GetMerchants(rows, startDate, endDate) ==>
              exists t :: t in rows && Listed(startDate, endDate, t) && OfMerchant(t, entry.name)
  {
    var e := ListedRows(rows, startDate, endDate);
    var r := GetMerchants(rows, startDate, endDate);
    GetMerchantsUnfold(rows, startDate, endDate);
    EntriesNameMerchants(e);
    forall entry | entry in r
      ensures exists t :: t in rows && Listed(startDate, endDate, t) && OfMerchant(t, entry.name)
    {
      var i :| 0 <= i < |r| && r[i] == entry;
      var t :| t in e && OfMerchant(t, r[i].name);
      ListedRowMeaning(rows, startDate, endDate, t);
    }
  }

  /** Every merchant of a row within the dates that is not a transfer is listed. */
  lemma ListedMerchantsAppear(rows: seq<Txn>, startDate: Option<Date>, endDate: Option<Date>)
    ensures var r := GetMerchants(rows, startDate, endDate);
            forall t :: t in rows && Listed(startDate, endDate, t) && t.merchant.Some? ==>
              exists i :: 0 <= i < |r| && r[i].name == t.merchant.value
  {
    var e := ListedRows(rows, startDate, endDate);
    var r := GetMerchants(rows, startDate, endDate);
    GetMerchantsUnfold(rows, startDate, endDate);
    forall t | t in rows && Listed(startDate, endDate, t) && t.merchant.Some?
      ensures exists i :: 0 <= i < |r| && r[i].name == t.merchant.value
    {
      ListedRowMeaning(rows, startDate, endDate, t);
      MerchantsHaveEntries(e, t);
    }
  }

  /** A merchant's samples are as many of its rows as it has, up to three,
      most recent first. */
  lemma EntrySamples(e: seq<Txn>, m: string)
    ensures var en := EntryFor(e, m);
            && |en.samples| == Min(SampleLimit, |RowsOf(e, m)|)
            && forall a, b :: 0 <= a < b < |en.samples| ==> DateLe(en.samples[b].date, en.samples[a].date)
  {
    RecentRowsAreItsRows(e, m);
  }

  /** A merchant's current category and first sample come from one of its
      most recent rows. */
  lemma EntryCurrentCategory(e: seq<Txn>, m: string) returns (t: Txn)
    requires HasMerchant(e, m)
    ensures t in e && OfMerchant(t, m)
    ensures |EntryFor(e, m).samples| > 0
    ensures t.category == EntryFor(e, m).currentCategory && SampleOf(t) == EntryFor(e, m).samples[0]
    ensures forall u :: u in e && OfMerchant(u, m) ==> DateLe(u.date, t.date)
  {
    var all := RowsOf(e, m);
    var top := RecentRows(e, m);
    RowsOfMerchant(e, m);
    RecentRowsAreItsRows(e, m);
    LeftOutRowsAreOlder(e, m);
    t := top[0];
    assert t in multiset(all);
    RowOfMerchant(e, m, t);
    forall u | u in e && OfMerchant(u, m) ensures DateLe(u.date, t.date) {
      RowOfMerchant(e, m, u);
      if u !in multiset(all) - multiset(top) {
        var j :| 0 <= j < |top| && top[j] == u;
      }
    }
  }

  lemma RowOfMerchant(e: seq<Txn>, m: string, t: Txn)
    ensures t in RowsOf(e, m) <==> t in e && OfMerchant(t, m)
  {
    SelectMultiplicity(e, [MerchantIs(m)], t);
    AllHoldOne(MerchantIs(m), t);
  }

  /** The `k`-th sample shows one of the merchant's rows. */
  lemma SampleShowsItsRow(e: seq<Txn>, m: string, k: nat) returns (t: Txn)
    requires k < |EntryFor(e, m).samples|
    ensures t in e && OfMerchant(t, m) && SampleOf(t) == EntryFor(e, m).samples[k]
  {
    var top := RecentRows(e, m);
    RecentRowsAreItsRows(e, m);
    t := top[k];
    assert t in multiset(RowsOf(e, m));
    RowOfMerchant(e, m, t);
  }

  /** A row of the merchant that no sample shows is no more recent than
      the `k`-th sample. */
  lemma UnshownRowIsOlder(e: seq<Txn>, m: string, t: Txn, k: nat)
    requires t in e && OfMerchant(t, m) && SampleOf(t) !in EntryFor(e, m).samples
    requires k < |EntryFor(e, m).samples|
    ensures DateLe(t.date, EntryFor(e, m).samples[k].date)
  {
    var all := RowsOf(e, m);
    var top := RecentRows(e, m);
    var samples := EntryFor(e, m).samples;
    assert |samples| == |top| && forall i :: 0 <= i < |top| ==> samples[i] == SampleOf(top[i]);
    LeftOutRowsAreOlder(e, m);
    RowOfMerchant(e, m, t);
    assert t !in top;
    assert t in multiset(all) - multiset(top);
  }

  /** The masks of one merchant's listed rows. */
  function MerchantRowStages(startDate: Option<Date>, endDate: Option<Date>, m: string): seq<Stage> {
    ListedStages(startDate, endDate) + [MerchantIs(m)]
  }

  /** Each merchant shows as many samples as it has listed rows, up to
      three, most recent first. */
  lemma MerchantSamplesAreRecent(rows: seq<Txn>, startDate: Option<Date>, endDate: Option<Date>)
    ensures var r := GetMerchants(rows, startDate, endDate);
            forall i :: 0 <= i < |r| ==>
              && |r[i].samples| == Min(SampleLimit, |Select(rows, MerchantRowStages(startDate, endDate, r[i].name))|)
              && (forall a, b :: 0 <= a < b < |r[i].samples| ==> DateLe(r[i].samples[b].date, r[i].samples[a].date))
  {
    var e := ListedRows(rows, startDate, endDate);
    var r := GetMerchants(rows, startDate, endDate);
    GetMerchantsUnfold(rows, startDate, endDate);
    forall i | 0 <= i < |r|
      ensures |r[i].samples| == Min(SampleLimit, |Select(rows, MerchantRowStages(startDate, endDate, r[i].name))|)
      ensures forall a, b :: 0 <= a < b < |r[i].samples| ==> DateLe(r[i].samples[b].date, r[i].samples[a].date)
    {
      assert r[i] == EntryFor(e, r[i].name);
      EntrySamples(e, r[i].name);
      SelectSelect(rows, ListedStages(startDate, endDate), [MerchantIs(r[i].name)]);
    }
  }

  /** Each sample a merchant shows is one of its listed rows. */
  lemma MerchantSampleIsListedRow(rows: seq<Txn>, startDate: Option<Date>, endDate: Option<Date>,
                                  entry: MerchantEntry, k: nat) returns (t: Txn)
    requires entry in GetMerchants(rows, startDate, endDate) && k < |entry.samples|
    ensures t in rows && Listed(startDate, endDate, t) && OfMerchant(t, entry.name) && SampleOf(t) == entry.samples[k]
  {
    var e := ListedRows(rows, startDate, endDate);
    var r := GetMerchants(rows, startDate, endDate);
    GetMerchantsUnfold(rows, startDate, endDate);
    var i :| 0 <= i < |r| && r[i] == entry;
    assert entry == EntryFor(e, entry.name);
    t := SampleShowsItsRow(e, entry.name, k);
    ListedRowMeaning(rows, startDate, endDate, t);
  }

  /** A listed row of a merchant that none of its samples shows is no more
      recent than any sample: the samples are its most recent rows. */
  lemma UnsampledRowsAreOlder(rows: seq<Txn>, startDate: Option<Date>, endDate: Option<Date>, entry: MerchantEntry, t: Txn)
    requires entry in GetMerchants(rows, startDate, endDate)
    requires t in rows && Listed(startDate, endDate, t) && OfMerchant(t, entry.name) && SampleOf(t) !in entry.samples
    ensures forall k :: 0 <= k < |entry.samples| ==> DateLe(t.date, entry.samples[k].date)
  {
    var e := ListedRows(rows, startDate, endDate);
    var r := GetMerchants(rows, startDate, endDate);
    GetMerchantsUnfold(rows, startDate, endDate);
    var i :| 0 <= i < |r| && r[i] == entry;
    assert entry == EntryFor(e, entry.name);
    ListedRowMeaning(rows, startDate, endDate, t);
    forall k | 0 <= k < |entry.samples| ensures DateLe(t.date, entry.samples[k].date) {
      UnshownRowIsOlder(e, entry.name, t, k);
    }
  }

  /** Each merchant's current category is the category of one of its most
      recent listed rows, the row its first sample shows. */
  lemma CurrentCategoryIsLatest(rows: seq<Txn>, startDate: Option<Date>, endDate: Option<Date>)
    ensures forall entry :: entry in GetMerchants(rows, startDate, endDate) ==>
              exists t :: && t in rows && Listed(startDate, endDate, t) && OfMerchant(t, entry.name)
                          && |entry.samples| > 0
                          && t.category == entry.currentCategory && SampleOf(t) == entry.samples[0]
                          && forall u :: u in rows && Listed(startDate, endDate, u) && OfMerchant(u, entry.name) ==>
                               DateLe(u.date, t.date)
  {
    var e := ListedRows(rows, startDate, endDate);
    var r := GetMerchants(rows, startDate, endDate);
    GetMerchantsUnfold(rows, startDate, endDate);
    EntriesNameMerchants(e);
    forall entry | entry in r
      ensures exists t :: && t in rows && Listed(startDate, endDate, t) && OfMerchant(t, entry.name)
                          && |entry.samples| > 0
                          && t.category == entry.currentCategory && SampleOf(t) == entry.samples[0]
                          && forall u :: u in rows && Listed(startDate, endDate, u) && OfMerchant(u, entry.name) ==>
                               DateLe(u.date, t.date)
    {
      var i :| 0 <= i < |r| && r[i] == entry;
      var m := entry.name;
      assert entry == EntryFor(e, m);
      var t := EntryCurrentCategory(e, m);
      ListedRowMeaning(rows, startDate, endDate, t);
      forall u | u in rows && Listed(startDate, endDate, u) && OfMerchant(u, m) ensures DateLe(u.date, t.date) {
        ListedRowMeaning(rows, startDate, endDate, u);
      }
    }
  }
}

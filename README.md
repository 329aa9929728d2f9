# Expense analyzer API: query layer and upload naming

This project models the query and aggregation layer of the expense
analyzer's HTTP API (`api.py`) and the routine that names uploaded
CSV files, and proves what each of them returns.

Every handler starts from the same categorised transactions: one `Txn` per
row, with a date, an optional merchant, a description, a signed amount, a
spend amount, a category and a source. Transfers carry the category
`EXCLUDE`, and money received carries `Income`. Each pandas boolean mask a
handler applies is a `Stage`. `Select` keeps the rows that pass a list of
stages, in order, and `ApplyStages` applies the masks one after another, as
the handlers reassign `df`. The handlers are modelled as functions over
`seq<Txn>`:

- `TransactionQuery.GetTransactions` (`/api/transactions`): every filter
  the query supplies, the result a subsequence of the input, and `count`.
- `Summary.GetSummary` (`/api/summary`): income, spend, net balance and the
  expense count over a date range and source.
- `CategoryBreakdown.GetCategories` (`/api/categories`): expense totals per
  category, largest first, with their share of the total spend.
- `DailySpend.GetDailySpend` (`/api/daily-spend`): expense totals per
  calendar day, in ascending date order.
- `MerchantListing.GetMerchants` (`/api/merchants`): each merchant once, in
  sorted order, with up to three most-recent samples and its current category.
- `ForecastInput.ForecastRows`: the rows `/api/forecast` hands to the
  forecasting functions.

The upload routine `_save_uploaded_files` changes state, so it is modelled
as a class. `Uploads.RawDir` holds the raw-data directory as a map from file
name to contents. Its methods keep the source's loops:

- the `for` loop over the uploads;
- the `while` loop that increments `counter` until a name is free.

They are proved against the specification functions `LeastFree` and
`SavedNames`.

Money is integer cents, so sums are exact. Percentages are exact rationals
(`real`). A date is a calendar day, compared year, month, day. Python's
`sorted` on strings is `Text.StrLt`, the order of code points.

Where the endpoints differ, the model follows the code. The transaction
listing filters by source only when it is given, non-empty and not "All"
(`if source and source != "All"`). The summary, category and daily handlers
filter whenever the source is not "All", so an empty source selects the rows
whose source is the empty string. The merchant listing drops only transfers:
income rows and their merchants are listed too, although the comment above
the mask says "expenses only".

## Model

| member | source | states |
|---|---|---|
| `Text.StrLtIrreflexive` | api.py:375 | no name sorts strictly before itself |
| `Text.StrLtTransitive` | api.py:375 | Python's string order is transitive |
| `Text.StrLtTotal` | api.py:375 | any two different names are ordered one way or the other |
| `Text.DecimalRoundTrip` | api.py:96 | reading back the decimal digits written for a counter gives the counter |
| `Text.DecimalInjective` | api.py:96 | different counters are written as different digit strings |
| `Text.ZeroPadValue` | api.py:322 | zero-padding a digit string keeps its value |
| `Records.YearMonthTextSameMonth` | api.py:321-323 | two days have the same "YYYY-MM" text exactly when they fall in the same year and month |
| `Selection.Select` | api.py:136-156 | a mask keeps no more rows than it is given, and every kept row passes all its stages |
| `Selection.SelectMultiplicity` | api.py:136-156 | a selection holds every passing row as often as the input does, and no failing row |
| `Selection.SelectIsSubsequence` | api.py:136-156 | boolean masks keep the relative order of the rows they keep |
| `Selection.SelectSelect` | api.py:136-156 | masking twice is masking once with both lists of conditions |
| `Selection.ApplyStagesIsSelect` | api.py:136-156 | applying the masks one after another keeps exactly the rows that pass all of them |
| `Selection.SelectCongruent` | api.py:198-202 | masks that agree on every row select the same rows |
| `Selection.SplitByCategory` | api.py:198-202 | the rows of one category and all other rows split both any column's total and the row count |
| `Selection.DateStagesMeaning` | api.py:139-142 | the date masks keep exactly the rows within both inclusive bounds that are given |
| `Selection.ScopeStagesMeaning` | api.py:187-195 | the scope masks keep the rows within the dates and, unless the source is "All", of that source |
| `TransactionQuery.ExcludesTransfers` | api.py:133 | an absent `exclude_transfers` excludes transfers, and a given one excludes them exactly when it is the four letters t, r, u, e, each in either case |
| `TransactionQuery.TrueInAnyCase` | api.py:133 | `Text.Lower` of a text is "true" exactly when the text is those four letters in any mix of cases |
| `TransactionQuery.QueryStagesMeaning` | api.py:136-156 | the listing's masks keep a row exactly when it meets every supplied condition: transfers, inclusive dates, category or "All Expenses", merchant present and its `Text.Lower` form `Text.Contains` the lower-cased search, source unless "All", inclusive spend bounds |
| `TransactionQuery.AmountStagesMeaning` | api.py:153-156 | the amount masks are inclusive lower and upper bounds on the spend |
| `TransactionQuery.GetTransactions` | api.py:119-172 | the listing is a subsequence of the rows, every listed row matches the query, every matching row is listed as often as it occurs, and `count` is the listing's length |
| `TransactionQuery.TransfersHiddenByDefault` | api.py:133-137 | with `exclude_transfers` absent or "true" in any case, no transfer is listed |
| `TransactionQuery.SourceAllIsNoFilter` | api.py:151-152 | source "All" lists exactly what an absent source lists |
| `Summary.GetSummary` | api.py:177-216 | the net balance is the income total minus the spend total |
| `Summary.SummaryAsSelections` | api.py:187-206 | income is the signed total of the scope's income rows; spend and count are the spend total and number of its non-income, non-transfer rows |
| `Summary.IncomeStagesMeaning` | api.py:198-201 | the income rows are the scope's rows of category Income |
| `Summary.ExpenseStagesMeaning` | api.py:198-202 | the expense rows are the scope's rows that are neither income nor transfers |
| `Summary.SummaryOfNoRows` | api.py:204-207 | the summary of no rows is all zeros |
| `Summary.TallyOfSelections` | api.py:204-207 | adding one row to the income or expense rows changes the figures by exactly that row's tally |
| `Summary.SummaryStep` | api.py:198-207 | one more row, folded in by `Summary.Tally`, adds nothing if it is out of scope or a transfer, its signed amount to income if it is income, and otherwise its spend to the spend and one to the count |
| `Summary.SummaryPartition` | api.py:198-206 | within the scope, spend and row count split exactly into the expense figures, the income rows and the transfers |
| `Summary.SummaryAgreesWithListing` | api.py:143-145 | the summary's spend and count are those of the transaction listing for "All Expenses" over the same dates and non-empty source |
| `Summary.ExpenseRowMeaning` | api.py:240 | a row is among the scope's expense rows exactly when it is a row, in scope, and an expense |
| `Summary.ScopedExpensesAreSummaryExpenses` | api.py:240 | the expense rows the breakdowns group are the rows the summary counts as spend |
| `CategoryBreakdown.AddToCategory` | api.py:244-245 | adding a row bumps its category's total and count by its spend and one, leaves the other groups alone, or opens a group for a new category at the end |
| `CategoryBreakdown.AddToCategoryCategories` | api.py:244 | grouping a row adds exactly its category to the categories |
| `CategoryBreakdown.AddToCategoryDistinct` | api.py:244 | grouping keeps every category in one group only |
| `CategoryBreakdown.AddToCategoryTotals` | api.py:245 | grouping a row adds its spend to the total and one to the count |
| `CategoryBreakdown.TalliesStep` | api.py:244-245 | each group's total and count stay the sum and number of its category's rows when a row is added |
| `CategoryBreakdown.GroupByCategory` | api.py:243-245 | one group per category of the rows, no category twice, each total and count that of its category's rows, the totals adding up to the rows' spend and the counts to their number |
| `CategoryBreakdown.InsertByAmount` | api.py:246 | inserting a group keeps the groups descending by total and adds exactly that group |
| `CategoryBreakdown.InsertByAmountCategories` | api.py:246 | inserting a group adds its category |
| `CategoryBreakdown.InsertByAmountDistinct` | api.py:246 | inserting a group with a new category keeps categories distinct |
| `CategoryBreakdown.InsertByAmountTotals` | api.py:246 | inserting a group adds its total and count |
| `CategoryBreakdown.SortByAmount` | api.py:246 | the sorted groups are a permutation of the groups, in non-increasing order of total |
| `CategoryBreakdown.SortByAmountCategories` | api.py:246 | sorting keeps the set of categories |
| `CategoryBreakdown.SortByAmountDistinct` | api.py:246 | sorting keeps categories distinct |
| `CategoryBreakdown.SortByAmountTotals` | api.py:246 | sorting keeps the sum of totals and of counts |
| `CategoryBreakdown.Shares` | api.py:252-262 | each entry carries its group's category, amount and count and the percentage `100*amount/total`, or 0 when the total is not positive |
| `CategoryBreakdown.GetCategories` | api.py:219-266 | the entries come in non-increasing order of amount and name no category twice |
| `CategoryBreakdown.GetCategoriesUnfold` | api.py:229-250 | the breakdown is taken over the scope's expense rows, percentages of their spend, or of 1 when there are none |
| `CategoryBreakdown.ScopedExpensesOfCategory` | api.py:240-244 | one category's expense rows are the rows passing the scope, the expense mask and that category |
| `CategoryBreakdown.CategoriesOfIndex` | api.py:244 | a category belongs to the groups exactly when some group carries it |
| `CategoryBreakdown.RowCategoriesIndex` | api.py:244 | a category belongs to the rows exactly when some row carries it |
| `CategoryBreakdown.BreakdownNamesRowCategories` | api.py:243-246 | every entry's category is the category of some row |
| `CategoryBreakdown.BreakdownCoversRowCategories` | api.py:243-246 | every row's category has an entry |
| `CategoryBreakdown.CategoriesAreExpenseCategories` | api.py:240-246 | every listed category is that of an expense row in scope |
| `CategoryBreakdown.ExpenseCategoriesHaveEntries` | api.py:240-246 | every expense row in scope has its category listed |
| `CategoryBreakdown.BreakdownTallies` | api.py:243-245 | each entry's amount and count are the spend total and number of that category's rows |
| `CategoryBreakdown.CategoryTotalsAreTallies` | api.py:240-261 | each entry's amount and count are the spend total and number of the scope's expense rows of its category |
| `CategoryBreakdown.SharesTotals` | api.py:252-262 | the entries' amounts, counts and percentages add up to those of the groups |
| `CategoryBreakdown.Percentage` | api.py:256 | with a positive spend total the percentage times the total is 100 times the amount; otherwise it is 0 |
| `CategoryBreakdown.PercentageOfWhole` | api.py:256 | a positive total is 100 percent of itself |
| `CategoryBreakdown.SharesAddUp` | api.py:250-261 | the amounts add up to the rows' spend, the counts to their number, the percentages to the whole's percentage; no rows give no entries |
| `CategoryBreakdown.CategoriesAddUpToSummary` | api.py:250-261 | the amounts add up to the summary's spend, the counts to its expense count, the percentages to 100 when spend is positive, and each percentage is the amount's share of that spend |
| `DailySpend.AddToDay` | api.py:293 | adding a row keeps the days strictly ascending |
| `DailySpend.AmountOnAbsent` | api.py:293 | a day without an entry has amount 0 |
| `DailySpend.AddToDayAmountOn` | api.py:293 | adding a row adds its spend to its own day and nothing to any other |
| `DailySpend.AddToDayDays` | api.py:293 | adding a row adds exactly its date to the days |
| `DailySpend.AddToDayTotal` | api.py:293 | adding a row adds its spend to the total |
| `DailySpend.DayTalliesStep` | api.py:293 | each day's amount stays the spend total of that day's rows when a row is added |
| `DailySpend.NoRowsNoDays` | api.py:293 | no rows give no day any amount |
| `DailySpend.GroupByDay` | api.py:293 | one entry per day that has rows, strictly ascending, each the spend total of that day's rows, together the rows' spend |
| `DailySpend.GetDailySpend` | api.py:269-305 | the days come in strictly ascending order, so none repeats |
| `DailySpend.GetDailySpendUnfold` | api.py:279-293 | the series is grouped over the scope's expense rows |
| `DailySpend.AmountOnEntry` | api.py:293 | an entry's amount is the amount of its day |
| `DailySpend.ScopedExpensesOnDay` | api.py:290-293 | one day's expense rows are the rows passing the scope, the expense mask and that day |
| `DailySpend.DailyAmountsAreTallies` | api.py:290-300 | each day's amount is the spend total of the scope's expense rows on that day |
| `DailySpend.DailyDaysHaveExpenses` | api.py:290-293 | every listed day has an expense row in scope, so days without expenses are left out |
| `DailySpend.ExpenseDaysAreListed` | api.py:290-293 | every day with an expense row in scope is listed |
| `DailySpend.DailyAddsUpToSummary` | api.py:293-300 | the daily amounts add up to the summary's spend |
| `MerchantListing.PrependSmaller` | api.py:375 | a name below the first of an increasing list keeps it increasing |
| `MerchantListing.InsertName` | api.py:375 | inserting a name keeps the names increasing and adds exactly that name |
| `MerchantListing.PrependBelowAll` | api.py:375 | a name below all names of an increasing list keeps it increasing |
| `MerchantListing.MerchantNames` | api.py:375 | the names are increasing, so distinct, and are exactly the merchants of the rows, missing merchants dropped |
| `MerchantListing.InsertByDate` | api.py:376 | inserting a row keeps the rows newest first and adds exactly that row |
| `MerchantListing.SortByDateDesc` | api.py:376 | the sorted rows are a permutation of the rows, newest first |
| `MerchantListing.RecentRowsAreItsRows` | api.py:376 | `MerchantListing.RecentRows`, the merchant's rows sorted newest first and cut after three, are as many of the merchant's rows as it has, up to three, newest first |
| `MerchantListing.LeftOutRowsAreOlder` | api.py:376 | no row `MerchantListing.RecentRows` leaves out is newer than one kept |
| `MerchantListing.RowsOfMerchant` | api.py:376 | a merchant of the rows has at least one row |
| `MerchantListing.GetMerchants` | api.py:355-395 | names are strictly increasing and each merchant has one to three samples |
| `MerchantListing.GetMerchantsUnfold` | api.py:364-375 | the listing is built from the rows within the dates that are not transfers |
| `MerchantListing.ListedRowMeaning` | api.py:364-371 | a row is used exactly when it is within the dates and not a transfer |
| `MerchantListing.EntriesNameMerchants` | api.py:375 | every entry names a merchant of the rows |
| `MerchantListing.MerchantsHaveEntries` | api.py:375 | every merchant of the rows has an entry |
| `MerchantListing.MerchantsHaveListedRows` | api.py:371-375 | every listed merchant has a row within the dates that is not a transfer |
| `MerchantListing.ListedMerchantsAppear` | api.py:371-375 | every merchant of a row within the dates that is not a transfer is listed |
| `MerchantListing.EntrySamples` | api.py:376-391 | the entry `MerchantListing.EntryFor` builds shows as many samples as it has rows, up to three, newest first |
| `MerchantListing.EntryCurrentCategory` | api.py:376-377 | the current category is that of a row of the merchant no older than any other, the row of the first sample |
| `MerchantListing.SampleShowsItsRow` | api.py:376-385 | each sample of `MerchantListing.EntryFor` shows the date, spend and description of one of the merchant's rows |
| `MerchantListing.UnshownRowIsOlder` | api.py:376-385 | a row of the merchant that no sample shows is no newer than any sample |
| `MerchantListing.RowOfMerchant` | api.py:376 | a row is among a merchant's rows exactly when it is a row with that merchant |
| `MerchantListing.MerchantSamplesAreRecent` | api.py:376-385 | each merchant shows as many samples as it has listed rows, up to three, newest first |
| `MerchantListing.MerchantSampleIsListedRow` | api.py:371-385 | every sample of every listed merchant shows one of its rows within the dates that is not a transfer |
| `MerchantListing.UnsampledRowsAreOlder` | api.py:371-385 | a listed row of a merchant that no sample shows is no newer than any of its samples, so the samples are its most recent rows |
| `MerchantListing.CurrentCategoryIsLatest` | api.py:376-377 | each current category is that of a most recent listed row of the merchant, the one its first sample shows |
| `ForecastInput.ForecastStagesMeaning` | api.py:319-326 | the forecast masks keep a row exactly when it is not a transfer and neither its year-month nor its category is excluded |
| `ForecastInput.ForecastRows` | api.py:319-326 | the forecast input is a subsequence of the rows, every kept row passes, and every passing row is kept as often as it occurs |
| `ForecastInput.ForecastRowsAsSelection` | api.py:319-326 | the forecast input is the selection of the forecast masks |
| `ForecastInput.ExcludedMonthIsDropped` | api.py:321-323 | excluding a month's text drops every row of that calendar month |
| `ForecastInput.OtherRowsAreKept` | api.py:319-326 | a row that is not a transfer, of a month and category not excluded, reaches the forecast |
| `ForecastInput.ExclusionsActAsSets` | api.py:321-326 | only which months and categories are excluded matters, not their order or repetition |
| `ForecastInput.ForecastRowsIdempotent` | api.py:319-326 | pre-filtering twice is pre-filtering once |
| `Uploads.LastIndex` | api.py:90 | the position found holds the character and no later position does, or there is none |
| `Uploads.SplitExt` | api.py:90 | the stem and the extension together are the name |
| `Uploads.SplitExtMeaning` | api.py:90 | a non-empty extension starts at the last '.' that follows the last '/' and has a character other than '.' before it in the final component; the extension is empty only when there is no such '.'; the stem is empty only for an empty name |
| `Uploads.ExtensionShape` | api.py:90 | the extension is empty or a '.' followed by neither '.' nor '/' |
| `Uploads.Sanitize` | api.py:91 | sanitizing keeps the length and leaves only `[A-Za-z0-9_-]` |
| `Uploads.SanitizeAt` | api.py:91 | each safe character stays, and each other character becomes '_' |
| `Uploads.SanitizeFixesSafeNames` | api.py:91 | a name is left unchanged exactly when it is already safe |
| `Uploads.SanitizeIdempotent` | api.py:91 | sanitizing twice is sanitizing once |
| `Uploads.SafeBase` | api.py:90-91 | the base is non-empty and only `[A-Za-z0-9_-]` |
| `Uploads.SafeBaseMeaning` | api.py:90-91 | an empty file name gives the base "uploaded"; any other name gives its stem, as long as the stem, with each character outside `[A-Za-z0-9_-]` replaced by '_' |
| `Uploads.CandidateInjective` | api.py:92-96 | different attempts `Uploads.Candidate` for one base (`base.csv`, then `base_k.csv`) are different names |
| `Uploads.NoDotInSafe` | api.py:91 | a safe base holds neither '.' nor '/' |
| `Uploads.SplitCsv` | api.py:90 | a stem without '.' or '/' followed by ".csv" splits into exactly those |
| `Uploads.AttemptStemSafe` | api.py:96 | an attempt's stem is safe when its base is |
| `Uploads.SafeBaseOfCandidate` | api.py:90-96 | uploading a saved file again yields the stem it was saved under |
| `Uploads.CandidatesBelow` | api.py:94-97 | the first `k` attempts are all among the attempts below `k` |
| `Uploads.CandidateBelowWitness` | api.py:94-97 | every name among the first `k` attempts is one of them |
| `Uploads.CandidatesBelowSize` | api.py:94-97 | the first `k` attempts are `k` different names |
| `Uploads.TakenAttemptsBound` | api.py:95-97 | the first `k` attempts can all be taken only when the directory holds at least `k` names |
| `Uploads.FirstFreeFrom` | api.py:95-97 | the attempt found is free and every attempt before it is taken |
| `Uploads.LeastFree` | api.py:92-97 | the chosen attempt is free and all earlier ones are taken |
| `Uploads.LeastFreeIsUnique` | api.py:92-97 | a free attempt whose earlier attempts are all taken is the chosen one |
| `Uploads.SaveName` | api.py:90-97 | the name an upload is saved under is not yet in the directory |
| `Uploads.SavedNames` | api.py:88-100 | a batch yields one name per upload |
| `Uploads.SavedNamesAreFresh` | api.py:88-100 | no saved name was in the directory before the batch |
| `Uploads.SavedNamesAreDistinct` | api.py:88-100 | within one batch no two uploads share a name |
| `Uploads.SavedNamesAreCandidates` | api.py:90-97 | each upload is saved under an attempt for its own safe base |
| `Uploads.StoredContents` | api.py:98-99 | after `Uploads.Stored` writes the uploads, the directory holds exactly its old names and the saved ones; each saved name holds the last upload written there; other files are unchanged |
| `Uploads.SavedNamesAdvance` | api.py:89-100 | saving one more upload moves its name from the names to come to the names saved |
| `Uploads.StoredStep` | api.py:98-99 | writing one more upload updates exactly its name |
| `Uploads.RawDir.FreeName` | api.py:92-97 | the loop ends with a name not in the directory, the least free attempt for the base |
| `Uploads.RawDir.SaveOne` | api.py:90-99 | one upload is written under its least free name, and that name is added to the directory |
| `Uploads.RawDir.SaveUploadedFiles` | api.py:84-101 | the returned names are the batch's names in upload order, and the directory is the old one with each upload written under its name |

## Left out

- Flask routing, `jsonify`, CORS, status codes and the `try`/`except` that turns any exception into an error response are not modelled. Query parameters arrive already parsed: dates as `Date`, amounts as cents, lists as sequences.
- Loading the categorised data (`_load_cat_df`), CSV reading and writing, `os.makedirs`, and the categorisation, cleaning and forecasting functions imported from `src/` are not part of this model. The forecast endpoint is modelled only up to the rows it hands to `forecast_total_spend` and `forecast_by_category`.
- `CategoryBreakdown.GetCategories`: percentages are exact; `round(pct, 1)` is not modelled, so after rounding the percentages need not add up to exactly 100. When the spend total is zero or negative (refunds outweighing spend), every percentage is 0, as the code computes.
- The `"source" in df.columns` guards of the summary, category and daily handlers (api.py:194, 236, 286) are not modelled: every row has a source, so a source other than "All" always filters. Without a source column the code skips that filter.
- Amounts are integer cents, not floats. NaN amounts (which pandas' `sum` skips and `count` does not count) are not modelled.
- Dates carry no time of day. The `strftime` rendering of dates in responses, and the `float(...)` conversions, are left out; results carry `Date` and cents.
- The order of ties in `sort_values` (categories with equal totals, a merchant's rows on the same day) is unspecified, because pandas' default sort is not stable. The contracts state sortedness and permutation, and the model fixes one order.
- `str.contains` interprets the search as a regular expression by default; the model treats it as a literal substring. `str.lower` is modelled on ASCII letters only.
- `datetime.now()` and the other endpoints (date range, rules, one-off overrides, file listing and deletion, chat) are not part of this model.
- `Uploads.RawDir.SaveUploadedFiles`: a missing file name (`None`), a failing `uf.save`, and names that exist as directories rather than files are not modelled. The directory is a map from names to contents, and `os.path.exists` is membership of a name.
- The merchant listing's "Unknown" fallback for a merchant without rows cannot occur, since every listed merchant has a row. The model keeps the branch, and `MerchantListing.GetMerchants` proves at least one sample.

/** The categorised transaction record every handler reads, its calendar
    date, and the category and source labels the handlers test for. */
module Records {
  import opened Text

  datatype Option<T> = None | Some(value: T)

  /** A calendar day; the loaded data carries no time of day. */
  datatype Date = Date(year: nat, month: nat, day: nat)

  /** Comparison of two days, year first, then month, then day. */
  predicate DateLe(a: Date, b: Date) {
    a.year < b.year || (a.year == b.year && (a.month < b.month || (a.month == b.month && a.day <= b.day)))
  }

  predicate DateLt(a: Date, b: Date) {
    DateLe(a, b) && a != b
  }

  /** One row of the categorised data. Amounts are in cents: `amountSigned`
      is positive for money in, `amountSpend` is the spend it counts for.
      A row read from the data may have no merchant (a missing value). */
  datatype Txn = Txn(
    date: Date,
    merchant: Option<string>,
    description: string,
    amountSigned: int,
    amountSpend: int,
    category: string,
    source: string,
    txnId: string)

  /** The category of money received. */
  const Income: string := "Income"
  /** The category of transfers, kept out of every total. */
  const Transfer: string := "EXCLUDE"
  /** The category filter value that stands for every expense category. */
  const AllExpenses: string := "All Expenses"
  /** The source filter value that stands for every source. */
  const AllSources: string := "All"

  /** An expense row: neither income nor a transfer. */
  predicate IsExpense(t: Txn) {
    t.category != Income && t.category != Transfer
  }

  /** `date.to_period("M")` rendered as a string: "YYYY-MM". */
  function YearMonthText(d: Date): string {
    ZeroPad(Decimal(d.year), 4) + "-" + ZeroPad(Decimal(d.month), 2)
  }

  /** Index of the first '-' in `s`, or `|s|` when there is none. */
  function DashIndex(s: string): nat
    decreases |s|
  {
    if s == [] || s[0] == '-' then 0 else 1 + DashIndex(s[1..])
  }

  lemma {:induction false} DashAfterDigits(p: string, q: string)
    requires AllDigits(p)
    ensures DashIndex(p + "-" + q) == |p|
    decreases |p|
  {
    if p != [] {
      assert (p + "-" + q)[1..] == p[1..] + "-" + q;
      DashAfterDigits(p[1..], q);
    }
  }

  lemma DigitsBeforeDash(p: string, q: string, p': string, q': string)
    requires AllDigits(p) && AllDigits(p')
    requires p + "-" + q == p' + "-" + q'
    ensures p == p' && q == q'
  {
    var s := p + "-" + q;
    DashAfterDigits(p, q);
    DashAfterDigits(p', q');
    assert p == s[..|p|] == p';
    assert q == s[|p| + 1..] == q';
  }

  /** Two days render to the same year-month text exactly when they lie in
      the same calendar month, so excluding a month by its text excludes
      that calendar month and no other. */
  lemma YearMonthTextSameMonth(a: Date, b: Date)
    ensures YearMonthText(a) == YearMonthText(b) <==> a.year == b.year && a.month == b.month
  {
    if YearMonthText(a) == YearMonthText(b) {
      ZeroPadValue(Decimal(a.year), 4);
      ZeroPadValue(Decimal(b.year), 4);
      ZeroPadValue(Decimal(a.month), 2);
      ZeroPadValue(Decimal(b.month), 2);
      DigitsBeforeDash(ZeroPad(Decimal(a.year), 4), ZeroPad(Decimal(a.month), 2),
                       ZeroPad(Decimal(b.year), 4), ZeroPad(Decimal(b.month), 2));
      DecimalRoundTrip(a.year);
      DecimalRoundTrip(b.year);
      DecimalRoundTrip(a.month);
      DecimalRoundTrip(b.month);
    }
  }
}

/** `getStatistics`, `getBarChartData` and `getPieChartData`: three aggregates over
    the records whose sale date lies between the first millisecond and the last
    millisecond of the requested month of 2022. */
module Reports {
  import opened Wrappers
  import opened Text
  import opened Calendar
  import opened TransactionModel
  import opened Sequences

  datatype ReportError = InvalidMonthParameter {
    function Status(): int {
      400
    }
  }

  /** The one input whose outcome the handlers leave undefined is an alphabetic word
      that names no month; every other `month` value is covered. */
  predicate MonthParamDefined(month: Option<string>) {
    month.None? || !IsAlphabetic(month.value) || MonthIndex(month.value).Some?
  }

  /** The month check of the aggregate handlers (`!month || !/^[a-zA-Z]+$/`) and
      `new Date(Date.parse("01 " + month + " 2022")).getMonth()`, 0 for January. */
  function AggregateMonth(month: Option<string>): (r: Result<int, ReportError>)
    requires MonthParamDefined(month)
    ensures r.Err? <==> month.None? || !IsAlphabetic(month.value)
    ensures r.Ok? ==> 0 <= r.value < 12 && EqualsIgnoringCase(month.value, MonthNames[r.value])
  {
    if month.None? || !IsAlphabetic(month.value) then Err(InvalidMonthParameter)
    else Ok(MonthIndex(month.value).value)
  }

  /** Each month name passes the check of the aggregate handlers. */
  lemma MonthNameAccepted(i: int)
    requires 0 <= i < 12
    ensures MonthParamDefined(Some(MonthNames[i]))
    ensures AggregateMonth(Some(MonthNames[i])) == Ok(i)
  {
    MonthNameRoundTrip(i);
    MonthNameAlphabetic(i);
  }

  // ---------------------------------------------------------------------------
  // The 2022 month window
  // ---------------------------------------------------------------------------

  lemma WindowStart(mi: int)
    requires 0 <= mi < 12
    ensures DateUtc(2022, mi, 1, 0, 0, 0, 0) == Ms(DayNumber(2022, mi + 1, 1) * 86_400_000)
  {
    YearsBetween(1970, 2022);
    assert mi / 12 == 0 && mi % 12 == mi;
  }

  lemma WindowEnd(mi: int)
    requires 0 <= mi < 12
    ensures DateUtc(2022, mi + 1, 0, 23, 59, 59, 999)
            == Ms(DayNumber(2022, mi + 1, DaysInMonth(2022, mi + 1)) * 86_400_000 + 86_399_999)
  {
    if mi < 11 {
      YearsBetween(1970, 2022);
      assert (mi + 1) / 12 == 0 && (mi + 1) % 12 == mi + 1;
      MonthStep(2022, mi + 1);
    } else {
      DecemberEnd();
    }
  }

  /** December's last day is day 0 of January 2023. */
  lemma DecemberEnd()
    ensures DateUtc(2022, 12, 0, 23, 59, 59, 999) == Ms(DayNumber(2022, 12, 31) * 86_400_000 + 86_399_999)
  {
    YearsBetween(1970, 2022);
    YearStep(2022);
    MonthsFitYear(2022, 12);
  }

  /** The `Date.UTC` values of the window are in range and denote the first and
      the last millisecond of month `mi` of 2022 (December's end is reached
      through January 2023, day 0). */
  lemma WindowBounds(mi: int)
    requires 0 <= mi < 12
    ensures DateUtc(2022, mi, 1, 0, 0, 0, 0) == Ms(DayNumber(2022, mi + 1, 1) * 86_400_000)
    ensures DateUtc(2022, mi + 1, 0, 23, 59, 59, 999)
            == Ms(DayNumber(2022, mi + 1, DaysInMonth(2022, mi + 1)) * 86_400_000 + 86_399_999)
  {
    WindowStart(mi);
    WindowEnd(mi);
  }

  /** `startOfMonth = new Date(Date.UTC(2022, monthNumber, 1))`. */
  function StartOfMonth(mi: int): (r: Instant)
    requires 0 <= mi < 12
    ensures r == DayNumber(2022, mi + 1, 1) * 86_400_000
  {
    WindowBounds(mi);
    DateUtc(2022, mi, 1, 0, 0, 0, 0).t
  }

  /** `endOfMonth = new Date(Date.UTC(2022, monthNumber + 1, 0, 23, 59, 59, 999))`. */
  function EndOfMonth(mi: int): (r: Instant)
    requires 0 <= mi < 12
    ensures r == DayNumber(2022, mi + 1, DaysInMonth(2022, mi + 1)) * 86_400_000 + 86_399_999
  {
    WindowBounds(mi);
    DateUtc(2022, mi + 1, 0, 23, 59, 59, 999).t
  }

  /** `{ dateOfSale: { $gte: startOfMonth, $lte: endOfMonth } }`. */
  predicate InWindow(t: Transaction, mi: int)
    requires 0 <= mi < 12
  {
    StartOfMonth(mi) <= t.dateOfSale <= EndOfMonth(mi)
  }

  function WindowRecords(store: seq<Transaction>, mi: int): seq<Transaction>
    requires 0 <= mi < 12
  {
    Filter(store, t => InWindow(t, mi))
  }

  /** The window holds exactly the time values of month `mi` of 2022. */
  lemma {:induction false} WindowIsMonthOf2022(t: int, mi: int)
    requires 0 <= mi < 12
    ensures StartOfMonth(mi) <= t <= EndOfMonth(mi) <==> YearOf(t) == 2022 && MonthOf(t) == mi + 1
  {
    WindowBounds(mi);
    var c := CivilOf(t);
    var m := mi + 1;
    var n := DayNumber(c.year, c.month, c.day);
    assert t == n * 86_400_000 + c.msOfDay;
    if c.year < 2022 || (c.year == 2022 && c.month < m) {
      DayOrder(c.year, c.month, c.day, 2022, m);
    } else if 2022 < c.year || (c.year == 2022 && m < c.month) {
      DayOrder(2022, m, DaysInMonth(2022, m), c.year, c.month);
    }
  }

  /** The records whose UTC calendar date lies in month `mi` of 2022. */
  function MonthOf2022Records(store: seq<Transaction>, mi: int): seq<Transaction> {
    Filter(store, (t: Transaction) => YearOf(t.dateOfSale) == 2022 && MonthOf(t.dateOfSale) == mi + 1)
  }

  /** The aggregates see the records of month `mi` of 2022 and of no other year. */
  lemma WindowRecordsAreMonthOf2022(store: seq<Transaction>, mi: int)
    requires 0 <= mi < 12
    ensures WindowRecords(store, mi) == MonthOf2022Records(store, mi)
  {
    forall t | t in store
      ensures InWindow(t, mi) == (YearOf(t.dateOfSale) == 2022 && MonthOf(t.dateOfSale) == mi + 1)
    {
      WindowIsMonthOf2022(t.dateOfSale, mi);
    }
    FilterAgree(store, t => InWindow(t, mi),
                (t: Transaction) => YearOf(t.dateOfSale) == 2022 && MonthOf(t.dateOfSale) == mi + 1);
  }

  /** The same month of another year lies outside the window, while the listing's
      `$month` filter still matches it. */
  lemma OtherYearOutsideWindow(mi: int, year: int)
    requires 0 <= mi < 12 && year != 2022
    ensures MonthOf(Civil(year, mi + 1, 1, 0).Time()) == mi + 1
    ensures !(StartOfMonth(mi) <= Civil(year, mi + 1, 1, 0).Time() <= EndOfMonth(mi))
  {
    CivilRoundTrip(Civil(year, mi + 1, 1, 0));
    WindowIsMonthOf2022(Civil(year, mi + 1, 1, 0).Time(), mi);
  }

  // ---------------------------------------------------------------------------
  // Statistics
  // ---------------------------------------------------------------------------

  datatype Statistics = Statistics(totalAmount: real, totalItems: nat, totalNotSold: nat)

  /** `$sum: "$price"`. */
  function SumPrices(s: seq<Transaction>): real
    decreases |s|
  {
    if s == [] then 0.0 else s[0].price + SumPrices(s[1..])
  }

  predicate IsSold(t: Transaction) {
    t.sold == true
  }

  predicate IsNotSold(t: Transaction) {
    t.sold == false
  }

  /** The `$group` stage over the window, or the all-zero object when the
      aggregation returns no group. */
  function GetStatistics(store: seq<Transaction>, month: Option<string>): (r: Result<Statistics, ReportError>)
    requires MonthParamDefined(month)
    ensures r.Err? <==> AggregateMonth(month).Err?
    ensures r.Ok? ==>
      var w := WindowRecords(store, AggregateMonth(month).value);
      && r.value.totalAmount == SumPrices(w)
      && r.value.totalItems == |Filter(w, IsSold)|
      && r.value.totalNotSold == |Filter(w, IsNotSold)|
      && r.value.totalItems + r.value.totalNotSold == |w|
      && (w == [] ==> r.value == Statistics(0.0, 0, 0))
  {
    match AggregateMonth(month)
    case Err(e) => Err(e)
    case Ok(mi) =>
      var w := WindowRecords(store, mi);
      FilterPartition(w, IsSold, IsNotSold);
      if |w| > 0 then Ok(Statistics(SumPrices(w), |Filter(w, IsSold)|, |Filter(w, IsNotSold)|))
      else Ok(Statistics(0.0, 0, 0))
  }

  /** The counts of the statistics cover the sales of the month in 2022 and only
      those. */
  lemma StatisticsCountMonthOf2022(store: seq<Transaction>, month: Option<string>)
    requires MonthParamDefined(month) && AggregateMonth(month).Ok?
    ensures GetStatistics(store, month).Ok?
    ensures
      var mi, st := AggregateMonth(month).value, GetStatistics(store, month).value;
      st.totalItems + st.totalNotSold == |MonthOf2022Records(store, mi)|
  {
    var mi := AggregateMonth(month).value;
    var st := GetStatistics(store, month).value;
    assert st.totalItems + st.totalNotSold == |WindowRecords(store, mi)|;
    WindowRecordsAreMonthOf2022(store, mi);
  }

  // ---------------------------------------------------------------------------
  // Bar chart
  // ---------------------------------------------------------------------------

  datatype Bound = Finite(n: int) | Infinity

  /** An element of `priceRanges`. */
  datatype PriceRange = PriceRange(range: string, min: int, max: Bound)

  const PriceRanges: seq<PriceRange> := [
    PriceRange("0 - 100", 0, Finite(100)),
    PriceRange("101 - 200", 101, Finite(200)),
    PriceRange("201 - 300", 201, Finite(300)),
    PriceRange("301 - 400", 301, Finite(400)),
    PriceRange("401 - 500", 401, Finite(500)),
    PriceRange("501 - 600", 501, Finite(600)),
    PriceRange("601 - 700", 601, Finite(700)),
    PriceRange("701 - 800", 701, Finite(800)),
    PriceRange("801 - 900", 801, Finite(900)),
    PriceRange("901 - above", 901, Infinity)
  ]

  /** `price: { $gte: range.min, $lte: range.max }`, both bounds inclusive. */
  predicate InPriceRange(price: real, b: PriceRange) {
    b.min as real <= price && (b.max.Infinity? || price <= b.max.n as real)
  }

  datatype BarEntry = BarEntry(range: string, count: nat)

  /** The `countDocuments` of one band. */
  function BandCount(s: seq<Transaction>, b: PriceRange, inBand: (real, PriceRange) -> bool): nat {
    |Filter(s, (t: Transaction) => inBand(t.price, b))|
  }

  /** `priceRanges.map(...)`: one count per band, in band order. */
  function BandEntries(s: seq<Transaction>, bands: seq<PriceRange>, inBand: (real, PriceRange) -> bool): (r: seq<BarEntry>)
    ensures |r| == |bands|
    ensures forall i | 0 <= i < |bands| ::
      r[i].range == bands[i].range && r[i].count == BandCount(s, bands[i], inBand)
    decreases |bands|
  {
    if bands == [] then []
    else [BarEntry(bands[0].range, BandCount(s, bands[0], inBand))]
         + BandEntries(s, bands[1..], inBand)
  }

  function GetBarChartData(store: seq<Transaction>, month: Option<string>): (r: Result<seq<BarEntry>, ReportError>)
    requires MonthParamDefined(month)
    ensures r.Err? <==> AggregateMonth(month).Err?
    ensures r.Ok? ==>
      var w := WindowRecords(store, AggregateMonth(month).value);
      && |r.value| == 10
      && forall i | 0 <= i < 10 ::
           r.value[i].range == PriceRanges[i].range
           && r.value[i].count == BandCount(w, PriceRanges[i], InPriceRange)
  {
    match AggregateMonth(month)
    case Err(e) => Err(e)
    case Ok(mi) => Ok(BandEntries(WindowRecords(store, mi), PriceRanges, InPriceRange))
  }

  /** The bands as written: band `i` runs from `100 * i + 1` (0 for the first) to
      `100 * (i + 1)`, and the last one has no upper bound. */
  lemma PriceRangesShape()
    ensures |PriceRanges| == 10
    ensures forall i | 0 <= i < 10 :: PriceRanges[i].min == (if i == 0 then 0 else 100 * i + 1)
    ensures forall i | 0 <= i < 9 :: PriceRanges[i].max == Finite(100 * (i + 1))
    ensures PriceRanges[9].max == Infinity
  {
    forall i | 0 <= i < 10
      ensures PriceRanges[i].min == (if i == 0 then 0 else 100 * i + 1)
      ensures i < 9 ==> PriceRanges[i].max == Finite(100 * (i + 1))
    {
      assert i == 0 || i == 1 || i == 2 || i == 3 || i == 4 || i == 5 || i == 6 || i == 7 || i == 8 || i == 9;
    }
  }

  /** No price lies in two bands. */
  lemma BandsDisjoint(price: real, i: int, j: int)
    requires 0 <= i < j < 10
    ensures !(InPriceRange(price, PriceRanges[i]) && InPriceRange(price, PriceRanges[j]))
  {
    PriceRangesShape();
  }

  /** Every non-negative integer price lies in exactly one band. */
  lemma IntegerPriceInOneBand(n: int)
    requires n >= 0
    ensures var k := if n <= 100 then 0 else if n > 900 then 9 else (n - 1) / 100;
      && 0 <= k < 10
      && InPriceRange(n as real, PriceRanges[k])
      && forall j | 0 <= j < 10 && j != k :: !InPriceRange(n as real, PriceRanges[j])
  {
    PriceRangesShape();
    var k := if n <= 100 then 0 else if n > 900 then 9 else (n - 1) / 100;
    forall j | 0 <= j < 10 && j != k
      ensures !InPriceRange(n as real, PriceRanges[j])
    {
      if j < k { BandsDisjoint(n as real, j, k); } else { BandsDisjoint(n as real, k, j); }
    }
  }

  /** A price strictly between two bands, such as 100.5, and a negative price lie
      in no band. */
  lemma PricesInNoBand(price: real)
    requires price < 0.0 || 100.0 < price < 101.0
    ensures forall i | 0 <= i < 10 :: !InPriceRange(price, PriceRanges[i])
  {
    PriceRangesShape();
  }

  /** The number of bands that hold `price`. */
  function Hits(price: real, bands: seq<PriceRange>, inBand: (real, PriceRange) -> bool): nat
    decreases |bands|
  {
    if bands == [] then 0 else (if inBand(price, bands[0]) then 1 else 0) + Hits(price, bands[1..], inBand)
  }

  lemma {:induction false} HitsNone(price: real, bands: seq<PriceRange>, inBand: (real, PriceRange) -> bool)
    requires forall i | 0 <= i < |bands| :: !inBand(price, bands[i])
    ensures Hits(price, bands, inBand) == 0
    decreases |bands|
  {
    if bands != [] {
      assert forall i | 0 <= i < |bands| - 1 :: bands[1..][i] == bands[i + 1];
      HitsNone(price, bands[1..], inBand);
    }
  }

  lemma {:induction false} HitsOne(price: real, bands: seq<PriceRange>, inBand: (real, PriceRange) -> bool, k: int)
    requires 0 <= k < |bands| && inBand(price, bands[k])
    requires forall i | 0 <= i < |bands| && i != k :: !inBand(price, bands[i])
    ensures Hits(price, bands, inBand) == 1
    decreases |bands|
  {
    assert forall i | 0 <= i < |bands| - 1 :: bands[1..][i] == bands[i + 1];
    if k == 0 {
      HitsNone(price, bands[1..], inBand);
    } else {
      HitsOne(price, bands[1..], inBand, k - 1);
    }
  }

  function TotalCount(entries: seq<BarEntry>): nat
    decreases |entries|
  {
    if entries == [] then 0 else entries[0].count + TotalCount(entries[1..])
  }

  /** Adding a record to the front adds its band hits to the total. */
  lemma {:induction false} TotalCountCons(t: Transaction, s: seq<Transaction>, bands: seq<PriceRange>,
                                          inBand: (real, PriceRange) -> bool)
    ensures TotalCount(BandEntries([t] + s, bands, inBand))
            == Hits(t.price, bands, inBand) + TotalCount(BandEntries(s, bands, inBand))
    decreases |bands|
  {
    if bands != [] {
      var p := (x: Transaction) => inBand(x.price, bands[0]);
      assert ([t] + s)[1..] == s;
      assert |Filter([t] + s, p)| == (if p(t) then 1 else 0) + |Filter(s, p)|;
      TotalCountCons(t, s, bands[1..], inBand);
    }
  }

  /** The band counts add up to the number of records whose price lies in a band,
      when no price lies in two bands. */
  lemma {:induction false} TotalCountIsBandedRecords(s: seq<Transaction>, bands: seq<PriceRange>,
                                                     inBand: (real, PriceRange) -> bool)
    requires forall t | t in s :: Hits(t.price, bands, inBand) <= 1
    ensures TotalCount(BandEntries(s, bands, inBand))
            == |Filter(s, (t: Transaction) => Hits(t.price, bands, inBand) == 1)|
    decreases |s|
  {
    if s == [] {
      EmptyStoreTotal(bands, inBand);
    } else {
      assert s == [s[0]] + s[1..];
      TotalCountCons(s[0], s[1..], bands, inBand);
      TotalCountIsBandedRecords(s[1..], bands, inBand);
    }
  }

  lemma {:induction false} EmptyStoreTotal(bands: seq<PriceRange>, inBand: (real, PriceRange) -> bool)
    ensures TotalCount(BandEntries([], bands, inBand)) == 0
    decreases |bands|
  {
    if bands != [] {
      EmptyStoreTotal(bands[1..], inBand);
    }
  }

  /** The price lies in one of the bands as written. */
  predicate InSomeBand(t: Transaction) {
    Hits(t.price, PriceRanges, InPriceRange) == 1
  }

  predicate WholeNonNegativePrice(t: Transaction) {
    t.price >= 0.0 && t.price == t.price.Floor as real
  }

  /** The band counts of a set of records add up to the records priced inside a
      band: all of them when every price is a non-negative integer. */
  lemma BandedTotal(w: seq<Transaction>)
    ensures TotalCount(BandEntries(w, PriceRanges, InPriceRange)) == |Filter(w, InSomeBand)| <= |w|
    ensures (forall t | t in w :: WholeNonNegativePrice(t)) ==> TotalCount(BandEntries(w, PriceRanges, InPriceRange)) == |w|
  {
    forall t | t in w
      ensures Hits(t.price, PriceRanges, InPriceRange) <= 1
      ensures WholeNonNegativePrice(t) ==> InSomeBand(t)
    {
      HitsAtMostOne(t.price);
    }
    TotalCountIsBandedRecords(w, PriceRanges, InPriceRange);
    FilterAgree(w, (t: Transaction) => Hits(t.price, PriceRanges, InPriceRange) == 1, InSomeBand);
    if forall t | t in w :: WholeNonNegativePrice(t) {
      FilterAll(w, InSomeBand);
    }
  }

  /** What the bar chart counts: at most the records of the window, and all of
      them when every price of the window is a non-negative integer. */
  lemma BarChartTotal(store: seq<Transaction>, month: Option<string>)
    requires MonthParamDefined(month) && AggregateMonth(month).Ok?
    ensures GetBarChartData(store, month).Ok?
    ensures
      var w := WindowRecords(store, AggregateMonth(month).value);
      var total := TotalCount(GetBarChartData(store, month).value);
      && total == |Filter(w, InSomeBand)| <= |w|
      && ((forall t | t in w :: WholeNonNegativePrice(t)) ==> total == |w|)
  {
    BandedTotal(WindowRecords(store, AggregateMonth(month).value));
  }

  /** A price lies in at most one band, and a non-negative integer price in one. */
  lemma HitsAtMostOne(price: real)
    ensures Hits(price, PriceRanges, InPriceRange) <= 1
    ensures price >= 0.0 && price == price.Floor as real ==> Hits(price, PriceRanges, InPriceRange) == 1
  {
    PriceRangesShape();
    if k :| 0 <= k < 10 && InPriceRange(price, PriceRanges[k]) {
      forall j | 0 <= j < 10 && j != k
        ensures !InPriceRange(price, PriceRanges[j])
      {
        if j < k { BandsDisjoint(price, j, k); } else { BandsDisjoint(price, k, j); }
      }
      HitsOne(price, PriceRanges, InPriceRange, k);
    } else {
      HitsNone(price, PriceRanges, InPriceRange);
      if price >= 0.0 && price == price.Floor as real {
        IntegerPriceInOneBand(price.Floor);
      }
    }
  }

  /** The bands as written leave out a sale of February 2022 priced 100.5: the
      window holds it and no band counts it. `Some("February")` is such a month
      value (`MonthNameAccepted`). */
  lemma FractionalPriceUncounted(month: Option<string>)
    requires MonthParamDefined(month) && AggregateMonth(month) == Ok(1)
    ensures
      var t := Transaction("Mouse", None, 100.5, "electronics", StartOfMonth(1), true, "https://example.com/mouse.jpg");
      && GetBarChartData([t], month).Ok?
      && |WindowRecords([t], 1)| == 1
      && TotalCount(GetBarChartData([t], month).value) == 0
  {
    var t := Transaction("Mouse", None, 100.5, "electronics", StartOfMonth(1), true, "https://example.com/mouse.jpg");
    assert InWindow(t, 1);
    assert WindowRecords([t], 1) == [t];
    UncountedRecord(t);
  }

  /** A record priced 100.5 adds nothing to any band as written. */
  lemma UncountedRecord(t: Transaction)
    requires t.price == 100.5
    ensures TotalCount(BandEntries([t], PriceRanges, InPriceRange)) == 0
  {
    PricesInNoBand(100.5);
    HitsNone(100.5, PriceRanges, InPriceRange);
    assert [t] == [t] + [];
    TotalCountCons(t, [], PriceRanges, InPriceRange);
    EmptyStoreTotal(PriceRanges, InPriceRange);
  }

  /** Contiguous bands: each band after the first starts just above the previous
      band's maximum, so the bands split the non-negative prices among them. */
  predicate InPriceRangeContiguous(price: real, b: PriceRange) {
    (if b.min == 0 then 0.0 <= price else (b.min - 1) as real < price)
    && (b.max.Infinity? || price <= b.max.n as real)
  }

  /** The bar chart with contiguous bands. */
  function GetBarChartDataContiguous(store: seq<Transaction>, month: Option<string>): (r: Result<seq<BarEntry>, ReportError>)
    requires MonthParamDefined(month)
    ensures r.Err? <==> AggregateMonth(month).Err?
    ensures r.Ok? ==>
      var w := WindowRecords(store, AggregateMonth(month).value);
      && |r.value| == 10
      && forall i | 0 <= i < 10 ::
           r.value[i].range == PriceRanges[i].range
           && r.value[i].count == BandCount(w, PriceRanges[i], InPriceRangeContiguous)
  {
    match AggregateMonth(month)
    case Err(e) => Err(e)
    case Ok(mi) => Ok(BandEntries(WindowRecords(store, mi), PriceRanges, InPriceRangeContiguous))
  }

  /** The contiguous bands agree with the bands as written on every integer price. */
  lemma ContiguousAgreesOnIntegers(n: int, i: int)
    requires 0 <= i < 10
    ensures InPriceRangeContiguous(n as real, PriceRanges[i]) == InPriceRange(n as real, PriceRanges[i])
  {
    PriceRangesShape();
  }

  /** The contiguous band of a non-negative price. */
  function ContiguousBand(price: real): (k: int)
    requires price >= 0.0
    ensures 0 <= k < 10 && InPriceRangeContiguous(price, PriceRanges[k])
  {
    PriceRangesShape();
    if price <= 100.0 then 0
    else if price <= 200.0 then 1
    else if price <= 300.0 then 2
    else if price <= 400.0 then 3
    else if price <= 500.0 then 4
    else if price <= 600.0 then 5
    else if price <= 700.0 then 6
    else if price <= 800.0 then 7
    else if price <= 900.0 then 8
    else 9
  }

  /** Every non-negative price lies in exactly one contiguous band, and a negative
      price in none. */
  lemma ContiguousHits(price: real)
    ensures Hits(price, PriceRanges, InPriceRangeContiguous) == if price >= 0.0 then 1 else 0
  {
    PriceRangesShape();
    if price < 0.0 {
      HitsNone(price, PriceRanges, InPriceRangeContiguous);
    } else {
      var k := ContiguousBand(price);
      forall j | 0 <= j < 10 && j != k
        ensures !InPriceRangeContiguous(price, PriceRanges[j])
      {
      }
      HitsOne(price, PriceRanges, InPriceRangeContiguous, k);
    }
  }

  predicate NonNegativePrice(t: Transaction) {
    t.price >= 0.0
  }

  /** With contiguous bands the bar chart counts every record of the window whose
      price is not negative, so a window of such records is counted in full. */
  lemma ContiguousBarChartTotal(store: seq<Transaction>, month: Option<string>)
    requires MonthParamDefined(month) && AggregateMonth(month).Ok?
    ensures GetBarChartDataContiguous(store, month).Ok?
    ensures
      var w := WindowRecords(store, AggregateMonth(month).value);
      TotalCount(GetBarChartDataContiguous(store, month).value) == |Filter(w, NonNegativePrice)|
  {
    ContiguousTotal(WindowRecords(store, AggregateMonth(month).value));
  }

  lemma ContiguousTotal(w: seq<Transaction>)
    ensures TotalCount(BandEntries(w, PriceRanges, InPriceRangeContiguous)) == |Filter(w, NonNegativePrice)|
  {
    forall t | t in w
      ensures Hits(t.price, PriceRanges, InPriceRangeContiguous) <= 1
      ensures (Hits(t.price, PriceRanges, InPriceRangeContiguous) == 1) == NonNegativePrice(t)
    {
      ContiguousHits(t.price);
    }
    TotalCountIsBandedRecords(w, PriceRanges, InPriceRangeContiguous);
    FilterAgree(w, (t: Transaction) => Hits(t.price, PriceRanges, InPriceRangeContiguous) == 1, NonNegativePrice);
  }

  // ---------------------------------------------------------------------------
  // Pie chart
  // ---------------------------------------------------------------------------

  /** An element of the `$group` / `$project` output. */
  datatype PieEntry = PieEntry(category: string, count: nat)

  function CategoryCount(s: seq<Transaction>, c: string): nat {
    |Filter(s, (t: Transaction) => t.category == c)|
  }

  /** The count of the first entry for category `k`, 0 when there is none. */
  function Lookup(g: seq<PieEntry>, k: string): nat
    decreases |g|
  {
    if g == [] then 0 else if g[0].category == k then g[0].count else Lookup(g[1..], k)
  }

  predicate HasCategory(g: seq<PieEntry>, k: string) {
    exists i | 0 <= i < |g| :: g[i].category == k
  }

  predicate DistinctCategories(g: seq<PieEntry>) {
    forall i, j | 0 <= i < j < |g| :: g[i].category != g[j].category
  }

  function TotalPie(g: seq<PieEntry>): nat
    decreases |g|
  {
    if g == [] then 0 else g[0].count + TotalPie(g[1..])
  }

  lemma HasCategoryTail(g: seq<PieEntry>)
    requires g != []
    ensures forall k | HasCategory(g[1..], k) :: HasCategory(g, k)
  {
    forall k | HasCategory(g[1..], k)
      ensures HasCategory(g, k)
    {
      var j :| 0 <= j < |g[1..]| && g[1..][j].category == k;
      assert g[j + 1].category == k;
    }
  }

  /** Counts one more sale of category `c`. */
  function Tally(g: seq<PieEntry>, c: string): (r: seq<PieEntry>)
    ensures forall k :: Lookup(r, k) == Lookup(g, k) + (if k == c then 1 else 0)
    ensures forall i | 0 <= i < |r| :: r[i].category == c || HasCategory(g, r[i].category)
    ensures (forall i | 0 <= i < |g| :: g[i].count >= 1) ==> forall i | 0 <= i < |r| :: r[i].count >= 1
    ensures TotalPie(r) == TotalPie(g) + 1
    decreases |g|
  {
    if g == [] then [PieEntry(c, 1)]
    else if g[0].category == c then
      assert ([PieEntry(c, g[0].count + 1)] + g[1..])[1..] == g[1..];
      [PieEntry(c, g[0].count + 1)] + g[1..]
    else
      var rest := Tally(g[1..], c);
      assert ([g[0]] + rest)[1..] == rest;
      HasCategoryTail(g);
      [g[0]] + rest
  }

  /** Tallying keeps the categories distinct. */
  lemma {:induction false} TallyDistinct(g: seq<PieEntry>, c: string)
    requires DistinctCategories(g)
    ensures DistinctCategories(Tally(g, c))
    decreases |g|
  {
    if g != [] && g[0].category != c {
      var rest := Tally(g[1..], c);
      assert DistinctCategories(g[1..]) by {
        forall i, j | 0 <= i < j < |g[1..]|
          ensures g[1..][i].category != g[1..][j].category
        {
          assert g[1..][i] == g[i + 1] && g[1..][j] == g[j + 1];
        }
      }
      TallyDistinct(g[1..], c);
      forall i | 0 <= i < |rest|
        ensures rest[i].category != g[0].category
      {
        if rest[i].category != c {
          var j :| 0 <= j < |g[1..]| && g[1..][j].category == rest[i].category;
          assert g[j + 1].category == rest[i].category;
        }
      }
      assert Tally(g, c) == [g[0]] + rest;
    }
  }

  /** The `$group: { _id: "$category", count: { $sum: 1 } }` stage: one entry per
      category that occurs, each with its number of records. */
  function GroupByCategory(s: seq<Transaction>): (g: seq<PieEntry>)
    ensures DistinctCategories(g)
    ensures forall i | 0 <= i < |g| :: g[i].count >= 1
    ensures forall k :: Lookup(g, k) == CategoryCount(s, k)
    ensures TotalPie(g) == |s|
    decreases |s|
  {
    if s == [] then []
    else
      TallyDistinct(GroupByCategory(s[1..]), s[0].category);
      Tally(GroupByCategory(s[1..]), s[0].category)
  }

  lemma {:induction false} LookupDistinct(g: seq<PieEntry>, i: int)
    requires DistinctCategories(g) && 0 <= i < |g|
    ensures Lookup(g, g[i].category) == g[i].count
    decreases |g|
  {
    if i > 0 {
      assert g[1..][i - 1] == g[i];
      LookupDistinct(g[1..], i - 1);
    }
  }

  lemma {:induction false} LookupAbsent(g: seq<PieEntry>, k: string)
    requires !HasCategory(g, k)
    ensures Lookup(g, k) == 0
    decreases |g|
  {
    if g != [] {
      forall j | 0 <= j < |g[1..]|
        ensures g[1..][j].category != k
      {
        assert g[1..][j] == g[j + 1];
      }
      LookupAbsent(g[1..], k);
    }
  }

  function GetPieChartData(store: seq<Transaction>, month: Option<string>): (r: Result<seq<PieEntry>, ReportError>)
    requires MonthParamDefined(month)
    ensures r.Err? <==> AggregateMonth(month).Err?
    ensures r.Ok? ==> r.value == GroupByCategory(WindowRecords(store, AggregateMonth(month).value))
  {
    match AggregateMonth(month)
    case Err(e) => Err(e)
    case Ok(mi) => Ok(GroupByCategory(WindowRecords(store, mi)))
  }

  /** The grouping has one entry per category of `w` and no other: each count is
      at least 1 and is the number of records of that category. */
  lemma GroupByCategoryEntries(w: seq<Transaction>)
    ensures
      var g := GroupByCategory(w);
      && (forall i | 0 <= i < |g| :: 1 <= g[i].count == CategoryCount(w, g[i].category))
      && (forall t | t in w :: HasCategory(g, t.category))
  {
    var g := GroupByCategory(w);
    forall i | 0 <= i < |g|
      ensures g[i].count == CategoryCount(w, g[i].category)
    {
      LookupDistinct(g, i);
    }
    forall t | t in w
      ensures HasCategory(g, t.category)
    {
      var p := (x: Transaction) => x.category == t.category;
      var j :| 0 <= j < |w| && w[j] == t;
      assert Filter(w, p) != [];
      if !HasCategory(g, t.category) {
        LookupAbsent(g, t.category);
      }
    }
  }

  /** The pie chart has one entry per category of the window and no other: each
      count is at least 1 and is the number of window records of that category,
      and the counts add up to the number of window records. */
  lemma PieChartEntries(store: seq<Transaction>, month: Option<string>)
    requires MonthParamDefined(month) && AggregateMonth(month).Ok?
    ensures GetPieChartData(store, month).Ok?
    ensures
      var w := WindowRecords(store, AggregateMonth(month).value);
      var g := GetPieChartData(store, month).value;
      && DistinctCategories(g)
      && (forall i | 0 <= i < |g| :: 1 <= g[i].count == CategoryCount(w, g[i].category))
      && (forall t | t in w :: HasCategory(g, t.category))
      && TotalPie(g) == |w|
  {
    GroupByCategoryEntries(WindowRecords(store, AggregateMonth(month).value));
  }
}

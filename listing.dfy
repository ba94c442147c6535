/** `listTransactions`: validate the pagination and month parameters, keep the
    records sold in the requested calendar month of any year whose title or
    description contains the search text (ignoring case) or whose price equals
    the search read as a number, and return one page of them. */
module Listing {
  import opened Wrappers
  import opened Text
  import opened Calendar
  import opened TransactionModel
  import opened Sequences

  /** A query parameter read with `parseInt(value, 10)`: not given (the default
      applies), not a number, or an integer. */
  datatype IntParam = Absent | NotANumber | Int(n: int)

  function ParseIntParam(p: IntParam, default: int): Option<int> {
    match p
    case Absent => Some(default)
    case NotANumber => None
    case Int(n) => Some(n)
  }

  predicate IsPositive(v: Option<int>) {
    v.Some? && v.value >= 1
  }

  datatype ListError = InvalidPage | InvalidPerPage | InvalidMonth | NoTransactions {
    function Status(): int {
      if NoTransactions? then 404 else 400
    }
  }

  /** What `new Date(month + " 1, 2020").getMonth() + 1` yields: 1 to 12 for a month
      name, None (NaN) otherwise, including a missing parameter. */
  function ListMonthNumber(month: Option<string>): (r: Option<int>)
    ensures r.Some? ==> month.Some? && 1 <= r.value <= 12 && EqualsIgnoringCase(month.value, MonthNames[r.value - 1])
    ensures r.None? <==> month.None? || MonthIndex(month.value).None?
  {
    if month.Some? && MonthIndex(month.value).Some? then Some(MonthIndex(month.value).value + 1) else None
  }

  type Positive = n: int | n >= 1 witness 1

  /** The `searchCriteria` document: the month number, the search text and the
      search read as a number. */
  datatype SearchCriteria = SearchCriteria(monthNumber: int, search: string, searchAsNumber: Option<real>)

  /** A validated listing request. */
  datatype ListQuery = ListQuery(criteria: SearchCriteria, skip: nat, limit: Positive)

  /** The number of matches before page `pages + 1`: `pages` pages of `perPage`
      records each. */
  function Offset(pages: nat, perPage: nat): nat {
    if pages == 0 then 0 else Offset(pages - 1, perPage) + perPage
  }

  /** The offset is the product `(pageNumber - 1) * itemsPerPage` the handler
      computes. */
  lemma {:induction false} OffsetIsProduct(pages: nat, perPage: nat)
    ensures Offset(pages, perPage) == pages * perPage
  {
    if pages > 0 {
      OffsetIsProduct(pages - 1, perPage);
    }
  }

  /** Parameter validation, in the order of the handler: page, then perPage, then
      month. `searchAsNumber` is `parseFloat(search)` (None for NaN); `search`
      defaults to the empty text, `page` to 1 and `perPage` to 10. */
  function ParseListQuery(month: Option<string>, search: Option<string>, searchAsNumber: Option<real>,
                          page: IntParam, perPage: IntParam): (r: Result<ListQuery, ListError>)
    ensures r == Err(InvalidPage) <==> !IsPositive(ParseIntParam(page, 1))
    ensures r == Err(InvalidPerPage) <==> IsPositive(ParseIntParam(page, 1)) && !IsPositive(ParseIntParam(perPage, 10))
    ensures r == Err(InvalidMonth) <==>
      IsPositive(ParseIntParam(page, 1)) && IsPositive(ParseIntParam(perPage, 10)) && ListMonthNumber(month).None?
    ensures r.Err? ==> r.error != NoTransactions
    ensures r.Ok? ==>
      var pageNumber, itemsPerPage := ParseIntParam(page, 1).value, ParseIntParam(perPage, 10).value;
      && pageNumber >= 1 && itemsPerPage >= 1
      && r.value.skip == Offset(pageNumber - 1, itemsPerPage)
      && r.value.limit == itemsPerPage
      && Some(r.value.criteria.monthNumber) == ListMonthNumber(month)
      && r.value.criteria.search == (if search.Some? then search.value else "")
      && r.value.criteria.searchAsNumber == searchAsNumber
  {
    var pageNumber, itemsPerPage := ParseIntParam(page, 1), ParseIntParam(perPage, 10);
    var monthNumber := ListMonthNumber(month);
    if !IsPositive(pageNumber) then Err(InvalidPage)
    else if !IsPositive(itemsPerPage) then Err(InvalidPerPage)
    else if monthNumber.None? then Err(InvalidMonth)
    else
      var criteria := SearchCriteria(monthNumber.value, if search.Some? then search.value else "", searchAsNumber);
      Ok(ListQuery(criteria, Offset(pageNumber.value - 1, itemsPerPage.value), itemsPerPage.value))
  }

  /** The `$or` of the search criteria: title or description contains the search
      (a missing description matches nothing), or the price equals the number. */
  predicate MatchesSearch(t: Transaction, search: string, searchAsNumber: Option<real>) {
    || ContainsIgnoringCase(t.title, search)
    || (t.description.Some? && ContainsIgnoringCase(t.description.value, search))
    || (searchAsNumber.Some? && t.price == searchAsNumber.value)
  }

  /** The whole filter: `$month` of the sale date, in any year, and the search. */
  predicate ListMatch(t: Transaction, c: SearchCriteria) {
    MonthOf(t.dateOfSale) == c.monthNumber && MatchesSearch(t, c.search, c.searchAsNumber)
  }

  /** The filter of `c` as a predicate on records. */
  function MatchPredicate(c: SearchCriteria): Transaction -> bool {
    t => ListMatch(t, c)
  }

  /** The records that `Transaction.find(searchCriteria)` returns. */
  function Matching(store: seq<Transaction>, c: SearchCriteria): (r: seq<Transaction>)
    ensures forall i | 0 <= i < |r| :: r[i] in store && ListMatch(r[i], c)
    ensures forall i | 0 <= i < |store| :: ListMatch(store[i], c) ==> store[i] in r
  {
    Filter(store, MatchPredicate(c))
  }

  /** Each matching record is returned as often as the store holds it, and no
      other record is returned. */
  lemma MatchingCounts(store: seq<Transaction>, c: SearchCriteria)
    ensures forall t :: multiset(Matching(store, c))[t] == if ListMatch(t, c) then multiset(store)[t] else 0
  {
    FilterCounts(store, MatchPredicate(c));
    forall t
      ensures multiset(Matching(store, c))[t] == if ListMatch(t, c) then multiset(store)[t] else 0
    {
      assert MatchPredicate(c)(t) == ListMatch(t, c);
    }
  }

  /** The matches come in store order: they are the store's records at the
      increasing positions whose records match, and every such position is used. */
  lemma MatchingInStoreOrder(store: seq<Transaction>, c: SearchCriteria)
    ensures
      var r, ix := Matching(store, c), FilterPositions(store, MatchPredicate(c));
      && |ix| == |r|
      && (forall k | 0 <= k < |r| :: ix[k] < |store| && r[k] == store[ix[k]])
      && (forall k, l | 0 <= k < l < |r| :: ix[k] < ix[l])
      && (forall i | 0 <= i < |store| :: ListMatch(store[i], c) <==> i in ix)
  {
    var ix := FilterPositions(store, MatchPredicate(c));
    forall i | 0 <= i < |store|
      ensures ListMatch(store[i], c) <==> i in ix
    {
      assert MatchPredicate(c)(store[i]) == ListMatch(store[i], c);
    }
  }

  /** A store without duplicate records gives matches without duplicates. */
  lemma MatchingDistinct(store: seq<Transaction>, c: SearchCriteria)
    requires Distinct(store)
    ensures Distinct(Matching(store, c))
  {
    FilterDistinct(store, MatchPredicate(c));
  }

  /** The query and pagination of a validated request: the page of the matches
      that starts at `q.skip`, or 404 when it is empty. */
  function ListPage(store: seq<Transaction>, q: ListQuery): (r: Result<seq<Transaction>, ListError>)
    ensures r.Err? <==> q.skip >= |Matching(store, q.criteria)|
    ensures r.Err? ==> r.error == NoTransactions
    ensures r.Ok? ==> |r.value| == Min(q.limit, |Matching(store, q.criteria)| - q.skip)
    ensures r.Ok? ==> forall i | 0 <= i < |r.value| :: r.value[i] == Matching(store, q.criteria)[q.skip + i]
    ensures r.Ok? ==> forall i | 0 <= i < |r.value| :: ListMatch(r.value[i], q.criteria)
  {
    var transactions := Page(Matching(store, q.criteria), q.skip, q.limit);
    if |transactions| == 0 then Err(NoTransactions) else Ok(transactions)
  }

  /** The listing handler: the parameters are checked before any query runs. */
  function ListTransactions(store: seq<Transaction>, month: Option<string>, search: Option<string>,
                            searchAsNumber: Option<real>, page: IntParam, perPage: IntParam): (r: Result<seq<Transaction>, ListError>)
    ensures ParseListQuery(month, search, searchAsNumber, page, perPage).Err? ==>
              r == Err(ParseListQuery(month, search, searchAsNumber, page, perPage).error)
    ensures ParseListQuery(month, search, searchAsNumber, page, perPage).Ok? ==>
              r == ListPage(store, ParseListQuery(month, search, searchAsNumber, page, perPage).value)
  {
    match ParseListQuery(month, search, searchAsNumber, page, perPage)
    case Err(e) => Err(e)
    case Ok(q) => ListPage(store, q)
  }

  /** The rows a listing response carries: none for an error. */
  function Rows(r: Result<seq<Transaction>, ListError>): seq<Transaction> {
    if r.Ok? then r.value else []
  }

  /** The rows of a listing response are the page of the matches, empty past the end. */
  lemma ListPageRows(store: seq<Transaction>, q: ListQuery)
    ensures Rows(ListPage(store, q)) == Page(Matching(store, q.criteria), q.skip, q.limit)
  {
  }

  /** Pages `p` and `p + 1` are consecutive runs of the matches: page `p + 1`
      skips `limit` more matches than page `p` (`p * limit` against
      `(p - 1) * limit`), and together the two are the run of `2 * limit` matches
      from the first page's offset. */
  lemma ConsecutiveListPages(store: seq<Transaction>, c: SearchCriteria, skip: nat, limit: Positive)
    ensures Rows(ListPage(store, ListQuery(c, skip, limit))) + Rows(ListPage(store, ListQuery(c, skip + limit, limit)))
            == Page(Matching(store, c), skip, 2 * limit)
  {
    var m := Matching(store, c);
    var a, b := Rows(ListPage(store, ListQuery(c, skip, limit))), Rows(ListPage(store, ListQuery(c, skip + limit, limit)));
    ListPageRows(store, ListQuery(c, skip, limit));
    ListPageRows(store, ListQuery(c, skip + limit, limit));
    assert a == Page(m, skip, limit);
    assert b == Page(m, skip + limit, limit);
    ConsecutivePages(m, skip, limit);
  }

  /** The first two pages (skip 0 and skip `limit`) are the first `2 * limit`
      matches. */
  lemma FirstTwoListPages(store: seq<Transaction>, c: SearchCriteria, limit: Positive)
    ensures Rows(ListPage(store, ListQuery(c, 0, limit))) + Rows(ListPage(store, ListQuery(c, limit, limit)))
            == Matching(store, c)[..Min(2 * limit, |Matching(store, c)|)]
  {
    var m := Matching(store, c);
    var a, b := Rows(ListPage(store, ListQuery(c, 0, limit))), Rows(ListPage(store, ListQuery(c, limit, limit)));
    ListPageRows(store, ListQuery(c, 0, limit));
    ListPageRows(store, ListQuery(c, limit, limit));
    assert a == Page(m, 0, limit);
    assert b == Page(m, limit, limit);
    FirstTwoPages(m, limit);
  }

  /** In a store without duplicate records, pages `p` and `p + 1` share no record. */
  lemma ConsecutiveListPagesDisjoint(store: seq<Transaction>, c: SearchCriteria, skip: nat, limit: Positive)
    requires Distinct(store)
    ensures forall t | t in Rows(ListPage(store, ListQuery(c, skip, limit))) ::
              t !in Rows(ListPage(store, ListQuery(c, skip + limit, limit)))
  {
    MatchingDistinct(store, c);
    ListPageRows(store, ListQuery(c, skip, limit));
    ListPageRows(store, ListQuery(c, skip + limit, limit));
    DisjointPages(Matching(store, c), skip, skip + limit, limit);
  }

  /** With an empty search and no numeric search, the listing keeps every record of
      the month: the title always contains the empty text. */
  lemma EmptySearchMatchesWholeMonth(store: seq<Transaction>, c: SearchCriteria)
    requires c.search == "" && c.searchAsNumber.None?
    ensures Matching(store, c) == Filter(store, (t: Transaction) => MonthOf(t.dateOfSale) == c.monthNumber)
  {
    forall t | t in store
      ensures ListMatch(t, c) == (MonthOf(t.dateOfSale) == c.monthNumber)
    {
      EmptyPatternEverywhere(t.title);
    }
    FilterAgree(store, MatchPredicate(c), (t: Transaction) => MonthOf(t.dateOfSale) == c.monthNumber);
  }

  /** The listing's month filter ignores the year: a record sold in the requested
      month of any year passes it. */
  lemma ListingIgnoresYear(t: Transaction, c: SearchCriteria, year: int, day: int, msOfDay: int)
    requires 1 <= c.monthNumber <= 12 && 1 <= day <= DaysInMonth(year, c.monthNumber) && 0 <= msOfDay < 86_400_000
    requires t.dateOfSale == Civil(year, c.monthNumber, day, msOfDay).Time()
    requires MatchesSearch(t, c.search, c.searchAsNumber)
    ensures ListMatch(t, c)
  {
    CivilRoundTrip(Civil(year, c.monthNumber, day, msOfDay));
  }

  /** A record of the requested month is listed when its title holds the search
      text in any mix of upper- and lower-case letters. */
  lemma SearchIgnoresCase(t: Transaction, c: SearchCriteria, i: int)
    requires MonthOf(t.dateOfSale) == c.monthNumber
    requires 0 <= i <= |t.title| - |c.search|
    requires forall k | 0 <= k < |c.search| ::
               t.title[i + k] == c.search[k] || OtherCase(t.title[i + k], c.search[k])
    ensures ListMatch(t, c)
  {
    CaseVariantOccurs(t.title, c.search, i);
  }

  /** A record of the requested month whose price equals the search read as a
      number is listed, whatever its title and description hold. */
  lemma NumericSearchMatchesPrice(t: Transaction, c: SearchCriteria)
    requires MonthOf(t.dateOfSale) == c.monthNumber
    requires c.searchAsNumber == Some(t.price)
    ensures ListMatch(t, c)
  {
  }

  /** By `ParseListQuery`, a valid request for page `p` skips `Offset(p - 1, perPage)`
      matches; the request for page `p + 1` skips exactly `perPage` more. So
      `ConsecutiveListPages` and `ConsecutiveListPagesDisjoint` speak of the pages
      of two such requests. */
  lemma NextPageSkip(p: int, perPage: int)
    requires p >= 1 && perPage >= 1
    ensures Offset((p + 1) - 1, perPage) == Offset(p - 1, perPage) + perPage
  {
  }
}

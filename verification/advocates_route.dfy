/**
  The `GET /api/advocates` handler: read every advocate from the store,
  keep those matching the optional `specialty` and `city` parameters, and
  return one page of them with pagination metadata, or a 500 error when the
  store fails.  The store is a parameter: its outcome is passed in.
 */
module AdvocatesRoute {
  import opened Common
  import opened AdvocateTypes
  import opened Paging

  const DefaultPage: int := 1
  const DefaultPageSize: int := 10
  const FetchFailedMessage: string := "Failed to fetch advocates"

  /**
    The query string.  `page` and `pageSize` hold the parsed integers, `None`
    when the parameter is absent or empty; `specialty` and `city` hold the raw
    parameter values.
   */
  datatype Query = Query(
    page: Option<int>,
    pageSize: Option<int>,
    specialty: Option<string>,
    city: Option<string>
  )

  datatype PaginationInfo = PaginationInfo(total: nat, page: int, pageSize: int, totalPages: nat)

  /** The JSON body: a page of results, or `{error}`. */
  datatype Body =
    | Listing(data: seq<Advocate>, pagination: PaginationInfo)
    | ErrorBody(error: string)

  datatype Response = Response(status: int, body: Body)

  /** Whatever the database call threw. */
  datatype StoreError = StoreError(message: string)

  /** Page numbers and sizes, when given, are positive. */
  predicate ValidQuery(q: Query) {
    && (q.page.Some? ==> q.page.value >= 1)
    && (q.pageSize.Some? ==> q.pageSize.value >= 1)
  }

  /** `parseInt(value || default)`. */
  function OrDefault(v: Option<int>, default: int): int {
    if v.Some? then v.value else default
  }

  /** `advocate.specialties.includes(specialty)`. */
  function HasSpecialty(specialty: string): Advocate -> bool {
    (a: Advocate) => specialty in a.specialties
  }

  /** `advocate.city === city`. */
  function InCity(city: string): Advocate -> bool {
    (a: Advocate) => a.city == city
  }

  /** A record passes every filter whose parameter is present and non-empty. */
  predicate Matches(a: Advocate, specialty: Option<string>, city: Option<string>) {
    && (Truthy(specialty) ==> specialty.value in a.specialties)
    && (Truthy(city) ==> a.city == city.value)
  }

  /**
    The specialty filter, then the city filter, each applied only when its
    parameter is truthy.  The result keeps exactly the matching records, each
    as often as it occurs in the input.
   */
  function ApplyFilters(xs: seq<Advocate>, specialty: Option<string>, city: Option<string>): (r: seq<Advocate>)
    ensures forall a :: a in r <==> a in xs && Matches(a, specialty, city)
    ensures forall a :: multiset(r)[a] == if Matches(a, specialty, city) then multiset(xs)[a] else 0
    ensures !Truthy(specialty) && !Truthy(city) ==> r == xs
  {
    var bySpecialty :=
      if Truthy(specialty) then
        FilterContents(xs, HasSpecialty(specialty.value));
        Filter(xs, HasSpecialty(specialty.value))
      else xs;
    if Truthy(city) then
      FilterContents(bySpecialty, InCity(city.value));
      Filter(bySpecialty, InCity(city.value))
    else bySpecialty
  }

  /** Filtering a concatenation filters each part: the input order is kept. */
  lemma ApplyFiltersAppend(a: seq<Advocate>, b: seq<Advocate>, specialty: Option<string>, city: Option<string>)
    ensures ApplyFilters(a + b, specialty, city) == ApplyFilters(a, specialty, city) + ApplyFilters(b, specialty, city)
  {
    var sa := if Truthy(specialty) then Filter(a, HasSpecialty(specialty.value)) else a;
    var sb := if Truthy(specialty) then Filter(b, HasSpecialty(specialty.value)) else b;
    if Truthy(specialty) {
      FilterAppend(a, b, HasSpecialty(specialty.value));
    }
    if Truthy(city) {
      FilterAppend(sa, sb, InCity(city.value));
    }
  }

  /** The request handler. */
  function Get(q: Query, store: Result<seq<Advocate>, StoreError>): (r: Response)
    requires ValidQuery(q)
    ensures store.Err? <==> r.status == 500
    ensures store.Err? ==> r.body == ErrorBody(FetchFailedMessage)
    ensures store.Ok? ==> r.status == 200 && r.body.Listing?
    ensures store.Ok? ==>
      var filtered := ApplyFilters(store.value, q.specialty, q.city);
      var p := r.body.pagination;
      && p.page == OrDefault(q.page, DefaultPage) >= 1
      && p.pageSize == OrDefault(q.pageSize, DefaultPageSize) >= 1
      && p.total == |filtered|
      && Times(p.totalPages, p.pageSize) >= p.total
      && (p.totalPages > 0 ==> Times(p.totalPages - 1, p.pageSize) < p.total)
      && |r.body.data| == Min(p.pageSize, Max(0, p.total - Offset(p.page, p.pageSize)))
      && (forall i :: 0 <= i < |r.body.data| ==> r.body.data[i] == filtered[Offset(p.page, p.pageSize) + i])
      && (r.body.data == [] <==> p.page > p.totalPages)
  {
    match store
    case Err(_) => Response(500, ErrorBody(FetchFailedMessage))
    case Ok(records) =>
      var page := OrDefault(q.page, DefaultPage);
      var pageSize := OrDefault(q.pageSize, DefaultPageSize);
      var filtered := ApplyFilters(records, q.specialty, q.city);
      var total := |filtered|;
      Response(200, Listing(PageSlice(filtered, page, pageSize),
                            PaginationInfo(total, page, pageSize, PageCount(total, pageSize))))
  }

  /** The query `q` asking for page `page` instead. */
  function AtPage(q: Query, page: int): Query {
    q.(page := Some(page))
  }

  /**
    The `data` of the query asking for page `n`: the `n`-th cut of the
    filtered list, whatever page the query itself named.
   */
  function DataOfPage(q: Query, records: seq<Advocate>, n: nat): (d: seq<Advocate>)
    requires ValidQuery(q) && n >= 1
    ensures d == PageSlice(ApplyFilters(records, q.specialty, q.city), n, OrDefault(q.pageSize, DefaultPageSize))
  {
    Get(AtPage(q, n), Ok(records)).body.data
  }

  /** The `data` of pages `1..n` of the same query, laid end to end. */
  function DataOfPages(q: Query, records: seq<Advocate>, n: nat): seq<Advocate>
    requires ValidQuery(q)
  {
    if n == 0 then []
    else DataOfPages(q, records, n - 1) + DataOfPage(q, records, n)
  }

  /** `total` depends only on the filters, never on `page` or `pageSize`. */
  lemma TotalIgnoresPaging(q1: Query, q2: Query, records: seq<Advocate>)
    requires ValidQuery(q1) && ValidQuery(q2)
    requires q1.specialty == q2.specialty && q1.city == q2.city
    ensures Get(q1, Ok(records)).body.pagination.total == Get(q2, Ok(records)).body.pagination.total
  {
  }

  lemma {:induction false} DataOfPagesIsPagesUpTo(q: Query, records: seq<Advocate>, n: nat)
    requires ValidQuery(q)
    ensures DataOfPages(q, records, n)
         == PagesUpTo(ApplyFilters(records, q.specialty, q.city), OrDefault(q.pageSize, DefaultPageSize), n)
  {
    if n > 0 {
      var filtered := ApplyFilters(records, q.specialty, q.city);
      var size := OrDefault(q.pageSize, DefaultPageSize);
      DataOfPagesIsPagesUpTo(q, records, n - 1);
      assert DataOfPage(q, records, n) == PageSlice(filtered, n, size);
    }
  }

  /**
    Requesting pages 1 to `totalPages` with the same filters and page size,
    and concatenating their `data`, yields exactly the filtered list.
   */
  lemma PagesReassembleFilteredList(q: Query, records: seq<Advocate>)
    requires ValidQuery(q)
    ensures DataOfPages(q, records, Get(q, Ok(records)).body.pagination.totalPages)
         == ApplyFilters(records, q.specialty, q.city)
  {
    var filtered := ApplyFilters(records, q.specialty, q.city);
    var size := OrDefault(q.pageSize, DefaultPageSize);
    DataOfPagesIsPagesUpTo(q, records, PageCount(|filtered|, size));
    AllPagesReassemble(filtered, size);
  }
}

/**
 * The locality list query (composables/useLocalities.ts): two mutable cells, `page` and
 * `pageSize`, and the values derived from them and from the fetched response. The fetched
 * response is an input (`None` until the first fetch settles); the transport is not modelled.
 */
module Localities {
  import opened Wrappers
  import opened ApiTypes

  const INITIAL_PAGE: int := 1
  const INITIAL_PAGE_SIZE: int := 20
  const EXPAND: string := "country"

  /** The query string sent with each fetch: `limit`, `offset` and `expand`, and no filter. */
  datatype QueryParams = QueryParams(limit: int, offset: int, expand: string)

  /** The JavaScript number `totalPages` evaluates to. */
  datatype PageCount = Finite(n: int) | PositiveInfinity | NotANumber

  /** `offset`: the index of the first row of `page`. */
  function Offset(page: int, pageSize: int): (r: int)
    ensures page == 1 ==> r == 0
  {
    (page - 1) * pageSize
  }

  /** `params`. */
  function Params(page: int, pageSize: int): (p: QueryParams)
    ensures p.limit == pageSize && p.offset == Offset(page, pageSize) && p.expand == EXPAND
  {
    QueryParams(pageSize, Offset(page, pageSize), EXPAND)
  }

  /** `results`: `data?.results ?? []`. */
  function Results(data: Option<ApiPage>): (r: seq<Locality>)
    ensures data.None? ==> r == []
    ensures data.Some? ==> r == data.value.results
  {
    if data.Some? then data.value.results else []
  }

  /** `total`: `data?.count ?? 0`. */
  function Total(data: Option<ApiPage>): (r: int)
    ensures data.None? ==> r == 0
    ensures data.Some? ==> r == data.value.count
  {
    if data.Some? then data.value.count else 0
  }

  /** `Math.ceil(a / b)` for a non-zero `b`, over exact rationals. */
  function CeilDiv(a: int, b: int): int
    requires b != 0
  {
    if b > 0 then -((-a) / b) else -(a / (-b))
  }

  /** Whether `n` pages of `pageSize` rows hold `total` rows. */
  predicate Covers(n: int, pageSize: int, total: int) {
    n * pageSize >= total
  }

  /** `totalPages`: `Math.max(1, Math.ceil(total / pageSize))`, including JavaScript's division by zero. */
  function TotalPages(total: int, pageSize: int): (r: PageCount)
    ensures pageSize != 0 ==> r.Finite? && r.n >= 1
  {
    if pageSize != 0 then
      var c := CeilDiv(total, pageSize);
      Finite(if c > 1 then c else 1)
    else if total > 0 then PositiveInfinity
    else if total < 0 then Finite(1)
    else NotANumber
  }

  /** Moving to the next page moves the window forward by exactly one page. */
  lemma NextPageOffset(page: int, pageSize: int)
    ensures Offset(page + 1, pageSize) == Offset(page, pageSize) + pageSize
  {
  }

  /** With positive sizes, `(page - 1) * pageSize` is a non-negative multiple of `pageSize`. */
  lemma {:induction false} OffsetIsMultiple(page: int, pageSize: int)
    requires page >= 1 && pageSize > 0
    ensures Offset(page, pageSize) >= 0
    ensures Offset(page, pageSize) % pageSize == 0
    ensures Offset(page, pageSize) / pageSize == page - 1
    decreases page
  {
    if page > 1 {
      OffsetIsMultiple(page - 1, pageSize);
      NextPageOffset(page - 1, pageSize);
      var k := Offset(page - 1, pageSize);
      DivModStep(k, pageSize);
    }
  }

  /** Adding the divisor to a multiple of it adds one to the quotient. */
  lemma DivModStep(k: int, b: int)
    requires b > 0 && k % b == 0
    ensures (k + b) % b == 0 && (k + b) / b == k / b + 1
  {
    var q, d, m := k / b, (k + b) / b, (k + b) % b;
    assert k == q * b;
    assert k + b == d * b + m && 0 <= m < b;
    assert (q + 1 - d) * b == m;
    OnlyZeroMultipleBelow(q + 1 - d, b);
  }

  /** The only multiple of `b` in `[0, b)` is zero. */
  lemma OnlyZeroMultipleBelow(x: int, b: int)
    requires b > 0 && 0 <= x * b < b
    ensures x == 0
  {
  }

  /** Below one page of rows (or with a sign flip) the page count is the floor of 1. */
  lemma TotalPagesFloor(total: int, pageSize: int)
    requires (pageSize > 0 && total <= 0) || (pageSize < 0 && total >= 0)
    ensures TotalPages(total, pageSize) == Finite(1)
  {
    if pageSize > 0 {
      CeilDivBounds(total, pageSize);
      var c := CeilDiv(total, pageSize);
      assert (c - 1) * pageSize < 0;
    } else {
      CeilDivBounds(-total, -pageSize);
      assert CeilDiv(total, pageSize) == CeilDiv(-total, -pageSize);
      var c := CeilDiv(total, pageSize);
      assert (c - 1) * -pageSize < -total <= 0;
    }
  }

  /** Euclidean division gives the real ceiling for a positive divisor. */
  lemma CeilDivBounds(a: int, b: int)
    requires b > 0
    ensures (CeilDiv(a, b) - 1) * b < a <= CeilDiv(a, b) * b
  {
    var q := (-a) / b;
    var m := (-a) % b;
    assert -a == q * b + m && 0 <= m < b;
    assert CeilDiv(a, b) * b == -(q * b);
    assert (CeilDiv(a, b) - 1) * b == -(q * b) - b;
  }

  /** For a positive total, `totalPages` is the least page count that holds every row. */
  lemma TotalPagesIsLeastCover(total: int, pageSize: int)
    requires total > 0 && pageSize > 0
    ensures var n := TotalPages(total, pageSize).n;
      && (n - 1) * pageSize < total <= n * pageSize
      && Covers(n, pageSize, total)
      && forall m :: Covers(m, pageSize, total) ==> m >= n
  {
    var n := CeilDiv(total, pageSize);
    CeilDivBounds(total, pageSize);
    assert TotalPages(total, pageSize).n == n;
  }

  /** Before the first fetch settles the list is empty and spans one page. */
  lemma NoDataYet(pageSize: int)
    requires pageSize != 0
    ensures Results(None) == [] && Total(None) == 0 && TotalPages(Total(None), pageSize) == Finite(1)
  {
  }

  /** Division by a zero page size follows JavaScript: infinity, NaN or the floor of 1. */
  lemma ZeroPageSize(total: int)
    ensures total > 0 ==> TotalPages(total, 0) == PositiveInfinity
    ensures total == 0 ==> TotalPages(total, 0) == NotANumber
    ensures total < 0 ==> TotalPages(total, 0) == Finite(1)
  {
  }

  /** The query of the initial state asks for the first twenty rows. */
  lemma InitialParams()
    ensures Params(INITIAL_PAGE, INITIAL_PAGE_SIZE) == QueryParams(20, 0, "country")
  {
  }

  /** The state `useLocalities` owns: its own `page` and `pageSize` cells, which callers write. */
  class LocalitiesQuery {
    var page: int
    var pageSize: int

    constructor ()
      ensures page == INITIAL_PAGE && pageSize == INITIAL_PAGE_SIZE
    {
      page := INITIAL_PAGE;
      pageSize := INITIAL_PAGE_SIZE;
    }

    /** A write to the `page` cell; nothing is reset or clamped. */
    method SetPage(p: int)
      modifies this
      ensures page == p && pageSize == old(pageSize)
    {
      page := p;
    }

    /** A write to the `pageSize` cell; `page` keeps its value. */
    method SetPageSize(n: int)
      modifies this
      ensures pageSize == n && page == old(page)
    {
      pageSize := n;
    }

    /** The `offset` computed from the two cells. */
    function CurrentOffset(): (r: int)
      reads this
      ensures page == 1 ==> r == 0
      ensures page >= 1 && pageSize > 0 ==> r >= 0 && r % pageSize == 0 && r / pageSize == page - 1
    {
      if page >= 1 && pageSize > 0 then OffsetIsMultiple(page, pageSize); Offset(page, pageSize)
      else Offset(page, pageSize)
    }

    /** The `params` computed from the two cells. */
    function CurrentParams(): (p: QueryParams)
      reads this
      ensures p.limit == pageSize && p.offset == CurrentOffset() && p.expand == EXPAND
    {
      Params(page, pageSize)
    }

    /** The `totalPages` computed from `pageSize` and the fetched response. */
    function CurrentTotalPages(data: Option<ApiPage>): (r: PageCount)
      reads this
      ensures pageSize != 0 ==> r.Finite? && r.n >= 1
      ensures pageSize > 0 && Total(data) <= 0 ==> r == Finite(1)
      ensures pageSize > 0 && Total(data) > 0 ==> (r.n - 1) * pageSize < Total(data) <= r.n * pageSize
    {
      var total := Total(data);
      if pageSize > 0 && total <= 0 then TotalPagesFloor(total, pageSize); TotalPages(total, pageSize)
      else if pageSize > 0 then TotalPagesIsLeastCover(total, pageSize); TotalPages(total, pageSize)
      else TotalPages(total, pageSize)
    }
  }
}

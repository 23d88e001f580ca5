/**
  * The infinite-scroll category listing (client/src/features/catalog/CategoryPage.tsx):
  * the request it derives from the catalog state and its own page counter, when
  * a scroll to the bottom asks for the next page, and the key whose change
  * remounts the page and so restarts the counter.
  */
module CategoryPage {
  import opened Wrappers
  import opened Text
  import opened Sorting
  import opened CatalogSlice
  import opened CatalogApi

  /** `slug || "All"`: a missing or empty route segment means every category. */
  function CategoryOf(slug: Option<string>): (c: string)
    ensures slug.None? || slug.value == "" ==> c == "All"
    ensures slug.Some? && slug.value != "" ==> c == slug.value
  {
    if slug.None? || slug.value == "" then "All" else slug.value
  }

  /** `searchTerm.trim() || undefined`: a blank term is not sent at all. */
  function SearchParam(searchTerm: string): (r: Option<string>)
    ensures r.None? <==> IsBlank(searchTerm)
    ensures r.Some? ==> r.value == Trim(searchTerm) && IsTrimmed(r.value)
  {
    var t := Trim(searchTerm);
    if t == "" then None else Some(t)
  }

  /** The arguments the page passes to `useGetProductsByCategoryQuery`. */
  function Request(category: string, s: CatalogState, pageNumber: int): (a: CategoryArgs)
    ensures a.category == category && a.pageNumber == Some(pageNumber)
    ensures a.searchTerm == SearchParam(s.searchTerm)
    ensures a.brands == Some(s.selectedBrands) && a.types == Some(s.selectedTypes)
  {
    CategoryArgs(category, Some(s.businessType), Some(pageNumber), Some(s.pageSize), SearchParam(s.searchTerm),
                 Some(s.orderBy.Text()), Some(s.selectedBrands), Some(s.selectedTypes))
  }

  /** `hasMore`: without a pagination header, assume there is more. */
  function HasMore(meta: Option<PaginationMeta>): (r: bool)
    ensures meta.None? ==> r
    ensures meta.Some? ==> (r <==> meta.value.currentPage < meta.value.totalPages)
  {
    match meta
    case None => true
    case Some(m) => m.currentPage < m.totalPages
  }

  /** The page counter a mounted page starts from. */
  const FirstPage := 1

  /** The observer's callback: the next page only on an intersection, while idle and with more to come. */
  function OnIntersect(pageNumber: int, isIntersecting: bool, isFetching: bool, hasMore: bool): (r: int)
    ensures r == pageNumber || r == pageNumber + 1
    ensures r == pageNumber + 1 <==> isIntersecting && !isFetching && hasMore
  {
    if !isIntersecting || isFetching || !hasMore then pageNumber else pageNumber + 1
  }

  /** A run of intersections from a fresh mount never leaves the counter below 1. */
  function PageAfter(events: seq<(bool, bool, bool)>): (r: int)
    ensures FirstPage <= r <= FirstPage + |events|
    decreases |events|
  {
    if |events| == 0 then FirstPage
    else
      var e := events[|events| - 1];
      OnIntersect(PageAfter(events[..|events| - 1]), e.0, e.1, e.2)
  }

  /** Asking for the next page keeps the cache entry and does not force a refetch, and its
      result is merged rather than replacing the cache. */
  lemma NextPageExtendsCache(category: string, s: CatalogState, pageNumber: int, endpoint: string)
    requires pageNumber >= FirstPage
    ensures SerializeQueryArgs(endpoint, Request(category, s, pageNumber + 1)) == SerializeQueryArgs(endpoint, Request(category, s, pageNumber))
    ensures !ForceRefetch(Some(Request(category, s, pageNumber + 1)), Some(Request(category, s, pageNumber)))
    ensures Request(category, s, pageNumber + 1).pageNumber.GetOr(1) != 1
  {
    CacheKeyIdentifiesQuery(endpoint, Request(category, s, pageNumber + 1), Request(category, s, pageNumber));
    RefetchIgnoresPage(Request(category, s, pageNumber), Some(pageNumber + 1));
    assert Request(category, s, pageNumber + 1) == Request(category, s, pageNumber).(pageNumber := Some(pageNumber + 1));
  }

  /** The key whose change remounts the page (and so resets the counter to 1). */
  datatype ResetKey = ResetKey(
    category: string,
    businessType: string,
    searchTerm: string,
    orderBy: string,
    brands: seq<string>,
    types: seq<string>,
    pageSize: int
  )

  /** `resetKey`. */
  function ResetKeyOf(category: string, s: CatalogState): (k: ResetKey)
    ensures k.searchTerm == Trim(s.searchTerm)
    ensures multiset(k.brands) == multiset(s.selectedBrands) && SortedBy(k.brands, StrNoLater)
    ensures multiset(k.types) == multiset(s.selectedTypes) && SortedBy(k.types, StrNoLater)
  {
    ResetKey(category, s.businessType, Trim(s.searchTerm), s.orderBy.Text(),
             SortStrings(s.selectedBrands), SortStrings(s.selectedTypes), s.pageSize)
  }

  /** The reset key ignores the order of the selections and white space around the search term. */
  lemma ResetKeyInvariance(category: string, a: CatalogState, b: CatalogState)
    requires a.businessType == b.businessType && a.orderBy == b.orderBy && a.pageSize == b.pageSize
    requires Trim(a.searchTerm) == Trim(b.searchTerm)
    requires multiset(a.selectedBrands) == multiset(b.selectedBrands)
    requires multiset(a.selectedTypes) == multiset(b.selectedTypes)
    ensures ResetKeyOf(category, a) == ResetKeyOf(category, b)
  {
    StrNoLaterIsTotalOrder();
    SortedUnique(ResetKeyOf(category, a).brands, ResetKeyOf(category, b).brands, StrNoLater);
    SortedUnique(ResetKeyOf(category, a).types, ResetKeyOf(category, b).types, StrNoLater);
  }

  /** A page that is not remounted keeps its cache entry: equal reset keys give equal cache keys at any pages. */
  lemma SameResetKeySameCacheEntry(category: string, a: CatalogState, b: CatalogState, pa: int, pb: int, endpoint: string)
    requires ResetKeyOf(category, a) == ResetKeyOf(category, b)
    ensures SerializeQueryArgs(endpoint, Request(category, a, pa)) == SerializeQueryArgs(endpoint, Request(category, b, pb))
  {
    SortTextInjective(a.orderBy, b.orderBy);
    CacheKeyIdentifiesQuery(endpoint, Request(category, a, pa), Request(category, b, pb));
  }
}

/**
  * The client's paged catalog endpoint (client/src/features/catalog/catalogApi.ts):
  * how list filters travel as CSV, how a later page is merged into the cached
  * result, which arguments share one cache entry, and when a change of
  * arguments forces a refetch. `getCatalog` repeats `getProductsByCategory`'s
  * merge, key and refetch text verbatim, so one definition serves both.
  */
module CatalogApi {
  import opened Wrappers
  import opened Text
  import opened Sorting
  import opened Entities
  import opened Queries
  import CatalogQuery

  // ---------------------------------------------------------------------------
  // CSV parameters

  /** `toCsv`: nothing for a missing or empty list, else the values joined with commas. */
  function ToCsv(values: Option<seq<string>>): (r: Option<string>)
    ensures r.None? <==> values.None? || |values.value| == 0
    ensures r.Some? ==> |r.value| >= |values.value| - 1
  {
    if values.None? || |values.value| == 0 then None
    else
      JoinLength(values.value, ",");
      Some(Join(values.value, ","))
  }

  /** A join is at least as long as its separators. */
  lemma {:induction false} JoinLength(xs: seq<string>, sep: string)
    requires |xs| > 0
    ensures |Join(xs, sep)| >= (|xs| - 1) * |sep|
    decreases |xs|
  {
    if |xs| > 1 {
      JoinLength(xs[1..], sep);
    }
  }

  /** The server's reading of each sent entry: trimmed, then lower-cased. */
  function LowerTrimmed(xs: seq<string>): (r: seq<string>)
    ensures |r| == |xs|
    ensures forall i :: 0 <= i < |xs| ==> r[i] == ToLower(Trim(xs[i]))
  {
    if |xs| == 0 then [] else [ToLower(Trim(xs[0]))] + LowerTrimmed(xs[1..])
  }

  /** The server parses `toCsv(xs)` back to the trimmed, lower-cased entries of `xs` when none is blank or holds a comma. */
  lemma CsvRoundTrip(xs: seq<string>)
    requires forall i :: 0 <= i < |xs| ==> ',' !in xs[i] && !IsBlank(xs[i])
    ensures CatalogQuery.CsvValues(ToCsv(Some(xs))) == LowerTrimmed(xs)
  {
    if |xs| > 0 {
      var csv := Join(xs, ",");
      assert ToCsv(Some(xs)) == Some(csv);
      assert !IsBlank(csv) by {
        assert !IsBlank(xs[0]);
        var k :| 0 <= k < |xs[0]| && !IsSpace(xs[0][k]);
        JoinStartsWithHead(xs, ",");
        assert csv[k] == csv[..|xs[0]|][k] == xs[0][k];
      }
      assert CatalogQuery.CsvValues(Some(csv)) == CatalogQuery.CleanEntries(Split(csv, ','));
      SplitJoin(xs, ',');
      assert [','] == ",";
      assert Split(csv, ',') == xs;
      CleanEntriesOfSendable(xs);
    }
  }

  /** Sendable pieces survive `CleanEntries` one for one. */
  lemma {:induction false} CleanEntriesOfSendable(xs: seq<string>)
    requires forall i :: 0 <= i < |xs| ==> ',' !in xs[i] && !IsBlank(xs[i])
    ensures CatalogQuery.CleanEntries(xs) == LowerTrimmed(xs)
    decreases |xs|
  {
    if |xs| > 0 {
      CleanEntriesOfSendable(xs[1..]);
      assert Trim(xs[0]) != "";
    }
  }

  // ---------------------------------------------------------------------------
  // Page results and their merge

  /** The `Pagination` response header. */
  datatype PaginationMeta = PaginationMeta(totalCount: int, pageSize: int, currentPage: int, totalPages: int)

  /** A fetched or cached page: the products and the header, when there was one. */
  datatype PagedResponse = PagedResponse(items: seq<Product>, meta: Option<PaginationMeta>)

  /** The ids of a product list, in order. */
  function Ids(items: seq<Product>): (r: seq<int>)
    ensures |r| == |items|
    ensures forall i :: 0 <= i < |items| ==> r[i] == items[i].id
  {
    if |items| == 0 then [] else [items[0].id] + Ids(items[1..])
  }

  /** No value occurs twice. */
  predicate NoDuplicates(xs: seq<int>)
  {
    forall i, j :: 0 <= i < j < |xs| ==> xs[i] != xs[j]
  }

  /** The values of `xs` at their first occurrences, in order. */
  function Dedup(xs: seq<int>): (r: seq<int>)
    ensures forall x :: x in r <==> x in xs
    ensures NoDuplicates(r)
    decreases |xs|
  {
    if |xs| == 0 then []
    else
      var d := Dedup(xs[..|xs| - 1]);
      var x := xs[|xs| - 1];
      assert xs == xs[..|xs| - 1] + [x];
      if x in d then d else d + [x]
  }

  /** The values of `ys` that do not occur in `xs`, in order. */
  function Without(ys: seq<int>, xs: seq<int>): (r: seq<int>)
    ensures forall y :: y in r <==> y in ys && y !in xs
    decreases |ys|
  {
    if |ys| == 0 then []
    else
      var w := Without(ys[..|ys| - 1], xs);
      var y := ys[|ys| - 1];
      assert ys == ys[..|ys| - 1] + [y];
      if y in xs then w else w + [y]
  }

  /** One more value at the back is kept only when it is new. */
  lemma DedupSnoc(xs: seq<int>, x: int)
    ensures Dedup(xs + [x]) == if x in Dedup(xs) then Dedup(xs) else Dedup(xs) + [x]
  {
    var w := xs + [x];
    assert w[..|w| - 1] == xs;
  }

  /** One more value at the back of `ys` is kept only when `xs` lacks it. */
  lemma WithoutSnoc(ys: seq<int>, y: int, xs: seq<int>)
    ensures Without(ys + [y], xs) == if y in xs then Without(ys, xs) else Without(ys, xs) + [y]
  {
    var w := ys + [y];
    assert w[..|w| - 1] == ys;
  }

  /** The first-occurrence order of a concatenation: that of the front, then the new values of the back. */
  lemma {:induction false} DedupAppend(xs: seq<int>, ys: seq<int>)
    ensures Dedup(xs + ys) == Dedup(xs) + Without(Dedup(ys), xs)
    decreases |ys|
  {
    if |ys| == 0 {
      assert xs + ys == xs;
    } else {
      var ys' := ys[..|ys| - 1];
      var y := ys[|ys| - 1];
      assert ys == ys' + [y];
      assert xs + ys == (xs + ys') + [y];
      DedupAppend(xs, ys');
      DedupSnoc(xs + ys', y);
      DedupSnoc(ys', y);
      var d := Dedup(ys');
      WithoutSnoc(d, y, xs);
      var front := Dedup(xs + ys');
      if y in xs + ys' {
        assert y in front;
        if y !in d {
          assert y in xs;
        }
      } else {
        assert y !in front && y !in xs && y !in d;
        var a, w := Dedup(xs), Without(d, xs);
        assert Without(d + [y], xs) == w + [y];
        AppendAssoc(a, w, [y]);
      }
    }
  }

  /** The last product of `items` with id `id`. */
  function LastWith(items: seq<Product>, id: int): (r: Option<Product>)
    ensures r.Some? ==> r.value in items && r.value.id == id
    ensures r.None? <==> id !in Ids(items)
    decreases |items|
  {
    if |items| == 0 then None
    else
      var front := items[..|items| - 1];
      var p := items[|items| - 1];
      SplitLast(items);
      IdsSnoc(front, p);
      if p.id == id then Some(p) else LastWith(front, id)
  }

  /** The ids of one more product end with its id. */
  lemma IdsSnoc(items: seq<Product>, p: Product)
    ensures Ids(items + [p]) == Ids(items) + [p.id]
  {
    assert forall i :: 0 <= i < |items| ==> (items + [p])[i] == items[i];
  }

  /** The ids of a concatenation are the ids of its parts. */
  lemma IdsAppend(xs: seq<Product>, ys: seq<Product>)
    ensures Ids(xs + ys) == Ids(xs) + Ids(ys)
  {
    assert forall i :: 0 <= i < |xs| ==> (xs + ys)[i] == xs[i];
    assert forall i :: |xs| <= i < |xs + ys| ==> (xs + ys)[i] == ys[i - |xs|];
  }

  /** Replacing a product by one with the same id keeps the ids. */
  lemma IdsUpdate(items: seq<Product>, k: nat, p: Product)
    requires k < |items| && items[k].id == p.id
    ensures Ids(items[k := p]) == Ids(items)
  {
    assert forall i :: 0 <= i < |items| ==> Ids(items[k := p])[i] == Ids(items)[i];
  }

  /** The last product with an id, in a list with one more product at the back. */
  lemma LastWithSnoc(items: seq<Product>, p: Product, id: int)
    ensures LastWith(items + [p], id) == if p.id == id then Some(p) else LastWith(items, id)
  {
    var w := items + [p];
    assert w[..|w| - 1] == items;
  }

  /** In a concatenation the back's last product with an id wins over the front's. */
  lemma {:induction false} LastWithAppend(xs: seq<Product>, ys: seq<Product>, id: int)
    ensures LastWith(xs + ys, id) == if id in Ids(ys) then LastWith(ys, id) else LastWith(xs, id)
    decreases |ys|
  {
    if |ys| == 0 {
      assert xs + ys == xs;
    } else {
      var ys' := ys[..|ys| - 1];
      var y := ys[|ys| - 1];
      assert ys == ys' + [y];
      assert xs + ys == (xs + ys') + [y];
      LastWithAppend(xs, ys', id);
      LastWithSnoc(xs + ys', y, id);
      LastWithSnoc(ys', y, id);
      IdsSnoc(ys', y);
    }
  }

  /** The position of the product with id `id` in a map's value list, if any. */
  function IndexOfId(entries: seq<Product>, id: int): (r: Option<nat>)
    ensures r.Some? ==> r.value < |entries| && entries[r.value].id == id
    ensures r.None? <==> id !in Ids(entries)
  {
    if |entries| == 0 then None
    else if entries[0].id == id then Some(0)
    else
      assert Ids(entries) == [entries[0].id] + Ids(entries[1..]);
      match IndexOfId(entries[1..], id)
      case None => None
      case Some(k) => Some(k + 1)
  }

  /** `map.set(p.id, p)` on a `Map`'s values in insertion order: a present key keeps its place, a new one goes last. */
  function Put(entries: seq<Product>, p: Product): (r: seq<Product>)
    requires NoDuplicates(Ids(entries))
    ensures NoDuplicates(Ids(r))
    ensures p.id in Ids(entries) ==> Ids(r) == Ids(entries)
    ensures p.id !in Ids(entries) ==> Ids(r) == Ids(entries) + [p.id]
    ensures forall i :: 0 <= i < |r| ==> r[i] == if r[i].id == p.id then p else entries[i]
  {
    match IndexOfId(entries, p.id)
    case Some(k) =>
      IdsUpdate(entries, k, p);
      entries[k := p]
    case None =>
      IdsSnoc(entries, p);
      entries + [p]
  }

  /** A run of `map.set(p.id, p)`, one per product in order. */
  function PutAll(entries: seq<Product>, items: seq<Product>): (r: seq<Product>)
    requires NoDuplicates(Ids(entries))
    ensures NoDuplicates(Ids(r))
    decreases |items|
  {
    if |items| == 0 then entries
    else Put(PutAll(entries, items[..|items| - 1]), items[|items| - 1])
  }

  /** Two runs in a row are one run over both lists. */
  lemma {:induction false} PutAllAppend(entries: seq<Product>, xs: seq<Product>, ys: seq<Product>)
    requires NoDuplicates(Ids(entries))
    ensures PutAll(PutAll(entries, xs), ys) == PutAll(entries, xs + ys)
    decreases |ys|
  {
    if |ys| == 0 {
      assert xs + ys == xs;
    } else {
      var ys' := ys[..|ys| - 1];
      var y := ys[|ys| - 1];
      PutAllAppend(entries, xs, ys');
      FrontOfAppend(xs, ys);
    }
  }

  /** From an empty map, the ids come out in first-occurrence order. */
  lemma {:induction false} PutAllIds(items: seq<Product>)
    ensures Ids(PutAll([], items)) == Dedup(Ids(items))
    decreases |items|
  {
    if |items| > 0 {
      var front := items[..|items| - 1];
      var p := items[|items| - 1];
      PutAllIds(front);
      var e := PutAll([], front);
      SplitLast(items);
      IdsSnoc(front, p);
      DedupSnoc(Ids(front), p.id);
      assert PutAll([], items) == Put(e, p);
    }
  }

  /** From an empty map, each value is the last product with its id. */
  lemma {:induction false} PutAllValues(items: seq<Product>)
    ensures forall i :: 0 <= i < |PutAll([], items)| ==> LastWith(items, PutAll([], items)[i].id) == Some(PutAll([], items)[i])
    decreases |items|
  {
    if |items| > 0 {
      var front := items[..|items| - 1];
      var p := items[|items| - 1];
      PutAllValues(front);
      var e := PutAll([], front);
      var r := Put(e, p);
      assert PutAll([], items) == r;
      forall i | 0 <= i < |r|
        ensures LastWith(items, r[i].id) == Some(r[i])
      {
        if r[i].id != p.id {
          PutValueStep(front, p, r[i]);
        }
      }
    }
  }

  /** A product with another id than the last item is looked up as in the front. */
  lemma PutValueStep(front: seq<Product>, p: Product, q: Product)
    requires q.id != p.id
    ensures LastWith(front + [p], q.id) == LastWith(front, q.id)
  {
    LastWithSnoc(front, p, q.id);
  }

  /** The merge of a fetched page into the cache. */
  function Merge(cache: PagedResponse, newData: PagedResponse, pageNumber: Option<int>): (r: PagedResponse)
    ensures pageNumber.GetOr(1) == 1 ==> r == newData
    ensures pageNumber.GetOr(1) != 1 ==> r.meta == if newData.meta.Some? then newData.meta else cache.meta
    ensures pageNumber.GetOr(1) != 1 ==> |r.items| <= |cache.items| + |newData.items|
  {
    if pageNumber.GetOr(1) == 1 then PagedResponse(newData.items, newData.meta)
    else
      var items := PutAll(PutAll([], cache.items), newData.items);
      MergedIdsDedup(cache.items, newData.items);
      PagedResponse(items, if newData.meta.Some? then newData.meta else cache.meta)
  }

  /** The merged ids: the cached ids in their order, then the ids new to the cache in response order, none twice. */
  lemma MergedIdsDedup(cached: seq<Product>, fetched: seq<Product>)
    ensures Ids(PutAll(PutAll([], cached), fetched)) == Dedup(Ids(cached)) + Without(Dedup(Ids(fetched)), Ids(cached))
    ensures NoDuplicates(Ids(PutAll(PutAll([], cached), fetched)))
    ensures |PutAll(PutAll([], cached), fetched)| <= |cached| + |fetched|
  {
    PutAllAppend([], cached, fetched);
    PutAllIds(cached + fetched);
    IdsAppend(cached, fetched);
    DedupAppend(Ids(cached), Ids(fetched));
    DedupLength(Ids(cached + fetched));
  }

  /** Deduplication never lengthens. */
  lemma {:induction false} DedupLength(xs: seq<int>)
    ensures |Dedup(xs)| <= |xs|
    decreases |xs|
  {
    if |xs| > 0 {
      DedupLength(xs[..|xs| - 1]);
    }
  }

  /** For a later page, every merged id appears once, cached ids keep their order and new ids follow in response order. */
  lemma MergeKeepsOrder(cache: PagedResponse, newData: PagedResponse, pageNumber: Option<int>)
    requires pageNumber.GetOr(1) != 1
    ensures var ids := Ids(Merge(cache, newData, pageNumber).items);
      && NoDuplicates(ids)
      && ids == Dedup(Ids(cache.items)) + Without(Dedup(Ids(newData.items)), Ids(cache.items))
      && (forall id :: id in ids <==> id in Ids(cache.items) || id in Ids(newData.items))
  {
    MergedIdsDedup(cache.items, newData.items);
  }

  /** For a later page, a fetched product replaces the cached one with its id; other cached products stay. */
  lemma MergeNewWins(cache: PagedResponse, newData: PagedResponse, pageNumber: Option<int>)
    requires pageNumber.GetOr(1) != 1
    ensures var items := Merge(cache, newData, pageNumber).items;
      forall i :: 0 <= i < |items| ==>
        Some(items[i]) == if items[i].id in Ids(newData.items) then LastWith(newData.items, items[i].id)
                          else LastWith(cache.items, items[i].id)
  {
    var all := cache.items + newData.items;
    var items := Merge(cache, newData, pageNumber).items;
    PutAllAppend([], cache.items, newData.items);
    assert items == PutAll([], all);
    PutAllValues(all);
    forall i | 0 <= i < |items|
      ensures Some(items[i]) == if items[i].id in Ids(newData.items) then LastWith(newData.items, items[i].id)
                                else LastWith(cache.items, items[i].id)
    {
      var q := items[i];
      assert LastWith(all, q.id) == Some(q);
      LastWithAppend(cache.items, newData.items, q.id);
    }
  }

  // ---------------------------------------------------------------------------
  // Cache key and refetch

  /** `GetProductsByCategoryArgs`. */
  datatype CategoryArgs = CategoryArgs(
    category: string,
    businessType: Option<string>,
    pageNumber: Option<int>,
    pageSize: Option<int>,
    searchTerm: Option<string>,
    orderBy: Option<string>,
    brands: Option<seq<string>>,
    types: Option<seq<string>>
  )

  /** The object `serializeQueryArgs` stringifies, with the endpoint name in front. */
  datatype CacheKey = CacheKey(
    endpoint: string,
    category: string,
    businessType: string,
    searchTerm: string,
    orderBy: string,
    brands: seq<string>,
    types: seq<string>,
    pageSize: int
  )

  /** The page size both the request and the key default to. */
  const DefaultPageSize := 12

  /** `Array.prototype.sort`'s default order on strings: by code unit. */
  predicate StrNoLater(a: string, b: string)
  {
    !StrLess(b, a)
  }

  /** The default string order is total and antisymmetric. */
  lemma StrNoLaterIsTotalOrder()
    ensures IsTotalPreorder(StrNoLater)
    ensures forall m: multiset<string> :: Separates(StrNoLater, m)
  {
    forall a, b ensures StrNoLater(a, b) || StrNoLater(b, a) {
      StrLessIsStrictTotal(a, b, b);
    }
    forall a, b, c | StrNoLater(a, b) && StrNoLater(b, c) ensures StrNoLater(a, c) {
      StrLessIsStrictTotal(c, b, a);
      StrLessIsStrictTotal(a, b, c);
      StrLessIsStrictTotal(b, c, a);
      StrLessIsStrictTotal(c, a, b);
    }
    forall a, b | StrNoLater(a, b) && StrNoLater(b, a) ensures a == b {
      StrLessIsStrictTotal(a, b, b);
    }
  }

  /** `xs.slice().sort()`. */
  function SortStrings(xs: seq<string>): (r: seq<string>)
    ensures multiset(r) == multiset(xs)
    ensures SortedBy(r, StrNoLater)
  {
    StrNoLaterIsTotalOrder();
    SortBySorted(xs, StrNoLater);
    SortBy(xs, StrNoLater)
  }

  /** `serializeQueryArgs`. */
  function SerializeQueryArgs(endpoint: string, args: CategoryArgs): (k: CacheKey)
    ensures multiset(k.brands) == multiset(args.brands.GetOr([])) && SortedBy(k.brands, StrNoLater)
    ensures multiset(k.types) == multiset(args.types.GetOr([])) && SortedBy(k.types, StrNoLater)
    ensures k.pageSize == args.pageSize.GetOr(DefaultPageSize)
  {
    CacheKey(endpoint, args.category, args.businessType.GetOr(""), args.searchTerm.GetOr(""), args.orderBy.GetOr(""),
             SortStrings(args.brands.GetOr([])), SortStrings(args.types.GetOr([])), args.pageSize.GetOr(DefaultPageSize))
  }

  /** Two argument sets ask for the same result, up to the page, list order and omitted defaults. */
  predicate SameQuery(a: CategoryArgs, b: CategoryArgs)
  {
    && a.category == b.category
    && a.businessType.GetOr("") == b.businessType.GetOr("")
    && a.searchTerm.GetOr("") == b.searchTerm.GetOr("")
    && a.orderBy.GetOr("") == b.orderBy.GetOr("")
    && multiset(a.brands.GetOr([])) == multiset(b.brands.GetOr([]))
    && multiset(a.types.GetOr([])) == multiset(b.types.GetOr([]))
    && a.pageSize.GetOr(DefaultPageSize) == b.pageSize.GetOr(DefaultPageSize)
  }

  /** One cache entry per query: the key ignores the page and the order of brands and types, and nothing else. */
  lemma CacheKeyIdentifiesQuery(endpoint: string, a: CategoryArgs, b: CategoryArgs)
    ensures SerializeQueryArgs(endpoint, a) == SerializeQueryArgs(endpoint, b) <==> SameQuery(a, b)
  {
    if SameQuery(a, b) {
      StrNoLaterIsTotalOrder();
      var ka := SerializeQueryArgs(endpoint, a);
      var kb := SerializeQueryArgs(endpoint, b);
      SortedUnique(ka.brands, kb.brands, StrNoLater);
      SortedUnique(ka.types, kb.types, StrNoLater);
    }
  }

  /** `toCsv(xs) ?? ""`, the form `forceRefetch` compares. */
  function CsvOrEmpty(values: Option<seq<string>>): (r: string)
    ensures values.None? || |values.value| == 0 ==> r == ""
  {
    ToCsv(values).GetOr("")
  }

  /** `forceRefetch`: missing arguments, or any difference other than the page, force a new request. */
  function ForceRefetch(current: Option<CategoryArgs>, previous: Option<CategoryArgs>): (r: bool)
    ensures current.None? || previous.None? ==> r
    ensures current.Some? && previous.Some? && current.value.category != previous.value.category ==> r
    ensures current.Some? && previous.Some? && current.value.businessType != previous.value.businessType ==> r
  {
    if current.None? || previous.None? then true
    else
      var c := current.value;
      var p := previous.value;
      || c.category != p.category
      || c.businessType != p.businessType
      || c.searchTerm.GetOr("") != p.searchTerm.GetOr("")
      || c.orderBy.GetOr("") != p.orderBy.GetOr("")
      || CsvOrEmpty(c.brands) != CsvOrEmpty(p.brands)
      || CsvOrEmpty(c.types) != CsvOrEmpty(p.types)
      || c.pageSize.GetOr(DefaultPageSize) != p.pageSize.GetOr(DefaultPageSize)
  }

  /** Asking for another page of the same query never forces a refetch. */
  lemma RefetchIgnoresPage(a: CategoryArgs, page: Option<int>)
    ensures !ForceRefetch(Some(a.(pageNumber := page)), Some(a))
  {
  }

  /** Every list value is non-empty and comma-free, so its CSV form is faithful. */
  predicate CsvSafe(values: Option<seq<string>>)
  {
    values.None? || forall i :: 0 <= i < |values.value| ==> |values.value[i]| > 0 && ',' !in values.value[i]
  }

  /** On comma-free, non-empty values, equal CSV forms mean equal lists. */
  lemma CsvOrEmptyInjective(a: Option<seq<string>>, b: Option<seq<string>>)
    requires CsvSafe(a) && CsvSafe(b)
    requires CsvOrEmpty(a) == CsvOrEmpty(b)
    ensures a.GetOr([]) == b.GetOr([])
  {
    var xs := a.GetOr([]);
    var ys := b.GetOr([]);
    if |xs| > 0 && |ys| > 0 {
      SplitJoin(xs, ',');
      SplitJoin(ys, ',');
    } else if |xs| > 0 {
      JoinStartsWithHead(xs, ",");
    } else if |ys| > 0 {
      JoinStartsWithHead(ys, ",");
    }
  }

  /** Without a forced refetch the two argument sets share one cache entry. */
  lemma NoRefetchSharesCacheEntry(endpoint: string, a: CategoryArgs, b: CategoryArgs)
    requires CsvSafe(a.brands) && CsvSafe(b.brands) && CsvSafe(a.types) && CsvSafe(b.types)
    requires !ForceRefetch(Some(a), Some(b))
    ensures SerializeQueryArgs(endpoint, a) == SerializeQueryArgs(endpoint, b)
  {
    CsvOrEmptyInjective(a.brands, b.brands);
    CsvOrEmptyInjective(a.types, b.types);
    CacheKeyIdentifiesQuery(endpoint, a, b);
  }
}

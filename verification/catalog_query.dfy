/**
  * The product listing query (API/Extensions/ProductExtension.cs and the two listing
  * actions of API/Controllers/ProductsController.cs). The product table is a sequence;
  * each extension method is a function from sequence to sequence.
  */
module CatalogQuery {
  import opened Wrappers
  import opened Text
  import opened Sorting
  import opened Queries
  import opened Entities

  /** The primary ordering `Sort` selects. */
  datatype SortKey = ByName | ByPrice | ByPriceDesc

  /** `Sort`'s choice of key: exact, case-sensitive matches of "price" and "priceDesc"; name otherwise. */
  function SortKeyOf(orderBy: Option<string>): (k: SortKey)
    ensures k == ByPrice <==> orderBy == Some("price")
    ensures k == ByPriceDesc <==> orderBy == Some("priceDesc")
    ensures IsNullOrWhiteSpace(orderBy) ==> k == ByName
  {
    if IsNullOrWhiteSpace(orderBy) then
      BlankIsNotWord(orderBy, "price");
      BlankIsNotWord(orderBy, "priceDesc");
      ByName
    else if orderBy.value == "price" then ByPrice
    else if orderBy.value == "priceDesc" then ByPriceDesc
    else ByName
  }

  /** A blank value is none of the sort words. */
  lemma BlankIsNotWord(s: Option<string>, w: string)
    requires IsNullOrWhiteSpace(s)
    requires |w| > 0 && !IsSpace(w[0])
    ensures s != Some(w)
  {
  }

  /** `a` comes strictly before `b` under `OrderBy(key).ThenBy(Id)`. */
  predicate Before(k: SortKey, a: Product, b: Product)
  {
    match k
    case ByName => StrLess(a.name, b.name) || (a.name == b.name && a.id < b.id)
    case ByPrice => a.price < b.price || (a.price == b.price && a.id < b.id)
    case ByPriceDesc => a.price > b.price || (a.price == b.price && a.id < b.id)
  }

  /** `a` may come before `b`: `b` does not strictly precede it. */
  predicate NoLater(k: SortKey, a: Product, b: Product)
  {
    !Before(k, b, a)
  }

  /** The listing order is a total preorder, so sorting by it is meaningful. */
  lemma ListingOrderIsTotalPreorder(k: SortKey)
    ensures IsTotalPreorder((a, b) => NoLater(k, a, b))
  {
    forall a: Product, b: Product
      ensures NoLater(k, a, b) || NoLater(k, b, a)
    {
      StrLessIsStrictTotal(a.name, b.name, b.name);
    }
    forall a: Product, b: Product, c: Product | NoLater(k, a, b) && NoLater(k, b, c)
      ensures NoLater(k, a, c)
    {
      StrLessIsStrictTotal(a.name, b.name, c.name);
      StrLessIsStrictTotal(c.name, a.name, b.name);
      StrLessIsStrictTotal(b.name, c.name, a.name);
    }
  }

  /** `query.Sort(orderBy).ThenBy(p => p.Id)`: a sorted permutation of the input. */
  function Listing(ps: seq<Product>, k: SortKey): (r: seq<Product>)
    ensures multiset(r) == multiset(ps)
    ensures forall i, j :: 0 <= i < j < |r| ==> NoLater(k, r[i], r[j])
  {
    ListingOrderIsTotalPreorder(k);
    SortBySorted(ps, (a, b) => NoLater(k, a, b));
    SortBy(ps, (a, b) => NoLater(k, a, b))
  }

  /** What the listing order means for each key: the key ascends (descends for "priceDesc"), and equal keys have ascending ids. */
  lemma ListingOrderMeaning(ps: seq<Product>, k: SortKey, i: int, j: int)
    requires 0 <= i < j < |ps|
    ensures var r := Listing(ps, k);
      match k
      case ByName => !StrLess(r[j].name, r[i].name) && (r[i].name == r[j].name ==> r[i].id <= r[j].id)
      case ByPrice => r[i].price <= r[j].price && (r[i].price == r[j].price ==> r[i].id <= r[j].id)
      case ByPriceDesc => r[i].price >= r[j].price && (r[i].price == r[j].price ==> r[i].id <= r[j].id)
  {
    var r := Listing(ps, k);
    assert NoLater(k, r[i], r[j]);
  }

  /** The product ids are pairwise distinct, as primary keys are. */
  predicate DistinctIds(ps: seq<Product>)
  {
    forall i, j :: 0 <= i < j < |ps| ==> ps[i].id != ps[j].id
  }

  /** With distinct ids the tie-breaker makes the order total: the listing is the only sorted arrangement. */
  lemma {:induction false} ListingIsDetermined(ps: seq<Product>, k: SortKey, other: seq<Product>)
    requires DistinctIds(ps)
    requires multiset(other) == multiset(ps)
    requires forall i, j :: 0 <= i < j < |other| ==> NoLater(k, other[i], other[j])
    ensures other == Listing(ps, k)
  {
    var le := (a, b) => NoLater(k, a, b);
    var r := Listing(ps, k);
    ListingOrderIsTotalPreorder(k);
    forall x, y | x in multiset(ps) && y in multiset(ps) && le(x, y) && le(y, x)
      ensures x == y
    {
      StrLessIsStrictTotal(x.name, y.name, y.name);
      var i :| 0 <= i < |ps| && ps[i] == x;
      var j :| 0 <= j < |ps| && ps[j] == y;
      if i != j {
        assert false;
      }
    }
    assert SortedBy(other, le);
    assert SortedBy(r, le);
    SortedUnique(other, r, le);
  }

  /** `Search`: nothing when the term is blank, else products whose name contains the trimmed term. */
  function Search(ps: seq<Product>, searchTerm: Option<string>): (r: seq<Product>)
    ensures IsNullOrWhiteSpace(searchTerm) ==> r == ps
    ensures IsSubsequence(r, ps)
    ensures forall p :: p in r <==> p in ps && SearchMatches(p, searchTerm)
  {
    if IsNullOrWhiteSpace(searchTerm) then
      SubsequenceRefl(ps);
      ps
    else
      var term := Trim(searchTerm.value);
      Where(ps, (p: Product) => Contains(p.name, term))
  }

  /** The condition `Search` keeps a product by. */
  predicate SearchMatches(p: Product, searchTerm: Option<string>)
  {
    IsNullOrWhiteSpace(searchTerm) || Contains(p.name, Trim(searchTerm.value))
  }

  /** The values of a brand or type list: split on ',', entries trimmed, empties dropped, lower-cased. */
  function CsvValues(csv: Option<string>): (r: seq<string>)
    ensures IsNullOrWhiteSpace(csv) ==> r == []
    ensures forall i :: 0 <= i < |r| ==> IsCleanEntry(r[i])
  {
    if IsNullOrWhiteSpace(csv) then []
    else CleanEntries(Split(csv.value, ','))
  }

  /** What survives as a list value: non-empty, trimmed, lower case and comma-free. */
  predicate IsCleanEntry(v: string)
  {
    |v| > 0 && IsTrimmed(v) && ToLower(v) == v && ',' !in v
  }

  /** `StringSplitOptions.RemoveEmptyEntries | TrimEntries` followed by `ToLower`. */
  function CleanEntries(pieces: seq<string>): (r: seq<string>)
    requires forall i :: 0 <= i < |pieces| ==> ',' !in pieces[i]
    ensures |r| <= |pieces|
    ensures forall i :: 0 <= i < |r| ==> IsCleanEntry(r[i])
    decreases |pieces|
  {
    if |pieces| == 0 then []
    else
      var t := Trim(pieces[0]);
      CommaFreeTail(pieces);
      var rest := CleanEntries(pieces[1..]);
      if t == "" then rest
      else
        CleanEntryOf(pieces[0]);
        CleanCons(ToLower(t), rest);
        [ToLower(t)] + rest
  }

  /** A clean value in front of clean values gives clean values. */
  lemma CleanCons(v: string, rest: seq<string>)
    requires IsCleanEntry(v) && forall i :: 0 <= i < |rest| ==> IsCleanEntry(rest[i])
    ensures forall i :: 0 <= i < |[v] + rest| ==> IsCleanEntry(([v] + rest)[i])
  {
    var r := [v] + rest;
    assert forall i :: 1 <= i < |r| ==> r[i] == rest[i - 1];
  }

  /** The list values are the kept, trimmed pieces lower-cased, in order: nothing else is dropped or changed. */
  lemma {:induction false} CleanEntriesLowerKept(pieces: seq<string>)
    requires forall i :: 0 <= i < |pieces| ==> ',' !in pieces[i]
    ensures CleanEntries(pieces) == Select(KeepTrimmed(pieces), ToLower)
    decreases |pieces|
  {
    if |pieces| > 0 {
      var rest := pieces[1..];
      CommaFreeTail(pieces);
      CleanEntriesLowerKept(rest);
      var t := Trim(pieces[0]);
      if t != "" {
        SelectCons(t, KeepTrimmed(rest), ToLower);
      }
    }
  }

  /** The list values are exactly the non-blank pieces, trimmed and lower-cased, in their order. */
  lemma CleanEntriesSelectWhere(pieces: seq<string>)
    requires forall i :: 0 <= i < |pieces| ==> ',' !in pieces[i]
    ensures CleanEntries(pieces) == Select(Select(Where(pieces, NonBlank), Trim), ToLower)
  {
    CleanEntriesLowerKept(pieces);
    KeepTrimmedIsTrimOfNonBlank(pieces);
  }

  /** The pieces after the first are comma-free too. */
  lemma CommaFreeTail(pieces: seq<string>)
    requires |pieces| > 0 && forall i :: 0 <= i < |pieces| ==> ',' !in pieces[i]
    ensures forall i :: 0 <= i < |pieces[1..]| ==> ',' !in pieces[1..][i]
  {
    assert forall i :: 1 <= i < |pieces| ==> pieces[i] == pieces[1..][i - 1];
  }

  /** A non-blank, comma-free piece trims and lower-cases to a clean value. */
  lemma CleanEntryOf(piece: string)
    requires ',' !in piece && Trim(piece) != ""
    ensures IsCleanEntry(ToLower(Trim(piece)))
  {
    var t := Trim(piece);
    ToLowerIdempotent(t);
    ToLowerTrimmed(t);
    TrimSubset(piece);
    ToLowerKeepsAbsent(t, ',');
  }

  /** A product survives the brand/type filter. */
  predicate BrandTypeMatches(p: Product, brandList: seq<string>, typeList: seq<string>)
  {
    (|brandList| == 0 || ToLower(p.brand) in brandList) && (|typeList| == 0 || ToLower(p.productType) in typeList)
  }

  /** `FilterByBrandsAndTypes`: an empty list imposes nothing; otherwise the lower-cased field must be listed. */
  function FilterByBrandsAndTypes(ps: seq<Product>, brands: Option<string>, types: Option<string>): (r: seq<Product>)
    ensures IsSubsequence(r, ps)
    ensures forall p :: p in r <==> p in ps && BrandTypeMatches(p, CsvValues(brands), CsvValues(types))
  {
    var brandList := CsvValues(brands);
    var typeList := CsvValues(types);
    var q1 := if |brandList| > 0 then Where(ps, (x: Product) => ToLower(x.brand) in brandList) else ps;
    var q2 := if |typeList| > 0 then Where(q1, (x: Product) => ToLower(x.productType) in typeList) else q1;
    SubsequenceRefl(ps);
    SubsequenceRefl(q1);
    SubsequenceTrans(q2, q1, ps);
    q2
  }

  /** The scope `FilterByCategoryAndBusiness` keeps a product in. */
  predicate CategoryMatches(p: Product, category: Option<string>, businessType: Option<string>)
  {
    && (IsNullOrWhiteSpace(businessType) || p.businessType == businessType.value)
    && (IsNullOrWhiteSpace(category) || EqualsIgnoreCase(category.value, "All") || p.category == category.value)
  }

  /** `FilterByCategoryAndBusiness`: exact, case-sensitive matches; a blank value or category "All" (any case) is no filter. */
  function FilterByCategoryAndBusiness(ps: seq<Product>, category: Option<string>, businessType: Option<string>): (r: seq<Product>)
    ensures IsSubsequence(r, ps)
    ensures forall p :: p in r <==> p in ps && CategoryMatches(p, category, businessType)
  {
    var q1 := WithBusinessType(ps, businessType);
    var q2 := WithCategory(q1, category);
    SubsequenceTrans(q2, q1, ps);
    q2
  }

  /** The business-type half of the scope. */
  function WithBusinessType(ps: seq<Product>, businessType: Option<string>): (r: seq<Product>)
    ensures IsSubsequence(r, ps)
    ensures forall p :: p in r <==> p in ps && (IsNullOrWhiteSpace(businessType) || p.businessType == businessType.value)
  {
    if IsNullOrWhiteSpace(businessType) then SubsequenceRefl(ps); ps
    else Where(ps, (p: Product) => p.businessType == businessType.value)
  }

  /** The category half of the scope. */
  function WithCategory(ps: seq<Product>, category: Option<string>): (r: seq<Product>)
    ensures IsSubsequence(r, ps)
    ensures forall p :: p in r <==> p in ps && (IsNullOrWhiteSpace(category) || EqualsIgnoreCase(category.value, "All") || p.category == category.value)
  {
    if IsNullOrWhiteSpace(category) || EqualsIgnoreCase(category.value, "All") then SubsequenceRefl(ps); ps
    else Where(ps, (p: Product) => p.category == category.value)
  }

  /** The listing query string (`ProductParams`); paging fields are carried but applied by the pager. */
  datatype ProductParams = ProductParams(
    orderBy: Option<string>,
    searchTerm: Option<string>,
    brands: Option<string>,
    types: Option<string>,
    businessType: Option<string>,
    pageNumber: int,
    pageSize: int
  )

  /** `GET api/products` before paging: search, brand/type filter, then the listing order. */
  function GetProducts(ps: seq<Product>, params: ProductParams): (r: seq<Product>)
    ensures forall i, j :: 0 <= i < j < |r| ==> NoLater(SortKeyOf(params.orderBy), r[i], r[j])
  {
    var filtered := FilterByBrandsAndTypes(Search(ps, params.searchTerm), params.brands, params.types);
    Listing(filtered, SortKeyOf(params.orderBy))
  }

  /** `GET api/products/category/{category}` before paging: scope, search, brand/type filter, then the listing order. */
  function GetProductsByCategory(ps: seq<Product>, category: string, params: ProductParams): (r: seq<Product>)
    ensures forall i, j :: 0 <= i < j < |r| ==> NoLater(SortKeyOf(params.orderBy), r[i], r[j])
  {
    var scoped := FilterByCategoryAndBusiness(ps, Some(category), params.businessType);
    var filtered := FilterByBrandsAndTypes(Search(scoped, params.searchTerm), params.brands, params.types);
    Listing(filtered, SortKeyOf(params.orderBy))
  }

  /** A product is listed by category exactly when it is in the table and passes every filter. */
  lemma CategoryListingMembers(ps: seq<Product>, category: string, params: ProductParams, p: Product)
    ensures p in GetProductsByCategory(ps, category, params) <==>
      && p in ps
      && CategoryMatches(p, Some(category), params.businessType)
      && SearchMatches(p, params.searchTerm)
      && BrandTypeMatches(p, CsvValues(params.brands), CsvValues(params.types))
  {
    var scoped := FilterByCategoryAndBusiness(ps, Some(category), params.businessType);
    var searched := Search(scoped, params.searchTerm);
    var filtered := FilterByBrandsAndTypes(searched, params.brands, params.types);
    var r := GetProductsByCategory(ps, category, params);
    assert p in r <==> p in multiset(filtered);
  }


  /** The unscoped listing is the category listing of "All" with no business type. */
  lemma GetProductsIsCategoryAll(ps: seq<Product>, params: ProductParams)
    ensures GetProducts(ps, params) == GetProductsByCategory(ps, "All", params.(businessType := None))
  {
    assert EqualsIgnoreCase("All", "All");
    assert FilterByCategoryAndBusiness(ps, Some("All"), None) == ps;
  }
}

/**
  * The filter options endpoint (`GetFilters` in API/Controllers/ProductsController.cs):
  * the products in scope are grouped by brand and by type, and each group becomes a
  * facet (name, count), listed by count descending, then name ascending.
  */
module Facets {
  import opened Wrappers
  import opened Text
  import opened Sorting
  import opened Queries
  import opened Entities
  import CatalogQuery

  /** The product field a facet list groups by. */
  datatype Dimension = Brand | Type {
    function Of(p: Product): string
    {
      match this
      case Brand => p.brand
      case Type => p.productType
    }
  }

  datatype Facet = Facet(name: string, count: nat)

  /** The scope `GetFilters` counts in: business type and category compared case-insensitively after trimming, name containing the lower-cased search term. */
  predicate InScope(p: Product, category: Option<string>, businessType: Option<string>, searchTerm: Option<string>)
  {
    && (IsNullOrWhiteSpace(businessType) || ToLower(p.businessType) == ToLower(Trim(businessType.value)))
    && (IsNullOrWhiteSpace(category) || EqualsIgnoreCase(category.value, "All")
        || ToLower(p.category) == ToLower(Trim(category.value)))
    && (IsNullOrWhiteSpace(searchTerm) || Contains(ToLower(p.name), ToLower(Trim(searchTerm.value))))
  }

  /** The scoped query, filter by filter as the action builds it. */
  function Scope(ps: seq<Product>, category: Option<string>, businessType: Option<string>, searchTerm: Option<string>): (r: seq<Product>)
    ensures IsSubsequence(r, ps)
    ensures forall p :: p in r <==> p in ps && InScope(p, category, businessType, searchTerm)
  {
    var q1 := if !IsNullOrWhiteSpace(businessType)
              then Where(ps, (p: Product) => ToLower(p.businessType) == ToLower(Trim(businessType.value))) else ps;
    var q2 := if !IsNullOrWhiteSpace(category) && !EqualsIgnoreCase(category.value, "All")
              then Where(q1, (p: Product) => ToLower(p.category) == ToLower(Trim(category.value))) else q1;
    var q3 := if !IsNullOrWhiteSpace(searchTerm)
              then Where(q2, (p: Product) => Contains(ToLower(p.name), ToLower(Trim(searchTerm.value)))) else q2;
    SubsequenceRefl(ps);
    SubsequenceRefl(q1);
    SubsequenceRefl(q2);
    SubsequenceTrans(q2, q1, ps);
    SubsequenceTrans(q3, q2, ps);
    q3
  }

  /** The number of products whose field equals `name`. */
  function CountWith(ps: seq<Product>, d: Dimension, name: string): nat
  {
    if |ps| == 0 then 0 else (if d.Of(ps[0]) == name then 1 else 0) + CountWith(ps[1..], d, name)
  }

  /** The number of products whose field is non-empty. */
  function CountNonEmpty(ps: seq<Product>, d: Dimension): nat
  {
    if |ps| == 0 then 0 else (if d.Of(ps[0]) != "" then 1 else 0) + CountNonEmpty(ps[1..], d)
  }

  /** The non-empty field values, in product order (`Where(p => p.Brand != null && p.Brand != "")`). */
  function Values(ps: seq<Product>, d: Dimension): (r: seq<string>)
    ensures |r| == CountNonEmpty(ps, d)
    ensures forall n :: n != "" ==> multiset(r)[n] == CountWith(ps, d, n)
    ensures "" !in r
  {
    if |ps| == 0 then []
    else if d.Of(ps[0]) != "" then [d.Of(ps[0])] + Values(ps[1..], d)
    else Values(ps[1..], d)
  }

  /** No two facets share a name. */
  predicate UniqueNames(fs: seq<Facet>)
  {
    forall i, j :: 0 <= i < j < |fs| ==> fs[i].name != fs[j].name
  }

  /** Some facet has this name. */
  predicate HasName(fs: seq<Facet>, n: string)
  {
    exists i :: 0 <= i < |fs| && fs[i].name == n
  }

  /** The count of the first facet with this name, 0 if none. */
  function CountOf(fs: seq<Facet>, n: string): nat
  {
    if |fs| == 0 then 0 else if fs[0].name == n then fs[0].count else CountOf(fs[1..], n)
  }

  /** The sum of the counts. */
  function Total(fs: seq<Facet>): nat
  {
    if |fs| == 0 then 0 else fs[0].count + Total(fs[1..])
  }

  /** `r` is `fs` with one more element in group `v`: names stay unique, only `v`'s count
      rises, by one, `v` is now present, counts stay positive and the total grows by one. */
  ghost predicate Bumped(fs: seq<Facet>, v: string, r: seq<Facet>)
  {
    && UniqueNames(r)
    && (forall n :: CountOf(r, n) == CountOf(fs, n) + (if n == v then 1 else 0))
    && (forall n :: HasName(r, n) <==> HasName(fs, n) || n == v)
    && ((forall i :: 0 <= i < |fs| ==> fs[i].count >= 1) ==> (forall i :: 0 <= i < |r| ==> r[i].count >= 1))
    && Total(r) == Total(fs) + 1
  }

  /** One more element in group `v`: bump its facet, or start one at the end. */
  function Bump(fs: seq<Facet>, v: string): (r: seq<Facet>)
    requires UniqueNames(fs)
    ensures Bumped(fs, v, r)
  {
    if |fs| == 0 then
      BumpEmpty(v);
      [Facet(v, 1)] + []
    else if fs[0].name == v then
      BumpHead(fs);
      [fs[0].(count := fs[0].count + 1)] + fs[1..]
    else
      UniqueTail(fs);
      var rest := Bump(fs[1..], v);
      BumpLater(fs, v, rest);
      [fs[0]] + rest
  }

  /** The first element of a group starts a facet of count one. */
  lemma BumpEmpty(v: string)
    ensures Bumped([], v, [Facet(v, 1)] + [])
  {
    FacetsCons(Facet(v, 1), []);
  }

  /** An element of the first facet's group raises that facet's count. */
  lemma BumpHead(fs: seq<Facet>)
    requires |fs| > 0 && UniqueNames(fs)
    ensures Bumped(fs, fs[0].name, [fs[0].(count := fs[0].count + 1)] + fs[1..])
  {
    UniqueTail(fs);
    HasNameCons(fs[0], fs[1..]);
    FacetsCons(fs[0].(count := fs[0].count + 1), fs[1..]);
  }

  /** An element of a later group leaves the first facet in front of the bumped rest. */
  lemma BumpLater(fs: seq<Facet>, v: string, rest: seq<Facet>)
    requires |fs| > 0 && UniqueNames(fs) && fs[0].name != v
    requires Bumped(fs[1..], v, rest)
    ensures Bumped(fs, v, [fs[0]] + rest)
  {
    UniqueTail(fs);
    HasNameCons(fs[0], fs[1..]);
    FacetsCons(fs[0], rest);
  }

  /** A valid facet list's tail is valid and does not repeat its head's name. */
  lemma UniqueTail(fs: seq<Facet>)
    requires |fs| > 0 && UniqueNames(fs)
    ensures UniqueNames(fs[1..]) && !HasName(fs[1..], fs[0].name)
    ensures (forall i :: 0 <= i < |fs| ==> fs[i].count >= 1) ==> (forall i :: 0 <= i < |fs[1..]| ==> fs[1..][i].count >= 1)
  {
    forall i | 0 <= i < |fs[1..]| ensures fs[1..][i] == fs[i + 1] { }
  }

  /** Counts, total, names, uniqueness and positivity of `[f] + rest`, from `f` and `rest`. */
  lemma FacetsCons(f: Facet, rest: seq<Facet>)
    ensures forall n :: CountOf([f] + rest, n) == (if f.name == n then f.count else CountOf(rest, n))
    ensures Total([f] + rest) == f.count + Total(rest)
    ensures forall n :: HasName([f] + rest, n) <==> f.name == n || HasName(rest, n)
    ensures UniqueNames(rest) && !HasName(rest, f.name) ==> UniqueNames([f] + rest)
    ensures f.count >= 1 && (forall i :: 0 <= i < |rest| ==> rest[i].count >= 1) ==>
            forall i :: 0 <= i < |[f] + rest| ==> ([f] + rest)[i].count >= 1
  {
    var s := [f] + rest;
    assert s[0] == f && s[1..] == rest;
    HasNameCons(f, rest);
    if UniqueNames(rest) && !HasName(rest, f.name) {
      forall i, j | 0 <= i < j < |s| ensures s[i].name != s[j].name {
        if i == 0 {
          assert s[j] == rest[j - 1];
        } else {
          assert s[i] == rest[i - 1] && s[j] == rest[j - 1];
        }
      }
    }
    forall i | 1 <= i < |s| ensures s[i] == rest[i - 1] { }
  }

  /** The names of `[f] + rest` are `f`'s and those of `rest`. */
  lemma HasNameCons(f: Facet, rest: seq<Facet>)
    ensures forall n :: HasName([f] + rest, n) <==> f.name == n || HasName(rest, n)
  {
    var s := [f] + rest;
    forall n
      ensures HasName(s, n) <==> f.name == n || HasName(rest, n)
    {
      if HasName(rest, n) {
        var i :| 0 <= i < |rest| && rest[i].name == n;
        assert s[i + 1].name == n;
      }
      if f.name == n {
        assert s[0].name == n;
      }
      if HasName(s, n) {
        var i :| 0 <= i < |s| && s[i].name == n;
        if i > 0 {
          assert rest[i - 1].name == n;
        }
      }
    }
  }

  /** `GroupBy(...).Select(g => new { name = g.Key, count = g.Count() })`. */
  function Tally(vs: seq<string>): (r: seq<Facet>)
    ensures UniqueNames(r)
    ensures forall n :: CountOf(r, n) == multiset(vs)[n]
    ensures forall n :: HasName(r, n) <==> n in vs
    ensures forall i :: 0 <= i < |r| ==> r[i].count >= 1
    ensures Total(r) == |vs|
  {
    if |vs| == 0 then []
    else
      assert vs == [vs[0]] + vs[1..];
      Bump(Tally(vs[1..]), vs[0])
  }

  /** With unique names, each facet's count is the count for its name. */
  lemma {:induction false} CountOfUnique(fs: seq<Facet>, i: int)
    requires UniqueNames(fs) && 0 <= i < |fs|
    ensures CountOf(fs, fs[i].name) == fs[i].count
  {
    if i > 0 {
      assert fs[0].name != fs[i].name;
      CountOfUnique(fs[1..], i - 1);
    }
  }

  /** With unique names, no facet occurs twice. */
  lemma {:induction false} UniqueNamesNoDup(fs: seq<Facet>, x: Facet)
    requires UniqueNames(fs)
    ensures multiset(fs)[x] <= 1
  {
    if |fs| > 0 {
      assert fs == [fs[0]] + fs[1..];
      UniqueNamesNoDup(fs[1..], x);
      if x == fs[0] {
        assert x !in fs[1..];
      }
    }
  }

  /** Two positions holding the same element make it occur twice. */
  lemma TwoPositions<T>(s: seq<T>, i: int, j: int)
    requires 0 <= i < j < |s| && s[i] == s[j]
    ensures multiset(s)[s[i]] >= 2
  {
    assert s == s[..j] + s[j..];
    assert s[i] in s[..j];
    assert s[j] in s[j..];
  }

  /** Facet order: higher count first, then ordinal name order. */
  predicate FacetNoLater(a: Facet, b: Facet)
  {
    a.count > b.count || (a.count == b.count && !StrLess(b.name, a.name))
  }

  lemma FacetOrderIsTotalPreorder()
    ensures IsTotalPreorder(FacetNoLater)
  {
    forall a: Facet, b: Facet
      ensures FacetNoLater(a, b) || FacetNoLater(b, a)
    {
      StrLessIsStrictTotal(a.name, b.name, b.name);
    }
    forall a: Facet, b: Facet, c: Facet | FacetNoLater(a, b) && FacetNoLater(b, c)
      ensures FacetNoLater(a, c)
    {
      StrLessIsStrictTotal(a.name, b.name, c.name);
      StrLessIsStrictTotal(c.name, a.name, b.name);
      StrLessIsStrictTotal(b.name, c.name, a.name);
    }
  }

  /** Sorting keeps the sum of counts. */
  lemma {:induction false} TotalInsert(x: Facet, s: seq<Facet>)
    ensures Total(Insert(x, s, FacetNoLater)) == x.count + Total(s)
  {
    if |s| > 0 && !FacetNoLater(x, s[0]) {
      TotalInsert(x, s[1..]);
      assert Insert(x, s, FacetNoLater)[1..] == Insert(x, s[1..], FacetNoLater);
    }
  }

  lemma {:induction false} TotalSort(s: seq<Facet>)
    ensures Total(SortBy(s, FacetNoLater)) == Total(s)
  {
    if |s| > 0 {
      TotalSort(s[1..]);
      TotalInsert(s[0], SortBy(s[1..], FacetNoLater));
    }
  }

  /** One facet list of `GetFilters` over already scoped products. */
  function FacetsOf(ps: seq<Product>, d: Dimension): (r: seq<Facet>)
    ensures UniqueNames(r)
    ensures forall i :: 0 <= i < |r| ==> r[i].name != "" && r[i].count == CountWith(ps, d, r[i].name)
    ensures forall i :: 0 <= i < |r| ==> r[i].count >= 1
    ensures forall p :: p in ps && d.Of(p) != "" ==> HasName(r, d.Of(p))
    ensures forall i, j :: 0 <= i < j < |r| ==>
      r[i].count > r[j].count || (r[i].count == r[j].count && StrLess(r[i].name, r[j].name))
    ensures Total(r) == CountNonEmpty(ps, d)
  {
    var vs := Values(ps, d);
    var t := Tally(vs);
    var r := SortBy(t, FacetNoLater);
    FacetOrderIsTotalPreorder();
    SortBySorted(t, FacetNoLater);
    TotalSort(t);
    SortedCounts(ps, d, vs, t, r);
    SortedUniqueNames(t, r);
    SortedCovers(ps, d, vs, t, r);
    SortedStrict(r);
    r
  }

  /** Each facet of a permuted tally carries its group's product count. */
  lemma SortedCounts(ps: seq<Product>, d: Dimension, vs: seq<string>, t: seq<Facet>, r: seq<Facet>)
    requires vs == Values(ps, d) && t == Tally(vs) && multiset(r) == multiset(t)
    ensures forall i :: 0 <= i < |r| ==> r[i].name != "" && r[i].count == CountWith(ps, d, r[i].name)
    ensures forall i :: 0 <= i < |r| ==> r[i].count >= 1
  {
    forall i | 0 <= i < |r|
      ensures r[i].name != "" && r[i].count == CountWith(ps, d, r[i].name) && r[i].count >= 1
    {
      assert r[i] in multiset(t);
      var k :| 0 <= k < |t| && t[k] == r[i];
      CountOfUnique(t, k);
      assert HasName(t, t[k].name);
    }
  }

  /** A permutation of facets with unique names has unique names. */
  lemma SortedUniqueNames(t: seq<Facet>, r: seq<Facet>)
    requires UniqueNames(t) && multiset(r) == multiset(t)
    ensures UniqueNames(r)
  {
    forall i, j | 0 <= i < j < |r|
      ensures r[i].name != r[j].name
    {
      if r[i].name == r[j].name {
        assert r[i] in multiset(t) && r[j] in multiset(t);
        var k :| 0 <= k < |t| && t[k] == r[i];
        var l :| 0 <= l < |t| && t[l] == r[j];
        TwoPositions(r, i, j);
        UniqueNamesNoDup(t, r[i]);
      }
    }
  }

  /** Every non-empty value of a scoped product has a facet. */
  lemma SortedCovers(ps: seq<Product>, d: Dimension, vs: seq<string>, t: seq<Facet>, r: seq<Facet>)
    requires vs == Values(ps, d) && t == Tally(vs) && multiset(r) == multiset(t)
    ensures forall p :: p in ps && d.Of(p) != "" ==> HasName(r, d.Of(p))
  {
    forall p | p in ps && d.Of(p) != ""
      ensures HasName(r, d.Of(p))
    {
      var i :| 0 <= i < |ps| && ps[i] == p;
      CountWithPositive(ps, d, i);
      assert multiset(vs)[d.Of(p)] >= 1;
      assert HasName(t, d.Of(p));
      var k :| 0 <= k < |t| && t[k].name == d.Of(p);
      assert t[k] in multiset(r);
    }
  }

  /** Sorted facets with unique names are strictly ordered. */
  lemma SortedStrict(r: seq<Facet>)
    requires SortedBy(r, FacetNoLater) && UniqueNames(r)
    ensures forall i, j :: 0 <= i < j < |r| ==>
      r[i].count > r[j].count || (r[i].count == r[j].count && StrLess(r[i].name, r[j].name))
  {
    forall i, j | 0 <= i < j < |r|
      ensures r[i].count > r[j].count || (r[i].count == r[j].count && StrLess(r[i].name, r[j].name))
    {
      assert FacetNoLater(r[i], r[j]);
      StrLessIsStrictTotal(r[i].name, r[j].name, r[j].name);
    }
  }

  /** A product's own value is counted at least once. */
  lemma {:induction false} CountWithPositive(ps: seq<Product>, d: Dimension, i: int)
    requires 0 <= i < |ps|
    ensures CountWith(ps, d, d.Of(ps[i])) >= 1
  {
    if i > 0 {
      CountWithPositive(ps[1..], d, i - 1);
    }
  }

  /** The response of `GET api/products/filters`. */
  datatype Filters = Filters(brands: seq<Facet>, types: seq<Facet>)

  function GetFilters(ps: seq<Product>, category: Option<string>, businessType: Option<string>, searchTerm: Option<string>): (r: Filters)
    ensures var scoped := Scope(ps, category, businessType, searchTerm);
      && r.brands == FacetsOf(scoped, Brand)
      && r.types == FacetsOf(scoped, Type)
  {
    var scoped := Scope(ps, category, businessType, searchTerm);
    Filters(FacetsOf(scoped, Brand), FacetsOf(scoped, Type))
  }

  /** Lower-casing both sides keeps an occurrence. */
  lemma ContainsLower(s: string, t: string)
    requires Contains(s, t)
    ensures Contains(ToLower(s), ToLower(t))
  {
    var i :| 0 <= i <= |s| && OccursAt(s, t, i);
    assert ToLower(s)[i..i + |t|] == ToLower(t);
    assert OccursAt(ToLower(s), ToLower(t), i);
  }

  /**
    * With trimmed category and business type, every product the category listing can
    * return (before brand/type filtering) is counted by the filter options.
    */
  lemma ListingWithinScope(p: Product, category: string, businessType: Option<string>, searchTerm: Option<string>)
    requires IsTrimmed(category)
    requires businessType.Some? ==> IsTrimmed(businessType.value)
    requires CatalogQuery.CategoryMatches(p, Some(category), businessType)
    requires CatalogQuery.SearchMatches(p, searchTerm)
    ensures InScope(p, Some(category), businessType, searchTerm)
  {
    if !IsNullOrWhiteSpace(searchTerm) {
      ContainsLower(p.name, Trim(searchTerm.value));
    }
  }
}

/**
  * The client's catalog filter state (client/src/features/catalog/catalogSlice.ts):
  * the business type, committed search term, sort option, selected brands and
  * types, and page size, with the slice's reducers as one transition function.
  */
module CatalogSlice {
  import opened Wrappers
  import opened Text
  import CatalogQuery

  /** `SortOption`. */
  datatype SortOption = SortName | SortPrice | SortPriceDesc {
    /** The string the option is sent as. */
    function Text(): string
    {
      match this
      case SortName => "name"
      case SortPrice => "price"
      case SortPriceDesc => "priceDesc"
    }
  }

  /** `CatalogState`. */
  datatype CatalogState = CatalogState(
    businessType: string,
    searchTerm: string,
    orderBy: SortOption,
    selectedBrands: seq<string>,
    selectedTypes: seq<string>,
    pageSize: int
  )

  /** `initialState`. */
  const InitialState := CatalogState("Grocery", "", SortName, [], [], 12)

  /** The slice's actions. */
  datatype CatalogAction =
    | SetBusinessType(businessType: string)
    | SetSearchTerm(searchTerm: string)
    | SetOrderBy(orderBy: SortOption)
    | SetSelectedBrands(brands: seq<string>)
    | SetSelectedTypes(types: seq<string>)
    | ClearFilters
    | SetPageSize(pageSize: int)

  /** Search, sort, brands and types are at their defaults. */
  predicate FiltersCleared(s: CatalogState)
  {
    s.searchTerm == "" && s.orderBy == SortName && s.selectedBrands == [] && s.selectedTypes == []
  }

  /** Two states agree on everything but search, sort, brands and types. */
  predicate SameScope(a: CatalogState, b: CatalogState)
  {
    a.businessType == b.businessType && a.pageSize == b.pageSize
  }

  /** The reducer. */
  function Reduce(s: CatalogState, action: CatalogAction): (r: CatalogState)
    ensures action.SetBusinessType? ==> FiltersCleared(r) && r.businessType == action.businessType && r.pageSize == s.pageSize
    ensures action.ClearFilters? ==> FiltersCleared(r) && SameScope(r, s)
    ensures action.SetSearchTerm? ==> r.searchTerm == action.searchTerm && r == s.(searchTerm := r.searchTerm)
    ensures action.SetOrderBy? ==> r.orderBy == action.orderBy && r == s.(orderBy := r.orderBy)
    ensures action.SetSelectedBrands? ==> r.selectedBrands == action.brands && r == s.(selectedBrands := r.selectedBrands)
    ensures action.SetSelectedTypes? ==> r.selectedTypes == action.types && r == s.(selectedTypes := r.selectedTypes)
    ensures action.SetPageSize? ==> r.pageSize == action.pageSize && r == s.(pageSize := r.pageSize)
  {
    match action
    case SetBusinessType(b) => s.(businessType := b, searchTerm := "", orderBy := SortName, selectedBrands := [], selectedTypes := [])
    case SetSearchTerm(t) => s.(searchTerm := t)
    case SetOrderBy(o) => s.(orderBy := o)
    case SetSelectedBrands(bs) => s.(selectedBrands := bs)
    case SetSelectedTypes(ts) => s.(selectedTypes := ts)
    case ClearFilters => s.(searchTerm := "", orderBy := SortName, selectedBrands := [], selectedTypes := [])
    case SetPageSize(n) => s.(pageSize := n)
  }

  /** The initial state has no filters. */
  lemma InitialIsCleared()
    ensures FiltersCleared(InitialState)
    ensures InitialState.businessType == "Grocery" && InitialState.pageSize == 12
  {
  }

  /** Clearing is idempotent, and on a state without filters it changes nothing. */
  lemma ClearFiltersIdempotent(s: CatalogState)
    ensures Reduce(Reduce(s, ClearFilters), ClearFilters) == Reduce(s, ClearFilters)
    ensures FiltersCleared(s) ==> Reduce(s, ClearFilters) == s
  {
  }

  /** Switching business type already clears the filters. */
  lemma SetBusinessTypeThenClear(s: CatalogState, b: string)
    ensures Reduce(Reduce(s, SetBusinessType(b)), ClearFilters) == Reduce(s, SetBusinessType(b))
  {
  }

  /** Switching business type is clearing the filters in the new business type. */
  lemma SetBusinessTypeIsClearIn(s: CatalogState, b: string)
    ensures Reduce(s, SetBusinessType(b)) == Reduce(s.(businessType := b), ClearFilters)
  {
  }

  /** The server reads each sort option as the key of the same name. */
  lemma SortOptionAgreesWithServer(o: SortOption)
    ensures CatalogQuery.SortKeyOf(Some(o.Text())) ==
      match o
      case SortName => CatalogQuery.ByName
      case SortPrice => CatalogQuery.ByPrice
      case SortPriceDesc => CatalogQuery.ByPriceDesc
  {
    assert "name" != "price" by { assert "name"[0] != "price"[0]; }
    assert "name" != "priceDesc" by { assert "name"[0] != "priceDesc"[0]; }
  }

  /** The sort options are told apart by their strings. */
  lemma SortTextInjective(a: SortOption, b: SortOption)
    ensures a.Text() == b.Text() <==> a == b
  {
    if a != b {
      assert a.Text()[0] != b.Text()[0] || |a.Text()| != |b.Text()|;
    }
  }
}

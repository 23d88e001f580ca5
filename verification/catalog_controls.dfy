/**
  * The catalog's search and filter bar (client/src/features/catalog/CatalogControls.tsx):
  * a search box committed on demand, a drawer holding a draft of the brand and
  * type selection, the filter badge and the sort chip. The component's state
  * and the slice it dispatches to evolve together under one event function.
  */
module CatalogControls {
  import opened Text
  import opened CatalogSlice

  /** Removes every occurrence of `v`. */
  function RemoveAll(list: seq<string>, v: string): (r: seq<string>)
    ensures |r| <= |list|
    ensures v !in r
    ensures forall x :: x != v ==> (x in r <==> x in list)
  {
    if |list| == 0 then []
    else if list[0] == v then RemoveAll(list[1..], v)
    else [list[0]] + RemoveAll(list[1..], v)
  }

  /** `toggleInList`: drops every copy of a listed value, or appends an unlisted one. */
  function ToggleInList(list: seq<string>, v: string): (r: seq<string>)
    ensures v in r <==> v !in list
    ensures forall x :: x != v ==> (x in r <==> x in list)
    ensures v !in list ==> r == list + [v]
  {
    if v in list then RemoveAll(list, v) else list + [v]
  }

  /** Removing a value that is not there changes nothing. */
  lemma {:induction false} RemoveAbsent(list: seq<string>, v: string)
    requires v !in list
    ensures RemoveAll(list, v) == list
    decreases |list|
  {
    if |list| > 0 {
      RemoveAbsent(list[1..], v);
      assert list == [list[0]] + list[1..];
    }
  }

  /** Removing distributes over concatenation. */
  lemma {:induction false} RemoveAllAppend(a: seq<string>, b: seq<string>, v: string)
    ensures RemoveAll(a + b, v) == RemoveAll(a, v) + RemoveAll(b, v)
    decreases |a|
  {
    if |a| == 0 {
      assert a + b == b;
    } else {
      RemoveAllAppend(a[1..], b, v);
      assert (a + b)[1..] == a[1..] + b;
    }
  }

  /** Toggling an unlisted value twice gives the list back. */
  lemma ToggleTwice(list: seq<string>, v: string)
    requires v !in list
    ensures ToggleInList(ToggleInList(list, v), v) == list
  {
    RemoveAllAppend(list, [v], v);
    RemoveAbsent(list, v);
    assert RemoveAll([v], v) == [];
  }

  /** The drawer's uncommitted selection. */
  datatype Draft = Draft(brands: seq<string>, types: seq<string>)

  /** The bar's local state next to the slice it reads and writes. */
  datatype Controls = Controls(catalog: CatalogState, searchInput: string, open: bool, draft: Draft)

  /** What a freshly mounted bar holds: the committed search and selection. */
  function Mount(catalog: CatalogState): (c: Controls)
    ensures c.catalog == catalog && !c.open
    ensures c.searchInput == catalog.searchTerm
    ensures c.draft == Draft(catalog.selectedBrands, catalog.selectedTypes)
  {
    Controls(catalog, catalog.searchTerm, false, Draft(catalog.selectedBrands, catalog.selectedTypes))
  }

  /** The user's actions on the bar. */
  datatype Event =
    | TypeSearch(text: string)
    | SubmitSearch
    | ClearSearch
    | OpenFilters
    | CloseFilters
    | ApplyFilters
    | ToggleDraftBrand(brand: string)
    | ToggleDraftType(productType: string)
    | ClearAll
    | ChooseOrder(orderBy: SortOption)
    | DropSortChip
    | DropBrandChip(brand: string)
    | DropTypeChip(productType: string)

  /** A draft toggle: the only events that may happen while the drawer is open. */
  predicate IsDraftEdit(e: Event)
  {
    e.ToggleDraftBrand? || e.ToggleDraftType?
  }

  /** One event. */
  function Step(c: Controls, e: Event): (r: Controls)
    ensures IsDraftEdit(e) ==> r.catalog == c.catalog && r.open == c.open
    ensures e.SubmitSearch? ==> r.catalog == Reduce(c.catalog, SetSearchTerm(Trim(c.searchInput)))
    ensures e.ApplyFilters? ==> !r.open && r.catalog.selectedBrands == c.draft.brands && r.catalog.selectedTypes == c.draft.types
    ensures e.CloseFilters? ==> !r.open && r.catalog == c.catalog
    ensures e.OpenFilters? ==> r.open && r.draft == Draft(c.catalog.selectedBrands, c.catalog.selectedTypes)
    ensures e.ClearAll? ==> r.searchInput == "" && r.draft == Draft([], []) && r.catalog == Reduce(c.catalog, ClearFilters)
  {
    match e
    case TypeSearch(t) => c.(searchInput := t)
    case SubmitSearch => c.(catalog := Reduce(c.catalog, SetSearchTerm(Trim(c.searchInput))))
    case ClearSearch => c.(searchInput := "", catalog := Reduce(c.catalog, SetSearchTerm("")))
    case OpenFilters => c.(draft := Draft(c.catalog.selectedBrands, c.catalog.selectedTypes), open := true)
    case CloseFilters => c.(open := false)
    case ApplyFilters =>
      var s := Reduce(Reduce(c.catalog, SetSelectedBrands(c.draft.brands)), SetSelectedTypes(c.draft.types));
      c.(catalog := s, open := false)
    case ToggleDraftBrand(b) => c.(draft := c.draft.(brands := ToggleInList(c.draft.brands, b)))
    case ToggleDraftType(t) => c.(draft := c.draft.(types := ToggleInList(c.draft.types, t)))
    case ClearAll => c.(searchInput := "", catalog := Reduce(c.catalog, ClearFilters), draft := Draft([], []))
    case ChooseOrder(o) => c.(catalog := Reduce(c.catalog, SetOrderBy(o)))
    case DropSortChip => c.(catalog := Reduce(c.catalog, SetOrderBy(SortName)))
    case DropBrandChip(b) => c.(catalog := Reduce(c.catalog, SetSelectedBrands(RemoveAll(c.catalog.selectedBrands, b))))
    case DropTypeChip(t) => c.(catalog := Reduce(c.catalog, SetSelectedTypes(RemoveAll(c.catalog.selectedTypes, t))))
  }

  /** A run of events, first to last. */
  function Run(c: Controls, es: seq<Event>): Controls
    decreases |es|
  {
    if |es| == 0 then c else Run(Step(c, es[0]), es[1..])
  }

  /** The brand selection a run of draft toggles produces. */
  function DraftBrands(brands: seq<string>, es: seq<Event>): seq<string>
    decreases |es|
  {
    if |es| == 0 then brands
    else DraftBrands(if es[0].ToggleDraftBrand? then ToggleInList(brands, es[0].brand) else brands, es[1..])
  }

  /** The type selection a run of draft toggles produces. */
  function DraftTypes(types: seq<string>, es: seq<Event>): seq<string>
    decreases |es|
  {
    if |es| == 0 then types
    else DraftTypes(if es[0].ToggleDraftType? then ToggleInList(types, es[0].productType) else types, es[1..])
  }

  /** Draft toggles touch only the draft, and build it from where it started. */
  lemma {:induction false} DraftEditsStayLocal(c: Controls, es: seq<Event>)
    requires forall i :: 0 <= i < |es| ==> IsDraftEdit(es[i])
    ensures Run(c, es).catalog == c.catalog && Run(c, es).open == c.open && Run(c, es).searchInput == c.searchInput
    ensures Run(c, es).draft == Draft(DraftBrands(c.draft.brands, es), DraftTypes(c.draft.types, es))
    decreases |es|
  {
    if |es| > 0 {
      DraftEditsStayLocal(Step(c, es[0]), es[1..]);
    }
  }

  /** Opening the drawer, editing, then closing leaves the committed filters as they were. */
  lemma CloseDiscardsDraft(c: Controls, edits: seq<Event>)
    requires forall i :: 0 <= i < |edits| ==> IsDraftEdit(edits[i])
    ensures Run(c, [OpenFilters] + edits + [CloseFilters]).catalog == c.catalog
  {
    var drawer := Step(c, OpenFilters);
    RunAppend(c, [OpenFilters], edits);
    RunAppend(c, [OpenFilters] + edits, [CloseFilters]);
    DraftEditsStayLocal(drawer, edits);
  }

  /** Opening the drawer, editing, then applying commits the edits made to the committed selection. */
  lemma ApplyCommitsDraft(c: Controls, edits: seq<Event>)
    requires forall i :: 0 <= i < |edits| ==> IsDraftEdit(edits[i])
    ensures var r := Run(c, [OpenFilters] + edits + [ApplyFilters]);
      && r.catalog.selectedBrands == DraftBrands(c.catalog.selectedBrands, edits)
      && r.catalog.selectedTypes == DraftTypes(c.catalog.selectedTypes, edits)
      && SameScope(r.catalog, c.catalog)
      && r.catalog.searchTerm == c.catalog.searchTerm && r.catalog.orderBy == c.catalog.orderBy
  {
    var drawer := Step(c, OpenFilters);
    RunAppend(c, [OpenFilters], edits);
    RunAppend(c, [OpenFilters] + edits, [ApplyFilters]);
    DraftEditsStayLocal(drawer, edits);
  }

  /** Running two lists of events is running one after the other. */
  lemma {:induction false} RunAppend(c: Controls, a: seq<Event>, b: seq<Event>)
    ensures Run(c, a + b) == Run(Run(c, a), b)
    decreases |a|
  {
    if |a| == 0 {
      assert a + b == b;
    } else {
      RunAppend(Step(c, a[0]), a[1..], b);
      assert (a + b)[1..] == a[1..] + b;
    }
  }

  /** The committed search never has surrounding white space after a submit, and submitting twice is submitting once. */
  lemma SubmitSearchTrims(c: Controls)
    ensures IsTrimmed(Step(c, SubmitSearch).catalog.searchTerm)
    ensures Step(Step(c, SubmitSearch), SubmitSearch) == Step(c, SubmitSearch)
  {
  }

  /** After clearing everything the filters are cleared and nothing is counted on the badge. */
  lemma ClearAllClears(c: Controls)
    ensures FiltersCleared(Step(c, ClearAll).catalog)
    ensures SameScope(Step(c, ClearAll).catalog, c.catalog)
    ensures FilterCount(Step(c, ClearAll)) == 0
  {
  }

  /** The badge: the committed brands and types, drafts not counted. */
  function FilterCount(c: Controls): (n: nat)
    ensures n == 0 <==> c.catalog.selectedBrands == [] && c.catalog.selectedTypes == []
  {
    |c.catalog.selectedBrands| + |c.catalog.selectedTypes|
  }

  /** Draft edits never move the badge. */
  lemma DraftEditsKeepCount(c: Controls, e: Event)
    requires IsDraftEdit(e)
    ensures FilterCount(Step(c, e)) == FilterCount(c)
  {
  }

  /** `sortLabel`: a chip only for the price orders. */
  function SortLabel(orderBy: SortOption): (caption: string)
    ensures caption == "" <==> orderBy == SortName
    ensures orderBy == SortPrice ==> caption == "Sort: Price ↑"
    ensures orderBy == SortPriceDesc ==> caption == "Sort: Price ↓"
  {
    match orderBy
    case SortPrice => "Sort: Price ↑"
    case SortPriceDesc => "Sort: Price ↓"
    case SortName => ""
  }

  /** Deleting the sort chip removes it. */
  lemma DropSortChipClearsLabel(c: Controls)
    ensures SortLabel(Step(c, DropSortChip).catalog.orderBy) == ""
  {
  }
}

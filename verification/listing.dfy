/** The listing page's filter and paging state
    (src/components/ProductList/ProductList.tsx): the facet check boxes,
    the search box, "Clear all" and "Load more". Each handler is a pure
    transition of the state the page keeps in its hooks. */
module Listing {
  import opened Seqs
  import opened Catalogue

  /** The page's state: selected facets, the page counter and the search text. */
  datatype ListingState = ListingState(filters: FilterState, page: int, search: string)

  /** `handleFilterChange`: ticking appends the value (duplicates allowed),
      unticking removes every occurrence; either way the page resets to 1. */
  function HandleFilterChange(s: ListingState, facet: Facet, value: string, checked: bool): (r: ListingState)
    ensures r.page == 1 && r.search == s.search
    ensures forall g :: g != facet ==> r.filters.Get(g) == s.filters.Get(g)
    ensures checked ==> r.filters.Get(facet) == s.filters.Get(facet) + [value]
    ensures !checked ==> value !in r.filters.Get(facet)
    ensures !checked ==> IsSubseq(r.filters.Get(facet), s.filters.Get(facet))
    ensures !checked ==> forall x :: x != value ==>
      multiset(r.filters.Get(facet))[x] == multiset(s.filters.Get(facet))[x]
  {
    var prev := s.filters.Get(facet);
    var next := if checked then prev + [value] else Filter(prev, (item: string) => item != value);
    assert !checked ==> multiset(next)[value] == 0;
    ListingState(s.filters.With(facet, next), 1, s.search)
  }

  /** Ticking a value that was not selected and then unticking it restores
      the selection exactly. */
  lemma CheckThenUncheck(s: ListingState, facet: Facet, value: string)
    requires value !in s.filters.Get(facet)
    ensures HandleFilterChange(HandleFilterChange(s, facet, value, true), facet, value, false).filters == s.filters
  {
    var prev := s.filters.Get(facet);
    var keep := (item: string) => item != value;
    FilterAppend(prev, [value], keep);
    FilterAll(prev, keep);
    assert Filter([value], keep) == [];
    var r := HandleFilterChange(HandleFilterChange(s, facet, value, true), facet, value, false);
    assert forall g :: r.filters.Get(g) == s.filters.Get(g);
    assert r.filters.categories == s.filters.Get(Categories);
    assert r.filters.brands == s.filters.Get(Brands);
    assert r.filters.priceRanges == s.filters.Get(PriceRanges);
    assert r.filters.sizes == s.filters.Get(Sizes);
    assert r.filters.colors == s.filters.Get(Colors);
  }

  /** `handleSearch`: a new query starts again from page 1. */
  function HandleSearch(s: ListingState, query: string): (r: ListingState)
    ensures r.search == query && r.page == 1 && r.filters == s.filters
  {
    ListingState(s.filters, 1, query)
  }

  /** `clearAll`: every facet emptied and page 1; the search is kept. */
  function ClearAll(s: ListingState): (r: ListingState)
    ensures NoSelection(r.filters)
    ensures r.page == 1 && r.search == s.search
  {
    ListingState(DefaultFilters, 1, s.search)
  }

  /** `handleLoadMore`: the next page, only when the server reports one and
      no fetch is in flight. */
  function HandleLoadMore(s: ListingState, hasNextPage: bool, isFetching: bool): (r: ListingState)
    ensures r.filters == s.filters && r.search == s.search
    ensures r.page == if hasNextPage && !isFetching then s.page + 1 else s.page
  {
    if hasNextPage && !isFetching then s.(page := s.page + 1) else s
  }

  /** The total number of selected values across the facets. */
  function SelectionCount(f: FilterState): nat
  {
    |f.categories| + |f.brands| + |f.priceRanges| + |f.sizes| + |f.colors|
  }

  /** `isAnyFilterActive`: the selection count is positive, which is the
      same as some facet having a selection. */
  predicate IsAnyFilterActive(f: FilterState): (b: bool)
    ensures b <==> !NoSelection(f)
  {
    assert f.Get(Categories) == f.categories && f.Get(Brands) == f.brands && f.Get(PriceRanges) == f.priceRanges
      && f.Get(Sizes) == f.sizes && f.Get(Colors) == f.colors;
    SelectionCount(f) > 0
  }

  /** While no filter is active the page lists every product. */
  lemma InactiveListsAll(source: seq<Product>, s: ListingState, nameToId: map<string, string>)
    requires !IsAnyFilterActive(s.filters)
    ensures FilteredProducts(source, s.filters, nameToId) == source
  {
    NoSelectionKeepsAll(source, s.filters, nameToId);
  }

  /** Ticking one more value in a facet that already has a selection can only
      add products to the list. */
  lemma CheckingWidens(source: seq<Product>, s: ListingState, facet: Facet, value: string, nameToId: map<string, string>)
    requires s.filters.Get(facet) != []
    ensures IsSubseq(FilteredProducts(source, s.filters, nameToId),
                     FilteredProducts(source, HandleFilterChange(s, facet, value, true).filters, nameToId))
  {
    var f := s.filters;
    var f' := HandleFilterChange(s, facet, value, true).filters;
    forall i | 0 <= i < |source| && Matches(source[i], f, nameToId) ensures Matches(source[i], f', nameToId) {
      var p := source[i];
      MatchesEveryFacet(p, f, nameToId);
      MatchesEveryFacet(p, f', nameToId);
      FacetSemantics(p, f, nameToId);
      FacetSemantics(p, f', nameToId);
      forall g ensures Matches(p, f'.Only(g), nameToId) {
        if g == facet {
          assert f'.Get(g) == f.Get(g) + [value];
          assert Matches(p, f.Only(g), nameToId);
          OnlyWidens(p, f, f', g, nameToId);
        } else {
          assert f'.Only(g) == f.Only(g);
        }
      }
    }
    FilterMonotone(source, p => Matches(p, f, nameToId), p => Matches(p, f', nameToId));
  }

  /** Ticking a value in a facet with no selection can only remove products
      from the list. */
  lemma CheckingEmptyFacetNarrows(source: seq<Product>, s: ListingState, facet: Facet, value: string, nameToId: map<string, string>)
    requires s.filters.Get(facet) == []
    ensures IsSubseq(FilteredProducts(source, HandleFilterChange(s, facet, value, true).filters, nameToId),
                     FilteredProducts(source, s.filters, nameToId))
  {
    var f := s.filters;
    var f' := HandleFilterChange(s, facet, value, true).filters;
    forall i | 0 <= i < |source| && Matches(source[i], f', nameToId) ensures Matches(source[i], f, nameToId) {
      var p := source[i];
      MatchesEveryFacet(p, f, nameToId);
      MatchesEveryFacet(p, f', nameToId);
      forall g ensures Matches(p, f.Only(g), nameToId) {
        if g == facet {
          FacetSemantics(p, f, nameToId);
          assert Matches(p, f.Only(facet), nameToId) by {
            var fg := f.Only(facet);
            assert fg.categories == [] && fg.brands == [] && fg.priceRanges == [] && fg.sizes == [] && fg.colors == [];
          }
        } else {
          assert f'.Only(g) == f.Only(g);
        }
      }
    }
    FilterMonotone(source, p => Matches(p, f', nameToId), p => Matches(p, f, nameToId));
  }

  /** For one facet: appending to a non-empty selection keeps every product
      that passed it. */
  lemma OnlyWidens(p: Product, f: FilterState, f': FilterState, g: Facet, nameToId: map<string, string>)
    requires f.Get(g) != []
    requires exists v :: f'.Get(g) == f.Get(g) + [v]
    requires Matches(p, f.Only(g), nameToId)
    ensures Matches(p, f'.Only(g), nameToId)
  {
    var v :| f'.Get(g) == f.Get(g) + [v];
    FacetSemantics(p, f, nameToId);
    FacetSemantics(p, f', nameToId);
    match g
    case Categories =>
      var i :| 0 <= i < |f.categories| && f.categories[i] != "" &&
        (f.categories[i] == p.category || (p.category in nameToId && f.categories[i] == nameToId[p.category]));
      assert f'.categories[i] == f.categories[i];
    case Brands =>
    case PriceRanges =>
    case Sizes =>
      var i :| 0 <= i < |f.sizes| && f.sizes[i] in p.sizes;
      assert f'.sizes[i] == f.sizes[i];
    case Colors =>
      var i :| 0 <= i < |f.colors| && f.colors[i] in p.colors;
      assert f'.colors[i] == f.colors[i];
  }

  /** A user action on the page. */
  datatype Event =
    | FilterChange(facet: Facet, value: string, checked: bool)
    | Search(query: string)
    | Clear
    | LoadMore(hasNextPage: bool, isFetching: bool)

  function Step(s: ListingState, e: Event): ListingState
  {
    match e
    case FilterChange(g, v, c) => HandleFilterChange(s, g, v, c)
    case Search(q) => HandleSearch(s, q)
    case Clear => ClearAll(s)
    case LoadMore(h, f) => HandleLoadMore(s, h, f)
  }

  function Run(s: ListingState, events: seq<Event>): ListingState
    decreases |events|
  {
    if |events| == 0 then s else Run(Step(s, events[0]), events[1..])
  }

  /** Whatever the user does, the page counter stays at 1 or above, and it
      grows by at most one per event. */
  lemma {:induction false} RunKeepsPageInRange(s: ListingState, events: seq<Event>)
    requires s.page >= 1
    ensures 1 <= Run(s, events).page <= s.page + |events|
    decreases |events|
  {
    if |events| > 0 {
      RunKeepsPageInRange(Step(s, events[0]), events[1..]);
    }
  }
}

/** The search page's state and its event handlers
    (src/pages/Recherche.tsx:8-30, 323-343 and the button handlers of the
    filter panel and the sort bar). */
module SearchSession {
  import opened Catalog
  import opened FilterEngine
  import opened FacetCounts
  import opened Ranking
  import opened Sorting

  /** The test that keeps every tag other than `x`. */
  function Differs(x: string): string -> bool {
    (c: string) => c != x
  }

  /** The selected tags without `x`, the others kept in order. */
  function Without(xs: seq<string>, x: string): (r: seq<string>)
    ensures forall c :: c in r <==> c in xs && c != x
    ensures forall c :: multiset(r)[c] == if c != x then multiset(xs)[c] else 0
    ensures IsSubsequence(r, xs)
  {
    Filter(xs, Differs(x))
  }

  /** `toggleCategory`'s update of the selected tags. */
  function Toggled(prev: seq<string>, cat: string): (r: seq<string>)
    ensures cat in r <==> cat !in prev
    ensures forall c :: c != cat ==> (c in r <==> c in prev)
  {
    if cat in prev then Without(prev, cat) else prev + [cat]
  }

  /** A bucket button's update: `current === id ? null : id`. */
  function Clicked(current: Option<string>, id: string): (r: Option<string>)
    ensures r == None <==> current == Some(id)
    ensures r != None ==> r == Some(id)
  {
    if current == Some(id) then None else Some(id)
  }

  /** A sort button's update: desc, then asc, then off, then desc again. */
  function NextDirection(d: Option<Direction>): (r: Option<Direction>)
    ensures r != d
    ensures r == None <==> d == Some(Asc)
    ensures r == Some(Desc) <==> d == None
  {
    match d
    case Some(Desc) => Some(Asc)
    case Some(Asc) => None
    case None => Some(Desc)
  }

  /** The selection of one single-valued facet. */
  function Selection(st: Filters, f: Facet): Option<string>
    requires f != Categories
  {
    match f
    case Duration => st.duration
    case Complexity => st.complexity
    case Price => st.price
    case Players => st.players
    case Age => st.age
  }

  /** The filters with the selection of facet `f` replaced by `v`. */
  function WithSelection(st: Filters, f: Facet, v: Option<string>): (r: Filters)
    requires f != Categories
    ensures Selection(r, f) == v
    ensures SameExcept(st, r, f)
  {
    match f
    case Duration => st.(duration := v)
    case Complexity => st.(complexity := v)
    case Price => st.(price := v)
    case Players => st.(players := v)
    case Age => st.(age := v)
  }

  datatype SortField = ByPopularity | ByPrice | ByDuration

  /** The sort state after clicking the button of `field`. */
  function Cycled(s: SortState, field: SortField): (r: SortState) {
    match field
    case ByPopularity => s.(popularity := NextDirection(s.popularity))
    case ByPrice => s.(price := NextDirection(s.price))
    case ByDuration => s.(duration := NextDirection(s.duration))
  }

  /** The "reset sort" link is shown when any sort differs from the default. */
  predicate ResetSortShown(s: SortState)
    ensures ResetSortShown(s) <==> s != DefaultSort
  {
    s.popularity != Some(Desc) || s.price.Some? || s.duration.Some?
  }

  class Session {
    var searchTerm: string
    var selectedDuration: Option<string>
    var selectedComplexityLevel: Option<string>
    var selectedPriceRange: Option<string>
    var selectedCategories: seq<string>
    var selectedPlayerRange: Option<string>
    var selectedAgeRange: Option<string>
    var sortPopularity: Option<Direction>
    var sortPrice: Option<Direction>
    var sortDuration: Option<Direction>

    function CurrentFilters(): Filters
      reads this
    {
      Filters(searchTerm, selectedDuration, selectedComplexityLevel, selectedPriceRange,
        selectedPlayerRange, selectedAgeRange, selectedCategories)
    }

    function CurrentSort(): SortState
      reads this
    {
      SortState(sortPopularity, sortPrice, sortDuration)
    }

    /** The page opens with no filter and the most popular games first. */
    constructor()
      ensures CurrentFilters() == NoFilters
      ensures CurrentSort() == DefaultSort
    {
      searchTerm := "";
      selectedDuration := None;
      selectedComplexityLevel := None;
      selectedPriceRange := None;
      selectedCategories := [];
      selectedPlayerRange := None;
      selectedAgeRange := None;
      sortPopularity := Some(Desc);
      sortPrice := None;
      sortDuration := None;
    }

    /** Typing in the search box. */
    method SetSearchTerm(term: string)
      modifies this
      ensures CurrentFilters() == old(CurrentFilters()).(searchTerm := term)
      ensures CurrentSort() == old(CurrentSort())
    {
      searchTerm := term;
    }

    /** Ticking or unticking a category. */
    method ToggleCategory(cat: string)
      modifies this
      ensures CurrentFilters() == old(CurrentFilters()).(categories := Toggled(old(selectedCategories), cat))
      ensures CurrentSort() == old(CurrentSort())
    {
      selectedCategories := Toggled(selectedCategories, cat);
    }

    /** Clicking the button of bucket `id` in facet `f`: selects it, or
        clears the facet when it was already selected. Only that facet's
        selection changes. */
    method ClickBucket(f: Facet, id: string)
      requires f != Categories
      modifies this
      ensures CurrentFilters() == WithSelection(old(CurrentFilters()), f, Clicked(Selection(old(CurrentFilters()), f), id))
      ensures CurrentSort() == old(CurrentSort())
    {
      match f
      case Duration => selectedDuration := Clicked(selectedDuration, id);
      case Complexity => selectedComplexityLevel := Clicked(selectedComplexityLevel, id);
      case Price => selectedPriceRange := Clicked(selectedPriceRange, id);
      case Players => selectedPlayerRange := Clicked(selectedPlayerRange, id);
      case Age => selectedAgeRange := Clicked(selectedAgeRange, id);
    }

    /** Clicking a sort button. */
    method CycleSort(field: SortField)
      modifies this
      ensures CurrentSort() == Cycled(old(CurrentSort()), field)
      ensures CurrentFilters() == old(CurrentFilters())
    {
      match field
      case ByPopularity => sortPopularity := NextDirection(sortPopularity);
      case ByPrice => sortPrice := NextDirection(sortPrice);
      case ByDuration => sortDuration := NextDirection(sortDuration);
    }

    /** `resetFilters`: clears the text and every selection; the sort stays. */
    method ResetFilters()
      modifies this
      ensures CurrentFilters() == NoFilters
      ensures CurrentSort() == old(CurrentSort())
    {
      searchTerm := "";
      selectedDuration := None;
      selectedComplexityLevel := None;
      selectedPriceRange := None;
      selectedPlayerRange := None;
      selectedAgeRange := None;
      selectedCategories := [];
    }

    /** `resetSort`: back to the most popular first; the filters stay. */
    method ResetSort()
      modifies this
      ensures CurrentSort() == DefaultSort
      ensures CurrentFilters() == old(CurrentFilters())
    {
      sortPopularity := Some(Desc);
      sortPrice := None;
      sortDuration := None;
    }

    /** The games the page lists: every test applied, then sorted. */
    method Results(catalog: seq<Game>) returns (shown: seq<Game>)
      ensures shown == InsertionSort(FilteredGames(catalog, CurrentFilters()), Precedes(CurrentSort()))
      ensures forall g :: g in shown <==> g in catalog && Passes(g, CurrentFilters(), None)
    {
      var filtered := FilteredGames(catalog, CurrentFilters());
      shown := SortResults(filtered, CurrentSort());
      assert forall g :: g in shown <==> g in filtered by {
        assert multiset(shown) == multiset(filtered);
        forall g ensures g in shown <==> g in filtered {
          assert g in shown <==> g in multiset(shown);
          assert g in filtered <==> g in multiset(filtered);
        }
      }
    }
  }

  /** Removing a tag that is not selected changes nothing. */
  lemma WithoutAbsent(xs: seq<string>, x: string)
    requires x !in xs
    ensures Without(xs, x) == xs
  {
    FilterKeepsAll(xs, Differs(x));
  }

  /** Removing the tag that ends the list drops it with its earlier copies. */
  lemma WithoutAppended(xs: seq<string>, x: string)
    ensures Without(xs + [x], x) == Without(xs, x)
  {
    var keep := Differs(x);
    FilterAppend(xs, [x], keep);
    var tail := Filter([x], keep);
    assert multiset(tail) == multiset{};
    assert |tail| == |multiset(tail)|;
  }

  /** Ticking a category that was not selected and unticking it again
      restores the previous selection exactly. */
  lemma ToggleTwiceRestores(prev: seq<string>, cat: string)
    requires cat !in prev
    ensures Toggled(Toggled(prev, cat), cat) == prev
  {
    WithoutAppended(prev, cat);
    WithoutAbsent(prev, cat);
  }

  /** Unticking keeps the other selected tags in their order. */
  lemma UntickKeepsOrder(prev: seq<string>, cat: string)
    requires cat in prev
    ensures IsSubsequence(Toggled(prev, cat), prev)
    ensures |Toggled(prev, cat)| < |prev|
  {
    var r := Without(prev, cat);
    SubsequenceShorter(r, prev);
    if |r| == |prev| {
      SubsequenceSameLength(r, prev);
      assert false;
    }
  }

  lemma {:induction false} SubsequenceSameLength(a: seq<string>, b: seq<string>)
    requires IsSubsequence(a, b)
    requires |a| == |b|
    ensures a == b
    decreases |b|
  {
    if a != [] {
      if a[0] == b[0] && IsSubsequence(a[1..], b[1..]) {
        SubsequenceSameLength(a[1..], b[1..]);
        assert a == [a[0]] + a[1..] && b == [b[0]] + b[1..];
      } else {
        SubsequenceShorter(a, b[1..]);
      }
    }
  }

  /** Each sort button cycles with period three through three distinct
      states. */
  lemma SortCycle(d: Option<Direction>)
    ensures NextDirection(NextDirection(NextDirection(d))) == d
    ensures NextDirection(NextDirection(d)) != d
  {
    match d
    case None =>
    case Some(Asc) =>
    case Some(Desc) =>
  }

  /** Clicking a bucket never changes the counts shown for its own facet. */
  lemma ClickKeepsOwnCounts(catalog: seq<Game>, st: Filters, f: Facet, id: string, key: string)
    requires f != Categories
    ensures var st' := WithSelection(st, f, Clicked(Selection(st, f), id));
      Tally(FilteredIgnoring(catalog, st', Some(f)), f, key) == Tally(FilteredIgnoring(catalog, st, Some(f)), f, key)
  {
    var st' := WithSelection(st, f, Clicked(Selection(st, f), id));
    CountsIgnoreSelf(catalog, st', st, f, key);
  }

  /** Clicking the same bucket twice from no selection leaves the facet
      unselected again. */
  lemma ClickTwiceClears(f: Facet, st: Filters, id: string)
    requires f != Categories
    requires Selection(st, f) == None
    ensures var once := WithSelection(st, f, Clicked(Selection(st, f), id));
      WithSelection(once, f, Clicked(Selection(once, f), id)) == st
  {
  }
}

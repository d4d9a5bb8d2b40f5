/** `getFilteredGamesIgnoring` (src/pages/Recherche.tsx:126-211): the
    catalog filtered by the search text and the six facets, any one of
    which may be ignored. */
module FilterEngine {
  import opened Catalog
  import opened Buckets

  datatype Facet = Duration | Complexity | Price | Players | Age | Categories

  /** The search page's filter selections. A single-valued facet holds a
      bucket id or nothing; categories are a list of tags. */
  datatype Filters = Filters(
    searchTerm: string,
    duration: Option<string>,
    complexity: Option<string>,
    price: Option<string>,
    players: Option<string>,
    age: Option<string>,
    categories: seq<string>)

  /** The state the page starts in and `resetFilters` restores. */
  const NoFilters: Filters := Filters("", None, None, None, None, None, [])

  /** `toLowerCase`, on the ASCII letters only. */
  function LowerChar(c: char): char {
    if 'A' <= c <= 'Z' then (c as int + 32) as char else c
  }

  function Lower(s: string): (r: string)
    ensures |r| == |s|
    ensures forall i :: 0 <= i < |s| ==> r[i] == LowerChar(s[i])
  {
    if s == [] then [] else [LowerChar(s[0])] + Lower(s[1..])
  }

  /** `needle` occurs in `hay` at some offset (`includes`). */
  predicate Includes(hay: string, needle: string) {
    needle <= hay || (hay != [] && Includes(hay[1..], needle))
  }

  /** Some tag contains the term, both lower-cased. */
  predicate AnyIncludes(tags: seq<string>, term: string) {
    tags != [] && (Includes(Lower(tags[0]), Lower(term)) || AnyIncludes(tags[1..], term))
  }

  /** The text test, which no facet can switch off. */
  predicate MatchesSearch(g: Game, term: string) {
    term == ""
    || Includes(Lower(g.title), Lower(term))
    || AnyIncludes(g.categories, term)
    || AnyIncludes(g.themes, term)
  }

  /** Some range of the table has the id and contains `v`. */
  predicate SomeRangeHolds(ranges: seq<Range>, id: string, v: int) {
    exists i :: 0 <= i < |ranges| && ranges[i].id == id && Within(ranges[i], v)
  }

  predicate SomePriceRangeHolds(ranges: seq<PriceRange>, id: string, p: real) {
    exists i :: 0 <= i < |ranges| && ranges[i].id == id && WithinPrice(ranges[i], p)
  }

  /** Some tag of the game is among the selected ones. */
  predicate SharesCategory(cats: seq<string>, selected: seq<string>) {
    cats != [] && (cats[0] in selected || SharesCategory(cats[1..], selected))
  }

  /** The test of one facet against the current selection. */
  predicate MatchesFacet(g: Game, st: Filters, f: Facet) {
    match f
    case Duration => Blank(st.duration) || SomeRangeHolds(DurationRanges, st.duration.value, g.maxDuration)
    case Complexity => Blank(st.complexity) || SomeRangeHolds(ComplexityLevels, st.complexity.value, g.complexity)
    case Price => Blank(st.price) || SomePriceRangeHolds(PriceRanges, st.price.value, g.price)
    case Players => Blank(st.players) || MatchesPlayerRange(g, st.players)
    case Age => Blank(st.age) || MatchesAgeRange(g.age, st.age)
    case Categories => |st.categories| == 0 || SharesCategory(g.categories, st.categories)
  }

  /** A facet test passes when that facet is the ignored one or its own
      test passes. */
  predicate FacetTest(g: Game, st: Filters, ignore: Option<Facet>, f: Facet) {
    ignore == Some(f) || MatchesFacet(g, st, f)
  }

  /** A game is kept when the text test and all six facet tests pass. */
  predicate Passes(g: Game, st: Filters, ignore: Option<Facet>) {
    && MatchesSearch(g, st.searchTerm)
    && FacetTest(g, st, ignore, Duration)
    && FacetTest(g, st, ignore, Complexity)
    && FacetTest(g, st, ignore, Price)
    && FacetTest(g, st, ignore, Players)
    && FacetTest(g, st, ignore, Age)
    && FacetTest(g, st, ignore, Categories)
  }

  /** The test `getFilteredGamesIgnoring` hands to `filter`. */
  function Passing(st: Filters, ignore: Option<Facet>): Game -> bool {
    (g: Game) => Passes(g, st, ignore)
  }

  /** `getFilteredGamesIgnoring(ignore)`: the catalog games that pass, in
      catalog order. */
  function FilteredIgnoring(catalog: seq<Game>, st: Filters, ignore: Option<Facet>): (r: seq<Game>)
    ensures forall g :: g in r <==> g in catalog && Passes(g, st, ignore)
    ensures forall g :: multiset(r)[g] == if Passes(g, st, ignore) then multiset(catalog)[g] else 0
    ensures IsSubsequence(r, catalog)
  {
    Filter(catalog, Passing(st, ignore))
  }

  /** `filteredGames`: the games that pass the text test and all six facet
      tests. */
  function FilteredGames(catalog: seq<Game>, st: Filters): (r: seq<Game>)
    ensures forall g :: g in r <==> g in catalog && MatchesSearch(g, st.searchTerm) && forall f :: MatchesFacet(g, st, f)
  {
    assert forall g :: Passes(g, st, None) <==> MatchesSearch(g, st.searchTerm) && forall f :: MatchesFacet(g, st, f) by {
      forall g {
        PassesIffEveryTest(g, st, None);
      }
    }
    FilteredIgnoring(catalog, st, None)
  }

  /** A game passes exactly when the text test and every facet test that is
      not ignored pass. */
  lemma PassesIffEveryTest(g: Game, st: Filters, ignore: Option<Facet>)
    ensures Passes(g, st, ignore) <==>
      MatchesSearch(g, st.searchTerm) && forall f :: ignore != Some(f) ==> MatchesFacet(g, st, f)
  {
    if Passes(g, st, ignore) {
      forall f | ignore != Some(f) ensures MatchesFacet(g, st, f) {
        assert FacetTest(g, st, ignore, f);
      }
    }
  }

  /** The selection of facet `f` is the same in both filter states. */
  predicate SameSelection(st: Filters, st': Filters, f: Facet) {
    match f
    case Duration => st.duration == st'.duration
    case Complexity => st.complexity == st'.complexity
    case Price => st.price == st'.price
    case Players => st.players == st'.players
    case Age => st.age == st'.age
    case Categories => st.categories == st'.categories
  }

  /** Each facet test reads only its own facet's selection. */
  lemma FacetReadsOwnSelection(g: Game, st: Filters, st': Filters, f: Facet)
    requires SameSelection(st, st', f)
    ensures MatchesFacet(g, st, f) <==> MatchesFacet(g, st', f)
  {
  }

  lemma NoFiltersPasses(g: Game, ignore: Option<Facet>)
    ensures Passes(g, NoFilters, ignore)
  {
  }

  /** With an empty search and no selection, every game is kept. */
  lemma NoFiltersKeepsAll(catalog: seq<Game>, ignore: Option<Facet>)
    ensures FilteredIgnoring(catalog, NoFilters, ignore) == catalog
  {
    forall g | g in catalog ensures Passing(NoFilters, ignore)(g) {
      NoFiltersPasses(g, ignore);
    }
    FilterKeepsAll(catalog, Passing(NoFilters, ignore));
  }

  /** Ignoring a facet only widens the result: the unrelaxed result is a
      subsequence of every relaxed one, and is the relaxed one filtered
      again with every test applied. */
  lemma IgnoringWidens(catalog: seq<Game>, st: Filters, f: Facet)
    ensures IsSubsequence(FilteredGames(catalog, st), FilteredIgnoring(catalog, st, Some(f)))
    ensures FilteredGames(FilteredIgnoring(catalog, st, Some(f)), st) == FilteredGames(catalog, st)
  {
    FilterNarrower(catalog, Passing(st, None), Passing(st, Some(f)));
  }

  /** The two selections agree on everything except facet `f`. */
  predicate SameExcept(st: Filters, st': Filters, f: Facet) {
    && st.searchTerm == st'.searchTerm
    && (f == Duration || st.duration == st'.duration)
    && (f == Complexity || st.complexity == st'.complexity)
    && (f == Price || st.price == st'.price)
    && (f == Players || st.players == st'.players)
    && (f == Age || st.age == st'.age)
    && (f == Categories || st.categories == st'.categories)
  }

  /** Ignore-self: the result with `f` ignored does not depend on the
      selection of `f`. */
  lemma IgnoreSelf(catalog: seq<Game>, st: Filters, st': Filters, f: Facet)
    requires SameExcept(st, st', f)
    ensures FilteredIgnoring(catalog, st, Some(f)) == FilteredIgnoring(catalog, st', Some(f))
  {
    forall g | g in catalog ensures Passing(st, Some(f))(g) == Passing(st', Some(f))(g) {
      forall h | h != f ensures MatchesFacet(g, st, h) == MatchesFacet(g, st', h) {
        FacetReadsOwnSelection(g, st, st', h);
      }
    }
    FilterSameTest(catalog, Passing(st, Some(f)), Passing(st', Some(f)));
  }

  /** Categories combine with OR: a game passes the category test when
      nothing is selected or it carries at least one selected tag. */
  lemma {:induction false} CategoryTestIsOr(cats: seq<string>, selected: seq<string>)
    ensures SharesCategory(cats, selected) <==> exists c :: c in cats && c in selected
  {
    if cats != [] {
      CategoryTestIsOr(cats[1..], selected);
      if exists c :: c in cats && c in selected {
        var c :| c in cats && c in selected;
        if c != cats[0] {
          assert c in cats[1..];
        }
      }
    }
  }

  lemma {:induction false} LowerIdempotent(s: string)
    ensures Lower(Lower(s)) == Lower(s)
  {
    if s != [] {
      LowerIdempotent(s[1..]);
    }
  }

  /** The text test ignores the case of the search term: the term and its
      lower-case form select the same games. */
  lemma SearchIgnoresCase(g: Game, term: string)
    ensures MatchesSearch(g, term) <==> MatchesSearch(g, Lower(term))
  {
    LowerIdempotent(term);
    AnyIncludesLowered(g.categories, term);
    AnyIncludesLowered(g.themes, term);
  }

  lemma {:induction false} AnyIncludesLowered(tags: seq<string>, term: string)
    ensures AnyIncludes(tags, term) <==> AnyIncludes(tags, Lower(term))
  {
    LowerIdempotent(term);
    if tags != [] {
      AnyIncludesLowered(tags[1..], term);
    }
  }

  /** Typing any part of a game's title, in any letter case, finds the
      game. */
  lemma SearchFindsTitleParts(g: Game, i: nat, j: nat, term: string)
    requires i <= j <= |g.title|
    requires Lower(term) == Lower(g.title[i..j])
    ensures MatchesSearch(g, term)
  {
    if i < j {
      var hay := Lower(g.title);
      assert Lower(term) == hay[i..j];
      assert OccursAt(hay, Lower(term), i);
      IncludesAtOffset(hay, Lower(term));
    }
  }

  predicate OccursAt(hay: string, needle: string, k: int) {
    0 <= k <= |hay| - |needle| && hay[k..k + |needle|] == needle
  }

  /** `Includes` finds `needle` exactly when it occurs at some offset of `hay`. */
  lemma {:induction false} IncludesAtOffset(hay: string, needle: string)
    ensures Includes(hay, needle) <==> exists k :: OccursAt(hay, needle, k)
  {
    if hay == [] {
      if exists k :: OccursAt(hay, needle, k) {
        var k :| OccursAt(hay, needle, k);
        assert needle == [];
      }
      if needle == [] {
        assert OccursAt(hay, needle, 0);
      }
    } else {
      IncludesAtOffset(hay[1..], needle);
      if exists k :: OccursAt(hay, needle, k) {
        var k :| OccursAt(hay, needle, k);
        if k > 0 {
          assert OccursAt(hay[1..], needle, k - 1) by {
            assert hay[1..][k - 1..k - 1 + |needle|] == hay[k..k + |needle|];
          }
        } else {
          assert needle <= hay;
        }
      }
      if Includes(hay, needle) {
        if needle <= hay {
          assert OccursAt(hay, needle, 0);
        } else {
          var k :| OccursAt(hay[1..], needle, k);
          assert OccursAt(hay, needle, k + 1) by {
            assert hay[1..][k..k + |needle|] == hay[k + 1..k + 1 + |needle|];
          }
        }
      }
    }
  }
}

/** The ordering of the search results (src/pages/Recherche.tsx:300-318):
    the filtered games are copied and sorted by popularity, then price,
    then minimum duration, each key in the direction the user chose or
    skipped when it is switched off. */
module Ranking {
  import opened Catalog
  import opened Sorting

  datatype Direction = Asc | Desc

  /** `sortPopularity`, `sortPrice` and `sortDuration`; `None` is `null`. */
  datatype SortState = SortState(
    popularity: Option<Direction>,
    price: Option<Direction>,
    duration: Option<Direction>)

  /** The order the page starts in and `resetSort` restores. */
  const DefaultSort: SortState := SortState(Some(Desc), None, None)

  /** The comparator's value for one key, given `ascDiff`, the value that
      puts the smaller key first; a switched-off key always gives 0. */
  function Step(d: Option<Direction>, ascDiff: real): real {
    match d
    case None => 0.0
    case Some(Asc) => ascDiff
    case Some(Desc) => -ascDiff
  }

  /** The comparator passed to `sorted.sort`: the first key whose
      difference is not 0 decides. */
  function Compare(s: SortState, a: Game, b: Game): real {
    var byPopularity := Step(s.popularity, (a.popularity - b.popularity) as real);
    if byPopularity != 0.0 then byPopularity
    else
      var byPrice := Step(s.price, a.price - b.price);
      if byPrice != 0.0 then byPrice
      else Step(s.duration, (a.minDuration - b.minDuration) as real)
  }

  /** `a` may stay ahead of `b`: the comparator returns a value <= 0. */
  function Precedes(s: SortState): (Game, Game) -> bool {
    (a: Game, b: Game) => Compare(s, a, b) <= 0.0
  }

  /** One key as a number to sort ascending on. */
  function Key(d: Option<Direction>, v: real): real {
    match d
    case None => 0.0
    case Some(Asc) => v
    case Some(Desc) => -v
  }

  /** The three keys of a game, in order of precedence. */
  function SortKey(s: SortState, g: Game): (real, real, real) {
    (Key(s.popularity, g.popularity as real), Key(s.price, g.price), Key(s.duration, g.minDuration as real))
  }

  /** Lexicographic order on key triples. */
  predicate LexLe(x: (real, real, real), y: (real, real, real)) {
    x.0 < y.0 || (x.0 == y.0 && (x.1 < y.1 || (x.1 == y.1 && x.2 <= y.2)))
  }

  /** The comparator orders games lexicographically by their key triples. */
  lemma CompareIsLexicographic(s: SortState, a: Game, b: Game)
    ensures Precedes(s)(a, b) <==> LexLe(SortKey(s, a), SortKey(s, b))
    ensures Tied(Precedes(s), a, b) <==> SortKey(s, a) == SortKey(s, b)
  {
  }

  /** Swapping the two games negates the comparator's value. */
  lemma CompareAntisymmetric(s: SortState, a: Game, b: Game)
    ensures Compare(s, a, b) == -Compare(s, b, a)
  {
  }

  lemma PrecedesIsTotalPreorder(s: SortState)
    ensures TotalPreorder(Precedes(s))
  {
    var le := Precedes(s);
    forall a, b ensures le(a, b) || le(b, a) {
      CompareIsLexicographic(s, a, b);
      CompareIsLexicographic(s, b, a);
    }
    forall a, b, c | le(a, b) && le(b, c) ensures le(a, c) {
      CompareIsLexicographic(s, a, b);
      CompareIsLexicographic(s, b, c);
      CompareIsLexicographic(s, a, c);
    }
  }

  /** `filteredAndSortedGames`: a copy of the filtered games, sorted in
      place. The result holds the same games, ordered by their key
      triples, and games with equal keys keep their filtered order. */
  method SortResults(filtered: seq<Game>, s: SortState) returns (sorted: seq<Game>)
    ensures sorted == InsertionSort(filtered, Precedes(s))
    ensures multiset(sorted) == multiset(filtered)
    ensures forall i, j :: 0 <= i < j < |sorted| ==> LexLe(SortKey(s, sorted[i]), SortKey(s, sorted[j]))
    ensures forall x :: TiesWith(sorted, x, Precedes(s)) == TiesWith(filtered, x, Precedes(s))
  {
    var a := new Game[|filtered|](i requires 0 <= i < |filtered| => filtered[i]);
    assert a[..] == filtered;
    SortInPlace(a, Precedes(s));
    sorted := a[..];
    ResultsOrdered(filtered, s);
    forall x ensures TiesWith(sorted, x, Precedes(s)) == TiesWith(filtered, x, Precedes(s)) {
      PrecedesIsTotalPreorder(s);
      InsertionSortStable(filtered, x, Precedes(s));
    }
  }

  /** The sorted results are ordered by their key triples. */
  lemma ResultsOrdered(filtered: seq<Game>, s: SortState)
    ensures var r := InsertionSort(filtered, Precedes(s));
      forall i, j :: 0 <= i < j < |r| ==> LexLe(SortKey(s, r[i]), SortKey(s, r[j]))
  {
    var r := InsertionSort(filtered, Precedes(s));
    PrecedesIsTotalPreorder(s);
    InsertionSortSorted(filtered, Precedes(s));
    forall i, j | 0 <= i < j < |r| ensures LexLe(SortKey(s, r[i]), SortKey(s, r[j])) {
      CompareIsLexicographic(s, r[i], r[j]);
    }
  }

  /** With every key switched off the comparator always returns 0 and the
      results stay in filtered order. */
  lemma NoSortKeepsOrder(filtered: seq<Game>)
    ensures InsertionSort(filtered, Precedes(SortState(None, None, None))) == filtered
  {
    InsertionSortAllTied(filtered, Precedes(SortState(None, None, None)));
  }

  /** In the default order the most popular games come first, and games of
      equal popularity keep their filtered order. */
  lemma DefaultSortByPopularity(filtered: seq<Game>, x: Game)
    ensures var r := InsertionSort(filtered, Precedes(DefaultSort));
      && (forall i, j :: 0 <= i < j < |r| ==> r[i].popularity >= r[j].popularity)
      && TiesWith(r, x, Precedes(DefaultSort)) == TiesWith(filtered, x, Precedes(DefaultSort))
  {
    var r := InsertionSort(filtered, Precedes(DefaultSort));
    PrecedesIsTotalPreorder(DefaultSort);
    InsertionSortSorted(filtered, Precedes(DefaultSort));
    forall i, j | 0 <= i < j < |r| ensures r[i].popularity >= r[j].popularity {
      assert Precedes(DefaultSort)(r[i], r[j]);
      CompareIsLexicographic(DefaultSort, r[i], r[j]);
    }
    InsertionSortStable(filtered, x, Precedes(DefaultSort));
  }

  /** Under the default order two games are tied exactly when their
      popularity is equal. */
  lemma DefaultTiesArePopularityTies(a: Game, b: Game)
    ensures Tied(Precedes(DefaultSort), a, b) <==> a.popularity == b.popularity
  {
    CompareIsLexicographic(DefaultSort, a, b);
  }
}

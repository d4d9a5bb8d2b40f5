/** The game detail page (src/pages/JeuDetail.tsx:12-61): the complexity
    badge and the "similar games" list. The page finds its game with
    `FindByKey(catalog, GameId, id)`, the first catalog game carrying the
    requested id, if any. */
module GameDetail {
  import opened Catalog
  import opened Buckets
  import opened Sorting

  /** The badge text of a complexity: "Léger" up to 2, "Moyen" above 2 and
      up to 3, "Expert" above 3. */
  function Badge(complexity: int): (r: string)
    ensures r == "Léger" <==> complexity <= 2
    ensures r == "Moyen" <==> 2 < complexity <= 3
    ensures r == "Expert" <==> 3 < complexity
  {
    if complexity <= 2 then "Léger" else if complexity <= 3 then "Moyen" else "Expert"
  }

  /** The position of a badge text on the scale from light to expert. */
  function BadgeRank(badge: string): nat {
    if badge == "Léger" then 0 else if badge == "Moyen" then 1 else 2
  }

  /** A more complex game never gets a lighter badge. */
  lemma BadgeMonotone(a: int, b: int)
    requires a <= b
    ensures BadgeRank(Badge(a)) <= BadgeRank(Badge(b))
  {
  }

  /** For complexities 1 to 5 the badge is the caption of the complexity
      level of the search page that contains it. */
  lemma BadgeMatchesLevels(c: int)
    requires 1 <= c <= 5
    ensures FirstContaining(ComplexityLevels, c).Some?
    ensures Badge(c) == FirstContaining(ComplexityLevels, c).value.caption
  {
    ComplexityLevelsCover(c);
    DurationAndComplexityAscending();
    var i := if c <= 2 then 0 else if c <= 3 then 1 else 2;
    FirstContainingIsUnique(ComplexityLevels, c, ComplexityLevels[i]);
  }

  /** How many entries of `xs` also occur in `ys`, repeats counted. */
  function CountShared(xs: seq<string>, ys: seq<string>): (n: nat)
    ensures n <= |xs|
  {
    if xs == [] then 0 else (if xs[0] in ys then 1 else 0) + CountShared(xs[1..], ys)
  }

  function Abs(x: int): int {
    if x < 0 then -x else x
  }

  /** The similarity of `g` to the displayed game: 3 per shared category,
      2 per shared theme, 1 when both player bounds are within 1 and 1 when
      the complexities are within 1. */
  function Score(g: Game, game: Game): (s: int)
    ensures 0 <= s <= 3 * |g.categories| + 2 * |g.themes| + 2
  {
    var score := 3 * CountShared(g.categories, game.categories) + 2 * CountShared(g.themes, game.themes);
    var score := score + (if Abs(g.minPlayers - game.minPlayers) <= 1 && Abs(g.maxPlayers - game.maxPlayers) <= 1 then 1 else 0);
    score + (if Abs(g.complexity - game.complexity) <= 1 then 1 else 0)
  }

  ghost predicate NoDuplicates(xs: seq<string>) {
    forall i, j :: 0 <= i < j < |xs| ==> xs[i] != xs[j]
  }

  /** The set of tags of a list. */
  ghost function Elems(xs: seq<string>): set<string> {
    set x | x in xs
  }

  lemma ElemsCons(xs: seq<string>)
    requires xs != []
    ensures Elems(xs) == {xs[0]} + Elems(xs[1..])
  {
    assert xs == [xs[0]] + xs[1..];
  }

  lemma TailNoDuplicates(xs: seq<string>)
    requires xs != [] && NoDuplicates(xs)
    ensures NoDuplicates(xs[1..])
    ensures xs[0] !in xs[1..]
  {
    var tail := xs[1..];
    forall i, j | 0 <= i < j < |tail| ensures tail[i] != tail[j] {
      assert tail[i] == xs[i + 1] && tail[j] == xs[j + 1];
    }
  }

  /** Adding a new head tag grows the intersection by one exactly when the
      other list has it. */
  lemma IntersectionCons(xs: seq<string>, ys: seq<string>)
    requires xs != [] && xs[0] !in xs[1..]
    ensures |Elems(xs) * Elems(ys)| == |Elems(xs[1..]) * Elems(ys)| + (if xs[0] in ys then 1 else 0)
  {
    ElemsCons(xs);
    var rest := Elems(xs[1..]) * Elems(ys);
    assert xs[0] !in rest;
    if xs[0] in ys {
      assert Elems(xs) * Elems(ys) == rest + {xs[0]};
    } else {
      assert Elems(xs) * Elems(ys) == rest;
    }
  }

  /** Without repeated tags, the shared count is the size of the
      intersection of the two tag sets. */
  lemma {:induction false} CountSharedIsIntersection(xs: seq<string>, ys: seq<string>)
    requires NoDuplicates(xs)
    ensures CountShared(xs, ys) == |Elems(xs) * Elems(ys)|
  {
    if xs == [] {
      assert Elems(xs) == {};
    } else {
      TailNoDuplicates(xs);
      CountSharedIsIntersection(xs[1..], ys);
      IntersectionCons(xs, ys);
    }
  }

  /** When no game repeats a category or a theme, similarity is
      symmetric. */
  lemma ScoreSymmetric(g: Game, h: Game)
    requires NoDuplicates(g.categories) && NoDuplicates(h.categories)
    requires NoDuplicates(g.themes) && NoDuplicates(h.themes)
    ensures Score(g, h) == Score(h, g)
  {
    CountSharedIsIntersection(g.categories, h.categories);
    CountSharedIsIntersection(h.categories, g.categories);
    CountSharedIsIntersection(g.themes, h.themes);
    CountSharedIsIntersection(h.themes, g.themes);
    assert Elems(g.categories) * Elems(h.categories) == Elems(h.categories) * Elems(g.categories);
    assert Elems(g.themes) * Elems(h.themes) == Elems(h.themes) * Elems(g.themes);
  }

  /** Another game paired with its similarity score. */
  datatype Scored = Scored(game: Game, score: int)

  function ScoreOf(x: Scored): int {
    x.score
  }

  /** The `.map` that pairs each other game with its score. */
  function ScoreAll(others: seq<Game>, game: Game): (r: seq<Scored>)
    ensures |r| == |others|
    ensures forall i :: 0 <= i < |r| ==> r[i] == Scored(others[i], Score(others[i], game))
  {
    seq(|others|, i requires 0 <= i < |others| => Scored(others[i], Score(others[i], game)))
  }

  /** The games of the selected entries, their scores dropped. */
  function Games(items: seq<Scored>): (r: seq<Game>)
    ensures |r| == |items|
    ensures forall i :: 0 <= i < |r| ==> r[i] == items[i].game
  {
    seq(|items|, i requires 0 <= i < |items| => items[i].game)
  }

  /** The eight best-scored other games, with their scores. */
  function TopScored(catalog: seq<Game>, game: Game): seq<Scored> {
    TopByKey(ScoreAll(WithoutId(catalog, game.id), game), ScoreOf, 8)
  }

  /** `similarGames`: as many as eight other games, the most similar first. */
  function SimilarGames(catalog: seq<Game>, game: Game): (r: seq<Game>)
    ensures |r| == Min(8, |WithoutId(catalog, game.id)|)
  {
    Games(TopScored(catalog, game))
  }

  /** Every selected entry pairs another catalog game with its own score. */
  lemma TopScoredEntries(catalog: seq<Game>, game: Game)
    ensures forall x :: x in TopScored(catalog, game) ==>
      x.game in WithoutId(catalog, game.id) && x.score == Score(x.game, game)
  {
    var others := WithoutId(catalog, game.id);
    var scored := ScoreAll(others, game);
    TopByKeyOrdered(scored, ScoreOf, 8);
    forall x | x in TopScored(catalog, game)
      ensures x.game in others && x.score == Score(x.game, game)
    {
      assert x in multiset(scored);
      var i :| 0 <= i < |scored| && scored[i] == x;
    }
  }

  /** The similar games never include the displayed game (nor any other
      game with its id), and all come from the catalog. */
  lemma SimilarExcludesSelf(catalog: seq<Game>, game: Game)
    ensures forall g :: g in SimilarGames(catalog, game) ==> g in catalog && g.id != game.id
  {
    TopScoredEntries(catalog, game);
    var top := TopScored(catalog, game);
    forall g | g in SimilarGames(catalog, game) ensures g in catalog && g.id != game.id {
      var i :| 0 <= i < |top| && Games(top)[i] == g;
      assert top[i] in top;
    }
  }

  /** Scores never increase along the similar games. */
  lemma SimilarScoresNonIncreasing(catalog: seq<Game>, game: Game)
    ensures var r := SimilarGames(catalog, game);
      forall i, j :: 0 <= i < j < |r| ==> Score(r[i], game) >= Score(r[j], game)
  {
    var top := TopScored(catalog, game);
    TopScoredEntries(catalog, game);
    TopByKeyOrdered(ScoreAll(WithoutId(catalog, game.id), game), ScoreOf, 8);
    forall i, j | 0 <= i < j < |top| ensures Score(top[i].game, game) >= Score(top[j].game, game) {
      assert top[i] in top && top[j] in top;
      assert ScoreOf(top[i]) >= ScoreOf(top[j]);
    }
  }

  /** Every other game left out scores at most the last one listed. */
  lemma SimilarCutoff(catalog: seq<Game>, game: Game, g: Game)
    requires g in WithoutId(catalog, game.id)
    requires g !in SimilarGames(catalog, game)
    requires SimilarGames(catalog, game) != []
    ensures var r := SimilarGames(catalog, game); Score(g, game) <= Score(r[|r| - 1], game)
  {
    var others := WithoutId(catalog, game.id);
    var scored := ScoreAll(others, game);
    var top := TopScored(catalog, game);
    var x := Scored(g, Score(g, game));
    var k :| 0 <= k < |others| && others[k] == g;
    assert scored[k] == x;
    TopByKeyCutoff(scored, ScoreOf, 8, x);
    TopScoredEntries(catalog, game);
    assert top[|top| - 1] in top;
  }

  /** Games with equal scores keep their catalog order: for each score, the
      entries listed are the first entries with that score. */
  lemma SimilarTiesKeepCatalogOrder(catalog: seq<Game>, game: Game, score: int)
    ensures WithKey(TopScored(catalog, game), ScoreOf, score)
      <= WithKey(ScoreAll(WithoutId(catalog, game.id), game), ScoreOf, score)
  {
    TopByKeyTies(ScoreAll(WithoutId(catalog, game.id), game), ScoreOf, 8, Scored(game, score));
  }
}

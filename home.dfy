/** The home page's "popular games" (src/pages/Home.tsx:6-8): a copy of the
    catalog sorted by popularity, largest first, cut to eight. The catalog
    value itself is never reordered. */
module Home {
  import opened Catalog
  import opened Sorting

  function Popularity(g: Game): int {
    g.popularity
  }

  /** `popularGames`: the eight most popular catalog games, or all of them
      when there are fewer. */
  function PopularGames(catalog: seq<Game>): (r: seq<Game>)
    ensures |r| == Min(8, |catalog|)
  {
    TopByKey(catalog, Popularity, 8)
  }

  /** The popular games come from the catalog, most popular first. */
  lemma PopularGamesOrdered(catalog: seq<Game>)
    ensures multiset(PopularGames(catalog)) <= multiset(catalog)
    ensures var r := PopularGames(catalog);
      forall i, j :: 0 <= i < j < |r| ==> r[i].popularity >= r[j].popularity
  {
    TopByKeyOrdered(catalog, Popularity, 8);
  }

  /** No catalog game left out is more popular than the last one listed. */
  lemma PopularGamesCutoff(catalog: seq<Game>, g: Game)
    requires g in catalog && g !in PopularGames(catalog)
    requires PopularGames(catalog) != []
    ensures var r := PopularGames(catalog); g.popularity <= r[|r| - 1].popularity
  {
    TopByKeyCutoff(catalog, Popularity, 8, g);
  }

  /** Games of equal popularity keep their catalog order: for each
      popularity, the games listed are the first catalog games with it. */
  lemma PopularGamesTies(catalog: seq<Game>, p: int)
    ensures WithKey(PopularGames(catalog), Popularity, p) <= WithKey(catalog, Popularity, p)
  {
    var probe := Game(0, "", 0, 0, 0, 0, 0, 0, 0.0, p, [], []);
    TopByKeyTies(catalog, Popularity, 8, probe);
  }
}

/** The static bucket tables of the search page and the predicates that
    place a game in a bucket (src/pages/Recherche.tsx:37-121). */
module Buckets {
  import opened Catalog

  /** A closed integer range with its id and display caption. */
  datatype Range = Range(id: string, caption: string, min: int, max: int)

  /** A price range: the cheapest one has no lower bound. */
  datatype PriceRange = PriceRange(id: string, caption: string, min: Option<int>, max: int)

  const DurationRanges: seq<Range> := [
    Range("short", "< 30 min", 0, 29),
    Range("medium", "30 – 60 min", 30, 60),
    Range("long", "60 – 90 min", 61, 90),
    Range("expert", "90+ min", 91, 999)
  ]

  const ComplexityLevels: seq<Range> := [
    Range("light", "Léger", 1, 2),
    Range("medium", "Moyen", 3, 3),
    Range("expert", "Expert", 4, 5)
  ]

  const PriceRanges: seq<PriceRange> := [
    PriceRange("budget", "≤ 25 €", None, 25),
    PriceRange("abordable", "26 – 40 €", Some(26), 40),
    PriceRange("standard", "41 – 60 €", Some(41), 60),
    PriceRange("premium", "61 – 80 €", Some(61), 80),
    PriceRange("luxe", "80+ €", Some(81), 999)
  ]

  const PlayerRanges: seq<Range> := [
    Range("solo", "1 joueur", 1, 1),
    Range("duo", "2 joueurs", 2, 2),
    Range("petit", "2-4 joueurs", 2, 4),
    Range("moyen", "3-6 joueurs", 3, 6),
    Range("groupe", "5-8 joueurs", 5, 8),
    Range("fete", "8+ joueurs", 8, 99)
  ]

  const AgeRanges: seq<Range> := [
    Range("enfant", "6-9 ans", 6, 9),
    Range("junior", "8-12 ans", 8, 12),
    Range("ado", "10-14 ans", 10, 14),
    Range("famille", "12+ ans", 12, 99),
    Range("adulte", "14+ ans", 14, 99)
  ]

  /** A selection that JavaScript treats as false: `null` or the empty string. */
  predicate Blank(sel: Option<string>) {
    sel.None? || sel.value == ""
  }

  predicate Within(r: Range, v: int) {
    r.min <= v <= r.max
  }

  /** The price test: a range with a missing or zero lower bound means
      "up to max"; any other range is closed at both ends. */
  predicate WithinPrice(r: PriceRange, p: real) {
    if r.min.Some? && r.min.value != 0 then r.min.value as real <= p <= r.max as real
    else p <= r.max as real
  }

  /** The ranges are listed in increasing order and do not overlap. */
  ghost predicate Ascending(ranges: seq<Range>) {
    forall i, j :: 0 <= i < j < |ranges| ==> ranges[i].max < ranges[j].min
  }

  function RangeId(r: Range): string {
    r.id
  }

  function PriceRangeId(r: PriceRange): string {
    r.id
  }

  /** The first range of the table that contains `v`. */
  function FirstContaining(ranges: seq<Range>, v: int): (r: Option<Range>)
    ensures r.Some? ==> r.value in ranges && Within(r.value, v)
    ensures r.None? <==> forall i :: 0 <= i < |ranges| ==> !Within(ranges[i], v)
  {
    if ranges == [] then None
    else if Within(ranges[0], v) then Some(ranges[0])
    else FirstContaining(ranges[1..], v)
  }

  /** The first price range of the table whose test `p` passes. */
  function FirstPriceContaining(ranges: seq<PriceRange>, p: real): (r: Option<PriceRange>)
    ensures r.Some? ==> r.value in ranges && WithinPrice(r.value, p)
    ensures r.None? <==> forall i :: 0 <= i < |ranges| ==> !WithinPrice(ranges[i], p)
  {
    if ranges == [] then None
    else if WithinPrice(ranges[0], p) then Some(ranges[0])
    else FirstPriceContaining(ranges[1..], p)
  }

  /** No two ranges of the table share an id. */
  ghost predicate DistinctIds(ranges: seq<Range>) {
    forall i, j :: 0 <= i < j < |ranges| ==> ranges[i].id != ranges[j].id
  }

  /** In a table with distinct ids, looking up a range's id finds that range. */
  lemma RangeWithIdFinds(ranges: seq<Range>, i: nat)
    requires DistinctIds(ranges)
    requires i < |ranges|
    ensures FindByKey(ranges, RangeId, ranges[i].id) == Some(ranges[i])
  {
    FindByKeyIsFirst(ranges, RangeId, ranges[i].id, i);
  }

  lemma PlayerAndAgeIdsDistinct()
    ensures DistinctIds(PlayerRanges)
    ensures DistinctIds(AgeRanges)
  {
  }

  /** `matchesPlayerRange`: the test of the player facet for one game. */
  predicate MatchesPlayerRange(g: Game, rangeId: Option<string>) {
    if Blank(rangeId) then true
    else match FindByKey(PlayerRanges, RangeId, rangeId.value)
      case None => true
      case Some(range) =>
        if range.id == "solo" then g.minPlayers == 1
        else if range.id == "duo" then g.minPlayers <= 2 && g.maxPlayers >= 2
        else g.minPlayers <= range.max && g.maxPlayers >= range.min
  }

  /** `matchesAgeRange`: the test of the age facet for one age. */
  predicate MatchesAgeRange(gameAge: int, rangeId: Option<string>) {
    if Blank(rangeId) then true
    else match FindByKey(AgeRanges, RangeId, rangeId.value)
      case None => true
      case Some(range) =>
        if range.id == "famille" then gameAge >= 12
        else if range.id == "adulte" then gameAge >= 14
        else range.min <= gameAge <= range.max
  }

  /** A blank or unknown player-range id puts no constraint on the game. */
  lemma PlayerRangeUnconstrained(g: Game, rangeId: Option<string>)
    requires Blank(rangeId) || forall i :: 0 <= i < |PlayerRanges| ==> PlayerRanges[i].id != rangeId.value
    ensures MatchesPlayerRange(g, rangeId)
  {
  }

  /** On a game whose player counts are well formed (1 <= min <= max),
      every player bucket, including the special cases "solo" and "duo",
      holds exactly when the game's player range overlaps the bucket's. */
  lemma PlayerRangeIsOverlap(g: Game, i: nat)
    requires 1 <= g.minPlayers <= g.maxPlayers
    requires i < |PlayerRanges|
    ensures var r := PlayerRanges[i];
      MatchesPlayerRange(g, Some(r.id)) <==> g.minPlayers <= r.max && r.min <= g.maxPlayers
  {
    PlayerRangeByBucket(g, i);
  }

  /** Every player bucket, for any game: "solo" asks for a minimum of
      exactly one player; every other bucket, "duo" included, asks for the
      game's player range to overlap the bucket's. */
  lemma PlayerRangeByBucket(g: Game, i: nat)
    requires i < |PlayerRanges|
    ensures var r := PlayerRanges[i];
      MatchesPlayerRange(g, Some(r.id)) <==>
        if r.id == "solo" then g.minPlayers == 1
        else g.minPlayers <= r.max && r.min <= g.maxPlayers
  {
    PlayerAndAgeIdsDistinct();
    RangeWithIdFinds(PlayerRanges, i);
  }

  /** A blank or unknown age-range id puts no constraint on the game. */
  lemma AgeRangeUnconstrained(gameAge: int, rangeId: Option<string>)
    requires Blank(rangeId) || forall i :: 0 <= i < |AgeRanges| ==> AgeRanges[i].id != rangeId.value
    ensures MatchesAgeRange(gameAge, rangeId)
  {
  }

  /** Every age bucket, for any age: "famille" asks for 12 or more,
      "adulte" for 14 or more, and every other bucket for the age to lie in
      its closed range. */
  lemma AgeRangeByBucket(gameAge: int, i: nat)
    requires i < |AgeRanges|
    ensures var r := AgeRanges[i];
      MatchesAgeRange(gameAge, Some(r.id)) <==>
        if r.id == "famille" then gameAge >= 12
        else if r.id == "adulte" then gameAge >= 14
        else Within(r, gameAge)
  {
    PlayerAndAgeIdsDistinct();
    RangeWithIdFinds(AgeRanges, i);
  }

  /** "enfant", "junior" and "ado" are membership in their closed ranges;
      "famille" (12+) and "adulte" (14+) have no upper bound at all, so
      for ages up to 99 every age bucket is its closed range. */
  lemma AgeRangeIsInterval(gameAge: int, i: nat)
    requires i < |AgeRanges|
    ensures var r := AgeRanges[i];
      && (r.id != "famille" && r.id != "adulte" ==> (MatchesAgeRange(gameAge, Some(r.id)) <==> Within(r, gameAge)))
      && (gameAge <= 99 ==> (MatchesAgeRange(gameAge, Some(r.id)) <==> Within(r, gameAge)))
      && (r.id == "famille" ==> (MatchesAgeRange(gameAge, Some(r.id)) <==> gameAge >= 12))
      && (r.id == "adulte" ==> (MatchesAgeRange(gameAge, Some(r.id)) <==> gameAge >= 14))
  {
    AgeRangeByBucket(gameAge, i);
  }

  /** An age falls in some age bucket exactly when it is at least 6. */
  lemma AgeBucketsCover(gameAge: int)
    ensures gameAge >= 6 <==> exists i :: 0 <= i < |AgeRanges| && MatchesAgeRange(gameAge, Some(AgeRanges[i].id))
  {
    forall i | 0 <= i < |AgeRanges| ensures MatchesAgeRange(gameAge, Some(AgeRanges[i].id)) ==> gameAge >= 6 {
      AgeRangeIsInterval(gameAge, i);
    }
    if gameAge >= 6 {
      var i := if gameAge <= 9 then 0 else if gameAge <= 12 then 1 else 3;
      AgeRangeIsInterval(gameAge, i);
      assert MatchesAgeRange(gameAge, Some(AgeRanges[i].id));
    }
  }

  /** In ascending, non-overlapping ranges the first range containing `v` is
      the only one. */
  lemma {:induction false} FirstContainingIsUnique(ranges: seq<Range>, v: int, r: Range)
    requires Ascending(ranges)
    ensures FirstContaining(ranges, v) == Some(r) <==> r in ranges && Within(r, v)
  {
    if ranges != [] {
      FirstContainingIsUnique(ranges[1..], v, r);
      if r in ranges && Within(r, v) && r != ranges[0] {
        assert r in ranges[1..];
        var k :| 0 <= k < |ranges[1..]| && ranges[1..][k] == r;
        assert !Within(ranges[0], v) by {
          assert ranges[0].max < ranges[k + 1].min;
        }
      }
    }
  }

  lemma DurationAndComplexityAscending()
    ensures Ascending(DurationRanges)
    ensures Ascending(ComplexityLevels)
  {
  }

  /** Every duration from 0 to 999 minutes falls in a duration bucket; no
      other duration falls in any. */
  lemma DurationBucketsCover(v: int)
    ensures 0 <= v <= 999 <==> FirstContaining(DurationRanges, v).Some?
  {
    if 0 <= v <= 999 {
      var i := if v <= 29 then 0 else if v <= 60 then 1 else if v <= 90 then 2 else 3;
      assert Within(DurationRanges[i], v);
    }
  }

  /** Every complexity from 1 to 5 falls in a level. */
  lemma ComplexityLevelsCover(v: int)
    ensures 1 <= v <= 5 <==> FirstContaining(ComplexityLevels, v).Some?
  {
    if 1 <= v <= 5 {
      var i := if v <= 2 then 0 else if v <= 3 then 1 else 2;
      assert Within(ComplexityLevels[i], v);
    }
  }

  /** Every whole-euro price up to 999 falls in a price bucket, but the
      buckets leave gaps between consecutive whole euros: 25.5 falls in none. */
  lemma PriceBucketsCoverWholeEuros(p: int)
    ensures p <= 999 <==> FirstPriceContaining(PriceRanges, p as real).Some?
    ensures FirstPriceContaining(PriceRanges, 25.5).None?
  {
    if p <= 999 {
      var i := if p <= 25 then 0 else if p <= 40 then 1 else if p <= 60 then 2 else if p <= 80 then 3 else 4;
      assert WithinPrice(PriceRanges[i], p as real);
    }
  }

  /** No price lies in two price buckets. */
  lemma PriceBucketsDisjoint(p: real, i: nat, j: nat)
    requires i < j < |PriceRanges|
    ensures !(WithinPrice(PriceRanges[i], p) && WithinPrice(PriceRanges[j], p))
  {
  }
}

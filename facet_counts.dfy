/** The six count tables beside the facet controls
    (src/pages/Recherche.tsx:222-295). Each table is computed over the
    catalog filtered with its own facet ignored; duration, complexity and
    price credit a game to the first bucket `find` returns, players and age
    test every bucket, and categories count every tag of every game. */
module FacetCounts {
  import opened Catalog
  import opened Buckets
  import opened FilterEngine

  /** The facets whose tables credit at most one bucket per game. */
  predicate FirstMatchFacet(f: Facet) {
    f == Duration || f == Complexity || f == Price
  }

  /** The facets whose tables test every bucket. */
  predicate MembershipFacet(f: Facet) {
    f == Players || f == Age
  }

  /** The ids of a bucket table, in table order. */
  function Ids<T>(table: seq<T>, id: T -> string): (ids: seq<string>)
    ensures |ids| == |table|
    ensures forall i :: 0 <= i < |table| ==> ids[i] == id(table[i])
  {
    seq(|table|, i requires 0 <= i < |table| => id(table[i]))
  }

  /** The ids of a facet's buckets, in table order. */
  function BucketIds(f: Facet): seq<string>
    requires f != Categories
  {
    match f
    case Duration => Ids(DurationRanges, RangeId)
    case Complexity => Ids(ComplexityLevels, RangeId)
    case Price => Ids(PriceRanges, PriceRangeId)
    case Players => Ids(PlayerRanges, RangeId)
    case Age => Ids(AgeRanges, RangeId)
  }

  ghost predicate Distinct(ids: seq<string>) {
    forall i, j :: 0 <= i < j < |ids| ==> ids[i] != ids[j]
  }

  lemma BucketIdsDistinct(f: Facet)
    requires f != Categories
    ensures Distinct(BucketIds(f))
  {
  }

  /** The id of the bucket `find` returns for `g`, if any. */
  function FirstBucket(f: Facet, g: Game): (b: Option<string>)
    requires FirstMatchFacet(f)
    ensures b.Some? ==> b.value in BucketIds(f)
  {
    match f
    case Duration =>
      var r := FirstContaining(DurationRanges, g.maxDuration);
      if r.Some? then Some(r.value.id) else None
    case Complexity =>
      var r := FirstContaining(ComplexityLevels, g.complexity);
      if r.Some? then Some(r.value.id) else None
    case Price =>
      var r := FirstPriceContaining(PriceRanges, g.price);
      if r.Some? then Some(r.value.id) else None
  }

  /** `matchesPlayerRange(game, id)` or `matchesAgeRange(game.age, id)`. */
  predicate InBucket(f: Facet, g: Game, id: string)
    requires MembershipFacet(f)
  {
    if f == Players then MatchesPlayerRange(g, Some(id)) else MatchesAgeRange(g.age, Some(id))
  }

  /** How often `x` occurs in `xs`. */
  function Occurrences(xs: seq<string>, x: string): (n: nat)
    ensures n <= |xs|
  {
    if xs == [] then 0
    else Occurrences(xs[..|xs| - 1], x) + (if xs[|xs| - 1] == x then 1 else 0)
  }

  /** What one game adds to the count of `key` in facet `f`'s table. */
  function Credit(f: Facet, g: Game, key: string): nat {
    if FirstMatchFacet(f) then (if FirstBucket(f, g) == Some(key) then 1 else 0)
    else if MembershipFacet(f) then (if InBucket(f, g, key) then 1 else 0)
    else Occurrences(g.categories, key)
  }

  /** The count of `key` over `games`. */
  function Tally(games: seq<Game>, f: Facet, key: string): nat {
    if games == [] then 0
    else Tally(games[..|games| - 1], f, key) + Credit(f, games[|games| - 1], key)
  }

  /** `allCategories`: every tag of every catalog game. */
  function AllCategories(catalog: seq<Game>): (cats: set<string>)
    ensures forall c :: c in cats <==> exists g :: g in catalog && c in g.categories
  {
    if catalog == [] then {}
    else
      var last := catalog[|catalog| - 1];
      assert forall g :: g in catalog <==> g in catalog[..|catalog| - 1] || g == last;
      AllCategories(catalog[..|catalog| - 1]) + set c | c in last.categories
  }

  lemma InAllCategories(catalog: seq<Game>, g: Game, c: string)
    requires g in catalog && c in g.categories
    ensures c in AllCategories(catalog)
  {
  }

  function SumOver(counts: map<string, nat>, ids: seq<string>): nat
    requires forall k :: k in ids ==> k in counts
  {
    if ids == [] then 0 else counts[ids[0]] + SumOver(counts, ids[1..])
  }

  lemma TallySnoc(games: seq<Game>, i: nat, f: Facet, key: string)
    requires i < |games|
    ensures Tally(games[..i + 1], f, key) == Tally(games[..i], f, key) + Credit(f, games[i], key)
  {
    assert games[..i + 1][..i] == games[..i];
  }

  /** Every entry of `counts` is the count of its key over `games`. */
  ghost predicate CountsAre(counts: map<string, nat>, games: seq<Game>, f: Facet) {
    forall k :: k in counts ==> counts[k] == Tally(games, f, k)
  }

  /** Crediting `games[i]` to every key moves the counts from `games[..i]`
      to `games[..i + 1]`. */
  lemma CountStep(before: map<string, nat>, after: map<string, nat>, games: seq<Game>, i: nat, f: Facet)
    requires i < |games|
    requires CountsAre(before, games[..i], f)
    requires after.Keys == before.Keys
    requires forall k :: k in after ==> after[k] == before[k] + Credit(f, games[i], k)
    ensures CountsAre(after, games[..i + 1], f)
  {
    forall k | k in after ensures after[k] == Tally(games[..i + 1], f, k) {
      TallySnoc(games, i, f, k);
    }
  }

  /** `durationCounts`, `complexityCounts` and `priceRangeCounts`: every
      bucket starts at 0 and each game of the relaxed result adds one to the
      bucket `find` returns for it. The counts add up to at most the size of
      the relaxed result. */
  method FirstMatchCounts(catalog: seq<Game>, st: Filters, f: Facet) returns (counts: map<string, nat>)
    requires FirstMatchFacet(f)
    ensures forall k :: k in counts <==> k in BucketIds(f)
    ensures forall k :: k in counts ==> counts[k] == Tally(FilteredIgnoring(catalog, st, Some(f)), f, k)
    ensures SumOver(counts, BucketIds(f)) <= |FilteredIgnoring(catalog, st, Some(f))|
  {
    var games := FilteredIgnoring(catalog, st, Some(f));
    var ids := BucketIds(f);
    counts := map k | k in ids :: 0;
    ghost var keys := counts.Keys;
    var i := 0;
    while i < |games|
      invariant 0 <= i <= |games|
      invariant counts.Keys == keys
      invariant CountsAre(counts, games[..i], f)
    {
      ghost var before := counts;
      counts := CreditFirstBucket(counts, f, games[i]);
      CountStep(before, counts, games, i, f);
      i := i + 1;
    }
    assert games[..i] == games;
    BucketIdsDistinct(f);
    SumOverTally(counts, games, f, ids);
    TallySumIsCountIn(games, f, ids);
  }

  /** One more for the bucket `find` returns for `g`, if any. */
  method CreditFirstBucket(counts: map<string, nat>, f: Facet, g: Game) returns (after: map<string, nat>)
    requires FirstMatchFacet(f)
    requires forall k :: k in BucketIds(f) ==> k in counts
    ensures after.Keys == counts.Keys
    ensures forall k :: k in after ==> after[k] == counts[k] + Credit(f, g, k)
  {
    var b := FirstBucket(f, g);
    after := counts;
    if b.Some? {
      after := counts[b.value := counts[b.value] + 1];
    }
  }

  /** The inner `forEach` over the buckets: one more for every bucket of
      `ids` that `g` belongs to. */
  method CreditBuckets(counts: map<string, nat>, ids: seq<string>, f: Facet, g: Game) returns (after: map<string, nat>)
    requires MembershipFacet(f)
    requires Distinct(ids)
    requires forall k :: k in counts <==> k in ids
    ensures after.Keys == counts.Keys
    ensures forall k :: k in after ==> after[k] == counts[k] + Credit(f, g, k)
  {
    after := counts;
    var j := 0;
    while j < |ids|
      invariant 0 <= j <= |ids|
      invariant after.Keys == counts.Keys
      invariant forall k :: k in after ==>
        after[k] == counts[k] + (if k in ids[..j] && InBucket(f, g, k) then 1 else 0)
    {
      if InBucket(f, g, ids[j]) {
        after := after[ids[j] := after[ids[j]] + 1];
      }
      DistinctNotBefore(ids, j);
      PrefixMembers(ids, j);
      j := j + 1;
    }
    assert ids[..j] == ids;
    forall k | k in after ensures after[k] == counts[k] + Credit(f, g, k) {
      MembershipCredit(f, g, k);
    }
  }

  lemma DistinctNotBefore(ids: seq<string>, j: nat)
    requires Distinct(ids) && j < |ids|
    ensures ids[j] !in ids[..j]
  {
    forall k | 0 <= k < j ensures ids[..j][k] != ids[j] {
      assert ids[..j][k] == ids[k];
    }
  }

  lemma PrefixMembers(ids: seq<string>, j: nat)
    requires j < |ids|
    ensures forall k :: k in ids[..j + 1] <==> k in ids[..j] || k == ids[j]
  {
    assert ids[..j + 1] == ids[..j] + [ids[j]];
  }

  lemma MembershipCredit(f: Facet, g: Game, k: string)
    requires MembershipFacet(f)
    ensures Credit(f, g, k) == if InBucket(f, g, k) then 1 else 0
  {
  }

  /** `playerRangeCounts` and `ageRangeCounts`: every bucket starts at 0 and
      each game of the relaxed result adds one to every bucket it belongs
      to. */
  method MembershipCounts(catalog: seq<Game>, st: Filters, f: Facet) returns (counts: map<string, nat>)
    requires MembershipFacet(f)
    ensures forall k :: k in counts <==> k in BucketIds(f)
    ensures forall k :: k in counts ==> counts[k] == Tally(FilteredIgnoring(catalog, st, Some(f)), f, k)
  {
    var games := FilteredIgnoring(catalog, st, Some(f));
    var ids := BucketIds(f);
    BucketIdsDistinct(f);
    counts := map k | k in ids :: 0;
    ghost var keys := counts.Keys;
    var i := 0;
    while i < |games|
      invariant 0 <= i <= |games|
      invariant counts.Keys == keys
      invariant CountsAre(counts, games[..i], f)
    {
      ghost var before := counts;
      counts := CreditBuckets(counts, ids, f, games[i]);
      CountStep(before, counts, games, i, f);
      i := i + 1;
    }
    assert games[..i] == games;
  }

  lemma OccurrencesSnoc(xs: seq<string>, j: nat, x: string)
    requires j < |xs|
    ensures Occurrences(xs[..j + 1], x) == Occurrences(xs[..j], x) + (if xs[j] == x then 1 else 0)
  {
    assert xs[..j + 1][..j] == xs[..j];
  }

  /** `categoryCounts`: every catalog tag starts at 0 and each tag of each
      game of the relaxed result adds one to its own count. */
  method CategoryCounts(catalog: seq<Game>, st: Filters) returns (counts: map<string, nat>)
    ensures counts.Keys == AllCategories(catalog)
    ensures forall k :: k in counts ==> counts[k] == Tally(FilteredIgnoring(catalog, st, Some(Categories)), Categories, k)
  {
    var games := FilteredIgnoring(catalog, st, Some(Categories));
    var keys := AllCategories(catalog);
    forall g, c | g in games && c in g.categories ensures c in keys {
      InAllCategories(catalog, g, c);
    }
    counts := CountCategories(games, keys);
  }

  /** The loop of `categoryCounts` over the relaxed result, starting from 0
      for every tag of `keys`. */
  method CountCategories(games: seq<Game>, keys: set<string>) returns (counts: map<string, nat>)
    requires forall g, c :: g in games && c in g.categories ==> c in keys
    ensures counts.Keys == keys
    ensures CountsAre(counts, games, Categories)
  {
    counts := map c | c in keys :: 0;
    var i := 0;
    while i < |games|
      invariant 0 <= i <= |games|
      invariant counts.Keys == keys
      invariant CountsAre(counts, games[..i], Categories)
    {
      assert games[i] in games;
      ghost var before := counts;
      counts := CreditCategories(counts, games[i].categories);
      CountStep(before, counts, games, i, Categories);
      i := i + 1;
    }
    assert games[..i] == games;
  }

  /** The inner `forEach` over one game's tags: one more for each tag, as
      often as the game lists it. */
  method CreditCategories(counts: map<string, nat>, cats: seq<string>) returns (after: map<string, nat>)
    requires forall c :: c in cats ==> c in counts
    ensures after.Keys == counts.Keys
    ensures forall k :: k in after ==> after[k] == counts[k] + Occurrences(cats, k)
  {
    after := counts;
    var j := 0;
    while j < |cats|
      invariant 0 <= j <= |cats|
      invariant after.Keys == counts.Keys
      invariant forall k :: k in after ==> after[k] == counts[k] + Occurrences(cats[..j], k)
    {
      var c := cats[j];
      after := after[c := after[c] + 1];
      forall k | k in after ensures after[k] == counts[k] + Occurrences(cats[..j + 1], k) {
        OccurrencesSnoc(cats, j, k);
      }
      j := j + 1;
    }
    assert cats[..j] == cats;
  }

  /** The sum over `ids` of the counts of each id. */
  function TallySum(games: seq<Game>, f: Facet, ids: seq<string>): nat {
    if ids == [] then 0 else Tally(games, f, ids[0]) + TallySum(games, f, ids[1..])
  }

  /** The number of games `find` credits to one of `ids`. */
  function CountIn(games: seq<Game>, f: Facet, ids: seq<string>): (n: nat)
    requires FirstMatchFacet(f)
    ensures n <= |games|
  {
    if games == [] then 0
    else
      var b := FirstBucket(f, games[|games| - 1]);
      CountIn(games[..|games| - 1], f, ids) + (if b.Some? && b.value in ids then 1 else 0)
  }

  lemma {:induction false} SumOverTally(counts: map<string, nat>, games: seq<Game>, f: Facet, ids: seq<string>)
    requires forall k :: k in ids ==> k in counts && counts[k] == Tally(games, f, k)
    ensures SumOver(counts, ids) == TallySum(games, f, ids)
  {
    if ids != [] {
      SumOverTally(counts, games, f, ids[1..]);
    }
  }

  lemma {:induction false} CountInCons(games: seq<Game>, f: Facet, k: string, ids: seq<string>)
    requires FirstMatchFacet(f)
    requires k !in ids
    ensures CountIn(games, f, [k] + ids) == Tally(games, f, k) + CountIn(games, f, ids)
  {
    if games != [] {
      CountInCons(games[..|games| - 1], f, k, ids);
    }
  }

  /** With distinct bucket ids, adding up a first-match table counts each
      game at most once. */
  lemma {:induction false} TallySumIsCountIn(games: seq<Game>, f: Facet, ids: seq<string>)
    requires FirstMatchFacet(f)
    requires Distinct(ids)
    ensures TallySum(games, f, ids) == CountIn(games, f, ids)
  {
    if ids == [] {
      CountInEmpty(games, f);
    } else {
      TallySumIsCountIn(games, f, ids[1..]);
      assert ids[0] !in ids[1..];
      CountInCons(games, f, ids[0], ids[1..]);
      assert [ids[0]] + ids[1..] == ids;
    }
  }

  lemma {:induction false} CountInEmpty(games: seq<Game>, f: Facet)
    requires FirstMatchFacet(f)
    ensures CountIn(games, f, []) == 0
  {
    if games != [] {
      CountInEmpty(games[..|games| - 1], f);
    }
  }

  /** Ignore-self: a facet's counts do not change when only that facet's
      own selection changes. */
  lemma CountsIgnoreSelf(catalog: seq<Game>, st: Filters, st': Filters, f: Facet, key: string)
    requires SameExcept(st, st', f)
    ensures Tally(FilteredIgnoring(catalog, st, Some(f)), f, key) == Tally(FilteredIgnoring(catalog, st', Some(f)), f, key)
  {
    IgnoreSelf(catalog, st, st', f);
  }

  /** A facet's counts do depend on the other facets: selecting the "luxe"
      price bucket takes a cheap, short game out of the duration counts. */
  lemma OtherFacetChangesCounts(g: Game)
    requires g.maxDuration == 20 && g.price == 10.0
    ensures Tally(FilteredIgnoring([g], NoFilters, Some(Duration)), Duration, "short") == 1
    ensures Tally(FilteredIgnoring([g], NoFilters.(price := Some("luxe")), Some(Duration)), Duration, "short") == 0
  {
    NoFiltersKeepsAll([g], Some(Duration));
    assert [g][..0] == [];
    assert Within(DurationRanges[0], 20);
    assert !SomePriceRangeHolds(PriceRanges, "luxe", 10.0);
    assert !Passes(g, NoFilters.(price := Some("luxe")), Some(Duration));
    assert FilteredIgnoring([g], NoFilters.(price := Some("luxe")), Some(Duration)) == [];
  }

  /** Membership tables may credit one game to several buckets: a game
      for 2 to 4 players counts under "duo", "petit" and "moyen", so these
      three counts alone add up to three for a single game. */
  lemma MembershipCountsOverlap(g: Game)
    requires g.minPlayers == 2 && g.maxPlayers == 4
    ensures Credit(Players, g, "duo") + Credit(Players, g, "petit") + Credit(Players, g, "moyen") == 3
  {
    PlayerRangeIsOverlap(g, 1);
    PlayerRangeIsOverlap(g, 2);
    PlayerRangeIsOverlap(g, 3);
  }

  /** When no game lists a tag twice, a category count is at most the size
      of the relaxed result. */
  lemma {:induction false} CategoryTallyBound(games: seq<Game>, c: string)
    requires forall g :: g in games ==> Occurrences(g.categories, c) <= 1
    ensures Tally(games, Categories, c) <= |games|
  {
    if games != [] {
      assert games[|games| - 1] in games;
      CategoryTallyBound(games[..|games| - 1], c);
    }
  }
}

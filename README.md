# Cardboard game search: a verified model

This project models the core of the Cardboard board-game site:

- the faceted search page: the bucket tables, the text and facet filters, the six "ignore-self" count tables, the sort and the page's state changes;
- the favourites list;
- the "similar games" list, the lookup by id and the complexity badge on the detail page;
- the "popular games" list on the home page.

Every operation is written in Dafny and proved against a specification.

The search page keeps its selections in a `Session` object. Its handlers change the fields in place.

Each game of the catalog either passes the text test and six facet tests or is dropped (`FilterEngine.FilteredIgnoring`). Any one facet test may be skipped. The count tables beside each facet re-run the filter with that facet's own test skipped. Three kinds of loop fill them:
- duration, complexity and price credit a game to the first bucket `find` returns;
- players and age test every bucket;
- categories count every tag.

The result list is a copy of the filtered games, sorted in place. It is ordered by popularity, then price, then minimum duration, and the sort is stable. `Array.prototype.sort` is modelled as a stable left-to-right insertion sort (`Sorting.InsertionSort`). The array version (`Sorting.SortInPlace`) is proved equal to it.

The home page and the detail page share one "sort by an integer key, largest first, keep the first n" routine (`Sorting.TopByKey`).

The favourites provider is a `FavoritesStore` object whose list `ToggleFavorite` replaces.

Some behaviours of the code are easy to miss:
- The text test is a plain lower-case substring test on the title, the categories and the themes. There is no accent or typo tolerance.
- When nothing matches, the page only offers to reset the filters. It computes no suggestions.
- Sort precedence is fixed: popularity, then price, then minimum duration, whatever the order in which the user turned the sorts on.
- An unknown bucket id is not rejected. For duration, complexity and price it matches no game. For players and age it matches every game (`Buckets.PlayerRangeUnconstrained`, `Buckets.AgeRangeUnconstrained`).
- Sorting by duration uses `minDuration`, while the duration filter and its counts use `maxDuration`.

Modules, one file each: `Catalog`, `Sorting`, `Buckets`, `FilterEngine`, `FacetCounts`, `Ranking`, `SearchSession`, `Favorites`, `GameDetail`, `Home`.

## Model

| member | source | states |
|---|---|---|
| Catalog.WithoutId | src/context/FavoritesContext.tsx:35 | keeps exactly the entries whose id differs, each with its multiplicity, as an order-preserving subsequence |
| Catalog.Filter | src/pages/Recherche.tsx:137 | keeps exactly the elements that pass the test, each with its multiplicity, as an order-preserving subsequence |
| Catalog.FindByKey | src/pages/JeuDetail.tsx:12 | a found element is in the sequence and has the key; nothing is found iff no element has it |
| Catalog.FindByKeyIsFirst | src/pages/JeuDetail.tsx:12 | the lookup returns the first element with the key |
| Buckets.FirstContaining | src/pages/Recherche.tsx:227-229 | a found range contains the value; nothing is found exactly when no range contains it |
| Buckets.FirstPriceContaining | src/pages/Recherche.tsx:253-255 | the same for the price test, where a missing or zero lower bound means "up to max" |
| Buckets.RangeWithIdFinds | src/pages/Recherche.tsx:104 | in a table with distinct ids, looking up a range's id finds that range |
| Buckets.PlayerAndAgeIdsDistinct | src/pages/Recherche.tsx:67-88 | the player and age tables have distinct ids |
| Buckets.PlayerRangeUnconstrained | src/pages/Recherche.tsx:103-105 | a blank or unknown player-range id accepts every game |
| Buckets.PlayerRangeIsOverlap | src/pages/Recherche.tsx:99-109 | for well-formed games (1 <= min <= max), every player bucket, "solo" and "duo" included, holds iff the game's range overlaps the bucket's |
| Buckets.PlayerRangeByBucket | src/pages/Recherche.tsx:99-109 | for every game, selecting "solo" keeps it iff its minimum is 1, and any other player bucket iff the game's player range overlaps the bucket's |
| Buckets.AgeRangeUnconstrained | src/pages/Recherche.tsx:115-117 | a blank or unknown age-range id accepts every age |
| Buckets.AgeRangeIsInterval | src/pages/Recherche.tsx:111-121 | every bucket other than "famille" and "adulte" is membership in its closed range at any age, and up to 99 all five are; "famille" iff age >= 12, "adulte" iff age >= 14 |
| Buckets.AgeRangeByBucket | src/pages/Recherche.tsx:111-121 | "famille" holds iff age >= 12, "adulte" iff age >= 14, and every other age bucket iff the age lies in its closed range |
| Buckets.AgeBucketsCover | src/pages/Recherche.tsx:111-121 | an age falls in some age bucket iff it is at least 6 |
| Buckets.FirstContainingIsUnique | src/pages/Recherche.tsx:227-229 | in ascending, non-overlapping ranges, the first range containing a value is the only one |
| Buckets.DurationAndComplexityAscending | src/pages/Recherche.tsx:37-54 | the duration and complexity tables are ascending and do not overlap |
| Buckets.DurationBucketsCover | src/pages/Recherche.tsx:37-45 | a duration falls in some bucket iff it lies in 0..999 |
| Buckets.ComplexityLevelsCover | src/pages/Recherche.tsx:47-54 | a complexity falls in some level iff it lies in 1..5 |
| Buckets.PriceBucketsCoverWholeEuros | src/pages/Recherche.tsx:56-65 | every whole-euro price up to 999 falls in a bucket, no dearer one does, and 25.5 falls in none |
| Buckets.PriceBucketsDisjoint | src/pages/Recherche.tsx:56-65 | no price lies in two price buckets |
| FilterEngine.Lower | src/pages/Recherche.tsx:140 | lower-casing keeps the length and folds each character |
| FilterEngine.FilteredIgnoring | src/pages/Recherche.tsx:126-211 | a game is kept iff it is in the catalog and passes the text test and every facet test not ignored; each kept game keeps its multiplicity, and the result is an order-preserving subsequence of the catalog |
| FilterEngine.PassesIffEveryTest | src/pages/Recherche.tsx:138-200 | a game passes iff the text test and every facet test that is not ignored pass |
| FilterEngine.FacetReadsOwnSelection | src/pages/Recherche.tsx:148-200 | each facet test reads only its own facet's selection |
| FilterEngine.FilteredGames | src/pages/Recherche.tsx:214-217 | a game is listed iff it is in the catalog and passes the text test and all six facet tests |
| FilterEngine.NoFiltersKeepsAll | src/pages/Recherche.tsx:137-200 | with an empty search and no selection, the whole catalog is returned |
| FilterEngine.IgnoringWidens | src/pages/Recherche.tsx:148-200 | the unrelaxed result is a subsequence of every relaxed one, and equals the relaxed one filtered again with all tests |
| FilterEngine.IgnoreSelf | src/pages/Recherche.tsx:148-190 | the result with facet f ignored does not depend on f's own selection |
| FilterEngine.CategoryTestIsOr | src/pages/Recherche.tsx:187-190 | a game passes the category test iff it shares at least one tag with the selection |
| FilterEngine.LowerIdempotent | src/pages/Recherche.tsx:140 | lower-casing twice is lower-casing once |
| FilterEngine.SearchIgnoresCase | src/pages/Recherche.tsx:138-146 | a search term and its lower-case form select the same games |
| FilterEngine.SearchFindsTitleParts | src/pages/Recherche.tsx:138-146 | a term equal, up to case, to any slice of the title selects the game |
| FilterEngine.AnyIncludesLowered | src/pages/Recherche.tsx:141-146 | the tag test is unchanged by lower-casing the term |
| FilterEngine.IncludesAtOffset | src/pages/Recherche.tsx:140 | the substring test holds iff the needle occurs at some offset |
| FacetCounts.BucketIdsDistinct | src/pages/Recherche.tsx:37-88 | no table has two buckets with the same id |
| FacetCounts.FirstBucket | src/pages/Recherche.tsx:227-230 | the bucket `find` returns is one of the facet's buckets |
| FacetCounts.AllCategories | src/pages/Recherche.tsx:90-94 | a tag is in the set iff some catalog game carries it |
| FacetCounts.CreditFirstBucket | src/pages/Recherche.tsx:226-231 | one step of a first-match table: same keys, one more exactly for the bucket `find` returns |
| FacetCounts.FirstMatchCounts | src/pages/Recherche.tsx:222-259 | the duration, complexity and price tables: one entry per bucket, each the number of games of the relaxed result credited to it, and their sum is at most the relaxed result's size |
| FacetCounts.CreditBuckets | src/pages/Recherche.tsx:266-268 | the inner loop over the buckets: one more for every bucket the game belongs to |
| FacetCounts.MembershipCounts | src/pages/Recherche.tsx:261-283 | the player and age tables: one entry per bucket, each the number of games of the relaxed result in that bucket |
| FacetCounts.CategoryCounts | src/pages/Recherche.tsx:285-295 | the category table: one entry per catalog tag, each the number of times it occurs in the relaxed result |
| FacetCounts.CountCategories | src/pages/Recherche.tsx:288-293 | the loop over the relaxed result: one entry per tag, each the number of times the tag occurs in the games |
| FacetCounts.CreditCategories | src/pages/Recherche.tsx:290-292 | the inner loop over one game's tags: same keys, each count raised by the tag's number of occurrences in the game |
| FacetCounts.TallySumIsCountIn | src/pages/Recherche.tsx:226-231 | with distinct ids, the sum of a first-match table counts each game at most once |
| FacetCounts.CountsIgnoreSelf | src/pages/Recherche.tsx:222-295 | a facet's counts do not change when only that facet's selection changes |
| FacetCounts.OtherFacetChangesCounts | src/pages/Recherche.tsx:168-177 | another facet's selection can change them: picking "luxe" drops a cheap short game from the duration counts |
| FacetCounts.MembershipCountsOverlap | src/pages/Recherche.tsx:265-268 | a 2-4 player game counts under "duo", "petit" and "moyen" at once |
| FacetCounts.CategoryTallyBound | src/pages/Recherche.tsx:289-293 | when no game repeats a tag, each category count is at most the relaxed result's size |
| Ranking.CompareIsLexicographic | src/pages/Recherche.tsx:302-316 | the comparator orders games lexicographically by (popularity, price, minDuration) keys signed by direction; it returns 0 iff the keys are equal |
| Ranking.CompareAntisymmetric | src/pages/Recherche.tsx:302-316 | swapping the two games negates the comparator's value |
| Ranking.PrecedesIsTotalPreorder | src/pages/Recherche.tsx:302-316 | the comparator induces a total preorder |
| Ranking.SortResults | src/pages/Recherche.tsx:300-318 | the sorted copy holds the same games, ordered by their keys, with games of equal keys in filtered order |
| Ranking.ResultsOrdered | src/pages/Recherche.tsx:300-318 | the sorted results are ordered by their key triples |
| Ranking.NoSortKeepsOrder | src/pages/Recherche.tsx:302-316 | with every sort off, the result is the filtered list unchanged |
| Ranking.DefaultSortByPopularity | src/pages/Recherche.tsx:26-30 | in the default order popularity never increases, and equal popularity keeps filtered order |
| Ranking.DefaultTiesArePopularityTies | src/pages/Recherche.tsx:303-306 | in the default order two games tie iff their popularity is equal |
| Sorting.InsertionSort | src/pages/Recherche.tsx:302 | the sort keeps the length and the multiset of elements |
| Sorting.InsertionSortSorted | src/pages/Recherche.tsx:302 | under a total preorder the output is sorted |
| Sorting.InsertionSortStable | src/pages/Recherche.tsx:302 | the elements tied with any x keep their input order |
| Sorting.InsertionSortAllTied | src/pages/Recherche.tsx:302 | when everything ties, the sort is the identity |
| Sorting.KeyDescIsTotalPreorder | src/pages/Home.tsx:7 | `(a, b) => key(b) - key(a)` induces a total preorder |
| Sorting.TiesByKey | src/pages/Home.tsx:7 | under a key comparator the elements tied with x are those with x's key |
| Sorting.InsertInPlace | src/pages/Recherche.tsx:302 | one insertion step on the array places a[i] exactly as the functional insertion does, leaving the rest alone |
| Sorting.SortInPlace | src/pages/Recherche.tsx:301-302 | the array sorted in place equals the functional stable sort of its old contents |
| Sorting.TopByKey | src/pages/Home.tsx:6-8 | the selection has min(n, size) elements |
| Sorting.TopByKeyOrdered | src/pages/Home.tsx:6-8 | the selection is drawn from the input and its keys never increase |
| Sorting.TopByKeyCutoff | src/pages/Home.tsx:7-8 | no element left out has a larger key than the last one selected |
| Sorting.TopByKeyTies | src/pages/Home.tsx:6-8 | the selected elements of each key are the first ones of that key in the input |
| SearchSession.Without | src/pages/Recherche.tsx:325 | removes exactly the tag, keeping the others with their multiplicities, as an order-preserving subsequence |
| SearchSession.Toggled | src/pages/Recherche.tsx:323-327 | toggling flips the tag's membership and keeps every other tag's |
| SearchSession.Clicked | src/pages/Recherche.tsx:405-408 | a click clears the facet iff that bucket was selected, and selects it otherwise |
| SearchSession.NextDirection | src/pages/Recherche.tsx:606-609 | the next direction always differs from the current one; off follows asc and desc follows off |
| SearchSession.WithSelection | src/pages/Recherche.tsx:405-408 | setting one facet's selection leaves every other part of the filters unchanged |
| SearchSession.Session.constructor | src/pages/Recherche.tsx:8-30 | the page opens with no filter and popularity descending |
| SearchSession.Session.SetSearchTerm | src/pages/Recherche.tsx:359 | only the search text changes |
| SearchSession.Session.ToggleCategory | src/pages/Recherche.tsx:323-327 | only the category selection changes, to its toggled value |
| SearchSession.Session.ClickBucket | src/pages/Recherche.tsx:405-408 | only the clicked facet's selection changes, to the clicked value |
| SearchSession.Session.CycleSort | src/pages/Recherche.tsx:606-609 | only the clicked sort key changes, to its next direction |
| SearchSession.Session.ResetFilters | src/pages/Recherche.tsx:329-337 | the filters return to the initial state and the sort stays |
| SearchSession.Session.ResetSort | src/pages/Recherche.tsx:339-343 | the sort returns to the initial state and the filters stay |
| SearchSession.Session.Results | src/pages/Recherche.tsx:300-318 | the listed games are the filtered games sorted; a game is listed iff it is in the catalog and passes every test |
| SearchSession.ToggleTwiceRestores | src/pages/Recherche.tsx:323-327 | toggling an absent tag twice restores the selection exactly |
| SearchSession.UntickKeepsOrder | src/pages/Recherche.tsx:325 | unticking shortens the selection and keeps the other tags in order |
| SearchSession.SortCycle | src/pages/Recherche.tsx:606-609 | each sort button cycles desc, asc, off with period three |
| SearchSession.ClickKeepsOwnCounts | src/pages/Recherche.tsx:405-408 | clicking a bucket never changes its own facet's counts |
| SearchSession.ClickTwiceClears | src/pages/Recherche.tsx:405-408 | two clicks on a bucket from no selection leave the facet unselected |
| SearchSession.ResetSortShown | src/pages/Recherche.tsx:663 | the "reset sort" link shows iff the sort differs from the default |
| Favorites.Toggle | src/context/FavoritesContext.tsx:32-38 | favourite status of the game's id flips and no other id's changes; an absent game is appended; a present id loses every entry with it while the others keep their multiplicities and order |
| Favorites.ToggleTwiceRestores | src/context/FavoritesContext.tsx:33-36 | toggling an absent game twice restores the list |
| Favorites.TogglePreservesUnique | src/context/FavoritesContext.tsx:33-36 | toggling keeps favourite ids unique |
| Favorites.ToggleHead | src/context/FavoritesContext.tsx:34-35 | with unique ids, toggling the first favourite removes exactly it |
| Favorites.ToggleEachEmpties | src/pages/Favoris.tsx:33-35 | toggling each favourite of a list with unique ids in turn empties it |
| Favorites.DuplicateSurvivesToggleEach | src/pages/Favoris.tsx:33-35 | with two entries of one id, toggling each in turn leaves the second behind |
| Favorites.FavoritesStore.constructor | src/context/FavoritesContext.tsx:23-26 | the store starts from the saved list |
| Favorites.FavoritesStore.IsFavorite | src/context/FavoritesContext.tsx:40 | holds iff some favourite carries the id |
| Favorites.FavoritesStore.ToggleFavorite | src/context/FavoritesContext.tsx:32-40 | the list becomes its toggled value; `isFavorite` flips for the game's id only |
| Favorites.FavoritesStore.ClearAll | src/pages/Favoris.tsx:33-35 | the list becomes the successive toggles of its snapshot, which is empty when ids are unique |
| GameDetail.BadgeMatchesLevels | src/pages/JeuDetail.tsx:36-37 | for complexities 1..5 the badge is the caption of the search page's complexity level containing it |
| GameDetail.Badge | src/pages/JeuDetail.tsx:36-37 | "Léger" iff complexity <= 2, "Moyen" iff 2 < complexity <= 3, "Expert" iff complexity > 3 |
| GameDetail.BadgeMonotone | src/pages/JeuDetail.tsx:36-37 | a more complex game never gets a lighter badge |
| GameDetail.CountShared | src/pages/JeuDetail.tsx:43-45 | the shared count is at most the game's own tag count |
| GameDetail.Score | src/pages/JeuDetail.tsx:41-57 | the score is at least 0 and at most 3 per category + 2 per theme + 2 |
| GameDetail.CountSharedIsIntersection | src/pages/JeuDetail.tsx:43-49 | without repeated tags, the shared count is the size of the tag-set intersection |
| GameDetail.ScoreSymmetric | src/pages/JeuDetail.tsx:42-56 | without repeated tags, similarity is symmetric |
| GameDetail.SimilarGames | src/pages/JeuDetail.tsx:39-61 | the list has min(8, number of other games) games |
| GameDetail.TopScoredEntries | src/pages/JeuDetail.tsx:39-60 | each listed entry pairs another catalog game with its own score |
| GameDetail.SimilarExcludesSelf | src/pages/JeuDetail.tsx:40 | the list never holds a game with the displayed game's id, and all come from the catalog |
| GameDetail.SimilarScoresNonIncreasing | src/pages/JeuDetail.tsx:59 | scores never increase along the list |
| GameDetail.SimilarCutoff | src/pages/JeuDetail.tsx:59-60 | every other game left out scores at most the last listed |
| GameDetail.SimilarTiesKeepCatalogOrder | src/pages/JeuDetail.tsx:59-60 | for each score, the listed entries are the first catalog entries with it |
| Home.PopularGames | src/pages/Home.tsx:6-8 | the list has min(8, catalog size) games |
| Home.PopularGamesOrdered | src/pages/Home.tsx:6-7 | the games come from the catalog and popularity never increases |
| Home.PopularGamesCutoff | src/pages/Home.tsx:7-8 | no catalog game left out is more popular than the last listed |
| Home.PopularGamesTies | src/pages/Home.tsx:6-7 | for each popularity, the listed games are the first catalog games with it |

## Left out

- Rendering, styling, icons, the mobile filter overlay, the result-count wording and the confirmation modals are user interface.
- Routing, `useParams`, the `Number(id)` parse of the URL parameter and application start-up are host behaviour. The lookup by id takes the id as an integer.
- Loading and saving the favourites in `localStorage` and parsing them as JSON are I/O. The store's constructor takes the saved list as a parameter.
- The `useFavorites` provider check and React context wiring are framework code.
- PDF export of the favourites, dates and timeouts go through foreign libraries and I/O.
- The single-game removal on the favourites page (a lookup followed by `toggleFavorite`) adds nothing beyond `ToggleFavorite`.
- The GameCard component is UI. Its copy of the badge mapping is `GameDetail.Badge`.
- `useMemo` caching is left out. Every derived value is a function recomputed from the state.
- FilterEngine.Lower: folds the ASCII letters only. Unicode case mapping of `toLowerCase` is not modelled.
- FacetCounts.AllCategories: a set. The alphabetical sort of the category list only orders the checkboxes, and the counts do not depend on it.
- The badge colour picks the same thresholds as the badge text and is styling.
- Game records are taken as given: the model does not check the catalog data file for well-formed values.

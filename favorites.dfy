/** The favourites list (src/context/FavoritesContext.tsx:22-40) and the
    "clear all" action of the favourites page (src/pages/Favoris.tsx:33-35). */
module Favorites {
  import opened Catalog

  /** Some favourite carries the id `id`. */
  predicate HasId(favs: seq<Game>, id: int) {
    exists i :: 0 <= i < |favs| && favs[i].id == id
  }

  /** `toggleFavorite`'s update: removes every entry with the game's id
      when there is one, and appends the game otherwise. */
  function Toggle(favs: seq<Game>, game: Game): (r: seq<Game>)
    ensures HasId(r, game.id) <==> !HasId(favs, game.id)
    ensures forall id :: id != game.id ==> (HasId(r, id) <==> HasId(favs, id))
    ensures !HasId(favs, game.id) ==> r == favs + [game]
    ensures HasId(favs, game.id) ==> IsSubsequence(r, favs) && forall g :: g in r <==> g in favs && g.id != game.id
    ensures HasId(favs, game.id) ==> forall g :: multiset(r)[g] == if g.id != game.id then multiset(favs)[g] else 0
  {
    if HasId(favs, game.id) then
      var r := WithoutId(favs, game.id);
      assert forall id :: HasId(r, id) ==> HasId(favs, id) by {
        forall id | HasId(r, id) ensures HasId(favs, id) {
          var i :| 0 <= i < |r| && r[i].id == id;
          assert r[i] in favs;
        }
      }
      assert forall id :: id != game.id && HasId(favs, id) ==> HasId(r, id) by {
        forall id | id != game.id && HasId(favs, id) ensures HasId(r, id) {
          var i :| 0 <= i < |favs| && favs[i].id == id;
          assert favs[i] in r;
        }
      }
      r
    else
      var r := favs + [game];
      assert r[|favs|].id == game.id;
      assert forall id :: id != game.id ==> (HasId(r, id) <==> HasId(favs, id)) by {
        forall id | id != game.id ensures HasId(r, id) <==> HasId(favs, id) {
          if HasId(r, id) {
            var i :| 0 <= i < |r| && r[i].id == id;
            assert r[i] == favs[i];
          }
          if HasId(favs, id) {
            var i :| 0 <= i < |favs| && favs[i].id == id;
            assert r[i] == favs[i];
          }
        }
      }
      r
  }

  /** No two favourites share an id. */
  ghost predicate UniqueIds(favs: seq<Game>) {
    forall i, j :: 0 <= i < j < |favs| ==> favs[i].id != favs[j].id
  }

  /** Toggling every game of `games` in turn, as successive updates. */
  function ToggleAll(favs: seq<Game>, games: seq<Game>): seq<Game>
    decreases |games|
  {
    if games == [] then favs else ToggleAll(Toggle(favs, games[0]), games[1..])
  }

  /** Removing an id no favourite carries changes nothing. */
  lemma WithoutAbsentId(favs: seq<Game>, id: int)
    requires !HasId(favs, id)
    ensures WithoutId(favs, id) == favs
  {
    forall g | g in favs ensures OtherId(id)(g) {
      var i :| 0 <= i < |favs| && favs[i] == g;
    }
    FilterKeepsAll(favs, OtherId(id));
  }

  /** Removing a game's id from a list that ends with it drops that last
      entry as well as the earlier ones with the id. */
  lemma WithoutIdAppended(favs: seq<Game>, game: Game)
    ensures WithoutId(favs + [game], game.id) == WithoutId(favs, game.id)
  {
    var keep := OtherId(game.id);
    FilterAppend(favs, [game], keep);
    var tail := Filter([game], keep);
    assert multiset(tail) == multiset{};
    assert |tail| == |multiset(tail)|;
  }

  /** Toggling a game that is not a favourite twice restores the list. */
  lemma ToggleTwiceRestores(favs: seq<Game>, game: Game)
    requires !HasId(favs, game.id)
    ensures Toggle(Toggle(favs, game), game) == favs
  {
    WithoutIdAppended(favs, game);
    WithoutAbsentId(favs, game.id);
  }

  lemma {:induction false} SubsequenceKeepsUnique(a: seq<Game>, b: seq<Game>)
    requires IsSubsequence(a, b)
    requires UniqueIds(b)
    ensures UniqueIds(a)
    decreases |b|
  {
    if a != [] {
      if a[0] == b[0] && IsSubsequence(a[1..], b[1..]) {
        SubsequenceKeepsUnique(a[1..], b[1..]);
        SubsequenceShorter(a[1..], b[1..]);
        forall j | 0 < j < |a| ensures a[0].id != a[j].id {
          assert a[j] in a[1..];
          var k :| 0 <= k < |b[1..]| && b[1..][k] == a[j];
          assert b[k + 1] == a[j];
        }
      } else {
        SubsequenceKeepsUnique(a, b[1..]);
      }
    }
  }

  /** Toggling keeps the ids of the favourites unique. */
  lemma TogglePreservesUnique(favs: seq<Game>, game: Game)
    requires UniqueIds(favs)
    ensures UniqueIds(Toggle(favs, game))
  {
    if HasId(favs, game.id) {
      SubsequenceKeepsUnique(Toggle(favs, game), favs);
    } else {
      var r := favs + [game];
      forall i, j | 0 <= i < j < |r| ensures r[i].id != r[j].id {
        if j == |favs| {
          assert r[i] == favs[i];
        }
      }
    }
  }

  /** With unique ids, toggling the first favourite removes exactly it. */
  lemma ToggleHead(favs: seq<Game>)
    requires favs != [] && UniqueIds(favs)
    ensures Toggle(favs, favs[0]) == favs[1..]
  {
    assert HasId(favs, favs[0].id);
    assert !HasId(favs[1..], favs[0].id) by {
      forall i | 0 <= i < |favs[1..]| ensures favs[1..][i].id != favs[0].id {
        assert favs[1..][i] == favs[i + 1];
      }
    }
    WithoutAbsentId(favs[1..], favs[0].id);
  }

  /** Toggling each favourite of a list with unique ids in turn empties it. */
  lemma {:induction false} ToggleEachEmpties(favs: seq<Game>)
    requires UniqueIds(favs)
    ensures ToggleAll(favs, favs) == []
  {
    if favs != [] {
      ToggleHead(favs);
      assert UniqueIds(favs[1..]) by {
        forall i, j | 0 <= i < j < |favs[1..]| ensures favs[1..][i].id != favs[1..][j].id {
          assert favs[1..][i] == favs[i + 1] && favs[1..][j] == favs[j + 1];
        }
      }
      ToggleEachEmpties(favs[1..]);
    }
  }

  /** Without unique ids, "clear all" can leave a game behind: the first
      toggle removes both entries with that id and the second adds one back. */
  lemma DuplicateSurvivesToggleEach(a: Game, b: Game)
    requires a.id == b.id
    ensures ToggleAll([a, b], [a, b]) == [b]
  {
    assert HasId([a, b], a.id) by {
      assert [a, b][0].id == a.id;
    }
    assert WithoutId([a, b], a.id) == [] by {
      assert [a, b][1..] == [b];
      assert [b][1..] == [];
    }
    assert Toggle([a, b], a) == [];
    assert Toggle([], b) == [b];
    assert [a, b][1..] == [b];
    assert ToggleAll([a, b], [a, b]) == ToggleAll([], [b]);
  }

  /** The favourites held by the provider. */
  class FavoritesStore {
    var favorites: seq<Game>

    /** Starts from the list saved by a previous visit (or none). */
    constructor(saved: seq<Game>)
      ensures favorites == saved
    {
      favorites := saved;
    }

    /** `isFavorite(gameId)`: some favourite carries the id. */
    predicate IsFavorite(gameId: int)
      reads this
      ensures IsFavorite(gameId) <==> exists g :: g in favorites && g.id == gameId
    {
      assert HasId(favorites, gameId) ==> exists g :: g in favorites && g.id == gameId by {
        if HasId(favorites, gameId) {
          var i :| 0 <= i < |favorites| && favorites[i].id == gameId;
          assert favorites[i] in favorites;
        }
      }
      HasId(favorites, gameId)
    }

    /** `toggleFavorite(game)`: flips whether the game is a favourite. */
    method ToggleFavorite(game: Game)
      modifies this
      ensures favorites == Toggle(old(favorites), game)
      ensures IsFavorite(game.id) <==> !old(IsFavorite(game.id))
      ensures forall id :: id != game.id ==> (IsFavorite(id) <==> old(IsFavorite(id)))
    {
      favorites := Toggle(favorites, game);
    }

    /** "Clear all": toggles every current favourite in turn. With unique
        ids this empties the list. */
    method ClearAll()
      modifies this
      ensures favorites == ToggleAll(old(favorites), old(favorites))
      ensures UniqueIds(old(favorites)) ==> favorites == []
    {
      var snapshot := favorites;
      var i := 0;
      while i < |snapshot|
        invariant 0 <= i <= |snapshot|
        invariant ToggleAll(favorites, snapshot[i..]) == ToggleAll(snapshot, snapshot)
      {
        assert snapshot[i..][1..] == snapshot[i + 1..];
        ToggleFavorite(snapshot[i]);
        i := i + 1;
      }
      if UniqueIds(snapshot) {
        ToggleEachEmpties(snapshot);
      }
    }
  }
}

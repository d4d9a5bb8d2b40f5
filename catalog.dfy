/** The immutable game catalog (src/data/jeux.json) and the small
    sequence vocabulary the rest of the model shares. */
module Catalog {

  datatype Option<T> = None | Some(value: T)

  /** One catalog entry: the fields the search, detail and home pages read.
      Prices may be fractional, so `price` is a real. */
  datatype Game = Game(
    id: int,
    title: string,
    minPlayers: int,
    maxPlayers: int,
    minDuration: int,
    maxDuration: int,
    age: int,
    complexity: int,
    price: real,
    popularity: int,
    categories: seq<string>,
    themes: seq<string>)

  function Min(a: int, b: int): int {
    if a <= b then a else b
  }

  /** `a` is an order-preserving subsequence of `b`. */
  ghost predicate IsSubsequence<T>(a: seq<T>, b: seq<T>)
    decreases |b|
  {
    a == [] || (b != [] && ((a[0] == b[0] && IsSubsequence(a[1..], b[1..])) || IsSubsequence(a, b[1..])))
  }

  lemma {:induction false} SubsequenceShorter<T>(a: seq<T>, b: seq<T>)
    requires IsSubsequence(a, b)
    ensures |a| <= |b|
    ensures forall x :: x in a ==> x in b
    decreases |b|
  {
    if a != [] {
      if a[0] == b[0] && IsSubsequence(a[1..], b[1..]) {
        SubsequenceShorter(a[1..], b[1..]);
        forall x | x in a ensures x in b {
          if x != a[0] {
            assert x in a[1..];
          }
        }
      } else {
        SubsequenceShorter(a, b[1..]);
      }
    }
  }

  lemma SkipHead<T>(a: seq<T>, b: seq<T>)
    requires b != [] && IsSubsequence(a, b[1..])
    ensures IsSubsequence(a, b)
  {
  }

  /** `s.filter(keep)`: the elements that pass the test, in their order,
      each as often as in `s`. */
  function Filter<T(!new)>(s: seq<T>, keep: T -> bool): (r: seq<T>)
    ensures forall x :: x in r <==> x in s && keep(x)
    ensures forall x :: multiset(r)[x] == if keep(x) then multiset(s)[x] else 0
    ensures IsSubsequence(r, s)
  {
    if s == [] then []
    else
      var rest := Filter(s[1..], keep);
      assert s == [s[0]] + s[1..];
      if keep(s[0]) then [s[0]] + rest
      else
        SkipHead(rest, s);
        rest
  }

  /** A test every element passes keeps the whole sequence. */
  lemma {:induction false} FilterKeepsAll<T(!new)>(s: seq<T>, keep: T -> bool)
    requires forall x :: x in s ==> keep(x)
    ensures Filter(s, keep) == s
  {
    if s != [] {
      assert s == [s[0]] + s[1..];
      FilterKeepsAll(s[1..], keep);
    }
  }

  /** Filtering distributes over concatenation. */
  lemma {:induction false} FilterAppend<T(!new)>(a: seq<T>, b: seq<T>, keep: T -> bool)
    ensures Filter(a + b, keep) == Filter(a, keep) + Filter(b, keep)
  {
    if a == [] {
      assert a + b == b;
    } else {
      assert (a + b)[1..] == a[1..] + b;
      FilterAppend(a[1..], b, keep);
    }
  }

  /** Two tests that agree on every element select the same elements. */
  lemma {:induction false} FilterSameTest<T(!new)>(s: seq<T>, p: T -> bool, q: T -> bool)
    requires forall x :: x in s ==> p(x) == q(x)
    ensures Filter(s, p) == Filter(s, q)
  {
    if s != [] {
      assert s[0] in s;
      FilterSameTest(s[1..], p, q);
    }
  }

  /** Filtering with a stricter test keeps a subsequence of what the laxer
      test keeps, and filtering the laxer result again changes nothing. */
  lemma {:induction false} FilterNarrower<T(!new)>(s: seq<T>, strict: T -> bool, lax: T -> bool)
    requires forall x :: x in s && strict(x) ==> lax(x)
    ensures IsSubsequence(Filter(s, strict), Filter(s, lax))
    ensures Filter(Filter(s, lax), strict) == Filter(s, strict)
  {
    if s != [] {
      assert s[0] in s;
      FilterNarrower(s[1..], strict, lax);
      var narrow := Filter(s[1..], strict);
      var wide := Filter(s[1..], lax);
      if strict(s[0]) {
        assert ([s[0]] + wide)[1..] == wide;
      } else if lax(s[0]) {
        assert ([s[0]] + wide)[1..] == wide;
        SkipHead(narrow, [s[0]] + wide);
      }
    }
  }

  /** The first element of `s` whose key is `k`, if any. */
  function FindByKey<T, K(==)>(s: seq<T>, key: T -> K, k: K): (r: Option<T>)
    ensures r.Some? ==> r.value in s && key(r.value) == k
    ensures r.None? <==> forall i :: 0 <= i < |s| ==> key(s[i]) != k
  {
    if s == [] then None
    else if key(s[0]) == k then Some(s[0])
    else FindByKey(s[1..], key, k)
  }

  /** The lookup returns the first element with the key. */
  lemma {:induction false} FindByKeyIsFirst<T, K>(s: seq<T>, key: T -> K, k: K, i: nat)
    requires i < |s| && key(s[i]) == k
    requires forall j :: 0 <= j < i ==> key(s[j]) != k
    ensures FindByKey(s, key, k) == Some(s[i])
  {
    if i > 0 {
      assert key(s[0]) != k;
      FindByKeyIsFirst(s[1..], key, k, i - 1);
    }
  }

  function GameId(g: Game): int {
    g.id
  }

  /** The test that keeps every game whose id is not `id`. */
  function OtherId(id: int): Game -> bool {
    (g: Game) => g.id != id
  }

  /** The games whose id is not `id`, in their order. */
  function WithoutId(games: seq<Game>, id: int): (r: seq<Game>)
    ensures forall g :: g in r <==> g in games && g.id != id
    ensures forall g :: multiset(r)[g] == if g.id != id then multiset(games)[g] else 0
    ensures IsSubsequence(r, games)
  {
    Filter(games, OtherId(id))
  }
}

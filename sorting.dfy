/** The stable sort that `Array.prototype.sort` performs, written as a
    left-to-right insertion sort over a "may stay ahead" relation:
    `le(a, b)` holds when the source's comparator returns a value <= 0
    for (a, b). */
module Sorting {

  /** The relation a comparator induces is total and transitive. */
  ghost predicate TotalPreorder<T(!new)>(le: (T, T) -> bool) {
    && (forall a, b :: le(a, b) || le(b, a))
    && (forall a, b, c :: le(a, b) && le(b, c) ==> le(a, c))
  }

  ghost predicate SortedBy<T>(s: seq<T>, le: (T, T) -> bool) {
    forall i, j :: 0 <= i < j < |s| ==> le(s[i], s[j])
  }

  /** Neither element must go ahead of the other: the comparator returns 0. */
  predicate Tied<T>(le: (T, T) -> bool, a: T, b: T) {
    le(a, b) && le(b, a)
  }

  /** The elements of `s` tied with `x`, in their order in `s`. */
  function TiesWith<T>(s: seq<T>, x: T, le: (T, T) -> bool): (r: seq<T>)
    ensures |r| <= |s|
  {
    if s == [] then []
    else TiesWith(s[..|s| - 1], x, le) + (if Tied(le, s[|s| - 1], x) then [s[|s| - 1]] else [])
  }

  /** Inserts `x` after the last element of `t` that may stay ahead of it. */
  function InsertLast<T>(t: seq<T>, x: T, le: (T, T) -> bool): (r: seq<T>)
    ensures |r| == |t| + 1
    ensures multiset(r) == multiset(t) + multiset{x}
  {
    if t == [] || le(t[|t| - 1], x) then t + [x]
    else
      assert t == t[..|t| - 1] + [t[|t| - 1]];
      InsertLast(t[..|t| - 1], x, le) + [t[|t| - 1]]
  }

  function InsertionSort<T>(s: seq<T>, le: (T, T) -> bool): (r: seq<T>)
    ensures |r| == |s|
    ensures multiset(r) == multiset(s)
  {
    if s == [] then []
    else
      assert s == s[..|s| - 1] + [s[|s| - 1]];
      InsertLast(InsertionSort(s[..|s| - 1], le), s[|s| - 1], le)
  }

  /** The relation `cmp(a, b) <= 0` for a comparator that orders by an
      integer key, largest first (`(a, b) => key(b) - key(a)`). */
  function KeyDesc<T>(key: T -> int): (T, T) -> bool {
    (a: T, b: T) => key(b) - key(a) <= 0
  }

  /** The elements of `s` whose key is `k`, in their order in `s`. */
  function WithKey<T>(s: seq<T>, key: T -> int, k: int): (r: seq<T>)
    ensures |r| <= |s|
  {
    if s == [] then []
    else WithKey(s[..|s| - 1], key, k) + (if key(s[|s| - 1]) == k then [s[|s| - 1]] else [])
  }

  lemma KeyDescIsTotalPreorder<T(!new)>(key: T -> int)
    ensures TotalPreorder(KeyDesc(key))
  {
    var le := KeyDesc(key);
    forall a, b, c | le(a, b) && le(b, c) ensures le(a, c) {
      assert key(b) <= key(a) && key(c) <= key(b);
    }
  }

  /** A sorted sequence stays sorted when an element every member may
      stay ahead of is appended. */
  lemma SortedSnoc<T>(s: seq<T>, y: T, le: (T, T) -> bool)
    requires SortedBy(s, le)
    requires forall i :: 0 <= i < |s| ==> le(s[i], y)
    ensures SortedBy(s + [y], le)
  {
    var r := s + [y];
    forall i, j | 0 <= i < j < |r| ensures le(r[i], r[j]) {
      assert r[i] == s[i];
    }
  }

  lemma {:induction false} InsertLastSorted<T(!new)>(t: seq<T>, x: T, le: (T, T) -> bool)
    requires TotalPreorder(le)
    requires SortedBy(t, le)
    ensures SortedBy(InsertLast(t, x, le), le)
    decreases |t|
  {
    if t == [] || le(t[|t| - 1], x) {
      forall i | 0 <= i < |t| ensures le(t[i], x) {
        if i < |t| - 1 {
          assert le(t[i], t[|t| - 1]);
        }
      }
      SortedSnoc(t, x, le);
    } else {
      var t', last := t[..|t| - 1], t[|t| - 1];
      var r' := InsertLast(t', x, le);
      assert InsertLast(t, x, le) == r' + [last];
      assert SortedBy(t', le);
      InsertLastSorted(t', x, le);
      assert le(x, last);
      forall i | 0 <= i < |r'| ensures le(r'[i], last) {
        assert r'[i] in multiset(r');
        if r'[i] != x {
          assert r'[i] in multiset(t');
          var k :| 0 <= k < |t'| && t'[k] == r'[i];
          assert le(t[k], t[|t| - 1]);
        }
      }
      SortedSnoc(r', last, le);
    }
  }

  lemma {:induction false} InsertionSortSorted<T(!new)>(s: seq<T>, le: (T, T) -> bool)
    requires TotalPreorder(le)
    ensures SortedBy(InsertionSort(s, le), le)
  {
    if s != [] {
      InsertionSortSorted(s[..|s| - 1], le);
      InsertLastSorted(InsertionSort(s[..|s| - 1], le), s[|s| - 1], le);
    }
  }

  lemma TiesWithSnoc<T>(s: seq<T>, y: T, z: T, le: (T, T) -> bool)
    ensures TiesWith(s + [y], z, le) == TiesWith(s, z, le) + (if Tied(le, y, z) then [y] else [])
  {
    assert (s + [y])[..|s|] == s;
  }

  /** Inserting `x` puts it after every element it is tied with, so the
      order among tied elements is that of arrival. */
  lemma {:induction false} InsertLastTies<T(!new)>(t: seq<T>, x: T, z: T, le: (T, T) -> bool)
    requires TotalPreorder(le)
    ensures TiesWith(InsertLast(t, x, le), z, le) == TiesWith(t, z, le) + (if Tied(le, x, z) then [x] else [])
    decreases |t|
  {
    if t == [] || le(t[|t| - 1], x) {
      TiesWithSnoc(t, x, z, le);
    } else {
      var t', last := t[..|t| - 1], t[|t| - 1];
      var u := InsertLast(t', x, le);
      assert InsertLast(t, x, le) == u + [last];
      assert t == t' + [last];
      InsertLastTies(t', x, z, le);
      TiesWithSnoc(u, last, z, le);
      TiesWithSnoc(t', last, z, le);
      var base := TiesWith(t', z, le);
      if Tied(le, x, z) {
        assert !Tied(le, last, z);
        assert TiesWith(InsertLast(t, x, le), z, le) == base + [x];
      } else if Tied(le, last, z) {
        assert TiesWith(InsertLast(t, x, le), z, le) == base + [last];
      } else {
        assert TiesWith(InsertLast(t, x, le), z, le) == base;
      }
    }
  }

  /** Stability: the sort keeps the input order among tied elements. */
  lemma {:induction false} InsertionSortStable<T(!new)>(s: seq<T>, z: T, le: (T, T) -> bool)
    requires TotalPreorder(le)
    ensures TiesWith(InsertionSort(s, le), z, le) == TiesWith(s, z, le)
  {
    if s != [] {
      InsertionSortStable(s[..|s| - 1], z, le);
      InsertLastTies(InsertionSort(s[..|s| - 1], le), s[|s| - 1], z, le);
    }
  }

  /** When the comparator returns 0 for every pair, the sort is the identity. */
  lemma {:induction false} InsertionSortAllTied<T>(s: seq<T>, le: (T, T) -> bool)
    requires forall i, j :: 0 <= i < |s| && 0 <= j < |s| ==> le(s[i], s[j])
    ensures InsertionSort(s, le) == s
  {
    if s != [] {
      var s' := s[..|s| - 1];
      InsertionSortAllTied(s', le);
      assert s == s' + [s[|s| - 1]];
    }
  }

  /** Under an integer-key comparator, the elements tied with `x` are those
      with the key of `x`. */
  lemma {:induction false} TiesByKey<T>(s: seq<T>, x: T, key: T -> int)
    ensures TiesWith(s, x, KeyDesc(key)) == WithKey(s, key, key(x))
  {
    if s != [] {
      TiesByKey(s[..|s| - 1], x, key);
    }
  }

  lemma {:induction false} WithKeyAppend<T>(a: seq<T>, b: seq<T>, key: T -> int, k: int)
    ensures WithKey(a + b, key, k) == WithKey(a, key, k) + WithKey(b, key, k)
    decreases |b|
  {
    if b == [] {
      assert a + b == a;
    } else {
      assert (a + b)[..|a + b| - 1] == a + b[..|b| - 1];
      WithKeyAppend(a, b[..|b| - 1], key, k);
    }
  }

  /** Keeping a prefix of a sequence keeps a prefix of each key group. */
  lemma WithKeyOfPrefix<T>(s: seq<T>, n: nat, key: T -> int, k: int)
    requires n <= |s|
    ensures WithKey(s[..n], key, k) <= WithKey(s, key, k)
  {
    assert s == s[..n] + s[n..];
    WithKeyAppend(s[..n], s[n..], key, k);
  }

  /** One step of the insertion loop: `x` moves left past `t[j - 1]`. */
  lemma InsertLastStep<T>(t: seq<T>, x: T, j: nat, le: (T, T) -> bool)
    requires 0 < j <= |t|
    requires !le(t[j - 1], x)
    ensures InsertLast(t[..j], x, le) + t[j..] == InsertLast(t[..j - 1], x, le) + t[j - 1..]
  {
    assert t[..j][..j - 1] == t[..j - 1];
    assert t[j - 1..] == [t[j - 1]] + t[j..];
  }

  /** Where the insertion loop stops, `x` goes. */
  lemma InsertLastStop<T>(t: seq<T>, x: T, j: nat, le: (T, T) -> bool)
    requires j <= |t|
    requires j == 0 || le(t[j - 1], x)
    ensures InsertLast(t[..j], x, le) + t[j..] == t[..j] + [x] + t[j..]
  {
    if j > 0 {
      assert t[..j][j - 1] == t[j - 1];
    }
  }

  /** Moves `a[j - 1]` one place right. */
  method ShiftOne<T>(a: array<T>, j: nat)
    requires 0 < j < a.Length
    modifies a
    ensures a[j] == old(a[j - 1])
    ensures forall k :: 0 <= k < a.Length && k != j ==> a[k] == old(a[k])
  {
    a[j] := a[j - 1];
  }

  /** The loop of one insertion: shifts right, by one place, every element
      of the sorted prefix `t == a[..i]` that may not stay ahead of `x`,
      and returns the index of the hole left for `x`. */
  method ShiftPast<T>(a: array<T>, i: nat, x: T, le: (T, T) -> bool, ghost t: seq<T>) returns (j: nat)
    requires i < a.Length && t == a[..i]
    modifies a
    ensures j <= i
    ensures forall k :: 0 <= k < j ==> a[k] == t[k]
    ensures forall k :: j < k <= i ==> a[k] == t[k - 1]
    ensures forall k :: i < k < a.Length ==> a[k] == old(a[k])
    ensures InsertLast(t, x, le) == t[..j] + [x] + t[j..]
  {
    j := i;
    assert t[..j] == t && t[j..] == [];
    while j > 0 && !le(a[j - 1], x)
      invariant 0 <= j <= i
      invariant forall k :: 0 <= k < j ==> a[k] == t[k]
      invariant forall k :: j < k <= i ==> a[k] == t[k - 1]
      invariant forall k :: i < k < a.Length ==> a[k] == old(a[k])
      invariant InsertLast(t, x, le) == InsertLast(t[..j], x, le) + t[j..]
    {
      assert a[j - 1] == t[j - 1];
      InsertLastStep(t, x, j, le);
      ShiftOne(a, j);
      j := j - 1;
    }
    assert j > 0 ==> a[j - 1] == t[j - 1];
    InsertLastStop(t, x, j, le);
  }

  /** The array after one insertion, read as a sequence. */
  lemma Assembled<T>(t: seq<T>, s1: seq<T>, j: nat, x: T)
    requires j <= |t| < |s1|
    requires forall k :: 0 <= k < j ==> s1[k] == t[k]
    requires s1[j] == x
    requires forall k :: j < k <= |t| ==> s1[k] == t[k - 1]
    ensures s1[..|t| + 1] == t[..j] + [x] + t[j..]
  {
    var r := t[..j] + [x] + t[j..];
    forall k | 0 <= k <= |t| ensures s1[k] == r[k] {
      if k < j {
        assert r[k] == t[k];
      } else if k > j {
        assert r[k] == t[k - 1];
      }
    }
  }

  /** Moves `a[i]` left past every element of the sorted prefix `a[..i]`
      that may not stay ahead of it. */
  method InsertInPlace<T>(a: array<T>, i: nat, le: (T, T) -> bool)
    requires i < a.Length
    modifies a
    ensures a[..i + 1] == InsertLast(old(a[..i]), old(a[i]), le)
    ensures forall k :: i < k < a.Length ==> a[k] == old(a[k])
  {
    var x := a[i];
    ghost var t := a[..i];
    var j := ShiftPast(a, i, x, le, t);
    a[j] := x;
    Assembled(t, a[..], j, x);
  }

  lemma InsertionSortSnoc<T>(s: seq<T>, i: nat, le: (T, T) -> bool)
    requires i < |s|
    ensures InsertionSort(s[..i + 1], le) == InsertLast(InsertionSort(s[..i], le), s[i], le)
  {
    assert s[..i + 1][..i] == s[..i];
  }

  /** In-place insertion sort of an array: the algorithm `sort` runs on
      the copied result array. */
  method SortInPlace<T>(a: array<T>, le: (T, T) -> bool)
    modifies a
    ensures a[..] == InsertionSort(old(a[..]), le)
  {
    ghost var input := a[..];
    var i := 0;
    while i < a.Length
      invariant 0 <= i <= a.Length
      invariant a[..i] == InsertionSort(input[..i], le)
      invariant forall k :: i <= k < a.Length ==> a[k] == input[k]
    {
      InsertInPlace(a, i, le);
      InsertionSortSnoc(input, i, le);
      i := i + 1;
    }
    assert input[..a.Length] == input;
    assert a[..a.Length] == a[..];
  }

  /** The first `n` elements of a copy of `s` sorted stably by `key`,
      largest key first (fewer when `s` is shorter). */
  function TopByKey<T>(s: seq<T>, key: T -> int, n: nat): (r: seq<T>)
    ensures |r| == if n <= |s| then n else |s|
  {
    InsertionSort(s, KeyDesc(key))[..if n <= |s| then n else |s|]
  }

  /** The selection is drawn from `s` and its keys never increase. */
  lemma TopByKeyOrdered<T(!new)>(s: seq<T>, key: T -> int, n: nat)
    ensures multiset(TopByKey(s, key, n)) <= multiset(s)
    ensures var r := TopByKey(s, key, n);
      forall i, j :: 0 <= i < j < |r| ==> key(r[i]) >= key(r[j])
  {
    var sorted := InsertionSort(s, KeyDesc(key));
    var r := TopByKey(s, key, n);
    assert sorted == r + sorted[|r|..];
    KeyDescIsTotalPreorder(key);
    InsertionSortSorted(s, KeyDesc(key));
    forall i, j | 0 <= i < j < |r| ensures key(r[i]) >= key(r[j]) {
      assert KeyDesc(key)(sorted[i], sorted[j]);
    }
  }

  /** No element left out has a larger key than the last one selected. */
  lemma TopByKeyCutoff<T(!new)>(s: seq<T>, key: T -> int, n: nat, x: T)
    requires x in s
    requires x !in TopByKey(s, key, n)
    requires TopByKey(s, key, n) != []
    ensures var r := TopByKey(s, key, n); key(x) <= key(r[|r| - 1])
  {
    var sorted := InsertionSort(s, KeyDesc(key));
    var r := TopByKey(s, key, n);
    assert x in multiset(sorted);
    var k :| 0 <= k < |sorted| && sorted[k] == x;
    KeyDescIsTotalPreorder(key);
    InsertionSortSorted(s, KeyDesc(key));
    assert KeyDesc(key)(sorted[|r| - 1], sorted[k]);
  }

  /** Elements with equal keys keep their order in `s`: those selected are
      the first ones of their key in `s`. */
  lemma TopByKeyTies<T(!new)>(s: seq<T>, key: T -> int, n: nat, x: T)
    ensures WithKey(TopByKey(s, key, n), key, key(x)) <= WithKey(s, key, key(x))
  {
    var sorted := InsertionSort(s, KeyDesc(key));
    KeyDescIsTotalPreorder(key);
    InsertionSortStable(s, x, KeyDesc(key));
    TiesByKey(sorted, x, key);
    TiesByKey(s, x, key);
    WithKeyOfPrefix(sorted, |TopByKey(s, key, n)|, key, key(x));
  }
}

/**
 * The JavaScript array operations the loan store and the accounting engine
 * are written with (`filter`, `find`, `some`, `reduce`), stated once over
 * Dafny sequences, together with the facts about them that the rest of the
 * model relies on.
 */
module ListOps {
  import opened Wrappers

  /** `s.filter(p)`: the elements of `s` satisfying `p`, in their original order. */
  function Filter<T(!new)>(s: seq<T>, p: T -> bool): (r: seq<T>)
    ensures |r| <= |s|
    ensures forall x {:trigger x in r} :: x in r <==> x in s && p(x)
  {
    if s == [] then []
    else
      var init := Filter(s[..|s| - 1], p);
      assert s == s[..|s| - 1] + [s[|s| - 1]];
      if p(s[|s| - 1]) then init + [s[|s| - 1]] else init
  }

  /** Each element is kept as often as it occurs in `s` when it satisfies `p`, and never otherwise. */
  lemma {:induction false} FilterCounts<T(!new)>(s: seq<T>, p: T -> bool)
    ensures forall x :: multiset(Filter(s, p))[x] == if p(x) then multiset(s)[x] else 0
  {
    if s != [] {
      var s', y := s[..|s| - 1], s[|s| - 1];
      assert s == s' + [y];
      FilterCounts(s', p);
    }
  }

  /** Filtering distributes over concatenation, so the order of the input is kept. */
  lemma {:induction false} FilterConcat<T(!new)>(a: seq<T>, b: seq<T>, p: T -> bool)
    ensures Filter(a + b, p) == Filter(a, p) + Filter(b, p)
  {
    if b == [] {
      assert a + b == a;
    } else {
      var b', y := b[..|b| - 1], b[|b| - 1];
      assert b == b' + [y];
      assert a + b == (a + b') + [y];
      FilterConcat(a, b', p);
      FilterSnoc(a + b', y, p);
      FilterSnoc(b', y, p);
    }
  }

  /** Appending one element adds it to the filtered sequence exactly when it satisfies `p`. */
  lemma FilterSnoc<T(!new)>(s: seq<T>, x: T, p: T -> bool)
    ensures Filter(s + [x], p) == if p(x) then Filter(s, p) + [x] else Filter(s, p)
  {
    assert (s + [x])[..|s + [x]| - 1] == s;
  }

  /** Filtering twice with the same test is filtering once. */
  lemma {:induction false} FilterIdempotent<T(!new)>(s: seq<T>, p: T -> bool)
    ensures Filter(Filter(s, p), p) == Filter(s, p)
  {
    if s != [] {
      var s' := s[..|s| - 1];
      var x := s[|s| - 1];
      assert s == s' + [x];
      FilterIdempotent(s', p);
      FilterSnoc(s', x, p);
      if p(x) {
        FilterSnoc(Filter(s', p), x, p);
      }
    }
  }

  /** A filter that keeps everything returns its input. */
  lemma {:induction false} FilterAll<T(!new)>(s: seq<T>, p: T -> bool)
    requires forall i :: 0 <= i < |s| ==> p(s[i])
    ensures Filter(s, p) == s
  {
    if s != [] {
      FilterAll(s[..|s| - 1], p);
      assert s == s[..|s| - 1] + [s[|s| - 1]];
    }
  }

  /** `s.reduce((sum, x) => sum + f(x), 0)`: a left fold, so the last element is added last. */
  function Sum<T>(s: seq<T>, f: T -> real): real
  {
    if s == [] then 0.0 else Sum(s[..|s| - 1], f) + f(s[|s| - 1])
  }

  lemma SumSnoc<T>(s: seq<T>, x: T, f: T -> real)
    ensures Sum(s + [x], f) == Sum(s, f) + f(x)
  {
    assert (s + [x])[..|s + [x]| - 1] == s;
  }

  /** A sum of non-negative terms is non-negative. */
  lemma {:induction false} SumNonNegative<T>(s: seq<T>, f: T -> real)
    requires forall i :: 0 <= i < |s| ==> f(s[i]) >= 0.0
    ensures Sum(s, f) >= 0.0
  {
    if s != [] {
      SumNonNegative(s[..|s| - 1], f);
    }
  }

  /** The index `s.findIndex(p)` returns, or None where it returns -1. */
  function FindIndex<T>(s: seq<T>, p: T -> bool): (r: Option<nat>)
    ensures r.None? <==> forall i :: 0 <= i < |s| ==> !p(s[i])
    ensures r.Some? ==> r.value < |s| && p(s[r.value])
    ensures r.Some? ==> forall j :: 0 <= j < r.value ==> !p(s[j])
  {
    if s == [] then None
    else if p(s[0]) then Some(0)
    else match FindIndex(s[1..], p)
      case None => None
      case Some(k) => Some(k + 1)
  }

  /** `s.find(p)`: the first element satisfying `p`, if any. */
  function Find<T>(s: seq<T>, p: T -> bool): (r: Option<T>)
    ensures r.None? <==> forall i :: 0 <= i < |s| ==> !p(s[i])
    ensures r.Some? ==> r.value in s && p(r.value)
    ensures r.Some? ==> FindIndex(s, p).Some? && r.value == s[FindIndex(s, p).value]
  {
    match FindIndex(s, p)
    case None => None
    case Some(k) => Some(s[k])
  }

  /** `s.some(p)`. */
  predicate Any<T>(s: seq<T>, p: T -> bool)
  {
    exists i :: 0 <= i < |s| && p(s[i])
  }

  /** No two elements of `s` share a key: the store's ids are unique within each collection. */
  predicate UniqueKeys<T>(s: seq<T>, key: T -> string)
  {
    forall i, j :: 0 <= i < j < |s| ==> key(s[i]) != key(s[j])
  }

  /** Keeping a subsequence keeps the keys unique. */
  lemma {:induction false} FilterKeepsKeysUnique<T(!new)>(s: seq<T>, key: T -> string, p: T -> bool)
    requires UniqueKeys(s, key)
    ensures UniqueKeys(Filter(s, p), key)
  {
    if s != [] {
      var s' := s[..|s| - 1];
      var x := s[|s| - 1];
      FilterKeepsKeysUnique(s', key, p);
      var init := Filter(s', p);
      if p(x) {
        var r := init + [x];
        forall i, j | 0 <= i < j < |r| ensures key(r[i]) != key(r[j]) {
          if j == |r| - 1 {
            assert r[i] == init[i] && init[i] in init;
            assert r[i] in s';
            var m :| 0 <= m < |s'| && s'[m] == r[i];
            assert s[m] == r[i];
          }
        }
      }
    }
  }

  /** The length of the longest key in `s`. */
  function MaxKeyLength<T>(s: seq<T>, key: T -> string): (n: nat)
    ensures forall i :: 0 <= i < |s| ==> |key(s[i])| <= n
  {
    if s == [] then 0
    else
      var rest := MaxKeyLength(s[1..], key);
      if |key(s[0])| > rest then |key(s[0])| else rest
  }

  /**
   * A key used by no element of `s`. It stands for a random UUID
   * generator: callers only rely on its freshness.
   */
  function FreshKey<T>(s: seq<T>, key: T -> string): (k: string)
    ensures forall i :: 0 <= i < |s| ==> key(s[i]) != k
  {
    seq(MaxKeyLength(s, key) + 1, _ => '0')
  }

  /** Array `map` that swaps in `x` for every element sharing its key. */
  function ReplaceByKey<T>(s: seq<T>, key: T -> string, x: T): (r: seq<T>)
    ensures |r| == |s|
    ensures forall i :: 0 <= i < |s| ==> r[i] == if key(s[i]) == key(x) then x else s[i]
  {
    seq(|s|, i requires 0 <= i < |s| => if key(s[i]) == key(x) then x else s[i])
  }

  /** Replacing by key leaves every key where it was. */
  lemma ReplaceKeepsKeysUnique<T>(s: seq<T>, key: T -> string, x: T)
    requires UniqueKeys(s, key)
    ensures UniqueKeys(ReplaceByKey(s, key, x), key)
  {
    var r := ReplaceByKey(s, key, x);
    assert forall i :: 0 <= i < |s| ==> key(r[i]) == key(s[i]);
  }
}

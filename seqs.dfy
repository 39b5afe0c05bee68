/** Sequence operations the scripts borrow from JavaScript: `Array.from(new
    Set(xs))` (order-preserving de-duplication), `slice(0, n)`, and
    `Array.prototype.sort` with a comparator, which here is an abstract total
    preorder because `localeCompare` depends on the locale. */
module Seqs {

  predicate Distinct<T(==)>(s: seq<T>) {
    forall i, j :: 0 <= i < j < |s| ==> s[i] != s[j]
  }

  /** `Array.from(new Set(s))`: keeps the first occurrence of each element. */
  function Dedup<T(==,!new)>(s: seq<T>): (r: seq<T>)
    ensures Distinct(r)
    ensures forall x :: x in r <==> x in s
    ensures |r| <= |s|
  {
    if s == [] then []
    else
      var d := Dedup(s[..|s| - 1]);
      var x := s[|s| - 1];
      if x in d then d else d + [x]
  }

  /** First-occurrence order: de-duplicating a longer list only appends to
      what de-duplicating its prefix gave. */
  lemma {:induction false} DedupExtendsPrefix<T(!new)>(a: seq<T>, b: seq<T>)
    ensures Dedup(a) <= Dedup(a + b)
    decreases |b|
  {
    if b != [] {
      var ab := a + b;
      assert ab[..|ab| - 1] == a + b[..|b| - 1];
      DedupExtendsPrefix(a, b[..|b| - 1]);
    } else {
      assert a + b == a;
    }
  }

  /** A list without repetitions is left as it is. */
  lemma {:induction false} DedupOfDistinct<T(!new)>(s: seq<T>)
    requires Distinct(s)
    ensures Dedup(s) == s
  {
    if s != [] {
      var p := s[..|s| - 1];
      assert Distinct(p);
      DedupOfDistinct(p);
      assert s[|s| - 1] !in p;
      assert p + [s[|s| - 1]] == s;
    }
  }

  /** `Array.prototype.filter`: the elements that satisfy `p`, in order. */
  function Filter<T(!new)>(s: seq<T>, p: T -> bool): (r: seq<T>)
    ensures |r| <= |s|
    ensures forall x :: x in r <==> x in s && p(x)
  {
    if s == [] then [] else (if p(s[0]) then [s[0]] else []) + Filter(s[1..], p)
  }

  /** Filtering keeps the order: filtering a concatenation filters each part. */
  lemma {:induction false} FilterAppend<T(!new)>(a: seq<T>, b: seq<T>, p: T -> bool)
    ensures Filter(a + b, p) == Filter(a, p) + Filter(b, p)
    decreases |a|
  {
    if a != [] {
      assert (a + b)[1..] == a[1..] + b;
      FilterAppend(a[1..], b, p);
    } else {
      assert a + b == b;
    }
  }

  /** Nothing is dropped when every element passes. */
  lemma {:induction false} FilterKeepsAll<T(!new)>(s: seq<T>, p: T -> bool)
    requires forall x :: x in s ==> p(x)
    ensures Filter(s, p) == s
    decreases |s|
  {
    if s != [] {
      FilterKeepsAll(s[1..], p);
    }
  }

  /** `s.slice(0, n)` */
  function Take<T>(s: seq<T>, n: nat): (r: seq<T>)
    ensures |r| == if n < |s| then n else |s|
    ensures r <= s
  {
    if n < |s| then s[..n] else s
  }

  ghost predicate TotalPreorder<T(!new)>(leq: (T, T) -> bool) {
    && (forall a, b :: leq(a, b) || leq(b, a))
    && (forall a, b, c :: leq(a, b) && leq(b, c) ==> leq(a, c))
  }

  predicate SortedBy<T>(s: seq<T>, leq: (T, T) -> bool) {
    forall i, j :: 0 <= i < j < |s| ==> leq(s[i], s[j])
  }

  function Insert<T>(x: T, s: seq<T>, leq: (T, T) -> bool): (r: seq<T>)
    ensures multiset(r) == multiset(s) + multiset{x}
    ensures |r| == |s| + 1
  {
    if s == [] then [x]
    else if leq(x, s[0]) then [x] + s
    else
      assert s == [s[0]] + s[1..];
      [s[0]] + Insert(x, s[1..], leq)
  }

  lemma {:induction false} InsertSorted<T(!new)>(x: T, s: seq<T>, leq: (T, T) -> bool)
    requires TotalPreorder(leq)
    requires SortedBy(s, leq)
    ensures SortedBy(Insert(x, s, leq), leq)
  {
    if s != [] && !leq(x, s[0]) {
      var t := s[1..];
      assert SortedBy(t, leq);
      InsertSorted(x, t, leq);
      var r := Insert(x, t, leq);
      assert leq(s[0], x);
      forall k | 0 <= k < |r| ensures leq(s[0], r[k]) {
        assert r[k] in multiset(r);
        assert r[k] in multiset(t) + multiset{x};
        if r[k] != x {
          assert r[k] in t;
          var m :| 0 <= m < |t| && t[m] == r[k];
          assert t[m] == s[m + 1];
        }
      }
    }
  }

  /** Insertion sort; the model of `sort` with a comparator. */
  function Sort<T>(s: seq<T>, leq: (T, T) -> bool): (r: seq<T>)
    ensures multiset(r) == multiset(s)
    ensures |r| == |s|
  {
    if s == [] then []
    else
      assert s == [s[0]] + s[1..];
      Insert(s[0], Sort(s[1..], leq), leq)
  }

  /** The elements of `s` that `leq` ranks level with `x`, in their order in `s`. */
  function Ties<T>(s: seq<T>, leq: (T, T) -> bool, x: T): seq<T> {
    if s == [] then []
    else (if leq(x, s[0]) && leq(s[0], x) then [s[0]] else []) + Ties(s[1..], leq, x)
  }

  /** Inserting `x` puts it ahead of every element ranked level with it, and
      leaves the relative order of the others alone. */
  lemma {:induction false} InsertTies<T(!new)>(x: T, s: seq<T>, leq: (T, T) -> bool, y: T)
    requires TotalPreorder(leq)
    ensures Ties(Insert(x, s, leq), leq, y)
         == (if leq(y, x) && leq(x, y) then [x] else []) + Ties(s, leq, y)
  {
    if s == [] || leq(x, s[0]) {
      assert Insert(x, s, leq) == [x] + s;
      TiesCons(x, s, leq, y);
    } else {
      var t := Insert(x, s[1..], leq);
      assert Insert(x, s, leq) == [s[0]] + t;
      assert s == [s[0]] + s[1..];
      InsertTies(x, s[1..], leq, y);
      TiesCons(s[0], t, leq, y);
      TiesCons(s[0], s[1..], leq, y);
      var rest := Ties(s[1..], leq, y);
      if leq(y, x) && leq(x, y) {
        LevelNotAfter(x, y, s[0], leq);
        assert Ties(t, leq, y) == [x] + rest;
        assert Ties(s, leq, y) == rest;
      } else {
        assert Ties(t, leq, y) == rest;
      }
    }
  }

  /** Something `x` does not precede is not level with anything level with `x`. */
  lemma LevelNotAfter<T(!new)>(x: T, y: T, z: T, leq: (T, T) -> bool)
    requires TotalPreorder(leq)
    requires !leq(x, z)
    ensures leq(y, x) && leq(x, y) ==> !(leq(y, z) && leq(z, y))
  {
  }

  lemma TiesCons<T(!new)>(a: T, s: seq<T>, leq: (T, T) -> bool, y: T)
    ensures Ties([a] + s, leq, y) == (if leq(y, a) && leq(a, y) then [a] else []) + Ties(s, leq, y)
  {
    assert ([a] + s)[1..] == s;
  }

  /** The sort is stable: elements ranked level with each other keep the
      order they had in the input, as ECMAScript 2019 requires of
      `Array.prototype.sort`. */
  lemma {:induction false} SortStable<T(!new)>(s: seq<T>, leq: (T, T) -> bool, x: T)
    requires TotalPreorder(leq)
    ensures Ties(Sort(s, leq), leq, x) == Ties(s, leq, x)
  {
    if s != [] {
      SortStable(s[1..], leq, x);
      InsertTies(s[0], Sort(s[1..], leq), leq, x);
    }
  }

  /** `r` is `s` sorted stably by `leq`: an ordered permutation in which
      level elements keep their input order. */
  ghost predicate StablySorted<T(!new)>(r: seq<T>, s: seq<T>, leq: (T, T) -> bool) {
    && multiset(r) == multiset(s)
    && SortedBy(r, leq)
    && forall x :: Ties(r, leq, x) == Ties(s, leq, x)
  }

  /** Sorting yields an ordered permutation of its input. */
  lemma {:induction false} SortSorted<T(!new)>(s: seq<T>, leq: (T, T) -> bool)
    requires TotalPreorder(leq)
    ensures SortedBy(Sort(s, leq), leq)
  {
    if s != [] {
      SortSorted(s[1..], leq);
      InsertSorted(s[0], Sort(s[1..], leq), leq);
    }
  }

  /** The insertion sort is a stable sort. */
  lemma SortIsStable<T(!new)>(s: seq<T>, leq: (T, T) -> bool)
    requires TotalPreorder(leq)
    ensures StablySorted(Sort(s, leq), s, leq)
  {
    SortSorted(s, leq);
    forall x ensures Ties(Sort(s, leq), leq, x) == Ties(s, leq, x) {
      SortStable(s, leq, x);
    }
  }
}

/** Sequence operations that stand for the database's `$match`, `$group`,
    `$sort` and `$limit` stages: filtering, grouping by a key, summing and
    sorting. */
module Seqs {

  /** The elements of `s` that satisfy `p`, in their original order. */
  function Filter<T(!new)>(s: seq<T>, p: T -> bool): (r: seq<T>)
    ensures |r| <= |s|
    ensures forall x :: x in r <==> x in s && p(x)
    decreases |s|
  {
    if s == [] then []
    else
      assert s == s[..|s| - 1] + [s[|s| - 1]];
      var init := Filter(s[..|s| - 1], p);
      if p(s[|s| - 1]) then init + [s[|s| - 1]] else init
  }

  /** The elements of `s` whose key is `k`: one group of a `$group` stage. */
  function Having<T(!new), K(==)>(s: seq<T>, key: T -> K, k: K): (r: seq<T>)
    ensures |r| <= |s|
    ensures forall x :: x in r <==> x in s && key(x) == k
    decreases |s|
  {
    if s == [] then []
    else
      assert s == s[..|s| - 1] + [s[|s| - 1]];
      var init := Having(s[..|s| - 1], key, k);
      if key(s[|s| - 1]) == k then init + [s[|s| - 1]] else init
  }

  predicate Distinct<K(==)>(ks: seq<K>)
  {
    forall i, j :: 0 <= i < j < |ks| ==> ks[i] != ks[j]
  }

  predicate DistinctBy<T, K(==)>(s: seq<T>, key: T -> K)
  {
    forall i, j :: 0 <= i < j < |s| ==> key(s[i]) != key(s[j])
  }

  /** The distinct keys of `s` in order of first occurrence: the `_id`s of a
      `$group` stage. */
  function Keys<T(!new), K(==)>(s: seq<T>, key: T -> K): (ks: seq<K>)
    ensures |ks| <= |s|
    ensures Distinct(ks)
    ensures forall x :: x in s ==> key(x) in ks
    ensures forall k :: k in ks ==> Having(s, key, k) != []
    decreases |s|
  {
    if s == [] then []
    else
      assert s == s[..|s| - 1] + [s[|s| - 1]];
      var init := Keys(s[..|s| - 1], key);
      HavingGrows(s[..|s| - 1], s[|s| - 1], key);
      if key(s[|s| - 1]) in init then init else init + [key(s[|s| - 1])]
  }

  lemma HavingGrows<T(!new), K>(s: seq<T>, x: T, key: T -> K)
    ensures forall k :: Having(s, key, k) != [] ==> Having(s + [x], key, k) != []
    ensures Having(s + [x], key, key(x)) != []
  {
    assert (s + [x])[..|s + [x]| - 1] == s;
  }

  /** |Having(s, key, k)| summed over the keys in `ks`. */
  function CountOver<T(!new), K(==)>(ks: seq<K>, s: seq<T>, key: T -> K): nat
  {
    if ks == [] then 0 else CountOver(ks[..|ks| - 1], s, key) + |Having(s, key, ks[|ks| - 1])|
  }

  lemma {:induction false} CountOverSnoc<T(!new), K>(ks: seq<K>, s: seq<T>, x: T, key: T -> K)
    requires Distinct(ks)
    ensures CountOver(ks, s + [x], key) == CountOver(ks, s, key) + (if key(x) in ks then 1 else 0)
  {
    assert (s + [x])[..|s + [x]| - 1] == s;
    if ks != [] {
      var init := ks[..|ks| - 1];
      assert ks == init + [ks[|ks| - 1]];
      CountOverSnoc(init, s, x, key);
    }
  }

  /** Grouping partitions the input: the group sizes add up to its length. */
  lemma KeysPartition<T(!new), K(!new)>(s: seq<T>, key: T -> K)
    ensures CountOver(Keys(s, key), s, key) == |s|
  {
    CoverPartition(Keys(s, key), s, key);
  }

  /** The sum of `f` over `s` (a `$sum` accumulator or a `reduce`). */
  function Sum<T>(s: seq<T>, f: T -> int): int
  {
    if s == [] then 0 else Sum(s[..|s| - 1], f) + f(s[|s| - 1])
  }

  lemma {:induction false} SumNonNegative<T>(s: seq<T>, f: T -> int)
    requires forall x :: x in s ==> f(x) >= 0
    ensures Sum(s, f) >= 0
  {
    if s != [] {
      assert forall x :: x in s[..|s| - 1] ==> x in s;
      SumNonNegative(s[..|s| - 1], f);
    }
  }

  /** Ordered by `rank`, highest first (`$sort` with -1). */
  predicate SortedBy<T>(s: seq<T>, rank: T -> int)
  {
    forall i, j :: 0 <= i < j < |s| ==> rank(s[i]) >= rank(s[j])
  }

  function InsertBy<T>(x: T, s: seq<T>, rank: T -> int): (r: seq<T>)
    requires SortedBy(s, rank)
    ensures |r| == |s| + 1
    ensures multiset(r) == multiset(s) + multiset{x}
    ensures forall y :: y in r ==> y == x || y in s
    ensures SortedBy(r, rank)
  {
    if s == [] then [x]
    else if rank(x) >= rank(s[0]) then
      ConsSorted(x, s, rank);
      [x] + s
    else
      assert s == [s[0]] + s[1..];
      var tail := InsertBy(x, s[1..], rank);
      ConsSorted(s[0], tail, rank);
      [s[0]] + tail
  }

  lemma ConsSorted<T>(h: T, t: seq<T>, rank: T -> int)
    requires SortedBy(t, rank)
    requires forall y :: y in t ==> rank(y) <= rank(h)
    ensures SortedBy([h] + t, rank)
  {
    var r := [h] + t;
    forall i, j | 0 <= i < j < |r| ensures rank(r[i]) >= rank(r[j]) {
      assert r[j] == t[j - 1];
      if i > 0 { assert r[i] == t[i - 1]; }
    }
  }

  /** A permutation of `s` ordered highest rank first. The database gives no
      order among equal ranks; this one keeps the input order of ties. */
  function SortBy<T>(s: seq<T>, rank: T -> int): (r: seq<T>)
    ensures |r| == |s|
    ensures multiset(r) == multiset(s)
    ensures SortedBy(r, rank)
  {
    if s == [] then []
    else
      assert s == [s[0]] + s[1..];
      InsertBy(s[0], SortBy(s[1..], rank), rank)
  }

  lemma {:induction false} InsertKeepsDistinctBy<T, K>(x: T, s: seq<T>, rank: T -> int, key: T -> K)
    requires SortedBy(s, rank) && DistinctBy(s, key)
    requires forall y :: y in s ==> key(y) != key(x)
    ensures DistinctBy(InsertBy(x, s, rank), key)
  {
    if s == [] {
    } else if rank(x) >= rank(s[0]) {
      ConsDistinctBy(x, s, key);
    } else {
      var t := s[1..];
      assert s == [s[0]] + t;
      forall y | y in t ensures key(y) != key(x) { assert y in s; }
      InsertKeepsDistinctBy(x, t, rank, key);
      var tail := InsertBy(x, t, rank);
      forall y | y in tail ensures key(y) != key(s[0]) {
        if y != x {
          var j :| 0 <= j < |t| && t[j] == y;
          assert s[j + 1] == y;
        }
      }
      ConsDistinctBy(s[0], tail, key);
    }
  }

  lemma ConsDistinctBy<T, K>(h: T, t: seq<T>, key: T -> K)
    requires DistinctBy(t, key)
    requires forall y :: y in t ==> key(y) != key(h)
    ensures DistinctBy([h] + t, key)
  {
    var r := [h] + t;
    forall i, j | 0 <= i < j < |r| ensures key(r[i]) != key(r[j]) {
      assert r[j] == t[j - 1];
      if i > 0 { assert r[i] == t[i - 1]; }
    }
  }

  /** Sorting keeps keys that were distinct distinct. */
  lemma {:induction false} SortKeepsDistinctBy<T, K>(s: seq<T>, rank: T -> int, key: T -> K)
    requires DistinctBy(s, key)
    ensures DistinctBy(SortBy(s, rank), key)
  {
    if s != [] {
      assert s == [s[0]] + s[1..];
      SortKeepsDistinctBy(s[1..], rank, key);
      var t := SortBy(s[1..], rank);
      forall y | y in t ensures key(y) != key(s[0]) {
        assert y in multiset(s[1..]);
        var j :| 0 <= j < |s[1..]| && s[1..][j] == y;
        assert s[j + 1] == y;
      }
      InsertKeepsDistinctBy(s[0], t, rank, key);
    }
  }

  /** Membership is kept by sorting. */
  lemma SortMembers<T>(s: seq<T>, rank: T -> int)
    ensures forall x :: x in SortBy(s, rank) <==> x in s
  {
    var r := SortBy(s, rank);
    assert forall x :: x in r <==> x in multiset(r);
    assert forall x :: x in s <==> x in multiset(s);
  }

  /** The first `n` elements (`$limit` / `.limit(n)`). */
  function Take<T>(s: seq<T>, n: nat): (r: seq<T>)
    ensures |r| == if n <= |s| then n else |s|
    ensures forall i :: 0 <= i < |r| ==> r[i] == s[i]
  {
    if n <= |s| then s[..n] else s
  }

  /** A sequence without repetitions has as many elements as its set. */
  lemma {:induction false} DistinctCard<K>(ks: seq<K>)
    requires Distinct(ks)
    ensures |set k | k in ks| == |ks|
  {
    if ks != [] {
      var init := ks[..|ks| - 1];
      assert ks == init + [ks[|ks| - 1]];
      DistinctCard(init);
      assert (set k | k in ks) == (set k | k in init) + {ks[|ks| - 1]};
    }
  }

  /** The set of values `f` takes on the elements of `s`. */
  function Image<T(==), K>(s: seq<T>, f: T -> K): set<K>
  {
    set x | x in s :: f(x)
  }

  /** Appending an element adds its image. */
  lemma ImageSnoc<T, K>(s: seq<T>, x: T, f: T -> K)
    ensures Image(s + [x], f) == Image(s, f) + {f(x)}
  {
    assert forall y :: y in s + [x] <==> y in s || y == x;
  }

  /** A set built from the elements of a sequence is no larger than it. */
  lemma {:induction false} ImageCard<T, K>(s: seq<T>, f: T -> K)
    ensures |Image(s, f)| <= |s|
  {
    if s != [] {
      var init := s[..|s| - 1];
      assert s == init + [s[|s| - 1]];
      ImageCard(init, f);
      ImageSnoc(init, s[|s| - 1], f);
    }
  }

  /** A filter and its complement split a sequence: together they hold
      every element exactly as often as the sequence does. */
  lemma {:induction false} FilterSplit<T(!new)>(s: seq<T>, p: T -> bool, q: T -> bool)
    requires forall x :: q(x) == !p(x)
    ensures multiset(Filter(s, p)) + multiset(Filter(s, q)) == multiset(s)
    ensures |Filter(s, p)| + |Filter(s, q)| == |s|
  {
    if s != [] {
      var init := s[..|s| - 1];
      assert s == init + [s[|s| - 1]];
      FilterSplit(init, p, q);
    }
    assert |multiset(Filter(s, p))| + |multiset(Filter(s, q))| == |multiset(s)|;
  }

  /** `f` applied to every key, in order (the `$project` after a `$group`). */
  function MapSeq<K, E>(ks: seq<K>, f: K -> E): (m: seq<E>)
    ensures |m| == |ks|
    ensures forall i :: 0 <= i < |ks| ==> m[i] == f(ks[i])
  {
    seq(|ks|, i requires 0 <= i < |ks| => f(ks[i]))
  }

  /** A `$group` / `$project` pair: one entry `f(k)` per distinct key `k` of
      `s`. Each entry is the one for its own key, that key occurs in `s`, no
      key has two entries, and the entries' keys are exactly the keys in `s`. */
  lemma GroupList<T(!new), K(!new), E>(s: seq<T>, key: T -> K, f: K -> E, keyOf: E -> K)
    requires forall k :: keyOf(f(k)) == k
    ensures var m := MapSeq(Keys(s, key), f);
      DistinctBy(m, keyOf) && |m| <= |s| &&
      (forall e :: e in m ==> e == f(keyOf(e)) && Having(s, key, keyOf(e)) != []) &&
      Image(m, keyOf) == Image(s, key)
  {
    var ks := Keys(s, key);
    var m := MapSeq(ks, f);
    forall i, j | 0 <= i < j < |m| ensures keyOf(m[i]) != keyOf(m[j]) {
      assert keyOf(m[i]) == ks[i] && keyOf(m[j]) == ks[j];
    }
    forall e | e in m ensures e == f(keyOf(e)) && keyOf(e) in ks {
      var i :| 0 <= i < |m| && m[i] == e;
      assert keyOf(e) == ks[i];
    }
    var entryKeys := Image(m, keyOf);
    var inputKeys := Image(s, key);
    forall k | k in entryKeys ensures k in inputKeys {
      var e :| e in m && keyOf(e) == k;
      var x := Having(s, key, k)[0];
      assert x in Having(s, key, k);
    }
    forall k | k in inputKeys ensures k in entryKeys {
      var x :| x in s && key(x) == k;
      var i :| 0 <= i < |ks| && ks[i] == k;
      assert m[i] in m && keyOf(m[i]) == k;
    }
  }

  /** The same pipeline followed by a `$sort` on `rank`. */
  lemma GroupTable<T(!new), K(!new), E>(s: seq<T>, key: T -> K, f: K -> E, keyOf: E -> K, rank: E -> int)
    requires forall k :: keyOf(f(k)) == k
    ensures var r := SortBy(MapSeq(Keys(s, key), f), rank);
      SortedBy(r, rank) && DistinctBy(r, keyOf) && |r| <= |s| &&
      (forall e :: e in r ==> e == f(keyOf(e)) && Having(s, key, keyOf(e)) != []) &&
      Image(r, keyOf) == Image(s, key)
  {
    var m := MapSeq(Keys(s, key), f);
    var r := SortBy(m, rank);
    GroupList(s, key, f, keyOf);
    SortMembers(m, rank);
    SortKeepsDistinctBy(m, rank, keyOf);
    forall e | e in r ensures e in m {
      assert e in multiset(r);
    }
    assert Image(r, keyOf) == Image(m, keyOf);
  }

  /** Group sizes summed over the entries made for `ks`. */
  lemma {:induction false} SumOverKeys<T(!new), K(!new), E>(ks: seq<K>, s: seq<T>, key: T -> K, f: K -> E, size: E -> int)
    requires forall k :: size(f(k)) == |Having(s, key, k)|
    ensures Sum(MapSeq(ks, f), size) == CountOver(ks, s, key)
  {
    if ks != [] {
      var init := ks[..|ks| - 1];
      assert MapSeq(ks, f)[..|ks| - 1] == MapSeq(init, f);
      SumOverKeys(init, s, key, f, size);
    }
  }

  /** Distinct keys that cover every element count every element once. */
  lemma {:induction false} CoverPartition<T(!new), K(!new)>(ks: seq<K>, s: seq<T>, key: T -> K)
    requires Distinct(ks)
    requires forall x :: x in s ==> key(x) in ks
    ensures CountOver(ks, s, key) == |s|
  {
    if s == [] {
      CountOverEmpty(ks, key);
    } else {
      var init := s[..|s| - 1];
      assert s == init + [s[|s| - 1]];
      assert forall x :: x in init ==> x in s;
      CoverPartition(ks, init, key);
      CountOverSnoc(ks, init, s[|s| - 1], key);
    }
  }

  lemma {:induction false} CountOverEmpty<T(!new), K>(ks: seq<K>, key: T -> K)
    ensures CountOver(ks, [], key) == 0
  {
    if ks != [] {
      CountOverEmpty(ks[..|ks| - 1], key);
    }
  }

  /** Entries with pairwise different keys have as many keys as entries. */
  lemma {:induction false} DistinctKeysCard<E, K>(s: seq<E>, keyOf: E -> K)
    requires DistinctBy(s, keyOf)
    ensures |Image(s, keyOf)| == |s|
  {
    if s != [] {
      var init := s[..|s| - 1];
      assert s == init + [s[|s| - 1]];
      DistinctKeysCard(init, keyOf);
      assert keyOf(s[|s| - 1]) !in Image(init, keyOf);
      assert Image(s, keyOf) == Image(init, keyOf) + {keyOf(s[|s| - 1])};
    }
  }

  lemma {:induction false} SumConcat<T>(a: seq<T>, b: seq<T>, f: T -> int)
    ensures Sum(a + b, f) == Sum(a, f) + Sum(b, f)
    decreases |b|
  {
    if b == [] {
      assert a + b == a;
    } else {
      var init := b[..|b| - 1];
      assert (a + b)[..|a + b| - 1] == a + init;
      SumConcat(a, init, f);
    }
  }

  /** A sum does not depend on the order of the elements. */
  lemma {:induction false} SumPermutation<T>(a: seq<T>, b: seq<T>, f: T -> int)
    requires multiset(a) == multiset(b)
    ensures Sum(a, f) == Sum(b, f)
    decreases |a|
  {
    if a == [] {
      assert |b| == |multiset(b)| == 0;
    } else {
      var x := a[|a| - 1];
      var init := a[..|a| - 1];
      assert a == init + [x];
      assert x in multiset(b);
      var j :| 0 <= j < |b| && b[j] == x;
      var rest := b[..j] + b[j + 1..];
      RemoveLast(a, b, j);
      SumPermutation(init, rest, f);
      SumRemoveAt(b, j, f);
    }
  }

  /** Taking the same element out of two permutations of each other leaves
      two permutations of each other. */
  lemma RemoveLast<T>(a: seq<T>, b: seq<T>, j: int)
    requires multiset(a) == multiset(b) && a != []
    requires 0 <= j < |b| && b[j] == a[|a| - 1]
    ensures multiset(b[..j] + b[j + 1..]) == multiset(a[..|a| - 1])
  {
    var x := b[j];
    var init := a[..|a| - 1];
    var rest := b[..j] + b[j + 1..];
    assert a == init + [x];
    assert b == b[..j] + [x] + b[j + 1..];
    assert multiset(rest) == multiset(b[..j]) + multiset(b[j + 1..]);
    assert multiset(b) == multiset(b[..j]) + multiset{x} + multiset(b[j + 1..]);
    assert multiset(a) == multiset(init) + multiset{x};
    assert multiset(init) + multiset{x} == multiset(rest) + multiset{x};
    forall y ensures multiset(rest)[y] == multiset(init)[y] {
      assert (multiset(init) + multiset{x})[y] == (multiset(rest) + multiset{x})[y];
    }
  }

  /** A sum is the sum without one element plus that element's value. */
  lemma SumRemoveAt<T>(b: seq<T>, j: int, f: T -> int)
    requires 0 <= j < |b|
    ensures Sum(b, f) == Sum(b[..j] + b[j + 1..], f) + f(b[j])
  {
    var x, front, back := b[j], b[..j], b[j + 1..];
    var single := [x];
    var left := front + single;
    assert Sum(left, f) == Sum(front, f) + f(x) by {
      assert single[..0] == [];
      SumConcat(front, single, f);
    }
    assert Sum(b, f) == Sum(left, f) + Sum(back, f) by {
      assert b == left + back;
      SumConcat(left, back, f);
    }
    SumConcat(front, back, f);
  }

  /** Leaving out elements that contribute nothing does not change a sum. */
  lemma {:induction false} SumFilterZero<T(!new)>(s: seq<T>, p: T -> bool, f: T -> int)
    requires forall x :: x in s && !p(x) ==> f(x) == 0
    ensures Sum(Filter(s, p), f) == Sum(s, f)
  {
    if s != [] {
      var init := s[..|s| - 1];
      var x := s[|s| - 1];
      assert forall y :: y in init ==> y in s;
      SumFilterZero(init, p, f);
      if p(x) {
        var r := Filter(init, p) + [x];
        assert r[..|r| - 1] == Filter(init, p);
      } else {
        assert x in s;
      }
    }
  }

  /** A filter by a weaker condition keeps at least as many elements. */
  lemma {:induction false} FilterWeaker<T(!new)>(s: seq<T>, p: T -> bool, q: T -> bool)
    requires forall x :: x in s && p(x) ==> q(x)
    ensures |Filter(s, p)| <= |Filter(s, q)|
  {
    if s != [] {
      var init := s[..|s| - 1];
      assert forall y :: y in init ==> y in s;
      assert s[|s| - 1] in s;
      FilterWeaker(init, p, q);
    }
  }

  /** With non-negative terms, each term is at most the sum. */
  lemma {:induction false} SumBoundsTerm<T>(s: seq<T>, f: T -> int, i: int)
    requires forall x :: x in s ==> f(x) >= 0
    requires 0 <= i < |s|
    ensures f(s[i]) <= Sum(s, f)
  {
    var init := s[..|s| - 1];
    assert forall y :: y in init ==> y in s;
    SumNonNegative(init, f);
    if i < |s| - 1 {
      assert init[i] == s[i];
      SumBoundsTerm(init, f, i);
    }
  }
}

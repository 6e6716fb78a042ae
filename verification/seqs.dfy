/**
 * Sequence utilities shared by the services: the LINQ operators the source
 * uses (`Where`, `Count`, `Any`, `IndexOf`, `Distinct`, `FirstOrDefault`,
 * `OrderByDescending`) written as functions on `seq`, with the facts the
 * services' proofs rely on.
 */
module Seqs {

  /** No element occurs twice. */
  predicate NoDuplicates<T(==)>(xs: seq<T>) {
    forall i, j :: 0 <= i < j < |xs| ==> xs[i] != xs[j]
  }

  /** LINQ `Where`: the elements satisfying `p`, in their original order. */
  function Filter<T(!new)>(xs: seq<T>, p: T -> bool): (r: seq<T>)
    ensures |r| <= |xs|
    ensures forall x :: x in r <==> x in xs && p(x)
    decreases |xs|
  {
    if xs == [] then []
    else
      assert xs == xs[..|xs| - 1] + [xs[|xs| - 1]];
      Filter(xs[..|xs| - 1], p) + (if p(xs[|xs| - 1]) then [xs[|xs| - 1]] else [])
  }

  /** Filtering keeps each element at most as often as it occurs. */
  lemma {:induction false} FilterSubMultiset<T(!new)>(xs: seq<T>, p: T -> bool)
    ensures multiset(Filter(xs, p)) <= multiset(xs)
    decreases |xs|
  {
    if xs != [] {
      var init := xs[..|xs| - 1];
      FilterSubMultiset(init, p);
      assert xs == init + [xs[|xs| - 1]];
    }
  }

  lemma {:induction false} FilterAppend<T(!new)>(a: seq<T>, b: seq<T>, p: T -> bool)
    ensures Filter(a + b, p) == Filter(a, p) + Filter(b, p)
    decreases |b|
  {
    if b != [] {
      var b' := b[..|b| - 1];
      assert (a + b)[..|a + b| - 1] == a + b';
      FilterAppend(a, b', p);
    } else {
      assert a + b == a;
    }
  }

  lemma {:induction false} FilterAll<T(!new)>(xs: seq<T>, p: T -> bool)
    requires forall x :: x in xs ==> p(x)
    ensures Filter(xs, p) == xs
    decreases |xs|
  {
    if xs != [] {
      var init, last := xs[..|xs| - 1], xs[|xs| - 1];
      assert xs == init + [last];
      assert forall x :: x in init ==> x in xs;
      FilterAll(init, p);
      assert p(last);
    }
  }

  /** Filtering by two predicates in turn is filtering by their conjunction. */
  lemma {:induction false} FilterFilter<T(!new)>(xs: seq<T>, p: T -> bool, q: T -> bool, pq: T -> bool)
    requires forall x :: pq(x) == (p(x) && q(x))
    ensures Filter(Filter(xs, p), q) == Filter(xs, pq)
    decreases |xs|
  {
    if xs != [] {
      var init, last := xs[..|xs| - 1], xs[|xs| - 1];
      FilterFilter(init, p, q, pq);
      assert xs == init + [last];
      FilterAppend(init, [last], p);
      FilterAppend(init, [last], pq);
      FilterAppend(Filter(init, p), Filter([last], p), q);
      assert Filter([last], p) == if p(last) then [last] else [];
      assert Filter([last], pq) == if pq(last) then [last] else [];
    }
  }

  /** LINQ `Select(key)`: the key of each element, in order. */
  function Keys<T, K>(xs: seq<T>, key: T -> K): (r: seq<K>)
    ensures |r| == |xs| && forall i :: 0 <= i < |xs| ==> r[i] == key(xs[i])
  {
    seq(|xs|, i requires 0 <= i < |xs| => key(xs[i]))
  }

  lemma KeysPrefix<T, K>(xs: seq<T>, key: T -> K, k: nat)
    requires k < |xs|
    ensures Keys(xs[..k + 1], key) == Keys(xs[..k], key) + [key(xs[k])]
  {
  }

  /** Filtering keeps distinct keys distinct, because it keeps a subsequence. */
  lemma {:induction false} FilterKeysDistinct<T(!new), K>(xs: seq<T>, p: T -> bool, key: T -> K)
    requires forall i, j :: 0 <= i < j < |xs| ==> key(xs[i]) != key(xs[j])
    ensures forall i, j :: 0 <= i < j < |Filter(xs, p)| ==> key(Filter(xs, p)[i]) != key(Filter(xs, p)[j])
    decreases |xs|
  {
    if xs != [] {
      var init := xs[..|xs| - 1];
      var rest := Filter(init, p);
      var r := Filter(xs, p);
      assert forall k :: 0 <= k < |init| ==> init[k] == xs[k];
      FilterKeysDistinct(init, p, key);
      forall i, j | 0 <= i < j < |r| ensures key(r[i]) != key(r[j]) {
        assert r[i] == rest[i];
        if j < |rest| {
          assert r[j] == rest[j];
          assert key(rest[i]) != key(rest[j]);
        } else {
          assert r[j] == xs[|xs| - 1];
          assert rest[i] in rest;
          var k :| 0 <= k < |init| && init[k] == rest[i];
          assert init[k] == xs[k];
          assert key(r[i]) == key(xs[k]) && key(r[j]) == key(xs[|xs| - 1]);
        }
      }
    }
  }

  /** Filters by predicates that agree everywhere give the same result. */
  lemma {:induction false} FilterExt<T(!new)>(xs: seq<T>, p: T -> bool, q: T -> bool)
    requires forall x :: p(x) == q(x)
    ensures Filter(xs, p) == Filter(xs, q)
    decreases |xs|
  {
    if xs != [] {
      FilterExt(xs[..|xs| - 1], p, q);
    }
  }

  /** LINQ `Count(predicate)`. */
  function Count<T>(xs: seq<T>, p: T -> bool): (n: nat)
    ensures n <= |xs|
    ensures n == 0 <==> forall x :: x in xs ==> !p(x)
    decreases |xs|
  {
    if xs == [] then 0
    else
      assert xs == xs[..|xs| - 1] + [xs[|xs| - 1]];
      Count(xs[..|xs| - 1], p) + (if p(xs[|xs| - 1]) then 1 else 0)
  }

  lemma {:induction false} CountAppend<T>(a: seq<T>, b: seq<T>, p: T -> bool)
    ensures Count(a + b, p) == Count(a, p) + Count(b, p)
    decreases |b|
  {
    if b != [] {
      var b' := b[..|b| - 1];
      assert (a + b)[..|a + b| - 1] == a + b';
      CountAppend(a, b', p);
    } else {
      assert a + b == a;
    }
  }

  lemma {:induction false} CountAll<T>(xs: seq<T>, p: T -> bool)
    requires forall i :: 0 <= i < |xs| ==> p(xs[i])
    ensures Count(xs, p) == |xs|
    decreases |xs|
  {
    if xs != [] {
      CountAll(xs[..|xs| - 1], p);
    }
  }

  /** `List.IndexOf`: the first index of `x`, or -1 when `x` is absent. */
  function IndexOf<T(==)>(xs: seq<T>, x: T): (i: int)
    ensures -1 <= i < |xs|
    ensures i == -1 <==> x !in xs
    ensures 0 <= i ==> xs[i] == x && x !in xs[..i]
  {
    if xs == [] then -1
    else if xs[0] == x then 0
    else
      var j := IndexOf(xs[1..], x);
      assert xs == [xs[0]] + xs[1..];
      if j == -1 then -1
      else
        assert xs[..j + 1] == [xs[0]] + xs[1..][..j];
        j + 1
  }

  /** `FirstOrDefault(predicate)` as an index: the first index satisfying `p`, or -1. */
  function FindIndex<T>(xs: seq<T>, p: T -> bool): (i: int)
    ensures -1 <= i < |xs|
    ensures i == -1 <==> forall x :: x in xs ==> !p(x)
    ensures 0 <= i ==> p(xs[i]) && forall j :: 0 <= j < i ==> !p(xs[j])
  {
    if xs == [] then -1
    else if p(xs[0]) then 0
    else
      var j := FindIndex(xs[1..], p);
      assert xs == [xs[0]] + xs[1..];
      if j == -1 then -1 else j + 1
  }

  /** Overwriting the first match with another match keeps it the first match. */
  lemma FindIndexAfterUpdate<T>(xs: seq<T>, i: nat, y: T, p: T -> bool)
    requires i < |xs| && FindIndex(xs, p) == i && p(y)
    ensures FindIndex(xs[i := y], p) == i
  {
    var ys := xs[i := y];
    forall j | 0 <= j < i ensures !p(ys[j]) {
      assert ys[j] == xs[j];
    }
    assert p(ys[i]);
  }

  /** The sequence without the element at index `i`. */
  function RemoveAt<T>(xs: seq<T>, i: nat): (r: seq<T>)
    requires i < |xs|
    ensures |r| == |xs| - 1
    ensures multiset(r) == multiset(xs) - multiset{xs[i]}
  {
    assert xs == xs[..i] + [xs[i]] + xs[i + 1..];
    xs[..i] + xs[i + 1..]
  }

  /** Removing index `i` keeps every other element and adds none. */
  lemma RemoveAtMembers<T>(xs: seq<T>, i: nat)
    requires i < |xs|
    ensures forall j :: 0 <= j < |xs| && j != i ==> xs[j] in RemoveAt(xs, i)
    ensures forall x :: x in RemoveAt(xs, i) ==> exists j :: 0 <= j < |xs| && j != i && xs[j] == x
  {
    var r := RemoveAt(xs, i);
    forall j | 0 <= j < |xs| && j != i ensures xs[j] in r {
      if j < i { assert r[j] == xs[j]; } else { assert r[j - 1] == xs[j]; }
    }
    forall x | x in r ensures exists j :: 0 <= j < |xs| && j != i && xs[j] == x {
      var k :| 0 <= k < |r| && r[k] == x;
      if k < i { assert xs[k] == x; } else { assert xs[k + 1] == x; }
    }
  }

  /** The elements whose `key` is not in `ks` (the rows a `RemoveRange` over a foreign key leaves). */
  function Without<T(!new), K>(xs: seq<T>, key: T -> K, ks: set<K>): (r: seq<T>)
    ensures |r| <= |xs|
    ensures forall x :: x in r <==> x in xs && key(x) !in ks
    decreases |xs|
  {
    if xs == [] then []
    else Without(xs[..|xs| - 1], key, ks) + (if key(xs[|xs| - 1]) in ks then [] else [xs[|xs| - 1]])
  }

  lemma {:induction false} WithoutNothing<T(!new), K>(xs: seq<T>, key: T -> K)
    ensures Without(xs, key, {}) == xs
    decreases |xs|
  {
    if xs != [] {
      WithoutNothing(xs[..|xs| - 1], key);
      assert xs == xs[..|xs| - 1] + [xs[|xs| - 1]];
    }
  }

  /** Removing in two rounds removes exactly what one round with both key sets removes. */
  lemma {:induction false} WithoutTwice<T(!new), K>(xs: seq<T>, key: T -> K, a: set<K>, b: set<K>)
    ensures Without(Without(xs, key, a), key, b) == Without(xs, key, a + b)
    decreases |xs|
  {
    if xs != [] {
      var init, last := xs[..|xs| - 1], xs[|xs| - 1];
      WithoutTwice(init, key, a, b);
      var w := Without(init, key, a);
      if key(last) !in a {
        assert Without(xs, key, a) == w + [last];
        assert (w + [last])[..|w + [last]| - 1] == w;
      } else {
        assert Without(xs, key, a) == w;
      }
    }
  }

  /** Removing the elements keyed `ks[0]`, then those keyed `ks[1]`, and so on. */
  function WithoutEach<T(!new), K(==)>(xs: seq<T>, key: T -> K, ks: seq<K>): seq<T>
    decreases |ks|
  {
    if |ks| == 0 then xs
    else Without(WithoutEach(xs, key, ks[..|ks| - 1]), key, {ks[|ks| - 1]})
  }

  /** One more key removed in turn. */
  lemma WithoutEachStep<T(!new), K>(xs: seq<T>, key: T -> K, ks: seq<K>, k: K)
    ensures WithoutEach(xs, key, ks + [k]) == Without(WithoutEach(xs, key, ks), key, {k})
  {
    assert (ks + [k])[..|ks|] == ks;
  }

  /** Removing keys one at a time removes exactly what one removal of all of them does. */
  lemma {:induction false} WithoutEachAtOnce<T(!new), K>(xs: seq<T>, key: T -> K, ks: seq<K>, all: set<K>)
    requires forall k :: k in all <==> k in ks
    ensures WithoutEach(xs, key, ks) == Without(xs, key, all)
    decreases |ks|
  {
    if |ks| == 0 {
      assert all == {};
      WithoutNothing(xs, key);
    } else {
      var init, last := ks[..|ks| - 1], ks[|ks| - 1];
      var before := set k | k in init;
      assert all == before + {last} by {
        assert ks == init + [last];
      }
      WithoutEachStep(xs, key, init, last);
      WithoutEachAtOnce(xs, key, init, before);
      WithoutTwice(xs, key, before, {last});
      assert ks == init + [last];
    }
  }

  /** LINQ `Distinct`: the first occurrence of every element, in order. */
  function Distinct<T(==,!new)>(xs: seq<T>): (r: seq<T>)
    ensures NoDuplicates(r)
    ensures forall x :: x in r <==> x in xs
    decreases |xs|
  {
    if xs == [] then []
    else
      var d := Distinct(xs[..|xs| - 1]);
      assert xs == xs[..|xs| - 1] + [xs[|xs| - 1]];
      if xs[|xs| - 1] in d then d else d + [xs[|xs| - 1]]
  }

  // ---------------------------------------------------------------------
  // Stable sorting (LINQ `OrderByDescending`; `OrderBy` is the same with a negated key)
  // ---------------------------------------------------------------------

  /** Non-increasing in `key`. */
  predicate SortedDesc<T>(xs: seq<T>, key: T -> int) {
    forall i, j :: 0 <= i < j < |xs| ==> key(xs[i]) >= key(xs[j])
  }

  function HasKey<T>(key: T -> int, k: int): T -> bool {
    x => key(x) == k
  }

  /** The elements whose key equals `k`, in their order; a sort is stable when it keeps these. */
  function WithKey<T(!new)>(xs: seq<T>, key: T -> int, k: int): seq<T> {
    Filter(xs, HasKey(key, k))
  }

  /** Inserts `x` after every element whose key is at least `key(x)`. */
  function Insert<T>(s: seq<T>, x: T, key: T -> int): (r: seq<T>)
    ensures |r| == |s| + 1
  {
    if s == [] then [x]
    else if key(s[0]) < key(x) then [x] + s
    else [s[0]] + Insert(s[1..], x, key)
  }

  /** Stable insertion sort by descending key. */
  function SortByDescending<T>(xs: seq<T>, key: T -> int): (r: seq<T>)
    ensures |r| == |xs|
    decreases |xs|
  {
    if xs == [] then []
    else Insert(SortByDescending(xs[..|xs| - 1], key), xs[|xs| - 1], key)
  }

  lemma {:induction false} InsertBounded<T>(s: seq<T>, x: T, key: T -> int, b: int)
    requires forall i :: 0 <= i < |s| ==> key(s[i]) <= b
    requires key(x) <= b
    ensures forall i :: 0 <= i < |Insert(s, x, key)| ==> key(Insert(s, x, key)[i]) <= b
  {
    if s != [] && key(s[0]) >= key(x) {
      var tail := s[1..];
      assert forall i :: 0 <= i < |tail| ==> tail[i] == s[i + 1];
      InsertBounded(tail, x, key, b);
    }
  }

  lemma {:induction false} InsertSorted<T>(s: seq<T>, x: T, key: T -> int)
    requires SortedDesc(s, key)
    ensures SortedDesc(Insert(s, x, key), key)
  {
    if s == [] {
      assert Insert(s, x, key) == [x];
    } else if key(s[0]) < key(x) {
      InsertSortedAtFront(s, x, key);
    } else {
      var tail := s[1..];
      assert SortedDesc(tail, key) by {
        forall i, j | 0 <= i < j < |tail| ensures key(tail[i]) >= key(tail[j]) {
          assert tail[i] == s[i + 1] && tail[j] == s[j + 1];
        }
      }
      InsertSorted(tail, x, key);
      InsertSortedBehindHead(s, x, key);
    }
  }

  lemma InsertSortedAtFront<T>(s: seq<T>, x: T, key: T -> int)
    requires SortedDesc(s, key)
    requires s != [] && key(s[0]) < key(x)
    ensures SortedDesc(Insert(s, x, key), key)
  {
    var r := [x] + s;
    assert Insert(s, x, key) == r;
    forall i, j | 0 <= i < j < |r| ensures key(r[i]) >= key(r[j]) {
      if i > 0 {
        assert r[i] == s[i - 1] && r[j] == s[j - 1];
      } else {
        assert r[j] == s[j - 1];
        assert key(s[0]) >= key(s[j - 1]);
      }
    }
  }

  lemma InsertSortedBehindHead<T>(s: seq<T>, x: T, key: T -> int)
    requires SortedDesc(s, key)
    requires s != [] && key(s[0]) >= key(x)
    requires SortedDesc(Insert(s[1..], x, key), key)
    ensures SortedDesc(Insert(s, x, key), key)
  {
    var tail := s[1..];
    assert forall i :: 0 <= i < |tail| ==> key(tail[i]) <= key(s[0]) by {
      forall i | 0 <= i < |tail| ensures key(tail[i]) <= key(s[0]) {
        assert tail[i] == s[i + 1];
      }
    }
    InsertBounded(tail, x, key, key(s[0]));
    var ins := Insert(tail, x, key);
    var r := [s[0]] + ins;
    assert Insert(s, x, key) == r;
    forall i, j | 0 <= i < j < |r| ensures key(r[i]) >= key(r[j]) {
      assert r[j] == ins[j - 1];
      if i > 0 {
        assert r[i] == ins[i - 1];
        assert key(ins[i - 1]) >= key(ins[j - 1]);
      } else {
        assert key(ins[j - 1]) <= key(s[0]);
      }
    }
  }

  lemma {:induction false} InsertPermutes<T>(s: seq<T>, x: T, key: T -> int)
    ensures multiset(Insert(s, x, key)) == multiset(s) + multiset{x}
  {
    if s != [] && key(s[0]) >= key(x) {
      InsertPermutes(s[1..], x, key);
      assert s == [s[0]] + s[1..];
    }
  }

  lemma {:induction false} FilterNone<T(!new)>(xs: seq<T>, p: T -> bool)
    requires forall i :: 0 <= i < |xs| ==> !p(xs[i])
    ensures Filter(xs, p) == []
    decreases |xs|
  {
    if xs != [] {
      FilterNone(xs[..|xs| - 1], p);
    }
  }

  lemma {:induction false} InsertStable<T(!new)>(s: seq<T>, x: T, key: T -> int, k: int)
    requires SortedDesc(s, key)
    ensures WithKey(Insert(s, x, key), key, k) == WithKey(s, key, k) + WithKey([x], key, k)
  {
    if s == [] {
      assert Insert(s, x, key) == [x];
    } else if key(s[0]) < key(x) {
      InsertStableAtFront(s, x, key, k);
    } else {
      var tail := s[1..];
      SortedTail(s, key);
      InsertStable(tail, x, key, k);
      InsertStableBehindHead(s, x, key, k);
    }
  }

  lemma SortedTail<T>(s: seq<T>, key: T -> int)
    requires s != [] && SortedDesc(s, key)
    ensures SortedDesc(s[1..], key)
  {
    var tail := s[1..];
    forall i, j | 0 <= i < j < |tail| ensures key(tail[i]) >= key(tail[j]) {
      assert tail[i] == s[i + 1] && tail[j] == s[j + 1];
    }
  }

  lemma InsertStableBehindHead<T(!new)>(s: seq<T>, x: T, key: T -> int, k: int)
    requires s != [] && key(s[0]) >= key(x)
    requires WithKey(Insert(s[1..], x, key), key, k) == WithKey(s[1..], key, k) + WithKey([x], key, k)
    ensures WithKey(Insert(s, x, key), key, k) == WithKey(s, key, k) + WithKey([x], key, k)
  {
    var tail := s[1..];
    var p := HasKey(key, k);
    var ins := Insert(tail, x, key);
    var h := Filter([s[0]], p);
    assert Filter(s, p) == h + Filter(tail, p) by {
      assert s == [s[0]] + tail;
      FilterAppend([s[0]], tail, p);
    }
    assert Filter(Insert(s, x, key), p) == h + Filter(ins, p) by {
      assert Insert(s, x, key) == [s[0]] + ins;
      FilterAppend([s[0]], ins, p);
    }
  }

  lemma InsertStableAtFront<T(!new)>(s: seq<T>, x: T, key: T -> int, k: int)
    requires SortedDesc(s, key)
    requires s != [] && key(s[0]) < key(x)
    ensures WithKey(Insert(s, x, key), key, k) == WithKey(s, key, k) + WithKey([x], key, k)
  {
    var p := HasKey(key, k);
    assert Insert(s, x, key) == [x] + s;
    FilterAppend([x], s, p);
    if key(x) == k {
      forall i | 0 <= i < |s| ensures !p(s[i]) {
        assert key(s[i]) <= key(s[0]);
      }
      FilterNone(s, p);
    } else {
      FilterNone([x], p);
    }
  }

  /** The result of the sort is ordered by non-increasing key. */
  lemma {:induction false} SortSorted<T>(xs: seq<T>, key: T -> int)
    ensures SortedDesc(SortByDescending(xs, key), key)
    decreases |xs|
  {
    if xs != [] {
      SortSorted(xs[..|xs| - 1], key);
      InsertSorted(SortByDescending(xs[..|xs| - 1], key), xs[|xs| - 1], key);
    }
  }

  /** The result of the sort is a permutation of its input. */
  lemma {:induction false} SortPermutes<T>(xs: seq<T>, key: T -> int)
    ensures multiset(SortByDescending(xs, key)) == multiset(xs)
    decreases |xs|
  {
    if xs != [] {
      SortPermutes(xs[..|xs| - 1], key);
      InsertPermutes(SortByDescending(xs[..|xs| - 1], key), xs[|xs| - 1], key);
      assert xs == xs[..|xs| - 1] + [xs[|xs| - 1]];
    }
  }

  /** The sort is stable: elements with equal keys keep their relative order. */
  lemma {:induction false} SortStable<T(!new)>(xs: seq<T>, key: T -> int, k: int)
    ensures WithKey(SortByDescending(xs, key), key, k) == WithKey(xs, key, k)
    decreases |xs|
  {
    if xs != [] {
      var init := xs[..|xs| - 1];
      SortSorted(init, key);
      SortStable(init, key, k);
      InsertStable(SortByDescending(init, key), xs[|xs| - 1], key, k);
      assert xs == init + [xs[|xs| - 1]];
      FilterAppend(init, [xs[|xs| - 1]], x => key(x) == k);
    }
  }

  /** A permutation of a sequence without duplicates has no duplicates. */
  lemma NoDuplicatesPermutation<T>(xs: seq<T>, ys: seq<T>)
    requires multiset(ys) <= multiset(xs)
    requires NoDuplicates(xs)
    ensures NoDuplicates(ys)
  {
    forall i, j | 0 <= i < j < |ys| ensures ys[i] != ys[j] {
      if ys[i] == ys[j] {
        var y := ys[i];
        assert ys == ys[..i] + [y] + ys[i + 1..j] + [y] + ys[j + 1..];
        assert multiset(ys)[y] >= 2;
        MultisetOccurrences(xs, y);
      }
    }
  }

  lemma {:induction false} MultisetOccurrences<T>(xs: seq<T>, y: T)
    requires NoDuplicates(xs)
    ensures multiset(xs)[y] <= 1
    decreases |xs|
  {
    if xs != [] {
      var init := xs[..|xs| - 1];
      assert xs == init + [xs[|xs| - 1]];
      assert NoDuplicates(init);
      MultisetOccurrences(init, y);
      if xs[|xs| - 1] == y {
        assert y !in init;
      }
    }
  }

  lemma CountSingleton<T>(x: T, p: T -> bool)
    ensures Count([x], p) == if p(x) then 1 else 0
  {
    assert [x][..0] == [];
  }

  /** Removing index `i` lowers a count by one exactly when the removed element is counted. */
  lemma CountRemoveAt<T>(xs: seq<T>, i: nat, p: T -> bool)
    requires i < |xs|
    ensures Count(RemoveAt(xs, i), p) == Count(xs, p) - (if p(xs[i]) then 1 else 0)
  {
    CountAroundIndex(xs, i, p);
    CountSingleton(xs[i], p);
  }

  lemma CountAroundIndex<T>(xs: seq<T>, i: nat, p: T -> bool)
    requires i < |xs|
    ensures Count(xs, p) == Count(xs[..i], p) + Count([xs[i]], p) + Count(xs[i + 1..], p)
    ensures Count(RemoveAt(xs, i), p) == Count(xs[..i], p) + Count(xs[i + 1..], p)
  {
    var a, x, b := xs[..i], xs[i], xs[i + 1..];
    assert xs == a + ([x] + b);
    CountAppend(a, [x] + b, p);
    CountAppend([x], b, p);
    assert RemoveAt(xs, i) == a + b;
    CountAppend(a, b, p);
  }

  /** Appending an element the sequence lacks keeps it free of duplicates. */
  lemma NoDuplicatesAppend<T>(xs: seq<T>, x: T)
    requires NoDuplicates(xs) && x !in xs
    ensures NoDuplicates(xs + [x])
  {
    var r := xs + [x];
    forall i, j | 0 <= i < j < |r| ensures r[i] != r[j] {
      assert r[i] == xs[i];
      if j < |xs| { assert r[j] == xs[j]; }
    }
  }

  /** When nothing matches, an appended match is found at the end. */
  lemma FindIndexAppend<T>(xs: seq<T>, p: T -> bool, x: T)
    requires FindIndex(xs, p) < 0 && p(x)
    ensures FindIndex(xs + [x], p) == |xs|
  {
    var r := xs + [x];
    forall j | 0 <= j < |xs| ensures !p(r[j]) {
      assert r[j] == xs[j] && xs[j] in xs;
    }
    assert p(r[|xs|]);
  }

  /**
   * In a sequence without duplicates whose matches all equal `xs[i]`,
   * removing index `i` leaves no match.
   */
  lemma RemoveOnlyMatch<T>(xs: seq<T>, i: nat, p: T -> bool)
    requires i < |xs| && NoDuplicates(xs)
    requires forall x :: x in xs && p(x) ==> x == xs[i]
    ensures forall x :: x in RemoveAt(xs, i) ==> !p(x)
  {
    RemoveAtMembers(xs, i);
    forall x | x in RemoveAt(xs, i) ensures !p(x) {
      var j :| 0 <= j < |xs| && j != i && xs[j] == x;
      assert xs[j] != xs[i];
    }
  }
}

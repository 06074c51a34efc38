/** Stable sorting by any total order, and what a sort cannot change. */
module Sorting {
  function Insert<T>(leq: (T, T) -> bool, x: T, s: seq<T>): (r: seq<T>)
    ensures |r| == |s| + 1
  {
    if s == [] || leq(x, s[0]) then [x] + s else [s[0]] + Insert(leq, x, s[1..])
  }

  function Sorted<T>(leq: (T, T) -> bool, s: seq<T>): (r: seq<T>)
    ensures |r| == |s|
  {
    if s == [] then [] else Insert(leq, s[0], Sorted(leq, s[1..]))
  }

  ghost predicate TotalOrder<T(!new)>(leq: (T, T) -> bool) {
    && (forall a, b :: leq(a, b) || leq(b, a))
    && (forall a, b, c :: leq(a, b) && leq(b, c) ==> leq(a, c))
  }

  /** Every element is related to every later one; with an order, the sequence is sorted. */
  ghost predicate Pairwise<T>(rel: (T, T) -> bool, s: seq<T>) {
    forall i, j :: 0 <= i < j < |s| ==> rel(s[i], s[j])
  }

  ghost predicate ToAll<T>(rel: (T, T) -> bool, x: T, s: seq<T>) {
    forall i :: 0 <= i < |s| ==> rel(x, s[i])
  }

  lemma PairwiseCons<T>(rel: (T, T) -> bool, x: T, s: seq<T>)
    ensures Pairwise(rel, [x] + s) <==> Pairwise(rel, s) && ToAll(rel, x, s)
  {
    var all := [x] + s;
    assert forall i :: 0 <= i < |s| ==> s[i] == all[i + 1];
    if Pairwise(rel, all) {
      forall i | 0 <= i < |s| ensures rel(x, s[i]) { assert rel(all[0], all[i + 1]); }
      forall i, j | 0 <= i < j < |s| ensures rel(s[i], s[j]) {
        assert rel(all[i + 1], all[j + 1]);
      }
    }
    if Pairwise(rel, s) && ToAll(rel, x, s) {
      forall i, j | 0 <= i < j < |all| ensures rel(all[i], all[j]) {
        assert all[j] == s[j - 1];
        if i > 0 { assert all[i] == s[i - 1]; }
      }
    }
  }

  lemma ToAllMembers<T>(rel: (T, T) -> bool, x: T, s: seq<T>)
    ensures ToAll(rel, x, s) <==> forall y <- s :: rel(x, y)
  {
    assert forall i :: 0 <= i < |s| ==> s[i] in s;
  }

  lemma ToAllCons<T>(rel: (T, T) -> bool, y: T, x: T, s: seq<T>)
    ensures ToAll(rel, y, [x] + s) <==> rel(y, x) && ToAll(rel, y, s)
  {
    var all := [x] + s;
    assert all[0] == x && forall i :: 0 <= i < |s| ==> s[i] == all[i + 1];
  }

  lemma {:induction false} ToAllInsert<T>(
    rel: (T, T) -> bool, y: T, leq: (T, T) -> bool, x: T, s: seq<T>)
    ensures ToAll(rel, y, Insert(leq, x, s)) <==> rel(y, x) && ToAll(rel, y, s)
  {
    ToAllCons(rel, y, x, s);
    if s != [] && !leq(x, s[0]) {
      ToAllInsert(rel, y, leq, x, s[1..]);
      ToAllCons(rel, y, s[0], Insert(leq, x, s[1..]));
      ToAllCons(rel, y, s[0], s[1..]);
      assert s == [s[0]] + s[1..];
    }
  }

  lemma {:induction false} InsertKeepsOrder<T(!new)>(leq: (T, T) -> bool, x: T, s: seq<T>)
    requires TotalOrder(leq) && Pairwise(leq, s)
    ensures Pairwise(leq, Insert(leq, x, s))
  {
    if s == [] || leq(x, s[0]) {
      assert forall i :: 0 < i < |s| ==> leq(s[0], s[i]);
      PairwiseCons(leq, x, s);
    } else {
      var rest := s[1..];
      assert s == [s[0]] + rest;
      PairwiseCons(leq, s[0], rest);
      InsertKeepsOrder(leq, x, rest);
      ToAllInsert(leq, s[0], leq, x, rest);
      PairwiseCons(leq, s[0], Insert(leq, x, rest));
    }
  }

  lemma {:induction false} SortedIsOrdered<T(!new)>(leq: (T, T) -> bool, s: seq<T>)
    requires TotalOrder(leq)
    ensures Pairwise(leq, Sorted(leq, s))
  {
    if s != [] {
      SortedIsOrdered(leq, s[1..]);
      InsertKeepsOrder(leq, s[0], Sorted(leq, s[1..]));
    }
  }

  lemma {:induction false} OrderedIsSorted<T>(leq: (T, T) -> bool, s: seq<T>)
    requires Pairwise(leq, s)
    ensures Sorted(leq, s) == s
  {
    if s != [] {
      OrderedIsSorted(leq, s[1..]);
      assert |s| > 1 ==> leq(s[0], s[1]);
    }
  }

  lemma {:induction false} InsertMembers<T>(leq: (T, T) -> bool, x: T, s: seq<T>, y: T)
    ensures y in Insert(leq, x, s) <==> y == x || y in s
  {
    if s != [] && !leq(x, s[0]) { InsertMembers(leq, x, s[1..], y); }
  }

  lemma {:induction false} SortedMembers<T>(leq: (T, T) -> bool, s: seq<T>, y: T)
    ensures y in Sorted(leq, s) <==> y in s
  {
    if s != [] {
      SortedMembers(leq, s[1..], y);
      InsertMembers(leq, s[0], Sorted(leq, s[1..]), y);
    }
  }

  // What a sort cannot change

  ghost predicate Symmetric<T(!new)>(rel: (T, T) -> bool) {
    forall a, b :: rel(a, b) ==> rel(b, a)
  }

  lemma {:induction false} PairwiseInsert<T(!new)>(
    rel: (T, T) -> bool, leq: (T, T) -> bool, x: T, s: seq<T>)
    requires Symmetric(rel)
    ensures Pairwise(rel, Insert(leq, x, s)) <==> Pairwise(rel, s) && ToAll(rel, x, s)
  {
    if s == [] || leq(x, s[0]) {
      PairwiseCons(rel, x, s);
    } else {
      var rest := s[1..];
      assert s == [s[0]] + rest;
      PairwiseInsert(rel, leq, x, rest);
      ToAllInsert(rel, s[0], leq, x, rest);
      PairwiseCons(rel, s[0], Insert(leq, x, rest));
      PairwiseCons(rel, s[0], rest);
      ToAllCons(rel, x, s[0], rest);
    }
  }

  lemma {:induction false} ToAllSorted<T>(
    rel: (T, T) -> bool, y: T, leq: (T, T) -> bool, s: seq<T>)
    ensures ToAll(rel, y, Sorted(leq, s)) <==> ToAll(rel, y, s)
  {
    if s != [] {
      ToAllSorted(rel, y, leq, s[1..]);
      ToAllInsert(rel, y, leq, s[0], Sorted(leq, s[1..]));
      ToAllCons(rel, y, s[0], s[1..]);
      assert s == [s[0]] + s[1..];
    }
  }

  /** A symmetric relation holds between all elements after sorting exactly if it did before. */
  lemma {:induction false} PairwiseSorted<T(!new)>(
    rel: (T, T) -> bool, leq: (T, T) -> bool, s: seq<T>)
    requires Symmetric(rel)
    ensures Pairwise(rel, Sorted(leq, s)) <==> Pairwise(rel, s)
  {
    if s != [] {
      var rest := s[1..];
      assert s == [s[0]] + rest;
      PairwiseSorted(rel, leq, rest);
      PairwiseInsert(rel, leq, s[0], Sorted(leq, rest));
      ToAllSorted(rel, s[0], leq, rest);
      PairwiseCons(rel, s[0], rest);
    }
  }

  function Sum<T>(f: T -> nat, s: seq<T>): nat {
    if s == [] then 0 else f(s[0]) + Sum(f, s[1..])
  }

  lemma {:induction false} SumInsert<T>(f: T -> nat, leq: (T, T) -> bool, x: T, s: seq<T>)
    ensures Sum(f, Insert(leq, x, s)) == f(x) + Sum(f, s)
  {
    if s == [] || leq(x, s[0]) {
      assert ([x] + s)[1..] == s;
    } else {
      SumInsert(f, leq, x, s[1..]);
      assert Insert(leq, x, s)[1..] == Insert(leq, x, s[1..]);
    }
  }

  lemma {:induction false} SumSorted<T>(f: T -> nat, leq: (T, T) -> bool, s: seq<T>)
    ensures Sum(f, Sorted(leq, s)) == Sum(f, s)
  {
    if s != [] {
      SumSorted(f, leq, s[1..]);
      SumInsert(f, leq, s[0], Sorted(leq, s[1..]));
    }
  }

  // What no permutation can change

  function Without<T>(s: seq<T>, k: nat): (r: seq<T>)
    requires k < |s|
    ensures |r| == |s| - 1
  {
    s[..k] + s[k + 1..]
  }

  lemma ToAllWithout<T>(rel: (T, T) -> bool, y: T, s: seq<T>, k: nat)
    requires k < |s|
    ensures ToAll(rel, y, s) <==> rel(y, s[k]) && ToAll(rel, y, Without(s, k))
  {
    var less := Without(s, k);
    assert forall i :: 0 <= i < |less| ==> less[i] == if i < k then s[i] else s[i + 1];
    if rel(y, s[k]) && ToAll(rel, y, less) {
      forall i | 0 <= i < |s| ensures rel(y, s[i]) {
        if i < k { assert less[i] == s[i]; } else if i > k { assert less[i - 1] == s[i]; }
      }
    }
  }

  lemma {:induction false} PairwiseWithout<T(!new)>(rel: (T, T) -> bool, s: seq<T>, k: nat)
    requires Symmetric(rel) && k < |s|
    ensures Pairwise(rel, s) <==> Pairwise(rel, Without(s, k)) && ToAll(rel, s[k], Without(s, k))
  {
    var x, rest := s[0], s[1..];
    assert s == [x] + rest;
    PairwiseCons(rel, x, rest);
    if k == 0 {
      assert Without(s, 0) == rest;
    } else {
      var less := Without(rest, k - 1);
      assert Without(s, k) == [x] + less;
      PairwiseWithout(rel, rest, k - 1);
      PairwiseCons(rel, x, less);
      ToAllCons(rel, s[k], x, less);
      ToAllWithout(rel, x, rest, k - 1);
    }
  }

  lemma MultisetWithout<T>(s: seq<T>, k: nat)
    requires k < |s|
    ensures multiset(Without(s, k)) == multiset(s) - multiset{s[k]}
  {
    assert s == s[..k] + [s[k]] + s[k + 1..];
  }

  lemma ToAllPermuted<T>(rel: (T, T) -> bool, x: T, s: seq<T>, t: seq<T>)
    requires multiset(s) == multiset(t)
    ensures ToAll(rel, x, s) <==> ToAll(rel, x, t)
  {
    ToAllMembers(rel, x, s);
    ToAllMembers(rel, x, t);
    assert forall y :: y in s <==> y in multiset(s);
    assert forall y :: y in t <==> y in multiset(t);
  }

  /** A symmetric relation holds between all elements of a sequence in any order or in none. */
  lemma {:induction false} PairwisePermuted<T(!new)>(rel: (T, T) -> bool, s: seq<T>, t: seq<T>)
    requires Symmetric(rel) && multiset(s) == multiset(t)
    ensures Pairwise(rel, s) <==> Pairwise(rel, t)
    decreases |s|
  {
    assert |s| == |multiset(s)| == |multiset(t)| == |t|;
    if s != [] {
      assert s[0] in multiset(t);
      var k :| 0 <= k < |t| && t[k] == s[0];
      var less, fewer := Without(s, 0), Without(t, k);
      MultisetWithout(s, 0);
      MultisetWithout(t, k);
      PairwisePermuted(rel, less, fewer);
      ToAllPermuted(rel, s[0], less, fewer);
      PairwiseWithout(rel, s, 0);
      PairwiseWithout(rel, t, k);
    }
  }
}

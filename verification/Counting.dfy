/** Counting how often each key occurs, and ranking the counts. */
module Counting {
  import opened Sorting

  datatype Entry<+K> = Entry(key: K, count: nat)

  /** One more of this key; the entries are in the order of first appearance. */
  function Bump<K(==)>(entries: seq<Entry<K>>, key: K): seq<Entry<K>> {
    if entries == [] then [Entry(key, 1)]
    else if entries[0].key == key then [Entry(key, entries[0].count + 1)] + entries[1..]
    else [entries[0]] + Bump(entries[1..], key)
  }

  function Tally<K(==)>(keys: seq<K>): seq<Entry<K>> {
    if keys == [] then [] else Bump(Tally(keys[..|keys| - 1]), keys[|keys| - 1])
  }

  function CountIn<K>(entry: Entry<K>): nat { entry.count }

  function Lookup<K(==)>(entries: seq<Entry<K>>, key: K): nat {
    if entries == [] then 0
    else if entries[0].key == key then entries[0].count
    else Lookup(entries[1..], key)
  }

  /** How often the key occurs. */
  function Occurrences<K(==)>(keys: seq<K>, key: K): nat { multiset(keys)[key] }

  predicate OtherKey<K(==)>(a: Entry<K>, b: Entry<K>) { a.key != b.key }

  lemma {:induction false} BumpAddsOne<K>(entries: seq<Entry<K>>, key: K, other: K)
    ensures Sum(CountIn, Bump(entries, key)) == Sum(CountIn, entries) + 1
    ensures Lookup(Bump(entries, key), other) ==
      Lookup(entries, other) + if key == other then 1 else 0
  {
    var after := Bump(entries, key);
    if entries == [] {
      assert after[1..] == [];
    } else {
      BumpAddsOne(entries[1..], key, other);
      assert after[1..] ==
        if entries[0].key == key then entries[1..] else Bump(entries[1..], key);
    }
  }

  lemma {:induction false} BumpKeys<K>(entries: seq<Entry<K>>, key: K)
    ensures forall e <- Bump(entries, key) :: e.key == key || e in entries
    ensures (forall e <- entries :: e.count > 0) ==>
      forall e <- Bump(entries, key) :: e.count > 0
  {
    if entries != [] { BumpKeys(entries[1..], key); }
  }

  lemma {:induction false} BumpKeepsDistinct<K>(entries: seq<Entry<K>>, key: K)
    requires Pairwise(OtherKey, entries)
    ensures Pairwise(OtherKey, Bump(entries, key))
  {
    if entries != [] {
      var first, rest := entries[0], entries[1..];
      assert entries == [first] + rest;
      PairwiseCons(OtherKey, first, rest);
      ToAllMembers(OtherKey, first, rest);
      if first.key == key {
        var more := Entry(key, first.count + 1);
        ToAllMembers(OtherKey, more, rest);
        PairwiseCons(OtherKey, more, rest);
      } else {
        BumpKeepsDistinct(rest, key);
        BumpKeys(rest, key);
        ToAllMembers(OtherKey, first, Bump(rest, key));
        PairwiseCons(OtherKey, first, Bump(rest, key));
      }
    }
  }

  /** A tally counts exactly, once per key. */
  lemma {:induction false} TallyIsExact<K>(keys: seq<K>, key: K)
    ensures Sum(CountIn, Tally(keys)) == |keys|
    ensures Lookup(Tally(keys), key) == Occurrences(keys, key)
    ensures Pairwise(OtherKey, Tally(keys))
    ensures forall e <- Tally(keys) :: e.count > 0
  {
    if keys != [] {
      var before, last := keys[..|keys| - 1], keys[|keys| - 1];
      assert keys == before + [last];
      TallyIsExact(before, key);
      BumpAddsOne(Tally(before), last, key);
      BumpKeepsDistinct(Tally(before), last);
      BumpKeys(Tally(before), last);
    }
  }

  lemma {:induction false} LookupOfEntry<K>(entries: seq<Entry<K>>, e: Entry<K>)
    requires Pairwise(OtherKey, entries) && e in entries
    ensures Lookup(entries, e.key) == e.count
  {
    var first, rest := entries[0], entries[1..];
    assert entries == [first] + rest;
    PairwiseCons(OtherKey, first, rest);
    ToAllMembers(OtherKey, first, rest);
    if e != first { LookupOfEntry(rest, e); }
  }

  lemma {:induction false} LookupFinds<K>(entries: seq<Entry<K>>, key: K)
    returns (e: Entry<K>)
    requires Lookup(entries, key) > 0
    ensures e in entries && e.key == key
  {
    if entries[0].key == key { e := entries[0]; } else { e := LookupFinds(entries[1..], key); }
  }

  // Ranking

  /** More often first; equally often, by the order of the keys. */
  function MoreOften<K>(leq: (K, K) -> bool): (Entry<K>, Entry<K>) -> bool {
    (a: Entry<K>, b: Entry<K>) =>
      if a.count != b.count then a.count > b.count else leq(a.key, b.key)
  }

  lemma MoreOftenIsTotal<K(!new)>(leq: (K, K) -> bool)
    requires TotalOrder(leq)
    ensures TotalOrder(MoreOften(leq))
  {
    var order := MoreOften(leq);
    forall a: Entry<K>, b: Entry<K> ensures order(a, b) || order(b, a) {
      assert leq(a.key, b.key) || leq(b.key, a.key);
    }
    forall a: Entry<K>, b: Entry<K>, c: Entry<K> | order(a, b) && order(b, c)
      ensures order(a, c)
    {
      assert leq(a.key, b.key) && leq(b.key, c.key) ==> leq(a.key, c.key);
    }
  }

  function Ranked<K(==)>(leq: (K, K) -> bool, keys: seq<K>): seq<Entry<K>> {
    Sorted(MoreOften(leq), Tally(keys))
  }

  /** The entry says how often its key occurs, and it does occur. */
  predicate Exact<K(==)>(keys: seq<K>, e: Entry<K>) { e.count == Occurrences(keys, e.key) > 0 }

  lemma RankedEntry<K(!new)>(leq: (K, K) -> bool, keys: seq<K>, i: nat)
    requires TotalOrder(leq) && i < |Ranked(leq, keys)|
    ensures Exact(keys, Ranked(leq, keys)[i])
  {
    var tally, e := Tally(keys), Ranked(leq, keys)[i];
    SortedMembers(MoreOften(leq), tally, e);
    TallyIsExact(keys, e.key);
    LookupOfEntry(tally, e);
  }

  lemma RankedFinds<K(!new)>(leq: (K, K) -> bool, keys: seq<K>, key: K) returns (i: nat)
    requires TotalOrder(leq) && key in keys
    ensures i < |Ranked(leq, keys)| && Ranked(leq, keys)[i].key == key
  {
    var tally := Tally(keys);
    TallyIsExact(keys, key);
    var e := LookupFinds(tally, key);
    SortedMembers(MoreOften(leq), tally, e);
    i :| 0 <= i < |Ranked(leq, keys)| && Ranked(leq, keys)[i] == e;
  }

  /** A ranking has one exact entry for every key that occurs, in order, and adds up. */
  lemma RankedIsExact<K(!new)>(leq: (K, K) -> bool, keys: seq<K>)
    requires TotalOrder(leq)
    ensures
      var ranked := Ranked(leq, keys);
      && Sum(CountIn, ranked) == |keys|
      && Pairwise(OtherKey, ranked) && Pairwise(MoreOften(leq), ranked)
      && (forall e <- ranked :: Exact(keys, e))
      && (forall key <- keys :: exists e <- ranked :: e.key == key)
  {
    var order, tally, ranked := MoreOften(leq), Tally(keys), Ranked(leq, keys);
    MoreOftenIsTotal(leq);
    SumSorted(CountIn, order, tally);
    SortedIsOrdered(order, tally);
    PairwiseSorted(OtherKey, order, tally);
    if keys != [] { TallyIsExact(keys, keys[0]); }
    forall e <- ranked ensures Exact(keys, e) {
      var i: nat :| i < |ranked| && ranked[i] == e;
      RankedEntry(leq, keys, i);
    }
    forall key <- keys ensures exists e <- ranked :: e.key == key {
      var i := RankedFinds(leq, keys, key);
      assert ranked[i].key == key;
    }
  }

  function Top<K>(entries: seq<Entry<K>>, n: nat): seq<Entry<K>> {
    if |entries| <= n then entries else entries[..n]
  }

  lemma LeftOutIsNoMoreOften<K>(
    leq: (K, K) -> bool, ranked: seq<Entry<K>>, n: nat, out: Entry<K>)
    requires Pairwise(MoreOften(leq), ranked) && out in ranked && out !in Top(ranked, n)
    ensures |Top(ranked, n)| == n && forall e <- Top(ranked, n) :: e.count >= out.count
  {
    var top := Top(ranked, n);
    assert forall i :: 0 <= i < |top| ==> ranked[i] == top[i] && top[i] in top;
    var j :| 0 <= j < |ranked| && ranked[j] == out;
    forall e <- top ensures e.count >= out.count {
      var i :| 0 <= i < |top| && top[i] == e;
      assert MoreOften(leq)(ranked[i], ranked[j]);
    }
  }

  /**
   The first `n` of a ranking are exact, and a key left out occurs no more often than any of
   them; fewer than `n` leave no key out.
   */
  lemma TopIsExact<K(!new)>(leq: (K, K) -> bool, keys: seq<K>, n: nat)
    requires TotalOrder(leq)
    ensures
      var top := Top(Ranked(leq, keys), n);
      && |top| <= n && Pairwise(OtherKey, top) && Pairwise(MoreOften(leq), top)
      && (forall e <- top :: Exact(keys, e))
      && (forall key <- keys ::
            || (exists e <- top :: e.key == key)
            || (|top| == n && forall e <- top :: e.count >= Occurrences(keys, key)))
  {
    var ranked, top := Ranked(leq, keys), Top(Ranked(leq, keys), n);
    RankedIsExact(leq, keys);
    forall key <- keys | !exists e <- top :: e.key == key
      ensures |top| == n && forall e <- top :: e.count >= Occurrences(keys, key)
    {
      var out :| out in ranked && out.key == key;
      LeftOutIsNoMoreOften(leq, ranked, n, out);
    }
  }

  // Text in the order of its characters

  predicate TextAtMost(a: string, b: string) {
    || a == ""
    || (b != "" && (a[0] < b[0] || (a[0] == b[0] && TextAtMost(a[1..], b[1..]))))
  }

  lemma {:induction false} TextOrders(a: string, b: string, c: string)
    ensures TextAtMost(a, b) || TextAtMost(b, a)
    ensures TextAtMost(a, b) && TextAtMost(b, c) ==> TextAtMost(a, c)
    decreases |a|
  {
    if a != "" && b != "" {
      TextOrders(a[1..], b[1..], if c == "" then c else c[1..]);
    }
  }

  lemma TextOrderIsTotal()
    ensures TotalOrder(TextAtMost)
  {
    forall a: string, b: string ensures TextAtMost(a, b) || TextAtMost(b, a) {
      TextOrders(a, b, a);
    }
    forall a: string, b: string, c: string | TextAtMost(a, b) && TextAtMost(b, c)
      ensures TextAtMost(a, c)
    {
      TextOrders(a, b, c);
    }
  }
}

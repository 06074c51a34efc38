/** The reservation of published artifacts: each digest once, within the source byte limit. */
module Artifacts {
  import opened Wrappers

  datatype Descriptor = Descriptor(digest: string, size: nat)

  datatype Refusal = Integrity | LimitExceeded

  datatype State = State(sizes: map<string, nat>, bytes: nat, sourceBytes: nat)

  const EMPTY := State(map[], 0, 0)

  /** One reservation; a refused one may already have counted the bytes. */
  function Reserved(s: State, limit: nat, d: Descriptor, source: bool)
    : (State, Result<(), Refusal>)
  {
    if d.digest in s.sizes then
      (s, if s.sizes[d.digest] != d.size then Err(Integrity) else Ok(()))
    else if s.bytes + d.size > U64_MAX then (s, Err(LimitExceeded))
    else
      var counted := s.(bytes := s.bytes + d.size);
      if !source then (counted.(sizes := s.sizes[d.digest := d.size]), Ok(()))
      else if s.sourceBytes + d.size > U64_MAX then (counted, Err(LimitExceeded))
      else
        var charged := counted.(sourceBytes := s.sourceBytes + d.size);
        if charged.sourceBytes > limit then (charged, Err(LimitExceeded))
        else (charged.(sizes := s.sizes[d.digest := d.size]), Ok(()))
  }

  /** Reservations up to the first refusal. */
  function ReservedAll(s: State, limit: nat, all: seq<Descriptor>): Result<State, Refusal>
    decreases |all|
  {
    if all == [] then Ok(s)
    else
      var (after, r) := Reserved(s, limit, all[0], true);
      if r.Err? then Err(r.error) else ReservedAll(after, limit, all[1..])
  }

  // Sums over distinct descriptors

  ghost function Sum(s: set<Descriptor>): nat
    decreases |s|
  {
    if s == {} then 0 else var d :| d in s; d.size + Sum(s - {d})
  }

  lemma {:induction false} SumWithout(s: set<Descriptor>, d: Descriptor)
    requires d in s
    ensures Sum(s) == d.size + Sum(s - {d})
    decreases |s|
  {
    var e :| e in s && Sum(s) == e.size + Sum(s - {e});
    if e != d {
      SumWithout(s - {e}, d);
      SumWithout(s - {d}, e);
      assert s - {e} - {d} == s - {d} - {e};
    }
  }

  lemma SumWith(s: set<Descriptor>, d: Descriptor)
    requires d !in s
    ensures Sum(s + {d}) == Sum(s) + d.size
  {
    SumWithout(s + {d}, d);
    assert s + {d} - {d} == s;
  }

  lemma {:induction false} SumGrows(s: set<Descriptor>, more: set<Descriptor>)
    ensures Sum(s) <= Sum(s + more)
    decreases |more|
  {
    if d :| d in more && d !in s {
      SumGrows(s + {d}, more - {d});
      SumWith(s, d);
      assert s + {d} + (more - {d}) == s + more;
    } else {
      assert s + more == s;
    }
  }

  // What a run of source reservations keeps

  ghost function Pairs(sizes: map<string, nat>): set<Descriptor> {
    set digest <- sizes :: Descriptor(digest, sizes[digest])
  }

  ghost function AsSet(all: seq<Descriptor>): set<Descriptor> { set d <- all }

  /** Totals are the sums over the distinct digests taken. */
  ghost predicate Inv(s: State) {
    s.bytes == s.sourceBytes == Sum(Pairs(s.sizes))
  }

  ghost predicate Agree(descriptors: set<Descriptor>) {
    forall a <- descriptors, b <- descriptors :: a.digest == b.digest ==> a == b
  }

  lemma PairsWith(sizes: map<string, nat>, d: Descriptor)
    requires d.digest !in sizes
    ensures Pairs(sizes[d.digest := d.size]) == Pairs(sizes) + {d}
    ensures d !in Pairs(sizes)
  {
    var after := sizes[d.digest := d.size];
    forall x ensures x in Pairs(after) <==> x in Pairs(sizes) + {d} {
      if x in Pairs(sizes) + {d} { assert x.digest in after && x.size == after[x.digest]; }
    }
  }

  lemma PairsAgree(sizes: map<string, nat>, d: Descriptor)
    ensures Agree(Pairs(sizes))
    ensures d in Pairs(sizes) <==> d.digest in sizes && sizes[d.digest] == d.size
  {
  }

  ghost predicate Admissible(s: State, limit: nat, all: seq<Descriptor>) {
    var whole := Pairs(s.sizes) + AsSet(all);
    Agree(whole) && Sum(whole) <= limit
  }

  lemma ReserveStep(s: State, limit: nat, all: seq<Descriptor>)
    requires Inv(s) && limit <= U64_MAX && all != [] && Reserved(s, limit, all[0], true).1.Ok?
    ensures
      var after := Reserved(s, limit, all[0], true).0;
      && Inv(after)
      && Pairs(after.sizes) + AsSet(all[1..]) == Pairs(s.sizes) + AsSet(all)
  {
    var d := all[0];
    PairsAgree(s.sizes, d);
    if d.digest !in s.sizes {
      PairsWith(s.sizes, d);
      SumWith(Pairs(s.sizes), d);
    }
    assert AsSet(all) == {d} + AsSet(all[1..]);
  }

  lemma RefusedIsInadmissible(s: State, limit: nat, all: seq<Descriptor>)
    requires Inv(s) && limit <= U64_MAX && all != [] && Reserved(s, limit, all[0], true).1.Err?
    ensures !Admissible(s, limit, all)
  {
    var d := all[0];
    var taken, whole := Pairs(s.sizes), Pairs(s.sizes) + AsSet(all);
    PairsAgree(s.sizes, d);
    assert d in whole;
    if d.digest in s.sizes {
      assert Descriptor(d.digest, s.sizes[d.digest]) in whole;
    } else {
      PairsWith(s.sizes, d);
      SumWith(taken, d);
      SumGrows(taken + {d}, AsSet(all));
      assert taken + {d} + AsSet(all) == whole;
    }
  }

  /**
   A sequence of source reservations is admitted exactly when sizes agree per digest and the sum
   over the distinct digests, those reserved before included, fits the limit; and the totals are
   then that sum.
   */
  lemma {:induction false} AdmittedIffDistinctSumFits(
    s: State, limit: nat, all: seq<Descriptor>)
    requires Inv(s) && s.sourceBytes <= limit <= U64_MAX
    ensures ReservedAll(s, limit, all).Ok? <==> Admissible(s, limit, all)
    ensures ReservedAll(s, limit, all).Ok? ==>
      var after := ReservedAll(s, limit, all).value;
      Inv(after) && Pairs(after.sizes) == Pairs(s.sizes) + AsSet(all)
    decreases |all|
  {
    if all == [] {
      PairsAgree(s.sizes, Descriptor("", 0));
      assert Pairs(s.sizes) + AsSet(all) == Pairs(s.sizes);
    } else if Reserved(s, limit, all[0], true).1.Err? {
      RefusedIsInadmissible(s, limit, all);
    } else {
      ReserveStep(s, limit, all);
      AdmittedIffDistinctSumFits(Reserved(s, limit, all[0], true).0, limit, all[1..]);
    }
  }

  /** So neither order nor repetition matters. */
  lemma AdmissionIgnoresOrderAndRepetition(
    limit: nat, a: seq<Descriptor>, b: seq<Descriptor>)
    requires limit <= U64_MAX && AsSet(a) == AsSet(b)
    ensures ReservedAll(EMPTY, limit, a).Ok? <==> ReservedAll(EMPTY, limit, b).Ok?
    ensures ReservedAll(EMPTY, limit, a).Ok? ==>
      ReservedAll(EMPTY, limit, a).value.bytes == ReservedAll(EMPTY, limit, b).value.bytes
  {
    assert Pairs(EMPTY.sizes) == {};
    AdmittedIffDistinctSumFits(EMPTY, limit, a);
    AdmittedIffDistinctSumFits(EMPTY, limit, b);
  }

  // Reservations of both kinds

  function ReservedMixed(s: State, limit: nat, all: seq<(Descriptor, bool)>)
    : Result<State, Refusal>
    decreases |all|
  {
    if all == [] then Ok(s)
    else
      var (after, r) := Reserved(s, limit, all[0].0, all[0].1);
      if r.Err? then Err(r.error) else ReservedMixed(after, limit, all[1..])
  }

  ghost function Digests(all: seq<(Descriptor, bool)>): set<string> {
    set d <- all :: d.0.digest
  }

  /**
   After any successful sequence of reservations, source or not, the byte total is the sum over
   the distinct digests, and what is counted is exactly those digests.
   */
  lemma {:induction false} TotalsAreOverDistinctDigests(
    s: State, limit: nat, all: seq<(Descriptor, bool)>)
    requires s.bytes == Sum(Pairs(s.sizes)) && ReservedMixed(s, limit, all).Ok?
    ensures
      var after := ReservedMixed(s, limit, all).value;
      && after.bytes == Sum(Pairs(after.sizes))
      && after.sizes.Keys == s.sizes.Keys + Digests(all)
    decreases |all|
  {
    if all != [] {
      var d := all[0].0;
      var next := Reserved(s, limit, d, all[0].1).0;
      if d.digest !in s.sizes {
        PairsWith(s.sizes, d);
        SumWith(Pairs(s.sizes), d);
      }
      TotalsAreOverDistinctDigests(next, limit, all[1..]);
      assert Digests(all) == {d.digest} + Digests(all[1..]) by {
        assert all == [all[0]] + all[1..];
      }
    }
  }

  class Ledger {
    const sourceLimit: nat
    var sizes: map<string, nat>
    var sourceBytes: nat
    var bytes: nat

    constructor (sourceLimit: nat)
      ensures this.sourceLimit == sourceLimit && View() == EMPTY
    {
      this.sourceLimit := sourceLimit;
      sizes, sourceBytes, bytes := map[], 0, 0;
    }

    ghost function View(): State
      reads this
    {
      State(sizes, bytes, sourceBytes)
    }

    method Reserve(d: Descriptor, source: bool) returns (r: Result<(), Refusal>)
      modifies this
      ensures (View(), r) == Reserved(old(View()), sourceLimit, d, source)
    {
      if d.digest in sizes {
        if sizes[d.digest] != d.size { return Err(Integrity); }
        return Ok(());
      }
      if bytes + d.size > U64_MAX { return Err(LimitExceeded); }
      bytes := bytes + d.size;
      if source {
        if sourceBytes + d.size > U64_MAX { return Err(LimitExceeded); }
        sourceBytes := sourceBytes + d.size;
        if sourceBytes > sourceLimit { return Err(LimitExceeded); }
      }
      sizes := sizes[d.digest := d.size];
      r := Ok(());
    }
  }
}

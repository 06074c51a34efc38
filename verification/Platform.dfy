/**
 Platform claims of OCI descriptors and configs: merging, matching and early rejection.

 A claim fixes an operating system and an architecture and may fix a variant. Claims are ordered
 by how much they say; merging is the least upper bound in that order, matching is the order
 itself, and the early test of the traversal is the existence of an upper bound.
 */
module Platform {
  import opened Wrappers

  const MAX_PART := 64

  predicate ValidByte(c: char) {
    'a' <= c <= 'z' || '0' <= c <= '9' || c == '_' || c == '-' || c == '.'
  }

  predicate ValidPart(value: string) {
    0 < |value| <= MAX_PART && forall c <- value :: ValidByte(c)
  }

  datatype Claim = Claim(os: string, arch: string, variant: Option<string>)

  predicate ValidClaim(c: Claim) {
    ValidPart(c.os) && ValidPart(c.arch) && (c.variant.Some? ==> ValidPart(c.variant.value))
  }

  type OciPlatform = c: Claim | ValidClaim(c) witness Claim("linux", "arm64", None)

  function NewPlatform(os: string, arch: string, variant: Option<string>): Option<OciPlatform> {
    if ValidClaim(Claim(os, arch, variant)) then Some(Claim(os, arch, variant)) else None
  }

  /** Folds a declared claim into the effective one; conflicting claims have no merge. */
  function Merge(effective: OciPlatform, declared: OciPlatform): Option<OciPlatform> {
    var sameBase := declared.os == effective.os && declared.arch == effective.arch;
    var variantsConflict :=
      declared.variant.Some? && effective.variant.Some? && declared.variant != effective.variant;
    if !sameBase || variantsConflict then None
    else NewPlatform(effective.os, effective.arch,
                     if declared.variant.Some? then declared.variant else effective.variant)
  }

  predicate Matches(requested: OciPlatform, actual: OciPlatform) {
    && requested.os == actual.os && requested.arch == actual.arch
    && (requested.variant.Some? ==> actual.variant == requested.variant)
  }

  predicate MayMatch(requested: OciPlatform, declared: OciPlatform) {
    && requested.os == declared.os && requested.arch == declared.arch
    && (requested.variant.Some? && declared.variant.Some? ==> requested.variant == declared.variant)
  }

  // The order of claims

  /** `b` says at least what `a` says. */
  predicate Below(a: OciPlatform, b: OciPlatform) {
    a.os == b.os && a.arch == b.arch && (a.variant == None || a.variant == b.variant)
  }

  ghost predicate UpperBound(claims: seq<OciPlatform>, p: OciPlatform) {
    forall c <- claims :: Below(c, p)
  }

  /** `p` says exactly what the claims say together. */
  ghost predicate Join(claims: seq<OciPlatform>, p: OciPlatform) {
    UpperBound(claims, p) && forall q: OciPlatform :: UpperBound(claims, q) ==> Below(p, q)
  }

  lemma JoinIsUnique(claims: seq<OciPlatform>, p: OciPlatform, q: OciPlatform)
    requires Join(claims, p) && Join(claims, q)
    ensures p == q
  {
    assert Below(p, q) && Below(q, p);
  }

  /** Merging is the join of two claims, and it is defined when they have an upper bound. */
  lemma MergeIsJoin(a: OciPlatform, b: OciPlatform)
    ensures Merge(a, b).Some? ==> Join([a, b], Merge(a, b).value)
    ensures Merge(a, b).Some? <==> exists q: OciPlatform :: UpperBound([a, b], q)
    ensures Merge(a, b).Some? <==> MayMatch(a, b)
  {
    assert a in [a, b] && b in [a, b];
    if exists q: OciPlatform :: UpperBound([a, b], q) {
      var q: OciPlatform :| UpperBound([a, b], q);
      assert Below(a, q) && Below(b, q);
    }
    if Merge(a, b).Some? {
      assert UpperBound([a, b], Merge(a, b).value);
      forall q: OciPlatform | UpperBound([a, b], q) ensures Below(Merge(a, b).value, q) {
        assert Below(a, q) && Below(b, q);
      }
    }
  }

  /** Merging with a claim that may itself be a failed merge. */
  function MergeWith(a: Option<OciPlatform>, b: Option<OciPlatform>): Option<OciPlatform> {
    if a.Some? && b.Some? then Merge(a.value, b.value) else None
  }

  lemma MergeCommutes(a: OciPlatform, b: OciPlatform)
    ensures Merge(a, b) == Merge(b, a) && Merge(a, a) == Some(a)
  {
  }

  lemma BoundsOfThree(
    a: OciPlatform, b: OciPlatform, c: OciPlatform, ab: OciPlatform, q: OciPlatform)
    requires Join([a, b], ab)
    ensures UpperBound([a, b, c], q) <==> UpperBound([ab, c], q)
  {
    assert a in [a, b] && b in [a, b] && ab in [ab, c] && c in [ab, c];
    assert a in [a, b, c] && b in [a, b, c] && c in [a, b, c];
    if UpperBound([a, b, c], q) { assert UpperBound([a, b], q); }
    if UpperBound([ab, c], q) { assert Below(a, ab) && Below(b, ab) && Below(ab, q); }
  }

  lemma JoinOfThree(a: OciPlatform, b: OciPlatform, c: OciPlatform)
    ensures
      var m := MergeWith(Merge(a, b), Some(c));
      && (m.Some? <==> exists q: OciPlatform :: UpperBound([a, b, c], q))
      && (m.Some? ==> Join([a, b, c], m.value))
  {
    MergeIsJoin(a, b);
    if Merge(a, b).Some? {
      var ab := Merge(a, b).value;
      MergeIsJoin(ab, c);
      forall q: OciPlatform ensures UpperBound([a, b, c], q) <==> UpperBound([ab, c], q) {
        BoundsOfThree(a, b, c, ab, q);
      }
    } else if q: OciPlatform :| UpperBound([a, b, c], q) {
      assert a in [a, b, c] && b in [a, b, c];
      assert UpperBound([a, b], q);
    }
  }

  /** Grouping makes no difference to a merge, nor to whether it fails. */
  lemma MergeIsAssociative(a: OciPlatform, b: OciPlatform, c: OciPlatform)
    ensures MergeWith(Merge(a, b), Some(c)) == MergeWith(Some(a), Merge(b, c))
  {
    JoinOfThree(a, b, c);
    JoinOfThree(b, c, a);
    if Merge(b, c).Some? { MergeCommutes(Merge(b, c).value, a); }
    forall q: OciPlatform ensures UpperBound([a, b, c], q) <==> UpperBound([b, c, a], q) {
      assert forall x :: x in [a, b, c] <==> x in [b, c, a];
    }
    var l, r := MergeWith(Merge(a, b), Some(c)), MergeWith(Some(a), Merge(b, c));
    if l.Some? { JoinIsUnique([a, b, c], l.value, r.value); }
  }

  // Folding the claims along a path

  /** The loop of `declared_platform`: `None` inside `Some` is "no claim", outer `None` a conflict. */
  function MergeAll(claims: seq<OciPlatform>): Option<Option<OciPlatform>> {
    if claims == [] then Some(None)
    else
      match MergeAll(claims[..|claims| - 1])
      case None => None
      case Some(None) => Some(Some(claims[|claims| - 1]))
      case Some(Some(current)) =>
        match Merge(current, claims[|claims| - 1])
        case Some(merged) => Some(Some(merged))
        case None => None
  }

  ghost predicate PairwiseAgree(claims: seq<OciPlatform>) {
    forall a <- claims, b <- claims :: MayMatch(a, b)
  }

  lemma {:induction false} MergeAllIsJoin(claims: seq<OciPlatform>)
    requires claims != []
    ensures MergeAll(claims).Some? <==> exists q: OciPlatform :: UpperBound(claims, q)
    ensures MergeAll(claims).Some? ==>
      MergeAll(claims).value.Some? && Join(claims, MergeAll(claims).value.value)
    decreases |claims|
  {
    var init, last := claims[..|claims| - 1], claims[|claims| - 1];
    assert claims == init + [last];
    if init == [] {
      assert MergeAll(init) == Some(None);
      assert UpperBound(claims, last);
      forall q: OciPlatform | UpperBound(claims, q) ensures Below(last, q) {
        assert last in claims;
      }
    } else {
      MergeAllIsJoin(init);
      forall q: OciPlatform
        ensures UpperBound(claims, q) <==> UpperBound(init, q) && Below(last, q)
      {
        assert last in claims;
        assert forall c <- init :: c in claims;
      }
      if MergeAll(init).Some? {
        var current := MergeAll(init).value.value;
        MergeIsJoin(current, last);
        forall q: OciPlatform
          ensures UpperBound(claims, q) <==> UpperBound([current, last], q)
        {
          assert current in [current, last] && last in [current, last];
          if Below(current, q) {
            forall c <- init ensures Below(c, q) { assert Below(c, current); }
          }
        }
      }
    }
  }

  /** A claim with a variant if there is one, else the first. */
  ghost function Strongest(claims: seq<OciPlatform>): (p: OciPlatform)
    requires claims != []
    ensures p in claims && (p.variant.Some? || forall c <- claims :: c.variant == None)
  {
    if c :| c in claims && c.variant.Some? then c else claims[0]
  }

  /** Claims have a merge if and only if every two of them agree. */
  lemma MergeAllDefinedIffPairwise(claims: seq<OciPlatform>)
    ensures MergeAll(claims).Some? <==> PairwiseAgree(claims)
  {
    if claims != [] {
      MergeAllIsJoin(claims);
      if PairwiseAgree(claims) {
        var strongest := Strongest(claims);
        forall c <- claims ensures Below(c, strongest) { assert MayMatch(c, strongest); }
        assert UpperBound(claims, strongest);
      }
      if MergeAll(claims).Some? {
        var q := MergeAll(claims).value.value;
        forall a <- claims, b <- claims ensures MayMatch(a, b) {
          assert Below(a, q) && Below(b, q);
        }
      }
    }
  }

  /**
   Folding depends only on which claims there are, not on their order or repetition, in its
   failures too.
   */
  lemma MergeAllIgnoresOrder(xs: seq<OciPlatform>, ys: seq<OciPlatform>)
    requires forall c :: c in xs <==> c in ys
    ensures MergeAll(xs) == MergeAll(ys)
  {
    assert |xs| > 0 ==> xs[0] in ys;
    assert |ys| > 0 ==> ys[0] in xs;
    if xs != [] {
      MergeAllIsJoin(xs);
      MergeAllIsJoin(ys);
      assert forall q: OciPlatform :: UpperBound(xs, q) <==> UpperBound(ys, q);
      if MergeAll(xs).Some? {
        JoinIsUnique(ys, MergeAll(xs).value.value, MergeAll(ys).value.value);
      }
    }
  }

  // Early rejection

  /** What the config and the declared claim say together, when they agree. */
  function Effective(declared: Option<OciPlatform>, config: OciPlatform): Option<OciPlatform> {
    match declared
    case Some(claim) => Merge(config, claim)
    case None => Some(config)
  }

  predicate EarlyKeeps(requested: OciPlatform, declared: Option<OciPlatform>) {
    declared.None? || MayMatch(requested, declared.value)
  }

  /**
   Early rejection is exact: a manifest is dropped before its config is read if and only if no
   config at all could make its effective platform match the request.
   */
  lemma EarlyRejectionIsExact(requested: OciPlatform, declared: Option<OciPlatform>)
    ensures EarlyKeeps(requested, declared) <==>
      exists config: OciPlatform ::
        Effective(declared, config).Some? && Matches(requested, Effective(declared, config).value)
  {
    if EarlyKeeps(requested, declared) {
      if declared.Some? {
        var config := Merge(requested, declared.value).value;
        assert Effective(declared, config) == Some(config) && Matches(requested, config);
      } else {
        assert Effective(declared, requested) == Some(requested);
      }
    }
    if config: OciPlatform :|
      Effective(declared, config).Some? && Matches(requested, Effective(declared, config).value)
    {
    }
  }
}

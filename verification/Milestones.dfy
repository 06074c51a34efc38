/** The milestones of a receipt: accepted only in their fixed order, with times that never regress. */
module Milestones {
  import opened Wrappers

  const KIND_RANK: map<string, nat> := map[
    "accepted" := 0, "workload_resolved" := 1, "inspected" := 1, "admitted" := 2,
    "machine_launched" := 3, "ready" := 4, "command_started" := 5, "command_finished" := 6,
    "failure_observed" := 7, "cleanup_started" := 8, "cleanup_finished" := 9]

  datatype Milestone = Milestone(kind: string, elapsedNs: int)

  /** An entry as received; anything but a kind and a whole number is misshapen. */
  datatype Raw = Raw(kind: string, elapsedNs: int) | Misshapen

  predicate Acceptable(raw: Raw) { raw.Raw? && raw.kind in KIND_RANK && raw.elapsedNs >= 0 }

  predicate Follows(a: Raw, b: Raw)
    requires Acceptable(a) && Acceptable(b)
  {
    KIND_RANK[a.kind] < KIND_RANK[b.kind] && a.elapsedNs <= b.elapsedNs
  }

  /** Every entry is acceptable, and each follows all before it. */
  predicate InOrder(raw: seq<Raw>) {
    && (forall i :: 0 <= i < |raw| ==> Acceptable(raw[i]))
    && (forall i, j :: 0 <= i < j < |raw| ==> Follows(raw[i], raw[j]))
  }

  function Plain(raw: seq<Raw>): seq<Milestone>
    requires forall i :: 0 <= i < |raw| ==> raw[i].Raw?
  {
    seq(|raw|, i requires 0 <= i < |raw| => Milestone(raw[i].kind, raw[i].elapsedNs))
  }

  /** The milestones of a nonempty list in order. */
  function Parsed(raw: seq<Raw>): Option<seq<Milestone>> {
    if raw != [] && InOrder(raw) then Some(Plain(raw)) else None
  }

  /** An entry that follows the last one follows all before it. */
  lemma Extend(raw: seq<Raw>, i: nat)
    requires i < |raw| && InOrder(raw[..i]) && Acceptable(raw[i])
    requires i > 0 ==> Acceptable(raw[i - 1]) && Follows(raw[i - 1], raw[i])
    ensures InOrder(raw[..i + 1])
  {
    var before, now := raw[..i], raw[..i + 1];
    forall k | 0 <= k <= i ensures Acceptable(now[k]) {
      if k < i { assert now[k] == before[k]; }
    }
    forall j, k | 0 <= j < k <= i ensures Follows(now[j], now[k]) {
      if k < i {
        assert now[j] == before[j] && now[k] == before[k];
      } else if j < i - 1 {
        assert Follows(before[j], before[i - 1]);
      }
    }
  }

  /**
   Compares each entry only with the one before it, and accepts exactly the nonempty lists in
   which every entry follows all before it; kinds are then distinct without further ado.
   */
  method Parse(raw: seq<Raw>) returns (r: Option<seq<Milestone>>)
    ensures r == Parsed(raw)
  {
    if raw == [] { return None; }
    var parsed: seq<Milestone> := [];
    var seen: set<string> := {};
    var previousRank: int, previousElapsedNs: int := -1, -1;
    for i := 0 to |raw|
      invariant InOrder(raw[..i]) && parsed == Plain(raw[..i])
      invariant forall j :: 0 <= j < i ==> raw[j].kind in KIND_RANK
      invariant seen == set j | 0 <= j < i :: raw[j].kind
      invariant i == 0 ==> previousRank == previousElapsedNs == -1
      invariant i > 0 ==>
        previousRank == KIND_RANK[raw[i - 1].kind] && previousElapsedNs == raw[i - 1].elapsedNs
    {
      if !Acceptable(raw[i]) { return None; }
      if raw[i].kind in seen {
        ghost var j :| 0 <= j < i && raw[j].kind == raw[i].kind;
        assert !Follows(raw[j], raw[i]);
        return None;
      }
      var rank := KIND_RANK[raw[i].kind];
      if rank <= previousRank || raw[i].elapsedNs < previousElapsedNs {
        assert !Follows(raw[i - 1], raw[i]);
        return None;
      }
      Extend(raw, i);
      parsed := parsed + [Milestone(raw[i].kind, raw[i].elapsedNs)];
      seen := seen + {raw[i].kind};
      previousRank, previousElapsedNs := rank, raw[i].elapsedNs;
    }
    assert raw[..|raw|] == raw;
    r := Some(parsed);
  }
}

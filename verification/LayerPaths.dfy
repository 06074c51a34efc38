/**
 The path rules of a layer archive: normalization of entry paths and hard-link targets, the
 policy that admits entries one by one, and the budget the layers of an image share.
 */
module LayerPaths {
  import opened Separated
  import opened Wrappers

  const MAX_PATH_BYTES := 4096

  const SLASH: Byte := 47
  const DOT: Bytes := [46]
  const DOT_DOT: Bytes := [46, 46]

  datatype Kind = InvalidInput | LimitExceeded | Integrity | Io

  // Normalization

  predicate IsSignificant(component: Bytes) { component != [] && component != DOT }

  function Significant(components: seq<Bytes>): seq<Bytes> {
    if components == [] then []
    else if IsSignificant(components[0]) then [components[0]] + Significant(components[1..])
    else Significant(components[1..])
  }

  lemma {:induction false} SignificantMembers(components: seq<Bytes>)
    ensures forall c <- Significant(components) :: c in components && IsSignificant(c)
  {
    if components != [] { SignificantMembers(components[1..]); }
  }

  /** What a path names: its components other than empty ones and dots. */
  function Components(path: Bytes): seq<Bytes> { Significant(Split(path, SLASH)) }

  function Rendered(components: seq<Bytes>): Bytes {
    if components == [] then DOT else Join(components, SLASH)
  }

  function MetadataPath(path: Bytes): Result<(), Kind> {
    if |path| > MAX_PATH_BYTES then Err(LimitExceeded)
    else if 0 in path then Err(InvalidInput)
    else Ok(())
  }

  function Normalized(path: Bytes): Result<Bytes, Kind> {
    if MetadataPath(path).Err? then Err(MetadataPath(path).error)
    else if path == [] || path[0] == SLASH || DOT_DOT in Split(path, SLASH) then Err(InvalidInput)
    else Ok(Rendered(Components(path)))
  }

  lemma {:induction false} SignificantAppend(components: seq<Bytes>, last: Bytes)
    ensures Significant(components + [last]) ==
      Significant(components) + (if IsSignificant(last) then [last] else [])
  {
    var longer := components + [last];
    if components == [] {
      assert longer[1..] == [];
    } else {
      SignificantAppend(components[1..], last);
      assert longer[1..] == components[1..] + [last];
    }
  }

  lemma {:induction false} JoinAppend(parts: seq<Bytes>, last: Bytes)
    ensures Join(parts + [last], SLASH) ==
      if parts == [] then last else Join(parts, SLASH) + [SLASH] + last
  {
    if parts == [] {
      assert parts + [last] == [last];
    } else {
      JoinAppend(parts[1..], last);
      assert (parts + [last])[1..] == parts[1..] + [last];
    }
  }

  lemma JoinedIsNonempty(parts: seq<Bytes>)
    requires parts != [] && forall c <- parts :: IsSignificant(c)
    ensures parts[0] != [] && Join(parts, SLASH) != [] && Join(parts, SLASH)[0] == parts[0][0]
  {
    assert parts[0] in parts;
  }

  /** The path without its insignificant components, empty if it has no others. */
  function Built(parts: seq<Bytes>): Bytes { Join(Significant(parts), SLASH) }

  lemma BuiltNext(parts: seq<Bytes>, part: Bytes)
    ensures Built(parts + [part]) ==
      if !IsSignificant(part) then Built(parts)
      else if Built(parts) == [] then part
      else Built(parts) + [SLASH] + part
  {
    SignificantAppend(parts, part);
    var kept := Significant(parts);
    if IsSignificant(part) {
      JoinAppend(kept, part);
      SignificantMembers(parts);
      if kept != [] { JoinedIsNonempty(kept); }
    } else {
      assert kept + [] == kept;
    }
  }

  lemma BuiltIsRendered(path: Bytes)
    ensures Rendered(Components(path)) ==
      var built := Built(Split(path, SLASH)); if built == [] then DOT else built
  {
    SignificantMembers(Split(path, SLASH));
    if Components(path) != [] { JoinedIsNonempty(Components(path)); }
  }

  /** The loop over the components, building the result in place. */
  method NormalizePath(path: Bytes) returns (r: Result<Bytes, Kind>)
    ensures r == Normalized(path)
  {
    if MetadataPath(path).Err? { return Err(MetadataPath(path).error); }
    if path == [] || path[0] == SLASH { return Err(InvalidInput); }
    var parts := Split(path, SLASH);
    var normalized: Bytes := [];
    for i := 0 to |parts|
      invariant DOT_DOT !in parts[..i]
      invariant normalized == Built(parts[..i])
    {
      assert parts[..i + 1] == parts[..i] + [parts[i]];
      BuiltNext(parts[..i], parts[i]);
      if parts[i] == DOT_DOT { return Err(InvalidInput); }
      if IsSignificant(parts[i]) {
        if normalized != [] { normalized := normalized + [SLASH]; }
        normalized := normalized + parts[i];
      }
    }
    assert parts[..|parts|] == parts;
    BuiltIsRendered(path);
    if normalized == [] { normalized := DOT; }
    r := Ok(normalized);
  }

  lemma {:induction false} AllSignificantStay(components: seq<Bytes>)
    requires forall c <- components :: IsSignificant(c)
    ensures Significant(components) == components
  {
    if components != [] { AllSignificantStay(components[1..]); }
  }

  /** Dropping components neither lengthens the path nor brings in a byte it did not have. */
  lemma {:induction false} RenderingIsNoLonger(parts: seq<Bytes>)
    ensures |Join(Significant(parts), SLASH)| <= |Join(parts, SLASH)|
    ensures forall b <- Join(Significant(parts), SLASH) :: b in Join(parts, SLASH)
  {
    if parts != [] {
      RenderingIsNoLonger(parts[1..]);
      var kept, rest := Significant(parts), Significant(parts[1..]);
      if !IsSignificant(parts[0]) {
        assert kept == rest;
      } else if rest == [] {
        assert kept == [parts[0]];
      } else {
        assert kept[0] == parts[0] && kept[1..] == rest;
      }
    }
  }

  /** The parts of a rendered path: the significant components, or the lone dot. */
  lemma RenderedParts(path: Bytes)
    ensures Split(Rendered(Components(path)), SLASH) ==
      if Components(path) == [] then [DOT] else Components(path)
  {
    if Components(path) == [] {
      SplitWithoutSeparator(DOT, SLASH);
    } else {
      PartsHaveNoSeparator(path, SLASH);
      SignificantMembers(Split(path, SLASH));
      SplitJoin(Components(path), SLASH);
    }
  }

  /**
   A normalized path stays beneath the root: it is relative and not empty, none of its
   components is empty or a parent, and unless it is the lone dot none is a dot.
   */
  lemma NormalizedStaysBeneath(path: Bytes, q: Bytes)
    requires Normalized(path) == Ok(q)
    ensures q != [] && q[0] != SLASH && 0 !in q && |q| <= |path|
    ensures [] !in Split(q, SLASH) && DOT_DOT !in Split(q, SLASH)
    ensures q == DOT || DOT !in Split(q, SLASH)
    ensures Components(q) == Components(path)
  {
    var kept := Components(path);
    RenderedParts(path);
    JoinSplit(path, SLASH);
    RenderingIsNoLonger(Split(path, SLASH));
    SignificantMembers(Split(path, SLASH));
    if kept == [] {
      assert Significant([DOT]) == [];
    } else {
      AllSignificantStay(kept);
      JoinedIsNonempty(kept);
      PartsHaveNoSeparator(path, SLASH);
    }
  }

  /** Normalizing twice is normalizing once. */
  lemma NormalizationIsIdempotent(path: Bytes, q: Bytes)
    requires Normalized(path) == Ok(q)
    ensures Normalized(q) == Ok(q)
  {
    NormalizedStaysBeneath(path, q);
  }

  /** Two paths normalize equally exactly when they have the same significant components. */
  lemma EqualIffSameComponents(a: Bytes, b: Bytes)
    requires Normalized(a).Ok? && Normalized(b).Ok?
    ensures Normalized(a) == Normalized(b) <==> Components(a) == Components(b)
  {
    NormalizedStaysBeneath(a, Normalized(a).value);
    NormalizedStaysBeneath(b, Normalized(b).value);
  }

  // The entries of a layer

  /** An archive entry, as far as the policy looks at it. */
  datatype Entry = Entry(path: Bytes, link: Option<Bytes>, hardLink: bool)

  function CheckedLink(entry: Entry): Result<(), Kind> {
    match entry.link
    case None => Ok(())
    case Some(link) =>
      if !entry.hardLink then MetadataPath(link)
      else
        match Normalized(link)
        case Ok(_) => Ok(())
        case Err(kind) => Err(kind)
  }

  function MetadataBytes(entry: Entry): nat {
    |entry.path| + match entry.link { case None => 0 case Some(link) => |link| }
  }

  /** The shared counters with their ceilings, and the paths of the layer so far. */
  datatype Counters = Counters(entries: nat, bytes: nat, maxEntries: nat, maxBytes: nat)

  datatype Policy = Policy(paths: set<Bytes>, count: nat, budget: Counters)

  predicate WellFormed(p: Policy) {
    p.budget.maxEntries <= U32_MAX && p.budget.maxBytes <= U64_MAX
  }

  function Charged(c: Counters, entries: nat, bytes: nat): Result<Counters, Kind> {
    if c.entries + entries > U32_MAX || c.bytes + bytes > U64_MAX then Err(LimitExceeded)
    else if c.entries + entries > c.maxEntries || c.bytes + bytes > c.maxBytes then
      Err(LimitExceeded)
    else Ok(c.(entries := c.entries + entries, bytes := c.bytes + bytes))
  }

  function Observed(p: Policy, entry: Entry): Result<Policy, Kind> {
    if Normalized(entry.path).Err? then Err(Normalized(entry.path).error)
    else if Normalized(entry.path).value in p.paths then Err(InvalidInput)
    else if CheckedLink(entry).Err? then Err(CheckedLink(entry).error)
    else if p.count + 1 > U32_MAX then Err(LimitExceeded)
    else
      match Charged(p.budget, 1, MetadataBytes(entry))
      case Err(kind) => Err(kind)
      case Ok(budget) => Ok(Policy(p.paths + {Normalized(entry.path).value}, p.count + 1, budget))
  }

  function ObservedAll(p: Policy, entries: seq<Entry>): Result<Policy, Kind>
    decreases |entries|
  {
    if entries == [] then Ok(p)
    else
      match Observed(p, entries[0])
      case Err(kind) => Err(kind)
      case Ok(next) => ObservedAll(next, entries[1..])
  }

  // What a whole layer must look like

  predicate Acceptable(entry: Entry) { Normalized(entry.path).Ok? && CheckedLink(entry).Ok? }

  predicate SameLogicalPath(a: Entry, b: Entry) { Normalized(a.path) == Normalized(b.path) }

  ghost predicate AllDistinct(entries: seq<Entry>) {
    forall i, j :: 0 <= i < j < |entries| ==> !SameLogicalPath(entries[i], entries[j])
  }

  ghost predicate NewTo(paths: set<Bytes>, entries: seq<Entry>) {
    forall entry <- entries :: Normalized(entry.path).Ok? ==> Normalized(entry.path).value !in paths
  }

  function TotalMetadata(entries: seq<Entry>): nat {
    if entries == [] then 0 else MetadataBytes(entries[0]) + TotalMetadata(entries[1..])
  }

  ghost predicate Fits(p: Policy, entries: seq<Entry>) {
    && p.count + |entries| <= U32_MAX
    && p.budget.entries + |entries| <= p.budget.maxEntries
    && p.budget.bytes + TotalMetadata(entries) <= p.budget.maxBytes
  }

  ghost predicate Admissible(p: Policy, entries: seq<Entry>) {
    && (forall entry <- entries :: Acceptable(entry))
    && AllDistinct(entries)
    && NewTo(p.paths, entries)
    && (entries != [] ==> Fits(p, entries))
  }

  lemma AdmissibleTail(p: Policy, entries: seq<Entry>)
    requires WellFormed(p) && entries != [] && Admissible(p, entries)
    ensures Observed(p, entries[0]).Ok?
    ensures Admissible(Observed(p, entries[0]).value, entries[1..])
  {
    var first, rest := entries[0], entries[1..];
    assert first in entries;
    forall entry <- rest ensures !SameLogicalPath(first, entry) && entry in entries {
      var j :| 0 <= j < |rest| && rest[j] == entry;
      assert entries[j + 1] == entry;
    }
  }

  lemma AdmissibleCons(p: Policy, entries: seq<Entry>)
    requires WellFormed(p) && entries != [] && Observed(p, entries[0]).Ok?
    requires Admissible(Observed(p, entries[0]).value, entries[1..])
    ensures Admissible(p, entries)
  {
    var rest := entries[1..];
    assert entries == [entries[0]] + rest;
    forall i, j | 0 <= i < j < |entries| ensures !SameLogicalPath(entries[i], entries[j]) {
      assert rest[j - 1] == entries[j];
      if i > 0 { assert rest[i - 1] == entries[i]; }
    }
  }

  /**
   Layers are judged as a whole, whatever the order of the rejections: a sequence of entries is
   accepted exactly when each entry is acceptable, no two have the same logical path, none has
   one already taken, and all of them together fit what is left of the shared budget.
   */
  lemma {:induction false} AcceptedIffAdmissible(p: Policy, entries: seq<Entry>)
    requires WellFormed(p)
    ensures ObservedAll(p, entries).Ok? <==> Admissible(p, entries)
    decreases |entries|
  {
    if entries != [] {
      if Admissible(p, entries) { AdmissibleTail(p, entries); }
      if Observed(p, entries[0]).Ok? {
        var next := Observed(p, entries[0]).value;
        AcceptedIffAdmissible(next, entries[1..]);
        if Admissible(next, entries[1..]) { AdmissibleCons(p, entries); }
      }
    }
  }

  /** Every acceptance is counted: entries, metadata bytes and logical paths all add up. */
  lemma {:induction false} AcceptanceIsCounted(p: Policy, entries: seq<Entry>)
    requires ObservedAll(p, entries).Ok?
    ensures
      var after := ObservedAll(p, entries).value;
      && after.count == p.count + |entries|
      && after.budget == p.budget.(
           entries := p.budget.entries + |entries|,
           bytes := p.budget.bytes + TotalMetadata(entries))
      && p.paths <= after.paths
      && forall q :: q in after.paths <==>
           q in p.paths || exists entry <- entries :: Normalized(entry.path) == Ok(q)
    decreases |entries|
  {
    if entries != [] {
      assert entries == [entries[0]] + entries[1..];
      AcceptanceIsCounted(Observed(p, entries[0]).value, entries[1..]);
    }
  }

  // The same with mutable state

  class ValidationBudget {
    var entries: nat
    var pathMetadataBytes: nat
    const entryCeiling: nat
    const pathMetadataCeiling: nat

    constructor (entryCeiling: nat, pathMetadataCeiling: nat)
      ensures View() == Counters(0, 0, entryCeiling, pathMetadataCeiling)
    {
      entries, pathMetadataBytes := 0, 0;
      this.entryCeiling, this.pathMetadataCeiling := entryCeiling, pathMetadataCeiling;
    }

    ghost function View(): Counters
      reads this
    {
      Counters(entries, pathMetadataBytes, entryCeiling, pathMetadataCeiling)
    }

    method Observe(more: nat, bytes: nat) returns (r: Result<(), Kind>)
      modifies this
      ensures
        match Charged(old(View()), more, bytes)
        case Ok(after) => r == Ok(()) && View() == after
        case Err(kind) => r == Err(kind) && View() == old(View())
    {
      var nextEntries := entries + more;
      if nextEntries > U32_MAX { return Err(LimitExceeded); }
      var nextBytes := pathMetadataBytes + bytes;
      if nextBytes > U64_MAX { return Err(LimitExceeded); }
      if nextEntries > entryCeiling || nextBytes > pathMetadataCeiling {
        return Err(LimitExceeded);
      }
      entries, pathMetadataBytes := nextEntries, nextBytes;
      r := Ok(());
    }
  }

  class PathPolicy {
    var logicalPaths: set<Bytes>
    var entryCount: nat

    constructor ()
      ensures logicalPaths == {} && entryCount == 0
    {
      logicalPaths, entryCount := {}, 0;
    }

    ghost function View(budget: ValidationBudget): Policy
      reads this, budget
    {
      Policy(logicalPaths, entryCount, budget.View())
    }

    method Observe(entry: Entry, budget: ValidationBudget) returns (r: Result<(), Kind>)
      modifies this, budget
      ensures
        match Observed(old(View(budget)), entry)
        case Ok(after) => r == Ok(()) && View(budget) == after
        case Err(kind) => r == Err(kind) && View(budget) == old(View(budget))
    {
      var logicalPath := NormalizePath(entry.path);
      if logicalPath.Err? { return Err(logicalPath.error); }
      if logicalPath.value in logicalPaths { return Err(InvalidInput); }
      var metadataBytes := |entry.path|;
      if entry.link.Some? {
        if entry.hardLink {
          var target := NormalizePath(entry.link.value);
          if target.Err? { return Err(target.error); }
        } else {
          var target := MetadataPath(entry.link.value);
          if target.Err? { return target; }
        }
        metadataBytes := metadataBytes + |entry.link.value|;
      }
      var nextEntryCount := entryCount + 1;
      if nextEntryCount > U32_MAX { return Err(LimitExceeded); }
      r := budget.Observe(1, metadataBytes);
      if r.Ok? {
        entryCount := nextEntryCount;
        logicalPaths := logicalPaths + {logicalPath.value};
      }
    }
  }
}

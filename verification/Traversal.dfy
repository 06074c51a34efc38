/**
 The bounded walk over the index graph of an OCI image layout.

 A layout is any map from digests to stored blobs, so its indexes may refer to each other in any
 way, cycles included. The walk visits entries depth first, refuses a digest that is already on
 its path, counts every entry, and keeps the manifests that may match the selection.
 */
module Traversal {
  import opened Wrappers
  import opened Platform

  const MAX_METADATA_BYTES := 4 * 1024 * 1024
  const MAX_INDEX_DEPTH := 8

  type Digest = string

  datatype ErrorKind = InvalidInput | Unsupported | LimitExceeded | Integrity | Io

  datatype MediaType =
    | IndexType | ManifestType | ConfigType | PlainLayer | GzipLayer | OtherType

  /** The platform member of a descriptor document. */
  datatype PlatformWire = Absent | OsVersioned | Malformed | Declared(platform: OciPlatform)

  /** A descriptor as it stands in a document; `digest` is `None` when it does not parse. */
  datatype Wire = Wire(
    mediaType: MediaType, digest: Option<Digest>, size: int, platform: PlatformWire)

  datatype Descriptor = Descriptor(
    mediaType: MediaType, digest: Digest, size: nat, platform: Option<OciPlatform>)

  /** Entries of any other media type are counted and skipped. */
  predicate Walkable(w: Wire) {
    w.mediaType == IndexType || w.mediaType == ManifestType
  }

  function Validate(w: Wire): Result<Descriptor, ErrorKind> {
    if w.size < 0 then Err(InvalidInput)
    else
      match w.platform
      case OsVersioned => Err(Unsupported)
      case Malformed => Err(InvalidInput)
      case _ =>
        if w.digest.None? then Err(InvalidInput)
        else Ok(Descriptor(w.mediaType, w.digest.value, w.size,
                           if w.platform.Declared? then Some(w.platform.platform) else None))
  }

  datatype IndexDocument = IndexDocument(
    schemaVersion: nat, mediaTypeSupported: bool, manifests: seq<Wire>)

  datatype ManifestDocument = ManifestDocument(
    schemaVersion: nat, mediaTypeSupported: bool, config: Wire, layers: seq<Wire>)

  /** `platform` is what the platform members amount to; unparsable diff identifiers are `None`. */
  datatype ConfigDocument = ConfigDocument(
    platform: PlatformWire, rootfsIsLayers: bool, diffIds: seq<Option<Digest>>)

  /** A stored blob: its length, whether its bytes have its digest, and what they parse to. */
  datatype Blob = Blob(
    size: nat, intact: bool, index: Option<IndexDocument>,
    manifest: Option<ManifestDocument>, config: Option<ConfigDocument>)

  type Layout = map<Digest, Blob>

  datatype Limits = Limits(maxDescriptors: nat, maxBlobBytes: nat)

  /** `keep` is the test a manifest with its declared platform must pass to become a candidate. */
  datatype Search = Search(
    layout: Layout, limits: Limits, keep: (Descriptor, Option<OciPlatform>) -> bool)

  datatype Candidate = Candidate(
    manifest: Descriptor, indexes: seq<Descriptor>, declared: Option<OciPlatform>)

  datatype State = State(descriptors: nat, candidates: seq<Candidate>)

  // Reading

  function RequireIndex(index: IndexDocument): Result<seq<Wire>, ErrorKind> {
    if index.schemaVersion != 2 || !index.mediaTypeSupported then Err(Unsupported)
    else Ok(index.manifests)
  }

  /** Opens, reads and hashes one metadata blob. */
  function ReadBlob(layout: Layout, limits: Limits, d: Descriptor): Result<Blob, ErrorKind> {
    if d.size > MAX_METADATA_BYTES || d.size > limits.maxBlobBytes then Err(LimitExceeded)
    else if d.digest !in layout then Err(Io)
    else if layout[d.digest].size != d.size || !layout[d.digest].intact then Err(Integrity)
    else Ok(layout[d.digest])
  }

  function OpenIndex(s: Search, d: Descriptor): Result<seq<Wire>, ErrorKind> {
    match ReadBlob(s.layout, s.limits, d)
    case Err(error) => Err(error)
    case Ok(blob) =>
      if blob.index.None? then Err(InvalidInput) else RequireIndex(blob.index.value)
  }

  function Claims(path: seq<Descriptor>): seq<OciPlatform> {
    if path == [] then []
    else
      var rest := Claims(path[..|path| - 1]);
      match path[|path| - 1].platform
      case Some(claim) => rest + [claim]
      case None => rest
  }

  /** The merged claim of the indexes on the path and the manifest itself. */
  function DeclaredPlatform(path: seq<Descriptor>, manifest: Descriptor)
    : Result<Option<OciPlatform>, ErrorKind>
  {
    match MergeAll(Claims(path + [manifest]))
    case Some(declared) => Ok(declared)
    case None => Err(Integrity)
  }

  predicate OnPath(path: seq<Descriptor>, d: Descriptor) {
    exists ancestor <- path :: ancestor.digest == d.digest
  }

  // The walk as a function of its state

  function FindCandidate(candidates: seq<Candidate>, digest: Digest): (c: Option<Candidate>)
    ensures c.Some? ==> c.value in candidates && c.value.manifest.digest == digest
    ensures c.None? ==> forall c <- candidates :: c.manifest.digest != digest
  {
    if candidates == [] then None
    else if candidates[0].manifest.digest == digest then Some(candidates[0])
    else FindCandidate(candidates[1..], digest)
  }

  /** A second mention of a manifest must say what the first said. */
  predicate Same(c: Candidate, d: Descriptor, declared: Option<OciPlatform>) {
    && c.manifest.mediaType == d.mediaType
    && c.manifest.size == d.size
    && c.declared == declared
  }

  function AddOutcome(
    candidates: seq<Candidate>, d: Descriptor, path: seq<Descriptor>,
    declared: Option<OciPlatform>)
    : Result<seq<Candidate>, ErrorKind>
  {
    match FindCandidate(candidates, d.digest)
    case None => Ok(candidates + [Candidate(d, path, declared)])
    case Some(existing) =>
      if Same(existing, d, declared) then Ok(candidates) else Err(Integrity)
  }

  function Remaining(path: seq<Descriptor>): nat {
    if |path| <= MAX_INDEX_DEPTH then MAX_INDEX_DEPTH - |path| else 0
  }

  function WalkOutcome(s: Search, entries: seq<Wire>, path: seq<Descriptor>, st: State)
    : Result<State, ErrorKind>
    decreases Remaining(path), |entries| + 2
  {
    if |path| >= MAX_INDEX_DEPTH then Err(LimitExceeded) else EntriesOutcome(s, entries, path, st)
  }

  function EntriesOutcome(s: Search, entries: seq<Wire>, path: seq<Descriptor>, st: State)
    : Result<State, ErrorKind>
    requires |path| < MAX_INDEX_DEPTH
    decreases Remaining(path), |entries| + 1
  {
    if entries == [] then Ok(st)
    else
      match VisitOutcome(s, entries[0], path, st)
      case Ok(next) => EntriesOutcome(s, entries[1..], path, next)
      case Err(error) => Err(error)
  }

  /** A manifest becomes a candidate if it passes the test. */
  function RecordOutcome(
    s: Search, d: Descriptor, path: seq<Descriptor>, declared: Option<OciPlatform>, st: State)
    : Result<State, ErrorKind>
  {
    if !s.keep(d, declared) then Ok(st)
    else
      match AddOutcome(st.candidates, d, path, declared)
      case Ok(candidates) => Ok(st.(candidates := candidates))
      case Err(error) => Err(error)
  }

  function VisitOutcome(s: Search, w: Wire, path: seq<Descriptor>, st: State)
    : Result<State, ErrorKind>
    requires |path| < MAX_INDEX_DEPTH
    decreases Remaining(path), 0
  {
    if st.descriptors >= U32_MAX || st.descriptors + 1 > s.limits.maxDescriptors then
      Err(LimitExceeded)
    else
      var counted := st.(descriptors := st.descriptors + 1);
      if !Walkable(w) then Ok(counted)
      else
        match Validate(w)
        case Err(error) => Err(error)
        case Ok(d) =>
          if d.mediaType == IndexType then
            if OnPath(path, d) then Err(InvalidInput)
            else
              match OpenIndex(s, d)
              case Err(error) => Err(error)
              case Ok(nested) => WalkOutcome(s, nested, path + [d], counted)
          else
            match DeclaredPlatform(path, d)
            case Err(error) => Err(error)
            case Ok(declared) => RecordOutcome(s, d, path, declared, counted)
  }

  // The graph, without the walk

  /** The entry names `d` as something the walk looks at. */
  predicate Names(w: Wire, d: Descriptor) {
    Walkable(w) && Validate(w) == Ok(d)
  }

  /** The entry is an index that opens to `nested`. */
  predicate LeadsTo(s: Search, w: Wire, d: Descriptor, nested: seq<Wire>) {
    Names(w, d) && d.mediaType == IndexType && OpenIndex(s, d) == Ok(nested)
  }

  /** The entries found by following the indexes of `steps`, if that is possible. */
  function EntriesAt(s: Search, entries: seq<Wire>, steps: seq<Descriptor>): Option<seq<Wire>>
    decreases |steps|
  {
    if steps == [] then Some(entries)
    else if
      && (exists w <- entries :: Names(w, steps[0])) && steps[0].mediaType == IndexType
      && OpenIndex(s, steps[0]).Ok?
    then EntriesAt(s, OpenIndex(s, steps[0]).value, steps[1..])
    else None
  }

  /** Entry `w` stands at the end of path `at`, which continues `path` through `entries`. */
  ghost predicate Stands(
    s: Search, entries: seq<Wire>, path: seq<Descriptor>, at: seq<Descriptor>, w: Wire)
  {
    && path <= at
    && EntriesAt(s, entries, at[|path|..]).Some?
    && w in EntriesAt(s, entries, at[|path|..]).value
  }

  /** What stands below a list is its first entry, what that leads to, and what stands in the rest. */
  lemma StandsInCons(
    s: Search, entries: seq<Wire>, path: seq<Descriptor>, at: seq<Descriptor>, w: Wire)
    requires entries != []
    ensures Stands(s, entries, path, at, w) <==>
      || (at == path && w == entries[0])
      || Stands(s, entries[1..], path, at, w)
      || (exists d, nested ::
            LeadsTo(s, entries[0], d, nested) && Stands(s, nested, path + [d], at, w))
  {
    assert entries == [entries[0]] + entries[1..];
    if path <= at && at != path {
      var steps := at[|path|..];
      var d := steps[0];
      assert at[|path + [d]|..] == steps[1..];
      assert path + [d] <= at;
      if Stands(s, entries, path, at, w) && Names(entries[0], d) {
        assert LeadsTo(s, entries[0], d, OpenIndex(s, d).value);
        assert Stands(s, OpenIndex(s, d).value, path + [d], at, w);
      }
      if Stands(s, entries[1..], path, at, w) {
        var v :| v in entries[1..] && Names(v, d);
        assert v in entries;
      }
    }
    if d, nested :| LeadsTo(s, entries[0], d, nested) && Stands(s, nested, path + [d], at, w) {
      assert at[|path|] == d;
      var steps := at[|path|..];
      assert steps[0] == d && steps[1..] == at[|path + [d]|..];
      assert entries[0] in entries;
    }
  }

  /** An entry the walk can pass: valid, no cycle, readable and shallow enough, or consistent. */
  ghost predicate Acceptable(s: Search, at: seq<Descriptor>, w: Wire) {
    !Walkable(w) ||
      (Validate(w).Ok? &&
       var d := Validate(w).value;
       if d.mediaType == IndexType
       then !OnPath(at, d) && OpenIndex(s, d).Ok? && |at| + 1 < MAX_INDEX_DEPTH
       else DeclaredPlatform(at, d).Ok?)
  }

  /** A manifest the walk has to keep, with its declared platform. */
  ghost predicate Keeps(
    s: Search, at: seq<Descriptor>, w: Wire, d: Descriptor, declared: Option<OciPlatform>)
  {
    && Names(w, d) && d.mediaType == ManifestType
    && DeclaredPlatform(at, d) == Ok(declared)
    && s.keep(d, declared)
  }

  predicate Recorded(candidates: seq<Candidate>, d: Descriptor, declared: Option<OciPlatform>) {
    exists c <- candidates :: c.manifest.digest == d.digest && Same(c, d, declared)
  }

  /** The number of entries below a list, counted with repetition, as deep as the walk goes. */
  function Size(s: Search, entries: seq<Wire>, depth: nat): nat
    requires depth < MAX_INDEX_DEPTH
    decreases MAX_INDEX_DEPTH - depth, |entries| + 1
  {
    if entries == [] then 0
    else EntrySize(s, entries[0], depth) + Size(s, entries[1..], depth)
  }

  function EntrySize(s: Search, w: Wire, depth: nat): nat
    requires depth < MAX_INDEX_DEPTH
    decreases MAX_INDEX_DEPTH - depth, 0
  {
    if
      && w.mediaType == IndexType && Validate(w).Ok? && OpenIndex(s, Validate(w).value).Ok?
      && depth + 1 < MAX_INDEX_DEPTH
    then 1 + Size(s, OpenIndex(s, Validate(w).value).value, depth + 1)
    else 1
  }

  // A finished walk has passed and recorded everything

  /** Everything below the list is acceptable, and every manifest to keep is recorded. */
  ghost predicate Covered(
    s: Search, entries: seq<Wire>, path: seq<Descriptor>, candidates: seq<Candidate>)
  {
    && (forall at, w :: Stands(s, entries, path, at, w) ==> Acceptable(s, at, w))
    && (forall at, w, d, declared ::
          Stands(s, entries, path, at, w) && Keeps(s, at, w, d, declared) ==>
          Recorded(candidates, d, declared))
  }

  /** The entry itself and everything it leads to are covered. */
  ghost predicate EntryCovered(
    s: Search, w: Wire, path: seq<Descriptor>, candidates: seq<Candidate>)
  {
    && Acceptable(s, path, w)
    && (forall d, declared :: Keeps(s, path, w, d, declared) ==> Recorded(candidates, d, declared))
    && (forall d, nested :: LeadsTo(s, w, d, nested) ==>
          Covered(s, nested, path + [d], candidates))
  }

  lemma RecordedStays(
    cs: seq<Candidate>, more: seq<Candidate>, d: Descriptor, declared: Option<OciPlatform>)
    requires cs <= more && Recorded(cs, d, declared)
    ensures Recorded(more, d, declared)
  {
    var c :| c in cs && c.manifest.digest == d.digest && Same(c, d, declared);
    assert c in more;
  }

  lemma CoveredStays(
    s: Search, entries: seq<Wire>, path: seq<Descriptor>,
    cs: seq<Candidate>, more: seq<Candidate>)
    requires cs <= more && Covered(s, entries, path, cs)
    ensures Covered(s, entries, path, more)
  {
    forall at, w, d, declared
      | Stands(s, entries, path, at, w) && Keeps(s, at, w, d, declared)
      ensures Recorded(more, d, declared)
    {
      RecordedStays(cs, more, d, declared);
    }
  }

  lemma ConsCovered(
    s: Search, entries: seq<Wire>, path: seq<Descriptor>,
    cs: seq<Candidate>, more: seq<Candidate>)
    requires entries != [] && cs <= more
    requires EntryCovered(s, entries[0], path, cs) && Covered(s, entries[1..], path, more)
    ensures Covered(s, entries, path, more)
  {
    forall at, w | Stands(s, entries, path, at, w)
      ensures Acceptable(s, at, w)
      ensures forall d, declared :: Keeps(s, at, w, d, declared) ==> Recorded(more, d, declared)
    {
      StandsInCons(s, entries, path, at, w);
      if at == path && w == entries[0] {
        forall d, declared | Keeps(s, at, w, d, declared) ensures Recorded(more, d, declared) {
          RecordedStays(cs, more, d, declared);
        }
      } else if !Stands(s, entries[1..], path, at, w) {
        var d, nested :|
          LeadsTo(s, entries[0], d, nested) && Stands(s, nested, path + [d], at, w);
        CoveredStays(s, nested, path + [d], cs, more);
      }
    }
  }

  lemma {:induction false} WalkCovers(
    s: Search, entries: seq<Wire>, path: seq<Descriptor>, st: State)
    requires |path| < MAX_INDEX_DEPTH && EntriesOutcome(s, entries, path, st).Ok?
    ensures st.candidates <= EntriesOutcome(s, entries, path, st).value.candidates
    ensures Covered(s, entries, path, EntriesOutcome(s, entries, path, st).value.candidates)
    decreases Remaining(path), |entries| + 1
  {
    if entries == [] {
      forall at, w ensures !Stands(s, [], path, at, w) {}
    } else {
      var next := VisitOutcome(s, entries[0], path, st).value;
      VisitCovers(s, entries[0], path, st);
      WalkCovers(s, entries[1..], path, next);
      ConsCovered(s, entries, path, next.candidates,
                  EntriesOutcome(s, entries, path, st).value.candidates);
    }
  }

  lemma {:induction false} VisitCovers(s: Search, w: Wire, path: seq<Descriptor>, st: State)
    requires |path| < MAX_INDEX_DEPTH && VisitOutcome(s, w, path, st).Ok?
    ensures st.candidates <= VisitOutcome(s, w, path, st).value.candidates
    ensures EntryCovered(s, w, path, VisitOutcome(s, w, path, st).value.candidates)
    decreases Remaining(path), 0
  {
    if Walkable(w) {
      var d := Validate(w).value;
      if d.mediaType == IndexType {
        WalkCovers(s, OpenIndex(s, d).value, path + [d],
                   st.(descriptors := st.descriptors + 1));
      }
    }
  }

  // Every candidate comes from the graph, once

  /** The candidate's manifest stands at the end of the candidate's own path, and is to be kept. */
  ghost predicate FromGraph(
    s: Search, entries: seq<Wire>, path: seq<Descriptor>, c: Candidate)
  {
    exists w :: Stands(s, entries, path, c.indexes, w)
             && Keeps(s, c.indexes, w, c.manifest, c.declared)
  }

  ghost predicate AddsFromGraph(
    s: Search, entries: seq<Wire>, path: seq<Descriptor>,
    cs: seq<Candidate>, more: seq<Candidate>)
  {
    && cs <= more
    && forall i :: |cs| <= i < |more| ==> FromGraph(s, entries, path, more[i])
  }

  ghost predicate Distinct(cs: seq<Candidate>) {
    forall i, j :: 0 <= i < j < |cs| ==> cs[i].manifest.digest != cs[j].manifest.digest
  }

  lemma FromGraphInCons(s: Search, entries: seq<Wire>, path: seq<Descriptor>, c: Candidate)
    requires entries != []
    requires
      || FromGraph(s, entries[1..], path, c)
      || (exists d, nested ::
            LeadsTo(s, entries[0], d, nested) && FromGraph(s, nested, path + [d], c))
      || (c.indexes == path && Keeps(s, path, entries[0], c.manifest, c.declared))
    ensures FromGraph(s, entries, path, c)
  {
    if FromGraph(s, entries[1..], path, c) {
      var w :| Stands(s, entries[1..], path, c.indexes, w)
            && Keeps(s, c.indexes, w, c.manifest, c.declared);
      StandsInCons(s, entries, path, c.indexes, w);
    } else if d, nested :|
      LeadsTo(s, entries[0], d, nested) && FromGraph(s, nested, path + [d], c)
    {
      var w :| Stands(s, nested, path + [d], c.indexes, w)
            && Keeps(s, c.indexes, w, c.manifest, c.declared);
      StandsInCons(s, entries, path, c.indexes, w);
    } else {
      StandsInCons(s, entries, path, path, entries[0]);
    }
  }

  lemma {:induction false} WalkAddsFromGraph(
    s: Search, entries: seq<Wire>, path: seq<Descriptor>, st: State)
    requires |path| < MAX_INDEX_DEPTH && EntriesOutcome(s, entries, path, st).Ok?
    ensures AddsFromGraph(
      s, entries, path, st.candidates, EntriesOutcome(s, entries, path, st).value.candidates)
    ensures Distinct(st.candidates) ==>
      Distinct(EntriesOutcome(s, entries, path, st).value.candidates)
    decreases Remaining(path), |entries| + 1
  {
    if entries != [] {
      var next := VisitOutcome(s, entries[0], path, st).value;
      VisitAddsFromGraph(s, entries, path, st);
      WalkAddsFromGraph(s, entries[1..], path, next);
      var end := EntriesOutcome(s, entries, path, st).value.candidates;
      forall i | |st.candidates| <= i < |end| ensures FromGraph(s, entries, path, end[i]) {
        if i >= |next.candidates| { FromGraphInCons(s, entries, path, end[i]); }
      }
    }
  }

  lemma {:induction false} VisitAddsFromGraph(
    s: Search, entries: seq<Wire>, path: seq<Descriptor>, st: State)
    requires entries != []
    requires |path| < MAX_INDEX_DEPTH && VisitOutcome(s, entries[0], path, st).Ok?
    ensures AddsFromGraph(
      s, entries, path, st.candidates, VisitOutcome(s, entries[0], path, st).value.candidates)
    ensures Distinct(st.candidates) ==>
      Distinct(VisitOutcome(s, entries[0], path, st).value.candidates)
    decreases Remaining(path), 0
  {
    var w := entries[0];
    var end := VisitOutcome(s, w, path, st).value.candidates;
    if Walkable(w) {
      var d := Validate(w).value;
      if d.mediaType == IndexType {
        var nested := OpenIndex(s, d).value;
        WalkAddsFromGraph(s, nested, path + [d], st.(descriptors := st.descriptors + 1));
        forall i | |st.candidates| <= i < |end| ensures FromGraph(s, entries, path, end[i]) {
          assert LeadsTo(s, w, d, nested);
          FromGraphInCons(s, entries, path, end[i]);
        }
      } else {
        forall i | |st.candidates| <= i < |end| ensures FromGraph(s, entries, path, end[i]) {
          FromGraphInCons(s, entries, path, end[i]);
        }
      }
    }
  }

  lemma {:induction false} WalkCounts(
    s: Search, entries: seq<Wire>, path: seq<Descriptor>, st: State)
    requires |path| < MAX_INDEX_DEPTH && EntriesOutcome(s, entries, path, st).Ok?
    requires st.descriptors <= s.limits.maxDescriptors
    ensures EntriesOutcome(s, entries, path, st).value.descriptors
         == st.descriptors + Size(s, entries, |path|) <= s.limits.maxDescriptors
    decreases Remaining(path), |entries| + 1
  {
    if entries != [] {
      VisitCounts(s, entries[0], path, st);
      WalkCounts(s, entries[1..], path, VisitOutcome(s, entries[0], path, st).value);
    }
  }

  lemma {:induction false} VisitCounts(s: Search, w: Wire, path: seq<Descriptor>, st: State)
    requires |path| < MAX_INDEX_DEPTH && VisitOutcome(s, w, path, st).Ok?
    requires st.descriptors <= s.limits.maxDescriptors
    ensures VisitOutcome(s, w, path, st).value.descriptors
         == st.descriptors + EntrySize(s, w, |path|) <= s.limits.maxDescriptors
    decreases Remaining(path), 0
  {
    if w.mediaType == IndexType {
      var d := Validate(w).value;
      WalkCounts(s, OpenIndex(s, d).value, path + [d], st.(descriptors := st.descriptors + 1));
    }
  }

  // When the walk succeeds

  ghost predicate AgreesWith(
    cs: seq<Candidate>, d: Descriptor, declared: Option<OciPlatform>)
  {
    forall c <- cs :: c.manifest.digest == d.digest ==> Same(c, d, declared)
  }

  ghost predicate ConsistentWith(
    s: Search, entries: seq<Wire>, path: seq<Descriptor>,
    d: Descriptor, declared: Option<OciPlatform>)
  {
    forall at, w, d', declared' ::
      Stands(s, entries, path, at, w) && Keeps(s, at, w, d', declared') ==>
      d'.digest == d.digest ==> d'.size == d.size && declared' == declared
  }

  /** Manifests to keep that share a digest say the same of it, and agree with `cs`. */
  ghost predicate Consistent(
    s: Search, entries: seq<Wire>, path: seq<Descriptor>, cs: seq<Candidate>)
  {
    forall at, w, d, declared ::
      Stands(s, entries, path, at, w) && Keeps(s, at, w, d, declared) ==>
      && AgreesWith(cs, d, declared)
      && ConsistentWith(s, entries, path, d, declared)
  }

  /** Nothing below the list stops the walk. */
  ghost predicate Clear(s: Search, entries: seq<Wire>, path: seq<Descriptor>, st: State)
    requires |path| < MAX_INDEX_DEPTH
  {
    && (forall at, w :: Stands(s, entries, path, at, w) ==> Acceptable(s, at, w))
    && Consistent(s, entries, path, st.candidates)
    && st.descriptors + Size(s, entries, |path|) <= s.limits.maxDescriptors
  }

  lemma CandidateAgrees(
    s: Search, entries: seq<Wire>, path: seq<Descriptor>, c: Candidate,
    d: Descriptor, declared: Option<OciPlatform>)
    requires FromGraph(s, entries, path, c) && ConsistentWith(s, entries, path, d, declared)
    requires d.mediaType == ManifestType && c.manifest.digest == d.digest
    ensures Same(c, d, declared)
  {
  }

  /** A clear list stays clear after its first entry has been visited. */
  lemma RestIsClear(s: Search, entries: seq<Wire>, path: seq<Descriptor>, st: State, next: State)
    requires |path| < MAX_INDEX_DEPTH && entries != [] && Clear(s, entries, path, st)
    requires AddsFromGraph(s, entries, path, st.candidates, next.candidates)
    requires next.descriptors == st.descriptors + EntrySize(s, entries[0], |path|)
    ensures Clear(s, entries[1..], path, next)
  {
    forall at, w | Stands(s, entries[1..], path, at, w)
      ensures Stands(s, entries, path, at, w)
    {
      StandsInCons(s, entries, path, at, w);
    }
    forall at, w, d, declared
      | Stands(s, entries[1..], path, at, w) && Keeps(s, at, w, d, declared)
      ensures AgreesWith(next.candidates, d, declared)
      ensures ConsistentWith(s, entries[1..], path, d, declared)
    {
      assert AgreesWith(st.candidates, d, declared);
      assert ConsistentWith(s, entries, path, d, declared);
      forall c <- next.candidates | c.manifest.digest == d.digest ensures Same(c, d, declared) {
        var i :| 0 <= i < |next.candidates| && next.candidates[i] == c;
        if i < |st.candidates| {
          assert c == st.candidates[i];
        } else {
          CandidateAgrees(s, entries, path, c, d, declared);
        }
      }
    }
  }

  /** What a clear list's first entry leads to is clear. */
  lemma NestedIsClear(
    s: Search, entries: seq<Wire>, path: seq<Descriptor>, st: State,
    d: Descriptor, nested: seq<Wire>)
    requires |path| + 1 < MAX_INDEX_DEPTH && entries != [] && Clear(s, entries, path, st)
    requires LeadsTo(s, entries[0], d, nested)
    ensures Clear(s, nested, path + [d], st.(descriptors := st.descriptors + 1))
  {
    assert EntrySize(s, entries[0], |path|) == 1 + Size(s, nested, |path + [d]|);
    assert Size(s, entries, |path|) >= EntrySize(s, entries[0], |path|);
    forall at, w | Stands(s, nested, path + [d], at, w)
      ensures Stands(s, entries, path, at, w)
    {
      StandsInCons(s, entries, path, at, w);
    }
    forall at, w, d', declared
      | Stands(s, nested, path + [d], at, w) && Keeps(s, at, w, d', declared)
      ensures ConsistentWith(s, nested, path + [d], d', declared)
    {
      assert ConsistentWith(s, entries, path, d', declared);
    }
  }

  lemma {:induction false} ClearWalkSucceeds(
    s: Search, entries: seq<Wire>, path: seq<Descriptor>, st: State)
    requires |path| < MAX_INDEX_DEPTH && s.limits.maxDescriptors <= U32_MAX
    requires Clear(s, entries, path, st)
    ensures EntriesOutcome(s, entries, path, st).Ok?
    decreases Remaining(path), |entries| + 1
  {
    if entries != [] {
      ClearVisitSucceeds(s, entries, path, st);
      var next := VisitOutcome(s, entries[0], path, st).value;
      VisitAddsFromGraph(s, entries, path, st);
      VisitCounts(s, entries[0], path, st);
      RestIsClear(s, entries, path, st, next);
      ClearWalkSucceeds(s, entries[1..], path, next);
    }
  }

  lemma {:induction false} ClearVisitSucceeds(
    s: Search, entries: seq<Wire>, path: seq<Descriptor>, st: State)
    requires |path| < MAX_INDEX_DEPTH && s.limits.maxDescriptors <= U32_MAX
    requires entries != [] && Clear(s, entries, path, st)
    ensures VisitOutcome(s, entries[0], path, st).Ok?
    decreases Remaining(path), 0
  {
    var w := entries[0];
    StandsInCons(s, entries, path, path, w);
    assert Acceptable(s, path, w);
    assert Size(s, entries, |path|) >= EntrySize(s, w, |path|) >= 1;
    if Walkable(w) {
      var d := Validate(w).value;
      if d.mediaType == IndexType {
        var nested := OpenIndex(s, d).value;
        NestedIsClear(s, entries, path, st, d, nested);
        ClearWalkSucceeds(s, nested, path + [d], st.(descriptors := st.descriptors + 1));
      } else {
        var declared := DeclaredPlatform(path, d).value;
        if s.keep(d, declared) {
          assert Keeps(s, path, w, d, declared);
          assert AgreesWith(st.candidates, d, declared);
        }
      }
    }
  }

  const START := State(0, [])

  /** The walk from the top index of a layout. */
  function Traverse(s: Search, top: IndexDocument): Result<State, ErrorKind> {
    match RequireIndex(top)
    case Err(error) => Err(error)
    case Ok(entries) => WalkOutcome(s, entries, [], START)
  }

  lemma SuccessIsConsistent(s: Search, entries: seq<Wire>, cs: seq<Candidate>)
    requires Covered(s, entries, [], cs) && Distinct(cs)
    ensures Consistent(s, entries, [], [])
  {
    forall at, w, d, declared
      | Stands(s, entries, [], at, w) && Keeps(s, at, w, d, declared)
      ensures ConsistentWith(s, entries, [], d, declared)
    {
      assert Recorded(cs, d, declared);
      forall at', w', d', declared'
        | Stands(s, entries, [], at', w') && Keeps(s, at', w', d', declared')
        ensures d'.digest == d.digest ==> d'.size == d.size && declared' == declared
      {
        assert Recorded(cs, d', declared');
      }
    }
  }

  /**
   The walk from the top succeeds if and only if the graph is clear: every entry on every path
   is valid, no index repeats along a path or sits deeper than the limit, every index can be
   read, platform claims along a path agree, repeated mentions of a manifest to keep agree, and
   the entries number at most `maxDescriptors`.
   */
  lemma TraverseSucceedsIffClear(s: Search, top: IndexDocument)
    requires s.limits.maxDescriptors <= U32_MAX
    ensures Traverse(s, top).Ok? <==>
      RequireIndex(top).Ok? && Clear(s, top.manifests, [], START)
  {
    if RequireIndex(top).Ok? {
      var entries := top.manifests;
      if EntriesOutcome(s, entries, [], START).Ok? {
        WalkCovers(s, entries, [], START);
        WalkAddsFromGraph(s, entries, [], START);
        WalkCounts(s, entries, [], START);
        SuccessIsConsistent(s, entries, EntriesOutcome(s, entries, [], START).value.candidates);
      }
      if Clear(s, entries, [], START) {
        ClearWalkSucceeds(s, entries, [], START);
      }
    }
  }

  /** No two indexes of a path have the same digest. */
  ghost predicate Acyclic(path: seq<Descriptor>) {
    forall i, j :: 0 <= i < j < |path| ==> path[i].digest != path[j].digest
  }

  lemma {:induction false} LastStepStands(
    s: Search, entries: seq<Wire>, steps: seq<Descriptor>) returns (w: Wire)
    requires steps != [] && EntriesAt(s, entries, steps).Some?
    ensures EntriesAt(s, entries, steps[..|steps| - 1]).Some?
    ensures w in EntriesAt(s, entries, steps[..|steps| - 1]).value
    ensures Names(w, steps[|steps| - 1]) && steps[|steps| - 1].mediaType == IndexType
    decreases |steps|
  {
    if |steps| == 1 {
      w :| w in entries && Names(w, steps[0]);
    } else {
      w := LastStepStands(s, OpenIndex(s, steps[0]).value, steps[1..]);
      assert steps[1..][..|steps| - 2] == steps[..|steps| - 1][1..];
    }
  }

  lemma LastStepIsAcceptable(s: Search, entries: seq<Wire>, steps: seq<Descriptor>)
    requires forall at, w :: Stands(s, entries, [], at, w) ==> Acceptable(s, at, w)
    requires steps != [] && EntriesAt(s, entries, steps).Some?
    ensures EntriesAt(s, entries, steps[..|steps| - 1]).Some?
    ensures !OnPath(steps[..|steps| - 1], steps[|steps| - 1]) && |steps| < MAX_INDEX_DEPTH
  {
    var init := steps[..|steps| - 1];
    var w := LastStepStands(s, entries, steps);
    assert init[0..] == init;
    assert Stands(s, entries, [], init, w);
    assert Acceptable(s, init, w);
  }

  lemma AcyclicExtends(path: seq<Descriptor>, d: Descriptor)
    requires Acyclic(path) && !OnPath(path, d)
    ensures Acyclic(path + [d])
  {
    forall i | 0 <= i < |path| ensures path[i].digest != d.digest { assert path[i] in path; }
  }

  /** On a clear graph every path is acyclic and shorter than the depth limit. */
  lemma {:induction false} PathsAreShortAndAcyclic(
    s: Search, entries: seq<Wire>, steps: seq<Descriptor>)
    requires forall at, w :: Stands(s, entries, [], at, w) ==> Acceptable(s, at, w)
    requires EntriesAt(s, entries, steps).Some?
    ensures |steps| < MAX_INDEX_DEPTH && Acyclic(steps)
    decreases |steps|
  {
    if steps != [] {
      var init, last := steps[..|steps| - 1], steps[|steps| - 1];
      LastStepIsAcceptable(s, entries, steps);
      PathsAreShortAndAcyclic(s, entries, init);
      AcyclicExtends(init, last);
      assert steps == init + [last];
    }
  }

  /**
   What a successful walk returns. Its candidates have distinct digests; each stands at the end
   of its own acyclic path of fewer than eight indexes from the top and passes the selection;
   every reachable manifest that passes the selection is among them, with its size and declared
   platform; and the count is the number of entries of the unfolded graph, within the limit.
   */
  lemma TraversalIsExact(s: Search, top: IndexDocument)
    requires s.limits.maxDescriptors <= U32_MAX && Traverse(s, top).Ok?
    ensures
      var found := Traverse(s, top).value;
      && Distinct(found.candidates)
      && (forall c <- found.candidates ::
            && FromGraph(s, top.manifests, [], c)
            && |c.indexes| < MAX_INDEX_DEPTH && Acyclic(c.indexes))
      && (forall at, w, d, declared ::
            Stands(s, top.manifests, [], at, w) && Keeps(s, at, w, d, declared) ==>
            Recorded(found.candidates, d, declared))
      && found.descriptors == Size(s, top.manifests, 0) <= s.limits.maxDescriptors
  {
    var entries := top.manifests;
    WalkCovers(s, entries, [], START);
    WalkAddsFromGraph(s, entries, [], START);
    WalkCounts(s, entries, [], START);
    forall c <- Traverse(s, top).value.candidates
      ensures FromGraph(s, entries, [], c)
      ensures |c.indexes| < MAX_INDEX_DEPTH && Acyclic(c.indexes)
    {
      assert FromGraph(s, entries, [], c);
      var w :| Stands(s, entries, [], c.indexes, w)
            && Keeps(s, c.indexes, w, c.manifest, c.declared);
      assert c.indexes[0..] == c.indexes;
      PathsAreShortAndAcyclic(s, entries, c.indexes);
    }
  }

  // The walk with its mutable state

  /** One more claim of the path: no claim, the first claim, or a merge with those before. */
  function MergeNext(before: Option<Option<OciPlatform>>, d: Descriptor)
    : Option<Option<OciPlatform>>
  {
    match (before, d.platform)
    case (None, _) => None
    case (_, None) => before
    case (Some(None), claim) => Some(claim)
    case (Some(Some(current)), Some(claim)) =>
      match Merge(current, claim)
      case Some(merged) => Some(Some(merged))
      case None => None
  }

  lemma MergeAllNext(line: seq<Descriptor>, i: nat)
    requires i < |line|
    ensures MergeAll(Claims(line[..i + 1])) == MergeNext(MergeAll(Claims(line[..i])), line[i])
  {
    assert line[..i + 1][..i] == line[..i];
    var claims := Claims(line[..i]);
    if line[i].platform.Some? {
      assert (claims + [line[i].platform.value])[..|claims|] == claims;
    }
  }

  /** Claims that conflict on a prefix of the path conflict on the whole path. */
  lemma {:induction false} ConflictIsFinal(line: seq<Descriptor>, n: nat)
    requires n <= |line| && MergeAll(Claims(line[..n])) == None
    ensures MergeAll(Claims(line)) == None
    decreases |line| - n
  {
    if n == |line| {
      assert line[..n] == line;
    } else {
      MergeAllNext(line, n);
      ConflictIsFinal(line, n + 1);
    }
  }

  /** The loop that folds the claims along a path and of the manifest. */
  method FoldDeclaredPlatform(path: seq<Descriptor>, manifest: Descriptor)
    returns (declared: Result<Option<OciPlatform>, ErrorKind>)
    ensures declared == DeclaredPlatform(path, manifest)
  {
    var line := path + [manifest];
    var effective: Option<OciPlatform> := None;
    for i := 0 to |line|
      invariant MergeAll(Claims(line[..i])) == Some(effective)
    {
      MergeAllNext(line, i);
      if line[i].platform.Some? {
        if effective.None? {
          effective := line[i].platform;
        } else {
          effective := Merge(effective.value, line[i].platform.value);
          if effective.None? {
            ConflictIsFinal(line, i + 1);
            return Err(Integrity);
          }
        }
      }
    }
    assert line[..|line|] == line;
    declared := Ok(effective);
  }

  class Walker {
    const search: Search
    var descriptors: nat
    var candidates: seq<Candidate>

    constructor (search: Search)
      ensures this.search == search && View() == START
    {
      this.search := search;
      descriptors, candidates := 0, [];
    }

    ghost function View(): State
      reads this
    {
      State(descriptors, candidates)
    }

    /** The method did what `outcome` says; on an error the state no longer matters. */
    ghost predicate Did(outcome: Result<State, ErrorKind>, r: Result<(), ErrorKind>)
      reads this
    {
      match outcome
      case Ok(st) => r == Ok(()) && View() == st
      case Err(error) => r == Err(error)
    }

    method Walk(entries: seq<Wire>, path: seq<Descriptor>, depth: nat)
      returns (r: Result<(), ErrorKind>)
      requires depth == |path|
      modifies this
      ensures Did(WalkOutcome(search, entries, path, old(View())), r)
      decreases Remaining(path), 2
    {
      if depth >= MAX_INDEX_DEPTH { return Err(LimitExceeded); }
      for i := 0 to |entries|
        invariant EntriesOutcome(search, entries, path, old(View()))
               == EntriesOutcome(search, entries[i..], path, View())
      {
        r := Visit(entries[i], path, depth);
        assert entries[i..][1..] == entries[i + 1..];
        if r.Err? { return r; }
      }
      r := Ok(());
    }

    method Visit(w: Wire, path: seq<Descriptor>, depth: nat) returns (r: Result<(), ErrorKind>)
      requires depth == |path| < MAX_INDEX_DEPTH
      modifies this
      ensures Did(VisitOutcome(search, w, path, old(View())), r)
      decreases Remaining(path), 1
    {
      if descriptors >= U32_MAX { return Err(LimitExceeded); }
      descriptors := descriptors + 1;
      if descriptors > search.limits.maxDescriptors { return Err(LimitExceeded); }
      if !Walkable(w) { return Ok(()); }
      var validated := Validate(w);
      if validated.Err? { return Err(validated.error); }
      var d := validated.value;
      if d.mediaType == IndexType {
        r := WalkIndex(d, path, depth);
      } else {
        var declared := FoldDeclaredPlatform(path, d);
        if declared.Err? { return Err(declared.error); }
        if search.keep(d, declared.value) {
          r := AddCandidate(d, path, declared.value);
        } else {
          r := Ok(());
        }
      }
    }

    method WalkIndex(d: Descriptor, path: seq<Descriptor>, depth: nat)
      returns (r: Result<(), ErrorKind>)
      requires depth == |path| < MAX_INDEX_DEPTH
      modifies this
      ensures Did(
        if OnPath(path, d) then Err(InvalidInput)
        else match OpenIndex(search, d)
             case Err(error) => Err(error)
             case Ok(nested) => WalkOutcome(search, nested, path + [d], old(View())), r)
      decreases Remaining(path), 0
    {
      if OnPath(path, d) { return Err(InvalidInput); }
      var nested := OpenIndex(search, d);
      if nested.Err? { return Err(nested.error); }
      var nestedPath := path + [d];
      r := Walk(nested.value, nestedPath, depth + 1);
    }

    method AddCandidate(d: Descriptor, path: seq<Descriptor>, declared: Option<OciPlatform>)
      returns (r: Result<(), ErrorKind>)
      modifies this`candidates
      ensures
        match AddOutcome(old(candidates), d, path, declared)
        case Ok(more) => r == Ok(()) && candidates == more
        case Err(error) => r == Err(error) && candidates == old(candidates)
    {
      var existing := FindCandidate(candidates, d.digest);
      if existing.Some? {
        if !Same(existing.value, d, declared) { return Err(Integrity); }
        return Ok(());
      }
      candidates := candidates + [Candidate(d, path, declared)];
      r := Ok(());
    }
  }
}

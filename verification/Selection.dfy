/**
 Selecting one image among the candidates of a traversal, and why dropping manifests early, by
 their declared platform alone, never changes the selection.
 */
module Selection {
  import opened Wrappers
  import opened Platform
  import opened Traversal

  datatype Selection =
    | Exact(digest: Digest, platform: OciPlatform)
    | ForPlatform(requested: OciPlatform)

  /** The test a manifest has to pass during the walk. */
  function Keep(sel: Selection): (Descriptor, Option<OciPlatform>) -> bool {
    match sel
    case Exact(digest, _) => (d: Descriptor, _) => d.digest == digest
    case ForPlatform(requested) => (_, declared) => EarlyKeeps(requested, declared)
  }

  datatype Image = Image(
    candidate: Candidate, config: Descriptor, platform: OciPlatform,
    layers: seq<(Descriptor, Digest)>)

  datatype SelectError = Refused(kind: ErrorKind) | NotFound | Ambiguous

  // Verifying one candidate

  /** The number of descriptors seen so far and the image, when the candidate matches. */
  datatype Judgement = Judgement(count: nat, image: Option<Image>)

  function VerifyLayer(limits: Limits, w: Wire, diffId: Option<Digest>)
    : Result<(Descriptor, Digest), ErrorKind>
  {
    match Validate(w)
    case Err(error) => Err(error)
    case Ok(d) =>
      if d.mediaType != PlainLayer && d.mediaType != GzipLayer then Err(Unsupported)
      else if d.size > limits.maxBlobBytes then Err(LimitExceeded)
      else if diffId.None? then Err(InvalidInput)
      else Ok((d, diffId.value))
  }

  function VerifyLayers(limits: Limits, layers: seq<Wire>, diffIds: seq<Option<Digest>>)
    : Result<seq<(Descriptor, Digest)>, ErrorKind>
    requires |layers| == |diffIds|
  {
    if layers == [] then Ok([])
    else
      match VerifyLayer(limits, layers[0], diffIds[0])
      case Err(error) => Err(error)
      case Ok(layer) => Prepend([layer], VerifyLayers(limits, layers[1..], diffIds[1..]))
  }

  /** The loop over the layers and their diff identifiers, pushing what it verifies. */
  method VerifyLayersLoop(limits: Limits, layers: seq<Wire>, diffIds: seq<Option<Digest>>)
    returns (r: Result<seq<(Descriptor, Digest)>, ErrorKind>)
    requires |layers| == |diffIds|
    ensures r == VerifyLayers(limits, layers, diffIds)
  {
    var verified: seq<(Descriptor, Digest)> := [];
    ghost var all := VerifyLayers(limits, layers, diffIds);
    PrependTwice([], [], all);
    assert layers[0..] == layers && diffIds[0..] == diffIds;
    for i := 0 to |layers|
      invariant all == Prepend(verified, VerifyLayers(limits, layers[i..], diffIds[i..]))
    {
      assert layers[i..][1..] == layers[i + 1..] && diffIds[i..][1..] == diffIds[i + 1..];
      var layer := VerifyLayer(limits, layers[i], diffIds[i]);
      if layer.Err? { return Err(layer.error); }
      PrependTwice(
        verified, [layer.value], VerifyLayers(limits, layers[i + 1..], diffIds[i + 1..]));
      verified := verified + [layer.value];
    }
    assert verified + [] == verified;
    r := Ok(verified);
  }

  function ReadManifest(layout: Layout, limits: Limits, c: Candidate)
    : Result<ManifestDocument, ErrorKind>
  {
    match ReadBlob(layout, limits, c.manifest)
    case Err(error) => Err(error)
    case Ok(blob) =>
      if blob.manifest.None? then Err(InvalidInput)
      else if blob.manifest.value.schemaVersion != 2 || !blob.manifest.value.mediaTypeSupported
      then Err(Unsupported)
      else Ok(blob.manifest.value)
  }

  function ReadConfig(layout: Layout, limits: Limits, w: Wire)
    : Result<(Descriptor, OciPlatform, seq<Option<Digest>>), ErrorKind>
  {
    match Validate(w)
    case Err(error) => Err(error)
    case Ok(d) =>
      if d.mediaType != ConfigType then Err(Unsupported)
      else
        match ReadBlob(layout, limits, d)
        case Err(error) => Err(error)
        case Ok(blob) =>
          if blob.config.None? then Err(InvalidInput)
          else
            var config := blob.config.value;
            match config.platform
            case OsVersioned => Err(Unsupported)
            case Absent | Malformed => Err(InvalidInput)
            case Declared(platform) =>
              if !config.rootfsIsLayers then Err(Unsupported)
              else Ok((d, platform, config.diffIds))
  }

  /** The platform the candidate has in the end must satisfy the selection. */
  predicate SelectionMatches(sel: Selection, platform: OciPlatform) {
    match sel
    case Exact(_, expected) => Matches(expected, platform)
    case ForPlatform(requested) => Matches(requested, platform)
  }

  function JudgeManifest(
    layout: Layout, limits: Limits, sel: Selection, c: Candidate, manifest: ManifestDocument)
    : Result<Option<Image>, ErrorKind>
  {
    match ReadConfig(layout, limits, manifest.config)
    case Err(error) => Err(error)
    case Ok((config, configPlatform, diffIds)) =>
      match Effective(c.declared, configPlatform)
      case None => Err(Integrity)
      case Some(platform) =>
        if !SelectionMatches(sel, platform) then
          if sel.Exact? then Err(Integrity) else Ok(None)
        else if |manifest.layers| != |diffIds| then Err(Integrity)
        else
          match VerifyLayers(limits, manifest.layers, diffIds)
          case Err(error) => Err(error)
          case Ok(layers) => Ok(Some(Image(c, config, platform, layers)))
  }

  function VerifyCandidate(
    layout: Layout, limits: Limits, sel: Selection, c: Candidate, count: nat)
    : Result<Judgement, ErrorKind>
  {
    match ReadManifest(layout, limits, c)
    case Err(error) => Err(error)
    case Ok(manifest) =>
      var counted := count + |manifest.layers| + 1;
      if counted > U32_MAX || counted > limits.maxDescriptors then Err(LimitExceeded)
      else
        match JudgeManifest(layout, limits, sel, c, manifest)
        case Err(error) => Err(error)
        case Ok(image) => Ok(Judgement(counted, image))
  }

  // Selecting

  /** The verification of one candidate, given how many descriptors have been seen. */
  type Verifier = (Candidate, nat) -> Result<Judgement, ErrorKind>

  function VerifierFor(layout: Layout, limits: Limits, sel: Selection): Verifier {
    (c: Candidate, count: nat) => VerifyCandidate(layout, limits, sel, c, count)
  }

  function Found(j: Judgement): seq<Image> {
    if j.image.Some? then [j.image.value] else []
  }

  /** The images of all candidates, verified in order with the count carried along. */
  function AllMatches(verify: Verifier, cs: seq<Candidate>, count: nat)
    : Result<seq<Image>, ErrorKind>
  {
    if cs == [] then Ok([])
    else
      match verify(cs[0], count)
      case Err(error) => Err(error)
      case Ok(j) => Prepend(Found(j), AllMatches(verify, cs[1..], j.count))
  }

  function ChooseOne(matched: seq<Image>): Result<Image, SelectError> {
    if |matched| == 0 then Err(NotFound)
    else if |matched| == 1 then Ok(matched[0])
    else Err(Ambiguous)
  }

  function SelectImage(layout: Layout, limits: Limits, sel: Selection, found: State)
    : Result<Image, SelectError>
  {
    match AllMatches(VerifierFor(layout, limits, sel), found.candidates, found.descriptors)
    case Err(kind) => Err(Refused(kind))
    case Ok(matched) => ChooseOne(matched)
  }

  /** The selection loop, which pushes matches and carries the descriptor count along. */
  method SelectImageLoop(layout: Layout, limits: Limits, sel: Selection, found: State)
    returns (image: Result<Image, SelectError>)
    ensures image == SelectImage(layout, limits, sel, found)
  {
    var matched: seq<Image> := [];
    var count := found.descriptors;
    var verify := VerifierFor(layout, limits, sel);
    ghost var all := AllMatches(verify, found.candidates, found.descriptors);
    PrependTwice([], [], all);
    assert found.candidates[0..] == found.candidates;
    for i := 0 to |found.candidates|
      invariant all == Prepend(matched, AllMatches(verify, found.candidates[i..], count))
    {
      var verified := verify(found.candidates[i], count);
      assert found.candidates[i..][1..] == found.candidates[i + 1..];
      if verified.Err? { return Err(Refused(verified.error)); }
      count := verified.value.count;
      PrependTwice(matched, Found(verified.value),
                   AllMatches(verify, found.candidates[i + 1..], count));
      matched := matched + Found(verified.value);
    }
    match |matched| {
      case 0 => image := Err(NotFound);
      case 1 => image := Ok(matched[0]);
      case _ => image := Err(Ambiguous);
    }
  }

  // Dropping candidates early during the walk

  function Filter(
    keep: (Descriptor, Option<OciPlatform>) -> bool, cs: seq<Candidate>): seq<Candidate>
  {
    if cs == [] then []
    else
      var rest := Filter(keep, cs[..|cs| - 1]);
      var last := cs[|cs| - 1];
      if keep(last.manifest, last.declared) then rest + [last] else rest
  }

  /** The test gives one answer for all mentions of a digest with one declared platform. */
  ghost predicate Uniform(keep: (Descriptor, Option<OciPlatform>) -> bool) {
    forall a: Descriptor, b: Descriptor, declared ::
      a.digest == b.digest ==> keep(a, declared) == keep(b, declared)
  }

  lemma {:induction false} FilterMembers(
    keep: (Descriptor, Option<OciPlatform>) -> bool, cs: seq<Candidate>)
    ensures forall c :: c in Filter(keep, cs) <==> c in cs && keep(c.manifest, c.declared)
    decreases |cs|
  {
    if cs != [] {
      FilterMembers(keep, cs[..|cs| - 1]);
      assert cs == cs[..|cs| - 1] + [cs[|cs| - 1]];
    }
  }

  function Pruned(s: Search, st: State): State {
    st.(candidates := Filter(s.keep, st.candidates))
  }

  predicate KeepAll(d: Descriptor, declared: Option<OciPlatform>) {
    true
  }

  /** The same search without the early test. */
  function Unpruned(s: Search): Search {
    s.(keep := KeepAll)
  }

  /** With distinct digests, a kept candidate is found among the kept ones just as among all. */
  lemma FindInFilter(
    keep: (Descriptor, Option<OciPlatform>) -> bool, cs: seq<Candidate>, c: Candidate)
    requires Distinct(cs) && c in cs && keep(c.manifest, c.declared)
    ensures FindCandidate(Filter(keep, cs), c.manifest.digest) == Some(c)
  {
    FilterMembers(keep, cs);
    var f := FindCandidate(Filter(keep, cs), c.manifest.digest);
    assert f.Some? by { if f.None? { assert c in Filter(keep, cs); } }
    assert f.value in cs;
  }

  /** Recording a manifest and then filtering is filtering and then recording it if kept. */
  lemma AddThenFilter(
    keep: (Descriptor, Option<OciPlatform>) -> bool, cs: seq<Candidate>,
    d: Descriptor, path: seq<Descriptor>, declared: Option<OciPlatform>)
    requires Uniform(keep) && Distinct(cs) && AddOutcome(cs, d, path, declared).Ok?
    ensures
      var after := Filter(keep, AddOutcome(cs, d, path, declared).value);
      if keep(d, declared) then AddOutcome(Filter(keep, cs), d, path, declared) == Ok(after)
      else after == Filter(keep, cs)
  {
    FilterMembers(keep, cs);
    match FindCandidate(cs, d.digest) {
      case None =>
        var c := Candidate(d, path, declared);
        assert (cs + [c])[..|cs|] == cs;
      case Some(c) =>
        assert keep(c.manifest, declared) == keep(d, declared);
        if keep(d, declared) { FindInFilter(keep, cs, c); }
    }
  }

  /**
   Pruning commutes with the walk: when the unpruned walk of a list succeeds, the pruned walk
   from the pruned state succeeds too, with the same count and exactly the kept candidates.
   */
  lemma {:induction false} WalkThenPrune(
    s: Search, entries: seq<Wire>, path: seq<Descriptor>, st: State)
    requires Uniform(s.keep) && Distinct(st.candidates) && |path| < MAX_INDEX_DEPTH
    requires EntriesOutcome(Unpruned(s), entries, path, st).Ok?
    ensures EntriesOutcome(s, entries, path, Pruned(s, st))
         == Ok(Pruned(s, EntriesOutcome(Unpruned(s), entries, path, st).value))
    decreases Remaining(path), |entries| + 1
  {
    if entries != [] {
      var next := VisitOutcome(Unpruned(s), entries[0], path, st).value;
      VisitThenPrune(s, entries[0], path, st);
      VisitAddsFromGraph(Unpruned(s), entries, path, st);
      WalkThenPrune(s, entries[1..], path, next);
    }
  }

  lemma RecordThenPrune(
    s: Search, d: Descriptor, path: seq<Descriptor>, declared: Option<OciPlatform>, st: State)
    requires Uniform(s.keep) && Distinct(st.candidates)
    requires RecordOutcome(Unpruned(s), d, path, declared, st).Ok?
    ensures RecordOutcome(s, d, path, declared, Pruned(s, st))
         == Ok(Pruned(s, RecordOutcome(Unpruned(s), d, path, declared, st).value))
  {
    AddThenFilter(s.keep, st.candidates, d, path, declared);
  }

  lemma {:induction false} VisitThenPrune(s: Search, w: Wire, path: seq<Descriptor>, st: State)
    requires Uniform(s.keep) && Distinct(st.candidates) && |path| < MAX_INDEX_DEPTH
    requires VisitOutcome(Unpruned(s), w, path, st).Ok?
    ensures VisitOutcome(s, w, path, Pruned(s, st))
         == Ok(Pruned(s, VisitOutcome(Unpruned(s), w, path, st).value))
    decreases Remaining(path), 0
  {
    if Walkable(w) {
      var d := Validate(w).value;
      if d.mediaType == IndexType {
        assert OpenIndex(s, d) == OpenIndex(Unpruned(s), d);
        WalkThenPrune(s, OpenIndex(s, d).value, path + [d],
                      st.(descriptors := st.descriptors + 1));
      } else {
        RecordThenPrune(s, d, path, DeclaredPlatform(path, d).value,
                        st.(descriptors := st.descriptors + 1));
      }
    }
  }

  // Dropping candidates early does not change the images

  /** Verification looks at the count only to bound it, so a smaller count changes nothing else. */
  ghost predicate CountOnlyBounds(verify: Verifier) {
    forall c, count: nat, less: nat :: less <= count && verify(c, count).Ok? ==>
      && verify(c, count).value.count >= count
      && verify(c, less) == Ok(Judgement(
           verify(c, count).value.count - (count - less), verify(c, count).value.image))
  }

  /** Candidates that fail the early test never match. */
  ghost predicate DropsOnlyMisses(
    verify: Verifier, keep: (Descriptor, Option<OciPlatform>) -> bool)
  {
    forall c: Candidate, count: nat ::
      !keep(c.manifest, c.declared) && verify(c, count).Ok? ==>
      verify(c, count).value.image == None
  }

  lemma PlatformVerifierDropsOnlyMisses(layout: Layout, limits: Limits, requested: OciPlatform)
    ensures
      var sel := ForPlatform(requested);
      && CountOnlyBounds(VerifierFor(layout, limits, sel))
      && DropsOnlyMisses(VerifierFor(layout, limits, sel), Keep(sel))
  {
    var sel := ForPlatform(requested);
    var verify := VerifierFor(layout, limits, sel);
    forall c: Candidate, count: nat
      | !Keep(sel)(c.manifest, c.declared) && verify(c, count).Ok?
      ensures verify(c, count).value.image == None
    {
      EarlyRejectionIsExact(requested, c.declared);
    }
  }

  lemma {:induction false} FilterFirst(
    keep: (Descriptor, Option<OciPlatform>) -> bool, cs: seq<Candidate>)
    requires cs != []
    ensures Filter(keep, cs)
         == (if keep(cs[0].manifest, cs[0].declared) then [cs[0]] else [])
            + Filter(keep, cs[1..])
    decreases |cs|
  {
    if |cs| == 1 {
      assert Filter(keep, cs[..0]) == [];
    } else {
      FilterFirst(keep, cs[..|cs| - 1]);
      assert cs[..|cs| - 1][1..] == cs[1..][..|cs| - 2];
    }
  }

  lemma {:induction false} MatchesSurviveFilter(
    verify: Verifier, keep: (Descriptor, Option<OciPlatform>) -> bool, cs: seq<Candidate>,
    count: nat, less: nat)
    requires CountOnlyBounds(verify) && DropsOnlyMisses(verify, keep)
    requires less <= count && AllMatches(verify, cs, count).Ok?
    ensures AllMatches(verify, Filter(keep, cs), less) == AllMatches(verify, cs, count)
    decreases |cs|
  {
    if cs != [] {
      var c, rest := cs[0], cs[1..];
      var j := verify(c, count).value;
      FilterFirst(keep, cs);
      if keep(c.manifest, c.declared) {
        MatchesSurviveFilter(verify, keep, rest, j.count, j.count - (count - less));
        assert Filter(keep, cs)[1..] == Filter(keep, rest);
      } else {
        MatchesSurviveFilter(verify, keep, rest, j.count, less);
        assert Filter(keep, cs) == Filter(keep, rest);
        PrependTwice([], [], AllMatches(verify, rest, j.count));
      }
    }
  }

  /**
   Early pruning preserves selection by platform. Whenever the simple search, which keeps every
   reachable manifest and reads every config, gets through without an error, the pruned search
   gets through as well and ends the same way: the same image, none, or ambiguous.
   */
  lemma PruningPreservesSelection(
    layout: Layout, limits: Limits, requested: OciPlatform, top: IndexDocument)
    requires
      var verify := VerifierFor(layout, limits, ForPlatform(requested));
      var all := Traverse(Search(layout, limits, KeepAll), top);
      all.Ok? && AllMatches(verify, all.value.candidates, all.value.descriptors).Ok?
    ensures
      var sel := ForPlatform(requested);
      var pruned := Traverse(Search(layout, limits, Keep(sel)), top);
      var all := Traverse(Search(layout, limits, KeepAll), top);
      && pruned.Ok?
      && pruned.value.candidates == Filter(Keep(sel), all.value.candidates)
      && SelectImage(layout, limits, sel, pruned.value)
         == SelectImage(layout, limits, sel, all.value)
  {
    var sel := ForPlatform(requested);
    var s := Search(layout, limits, Keep(sel));
    assert Unpruned(s) == Search(layout, limits, KeepAll);
    assert Pruned(s, START) == START;
    WalkThenPrune(s, top.manifests, [], START);
    var all := Traverse(Unpruned(s), top).value;
    PlatformVerifierDropsOnlyMisses(layout, limits, requested);
    MatchesSurviveFilter(
      VerifierFor(layout, limits, sel), Keep(sel), all.candidates, all.descriptors,
      all.descriptors);
  }

  // What the selected image is

  /** The image a candidate amounts to does not depend on the count it is verified with. */
  ghost predicate Amounts(verify: Verifier, c: Candidate, image: Option<Image>) {
    exists count: nat :: verify(c, count).Ok? && verify(c, count).value.image == image
  }

  lemma {:induction false} NoMatches(verify: Verifier, cs: seq<Candidate>, count: nat, i: nat)
    requires AllMatches(verify, cs, count) == Ok([]) && i < |cs|
    ensures Amounts(verify, cs[i], None)
    decreases |cs|
  {
    var j := verify(cs[0], count).value;
    if i > 0 { NoMatches(verify, cs[1..], j.count, i - 1); }
  }

  lemma {:induction false} OneMatch(
    verify: Verifier, cs: seq<Candidate>, count: nat, image: Image) returns (i: nat)
    requires AllMatches(verify, cs, count) == Ok([image])
    ensures i < |cs| && Amounts(verify, cs[i], Some(image))
    ensures forall j :: 0 <= j < |cs| && j != i ==> Amounts(verify, cs[j], None)
    decreases |cs|
  {
    var first := verify(cs[0], count).value;
    var rest := AllMatches(verify, cs[1..], first.count).value;
    if first.image.None? {
      assert rest == [image];
      i := OneMatch(verify, cs[1..], first.count, image);
      i := i + 1;
      assert Amounts(verify, cs[0], None);
    } else {
      i := 0;
      assert [first.image.value] + rest == [image];
      assert ([first.image.value] + rest)[0] == image && rest == [];
      assert Amounts(verify, cs[0], Some(image));
      forall j | 0 < j < |cs| ensures Amounts(verify, cs[j], None) {
        NoMatches(verify, cs[1..], first.count, j - 1);
      }
    }
  }

  lemma ImageBelongs(
    layout: Layout, limits: Limits, sel: Selection, c: Candidate, count: nat, image: Image)
    requires VerifyCandidate(layout, limits, sel, c, count).Ok?
    requires VerifyCandidate(layout, limits, sel, c, count).value.image == Some(image)
    ensures image.candidate == c && SelectionMatches(sel, image.platform)
  {
  }

  /**
   A selected image belongs to one of the candidates, satisfies the selection with the platform
   its config and its claims give it together, and no other candidate matches.
   */
  lemma SelectedIsTheOnlyMatch(layout: Layout, limits: Limits, sel: Selection, found: State)
    requires SelectImage(layout, limits, sel, found).Ok?
    ensures
      var image := SelectImage(layout, limits, sel, found).value;
      var verify := VerifierFor(layout, limits, sel);
      var cs := found.candidates;
      && SelectionMatches(sel, image.platform)
      && exists i ::
           && 0 <= i < |cs| && image.candidate == cs[i]
           && forall j :: 0 <= j < |cs| && j != i ==> Amounts(verify, cs[j], None)
  {
    var image := SelectImage(layout, limits, sel, found).value;
    var verify := VerifierFor(layout, limits, sel);
    assert AllMatches(verify, found.candidates, found.descriptors).value == [image];
    var i := OneMatch(verify, found.candidates, found.descriptors, image);
    var count: nat :| verify(found.candidates[i], count).Ok?
              && verify(found.candidates[i], count).value.image == Some(image);
    ImageBelongs(layout, limits, sel, found.candidates[i], count, image);
  }

  // Selection by digest

  lemma {:induction false} NoMoreMatchesThanCandidates(
    verify: Verifier, cs: seq<Candidate>, count: nat)
    requires AllMatches(verify, cs, count).Ok?
    ensures |AllMatches(verify, cs, count).value| <= |cs|
    decreases |cs|
  {
    if cs != [] {
      NoMoreMatchesThanCandidates(verify, cs[1..], verify(cs[0], count).value.count);
    }
  }

  lemma TwoHaveTwoDigests(cs: seq<Candidate>, digest: Digest)
    requires Distinct(cs) && |cs| > 1
    ensures exists c <- cs :: c.manifest.digest != digest
  {
    var c := if cs[0].manifest.digest != digest then cs[0] else cs[1];
    assert c in cs;
  }

  /** A manifest with that digest is reachable and its claims agree. */
  ghost predicate Reachable(s: Search, top: IndexDocument, digest: Digest) {
    exists at, w, d, declared ::
      Stands(s, top.manifests, [], at, w) && Keeps(s, at, w, d, declared) && d.digest == digest
  }

  /** A walk by digest finds the one manifest of that digest exactly if it is reachable. */
  lemma ExactWalk(s: Search, digest: Digest, platform: OciPlatform, top: IndexDocument)
    requires s.limits.maxDescriptors <= U32_MAX && s.keep == Keep(Exact(digest, platform))
    requires Traverse(s, top).Ok?
    ensures
      var cs := Traverse(s, top).value.candidates;
      && |cs| <= 1 && (forall c <- cs :: c.manifest.digest == digest)
      && (cs == [] <==> !Reachable(s, top, digest))
  {
    var cs := Traverse(s, top).value.candidates;
    TraversalIsExact(s, top);
    forall c <- cs ensures c.manifest.digest == digest && Reachable(s, top, digest) {
      assert FromGraph(s, top.manifests, [], c);
    }
    if |cs| > 1 { TwoHaveTwoDigests(cs, digest); }
    if cs != [] { assert cs[0] in cs; }
    if Reachable(s, top, digest) {
      var at, w, d, declared :|
        Stands(s, top.manifests, [], at, w) && Keeps(s, at, w, d, declared) && d.digest == digest;
      assert Recorded(cs, d, declared);
    }
  }

  lemma SelectedFromOne(
    layout: Layout, limits: Limits, sel: Selection, found: State, digest: Digest)
    requires |found.candidates| <= 1
    requires forall c <- found.candidates :: c.manifest.digest == digest
    ensures
      var image := SelectImage(layout, limits, sel, found);
      && image != Err(Ambiguous)
      && (found.candidates == [] ==> image == Err(NotFound))
      && (image.Ok? ==>
            && image.value.candidate.manifest.digest == digest
            && SelectionMatches(sel, image.value.platform))
  {
    var verify := VerifierFor(layout, limits, sel);
    if AllMatches(verify, found.candidates, found.descriptors).Ok? {
      NoMoreMatchesThanCandidates(verify, found.candidates, found.descriptors);
    }
    if SelectImage(layout, limits, sel, found).Ok? {
      SelectedIsTheOnlyMatch(layout, limits, sel, found);
    }
  }

  /**
   Selecting by digest: a walk that succeeds finds one candidate, of that digest, or none, and
   it finds none exactly when no such manifest is reachable. The selection is never ambiguous,
   and a selected image has that digest and the platform asked for.
   */
  lemma ExactSelectionIsUnambiguous(
    layout: Layout, limits: Limits, digest: Digest, platform: OciPlatform, top: IndexDocument)
    requires limits.maxDescriptors <= U32_MAX
    requires Traverse(Search(layout, limits, Keep(Exact(digest, platform))), top).Ok?
    ensures
      var sel := Exact(digest, platform);
      var s := Search(layout, limits, Keep(sel));
      var found := Traverse(s, top).value;
      var image := SelectImage(layout, limits, sel, found);
      && |found.candidates| <= 1 && image != Err(Ambiguous)
      && (!Reachable(s, top, digest) ==> image == Err(NotFound))
      && (image.Ok? ==>
            && Reachable(s, top, digest) && image.value.candidate.manifest.digest == digest
            && SelectionMatches(sel, image.value.platform))
  {
    var sel := Exact(digest, platform);
    var s := Search(layout, limits, Keep(sel));
    ExactWalk(s, digest, platform, top);
    SelectedFromOne(layout, limits, sel, Traverse(s, top).value, digest);
  }
}

/**
 Publication into the content-addressed store, as interleaved steps of any number of publishers.

 A publisher hard-links its staged file under the digest it expects, verifies the destination,
 makes it read-only, verifies it again, and either syncs the directory or removes the link it
 created. A publisher that finds the name taken verifies what is there and removes nothing.
 Every system call may fail at the environment's choice, and the staged bytes are arbitrary:
 an untrusted writer of the temporary directory may have replaced them.
 */
module Publication {
  import opened Wrappers

  type Digest = string
  /** SHA-256 as any function of the bytes; nothing below needs it to be injective. */
  type Hash = Bytes -> Digest

  datatype Descriptor = Descriptor(digest: Digest, size: nat)

  datatype Error = Io | StoreConflict

  /** An inode of the blob directory; its bytes never change once it is linked. */
  datatype File = File(name: Digest, bytes: Bytes, creator: nat, readonly: bool)

  datatype Check = First | Second

  /** The next system call of one publisher. */
  datatype Phase =
    | Linking
    | Opening(check: Check)
    | Reading(check: Check, inode: nat)
    | Sealing
    | Undoing(error: Error)
    | SyncingUndo(error: Error)
    | SyncingLink
    | Done(result: Result<(), Error>)

  /** `linked` is the inode this publisher linked and has not removed again. */
  datatype Publisher = Publisher(
    descriptor: Descriptor, staged: Bytes, phase: Phase, linked: Option<nat>)

  datatype State = State(blobs: map<Digest, nat>, files: seq<File>, publishers: seq<Publisher>)

  /** One system call of publisher `who`; `fault` is the error the environment injects, if any. */
  datatype Event = Act(who: nat, fault: Option<Error>)

  predicate Good(hash: Hash, bytes: Bytes, d: Descriptor) {
    hash(bytes) == d.digest && |bytes| == d.size
  }

  /** A name the blob directory resolves to bytes with the digest and size of `d`. */
  predicate Published(hash: Hash, s: State, d: Descriptor) {
    && d.digest in s.blobs
    && s.blobs[d.digest] < |s.files|
    && Good(hash, s.files[s.blobs[d.digest]].bytes, d)
  }

  // One step

  /** What one system call does: a phase change, a new link, a permission change, an unlink. */
  datatype Effect = Move(phase: Phase) | Create | Protect(inode: nat) | Remove(error: Error)

  /** Acceptance failed with `error`: only the publisher that created the link undoes it. */
  function Refuse(p: Publisher, error: Error): Effect {
    Move(if p.linked.Some? then Undoing(error) else Done(Err(error)))
  }

  /** Opening the destination succeeds when the name exists with the expected size. */
  predicate Opens(s: State, d: Descriptor) {
    && d.digest in s.blobs
    && s.blobs[d.digest] < |s.files|
    && |s.files[s.blobs[d.digest]].bytes| == d.size
  }

  function Call(hash: Hash, s: State, p: Publisher, fault: Option<Error>): Effect {
    var d := p.descriptor;
    match p.phase
    case Linking =>
      if fault.Some? then Move(Done(Err(Io)))
      else if d.digest in s.blobs then Move(Opening(First))
      else Create
    case Opening(check) =>
      if fault.Some? then Refuse(p, fault.value)
      else if !Opens(s, d) then Refuse(p, StoreConflict)
      else Move(Reading(check, s.blobs[d.digest]))
    case Reading(check, inode) =>
      if fault.Some? then Refuse(p, Io)
      else if inode >= |s.files| || !Good(hash, s.files[inode].bytes, d) then
        Refuse(p, StoreConflict)
      else if check == First then Move(Sealing)
      else Move(if p.linked.Some? then SyncingLink else Done(Ok(())))
    case Sealing =>
      if fault.Some? then Refuse(p, fault.value)
      else if !Opens(s, d) then Refuse(p, StoreConflict)
      else Protect(s.blobs[d.digest])
    case Undoing(error) =>
      if fault.Some? || d.digest !in s.blobs then Move(Done(Err(StoreConflict)))
      else Remove(error)
    case SyncingUndo(error) => Move(Done(Err(if fault.Some? then Io else error)))
    case SyncingLink => Move(Done(if fault.Some? then Err(Io) else Ok(())))
    case Done(result) => Move(Done(result))
  }

  function Apply(s: State, who: nat, effect: Effect): State
    requires who < |s.publishers|
  {
    var p := s.publishers[who];
    var d := p.descriptor.digest;
    match effect
    case Move(phase) => s.(publishers := s.publishers[who := p.(phase := phase)])
    case Create =>
      State(
        s.blobs[d := |s.files|],
        s.files + [File(d, p.staged, who, false)],
        s.publishers[who := p.(phase := Opening(First), linked := Some(|s.files|))])
    case Protect(inode) =>
      s.(files := if inode < |s.files| then s.files[inode := s.files[inode].(readonly := true)]
                  else s.files,
         publishers := s.publishers[who := p.(phase := Opening(Second))])
    case Remove(error) =>
      s.(blobs := s.blobs - {d},
         publishers := s.publishers[who := p.(phase := SyncingUndo(error), linked := None)])
  }

  function Step(hash: Hash, s: State, e: Event): State {
    if e.who < |s.publishers|
    then Apply(s, e.who, Call(hash, s, s.publishers[e.who], e.fault))
    else s
  }

  /** The state after a run, built from the last event backwards so that prefixes are runs. */
  function Run(hash: Hash, s: State, events: seq<Event>): State
    decreases |events|
  {
    if events == [] then s
    else Step(hash, Run(hash, s, events[..|events| - 1]), events[|events| - 1])
  }

  /** An empty store and any publishers, each about to publish. */
  predicate Initial(s: State) {
    && s.blobs == map[] && s.files == []
    && forall p <- s.publishers :: p.phase == Linking && p.linked == None
  }

  // What every step keeps

  /** The inode a name resolves to was created under that name, by a publisher still holding it. */
  ghost predicate LinkInv(s: State, d: Digest)
    requires d in s.blobs
  {
    var inode := s.blobs[d];
    && inode < |s.files|
    && s.files[inode].name == d
    && s.files[inode].creator < |s.publishers|
    && s.publishers[s.files[inode].creator].linked == Some(inode)
  }

  /** A link a publisher holds is in place under its digest. */
  ghost predicate HoldsLink(s: State, who: nat, p: Publisher) {
    p.linked.Some? ==>
      && p.linked.value < |s.files|
      && s.files[p.linked.value].creator == who
      && p.descriptor.digest in s.blobs
      && s.blobs[p.descriptor.digest] == p.linked.value
  }

  ghost predicate PhaseFits(p: Publisher) {
    && (p.phase.Linking? || p.phase.SyncingUndo? ==> p.linked == None)
    && (p.phase.Undoing? || p.phase.SyncingLink? ==> p.linked.Some?)
    && (p.phase.Reading? && p.linked.Some? ==> p.linked.value == p.phase.inode)
  }

  ghost predicate PublisherInv(s: State, who: nat)
    requires who < |s.publishers|
  {
    HoldsLink(s, who, s.publishers[who]) && PhaseFits(s.publishers[who])
  }

  ghost predicate Inv(s: State) {
    && (forall d <- s.blobs :: LinkInv(s, d))
    && (forall who :: 0 <= who < |s.publishers| ==> PublisherInv(s, who))
  }

  /** When a call has which effect. */
  lemma CallFits(hash: Hash, s: State, who: nat, fault: Option<Error>)
    requires who < |s.publishers| && PublisherInv(s, who)
    ensures
      var p := s.publishers[who];
      match Call(hash, s, p, fault)
      case Move(phase) => PhaseFits(p.(phase := phase))
      case Create => p.phase.Linking? && p.descriptor.digest !in s.blobs
      case Protect(inode) => p.phase.Sealing?
      case Remove(error) => p.phase.Undoing? && p.descriptor.digest in s.blobs
  {
  }

  lemma CreateKeepsInv(s: State, who: nat)
    requires Inv(s) && who < |s.publishers|
    requires s.publishers[who].phase.Linking? && s.publishers[who].descriptor.digest !in s.blobs
    ensures Inv(Apply(s, who, Create))
  {
    var next := Apply(s, who, Create);
    assert PublisherInv(s, who);
    forall d <- next.blobs ensures LinkInv(next, d) {
      if d != s.publishers[who].descriptor.digest { assert LinkInv(s, d); }
    }
    forall other | 0 <= other < |next.publishers| ensures PublisherInv(next, other) {
      assert PublisherInv(s, other);
    }
  }

  lemma RemoveKeepsInv(s: State, who: nat, error: Error)
    requires Inv(s) && who < |s.publishers|
    requires s.publishers[who].phase.Undoing?
    ensures Inv(Apply(s, who, Remove(error)))
  {
    var next := Apply(s, who, Remove(error));
    var mine := s.publishers[who].descriptor.digest;
    assert PublisherInv(s, who);
    assert LinkInv(s, mine);
    forall d <- next.blobs ensures LinkInv(next, d) {
      assert LinkInv(s, d);
    }
    forall other | 0 <= other < |next.publishers| ensures PublisherInv(next, other) {
      assert PublisherInv(s, other);
    }
  }

  lemma StepKeepsInv(hash: Hash, s: State, e: Event)
    requires Inv(s)
    ensures Inv(Step(hash, s, e))
  {
    if e.who < |s.publishers| {
      assert PublisherInv(s, e.who);
      CallFits(hash, s, e.who, e.fault);
      var next := Step(hash, s, e);
      match Call(hash, s, s.publishers[e.who], e.fault) {
        case Create => CreateKeepsInv(s, e.who);
        case Remove(error) => RemoveKeepsInv(s, e.who, error);
        case _ =>
          forall d <- next.blobs ensures LinkInv(next, d) { assert LinkInv(s, d); }
          forall other | 0 <= other < |next.publishers| ensures PublisherInv(next, other) {
            assert PublisherInv(s, other);
          }
      }
    }
  }

  lemma {:induction false} RunKeepsInv(hash: Hash, s: State, events: seq<Event>)
    requires Inv(s)
    ensures Inv(Run(hash, s, events))
    ensures |Run(hash, s, events).publishers| == |s.publishers|
    decreases |events|
  {
    if events != [] {
      RunKeepsInv(hash, s, events[..|events| - 1]);
      StepKeepsInv(hash, Run(hash, s, events[..|events| - 1]), events[|events| - 1]);
    }
  }

  /** `who` is the creator of the link `d`, and is undoing it. */
  ghost predicate UndoneBy(s: State, d: Digest, who: nat)
    requires d in s.blobs
  {
    && s.blobs[d] < |s.files|
    && s.files[s.blobs[d]].creator == who < |s.publishers|
    && s.publishers[who].phase.Undoing?
    && s.publishers[who].linked == Some(s.blobs[d])
  }

  /**
   Existing contents are never replaced. In one step a name keeps its inode or disappears, it
   disappears only when the publisher that created that very link undoes it, and the bytes and
   the creator of an inode never change.
   */
  lemma ExistingContentsNeverReplaced(hash: Hash, s: State, e: Event)
    requires Inv(s)
    ensures
      var next := Step(hash, s, e);
      && |s.files| <= |next.files|
      && (forall i :: 0 <= i < |s.files| ==>
            next.files[i].bytes == s.files[i].bytes && next.files[i].creator == s.files[i].creator)
      && (forall d <- s.blobs ::
            if d in next.blobs then next.blobs[d] == s.blobs[d] else UndoneBy(s, d, e.who))
  {
    if e.who < |s.publishers| {
      assert PublisherInv(s, e.who);
      CallFits(hash, s, e.who, e.fault);
      forall d <- s.blobs ensures LinkInv(s, d) {}
    }
  }

  // Success means published

  /** The last verification of this publisher has succeeded. */
  predicate Accepted(p: Publisher) {
    p.phase == Done(Ok(())) || p.phase.SyncingLink?
  }

  /** At instant `k` publisher `who` itself opened its name for this check, and got `inode`. */
  ghost predicate OpenedAt(
    hash: Hash, s: State, events: seq<Event>, k: nat, who: nat, check: Check, inode: nat)
  {
    && k < |events| && events[k] == Act(who, None)
    && var past := Run(hash, s, events[..k]);
       && who < |past.publishers| && past.publishers[who].phase == Opening(check)
       && var d := past.publishers[who].descriptor.digest;
          d in past.blobs && past.blobs[d] == inode < |past.files|
  }

  /**
   At instant `k` publisher `who` opened its name for the second check, and the name resolved to
   bytes with the digest and size of its descriptor.
   */
  ghost predicate VerifiedAt(hash: Hash, s: State, events: seq<Event>, k: nat, who: nat) {
    && k < |events| && events[k] == Act(who, None)
    && var past := Run(hash, s, events[..k]);
       && who < |past.publishers| && past.publishers[who].phase == Opening(Second)
       && Published(hash, past, past.publishers[who].descriptor)
  }

  /** At instant `k` of the run the name of `d` resolved to bytes with its digest and size. */
  ghost predicate PublishedAt(hash: Hash, s: State, events: seq<Event>, k: nat, d: Descriptor) {
    k <= |events| && Published(hash, Run(hash, s, events[..k]), d)
  }

  lemma {:induction false} BytesNeverChange(
    hash: Hash, s: State, events: seq<Event>, k: nat, inode: nat)
    requires Inv(s) && k <= |events| && inode < |Run(hash, s, events[..k]).files|
    ensures inode < |Run(hash, s, events).files|
    ensures Run(hash, s, events).files[inode].bytes
         == Run(hash, s, events[..k]).files[inode].bytes
    decreases |events|
  {
    if k < |events| {
      var most := events[..|events| - 1];
      assert most[..k] == events[..k];
      BytesNeverChange(hash, s, most, k, inode);
      RunKeepsInv(hash, s, most);
      ExistingContentsNeverReplaced(hash, Run(hash, s, most), events[|events| - 1]);
    } else {
      assert events[..k] == events;
    }
  }

  /** How one event can bring a publisher from `p` to `q`, as far as verification is concerned. */
  ghost predicate VerificationMove(
    hash: Hash, s: State, e: Event, who: nat, p: Publisher, q: Publisher)
  {
    && q.descriptor == p.descriptor
    && (q.phase.Reading? && p != q ==>
         && e == Act(who, None) && p.phase == Opening(q.phase.check)
         && Opens(s, p.descriptor) && q.phase.inode == s.blobs[p.descriptor.digest])
    && (Accepted(q) && !Accepted(p) ==>
         && p.phase.Reading? && p.phase.check == Second && p.phase.inode < |s.files|
         && Good(hash, s.files[p.phase.inode].bytes, p.descriptor))
  }

  lemma StepIsVerificationMove(hash: Hash, s: State, e: Event, who: nat)
    requires who < |s.publishers|
    ensures |Step(hash, s, e).publishers| == |s.publishers|
    ensures VerificationMove(hash, s, e, who, s.publishers[who], Step(hash, s, e).publishers[who])
  {
  }

  /** What the phases of verification record about the past of the run. */
  ghost predicate Witnessed(hash: Hash, s: State, events: seq<Event>, who: nat, p: Publisher) {
    && (p.phase.Reading? ==>
          exists k: nat :: OpenedAt(hash, s, events, k, who, p.phase.check, p.phase.inode))
    && (Accepted(p) ==> exists k: nat :: VerifiedAt(hash, s, events, k, who))
  }

  lemma ExtendWitness(hash: Hash, s: State, events: seq<Event>, who: nat, p: Publisher)
    requires events != [] && Witnessed(hash, s, events[..|events| - 1], who, p)
    ensures Witnessed(hash, s, events, who, p)
  {
    var most := events[..|events| - 1];
    forall k | 0 <= k <= |most| ensures most[..k] == events[..k] {}
    if p.phase.Reading? {
      var k: nat :| OpenedAt(hash, s, most, k, who, p.phase.check, p.phase.inode);
      assert OpenedAt(hash, s, events, k, who, p.phase.check, p.phase.inode);
    }
    if Accepted(p) {
      var k: nat :| VerifiedAt(hash, s, most, k, who);
      assert VerifiedAt(hash, s, events, k, who);
    }
  }

  lemma {:induction false} RunKeepsDescriptor(hash: Hash, s: State, events: seq<Event>, who: nat)
    requires who < |s.publishers|
    ensures |Run(hash, s, events).publishers| == |s.publishers|
    ensures Run(hash, s, events).publishers[who].descriptor == s.publishers[who].descriptor
    decreases |events|
  {
    if events != [] { RunKeepsDescriptor(hash, s, events[..|events| - 1], who); }
  }

  /** The own opening that led to an acceptance saw what was then verified. */
  lemma OpeningWasGood(hash: Hash, s: State, events: seq<Event>, who: nat, p: Publisher)
    requires Inv(s) && p.phase.Reading? && p.phase.check == Second
    requires Witnessed(hash, s, events, who, p)
    requires who < |s.publishers| && p.descriptor == s.publishers[who].descriptor
    requires p.phase.inode < |Run(hash, s, events).files|
    requires Good(hash, Run(hash, s, events).files[p.phase.inode].bytes, p.descriptor)
    ensures exists k: nat :: VerifiedAt(hash, s, events, k, who)
  {
    var k: nat :| OpenedAt(hash, s, events, k, who, Second, p.phase.inode);
    RunKeepsDescriptor(hash, s, events[..k], who);
    BytesNeverChange(hash, s, events, k, p.phase.inode);
    assert VerifiedAt(hash, s, events, k, who);
  }

  lemma MoveExtendsWitness(
    hash: Hash, s: State, events: seq<Event>, who: nat, p: Publisher, q: Publisher)
    requires Inv(s) && events != [] && who < |s.publishers|
    requires p.descriptor == s.publishers[who].descriptor
    requires who < |Run(hash, s, events[..|events| - 1]).publishers|
    requires p == Run(hash, s, events[..|events| - 1]).publishers[who]
    requires Witnessed(hash, s, events[..|events| - 1], who, p)
    requires VerificationMove(
      hash, Run(hash, s, events[..|events| - 1]), events[|events| - 1], who, p, q)
    ensures Witnessed(hash, s, events, who, q)
  {
    var n := |events| - 1;
    if q.phase.Reading? {
      if p == q {
        ExtendWitness(hash, s, events, who, p);
      } else {
        assert OpenedAt(hash, s, events, n, who, q.phase.check, q.phase.inode);
      }
    }
    if Accepted(q) {
      if !Accepted(p) { OpeningWasGood(hash, s, events[..n], who, p); }
      ExtendWitness(hash, s, events, who, p.(phase := SyncingLink));
    }
  }

  lemma {:induction false} WitnessedAlways(hash: Hash, s: State, events: seq<Event>, who: nat)
    requires Initial(s) && who < |s.publishers|
    ensures |Run(hash, s, events).publishers| == |s.publishers|
    ensures Witnessed(hash, s, events, who, Run(hash, s, events).publishers[who])
    decreases |events|
  {
    if events == [] {
      assert s.publishers[who] in s.publishers;
    } else {
      var n := |events| - 1;
      var before := Run(hash, s, events[..n]);
      WitnessedAlways(hash, s, events[..n], who);
      RunKeepsDescriptor(hash, s, events[..n], who);
      StepIsVerificationMove(hash, before, events[n], who);
      MoveExtendsWitness(
        hash, s, events, who, before.publishers[who],
        Step(hash, before, events[n]).publishers[who]);
    }
  }

  /**
   In every interleaving, with any staged bytes and any faults, a publisher that reports success
   opened its name for the second check at some instant of its own, and at that instant the
   store resolved the name to bytes with exactly its digest and size.
   */
  lemma SuccessMeansPublished(hash: Hash, s: State, events: seq<Event>, who: nat)
    requires Initial(s)
    requires who < |Run(hash, s, events).publishers|
    requires Run(hash, s, events).publishers[who].phase == Done(Ok(()))
    ensures exists k: nat :: VerifiedAt(hash, s, events, k, who)
  {
    RunKeepsInv(hash, s, events);
    WitnessedAlways(hash, s, events, who);
  }

  // Who can still remove a published name

  predicate NoFaults(events: seq<Event>) { forall e <- events :: e.fault == None }

  /** The creator of a link has not yet judged it, or has judged it bad. */
  predicate Undecided(p: Publisher) {
    p.phase.Opening? || p.phase.Reading? || p.phase.Sealing? || p.phase.Undoing?
  }

  /** The publisher that created the link a name resolves to. */
  ghost function CreatorOf(s: State, d: Digest): (who: nat)
    requires Inv(s) && d in s.blobs
    ensures who < |s.publishers|
  {
    assert LinkInv(s, d);
    s.files[s.blobs[d]].creator
  }

  ghost function BytesOf(s: State, d: Digest): Bytes
    requires Inv(s) && d in s.blobs
  {
    assert LinkInv(s, d);
    s.files[s.blobs[d]].bytes
  }

  lemma CreatorHoldsIt(s: State, d: Digest)
    requires Inv(s) && d in s.blobs
    ensures
      var p := s.publishers[CreatorOf(s, d)];
      p.descriptor.digest == d && p.linked == Some(s.blobs[d]) && PhaseFits(p)
  {
    assert LinkInv(s, d);
    assert PublisherInv(s, CreatorOf(s, d));
    assert LinkInv(s, s.publishers[CreatorOf(s, d)].descriptor.digest);
  }

  lemma {:induction false} RunCons(hash: Hash, s: State, e: Event, rest: seq<Event>)
    ensures Run(hash, s, [e] + rest) == Run(hash, Step(hash, s, e), rest)
    decreases |rest|
  {
    var all := [e] + rest;
    if rest == [] {
      assert all[..0] == [];
    } else {
      RunCons(hash, s, e, rest[..|rest| - 1]);
      assert all[..|all| - 1] == [e] + rest[..|rest| - 1];
    }
  }

  lemma {:induction false} RunAppend(hash: Hash, s: State, a: seq<Event>, b: seq<Event>)
    ensures Run(hash, s, a + b) == Run(hash, Run(hash, s, a), b)
    decreases |b|
  {
    if b == [] {
      assert a + b == a;
    } else {
      RunAppend(hash, s, a, b[..|b| - 1]);
      assert (a + b)[..|a + b| - 1] == a + b[..|b| - 1];
    }
  }

  // With faults

  lemma {:induction false} DecidedLinkStays(hash: Hash, s: State, events: seq<Event>, d: Digest)
    requires Inv(s) && d in s.blobs && !Undecided(s.publishers[CreatorOf(s, d)])
    ensures Inv(Run(hash, s, events))
    ensures d in Run(hash, s, events).blobs
    ensures !Undecided(Run(hash, s, events).publishers[CreatorOf(Run(hash, s, events), d)])
    decreases |events|
  {
    if events != [] {
      var before, e := Run(hash, s, events[..|events| - 1]), events[|events| - 1];
      DecidedLinkStays(hash, s, events[..|events| - 1], d);
      StepKeepsInv(hash, before, e);
      ExistingContentsNeverReplaced(hash, before, e);
      CreatorHoldsIt(before, d);
    }
  }

  /** Every publisher but one is as it was. */
  ghost predicate OnlyBy(who: nat, s: State, t: State) {
    && |s.publishers| == |t.publishers|
    && forall i :: 0 <= i < |s.publishers| && i != who ==> s.publishers[i] == t.publishers[i]
  }

  lemma UndecidedLinkCanGo(hash: Hash, s: State, d: Digest) returns (events: seq<Event>)
    requires Inv(s) && d in s.blobs && Undecided(s.publishers[CreatorOf(s, d)])
    ensures d !in Run(hash, s, events).blobs
    ensures OnlyBy(CreatorOf(s, d), s, Run(hash, s, events))
  {
    CreatorHoldsIt(s, d);
    var creator := CreatorOf(s, d);
    var undo, fail := Act(creator, None), Act(creator, Some(Io));
    if s.publishers[creator].phase.Undoing? {
      events := [undo];
      assert Run(hash, s, events[..0]) == s;
    } else {
      events := [fail, undo];
      assert events[..1] == [fail];
      assert Run(hash, s, [fail][..0]) == s;
      assert Step(hash, s, fail).publishers[creator].phase.Undoing?;
    }
  }

  /**
   Exactly when a published name can still be lost to a fault: some continuation of the run
   removes it if and only if the publisher that created the link has not yet accepted it. Who
   else has accepted it in the meantime makes no difference.
   */
  lemma RemovableIffCreatorUndecided(hash: Hash, s: State, d: Digest)
    requires Inv(s) && d in s.blobs
    ensures (exists events :: d !in Run(hash, s, events).blobs) <==>
      Undecided(s.publishers[CreatorOf(s, d)])
  {
    if Undecided(s.publishers[CreatorOf(s, d)]) {
      var events := UndecidedLinkCanGo(hash, s, d);
    } else {
      forall events ensures d in Run(hash, s, events).blobs {
        DecidedLinkStays(hash, s, events, d);
      }
    }
  }

  // Without faults

  /** The creator is undoing its link, or is still to find that it does not fit its descriptor. */
  ghost predicate Doomed(hash: Hash, s: State, d: Digest)
    requires Inv(s) && d in s.blobs
  {
    var p := s.publishers[CreatorOf(s, d)];
    p.phase.Undoing? || (Undecided(p) && !Good(hash, BytesOf(s, d), p.descriptor))
  }

  lemma SafeStep(hash: Hash, s: State, e: Event, d: Digest)
    requires Inv(s) && d in s.blobs && !Doomed(hash, s, d)
    requires e.who == CreatorOf(s, d) ==> e.fault == None
    ensures
      var next := Step(hash, s, e);
      && Inv(next) && d in next.blobs && next.blobs[d] == s.blobs[d]
      && CreatorOf(next, d) == CreatorOf(s, d) && BytesOf(next, d) == BytesOf(s, d)
      && !Doomed(hash, next, d)
  {
    CreatorHoldsIt(s, d);
    StepKeepsInv(hash, s, e);
    ExistingContentsNeverReplaced(hash, s, e);
  }

  /** A link that is not doomed stays, whatever faults hit publishers other than its creator. */
  lemma {:induction false} SafeLinkStays(hash: Hash, s: State, events: seq<Event>, d: Digest)
    requires Inv(s) && d in s.blobs && !Doomed(hash, s, d)
    requires forall e <- events :: e.who == CreatorOf(s, d) ==> e.fault == None
    ensures
      var end := Run(hash, s, events);
      && Inv(end) && d in end.blobs && end.blobs[d] == s.blobs[d]
      && CreatorOf(end, d) == CreatorOf(s, d) && BytesOf(end, d) == BytesOf(s, d)
      && !Doomed(hash, end, d)
    decreases |events|
  {
    if events != [] {
      var most, last := events[..|events| - 1], events[|events| - 1];
      assert last in events;
      SafeLinkStays(hash, s, most, d);
      SafeStep(hash, Run(hash, s, most), last, d);
    }
  }

  /** How many calls of its own a publisher is away from having undone its link. */
  function CallsLeft(phase: Phase): nat {
    match phase
    case Opening(First) => 6
    case Reading(First, _) => 5
    case Sealing => 4
    case Opening(Second) => 3
    case Reading(Second, _) => 2
    case Undoing(_) => 1
    case _ => 0
  }

  lemma DoomedStep(hash: Hash, s: State, d: Digest)
    requires Inv(s) && d in s.blobs && Doomed(hash, s, d)
    ensures
      var who := CreatorOf(s, d);
      var next := Step(hash, s, Act(who, None));
      && Inv(next) && OnlyBy(who, s, next)
      && (s.publishers[who].phase.Undoing? ==> d !in next.blobs)
      && (!s.publishers[who].phase.Undoing? ==>
           && d in next.blobs && CreatorOf(next, d) == who && Doomed(hash, next, d)
           && CallsLeft(next.publishers[who].phase) < CallsLeft(s.publishers[who].phase))
  {
    var e := Act(CreatorOf(s, d), None);
    CreatorHoldsIt(s, d);
    StepKeepsInv(hash, s, e);
    ExistingContentsNeverReplaced(hash, s, e);
  }

  /** The creator of a doomed link removes it by its own next calls. */
  lemma {:induction false} DoomedLinkGoes(hash: Hash, s: State, d: Digest)
    returns (events: seq<Event>)
    requires Inv(s) && d in s.blobs && Doomed(hash, s, d)
    ensures NoFaults(events) && d !in Run(hash, s, events).blobs
    ensures OnlyBy(CreatorOf(s, d), s, Run(hash, s, events))
    decreases CallsLeft(s.publishers[CreatorOf(s, d)].phase)
  {
    var e := Act(CreatorOf(s, d), None);
    var rest: seq<Event> := [];
    DoomedStep(hash, s, d);
    if !s.publishers[CreatorOf(s, d)].phase.Undoing? {
      rest := DoomedLinkGoes(hash, Step(hash, s, e), d);
    }
    RunCons(hash, s, e, rest);
    events := [e] + rest;
  }

  /**
   Without faults the condition is exact as well: some continuation in which no call fails
   removes a published name if and only if its creator is undoing the link, or has not judged
   it yet and will find that the bytes do not fit its own descriptor.
   */
  lemma RemovableWithoutFaultsIffDoomed(hash: Hash, s: State, d: Digest)
    requires Inv(s) && d in s.blobs
    ensures (exists events :: NoFaults(events) && d !in Run(hash, s, events).blobs) <==>
      Doomed(hash, s, d)
  {
    if Doomed(hash, s, d) {
      var events := DoomedLinkGoes(hash, s, d);
    } else {
      forall events | NoFaults(events) ensures d in Run(hash, s, events).blobs {
        SafeLinkStays(hash, s, events, d);
      }
    }
  }

  // Durability of an accepted blob

  /** No publisher of `digest` is hit by a fault; others may be. */
  predicate FaultFree(s: State, events: seq<Event>, digest: Digest) {
    forall e <- events ::
      e.who < |s.publishers| && s.publishers[e.who].descriptor.digest == digest ==> e.fault == None
  }

  /** Publishers keep what they were asked to publish, and files the bytes their creator staged. */
  ghost predicate SameOrders(s: State, t: State) {
    && |s.publishers| == |t.publishers|
    && (forall i :: 0 <= i < |s.publishers| ==>
          && s.publishers[i].descriptor == t.publishers[i].descriptor
          && s.publishers[i].staged == t.publishers[i].staged)
    && (forall i :: 0 <= i < |t.files| ==>
          && t.files[i].creator < |s.publishers|
          && t.files[i].bytes == s.publishers[t.files[i].creator].staged)
  }

  lemma {:induction false} RunKeepsOrders(hash: Hash, s: State, events: seq<Event>)
    requires s.files == []
    ensures SameOrders(s, Run(hash, s, events))
    decreases |events|
  {
    if events != [] {
      RunKeepsOrders(hash, s, events[..|events| - 1]);
    }
  }

  /** A creator undoes only what does not fit its descriptor, and has accepted only what does. */
  ghost predicate Honest(hash: Hash, s: State, p: Publisher) {
    p.linked.Some? && p.linked.value < |s.files| ==>
      var fits := Good(hash, s.files[p.linked.value].bytes, p.descriptor);
      (p.phase.Undoing? ==> !fits) && (!Undecided(p) ==> fits)
  }

  lemma StepKeepsHonest(hash: Hash, s: State, e: Event, who: nat)
    requires Inv(s) && who < |s.publishers| && Honest(hash, s, s.publishers[who])
    requires e.who == who ==> e.fault == None
    ensures |Step(hash, s, e).publishers| == |s.publishers|
    ensures Honest(hash, Step(hash, s, e), Step(hash, s, e).publishers[who])
  {
    assert PublisherInv(s, who);
    ExistingContentsNeverReplaced(hash, s, e);
  }

  /** A publisher that meets no fault is honest throughout. */
  lemma {:induction false} RunKeepsHonest(hash: Hash, s: State, events: seq<Event>, who: nat)
    requires Initial(s) && who < |s.publishers|
    requires forall e <- events :: e.who == who ==> e.fault == None
    ensures |Run(hash, s, events).publishers| == |s.publishers|
    ensures Honest(hash, Run(hash, s, events), Run(hash, s, events).publishers[who])
    decreases |events|
  {
    if events == [] {
      assert s.publishers[who] in s.publishers;
    } else {
      var most, last := events[..|events| - 1], events[|events| - 1];
      assert last in events;
      RunKeepsHonest(hash, s, most, who);
      RunKeepsInv(hash, s, most);
      StepKeepsHonest(hash, Run(hash, s, most), last, who);
    }
  }

  /** What a published blob's creator staged and expects. */
  lemma CreatorStaged(hash: Hash, s: State, events: seq<Event>, d: Descriptor)
    requires Initial(s) && Published(hash, Run(hash, s, events), d)
    ensures
      var t := Run(hash, s, events);
      && Inv(t) && |t.publishers| == |s.publishers|
      && var p := s.publishers[CreatorOf(t, d.digest)];
         && t.publishers[CreatorOf(t, d.digest)].descriptor == p.descriptor
         && p.descriptor.digest == d.digest && BytesOf(t, d.digest) == p.staged
         && Good(hash, p.staged, d)
  {
    RunKeepsInv(hash, s, events);
    RunKeepsOrders(hash, s, events);
    CreatorHoldsIt(Run(hash, s, events), d.digest);
  }

  /** In a run without faults at its publishers, a good blob is doomed exactly by its size. */
  lemma DoomedIffSizeDiffers(hash: Hash, s: State, events: seq<Event>, d: Descriptor)
    requires Initial(s) && FaultFree(s, events, d.digest)
    requires Published(hash, Run(hash, s, events), d)
    ensures Inv(Run(hash, s, events))
    ensures
      var t := Run(hash, s, events);
      Doomed(hash, t, d.digest) <==> t.publishers[CreatorOf(t, d.digest)].descriptor.size != d.size
  {
    var t := Run(hash, s, events);
    CreatorStaged(hash, s, events, d);
    CreatorHoldsIt(t, d.digest);
    RunKeepsHonest(hash, s, events, CreatorOf(t, d.digest));
  }

  /**
   So a blob published in such a run can still be lost without a fault if and only if the
   publisher that created the link expects another size.
   */
  lemma LossIffCreatorExpectsAnotherSize(hash: Hash, s: State, events: seq<Event>, d: Descriptor)
    requires Initial(s) && FaultFree(s, events, d.digest)
    requires Published(hash, Run(hash, s, events), d)
    ensures Inv(Run(hash, s, events))
    ensures
      var t := Run(hash, s, events);
      (exists more :: NoFaults(more) && d.digest !in Run(hash, t, more).blobs) <==>
        t.publishers[CreatorOf(t, d.digest)].descriptor.size != d.size
  {
    DoomedIffSizeDiffers(hash, s, events, d);
    RemovableWithoutFaultsIffDoomed(hash, Run(hash, s, events), d.digest);
  }

  /** Somebody is to publish the very bytes of `d` under its digest, expecting another size. */
  predicate Rival(hash: Hash, p: Publisher, d: Descriptor) {
    p.descriptor.digest == d.digest && Good(hash, p.staged, d) && p.descriptor.size != d.size
  }

  predicate HasRival(hash: Hash, s: State, d: Descriptor) {
    exists p <- s.publishers :: Rival(hash, p, d)
  }

  /** Without a rival, what is published at one instant of the run is published at its end. */
  lemma PublishedStays(hash: Hash, s: State, events: seq<Event>, k: nat, d: Descriptor)
    requires Initial(s) && FaultFree(s, events, d.digest) && !HasRival(hash, s, d)
    requires PublishedAt(hash, s, events, k, d)
    ensures Published(hash, Run(hash, s, events), d)
  {
    var early, late := events[..k], events[k..];
    var t := Run(hash, s, early);
    assert events == early + late;
    RunAppend(hash, s, early, late);
    CreatorStaged(hash, s, early, d);
    var creator := CreatorOf(t, d.digest);
    assert s.publishers[creator] in s.publishers;
    DoomedIffSizeDiffers(hash, s, early, d);
    assert forall e <- late :: e in events;
    SafeLinkStays(hash, t, late, d.digest);
  }

  /** Publisher `who` had reported success by instant `k`. */
  ghost predicate SucceededBy(hash: Hash, s: State, events: seq<Event>, k: nat, who: nat) {
    && k <= |events| && who < |Run(hash, s, events[..k]).publishers|
    && Run(hash, s, events[..k]).publishers[who].phase == Done(Ok(()))
  }

  /**
   Without a rival an accepted blob is never removed: if no fault hits a publisher of its
   digest, it is still published at the end of the run, with the same digest and size.
   */
  lemma AcceptedBlobNeverRemoved(
    hash: Hash, s: State, events: seq<Event>, k: nat, who: nat)
    requires Initial(s) && who < |s.publishers| && SucceededBy(hash, s, events, k, who)
    requires FaultFree(s, events, s.publishers[who].descriptor.digest)
    requires !HasRival(hash, s, s.publishers[who].descriptor)
    ensures Published(hash, Run(hash, s, events), s.publishers[who].descriptor)
  {
    SuccessMeansPublished(hash, s, events[..k], who);
    var j: nat :| VerifiedAt(hash, s, events[..k], j, who);
    assert events[..k][..j] == events[..j];
    RunKeepsOrders(hash, s, events[..j]);
    PublishedStays(hash, s, events, j, s.publishers[who].descriptor);
  }

  // With a rival

  /** Without a link of its own, on its way to accepting the blob that is there. */
  ghost predicate Observes(s: State, p: Publisher) {
    && p.linked == None && p.descriptor.digest in s.blobs
    && match p.phase
       case Linking => true
       case Opening(_) => true
       case Sealing => true
       case Reading(_, inode) => inode == s.blobs[p.descriptor.digest]
       case _ => false
  }

  function CallsToAccept(phase: Phase): nat {
    if phase.Linking? then 7 else CallsLeft(phase)
  }

  lemma ObserverStep(hash: Hash, s: State, who: nat)
    requires Inv(s) && who < |s.publishers|
    requires Observes(s, s.publishers[who]) && Published(hash, s, s.publishers[who].descriptor)
    ensures
      var next := Step(hash, s, Act(who, None));
      var p := s.publishers[who];
      && Inv(next) && OnlyBy(who, s, next) && next.blobs == s.blobs
      && Published(hash, next, p.descriptor)
      && (forall d <- s.blobs ::
            CreatorOf(next, d) == CreatorOf(s, d) && BytesOf(next, d) == BytesOf(s, d))
      && if p.phase.Reading? && p.phase.check == Second
         then next.publishers[who].phase == Done(Ok(()))
         else
           && Observes(next, next.publishers[who])
           && next.publishers[who].descriptor == p.descriptor
           && CallsToAccept(next.publishers[who].phase) < CallsToAccept(p.phase)
  {
    StepKeepsInv(hash, s, Act(who, None));
    ExistingContentsNeverReplaced(hash, s, Act(who, None));
  }

  /** An observer of a good blob accepts it by its own next calls. */
  lemma {:induction false} ObserverAccepts(hash: Hash, s: State, who: nat)
    returns (events: seq<Event>)
    requires Inv(s) && who < |s.publishers|
    requires Observes(s, s.publishers[who]) && Published(hash, s, s.publishers[who].descriptor)
    ensures NoFaults(events)
    ensures
      var end := Run(hash, s, events);
      && Inv(end) && OnlyBy(who, s, end) && end.blobs == s.blobs
      && end.publishers[who].phase == Done(Ok(()))
      && forall d <- s.blobs ::
           CreatorOf(end, d) == CreatorOf(s, d) && BytesOf(end, d) == BytesOf(s, d)
    decreases CallsToAccept(s.publishers[who].phase)
  {
    var e := Act(who, None);
    var p, next := s.publishers[who], Step(hash, s, e);
    var rest: seq<Event> := [];
    ObserverStep(hash, s, who);
    if !(p.phase.Reading? && p.phase.check == Second) { rest := ObserverAccepts(hash, next, who); }
    RunCons(hash, s, e, rest);
    events := [e] + rest;
  }

  /** From the start: `creator` links its bytes, and `who` finds and accepts them. */
  lemma LinkedThenAccepted(hash: Hash, s: State, creator: nat, who: nat)
    returns (events: seq<Event>)
    requires Initial(s) && creator < |s.publishers| && who < |s.publishers| && creator != who
    requires s.publishers[creator].descriptor.digest == s.publishers[who].descriptor.digest
    requires Good(hash, s.publishers[creator].staged, s.publishers[who].descriptor)
    ensures NoFaults(events)
    ensures
      var t, d := Run(hash, s, events), s.publishers[who].descriptor.digest;
      && Inv(t) && |t.publishers| == |s.publishers| && d in t.blobs
      && t.publishers[who].phase == Done(Ok(())) && CreatorOf(t, d) == creator
      && BytesOf(t, d) == s.publishers[creator].staged
      && t.publishers[creator].descriptor == s.publishers[creator].descriptor
      && t.publishers[creator].phase == Opening(First)
  {
    assert s.publishers[creator] in s.publishers && s.publishers[who] in s.publishers;
    var e := Act(creator, None);
    var linked := Step(hash, s, e);
    StepKeepsInv(hash, s, e);
    var rest := ObserverAccepts(hash, linked, who);
    RunCons(hash, s, e, rest);
    events := [e] + rest;
  }

  lemma AcceptedThenLost(hash: Hash, s: State, first: seq<Event>, more: seq<Event>, who: nat)
    requires who < |Run(hash, s, first).publishers|
    requires Run(hash, s, first).publishers[who].phase == Done(Ok(()))
    ensures Run(hash, s, first + more) == Run(hash, Run(hash, s, first), more)
    ensures SucceededBy(hash, s, first + more, |first|, who)
  {
    RunAppend(hash, s, first, more);
    assert (first + more)[..|first|] == first;
  }

  /** A rival can remove the blob after it has been accepted, without any fault. */
  lemma RivalCanRemove(hash: Hash, s: State, rival: nat, who: nat)
    returns (events: seq<Event>, k: nat)
    requires Initial(s) && rival < |s.publishers| && who < |s.publishers|
    requires Rival(hash, s.publishers[rival], s.publishers[who].descriptor)
    ensures NoFaults(events) && SucceededBy(hash, s, events, k, who)
    ensures s.publishers[who].descriptor.digest !in Run(hash, s, events).blobs
  {
    var first := LinkedThenAccepted(hash, s, rival, who);
    var more := DoomedLinkGoes(hash, Run(hash, s, first), s.publishers[who].descriptor.digest);
    AcceptedThenLost(hash, s, first, more, who);
    events, k := first + more, |first|;
  }

  /** Some run without faults at publishers of its digest loses a blob `who` has accepted. */
  ghost predicate CanLoseAccepted(hash: Hash, s: State, who: nat)
    requires who < |s.publishers|
  {
    exists events, k: nat ::
      && FaultFree(s, events, s.publishers[who].descriptor.digest)
      && SucceededBy(hash, s, events, k, who)
      && s.publishers[who].descriptor.digest !in Run(hash, s, events).blobs
  }

  /**
   The exact condition, on what everybody is about to publish: a blob that `who` has accepted
   can be lost without a fault if and only if somebody staged the very bytes `who` expects
   under the same digest but with another size.
   */
  lemma AcceptedCanBeLostIffRival(hash: Hash, s: State, who: nat)
    requires Initial(s) && who < |s.publishers|
    ensures CanLoseAccepted(hash, s, who) <==> HasRival(hash, s, s.publishers[who].descriptor)
  {
    var d := s.publishers[who].descriptor;
    if HasRival(hash, s, d) {
      var rival :| 0 <= rival < |s.publishers| && Rival(hash, s.publishers[rival], d);
      var events, k := RivalCanRemove(hash, s, rival, who);
      assert FaultFree(s, events, d.digest);
    }
    if CanLoseAccepted(hash, s, who) && !HasRival(hash, s, d) {
      var events, k: nat :|
        && FaultFree(s, events, d.digest) && SucceededBy(hash, s, events, k, who)
        && d.digest !in Run(hash, s, events).blobs;
      AcceptedBlobNeverRemoved(hash, s, events, k, who);
      assert false;
    }
  }

  const ONE_DIGEST: Hash := _ => "d"

  /** Two publishers of the empty file under one digest; the first expects this size. */
  function TwoPublishers(size: nat): State {
    State(map[], [], [
      Publisher(Descriptor("d", size), [], Linking, None),
      Publisher(Descriptor("d", 0), [], Linking, None)])
  }

  /**
   Both ways of losing an accepted blob happen: without any fault where the creator expects one
   byte, and after a fault at the creator where the two agree.
   */
  lemma AcceptedBlobCanBeLost()
    ensures CanLoseAccepted(ONE_DIGEST, TwoPublishers(1), 1)
    ensures exists events, k: nat ::
      && SucceededBy(ONE_DIGEST, TwoPublishers(0), events, k, 1)
      && "d" !in Run(ONE_DIGEST, TwoPublishers(0), events).blobs
  {
    var s := TwoPublishers(1);
    assert Rival(ONE_DIGEST, s.publishers[0], s.publishers[1].descriptor);
    AcceptedCanBeLostIffRival(ONE_DIGEST, s, 1);
    var first := LinkedThenAccepted(ONE_DIGEST, TwoPublishers(0), 0, 1);
    var more := UndecidedLinkCanGo(ONE_DIGEST, Run(ONE_DIGEST, TwoPublishers(0), first), "d");
    AcceptedThenLost(ONE_DIGEST, TwoPublishers(0), first, more, 1);
  }
}

/**
 The ledger of everything one jail launch creates, and the launch that fills it.

 Creating, waiting for and removing resources are system calls. What they answer is an input: a
 world that decides every answer from what was done before. The kernel object remembers which
 resources exist and what was done to them.
 */
module Jail {
  import opened Wrappers

  const ETIMEDOUT := 110

  datatype Resource = Process | Cgroup | JailRoot

  datatype Residual = Residual(kind: Resource, errno: int)

  datatype Disposition = Released | Incomplete(residuals: seq<Residual>)

  function FromResiduals(residuals: seq<Residual>): Disposition {
    if residuals == [] then Released else Incomplete(residuals)
  }

  predicate Names(residuals: seq<Residual>, r: Resource) {
    exists residual <- residuals :: residual.kind == r
  }

  predicate Reports(d: Disposition, r: Resource) {
    d.Incomplete? && Names(d.residuals, r)
  }

  datatype WaitOutcome = Exited | AlreadyReaped | Timeout | WaitErrno(errno: int)

  /** A removal that finds nothing to remove has succeeded. */
  datatype RemoveOutcome = Removed | Refused(errno: int)

  /** What the environment answers during one reconciliation, as far as it is asked. */
  datatype Answers = Answers(wait: WaitOutcome, cgroup: RemoveOutcome, root: RemoveOutcome)

  datatype Action =
    | SignalChild | WaitChild(answer: WaitOutcome) | KillLeaf | RemoveLeaf | RemoveRoot

  // Reconciliation as a function

  datatype Ledger = Ledger(pidfd: bool, reaped: bool, cgroup: bool, root: bool)

  const EMPTY := Ledger(false, false, false, false)

  predicate Owns(l: Ledger, r: Resource) {
    match r
    case Process => l.pidfd
    case Cgroup => l.cgroup
    case JailRoot => l.root
  }

  predicate OwnsNothing(l: Ledger) {
    !l.pidfd && !l.cgroup && !l.root
  }

  datatype Pass = Pass(ledger: Ledger, residuals: seq<Residual>, actions: seq<Action>)

  predicate Gone(w: WaitOutcome) {
    w == Exited || w == AlreadyReaped
  }

  function Signals(l: Ledger): seq<Action> {
    [SignalChild] + if l.cgroup then [KillLeaf] else []
  }

  function ProcessPass(l: Ledger, wait: WaitOutcome): Pass {
    if l.pidfd && !l.reaped then
      Pass(
        if Gone(wait) then l.(reaped := true, pidfd := false) else l,
        match wait
        case Timeout => [Residual(Process, ETIMEDOUT)]
        case WaitErrno(errno) => [Residual(Process, errno)]
        case _ => [],
        Signals(l) + [WaitChild(wait)])
    else Pass(if l.reaped then l.(pidfd := false) else l, [], [])
  }

  function CgroupPass(l: Ledger, remove: RemoveOutcome): Pass {
    if !l.cgroup then Pass(l, [], [])
    else
      match remove
      case Removed => Pass(l.(cgroup := false), [], [KillLeaf, RemoveLeaf])
      case Refused(errno) => Pass(l, [Residual(Cgroup, errno)], [KillLeaf, RemoveLeaf])
  }

  function RootPass(l: Ledger, remove: RemoveOutcome): Pass {
    if !l.root then Pass(l, [], [])
    else
      match remove
      case Removed => Pass(l.(root := false), [], [RemoveRoot])
      case Refused(errno) => Pass(l, [Residual(JailRoot, errno)], [RemoveRoot])
  }

  /** One reconciliation: the process, then the leaf, then the root. */
  function Reconciled(l: Ledger, a: Answers): Pass {
    var p := ProcessPass(l, a.wait);
    var c := CgroupPass(p.ledger, a.cgroup);
    var r := RootPass(c.ledger, a.root);
    Pass(r.ledger, p.residuals + c.residuals + r.residuals, p.actions + c.actions + r.actions)
  }

  lemma AppendAssociates(a: seq<Action>, b: seq<Action>, c: seq<Action>, d: seq<Action>)
    ensures a + b + c + d == a + (b + c + d)
    ensures a + b + c == a + (b + c)
  {
  }

  /** The environment answered that the resource no longer exists, or the ledger knew it. */
  predicate ToldGone(l: Ledger, a: Answers, r: Resource) {
    match r
    case Process => l.reaped || Gone(a.wait)
    case Cgroup => a.cgroup.Removed?
    case JailRoot => a.root.Removed?
  }

  lemma NamesAppend(a: seq<Residual>, b: seq<Residual>, r: Resource)
    ensures Names(a + b, r) <==> Names(a, r) || Names(b, r)
  {
    if Names(a, r) { var x :| x in a && x.kind == r; assert x in a + b; }
    if Names(b, r) { var x :| x in b && x.kind == r; assert x in a + b; }
  }

  lemma ProcessPassNames(l: Ledger, wait: WaitOutcome, r: Resource)
    ensures
      var p := ProcessPass(l, wait);
      && (Names(p.residuals, r) <==> r == Process && p.ledger.pidfd)
      && (p.ledger.pidfd <==> l.pidfd && !l.reaped && !Gone(wait))
      && p.ledger.cgroup == l.cgroup && p.ledger.root == l.root
  {
    var p := ProcessPass(l, wait);
    if p.ledger.pidfd { assert p.residuals[0] in p.residuals; }
  }

  lemma CgroupPassNames(l: Ledger, remove: RemoveOutcome, r: Resource)
    ensures
      var c := CgroupPass(l, remove);
      && (Names(c.residuals, r) <==> r == Cgroup && c.ledger.cgroup)
      && (c.ledger.cgroup <==> l.cgroup && remove.Refused?)
      && c.ledger.pidfd == l.pidfd && c.ledger.root == l.root
  {
    var c := CgroupPass(l, remove);
    if c.ledger.cgroup { assert c.residuals[0] in c.residuals; }
  }

  lemma RootPassNames(l: Ledger, remove: RemoveOutcome, r: Resource)
    ensures
      var d := RootPass(l, remove);
      && (Names(d.residuals, r) <==> r == JailRoot && d.ledger.root)
      && (d.ledger.root <==> l.root && remove.Refused?)
      && d.ledger.pidfd == l.pidfd && d.ledger.cgroup == l.cgroup
  {
    var d := RootPass(l, remove);
    if d.ledger.root { assert d.residuals[0] in d.residuals; }
  }

  /**
   For every ledger and every answer, the residuals of a pass name exactly what the ledger still
   owns, and it still owns exactly what it owned and was not told is gone.
   */
  lemma ReconcileNamesWhatIsOwned(l: Ledger, a: Answers, r: Resource)
    ensures
      var pass := Reconciled(l, a);
      && (Owns(pass.ledger, r) <==> Owns(l, r) && !ToldGone(l, a, r))
      && (Names(pass.residuals, r) <==> Owns(pass.ledger, r))
  {
    var p := ProcessPass(l, a.wait);
    var c := CgroupPass(p.ledger, a.cgroup);
    var d := RootPass(c.ledger, a.root);
    ProcessPassNames(l, a.wait, r);
    CgroupPassNames(p.ledger, a.cgroup, r);
    RootPassNames(c.ledger, a.root, r);
    NamesAppend(p.residuals, c.residuals, r);
    NamesAppend(p.residuals + c.residuals, d.residuals, r);
  }

  /**
   A pass reports that everything is released if and only if nothing is owned any more. A pass
   over a ledger that owns nothing does nothing at all.
   */
  lemma ReleasedIffNothingOwned(l: Ledger, a: Answers)
    ensures
      var pass := Reconciled(l, a);
      && (FromResiduals(pass.residuals) == Released <==> OwnsNothing(pass.ledger))
      && (OwnsNothing(l) ==> pass == Pass(l, [], []))
  {
    var pass := Reconciled(l, a);
    forall r: Resource ensures Names(pass.residuals, r) <==> Owns(pass.ledger, r) {
      ReconcileNamesWhatIsOwned(l, a, r);
    }
    assert OwnsNothing(pass.ledger) <==>
      !Owns(pass.ledger, Process) && !Owns(pass.ledger, Cgroup) && !Owns(pass.ledger, JailRoot);
    if pass.residuals != [] { assert Names(pass.residuals, pass.residuals[0].kind); }
  }

  /** The child is signalled or waited for. */
  predicate AddressesChild(action: Action) {
    action == SignalChild || action.WaitChild?
  }

  ghost predicate Addressed(actions: seq<Action>) {
    exists action <- actions :: AddressesChild(action)
  }

  /** A child is recorded, and not recorded as reaped. */
  predicate ChildOpen(l: Ledger) { l.pidfd && !l.reaped }

  /** Any number of passes, with any answers; the actions of all of them in order. */
  function ManyPasses(l: Ledger, answers: seq<Answers>): (Ledger, seq<Action>)
    decreases |answers|
  {
    if answers == [] then (l, [])
    else
      var pass := Reconciled(l, answers[0]);
      var (end, actions) := ManyPasses(pass.ledger, answers[1..]);
      (end, pass.actions + actions)
  }

  lemma PassAddressesOpenChild(l: Ledger, a: Answers)
    ensures Addressed(Reconciled(l, a).actions) <==> ChildOpen(l)
    ensures ChildOpen(Reconciled(l, a).ledger) <==> ChildOpen(l) && !Gone(a.wait)
  {
    var p := ProcessPass(l, a.wait);
    var c := CgroupPass(p.ledger, a.cgroup);
    var r := RootPass(c.ledger, a.root);
    if ChildOpen(l) {
      assert SignalChild == p.actions[0];
      assert p.actions[0] in p.actions + c.actions + r.actions;
    } else {
      assert p.actions == [];
      assert forall action <- c.actions + r.actions :: !AddressesChild(action);
      assert p.actions + c.actions + r.actions == c.actions + r.actions;
    }
  }

  /** The answer of some wait was that the child is gone. */
  ghost predicate ToldGoneIn(answers: seq<Answers>) {
    exists a <- answers :: Gone(a.wait)
  }

  lemma {:induction false} OpenAfterPasses(l: Ledger, answers: seq<Answers>)
    ensures ChildOpen(ManyPasses(l, answers).0) <==> ChildOpen(l) && !ToldGoneIn(answers)
    decreases |answers|
  {
    if answers != [] {
      PassAddressesOpenChild(l, answers[0]);
      OpenAfterPasses(Reconciled(l, answers[0]).ledger, answers[1..]);
      assert answers == [answers[0]] + answers[1..];
      assert Gone(answers[0].wait) ==> answers[0] in answers;
    }
  }

  /**
   From any ledger and with any answers, a pass signals and waits for the child exactly when it
   was open to begin with and no earlier pass was answered that it is gone. So a pass never
   addresses a child that an earlier one has found gone.
   */
  lemma ChildAddressedUntilGone(l: Ledger, answers: seq<Answers>, j: nat)
    requires j < |answers|
    ensures
      var pass := Reconciled(ManyPasses(l, answers[..j]).0, answers[j]);
      Addressed(pass.actions) <==> ChildOpen(l) && !ToldGoneIn(answers[..j])
  {
    OpenAfterPasses(l, answers[..j]);
    PassAddressesOpenChild(ManyPasses(l, answers[..j]).0, answers[j]);
  }

  /** Once the child is recorded as reaped no later pass signals it or waits for it again. */
  lemma {:induction false} ReapedChildIsLeftAlone(l: Ledger, answers: seq<Answers>)
    requires !ChildOpen(l)
    ensures !Addressed(ManyPasses(l, answers).1) && !ChildOpen(ManyPasses(l, answers).0)
    decreases |answers|
  {
    if answers != [] {
      PassAddressesOpenChild(l, answers[0]);
      ReapedChildIsLeftAlone(Reconciled(l, answers[0]).ledger, answers[1..]);
    }
  }

  lemma AddressedAppend(a: seq<Action>, b: seq<Action>)
    ensures Addressed(a + b) <==> Addressed(a) || Addressed(b)
  {
    if Addressed(a) {
      var x :| x in a && AddressesChild(x);
      assert x in a + b;
    }
    if Addressed(b) {
      var x :| x in b && AddressesChild(x);
      assert x in a + b;
    }
  }

  // A child that dies during the launch

  /** What the launch records of the answer when it asks whether the child has died. */
  function Died(l: Ledger, wait: WaitOutcome): Ledger {
    if wait == Exited then l.(reaped := true) else l
  }

  /**
   The launch forgets one of the two answers that mean the child is gone. After such an answer
   the passes that follow address the child again if and only if the answer was that somebody
   else had reaped it already.
   */
  lemma GoneChildAddressedIffAlreadyReaped(l: Ledger, wait: WaitOutcome, answers: seq<Answers>)
    requires ChildOpen(l) && answers != []
    ensures Gone(wait) && Addressed(ManyPasses(Died(l, wait), answers).1) <==>
      wait == AlreadyReaped
  {
    if wait == Exited {
      ReapedChildIsLeftAlone(Died(l, wait), answers);
    } else {
      var pass := Reconciled(l, answers[0]);
      PassAddressesOpenChild(l, answers[0]);
      AddressedAppend(pass.actions, ManyPasses(pass.ledger, answers[1..]).1);
    }
  }

  /** It happens: the child of a complete launch is signalled after it was found reaped. */
  lemma ReapedElsewhereIsSignalled(a: Answers)
    ensures
      var l := Died(Ledger(true, false, true, true), AlreadyReaped);
      SignalChild in Reconciled(l, a).actions
  {
    var l := Ledger(true, false, true, true);
    assert ProcessPass(l, a.wait).actions[0] == SignalChild;
  }

  /**
   Over any number of repeated passes ownership only shrinks, and a pass in which everything is
   answered as gone releases whatever was left.
   */
  lemma {:induction false} RepeatedPassesShrink(l: Ledger, answers: seq<Answers>, last: Answers)
    ensures forall r: Resource :: Owns(ManyPasses(l, answers).0, r) ==> Owns(l, r)
    ensures Gone(last.wait) && last.cgroup.Removed? && last.root.Removed? ==>
      FromResiduals(Reconciled(ManyPasses(l, answers).0, last).residuals) == Released
    decreases |answers|
  {
    if answers != [] {
      forall r: Resource ensures Owns(Reconciled(l, answers[0]).ledger, r) ==> Owns(l, r) {
        ReconcileNamesWhatIsOwned(l, answers[0], r);
      }
      RepeatedPassesShrink(Reconciled(l, answers[0]).ledger, answers[1..], last);
    }
  }

  // A child that is addressed after it was found gone

  predicate FoundGone(action: Action) { action.WaitChild? && Gone(action.answer) }

  /** The child is signalled or waited for although an earlier wait found it gone. */
  ghost predicate AddressedAfterGone(actions: seq<Action>) {
    exists i, j :: 0 <= i < j < |actions| && FoundGone(actions[i]) && AddressesChild(actions[j])
  }

  lemma AfterGoneAppend(a: seq<Action>, b: seq<Action>)
    ensures AddressedAfterGone(a + b) <==>
      || AddressedAfterGone(a) || AddressedAfterGone(b)
      || ((exists action <- a :: FoundGone(action)) && Addressed(b))
  {
    var all := a + b;
    if AddressedAfterGone(all) {
      var i, j :| 0 <= i < j < |all| && FoundGone(all[i]) && AddressesChild(all[j]);
      if |a| <= i {
        assert b[i - |a|] == all[i] && b[j - |a|] == all[j];
      } else {
        assert a[i] == all[i] && (if j < |a| then a[j] else b[j - |a|]) == all[j];
      }
    }
    if AddressedAfterGone(b) {
      var i, j :| 0 <= i < j < |b| && FoundGone(b[i]) && AddressesChild(b[j]);
      assert all[|a| + i] == b[i] && all[|a| + j] == b[j];
    }
    if AddressedAfterGone(a) {
      var i, j :| 0 <= i < j < |a| && FoundGone(a[i]) && AddressesChild(a[j]);
      assert all[i] == a[i] && all[j] == a[j];
    }
    if (exists action <- a :: FoundGone(action)) && Addressed(b) {
      var i :| 0 <= i < |a| && FoundGone(a[i]);
      var j :| 0 <= j < |b| && AddressesChild(b[j]);
      assert all[i] == a[i] && all[|a| + j] == b[j];
    }
  }

  lemma QuietTail(a: seq<Action>, b: seq<Action>)
    requires !AddressedAfterGone(a) && forall action <- b :: !AddressesChild(action)
    requires a == [] || !a[0].WaitChild?
    ensures !AddressedAfterGone(a + b) && (a + b == [] || !(a + b)[0].WaitChild?)
    ensures (exists action <- a + b :: FoundGone(action)) ==>
      exists action <- a :: FoundGone(action)
  {
    AfterGoneAppend(a, b);
    if a == [] && b != [] { assert (a + b)[0] in b; }
  }

  /** The wait is the last thing a pass does about the child. */
  lemma WaitIsLast(l: Ledger, wait: WaitOutcome)
    ensures
      var p := ProcessPass(l, wait);
      && !AddressedAfterGone(p.actions) && (p.actions == [] || !p.actions[0].WaitChild?)
      && ((exists action <- p.actions :: FoundGone(action)) ==> Gone(wait) && ChildOpen(l))
  {
    var actions := ProcessPass(l, wait).actions;
    assert forall i :: 0 <= i < |actions| - 1 ==> !actions[i].WaitChild?;
  }

  lemma PassFindsGone(l: Ledger, a: Answers)
    ensures
      var pass := Reconciled(l, a);
      && !AddressedAfterGone(pass.actions) && (pass.actions == [] || !pass.actions[0].WaitChild?)
      && ((exists action <- pass.actions :: FoundGone(action)) ==> !ChildOpen(pass.ledger))
  {
    var p := ProcessPass(l, a.wait);
    var c := CgroupPass(p.ledger, a.cgroup);
    var r := RootPass(c.ledger, a.root);
    WaitIsLast(l, a.wait);
    PassAddressesOpenChild(l, a);
    QuietTail(p.actions, c.actions);
    QuietTail(p.actions + c.actions, r.actions);
  }

  /** Passes alone never address a child that a wait of theirs has found gone. */
  lemma {:induction false} PassesLeaveGoneAlone(l: Ledger, answers: seq<Answers>)
    ensures !AddressedAfterGone(ManyPasses(l, answers).1)
    ensures ManyPasses(l, answers).1 == [] || !ManyPasses(l, answers).1[0].WaitChild?
    decreases |answers|
  {
    if answers != [] {
      var pass := Reconciled(l, answers[0]);
      PassFindsGone(l, answers[0]);
      PassesLeaveGoneAlone(pass.ledger, answers[1..]);
      if !ChildOpen(pass.ledger) { ReapedChildIsLeftAlone(pass.ledger, answers[1..]); }
      AfterGoneAppend(pass.actions, ManyPasses(pass.ledger, answers[1..]).1);
    }
  }

  // The world and a launch in it, as a function

  /** One reading of the child's status; a late one is the last. */
  datatype Poll = Unreadable | Settled | Unsettled(late: bool)

  /**
   Everything the environment decides: whether the specification is valid, which steps of a
   launch succeed, what the polls read, and how a wait or a removal is answered after the
   actions so far. Polling beyond the last poll is unreadable.
   */
  datatype World = World(
    valid: bool, creates: Resource -> bool, prepared: bool, observed: bool,
    released: bool, reportedFailure: bool, polls: seq<Poll>,
    wait: seq<Action> -> WaitOutcome, remove: (seq<Action>, Resource) -> RemoveOutcome)

  /** How the world answers a pass over this ledger after these actions. */
  function AnswersAt(w: World, past: seq<Action>, l: Ledger): Answers {
    var wait := w.wait(past + Signals(l));
    var p := ProcessPass(l, wait);
    var cgroup := w.remove(past + p.actions + [KillLeaf], Cgroup);
    var c := CgroupPass(p.ledger, cgroup);
    Answers(wait, cgroup, w.remove(past + p.actions + c.actions, JailRoot))
  }

  function PassAt(w: World, past: seq<Action>, l: Ledger): Pass {
    Reconciled(l, AnswersAt(w, past, l))
  }

  /** A dropped ledger makes a pass if it still owns anything. */
  function Dropped(w: World, past: seq<Action>, l: Ledger): Pass {
    if OwnsNothing(l) then Pass(l, [], []) else PassAt(w, past, l)
  }

  /** The ledger after the steps up to the observed child, and whether all of them succeed. */
  function Built(w: World): (Ledger, bool) {
    if !w.creates(Cgroup) then (EMPTY, false)
    else if !w.creates(JailRoot) then (Ledger(false, false, true, false), false)
    else if !w.prepared || !w.creates(Process) then (Ledger(false, false, true, true), false)
    else (Ledger(true, false, true, true), w.observed)
  }

  predicate Settles(polls: seq<Poll>) {
    polls != [] && (polls[0].Settled? || (polls[0] == Unsettled(false) && Settles(polls[1..])))
  }

  /** The status settles exactly when some poll reads it settled and all before it are in time. */
  lemma {:induction false} SettlesIff(polls: seq<Poll>)
    ensures Settles(polls) <==>
      exists i :: 0 <= i < |polls| && polls[i].Settled?
                  && forall j :: 0 <= j < i ==> polls[j] == Unsettled(false)
  {
    if polls != [] {
      var rest := polls[1..];
      SettlesIff(rest);
      if Settles(polls) && !polls[0].Settled? {
        var i :| 0 <= i < |rest| && rest[i].Settled?
                 && forall j :: 0 <= j < i ==> rest[j] == Unsettled(false);
        assert polls[i + 1].Settled?;
        assert forall j :: 0 <= j < i + 1 ==> polls[j] == Unsettled(false);
      }
      if i :| 0 <= i < |polls| && polls[i].Settled?
              && forall j :: 0 <= j < i ==> polls[j] == Unsettled(false)
      {
        if i > 0 {
          assert rest[i - 1].Settled?;
          assert forall j :: 0 <= j < i - 1 ==> rest[j] == polls[j + 1];
        }
      }
    }
  }

  /** Asking whether the child has died: what is recorded, and what was done. */
  function Asked(w: World, past: seq<Action>, l: Ledger): (Ledger, seq<Action>) {
    if !l.pidfd then (l, [])
    else (Died(l, w.wait(past)), [WaitChild(w.wait(past))])
  }

  /** The child was released and its status did not settle, so the launch asks if it died. */
  predicate AsksWhetherItDied(w: World) {
    w.valid && Built(w).1 && w.released && !w.reportedFailure && !Settles(w.polls)
  }

  predicate Succeeds(w: World) {
    w.valid && Built(w).1 && w.released && !w.reportedFailure && Settles(w.polls)
  }

  /** How a launch ends: its failure if any, the ledger, and the actions it took. */
  datatype Ending = Ending(failure: Option<Disposition>, ledger: Ledger, actions: seq<Action>)

  /** A failing launch reconciles, reports what that left, and drops its ledger. */
  function Failed(w: World, past: seq<Action>, l: Ledger): Ending {
    var pass := PassAt(w, past, l);
    var more := Dropped(w, past + pass.actions, pass.ledger);
    Ending(Some(FromResiduals(pass.residuals)), more.ledger, pass.actions + more.actions)
  }

  /** What a failing launch does are passes with some answers. */
  lemma FailedInPasses(w: World, past: seq<Action>, l: Ledger) returns (answers: seq<Answers>)
    ensures answers != [] && Failed(w, past, l).actions == ManyPasses(l, answers).1
  {
    var a := AnswersAt(w, past, l);
    var pass := Reconciled(l, a);
    var now := past + pass.actions;
    var b := AnswersAt(w, now, pass.ledger);
    answers := [a, b];
    assert answers[1..] == [b] && [b][1..] == [];
    if OwnsNothing(pass.ledger) { ReleasedIffNothingOwned(pass.ledger, b); }
    var last := Reconciled(pass.ledger, b);
    assert ManyPasses(last.ledger, []).1 == [];
    assert last.actions + [] == last.actions;
  }

  lemma OwnedIsReported(l: Ledger, a: Answers, r: Resource)
    requires Owns(Reconciled(l, a).ledger, r)
    ensures Reports(FromResiduals(Reconciled(l, a).residuals), r)
  {
    ReconcileNamesWhatIsOwned(l, a, r);
  }

  function Launched(w: World, past: seq<Action>): Ending {
    if !w.valid then Ending(Some(Released), EMPTY, [])
    else if Succeeds(w) then Ending(None, Built(w).0, [])
    else if AsksWhetherItDied(w) then
      var (l, asked) := Asked(w, past, Built(w).0);
      var end := Failed(w, past + asked, l);
      end.(actions := asked + end.actions)
    else Failed(w, past, Built(w).0)
  }

  /**
   In every world, a launch addresses a child that it has found gone if and only if it asked
   whether the child had died and was answered that somebody else had reaped it; and that is
   what the first of its actions then says.
   */
  lemma LaunchAddressesGoneChildIff(w: World, past: seq<Action>)
    ensures
      var actions := Launched(w, past).actions;
      var forgot := AsksWhetherItDied(w) && w.wait(past) == AlreadyReaped;
      && (AddressedAfterGone(actions) <==> forgot)
      && (forgot <==> actions != [] && actions[0] == WaitChild(AlreadyReaped))
  {
    var l := Built(w).0;
    if AsksWhetherItDied(w) {
      var wait := w.wait(past);
      var died, now := Died(l, wait), past + [WaitChild(wait)];
      var answers := FailedInPasses(w, now, died);
      PassesLeaveGoneAlone(died, answers);
      GoneChildAddressedIffAlreadyReaped(l, wait, answers);
      AfterGoneAppend([WaitChild(wait)], ManyPasses(died, answers).1);
      assert [WaitChild(wait)][0] in [WaitChild(wait)];
    } else if w.valid && !Succeeds(w) {
      var answers := FailedInPasses(w, past, l);
      PassesLeaveGoneAlone(l, answers);
    }
  }

  // The kernel and the ledger object

  /** Resources of one launch that exist, and the calls that were made about them. */
  class Kernel {
    const world: World
    var live: set<Resource>
    var actions: seq<Action>

    constructor (world: World)
      ensures this.world == world && live == {} && actions == []
    {
      this.world := world;
      live, actions := {}, [];
    }

    /** Creation either yields the resource or leaves nothing. */
    method Create(r: Resource) returns (ok: bool)
      modifies this`live
      ensures ok == world.creates(r)
      ensures live == if ok then old(live) + {r} else old(live)
    {
      ok := world.creates(r);
      if ok { live := live + {r}; }
    }

    method Act(action: Action)
      modifies this`actions
      ensures actions == old(actions) + [action]
    {
      actions := actions + [action];
    }

    /** A child that was waited for, here or elsewhere, no longer exists. */
    method WaitExit() returns (w: WaitOutcome)
      modifies this
      ensures w == world.wait(old(actions)) && actions == old(actions) + [WaitChild(w)]
      ensures live == if Gone(w) then old(live) - {Process} else old(live)
    {
      w := world.wait(actions);
      Act(WaitChild(w));
      if Gone(w) { live := live - {Process}; }
    }

    method Remove(r: Resource, action: Action) returns (o: RemoveOutcome)
      modifies this
      ensures o == world.remove(old(actions), r) && actions == old(actions) + [action]
      ensures live == if o.Removed? then old(live) - {r} else old(live)
    {
      o := world.remove(actions, r);
      Act(action);
      if o.Removed? { live := live - {r}; }
    }
  }

  class JailLedger {
    const kernel: Kernel
    var pidfd: bool
    var reaped: bool
    var cgroup: bool
    var root: bool
    var disposition: Option<Disposition>

    constructor (kernel: Kernel)
      ensures this.kernel == kernel && View() == EMPTY && disposition == None
    {
      this.kernel := kernel;
      pidfd, reaped, cgroup, root := false, false, false, false;
      disposition := None;
    }

    ghost function View(): Ledger
      reads this
    {
      Ledger(pidfd, reaped, cgroup, root)
    }

    /** Whatever exists is owned by the ledger; a reaped child no longer exists. */
    ghost predicate Accounts()
      reads this, kernel
    {
      && (forall r <- kernel.live :: Owns(View(), r))
      && (reaped ==> Process !in kernel.live)
    }

    method RecordCgroup()
      modifies this`cgroup
      ensures cgroup
    {
      cgroup := true;
    }

    method RecordJailRoot()
      modifies this`root
      ensures root
    {
      root := true;
    }

    method RecordChild()
      modifies this`pidfd
      ensures pidfd
    {
      pidfd := true;
    }

    method RecordReaped()
      modifies this`reaped
      ensures reaped
    {
      reaped := true;
    }

    /** Kills through the pidfd, reaps, and forgets the pidfd of a reaped child. */
    method ReleaseProcess() returns (residuals: seq<Residual>)
      requires Accounts()
      modifies this`pidfd, this`reaped, kernel
      ensures
        var wait := kernel.world.wait(old(kernel.actions) + Signals(old(View())));
        var pass := ProcessPass(old(View()), wait);
        && View() == pass.ledger && residuals == pass.residuals
        && kernel.actions == old(kernel.actions) + pass.actions
      ensures Accounts() && kernel.live <= old(kernel.live)
    {
      residuals := [];
      if pidfd && !reaped {
        kernel.Act(SignalChild);
        if cgroup { kernel.Act(KillLeaf); }
        assert kernel.actions == old(kernel.actions) + Signals(View());
        var wait := kernel.WaitExit();
        assert kernel.actions == old(kernel.actions) + (Signals(View()) + [WaitChild(wait)]);
        match wait {
          case Exited => reaped := true;
          case AlreadyReaped => reaped := true;
          case Timeout => residuals := [Residual(Process, ETIMEDOUT)];
          case WaitErrno(errno) => residuals := [Residual(Process, errno)];
        }
      }
      if reaped { pidfd := false; }
    }

    method DrainAndRemove() returns (o: RemoveOutcome)
      modifies kernel
      ensures o == kernel.world.remove(old(kernel.actions) + [KillLeaf], Cgroup)
      ensures kernel.actions == old(kernel.actions) + [KillLeaf, RemoveLeaf]
      ensures kernel.live == if o.Removed? then old(kernel.live) - {Cgroup} else old(kernel.live)
    {
      kernel.Act(KillLeaf);
      o := kernel.Remove(Cgroup, RemoveLeaf);
    }

    method ReleaseCgroup() returns (residuals: seq<Residual>)
      requires Accounts()
      modifies this`cgroup, kernel
      ensures
        var remove := kernel.world.remove(old(kernel.actions) + [KillLeaf], Cgroup);
        var pass := CgroupPass(old(View()), remove);
        && View() == pass.ledger && residuals == pass.residuals
        && kernel.actions == old(kernel.actions) + pass.actions
      ensures Accounts() && kernel.live <= old(kernel.live)
    {
      residuals := [];
      if cgroup {
        var outcome := DrainAndRemove();
        match outcome {
          case Removed => cgroup := false;
          case Refused(errno) => residuals := [Residual(Cgroup, errno)];
        }
      }
    }

    method ReleaseRoot() returns (residuals: seq<Residual>)
      requires Accounts()
      modifies this`root, kernel
      ensures
        var pass := RootPass(old(View()), kernel.world.remove(old(kernel.actions), JailRoot));
        && View() == pass.ledger && residuals == pass.residuals
        && kernel.actions == old(kernel.actions) + pass.actions
      ensures Accounts() && kernel.live <= old(kernel.live)
    {
      residuals := [];
      if root {
        var outcome := kernel.Remove(JailRoot, RemoveRoot);
        match outcome {
          case Removed => root := false;
          case Refused(errno) => residuals := [Residual(JailRoot, errno)];
        }
      }
    }

    method Reconcile() returns (d: Disposition)
      requires Accounts()
      modifies this, kernel
      ensures
        var pass := PassAt(kernel.world, old(kernel.actions), old(View()));
        && View() == pass.ledger
        && d == FromResiduals(pass.residuals)
        && disposition == Some(d)
        && kernel.actions == old(kernel.actions) + pass.actions
      ensures Accounts() && kernel.live <= old(kernel.live)
      ensures forall r <- kernel.live :: Reports(d, r)
    {
      ghost var was, before := View(), kernel.actions;
      ghost var a := AnswersAt(kernel.world, before, was);
      var process := ReleaseProcess();
      ghost var l1 := View();
      var leaf := ReleaseCgroup();
      ghost var l2 := View();
      var dir := ReleaseRoot();
      AppendAssociates(before, ProcessPass(was, a.wait).actions,
                       CgroupPass(l1, a.cgroup).actions, RootPass(l2, a.root).actions);
      d := FromResiduals(process + leaf + dir);
      disposition := Some(d);
      forall r <- kernel.live ensures Reports(d, r) { OwnedIsReported(was, a, r); }
    }

    /** Dropping the ledger releases what it can of what is still owned. */
    method Drop()
      requires Accounts()
      modifies this, kernel
      ensures Accounts() && kernel.live <= old(kernel.live)
      ensures
        var pass := Dropped(kernel.world, old(kernel.actions), old(View()));
        View() == pass.ledger && kernel.actions == old(kernel.actions) + pass.actions
      ensures forall r: Resource :: Owns(View(), r) ==> Owns(old(View()), r)
    {
      if pidfd || cgroup || root {
        ghost var before := View();
        ghost var a := AnswersAt(kernel.world, kernel.actions, before);
        var _ := Reconcile();
        forall r: Resource ensures Owns(View(), r) ==> Owns(before, r) {
          ReconcileNamesWhatIsOwned(before, a, r);
        }
      }
    }
  }

  // The launch

  /** Asks whether the child has died by itself; only an exit seen here is recorded. */
  method DiedOr(ledger: JailLedger)
    requires ledger.Accounts()
    modifies ledger`reaped, ledger.kernel
    ensures ledger.Accounts()
    ensures
      var kernel := ledger.kernel;
      var (l, asked) := Asked(kernel.world, old(kernel.actions), old(ledger.View()));
      && ledger.View() == l && kernel.actions == old(kernel.actions) + asked
      && kernel.live ==
           old(kernel.live) - if asked != [] && FoundGone(asked[0]) then {Process} else {}
  {
    if !ledger.pidfd { return; }
    var w := ledger.kernel.WaitExit();
    if w == Exited {
      ledger.RecordReaped();
    }
  }

  /** Releases the child and polls its status until it settles, or gives up and asks. */
  method Release(ledger: JailLedger) returns (ok: bool)
    requires ledger.Accounts()
    modifies ledger`reaped, ledger.kernel
    ensures ledger.Accounts()
    ensures
      var kernel, w := ledger.kernel, ledger.kernel.world;
      var (l, asked) := Asked(w, old(kernel.actions), old(ledger.View()));
      && ok == (w.released && !w.reportedFailure && Settles(w.polls))
      && if ok || !w.released || w.reportedFailure then
           && ledger.View() == old(ledger.View())
           && kernel.actions == old(kernel.actions) && kernel.live == old(kernel.live)
         else ledger.View() == l && kernel.actions == old(kernel.actions) + asked
  {
    var w := ledger.kernel.world;
    if !w.released || w.reportedFailure { return false; }
    var i := 0;
    while true
      invariant i <= |w.polls| && Settles(w.polls) == Settles(w.polls[i..])
      invariant ledger.View() == old(ledger.View()) && ledger.Accounts()
      invariant ledger.kernel.actions == old(ledger.kernel.actions)
      invariant ledger.kernel.live == old(ledger.kernel.live)
      decreases |w.polls| - i
    {
      if i == |w.polls| || w.polls[i].Unreadable? {
        DiedOr(ledger);
        return false;
      }
      if w.polls[i].Settled? { return true; }
      if w.polls[i].late {
        DiedOr(ledger);
        return false;
      }
      assert w.polls[i..][1..] == w.polls[i + 1..];
      i := i + 1;
    }
  }

  /** Reconciles, reports the disposition, and drops the ledger. */
  method Fail(ledger: JailLedger) returns (failure: Option<Disposition>)
    requires ledger.Accounts()
    modifies ledger, ledger.kernel
    ensures
      var kernel := ledger.kernel;
      var end := Failed(kernel.world, old(kernel.actions), old(ledger.View()));
      && failure == end.failure && ledger.View() == end.ledger
      && kernel.actions == old(kernel.actions) + end.actions
    ensures forall r <- ledger.kernel.live :: Reports(failure.value, r)
    ensures failure == Some(Released) ==> ledger.kernel.live == {}
  {
    ghost var past := ledger.kernel.actions;
    ghost var pass := PassAt(ledger.kernel.world, past, ledger.View());
    var cleanup := ledger.Reconcile();
    failure := Some(cleanup);
    ghost var more := Dropped(ledger.kernel.world, ledger.kernel.actions, ledger.View());
    ledger.Drop();
    AppendAssociates(past, pass.actions, more.actions, []);
  }

  /** The steps of a launch up to the observed child, stopping at the first that fails. */
  method Build(ledger: JailLedger) returns (ok: bool)
    requires ledger.kernel.live == {} && ledger.View() == EMPTY
    modifies ledger`cgroup, ledger`root, ledger`pidfd, ledger.kernel`live
    ensures ledger.Accounts() && (ledger.View(), ok) == Built(ledger.kernel.world)
    ensures ok ==> ledger.kernel.live == {Process, Cgroup, JailRoot}
  {
    ok := ledger.kernel.Create(Cgroup);
    if !ok { return false; }
    ledger.RecordCgroup();
    ok := ledger.kernel.Create(JailRoot);
    if !ok { return false; }
    ledger.RecordJailRoot();
    if !ledger.kernel.world.prepared { return false; }
    ok := ledger.kernel.Create(Process);
    if !ok { return false; }
    ledger.RecordChild();
    ok := ledger.kernel.world.observed;
  }

  /**
   Creates the leaf, the root and the child in order, recording each before the next. In every
   world a launch ends as that world decides; a failed launch names every resource of its own
   that still exists, and a successful one returns a ledger that owns all three.
   */
  method Launch(kernel: Kernel) returns (failure: Option<Disposition>, ledger: JailLedger)
    requires kernel.live == {}
    modifies kernel
    ensures
      var end := Launched(kernel.world, old(kernel.actions));
      && failure == end.failure && ledger.View() == end.ledger
      && kernel.actions == old(kernel.actions) + end.actions
    ensures failure.Some? ==>
      && (forall r <- kernel.live :: Reports(failure.value, r))
      && (failure.value == Released ==> kernel.live == {})
    ensures failure.None? ==>
      && ledger.kernel == kernel && ledger.Accounts()
      && ledger.View() == Ledger(true, false, true, true)
      && kernel.live == {Process, Cgroup, JailRoot}
  {
    ledger := new JailLedger(kernel);
    if !kernel.world.valid { return Some(Released), ledger; }
    var ok := Build(ledger);
    if ok { ok := Release(ledger); }
    if ok {
      failure := None;
    } else {
      ghost var now, l := kernel.actions, ledger.View();
      failure := Fail(ledger);
      AppendAssociates(
        old(kernel.actions), now[|old(kernel.actions)|..],
        Failed(kernel.world, now, l).actions, []);
    }
  }
}

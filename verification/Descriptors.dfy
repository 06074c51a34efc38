/**
 Sealing the child's descriptor table and verifying it before and after `execveat`.

 A table maps open descriptor numbers to open files. The launcher relocates every source above
 the sealed range, the child duplicates each into its slot and closes everything above, exec
 closes the close-on-exec slots, and both sides check the table they see.
 */
module Descriptors {
  import opened Wrappers
  import opened Manifest

  const KVM_DEVICE := (10, 232)
  const TAP_DEVICE := (10, 200)
  const I32_MAX := 0x7FFF_FFFF

  datatype VerificationDepth = Launcher | Sealed

  /** What `fstat` and `getsockopt` show of an open file; `id` tells open files apart. */
  datatype OpenFile = OpenFile(
    id: nat, kind: Option<DescriptorKind>, device: (int, int), seqpacket: bool)

  datatype Slot = Slot(file: OpenFile, cloexec: bool)

  type Table = map<nat, Slot>

  datatype DescriptorError =
    | Missing(slot: nat) | Kind(slot: nat) | Device(slot: nat) | NotSeqpacket(slot: nat)
    | Unexpected(slot: nat) | Dup(slot: nat) | CloseRange

  datatype SealEntry = SealEntry(source: nat, slot: nat, cloexec: bool)

  datatype SealPlan = SealPlan(entries: seq<SealEntry>, sealedLen: nat)

  // The kernel's table

  function CloseFrom(t: Table, first: nat): Table {
    map n | n in t && n < first :: t[n]
  }

  function AfterExec(t: Table): Table {
    map n | n in t && !t[n].cloexec :: t[n]
  }

  /** None of that many calls from there on is refused for a reason of the kernel's own. */
  ghost predicate Granted(refuses: nat -> bool, from: nat, count: nat) {
    forall i :: from <= i < from + count ==> !refuses(i)
  }

  /** The table of a process; which of its calls the kernel refuses is an input. */
  class FdTable {
    var slots: Table
    var calls: nat
    const refuses: nat -> bool

    constructor (slots: Table, refuses: nat -> bool)
      ensures this.slots == slots && calls == 0 && this.refuses == refuses
    {
      this.slots, this.refuses := slots, refuses;
      calls := 0;
    }

    /** `F_DUPFD_CLOEXEC`: duplicates into the lowest free number at or above `floor`. */
    method DuplicateAbove(source: nat, floor: nat) returns (relocated: Option<nat>)
      modifies this
      ensures calls == old(calls) + 1
      ensures relocated.Some? <==> source in old(slots) && !refuses(old(calls))
      ensures relocated.None? ==> slots == old(slots)
      ensures relocated.Some? ==>
        && relocated.value >= floor
        && relocated.value !in old(slots)
        && (forall n :: floor <= n < relocated.value ==> n in old(slots))
        && slots == old(slots)[relocated.value := Slot(old(slots)[source].file, true)]
    {
      calls := calls + 1;
      if source !in slots || refuses(calls - 1) { return None; }
      var n := floor;
      while n in slots
        invariant floor <= n
        invariant forall k :: floor <= k < n ==> k in slots
        decreases set k | k in slots.Keys && k >= n
      {
        ghost var rest := set k | k in slots.Keys && k >= n;
        n := n + 1;
        assert n - 1 in rest && (set k | k in slots.Keys && k >= n) <= rest - {n - 1};
      }
      slots := slots[n := Slot(slots[source].file, true)];
      relocated := Some(n);
    }

    /** `dup3`: replaces the target slot; it also refuses equal numbers. */
    method Dup3(source: nat, target: nat, cloexec: bool) returns (done: bool)
      modifies this
      ensures calls == old(calls) + 1
      ensures done <==> source in old(slots) && source != target && !refuses(old(calls))
      ensures slots ==
        if done then old(slots)[target := Slot(old(slots)[source].file, cloexec)]
        else old(slots)
    {
      calls := calls + 1;
      if source !in slots || source == target || refuses(calls - 1) { return false; }
      slots := slots[target := Slot(slots[source].file, cloexec)];
      done := true;
    }

    method CloseRangeFrom(first: nat) returns (done: bool)
      modifies this
      ensures calls == old(calls) + 1 && done == !refuses(old(calls))
      ensures slots == if done then CloseFrom(old(slots), first) else old(slots)
    {
      calls := calls + 1;
      if refuses(calls - 1) { return false; }
      slots := CloseFrom(slots, first);
      done := true;
    }

    /** `execveat` closes every close-on-exec slot. */
    method Exec()
      modifies this`slots
      ensures slots == AfterExec(old(slots))
    {
      slots := AfterExec(slots);
    }
  }

  // Sealing

  /** A descriptor of the launcher and the slot it is meant for. */
  datatype Source = Source(slot: nat, descriptor: nat, cloexec: bool)

  /** The entry stands for the source: same slot, same flag, the same file, above the range. */
  ghost predicate Relocated(before: Table, after: Table, sealedLen: nat, s: Source, e: SealEntry) {
    && e.slot == s.slot && e.cloexec == s.cloexec
    && e.source >= sealedLen
    && s.descriptor in before && e.source in after
    && after[e.source].file == before[s.descriptor].file
  }

  /** The relocated sources are the only numbers that were not open before. */
  ghost predicate OnlyAdds(before: Table, after: Table, entries: seq<SealEntry>) {
    && (forall n <- before :: n in after && after[n] == before[n])
    && (forall e <- entries :: e.source !in before)
    && (forall n <- after :: n in before || exists e <- entries :: e.source == n)
  }

  lemma OnlyAddsOne(
    before: Table, middle: Table, after: Table, entries: seq<SealEntry>, e: SealEntry)
    requires OnlyAdds(before, middle, entries)
    requires e.source !in middle && e.source in after
    requires after == middle[e.source := after[e.source]]
    ensures OnlyAdds(before, after, entries + [e])
  {
    forall n <- after ensures n in before || exists f <- entries + [e] :: f.source == n {
      if n == e.source {
        assert e in entries + [e];
      } else if n !in before {
        var f :| f in entries && f.source == n;
        assert f in entries + [e];
      }
    }
  }

  /** Dropping the holders of a plan closes the relocated sources. */
  method DropHolders(table: FdTable, entries: seq<SealEntry>)
    modifies table`slots
    ensures table.slots == old(table.slots) - (set e <- entries :: e.source)
  {
    for i := 0 to |entries|
      invariant table.slots == old(table.slots) - (set e <- entries[..i] :: e.source)
    {
      table.slots := table.slots - {entries[i].source};
    }
    assert entries[..|entries|] == entries;
  }

  /**
   Relocates every source above `sealedLen`, leaving every open descriptor as it was. A plan
   that cannot be completed leaves no descriptor behind.
   */
  method NewSealPlan(table: FdTable, sealedLen: nat, sources: seq<Source>)
    returns (plan: Result<SealPlan, DescriptorError>)
    requires forall s <- sources :: s.descriptor in table.slots
    modifies table
    ensures plan.Ok? <==>
      sealedLen <= I32_MAX && Granted(table.refuses, old(table.calls), |sources|)
    ensures plan.Err? ==> table.slots == old(table.slots)
    ensures plan.Ok? ==>
      && plan.value.sealedLen == sealedLen
      && OnlyAdds(old(table.slots), table.slots, plan.value.entries)
      && |plan.value.entries| == |sources|
      && forall i :: 0 <= i < |sources| ==>
           Relocated(old(table.slots), table.slots, sealedLen, sources[i], plan.value.entries[i])
  {
    if sealedLen > I32_MAX { return Err(Dup(sealedLen)); }
    var entries: seq<SealEntry> := [];
    for i := 0 to |sources|
      invariant OnlyAdds(old(table.slots), table.slots, entries)
      invariant |entries| == i && table.calls == old(table.calls) + i
      invariant Granted(table.refuses, old(table.calls), i)
      invariant forall j :: 0 <= j < i ==>
        Relocated(old(table.slots), table.slots, sealedLen, sources[j], entries[j])
    {
      ghost var before := table.slots;
      var relocated := table.DuplicateAbove(sources[i].descriptor, sealedLen);
      if relocated.None? {
        DropHolders(table, entries);
        return Err(Dup(sources[i].slot));
      }
      var e := SealEntry(relocated.value, sources[i].slot, sources[i].cloexec);
      OnlyAddsOne(old(table.slots), before, table.slots, entries, e);
      entries := entries + [e];
    }
    plan := Ok(SealPlan(entries, sealedLen));
  }

  /** The table after the duplications of these entries, in order. */
  function DupEntries(t: Table, entries: seq<SealEntry>): Table
    requires forall e <- entries :: e.source in t
  {
    if entries == [] then t
    else
      var (rest, e) := (entries[..|entries| - 1], entries[|entries| - 1]);
      DupEntries(t, rest)[e.slot := Slot(t[e.source].file, e.cloexec)]
  }

  /** Every source of the plan sits at or above the range its slots are in. */
  predicate SourcesAbove(plan: SealPlan) {
    forall e <- plan.entries :: e.slot < plan.sealedLen <= e.source
  }

  /** No duplication overwrites a source: sources keep their files to the end. */
  lemma {:induction false} SourcesSurvive(t: Table, plan: SealPlan, n: nat)
    requires SourcesAbove(plan) && n <= |plan.entries|
    requires forall e <- plan.entries :: e.source in t
    ensures forall k <- t :: k >= plan.sealedLen ==>
      k in DupEntries(t, plan.entries[..n]) && DupEntries(t, plan.entries[..n])[k] == t[k]
  {
    if n > 0 {
      SourcesSurvive(t, plan, n - 1);
      assert plan.entries[..n][..n - 1] == plan.entries[..n - 1];
    }
  }

  lemma DupNext(t: Table, plan: SealPlan, i: nat)
    requires SourcesAbove(plan) && i < |plan.entries|
    requires forall e <- plan.entries :: e.source in t
    ensures
      var now, e := DupEntries(t, plan.entries[..i]), plan.entries[i];
      && e.source in now && e.source != e.slot
      && DupEntries(t, plan.entries[..i + 1]) == now[e.slot := Slot(now[e.source].file, e.cloexec)]
  {
    SourcesSurvive(t, plan, i);
    assert plan.entries[i] in plan.entries;
    assert plan.entries[..i + 1][..i] == plan.entries[..i];
  }

  /** The child performs every duplication, then closes everything above the sealed range. */
  method ApplyInChild(table: FdTable, plan: SealPlan) returns (r: Result<(), DescriptorError>)
    requires SourcesAbove(plan)
    requires forall e <- plan.entries :: e.source in table.slots
    modifies table
    ensures r.Ok? <==>
      && (forall e <- plan.entries :: e.slot <= I32_MAX)
      && Granted(table.refuses, old(table.calls), |plan.entries| + 1)
    ensures r.Ok? ==>
      table.slots == CloseFrom(DupEntries(old(table.slots), plan.entries), plan.sealedLen)
  {
    for i := 0 to |plan.entries|
      invariant table.slots == DupEntries(old(table.slots), plan.entries[..i])
      invariant table.calls == old(table.calls) + i
      invariant forall j :: 0 <= j < i ==> plan.entries[j].slot <= I32_MAX
      invariant Granted(table.refuses, old(table.calls), i)
    {
      DupNext(old(table.slots), plan, i);
      var e := plan.entries[i];
      assert e in plan.entries;
      if e.slot > I32_MAX { return Err(Dup(e.slot)); }
      var done := table.Dup3(e.source, e.slot, e.cloexec);
      if !done { return Err(Dup(e.slot)); }
    }
    assert plan.entries[..|plan.entries|] == plan.entries;
    var closed := table.CloseRangeFrom(plan.sealedLen);
    if !closed { return Err(CloseRange); }
    r := Ok(());
  }

  ghost predicate Targets(entries: seq<SealEntry>, slot: nat) {
    exists e <- entries :: e.slot == slot
  }

  /** Target slots are distinct and fill the sealed range, in any order. */
  ghost predicate Covers(plan: SealPlan) {
    && (forall i, j :: 0 <= i < j < |plan.entries| ==>
         plan.entries[i].slot != plan.entries[j].slot)
    && (forall n :: 0 <= n < plan.sealedLen ==> Targets(plan.entries, n))
  }

  lemma {:induction false} DupEntriesAt(t: Table, entries: seq<SealEntry>, i: nat)
    requires forall e <- entries :: e.source in t
    requires i < |entries|
    requires forall j :: i < j < |entries| ==> entries[j].slot != entries[i].slot
    ensures entries[i].slot in DupEntries(t, entries)
    ensures DupEntries(t, entries)[entries[i].slot]
         == Slot(t[entries[i].source].file, entries[i].cloexec)
    decreases |entries|
  {
    if i < |entries| - 1 {
      DupEntriesAt(t, entries[..|entries| - 1], i);
    }
  }

  lemma {:induction false} DupEntriesKeys(t: Table, entries: seq<SealEntry>)
    requires forall e <- entries :: e.source in t
    ensures DupEntries(t, entries).Keys == t.Keys + (set e <- entries :: e.slot)
    decreases |entries|
  {
    if entries != [] {
      var rest, e := entries[..|entries| - 1], entries[|entries| - 1];
      DupEntriesKeys(t, rest);
      assert entries == rest + [e];
    }
  }

  /**
   Whatever the table held before, sealing leaves exactly the sealed range open: each slot
   holds the file of the one source meant for it, and nothing is open above.
   */
  lemma SealedTableIsExact(t: Table, plan: SealPlan)
    requires SourcesAbove(plan) && Covers(plan)
    requires forall e <- plan.entries :: e.source in t
    ensures
      var sealed := CloseFrom(DupEntries(t, plan.entries), plan.sealedLen);
      && (forall n: nat :: n in sealed <==> n < plan.sealedLen)
      && forall e <- plan.entries ::
           e.slot in sealed && sealed[e.slot] == Slot(t[e.source].file, e.cloexec)
  {
    DupEntriesKeys(t, plan.entries);
    forall e <- plan.entries
      ensures e.slot in DupEntries(t, plan.entries)
           && DupEntries(t, plan.entries)[e.slot] == Slot(t[e.source].file, e.cloexec)
    {
      var i :| 0 <= i < |plan.entries| && plan.entries[i] == e;
      DupEntriesAt(t, plan.entries, i);
    }
    forall n: nat | n < plan.sealedLen ensures n in DupEntries(t, plan.entries) {
      assert Targets(plan.entries, n);
    }
  }

  // Verification

  /** What a slot must hold at a depth. */
  datatype Expectation = ForRole(role: DescriptorRole) | OfKind(kind: DescriptorKind) | Closed

  function Expected(m: DescriptorManifest, depth: VerificationDepth, slot: nat): Expectation {
    if slot < STANDARD_STREAMS then ForRole(Log)
    else if slot < m.ExecutableSlot() then ForRole(m.roles[slot - FIRST_MANIFEST_SLOT])
    else if depth == Launcher && slot == m.ExecutableSlot() then OfKind(RegularFile)
    else if depth == Launcher && slot == m.ReportSlot() then OfKind(Fifo)
    else Closed
  }

  function ExpectKind(t: Table, slot: nat, kinds: set<DescriptorKind>): Option<DescriptorError> {
    if slot !in t then Some(Missing(slot))
    else if t[slot].file.kind.None? || t[slot].file.kind.value !in kinds then Some(Kind(slot))
    else None
  }

  function ExpectSlot(t: Table, slot: nat, role: DescriptorRole, depth: VerificationDepth)
    : Option<DescriptorError>
  {
    match ExpectKind(t, slot, ExpectedKinds(role))
    case Some(error) => Some(error)
    case None =>
      if role == Kvm && t[slot].file.device != KVM_DEVICE then Some(Device(slot))
      else if role == Tap && t[slot].file.device != TAP_DEVICE then Some(Device(slot))
      else if role == Control && depth == Launcher && !t[slot].file.seqpacket then
        Some(NotSeqpacket(slot))
      else None
  }

  /** The complaint about one slot, if there is one. */
  function Complaint(t: Table, m: DescriptorManifest, depth: VerificationDepth, slot: nat)
    : Option<DescriptorError>
  {
    match Expected(m, depth, slot)
    case ForRole(role) => ExpectSlot(t, slot, role, depth)
    case OfKind(kind) => ExpectKind(t, slot, {kind})
    case Closed => if slot in t then Some(Unexpected(slot)) else None
  }

  /** The number of slots that must be open at a depth; all slots below it must be. */
  function OpenCount(m: DescriptorManifest, depth: VerificationDepth): nat {
    if depth == Launcher then m.LauncherSealedLen() else m.ExecutableSlot()
  }

  ghost predicate CleanBelow(t: Table, m: DescriptorManifest, depth: VerificationDepth, n: nat) {
    forall slot :: 0 <= slot < n ==> Complaint(t, m, depth, slot) == None
  }

  function Max(a: nat, b: nat): nat {
    if a >= b then a else b
  }

  /**
   Accepts exactly when no slot that must be open, and no slot below `limit`, gives cause for
   complaint; otherwise it reports the complaint of the lowest such slot.
   */
  method VerifySealedTable(
    table: FdTable, m: DescriptorManifest, depth: VerificationDepth, limit: nat)
    returns (r: Result<nat, DescriptorError>)
    ensures
      match r
      case Ok(open) =>
        && open == OpenCount(m, depth)
        && CleanBelow(table.slots, m, depth, Max(OpenCount(m, depth), limit))
      case Err(error) =>
        exists slot :: 0 <= slot < Max(OpenCount(m, depth), limit)
          && Complaint(table.slots, m, depth, slot) == Some(error)
          && CleanBelow(table.slots, m, depth, slot)
  {
    var t := table.slots;
    for slot := 0 to STANDARD_STREAMS
      invariant CleanBelow(t, m, depth, slot)
    {
      var error := ExpectSlot(t, slot, Log, depth);
      if error.Some? {
        assert Complaint(t, m, depth, slot) == error;
        return Err(error.value);
      }
    }
    for index := 0 to |m.roles|
      invariant CleanBelow(t, m, depth, m.SlotOf(index))
    {
      var error := ExpectSlot(t, m.SlotOf(index), m.roles[index], depth);
      if error.Some? {
        assert Complaint(t, m, depth, m.SlotOf(index)) == error;
        return Err(error.value);
      }
    }
    var open := STANDARD_STREAMS + |m.roles|;
    var firstClosed := m.ExecutableSlot();
    if depth == Launcher {
      var error := ExpectKind(t, m.ExecutableSlot(), {RegularFile});
      assert Complaint(t, m, depth, m.ExecutableSlot()) == error;
      if error.Some? { return Err(error.value); }
      error := ExpectKind(t, m.ReportSlot(), {Fifo});
      assert Complaint(t, m, depth, m.ReportSlot()) == error;
      if error.Some? { return Err(error.value); }
      open := open + 2;
      firstClosed := m.LauncherSealedLen();
    }
    var slot := firstClosed;
    while slot < limit
      invariant firstClosed <= slot <= Max(firstClosed, limit)
      invariant CleanBelow(t, m, depth, slot)
    {
      if slot in t {
        assert Complaint(t, m, depth, slot) == Some(Unexpected(slot));
        return Err(Unexpected(slot));
      }
      slot := slot + 1;
    }
    r := Ok(open);
  }

  // From the launcher's resources to the sealed process

  /** The files a launch hands to the child. */
  datatype Resources = Resources(
    input: OpenFile, log: OpenFile, executable: OpenFile, report: OpenFile, roles: seq<OpenFile>)

  function Intended(m: DescriptorManifest, r: Resources, slot: nat): Slot
    requires |r.roles| == |m.roles| && slot < m.LauncherSealedLen()
  {
    if slot == 0 then Slot(r.input, false)
    else if slot < STANDARD_STREAMS then Slot(r.log, false)
    else if slot < m.ExecutableSlot() then Slot(r.roles[slot - FIRST_MANIFEST_SLOT], false)
    else if slot == m.ExecutableSlot() then Slot(r.executable, true)
    else Slot(r.report, true)
  }

  /** The table holds each resource in its slot, and nothing else. */
  ghost predicate HoldsIntended(t: Table, m: DescriptorManifest, r: Resources)
    requires |r.roles| == |m.roles|
  {
    && (forall n: nat :: n in t <==> n < m.LauncherSealedLen())
    && (forall n: nat :: n < m.LauncherSealedLen() ==> t[n] == Intended(m, r, n))
  }

  /** A file may serve a role before seccomp; every file must for the launch to go on. */
  predicate Serves(file: OpenFile, role: DescriptorRole) {
    && file.kind.Some? && file.kind.value in ExpectedKinds(role)
    && (role == Kvm ==> file.device == KVM_DEVICE)
    && (role == Tap ==> file.device == TAP_DEVICE)
    && (role == Control ==> file.seqpacket)
  }

  ghost predicate Suitable(m: DescriptorManifest, r: Resources)
    requires |r.roles| == |m.roles|
  {
    && Serves(r.input, Log) && Serves(r.log, Log)
    && r.executable.kind == Some(RegularFile) && r.report.kind == Some(Fifo)
    && forall i :: 0 <= i < |m.roles| ==> Serves(r.roles[i], m.roles[i])
  }

  /** Launcher verification of a correctly sealed table accepts exactly suitable resources. */
  lemma LauncherAcceptsIffSuitable(t: Table, m: DescriptorManifest, r: Resources, limit: nat)
    requires |r.roles| == |m.roles| && HoldsIntended(t, m, r)
    ensures CleanBelow(t, m, Launcher, Max(OpenCount(m, Launcher), limit)) <==> Suitable(m, r)
  {
    var end := Max(OpenCount(m, Launcher), limit);
    if CleanBelow(t, m, Launcher, end) {
      assert Complaint(t, m, Launcher, 0) == None && Complaint(t, m, Launcher, 1) == None;
      assert Complaint(t, m, Launcher, m.ExecutableSlot()) == None;
      assert Complaint(t, m, Launcher, m.ReportSlot()) == None;
      forall i | 0 <= i < |m.roles| ensures Serves(r.roles[i], m.roles[i]) {
        assert Complaint(t, m, Launcher, m.SlotOf(i)) == None;
      }
    }
    if Suitable(m, r) {
      forall slot | 0 <= slot < end ensures Complaint(t, m, Launcher, slot) == None {
        if FIRST_MANIFEST_SLOT <= slot < m.ExecutableSlot() {
          assert Serves(r.roles[slot - FIRST_MANIFEST_SLOT], m.roles[slot - FIRST_MANIFEST_SLOT]);
        }
      }
    }
  }

  /** After exec, a table the launcher accepted is accepted by the sealed process too. */
  lemma SealedAcceptsAfterExec(t: Table, m: DescriptorManifest, r: Resources, limit: nat)
    requires |r.roles| == |m.roles| && HoldsIntended(t, m, r) && Suitable(m, r)
    ensures forall n: nat :: n in AfterExec(t) <==> n < OpenCount(m, Sealed)
    ensures CleanBelow(AfterExec(t), m, Sealed, Max(OpenCount(m, Sealed), limit))
  {
    var end := Max(OpenCount(m, Sealed), limit);
    forall slot | 0 <= slot < end ensures Complaint(AfterExec(t), m, Sealed, slot) == None {
      if FIRST_MANIFEST_SLOT <= slot < m.ExecutableSlot() {
        assert Serves(r.roles[slot - FIRST_MANIFEST_SLOT], m.roles[slot - FIRST_MANIFEST_SLOT]);
      }
    }
  }

  /** The launcher's descriptor numbers for the resources of one launch. */
  datatype Numbers = Numbers(
    input: nat, log: nat, executable: nat, report: nat, roles: seq<nat>)

  predicate AreOpen(t: Table, n: Numbers) {
    && n.input in t && n.log in t && n.executable in t && n.report in t
    && forall k <- n.roles :: k in t
  }

  function FilesOf(t: Table, n: Numbers): (r: Resources)
    requires AreOpen(t, n)
    ensures |r.roles| == |n.roles|
  {
    Resources(
      t[n.input].file, t[n.log].file, t[n.executable].file, t[n.report].file,
      seq(|n.roles|, i requires 0 <= i < |n.roles| => t[n.roles[i]].file))
  }

  function SourceAt(m: DescriptorManifest, n: Numbers, slot: nat): Source
    requires |n.roles| == |m.roles| && slot < m.LauncherSealedLen()
  {
    if slot == 0 then Source(0, n.input, false)
    else if slot < STANDARD_STREAMS then Source(slot, n.log, false)
    else if slot < m.ExecutableSlot() then
      Source(slot, n.roles[slot - FIRST_MANIFEST_SLOT], false)
    else if slot == m.ExecutableSlot() then Source(slot, n.executable, true)
    else Source(slot, n.report, true)
  }

  /** The sources the launcher prepares: streams, roles in manifest order, executable, report. */
  method PrepareSources(m: DescriptorManifest, n: Numbers) returns (sources: seq<Source>)
    requires |n.roles| == |m.roles|
    ensures |sources| == m.LauncherSealedLen()
    ensures forall i :: 0 <= i < |sources| ==> sources[i] == SourceAt(m, n, i)
  {
    sources := [Source(0, n.input, false), Source(1, n.log, false), Source(2, n.log, false)];
    for i := 0 to |n.roles|
      invariant |sources| == FIRST_MANIFEST_SLOT + i
      invariant forall k :: 0 <= k < |sources| ==> sources[k] == SourceAt(m, n, k)
    {
      sources := sources + [Source(m.SlotOf(i), n.roles[i], false)];
    }
    sources := sources + [Source(m.ExecutableSlot(), n.executable, true)];
    sources := sources + [Source(m.ReportSlot(), n.report, true)];
  }

  /** A plan made of those sources seals exactly the intended table. */
  lemma PlanSealsIntended(
    before: Table, after: Table, m: DescriptorManifest, n: Numbers, plan: SealPlan)
    requires |n.roles| == |m.roles| && AreOpen(before, n)
    requires plan.sealedLen == m.LauncherSealedLen() == |plan.entries|
    requires forall i :: 0 <= i < |plan.entries| ==>
      Relocated(before, after, plan.sealedLen, SourceAt(m, n, i), plan.entries[i])
    ensures SourcesAbove(plan) && forall e <- plan.entries :: e.source in after
    ensures HoldsIntended(
      CloseFrom(DupEntries(after, plan.entries), plan.sealedLen), m, FilesOf(before, n))
  {
    forall i | 0 <= i < plan.sealedLen
      ensures plan.entries[i].slot == i < plan.sealedLen <= plan.entries[i].source
      ensures Targets(plan.entries, i)
    {
      assert Relocated(before, after, plan.sealedLen, SourceAt(m, n, i), plan.entries[i]);
      assert plan.entries[i] in plan.entries;
    }
    assert Covers(plan);
    SealedTableIsExact(after, plan);
    var sealed := CloseFrom(DupEntries(after, plan.entries), plan.sealedLen);
    forall k: nat | k < plan.sealedLen ensures sealed[k] == Intended(m, FilesOf(before, n), k) {
      assert Relocated(before, after, plan.sealedLen, SourceAt(m, n, k), plan.entries[k]);
      assert plan.entries[k] in plan.entries;
    }
  }

  datatype Launched =
    | NotPlanned(error: DescriptorError)
    | NotSealed(error: DescriptorError)
    | LauncherRefused(error: DescriptorError)
    | Running(open: nat)

  lemma DroppingRestores(before: Table, after: Table, entries: seq<SealEntry>)
    requires OnlyAdds(before, after, entries)
    ensures after - (set e <- entries :: e.source) == before
  {
    var sources := set e <- entries :: e.source;
    forall n <- after | n !in before ensures n in sources {
      var e :| e in entries && e.source == n;
    }
    assert (after - sources).Keys == before.Keys;
  }

  /**
   Plans in the launcher, clones its table, and seals the clone. The plan is dropped as soon as
   the child is cloned, so the launcher is left with the table it had.
   */
  method SealChild(
    parent: FdTable, m: DescriptorManifest, n: Numbers, childRefuses: nat -> bool)
    returns (failure: Option<Launched>, child: FdTable)
    requires m.Valid() && |n.roles| == |m.roles| && AreOpen(parent.slots, n)
    modifies parent
    ensures fresh(child)
    ensures
      var planned := Granted(parent.refuses, old(parent.calls), m.LauncherSealedLen());
      var sealed := Granted(childRefuses, 0, m.LauncherSealedLen() + 1);
      if !planned then failure.Some? && failure.value.NotPlanned?
      else if !sealed then failure.Some? && failure.value.NotSealed?
      else failure.None?
    ensures failure.None? ==> HoldsIntended(child.slots, m, FilesOf(old(parent.slots), n))
    ensures parent.slots == old(parent.slots)
  {
    var sources := PrepareSources(m, n);
    var plan := NewSealPlan(parent, m.LauncherSealedLen(), sources);
    child := new FdTable(parent.slots, childRefuses);
    if plan.Err? { return Some(NotPlanned(plan.error)), child; }
    PlanSealsIntended(old(parent.slots), parent.slots, m, n, plan.value);
    DroppingRestores(old(parent.slots), parent.slots, plan.value.entries);
    DropHolders(parent, plan.value.entries);
    var applied := ApplyInChild(child, plan.value);
    if applied.Err? { return Some(NotSealed(applied.error)), child; }
    failure := None;
  }

  /**
   The launcher check, exec, and the check the new process makes with the manifest it decodes
   from its argument. The second check never refuses what the first accepted.
   */
  method CheckAndExec(child: FdTable, m: DescriptorManifest, r: Resources, limit: nat)
    returns (outcome: Launched)
    requires m.Valid() && |r.roles| == |m.roles| && HoldsIntended(child.slots, m, r)
    modifies child
    ensures outcome.LauncherRefused? <==> !Suitable(m, r)
    ensures outcome.Running? <==> Suitable(m, r)
    ensures outcome.Running? ==>
      && outcome.open == STANDARD_STREAMS + |m.roles|
      && (forall k: nat :: k in child.slots <==> k < outcome.open)
      && (forall k: nat :: k < outcome.open ==> child.slots[k] == Intended(m, r, k))
  {
    LauncherAcceptsIffSuitable(child.slots, m, r, limit);
    var checked := VerifySealedTable(child, m, Launcher, limit);
    if checked.Err? { return LauncherRefused(checked.error); }
    SealedAcceptsAfterExec(child.slots, m, r, limit);
    child.Exec();
    DecodeInvertsEncode(m.Encode(), m);
    var decoded := Decode(m.Encode());
    var again := VerifySealedTable(child, decoded.value, Sealed, limit);
    outcome := Running(again.value);
  }

  /**
   The whole path from the launcher's open descriptors to the running process. For any table,
   any resources and any refusals of the kernel: without a refusal the child is planned and
   sealed, and it runs if and only if every resource can serve its role. A child that runs passed
   its own check with the exact count and holds exactly the intended files. On every exit the
   launcher's own table is what it was.
   */
  method LaunchSealed(
    parent: FdTable, m: DescriptorManifest, n: Numbers, limit: nat, childRefuses: nat -> bool)
    returns (outcome: Launched, child: FdTable)
    requires m.Valid() && |n.roles| == |m.roles| && AreOpen(parent.slots, n)
    modifies parent
    ensures
      var planned := Granted(parent.refuses, old(parent.calls), m.LauncherSealedLen());
      var sealed := Granted(childRefuses, 0, m.LauncherSealedLen() + 1);
      if !planned then outcome.NotPlanned?
      else if !sealed then outcome.NotSealed?
      else if !Suitable(m, FilesOf(old(parent.slots), n)) then outcome.LauncherRefused?
      else outcome.Running?
    ensures outcome.Running? ==>
      && outcome.open == STANDARD_STREAMS + |m.roles|
      && (forall k: nat :: k in child.slots <==> k < outcome.open)
      && (forall k: nat :: k < outcome.open ==>
            child.slots[k] == Intended(m, FilesOf(old(parent.slots), n), k))
    ensures parent.slots == old(parent.slots)
  {
    var files := FilesOf(parent.slots, n);
    var failure;
    failure, child := SealChild(parent, m, n, childRefuses);
    if failure.Some? { return failure.value, child; }
    outcome := CheckAndExec(child, m, files, limit);
  }
}

/**
 A whole burst run and its fail-closed reader: what the writer retains of every completed run
 must pass the reader's validation, and its completion record must add up.
 */
module BurstRun {
  import opened BurstSlot
  import opened Counting
  import opened Percentile
  import opened Sorting
  import opened Wrappers

  // The failure breakdown

  const MAXIMUM_REPORTED_DETAILS := 3

  type Key = (Reason, Operation)

  /** How often one reason occurred at one operation, and what it most often reported. */
  datatype Row = Row(key: Key, count: nat, details: seq<Entry<string>>)

  function KeyOf(f: Failure): Key { (f.reason, f.operation) }

  function KeysOf(failures: seq<Failure>): seq<Key> { Mapped(KeyOf, failures) }

  /** The details that failures with this key reported, in order. */
  function DetailsOf(failures: seq<Failure>, key: Key): seq<string> {
    if failures == [] then []
    else
      var before, last := failures[..|failures| - 1], failures[|failures| - 1];
      if KeyOf(last) == key && last.detail != "" then DetailsOf(before, key) + [last.detail]
      else DetailsOf(before, key)
  }

  // The names of reasons and operations in the order of their text

  function ReasonRank(r: Reason): nat {
    match r
    case CleanupFailed => 0
    case CommandProcessFailed => 1
    case CommandResponseInvalid => 2
    case CommandUnsuccessful => 3
    case LaunchProcessFailed => 4
    case LaunchResponseInvalid => 5
  }

  function OperationRank(o: Operation): nat {
    match o
    case Destroy => 0
    case Exec => 1
    case Launch => 2
  }

  predicate KeyAtMost(a: Key, b: Key) {
    || ReasonRank(a.0) < ReasonRank(b.0)
    || (ReasonRank(a.0) == ReasonRank(b.0) && OperationRank(a.1) <= OperationRank(b.1))
  }

  lemma KeyOrderIsTotal()
    ensures TotalOrder(KeyAtMost)
  {
  }

  function RowOf(entry: Entry<Key>, details: seq<Entry<string>>): Row {
    Row(entry.key, entry.count,
        Top(Sorted(MoreOften(TextAtMost), details), MAXIMUM_REPORTED_DETAILS))
  }

  function RowFor(failures: seq<Failure>): Entry<Key> -> Row {
    (entry: Entry<Key>) => RowOf(entry, Tally(DetailsOf(failures, entry.key)))
  }

  function Breakdown(failures: seq<Failure>): seq<Row> {
    Mapped(RowFor(failures), Ranked(KeyAtMost, KeysOf(failures)))
  }

  function RowCount(row: Row): nat { row.count }

  function Total(rows: seq<Row>): nat { Sum(RowCount, rows) }

  predicate RowBefore(a: Row, b: Row) {
    a.key != b.key && (a.count > b.count || (a.count == b.count && KeyAtMost(a.key, b.key)))
  }

  /**
   The row counts the failures with its key. Its details say how often each was reported, most
   often first; there are at most three, and none left out was reported more often.
   */
  ghost predicate RowIsExact(failures: seq<Failure>, row: Row) {
    var texts := DetailsOf(failures, row.key);
    && row.count == Occurrences(KeysOf(failures), row.key) > 0
    && |row.details| <= MAXIMUM_REPORTED_DETAILS
    && Pairwise(OtherKey, row.details) && Pairwise(MoreOften(TextAtMost), row.details)
    && (forall e <- row.details :: Exact(texts, e))
    && (forall text <- texts ::
          || (exists e <- row.details :: e.key == text)
          || (|row.details| == MAXIMUM_REPORTED_DETAILS
              && forall e <- row.details :: e.count >= Occurrences(texts, text)))
  }

  lemma {:induction false} TotalOfRows(failures: seq<Failure>, entries: seq<Entry<Key>>)
    ensures Total(Mapped(RowFor(failures), entries)) == Sum(CountIn, entries)
  {
    var rows := Mapped(RowFor(failures), entries);
    if entries != [] {
      TotalOfRows(failures, entries[1..]);
      assert rows[1..] == Mapped(RowFor(failures), entries[1..]);
    }
  }

  lemma EachRowIsExact(failures: seq<Failure>, i: nat)
    requires i < |Breakdown(failures)|
    ensures RowIsExact(failures, Breakdown(failures)[i])
  {
    var entry := Ranked(KeyAtMost, KeysOf(failures))[i];
    KeyOrderIsTotal();
    RankedEntry(KeyAtMost, KeysOf(failures), i);
    TextOrderIsTotal();
    TopIsExact(TextAtMost, DetailsOf(failures, entry.key), MAXIMUM_REPORTED_DETAILS);
  }

  lemma EachFailureHasARow(failures: seq<Failure>, f: Failure)
    requires f in failures
    ensures exists row <- Breakdown(failures) :: row.key == KeyOf(f)
  {
    var k: nat :| k < |failures| && failures[k] == f;
    KeyOrderIsTotal();
    assert KeysOf(failures)[k] == KeyOf(f);
    var i := RankedFinds(KeyAtMost, KeysOf(failures), KeyOf(f));
    assert Breakdown(failures)[i].key == KeyOf(f);
  }

  lemma RowsAreInOrder(failures: seq<Failure>)
    ensures Pairwise(RowBefore, Breakdown(failures))
  {
    var rows, ranked := Breakdown(failures), Ranked(KeyAtMost, KeysOf(failures));
    KeyOrderIsTotal();
    RankedIsExact(KeyAtMost, KeysOf(failures));
    forall i, j | 0 <= i < j < |rows| ensures RowBefore(rows[i], rows[j]) {
      assert OtherKey(ranked[i], ranked[j]) && MoreOften(KeyAtMost)(ranked[i], ranked[j]);
    }
  }

  /**
   The breakdown is exact: every failure has a row, every row counts its failures and their
   details exactly, no two rows are about the same, the rows come in descending order, and the
   counts add up to the number of failures.
   */
  lemma BreakdownIsExact(failures: seq<Failure>)
    ensures Total(Breakdown(failures)) == |failures|
    ensures Pairwise(RowBefore, Breakdown(failures))
    ensures forall i :: 0 <= i < |Breakdown(failures)| ==>
      RowIsExact(failures, Breakdown(failures)[i])
    ensures forall f <- failures :: exists row <- Breakdown(failures) :: row.key == KeyOf(f)
  {
    KeyOrderIsTotal();
    RankedIsExact(KeyAtMost, KeysOf(failures));
    TotalOfRows(failures, Ranked(KeyAtMost, KeysOf(failures)));
    RowsAreInOrder(failures);
    forall i | 0 <= i < |Breakdown(failures)|
      ensures RowIsExact(failures, Breakdown(failures)[i])
    {
      EachRowIsExact(failures, i);
    }
    forall f <- failures ensures exists row <- Breakdown(failures) :: row.key == KeyOf(f) {
      EachFailureHasARow(failures, f);
    }
  }

  /** The failures of all samples, in order. */
  function AllFailures(samples: seq<Sample>): seq<Failure> {
    if samples == [] then []
    else AllFailures(samples[..|samples| - 1]) + samples[|samples| - 1].failures
  }

  lemma AllFailuresNext(samples: seq<Sample>, i: nat)
    requires i < |samples|
    ensures AllFailures(samples[..i + 1]) == AllFailures(samples[..i]) + samples[i].failures
  {
    assert samples[..i + 1][..i] == samples[..i];
  }

  /** The two dictionaries of the counting loops. */
  datatype Counts = Counts(counts: seq<Entry<Key>>, details: map<Key, seq<Entry<string>>>)

  function SeenFor(details: map<Key, seq<Entry<string>>>, key: Key): seq<Entry<string>> {
    if key in details then details[key] else []
  }

  function Counted(c: Counts, f: Failure): Counts {
    var key := KeyOf(f);
    Counts(
      Bump(c.counts, key),
      if f.detail == "" then c.details
      else c.details[key := Bump(SeenFor(c.details, key), f.detail)])
  }

  ghost predicate Holds(c: Counts, seen: seq<Failure>) {
    && c.counts == Tally(KeysOf(seen))
    && forall key: Key :: SeenFor(c.details, key) == Tally(DetailsOf(seen, key))
  }

  lemma CountedNext(c: Counts, seen: seq<Failure>, f: Failure)
    requires Holds(c, seen)
    ensures Holds(Counted(c, f), seen + [f])
  {
    var more := seen + [f];
    assert more[..|seen|] == seen;
    assert KeysOf(more)[..|seen|] == KeysOf(seen);
    forall key: Key
      ensures SeenFor(Counted(c, f).details, key) == Tally(DetailsOf(more, key))
    {
      var texts := DetailsOf(seen, key);
      assert SeenFor(c.details, key) == Tally(texts);
      assert (texts + [f.detail])[..|texts|] == texts;
    }
  }

  method CountFailures(c: Counts, failures: seq<Failure>, ghost seen: seq<Failure>)
    returns (after: Counts)
    requires Holds(c, seen)
    ensures Holds(after, seen + failures)
  {
    after := c;
    assert seen + failures[..0] == seen;
    for j := 0 to |failures|
      invariant Holds(after, seen + failures[..j])
    {
      CountedNext(after, seen + failures[..j], failures[j]);
      assert seen + failures[..j] + [failures[j]] == seen + failures[..j + 1];
      after := Counted(after, failures[j]);
    }
    assert failures[..|failures|] == failures;
  }

  /** Counts every failure in nested loops, then makes a row of every count, in order. */
  method FailureBreakdown(samples: seq<Sample>) returns (rows: seq<Row>)
    ensures rows == Breakdown(AllFailures(samples))
  {
    var c := Counts([], map[]);
    for i := 0 to |samples|
      invariant Holds(c, AllFailures(samples[..i]))
    {
      c := CountFailures(c, samples[i].failures, AllFailures(samples[..i]));
      AllFailuresNext(samples, i);
    }
    assert samples[..|samples|] == samples;
    ghost var failures := AllFailures(samples);
    var ranked := Sorted(MoreOften(KeyAtMost), c.counts);
    rows := [];
    for i := 0 to |ranked|
      invariant rows == Mapped(RowFor(failures), ranked[..i])
    {
      MappedNext(RowFor(failures), ranked, i);
      rows := rows + [RowOf(ranked[i], SeenFor(c.details, ranked[i].key))];
    }
    assert ranked[..|ranked|] == ranked;
  }

  // The retained run

  datatype Plan = Plan(experimentClass: string, iterations: nat, concurrency: nat) {
    predicate Valid() { iterations > 0 && concurrency > 0 && iterations % concurrency == 0 }

    function Bursts(): nat
      requires Valid()
    {
      iterations / concurrency
    }
  }

  datatype Record = Record(
    experimentClass: string, repetition: nat, burstIndex: nat, slotIndex: nat, sample: Sample)

  datatype Completion = Completion(
    attempted: nat, accepted: nat, failed: nat, breakdown: Option<seq<Row>>)

  function Successes(samples: seq<Sample>): nat {
    if samples == [] then 0
    else
      Successes(samples[..|samples| - 1])
      + if samples[|samples| - 1].Successful() then 1 else 0
  }

  /** The successful samples that have a time. */
  function Timed(samples: seq<Sample>): seq<int> {
    if samples == [] then []
    else
      var last := samples[|samples| - 1];
      Timed(samples[..|samples| - 1])
      + if last.Successful() && last.ttiNs.Some? then [last.ttiNs.value] else []
  }

  lemma {:induction false} SuccessesAreTimed(samples: seq<Sample>)
    requires forall s <- samples :: WellAttributed(s)
    ensures |Timed(samples)| == Successes(samples) <= |samples|
  {
    if samples != [] {
      SuccessesAreTimed(samples[..|samples| - 1]);
      assert samples[|samples| - 1] in samples;
    }
  }

  // The reader

  datatype Invalid =
    | Incomplete | Repetitions | MixedClasses | NoCommandEvidence | Untyped | Unattributed
    | NoBreakdown

  function SampleError(plan: Plan, r: Record, attribution: bool): Option<Invalid> {
    if r.experimentClass != plan.experimentClass then Some(MixedClasses)
    else if r.sample.Successful() then
      if && IsClean(r.sample.command) && r.sample.ttiNs.Some? && r.sample.ttiNs.value >= 0
         && r.sample.cleanupComplete
      then None else Some(NoCommandEvidence)
    else if r.sample.failures == [] then Some(Untyped)
    else if attribution && exists f <- r.sample.failures :: Blank(f.detail) then Some(Unattributed)
    else None
  }

  function FirstSampleError(plan: Plan, records: seq<Record>, attribution: bool): Option<Invalid> {
    if records == [] then None
    else if SampleError(plan, records[0], attribution).Some? then
      SampleError(plan, records[0], attribution)
    else FirstSampleError(plan, records[1..], attribution)
  }

  function RepetitionsOf(records: seq<Record>): seq<int> {
    seq(|records|, i requires 0 <= i < |records| => records[i].repetition)
  }

  function OneTo(n: nat): seq<int> { seq(n, i => i + 1) }

  function ValidateSamples(
    plan: Plan, records: seq<Record>, completion: Completion, attribution: bool)
    : Result<(), Invalid>
  {
    if completion.attempted != |records| || |records| != plan.iterations then Err(Incomplete)
    else if Sorted(AtMost, RepetitionsOf(records)) != OneTo(plan.iterations) then Err(Repetitions)
    else if FirstSampleError(plan, records, attribution).Some? then
      Err(FirstSampleError(plan, records, attribution).value)
    else if attribution && completion.breakdown.None? then Err(NoBreakdown)
    else Ok(())
  }

  lemma {:induction false} NoSampleError(plan: Plan, records: seq<Record>)
    requires forall r <- records :: SampleError(plan, r, true) == None
    ensures FirstSampleError(plan, records, true) == None
  {
    if records != [] {
      assert records[0] in records;
      NoSampleError(plan, records[1..]);
    }
  }

  // The writer

  /** What the processes of one slot do, and the instance it is about. */
  datatype SlotInput = SlotInput(outcomes: Outcomes, instanceId: string)

  predicate Monotone(x: SlotInput) { x.outcomes.startedNs <= x.outcomes.executedNs }

  function Flatten(bursts: seq<seq<SlotInput>>): seq<SlotInput> {
    if bursts == [] then []
    else Flatten(bursts[..|bursts| - 1]) + bursts[|bursts| - 1]
  }

  function Taken(x: SlotInput): Sample { SampleOf(x.outcomes, x.instanceId) }

  function AllTaken(inputs: seq<SlotInput>): seq<Sample> { Mapped(Taken, inputs) }

  /** The records are those of the samples, numbered in order. */
  ghost predicate Written(plan: Plan, records: seq<Record>, samples: seq<Sample>) {
    && |records| == |samples|
    && forall i :: 0 <= i < |records| ==>
         && records[i].experimentClass == plan.experimentClass
         && records[i].repetition == i + 1
         && records[i].sample == samples[i]
  }

  lemma FlattenNext(bursts: seq<seq<SlotInput>>, b: nat)
    requires b < |bursts|
    ensures Flatten(bursts[..b + 1]) == Flatten(bursts[..b]) + bursts[b]
  {
    assert bursts[..b + 1][..b] == bursts[..b];
  }

  lemma OneMore(n: nat, width: nat)
    ensures (n + 1) * width == n * width + width
  {
  }

  lemma {:induction false} FlattenLength(bursts: seq<seq<SlotInput>>, width: nat)
    requires forall burst <- bursts :: |burst| == width
    ensures |Flatten(bursts)| == |bursts| * width
  {
    if bursts != [] {
      var n := |bursts| - 1;
      FlattenLength(bursts[..n], width);
      assert bursts[n] in bursts;
      OneMore(n, width);
    }
  }

  lemma {:induction false} FlattenMembers(bursts: seq<seq<SlotInput>>)
    requires forall burst <- bursts, x <- burst :: Monotone(x)
    ensures forall x <- Flatten(bursts) :: Monotone(x)
  {
    if bursts != [] {
      var n := |bursts| - 1;
      FlattenMembers(bursts[..n]);
      assert bursts[n] in bursts;
    }
  }

  lemma BurstsCoverThePlan(plan: Plan, bursts: seq<seq<SlotInput>>)
    requires plan.Valid() && |bursts| == plan.Bursts()
    requires forall burst <- bursts :: |burst| == plan.concurrency
    ensures |Flatten(bursts)| == plan.iterations
  {
    FlattenLength(bursts, plan.concurrency);
  }

  /** Every slot of a burst leaves a sample, in the order the slots were assigned. */
  method OneBurst(burst: seq<SlotInput>) returns (samples: seq<Sample>)
    ensures samples == AllTaken(burst)
  {
    samples := [];
    for i := 0 to |burst|
      invariant samples == AllTaken(burst[..i])
    {
      var slot := new Slot();
      var sample := slot.Execute(burst[i].outcomes, burst[i].instanceId);
      MappedNext(Taken, burst, i);
      samples := samples + [sample];
    }
    assert burst[..|burst|] == burst;
  }

  method WriteBurst(
    plan: Plan, b: nat, taken: seq<Sample>, records: seq<Record>, samples: seq<Sample>)
    returns (moreRecords: seq<Record>, moreSamples: seq<Sample>)
    requires Written(plan, records, samples)
    ensures moreSamples == samples + taken && Written(plan, moreRecords, moreSamples)
    ensures |moreRecords| >= |records| && moreRecords[..|records|] == records
    ensures forall i :: |records| <= i < |moreRecords| ==>
      moreRecords[i].burstIndex == b && moreRecords[i].slotIndex == i - |records|
  {
    moreRecords, moreSamples := records, samples;
    for k := 0 to |taken|
      invariant moreSamples == samples + taken[..k] && Written(plan, moreRecords, moreSamples)
      invariant moreRecords[..|records|] == records
      invariant forall i :: |records| <= i < |moreRecords| ==>
        moreRecords[i].burstIndex == b && moreRecords[i].slotIndex == i - |records|
    {
      moreSamples := moreSamples + [taken[k]];
      moreRecords := moreRecords
                     + [Record(plan.experimentClass, |moreSamples|, b, k, taken[k])];
    }
    assert taken[..|taken|] == taken;
  }

  lemma {:induction false} SuccessCount(samples: seq<Sample>)
    ensures Successes(samples) <= |samples|
  {
    if samples != [] { SuccessCount(samples[..|samples| - 1]); }
  }

  function Summary(samples: seq<Sample>, rows: seq<Row>): Completion {
    SuccessCount(samples);
    Completion(|samples|, |Timed(samples)|, |samples| - Successes(samples), Some(rows))
  }

  /** Opens every slot of each burst and retains every attempted sample. */
  method RunBurst(plan: Plan, bursts: seq<seq<SlotInput>>)
    returns (records: seq<Record>, completion: Completion)
    ensures
      var samples := AllTaken(Flatten(bursts));
      && Written(plan, records, samples)
      && completion == Summary(samples, Breakdown(AllFailures(samples)))
  {
    records := [];
    var samples: seq<Sample> := [];
    for b := 0 to |bursts|
      invariant Written(plan, records, samples)
      invariant samples == AllTaken(Flatten(bursts[..b]))
    {
      FlattenNext(bursts, b);
      MappedAppend(Taken, Flatten(bursts[..b]), bursts[b]);
      var taken := OneBurst(bursts[b]);
      records, samples := WriteBurst(plan, b, taken, records, samples);
    }
    assert bursts[..|bursts|] == bursts;
    var rows := FailureBreakdown(samples);
    completion := Summary(samples, rows);
  }

  // What the reader makes of it

  lemma WrittenSamplesAreReadable(plan: Plan, records: seq<Record>, inputs: seq<SlotInput>)
    requires Written(plan, records, AllTaken(inputs)) && forall x <- inputs :: Monotone(x)
    ensures FirstSampleError(plan, records, true) == None
  {
    forall r <- records ensures SampleError(plan, r, true) == None {
      var i :| 0 <= i < |records| && records[i] == r;
      assert inputs[i] in inputs;
      EverySampleIsWellAttributed(inputs[i].outcomes, inputs[i].instanceId);
    }
    NoSampleError(plan, records);
  }

  /** Repetitions in writing order cover the cohort exactly once. */
  lemma RepetitionsCover(records: seq<Record>)
    requires forall i :: 0 <= i < |records| ==> records[i].repetition == i + 1
    ensures Sorted(AtMost, RepetitionsOf(records)) == OneTo(|records|)
  {
    assert RepetitionsOf(records) == OneTo(|records|);
    OrderedIsSorted(AtMost, OneTo(|records|));
  }

  lemma SummaryAddsUp(inputs: seq<SlotInput>, rows: seq<Row>)
    ensures
      var c := Summary(AllTaken(inputs), rows);
      c.accepted + c.failed == c.attempted == |inputs|
  {
    var samples := AllTaken(inputs);
    forall s <- samples ensures WellAttributed(s) {
      var i :| 0 <= i < |samples| && samples[i] == s;
      EverySampleIsWellAttributed(inputs[i].outcomes, inputs[i].instanceId);
    }
    SuccessesAreTimed(samples);
  }

  lemma RetainedRunValidates(
    plan: Plan, inputs: seq<SlotInput>, records: seq<Record>, rows: seq<Row>)
    requires |inputs| == plan.iterations && forall x <- inputs :: Monotone(x)
    requires Written(plan, records, AllTaken(inputs))
    ensures ValidateSamples(plan, records, Summary(AllTaken(inputs), rows), true) == Ok(())
  {
    WrittenSamplesAreReadable(plan, records, inputs);
    RepetitionsCover(records);
  }

  /**
   Every completed run passes its reader: for any process outcomes and a clock that does not run
   backwards, the retained records and completion validate with attribution required, accepted
   and failed samples add up to the attempted ones, and the breakdown adds up to all failures.
   */
  lemma CompletedRunValidates(plan: Plan, bursts: seq<seq<SlotInput>>, records: seq<Record>)
    requires plan.Valid() && |bursts| == plan.Bursts()
    requires forall burst <- bursts :: |burst| == plan.concurrency
    requires forall burst <- bursts, x <- burst :: Monotone(x)
    requires Written(plan, records, AllTaken(Flatten(bursts)))
    ensures
      var samples := AllTaken(Flatten(bursts));
      var completion := Summary(samples, Breakdown(AllFailures(samples)));
      && ValidateSamples(plan, records, completion, true) == Ok(())
      && completion.accepted + completion.failed == completion.attempted == plan.iterations
      && Total(completion.breakdown.value) == |AllFailures(samples)|
  {
    var inputs := Flatten(bursts);
    var rows := Breakdown(AllFailures(AllTaken(inputs)));
    BurstsCoverThePlan(plan, bursts);
    FlattenMembers(bursts);
    RetainedRunValidates(plan, inputs, records, rows);
    SummaryAddsUp(inputs, rows);
    BreakdownIsExact(AllFailures(AllTaken(inputs)));
  }
}

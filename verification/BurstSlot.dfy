/**
 One slot of a benchmark burst: launch a machine, run its command, destroy it, and keep typed
 and attributed evidence of whatever went wrong.

 What the spawned processes do is an input: for each operation, how its process ended and which
 response it printed, already decoded.
 */
module BurstSlot {
  import opened Milestones
  import opened Separated
  import opened Wrappers

  // Attribution

  const MAXIMUM_DETAIL_CHARACTERS := 160

  predicate IsSpace(c: char) {
    var u := c as int;
    || 9 <= u <= 13 || 28 <= u <= 32 || u == 0x85 || u == 0xa0 || u == 0x1680
    || 0x2000 <= u <= 0x200a || u == 0x2028 || u == 0x2029 || u == 0x202f || u == 0x205f
    || u == 0x3000
  }

  /** Nothing is left of the text once its white space is stripped. */
  predicate Blank(text: string) { forall c <- text :: IsSpace(c) }

  /** Runs of white space become one space, and none is left at the ends. */
  function Collapsed(text: string): string {
    if text == "" then ""
    else
      var rest := Collapsed(text[1..]);
      if !IsSpace(text[0]) then
        if |text| > 1 && IsSpace(text[1]) && rest != "" then [text[0], ' '] + rest
        else [text[0]] + rest
      else rest
  }

  function Bounded(detail: string): string {
    var collapsed := Collapsed(detail);
    if |collapsed| <= MAXIMUM_DETAIL_CHARACTERS then collapsed
    else collapsed[..MAXIMUM_DETAIL_CHARACTERS - 3] + "..."
  }

  /** A detail that begins with a visible character still says something when bounded. */
  lemma BoundedIsNotBlank(detail: string)
    requires detail != "" && !IsSpace(detail[0])
    ensures !Blank(Bounded(detail)) && |Bounded(detail)| <= MAXIMUM_DETAIL_CHARACTERS
  {
    assert Collapsed(detail)[0] == detail[0];
    assert Bounded(detail)[0] == detail[0];
  }

  function Digits(n: nat): string {
    if n < 10 then ['0' + n as char] else Digits(n / 10) + ['0' + (n % 10) as char]
  }

  function Decimal(n: int): string { if n < 0 then "-" + Digits(-n) else Digits(n) }

  const EXIT_MEANINGS: map<int, string> := map[
    0 := "success", 2 := "usage", 10 := "guest_nonzero", 65 := "invalid_input",
    66 := "not_found", 69 := "conflict", 70 := "software", 73 := "output_limit",
    74 := "backend_failure", 75 := "cleanup_uncertain", 76 := "capability_unavailable",
    77 := "doctor_strict", 78 := "unsupported_backend", 124 := "guest_timeout"]

  datatype ErrorBody = ErrorBody(code: string, retryable: bool, message: Option<string>)

  datatype Stderr = FirstLine(line: string) | Undecodable | Silent | Unseen

  // Responses

  datatype Execution = Exited(code: Option<int>) | Terminal(kind: string) | OtherExecution

  datatype Stream = Stream(byteLength: int, data: string)

  datatype Body = Body(
    instanceId: string, state: string, execution: Execution,
    stdout: Option<Stream>, stderr: Option<Stream>)

  datatype Envelope =
    | Empty
    | Envelope(
        schema: string, status: string, command: string, body: Option<Body>,
        receipt: Option<Receipt>, error: Option<ErrorBody>)

  /** What a launch observed about its machine, copied field by field. */
  datatype Observed = Observed(
    backend: Option<string>, requestedShape: Option<string>, isolation: Option<string>,
    preparation: Option<string>, workload: Option<string>, effectiveShape: Option<string>,
    effectiveNetwork: Option<string>)

  datatype Receipt = Receipt(
    cleanupComplete: bool, observed: Observed, milestones: Option<seq<Raw>>)

  datatype Process =
    | SpawnError(name: string)
    | Ran(exitCode: Option<int>, timedOut: bool, stderr: Stderr, response: Option<Envelope>)

  function ResultOf(e: Envelope, command: string, instanceId: string): Option<Body> {
    if && e.Envelope? && e.schema == "soma.cli.v1" && e.status == "ok" && e.command == command
       && e.body.Some? && e.body.value.instanceId == instanceId
    then e.body else None
  }

  predicate LaunchedReady(e: Envelope, instanceId: string) {
    var result := ResultOf(e, "machine.launch", instanceId);
    result.Some? && result.value.state == "ready"
  }

  predicate Destroyed(e: Option<Envelope>, instanceId: string) {
    e.Some? &&
    var result := ResultOf(e.value, "machine.destroy", instanceId);
    && result.Some? && result.value.state == "destroyed"
    && e.value.receipt.Some? && e.value.receipt.value.cleanupComplete
  }

  const TERMINAL_KINDS := {"exited", "signaled", "timed_out", "output_limit_exceeded"}

  datatype Command = Command(
    status: string, exitCode: Option<int>, stdout: Stream, stderr: Stream)

  function CommandEvidence(e: Envelope, instanceId: string): Option<Command> {
    var result := ResultOf(e, "machine.exec", instanceId);
    if result.None? || result.value.stdout.None? || result.value.stderr.None? then None
    else
      var stdout, stderr := result.value.stdout.value, result.value.stderr.value;
      match result.value.execution
      case Exited(Some(code)) => Some(Command("exited", Some(code), stdout, stderr))
      case Terminal(kind) =>
        if kind in TERMINAL_KINDS then Some(Command(kind, None, stdout, stderr)) else None
      case _ => None
  }

  function ErrorParts(response: Option<Envelope>): seq<string> {
    if response.None? || !response.value.Envelope? || response.value.error.None? then []
    else
      var error := response.value.error.value;
      ["code=" + error.code]
      + (if error.retryable then ["retryable"] else [])
      + (if error.message.Some? && error.message.value != "" then
           ["message=" + error.message.value] else [])
  }

  function StderrParts(stderr: Stderr): seq<string> {
    match stderr
    case FirstLine(line) => ["stderr=" + line]
    case Undecodable => ["stderr=undecodable"]
    case Silent => ["stderr=empty"]
    case Unseen => []
  }

  function ExitText(exitCode: Option<int>): string {
    if exitCode.Some? then Decimal(exitCode.value) else "None"
  }

  function ExitPart(exitCode: Option<int>): string {
    "exit=" + ExitText(exitCode)
    + (if exitCode.Some? && exitCode.value in EXIT_MEANINGS
       then "(" + EXIT_MEANINGS[exitCode.value] + ")" else "")
  }

  lemma JoinedStartsWithFirst(parts: seq<string>)
    requires parts != [] && parts[0] != ""
    ensures Join(parts, ' ') != "" && Join(parts, ' ')[0] == parts[0][0]
  {
  }

  /** One short reason for a process that did not succeed. */
  function ProcessDetail(process: Process): (detail: string)
    ensures !Blank(detail) && |detail| <= MAXIMUM_DETAIL_CHARACTERS
  {
    match process
    case SpawnError(name) =>
      BoundedIsNotBlank("spawn_error=" + name);
      Bounded("spawn_error=" + name)
    case Ran(exitCode, timedOut, stderr, response) =>
      var parts :=
        (if timedOut then ["harness_timed_out"] else [])
        + [ExitPart(exitCode)] + ErrorParts(response);
      var all := if |parts| == 1 then parts + StderrParts(stderr) else parts;
      JoinedStartsWithFirst(all);
      BoundedIsNotBlank(Join(all, ' '));
      Bounded(Join(all, ' '))
  }

  // One slot

  datatype Operation = Launch | Exec | Destroy

  datatype Reason =
    | LaunchProcessFailed | LaunchResponseInvalid | CommandProcessFailed
    | CommandResponseInvalid | CommandUnsuccessful | CleanupFailed

  datatype Failure = Failure(reason: Reason, operation: Operation, detail: string)

  /** The milestones of one operation, if its receipt had any. */
  datatype Stage = Malformed | Reached(milestones: seq<Milestone>)

  datatype Sample = Sample(
    instanceId: string, ttiNs: Option<int>, commandSucceeded: bool, cleanupComplete: bool,
    invoked: seq<Operation>, stages: map<Operation, Stage>, observed: Option<Observed>,
    command: Option<Command>, failures: seq<Failure>)
  {
    predicate Successful() { commandSucceeded && cleanupComplete && failures == [] }
  }

  /** What the three processes of a slot do, if they are spawned, and the clock around two. */
  datatype Outcomes = Outcomes(
    launch: Process, exec: Process, destroy: Process, startedNs: int, executedNs: int)

  predicate Succeeded(process: Process) {
    process.Ran? && !process.timedOut && process.exitCode == Some(0)
  }

  const NOT_JSON := "response was not one JSON object"
  const NOT_READY := "response did not report a ready instance"
  const NO_EVIDENCE := "response carried no command evidence"
  const NOT_DESTROYED := "destroy did not report a destroyed instance"

  lemma StartsVisibly(text: string)
    requires text != "" && !IsSpace(text[0])
    ensures !Blank(text)
  {
    assert text[0] in text;
  }

  /** The detail an invocation leaves behind, if any. */
  function DetailOf(process: Process): (detail: Option<string>)
    ensures detail.Some? ==> !Blank(detail.value)
    ensures !Succeeded(process) ==> detail.Some?
  {
    if !Succeeded(process) then Some(ProcessDetail(process))
    else if process.response.None? then StartsVisibly(NOT_JSON); Some(NOT_JSON)
    else None
  }

  function Or(detail: Option<string>, otherwise: string): string {
    if detail.Some? then detail.value else otherwise
  }

  function LaunchFailures(process: Process, instanceId: string): seq<Failure> {
    if !Succeeded(process) then
      [Failure(LaunchProcessFailed, Launch, Or(DetailOf(process), ""))]
    else if process.response.None? || !LaunchedReady(process.response.value, instanceId) then
      [Failure(LaunchResponseInvalid, Launch, Or(DetailOf(process), NOT_READY))]
    else []
  }

  function Evidence(process: Process, instanceId: string): Option<Command> {
    if !Succeeded(process) || process.response.None? || process.response.value.Empty? then None
    else CommandEvidence(process.response.value, instanceId)
  }

  predicate IsClean(command: Option<Command>) {
    command.Some? && command.value.status == "exited" && command.value.exitCode == Some(0)
  }

  function ExecFailures(process: Process, instanceId: string): seq<Failure> {
    var command := Evidence(process, instanceId);
    if !Succeeded(process) then
      [Failure(CommandProcessFailed, Exec, Or(DetailOf(process), ""))]
    else if command.None? then
      [Failure(CommandResponseInvalid, Exec, Or(DetailOf(process), NO_EVIDENCE))]
    else if !IsClean(command) then
      var detail := command.value.status + ":" + ExitText(command.value.exitCode);
      [Failure(CommandUnsuccessful, Exec, detail)]
    else []
  }

  function Response(process: Process): Option<Envelope> {
    if Succeeded(process) then process.response else None
  }

  function DestroyFailures(process: Process, instanceId: string): seq<Failure> {
    if Destroyed(Response(process), instanceId) then []
    else [Failure(CleanupFailed, Destroy, Or(DetailOf(process), NOT_DESTROYED))]
  }

  function ReceiptOf(process: Process): Option<Receipt> {
    var response := Response(process);
    if response.Some? && response.value.Envelope? then response.value.receipt else None
  }

  function StageOf(receipt: Receipt): Option<Stage> {
    if receipt.milestones.None? then None
    else
      match Parsed(receipt.milestones.value)
      case Some(milestones) => Some(Reached(milestones))
      case None => Some(Malformed)
  }

  /** The stages on record after an operation whose process behaved like this. */
  function Noted(stages: map<Operation, Stage>, operation: Operation, process: Process)
    : map<Operation, Stage>
  {
    var receipt := ReceiptOf(process);
    if receipt.None? || StageOf(receipt.value).None? then stages
    else stages[operation := StageOf(receipt.value).value]
  }

  function ObservedBy(launch: Process): Option<Observed> {
    if ReceiptOf(launch).Some? then Some(ReceiptOf(launch).value.observed) else None
  }

  /** The evidence of a slot, from what its processes do. */
  function SampleOf(o: Outcomes, instanceId: string): Sample {
    var launch := LaunchFailures(o.launch, instanceId);
    var destroy := DestroyFailures(o.destroy, instanceId);
    if launch != [] then
      Sample(
        instanceId, None, false, destroy == [], [Launch, Destroy],
        Noted(Noted(map[], Launch, o.launch), Destroy, o.destroy), ObservedBy(o.launch),
        None, launch + destroy)
    else
      var exec := ExecFailures(o.exec, instanceId);
      Sample(
        instanceId, Some(o.executedNs - o.startedNs), exec == [], destroy == [],
        [Launch, Exec, Destroy],
        Noted(Noted(Noted(map[], Launch, o.launch), Exec, o.exec), Destroy, o.destroy),
        ObservedBy(o.launch), Evidence(o.exec, instanceId), exec + destroy)
  }

  /** What a reader of the evidence relies on. */
  ghost predicate WellAttributed(s: Sample) {
    && (s.Successful() <==> s.failures == [])
    && (forall f <- s.failures :: !Blank(f.detail))
    && (s.cleanupComplete <==> forall f <- s.failures :: f.operation != Destroy)
    && (s.commandSucceeded <==> forall f <- s.failures :: f.operation == Destroy)
    && (s.commandSucceeded ==>
          && IsClean(s.command)
          && s.ttiNs.Some? && s.invoked == [Launch, Exec, Destroy])
    && Destroy in s.invoked
    && (forall i, j :: 0 <= i < j < |s.failures| ==>
          s.failures[i].operation != s.failures[j].operation)
  }

  lemma FixedTextsAreNotBlank()
    ensures !Blank(NOT_JSON) && !Blank(NOT_READY) && !Blank(NO_EVIDENCE) && !Blank(NOT_DESTROYED)
  {
    StartsVisibly(NOT_JSON);
    StartsVisibly(NOT_READY);
    StartsVisibly(NO_EVIDENCE);
    StartsVisibly(NOT_DESTROYED);
  }

  ghost predicate AtMostOne(failures: seq<Failure>, operation: Operation) {
    |failures| <= 1 && forall f <- failures :: f.operation == operation && !Blank(f.detail)
  }

  lemma StepsFailOnce(o: Outcomes, instanceId: string)
    ensures AtMostOne(LaunchFailures(o.launch, instanceId), Launch)
    ensures AtMostOne(ExecFailures(o.exec, instanceId), Exec)
    ensures AtMostOne(DestroyFailures(o.destroy, instanceId), Destroy)
  {
    FixedTextsAreNotBlank();
    var command := Evidence(o.exec, instanceId);
    if command.Some? {
      var detail := command.value.status + ":" + ExitText(command.value.exitCode);
      assert detail[|command.value.status|] == ':';
      assert ':' in detail && !IsSpace(':');
    }
  }

  lemma TwoSteps(a: seq<Failure>, operation: Operation, b: seq<Failure>)
    requires AtMostOne(a, operation) && operation != Destroy && AtMostOne(b, Destroy)
    ensures forall f <- a + b :: !Blank(f.detail)
    ensures b == [] <==> forall f <- a + b :: f.operation != Destroy
    ensures a == [] <==> forall f <- a + b :: f.operation == Destroy
    ensures forall i, j :: 0 <= i < j < |a + b| ==> (a + b)[i].operation != (a + b)[j].operation
  {
    if a != [] { assert (a + b)[0] in a; }
    if b != [] { assert (a + b)[|a|] in b; }
  }

  /**
   Whatever the processes do, a slot is successful exactly when it has no failure, every failure
   has a detail that is not blank, no operation fails twice, and the machine is always destroyed.
   */
  lemma EverySampleIsWellAttributed(o: Outcomes, instanceId: string)
    ensures WellAttributed(SampleOf(o, instanceId))
    ensures o.startedNs <= o.executedNs ==>
      var s := SampleOf(o, instanceId); s.ttiNs.Some? ==> s.ttiNs.value >= 0
  {
    StepsFailOnce(o, instanceId);
    var destroy := DestroyFailures(o.destroy, instanceId);
    TwoSteps(LaunchFailures(o.launch, instanceId), Launch, destroy);
    TwoSteps(ExecFailures(o.exec, instanceId), Exec, destroy);
  }

  // The slot with its growing evidence

  class Slot {
    var details: map<Operation, string>
    var invoked: seq<Operation>
    var stages: map<Operation, Stage>
    var observed: Option<Observed>
    var failures: seq<Failure>

    constructor ()
      ensures Fresh()
    {
      details, invoked, stages, observed, failures := map[], [], map[], None, [];
    }

    ghost predicate Fresh()
      reads this
    {
      details == map[] && invoked == [] && stages == map[] && observed == None && failures == []
    }

    method RecordReceipt(operation: Operation, receipt: Receipt)
      modifies this`stages, this`observed
      ensures stages ==
        if StageOf(receipt).Some? then old(stages)[operation := StageOf(receipt).value]
        else old(stages)
      ensures observed == if operation == Launch then Some(receipt.observed) else old(observed)
    {
      if operation == Launch { observed := Some(receipt.observed); }
      if receipt.milestones.Some? {
        var milestones := Parse(receipt.milestones.value);
        stages := stages[operation :=
          if milestones.Some? then Reached(milestones.value) else Malformed];
      }
    }

    /** Spawns one operation and notes why it gave no usable response, if it did not. */
    method Capture(operation: Operation, process: Process)
      returns (ran: bool, response: Option<Envelope>)
      modifies this`details, this`invoked
      ensures ran == Succeeded(process) && response == Response(process)
      ensures invoked == old(invoked) + [operation]
      ensures details ==
        if DetailOf(process).Some? then old(details)[operation := DetailOf(process).value]
        else old(details)
    {
      invoked := invoked + [operation];
      match process {
        case SpawnError(_) =>
          details := details[operation := ProcessDetail(process)];
          return false, None;
        case Ran(exitCode, timedOut, _, envelope) =>
          if timedOut || exitCode != Some(0) {
            details := details[operation := ProcessDetail(process)];
            return false, None;
          }
          if envelope.None? { details := details[operation := NOT_JSON]; }
          return true, envelope;
      }
    }

    /** Runs one operation: whether its process succeeded, and the response if it did. */
    method Invoke(operation: Operation, process: Process)
      returns (ran: bool, response: Option<Envelope>)
      modifies this`details, this`invoked, this`stages, this`observed
      ensures ran == Succeeded(process) && response == Response(process)
      ensures invoked == old(invoked) + [operation]
      ensures details ==
        if DetailOf(process).Some? then old(details)[operation := DetailOf(process).value]
        else old(details)
      ensures stages == Noted(old(stages), operation, process)
      ensures observed ==
        if operation == Launch && ReceiptOf(process).Some? then ObservedBy(process)
        else old(observed)
    {
      ran, response := Capture(operation, process);
      if response.Some? && response.value.Envelope? && response.value.receipt.Some? {
        RecordReceipt(operation, response.value.receipt.value);
      }
    }

    function Detail(operation: Operation, otherwise: string): string
      reads this
    {
      if operation in details then details[operation] else otherwise
    }

    method Fail(reason: Reason, operation: Operation, detail: string)
      modifies this`failures
      ensures failures == old(failures) + [Failure(reason, operation, detail)]
    {
      failures := failures + [Failure(reason, operation, detail)];
    }

    method LaunchStep(process: Process, instanceId: string) returns (ready: bool)
      requires Launch !in details
      modifies this
      ensures failures == old(failures) + LaunchFailures(process, instanceId)
      ensures ready == (LaunchFailures(process, instanceId) == [])
      ensures invoked == old(invoked) + [Launch]
      ensures stages == Noted(old(stages), Launch, process)
      ensures observed ==
        if ReceiptOf(process).Some? then ObservedBy(process) else old(observed)
      ensures forall op <- details :: op == Launch || op in old(details)
    {
      var ran, launched := Invoke(Launch, process);
      ready := false;
      if !ran {
        Fail(LaunchProcessFailed, Launch, Detail(Launch, ""));
      } else if launched.None? || !LaunchedReady(launched.value, instanceId) {
        Fail(LaunchResponseInvalid, Launch, Detail(Launch, NOT_READY));
      } else {
        ready := true;
      }
    }

    method ExecStep(process: Process, instanceId: string)
      returns (succeeded: bool, command: Option<Command>)
      requires Exec !in details
      modifies this
      ensures failures == old(failures) + ExecFailures(process, instanceId)
      ensures succeeded == (ExecFailures(process, instanceId) == [])
      ensures command == Evidence(process, instanceId)
      ensures invoked == old(invoked) + [Exec]
      ensures stages == Noted(old(stages), Exec, process) && observed == old(observed)
      ensures forall op <- details :: op == Exec || op in old(details)
    {
      var ran, executed := Invoke(Exec, process);
      if !ran {
        Fail(CommandProcessFailed, Exec, Detail(Exec, ""));
        return false, None;
      }
      command := None;
      if executed.Some? && !executed.value.Empty? {
        command := CommandEvidence(executed.value, instanceId);
      }
      if command.None? {
        Fail(CommandResponseInvalid, Exec, Detail(Exec, NO_EVIDENCE));
        return false, None;
      }
      if command.value.status != "exited" || command.value.exitCode != Some(0) {
        Fail(CommandUnsuccessful, Exec,
             command.value.status + ":" + ExitText(command.value.exitCode));
        return false, command;
      }
      succeeded := true;
    }

    method DestroyStep(process: Process, instanceId: string) returns (complete: bool)
      requires Destroy !in details
      modifies this
      ensures failures == old(failures) + DestroyFailures(process, instanceId)
      ensures complete == (DestroyFailures(process, instanceId) == [])
      ensures invoked == old(invoked) + [Destroy]
      ensures stages == Noted(old(stages), Destroy, process) && observed == old(observed)
    {
      var _, response := Invoke(Destroy, process);
      complete := Destroyed(response, instanceId);
      if !complete { Fail(CleanupFailed, Destroy, Detail(Destroy, NOT_DESTROYED)); }
    }

    method Execute(o: Outcomes, instanceId: string) returns (sample: Sample)
      requires Fresh()
      modifies this
      ensures sample == SampleOf(o, instanceId)
    {
      var ready := LaunchStep(o.launch, instanceId);
      assert observed == ObservedBy(o.launch);
      var command: Option<Command> := None;
      var ttiNs: Option<int> := None;
      var commandSucceeded := false;
      if ready {
        commandSucceeded, command := ExecStep(o.exec, instanceId);
        ttiNs := Some(o.executedNs - o.startedNs);
      }
      ghost var (begun, failed) := (invoked, failures);
      assert if ready then begun == [Launch, Exec] else begun == [Launch];
      assert failed == if ready then ExecFailures(o.exec, instanceId)
                       else LaunchFailures(o.launch, instanceId);
      var cleanupComplete := DestroyStep(o.destroy, instanceId);
      sample := Sample(
        instanceId, ttiNs, commandSucceeded, cleanupComplete, invoked, stages, observed,
        command, failures);
    }
  }
}

/**
 The guest agent's lifecycle: the typestated controller, its runtime ledger, the boot sequence
 and the authenticated request loop.

 A controller's type marker is a field here, and a call is possible only where the types allow
 it. The ledger checks the same order again at run time.
 */
module Lifecycle {
  import opened Wrappers

  datatype Fault = Boot | LaunchPage | Entropy | Transport | Identity | Network | Control | Order

  datatype Phase =
    | Captured | MaterialAccepted | EntropyRepaired | TransportFresh | IdentityRepaired
    | NetworkRepaired | Authenticated | Prepared | Ready | Running | Stopping | Poisoned

  predicate Permits(from: Phase, next: Phase) {
    if next == Poisoned then from != Poisoned
    else
      match from
      case Captured => next == MaterialAccepted
      case MaterialAccepted => next == EntropyRepaired
      case EntropyRepaired => next == TransportFresh
      case TransportFresh => next == IdentityRepaired
      case IdentityRepaired => next == NetworkRepaired
      case NetworkRepaired => next == Authenticated
      case Authenticated => next == Prepared
      case Prepared => next == Ready
      case Running => next == Ready
      case Ready => next == Running || next == Stopping
      case _ => false
  }

  /** The transitions a controller has a method for, by its marker. */
  predicate HasMethod(marker: Phase, to: Phase) {
    match marker
    case Captured => to == MaterialAccepted
    case MaterialAccepted => to == EntropyRepaired
    case EntropyRepaired => to == TransportFresh
    case TransportFresh => to == IdentityRepaired
    case IdentityRepaired => to == NetworkRepaired
    case NetworkRepaired => to == Authenticated
    case Authenticated => to == Prepared
    case Prepared => to == Ready
    case Ready => to == Running || to == Stopping
    case Running => to == Ready
    case Stopping | Poisoned => false
  }

  /** The one order in which phases are recorded. */
  const ORDER: seq<Phase> := [
    Captured, MaterialAccepted, EntropyRepaired, TransportFresh, IdentityRepaired,
    NetworkRepaired, Authenticated, Prepared, Ready, Stopping]

  // The ledger as a value

  datatype LedgerView = LedgerView(
    current: Phase, repaired: seq<Phase>, commands: nat, fault: Option<Fault>)

  const NEW := LedgerView(Captured, [Captured], 0, None)

  function Advanced(l: LedgerView, next: Phase): Result<LedgerView, Fault> {
    if !Permits(l.current, next) then Err(Order)
    else if l.current == Ready && next == Running then
      if l.commands >= U64_MAX then Err(Order)
      else Ok(l.(commands := l.commands + 1, current := next))
    else if l.current == Running && next == Ready then Ok(l.(current := next))
    else Ok(l.(repaired := l.repaired + [next], current := next))
  }

  function PoisonedBy(l: LedgerView, fault: Fault): LedgerView {
    l.(fault := Some(fault), current := Poisoned)
  }

  /** A controller: its marker, and the ledger it owns. */
  datatype Controller = Controller(marker: Phase, ledger: LedgerView)

  const START := Controller(Captured, NEW)

  function Stepped(c: Controller, to: Phase, outcome: Result<(), Fault>): Controller {
    match outcome
    case Err(fault) => Controller(Poisoned, PoisonedBy(c.ledger, fault))
    case Ok(_) =>
      match Advanced(c.ledger, to)
      case Ok(ledger) => Controller(to, ledger)
      case Err(fault) => Controller(Poisoned, PoisonedBy(c.ledger, fault))
  }

  /** One call on a controller: a transition with the outcome of its stage, or a poisoning. */
  datatype Call = Transition(to: Phase, outcome: Result<(), Fault>) | Poison(fault: Fault)

  /** The type of the controller has the method. */
  predicate Typechecks(c: Controller, call: Call) {
    match call
    case Transition(to, _) => HasMethod(c.marker, to)
    case Poison(_) => c.marker != Poisoned
  }

  function Called(c: Controller, call: Call): Controller {
    match call
    case Transition(to, outcome) => Stepped(c, to, outcome)
    case Poison(fault) => Controller(Poisoned, PoisonedBy(c.ledger, fault))
  }

  predicate RunTypechecks(c: Controller, calls: seq<Call>)
    decreases |calls|
  {
    calls == [] || (Typechecks(c, calls[0]) && RunTypechecks(Called(c, calls[0]), calls[1..]))
  }

  function Run(c: Controller, calls: seq<Call>): Controller
    decreases |calls|
  {
    if calls == [] then c else Run(Called(c, calls[0]), calls[1..])
  }

  // What every typed run keeps

  /** The place of a phase in the fixed order; running counts as ready. */
  function Place(p: Phase): nat {
    match p
    case Captured => 0
    case MaterialAccepted => 1
    case EntropyRepaired => 2
    case TransportFresh => 3
    case IdentityRepaired => 4
    case NetworkRepaired => 5
    case Authenticated => 6
    case Prepared => 7
    case Ready => 8
    case Running => 8
    case Stopping => 9
    case Poisoned => 0
  }

  ghost predicate Inv(c: Controller) {
    && c.marker == c.ledger.current
    && 1 <= |c.ledger.repaired| <= |ORDER|
    && c.ledger.repaired == ORDER[..|c.ledger.repaired|]
    && c.ledger.commands <= U64_MAX
    && (c.marker != Poisoned ==>
          |c.ledger.repaired| == Place(c.marker) + 1 && c.ledger.fault == None)
  }

  /** The call itself brings no `Order` fault in. */
  predicate BringsNoOrder(call: Call) {
    match call
    case Transition(_, outcome) => outcome != Err(Order)
    case Poison(fault) => fault != Order
  }

  /** An `Order` fault on the ledger means the command count is at its end. */
  ghost predicate OrderMeansOverflow(c: Controller) {
    c.ledger.fault == Some(Order) ==> c.ledger.commands == U64_MAX
  }

  lemma CallKeepsInv(c: Controller, call: Call)
    requires Inv(c) && Typechecks(c, call)
    ensures Inv(Called(c, call))
    ensures OrderMeansOverflow(c) && BringsNoOrder(call) ==> OrderMeansOverflow(Called(c, call))
  {
    if call.Transition? && call.outcome.Ok? {
      var n := |c.ledger.repaired|;
      if n < |ORDER| { assert ORDER[..n] + [ORDER[n]] == ORDER[..n + 1]; }
    }
  }

  /**
   In every typed run the marker equals the ledger's phase and the recorded chain is a prefix of
   the one fixed order; and unless a caller reports an `Order` fault itself, the only way to one
   is a command after 2^64 - 1 commands.
   */
  lemma {:induction false} MarkerMatchesLedger(c: Controller, calls: seq<Call>)
    requires Inv(c) && RunTypechecks(c, calls)
    ensures Inv(Run(c, calls))
    ensures Run(c, calls).marker == Run(c, calls).ledger.current
    ensures Run(c, calls).ledger.repaired <= ORDER
    ensures OrderMeansOverflow(c) && (forall call <- calls :: BringsNoOrder(call)) ==>
      OrderMeansOverflow(Run(c, calls))
    decreases |calls|
  {
    if calls != [] {
      CallKeepsInv(c, calls[0]);
      MarkerMatchesLedger(Called(c, calls[0]), calls[1..]);
    }
  }

  /** The typed methods and the runtime relation agree, except for the poisoned phase. */
  lemma MethodsAreThePermittedSteps(from: Phase, to: Phase)
    ensures HasMethod(from, to) <==> Permits(from, to) && to != Poisoned
  {
  }

  // Boot: the repair stages in order, each only if all before it succeeded

  const STAGES := 8

  /** The call of stage `k`: it advances to the next phase of the order with its own outcome. */
  function StageCall(k: nat, outcome: Result<(), Fault>): Call
    requires k < STAGES
  {
    Transition(ORDER[k + 1], outcome)
  }

  /** The calls of a boot from stage `k` on; the first failed stage is the last call. */
  function BootCalls(outcomes: seq<Result<(), Fault>>, k: nat): seq<Call>
    requires k + |outcomes| == STAGES
    decreases |outcomes|
  {
    if outcomes == [] then []
    else [StageCall(k, outcomes[0])]
         + (if outcomes[0].Err? then [] else BootCalls(outcomes[1..], k + 1))
  }

  /** Phase `k` of the order, entered with nothing but the repair chain on record. */
  function AtStage(k: nat): Controller
    requires k <= STAGES
  {
    Controller(ORDER[k], LedgerView(ORDER[k], ORDER[..k + 1], 0, None))
  }

  lemma StageAdvances(k: nat, outcome: Result<(), Fault>)
    requires k < STAGES
    ensures Typechecks(AtStage(k), StageCall(k, outcome))
    ensures Called(AtStage(k), StageCall(k, outcome)) ==
      if outcome.Ok? then AtStage(k + 1)
      else Controller(Poisoned, PoisonedBy(AtStage(k).ledger, outcome.error))
  {
    assert ORDER[..k + 1] + [ORDER[k + 1]] == ORDER[..k + 2];
  }

  lemma RunCons(c: Controller, call: Call, rest: seq<Call>, next: Controller)
    requires Typechecks(c, call) && Called(c, call) == next && RunTypechecks(next, rest)
    ensures RunTypechecks(c, [call] + rest) && Run(c, [call] + rest) == Run(next, rest)
  {
    assert ([call] + rest)[1..] == rest;
  }

  function FirstFailure(outcomes: seq<Result<(), Fault>>): (i: nat)
    ensures i <= |outcomes| && (i < |outcomes| ==> outcomes[i].Err?)
    ensures forall j :: 0 <= j < i ==> outcomes[j].Ok?
  {
    if outcomes == [] || outcomes[0].Err? then 0 else 1 + FirstFailure(outcomes[1..])
  }

  /** Ready if every stage succeeded, else poisoned with the chain up to the failed stage. */
  function BootEnd(outcomes: seq<Result<(), Fault>>, k: nat): Controller
    requires k + |outcomes| == STAGES
  {
    var i := FirstFailure(outcomes);
    if i == |outcomes| then AtStage(STAGES)
    else Controller(Poisoned, PoisonedBy(AtStage(k + i).ledger, outcomes[i].error))
  }

  lemma BootEndAfterSuccess(outcomes: seq<Result<(), Fault>>, k: nat)
    requires k + |outcomes| == STAGES && outcomes != [] && outcomes[0].Ok?
    ensures BootEnd(outcomes, k) == BootEnd(outcomes[1..], k + 1)
  {
    assert FirstFailure(outcomes) == 1 + FirstFailure(outcomes[1..]);
  }

  /**
   Booting is a typed run. It reaches Ready exactly when every stage succeeds; otherwise it ends
   poisoned by the fault of the first stage that failed, with the chain up to that stage.
   */
  lemma {:induction false} BootReachesReadyIffAllSucceed(
    outcomes: seq<Result<(), Fault>>, k: nat)
    requires k + |outcomes| == STAGES
    ensures RunTypechecks(AtStage(k), BootCalls(outcomes, k))
    ensures Run(AtStage(k), BootCalls(outcomes, k)) == BootEnd(outcomes, k)
    decreases |outcomes|
  {
    if outcomes != [] {
      var call := StageCall(k, outcomes[0]);
      StageAdvances(k, outcomes[0]);
      if outcomes[0].Err? {
        RunCons(AtStage(k), call, [], Called(AtStage(k), call));
      } else {
        BootEndAfterSuccess(outcomes, k);
        BootReachesReadyIffAllSucceed(outcomes[1..], k + 1);
        RunCons(AtStage(k), call, BootCalls(outcomes[1..], k + 1), AtStage(k + 1));
      }
    }
  }

  // The request loop

  /** What the next wait yields, with the fate of the work behind it. */
  datatype Request =
    | Execute(result: Result<(), Fault>)
    | File(delivered: bool)
    | Pty(delivered: bool)
    | Shutdown
    | Prepare
    | Lost

  datatype Ending = Serving | PoweredOff | Destroyed

  /** A request after which the loop does not come round again. */
  predicate Ends(r: Request) {
    match r
    case Execute(result) => result.Err?
    case File(delivered) => !delivered
    case Pty(delivered) => !delivered
    case _ => true
  }

  function Destroy(c: Controller): Controller {
    Controller(Poisoned, PoisonedBy(c.ledger, Control))
  }

  /** The loop, by its effect on the controller. */
  function Served(c: Controller, requests: seq<Request>): (Controller, Ending)
    decreases |requests|
  {
    if requests == [] then (c, Serving)
    else
      match requests[0]
      case Execute(result) =>
        var running := Stepped(c, Running, Ok(()));
        if running.marker == Poisoned then (running, Destroyed)
        else if result.Err? then
          (Controller(Poisoned, PoisonedBy(running.ledger, result.error)), Destroyed)
        else
          var ready := Stepped(running, Ready, Ok(()));
          if ready.marker == Poisoned then (ready, Destroyed) else Served(ready, requests[1..])
      case File(delivered) =>
        if delivered then Served(c, requests[1..]) else (Destroy(c), Destroyed)
      case Pty(delivered) =>
        if delivered then Served(c, requests[1..]) else (Destroy(c), Destroyed)
      case Shutdown =>
        var stopping := Stepped(c, Stopping, Ok(()));
        if stopping.marker == Poisoned then (stopping, Destroyed) else (stopping, PoweredOff)
      case Prepare => (Destroy(c), Destroyed)
      case Lost => (Destroy(c), Destroyed)
  }

  /** The requests the loop takes up: those up to the first after which it ends. */
  function TakenUp(requests: seq<Request>): seq<Request> {
    if requests == [] then []
    else if Ends(requests[0]) then [requests[0]]
    else [requests[0]] + TakenUp(requests[1..])
  }

  function Executes(requests: seq<Request>): nat {
    if requests == [] then 0
    else (if requests[0].Execute? then 1 else 0) + Executes(requests[1..])
  }

  lemma CommandIsCounted(c: Controller)
    requires Inv(c) && c.marker == Ready
    ensures
      var running := Stepped(c, Running, Ok(()));
      if c.ledger.commands == U64_MAX then
        running == Controller(Poisoned, PoisonedBy(c.ledger, Order))
      else
        var ready := c.(ledger := c.ledger.(commands := c.ledger.commands + 1));
        && running == Controller(Running, ready.ledger.(current := Running))
        && Stepped(running, Ready, Ok(())) == ready && Inv(ready)
  {
  }

  /**
   Over any request sequence the command count grows by exactly the Execute requests taken up,
   as long as the count can hold them; if it cannot, the loop ends there with an `Order` fault.
   */
  lemma {:induction false} CommandsCountExecutes(c: Controller, requests: seq<Request>)
    requires Inv(c) && c.marker == Ready
    ensures
      var end := Served(c, requests).0;
      var total := c.ledger.commands + Executes(TakenUp(requests));
      if total <= U64_MAX then end.ledger.commands == total
      else end.ledger.commands == U64_MAX && end.ledger.fault == Some(Order)
    decreases |requests|
  {
    if requests != [] {
      assert TakenUp(requests)[1..] ==
        if Ends(requests[0]) then [] else TakenUp(requests[1..]);
      match requests[0] {
        case Execute(result) =>
          CommandIsCounted(c);
          if c.ledger.commands < U64_MAX && result.Ok? {
            CommandsCountExecutes(
              c.(ledger := c.ledger.(commands := c.ledger.commands + 1)), requests[1..]);
          }
        case _ =>
          if !Ends(requests[0]) { CommandsCountExecutes(c, requests[1..]); }
      }
    }
  }

  /** What the loop leaves behind when its last request is `last`. */
  ghost predicate EndsAs(last: Request, end: Controller, ending: Ending)
    requires Ends(last)
  {
    if last == Shutdown then
      ending == PoweredOff && end.ledger.repaired == ORDER && end.ledger.fault == None
    else
      && ending == Destroyed && end.ledger.repaired == ORDER[..STAGES + 1]
      && end.ledger.fault == Some(if last.Execute? then last.result.error else Control)
  }

  lemma LastRequestEnds(c: Controller, requests: seq<Request>)
    requires Inv(c) && c.marker == Ready && requests != [] && Ends(requests[0])
    requires requests[0].Execute? ==> c.ledger.commands < U64_MAX
    ensures EndsAs(requests[0], Served(c, requests).0, Served(c, requests).1)
  {
    if requests[0] == Shutdown { assert ORDER[..9] + [Stopping] == ORDER; }
    if requests[0].Execute? { CommandIsCounted(c); }
  }

  /**
   The loop powers the machine off only on a shutdown request, with the repair chain completed by
   `Stopping`; any other ending destroys it with the fault of the request that ended it.
   */
  lemma {:induction false} LastRequestDecidesTheEnding(c: Controller, requests: seq<Request>)
    requires Inv(c) && c.marker == Ready
    requires c.ledger.commands + Executes(TakenUp(requests)) <= U64_MAX
    ensures
      var (end, ending) := Served(c, requests);
      var taken := TakenUp(requests);
      if taken == [] || !Ends(taken[|taken| - 1]) then ending == Serving && end.marker == Ready
      else EndsAs(taken[|taken| - 1], end, ending)
    decreases |requests|
  {
    if requests != [] {
      var rest := TakenUp(requests[1..]);
      if Ends(requests[0]) {
        assert TakenUp(requests) == [requests[0]];
        LastRequestEnds(c, requests);
      } else {
        assert TakenUp(requests)[1..] == rest;
        assert rest != [] ==> TakenUp(requests)[|rest|] == rest[|rest| - 1];
        if requests[0].Execute? {
          CommandIsCounted(c);
          LastRequestDecidesTheEnding(
            c.(ledger := c.ledger.(commands := c.ledger.commands + 1)), requests[1..]);
        } else {
          LastRequestDecidesTheEnding(c, requests[1..]);
        }
      }
    }
  }

  /** The same requests without the delivered file and terminal requests. */
  function WithoutQuiet(requests: seq<Request>): seq<Request> {
    if requests == [] then []
    else if requests[0] == File(true) || requests[0] == Pty(true) then WithoutQuiet(requests[1..])
    else [requests[0]] + WithoutQuiet(requests[1..])
  }

  /**
   File and terminal requests that are answered leave no trace: the loop ends with the same
   controller and in the same way as if they had never been made.
   */
  lemma {:induction false} QuietRequestsLeaveNoTrace(c: Controller, requests: seq<Request>)
    ensures Served(c, requests) == Served(c, WithoutQuiet(requests))
    decreases |requests|
  {
    if requests != [] {
      var next := Stepped(Stepped(c, Running, Ok(())), Ready, Ok(()));
      QuietRequestsLeaveNoTrace(c, requests[1..]);
      QuietRequestsLeaveNoTrace(next, requests[1..]);
      if requests[0] != File(true) && requests[0] != Pty(true) {
        assert WithoutQuiet(requests)[1..] == WithoutQuiet(requests[1..]);
      }
    }
  }

  // The ledger and the loop with their mutable state

  class Ledger {
    var current: Phase
    var repaired: seq<Phase>
    var commands: nat
    var fault: Option<Fault>

    constructor ()
      ensures View() == NEW && Inv(Controller(Captured, View()))
    {
      current, repaired, commands, fault := Captured, [Captured], 0, None;
    }

    ghost function View(): LedgerView
      reads this
    {
      LedgerView(current, repaired, commands, fault)
    }

    method Advance(next: Phase) returns (r: Result<(), Fault>)
      modifies this
      ensures
        match Advanced(old(View()), next)
        case Ok(after) => r == Ok(()) && View() == after
        case Err(error) => r == Err(error) && View() == old(View())
    {
      if !Permits(current, next) { return Err(Order); }
      if current == Ready && next == Running {
        if commands >= U64_MAX { return Err(Order); }
        commands := commands + 1;
      } else if !(current == Running && next == Ready) {
        repaired := repaired + [next];
      }
      current := next;
      r := Ok(());
    }

    method Poison(reason: Fault)
      modifies this
      ensures View() == PoisonedBy(old(View()), reason)
    {
      fault := Some(reason);
      current := Poisoned;
    }

    /** One transition method: the stage's outcome first, then the ledger's own check. */
    method Step(next: Phase, outcome: Result<(), Fault>) returns (marker: Phase)
      modifies this
      ensures forall was: Phase ::
        Controller(marker, View()) == Stepped(Controller(was, old(View())), next, outcome)
    {
      var checked := outcome;
      if outcome.Ok? { checked := Advance(next); }
      if checked.Err? {
        Poison(checked.error);
        return Poisoned;
      }
      marker := next;
    }

    /** Serves requests until one ends the loop or none is left. */
    method Serve(requests: seq<Request>) returns (marker: Phase, ending: Ending)
      modifies this
      ensures (Controller(marker, View()), ending)
           == Served(Controller(Ready, old(View())), requests)
    {
      marker := Ready;
      for i := 0 to |requests|
        invariant marker == Ready
        invariant Served(Controller(Ready, old(View())), requests)
               == Served(Controller(Ready, View()), requests[i..])
      {
        assert requests[i..][1..] == requests[i + 1..];
        match requests[i] {
          case Execute(result) =>
            marker := Step(Running, Ok(()));
            if marker == Poisoned { return marker, Destroyed; }
            if result.Err? {
              Poison(result.error);
              return Poisoned, Destroyed;
            }
            marker := Step(Ready, Ok(()));
            if marker == Poisoned { return marker, Destroyed; }
          case File(delivered) =>
            if !delivered {
              Poison(Control);
              return Poisoned, Destroyed;
            }
          case Pty(delivered) =>
            if !delivered {
              Poison(Control);
              return Poisoned, Destroyed;
            }
          case Shutdown =>
            marker := Step(Stopping, Ok(()));
            return marker, if marker == Poisoned then Destroyed else PoweredOff;
          case Prepare =>
            Poison(Control);
            return Poisoned, Destroyed;
          case Lost =>
            Poison(Control);
            return Poisoned, Destroyed;
        }
      }
      ending := Serving;
    }
  }
}

/**
 The correlation of concurrent JSON-RPC calls over one stdio session, as interleaved steps.

 Any number of caller threads allocate identifiers, register a one-place mailbox, write, wait,
 and take themselves off the pending table again; one reader thread looks up the mailbox of
 every inbound frame and, when it fails, hands an error to every mailbox registered by then.
 Each locked region is one step; what happens outside the locks may interleave freely.
 */
module Correlator {
  import opened Wrappers

  /** The `id` member of an inbound message; strings, fractions, null and absence are `NoId`. */
  datatype JsonId = Number(n: int) | Boolean(b: bool) | NoId

  datatype Frame = Frame(id: JsonId, body: int)

  /** The key the reader looks up: in Python a boolean is an integer, `True` equal to 1. */
  function Key(id: JsonId): Option<int> {
    match id
    case Number(n) => Some(n)
    case Boolean(b) => Some(if b then 1 else 0)
    case NoId => None
  }

  datatype Mail = Response(frame: Frame) | ReaderError

  datatype Outcome = Returned(frame: Frame) | ReaderFailed | TimedOut | WriteFailed

  datatype Phase =
    | New | Allocated | Registered | Waiting | Leaving(outcome: Outcome) | Done(outcome: Outcome)

  datatype Call = Call(phase: Phase, id: Option<int>, mailbox: Option<Mail>)

  /**
   `Delivering` holds the mailbox it has looked up; `Failing` has caught an exception but not yet
   read the pending table; `Broadcasting` still has to notify `rest` of `snapshot`.
   */
  datatype Reader =
    | Idle
    | Delivering(to: nat, frame: Frame)
    | Failing
    | Broadcasting(snapshot: set<nat>, rest: set<nat>)
    | Ended

  datatype State = State(
    next: int, pending: map<int, nat>, calls: seq<Call>, reader: Reader)

  datatype Event =
    | Allocate(who: nat)
    | Register(who: nat)
    | Write(who: nat, ok: bool)
    | Take(who: nat)
    | Expire(who: nat)
    | Unregister(who: nat)
    | ReadFrame(frame: Frame)
    | Put
    | Break
    | EndOfStream
    | Snapshot
    | Notify(who: nat)

  predicate Start(s: State) {
    && s.next == 1 && s.pending == map[] && s.reader == Idle
    && forall c <- s.calls :: c == Call(New, None, None)
  }

  /** The calls whose mailboxes are in the pending table. */
  function Mailboxes(pending: map<int, nat>): set<nat> { set key <- pending :: pending[key] }

  // Steps

  /** A step of a caller thread changes its own call and possibly the shared tables. */
  function CallerStep(s: State, who: nat, e: Event): State
    requires who < |s.calls|
  {
    var c := s.calls[who];
    match e
    case Allocate(_) =>
      if c.phase != New then s
      else s.(next := s.next + 1,
              calls := s.calls[who := c.(phase := Allocated, id := Some(s.next))])
    case Register(_) =>
      if c.phase != Allocated || c.id.None? then s
      else s.(pending := s.pending[c.id.value := who],
              calls := s.calls[who := c.(phase := Registered)])
    case Write(_, ok) =>
      if c.phase != Registered then s
      else s.(calls := s.calls[who :=
                c.(phase := if ok then Waiting else Leaving(WriteFailed))])
    case Take(_) =>
      if c.phase != Waiting || c.mailbox.None? then s
      else
        var outcome := match c.mailbox.value
                       case Response(frame) => Returned(frame)
                       case ReaderError => ReaderFailed;
        s.(calls := s.calls[who := c.(phase := Leaving(outcome), mailbox := None)])
    case Expire(_) =>
      if c.phase != Waiting || c.mailbox.Some? then s
      else s.(calls := s.calls[who := c.(phase := Leaving(TimedOut))])
    case Unregister(_) =>
      if !c.phase.Leaving? || c.id.None? then s
      else s.(pending := s.pending - {c.id.value},
              calls := s.calls[who := c.(phase := Done(c.phase.outcome))])
    case _ => s
  }

  /** A one-place mailbox accepts mail only while it is empty. */
  function Deposit(s: State, to: nat, mail: Mail): State
    requires to < |s.calls|
  {
    if s.calls[to].mailbox.Some? then s
    else s.(calls := s.calls[to := s.calls[to].(mailbox := Some(mail))])
  }

  function ReaderStep(s: State, e: Event): State {
    match (s.reader, e)
    case (Idle, ReadFrame(frame)) =>
      var key := Key(frame.id);
      if key.None? || key.value !in s.pending then s
      else s.(reader := Delivering(s.pending[key.value], frame))
    case (Idle, Break) => s.(reader := Failing)
    case (Idle, EndOfStream) => s.(reader := Ended)
    case (Delivering(to, frame), Put) =>
      if to >= |s.calls| then s
      else if s.calls[to].mailbox.Some? then s.(reader := Failing)
      else Deposit(s, to, Response(frame)).(reader := Idle)
    case (Failing, Snapshot) =>
      s.(reader := Broadcasting(Mailboxes(s.pending), Mailboxes(s.pending)))
    case (Broadcasting(snapshot, rest), Notify(who)) =>
      if who !in rest || who >= |s.calls| then s
      else Deposit(s, who, ReaderError).(reader := Broadcasting(snapshot, rest - {who}))
    case _ => s
  }

  function Step(s: State, e: Event): State {
    match e
    case Allocate(who) => if who < |s.calls| then CallerStep(s, who, e) else s
    case Register(who) => if who < |s.calls| then CallerStep(s, who, e) else s
    case Write(who, _) => if who < |s.calls| then CallerStep(s, who, e) else s
    case Take(who) => if who < |s.calls| then CallerStep(s, who, e) else s
    case Expire(who) => if who < |s.calls| then CallerStep(s, who, e) else s
    case Unregister(who) => if who < |s.calls| then CallerStep(s, who, e) else s
    case _ => ReaderStep(s, e)
  }

  function Run(s: State, events: seq<Event>): State
    decreases |events|
  {
    if events == [] then s else Run(Step(s, events[0]), events[1..])
  }

  // What every step keeps

  /** The call is in the pending table: it has registered and not yet unregistered. */
  predicate Active(c: Call) {
    c.phase.Registered? || c.phase.Waiting? || c.phase.Leaving?
  }

  ghost predicate MailFits(c: Call) {
    && (c.mailbox.Some? && c.mailbox.value.Response? ==>
          c.id.Some? && Key(c.mailbox.value.frame.id) == c.id)
    && ((c.phase.Leaving? || c.phase.Done?) && c.phase.outcome.Returned? ==>
          c.id.Some? && Key(c.phase.outcome.frame.id) == c.id)
    && (c.phase.New? || c.phase.Allocated? ==> c.mailbox == None)
  }

  ghost predicate CallInv(s: State, who: nat)
    requires who < |s.calls|
  {
    var c := s.calls[who];
    && (c.phase.New? <==> c.id.None?)
    && (c.id.Some? ==> 1 <= c.id.value < s.next)
    && MailFits(c)
    && (Active(c) ==> c.id.Some? && c.id.value in s.pending && s.pending[c.id.value] == who)
  }

  ghost predicate PendingInv(s: State, key: int)
    requires key in s.pending
  {
    var who := s.pending[key];
    who < |s.calls| && s.calls[who].id == Some(key) && Active(s.calls[who])
  }

  /** The call has mail, or has already left with an outcome. */
  predicate Answered(c: Call) {
    c.mailbox.Some? || c.phase.Leaving? || c.phase.Done?
  }

  ghost predicate ReaderInv(s: State) {
    match s.reader
    case Delivering(to, frame) =>
      to < |s.calls| && s.calls[to].id.Some? && Key(frame.id) == s.calls[to].id
      && !s.calls[to].phase.Allocated?
    case Broadcasting(snapshot, rest) =>
      && rest <= snapshot
      && (forall who <- snapshot :: who < |s.calls| && s.calls[who].id.Some?
            && !s.calls[who].phase.Allocated?)
      && (forall who <- snapshot :: who !in rest ==> Answered(s.calls[who]))
    case _ => true
  }

  ghost predicate UniqueIds(s: State) {
    forall i, j :: 0 <= i < j < |s.calls| && s.calls[i].id.Some? && s.calls[j].id.Some? ==>
      s.calls[i].id != s.calls[j].id
  }

  ghost predicate Inv(s: State) {
    && s.next >= 1
    && (forall who :: 0 <= who < |s.calls| ==> CallInv(s, who))
    && (forall key <- s.pending :: PendingInv(s, key))
    && ReaderInv(s)
    && UniqueIds(s)
  }

  lemma AllocateKeepsInv(s: State, who: nat)
    requires Inv(s) && who < |s.calls|
    ensures Inv(CallerStep(s, who, Allocate(who)))
  {
    var t := CallerStep(s, who, Allocate(who));
    assert CallInv(s, who);
    forall i, j | 0 <= i < j < |t.calls| && t.calls[i].id.Some? && t.calls[j].id.Some?
      ensures t.calls[i].id != t.calls[j].id
    {
      assert CallInv(s, i) && CallInv(s, j);
    }
    forall k | 0 <= k < |t.calls| ensures CallInv(t, k) { assert CallInv(s, k); }
    forall key <- t.pending ensures PendingInv(t, key) { assert PendingInv(s, key); }
  }

  lemma RegisterKeepsInv(s: State, who: nat)
    requires Inv(s) && who < |s.calls|
    ensures Inv(CallerStep(s, who, Register(who)))
  {
    var t := CallerStep(s, who, Register(who));
    assert CallInv(s, who);
    forall k | 0 <= k < |t.calls| ensures CallInv(t, k) { assert CallInv(s, k); }
    forall key <- t.pending ensures PendingInv(t, key) {
      if key in s.pending { assert PendingInv(s, key); }
    }
  }

  lemma UnregisterKeepsInv(s: State, who: nat)
    requires Inv(s) && who < |s.calls|
    ensures Inv(CallerStep(s, who, Unregister(who)))
  {
    var t := CallerStep(s, who, Unregister(who));
    assert CallInv(s, who);
    forall k | 0 <= k < |t.calls| ensures CallInv(t, k) { assert CallInv(s, k); }
    forall key <- t.pending ensures PendingInv(t, key) { assert PendingInv(s, key); }
  }

  /** Writing, taking mail and expiring change only the caller's own phase and mailbox. */
  lemma LocalStepKeepsInv(s: State, who: nat, e: Event)
    requires Inv(s) && who < |s.calls|
    requires e.Write? || e.Take? || e.Expire?
    ensures Inv(CallerStep(s, who, e))
  {
    var t := CallerStep(s, who, e);
    assert CallInv(s, who);
    forall k | 0 <= k < |t.calls| ensures CallInv(t, k) { assert CallInv(s, k); }
    forall key <- t.pending ensures PendingInv(t, key) { assert PendingInv(s, key); }
  }

  lemma DepositKeepsCalls(s: State, to: nat, mail: Mail)
    requires Inv(s) && to < |s.calls|
    requires s.calls[to].id.Some? && !s.calls[to].phase.Allocated?
    requires mail.Response? ==> Key(mail.frame.id) == s.calls[to].id
    ensures
      var t := Deposit(s, to, mail);
      && (forall who :: 0 <= who < |t.calls| ==> CallInv(t, who))
      && (forall key <- t.pending :: PendingInv(t, key))
      && UniqueIds(t)
  {
    var t := Deposit(s, to, mail);
    assert CallInv(s, to);
    forall k | 0 <= k < |t.calls| ensures CallInv(t, k) { assert CallInv(s, k); }
    forall key <- t.pending ensures PendingInv(t, key) { assert PendingInv(s, key); }
  }

  lemma ReaderMoveKeepsInv(s: State, reader: Reader)
    requires Inv(s) && ReaderInv(s.(reader := reader))
    ensures Inv(s.(reader := reader))
  {
    var t := s.(reader := reader);
    forall k | 0 <= k < |t.calls| ensures CallInv(t, k) { assert CallInv(s, k); }
    forall key <- t.pending ensures PendingInv(t, key) { assert PendingInv(s, key); }
  }

  lemma RestateUnderReader(s: State, reader: Reader)
    requires s.next >= 1
    requires forall who :: 0 <= who < |s.calls| ==> CallInv(s, who)
    requires forall key <- s.pending :: PendingInv(s, key)
    requires UniqueIds(s) && ReaderInv(s.(reader := reader))
    ensures Inv(s.(reader := reader))
  {
    var t := s.(reader := reader);
    forall k | 0 <= k < |t.calls| ensures CallInv(t, k) { assert CallInv(s, k); }
    forall key <- t.pending ensures PendingInv(t, key) { assert PendingInv(s, key); }
  }

  lemma ReaderStepKeepsInv(s: State, e: Event)
    requires Inv(s)
    ensures Inv(ReaderStep(s, e))
  {
    match (s.reader, e) {
      case (Idle, ReadFrame(frame)) =>
        var key := Key(frame.id);
        if key.Some? && key.value in s.pending {
          assert PendingInv(s, key.value);
          ReaderMoveKeepsInv(s, Delivering(s.pending[key.value], frame));
        }
      case (Idle, Break) => ReaderMoveKeepsInv(s, Failing);
      case (Idle, EndOfStream) => ReaderMoveKeepsInv(s, Ended);
      case (Delivering(to, frame), Put) =>
        if s.calls[to].mailbox.Some? {
          ReaderMoveKeepsInv(s, Failing);
        } else {
          DepositKeepsCalls(s, to, Response(frame));
          RestateUnderReader(Deposit(s, to, Response(frame)), Idle);
        }
      case (Failing, Snapshot) =>
        forall who <- Mailboxes(s.pending)
          ensures who < |s.calls| && s.calls[who].id.Some? && !s.calls[who].phase.Allocated?
        {
          var key :| key in s.pending && s.pending[key] == who;
          assert PendingInv(s, key);
        }
        ReaderMoveKeepsInv(s, Broadcasting(Mailboxes(s.pending), Mailboxes(s.pending)));
      case (Broadcasting(snapshot, rest), Notify(who)) =>
        if who in rest {
          DepositKeepsCalls(s, who, ReaderError);
          RestateUnderReader(
            Deposit(s, who, ReaderError), Broadcasting(snapshot, rest - {who}));
        }
      case _ =>
    }
  }

  lemma StepKeepsInv(s: State, e: Event)
    requires Inv(s)
    ensures Inv(Step(s, e))
    ensures |Step(s, e).calls| == |s.calls|
  {
    match e {
      case Allocate(who) => if who < |s.calls| { AllocateKeepsInv(s, who); }
      case Register(who) => if who < |s.calls| { RegisterKeepsInv(s, who); }
      case Write(who, _) => if who < |s.calls| { LocalStepKeepsInv(s, who, e); }
      case Take(who) => if who < |s.calls| { LocalStepKeepsInv(s, who, e); }
      case Expire(who) => if who < |s.calls| { LocalStepKeepsInv(s, who, e); }
      case Unregister(who) => if who < |s.calls| { UnregisterKeepsInv(s, who); }
      case _ => ReaderStepKeepsInv(s, e);
    }
  }

  lemma {:induction false} RunKeepsInv(s: State, events: seq<Event>)
    requires Inv(s)
    ensures Inv(Run(s, events)) && |Run(s, events).calls| == |s.calls|
    decreases |events|
  {
    if events != [] {
      StepKeepsInv(s, events[0]);
      RunKeepsInv(Step(s, events[0]), events[1..]);
    }
  }

  lemma StartIsInv(s: State)
    requires Start(s)
    ensures Inv(s)
  {
    forall who | 0 <= who < |s.calls| ensures s.calls[who] == Call(New, None, None) {
      assert s.calls[who] in s.calls;
    }
  }

  // Identifiers and answers

  lemma {:induction false} IdsAreKept(s: State, events: seq<Event>, who: nat)
    requires Inv(s) && who < |s.calls| && s.calls[who].id.Some?
    ensures |Run(s, events).calls| == |s.calls| && Run(s, events).calls[who].id == s.calls[who].id
    decreases |events|
  {
    if events != [] {
      assert CallInv(s, who);
      StepKeepsInv(s, events[0]);
      IdsAreKept(Step(s, events[0]), events[1..], who);
    }
  }

  /**
   Identifiers are never reused: in every interleaving no two calls ever hold the same one, not
   even when the first has long finished, because a call keeps its identifier for good.
   */
  lemma IdentifiersNeverReused(s: State, early: seq<Event>, late: seq<Event>, a: nat, b: nat)
    requires Start(s) && a < |s.calls| && b < |s.calls| && a != b
    requires |Run(s, early).calls| == |s.calls| && Run(s, early).calls[a].id.Some?
    requires |Run(Run(s, early), late).calls| == |s.calls|
    requires Run(Run(s, early), late).calls[b].id.Some?
    ensures Run(s, early).calls[a].id != Run(Run(s, early), late).calls[b].id
  {
    StartIsInv(s);
    RunKeepsInv(s, early);
    RunKeepsInv(Run(s, early), late);
    IdsAreKept(Run(s, early), late, a);
  }

  /**
   A call that returns a frame returns one whose identifier equals its own in Python's sense.
   As JSON the two are the same unless the peer sent the boolean `true` to the first call.
   */
  lemma ReturnsItsOwnFrame(s: State, events: seq<Event>, who: nat, frame: Frame)
    requires Start(s) && who < |Run(s, events).calls|
    requires Run(s, events).calls[who].phase == Done(Returned(frame))
    ensures
      var id := Run(s, events).calls[who].id;
      && id.Some? && Key(frame.id) == id
      && (frame.id == Number(id.value) <==> !(id.value == 1 && frame.id == Boolean(true)))
  {
    StartIsInv(s);
    RunKeepsInv(s, events);
    assert CallInv(Run(s, events), who);
  }

  lemma RunFirst(s: State, e: Event, rest: seq<Event>)
    ensures Run(s, [e] + rest) == Run(Step(s, e), rest)
  {
    assert ([e] + rest)[1..] == rest;
  }

  /** The reader holds the mailbox it has looked up until it puts the frame. */
  lemma {:induction false} DeliveryWaitsForPut(s: State, events: seq<Event>)
    requires s.reader.Delivering? && Put !in events
    ensures Run(s, events).reader == s.reader
    decreases |events|
  {
    if events != [] { DeliveryWaitsForPut(Step(s, events[0]), events[1..]); }
  }

  /** The call has not been told anything yet, and if it has given up, it has timed out. */
  predicate Unanswered(c: Call) {
    c.mailbox == None && (c.phase == Waiting || c.phase == Leaving(TimedOut) || c.phase == Done(TimedOut))
  }

  lemma {:induction false} UnansweredUntilPut(s: State, events: seq<Event>, who: nat)
    requires s.reader.Delivering? && Put !in events
    requires who < |s.calls| && Unanswered(s.calls[who])
    ensures |Run(s, events).calls| == |s.calls| && Unanswered(Run(s, events).calls[who])
    decreases |events|
  {
    if events != [] { UnansweredUntilPut(Step(s, events[0]), events[1..], who); }
  }

  /** The call has the frame in its mailbox, or has left with it. */
  predicate HasFrame(c: Call, frame: Frame) {
    || (c.phase == Waiting && c.mailbox == Some(Response(frame)))
    || c.phase == Leaving(Returned(frame)) || c.phase == Done(Returned(frame))
  }

  lemma {:induction false} FrameIsKept(s: State, events: seq<Event>, who: nat, frame: Frame)
    requires who < |s.calls| && HasFrame(s.calls[who], frame)
    ensures |Run(s, events).calls| == |s.calls| && HasFrame(Run(s, events).calls[who], frame)
    decreases |events|
  {
    if events != [] { FrameIsKept(Step(s, events[0]), events[1..], who, frame); }
  }

  lemma {:induction false} LengthIsKept(s: State, events: seq<Event>)
    ensures |Run(s, events).calls| == |s.calls|
    decreases |events|
  {
    if events != [] { LengthIsKept(Step(s, events[0]), events[1..]); }
  }

  /**
   A frame that carries the identifier of a waiting call reaches that call. Whatever all other
   threads do between the reader's look-up and its put, and ever after, the call ends up with
   this frame, unless it had timed out before the put.
   */
  lemma MatchingFrameIsDelivered(
    s: State, between: seq<Event>, later: seq<Event>, who: nat, frame: Frame)
    requires Inv(s) && s.reader == Idle && who < |s.calls|
    requires s.calls[who].phase == Waiting && s.calls[who].mailbox == None
    requires Key(frame.id) == s.calls[who].id && Put !in between
    ensures
      var put := Run(Step(s, ReadFrame(frame)), between);
      var end := Run(Step(put, Put), later);
      && |put.calls| == |end.calls| == |s.calls|
      && Unanswered(put.calls[who])
      && (put.calls[who].phase == Waiting ==> HasFrame(end.calls[who], frame))
  {
    assert CallInv(s, who);
    var read := Step(s, ReadFrame(frame));
    assert read == s.(reader := Delivering(who, frame));
    DeliveryWaitsForPut(read, between);
    UnansweredUntilPut(read, between, who);
    var put := Run(read, between);
    if put.calls[who].phase == Waiting {
      FrameIsKept(Step(put, Put), later, who, frame);
    } else {
      LengthIsKept(Step(put, Put), later);
    }
  }

  lemma {:induction false} EmptyUntilPut(s: State, events: seq<Event>, who: nat)
    requires s.reader.Delivering? && Put !in events && who < |s.calls|
    requires s.calls[who].mailbox == None
    ensures |Run(s, events).calls| == |s.calls| && Run(s, events).calls[who].mailbox == None
    decreases |events|
  {
    if events != [] { EmptyUntilPut(Step(s, events[0]), events[1..], who); }
  }

  /** While the reader stands still, mail stays in its mailbox until the call takes it. */
  lemma {:induction false} MailUntilTaken(s: State, events: seq<Event>, who: nat)
    requires s.reader.Delivering? && Put !in events && who < |s.calls|
    requires s.calls[who].phase == Waiting && s.calls[who].mailbox.Some?
    ensures |Run(s, events).calls| == |s.calls|
    ensures Run(s, events).calls[who].mailbox ==
      if Take(who) in events then None else s.calls[who].mailbox
    decreases |events|
  {
    if events != [] {
      assert events == [events[0]] + events[1..];
      var next := Step(s, events[0]);
      if events[0] == Take(who) {
        EmptyUntilPut(next, events[1..], who);
      } else {
        MailUntilTaken(next, events[1..], who);
      }
    }
  }

  /**
   A second frame for a call that has not yet taken its first: whatever the other threads do
   before the reader puts it, the put brings the reader down if and only if the call has still
   not taken the first by then, and the first frame is then still in its mailbox.
   */
  lemma DuplicateFailsReader(
    s: State, between: seq<Event>, who: nat, first: Frame, second: Frame)
    requires Inv(s) && s.reader == Idle && who < |s.calls|
    requires s.calls[who].phase == Waiting && s.calls[who].mailbox == Some(Response(first))
    requires Key(second.id) == s.calls[who].id && Put !in between
    ensures
      var end := Step(Run(Step(s, ReadFrame(second)), between), Put);
      && |end.calls| == |s.calls|
      && (end.reader == Failing <==> Take(who) !in between)
      && (end.reader == Failing ==> end.calls[who].mailbox == Some(Response(first)))
  {
    assert CallInv(s, who);
    var read := Step(s, ReadFrame(second));
    assert read == s.(reader := Delivering(who, second));
    DeliveryWaitsForPut(read, between);
    MailUntilTaken(read, between, who);
  }

  function OneCall(pending: map<int, nat>, call: Call, reader: Reader): State {
    State(2, pending, [call], reader)
  }

  /** The only call of a session registers, writes its frame and waits, whatever the reader is. */
  lemma FirstCallWaits(s: State, rest: seq<Event>)
    requires s == State(1, map[], [Call(New, None, None)], s.reader)
    ensures Run(s, [Allocate(0)] + ([Register(0)] + ([Write(0, true)] + rest)))
         == Run(OneCall(map[1 := 0], Call(Waiting, Some(1), None), s.reader), rest)
  {
    var s1 := OneCall(map[], Call(Allocated, Some(1), None), s.reader);
    var s2 := OneCall(map[1 := 0], Call(Registered, Some(1), None), s.reader);
    var e3 := [Write(0, true)] + rest;
    RunFirst(s, Allocate(0), [Register(0)] + e3);
    assert Step(s, Allocate(0)) == s1;
    RunFirst(s1, Register(0), e3);
    assert Step(s1, Register(0)) == s2;
    RunFirst(s2, Write(0, true), rest);
    assert Step(s2, Write(0, true))
        == OneCall(map[1 := 0], Call(Waiting, Some(1), None), s.reader);
  }

  lemma FirstCallIsAnswered(s: State, frame: Frame, rest: seq<Event>)
    requires s == OneCall(map[1 := 0], Call(Waiting, Some(1), None), Idle)
    requires Key(frame.id) == Some(1)
    ensures Run(s, [ReadFrame(frame)] + ([Put] + ([Take(0)] + rest)))
         == Run(OneCall(map[1 := 0], Call(Leaving(Returned(frame)), Some(1), None), Idle), rest)
  {
    var s1 := s.(reader := Delivering(0, frame));
    var s2 := OneCall(map[1 := 0], Call(Waiting, Some(1), Some(Response(frame))), Idle);
    var e3 := [Take(0)] + rest;
    RunFirst(s, ReadFrame(frame), [Put] + e3);
    assert Step(s, ReadFrame(frame)) == s1;
    RunFirst(s1, Put, e3);
    assert Step(s1, Put) == s2;
    RunFirst(s2, Take(0), rest);
    assert Step(s2, Take(0))
        == OneCall(map[1 := 0], Call(Leaving(Returned(frame)), Some(1), None), Idle);
  }

  lemma FirstCallReturns(s: State, frame: Frame)
    requires s == OneCall(map[1 := 0], Call(Leaving(Returned(frame)), Some(1), None), Idle)
    ensures Run(s, [Unregister(0)]).calls == [Call(Done(Returned(frame)), Some(1), None)]
  {
    assert [Unregister(0)] + [] == [Unregister(0)];
    RunFirst(s, Unregister(0), []);
  }

  /** The exception happens: a session in which `true` is delivered to the call numbered 1. */
  lemma BooleanAnswersFirstCall() returns (s: State, events: seq<Event>, frame: Frame)
    ensures Start(s) && frame.id == Boolean(true)
    ensures Run(s, events).calls == [Call(Done(Returned(frame)), Some(1), None)]
  {
    frame := Frame(Boolean(true), 0);
    s := State(1, map[], [Call(New, None, None)], Idle);
    var waiting := OneCall(map[1 := 0], Call(Waiting, Some(1), None), Idle);
    var answer := [ReadFrame(frame)] + ([Put] + ([Take(0)] + [Unregister(0)]));
    events := [Allocate(0)] + ([Register(0)] + ([Write(0, true)] + answer));
    FirstCallWaits(s, answer);
    FirstCallIsAnswered(waiting, frame, [Unregister(0)]);
    FirstCallReturns(
      OneCall(map[1 := 0], Call(Leaving(Returned(frame)), Some(1), None), Idle), frame);
  }

  // Reader failure

  /** The calls in the pending table are exactly the active ones. */
  lemma PendingAreActive(s: State)
    requires Inv(s)
    ensures forall who: nat :: who in Mailboxes(s.pending) <==> who < |s.calls| && Active(s.calls[who])
  {
    forall who | who in Mailboxes(s.pending) ensures who < |s.calls| && Active(s.calls[who]) {
      var key :| key in s.pending && s.pending[key] == who;
      assert PendingInv(s, key);
    }
    forall who: nat | who < |s.calls| && Active(s.calls[who]) ensures who in Mailboxes(s.pending) {
      assert CallInv(s, who);
    }
  }

  lemma {:induction false} BroadcastGoesOn(s: State, events: seq<Event>)
    requires s.reader.Broadcasting?
    ensures Run(s, events).reader.Broadcasting?
    ensures Run(s, events).reader.snapshot == s.reader.snapshot
    decreases |events|
  {
    if events != [] { BroadcastGoesOn(Step(s, events[0]), events[1..]); }
  }

  /**
   When the reader fails, exactly the calls registered at the moment it reads the pending table
   are to be told. However the callers go on meanwhile, each of them that has been visited has
   mail in its mailbox or has left with an outcome; once all have been visited, all have.
   */
  lemma FailureReachesEveryRegisteredCall(s: State, events: seq<Event>)
    requires Inv(s) && s.reader == Failing
    ensures
      var end := Run(Step(s, Snapshot), events);
      && end.reader.Broadcasting?
      && (forall who: nat :: who in end.reader.snapshot <==>
            who < |s.calls| && Active(s.calls[who]))
      && (forall who <- end.reader.snapshot :: who !in end.reader.rest ==>
            who < |end.calls| && Answered(end.calls[who]))
  {
    PendingAreActive(s);
    StepKeepsInv(s, Snapshot);
    BroadcastGoesOn(Step(s, Snapshot), events);
    RunKeepsInv(Step(s, Snapshot), events);
  }

  /** The call has mail waiting, or has left for a reason other than the timeout. */
  predicate SafeFromTimeout(c: Call) {
    || ((c.phase.Registered? || c.phase.Waiting?) && c.mailbox.Some?)
    || ((c.phase.Leaving? || c.phase.Done?) && c.phase.outcome != TimedOut)
  }

  lemma StepKeepsSafe(s: State, e: Event, who: nat)
    requires who < |s.calls| && SafeFromTimeout(s.calls[who])
    ensures |Step(s, e).calls| == |s.calls| && SafeFromTimeout(Step(s, e).calls[who])
  {
  }

  /** A call with mail in its mailbox never ends in a timeout, however slowly it is scheduled. */
  lemma {:induction false} MailPreventsTimeout(s: State, events: seq<Event>, who: nat)
    requires who < |s.calls| && SafeFromTimeout(s.calls[who])
    ensures |Run(s, events).calls| == |s.calls|
    ensures Run(s, events).calls[who].phase != Done(TimedOut)
    decreases |events|
  {
    if events != [] {
      StepKeepsSafe(s, events[0], who);
      MailPreventsTimeout(Step(s, events[0]), events[1..], who);
    }
  }

  // Calls nobody will tell

  /** The reader will never put anything into this mailbox again. */
  predicate Silent(s: State, who: nat) {
    s.reader == Ended || (s.reader.Broadcasting? && who !in s.reader.rest)
  }

  /** The call has no mail, and can have left only by a timeout or a failed write. */
  predicate Untold(c: Call) {
    && c.mailbox == None
    && (c.phase.Leaving? || c.phase.Done? ==>
          c.phase.outcome == TimedOut || c.phase.outcome == WriteFailed)
  }

  lemma {:induction false} SilenceIsForEver(s: State, events: seq<Event>, who: nat)
    requires who < |s.calls| && Silent(s, who) && Untold(s.calls[who])
    ensures |Run(s, events).calls| == |s.calls|
    ensures Silent(Run(s, events), who) && Untold(Run(s, events).calls[who])
    decreases |events|
  {
    if events != [] { SilenceIsForEver(Step(s, events[0]), events[1..], who); }
  }

  /**
   The other side of reader failure: a call that is not registered at the moment the reader
   reads the pending table is never told. In every continuation it has no mail, and can end in
   no way but a timeout or a failed write.
   */
  lemma LateCallsAreNeverTold(s: State, events: seq<Event>, who: nat)
    requires Inv(s) && s.reader == Failing && who < |s.calls|
    requires s.calls[who].phase == New || s.calls[who].phase == Allocated
    ensures
      var end := Run(Step(s, Snapshot), events);
      |end.calls| == |s.calls| && Untold(end.calls[who])
  {
    assert CallInv(s, who);
    PendingAreActive(s);
    SilenceIsForEver(Step(s, Snapshot), events, who);
  }

  lemma {:induction false} EndedStays(s: State, events: seq<Event>)
    requires s.reader == Ended
    ensures Run(s, events).reader == Ended
    decreases |events|
  {
    if events != [] { EndedStays(Step(s, events[0]), events[1..]); }
  }

  /**
   At the end of the stream the reader stops without telling anybody: from then on every call
   without mail, registered or not, can end in no way but a timeout or a failed write.
   */
  lemma EndOfStreamTellsNobody(s: State, events: seq<Event>, who: nat)
    requires s.reader == Idle && who < |s.calls| && Untold(s.calls[who])
    ensures
      var end := Run(Step(s, EndOfStream), events);
      end.reader == Ended && |end.calls| == |s.calls| && Untold(end.calls[who])
  {
    var ended := Step(s, EndOfStream);
    SilenceIsForEver(ended, events, who);
    EndedStays(ended, events);
  }

  /** Registers, writes, waits and times out. */
  const UNTOLD_CALL: seq<Event> :=
    [Allocate(0)] + ([Register(0)] + ([Write(0, true)] + ([Expire(0)] + [Unregister(0)])))

  lemma WaitingCallTimesOut(s: State)
    requires s == OneCall(map[1 := 0], Call(Waiting, Some(1), None), s.reader)
    ensures Run(s, [Expire(0)] + [Unregister(0)]).calls == [Call(Done(TimedOut), Some(1), None)]
  {
    var left := OneCall(map[1 := 0], Call(Leaving(TimedOut), Some(1), None), s.reader);
    RunFirst(s, Expire(0), [Unregister(0)]);
    assert Step(s, Expire(0)) == left;
    assert [Unregister(0)] + [] == [Unregister(0)];
    RunFirst(left, Unregister(0), []);
    var done := OneCall(left.pending - {1}, Call(Done(TimedOut), Some(1), None), s.reader);
    assert Step(left, Unregister(0)) == done;
    assert Run(done, []) == done;
  }

  lemma UntoldCallTimesOut(s: State)
    requires s == State(1, map[], [Call(New, None, None)], s.reader)
    ensures Run(s, UNTOLD_CALL).calls == [Call(Done(TimedOut), Some(1), None)]
  {
    FirstCallWaits(s, [Expire(0)] + [Unregister(0)]);
    WaitingCallTimesOut(OneCall(map[1 := 0], Call(Waiting, Some(1), None), s.reader));
  }

  /** It happens: the reader breaks and reads the pending table before the only call registers. */
  lemma LateCallHappens() returns (s: State)
    ensures Start(s)
    ensures Run(s, [Break] + ([Snapshot] + UNTOLD_CALL)).calls
         == [Call(Done(TimedOut), Some(1), None)]
  {
    s := State(1, map[], [Call(New, None, None)], Idle);
    RunFirst(s, Break, [Snapshot] + UNTOLD_CALL);
    var broken := Step(s, Break);
    RunFirst(broken, Snapshot, UNTOLD_CALL);
    UntoldCallTimesOut(Step(broken, Snapshot));
  }

  /** It happens: the stream has ended before the only call registers. */
  lemma CallAfterEndHappens() returns (s: State)
    ensures Start(s)
    ensures Run(s, [EndOfStream] + UNTOLD_CALL).calls == [Call(Done(TimedOut), Some(1), None)]
  {
    s := State(1, map[], [Call(New, None, None)], Idle);
    RunFirst(s, EndOfStream, UNTOLD_CALL);
    UntoldCallTimesOut(Step(s, EndOfStream));
  }
}

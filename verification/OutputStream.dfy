/**
 The combined output allowance of one command: bounded reads from two pipes, each admitted
 against what is left, until a read proves that there is more output than allowed.
 */
module OutputStream {
  import opened Wrappers

  const MAX_CHUNK_BYTES := 4096

  datatype Reservation = Reservation(admitted: nat, reachedLimit: bool)

  function RoomOf(allowance: nat, sent: nat): (room: nat)
    requires sent <= allowance <= U64_MAX
    ensures 1 <= room <= allowance - sent + 1
  {
    Min(allowance - sent + 1, MAX_CHUNK_BYTES)
  }

  class OutputBudget {
    const allowance: nat
    var sent: nat

    constructor (allowance: nat)
      requires allowance <= U64_MAX
      ensures this.allowance == allowance && sent == 0 && Valid()
    {
      this.allowance := allowance;
      sent := 0;
    }

    ghost predicate Valid()
      reads this
    {
      sent <= allowance <= U64_MAX
    }

    function Remaining(): nat
      requires Valid()
      reads this
    {
      allowance - sent
    }

    /** How much the next read may take: never nothing, and one byte past the allowance at most. */
    function Room(): (room: nat)
      requires Valid()
      reads this
      ensures 1 <= room <= MAX_CHUNK_BYTES && room <= allowance - sent + 1
      ensures room == RoomOf(allowance, sent)
    {
      Min(Min(Remaining() + 1, U64_MAX), MAX_CHUNK_BYTES)
    }

    method Reserve(read: nat) returns (r: Reservation)
      requires Valid()
      modifies this
      ensures Valid()
      ensures r.admitted == Min(read, old(Remaining())) && sent == old(sent) + r.admitted
      ensures r.reachedLimit <==> read > old(Remaining())
    {
      if read <= Remaining() {
        sent := sent + read;
        return Reservation(read, false);
      }
      r := Reservation(Remaining(), true);
      sent := allowance;
    }
  }

  // Reads from the two pipes, in any order

  datatype Pipe = Stdout | Stderr

  /** A readable pipe: what is pending in it, and how many pipes this pass found readable. */
  datatype Event = Event(pipe: Pipe, pending: Bytes, ready: nat)

  /** This pipe's share of the room among the readable ones. */
  function Share(room: nat, ready: nat): (share: nat)
    requires room >= 1
    ensures 1 <= share <= room
  {
    if ready == 0 then room
    else
      var ceiling := (room + ready - 1) / ready;
      Min(if ceiling < 1 then 1 else ceiling, room)
  }

  /** What was read from each pipe, what of it was delivered, and whether the limit was hit. */
  datatype Output = Output(
    readOut: Bytes, readErr: Bytes, stdout: Bytes, stderr: Bytes, limitHit: bool)

  const SILENT := Output([], [], [], [], false)

  predicate Within(o: Output, allowance: nat) {
    |o.stdout| + |o.stderr| <= allowance <= U64_MAX
  }

  /** What one read takes from the pipe. */
  function Taken(o: Output, allowance: nat, e: Event): Bytes
    requires Within(o, allowance)
  {
    var room := Share(RoomOf(allowance, |o.stdout| + |o.stderr|), e.ready);
    e.pending[..Min(room, |e.pending|)]
  }

  function Stepped(o: Output, allowance: nat, e: Event): (after: Output)
    requires Within(o, allowance)
    ensures Within(after, allowance)
  {
    if o.limitHit then o
    else
      var read := Taken(o, allowance, e);
      var remaining := allowance - |o.stdout| - |o.stderr|;
      var chunk := read[..Min(|read|, remaining)];
      var hit := |read| > remaining;
      if e.pipe == Stdout then
        Output(o.readOut + read, o.readErr, o.stdout + chunk, o.stderr, hit)
      else Output(o.readOut, o.readErr + read, o.stdout, o.stderr + chunk, hit)
  }

  function Streamed(o: Output, allowance: nat, events: seq<Event>): Output
    requires Within(o, allowance)
    decreases |events|
  {
    if events == [] then o else Streamed(Stepped(o, allowance, events[0]), allowance, events[1..])
  }

  /**
   Exact delivery: prefixes of what was read, together exactly the smaller of what was read and
   the allowance, with the limit hit exactly if more was read, and never by more than one byte.
   */
  predicate Exact(o: Output, allowance: nat) {
    var read := |o.readOut| + |o.readErr|;
    && o.stdout <= o.readOut && o.stderr <= o.readErr
    && |o.stdout| + |o.stderr| == Min(read, allowance)
    && (o.limitHit <==> read > allowance)
    && read <= allowance + 1
  }

  lemma StepKeepsExact(o: Output, allowance: nat, e: Event)
    requires Within(o, allowance) && Exact(o, allowance)
    ensures Exact(Stepped(o, allowance, e), allowance)
  {
    if !o.limitHit {
      assert o.stdout == o.readOut && o.stderr == o.readErr;
      var read := Taken(o, allowance, e);
      assert |read| <= allowance - |o.stdout| - |o.stderr| + 1;
    }
  }

  /** For any interleaving of pending output on the two pipes, delivery is exact. */
  lemma {:induction false} DeliveryIsExact(o: Output, allowance: nat, events: seq<Event>)
    requires Within(o, allowance) && Exact(o, allowance)
    ensures Exact(Streamed(o, allowance, events), allowance)
    decreases |events|
  {
    if events != [] {
      StepKeepsExact(o, allowance, events[0]);
      DeliveryIsExact(Stepped(o, allowance, events[0]), allowance, events[1..]);
    }
  }

  /** The pump: reads, reserves, delivers, and stops admitting at the limit. */
  method Pump(allowance: nat, events: seq<Event>) returns (o: Output)
    requires allowance <= U64_MAX
    ensures o == Streamed(SILENT, allowance, events) && Exact(o, allowance)
  {
    var budget := new OutputBudget(allowance);
    o := SILENT;
    for i := 0 to |events|
      invariant budget.Valid() && budget.allowance == allowance
      invariant budget.sent == |o.stdout| + |o.stderr| && Within(o, allowance)
      invariant Streamed(SILENT, allowance, events) == Streamed(o, allowance, events[i..])
    {
      assert events[i..][1..] == events[i + 1..];
      if o.limitHit { continue; }
      var e := events[i];
      var room := Share(budget.Room(), e.ready);
      var read := e.pending[..Min(room, |e.pending|)];
      var reservation := budget.Reserve(|read|);
      var chunk := read[..reservation.admitted];
      match e.pipe {
        case Stdout => o := o.(readOut := o.readOut + read, stdout := o.stdout + chunk);
        case Stderr => o := o.(readErr := o.readErr + read, stderr := o.stderr + chunk);
      }
      o := o.(limitHit := reservation.reachedLimit);
    }
    DeliveryIsExact(SILENT, allowance, events);
  }
}

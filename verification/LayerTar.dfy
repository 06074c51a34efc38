/**
 Streaming validation of a decompressed layer: the bounded, hashing reader over a source that may
 answer short or fail at any time, the check of the archive's tail, and the whole validation.

 What the source answers to each read is an input. The archive parser in between is a sequence of
 steps: buffers it asks to have filled, of whatever sizes, one read each, entries it finds, and
 complaints of its own. A read that it repeats is one more step.
 */
module LayerTar {
  import opened LayerPaths
  import opened Wrappers

  const BLOCK_BYTES := 512
  const TAIL_BUFFER := 8 * 1024

  predicate AllZero(bytes: Bytes) { forall i :: 0 <= i < |bytes| ==> bytes[i] == 0 }

  // The source

  /** The answer to one read: some bytes, an interruption, or a failure for good. */
  datatype Reply = Deliver(most: nat) | Interrupt | Break

  datatype ReadError = Interrupted | Failed

  /** A read that is answered with bytes gets at least one while any are left. */
  function Delivered(most: nat, available: nat): nat {
    Min(if most == 0 then 1 else most, available)
  }

  function Answer(reply: Reply, available: nat): (r: Result<nat, ReadError>)
    ensures r.Ok? <==> reply.Deliver?
    ensures r.Ok? ==> r.value <= available && (r.value == 0 <==> available == 0)
  {
    match reply
    case Deliver(most) => Ok(Delivered(most, available))
    case Interrupt => Err(Interrupted)
    case Break => Err(Failed)
  }

  function CountOf(r: Result<nat, ReadError>): nat { if r.Ok? then r.value else 0 }

  class Source {
    const bytes: Bytes
    const replies: nat -> Reply
    var taken: nat
    var asked: nat

    constructor (bytes: Bytes, replies: nat -> Reply)
      ensures this.bytes == bytes && this.replies == replies && taken == 0 && asked == 0
    {
      this.bytes, this.replies := bytes, replies;
      taken, asked := 0, 0;
    }

    ghost predicate Valid()
      reads this
    {
      taken <= |bytes|
    }

    /** Fills some of the first `limit` places of the buffer. */
    method Read(buffer: array<Byte>, limit: nat) returns (r: Result<nat, ReadError>)
      requires Valid() && limit <= buffer.Length
      modifies this, buffer
      ensures Valid() && asked == old(asked) + 1
      ensures r == Answer(replies(old(asked)), Min(limit, |bytes| - old(taken)))
      ensures taken == old(taken) + CountOf(r) && buffer[..CountOf(r)] == bytes[old(taken)..taken]
    {
      var reply := replies(asked);
      asked := asked + 1;
      match reply {
        case Interrupt => r := Err(Interrupted);
        case Break => r := Err(Failed);
        case Deliver(most) =>
          var count := Delivered(most, Min(limit, |bytes| - taken));
          forall i | 0 <= i < count { buffer[i] := bytes[taken + i]; }
          taken := taken + count;
          r := Ok(count);
      }
    }
  }

  // The bounded stream as a function

  /** What a stream is fed: the bytes of its source, its limit, and the replies from `first` on. */
  datatype Feed = Feed(whole: Bytes, maximum: nat, replies: nat -> Reply, first: nat)

  datatype Flow = Flow(
    taken: nat, total: nat, asked: nat, limitExceeded: bool, sourceFailed: bool)

  /** Nothing is taken but what is handed on, except for one byte beyond the limit. */
  predicate Sound(feed: Feed, f: Flow) {
    && f.total <= f.taken <= |feed.whole| && f.total <= feed.maximum
    && (!f.limitExceeded ==> f.taken == f.total)
    && (f.limitExceeded ==> f.total == feed.maximum < |feed.whole|)
  }

  function Start(feed: Feed): (f: Flow)
    ensures Sound(feed, f)
  {
    Flow(0, 0, feed.first, false, false)
  }

  /** One read into a buffer of that size. */
  function Fed(feed: Feed, f: Flow, size: nat): (Flow, Result<nat, ReadError>)
    requires Sound(feed, f)
  {
    var reply, left := feed.replies(f.asked), |feed.whole| - f.taken;
    if size == 0 then (f, Ok(0))
    else if f.total == feed.maximum then
      var probe := Answer(reply, Min(1, left));
      if probe.Ok? && probe.value > 0 then
        (Flow(f.taken + 1, f.total, f.asked + 1, true, f.sourceFailed), Err(Failed))
      else
        (Flow(f.taken, f.total, f.asked + 1, f.limitExceeded, f.sourceFailed || probe.Err?), probe)
    else
      var r := Answer(reply, Min(Min(feed.maximum - f.total, size), left));
      var n := CountOf(r);
      (Flow(f.taken + n, f.total + n, f.asked + 1, f.limitExceeded, f.sourceFailed || r.Err?), r)
  }

  lemma FedIsSound(feed: Feed, f: Flow, size: nat)
    requires Sound(feed, f)
    ensures
      var (next, r) := Fed(feed, f, size);
      && Sound(feed, next)
      && (r.Ok? ==> r.value <= size && next.total == f.total + r.value)
      && (next.limitExceeded && !f.limitExceeded ==> r == Err(Failed))
  {
  }

  function StreamError(f: Flow): Kind {
    if f.limitExceeded then LimitExceeded else if f.sourceFailed then Io else Integrity
  }

  // The stream with its state

  lemma ReadOn(bytes: Bytes, start: nat, total: nat, n: nat)
    requires start + total + n <= |bytes|
    ensures bytes[start..][..total] + bytes[start + total..start + total + n]
         == bytes[start..][..total + n]
    ensures bytes[start + total..start + total + n] == bytes[start..][total..total + n]
  {
  }

  /** Hands on at most `maximum` bytes of the source and hashes what it hands on. */
  class LayerStream {
    const source: Source
    const maximum: nat
    var hashed: Bytes
    var total: nat
    var limitExceeded: bool
    var sourceFailed: bool
    ghost const start: nat
    ghost const first: nat

    constructor (source: Source, maximum: nat)
      requires source.Valid()
      ensures Valid() && this.source == source && this.maximum == maximum
      ensures start == source.taken && first == source.asked
      ensures View() == Start(Supply())
    {
      this.source, this.maximum := source, maximum;
      hashed, total, limitExceeded, sourceFailed := [], 0, false, false;
      start, first := source.taken, source.asked;
    }

    ghost function Supply(): Feed
      requires start <= |source.bytes|
    {
      Feed(source.bytes[start..], maximum, source.replies, first)
    }

    ghost function View(): Flow
      requires start <= source.taken
      reads this, source
    {
      Flow(source.taken - start, total, source.asked, limitExceeded, sourceFailed)
    }

    /** What was hashed is what the source held, and the flags tell the truth. */
    ghost predicate Valid()
      reads this, source
    {
      && source.Valid() && start <= source.taken
      && Sound(Supply(), View())
      && hashed == Supply().whole[..total]
    }

    /** At the limit: one byte more tells a source that ends here from one that is longer. */
    method Probe() returns (r: Result<nat, ReadError>)
      requires Valid() && total == maximum
      modifies this`limitExceeded, this`sourceFailed, source
      ensures Valid()
      ensures forall size | size > 0 :: (View(), r) == Fed(Supply(), old(View()), size)
    {
      FedIsSound(Supply(), View(), 1);
      var probe := new Byte[1](_ => 0);
      r := source.Read(probe, 1);
      if r.Err? {
        sourceFailed := true;
      } else if r.value > 0 {
        limitExceeded := true;
        r := Err(Failed);
      }
    }

    /** Below the limit: as much as the buffer and the limit allow. */
    method Fill(buffer: array<Byte>) returns (r: Result<nat, ReadError>)
      requires Valid() && total < maximum && buffer.Length > 0
      modifies this`hashed, this`total, this`sourceFailed, source, buffer
      ensures Valid()
      ensures (View(), r) == Fed(Supply(), old(View()), buffer.Length)
      ensures r.Ok? ==>
        && r.value <= buffer.Length && total == old(total) + r.value
        && buffer[..r.value] == Supply().whole[old(total)..total]
    {
      ghost var feed, f := Supply(), View();
      FedIsSound(feed, f, buffer.Length);
      r := source.Read(buffer, Min(maximum - total, buffer.Length));
      assert r == Fed(feed, f, buffer.Length).1;
      if r.Err? {
        sourceFailed := true;
      } else {
        ReadOn(source.bytes, start, total, r.value);
        var chunk := buffer[..r.value];
        assert feed.whole[..total] + chunk == feed.whole[..total + r.value];
        hashed := hashed + chunk;
        total := total + r.value;
      }
      assert View() == Fed(feed, f, buffer.Length).0;
    }

    method Read(buffer: array<Byte>) returns (r: Result<nat, ReadError>)
      requires Valid()
      modifies this, source, buffer
      ensures Valid()
      ensures (View(), r) == Fed(Supply(), old(View()), buffer.Length)
      ensures r.Ok? ==>
        && r.value <= buffer.Length && total == old(total) + r.value
        && buffer[..r.value] == Supply().whole[old(total)..total]
    {
      if buffer.Length == 0 {
        r := Ok(0);
      } else if total == maximum {
        r := Probe();
      } else {
        r := Fill(buffer);
      }
    }

    function Error(): Kind
      reads this
    {
      if limitExceeded then LimitExceeded else if sourceFailed then Io else Integrity
    }
  }

  // The tail

  /** The verdict on a tail, read in one piece. */
  function TailVerdict(rest: Bytes, room: nat): (r: Result<(), Kind>)
    ensures r.Ok? <==>
      AllZero(rest) && |rest| <= room && |rest| >= BLOCK_BYTES && |rest| % BLOCK_BYTES == 0
  {
    if !AllZero(rest[..Min(room, |rest|)]) then Err(Integrity)
    else if |rest| > room then Err(LimitExceeded)
    else if |rest| < BLOCK_BYTES || |rest| % BLOCK_BYTES != 0 then Err(Integrity)
    else assert rest[..|rest|] == rest; Ok(())
  }

  /** One chunk of the tail, which must be zero. */
  function Chunk(feed: Feed, f: Flow, size: nat): (Flow, Result<nat, Kind>)
    requires Sound(feed, f)
  {
    FedIsSound(feed, f, size);
    var (next, count) := Fed(feed, f, size);
    if count.Err? then (next, Err(StreamError(next)))
    else if !AllZero(feed.whole[f.total..next.total]) then (next, Err(Integrity))
    else (next, Ok(count.value))
  }

  /** The tail read in chunks, after `tailBytes` zero bytes of it. */
  function Tailed(feed: Feed, f: Flow, tailBytes: nat): (Flow, Result<(), Kind>)
    requires Sound(feed, f)
    decreases |feed.whole| - f.total
  {
    FedIsSound(feed, f, TAIL_BUFFER);
    var (next, count) := Chunk(feed, f, TAIL_BUFFER);
    if count.Err? then (next, Err(count.error))
    else if count.value > 0 then Tailed(feed, next, tailBytes + count.value)
    else if tailBytes < BLOCK_BYTES || tailBytes % BLOCK_BYTES != 0 then (next, Err(Integrity))
    else (next, Ok(()))
  }

  lemma TailedStep(feed: Feed, f: Flow, tailBytes: nat, next: Flow, count: Result<nat, Kind>)
    requires Sound(feed, f) && (next, count) == Chunk(feed, f, TAIL_BUFFER)
    ensures Sound(feed, next) && (count.Ok? ==> next.total == f.total + count.value)
    ensures Tailed(feed, f, tailBytes) ==
      if count.Err? then (next, Err(count.error))
      else if count.value > 0 then Tailed(feed, next, tailBytes + count.value)
      else if tailBytes < BLOCK_BYTES || tailBytes % BLOCK_BYTES != 0 then (next, Err(Integrity))
      else (next, Ok(()))
  {
    FedIsSound(feed, f, TAIL_BUFFER);
  }

  /** The reads that drain what is left are all answered with bytes. */
  predicate Drains(replies: nat -> Reply, asked: nat, left: nat)
    decreases left
  {
    && replies(asked).Deliver?
    && (left > 0 ==>
          Drains(replies, asked + 1,
                 left - Delivered(replies(asked).most, Min(TAIL_BUFFER, left))))
  }

  /** A chunk after a zero prefix decides the verdict if it is not zero or meets the limit. */
  lemma ChunkDecides(rest: Bytes, room: nat, k: nat, n: nat)
    requires k + n <= Min(room, |rest|) && AllZero(rest[..k])
    ensures !AllZero(rest[k..k + n]) ==> TailVerdict(rest, room) == Err(Integrity)
    ensures AllZero(rest[k..k + n]) ==> AllZero(rest[..k + n])
    ensures k == room && |rest| > room ==> TailVerdict(rest, room) == Err(LimitExceeded)
  {
    assert rest[..k + n] == rest[..k] + rest[k..k + n];
    if !AllZero(rest[k..k + n]) {
      var i :| 0 <= i < n && rest[k..k + n][i] != 0;
      assert rest[..Min(room, |rest|)][k + i] != 0;
    }
  }

  /** What the next chunk after a zero prefix says about the verdict. */
  lemma ChunkIsRead(feed: Feed, from: nat, f: Flow, next: Flow, count: Result<nat, Kind>)
    requires Sound(feed, f) && !f.limitExceeded && from <= f.total
    requires AllZero(feed.whole[from..][..f.total - from])
    requires (next, count) == Chunk(feed, f, TAIL_BUFFER)
    ensures Sound(feed, next) && f.total <= next.total && next.asked == f.asked + 1
    ensures
      var verdict := TailVerdict(feed.whole[from..], feed.maximum - from);
      var tailBytes := f.total - from;
      if !feed.replies(f.asked).Deliver? then count == Err(Io)
      else if count.Err? then verdict == Err(count.error)
      else
        && !next.limitExceeded && next.total == f.total + count.value
        && AllZero(feed.whole[from..][..next.total - from])
        && (count.value == 0 ==>
              verdict == if tailBytes < BLOCK_BYTES || tailBytes % BLOCK_BYTES != 0
                         then Err(Integrity) else Ok(()))
  {
    FedIsSound(feed, f, TAIL_BUFFER);
    var rest, k, n := feed.whole[from..], f.total - from, next.total - f.total;
    assert rest[k..k + n] == feed.whole[f.total..next.total];
    ChunkDecides(rest, feed.maximum - from, k, n);
    if count == Ok(0) { assert rest[..k] == rest; }
  }

  /**
   Read in whatever chunks come, a tail has the verdict of the tail in one piece, unless a read
   fails, interrupted or not.
   */
  lemma {:induction false} TailIsVerdict(feed: Feed, from: nat, f: Flow)
    requires Sound(feed, f) && !f.limitExceeded && from <= f.total
    requires AllZero(feed.whole[from..][..f.total - from])
    ensures
      var (end, r) := Tailed(feed, f, f.total - from);
      && f.asked < end.asked
      && (forall i :: f.asked <= i < end.asked - 1 ==> feed.replies(i).Deliver?)
      && r == if feed.replies(end.asked - 1).Deliver?
              then TailVerdict(feed.whole[from..], feed.maximum - from) else Err(Io)
    decreases |feed.whole| - f.total
  {
    var (next, count) := Chunk(feed, f, TAIL_BUFFER);
    ChunkIsRead(feed, from, f, next, count);
    if count.Ok? && count.value > 0 { TailIsVerdict(feed, from, next); }
  }

  /** A chunk that is accepted, and one that is read of a source within the limit. */
  lemma ChunkDrains(feed: Feed, f: Flow, next: Flow, count: Result<nat, Kind>)
    requires Sound(feed, f) && !f.limitExceeded && (next, count) == Chunk(feed, f, TAIL_BUFFER)
    ensures Sound(feed, next) && next.asked == f.asked + 1
    ensures
      var left := |feed.whole| - f.total;
      && (count.Ok? ==>
            && !next.limitExceeded && next.total == f.total + count.value
            && feed.replies(f.asked).Deliver?
            && (count.value == 0 ==> left == 0 && |feed.whole| <= feed.maximum))
      && (count.Ok? && |feed.whole| <= feed.maximum ==>
            count.value == Delivered(feed.replies(f.asked).most, Min(TAIL_BUFFER, left)))
  {
    FedIsSound(feed, f, TAIL_BUFFER);
  }

  /** An accepted tail is within the limit and was drained. */
  lemma {:induction false} AcceptedTailDrains(feed: Feed, f: Flow, tailBytes: nat)
    requires Sound(feed, f) && !f.limitExceeded && Tailed(feed, f, tailBytes).1.Ok?
    ensures Drains(feed.replies, f.asked, |feed.whole| - f.total)
    ensures Tailed(feed, f, tailBytes).0.total == |feed.whole| <= feed.maximum
    decreases |feed.whole| - f.total
  {
    var (next, count) := Chunk(feed, f, TAIL_BUFFER);
    ChunkDrains(feed, f, next, count);
    if count.value > 0 { AcceptedTailDrains(feed, next, tailBytes + count.value); }
  }

  /** A tail within the limit that is drained does not end in a read that fails. */
  lemma {:induction false} DrainedTailIsDelivered(feed: Feed, f: Flow, tailBytes: nat)
    requires Sound(feed, f) && !f.limitExceeded && |feed.whole| <= feed.maximum
    requires Drains(feed.replies, f.asked, |feed.whole| - f.total)
    ensures f.asked < Tailed(feed, f, tailBytes).0.asked
    ensures feed.replies(Tailed(feed, f, tailBytes).0.asked - 1).Deliver?
    decreases |feed.whole| - f.total
  {
    var (next, count) := Chunk(feed, f, TAIL_BUFFER);
    ChunkDrains(feed, f, next, count);
    if count.Ok? && count.value > 0 {
      DrainedTailIsDelivered(feed, next, tailBytes + count.value);
    }
  }

  /** The bytes from `consumed` on are a good tail, and the reads from `asked` on drain it. */
  predicate TailIsGood(feed: Feed, asked: nat, consumed: nat)
    requires consumed <= Min(feed.maximum, |feed.whole|)
  {
    && TailVerdict(feed.whole[consumed..], feed.maximum - consumed).Ok?
    && Drains(feed.replies, asked, |feed.whole| - consumed)
  }

  /** A tail is accepted exactly when its verdict is good and every read delivers. */
  lemma TailAcceptedIff(feed: Feed, f: Flow)
    requires Sound(feed, f) && !f.limitExceeded
    ensures Tailed(feed, f, 0).1.Ok? <==> TailIsGood(feed, f.asked, f.total)
  {
    TailIsVerdict(feed, f.total, f);
    if Tailed(feed, f, 0).1.Ok? {
      AcceptedTailDrains(feed, f, 0);
    } else if TailIsGood(feed, f.asked, f.total) {
      DrainedTailIsDelivered(feed, f, 0);
    }
  }

  /** One chunk of the tail. */
  method ReadZeros(stream: LayerStream, buffer: array<Byte>) returns (r: Result<nat, Kind>)
    requires stream.Valid()
    modifies stream, stream.source, buffer
    ensures stream.Valid()
    ensures (stream.View(), r) == Chunk(stream.Supply(), old(stream.View()), buffer.Length)
  {
    var count := stream.Read(buffer);
    if count.Err? { return Err(stream.Error()); }
    if !AllZero(buffer[..count.value]) { return Err(Integrity); }
    r := Ok(count.value);
  }

  /** Reads the tail to its end in whatever chunks come. */
  method ValidateTail(stream: LayerStream) returns (r: Result<(), Kind>)
    requires stream.Valid()
    modifies stream, stream.source
    ensures stream.Valid()
    ensures (stream.View(), r) == Tailed(stream.Supply(), old(stream.View()), 0)
  {
    var buffer := new Byte[TAIL_BUFFER](_ => 0);
    var tailBytes: nat := 0;
    ghost var feed, all := stream.Supply(), Tailed(stream.Supply(), stream.View(), 0);
    while true
      invariant stream.Valid()
      invariant all == Tailed(feed, stream.View(), tailBytes)
      decreases |feed.whole| - stream.total
    {
      ghost var f := stream.View();
      var count := ReadZeros(stream, buffer);
      TailedStep(feed, f, tailBytes, stream.View(), count);
      if count.Err? { return Err(count.error); }
      if count.value == 0 { break; }
      tailBytes := tailBytes + count.value;
    }
    if tailBytes < BLOCK_BYTES || tailBytes % BLOCK_BYTES != 0 { return Err(Integrity); }
    r := Ok(());
  }

  // The whole validation

  /** What the archive parser does next; some of its reads it retries when interrupted. */
  datatype Step = Wants(size: nat, retries: bool) | Yields(entry: Entry) | Complains

  /** Why the steps alone are not accepted. */
  datatype Refusal = Complaint | BadEntry(kind: Kind)

  predicate Clean(steps: seq<Step>) { forall step <- steps :: !step.Complains? }

  function Entries(steps: seq<Step>): seq<Entry> {
    if steps == [] then []
    else if steps[0].Yields? then [steps[0].entry] + Entries(steps[1..])
    else Entries(steps[1..])
  }

  /** What the steps alone amount to: the first refused entry or complaint decides. */
  function StepsVerdict(p: Policy, steps: seq<Step>): Result<Policy, Refusal>
    decreases |steps|
  {
    if steps == [] then Ok(p)
    else
      match steps[0]
      case Wants(_, _) => StepsVerdict(p, steps[1..])
      case Complains => Err(Complaint)
      case Yields(entry) =>
        match Observed(p, entry)
        case Ok(next) => StepsVerdict(next, steps[1..])
        case Err(kind) => Err(BadEntry(kind))
  }

  /** The steps are accepted exactly when none is a complaint and all entries are accepted. */
  lemma {:induction false} StepsAcceptedIff(p: Policy, steps: seq<Step>)
    ensures StepsVerdict(p, steps).Ok? <==> Clean(steps) && ObservedAll(p, Entries(steps)).Ok?
    ensures StepsVerdict(p, steps).Ok? ==>
      StepsVerdict(p, steps).value == ObservedAll(p, Entries(steps)).value
    decreases |steps|
  {
    if steps != [] {
      var rest := steps[1..];
      assert steps == [steps[0]] + rest;
      match steps[0] {
        case Wants(_, _) => StepsAcceptedIff(p, rest);
        case Complains => assert steps[0] in steps;
        case Yields(entry) =>
          assert Entries(steps)[0] == entry && Entries(steps)[1..] == Entries(rest);
          if Observed(p, entry).Ok? { StepsAcceptedIff(Observed(p, entry).value, rest); }
      }
    }
  }

  /** The kind of error reported; a complaint after a failed read is put down to the source. */
  function RefusalKind(refusal: Refusal, failed: bool): Kind {
    match refusal
    case BadEntry(kind) => kind
    case Complaint => if failed then Io else Integrity
  }

  /** Where the entries loop stops, what it has observed by then, and why, unless at the end. */
  datatype Archive = Archive(flow: Flow, policy: Policy, error: Option<Kind>)

  /** The parser goes on after this answer to a read. */
  predicate GoesOn(count: Result<nat, ReadError>, retries: bool) {
    count.Ok? || (retries && count.error == Interrupted)
  }

  /** One step of the parser. */
  function Took(feed: Feed, f: Flow, p: Policy, step: Step): Archive
    requires Sound(feed, f)
  {
    match step
    case Complains => Archive(f, p, Some(StreamError(f)))
    case Yields(entry) =>
      (match Observed(p, entry)
       case Ok(next) => Archive(f, next, None)
       case Err(kind) => Archive(f, p, Some(kind)))
    case Wants(size, retries) =>
      var (next, count) := Fed(feed, f, size);
      Archive(next, p, if GoesOn(count, retries) then None else Some(StreamError(next)))
  }

  lemma TookIsSound(feed: Feed, f: Flow, p: Policy, step: Step)
    requires Sound(feed, f)
    ensures
      var one := Took(feed, f, p, step);
      && Sound(feed, one.flow)
      && (one.error == None && !f.limitExceeded ==> !one.flow.limitExceeded)
  {
    if step.Wants? { FedIsSound(feed, f, step.size); }
  }

  /** The entries loop: it stops at the first surfacing read, complaint or refused entry. */
  function Archived(feed: Feed, f: Flow, p: Policy, steps: seq<Step>): Archive
    requires Sound(feed, f)
    decreases |steps|
  {
    if steps == [] then Archive(f, p, None)
    else
      TookIsSound(feed, f, p, steps[0]);
      var one := Took(feed, f, p, steps[0]);
      if one.error.Some? then one else Archived(feed, one.flow, one.policy, steps[1..])
  }

  /** How many reads the steps make of the source. */
  function Reads(steps: seq<Step>): nat {
    if steps == [] then 0
    else (if steps[0].Wants? && steps[0].size > 0 then 1 else 0) + Reads(steps[1..])
  }

  /** Every read of the steps is answered with bytes, or interrupted where the parser retries. */
  predicate Tolerated(replies: nat -> Reply, asked: nat, steps: seq<Step>)
    decreases |steps|
  {
    steps == [] ||
    if steps[0].Wants? && steps[0].size > 0 then
      && (replies(asked).Deliver? || (replies(asked).Interrupt? && steps[0].retries))
      && Tolerated(replies, asked + 1, steps[1..])
    else Tolerated(replies, asked, steps[1..])
  }

  /** How much of the source is handed on after the steps, if all of them are taken. */
  function Consumed(feed: Feed, asked: nat, total: nat, steps: seq<Step>): (after: nat)
    requires total <= Min(feed.maximum, |feed.whole|)
    ensures total <= after <= Min(feed.maximum, |feed.whole|)
    decreases |steps|
  {
    if steps == [] then total
    else if steps[0].Wants? && steps[0].size > 0 then
      var room := Min(feed.maximum, |feed.whole|) - total;
      var count := match feed.replies(asked)
        case Deliver(most) => Delivered(most, Min(steps[0].size, room))
        case _ => 0;
      Consumed(feed, asked + 1, total + count, steps[1..])
    else Consumed(feed, asked, total, steps[1..])
  }

  /** Read to its end: every read tolerated, every entry accepted, so much consumed. */
  ghost predicate Complete(feed: Feed, f: Flow, p: Policy, steps: seq<Step>, a: Archive)
    requires Sound(feed, f)
  {
    && Tolerated(feed.replies, f.asked, steps) && StepsVerdict(p, steps) == Ok(a.policy)
    && Sound(feed, a.flow) && !a.flow.limitExceeded
    && a.flow.total == Consumed(feed, f.asked, f.total, steps)
    && a.flow.asked == f.asked + Reads(steps)
  }

  lemma {:induction false} CompleteArchive(feed: Feed, f: Flow, p: Policy, steps: seq<Step>)
    requires Sound(feed, f) && !f.limitExceeded && Archived(feed, f, p, steps).error == None
    ensures Complete(feed, f, p, steps, Archived(feed, f, p, steps))
    decreases |steps|
  {
    if steps != [] {
      TookIsSound(feed, f, p, steps[0]);
      var one := Took(feed, f, p, steps[0]);
      CompleteArchive(feed, one.flow, one.policy, steps[1..]);
    }
  }

  lemma ArchivedIsSound(feed: Feed, f: Flow, p: Policy, steps: seq<Step>)
    requires Sound(feed, f) && !f.limitExceeded
    ensures Archived(feed, f, p, steps).error == None ==>
      Sound(feed, Archived(feed, f, p, steps).flow)
  {
    if Archived(feed, f, p, steps).error == None { CompleteArchive(feed, f, p, steps); }
  }

  /** Within the limit, nothing else can stop an archive. */
  lemma {:induction false} ArchiveCompletes(feed: Feed, f: Flow, p: Policy, steps: seq<Step>)
    requires Sound(feed, f) && !f.limitExceeded && |feed.whole| <= feed.maximum
    requires Tolerated(feed.replies, f.asked, steps) && StepsVerdict(p, steps).Ok?
    ensures Archived(feed, f, p, steps).error == None
    decreases |steps|
  {
    if steps != [] {
      TookIsSound(feed, f, p, steps[0]);
      var one := Took(feed, f, p, steps[0]);
      if one.error == None { ArchiveCompletes(feed, one.flow, one.policy, steps[1..]); }
    }
  }

  /** Why an archive is refused: the last read failed, the limit, or what the steps amount to. */
  ghost predicate Refused(feed: Feed, f: Flow, p: Policy, steps: seq<Step>, a: Archive) {
    var verdict := StepsVerdict(p, steps);
    && f.asked <= a.flow.asked
    && (|| (f.asked < a.flow.asked && !feed.replies(a.flow.asked - 1).Deliver?
            && a.error == Some(Io))
        || (|feed.whole| > feed.maximum && a.error == Some(LimitExceeded))
        || (verdict.Err? && a.error == Some(RefusalKind(verdict.error, a.flow.sourceFailed))))
  }

  lemma {:induction false} ArchiveRefused(feed: Feed, f: Flow, p: Policy, steps: seq<Step>)
    requires Sound(feed, f) && !f.limitExceeded && Archived(feed, f, p, steps).error.Some?
    ensures Refused(feed, f, p, steps, Archived(feed, f, p, steps))
    decreases |steps|
  {
    TookIsSound(feed, f, p, steps[0]);
    var one := Took(feed, f, p, steps[0]);
    if one.error == None { ArchiveRefused(feed, one.flow, one.policy, steps[1..]); }
  }

  /** A read that fails for good always surfaces. */
  lemma {:induction false} BreakSurfaces(
    feed: Feed, f: Flow, p: Policy, steps: seq<Step>, i: nat)
    requires Sound(feed, f) && !f.limitExceeded
    requires f.asked <= i < Archived(feed, f, p, steps).flow.asked && feed.replies(i).Break?
    ensures Archived(feed, f, p, steps).error == Some(Io)
    decreases |steps|
  {
    TookIsSound(feed, f, p, steps[0]);
    var one := Took(feed, f, p, steps[0]);
    if one.error == None { BreakSurfaces(feed, one.flow, one.policy, steps[1..], i); }
  }

  method Take(
    stream: LayerStream, paths: PathPolicy, budget: ValidationBudget, step: Step)
    returns (r: Result<(), Kind>)
    requires stream.Valid()
    modifies stream, stream.source, paths, budget
    ensures stream.Valid()
    ensures
      var one := Took(stream.Supply(), old(stream.View()), old(paths.View(budget)), step);
      && stream.View() == one.flow && paths.View(budget) == one.policy
      && r == if one.error.Some? then Err(one.error.value) else Ok(())
  {
    match step {
      case Wants(size, retries) =>
        var buffer := new Byte[size](_ => 0);
        var count := stream.Read(buffer);
        r := if GoesOn(count, retries) then Ok(()) else Err(stream.Error());
      case Yields(entry) =>
        r := paths.Observe(entry, budget);
      case Complains =>
        r := Err(stream.Error());
    }
  }

  method ReadArchive(
    stream: LayerStream, paths: PathPolicy, budget: ValidationBudget, steps: seq<Step>)
    returns (r: Result<(), Kind>)
    requires stream.Valid()
    modifies stream, stream.source, paths, budget
    ensures stream.Valid()
    ensures
      var a := Archived(stream.Supply(), old(stream.View()), old(paths.View(budget)), steps);
      && stream.View() == a.flow && paths.View(budget) == a.policy
      && r == if a.error.Some? then Err(a.error.value) else Ok(())
  {
    ghost var feed := stream.Supply();
    ghost var all := Archived(feed, stream.View(), paths.View(budget), steps);
    assert steps[0..] == steps;
    for i := 0 to |steps|
      invariant stream.Valid()
      invariant all == Archived(feed, stream.View(), paths.View(budget), steps[i..])
    {
      assert steps[i..][1..] == steps[i + 1..];
      r := Take(stream, paths, budget, steps[i]);
      if r.Err? { return; }
    }
    r := Ok(());
  }

  datatype ValidatedLayerTar<D> = ValidatedLayerTar(
    diffId: D, expandedSize: nat, entryCount: nat)

  /** How a validation ends: the stream, the shared budget, and the entry count or an error. */
  datatype Validation = Validation(flow: Flow, budget: Counters, result: Result<nat, Kind>)

  /** After the archive the tail: where the stream ends, and what was observed or why not. */
  function ThenTail(feed: Feed, a: Archive): (Flow, Result<Policy, Kind>)
    requires a.error == None ==> Sound(feed, a.flow)
  {
    if a.error.Some? then (a.flow, Err(a.error.value))
    else
      var (end, tail) := Tailed(feed, a.flow, 0);
      (end, if tail.Ok? then Ok(a.policy) else Err(tail.error))
  }

  function Validated(feed: Feed, budget: Counters, steps: seq<Step>): Validation {
    var p := Policy({}, 0, budget);
    var a := Archived(feed, Start(feed), p, steps);
    ArchivedIsSound(feed, Start(feed), p, steps);
    var (end, r) := ThenTail(feed, a);
    Validation(end, a.policy.budget, if r.Ok? then Ok(r.value.count) else Err(r.error))
  }

  lemma StepsAdmissibleIff(p: Policy, steps: seq<Step>)
    requires WellFormed(p)
    ensures StepsVerdict(p, steps).Ok? <==> Clean(steps) && Admissible(p, Entries(steps))
    ensures StepsVerdict(p, steps).Ok? ==>
      StepsVerdict(p, steps).value.count == p.count + |Entries(steps)|
  {
    StepsAcceptedIff(p, steps);
    AcceptedIffAdmissible(p, Entries(steps));
    if StepsVerdict(p, steps).Ok? { AcceptanceIsCounted(p, Entries(steps)); }
  }

  /** The archive is read to its end and the tail accepted: what that means for the inputs. */
  lemma CompleteThenTail(feed: Feed, f: Flow, p: Policy, steps: seq<Step>, a: Archive)
    requires Sound(feed, f)
    requires a.error == None ==> Complete(feed, f, p, steps, a)
    requires
      && |feed.whole| <= feed.maximum
      && Tolerated(feed.replies, f.asked, steps) && StepsVerdict(p, steps).Ok?
      ==> a.error == None
    ensures
      var consumed := Consumed(feed, f.asked, f.total, steps);
      ThenTail(feed, a).1.Ok? <==>
        && Tolerated(feed.replies, f.asked, steps)
        && StepsVerdict(p, steps).Ok?
        && TailIsGood(feed, f.asked + Reads(steps), consumed)
  {
    if a.error == None { TailAcceptedIff(feed, a.flow); }
  }

  lemma AcceptedThenTail(feed: Feed, f: Flow, p: Policy, steps: seq<Step>)
    requires Sound(feed, f) && !f.limitExceeded
    ensures
      var a := Archived(feed, f, p, steps);
      var consumed := Consumed(feed, f.asked, f.total, steps);
      && (a.error == None ==> Sound(feed, a.flow))
      && (ThenTail(feed, a).1.Ok? <==>
            && Tolerated(feed.replies, f.asked, steps)
            && StepsVerdict(p, steps).Ok?
            && TailIsGood(feed, f.asked + Reads(steps), consumed))
  {
    var a := Archived(feed, f, p, steps);
    if a.error == None {
      CompleteArchive(feed, f, p, steps);
    } else if
      && |feed.whole| <= feed.maximum
      && Tolerated(feed.replies, f.asked, steps) && StepsVerdict(p, steps).Ok?
    {
      ArchiveCompletes(feed, f, p, steps);
    }
    CompleteThenTail(feed, f, p, steps, a);
  }

  lemma RefusedOrTail(feed: Feed, f: Flow, p: Policy, steps: seq<Step>, a: Archive)
    requires Sound(feed, f)
    requires if a.error == None then Complete(feed, f, p, steps, a)
             else Refused(feed, f, p, steps, a)
    requires ThenTail(feed, a).1.Err?
    ensures
      var (end, r) := ThenTail(feed, a);
      var consumed := Consumed(feed, f.asked, f.total, steps);
      || Refused(feed, f, p, steps, a.(flow := end, error := Some(r.error)))
      || (StepsVerdict(p, steps).Ok? && Err(r.error)
            == TailVerdict(feed.whole[consumed..], feed.maximum - consumed))
  {
    if a.error == None { TailIsVerdict(feed, a.flow.total, a.flow); }
  }

  /**
   Whatever buffers the parser asks to have filled and however the source answers, a layer
   validates exactly when every read of the parser is answered with bytes or interrupted where
   the parser retries, the parser does not complain, its entries are admissible, what follows
   the bytes it consumed is a zero tail of whole blocks within the limit, and the reads that
   drain the tail are all answered with bytes. All of it is about the inputs alone.
   */
  lemma ValidatesIff(feed: Feed, budget: Counters, steps: seq<Step>)
    requires WellFormed(Policy({}, 0, budget))
    ensures
      var v := Validated(feed, budget, steps);
      var consumed := Consumed(feed, feed.first, 0, steps);
      v.result.Ok? <==>
        && Tolerated(feed.replies, feed.first, steps)
        && Clean(steps)
        && Admissible(Policy({}, 0, budget), Entries(steps))
        && TailIsGood(feed, feed.first + Reads(steps), consumed)
  {
    var p, f := Policy({}, 0, budget), Start(feed);
    AcceptedThenTail(feed, f, p, steps);
    StepsAdmissibleIff(p, steps);
  }

  /** The result describes the whole source: all of it was handed on, and every entry counted. */
  lemma ValidatedIsWhole(feed: Feed, budget: Counters, steps: seq<Step>)
    requires WellFormed(Policy({}, 0, budget)) && Validated(feed, budget, steps).result.Ok?
    ensures
      var v := Validated(feed, budget, steps);
      v.result.value == |Entries(steps)| && v.flow.total == |feed.whole| <= feed.maximum
  {
    var p, f := Policy({}, 0, budget), Start(feed);
    CompleteArchive(feed, f, p, steps);
    StepsAdmissibleIff(p, steps);
    AcceptedTailDrains(feed, Archived(feed, f, p, steps).flow, 0);
  }

  /**
   Every refusal has its reason: the last read failed, the source is longer than the limit, the
   steps are refused for what they are, or the tail is.
   */
  lemma RefusedBecause(feed: Feed, budget: Counters, steps: seq<Step>)
    requires Validated(feed, budget, steps).result.Err?
    ensures
      var v := Validated(feed, budget, steps);
      var p, consumed := Policy({}, 0, budget), Consumed(feed, feed.first, 0, steps);
      || Refused(feed, Start(feed), p, steps, Archive(v.flow, p, Some(v.result.error)))
      || (StepsVerdict(p, steps).Ok? && Err(v.result.error)
            == TailVerdict(feed.whole[consumed..], feed.maximum - consumed))
  {
    var p, f := Policy({}, 0, budget), Start(feed);
    if Archived(feed, f, p, steps).error == None {
      CompleteArchive(feed, f, p, steps);
    } else {
      ArchiveRefused(feed, f, p, steps);
    }
    RefusedOrTail(feed, f, p, steps, Archived(feed, f, p, steps));
  }

  /** A read that fails for good always surfaces, as a failure of the source. */
  lemma BrokenReadIsIo(feed: Feed, budget: Counters, steps: seq<Step>, i: nat)
    requires feed.first <= i < Validated(feed, budget, steps).flow.asked
    requires feed.replies(i).Break?
    ensures Validated(feed, budget, steps).result == Err(Io)
  {
    var p, f := Policy({}, 0, budget), Start(feed);
    var a := Archived(feed, f, p, steps);
    if a.error == None { CompleteArchive(feed, f, p, steps); }
    if i < a.flow.asked {
      BreakSurfaces(feed, f, p, steps, i);
    } else {
      TailIsVerdict(feed, a.flow.total, a.flow);
    }
  }

  // The flag of the source

  /** The flag is raised exactly by a reply that is not a delivery. */
  ghost predicate Flagged(feed: Feed, f: Flow, end: Flow) {
    && f.asked <= end.asked
    && (end.sourceFailed <==>
          f.sourceFailed || exists i :: f.asked <= i < end.asked && !feed.replies(i).Deliver?)
  }

  lemma FedFlags(feed: Feed, f: Flow, size: nat, end: Flow)
    requires Sound(feed, f) && Flagged(feed, Fed(feed, f, size).0, end)
    ensures Flagged(feed, f, end)
  {
    assert feed.replies(f.asked).Deliver? || !feed.replies(f.asked).Deliver?;
  }

  lemma {:induction false} ArchiveFlags(feed: Feed, f: Flow, p: Policy, steps: seq<Step>)
    requires Sound(feed, f)
    ensures Flagged(feed, f, Archived(feed, f, p, steps).flow)
    decreases |steps|
  {
    if steps != [] {
      TookIsSound(feed, f, p, steps[0]);
      var one, all := Took(feed, f, p, steps[0]), Archived(feed, f, p, steps);
      if one.error == None { ArchiveFlags(feed, one.flow, one.policy, steps[1..]); }
      if steps[0].Wants? { FedFlags(feed, f, steps[0].size, all.flow); }
    }
  }

  lemma {:induction false} TailFlags(feed: Feed, f: Flow, tailBytes: nat)
    requires Sound(feed, f)
    ensures Flagged(feed, f, Tailed(feed, f, tailBytes).0)
    decreases |feed.whole| - f.total
  {
    FedIsSound(feed, f, TAIL_BUFFER);
    var (next, count) := Chunk(feed, f, TAIL_BUFFER);
    if count.Ok? && count.value > 0 { TailFlags(feed, next, tailBytes + count.value); }
    FedFlags(feed, f, TAIL_BUFFER, Tailed(feed, f, tailBytes).0);
  }

  /** However a validation ends, the source is flagged as failed exactly if some read failed. */
  lemma FlagTellsTheTruth(feed: Feed, budget: Counters, steps: seq<Step>)
    ensures
      var v := Validated(feed, budget, steps);
      v.flow.sourceFailed <==>
        exists i :: feed.first <= i < v.flow.asked && !feed.replies(i).Deliver?
  {
    var p, f := Policy({}, 0, budget), Start(feed);
    var a := Archived(feed, f, p, steps);
    ArchiveFlags(feed, f, p, steps);
    if a.error == None {
      CompleteArchive(feed, f, p, steps);
      TailFlags(feed, a.flow, 0);
    }
  }

  /** What is hashed is what was handed on: on success, the whole source. */
  method Validate<D>(
    source: Source, maximum: nat, budget: ValidationBudget, steps: seq<Step>, sha: Bytes -> D)
    returns (r: Result<ValidatedLayerTar<D>, Kind>)
    requires source.Valid()
    modifies source, budget
    ensures
      var whole := source.bytes[old(source.taken)..];
      var v := Validated(
        Feed(whole, maximum, source.replies, old(source.asked)), old(budget.View()), steps);
      && source.Valid() && source.asked == v.flow.asked
      && source.taken == old(source.taken) + v.flow.taken
      && budget.View() == v.budget
      && r == if v.result.Err? then Err(v.result.error)
              else Ok(ValidatedLayerTar(sha(whole), |whole|, v.result.value))
  {
    var stream := new LayerStream(source, maximum);
    var paths := new PathPolicy();
    ghost var feed, before := stream.Supply(), paths.View(budget);
    var archive := ReadArchive(stream, paths, budget, steps);
    if archive.Err? { return Err(archive.error); }
    CompleteArchive(feed, Start(feed), before, steps);
    ghost var middle := stream.View();
    var tail := ValidateTail(stream);
    if tail.Err? { return Err(tail.error); }
    AcceptedTailDrains(feed, middle, 0);
    assert feed.whole[..|feed.whole|] == feed.whole;
    r := Ok(ValidatedLayerTar(sha(stream.hashed), stream.total, paths.entryCount));
  }
}

/**
 The authenticated record channel between the host and the guest.

 Each endpoint numbers the records it sends, encrypts them under the Noise transport nonce of
 the same number, and frames them with an exact length. The network is arbitrary: whatever
 bytes it delivers, in whatever order, reach `Open`.

 The authenticated cipher is ideal: an endpoint decrypts a ciphertext under a nonce exactly
 when its peer produced that ciphertext under that nonce. What the cipher maps a plaintext to
 is otherwise unconstrained, apart from the sixteen-byte tag.
 */
module RecordChannel {
  import opened Wrappers

  const OUTER_HEADER := 2
  const INNER_HEADER := 8 + 2
  const AEAD_TAG := 16
  const NOISE_MESSAGE_MAX := 65_535
  const MIN_RECORD_CIPHERTEXT := AEAD_TAG + INNER_HEADER
  const MAX_RECORD_PAYLOAD := NOISE_MESSAGE_MAX - AEAD_TAG - INNER_HEADER
  const U16_MAX := 0xFFFF

  datatype Error = SessionPoisoned | RecordTooLarge | SessionExhausted | PeerRecordRejected

  // Big-endian integers

  function ToBigEndian(n: nat, width: nat): (b: Bytes)
    ensures |b| == width
  {
    if width == 0 then [] else ToBigEndian(n / 256, width - 1) + [n % 256]
  }

  function FromBigEndian(b: Bytes): nat {
    if b == [] then 0 else 256 * FromBigEndian(b[..|b| - 1]) + b[|b| - 1]
  }

  lemma {:induction false} BigEndianRoundTrip(n: nat, width: nat)
    requires n < Pow256(width)
    ensures FromBigEndian(ToBigEndian(n, width)) == n
  {
    if width > 0 {
      BigEndianRoundTrip(n / 256, width - 1);
      var b := ToBigEndian(n, width);
      assert b[..width - 1] == ToBigEndian(n / 256, width - 1);
    }
  }

  lemma WordWidths()
    ensures Pow256(2) == U16_MAX + 1
    ensures Pow256(8) == U64_MAX + 1
  {
    assert Pow256(4) == 0x1_0000_0000;
  }

  // Framing

  function InnerRecord(sequence: nat, payload: Bytes): (plaintext: Bytes)
    ensures |plaintext| == INNER_HEADER + |payload|
  {
    ToBigEndian(sequence, 8) + ToBigEndian(|payload|, 2) + payload
  }

  function Frame(ciphertext: Bytes): (framed: Bytes)
    ensures |framed| == OUTER_HEADER + |ciphertext|
  {
    ToBigEndian(|ciphertext|, 2) + ciphertext
  }

  function ExactCiphertext(framed: Bytes): Option<Bytes> {
    if |framed| < OUTER_HEADER then None
    else
      var length := FromBigEndian(framed[..OUTER_HEADER]);
      if length < MIN_RECORD_CIPHERTEXT || |framed| != OUTER_HEADER + length then None
      else Some(framed[OUTER_HEADER..])
  }

  function ExactPlaintext(expectedSequence: nat, plaintext: Bytes): Option<Bytes> {
    if |plaintext| < INNER_HEADER then None
    else
      var sequence := FromBigEndian(plaintext[..8]);
      var payloadLength := FromBigEndian(plaintext[8..INNER_HEADER]);
      if sequence != expectedSequence || |plaintext| != INNER_HEADER + payloadLength then None
      else Some(plaintext[INNER_HEADER..])
  }

  /** Two bytes of header are determined by the value they encode. */
  lemma TwoByteHeader(b: Bytes)
    requires |b| == 2
    ensures ToBigEndian(FromBigEndian(b), 2) == b
    ensures FromBigEndian(b) <= U16_MAX
  {
    assert b[..1][..0] == [];
    assert FromBigEndian(b[..1]) == b[0];
    var n := FromBigEndian(b);
    assert n / 256 == b[0] && n % 256 == b[1];
    assert ToBigEndian(b[0], 1) == ToBigEndian(0, 0) + [b[0]];
  }

  /** The outer parser accepts exactly the frames of ciphertexts whose length a record may have. */
  lemma ExactCiphertextInvertsFrame(framed: Bytes, ciphertext: Bytes)
    ensures ExactCiphertext(framed) == Some(ciphertext)
       <==> MIN_RECORD_CIPHERTEXT <= |ciphertext| <= U16_MAX && framed == Frame(ciphertext)
  {
    if |framed| >= OUTER_HEADER {
      TwoByteHeader(framed[..OUTER_HEADER]);
      assert framed == framed[..OUTER_HEADER] + framed[OUTER_HEADER..];
    }
    if |ciphertext| <= U16_MAX {
      WordWidths();
      BigEndianRoundTrip(|ciphertext|, 2);
      assert Frame(ciphertext)[..OUTER_HEADER] == ToBigEndian(|ciphertext|, 2);
      assert Frame(ciphertext)[OUTER_HEADER..] == ciphertext;
    }
  }

  /** The inner parser recovers the payload of an honest record, at its own number only. */
  lemma ExactPlaintextInvertsInner(expected: nat, sequence: nat, payload: Bytes)
    requires sequence <= U64_MAX && |payload| <= U16_MAX
    ensures ExactPlaintext(expected, InnerRecord(sequence, payload))
         == if expected == sequence then Some(payload) else None
  {
    WordWidths();
    BigEndianRoundTrip(sequence, 8);
    BigEndianRoundTrip(|payload|, 2);
    var plaintext := InnerRecord(sequence, payload);
    assert plaintext[..8] == ToBigEndian(sequence, 8);
    assert plaintext[8..INNER_HEADER] == ToBigEndian(|payload|, 2);
    assert plaintext[INNER_HEADER..] == payload;
  }

  // The ideal cipher of one direction

  type Cipher = f: (nat, Bytes) -> Bytes | forall n, p :: |f(n, p)| == |p| + AEAD_TAG
    witness (n: nat, p: Bytes) => p + seq(AEAD_TAG, _ => 0 as Byte)

  /** `log[n]` is the plaintext the sending transport encrypted under nonce `n`. */
  datatype Aead = Aead(cipher: Cipher, log: seq<Bytes>) {
    function Decrypt(nonce: nat, ciphertext: Bytes): Option<Bytes> {
      if nonce < |log| && ciphertext == cipher(nonce, log[nonce]) then Some(log[nonce]) else None
    }
  }

  // One session, as a value

  datatype Session = Session(
    nextSend: nat, nextReceive: nat, poisoned: bool, sendNonce: nat, receiveNonce: nat)

  const FRESH := Session(0, 0, false, 0, 0)

  datatype Sealing = Sealing(session: Session, outbound: Aead, result: Result<Bytes, Error>)

  /** What sealing `payload` does to a session and to its outbound cipher. */
  function SealEffect(s: Session, outbound: Aead, payload: Bytes): Sealing {
    if s.poisoned then Sealing(s, outbound, Err(SessionPoisoned))
    else if |payload| > MAX_RECORD_PAYLOAD then Sealing(s, outbound, Err(RecordTooLarge))
    else if s.nextSend >= U64_MAX then Sealing(s, outbound, Err(SessionExhausted))
    else
      var plaintext := InnerRecord(s.nextSend, payload);
      if s.sendNonce >= U64_MAX || |plaintext| + AEAD_TAG > NOISE_MESSAGE_MAX
      then Sealing(s, outbound, Err(SessionExhausted))
      else Sealing(
        s.(nextSend := s.nextSend + 1, sendNonce := s.sendNonce + 1),
        outbound.(log := outbound.log + [plaintext]),
        Ok(Frame(outbound.cipher(s.sendNonce, plaintext))))
  }

  datatype Opening = Opening(session: Session, result: Result<Bytes, Error>)

  function OpenOnceEffect(s: Session, inbound: Aead, framed: Bytes): (Session, Option<Bytes>) {
    match ExactCiphertext(framed)
    case None => (s, None)
    case Some(ciphertext) =>
      if s.receiveNonce >= U64_MAX then (s, None)
      else
        match inbound.Decrypt(s.receiveNonce, ciphertext)
        case None => (s, None)
        case Some(plaintext) =>
          var advanced := s.(receiveNonce := s.receiveNonce + 1);
          match ExactPlaintext(s.nextReceive, plaintext)
          case None => (advanced, None)
          case Some(payload) =>
            if s.nextReceive >= U64_MAX then (advanced, None)
            else (advanced.(nextReceive := s.nextReceive + 1), Some(payload))
  }

  /** What opening the delivered bytes `framed` does to a session. */
  function OpenEffect(s: Session, inbound: Aead, framed: Bytes): Opening {
    if s.poisoned then Opening(s, Err(SessionPoisoned))
    else
      var (after, outcome) := OpenOnceEffect(s, inbound, framed);
      match outcome
      case Some(payload) => Opening(after, Ok(payload))
      case None => Opening(after.(poisoned := true), Err(PeerRecordRejected))
  }

  // The session object

  /** The cipher of one direction, written by its sender and consulted by its receiver. */
  class Direction {
    const cipher: Cipher
    var log: seq<Bytes>

    constructor (cipher: Cipher)
      ensures this.cipher == cipher && log == []
    {
      this.cipher := cipher;
      log := [];
    }

    ghost function View(): Aead
      reads this
    {
      Aead(cipher, log)
    }
  }

  class AuthenticatedSession {
    const outbound: Direction
    const inbound: Direction
    var nextSend: nat
    var nextReceive: nat
    var poisoned: bool
    var sendNonce: nat
    var receiveNonce: nat

    constructor (outbound: Direction, inbound: Direction)
      ensures this.outbound == outbound && this.inbound == inbound
      ensures View() == FRESH
    {
      this.outbound := outbound;
      this.inbound := inbound;
      nextSend, nextReceive, poisoned := 0, 0, false;
      sendNonce, receiveNonce := 0, 0;
    }

    ghost function View(): Session
      reads this
    {
      Session(nextSend, nextReceive, poisoned, sendNonce, receiveNonce)
    }

    /** The Noise transport's encryption of one message; `None` when it refuses. */
    method WriteMessage(plaintext: Bytes) returns (ciphertext: Option<Bytes>)
      modifies this`sendNonce, outbound
      ensures
        if old(sendNonce) >= U64_MAX || |plaintext| + AEAD_TAG > NOISE_MESSAGE_MAX
        then ciphertext == None && sendNonce == old(sendNonce) && outbound.log == old(outbound.log)
        else
          && ciphertext == Some(outbound.cipher(old(sendNonce), plaintext))
          && sendNonce == old(sendNonce) + 1
          && outbound.log == old(outbound.log) + [plaintext]
    {
      if sendNonce >= U64_MAX || |plaintext| + AEAD_TAG > NOISE_MESSAGE_MAX {
        return None;
      }
      ciphertext := Some(outbound.cipher(sendNonce, plaintext));
      outbound.log := outbound.log + [plaintext];
      sendNonce := sendNonce + 1;
    }

    /** The Noise transport's decryption of one message; a refused message leaves the nonce. */
    method ReadMessage(ciphertext: Bytes) returns (plaintext: Option<Bytes>)
      modifies this`receiveNonce
      ensures plaintext == if old(receiveNonce) >= U64_MAX then None
                           else inbound.View().Decrypt(old(receiveNonce), ciphertext)
      ensures receiveNonce == old(receiveNonce) + (if plaintext.Some? then 1 else 0)
    {
      if receiveNonce >= U64_MAX || receiveNonce >= |inbound.log|
         || ciphertext != inbound.cipher(receiveNonce, inbound.log[receiveNonce]) {
        return None;
      }
      plaintext := Some(inbound.log[receiveNonce]);
      receiveNonce := receiveNonce + 1;
    }

    method Seal(payload: Bytes) returns (framed: Result<Bytes, Error>)
      modifies this`nextSend, this`sendNonce, outbound
      ensures Sealing(View(), outbound.View(), framed)
           == SealEffect(old(View()), old(outbound.View()), payload)
    {
      if poisoned { return Err(SessionPoisoned); }
      if |payload| > MAX_RECORD_PAYLOAD { return Err(RecordTooLarge); }
      if nextSend >= U64_MAX { return Err(SessionExhausted); }
      var following := nextSend + 1;
      if |payload| > U16_MAX { return Err(RecordTooLarge); }
      var plaintext := ToBigEndian(nextSend, 8);
      plaintext := plaintext + ToBigEndian(|payload|, 2);
      plaintext := plaintext + payload;
      var ciphertext := WriteMessage(plaintext);
      if ciphertext.None? { return Err(SessionExhausted); }
      if |ciphertext.value| > U16_MAX { return Err(RecordTooLarge); }
      framed := Ok(ToBigEndian(|ciphertext.value|, 2) + ciphertext.value);
      nextSend := following;
    }

    method Open(framed: Bytes) returns (payload: Result<Bytes, Error>)
      modifies this`nextReceive, this`receiveNonce, this`poisoned
      ensures Opening(View(), payload)
           == OpenEffect(old(View()), old(inbound.View()), framed)
    {
      if poisoned { return Err(SessionPoisoned); }
      var outcome := OpenOnce(framed);
      if outcome.Some? {
        payload := Ok(outcome.value);
      } else {
        poisoned := true;
        payload := Err(PeerRecordRejected);
      }
    }

    method OpenOnce(framed: Bytes) returns (payload: Option<Bytes>)
      modifies this`nextReceive, this`receiveNonce
      ensures (View(), payload)
           == OpenOnceEffect(old(View()), old(inbound.View()), framed)
    {
      var ciphertext := ExactCiphertext(framed);
      if ciphertext.None? { return None; }
      var plaintext := ReadMessage(ciphertext.value);
      if plaintext.None? { return None; }
      payload := ExactPlaintext(nextReceive, plaintext.value);
      if payload.None? { return None; }
      if nextReceive >= U64_MAX { return None; }
      nextReceive := nextReceive + 1;
    }
  }

  // Whole runs of two endpoints

  /** One endpoint with the history a run gives it: what it sealed, framed and accepted. */
  datatype Endpoint = Endpoint(
    session: Session,
    outbound: Aead,
    sealed: seq<Bytes>,
    frames: seq<Bytes>,
    accepted: seq<Bytes>)

  datatype World = World(host: Endpoint, guest: Endpoint)

  datatype Side = Host | Guest

  /** The network is part of `Deliver`: it may carry any bytes at all. */
  datatype Event = SealAt(side: Side, payload: Bytes) | DeliverTo(side: Side, framed: Bytes)

  function Start(cipher: Cipher): Endpoint {
    Endpoint(FRESH, Aead(cipher, []), [], [], [])
  }

  function AfterSeal(me: Endpoint, payload: Bytes): Endpoint {
    var step := SealEffect(me.session, me.outbound, payload);
    var next := me.(session := step.session, outbound := step.outbound);
    match step.result
    case Ok(framed) => next.(sealed := me.sealed + [payload], frames := me.frames + [framed])
    case Err(_) => next
  }

  function AfterOpen(me: Endpoint, peer: Endpoint, framed: Bytes): Endpoint {
    var step := OpenEffect(me.session, peer.outbound, framed);
    var next := me.(session := step.session);
    match step.result
    case Ok(payload) => next.(accepted := me.accepted + [payload])
    case Err(_) => next
  }

  function Step(w: World, event: Event): World {
    match event
    case SealAt(Host, payload) => w.(host := AfterSeal(w.host, payload))
    case SealAt(Guest, payload) => w.(guest := AfterSeal(w.guest, payload))
    case DeliverTo(Host, framed) => w.(host := AfterOpen(w.host, w.guest, framed))
    case DeliverTo(Guest, framed) => w.(guest := AfterOpen(w.guest, w.host, framed))
  }

  function Run(w: World, events: seq<Event>): World
    decreases |events|
  {
    if events == [] then w else Run(Step(w, events[0]), events[1..])
  }

  ghost predicate Reachable(w: World) {
    exists host: Cipher, guest: Cipher, events ::
      w == Run(World(Start(host), Start(guest)), events)
  }

  ghost predicate HonestRecord(sender: Endpoint, i: nat)
    requires i < |sender.sealed| && |sender.sealed| == |sender.frames| == |sender.outbound.log|
  {
    && |sender.sealed[i]| <= MAX_RECORD_PAYLOAD
    && sender.outbound.log[i] == InnerRecord(i, sender.sealed[i])
    && sender.frames[i] == Frame(sender.outbound.cipher(i, sender.outbound.log[i]))
  }

  /** Everything true of one direction in every run. */
  ghost predicate DirectionInv(sender: Endpoint, receiver: Endpoint) {
    && sender.session.nextSend == sender.session.sendNonce == |sender.outbound.log|
    && |sender.sealed| == |sender.frames| == |sender.outbound.log| <= U64_MAX
    && (forall i :: 0 <= i < |sender.sealed| ==> HonestRecord(sender, i))
    && receiver.session.nextReceive == |receiver.accepted| <= |sender.sealed|
    && (!receiver.session.poisoned ==> receiver.session.receiveNonce == |receiver.accepted|)
    && receiver.accepted == sender.sealed[..|receiver.accepted|]
  }

  ghost predicate Inv(w: World) {
    DirectionInv(w.host, w.guest) && DirectionInv(w.guest, w.host)
  }

  lemma SealKeepsDirection(me: Endpoint, peer: Endpoint, payload: Bytes)
    requires DirectionInv(me, peer) && DirectionInv(peer, me)
    ensures DirectionInv(AfterSeal(me, payload), peer)
    ensures DirectionInv(peer, AfterSeal(me, payload))
  {
    var next := AfterSeal(me, payload);
    forall i | 0 <= i < |next.sealed| ensures HonestRecord(next, i) {
      if i < |me.sealed| { assert HonestRecord(me, i); }
    }
    assert next.sealed[..|peer.accepted|] == me.sealed[..|peer.accepted|];
  }

  /**
   A record is accepted exactly when it is, byte for byte, the next frame the peer produced:
   an altered, truncated, replayed, reordered or reflected record is rejected.
   */
  lemma OpenAcceptsExactlyTheNextFrame(me: Endpoint, peer: Endpoint, framed: Bytes)
    requires DirectionInv(peer, me) && !me.session.poisoned
    ensures
      var next := |me.accepted|;
      var outcome := OpenEffect(me.session, peer.outbound, framed);
      if next < |peer.frames| && framed == peer.frames[next]
      then outcome.result == Ok(peer.sealed[next]) && !outcome.session.poisoned
      else outcome.result == Err(PeerRecordRejected) && outcome.session.poisoned
  {
    var n := |me.accepted|;
    if n < |peer.sealed| {
      assert HonestRecord(peer, n);
      var ciphertext := peer.outbound.cipher(n, peer.outbound.log[n]);
      ExactPlaintextInvertsInner(n, n, peer.sealed[n]);
      ExactCiphertextInvertsFrame(framed, ciphertext);
    }
  }

  lemma OpenKeepsDirection(me: Endpoint, peer: Endpoint, framed: Bytes)
    requires DirectionInv(me, peer) && DirectionInv(peer, me)
    ensures DirectionInv(AfterOpen(me, peer, framed), peer)
    ensures DirectionInv(peer, AfterOpen(me, peer, framed))
  {
    var next := AfterOpen(me, peer, framed);
    forall i | 0 <= i < |next.sealed| ensures HonestRecord(next, i) {
      assert HonestRecord(me, i);
    }
    if !me.session.poisoned {
      OpenAcceptsExactlyTheNextFrame(me, peer, framed);
    }
  }

  lemma {:induction false} InvHolds(w: World, events: seq<Event>)
    requires Inv(w)
    ensures Inv(Run(w, events))
    decreases |events|
  {
    if events != [] {
      match events[0] {
        case SealAt(Host, payload) => SealKeepsDirection(w.host, w.guest, payload);
        case SealAt(Guest, payload) => SealKeepsDirection(w.guest, w.host, payload);
        case DeliverTo(Host, framed) => OpenKeepsDirection(w.host, w.guest, framed);
        case DeliverTo(Guest, framed) => OpenKeepsDirection(w.guest, w.host, framed);
      }
      InvHolds(Step(w, events[0]), events[1..]);
    }
  }

  /**
   Safety of every run: whatever is sealed, dropped, replayed, reordered or altered, each side
   has accepted a prefix of what the other sealed.
   */
  lemma AcceptedIsPrefixOfSealed(w: World)
    requires Reachable(w)
    ensures Inv(w)
    ensures w.guest.accepted <= w.host.sealed
    ensures w.host.accepted <= w.guest.sealed
  {
    var host: Cipher, guest: Cipher, events :|
      w == Run(World(Start(host), Start(guest)), events);
    InvHolds(World(Start(host), Start(guest)), events);
  }

  function At(w: World, side: Side): Endpoint {
    if side == Host then w.host else w.guest
  }

  function Other(side: Side): Side {
    if side == Host then Guest else Host
  }

  function Deliveries(side: Side, frames: seq<Bytes>): seq<Event> {
    seq(|frames|, i requires 0 <= i < |frames| => DeliverTo(side, frames[i]))
  }

  /** Delivering the next outstanding frame hands over exactly its payload. */
  lemma NextFrameIsAccepted(w: World, side: Side)
    requires Inv(w) && !At(w, side).session.poisoned
    requires |At(w, side).accepted| < |At(w, Other(side)).sealed|
    ensures
      var (me, peer) := (At(w, side), At(w, Other(side)));
      var n := |me.accepted|;
      var next := Step(w, DeliverTo(side, peer.frames[n]));
      && Inv(next) && !At(next, side).session.poisoned
      && At(next, side).accepted == me.accepted + [peer.sealed[n]]
      && At(next, Other(side)) == peer
  {
    var (me, peer) := (At(w, side), At(w, Other(side)));
    OpenAcceptsExactlyTheNextFrame(me, peer, peer.frames[|me.accepted|]);
    OpenKeepsDirection(me, peer, peer.frames[|me.accepted|]);
  }

  /**
   Progress in every run: delivering the outstanding frames untouched to a side that has not
   rejected anything hands it every payload its peer sealed.
   */
  lemma {:induction false} UndisturbedDeliveryAcceptsAll(w: World, side: Side)
    requires Inv(w) && !At(w, side).session.poisoned
    ensures
      var (me, peer) := (At(w, side), At(w, Other(side)));
      var done := Run(w, Deliveries(side, peer.frames[|me.accepted|..]));
      && At(done, side).accepted == peer.sealed
      && !At(done, side).session.poisoned
      && At(done, Other(side)) == peer
    decreases |At(w, Other(side)).sealed| - |At(w, side).accepted|
  {
    var (me, peer) := (At(w, side), At(w, Other(side)));
    var n := |me.accepted|;
    if n < |peer.sealed| {
      var events := Deliveries(side, peer.frames[n..]);
      NextFrameIsAccepted(w, side);
      assert peer.frames[n..][1..] == peer.frames[n + 1..];
      assert events[1..] == Deliveries(side, peer.frames[n..][1..]);
      UndisturbedDeliveryAcceptsAll(Step(w, events[0]), side);
    }
  }

  /**
   The first rejected record ends the session at that side: from then on nothing is sealed,
   nothing is accepted and the side never recovers, whatever happens next.
   */
  lemma {:induction false} PoisonIsPermanent(w: World, side: Side, events: seq<Event>)
    requires At(w, side).session.poisoned
    ensures At(Run(w, events), side) == At(w, side)
    ensures forall payload ::
      SealEffect(At(w, side).session, At(w, side).outbound, payload).result == Err(SessionPoisoned)
    ensures forall inbound, framed ::
      OpenEffect(At(w, side).session, inbound, framed).result == Err(SessionPoisoned)
    decreases |events|
  {
    if events != [] {
      PoisonIsPermanent(Step(w, events[0]), side, events[1..]);
    }
  }

  /**
   In every run the record sealed next carries the count of records sealed before it, as its
   number and as its nonce, and never the reserved 2^64 - 1. A payload is refused only for the
   three reasons the sender checks first; the later length conversions cannot fail.
   */
  lemma SealUsesTheNextNumber(w: World, side: Side, payload: Bytes)
    requires Reachable(w)
    ensures
      var me := At(w, side);
      var step := SealEffect(me.session, me.outbound, payload);
      var n := |me.sealed|;
      if me.session.poisoned then step.result == Err(SessionPoisoned)
      else if |payload| > MAX_RECORD_PAYLOAD then step.result == Err(RecordTooLarge)
      else if n == U64_MAX then step.result == Err(SessionExhausted)
      else
        && n < U64_MAX
        && me.session.sendNonce == n
        && step.result == Ok(Frame(me.outbound.cipher(n, InnerRecord(n, payload))))
        && |step.result.value| - OUTER_HEADER <= U16_MAX
        && step.outbound.log == me.outbound.log + [InnerRecord(n, payload)]
  {
    AcceptedIsPrefixOfSealed(w);
  }
}

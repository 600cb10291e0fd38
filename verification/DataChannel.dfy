/**
 One direction of one data-plane session: a sender, an adversarial network and a receiver
 (internal/dataplane/session.go, the Send functions and the receive loops).

 The AEAD under the direction's key is ideal: a table of everything sealed with it. Opening
 succeeds exactly on an entry with the same nonce, ciphertext and additional data. Ciphertexts
 are arbitrary byte strings of the right length, and the network delivers arbitrary bytes.
 */
module DataChannel {
  import opened Words
  import opened BigEndian
  import opened PacketCodec
  import opened ReplayWindow

  const TAG_SIZE := 16
  const SEQUENCE_LIMIT := 0x1_0000_0000_0000_0000

  /** An entry of the ideal AEAD. The origin is a model annotation: the adapter read the plaintext came from. */
  datatype Sealed = Sealed(packet: Packet, plaintext: bytes, origin: Option<nat>)

  datatype Output = Output(kind: byte, number: nat, plaintext: bytes, origin: Option<nat>)

  datatype Channel = Channel(session: u64, sends: nat, table: seq<Sealed>, history: History, outputs: seq<Output>)

  datatype Event =
    | SendEvent(kind: byte, source: u64, destination: u64, plaintext: bytes, ciphertext: bytes, origin: Option<nat>)
    | DeliverEvent(datagram: bytes)

  /** The AEAD nonce: the low half of the session number, then the sequence number. */
  function Nonce(session: u64, sequence: u64): bytes {
    BigEndian.Encode(session % 0x1_0000_0000, 4) + BigEndian.Encode(sequence, 8)
  }

  function New(session: u64): Channel {
    Channel(session, 0, [], [], [])
  }

  /** The sequence number taken by the n-th send: a 64-bit counter that wraps around. */
  function Sequence(n: nat): u64 {
    n % SEQUENCE_LIMIT
  }

  function NextPacket(c: Channel, kind: byte, source: u64, destination: u64, ciphertext: bytes): Packet {
    Packet(kind, 0, 0, c.session, source, destination, Sequence(c.sends + 1), ciphertext)
  }

  /** A send takes a number even when the packet turns out too large to encode. */
  function Send(c: Channel, kind: byte, source: u64, destination: u64, plaintext: bytes, ciphertext: bytes,
                origin: Option<nat>): Channel
  {
    if |ciphertext| != |plaintext| + TAG_SIZE then c
    else if |ciphertext| > MAX_PAYLOAD then c.(sends := c.sends + 1)
    else c.(sends := c.sends + 1,
            table := c.table + [Sealed(NextPacket(c, kind, source, destination, ciphertext), plaintext, origin)])
  }

  predicate Opens(s: Sealed, nonce: bytes, ciphertext: bytes, header: bytes) {
    && |s.packet.payload| <= MAX_PAYLOAD
    && Nonce(s.packet.sessionID, s.packet.sequence) == nonce
    && s.packet.payload == ciphertext
    && Header(s.packet) == header
  }

  function AeadOpen(table: seq<Sealed>, nonce: bytes, ciphertext: bytes, header: bytes): (r: Option<Sealed>)
    ensures r.Some? ==> r.value in table && Opens(r.value, nonce, ciphertext, header)
    ensures r.None? ==> forall s :: s in table ==> !Opens(s, nonce, ciphertext, header)
  {
    if table == [] then None
    else if Opens(table[0], nonce, ciphertext, header) then Some(table[0])
    else AeadOpen(table[1..], nonce, ciphertext, header)
  }

  /** A datagram that reaches openPacket for this session; anything else leaves the channel alone. */
  function Deliver(c: Channel, datagram: bytes): Channel {
    var parsed := ParsePacket(datagram);
    if parsed.Err? || parsed.value.sessionID != c.session then c
    else
      var p := parsed.value;
      var found := AeadOpen(c.table, Nonce(p.sessionID, p.sequence), p.payload, datagram[..HEADER_SIZE]);
      var entry := Outcome(c.history, p.sequence, found.Some?);
      c.(history := c.history + [entry],
         outputs := if entry.yielded
                   then c.outputs + [Output(p.kind, p.sequence, found.value.plaintext, found.value.origin)]
                   else c.outputs)
  }

  function Step(c: Channel, e: Event): Channel {
    match e
    case SendEvent(kind, source, destination, plaintext, ciphertext, origin) =>
      Send(c, kind, source, destination, plaintext, ciphertext, origin)
    case DeliverEvent(datagram) => Deliver(c, datagram)
  }

  function Run(session: u64, events: seq<Event>): Channel {
    if events == [] then New(session)
    else Step(Run(session, events[..|events| - 1]), events[|events| - 1])
  }

  // ---------------------------------------------------------------- invariant

  ghost predicate TableOk(c: Channel) {
    && (forall i :: 0 <= i < |c.table| ==>
          && c.table[i].packet.sessionID == c.session
          && |c.table[i].packet.payload| <= MAX_PAYLOAD
          && 0 < c.table[i].packet.sequence <= c.sends)
    && (forall i, j :: 0 <= i < j < |c.table| ==> c.table[i].packet.sequence < c.table[j].packet.sequence)
  }

  /** The output repeats one entry of the table: number, packet type and plaintext. */
  predicate Repeats(y: Output, s: Sealed) {
    y == Output(s.packet.kind, s.packet.sequence, s.plaintext, s.origin)
  }

  ghost predicate WasSealed(table: seq<Sealed>, y: Output) {
    exists s :: s in table && Repeats(y, s)
  }

  ghost predicate OutputsOk(c: Channel) {
    && Explained(c.history)
    && (forall j :: 0 <= j < |c.outputs| ==>
          c.outputs[j].number in Opened(c.history) && WasSealed(c.table, c.outputs[j]))
    && (forall j, k :: 0 <= j < k < |c.outputs| ==> c.outputs[j].number != c.outputs[k].number)
  }

  ghost predicate Inv(c: Channel) {
    TableOk(c) && OutputsOk(c)
  }

  lemma NonceDeterminesSequence(session: u64, a: u64, b: u64)
    ensures Nonce(session, a) == Nonce(session, b) <==> a == b
  {
    if Nonce(session, a) == Nonce(session, b) {
      assert Nonce(session, a)[4..] == BigEndian.Encode(a, 8);
      assert Nonce(session, b)[4..] == BigEndian.Encode(b, 8);
      Widths();
      DecodeEncode(a, 8);
      DecodeEncode(b, 8);
    }
  }

  /** The nonce is the low half of the session number in four bytes, then the sequence number in eight. */
  lemma NonceLayout(session: u64, sequence: u64)
    ensures
      var n := Nonce(session, sequence);
      |n| == 12 && BigEndian.Decode(n[..4]) == session % 0x1_0000_0000 && BigEndian.Decode(n[4..]) == sequence
  {
    var n := Nonce(session, sequence);
    Widths();
    DecodeEncode(session % 0x1_0000_0000, 4);
    DecodeEncode(sequence, 8);
    assert n[..4] == BigEndian.Encode(session % 0x1_0000_0000, 4) && n[4..] == BigEndian.Encode(sequence, 8);
  }

  lemma NewIsOk(session: u64)
    ensures Inv(New(session)) && New(session).session == session
  {
  }

  lemma SendKeepsInv(c: Channel, kind: byte, source: u64, destination: u64, plaintext: bytes, ciphertext: bytes,
                     origin: Option<nat>)
    requires Inv(c) && Send(c, kind, source, destination, plaintext, ciphertext, origin).sends < SEQUENCE_LIMIT
    ensures Inv(Send(c, kind, source, destination, plaintext, ciphertext, origin))
    ensures Send(c, kind, source, destination, plaintext, ciphertext, origin).session == c.session
  {
    var d := Send(c, kind, source, destination, plaintext, ciphertext, origin);
    forall j | 0 <= j < |d.outputs| ensures WasSealed(d.table, d.outputs[j]) {
      assert WasSealed(c.table, c.outputs[j]);
      var s :| s in c.table && Repeats(c.outputs[j], s);
      assert s in d.table;
    }
  }

  /** What one delivery can do: nothing visible, or output one fresh entry of the table unchanged. */
  lemma DeliverFacts(c: Channel, datagram: bytes)
    requires TableOk(c)
    ensures
      var d := Deliver(c, datagram);
      && d == c.(history := d.history, outputs := d.outputs)
      && (d.outputs == c.outputs ==> Opened(d.history) == Opened(c.history))
      && (d.outputs != c.outputs ==>
            && |d.outputs| == |c.outputs| + 1 && d.outputs[..|c.outputs|] == c.outputs
            && var y := d.outputs[|c.outputs|];
            && y.number !in Opened(c.history)
            && Opened(d.history) == Opened(c.history) + {y.number}
            && WasSealed(c.table, y))
  {
    var d := Deliver(c, datagram);
    var parsed := ParsePacket(datagram);
    if parsed.Ok? && parsed.value.sessionID == c.session {
      var p := parsed.value;
      var found := AeadOpen(c.table, Nonce(p.sessionID, p.sequence), p.payload, datagram[..HEADER_SIZE]);
      HighestAppend(c.history, Outcome(c.history, p.sequence, found.Some?));
      if d.outputs != c.outputs {
        WireParse(datagram);
        assert datagram[..HEADER_SIZE] == Header(p);
        HeaderDetermines(p, found.value.packet);
        assert Repeats(d.outputs[|c.outputs|], found.value);
      }
    }
  }

  lemma DeliverKeepsInv(c: Channel, datagram: bytes)
    requires Inv(c)
    ensures Inv(Deliver(c, datagram)) && Deliver(c, datagram).session == c.session
  {
    hide ParsePacket, Nonce, Opened, Highest;
    DeliverFacts(c, datagram);
    var parsed := ParsePacket(datagram);
    if parsed.Ok? && parsed.value.sessionID == c.session {
      var p := parsed.value;
      var found := AeadOpen(c.table, Nonce(p.sessionID, p.sequence), p.payload, datagram[..HEADER_SIZE]);
      ExplainedAppend(c.history, p.sequence, found.Some?);
    }
  }

  lemma {:induction false} RunKeepsInv(session: u64, events: seq<Event>)
    requires Run(session, events).sends < SEQUENCE_LIMIT
    ensures Inv(Run(session, events)) && Run(session, events).session == session
  {
    if events != [] {
      var front, last := events[..|events| - 1], events[|events| - 1];
      RunKeepsInv(session, front);
      StepKeepsInv(Run(session, front), last);
    }
  }

  // ---------------------------------------------------------------- main results

  /**
   Whatever is lost, reordered, duplicated or forged, the receiver yields only what the sender sealed,
   with the packet type it was sealed with, and each sealed packet at most once.
   */
  lemma OutputsAreSentOnce(session: u64, events: seq<Event>)
    requires Run(session, events).sends < SEQUENCE_LIMIT
    ensures
      var c := Run(session, events);
      && (forall j :: 0 <= j < |c.outputs| ==> WasSealed(c.table, c.outputs[j]))
      && (forall j, k :: 0 <= j < k < |c.outputs| ==> c.outputs[j].number != c.outputs[k].number)
      && (forall i, k :: 0 <= i < k < |c.table| ==>
            c.table[i].packet.sequence != c.table[k].packet.sequence)
  {
    RunKeepsInv(session, events);
  }

  /** No nonce repeats under the key while fewer than 2^64 packets are sent ... */
  lemma NoncesNeverRepeat(session: u64, events: seq<Event>, i: nat, k: nat)
    requires Run(session, events).sends < SEQUENCE_LIMIT
    requires i < k < |Run(session, events).table|
    ensures
      var c := Run(session, events);
      Nonce(c.table[i].packet.sessionID, c.table[i].packet.sequence)
      != Nonce(c.table[k].packet.sessionID, c.table[k].packet.sequence)
  {
    RunKeepsInv(session, events);
    var c := Run(session, events);
    NonceDeterminesSequence(session, c.table[i].packet.sequence, c.table[k].packet.sequence);
  }

  /** ... and the bound is exact: two sends share a nonce exactly when they are a multiple of 2^64 apart. */
  lemma NonceRepeatsExactlyAtWrap(session: u64, a: nat, b: nat)
    requires a <= b
    ensures Nonce(session, Sequence(a)) == Nonce(session, Sequence(b)) <==> (b - a) % SEQUENCE_LIMIT == 0
  {
    hide Nonce;
    NonceDeterminesSequence(session, Sequence(a), Sequence(b));
    SameRemainder(a, b);
  }

  lemma SameRemainder(a: nat, b: nat)
    requires a <= b
    ensures Sequence(a) == Sequence(b) <==> (b - a) % SEQUENCE_LIMIT == 0
  {
  }

  lemma WireStartsWithHeader(p: Packet)
    requires |p.payload| <= MAX_PAYLOAD
    ensures |Wire(p)| >= HEADER_SIZE && Wire(p)[..HEADER_SIZE] == Header(p)
  {
  }

  /** The ideal AEAD opens a sealed packet to its own entry. */
  lemma OpensToItself(c: Channel, i: nat)
    requires TableOk(c) && i < |c.table|
    ensures
      var p := c.table[i].packet;
      && |p.payload| <= MAX_PAYLOAD
      && AeadOpen(c.table, Nonce(p.sessionID, p.sequence), p.payload, Header(p)) == Some(c.table[i])
  {
    hide Header, Nonce;
    var p := c.table[i].packet;
    var nonce := Nonce(p.sessionID, p.sequence);
    assert Opens(c.table[i], nonce, p.payload, Header(p)) && c.table[i] in c.table;
    var found := AeadOpen(c.table, nonce, p.payload, Header(p));
    var k :| 0 <= k < |c.table| && c.table[k] == found.value;
    NonceDeterminesSequence(c.session, c.table[k].packet.sequence, p.sequence);
  }

  /** Exactly the fresh numbers get through: the sender's own datagram yields its plaintext, or nothing. */
  lemma HonestDatagramIsYielded(c: Channel, i: nat)
    requires Inv(c) && i < |c.table|
    ensures
      var s := c.table[i];
      Deliver(c, Wire(s.packet)).outputs
      == if Fresh(c.history, s.packet.sequence)
         then c.outputs + [Output(s.packet.kind, s.packet.sequence, s.plaintext, s.origin)] else c.outputs
  {
    hide Header, Wire, Nonce, ParsePacket, Fresh, OutputsOk, AeadOpen;
    ParseWire(c.table[i].packet);
    WireStartsWithHeader(c.table[i].packet);
    OpensToItself(c, i);
  }

  // ---------------------------------------------------------------- what an unauthentic datagram costs

  /** A datagram of this session that nobody sealed. */
  predicate Unauthentic(c: Channel, datagram: bytes) {
    var parsed := ParsePacket(datagram);
    && parsed.Ok? && parsed.value.sessionID == c.session
    && AeadOpen(c.table, Nonce(c.session, parsed.value.sequence), parsed.value.payload, datagram[..HEADER_SIZE]).None?
  }

  /** It yields nothing, but if its number was fresh, numbers 64 or more below it are no longer. */
  lemma UnauthenticCost(c: Channel, datagram: bytes, number: nat)
    requires Unauthentic(c, datagram)
    ensures
      var d, claimed := Deliver(c, datagram), ParsePacket(datagram).value.sequence;
      && d.outputs == c.outputs
      && (Fresh(d.history, number) <==>
            Fresh(c.history, number) && (Fresh(c.history, claimed) ==> claimed < number + WINDOW))
  {
    FailedOpenCost(c.history, ParsePacket(datagram).value.sequence, number);
  }

  /** A step extends history and outputs, and outputs only a number that was fresh. */
  lemma StepOutputsFresh(c: Channel, e: Event)
    ensures
      var d := Step(c, e);
      && c.history <= d.history && c.outputs <= d.outputs && |d.outputs| <= |c.outputs| + 1
      && (|d.outputs| > |c.outputs| ==> Fresh(c.history, d.outputs[|c.outputs|].number))
  {
  }

  /** After any run, whatever comes next, only numbers that are fresh at the end of that run are yielded. */
  lemma {:induction false} LaterOutputsWereFresh(session: u64, before: seq<Event>, more: seq<Event>)
    ensures
      var c, d := Run(session, before), Run(session, before + more);
      && c.history <= d.history && c.outputs <= d.outputs
      && forall j :: |c.outputs| <= j < |d.outputs| ==> Fresh(c.history, d.outputs[j].number)
    decreases |more|
  {
    hide Fresh, Step;
    var c := Run(session, before);
    if more == [] {
      assert before + more == before;
    } else {
      var front, last := more[..|more| - 1], more[|more| - 1];
      LaterOutputsWereFresh(session, before, front);
      assert (before + more)[..|before + more| - 1] == before + front && (before + more)[|before + more| - 1] == last;
      var m := Run(session, before + front);
      StepOutputsFresh(m, last);
      var d := Step(m, last);
      forall j | |c.outputs| <= j < |d.outputs| ensures Fresh(c.history, d.outputs[j].number) {
        if j < |m.outputs| {
          assert d.outputs[j] == m.outputs[j];
        } else if !Fresh(c.history, d.outputs[j].number) {
          StaysRefused(c.history, m.history, d.outputs[j].number);
        }
      }
    }
  }

  /** After an unauthentic datagram with a fresh number, nothing 64 or more below that number is yielded again. */
  lemma NothingFarBelowIsYielded(session: u64, before: seq<Event>, datagram: bytes, more: seq<Event>, j: nat)
    requires Unauthentic(Run(session, before), datagram)
    requires Fresh(Run(session, before).history, ParsePacket(datagram).value.sequence)
    requires |Run(session, before).outputs| <= j < |Run(session, before + [DeliverEvent(datagram)] + more).outputs|
    ensures ParsePacket(datagram).value.sequence
            < Run(session, before + [DeliverEvent(datagram)] + more).outputs[j].number + WINDOW
  {
    hide Fresh, ParsePacket, Unauthentic;
    var c := Run(session, before);
    var middle := before + [DeliverEvent(datagram)];
    assert middle[..|middle| - 1] == before;
    assert Run(session, middle) == Deliver(c, datagram);
    hide Run, Deliver;
    LaterOutputsWereFresh(session, middle, more);
    UnauthenticCost(c, datagram, Run(session, middle + more).outputs[j].number);
  }

  /** A datagram that claims the highest number, under no key. Its other fields are as a sender would set them. */
  function HighestClaim(session: u64, source: u64, destination: u64, payload: bytes): Packet {
    Packet(TYPE_DATA, 0, 0, session, source, destination, SEQUENCE_LIMIT - 1, payload)
  }

  /** The highest number was let through before anything was yielded. */
  ghost predicate Silenced(c: Channel) {
    Highest(c.history) == SEQUENCE_LIMIT - 1 && c.outputs == []
  }

  lemma HighestClaimSilences(session: u64, source: u64, destination: u64, payload: bytes)
    requires |payload| <= MAX_PAYLOAD
    ensures Silenced(Deliver(New(session), Wire(HighestClaim(session, source, destination, payload))))
  {
    var claim := HighestClaim(session, source, destination, payload);
    ParseWire(claim);
    hide Wire, ParsePacket;
    HighestAppend([], Outcome([], claim.sequence, false));
    assert [] + [Outcome([], claim.sequence, false)] == [Outcome([], claim.sequence, false)];
  }

  lemma OutputsWithinSends(c: Channel, j: nat)
    requires Inv(c) && j < |c.outputs|
    ensures c.outputs[j].number <= c.sends
  {
    assert WasSealed(c.table, c.outputs[j]);
    var s :| s in c.table && Repeats(c.outputs[j], s);
  }

  lemma StepKeepsInv(c: Channel, e: Event)
    requires Inv(c) && Step(c, e).sends < SEQUENCE_LIMIT
    ensures Inv(Step(c, e)) && Step(c, e).session == c.session
  {
    hide Inv, Send, Deliver;
    match e
    case SendEvent(kind, source, destination, plaintext, ciphertext, origin) =>
      SendKeepsInv(c, kind, source, destination, plaintext, ciphertext, origin);
    case DeliverEvent(datagram) => DeliverKeepsInv(c, datagram);
  }

  lemma StepRaisesHighest(c: Channel, e: Event)
    ensures Highest(c.history) <= Highest(Step(c, e).history)
    ensures Highest(c.history) == SEQUENCE_LIMIT - 1 ==> Highest(Step(c, e).history) == SEQUENCE_LIMIT - 1
  {
    hide Fresh, Nonce;
    if e.DeliverEvent? {
      var parsed := ParsePacket(e.datagram);
      if parsed.Ok? && parsed.value.sessionID == c.session {
        var p := parsed.value;
        var found := AeadOpen(c.table, Nonce(p.sessionID, p.sequence), p.payload, e.datagram[..HEADER_SIZE]);
        HighestAppend(c.history, Outcome(c.history, p.sequence, found.Some?));
      }
    }
  }

  /** A silenced channel stays so while fewer than 2^64 - 64 packets are sent. */
  lemma SilencedStays(c: Channel, e: Event)
    requires Inv(c) && Silenced(c) && Step(c, e).sends + WINDOW < SEQUENCE_LIMIT
    ensures Silenced(Step(c, e))
  {
    hide Step, Inv, Opened;
    StepKeepsInv(c, e);
    StepRaisesHighest(c, e);
    StepOutputsFresh(c, e);
    if Step(c, e).outputs != [] { OutputsWithinSends(Step(c, e), 0); }
  }

  lemma SendsNeverDecrease(c: Channel, e: Event)
    ensures c.sends <= Step(c, e).sends
  {
    hide ParsePacket, AeadOpen;
  }

  /** One such datagram at the start, and of fewer than 2^64 - 64 packets sent afterwards none is yielded. */
  lemma {:induction false} OneDatagramSilencesTheChannel(session: u64, source: u64, destination: u64, payload: bytes,
                                                         more: seq<Event>)
    requires |payload| <= MAX_PAYLOAD
    requires
      var claim := DeliverEvent(Wire(HighestClaim(session, source, destination, payload)));
      Run(session, [claim] + more).sends + WINDOW < SEQUENCE_LIMIT
    ensures
      var claim := DeliverEvent(Wire(HighestClaim(session, source, destination, payload)));
      Silenced(Run(session, [claim] + more))
    decreases |more|
  {
    hide Wire, Step, Silenced, Inv;
    var claim := DeliverEvent(Wire(HighestClaim(session, source, destination, payload)));
    if more == [] {
      assert [claim] + more == [claim];
      FirstStep(session, claim);
      HighestClaimSilences(session, source, destination, payload);
    } else {
      var front, last := more[..|more| - 1], more[|more| - 1];
      assert ([claim] + more)[..|more|] == [claim] + front && ([claim] + more)[|more|] == last;
      SendsNeverDecrease(Run(session, [claim] + front), last);
      OneDatagramSilencesTheChannel(session, source, destination, payload, front);
      RunKeepsInv(session, [claim] + front);
      SilencedStays(Run(session, [claim] + front), last);
    }
  }

  lemma FirstStep(session: u64, e: Event)
    requires e.DeliverEvent?
    ensures Run(session, [e]) == Deliver(New(session), e.datagram)
  {
    assert [e][..0] == [];
  }

  // ---------------------------------------------------------------- sealPacket

  /** sealPacket marshals a packet with a zero payload and overwrites the payload with the ciphertext. */
  method SealPacket(packet: Packet, plaintext: bytes, ciphertext: bytes) returns (r: Result<bytes, MarshalError>)
    requires |ciphertext| == |plaintext| + TAG_SIZE
    ensures r == if |ciphertext| > MAX_PAYLOAD then Err(PayloadExceedsMaximum)
                 else Ok(Wire(packet.(payload := ciphertext)))
  {
    var zeroes: bytes := seq(|plaintext| + TAG_SIZE, _ => 0);
    var marshalled := MarshalBinary(packet.(payload := zeroes));
    if marshalled.Err? {
      return Err(PayloadExceedsMaximum);
    }
    var encoded := new byte[|marshalled.value|](i requires 0 <= i < |marshalled.value| => marshalled.value[i]);
    assert encoded[..] == marshalled.value;
    assert encoded[..HEADER_SIZE] == Header(packet.(payload := zeroes)) == Header(packet.(payload := ciphertext));
    ghost var header := encoded[..HEADER_SIZE];
    forall i | 0 <= i < |ciphertext| {
      encoded[HEADER_SIZE + i] := ciphertext[i];
    }
    assert encoded[..HEADER_SIZE] == header;
    assert encoded[HEADER_SIZE..] == ciphertext;
    assert encoded[..] == encoded[..HEADER_SIZE] + encoded[HEADER_SIZE..];
    return Ok(encoded[..]);
  }
}

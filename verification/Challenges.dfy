/**
 One-use device challenges (internal/control/server.go: deviceChallenge, the proof part of deviceConnect,
 deviceCommandResult; the signing side is in internal/client/client.go).

 Signatures are ideal: a signature verifies a message only if the device itself signed it. Anybody may
 send any request at any time, with any signature seen so far. Nonces are 32 random bytes, so fresh.

 A device signs what arrives as a challenge: for a connect any byte string, since the client does not look at
 its length, and for a report any 32 bytes, which the payload requires.
 */
module Challenges {
  import opened Words
  import SP = SigningPayload

  const LIFETIME := 30_000_000_000 // 30 seconds
  const MAX_TEXT := 4096

  /** A challenge handed out by the server. */
  datatype Issued = Issued(device: bytes, nonce: bytes, expires: int)

  /** What a device signed, and what it meant by it. */
  datatype Signed =
    | ForConnect(device: bytes, message: bytes)
    | ForResult(device: bytes, nonce: bytes, report: SP.Report)

  datatype Accepted =
    | Connected(device: bytes, challenge: nat, at: int)
    | Reported(device: bytes, challenge: nat, at: int, report: SP.Report)

  /** A request between taking the challenge out of the map and checking the proof. */
  datatype Held = Held(device: bytes, challenge: Option<nat>)

  datatype Desk = Desk(
    now: int,
    active: set<bytes>,            // enrolled, unrevoked devices
    challenges: map<bytes, nat>,   // the server's map, as positions in issued
    issued: seq<Issued>,
    signed: seq<Signed>,
    held: map<nat, Held>,
    accepted: seq<Accepted>)

  datatype Event =
    | Tick(elapsed: nat)
    | Activate(device: bytes)
    | Revoke(device: bytes)
    | Issue(device: bytes, nonce: bytes)
    | SignConnect(device: bytes, message: bytes)
    | SignResult(device: bytes, nonce: bytes, report: SP.Report)
    | Take(request: nat, device: bytes)
    | FinishConnect(request: nat, genuine: bool)
    | FinishResult(request: nat, report: SP.Report, genuine: bool)

  function Init(): Desk {
    Desk(0, {}, map[], [], [], map[], [])
  }

  predicate FreshNonce(d: Desk, nonce: bytes) {
    |nonce| == SP.NONCE_SIZE && forall i :: 0 <= i < |d.issued| ==> d.issued[i].nonce != nonce
  }

  /** The bytes under a signature. */
  function Message(s: Signed): bytes {
    match s
    case ForConnect(_, message) => message
    case ForResult(_, nonce, report) => SP.Payload(nonce, report)
  }

  /** Ed25519 verification against the device's key. */
  predicate Verifies(d: Desk, device: bytes, message: bytes) {
    exists i :: 0 <= i < |d.signed| && d.signed[i].device == device && Message(d.signed[i]) == message
  }

  /** The checks both handlers share: a challenge was taken, it has not expired and the device is in good standing. */
  predicate Usable(d: Desk, h: Held) {
    && h.challenge.Some? && h.challenge.value < |d.issued|
    && d.now <= d.issued[h.challenge.value].expires && h.device in d.active
  }

  predicate ConnectPasses(d: Desk, h: Held, genuine: bool) {
    Usable(d, h) && genuine && Verifies(d, h.device, d.issued[h.challenge.value].nonce)
  }

  /** The size checks a result request must pass before its challenge is touched. */
  predicate WellSized(report: SP.Report) {
    report.command != [] && |report.result| <= MAX_TEXT && |report.error| <= MAX_TEXT
  }

  predicate ResultPasses(d: Desk, h: Held, report: SP.Report, genuine: bool) {
    && Usable(d, h) && genuine && report.device == h.device
    && WellSized(report) && SP.Signable(d.issued[h.challenge.value].nonce, report)
    && Verifies(d, h.device, SP.Payload(d.issued[h.challenge.value].nonce, report))
  }

  function Step(d: Desk, e: Event): Desk {
    match e
    case Tick(elapsed) => d.(now := d.now + elapsed)
    case Activate(device) => d.(active := d.active + {device})
    case Revoke(device) => d.(active := d.active - {device})
    case Issue(device, nonce) =>
      if device in d.active && FreshNonce(d, nonce)
      then d.(issued := d.issued + [Issued(device, nonce, d.now + LIFETIME)],
              challenges := d.challenges[device := |d.issued|])
      else d
    case SignConnect(device, message) => d.(signed := d.signed + [ForConnect(device, message)])
    case SignResult(device, nonce, report) =>
      if report.device == device && SP.Signable(nonce, report)
      then d.(signed := d.signed + [ForResult(device, nonce, report)]) else d
    case Take(request, device) =>
      if request in d.held then d
      else
        var taken := if device in d.challenges then Some(d.challenges[device]) else None;
        d.(challenges := d.challenges - {device}, held := d.held[request := Held(device, taken)])
    case FinishConnect(request, genuine) =>
      if request !in d.held then d
      else
        var h := d.held[request];
        d.(held := d.held - {request},
           accepted := if ConnectPasses(d, h, genuine)
                       then d.accepted + [Connected(h.device, h.challenge.value, d.now)] else d.accepted)
    case FinishResult(request, report, genuine) =>
      if request !in d.held then d
      else
        var h := d.held[request];
        d.(held := d.held - {request},
           accepted := if ResultPasses(d, h, report, genuine)
                       then d.accepted + [Reported(h.device, h.challenge.value, d.now, report)] else d.accepted)
  }

  function Run(events: seq<Event>): Desk {
    if events == [] then Init() else Step(Run(events[..|events| - 1]), events[|events| - 1])
  }

  // ---------------------------------------------------------------- invariant

  ghost predicate IssuedOk(issued: seq<Issued>) {
    && (forall i :: 0 <= i < |issued| ==> |issued[i].nonce| == SP.NONCE_SIZE)
    && (forall i, j :: 0 <= i < j < |issued| ==> issued[i].nonce != issued[j].nonce)
  }

  ghost predicate SignedOk(signed: seq<Signed>) {
    forall i :: 0 <= i < |signed| && signed[i].ForResult? ==> SP.Signable(signed[i].nonce, signed[i].report)
  }

  predicate Used(accepted: seq<Accepted>, challenge: nat) {
    exists i :: 0 <= i < |accepted| && accepted[i].challenge == challenge
  }

  /** Each challenge is in one place at most: the map, one request in progress, or one acceptance. */
  ghost predicate PlacesOk(d: Desk) {
    && (forall device :: device in d.challenges ==>
          && d.challenges[device] < |d.issued| && d.issued[d.challenges[device]].device == device
          && !Used(d.accepted, d.challenges[device]))
    && (forall r :: r in d.held && d.held[r].challenge.Some? ==>
          var c := d.held[r].challenge.value;
          && c < |d.issued| && d.issued[c].device == d.held[r].device && !Used(d.accepted, c)
          && !(d.held[r].device in d.challenges && d.challenges[d.held[r].device] == c))
    && (forall r, q :: r in d.held && q in d.held && r != q && d.held[r].challenge.Some? ==>
          d.held[r].challenge != d.held[q].challenge)
  }

  /** An acceptance rests on a challenge issued to that device, in time, and on a signature over the right bytes. */
  ghost predicate Backed(issued: seq<Issued>, signed: seq<Signed>, a: Accepted) {
    && a.challenge < |issued| && issued[a.challenge].device == a.device && a.at <= issued[a.challenge].expires
    && var nonce := issued[a.challenge].nonce;
    match a
    case Connected(device, _, _) => ForConnect(device, nonce) in signed
    case Reported(device, _, _, report) =>
      && report.device == device
      && (ForResult(device, nonce, report) in signed || ForConnect(device, SP.Payload(nonce, report)) in signed)
  }

  /** The signature behind an acceptance was made for that purpose: a connect, or that very report. */
  ghost predicate ForItsPurpose(issued: seq<Issued>, signed: seq<Signed>, a: Accepted) {
    && a.challenge < |issued|
    && match a
       case Connected(device, challenge, _) => ForConnect(device, issued[challenge].nonce) in signed
       case Reported(device, challenge, _, report) => ForResult(device, issued[challenge].nonce, report) in signed
  }

  /** Devices sign only 32-byte challenges as connect proofs. */
  ghost predicate OnlyNonces(signed: seq<Signed>) {
    forall s :: s in signed && s.ForConnect? ==> |s.message| == SP.NONCE_SIZE
  }

  ghost predicate AcceptedOk(d: Desk) {
    && (forall i :: 0 <= i < |d.accepted| ==> Backed(d.issued, d.signed, d.accepted[i]))
    && (forall i, j :: 0 <= i < j < |d.accepted| ==> d.accepted[i].challenge != d.accepted[j].challenge)
  }

  ghost predicate Inv(d: Desk) {
    IssuedOk(d.issued) && SignedOk(d.signed) && PlacesOk(d) && AcceptedOk(d)
  }

  /** A verified 32-byte nonce was signed as a connect proof: a result payload is longer. */
  lemma NonceSignatureIsForConnect(d: Desk, device: bytes, nonce: bytes)
    requires SignedOk(d.signed) && |nonce| == SP.NONCE_SIZE && Verifies(d, device, nonce)
    ensures ForConnect(device, nonce) in d.signed
  {
    hide SP.Payload, SP.Signable;
    var i :| 0 <= i < |d.signed| && d.signed[i].device == device && Message(d.signed[i]) == nonce;
    var s := d.signed[i];
    if s.ForResult? { SP.PayloadIsNoNonce(s.nonce, s.report); }
  }

  /** A result payload verifies exactly if it was signed as that very report, or word for word as a connect proof. */
  lemma PayloadSignatures(d: Desk, device: bytes, nonce: bytes, report: SP.Report)
    requires SignedOk(d.signed) && SP.Signable(nonce, report)
    ensures Verifies(d, device, SP.Payload(nonce, report)) <==>
              ForResult(device, nonce, report) in d.signed || ForConnect(device, SP.Payload(nonce, report)) in d.signed
  {
    hide SP.Payload, SP.Signable;
    var payload := SP.Payload(nonce, report);
    if Verifies(d, device, payload) {
      var i :| 0 <= i < |d.signed| && d.signed[i].device == device && Message(d.signed[i]) == payload;
      var s := d.signed[i];
      if s.ForResult? { SP.PayloadInjective(s.nonce, s.report, nonce, report); }
      assert s in d.signed;
    }
    if ForResult(device, nonce, report) in d.signed {
      var i :| 0 <= i < |d.signed| && d.signed[i] == ForResult(device, nonce, report);
      assert Message(d.signed[i]) == payload;
    }
    if ForConnect(device, payload) in d.signed {
      var i :| 0 <= i < |d.signed| && d.signed[i] == ForConnect(device, payload);
      assert Message(d.signed[i]) == payload;
    }
  }

  /** While devices sign only 32-byte challenges as connect proofs, it was signed as that report. */
  lemma PayloadSignatureIsForResult(d: Desk, device: bytes, nonce: bytes, report: SP.Report)
    requires SignedOk(d.signed) && OnlyNonces(d.signed) && SP.Signable(nonce, report)
    requires Verifies(d, device, SP.Payload(nonce, report))
    ensures ForResult(device, nonce, report) in d.signed
  {
    hide SP.Payload, SP.Signable;
    PayloadSignatures(d, device, nonce, report);
    SP.PayloadIsNoNonce(nonce, report);
  }

  lemma TakeKeepsInv(d: Desk, request: nat, device: bytes)
    requires Inv(d)
    ensures Inv(Step(d, Take(request, device)))
  {
    hide IssuedOk, SignedOk, Backed;
  }

  lemma IssueKeepsInv(d: Desk, device: bytes, nonce: bytes)
    requires Inv(d)
    ensures Inv(Step(d, Issue(device, nonce)))
  {
    hide SP.Signable;
    var n := Step(d, Issue(device, nonce));
    if n != d {
      assert forall i :: 0 <= i < |d.issued| ==> n.issued[i] == d.issued[i];
      forall i | 0 <= i < |d.accepted| ensures Backed(n.issued, n.signed, n.accepted[i]) {
        assert Backed(d.issued, d.signed, d.accepted[i]);
      }
      assert !Used(d.accepted, |d.issued|) by {
        assert forall i :: 0 <= i < |d.accepted| ==> Backed(d.issued, d.signed, d.accepted[i]);
      }
    }
  }

  lemma SignKeepsInv(d: Desk, e: Event)
    requires Inv(d) && (e.SignConnect? || e.SignResult?)
    ensures Inv(Step(d, e))
  {
    hide SP.Signable;
    var n := Step(d, e);
    forall i | 0 <= i < |d.accepted| ensures Backed(n.issued, n.signed, n.accepted[i]) {
      assert Backed(d.issued, d.signed, d.accepted[i]);
    }
  }

  /** Accepting a held challenge is sound, and dropping it harmless. */
  lemma FinishKeepsInv(d: Desk, request: nat, more: seq<Accepted>)
    requires Inv(d) && request in d.held
    requires more == [] || (|more| == 1 && d.held[request].challenge == Some(more[0].challenge)
                            && Backed(d.issued, d.signed, more[0]))
    ensures Inv(d.(held := d.held - {request}, accepted := d.accepted + more))
  {
    hide IssuedOk, SignedOk, Backed;
    var n := d.(held := d.held - {request}, accepted := d.accepted + more);
    forall c: nat | !Used(d.accepted, c) && d.held[request].challenge != Some(c) ensures !Used(n.accepted, c) {
    }
    if more != [] {
      forall i | 0 <= i < |d.accepted| ensures d.accepted[i].challenge != more[0].challenge {
        assert !Used(d.accepted, more[0].challenge);
      }
    }
  }

  lemma StepKeepsInv(d: Desk, e: Event)
    requires Inv(d)
    ensures Inv(Step(d, e))
  {
    match e
    case Take(request, device) => TakeKeepsInv(d, request, device);
    case Issue(device, nonce) => IssueKeepsInv(d, device, nonce);
    case SignConnect(_, _) => SignKeepsInv(d, e);
    case SignResult(_, _, _) => SignKeepsInv(d, e);
    case FinishConnect(request, genuine) =>
      if request in d.held {
        var h := d.held[request];
        var pass := ConnectPasses(d, h, genuine);
        if pass { NonceSignatureIsForConnect(d, h.device, d.issued[h.challenge.value].nonce); }
        FinishKeepsInv(d, request, if pass then [Connected(h.device, h.challenge.value, d.now)] else []);
      }
    case FinishResult(request, report, genuine) =>
      if request in d.held {
        var h := d.held[request];
        var pass := ResultPasses(d, h, report, genuine);
        if pass { PayloadSignatures(d, h.device, d.issued[h.challenge.value].nonce, report); }
        FinishKeepsInv(d, request, if pass then [Reported(h.device, h.challenge.value, d.now, report)] else []);
      }
    case Tick(_) =>
    case Activate(_) =>
    case Revoke(_) =>
  }

  lemma {:induction false} RunKeepsInv(events: seq<Event>)
    ensures Inv(Run(events))
  {
    if events != [] {
      hide Inv, Step;
      RunKeepsInv(events[..|events| - 1]);
      StepKeepsInv(Run(events[..|events| - 1]), events[|events| - 1]);
    }
  }

  /**
   Every accepted connect or result consumed its own challenge, issued to that device and not expired, and rests on
   a signature the device made over that challenge, or over that report and challenge. While devices sign only
   32-byte challenges as connect proofs, the two kinds are never interchangeable.
   */
  lemma AcceptancesAreBackedAndDistinct(events: seq<Event>)
    ensures
      var d := Run(events);
      && (forall i :: 0 <= i < |d.accepted| ==> Backed(d.issued, d.signed, d.accepted[i]))
      && (forall i, j :: 0 <= i < j < |d.accepted| ==> d.accepted[i].challenge != d.accepted[j].challenge)
      && (OnlyNonces(d.signed) ==>
            forall i :: 0 <= i < |d.accepted| ==> ForItsPurpose(d.issued, d.signed, d.accepted[i]))
  {
    hide SP.Payload;
    RunKeepsInv(events);
    var d := Run(events);
    if OnlyNonces(d.signed) {
      forall i | 0 <= i < |d.accepted| ensures ForItsPurpose(d.issued, d.signed, d.accepted[i]) {
        BackedForPurpose(d, d.accepted[i]);
      }
    }
  }

  lemma BackedForPurpose(d: Desk, a: Accepted)
    requires IssuedOk(d.issued) && OnlyNonces(d.signed) && Backed(d.issued, d.signed, a)
    ensures ForItsPurpose(d.issued, d.signed, a)
  {
    hide SP.Payload;
    if a.Reported? { PayloadIsLonger(d.issued[a.challenge].nonce, a.report); }
  }

  lemma PayloadIsLonger(nonce: bytes, report: SP.Report)
    ensures |SP.Payload(nonce, report)| > |nonce|
  {
  }

  /**
   That condition is needed: a device that signs a result payload as its connect challenge has signed the report,
   and the server accepts it.
   */
  lemma ConnectSignatureAcceptedAsReport(device: bytes, nonce: bytes, report: SP.Report) returns (events: seq<Event>)
    requires SP.Signable(nonce, report) && WellSized(report) && report.device == device
    ensures
      var d := Run(events);
      && d.accepted == [Reported(device, 0, 0, report)] && d.issued == [Issued(device, nonce, LIFETIME)]
      && d.signed == [ForConnect(device, SP.Payload(nonce, report))]
      && !ForItsPurpose(d.issued, d.signed, d.accepted[0])
  {
    var payload := SP.Payload(nonce, report);
    events := SignPayloadAsConnect(device, nonce, payload);
    var signed := Run(events);
    hide Run, SP.Payload, SP.Signable;
    RunSnoc(events, Take(0, device));
    events := events + [Take(0, device)];
    var taken := Run(events);
    assert taken.held == map[0 := Held(device, Some(0))];
    assert Message(taken.signed[0]) == payload;
    assert ResultPasses(taken, taken.held[0], report, true);
    RunSnoc(events, FinishResult(0, report, true));
    events := events + [FinishResult(0, report, true)];
  }

  lemma SignPayloadAsConnect(device: bytes, nonce: bytes, payload: bytes) returns (events: seq<Event>)
    requires |nonce| == SP.NONCE_SIZE
    ensures
      Run(events) == Desk(0, {device}, map[device := 0], [Issued(device, nonce, LIFETIME)],
                          [ForConnect(device, payload)], map[], [])
  {
    RunSnoc([], Activate(device));
    events := [] + [Activate(device)];
    assert Run(events) == Init().(active := {device});
    hide Run;
    RunSnoc(events, Issue(device, nonce));
    events := events + [Issue(device, nonce)];
    RunSnoc(events, SignConnect(device, payload));
    events := events + [SignConnect(device, payload)];
  }

  lemma RunSnoc(events: seq<Event>, e: Event)
    ensures Run(events + [e]) == Step(Run(events), e)
  {
    assert (events + [e])[..|events|] == events;
  }

  // ---------------------------------------------------------------- the handlers

  datatype Challenge = Challenge(nonce: bytes, expires: int)

  /** The map holds the challenges that the desk's map points to. */
  ghost predicate Mirrors(challenges: map<bytes, Challenge>, d: Desk) {
    && challenges.Keys == d.challenges.Keys
    && forall device :: device in challenges ==>
         && d.challenges[device] < |d.issued|
         && d.issued[d.challenges[device]] == Issued(device, challenges[device].nonce, challenges[device].expires)
  }

  /** A whole request: the challenge is taken, then the proof is checked. */
  ghost function ConnectRequest(d: Desk, request: nat, device: bytes, genuine: bool): Desk {
    Step(Step(d, Take(request, device)), FinishConnect(request, genuine))
  }

  ghost function ResultRequest(d: Desk, request: nat, report: SP.Report, genuine: bool): Desk {
    Step(Step(d, Take(request, report.device)), FinishResult(request, report, genuine))
  }

  /**
   The control server's challenge map and the three handlers that use it. Each is proved to do what its
   events do at any desk the map mirrors; verification is by the ideal signatures of that desk.
   */
  class Handlers {
    var challenges: map<bytes, Challenge>

    constructor ()
      ensures challenges == map[] && Mirrors(challenges, Init())
    {
      challenges := map[];
    }

    method DeviceChallenge(device: bytes, active: bool, nonce: bytes, now: int, ghost d: Desk) returns (issued: bool)
      requires Mirrors(challenges, d) && now == d.now && (active <==> device in d.active) && FreshNonce(d, nonce)
      modifies this
      ensures issued == active
      ensures challenges == if active then old(challenges)[device := Challenge(nonce, now + 30_000_000_000)]
                            else old(challenges)
      ensures Mirrors(challenges, Step(d, Issue(device, nonce)))
    {
      hide FreshNonce;
      if !active {
        return false;
      }
      challenges := challenges[device := Challenge(nonce, now + LIFETIME)];
      return true;
    }

    /**
     The proof part of deviceConnect. The challenge is gone whatever the outcome. The presented signature
     verifies some messages, all of them signed by the device; which ones is up to whoever presents it.
     */
    method DeviceConnect(device: bytes, active: bool, now: int, verifies: bytes -> bool, ghost d: Desk,
                         ghost request: nat)
      returns (ok: bool)
      requires Mirrors(challenges, d) && now == d.now && (active <==> device in d.active) && request !in d.held
      requires forall m :: verifies(m) ==> Verifies(d, device, m)
      modifies this
      ensures challenges == old(challenges) - {device}
      ensures ok <==> && device in old(challenges) && now <= old(challenges)[device].expires && active
                      && verifies(old(challenges)[device].nonce)
      ensures
        var genuine := device in old(challenges) && verifies(old(challenges)[device].nonce);
        var after := ConnectRequest(d, request, device, genuine);
        && Mirrors(challenges, after)
        && after.accepted == if ok then d.accepted + [Connected(device, d.challenges[device], now)] else d.accepted
    {
      ghost var taken := Step(d, Take(request, device));
      SameVerdicts(d, taken, device);
      hide Verifies;
      var found := device in challenges;
      var c := if found then challenges[device] else Challenge([], 0);
      challenges := challenges - {device};
      return found && now <= c.expires && active && verifies(c.nonce);
    }

    /** The checks of deviceCommandResult up to the store update. */
    method DeviceCommandResult(report: SP.Report, active: bool, now: int, verifies: bytes -> bool, ghost d: Desk,
                               ghost request: nat)
      returns (ok: bool)
      requires Mirrors(challenges, d) && now == d.now && (active <==> report.device in d.active) && request !in d.held
      requires forall m :: verifies(m) ==> Verifies(d, report.device, m)
      modifies this
      ensures ok <==>
                && report.command != [] && |report.result| <= 4096 && |report.error| <= 4096
                && report.device in old(challenges) && now <= old(challenges)[report.device].expires && active
                && SP.Signable(old(challenges)[report.device].nonce, report)
                && verifies(SP.Payload(old(challenges)[report.device].nonce, report))
      ensures challenges == if report.command != [] && |report.result| <= 4096 && |report.error| <= 4096
                            then old(challenges) - {report.device} else old(challenges)
      ensures
        var found := report.device in old(challenges);
        var genuine := found && verifies(SP.Payload(old(challenges)[report.device].nonce, report));
        var after := if WellSized(report) then ResultRequest(d, request, report, genuine) else d;
        && Mirrors(challenges, after)
        && after.accepted
           == if ok then d.accepted + [Reported(report.device, d.challenges[report.device], now, report)]
              else d.accepted
    {
      hide Verifies, SP.Payload, SP.Signable, ResultRequest;
      ResultRequestEffect(d, request, report, true);
      ResultRequestEffect(d, request, report, false);
      if report.command == [] || |report.result| > MAX_TEXT || |report.error| > MAX_TEXT {
        return false;
      }
      var found := report.device in challenges;
      var c := if found then challenges[report.device] else Challenge([], 0);
      challenges := challenges - {report.device};
      var payload := SP.CommandResultSigningPayload(c.nonce, report);
      return found && now <= c.expires && active && payload.Ok? && verifies(payload.value);
    }
  }

  lemma ResultRequestEffect(d: Desk, request: nat, report: SP.Report, genuine: bool)
    requires request !in d.held
    ensures
      var after := ResultRequest(d, request, report, genuine);
      && after.challenges == d.challenges - {report.device} && after.issued == d.issued
      && after.accepted ==
         if report.device in d.challenges
            && ResultPasses(d, Held(report.device, Some(d.challenges[report.device])), report, genuine)
         then d.accepted + [Reported(report.device, d.challenges[report.device], d.now, report)] else d.accepted
  {
    SameVerdicts(d, Step(d, Take(request, report.device)), report.device);
    hide Verifies, SP.Payload, SP.Signable;
  }

  lemma SameVerdicts(d: Desk, taken: Desk, device: bytes)
    requires taken.issued == d.issued && taken.signed == d.signed
    ensures forall m :: Verifies(taken, device, m) <==> Verifies(d, device, m)
  {
  }
}

/**
 Enrollment tokens and device addresses (internal/storage/store.go). A join consumes a token use, picks an
 address and inserts the device in three separate steps, so joins interleave with each other, with static
 address assignments and with revocations. The devices table has a UNIQUE address column.
 */
module Enrollment {
  import opened Words
  import AP = AddressPool

  datatype Config = Config(base: u32, prefix: nat, server: u32)

  datatype Token = Token(expires: int, maxUses: int, uses: int, revoked: bool)

  /** The token is a model annotation: the table does not keep it. */
  datatype Device = Device(address: u32, revoked: bool, token: string)

  /** A join in progress. */
  datatype Join = Consumed(token: string) | Picked(token: string, address: u32)

  datatype Registry = Registry(
    now: int,
    tokens: map<string, Token>,
    devices: map<string, Device>,
    joins: map<string, Join>)

  datatype Event =
    | Tick(elapsed: nat)
    | CreateToken(token: string, ttl: int, maxUses: int)
    | RevokeToken(token: string)
    | Consume(join: string, token: string)
    | Pick(join: string, found: Option<u32>)
    | Insert(join: string, device: string)
    | Abandon(join: string)
    | SetStatic(device: string, address: u32)
    | RevokeDevice(device: string)

  function Init(): Registry {
    Registry(0, map[], map[], map[])
  }

  /** The addresses in the table, revoked devices included. */
  function Used(devices: map<string, Device>): set<u32> {
    set d | d in devices :: devices[d].address
  }

  predicate Consumable(r: Registry, token: string) {
    token in r.tokens && var t := r.tokens[token]; !t.revoked && r.now <= t.expires && t.uses < t.maxUses
  }

  /**
   Inside the network, and neither the network, the server nor the broadcast address. SetDeviceVirtualIP checks
   this of a static address; the address search does not.
   */
  predicate GoodAddress(cfg: Config, a: u32)
    requires cfg.prefix <= 32
  {
    && AP.Contains(cfg.base, cfg.prefix, a)
    && a != AP.NetworkOf(cfg.base, cfg.prefix) && a != cfg.server && a != AP.Broadcast(cfg.base, cfg.prefix)
  }

  /** Strictly between the network and the broadcast address, and not the server's. */
  lemma GoodIsInside(cfg: Config, a: u32)
    requires cfg.prefix <= 32
    ensures GoodAddress(cfg, a) <==>
              AP.NetworkOf(cfg.base, cfg.prefix) < a < AP.Broadcast(cfg.base, cfg.prefix) && a != cfg.server
  {
    AP.ContainsRange(cfg.base, cfg.prefix, a);
    hide AP.NetworkOf, AP.Contains;
  }

  predicate Taken(devices: map<string, Device>, except: string, address: u32) {
    exists d :: d in devices && d != except && devices[d].address == address
  }

  ghost function Step(cfg: Config, r: Registry, e: Event): Registry
    requires cfg.prefix <= 32
  {
    match e
    case Tick(elapsed) => r.(now := r.now + elapsed)
    case CreateToken(token, ttl, maxUses) =>
      if token in r.tokens || ttl <= 0 || maxUses < 1 then r
      else r.(tokens := r.tokens[token := Token(r.now + ttl, maxUses, 0, false)])
    case RevokeToken(token) =>
      if token in r.tokens then r.(tokens := r.tokens[token := r.tokens[token].(revoked := true)]) else r
    case Consume(join, token) =>
      if join in r.joins || !Consumable(r, token) then r
      else r.(tokens := r.tokens[token := r.tokens[token].(uses := r.tokens[token].uses + 1)],
              joins := r.joins[join := Consumed(token)])
    case Pick(join, found) =>
      if join in r.joins && r.joins[join].Consumed? && AP.Finds(cfg.base, cfg.prefix, Used(r.devices), found) then
        match found
        case None => r.(joins := r.joins - {join})
        case Some(address) => r.(joins := r.joins[join := Picked(r.joins[join].token, address)])
      else r
    case Insert(join, device) =>
      if join !in r.joins || !r.joins[join].Picked? || device in r.devices then r
      else
        var j := r.joins[join];
        r.(joins := r.joins - {join},
           devices := if j.address in Used(r.devices) then r.devices
                      else r.devices[device := Device(j.address, false, j.token)])
    case Abandon(join) => r.(joins := r.joins - {join})
    case SetStatic(device, address) =>
      if GoodAddress(cfg, address) && device in r.devices && !Taken(r.devices, device, address)
      then r.(devices := r.devices[device := r.devices[device].(address := address)]) else r
    case RevokeDevice(device) =>
      if device in r.devices then r.(devices := r.devices[device := r.devices[device].(revoked := true)]) else r
  }

  ghost function Run(cfg: Config, events: seq<Event>): Registry
    requires cfg.prefix <= 32
  {
    if events == [] then Init() else Step(cfg, Run(cfg, events[..|events| - 1]), events[|events| - 1])
  }

  // ---------------------------------------------------------------- token uses

  function DevicesVia(devices: map<string, Device>, token: string): set<string> {
    set d | d in devices && devices[d].token == token
  }

  function JoinsVia(joins: map<string, Join>, token: string): set<string> {
    set j | j in joins && joins[j].token == token
  }

  /** Every use of a token paid for at most one device or one join still in progress. */
  ghost predicate UsesOk(tokens: map<string, Token>, devices: map<string, Device>, joins: map<string, Join>) {
    forall t :: t in tokens ==>
      |DevicesVia(devices, t)| + |JoinsVia(joins, t)| <= tokens[t].uses <= tokens[t].maxUses
  }

  ghost predicate TokensKnown(r: Registry) {
    && (forall d :: d in r.devices ==> r.devices[d].token in r.tokens)
    && (forall j :: j in r.joins ==> r.joins[j].token in r.tokens)
  }

  lemma InJoinsVia(joins: map<string, Join>, t: string, k: string)
    ensures k in JoinsVia(joins, t) <==> k in joins && joins[k].token == t
  {
  }

  lemma InDevicesVia(devices: map<string, Device>, t: string, k: string)
    ensures k in DevicesVia(devices, t) <==> k in devices && devices[k].token == t
  {
  }

  lemma JoinsAfterUpdate(joins: map<string, Join>, join: string, j: Join, t: string)
    requires join in joins ==> joins[join].token == j.token
    ensures |JoinsVia(joins[join := j], t)| == |JoinsVia(joins, t)| + if join !in joins && j.token == t then 1 else 0
  {
    hide JoinsVia;
    var before, after := JoinsVia(joins, t), JoinsVia(joins[join := j], t);
    forall k ensures k in after <==> k in before || (k == join && j.token == t) {
      InJoinsVia(joins, t, k);
      InJoinsVia(joins[join := j], t, k);
    }
    InJoinsVia(joins, t, join);
    assert after == if join !in joins && j.token == t then before + {join} else before;
  }

  lemma JoinsAfterRemoval(joins: map<string, Join>, join: string, t: string)
    ensures |JoinsVia(joins - {join}, t)|
            == |JoinsVia(joins, t)| - if join in joins && joins[join].token == t then 1 else 0
  {
    hide JoinsVia;
    var before, after := JoinsVia(joins, t), JoinsVia(joins - {join}, t);
    forall k ensures k in after <==> k in before && k != join {
      InJoinsVia(joins, t, k);
      InJoinsVia(joins - {join}, t, k);
    }
    InJoinsVia(joins, t, join);
    assert after == before - {join};
  }

  lemma DevicesAfterUpdate(devices: map<string, Device>, device: string, d: Device, t: string)
    requires device in devices ==> devices[device].token == d.token
    ensures |DevicesVia(devices[device := d], t)|
            == |DevicesVia(devices, t)| + if device !in devices && d.token == t then 1 else 0
  {
    hide DevicesVia;
    var before, after := DevicesVia(devices, t), DevicesVia(devices[device := d], t);
    forall k ensures k in after <==> k in before || (k == device && d.token == t) {
      InDevicesVia(devices, t, k);
      InDevicesVia(devices[device := d], t, k);
    }
    InDevicesVia(devices, t, device);
    assert after == if device !in devices && d.token == t then before + {device} else before;
  }

  lemma JoinStepKeepsUses(cfg: Config, r: Registry, e: Event, t: string)
    requires cfg.prefix <= 32 && UsesOk(r.tokens, r.devices, r.joins) && t in r.tokens
    requires e.Consume? || e.Pick? || e.Insert? || e.Abandon?
    ensures
      var s := Step(cfg, r, e);
      && t in s.tokens
      && |DevicesVia(s.devices, t)| + |JoinsVia(s.joins, t)| <= s.tokens[t].uses <= s.tokens[t].maxUses
  {
    hide DevicesVia, JoinsVia, AP.Finds, AP.Contains, Used;
    JoinsAfterRemoval(r.joins, e.join, t);
    match e
    case Consume(join, token) => if join !in r.joins { JoinsAfterUpdate(r.joins, join, Consumed(token), t); }
    case Pick(join, found) =>
      if found.Some? && join in r.joins {
        JoinsAfterUpdate(r.joins, join, Picked(r.joins[join].token, found.value), t);
      }
    case Insert(join, device) =>
      if join in r.joins && r.joins[join].Picked? && device !in r.devices {
        DevicesAfterUpdate(r.devices, device, Device(r.joins[join].address, false, r.joins[join].token), t);
      }
    case Abandon(join) =>
  }

  lemma OtherStepKeepsUses(cfg: Config, r: Registry, e: Event, t: string)
    requires cfg.prefix <= 32 && UsesOk(r.tokens, r.devices, r.joins) && TokensKnown(r) && t in Step(cfg, r, e).tokens
    requires !(e.Consume? || e.Pick? || e.Insert? || e.Abandon?)
    ensures
      var s := Step(cfg, r, e);
      |DevicesVia(s.devices, t)| + |JoinsVia(s.joins, t)| <= s.tokens[t].uses <= s.tokens[t].maxUses
  {
    hide DevicesVia, JoinsVia, AP.Contains;
    match e
    case CreateToken(token, _, _) => if t !in r.tokens { NoneYet(r, t); }
    case SetStatic(device, address) =>
      if device in r.devices { DevicesAfterUpdate(r.devices, device, r.devices[device].(address := address), t); }
    case RevokeDevice(device) =>
      if device in r.devices { DevicesAfterUpdate(r.devices, device, r.devices[device].(revoked := true), t); }
    case Tick(_) =>
    case RevokeToken(_) =>
  }

  lemma StepKeepsTokens(cfg: Config, r: Registry, e: Event)
    requires cfg.prefix <= 32 && TokensKnown(r)
    ensures TokensKnown(Step(cfg, r, e))
    ensures e.Consume? || e.Pick? || e.Insert? || e.Abandon? ==>
              forall t :: t in Step(cfg, r, e).tokens ==> t in r.tokens
  {
    hide AP.Finds, AP.Contains;
  }

  lemma StepKeepsUses(cfg: Config, r: Registry, e: Event)
    requires cfg.prefix <= 32 && UsesOk(r.tokens, r.devices, r.joins) && TokensKnown(r)
    ensures
      var s := Step(cfg, r, e);
      UsesOk(s.tokens, s.devices, s.joins) && TokensKnown(s)
  {
    StepKeepsTokens(cfg, r, e);
    hide DevicesVia, JoinsVia, Step, TokensKnown;
    var s := Step(cfg, r, e);
    forall t | t in s.tokens
      ensures |DevicesVia(s.devices, t)| + |JoinsVia(s.joins, t)| <= s.tokens[t].uses <= s.tokens[t].maxUses
    {
      if e.Consume? || e.Pick? || e.Insert? || e.Abandon? {
        JoinStepKeepsUses(cfg, r, e, t);
      } else {
        OtherStepKeepsUses(cfg, r, e, t);
      }
    }
  }

  lemma NoneYet(r: Registry, t: string)
    requires TokensKnown(r) && t !in r.tokens
    ensures DevicesVia(r.devices, t) == {} && JoinsVia(r.joins, t) == {}
  {
  }

  // ---------------------------------------------------------------- addresses

  /** The search hands this address out once everything before it on its walk is taken. */
  predicate Handed(cfg: Config, a: u32)
    requires cfg.prefix <= 32
  {
    AP.Walks(cfg.base, cfg.prefix, a) && a % 256 != 255
  }

  /** The search hands out none of the reserved addresses. */
  predicate Safe(cfg: Config)
    requires cfg.prefix <= 32
  {
    AP.ContainsRange(cfg.base, cfg.prefix, cfg.base);
    && !Handed(cfg, AP.NetworkOf(cfg.base, cfg.prefix))
    && !Handed(cfg, AP.Broadcast(cfg.base, cfg.prefix))
    && !Handed(cfg, cfg.server)
  }

  /** From prefix 12 on: the broadcast address and the server are each skipped or not ahead of the written address. */
  lemma SafeSpelledOut(cfg: Config)
    requires 12 <= cfg.prefix <= 32
    ensures
      var start, end := cfg.base + 2, AP.End(cfg.base, cfg.prefix);
      Safe(cfg) <==>
        && (end <= start || end % 256 == 0)
        && (cfg.server < start || end <= cfg.server || cfg.server % 256 == 255)
  {
    hide AP.Walks, AP.Size, AP.NetworkOf;
    AP.ContainsRange(cfg.base, cfg.prefix, cfg.base);
    AP.SizeUpTo(cfg.prefix);
    AP.StraightWalk(cfg.base, cfg.prefix, AP.NetworkOf(cfg.base, cfg.prefix));
    AP.StraightWalk(cfg.base, cfg.prefix, AP.Broadcast(cfg.base, cfg.prefix));
    AP.StraightWalk(cfg.base, cfg.prefix, cfg.server);
    AP.LastOctetBelow(AP.End(cfg.base, cfg.prefix));
  }

  /** Up to prefix 24 it is enough that the server is not ahead of the search, as at network+1 of an aligned network. */
  lemma SafeUpTo24(cfg: Config)
    requires 12 <= cfg.prefix <= 24 && cfg.server <= cfg.base + 1
    ensures Safe(cfg)
  {
    hide Safe, AP.End;
    SafeSpelledOut(cfg);
    AP.EndsIn255UpTo24(cfg.base, cfg.prefix);
  }

  ghost predicate Distinct(devices: map<string, Device>) {
    forall c, d :: c in devices && d in devices && c != d ==> devices[c].address != devices[d].address
  }

  ghost predicate AllGood(cfg: Config, devices: map<string, Device>)
    requires cfg.prefix <= 32
  {
    forall d :: d in devices ==> GoodAddress(cfg, devices[d].address)
  }

  ghost predicate PickedGood(cfg: Config, joins: map<string, Join>)
    requires cfg.prefix <= 32
  {
    forall j :: j in joins && joins[j].Picked? ==> GoodAddress(cfg, joins[j].address)
  }

  /** Distinct always; good where the search is safe. */
  ghost predicate AddressesOk(cfg: Config, r: Registry)
    requires cfg.prefix <= 32
  {
    Distinct(r.devices) && (Safe(cfg) ==> AllGood(cfg, r.devices) && PickedGood(cfg, r.joins))
  }

  lemma PickedIsGood(cfg: Config, used: set<u32>, a: u32)
    requires cfg.prefix <= 32 && Safe(cfg) && AP.Finds(cfg.base, cfg.prefix, used, Some(a))
    ensures GoodAddress(cfg, a)
  {
    hide AP.Finds, AP.Contains, AP.Steps, AP.NetworkOf, AP.End;
    AP.FirstInWalk(cfg.base, cfg.prefix, used, Some(a));
  }

  lemma StepKeepsAddresses(cfg: Config, r: Registry, e: Event)
    requires cfg.prefix <= 32 && AddressesOk(cfg, r)
    ensures AddressesOk(cfg, Step(cfg, r, e))
  {
    hide AP.Finds, GoodAddress, Safe;
    match e
    case Pick(join, found) =>
      if Safe(cfg) && found.Some? && AP.Finds(cfg.base, cfg.prefix, Used(r.devices), found) {
        PickedIsGood(cfg, Used(r.devices), found.value);
      }
    case _ =>
  }

  lemma {:induction false} RunKeepsUses(cfg: Config, events: seq<Event>)
    requires cfg.prefix <= 32
    ensures
      var r := Run(cfg, events);
      UsesOk(r.tokens, r.devices, r.joins) && TokensKnown(r)
  {
    if events != [] {
      RunKeepsUses(cfg, events[..|events| - 1]);
      StepKeepsUses(cfg, Run(cfg, events[..|events| - 1]), events[|events| - 1]);
    }
  }

  // ---------------------------------------------------------------- main results

  /** In every interleaving the devices enrolled through a token are at most its uses, which never pass the maximum. */
  lemma EnrolledWithinUses(cfg: Config, events: seq<Event>, token: string)
    requires cfg.prefix <= 32 && token in Run(cfg, events).tokens
    ensures
      var r := Run(cfg, events);
      |DevicesVia(r.devices, token)| <= r.tokens[token].uses <= r.tokens[token].maxUses
  {
    RunKeepsUses(cfg, events);
  }

  /**
   In every interleaving device addresses are pairwise distinct; where the search is safe they are inside the
   network and never the network, server or broadcast address.
   */
  lemma {:induction false} AddressesDistinctAndGood(cfg: Config, events: seq<Event>)
    requires cfg.prefix <= 32
    ensures AddressesOk(cfg, Run(cfg, events))
  {
    if events != [] {
      AddressesDistinctAndGood(cfg, events[..|events| - 1]);
      StepKeepsAddresses(cfg, Run(cfg, events[..|events| - 1]), events[|events| - 1]);
    }
  }

  // ---------------------------------------------------------------- reserved addresses, exactly

  /** After the first n steps of the walk were taken by joins through one token. */
  ghost predicate Filled(cfg: Config, r: Registry, n: nat) {
    && r.now == 0 && r.joins == map[]
    && "t" in r.tokens && r.tokens["t"].uses <= n && r.tokens["t"] == Token(1, AP.SPACE, r.tokens["t"].uses, false)
    && (forall a: u32 :: a in Used(r.devices) <==> AP.Steps(cfg.base, a) < n && a % 256 != 255)
    && (forall d :: d in r.devices ==> |d| < n)
  }

  lemma NextIsFound(cfg: Config, used: set<u32>, a: u32)
    requires cfg.prefix <= 32 && Handed(cfg, a)
    requires forall b: u32 :: b in used <==> AP.Steps(cfg.base, b) < AP.Steps(cfg.base, a) && b % 256 != 255
    ensures AP.Finds(cfg.base, cfg.prefix, used, Some(a))
  {
    hide AP.Contains, AP.Candidate, AP.Steps, AP.End;
    var n := AP.Steps(cfg.base, a);
    AP.CandidateOfSteps(cfg.base, a);
    AP.InsideUpToEnd(cfg.base, cfg.prefix, n);
    forall k: nat | k < n
      ensures AP.Contains(cfg.base, cfg.prefix, AP.Candidate(cfg.base, k)) && !AP.Free(used, AP.Candidate(cfg.base, k))
    {
      AP.InsideUpToEnd(cfg.base, cfg.prefix, k);
      AP.StepsOfCandidate(cfg.base, k);
    }
    assert AP.FoundAt(cfg.base, cfg.prefix, used, n, Some(a));
  }

  lemma RunSnoc(cfg: Config, events: seq<Event>, e: Event)
    requires cfg.prefix <= 32
    ensures Run(cfg, events + [e]) == Step(cfg, Run(cfg, events), e)
  {
    assert (events + [e])[..|events|] == events;
  }

  /** A new device id in the run below. */
  function Name(n: nat): string {
    seq(n, _ => 'd')
  }

  function Joined(r: Registry, a: u32, name: string): Registry
    requires "t" in r.tokens
  {
    r.(tokens := r.tokens["t" := r.tokens["t"].(uses := r.tokens["t"].uses + 1)],
       devices := r.devices[name := Device(a, false, "t")])
  }

  /** One more join: consume, pick, insert. */
  lemma OneMoreJoin(cfg: Config, r: Registry, a: u32)
    requires cfg.prefix <= 32 && Handed(cfg, a) && Filled(cfg, r, AP.Steps(cfg.base, a))
    ensures
      var name := Name(AP.Steps(cfg.base, a));
      Step(cfg, Step(cfg, Step(cfg, r, Consume("j", "t")), Pick("j", Some(a))), Insert("j", name)) == Joined(r, a, name)
  {
    NextIsFound(cfg, Used(r.devices), a);
    hide AP.Finds, AP.Steps, Handed;
  }

  lemma JoinFills(cfg: Config, r: Registry, a: u32)
    requires cfg.prefix <= 32 && Handed(cfg, a) && Filled(cfg, r, AP.Steps(cfg.base, a))
    ensures Filled(cfg, Joined(r, a, Name(AP.Steps(cfg.base, a))), AP.Steps(cfg.base, a) + 1)
  {
    hide AP.Steps;
    var name := Name(AP.Steps(cfg.base, a));
    var s := Joined(r, a, name);
    AP.CandidateOfSteps(cfg.base, a);
    forall b: u32
      ensures b in Used(s.devices) <==> AP.Steps(cfg.base, b) < AP.Steps(cfg.base, a) + 1 && b % 256 != 255
    {
      AP.CandidateOfSteps(cfg.base, b);
      if b == a { assert s.devices[name].address == a; }
      if b in Used(r.devices) {
        var d :| d in r.devices && r.devices[d].address == b;
        assert d in s.devices && s.devices[d].address == b;
      }
    }
  }

  lemma SkipFills(cfg: Config, r: Registry, n: nat)
    requires Filled(cfg, r, n) && n < AP.SPACE && AP.Candidate(cfg.base, n) % 256 == 255
    ensures Filled(cfg, r, n + 1)
  {
    hide AP.Steps, AP.Candidate;
    forall a: u32 | AP.Steps(cfg.base, a) == n ensures a % 256 == 255 {
      AP.CandidateOfSteps(cfg.base, a);
    }
  }

  lemma NoJoinsYet(cfg: Config)
    requires cfg.prefix <= 32
    ensures Filled(cfg, Run(cfg, [CreateToken("t", 1, AP.SPACE)]), 0)
  {
    hide AP.Finds, AP.Contains, AP.Steps;
    RunSnoc(cfg, [], CreateToken("t", 1, AP.SPACE));
    assert [] + [CreateToken("t", 1, AP.SPACE)] == [CreateToken("t", 1, AP.SPACE)];
  }

  /** Joins alone take everything on the walk up to any address the search can get to. */
  lemma {:induction false} Fill(cfg: Config, n: nat) returns (events: seq<Event>)
    requires cfg.prefix <= 32 && n <= AP.MAX_STEPS
    requires forall k :: 0 <= k < n ==> AP.Contains(cfg.base, cfg.prefix, AP.Candidate(cfg.base, k))
    ensures Filled(cfg, Run(cfg, events), n)
  {
    hide Step, Run, Filled, AP.Contains, AP.Candidate, AP.Steps, Joined;
    if n == 0 {
      events := [CreateToken("t", 1, AP.SPACE)];
      NoJoinsYet(cfg);
    } else {
      events := Fill(cfg, n - 1);
      var a := AP.Candidate(cfg.base, n - 1);
      AP.StepsOfCandidate(cfg.base, n - 1);
      if a % 256 == 255 {
        SkipFills(cfg, Run(cfg, events), n - 1);
      } else {
        OneMoreJoin(cfg, Run(cfg, events), a);
        JoinFills(cfg, Run(cfg, events), a);
        RunSnoc(cfg, events, Consume("j", "t"));
        events := events + [Consume("j", "t")];
        RunSnoc(cfg, events, Pick("j", Some(a)));
        events := events + [Pick("j", Some(a))];
        RunSnoc(cfg, events, Insert("j", Name(n - 1)));
        events := events + [Insert("j", Name(n - 1))];
      }
    }
  }

  /** Every address the search can hand out is enrolled in some run. */
  lemma HandedIsEnrolled(cfg: Config, a: u32) returns (events: seq<Event>)
    requires cfg.prefix <= 32 && Handed(cfg, a)
    ensures a in Used(Run(cfg, events).devices)
  {
    hide AP.Contains, AP.Candidate, AP.Steps, AP.End, Run;
    var n := AP.Steps(cfg.base, a);
    AP.CandidateOfSteps(cfg.base, a);
    forall k | 0 <= k <= n ensures AP.Contains(cfg.base, cfg.prefix, AP.Candidate(cfg.base, k)) {
      AP.InsideUpToEnd(cfg.base, cfg.prefix, k);
      AP.InsideUpToEnd(cfg.base, cfg.prefix, n);
    }
    events := Fill(cfg, n + 1);
  }

  /** For every network, written address and server address: no run enrols a reserved address exactly if it is safe. */
  lemma AddressesGoodExactlyIfSafe(cfg: Config)
    requires cfg.prefix <= 32
    ensures (forall events :: AllGood(cfg, Run(cfg, events).devices)) <==> Safe(cfg)
  {
    hide Run, Handed;
    if Safe(cfg) {
      forall events ensures AllGood(cfg, Run(cfg, events).devices) {
        AddressesDistinctAndGood(cfg, events);
      }
    } else {
      AP.ContainsRange(cfg.base, cfg.prefix, cfg.base);
      var a: u32 := if Handed(cfg, cfg.server) then cfg.server
                    else if Handed(cfg, AP.Broadcast(cfg.base, cfg.prefix)) then AP.Broadcast(cfg.base, cfg.prefix)
                    else AP.NetworkOf(cfg.base, cfg.prefix);
      var events := HandedIsEnrolled(cfg, a);
      var devices := Run(cfg, events).devices;
      var d :| d in devices && devices[d].address == a;
      assert !GoodAddress(cfg, devices[d].address);
    }
  }

  /** With the server at 10.90.0.2 in 10.90.0.0/24, the first device to join gets the server's address. */
  lemma ServerAddressEnrolled()
    ensures
      var cfg := Config(0x0A5A_0000, 24, 0x0A5A_0002);
      var join := [CreateToken("t", 1, 1), Consume("j", "t"), Pick("j", Some(0x0A5A_0002)), Insert("j", "d")];
      "d" in Run(cfg, join).devices && Run(cfg, join).devices["d"].address == cfg.server
  {
    var cfg := Config(0x0A5A_0000, 24, 0x0A5A_0002);
    assert AP.Size(24) == 256 by { AP.Pow2Values(); }
    NextIsFound(cfg, {}, 0x0A5A_0002);
    hide AP.Finds, AP.Contains, AP.Size, Run;
    var none: seq<Event> := [];
    var token, consume := CreateToken("t", 1, 1), Consume("j", "t");
    var pick, insert := Pick("j", Some(0x0A5A_0002)), Insert("j", "d");
    StartsEmpty(cfg);
    RunSnoc(cfg, none, token);
    RunSnoc(cfg, none + [token], consume);
    RunSnoc(cfg, none + [token] + [consume], pick);
    RunSnoc(cfg, none + [token] + [consume] + [pick], insert);
    var consumed := Run(cfg, none + [token] + [consume]);
    assert consumed.joins == map["j" := Consumed("t")] && Used(consumed.devices) == {};
    assert none + [token] + [consume] + [pick] + [insert] == [token, consume, pick, insert];
  }

  lemma StartsEmpty(cfg: Config)
    requires cfg.prefix <= 32
    ensures Run(cfg, []) == Init()
  {
  }

  /** What time and steps may do to a token. */
  predicate MoreUsed(now: int, t: Token, later: int, u: Token) {
    && now <= later && t.uses <= u.uses && u.maxUses == t.maxUses && u.expires == t.expires
    && (t.revoked ==> u.revoked)
    && (t.revoked || now > t.expires ==> u.uses == t.uses)
  }

  lemma StepUsesMore(cfg: Config, r: Registry, e: Event, token: string)
    requires cfg.prefix <= 32 && token in r.tokens
    ensures
      var s := Step(cfg, r, e);
      token in s.tokens && MoreUsed(r.now, r.tokens[token], s.now, s.tokens[token])
  {
    hide AP.Finds, AP.Contains;
  }

  /** Uses never decrease, the limit never changes, and a revoked or expired token gains no more uses. */
  lemma {:induction false} UsesNeverDecrease(cfg: Config, events: seq<Event>, more: seq<Event>, token: string)
    requires cfg.prefix <= 32 && token in Run(cfg, events).tokens
    ensures
      var r, s := Run(cfg, events), Run(cfg, events + more);
      token in s.tokens && MoreUsed(r.now, r.tokens[token], s.now, s.tokens[token])
    decreases |more|
  {
    if more == [] {
      assert events + more == events;
    } else {
      hide Step;
      var front, last := more[..|more| - 1], more[|more| - 1];
      UsesNeverDecrease(cfg, events, front, token);
      StepUsesMore(cfg, Run(cfg, events + front), last, token);
      assert (events + more)[..|events + more| - 1] == events + front && (events + more)[|events + more| - 1] == last;
    }
  }

  /** Revoking a token ends its use; revoking a device keeps its row and so its address. */
  lemma RevocationEffects(cfg: Config, r: Registry, token: string, device: string)
    requires cfg.prefix <= 32
    ensures !Consumable(Step(cfg, r, RevokeToken(token)), token)
    ensures
      var s := Step(cfg, r, RevokeDevice(device));
      && s.devices.Keys == r.devices.Keys && Used(s.devices) == Used(r.devices)
      && (device in r.devices ==> s.devices[device].revoked)
  {
    hide AP.Finds, AP.Contains;
    var s := Step(cfg, r, RevokeDevice(device));
    forall a ensures a in Used(s.devices) <==> a in Used(r.devices) {
      if a in Used(r.devices) {
        var d :| d in r.devices && r.devices[d].address == a;
        assert d in s.devices && s.devices[d].address == a;
      }
    }
  }

  // ---------------------------------------------------------------- the store

  datatype JoinError = InvalidToken | TokenUnusable | NetworkExhausted

  datatype StaticError = InvalidAddress | ReservedAddress | AlreadyAssigned | NoSuchDevice

  /** The invariants of the tables when no join is in progress. */
  ghost predicate Settled(cfg: Config, tokens: map<string, Token>, devices: map<string, Device>)
    requires cfg.prefix <= 32
  {
    && Distinct(devices) && (Safe(cfg) ==> AllGood(cfg, devices))
    && (forall t :: t in tokens ==> |DevicesVia(devices, t)| <= tokens[t].uses <= tokens[t].maxUses)
    && (forall d :: d in devices ==> devices[d].token in tokens)
  }

  /** A device added after its token was consumed, which leaves one use more than devices. */
  lemma AddingKeepsValid(cfg: Config, tokens: map<string, Token>, devices: map<string, Device>, device: string,
                         d: Device)
    requires cfg.prefix <= 32 && Settled(cfg, tokens, devices) && device !in devices && d.token in tokens
    requires |DevicesVia(devices, d.token)| < tokens[d.token].uses
    requires (Safe(cfg) ==> GoodAddress(cfg, d.address)) && d.address !in Used(devices)
    ensures Settled(cfg, tokens, devices[device := d])
  {
    hide DevicesVia, GoodAddress, Safe;
    forall t | t in tokens ensures |DevicesVia(devices[device := d], t)| <= tokens[t].uses <= tokens[t].maxUses {
      DevicesAfterUpdate(devices, device, d, t);
    }
  }

  lemma ReplacingKeepsValid(cfg: Config, tokens: map<string, Token>, devices: map<string, Device>, device: string,
                            d: Device)
    requires cfg.prefix <= 32 && Settled(cfg, tokens, devices) && device in devices && d.token == devices[device].token
    requires (Safe(cfg) ==> GoodAddress(cfg, d.address)) && !Taken(devices, device, d.address)
    ensures Settled(cfg, tokens, devices[device := d])
  {
    hide DevicesVia, GoodAddress, Safe;
    forall t | t in tokens ensures |DevicesVia(devices[device := d], t)| <= tokens[t].uses <= tokens[t].maxUses {
      DevicesAfterUpdate(devices, device, d, t);
    }
  }

  method PickAddress(cfg: Config, used: set<u32>) returns (found: Option<u32>)
    requires cfg.prefix <= 32
    ensures AP.Finds(cfg.base, cfg.prefix, used, found)
    ensures found.Some? ==> found.value !in used && (Safe(cfg) ==> GoodAddress(cfg, found.value))
  {
    hide GoodAddress;
    found := AP.NextIP(cfg.base, cfg.prefix, used);
    if found.Some? && Safe(cfg) {
      PickedIsGood(cfg, used, found.value);
    }
  }

  class Store {
    const cfg: Config
    var tokens: map<string, Token>
    var devices: map<string, Device>

    ghost predicate Valid()
      reads this
    {
      cfg.prefix <= 32 && Settled(cfg, tokens, devices)
    }

    constructor (cfg: Config)
      requires cfg.prefix <= 32
      ensures Valid() && this.cfg == cfg && tokens == map[] && devices == map[]
    {
      this.cfg := cfg;
      tokens, devices := map[], map[];
    }

    method ConsumeToken(token: string, now: int) returns (r: Result<(), JoinError>)
      requires Valid()
      modifies this`tokens
      ensures Valid()
      ensures r.Ok? <==> && token in old(tokens) && !old(tokens)[token].revoked && now <= old(tokens)[token].expires
                         && old(tokens)[token].uses < old(tokens)[token].maxUses
      ensures tokens == Step(cfg, Registry(now, old(tokens), devices, map[]), Consume("j", token)).tokens
      ensures r.Ok? ==> tokens == old(tokens)[token := old(tokens)[token].(uses := old(tokens)[token].uses + 1)]
      ensures r.Err? ==> tokens == old(tokens) && r.error != NetworkExhausted
    {
      if token !in tokens {
        return Err(InvalidToken);
      }
      var t := tokens[token];
      if t.revoked || now > t.expires || t.uses >= t.maxUses {
        return Err(TokenUnusable);
      }
      tokens := tokens[token := t.(uses := t.uses + 1)];
      return Ok(());
    }

    /** The three steps in a row, so the insert meets no conflict. A failure after the first step still costs a use. */
    method JoinDevice(token: string, device: string, now: int) returns (r: Result<u32, JoinError>)
      requires Valid() && device !in devices
      modifies this
      ensures Valid()
      ensures r.Ok? ==> devices == old(devices)[device := Device(r.value, false, token)]
                        && AP.Finds(cfg.base, cfg.prefix, Used(old(devices)), Some(r.value))
      ensures r.Err? ==> devices == old(devices)
      ensures r == Err(NetworkExhausted) ==> AP.Finds(cfg.base, cfg.prefix, Used(devices), None)
      ensures var paid := token in old(tokens) && !old(tokens)[token].revoked && now <= old(tokens)[token].expires
                          && old(tokens)[token].uses < old(tokens)[token].maxUses;
              && (paid <==> r.Ok? || r == Err(NetworkExhausted))
              && tokens == if paid then old(tokens)[token := old(tokens)[token].(uses := old(tokens)[token].uses + 1)]
                           else old(tokens)
    {
      hide AP.Finds, GoodAddress, Safe, DevicesVia;
      var consumed := ConsumeToken(token, now);
      if consumed.Err? {
        return Err(consumed.error);
      }
      var found := PickAddress(cfg, Used(devices));
      if found.None? {
        return Err(NetworkExhausted);
      }
      AddingKeepsValid(cfg, tokens, devices, device, Device(found.value, false, token));
      devices := devices[device := Device(found.value, false, token)];
      return Ok(found.value);
    }

    method SetDeviceVirtualIP(device: string, address: Option<u32>) returns (r: Result<(), StaticError>)
      requires Valid()
      modifies this`devices
      ensures Valid()
      ensures r.Ok? <==>
                && address.Some?
                && AP.NetworkOf(cfg.base, cfg.prefix) < address.value < AP.Broadcast(cfg.base, cfg.prefix)
                && address.value != cfg.server && device in old(devices)
                && forall d :: d in old(devices) && d != device ==> old(devices)[d].address != address.value
      ensures address.Some? ==>
                devices == Step(cfg, Registry(0, tokens, old(devices), map[]), SetStatic(device, address.value)).devices
      ensures r.Ok? ==> devices == old(devices)[device := old(devices)[device].(address := address.value)]
      ensures r.Err? ==> devices == old(devices)
    {
      if address.Some? { GoodIsInside(cfg, address.value); }
      hide AP.NetworkOf, AP.Broadcast, AP.Contains, AP.Finds, Safe, DevicesVia;
      if address.None? || !AP.Contains(cfg.base, cfg.prefix, address.value) {
        return Err(InvalidAddress);
      }
      var a := address.value;
      if a == AP.NetworkOf(cfg.base, cfg.prefix) || a == cfg.server || a == AP.Broadcast(cfg.base, cfg.prefix) {
        return Err(ReservedAddress);
      }
      if device !in devices {
        return Err(NoSuchDevice);
      }
      if exists d :: d in devices && d != device && devices[d].address == a {
        return Err(AlreadyAssigned);
      }
      var d := devices[device].(address := a);
      ReplacingKeepsValid(cfg, tokens, devices, device, d);
      devices := devices[device := d];
      return Ok(());
    }
  }
}

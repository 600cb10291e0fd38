/**
 Remote commands end to end: the server's command table, the control stream, and the client that
 deduplicates, accepts, executes and reports (internal/client/client.go, internal/control/server.go).

 The steps of one client process interleave with everything else on one clock. The stream may repeat
 and reorder what the server wrote; a report may be lost before or after the server commits it, and
 reports may reach the server at any later time.
 */
module CommandProtocol {
  import opened Words
  import CS = CommandStore

  /** A command event on the control stream. */
  datatype Copy = Copy(id: string, kind: string, expiresAt: int)

  /** Where the client is in handleControlCommand. */
  datatype Phase =
    | Idle
    | Deduping(copy: Copy)    // passed the first checks, pruning and looking up
    | Accepting(copy: Copy)   // reporting accepted
    | Recording(copy: Copy)   // the server confirmed the acceptance
    | Executing(copy: Copy)   // recorded as handled
    | Finishing(copy: Copy)   // executed, reporting the verdict

  datatype Execution = Execution(id: string, at: int)

  datatype World = World(
    now: int,
    db: CS.DB,
    acceptedAt: map<string, int>,  // when the server committed each acceptance
    stream: set<Copy>,             // everything the server ever wrote to this device
    handled: map<string, int>,     // the client's handledCommands
    phase: Phase,
    log: seq<Execution>)

  datatype Event =
    | Tick(elapsed: nat)
    | Create(id: string, device: string, kind: string, ttl: int)
    | Sweep(device: string)                              // PendingCommandsForDevice
    | Write(id: string)                                  // MarkCommandDelivered, then the stream event
    | List                                               // listCommands
    | Stray(id: string, device: string, status: CS.Status, result: string, error: string)
                                                         // any other report, delayed or foreign
    | Begin(copy: Copy)
    | Prune(id: string)
    | Lookup
    | Accept(confirmed: bool)                            // one attempt; the reply may be lost
    | Record
    | Execute                                            // restart or shutdown
    | Reconnect(confirmed: bool)                         // one attempt to report success; reconnect if confirmed
    | Verdict(status: CS.Status, result: string, error: string)
    | GiveUp

  const RECONNECT := "client.reconnect"
  const EXECUTABLE := {"system.restart", "system.shutdown", RECONNECT}

  function Init(revoked: map<string, bool>): World {
    World(0, CS.DB(map[], [], revoked), map[], {}, map[], Idle, [])
  }

  /** A report reaching the store now; the model notes the time of a committed acceptance. */
  function ReportNow(w: World, id: string, device: string, status: CS.Status, result: string, error: string): World {
    var db := CS.Report(w.db, id, device, status, result, error, w.now);
    var committed := id in w.db.commands && id in db.commands
                     && w.db.commands[id].status != CS.Accepted && db.commands[id].status == CS.Accepted;
    w.(db := db, acceptedAt := if committed then w.acceptedAt[id := w.now] else w.acceptedAt)
  }

  /** The command takes effect now. */
  function Logged(w: World, id: string, phase: Phase): World {
    w.(log := w.log + [Execution(id, w.now)], phase := phase)
  }

  function Step(device: string, w: World, e: Event): World {
    match e
    case Tick(elapsed) => w.(now := w.now + elapsed)
    case Create(id, target, kind, ttl) =>
      w.(db := CS.Step(w.db, CS.CreateOp(id, target, kind, ttl, w.now, w.now)))
    case Sweep(target) => w.(db := CS.Step(w.db, CS.PendingOp(target, w.now)))
    case Write(id) =>
      if CS.Deliverable(w.db, id, device, w.now) then
        var c := w.db.commands[id];
        w.(db := CS.Step(w.db, CS.DeliverOp(id, device, w.now)), stream := w.stream + {Copy(id, c.kind, c.expiresAt)})
      else w
    case List => w.(db := CS.Step(w.db, CS.ListOp(w.now)))
    case Stray(id, target, status, result, error) => ReportNow(w, id, target, status, result, error)
    case Begin(copy) =>
      if w.phase.Idle? && copy in w.stream && w.now <= copy.expiresAt && copy.kind in EXECUTABLE
      then w.(phase := Deduping(copy)) else w
    case Prune(id) =>
      if w.phase.Deduping? && id in w.handled && w.handled[id] < w.now then w.(handled := w.handled - {id}) else w
    case Lookup =>
      if !w.phase.Deduping? then w
      else if w.phase.copy.id in w.handled then w.(phase := Idle)
      else w.(phase := Accepting(w.phase.copy))
    case Accept(confirmed) =>
      if !w.phase.Accepting? then w
      else
        var id := w.phase.copy.id;
        var ok := CS.ReportOutcome(w.db, id, device, CS.Accepted, w.now).Ok?;
        ReportNow(w, id, device, CS.Accepted, "", "")
        .(phase := if ok && confirmed then Recording(w.phase.copy) else w.phase)
    case Record =>
      if w.phase.Recording?
      then w.(handled := w.handled[w.phase.copy.id := w.phase.copy.expiresAt], phase := Executing(w.phase.copy)) else w
    case Execute =>
      if w.phase.Executing? && w.phase.copy.kind != RECONNECT
      then Logged(w, w.phase.copy.id, Finishing(w.phase.copy)) else w
    case Reconnect(confirmed) =>
      if !(w.phase.Executing? && w.phase.copy.kind == RECONNECT) then w
      else
        var id := w.phase.copy.id;
        var ok := CS.ReportOutcome(w.db, id, device, CS.Succeeded, w.now).Ok?;
        var v := ReportNow(w, id, device, CS.Succeeded, "control connection reconnecting", "");
        if ok && confirmed then Logged(v, id, Idle) else v
    case Verdict(status, result, error) =>
      if w.phase.Finishing? then ReportNow(w, w.phase.copy.id, device, status, result, error) else w
    case GiveUp => w.(phase := Idle)
  }

  function Run(device: string, revoked: map<string, bool>, events: seq<Event>): World {
    if events == [] then Init(revoked)
    else Step(device, Run(device, revoked, events[..|events| - 1]), events[|events| - 1])
  }

  // ---------------------------------------------------------------- invariant

  type Commands = map<string, CS.Command>

  predicate Executed(log: seq<Execution>, id: string) {
    exists i :: 0 <= i < |log| && log[i].id == id
  }

  predicate Past(now: int, commands: Commands, id: string) {
    id in commands && commands[id].expiresAt < now
  }

  predicate KnownCopy(device: string, commands: Commands, copy: Copy) {
    copy.id in commands && commands[copy.id].device == device && commands[copy.id].expiresAt == copy.expiresAt
  }

  predicate AcceptanceOk(now: int, c: CS.Command, acceptedAt: map<string, int>, id: string) {
    && (id in acceptedAt ==> acceptedAt[id] <= now && acceptedAt[id] <= c.expiresAt && !CS.Waiting(c.status))
    && (CS.Reportable(c.status) ==> id in acceptedAt)
  }

  /** The server's side: an acceptance is committed once, in time, and never forgotten. */
  ghost predicate ServerOk(now: int, commands: Commands, acceptedAt: map<string, int>) {
    && (forall id :: id in acceptedAt ==> id in commands)
    && (forall id :: id in commands ==> AcceptanceOk(now, commands[id], acceptedAt, id))
  }

  ghost predicate CopiesOk(device: string, commands: Commands, stream: set<Copy>) {
    forall copy :: copy in stream ==> KnownCopy(device, commands, copy)
  }

  ghost predicate HandledOk(commands: Commands, handled: map<string, int>) {
    forall id :: id in handled ==> id in commands && handled[id] == commands[id].expiresAt
  }

  /** An executed command is remembered until its expiry has passed. */
  ghost predicate Remembered(now: int, commands: Commands, handled: map<string, int>, log: seq<Execution>) {
    forall i :: 0 <= i < |log| ==> log[i].id in handled || Past(now, commands, log[i].id)
  }

  ghost predicate PhaseOk(w: World) {
    && (!w.phase.Idle? ==> w.phase.copy in w.stream)
    && match w.phase
       case Accepting(copy) => Executed(w.log, copy.id) ==> Past(w.now, w.db.commands, copy.id)
       case Recording(copy) => copy.id in w.acceptedAt && !Executed(w.log, copy.id)
       case Executing(copy) =>
         && copy.id in w.acceptedAt && !Executed(w.log, copy.id)
         && (copy.id in w.handled || Past(w.now, w.db.commands, copy.id))
       case _ => true
  }

  ghost predicate LogOk(now: int, acceptedAt: map<string, int>, log: seq<Execution>) {
    && (forall i :: 0 <= i < |log| ==> log[i].id in acceptedAt && acceptedAt[log[i].id] <= log[i].at <= now)
    && (forall i, j :: 0 <= i < j < |log| ==> log[i].id != log[j].id)
  }

  ghost predicate Inv(device: string, w: World) {
    && ServerOk(w.now, w.db.commands, w.acceptedAt)
    && CopiesOk(device, w.db.commands, w.stream)
    && HandledOk(w.db.commands, w.handled)
    && Remembered(w.now, w.db.commands, w.handled, w.log)
    && LogOk(w.now, w.acceptedAt, w.log)
    && PhaseOk(w)
  }

  // ---------------------------------------------------------------- preservation

  /** The tables moved on: commands keep device and expiry, acceptances are kept. */
  ghost predicate MovesOn(commands: Commands, acceptedAt: map<string, int>, commands': Commands,
                          acceptedAt': map<string, int>) {
    && (forall id :: id in commands ==>
          && id in commands' && commands'[id].device == commands[id].device
          && commands'[id].expiresAt == commands[id].expiresAt)
    && (forall id :: id in acceptedAt ==> id in acceptedAt' && acceptedAt'[id] == acceptedAt[id])
  }

  /** Time passing and tables moving on under an unchanged client keep the invariant. */
  lemma MovingOnKeepsInv(device: string, w: World, v: World)
    requires Inv(device, w) && MovesOn(w.db.commands, w.acceptedAt, v.db.commands, v.acceptedAt)
    requires v.handled == w.handled && v.phase == w.phase && v.log == w.log && w.now <= v.now && w.stream <= v.stream
    requires ServerOk(v.now, v.db.commands, v.acceptedAt) && CopiesOk(device, v.db.commands, v.stream)
    ensures Inv(device, v)
  {
    hide ServerOk, CopiesOk, Executed;
    assert forall id :: Past(w.now, w.db.commands, id) ==> Past(v.now, v.db.commands, id);
  }

  lemma CopiesMoveOn(device: string, commands: Commands, acceptedAt: map<string, int>, commands': Commands,
                     acceptedAt': map<string, int>, stream: set<Copy>)
    requires CopiesOk(device, commands, stream) && MovesOn(commands, acceptedAt, commands', acceptedAt')
    ensures CopiesOk(device, commands', stream)
  {
    forall copy | copy in stream ensures KnownCopy(device, commands', copy) {
      assert KnownCopy(device, commands, copy);
    }
  }

  lemma ReportKeepsAcceptance(w: World, id: string, device: string, status: CS.Status, result: string, error: string,
                              k: string)
    requires k in w.db.commands && AcceptanceOk(w.now, w.db.commands[k], w.acceptedAt, k)
    ensures
      var v := ReportNow(w, id, device, status, result, error);
      && k in v.db.commands && AcceptanceOk(v.now, v.db.commands[k], v.acceptedAt, k)
      && (k in w.acceptedAt ==> k in v.acceptedAt && v.acceptedAt[k] == w.acceptedAt[k])
  {
    hide CS.Report;
    CS.ReportTouchesOneCommand(w.db, id, device, status, result, error, w.now);
  }

  lemma ReportKeepsServer(w: World, id: string, device: string, status: CS.Status, result: string, error: string)
    requires ServerOk(w.now, w.db.commands, w.acceptedAt)
    ensures
      var v := ReportNow(w, id, device, status, result, error);
      ServerOk(v.now, v.db.commands, v.acceptedAt) && MovesOn(w.db.commands, w.acceptedAt, v.db.commands, v.acceptedAt)
  {
    hide CS.Report, AcceptanceOk;
    CS.ReportTouchesOneCommand(w.db, id, device, status, result, error, w.now);
    var v := ReportNow(w, id, device, status, result, error);
    forall k | k in v.db.commands
      ensures AcceptanceOk(v.now, v.db.commands[k], v.acceptedAt, k)
      ensures k in w.acceptedAt ==> k in v.acceptedAt && v.acceptedAt[k] == w.acceptedAt[k]
    {
      assert AcceptanceOk(w.now, w.db.commands[k], w.acceptedAt, k);
      ReportKeepsAcceptance(w, id, device, status, result, error, k);
    }
  }

  /** Creating, delivering and expiring commands commits no acceptance. */
  lemma OtherOpsKeepServer(now: int, db: CS.DB, acceptedAt: map<string, int>, op: CS.Op)
    requires ServerOk(now, db.commands, acceptedAt) && !op.ReportOp?
    ensures
      var next := CS.Step(db, op);
      ServerOk(now, next.commands, acceptedAt) && MovesOn(db.commands, acceptedAt, next.commands, acceptedAt)
  {
    hide CS.Step;
    var next := CS.Step(db, op);
    forall id | id in db.commands
      ensures id in next.commands && next.commands[id].device == db.commands[id].device
              && next.commands[id].expiresAt == db.commands[id].expiresAt
    {
      CS.StepMovesUp(db, op, id);
    }
    forall id | id in next.commands ensures AcceptanceOk(now, next.commands[id], acceptedAt, id) {
      CS.OtherOpsAcceptNothing(db, op, id);
      if id in db.commands { assert AcceptanceOk(now, db.commands[id], acceptedAt, id); }
    }
  }

  lemma OtherOpKeepsInv(device: string, w: World, op: CS.Op)
    requires Inv(device, w) && !op.ReportOp?
    ensures Inv(device, w.(db := CS.Step(w.db, op)))
  {
    hide CS.Step, ServerOk, CopiesOk, HandledOk, Remembered, LogOk, PhaseOk, MovesOn;
    OtherOpsKeepServer(w.now, w.db, w.acceptedAt, op);
    var v := w.(db := CS.Step(w.db, op));
    CopiesMoveOn(device, w.db.commands, w.acceptedAt, v.db.commands, v.acceptedAt, w.stream);
    MovingOnKeepsInv(device, w, v);
  }

  lemma ReportKeepsInv(device: string, w: World, id: string, target: string, status: CS.Status, result: string,
                       error: string)
    requires Inv(device, w)
    ensures Inv(device, ReportNow(w, id, target, status, result, error))
  {
    hide CS.Report, ServerOk, CopiesOk, HandledOk, Remembered, LogOk, PhaseOk, MovesOn;
    ReportKeepsServer(w, id, target, status, result, error);
    var v := ReportNow(w, id, target, status, result, error);
    CopiesMoveOn(device, w.db.commands, w.acceptedAt, v.db.commands, v.acceptedAt, w.stream);
    MovingOnKeepsInv(device, w, v);
  }

  lemma TickKeepsInv(device: string, w: World, elapsed: nat)
    requires Inv(device, w)
    ensures Inv(device, w.(now := w.now + elapsed))
  {
    var v := w.(now := w.now + elapsed);
    forall id | id in w.db.commands ensures AcceptanceOk(v.now, w.db.commands[id], w.acceptedAt, id) {
      assert AcceptanceOk(w.now, w.db.commands[id], w.acceptedAt, id);
    }
    MovingOnKeepsInv(device, w, v);
  }

  lemma WriteKeepsInv(device: string, w: World, id: string)
    requires Inv(device, w)
    ensures Inv(device, Step(device, w, Write(id)))
  {
    hide ServerOk, HandledOk, Remembered, LogOk;
    if CS.Deliverable(w.db, id, device, w.now) {
      var op := CS.DeliverOp(id, device, w.now);
      OtherOpKeepsInv(device, w, op);
      CS.StepMovesUp(w.db, op, id);
    }
  }

  lemma AcceptKeepsInv(device: string, w: World, confirmed: bool)
    requires Inv(device, w)
    ensures Inv(device, Step(device, w, Accept(confirmed)))
  {
    hide CopiesOk, HandledOk, Remembered, LogOk, Executed;
    if w.phase.Accepting? {
      var id := w.phase.copy.id;
      ReportKeepsInv(device, w, id, device, CS.Accepted, "", "");
      if CS.ReportOutcome(w.db, id, device, CS.Accepted, w.now).Ok? {
        // The server answers Ok only while the command is not past its expiry, so it was not executed before.
        var v := ReportNow(w, id, device, CS.Accepted, "", "");
        assert v.db.commands[id].status == CS.Accepted && !Past(w.now, w.db.commands, id);
        assert AcceptanceOk(v.now, v.db.commands[id], v.acceptedAt, id);
      }
    }
  }

  lemma BeginKeepsInv(device: string, w: World, copy: Copy)
    requires Inv(device, w)
    ensures Inv(device, Step(device, w, Begin(copy)))
  {
    hide ServerOk, CopiesOk, HandledOk, Remembered, LogOk, Executed;
  }

  lemma LookupKeepsInv(device: string, w: World)
    requires Inv(device, w)
    ensures Inv(device, Step(device, w, Lookup))
  {
    hide ServerOk, CopiesOk, HandledOk, LogOk;
  }

  lemma PruneKeepsInv(device: string, w: World, id: string)
    requires Inv(device, w)
    ensures Inv(device, Step(device, w, Prune(id)))
  {
    hide ServerOk, CopiesOk, LogOk, Executed;
  }

  lemma RecordKeepsInv(device: string, w: World)
    requires Inv(device, w)
    ensures Inv(device, Step(device, w, Record))
  {
    hide ServerOk, LogOk, Executed;
    if w.phase.Recording? {
      assert KnownCopy(device, w.db.commands, w.phase.copy);
    }
  }

  lemma LoggingKeepsInv(device: string, w: World, next: Phase)
    requires Inv(device, w) && w.phase.Executing? && (next.Idle? || next == Finishing(w.phase.copy))
    ensures Inv(device, Logged(w, w.phase.copy.id, next))
  {
    hide ServerOk, CopiesOk, HandledOk;
    var id := w.phase.copy.id;
    assert AcceptedInTime(w, id) by { CommittedBeforeNow(w, id); }
    forall i | 0 <= i < |w.log| ensures w.log[i].id != id {
      assert !Executed(w.log, id);
    }
  }

  lemma ReconnectKeepsInv(device: string, w: World, confirmed: bool)
    requires Inv(device, w)
    ensures Inv(device, Step(device, w, Reconnect(confirmed)))
  {
    hide Inv, Logged, CS.Report, CS.ReportOutcome;
    if w.phase.Executing? && w.phase.copy.kind == RECONNECT {
      var id := w.phase.copy.id;
      ReportKeepsInv(device, w, id, device, CS.Succeeded, "control connection reconnecting", "");
      LoggingKeepsInv(device, ReportNow(w, id, device, CS.Succeeded, "control connection reconnecting", ""), Idle);
    }
  }

  predicate AcceptedInTime(w: World, id: string) {
    id in w.acceptedAt && w.acceptedAt[id] <= w.now
  }

  lemma CommittedBeforeNow(w: World, id: string)
    requires ServerOk(w.now, w.db.commands, w.acceptedAt) && id in w.acceptedAt
    ensures AcceptedInTime(w, id)
  {
    assert AcceptanceOk(w.now, w.db.commands[id], w.acceptedAt, id);
  }

  lemma GiveUpKeepsInv(device: string, w: World)
    requires Inv(device, w)
    ensures Inv(device, Step(device, w, GiveUp))
  {
    hide ServerOk, CopiesOk, HandledOk, Remembered, LogOk, Executed;
  }

  lemma VerdictKeepsInv(device: string, w: World, status: CS.Status, result: string, error: string)
    requires Inv(device, w)
    ensures Inv(device, Step(device, w, Verdict(status, result, error)))
  {
    hide Inv, ReportNow;
    if w.phase.Finishing? {
      ReportKeepsInv(device, w, w.phase.copy.id, device, status, result, error);
    }
  }

  lemma StepKeepsInv(device: string, w: World, e: Event)
    requires Inv(device, w)
    ensures Inv(device, Step(device, w, e))
  {
    hide Inv;
    match e
    case Tick(elapsed) => TickKeepsInv(device, w, elapsed);
    case Create(id, target, kind, ttl) => OtherOpKeepsInv(device, w, CS.CreateOp(id, target, kind, ttl, w.now, w.now));
    case Sweep(target) => OtherOpKeepsInv(device, w, CS.PendingOp(target, w.now));
    case Write(id) => WriteKeepsInv(device, w, id);
    case List => OtherOpKeepsInv(device, w, CS.ListOp(w.now));
    case Stray(id, target, status, result, error) => ReportKeepsInv(device, w, id, target, status, result, error);
    case Begin(copy) => BeginKeepsInv(device, w, copy);
    case Prune(id) => PruneKeepsInv(device, w, id);
    case Lookup => LookupKeepsInv(device, w);
    case Accept(confirmed) => AcceptKeepsInv(device, w, confirmed);
    case Record => RecordKeepsInv(device, w);
    case Execute =>
      if w.phase.Executing? { LoggingKeepsInv(device, w, Finishing(w.phase.copy)); }
    case Reconnect(confirmed) => ReconnectKeepsInv(device, w, confirmed);
    case Verdict(status, result, error) => VerdictKeepsInv(device, w, status, result, error);
    case GiveUp => GiveUpKeepsInv(device, w);
  }

  lemma {:induction false} RunKeepsInv(device: string, revoked: map<string, bool>, events: seq<Event>)
    ensures Inv(device, Run(device, revoked, events))
  {
    if events != [] {
      hide Inv, Step;
      RunKeepsInv(device, revoked, events[..|events| - 1]);
      StepKeepsInv(device, Run(device, revoked, events[..|events| - 1]), events[|events| - 1]);
    }
  }

  // ---------------------------------------------------------------- main results

  /**
   However deliveries repeat, reports are lost or retried, commands expire and the dedupe map is pruned,
   each command is executed at most once, and only after the server committed its acceptance, no later
   than its expiry.
   */
  lemma AtMostOnce(device: string, revoked: map<string, bool>, events: seq<Event>)
    ensures
      var w := Run(device, revoked, events);
      && (forall i, j :: 0 <= i < j < |w.log| ==> w.log[i].id != w.log[j].id)
      && (forall i :: 0 <= i < |w.log| ==>
            && w.log[i].id in w.acceptedAt && w.log[i].id in w.db.commands
            && w.acceptedAt[w.log[i].id] <= w.log[i].at
            && w.acceptedAt[w.log[i].id] <= w.db.commands[w.log[i].id].expiresAt)
  {
    RunKeepsInv(device, revoked, events);
    var w := Run(device, revoked, events);
    forall i | 0 <= i < |w.log| ensures w.acceptedAt[w.log[i].id] <= w.db.commands[w.log[i].id].expiresAt {
      assert AcceptanceOk(w.now, w.db.commands[w.log[i].id], w.acceptedAt, w.log[i].id);
    }
  }

  /** A copy of an executed command that slips past the pruned map is stopped by the server. */
  lemma ServerRefusesSecondAcceptance(device: string, revoked: map<string, bool>, events: seq<Event>, confirmed: bool)
    requires
      var w := Run(device, revoked, events);
      w.phase.Accepting? && Executed(w.log, w.phase.copy.id)
    ensures
      var w := Run(device, revoked, events);
      && CS.ReportOutcome(w.db, w.phase.copy.id, device, CS.Accepted, w.now).Err?
      && Step(device, w, Accept(confirmed)).phase == w.phase
  {
    RunKeepsInv(device, revoked, events);
  }

  lemma RunSnoc(device: string, revoked: map<string, bool>, events: seq<Event>, e: Event)
    ensures Run(device, revoked, events + [e]) == Step(device, Run(device, revoked, events), e)
  {
    assert (events + [e])[..|events + [e]| - 1] == events;
  }

  /** The client alone does not rule that case out: a run can bring an executed command back to acceptance. */
  lemma PruningAloneLeavesAGap(device: string, id: string) returns (events: seq<Event>)
    ensures
      var w := Run(device, map[device := false], events);
      w.phase.Accepting? && w.phase.copy.id == id && Executed(w.log, id)
  {
    var copy := Copy(id, "system.restart", 10);
    events := ReadAgainAtExpiry(device, id, copy);
    hide CS.Step, CS.Report, CS.ReportOutcome, Run;
    var revoked := map[device := false];
    var w;
    w, events := Append(device, revoked, events, Tick(1));
    w, events := Append(device, revoked, events, Prune(id));
    w, events := Append(device, revoked, events, Lookup);
    assert w.log[0].id == id;
  }

  lemma ReadAgainAtExpiry(device: string, id: string, copy: Copy) returns (events: seq<Event>)
    requires copy == Copy(id, "system.restart", 10)
    ensures
      var w := Run(device, map[device := false], events);
      w.now == 10 && w.phase == Deduping(copy) && w.handled == map[id := 10] && w.log == [Execution(id, 0)]
  {
    events := ExecuteOnce(device, id, copy);
    hide CS.Step, CS.Report, CS.ReportOutcome, Run;
    var revoked := map[device := false];
    var w;
    w, events := Append(device, revoked, events, Tick(10));
    w, events := Append(device, revoked, events, Begin(copy));
  }

  lemma ExecuteOnce(device: string, id: string, copy: Copy) returns (events: seq<Event>)
    requires copy == Copy(id, "system.restart", 10)
    ensures
      var w := Run(device, map[device := false], events);
      w.now == 0 && w.phase.Idle? && copy in w.stream && w.handled == map[id := 10] && w.log == [Execution(id, 0)]
  {
    events := AcceptOnce(device, id, copy);
    hide CS.Step, CS.Report, CS.ReportOutcome, Run;
    var revoked := map[device := false];
    var w;
    w, events := Append(device, revoked, events, Record);
    w, events := Append(device, revoked, events, Execute);
    w, events := Append(device, revoked, events, GiveUp);
  }

  lemma AcceptOnce(device: string, id: string, copy: Copy) returns (events: seq<Event>)
    requires copy == Copy(id, "system.restart", 10)
    ensures
      var w := Run(device, map[device := false], events);
      w.now == 0 && w.phase == Recording(copy) && w.stream == {copy} && w.handled == map[] && w.log == []
  {
    var revoked := map[device := false];
    var w;
    events := [];
    w, events := Append(device, revoked, events, Create(id, device, "system.restart", 10));
    w, events := Append(device, revoked, events, Write(id));
    w, events := Append(device, revoked, events, Begin(copy));
    w, events := Append(device, revoked, events, Lookup);
    w, events := Append(device, revoked, events, Accept(true));
  }

  lemma Append(device: string, revoked: map<string, bool>, events: seq<Event>, e: Event)
    returns (w: World, more: seq<Event>)
    ensures more == events + [e] && w == Run(device, revoked, more) == Step(device, Run(device, revoked, events), e)
  {
    RunSnoc(device, revoked, events, e);
    more := events + [e];
    w := Run(device, revoked, more);
  }

  // ---------------------------------------------------------------- the client's code

  /** One attempt of reportCommandResult: does it reach the server, when, and does the reply come back? */
  datatype Attempt = Attempt(reaches: bool, at: int, replies: bool)

  /** The store after a series of attempts that stops at the first confirmed one. */
  function Tried(db: CS.DB, id: string, device: string, status: CS.Status, result: string, error: string,
                 attempts: seq<Attempt>): (CS.DB, bool)
    decreases attempts
  {
    if attempts == [] then (db, false)
    else
      var a := attempts[0];
      if !a.reaches then Tried(db, id, device, status, result, error, attempts[1..])
      else
        var next := CS.Report(db, id, device, status, result, error, a.at);
        if a.replies && CS.ReportOutcome(db, id, device, status, a.at).Ok? then (next, true)
        else Tried(next, id, device, status, result, error, attempts[1..])
  }

  /** However often a report is retried, it is recorded at most once. */
  lemma {:induction false} RetriesRecordOnce(db: CS.DB, id: string, device: string, status: CS.Status, result: string,
                                             error: string, attempts: seq<Attempt>)
    requires id in db.commands
    ensures
      var rows := Tried(db, id, device, status, result, error, attempts).0.rows;
      rows == db.rows || (rows == db.rows + [CS.Row(id, status, result)] && db.commands[id].status != status)
    decreases attempts
  {
    if db.commands[id].status == status {
      AfterSuccessOnlyRepeats(db, id, device, status, result, error, attempts);
    } else if attempts != [] {
      var a := attempts[0];
      var next := if a.reaches then CS.Report(db, id, device, status, result, error, a.at) else db;
      RetriesRecordOnce(next, id, device, status, result, error, attempts[1..]);
      if next.rows != db.rows {
        AfterSuccessOnlyRepeats(next, id, device, status, result, error, attempts[1..]);
      }
    }
  }

  lemma {:induction false} AfterSuccessOnlyRepeats(db: CS.DB, id: string, device: string, status: CS.Status,
                                                   result: string, error: string, attempts: seq<Attempt>)
    requires id in db.commands && (db.commands[id].status == status || db.commands[id].status == CS.Expired)
    ensures Tried(db, id, device, status, result, error, attempts).0.rows == db.rows
    decreases attempts
  {
    if attempts != [] {
      var a := attempts[0];
      var next := if a.reaches then CS.Report(db, id, device, status, result, error, a.at) else db;
      AfterSuccessOnlyRepeats(next, id, device, status, result, error, attempts[1..]);
    }
  }

  datatype Handled = InvalidOrExpired | OutsideAllowlist | AlreadyHandled | AcceptFailed
                   | ReconnectRequested | ReportFailed | Done

  /** What one call of handleControlCommand leaves behind. */
  datatype Handling = Handling(db: CS.DB, handled: map<string, int>, result: Handled, executed: bool)

  /** The entries not past their expiry; the clock is read anew for each entry. */
  function Unexpired(handled: map<string, int>, clock: string -> int): map<string, int> {
    map id | id in handled && clock(id) <= handled[id] :: handled[id]
  }

  /** The part after the acceptance was confirmed and the command remembered. */
  function Finish(device: string, db: CS.DB, handled: map<string, int>, copy: Copy, succeeds: bool,
                  finishing: seq<Attempt>): Handling
  {
    if copy.kind == RECONNECT then
      var t := Tried(db, copy.id, device, CS.Succeeded, "control connection reconnecting", "", finishing);
      Handling(t.0, handled, if t.1 then ReconnectRequested else ReportFailed, t.1)
    else
      var t := if succeeds then Tried(db, copy.id, device, CS.Succeeded, "system action scheduled", "", finishing)
               else Tried(db, copy.id, device, CS.Failed, "", "system action failed", finishing);
      Handling(t.0, handled, if t.1 then Done else ReportFailed, true)
  }

  function Handle(device: string, db: CS.DB, handled: map<string, int>, version: int, copy: Copy, now: int,
                  clock: string -> int, accepting: seq<Attempt>, succeeds: bool, finishing: seq<Attempt>): Handling
  {
    if version != 1 || copy.id == "" || now > copy.expiresAt then Handling(db, handled, InvalidOrExpired, false)
    else if copy.kind !in EXECUTABLE then Handling(db, handled, OutsideAllowlist, false)
    else
      var kept := Unexpired(handled, clock);
      if copy.id in kept then Handling(db, kept, AlreadyHandled, false)
      else
        var t := Tried(db, copy.id, device, CS.Accepted, "", "", accepting);
        if !t.1 then Handling(t.0, kept, AcceptFailed, false)
        else Finish(device, t.0, kept[copy.id := copy.expiresAt], copy, succeeds, finishing)
  }

  // ---------------------------------------------------------------- what a call decides and leaves

  /** The table after the first k attempts, without stopping. */
  function Attempted(db: CS.DB, id: string, device: string, status: CS.Status, result: string, error: string,
                     attempts: seq<Attempt>, k: nat): CS.DB
    requires k <= |attempts|
  {
    if k == 0 then db
    else
      var before := Attempted(db, id, device, status, result, error, attempts, k - 1);
      if !attempts[k - 1].reaches then before
      else CS.Report(before, id, device, status, result, error, attempts[k - 1].at)
  }

  /** The k-th attempt reaches the server, is accepted there, and its reply comes back. */
  predicate ConfirmedAt(db: CS.DB, id: string, device: string, status: CS.Status, result: string, error: string,
                        attempts: seq<Attempt>, k: nat)
    requires k < |attempts|
  {
    && attempts[k].reaches && attempts[k].replies
    && CS.ReportOutcome(Attempted(db, id, device, status, result, error, attempts, k), id, device, status,
                        attempts[k].at).Ok?
  }

  lemma {:induction false} AttemptedRest(db: CS.DB, id: string, device: string, status: CS.Status, result: string,
                                         error: string, attempts: seq<Attempt>, k: nat)
    requires 0 < k <= |attempts|
    ensures
      var next := Attempted(db, id, device, status, result, error, attempts, 1);
      Attempted(db, id, device, status, result, error, attempts, k)
      == Attempted(next, id, device, status, result, error, attempts[1..], k - 1)
  {
    hide CS.Report;
    if k > 1 { AttemptedRest(db, id, device, status, result, error, attempts, k - 1); }
  }

  /** The retry loop stops at the first confirmed attempt and at no other. */
  lemma {:induction false} TriedStopsAtFirst(db: CS.DB, id: string, device: string, status: CS.Status, result: string,
                                             error: string, attempts: seq<Attempt>) returns (k: nat)
    ensures k <= |attempts|
    ensures forall i :: 0 <= i < k ==> !ConfirmedAt(db, id, device, status, result, error, attempts, i)
    ensures k < |attempts| ==> ConfirmedAt(db, id, device, status, result, error, attempts, k)
    ensures Tried(db, id, device, status, result, error, attempts)
            == (Attempted(db, id, device, status, result, error, attempts, if k < |attempts| then k + 1 else k),
                k < |attempts|)
    decreases |attempts|
  {
    hide CS.Report, CS.ReportOutcome;
    if attempts == [] {
      k := 0;
    } else if ConfirmedAt(db, id, device, status, result, error, attempts, 0) {
      k := 0;
    } else {
      var next := Attempted(db, id, device, status, result, error, attempts, 1);
      var rest := TriedStopsAtFirst(next, id, device, status, result, error, attempts[1..]);
      k := rest + 1;
      forall i | 0 < i < |attempts|
        ensures ConfirmedAt(db, id, device, status, result, error, attempts, i)
                <==> ConfirmedAt(next, id, device, status, result, error, attempts[1..], i - 1)
      {
        AttemptedRest(db, id, device, status, result, error, attempts, i);
      }
      AttemptedRest(db, id, device, status, result, error, attempts, if k < |attempts| then k + 1 else k);
    }
  }

  predicate ValidCopy(version: int, copy: Copy, now: int) {
    version == 1 && copy.id != "" && now <= copy.expiresAt
  }

  predicate AllowedCopy(copy: Copy) {
    copy.kind == "system.restart" || copy.kind == "system.shutdown" || copy.kind == "client.reconnect"
  }

  predicate Remembers(handled: map<string, int>, clock: string -> int, id: string) {
    id in handled && clock(id) <= handled[id]
  }

  /** A refused call, in the order of its checks; only a refusal after pruning changes the map. */
  lemma HandleRefuses(device: string, db: CS.DB, handled: map<string, int>, version: int, copy: Copy, now: int,
                      clock: string -> int, accepting: seq<Attempt>, succeeds: bool, finishing: seq<Attempt>)
    ensures
      var h := Handle(device, db, handled, version, copy, now, clock, accepting, succeeds, finishing);
      var t := Tried(db, copy.id, device, CS.Accepted, "", "", accepting);
      var valid, allowed := ValidCopy(version, copy, now), AllowedCopy(copy);
      var known := Remembers(handled, clock, copy.id);
      && (h.result == InvalidOrExpired <==> !valid)
      && (h.result == OutsideAllowlist <==> valid && !allowed)
      && (h.result == AlreadyHandled <==> valid && allowed && known)
      && (h.result == AcceptFailed <==> valid && allowed && !known && !t.1)
      && (!(valid && allowed) ==> !h.executed && h.db == db && h.handled == handled)
      && (valid && allowed && known ==> !h.executed && h.db == db)
      && (valid && allowed && !known && !t.1 ==> !h.executed && h.db == t.0 && copy.id !in h.handled)
  {
    hide Tried;
  }

  /** A call whose acceptance was confirmed remembers the command, executes it and keeps the other unexpired entries. */
  lemma HandleExecutes(device: string, db: CS.DB, handled: map<string, int>, version: int, copy: Copy, now: int,
                       clock: string -> int, accepting: seq<Attempt>, succeeds: bool, finishing: seq<Attempt>)
    requires ValidCopy(version, copy, now) && AllowedCopy(copy) && !Remembers(handled, clock, copy.id)
    requires Tried(db, copy.id, device, CS.Accepted, "", "", accepting).1
    ensures
      var h := Handle(device, db, handled, version, copy, now, clock, accepting, succeeds, finishing);
      && copy.id in h.handled && h.handled[copy.id] == copy.expiresAt
      && (copy.kind != "client.reconnect" ==> h.executed && (h.result == Done || h.result == ReportFailed))
      && (copy.kind == "client.reconnect" ==>
            if h.executed then h.result == ReconnectRequested else h.result == ReportFailed)
      && (forall id :: id != copy.id ==>
            (id in h.handled <==> Remembers(handled, clock, id)) && (id in h.handled ==> h.handled[id] == handled[id]))
  {
    hide Tried;
  }

  /** A series of reports leaves a command as it was, with the reported status, or expired. */
  lemma {:induction false} TriedStatus(db: CS.DB, id: string, device: string, status: CS.Status, result: string,
                                       error: string, attempts: seq<Attempt>)
    requires id in db.commands
    ensures
      var after := Tried(db, id, device, status, result, error, attempts).0;
      && id in after.commands
      && (after.commands[id].status == db.commands[id].status || after.commands[id].status == status
          || after.commands[id].status == CS.Expired)
    decreases |attempts|
  {
    if attempts != [] {
      var a := attempts[0];
      var next := if a.reaches then CS.Report(db, id, device, status, result, error, a.at) else db;
      TriedStatus(next, id, device, status, result, error, attempts[1..]);
    }
  }

  /** What the client reports is what happened: success of the action or of a reconnect, failure of the action only. */
  lemma VerdictIsTrue(device: string, db: CS.DB, handled: map<string, int>, version: int, copy: Copy, now: int,
                      clock: string -> int, accepting: seq<Attempt>, succeeds: bool, finishing: seq<Attempt>)
    requires copy.id in db.commands
    ensures
      var after := Handle(device, db, handled, version, copy, now, clock, accepting, succeeds, finishing).db.commands;
      && copy.id in after
      && (after[copy.id].status == CS.Succeeded && db.commands[copy.id].status != CS.Succeeded ==>
            succeeds || copy.kind == "client.reconnect")
      && (after[copy.id].status == CS.Failed && db.commands[copy.id].status != CS.Failed ==>
            !succeeds && copy.kind != "client.reconnect")
  {
    hide Tried;
    TriedStatus(db, copy.id, device, CS.Accepted, "", "", accepting);
    var t := Tried(db, copy.id, device, CS.Accepted, "", "", accepting);
    TriedStatus(t.0, copy.id, device, CS.Succeeded, "control connection reconnecting", "", finishing);
    TriedStatus(t.0, copy.id, device, CS.Succeeded, "system action scheduled", "", finishing);
    TriedStatus(t.0, copy.id, device, CS.Failed, "", "system action failed", finishing);
  }

  /** A report that reaches the server at once and is answered is recorded. */
  lemma TriedAtOnce(db: CS.DB, id: string, device: string, status: CS.Status, result: string, error: string,
                    attempts: seq<Attempt>)
    requires attempts != [] && attempts[0].reaches && attempts[0].replies && id in db.commands
    requires db.commands[id].device == device && attempts[0].at <= db.commands[id].expiresAt
    requires if status == CS.Accepted then db.commands[id].status == CS.Queued || db.commands[id].status == CS.Delivered
             else (status == CS.Succeeded || status == CS.Failed) && db.commands[id].status == CS.Accepted
    ensures
      var c := db.commands[id].(status := status, result := result, error := error);
      Tried(db, id, device, status, result, error, attempts)
      == (CS.DB(db.commands[id := c], db.rows + [CS.Row(id, status, result)], db.revoked), true)
  {
  }

  /**
   When nothing interferes, a command that is waiting, in time and not remembered is executed, and the server ends up
   with the two result rows and the verdict of the action, in the client's words.
   */
  lemma CommandIsCarriedOut(device: string, db: CS.DB, handled: map<string, int>, copy: Copy, now: int,
                            clock: string -> int, accepting: seq<Attempt>, succeeds: bool, finishing: seq<Attempt>)
    requires copy.id != "" && now <= copy.expiresAt
    requires copy.kind == "system.restart" || copy.kind == "system.shutdown" || copy.kind == "client.reconnect"
    requires copy.id in handled ==> clock(copy.id) > handled[copy.id]
    requires copy.id in db.commands && db.commands[copy.id].device == device
    requires db.commands[copy.id].status == CS.Queued || db.commands[copy.id].status == CS.Delivered
    requires accepting != [] && accepting[0].reaches && accepting[0].replies
    requires finishing != [] && finishing[0].reaches && finishing[0].replies
    requires accepting[0].at <= db.commands[copy.id].expiresAt && finishing[0].at <= db.commands[copy.id].expiresAt
    ensures
      var h := Handle(device, db, handled, 1, copy, now, clock, accepting, succeeds, finishing);
      var reconnect := copy.kind == "client.reconnect";
      var verdict := if reconnect || succeeds then CS.Succeeded else CS.Failed;
      var result := if reconnect then "control connection reconnecting"
                    else if succeeds then "system action scheduled" else "";
      var error := if reconnect || succeeds then "" else "system action failed";
      && h.executed && h.result == (if reconnect then ReconnectRequested else Done)
      && h.db.commands
         == db.commands[copy.id := db.commands[copy.id].(status := verdict, result := result, error := error)]
      && h.db.rows == db.rows + [CS.Row(copy.id, CS.Accepted, "")] + [CS.Row(copy.id, verdict, result)]
  {
    TriedAtOnce(db, copy.id, device, CS.Accepted, "", "", accepting);
    var accepted := Tried(db, copy.id, device, CS.Accepted, "", "", accepting).0;
    if copy.kind == "client.reconnect" {
      TriedAtOnce(accepted, copy.id, device, CS.Succeeded, "control connection reconnecting", "", finishing);
    } else if succeeds {
      TriedAtOnce(accepted, copy.id, device, CS.Succeeded, "system action scheduled", "", finishing);
    } else {
      TriedAtOnce(accepted, copy.id, device, CS.Failed, "", "system action failed", finishing);
    }
    hide Tried;
  }

  // ---------------------------------------------------------------- the code as part of a run

  function RunFrom(device: string, w: World, events: seq<Event>): World
    decreases |events|
  {
    if events == [] then w else RunFrom(device, Step(device, w, events[0]), events[1..])
  }

  lemma {:induction false} RunFromAppend(device: string, w: World, a: seq<Event>, b: seq<Event>)
    ensures RunFrom(device, w, a + b) == RunFrom(device, RunFrom(device, w, a), b)
    decreases |a|
  {
    hide Step;
    if a == [] {
      assert a + b == b;
    } else {
      assert (a + b)[0] == a[0] && (a + b)[1..] == a[1..] + b;
      RunFromAppend(device, Step(device, w, a[0]), a[1..], b);
    }
  }

  lemma RunFromFirst(device: string, w: World, e: Event, more: seq<Event>)
    ensures RunFrom(device, w, [e] + more) == RunFrom(device, Step(device, w, e), more)
  {
    assert ([e] + more)[1..] == more;
  }

  /** Continuing a run is a run. */
  lemma {:induction false} RunContinues(device: string, revoked: map<string, bool>, before: seq<Event>,
                                        more: seq<Event>)
    ensures Run(device, revoked, before + more) == RunFrom(device, Run(device, revoked, before), more)
    decreases |more|
  {
    hide Step;
    if more == [] {
      assert before + more == before;
    } else {
      RunSnoc(device, revoked, before, more[0]);
      assert before + [more[0]] + more[1..] == before + more;
      RunContinues(device, revoked, before + [more[0]], more[1..]);
    }
  }

  /** Attempts happen one after the other within a span of time. */
  ghost predicate Timely(from: int, attempts: seq<Attempt>, until: int) {
    && from <= until
    && (forall i :: 0 <= i < |attempts| ==> from <= attempts[i].at <= until)
    && (forall i, j :: 0 <= i < j < |attempts| ==> attempts[i].at <= attempts[j].at)
  }

  lemma TimelyRest(from: int, attempts: seq<Attempt>, until: int)
    requires Timely(from, attempts, until)
    ensures from <= until
    ensures attempts != [] ==>
              && from <= attempts[0].at && Timely(from, attempts[1..], until)
              && Timely(attempts[0].at, attempts[1..], until)
  {
  }

  lemma {:induction false} PruneSeries(device: string, w: World, clock: string -> int) returns (events: seq<Event>)
    requires w.phase.Deduping? && forall id :: clock(id) <= w.now
    ensures RunFrom(device, w, events) == w.(handled := Unexpired(w.handled, clock))
    decreases |w.handled|
  {
    if id :| id in w.handled && w.handled[id] < clock(id) {
      var v := Step(device, w, Prune(id));
      assert |v.handled.Keys| < |w.handled.Keys| by { assert v.handled.Keys == w.handled.Keys - {id}; }
      var rest := PruneSeries(device, v, clock);
      assert Unexpired(v.handled, clock) == Unexpired(w.handled, clock);
      RunFromFirst(device, w, Prune(id), rest);
      events := [Prune(id)] + rest;
    } else {
      assert Unexpired(w.handled, clock) == w.handled;
      events := [];
    }
  }

  /** Waiting for an attempt and making it. */
  lemma OneAttempt(device: string, w: World, at: int, e: Event, more: seq<Event>)
    requires w.now <= at
    ensures RunFrom(device, w, [Tick(at - w.now), e] + more)
            == RunFrom(device, Step(device, w.(now := at), e), more)
  {
    hide RunFrom;
    var tick := Tick(at - w.now);
    assert [tick, e] + more == [tick] + ([e] + more);
    RunFromFirst(device, w, tick, [e] + more);
    RunFromFirst(device, w.(now := at), e, more);
  }

  /** The client's part of the state, and time. */
  predicate OnlyReported(w: World, v: World, until: int) {
    v.handled == w.handled && v.stream == w.stream && w.now <= v.now <= until
  }

  lemma NoEvents(device: string, w: World)
    ensures RunFrom(device, w, []) == w
  {
  }

  lemma {:induction false} AcceptSeries(device: string, w: World, attempts: seq<Attempt>, until: int)
    returns (events: seq<Event>)
    requires w.phase.Accepting? && Timely(w.now, attempts, until)
    ensures
      var v, t := RunFrom(device, w, events), Tried(w.db, w.phase.copy.id, device, CS.Accepted, "", "", attempts);
      && OnlyReported(w, v, until) && v.db == t.0 && v.log == w.log
      && v.phase == if t.1 then Recording(w.phase.copy) else w.phase
    decreases |attempts|
  {
    hide CS.Report, CS.ReportOutcome, CS.Step, Timely;
    TimelyRest(w.now, attempts, until);
    events := [];
    if attempts != [] {
      var a := attempts[0];
      if a.reaches {
        var v := Step(device, w.(now := a.at), Accept(a.replies));
        var rest := [];
        if v.phase.Accepting? { rest := AcceptSeries(device, v, attempts[1..], until); }
        OneAttempt(device, w, a.at, Accept(a.replies), rest);
        events := [Tick(a.at - w.now), Accept(a.replies)] + rest;
      } else {
        events := AcceptSeries(device, w, attempts[1..], until);
      }
    }
  }

  lemma VerdictEffect(device: string, w: World, at: int, status: CS.Status, result: string, error: string)
    requires w.phase.Finishing?
    ensures
      var v := Step(device, w.(now := at), Verdict(status, result, error));
      && v.db == CS.Report(w.db, w.phase.copy.id, device, status, result, error, at) && v.now == at
      && v.handled == w.handled && v.stream == w.stream && v.phase == w.phase && v.log == w.log
  {
    hide CS.Report;
  }

  lemma {:induction false} VerdictSeries(device: string, w: World, status: CS.Status, result: string, error: string,
                                         attempts: seq<Attempt>, until: int) returns (events: seq<Event>)
    requires w.phase.Finishing? && Timely(w.now, attempts, until)
    ensures
      var v, t := RunFrom(device, w, events), Tried(w.db, w.phase.copy.id, device, status, result, error, attempts);
      OnlyReported(w, v, until) && v.db == t.0 && v.log == w.log && v.phase == w.phase
    decreases |attempts|
  {
    hide CS.Report, CS.ReportOutcome, Step, RunFrom, Timely;
    TimelyRest(w.now, attempts, until);
    NoEvents(device, w);
    events := [];
    if attempts != [] {
      var a := attempts[0];
      if a.reaches {
        var e := Verdict(status, result, error);
        var v := Step(device, w.(now := a.at), e);
        VerdictEffect(device, w, a.at, status, result, error);
        NoEvents(device, v);
        var rest := [];
        if !(a.replies && CS.ReportOutcome(w.db, w.phase.copy.id, device, status, a.at).Ok?) {
          rest := VerdictSeries(device, v, status, result, error, attempts[1..], until);
        }
        OneAttempt(device, w, a.at, e, rest);
        events := [Tick(a.at - w.now), e] + rest;
      } else {
        events := VerdictSeries(device, w, status, result, error, attempts[1..], until);
      }
    }
  }

  lemma {:induction false} ReconnectSeries(device: string, w: World, attempts: seq<Attempt>, until: int)
    returns (events: seq<Event>)
    requires w.phase.Executing? && w.phase.copy.kind == RECONNECT && Timely(w.now, attempts, until)
    ensures
      var v := RunFrom(device, w, events);
      var t := Tried(w.db, w.phase.copy.id, device, CS.Succeeded, "control connection reconnecting", "", attempts);
      && OnlyReported(w, v, until) && v.db == t.0
      && v.log == (if t.1 then w.log + [Execution(w.phase.copy.id, v.now)] else w.log)
    decreases |attempts|
  {
    hide CS.Report, CS.ReportOutcome, CS.Step, Timely;
    TimelyRest(w.now, attempts, until);
    events := [];
    if attempts != [] {
      var a := attempts[0];
      if a.reaches {
        var v := Step(device, w.(now := a.at), Reconnect(a.replies));
        var rest := [];
        if v.phase.Executing? { rest := ReconnectSeries(device, v, attempts[1..], until); }
        OneAttempt(device, w, a.at, Reconnect(a.replies), rest);
        events := [Tick(a.at - w.now), Reconnect(a.replies)] + rest;
      } else {
        events := ReconnectSeries(device, w, attempts[1..], until);
      }
    }
  }

  /** What a world shows of one call of handleControlCommand. */
  predicate Shows(w: World, v: World, copy: Copy, h: Handling) {
    && v.db == h.db && v.handled == h.handled && v.stream == w.stream
    && (if h.executed then |v.log| == |w.log| + 1 && v.log[..|w.log|] == w.log && v.log[|w.log|].id == copy.id
        else v.log == w.log)
  }

  lemma FinishIsRun(device: string, w: World, succeeds: bool, finishing: seq<Attempt>, until: int)
    returns (events: seq<Event>)
    requires w.phase.Executing? && Timely(w.now, finishing, until)
    ensures Shows(w, RunFrom(device, w, events), w.phase.copy,
                  Finish(device, w.db, w.handled, w.phase.copy, succeeds, finishing))
  {
    hide Tried;
    if w.phase.copy.kind == RECONNECT {
      events := ReconnectSeries(device, w, finishing, until);
    } else {
      var v := Step(device, w, Execute);
      var rest;
      if succeeds {
        rest := VerdictSeries(device, v, CS.Succeeded, "system action scheduled", "", finishing, until);
      } else {
        rest := VerdictSeries(device, v, CS.Failed, "", "system action failed", finishing, until);
      }
      RunFromFirst(device, w, Execute, rest);
      events := [Execute] + rest;
    }
  }

  /** The first checks, pruning and the lookup. */
  lemma LookupIsRun(device: string, w: World, copy: Copy, clock: string -> int, later: int) returns (events: seq<Event>)
    requires w.phase.Idle? && copy in w.stream && w.now <= copy.expiresAt && copy.kind in EXECUTABLE
    requires w.now <= later && forall id :: clock(id) <= later
    ensures
      var kept := Unexpired(w.handled, clock);
      RunFrom(device, w, events)
      == w.(now := later, handled := kept, phase := if copy.id in kept then Idle else Accepting(copy))
  {
    hide Unexpired, CS.Report, CS.ReportOutcome, CS.Step;
    var begun := Step(device, w, Begin(copy)).(now := later);
    var pruning := PruneSeries(device, begun, clock);
    var pruned := RunFrom(device, begun, pruning);
    hide RunFrom;
    RunFromAppend(device, begun, pruning, [Lookup]);
    RunFromFirst(device, pruned, Lookup, []);
    assert [Lookup] + [] == [Lookup];
    NoEvents(device, Step(device, pruned, Lookup));
    var tick := Tick(later - w.now);
    RunFromFirst(device, Step(device, w, Begin(copy)), tick, pruning + [Lookup]);
    RunFromFirst(device, w, Begin(copy), [tick] + (pruning + [Lookup]));
    events := [Begin(copy)] + ([tick] + (pruning + [Lookup]));
  }

  /** From the acceptance on. */
  lemma AcceptIsRun(device: string, w: World, accepting: seq<Attempt>, succeeds: bool, finishing: seq<Attempt>,
                    middle: int, until: int) returns (events: seq<Event>)
    requires w.phase.Accepting? && Timely(w.now, accepting, middle) && Timely(middle, finishing, until)
    ensures
      var copy := w.phase.copy;
      var t := Tried(w.db, copy.id, device, CS.Accepted, "", "", accepting);
      Shows(w, RunFrom(device, w, events), copy,
            if !t.1 then Handling(t.0, w.handled, AcceptFailed, false)
            else Finish(device, t.0, w.handled[copy.id := copy.expiresAt], copy, succeeds, finishing))
  {
    hide Tried, Finish, CS.Report, CS.ReportOutcome, CS.Step;
    events := AcceptSeries(device, w, accepting, middle);
    var accepted := RunFrom(device, w, events);
    hide RunFrom;
    if accepted.phase.Recording? {
      var recorded := Step(device, accepted, Record);
      assert Timely(recorded.now, finishing, until);
      var rest := FinishIsRun(device, recorded, succeeds, finishing, until);
      RunFromFirst(device, accepted, Record, rest);
      RunFromAppend(device, w, events, [Record] + rest);
      events := events + ([Record] + rest);
    }
  }

  /** One call of handleControlCommand is part of a run: its events lead to the tables, map and executions it leaves. */
  lemma HandleIsRun(device: string, w: World, version: int, copy: Copy, clock: string -> int, later: int,
                    accepting: seq<Attempt>, succeeds: bool, finishing: seq<Attempt>, middle: int, until: int)
    returns (events: seq<Event>)
    requires w.phase.Idle? && copy in w.stream
    requires w.now <= later && (forall id :: clock(id) <= later)
    requires Timely(later, accepting, middle) && Timely(middle, finishing, until)
    ensures
      var h := Handle(device, w.db, w.handled, version, copy, w.now, clock, accepting, succeeds, finishing);
      var v := RunFrom(device, w, events);
      Shows(w, v, copy, h) && v.phase.Idle?
  {
    hide Tried, Finish, Unexpired, CS.Report, CS.ReportOutcome, CS.Step;
    if version != 1 || copy.id == "" || w.now > copy.expiresAt || copy.kind !in EXECUTABLE {
      events := [];
    } else {
      events := LookupIsRun(device, w, copy, clock, later);
      var looked := RunFrom(device, w, events);
      hide RunFrom;
      if looked.phase.Accepting? {
        var rest := AcceptIsRun(device, looked, accepting, succeeds, finishing, middle, until);
        var v := RunFrom(device, looked, rest);
        RunFromAppend(device, looked, rest, [GiveUp]);
        RunFromFirst(device, v, GiveUp, []);
        assert [GiveUp] + [] == [GiveUp];
        NoEvents(device, Step(device, v, GiveUp));
        RunFromAppend(device, w, events, rest + [GiveUp]);
        events := events + (rest + [GiveUp]);
      }
    }
  }

  /**
   After any run a call continues the run, and executes its command only if no earlier call did and after the
   server committed its acceptance, no later than its expiry.
   */
  lemma CodeExecutesAtMostOnce(device: string, revoked: map<string, bool>, before: seq<Event>, version: int, copy: Copy,
                               clock: string -> int, later: int, accepting: seq<Attempt>, succeeds: bool,
                               finishing: seq<Attempt>, middle: int, until: int) returns (events: seq<Event>)
    requires
      var w := Run(device, revoked, before);
      w.phase.Idle? && copy in w.stream && w.now <= later && forall id :: clock(id) <= later
    requires Timely(later, accepting, middle) && Timely(middle, finishing, until)
    ensures
      var w, v := Run(device, revoked, before), Run(device, revoked, before + events);
      var h := Handle(device, w.db, w.handled, version, copy, w.now, clock, accepting, succeeds, finishing);
      && Shows(w, v, copy, h)
      && (h.executed ==>
            && !Executed(w.log, copy.id)
            && copy.id in v.acceptedAt && v.acceptedAt[copy.id] <= v.log[|w.log|].at
            && copy.id in v.db.commands && v.acceptedAt[copy.id] <= v.db.commands[copy.id].expiresAt)
  {
    hide Handle, Run, RunFrom;
    var w := Run(device, revoked, before);
    events := HandleIsRun(device, w, version, copy, clock, later, accepting, succeeds, finishing, middle, until);
    RunContinues(device, revoked, before, events);
    AtMostOnce(device, revoked, before + events);
    var v := RunFrom(device, w, events);
    forall i | 0 <= i < |w.log| && |v.log| > |w.log| && v.log[..|w.log|] == w.log
      ensures w.log[i].id != v.log[|w.log|].id
    {
      assert v.log[..|w.log|][i] == w.log[i];
    }
  }

  class Client {
    const device: string
    var handled: map<string, int>

    constructor (device: string)
      ensures this.device == device && handled == map[]
    {
      this.device := device;
      handled := map[];
    }

    /** The pruning loop of handleControlCommand. */
    method PruneHandled(clock: string -> int)
      modifies this
      ensures handled == Unexpired(old(handled), clock)
    {
      var left := handled.Keys;
      while left != {}
        invariant left <= handled.Keys
        invariant forall id :: id in handled ==> id in old(handled) && handled[id] == old(handled)[id]
        invariant forall id :: id in old(handled) && (id in left || clock(id) <= old(handled)[id]) ==> id in handled
        invariant forall id :: id in handled && id !in left ==> clock(id) <= old(handled)[id]
        decreases left
      {
        var id :| id in left;
        left := left - {id};
        if clock(id) > handled[id] {
          handled := handled - {id};
        }
      }
    }

    method ReportCommandResult(store: CS.Store, id: string, status: CS.Status, result: string, error: string,
                               attempts: seq<Attempt>) returns (confirmed: bool)
      requires CS.RowsOk(store.View()) && |attempts| == 3
      modifies store
      ensures CS.RowsOk(store.View())
      ensures (store.View(), confirmed) == Tried(old(store.View()), id, device, status, result, error, attempts)
    {
      hide CS.RowsOk, CS.Reported, CS.Report, CS.ReportOutcome;
      for attempt := 0 to 3
        invariant CS.RowsOk(store.View())
        invariant Tried(old(store.View()), id, device, status, result, error, attempts)
                  == Tried(store.View(), id, device, status, result, error, attempts[attempt..])
      {
        var a := attempts[attempt];
        assert attempts[attempt..][1..] == attempts[attempt + 1..];
        if a.reaches {
          var r := store.UpdateCommandResult(id, device, status, result, error, a.at);
          if r.Ok? && a.replies {
            return true;
          }
        }
      }
      return false;
    }

    /** handleControlCommand; execution itself is the effect reported by executed. */
    method HandleControlCommand(store: CS.Store, version: int, copy: Copy, now: int, clock: string -> int,
                                accepting: seq<Attempt>, succeeds: bool, finishing: seq<Attempt>)
      returns (r: Handled, executed: bool)
      requires CS.RowsOk(store.View()) && |accepting| == 3 && |finishing| == 3
      modifies this, store
      ensures CS.RowsOk(store.View())
      ensures Handling(store.View(), handled, r, executed)
              == Handle(device, old(store.View()), old(handled), version, copy, now, clock, accepting, succeeds,
                        finishing)
    {
      executed := false;
      if version != 1 || copy.id == "" || now > copy.expiresAt {
        return InvalidOrExpired, false;
      }
      if copy.kind != "system.restart" && copy.kind != "system.shutdown" && copy.kind != "client.reconnect" {
        return OutsideAllowlist, false;
      }
      PruneHandled(clock);
      if copy.id in handled {
        return AlreadyHandled, false;
      }
      var accepted := ReportCommandResult(store, copy.id, CS.Accepted, "", "", accepting);
      if !accepted {
        return AcceptFailed, false;
      }
      handled := handled[copy.id := copy.expiresAt];
      if copy.kind == "client.reconnect" {
        var reported :=
          ReportCommandResult(store, copy.id, CS.Succeeded, "control connection reconnecting", "", finishing);
        if !reported {
          return ReportFailed, false;
        }
        return ReconnectRequested, true;
      }
      executed := true;
      var reported;
      if succeeds {
        reported := ReportCommandResult(store, copy.id, CS.Succeeded, "system action scheduled", "", finishing);
      } else {
        reported := ReportCommandResult(store, copy.id, CS.Failed, "", "system action failed", finishing);
      }
      return if reported then Done else ReportFailed, executed;
    }
  }

  // ---------------------------------------------------------------- the server's stream

  /** The table after the first n listed commands had their turn, at the clock readings given. */
  function Marked(db: CS.DB, device: string, ids: seq<string>, clock: nat -> int, n: nat): CS.DB
    requires n <= |ids|
  {
    if n == 0 then db
    else CS.Step(Marked(db, device, ids, clock, n - 1), CS.DeliverOp(ids[n - 1], device, clock(n - 1)))
  }

  /** Is the listed command marked and written in its turn? */
  predicate Shown(db: CS.DB, device: string, ids: seq<string>, clock: nat -> int, i: nat)
    requires i < |ids|
  {
    CS.Deliverable(Marked(db, device, ids, clock, i), ids[i], device, clock(i))
  }

  /** The events written in those turns. */
  function Written(db: CS.DB, device: string, ids: seq<string>, clock: nat -> int, n: nat): seq<Copy>
    requires n <= |ids|
  {
    if n == 0 then []
    else
      var before, id := Marked(db, device, ids, clock, n - 1), ids[n - 1];
      if Shown(db, device, ids, clock, n - 1)
      then Written(db, device, ids, clock, n - 1) + [Copy(id, before.commands[id].kind, before.commands[id].expiresAt)]
      else Written(db, device, ids, clock, n - 1)
  }

  /** One turn: the stream event of a command that could be marked. */
  method MarkAndShow(store: CS.Store, device: string, id: string, now: int) returns (copy: Option<Copy>)
    requires CS.RowsOk(store.View())
    modifies store
    ensures CS.RowsOk(store.View()) && store.View() == CS.Step(old(store.View()), CS.DeliverOp(id, device, now))
    ensures
      var before := old(store.View());
      copy == if CS.Deliverable(before, id, device, now)
              then Some(Copy(id, before.commands[id].kind, before.commands[id].expiresAt)) else None
  {
    var kind, expiresAt := "", 0;
    if id in store.commands {
      kind, expiresAt := store.commands[id].kind, store.commands[id].expiresAt;
    }
    var marked := store.MarkCommandDelivered(id, device, now);
    return if marked then Some(Copy(id, kind, expiresAt)) else None;
  }

  /**
   What the first turns leave behind: all of them, or those up to the first write that fails, which leaves its
   command marked.
   */
  ghost predicate WroteTurns(swept: CS.DB, device: string, ids: seq<string>, clock: nat -> int, fails: nat -> bool,
                             turns: nat, complete: bool, after: CS.DB, written: seq<Copy>)
  {
    && turns <= |ids| && (if complete then turns == |ids| else turns > 0)
    && (forall i :: 0 <= i < turns ==>
          (fails(i) && Shown(swept, device, ids, clock, i) <==> !complete && i == turns - 1))
    && after == Marked(swept, device, ids, clock, turns)
    && written == Written(swept, device, ids, clock, if complete then turns else turns - 1)
  }

  method WriteEach(store: CS.Store, device: string, ids: seq<string>, clock: nat -> int, fails: nat -> bool)
    returns (written: seq<Copy>, complete: bool, ghost turns: nat)
    requires CS.RowsOk(store.View())
    modifies store
    ensures CS.RowsOk(store.View())
    ensures WroteTurns(old(store.View()), device, ids, clock, fails, turns, complete, store.View(), written)
  {
    hide CS.RowsOk, CS.Step, CS.Deliverable;
    ghost var swept := store.View();
    written := [];
    for i := 0 to |ids|
      invariant CS.RowsOk(store.View())
      invariant store.View() == Marked(swept, device, ids, clock, i)
      invariant written == Written(swept, device, ids, clock, i)
      invariant forall k :: 0 <= k < i ==> !(fails(k) && Shown(swept, device, ids, clock, k))
    {
      var copy := MarkAndShow(store, device, ids[i], clock(i));
      if copy.None? {
        continue;
      }
      if fails(i) {
        return written, false, i + 1;
      }
      written := written + [copy.value];
    }
    return written, true, |ids|;
  }

  /** writePendingCommands: sweep, list, then mark and write one command after the other. */
  method WritePendingCommands(store: CS.Store, device: string, now: int, clock: nat -> int, fails: nat -> bool)
    returns (written: seq<Copy>, complete: bool, ghost ids: seq<string>, ghost turns: nat)
    requires CS.RowsOk(store.View())
    modifies store
    ensures CS.RowsOk(store.View())
    ensures
      var swept := CS.Step(old(store.View()), CS.PendingOp(device, now));
      && CS.SweptFor(old(store.commands), swept.commands, device, now)
      && CS.OldestFirst(old(store.commands), CS.PendingOf(old(store.commands), device, now), 20, ids)
      && WroteTurns(swept, device, ids, clock, fails, turns, complete, store.View(), written)
  {
    hide CS.RowsOk, CS.Step, CS.OldestFirst, CS.PendingOf, CS.SweptFor, CS.Deliverable, WroteTurns;
    var list := store.PendingCommandsForDevice(device, 20, now);
    ids := list;
    written, complete, turns := WriteEach(store, device, list, clock, fails);
  }

  /** No other command is touched. */
  lemma {:induction false} UnlistedUntouched(db: CS.DB, device: string, ids: seq<string>, clock: nat -> int, n: nat)
    requires n <= |ids|
    ensures
      var m := Marked(db, device, ids, clock, n);
      && m.commands.Keys == db.commands.Keys && m.rows == db.rows
      && forall id :: id in db.commands && id !in ids ==> m.commands[id] == db.commands[id]
  {
    if n > 0 { UnlistedUntouched(db, device, ids, clock, n - 1); }
  }

  ghost predicate Listed(db: CS.DB, device: string, ids: seq<string>) {
    && (forall i :: 0 <= i < |ids| ==>
          ids[i] in db.commands && db.commands[ids[i]].device == device && CS.Waiting(db.commands[ids[i]].status))
    && (forall i, j :: 0 <= i < j < |ids| ==> ids[i] != ids[j])
  }

  lemma {:induction false} MarkedExactlyUnexpired(db: CS.DB, device: string, ids: seq<string>, clock: nat -> int,
                                                  n: nat, k: nat)
    requires n <= |ids| && k < |ids| && Listed(db, device, ids)
    ensures ids[k] in Marked(db, device, ids, clock, n).commands
    ensures
      var before := db.commands[ids[k]];
      Marked(db, device, ids, clock, n).commands[ids[k]] ==
      if k < n && clock(k) < before.expiresAt then before.(status := CS.Delivered) else before
  {
    if n > 0 {
      MarkedExactlyUnexpired(db, device, ids, clock, n - 1, k);
    }
  }

  /** Each listed command is marked delivered and written exactly when it is still unexpired at its turn. */
  lemma {:induction false} WrittenExactlyUnexpired(db: CS.DB, device: string, ids: seq<string>, clock: nat -> int,
                                                   n: nat, k: nat)
    requires n <= |ids| && k < |ids| && Listed(db, device, ids)
    ensures ids[k] in Marked(db, device, ids, clock, n).commands
    ensures
      var before, after := db.commands[ids[k]], Marked(db, device, ids, clock, n).commands[ids[k]];
      var shown := k < n && clock(k) < before.expiresAt;
      && after == (if shown then before.(status := CS.Delivered) else before)
      && (Copy(ids[k], before.kind, before.expiresAt) in Written(db, device, ids, clock, n) <==> shown)
  {
    hide Marked;
    MarkedExactlyUnexpired(db, device, ids, clock, n, k);
    if n > 0 {
      WrittenExactlyUnexpired(db, device, ids, clock, n - 1, k);
      MarkedExactlyUnexpired(db, device, ids, clock, n - 1, n - 1);
    }
  }

  // ---------------------------------------------------------------- the stream as part of a run

  /** The clock as read in the turns: not before the sweep, and not going back. */
  ghost predicate Ticking(from: int, clock: nat -> int) {
    && (forall i :: from <= clock(i))
    && (forall i, j :: i <= j ==> clock(i) <= clock(j))
  }

  /** Only the tables and the stream changed, and the stream only grew. */
  predicate OnlyServed(w: World, v: World) {
    && v.handled == w.handled && v.phase == w.phase && v.log == w.log && v.acceptedAt == w.acceptedAt
    && w.stream <= v.stream
  }

  /** The first n turns are write events; their stream holds what they wrote. */
  lemma {:induction false} TurnsAreRun(device: string, w: World, ids: seq<string>, clock: nat -> int, n: nat)
    returns (events: seq<Event>)
    requires n <= |ids| && Ticking(w.now, clock)
    ensures
      var v := RunFrom(device, w, events);
      && OnlyServed(w, v) && v.now == (if n == 0 then w.now else clock(n - 1))
      && v.db == Marked(w.db, device, ids, clock, n)
      && forall copy :: copy in Written(w.db, device, ids, clock, n) ==> copy in v.stream
  {
    hide CS.Step, CS.Deliverable, Step, RunFrom;
    NoEvents(device, w);
    events := [];
    if n > 0 {
      events := TurnsAreRun(device, w, ids, clock, n - 1);
      var v := RunFrom(device, w, events);
      var write := Write(ids[n - 1]);
      var turn := [Tick(clock(n - 1) - v.now), write];
      assert turn + [] == turn;
      OneAttempt(device, v, clock(n - 1), write, []);
      var u := Step(device, v.(now := clock(n - 1)), write);
      NoEvents(device, u);
      WriteEffect(device, v, ids[n - 1], clock(n - 1));
      RunFromAppend(device, w, events, turn);
      events := events + turn;
    }
  }

  lemma WriteEffect(device: string, w: World, id: string, at: int)
    ensures
      var v := Step(device, w.(now := at), Write(id));
      && OnlyServed(w, v) && v.now == at && v.db == CS.Step(w.db, CS.DeliverOp(id, device, at))
      && (CS.Deliverable(w.db, id, device, at) ==>
            Copy(id, w.db.commands[id].kind, w.db.commands[id].expiresAt) in v.stream)
  {
  }

  /**
   One call of writePendingCommands is a part of a run: a sweep and write events leading to the tables it leaves,
   with everything it wrote in the stream.
   */
  lemma WritePendingIsRun(device: string, w: World, ids: seq<string>, clock: nat -> int, fails: nat -> bool, turns: nat,
                          complete: bool, after: CS.DB, written: seq<Copy>) returns (events: seq<Event>)
    requires Ticking(w.now, clock)
    requires WroteTurns(CS.Step(w.db, CS.PendingOp(device, w.now)), device, ids, clock, fails, turns, complete, after,
                        written)
    ensures
      var v := RunFrom(device, w, events);
      OnlyServed(w, v) && v.db == after && forall copy :: copy in written ==> copy in v.stream
  {
    hide CS.Step, RunFrom, Marked, Written;
    var swept := Step(device, w, Sweep(device));
    events := TurnsAreRun(device, swept, ids, clock, turns);
    if !complete { WrittenGrows(swept.db, device, ids, clock, turns); }
    RunFromFirst(device, w, Sweep(device), events);
    events := [Sweep(device)] + events;
  }

  lemma WrittenGrows(db: CS.DB, device: string, ids: seq<string>, clock: nat -> int, n: nat)
    requires 0 < n <= |ids|
    ensures Written(db, device, ids, clock, n - 1) <= Written(db, device, ids, clock, n)
  {
  }
}

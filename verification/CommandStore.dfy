/**
 The command table of the server (internal/storage/store.go). Every operation is one SQL transaction;
 tables are maps, times are integers (nanoseconds on one clock).
 */
module CommandStore {
  import opened Words

  const MAX_TTL := 300_000_000_000 // 5 minutes

  datatype Status = Queued | Delivered | Accepted | Succeeded | Failed | Expired

  datatype Command = Command(
    device: string, kind: string, status: Status, result: string, error: string, createdAt: int, expiresAt: int)

  /** A row of command_results. */
  datatype Row = Row(command: string, status: Status, result: string)

  datatype DB = DB(commands: map<string, Command>, rows: seq<Row>, revoked: map<string, bool>)

  datatype StoreError = TypeNotAllowed | InvalidTTL | UnknownDevice | DeviceRevoked
                      | InvalidStatus | NoSuchCommand | CommandExpired | InvalidTransition

  const ALLOWED := {"system.restart", "system.shutdown", "client.reconnect", "client.status", "client.update-check",
                    "logs.collect"}

  predicate Active(s: Status) {
    s == Queued || s == Delivered || s == Accepted
  }

  predicate Waiting(s: Status) {
    s == Queued || s == Delivered
  }

  /** The last step of a command's life. */
  predicate Terminal(s: Status) {
    s == Succeeded || s == Failed || s == Expired
  }

  function Rank(s: Status): nat {
    match s
    case Queued => 0
    case Delivered => 1
    case Accepted => 2
    case _ => 3
  }

  // ---------------------------------------------------------------- operations as functions of the tables

  function SetStatus(db: DB, id: string, status: Status): DB
    requires id in db.commands
  {
    db.(commands := db.commands[id := db.commands[id].(status := status)])
  }

  function CreateOutcome(db: DB, device: string, kind: string, ttl: int): Result<(), StoreError> {
    if kind !in ALLOWED then Err(TypeNotAllowed)
    else if ttl <= 0 || ttl > MAX_TTL then Err(InvalidTTL)
    else if device !in db.revoked then Err(UnknownDevice)
    else if db.revoked[device] then Err(DeviceRevoked)
    else Ok(())
  }

  /** The code reads the clock twice, once for each timestamp. */
  function Create(db: DB, id: string, device: string, kind: string, ttl: int, now: int, again: int): DB {
    if CreateOutcome(db, device, kind, ttl).Err? then db
    else db.(commands := db.commands[id := Command(device, kind, Queued, "", "", now, again + ttl)])
  }

  /** The expiry update of PendingCommandsForDevice: only commands that nobody accepted. */
  function ExpireWaiting(db: DB, device: string, now: int): DB {
    db.(commands := map id | id in db.commands ::
          var c := db.commands[id];
          if c.device == device && Waiting(c.status) && c.expiresAt <= now then c.(status := Expired) else c)
  }

  /** The expiry update of listCommands: accepted commands too, and for all devices. */
  function ExpireActive(db: DB, now: int): DB {
    db.(commands := map id | id in db.commands ::
          var c := db.commands[id];
          if Active(c.status) && c.expiresAt <= now then c.(status := Expired) else c)
  }

  predicate Deliverable(db: DB, id: string, device: string, now: int) {
    && id in db.commands && db.commands[id].device == device && Waiting(db.commands[id].status)
    && db.commands[id].expiresAt > now
  }

  function MarkDelivered(db: DB, id: string, device: string, now: int): DB {
    if Deliverable(db, id, device, now) then SetStatus(db, id, Delivered) else db
  }

  predicate ValidTransition(current: Status, status: Status) {
    || (status == Accepted && Waiting(current))
    || ((status == Succeeded || status == Failed) && current == Accepted)
  }

  predicate Reportable(status: Status) {
    status == Accepted || status == Succeeded || status == Failed
  }

  function ReportOutcome(db: DB, id: string, device: string, status: Status, now: int): Result<(), StoreError> {
    if !Reportable(status) then Err(InvalidStatus)
    else if id !in db.commands || db.commands[id].device != device then Err(NoSuchCommand)
    else
      var c := db.commands[id];
      if Active(c.status) && now > c.expiresAt then Err(CommandExpired)
      else if c.status == status || ValidTransition(c.status, status) then Ok(())
      else Err(InvalidTransition)
  }

  /** UpdateCommandResult: the new tables. A late report of an active command expires it. */
  function Report(db: DB, id: string, device: string, status: Status, result: string, error: string, now: int): DB {
    match ReportOutcome(db, id, device, status, now)
    case Err(CommandExpired) => if id in db.commands then SetStatus(db, id, Expired) else db
    case Err(_) => db
    case Ok(_) =>
      if id !in db.commands || db.commands[id].status == status then db
      else
        DB(db.commands[id := db.commands[id].(status := status, result := result, error := error)],
           db.rows + [Row(id, status, result)], db.revoked)
  }

  datatype Op =
    | CreateOp(id: string, device: string, kind: string, ttl: int, now: int, again: int)
    | PendingOp(device: string, now: int)
    | DeliverOp(id: string, device: string, now: int)
    | ReportOp(id: string, device: string, status: Status, result: string, error: string, now: int)
    | ListOp(now: int)

  function Step(db: DB, op: Op): DB {
    match op
    case CreateOp(id, device, kind, ttl, now, again) =>
      if id in db.commands then db else Create(db, id, device, kind, ttl, now, again)
    case PendingOp(device, now) => ExpireWaiting(db, device, now)
    case DeliverOp(id, device, now) => MarkDelivered(db, id, device, now)
    case ReportOp(id, device, status, result, error, now) => Report(db, id, device, status, result, error, now)
    case ListOp(now) => ExpireActive(db, now)
  }

  function Run(db: DB, ops: seq<Op>): DB {
    if ops == [] then db else Step(Run(db, ops[..|ops| - 1]), ops[|ops| - 1])
  }

  // ---------------------------------------------------------------- life of a command

  /** Later is what one command may become: what it was asked for never changes and its status only moves up. */
  predicate Later(c: Command, d: Command) {
    && d.device == c.device && d.kind == c.kind && d.createdAt == c.createdAt && d.expiresAt == c.expiresAt
    && (Rank(c.status) < Rank(d.status) || d == c)
  }

  lemma StepMovesUp(db: DB, op: Op, id: string)
    requires id in db.commands
    ensures id in Step(db, op).commands && Later(db.commands[id], Step(db, op).commands[id])
  {
  }

  /** In every run a command's status only moves up queued, delivered, accepted, terminal. */
  lemma {:induction false} StatusOnlyMovesUp(db: DB, ops: seq<Op>, id: string)
    requires id in db.commands
    ensures id in Run(db, ops).commands && Later(db.commands[id], Run(db, ops).commands[id])
  {
    if ops != [] {
      hide Step;
      StatusOnlyMovesUp(db, ops[..|ops| - 1], id);
      StepMovesUp(Run(db, ops[..|ops| - 1]), ops[|ops| - 1], id);
    }
  }

  lemma TerminalNeverChanges(db: DB, ops: seq<Op>, id: string)
    requires id in db.commands && Terminal(db.commands[id].status)
    ensures id in Run(db, ops).commands && Run(db, ops).commands[id] == db.commands[id]
  {
    StatusOnlyMovesUp(db, ops, id);
  }

  /** The statuses recorded for one command, in order. */
  function History(rows: seq<Row>, id: string): seq<Status> {
    if rows == [] then []
    else
      var last := rows[|rows| - 1];
      if last.command == id then History(rows[..|rows| - 1], id) + [last.status] else History(rows[..|rows| - 1], id)
  }

  /** The recorded rows of a command are exactly the part of accepted, then one verdict, that its status tells. */
  predicate HistoryMatches(history: seq<Status>, status: Status) {
    match status
    case Queued => history == []
    case Delivered => history == []
    case Accepted => history == [Accepted]
    case Succeeded => history == [Accepted, Succeeded]
    case Failed => history == [Accepted, Failed]
    case Expired => history == [] || history == [Accepted]
  }

  ghost predicate RowsOk(db: DB) {
    && (forall id :: id in db.commands ==> HistoryMatches(History(db.rows, id), db.commands[id].status))
    && (forall i :: 0 <= i < |db.rows| ==> db.rows[i].command in db.commands)
  }

  lemma {:induction false} NoRowsNoHistory(rows: seq<Row>, id: string)
    requires forall i :: 0 <= i < |rows| ==> rows[i].command != id
    ensures History(rows, id) == []
  {
    if rows != [] { NoRowsNoHistory(rows[..|rows| - 1], id); }
  }

  lemma {:induction false} HistoryAppend(rows: seq<Row>, row: Row, id: string)
    ensures History(rows + [row], id)
            == if row.command == id then History(rows, id) + [row.status] else History(rows, id)
  {
    assert (rows + [row])[..|rows|] == rows;
  }

  lemma ReportKeepsRows(db: DB, id: string, device: string, status: Status, result: string, error: string, now: int)
    requires RowsOk(db)
    ensures RowsOk(Report(db, id, device, status, result, error, now))
  {
    hide History;
    var next := Report(db, id, device, status, result, error, now);
    forall k | k in next.commands ensures HistoryMatches(History(next.rows, k), next.commands[k].status) {
      assert HistoryMatches(History(db.rows, k), db.commands[k].status);
      HistoryAppend(db.rows, Row(id, status, result), k);
    }
  }

  /** Operations that leave the rows alone keep them matching. */
  lemma SameRowsStillMatch(db: DB, op: Op)
    requires RowsOk(db) && !op.ReportOp? && Step(db, op).rows == db.rows
    requires forall id :: id in db.commands ==> id in Step(db, op).commands
    ensures RowsOk(Step(db, op))
  {
    hide History, Step;
    var next := Step(db, op);
    forall k | k in next.commands ensures HistoryMatches(History(next.rows, k), next.commands[k].status) {
      OtherOpsAcceptNothing(db, op, k);
      if k in db.commands {
        assert HistoryMatches(History(db.rows, k), db.commands[k].status);
      } else {
        NoRowsNoHistory(db.rows, k);
      }
    }
  }

  lemma StepKeepsRows(db: DB, op: Op)
    requires RowsOk(db)
    ensures RowsOk(Step(db, op))
  {
    hide RowsOk;
    match op
    case ReportOp(id, device, status, result, error, now) =>
      ReportKeepsRows(db, id, device, status, result, error, now);
    case CreateOp(_, _, _, _, _, _) => SameRowsStillMatch(db, op);
    case PendingOp(_, _) => SameRowsStillMatch(db, op);
    case DeliverOp(_, _, _) => SameRowsStillMatch(db, op);
    case ListOp(_) => SameRowsStillMatch(db, op);
  }

  /** In every run the recorded rows of a command are a prefix of accepted followed by succeeded or failed. */
  lemma {:induction false} RunKeepsRows(db: DB, ops: seq<Op>)
    requires RowsOk(db)
    ensures RowsOk(Run(db, ops))
  {
    if ops != [] {
      RunKeepsRows(db, ops[..|ops| - 1]);
      StepKeepsRows(Run(db, ops[..|ops| - 1]), ops[|ops| - 1]);
    }
  }

  /** Success and failure are reached only from accepted, by a report made no later than the expiry. */
  lemma VerdictOnlyFromAccepted(db: DB, op: Op, id: string)
    requires id in db.commands
    ensures
      var after := Step(db, op).commands[id].status;
      (after == Succeeded || after == Failed) && after != db.commands[id].status ==>
        op.ReportOp? && op.id == id && db.commands[id].status == Accepted && op.now <= db.commands[id].expiresAt
  {
  }

  /** What one report can do to the table: touch one command, and commit an acceptance only in time. */
  lemma ReportTouchesOneCommand(db: DB, id: string, device: string, status: Status, result: string, error: string,
                                now: int)
    ensures
      var next := Report(db, id, device, status, result, error, now);
      && (forall k :: k in next.commands <==> k in db.commands)
      && (forall k :: k in db.commands && k != id ==> next.commands[k] == db.commands[k])
      && (id in db.commands ==>
            var before, after := db.commands[id], next.commands[id];
            && after.device == before.device && after.expiresAt == before.expiresAt
            && (after.status == before.status || (after.status == Expired && Active(before.status))
                || (after.status == Accepted && Waiting(before.status) && now <= before.expiresAt)
                || ((after.status == Succeeded || after.status == Failed) && before.status == Accepted)))
  {
  }

  /** Creating, listing, delivering and expiring commands never sets a command to accepted or to a verdict. */
  lemma OtherOpsAcceptNothing(db: DB, op: Op, id: string)
    requires !op.ReportOp? && id in Step(db, op).commands
    ensures
      var after := Step(db, op).commands[id];
      if id in db.commands then
        var before := db.commands[id];
        && after.device == before.device && after.expiresAt == before.expiresAt
        && (after.status == before.status || (after.status == Expired && Active(before.status))
            || (after.status == Delivered && Waiting(before.status)))
      else after.status == Queued
  {
  }

  /** Repeating a report that went through changes nothing more, unless an acceptance is repeated too late. */
  lemma RetriedReport(db: DB, id: string, device: string, status: Status, result: string, error: string, first: int,
                      again: int)
    requires ReportOutcome(db, id, device, status, first).Ok? && first <= again
    ensures
      var once := Report(db, id, device, status, result, error, first);
      var outcome := ReportOutcome(once, id, device, status, again);
      && (outcome.Ok? <==> status != Accepted || again <= db.commands[id].expiresAt)
      && (outcome.Ok? ==> Report(once, id, device, status, result, error, again) == once)
      && Report(once, id, device, status, result, error, again).rows == once.rows
  {
  }

  // ---------------------------------------------------------------- what the updates do, row by row

  /** The sweep of one device: every command is as before, but its waiting ones past their expiry are expired. */
  ghost predicate SweptFor(before: map<string, Command>, after: map<string, Command>, device: string, now: int) {
    && after.Keys == before.Keys
    && forall id :: id in before ==>
         var c := before[id];
         var overdue := c.device == device && (c.status == Queued || c.status == Delivered) && c.expiresAt <= now;
         after[id] == if overdue then c.(status := Expired) else c
  }

  /** The sweep of a listing: every command is as before, but one not finished and past its expiry is expired. */
  ghost predicate SweptAll(before: map<string, Command>, after: map<string, Command>, now: int) {
    && after.Keys == before.Keys
    && forall id :: id in before ==>
         var c := before[id];
         var overdue := c.status != Succeeded && c.status != Failed && c.expiresAt <= now;
         after[id] == if overdue then c.(status := Expired) else c
  }

  lemma SweepsExactly(db: DB, device: string, now: int)
    ensures SweptFor(db.commands, Step(db, PendingOp(device, now)).commands, device, now)
    ensures SweptAll(db.commands, Step(db, ListOp(now)).commands, now)
    ensures Step(db, PendingOp(device, now)).rows == db.rows && Step(db, ListOp(now)).rows == db.rows
  {
  }

  /** A command that is delivered in time, accepted in time and then gets its verdict in time goes through all of it. */
  lemma WholeLife(db: DB, id: string, device: string, kind: string, ttl: int, created: int, delivered: int,
                  accepted: int, finished: int, status: Status, result: string, error: string)
    requires id !in db.commands && device in db.revoked && !db.revoked[device] && 0 < ttl <= 300_000_000_000
    requires kind in {"system.restart", "system.shutdown", "client.reconnect", "client.status", "client.update-check",
                      "logs.collect"}
    requires delivered < created + ttl && accepted <= created + ttl && finished <= created + ttl
    requires status == Succeeded || status == Failed
    ensures
      var a := Step(db, CreateOp(id, device, kind, ttl, created, created));
      var b := Step(a, DeliverOp(id, device, delivered));
      var c := Step(b, ReportOp(id, device, Accepted, "", "", accepted));
      var d := Step(c, ReportOp(id, device, status, result, error, finished));
      && a.commands == db.commands[id := Command(device, kind, Queued, "", "", created, created + ttl)]
      && b.commands == a.commands[id := a.commands[id].(status := Delivered)]
      && c.commands == b.commands[id := b.commands[id].(status := Accepted)]
      && d.commands == c.commands[id := Command(device, kind, status, result, error, created, created + ttl)]
      && d.rows == db.rows + [Row(id, Accepted, ""), Row(id, status, result)]
  {
    var a := Step(db, CreateOp(id, device, kind, ttl, created, created));
    assert a.rows == db.rows;
    var b := Step(a, DeliverOp(id, device, delivered));
    assert b.rows == db.rows;
    var c := Step(b, ReportOp(id, device, Accepted, "", "", accepted));
    assert c.rows == db.rows + [Row(id, Accepted, "")];
  }

  /** What a report does to a command of the reporting device. */
  ghost predicate Reported(before: DB, after: DB, r: Result<(), StoreError>, id: string, status: Status, result: string,
                           error: string, now: int)
    requires id in before.commands
  {
    var c := before.commands[id];
    var late := (c.status == Queued || c.status == Delivered || c.status == Accepted) && c.expiresAt < now;
    var next := if status == Accepted then c.status == Queued || c.status == Delivered else c.status == Accepted;
    if late then
      r == Err(CommandExpired) && after == before.(commands := before.commands[id := c.(status := Expired)])
    else if c.status == status then r == Ok(()) && after == before
    else if next then
      && r == Ok(()) && after.rows == before.rows + [Row(id, status, result)] && after.revoked == before.revoked
      && after.commands == before.commands[id := c.(status := status, result := result, error := error)]
    else r == Err(InvalidTransition) && after == before
  }

  lemma ReportsExactly(db: DB, id: string, device: string, status: Status, result: string, error: string, now: int)
    ensures
      var after := Step(db, ReportOp(id, device, status, result, error, now));
      var r := ReportOutcome(db, id, device, status, now);
      if status != Accepted && status != Succeeded && status != Failed then r == Err(InvalidStatus) && after == db
      else if id !in db.commands || db.commands[id].device != device then r == Err(NoSuchCommand) && after == db
      else Reported(db, after, r, id, status, result, error, now)
  {
  }

  // ---------------------------------------------------------------- the store

  class Store {
    var commands: map<string, Command>
    var rows: seq<Row>
    var revoked: map<string, bool>

    ghost function View(): DB
      reads this
    {
      DB(commands, rows, revoked)
    }

    constructor (revoked: map<string, bool>)
      ensures View() == DB(map[], [], revoked) && RowsOk(View())
    {
      this.revoked := revoked;
      commands, rows := map[], [];
    }

    /** The new command's id is random in the code; here the caller supplies an unused one. */
    method CreateCommand(id: string, device: string, kind: string, ttl: int, now: int, again: int)
      returns (r: Result<Command, StoreError>)
      requires id !in commands && RowsOk(View())
      modifies this
      ensures View() == Step(old(View()), CreateOp(id, device, kind, ttl, now, again)) && RowsOk(View())
      ensures r.Ok? <==>
                && kind in {"system.restart", "system.shutdown", "client.reconnect", "client.status",
                            "client.update-check", "logs.collect"}
                && 0 < ttl <= 300_000_000_000 && device in revoked && !revoked[device]
      ensures r.Ok? ==> r.value == Command(device, kind, Queued, "", "", now, again + ttl)
                        && commands == old(commands)[id := r.value]
      ensures rows == old(rows) && revoked == old(revoked) && (r.Err? ==> commands == old(commands))
    {
      StepKeepsRows(View(), CreateOp(id, device, kind, ttl, now, again));
      if kind !in ALLOWED {
        return Err(TypeNotAllowed);
      }
      if ttl <= 0 || ttl > MAX_TTL {
        return Err(InvalidTTL);
      }
      if device !in revoked {
        return Err(UnknownDevice);
      }
      if revoked[device] {
        return Err(DeviceRevoked);
      }
      var c := Command(device, kind, Queued, "", "", now, again + ttl);
      commands := commands[id := c];
      return Ok(c);
    }

    method MarkCommandDelivered(id: string, device: string, now: int) returns (marked: bool)
      requires RowsOk(View())
      modifies this
      ensures View() == Step(old(View()), DeliverOp(id, device, now)) && RowsOk(View())
      ensures marked <==>
                && id in old(commands) && old(commands)[id].device == device && now < old(commands)[id].expiresAt
                && (old(commands)[id].status == Queued || old(commands)[id].status == Delivered)
      ensures commands == if marked then old(commands)[id := old(commands)[id].(status := Delivered)] else old(commands)
      ensures rows == old(rows) && revoked == old(revoked)
    {
      StepKeepsRows(View(), DeliverOp(id, device, now));
      if id in commands && commands[id].device == device && Waiting(commands[id].status)
         && commands[id].expiresAt > now
      {
        commands := commands[id := commands[id].(status := Delivered)];
        return true;
      }
      return false;
    }

    method UpdateCommandResult(id: string, device: string, status: Status, result: string, error: string, now: int)
      returns (r: Result<(), StoreError>)
      requires RowsOk(View())
      modifies this
      ensures View() == Step(old(View()), ReportOp(id, device, status, result, error, now)) && RowsOk(View())
      ensures r == ReportOutcome(old(View()), id, device, status, now)
      ensures
        if status != Accepted && status != Succeeded && status != Failed
        then r == Err(InvalidStatus) && View() == old(View())
        else if id !in old(commands) || old(commands)[id].device != device
        then r == Err(NoSuchCommand) && View() == old(View())
        else Reported(old(View()), View(), r, id, status, result, error, now)
    {
      ReportsExactly(View(), id, device, status, result, error, now);
      StepKeepsRows(View(), ReportOp(id, device, status, result, error, now));
      if status != Accepted && status != Succeeded && status != Failed {
        return Err(InvalidStatus);
      }
      if id !in commands || commands[id].device != device {
        return Err(NoSuchCommand);
      }
      var current := commands[id].status;
      var active := current == Queued || current == Delivered || current == Accepted;
      if active && now > commands[id].expiresAt {
        commands := commands[id := commands[id].(status := Expired)];
        return Err(CommandExpired);
      }
      if current == status {
        return Ok(());
      }
      var valid := (status == Accepted && (current == Queued || current == Delivered))
                   || ((status == Succeeded || status == Failed) && current == Accepted);
      if !valid {
        return Err(InvalidTransition);
      }
      commands := commands[id := commands[id].(status := status, result := result, error := error)];
      rows := rows + [Row(id, status, result)];
      return Ok(());
    }

    /** The update and the ordered, limited selection of PendingCommandsForDevice. */
    method PendingCommandsForDevice(device: string, limit: int, now: int) returns (ids: seq<string>)
      requires RowsOk(View())
      modifies this
      ensures View() == Step(old(View()), PendingOp(device, now)) && RowsOk(View())
      ensures SweptFor(old(commands), commands, device, now) && rows == old(rows)
      ensures OldestFirst(old(commands), PendingOf(old(commands), device, now),
                          if 1 <= limit <= 50 then limit else 20, ids)
    {
      StepKeepsRows(View(), PendingOp(device, now));
      SweepsExactly(View(), device, now);
      PendingSurvive(View(), device, now);
      var bound := if 1 <= limit <= 50 then limit else 20;
      commands := ExpireWaiting(DB(commands, rows, revoked), device, now).commands;
      var pending := set id | id in commands && Deliverable(DB(commands, rows, revoked), id, device, now);
      ids := SelectOldest(commands, pending, bound);
      OldestFirstMoves(old(commands), commands, pending, bound, ids);
    }

    /** listCommands: all commands, or those of one user's devices. */
    method ListCommands(limit: int, scope: string -> bool, now: int) returns (ids: seq<string>)
      requires RowsOk(View())
      modifies this
      ensures View() == Step(old(View()), ListOp(now)) && RowsOk(View())
      ensures NewestFirst(commands, set id | id in commands && scope(commands[id].device),
                          if 1 <= limit <= 500 then limit else 100, ids)
      ensures SweptAll(old(commands), commands, now) && rows == old(rows)
    {
      hide NewestFirst, RowsOk;
      SweepsExactly(View(), "", now);
      StepKeepsRows(View(), ListOp(now));
      commands := ExpireActive(DB(commands, rows, revoked), now).commands;
      var listed := set id | id in commands && scope(commands[id].device);
      ids := SelectNewest(commands, listed, if 1 <= limit <= 500 then limit else 100);
    }
  }

  /** ORDER BY created_at LIMIT bound. */
  ghost predicate OldestFirst(commands: map<string, Command>, candidates: set<string>, bound: nat, ids: seq<string>) {
    && |ids| <= bound
    && (forall id :: id in candidates ==> id in commands)
    && (forall i :: 0 <= i < |ids| ==> ids[i] in candidates)
    && (forall i, j :: 0 <= i < j < |ids| ==>
          ids[i] != ids[j] && commands[ids[i]].createdAt <= commands[ids[j]].createdAt)
    && (forall id :: id in candidates && id !in ids ==>
          |ids| == bound && forall i :: 0 <= i < |ids| ==> commands[ids[i]].createdAt <= commands[id].createdAt)
  }

  /** The commands waiting for a device and not past their expiry. */
  function PendingOf(commands: map<string, Command>, device: string, now: int): set<string> {
    set id | id in commands && commands[id].device == device && now < commands[id].expiresAt
             && (commands[id].status == Queued || commands[id].status == Delivered)
  }

  /** The sweep leaves exactly those deliverable, and as they were. */
  lemma PendingSurvive(db: DB, device: string, now: int)
    ensures
      var swept := Step(db, PendingOp(device, now));
      && PendingOf(db.commands, device, now)
         == (set id | id in swept.commands && Deliverable(swept, id, device, now))
      && forall id :: id in PendingOf(db.commands, device, now) ==> swept.commands[id] == db.commands[id]
  {
  }

  lemma OldestFirstMoves(before: map<string, Command>, after: map<string, Command>, candidates: set<string>, bound: nat,
                         ids: seq<string>)
    requires OldestFirst(after, candidates, bound, ids)
    requires forall id :: id in candidates ==> id in before && before[id].createdAt == after[id].createdAt
    ensures OldestFirst(before, candidates, bound, ids)
  {
  }

  /** ORDER BY created_at DESC LIMIT bound. */
  ghost predicate NewestFirst(commands: map<string, Command>, candidates: set<string>, bound: nat, ids: seq<string>) {
    && |ids| <= bound
    && (forall id :: id in candidates ==> id in commands)
    && (forall i :: 0 <= i < |ids| ==> ids[i] in candidates)
    && (forall i, j :: 0 <= i < j < |ids| ==>
          ids[i] != ids[j] && commands[ids[i]].createdAt >= commands[ids[j]].createdAt)
    && (forall id :: id in candidates && id !in ids ==>
          |ids| == bound && forall i :: 0 <= i < |ids| ==> commands[ids[i]].createdAt >= commands[id].createdAt)
  }

  /** The same commands with time running backwards, so that the newest are the oldest. */
  function Mirrored(commands: map<string, Command>): map<string, Command> {
    map id | id in commands :: commands[id].(createdAt := -commands[id].createdAt)
  }

  method SelectNewest(commands: map<string, Command>, candidates: set<string>, bound: nat) returns (ids: seq<string>)
    requires forall id :: id in candidates ==> id in commands
    ensures NewestFirst(commands, candidates, bound, ids)
  {
    ids := SelectOldest(Mirrored(commands), candidates, bound);
  }

  method SelectOldest(commands: map<string, Command>, candidates: set<string>, bound: nat) returns (ids: seq<string>)
    requires forall id :: id in candidates ==> id in commands
    ensures OldestFirst(commands, candidates, bound, ids)
  {
    var left := candidates;
    ids := [];
    while |ids| < bound && left != {}
      invariant left <= candidates && |ids| <= bound
      invariant forall id :: id in candidates ==> id in left || id in ids
      invariant forall i :: 0 <= i < |ids| ==> ids[i] in candidates && ids[i] !in left
      invariant forall i, j :: 0 <= i < j < |ids| ==>
                  ids[i] != ids[j] && commands[ids[i]].createdAt <= commands[ids[j]].createdAt
      invariant forall id, i :: id in left && 0 <= i < |ids| ==> commands[ids[i]].createdAt <= commands[id].createdAt
      decreases left
    {
      OldestExists(commands, left);
      var id :| id in left && forall other :: other in left ==> commands[id].createdAt <= commands[other].createdAt;
      ids := ids + [id];
      left := left - {id};
    }
  }

  lemma {:induction false} OldestExists(commands: map<string, Command>, ids: set<string>)
    requires ids != {} && forall id :: id in ids ==> id in commands
    ensures exists id ::
              id in ids && forall other :: other in ids ==> commands[id].createdAt <= commands[other].createdAt
    decreases |ids|
  {
    var id :| id in ids;
    var rest := ids - {id};
    if rest != {} {
      OldestExists(commands, rest);
      var oldest :|
        oldest in rest && forall other :: other in rest ==> commands[oldest].createdAt <= commands[other].createdAt;
      var best := if commands[id].createdAt <= commands[oldest].createdAt then id else oldest;
      assert best in ids && forall other :: other in ids ==> commands[best].createdAt <= commands[other].createdAt;
    } else {
      assert ids == {id};
    }
  }
}

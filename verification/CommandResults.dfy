/**
 Command results end to end (internal/control/server.go, deviceCommandResult, and UpdateCommandResult of
 internal/storage/store.go): the proof of a report is checked at the desk, and the store is updated afterwards, so
 other requests and store operations happen in between.
 */
module CommandResults {
  import opened Words
  import SP = SigningPayload
  import CH = Challenges
  import CS = CommandStore

  /** The store's text of a byte string. */
  function Text(b: bytes): string {
    seq(|b|, i requires 0 <= i < |b| => b[i] as char)
  }

  lemma TextIsInjective(a: bytes, b: bytes)
    requires Text(a) == Text(b)
    ensures a == b
  {
    assert |a| == |Text(a)| == |Text(b)| == |b|;
    forall i | 0 <= i < |a| ensures a[i] == b[i] {
      assert Text(a)[i] == a[i] as char && Text(b)[i] == b[i] as char;
    }
  }

  function StatusOf(status: bytes): Option<CS.Status> {
    match Text(status)
    case "accepted" => Some(CS.Accepted)
    case "succeeded" => Some(CS.Succeeded)
    case "failed" => Some(CS.Failed)
    case _ => None
  }

  datatype World = World(
    desk: CH.Desk,
    db: CS.DB,
    waiting: set<nat>,    // accepted reports on their way to the store, as positions in desk.accepted
    sources: seq<nat>)    // the accepted report behind each row, an annotation

  datatype Event =
    | AtDesk(event: CH.Event)
    | AtStore(op: CS.Op)
    | Update(position: nat)

  function Init(revoked: map<string, bool>): World {
    World(CH.Init(), CS.DB(map[], [], revoked), {}, [])
  }

  /** The store update of an accepted report. */
  function Updated(db: CS.DB, report: SP.Report, now: int): CS.DB {
    match StatusOf(report.status)
    case None => db
    case Some(status) =>
      CS.Report(db, Text(report.command), Text(report.device), status, Text(report.result), Text(report.error), now)
  }

  predicate Awaits(w: World, position: nat) {
    position in w.waiting && position < |w.desk.accepted| && w.desk.accepted[position].Reported?
  }

  /** Reports reach the store only through the desk. */
  function Step(w: World, e: Event): World {
    match e
    case AtDesk(event) =>
      var desk := CH.Step(w.desk, event);
      var n := |w.desk.accepted|;
      var reported := |desk.accepted| > n && desk.accepted[n].Reported?;
      w.(desk := desk, waiting := if reported then w.waiting + {n} else w.waiting)
    case AtStore(op) => if op.ReportOp? then w else w.(db := CS.Step(w.db, op))
    case Update(position) =>
      if !Awaits(w, position) then w
      else
        var db := Updated(w.db, w.desk.accepted[position].report, w.desk.now);
        w.(db := db, waiting := w.waiting - {position},
           sources := if |db.rows| > |w.db.rows| then w.sources + [position] else w.sources)
  }

  function Run(revoked: map<string, bool>, events: seq<Event>): World {
    if events == [] then Init(revoked) else Step(Run(revoked, events[..|events| - 1]), events[|events| - 1])
  }

  // ---------------------------------------------------------------- invariant

  /** The row says what the report said, about a command of the reporting device. */
  ghost predicate Records(commands: map<string, CS.Command>, a: CH.Accepted, row: CS.Row) {
    && a.Reported? && StatusOf(a.report.status) == Some(row.status)
    && row.command == Text(a.report.command) && row.result == Text(a.report.result)
    && row.command in commands && commands[row.command].device == Text(a.report.device)
  }

  ghost predicate SourcesOk(accepted: seq<CH.Accepted>, waiting: set<nat>, sources: seq<nat>) {
    && (forall i :: 0 <= i < |sources| ==> sources[i] < |accepted| && sources[i] !in waiting)
    && (forall i, j :: 0 <= i < j < |sources| ==> sources[i] != sources[j])
    && (forall p :: p in waiting ==> p < |accepted|)
  }

  ghost predicate RecordsOk(accepted: seq<CH.Accepted>, db: CS.DB, sources: seq<nat>) {
    && |sources| == |db.rows|
    && forall i :: 0 <= i < |sources| ==>
         sources[i] < |accepted| && Records(db.commands, accepted[sources[i]], db.rows[i])
  }

  ghost predicate Inv(w: World) {
    && CH.Inv(w.desk)
    && SourcesOk(w.desk.accepted, w.waiting, w.sources)
    && RecordsOk(w.desk.accepted, w.db, w.sources)
  }

  lemma DeskAppends(d: CH.Desk, e: CH.Event)
    ensures d.accepted <= CH.Step(d, e).accepted
  {
    hide CH.ConnectPasses, CH.ResultPasses;
  }

  lemma DeskKeepsInv(w: World, e: CH.Event)
    requires Inv(w)
    ensures Inv(Step(w, AtDesk(e)))
  {
    hide CH.Inv, CH.Step, Records;
    CH.StepKeepsInv(w.desk, e);
    DeskAppends(w.desk, e);
    var desk := CH.Step(w.desk, e);
    assert forall p :: 0 <= p < |w.desk.accepted| ==> desk.accepted[p] == w.desk.accepted[p];
  }

  lemma OtherOpKeepsRows(db: CS.DB, op: CS.Op)
    requires !op.ReportOp?
    ensures CS.Step(db, op).rows == db.rows
  {
  }

  lemma StoreKeepsInv(w: World, op: CS.Op)
    requires Inv(w)
    ensures Inv(Step(w, AtStore(op)))
  {
    hide CH.Inv, CS.Step, StatusOf, Text;
    if !op.ReportOp? {
      OtherOpKeepsRows(w.db, op);
      var db := CS.Step(w.db, op);
      forall i | 0 <= i < |w.sources| ensures Records(db.commands, w.desk.accepted[w.sources[i]], db.rows[i]) {
        assert Records(w.db.commands, w.desk.accepted[w.sources[i]], w.db.rows[i]);
        CS.StepMovesUp(w.db, op, w.db.rows[i].command);
      }
    }
  }

  /** A report adds at most one row, about its own command and for the device that has it. */
  lemma ReportAddsOneRow(db: CS.DB, id: string, device: string, status: CS.Status, result: string, error: string,
                         now: int)
    ensures
      var next := CS.Report(db, id, device, status, result, error, now);
      && (next.rows == db.rows
          || (next.rows == db.rows + [CS.Row(id, status, result)]
              && id in db.commands && db.commands[id].device == device))
      && forall k :: k in db.commands ==> k in next.commands && next.commands[k].device == db.commands[k].device
  {
  }

  lemma UpdateEffect(db: CS.DB, a: CH.Accepted, now: int)
    requires a.Reported?
    ensures
      var next := Updated(db, a.report, now);
      && (forall k :: k in db.commands ==> k in next.commands && next.commands[k].device == db.commands[k].device)
      && (next.rows == db.rows
          || (|next.rows| == |db.rows| + 1 && next.rows[..|db.rows|] == db.rows
              && Records(next.commands, a, next.rows[|db.rows|])))
  {
    hide CS.Report, Text;
    var status := StatusOf(a.report.status);
    if status.Some? {
      ReportAddsOneRow(db, Text(a.report.command), Text(a.report.device), status.value, Text(a.report.result),
                       Text(a.report.error), now);
    }
  }

  lemma UpdateKeepsInv(w: World, position: nat)
    requires Inv(w)
    ensures Inv(Step(w, Update(position)))
  {
    hide CH.Inv, Updated, StatusOf, Text;
    if Awaits(w, position) {
      var a := w.desk.accepted[position];
      UpdateEffect(w.db, a, w.desk.now);
      var next := Step(w, Update(position));
      forall i | 0 <= i < |next.db.rows|
        ensures Records(next.db.commands, w.desk.accepted[next.sources[i]], next.db.rows[i])
      {
        if i < |w.db.rows| {
          assert next.sources[i] == w.sources[i];
          assert next.db.rows[i] == next.db.rows[..|w.db.rows|][i] == w.db.rows[i];
          assert Records(w.db.commands, w.desk.accepted[w.sources[i]], w.db.rows[i]);
        }
      }
    }
  }

  lemma EmptyIsOk(revoked: map<string, bool>)
    ensures Inv(Init(revoked))
  {
    CH.RunKeepsInv([]);
  }

  lemma {:induction false} RunKeepsInv(revoked: map<string, bool>, events: seq<Event>)
    ensures Inv(Run(revoked, events))
  {
    hide Inv, Step;
    if events == [] {
      EmptyIsOk(revoked);
    } else {
      var front, last := events[..|events| - 1], events[|events| - 1];
      RunKeepsInv(revoked, front);
      match last
      case AtDesk(e) => DeskKeepsInv(Run(revoked, front), e);
      case AtStore(op) => StoreKeepsInv(Run(revoked, front), op);
      case Update(position) => UpdateKeepsInv(Run(revoked, front), position);
    }
  }

  // ---------------------------------------------------------------- main result

  /**
   In every run each result row records one accepted report, which was signed by the command's own device for an
   unexpired challenge issued to it; the row determines the report's command and result byte for byte, and no two
   rows rest on the same challenge. While devices sign only 32-byte challenges as connect proofs, the signature was
   made as that very report.
   */
  lemma EveryRowIsSigned(revoked: map<string, bool>, events: seq<Event>)
    ensures
      var w := Run(revoked, events);
      var accepted := w.desk.accepted;
      && RecordsOk(accepted, w.db, w.sources)
      && (forall i :: 0 <= i < |w.sources| ==>
            CH.Backed(w.desk.issued, w.desk.signed, accepted[w.sources[i]])
            && Determines(w.db.rows[i], accepted[w.sources[i]]))
      && (forall i, j :: 0 <= i < j < |w.sources| ==>
            accepted[w.sources[i]].challenge != accepted[w.sources[j]].challenge)
      && (CH.OnlyNonces(w.desk.signed) ==>
            forall i :: 0 <= i < |w.sources| ==> CH.ForItsPurpose(w.desk.issued, w.desk.signed, accepted[w.sources[i]]))
  {
    hide Records, CH.Backed, CH.PlacesOk, CH.IssuedOk, CH.SignedOk, CH.OnlyNonces, CH.ForItsPurpose, Determines;
    RunKeepsInv(revoked, events);
    var w := Run(revoked, events);
    forall i | 0 <= i < |w.sources| ensures Determines(w.db.rows[i], w.desk.accepted[w.sources[i]]) {
      RowDetermines(w.db.commands, w.desk.accepted[w.sources[i]], w.db.rows[i]);
    }
    forall i, j | 0 <= i < j < |w.sources|
      ensures w.desk.accepted[w.sources[i]].challenge != w.desk.accepted[w.sources[j]].challenge
    {
      assert w.sources[i] < w.sources[j] || w.sources[j] < w.sources[i];
    }
    if CH.OnlyNonces(w.desk.signed) {
      forall i | 0 <= i < |w.sources|
        ensures CH.ForItsPurpose(w.desk.issued, w.desk.signed, w.desk.accepted[w.sources[i]])
      {
        CH.BackedForPurpose(w.desk, w.desk.accepted[w.sources[i]]);
      }
    }
  }

  /** The row says the status of the report word for word, and no other bytes have the row's text. */
  ghost predicate Determines(row: CS.Row, a: CH.Accepted) {
    && a.Reported?
    && (row.status == CS.Accepted <==> Text(a.report.status) == "accepted")
    && (row.status == CS.Succeeded <==> Text(a.report.status) == "succeeded")
    && (row.status == CS.Failed <==> Text(a.report.status) == "failed")
    && (row.status == CS.Accepted || row.status == CS.Succeeded || row.status == CS.Failed)
    && (forall command :: Text(command) == row.command ==> command == a.report.command)
    && (forall result :: Text(result) == row.result ==> result == a.report.result)
  }

  lemma RowDetermines(commands: map<string, CS.Command>, a: CH.Accepted, row: CS.Row)
    requires Records(commands, a, row)
    ensures Determines(row, a)
  {
    forall command | Text(command) == row.command ensures command == a.report.command {
      TextIsInjective(command, a.report.command);
    }
    forall result | Text(result) == row.result ensures result == a.report.result {
      TextIsInjective(result, a.report.result);
    }
  }

  /**
   The other half: the update of an accepted report on a command of its device, in time and one step further, is
   recorded as a row and in the command, word for word. Any other report of the three statuses adds no row.
   */
  lemma AcceptedReportIsRecorded(w: World, position: nat)
    requires Awaits(w, position)
    ensures
      var report := w.desk.accepted[position].report;
      var text, id := Text(report.status), Text(report.command);
      var after := Step(w, Update(position));
      var c := if id in w.db.commands then Some(w.db.commands[id]) else None;
      var ours := c.Some? && c.value.device == Text(report.device) && w.desk.now <= c.value.expiresAt;
      var accepts := text == "accepted" && ours && (c.value.status == CS.Queued || c.value.status == CS.Delivered);
      var finishes := (text == "succeeded" || text == "failed") && ours && c.value.status == CS.Accepted;
      var status := if text == "accepted" then CS.Accepted else if text == "succeeded" then CS.Succeeded else CS.Failed;
      if accepts || finishes then
        && after.db.rows == w.db.rows + [CS.Row(id, status, Text(report.result))]
        && after.db.commands
           == w.db.commands[id := c.value.(status := status, result := Text(report.result),
                                           error := Text(report.error))]
        && after.sources == w.sources + [position]
      else after.db.rows == w.db.rows && after.sources == w.sources
  {
    hide Text;
  }
}

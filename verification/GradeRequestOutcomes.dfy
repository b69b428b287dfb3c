/**
 * What calls on grade requests do to them, from the call as it was begun to the row it leaves,
 * and what a row says about the calls that committed on it.
 */
module GradeRequestOutcomes {
  import opened Prelude
  import opened Text
  import opened GradeRequests

  // ---- Edges, by where they lead -----------------------------------------------------------------

  /** From which statuses a request can come to a status. */
  predicate ComesFrom(to: Status, from: Status) {
    match to
    case Submitted => false
    case UnderReview => from == Submitted || from == InfoRequired || from == GradeIdentified || from == QuotationAvailable
    case InfoRequired => from == Submitted || from == UnderReview
    case GradeIdentified => from == Submitted || from == UnderReview
    case QuotationAvailable => from == UnderReview || from == GradeIdentified
    case ConvertedToPr => from == GradeIdentified || from == QuotationAvailable
    case Rejected => from == Submitted || from == UnderReview || from == InfoRequired
    case Closed => from != ConvertedToPr && from != Rejected && from != Closed
  }

  lemma EdgesAre(from: Status, to: Status)
    ensures CanTransition(from, to) <==> ComesFrom(to, from)
  {
  }

  /** Under every interleaving a request changes its status only along these edges. */
  lemma ChangesComeFrom(ws: seq<World>, steps: seq<Step>, n: nat, i: nat)
    requires IsRun(ws, steps) && n < |steps| && i < |ws[n].db.rows|
    ensures i < |ws[n + 1].db.rows|
    ensures var a, b := ws[n].db.rows[i].status, ws[n + 1].db.rows[i].status; a == b || ComesFrom(b, a)
  {
    hide Decide, WriteFits, RowOk, Written, Create, CanTransition, ComesFrom;
    RowsAlwaysOk(ws, steps, n);
    StepKeepsRows(ws[n], steps[n]);
    EdgesAre(ws[n].db.rows[i].status, ws[n + 1].db.rows[i].status);
    if steps[n].Finish? {
      var p := ws[n].pending[steps[n].call];
      if Commits(ws[n].db, p.id, p.read, p.write) {
        WrittenIsOk(ws[n].db.rows[p.id], p.read, p.write, p.actor, steps[n].now);
      }
    } else if steps[n].Submit? {
      CreateKeepsRows(ws[n].db, steps[n].draft);
    }
  }

  // ---- Which calls are let through -----------------------------------------------------------------

  predicate OpenForResolution(row: Row) {
    row.status == Submitted || row.status == UnderReview || row.status == GradeIdentified
  }

  predicate Finished(row: Row) {
    row.status == ConvertedToPr || row.status == Rejected || row.status == Closed
  }

  /** The call may be made on the row as it is read. */
  predicate MayCall(row: Row, op: Op) {
    match op
    case ChangeStatus(to, message) =>
      && to != Submitted && to != InfoRequired && to != GradeIdentified && ComesFrom(to, row.status)
      && (to == Rejected || to == Closed ==> GivesText(message))
      && (to == ConvertedToPr ==> row.resolvedGrade.Some?)
    case RequestInfo(_) => row.status == Submitted || row.status == UnderReview
    case MapGrade(_, found, _, _, _) => OpenForResolution(row) && found
    case CreateGrade(_, _, _) => OpenForResolution(row) && row.resolvedGrade.None?
    case Assign(_, permitted, _) => permitted && !Finished(row)
    case Respond(responder, _) => responder == row.requester && row.status == InfoRequired
    case Cancel(owner, _) => owner == row.requester && !Finished(row)
  }

  lemma PlannedExactlyWhen(row: Row, op: Op)
    ensures Decide(row, op).Planned? <==> MayCall(row, op)
  {
    hide Trim, CanTransition, ComesFrom, OrDefault;
    EdgesAre(row.status, Closed);
    EdgesAre(row.status, InfoRequired);
    ClosedComesFrom(row.status);
    if op.ChangeStatus? {
      EdgesAre(row.status, op.to);
      SelfIsNoEdge(row.status);
    }
  }

  lemma ClosedComesFrom(from: Status)
    ensures ComesFrom(Closed, from) <==> from != ConvertedToPr && from != Rejected && from != Closed
    ensures ComesFrom(InfoRequired, from) <==> from == Submitted || from == UnderReview
  {
  }

  lemma SelfIsNoEdge(s: Status)
    ensures !ComesFrom(s, s)
  {
  }

  // ---- New requests --------------------------------------------------------------------------------

  /** The requester has no row for the retry key, and none open under the same name and maker. */
  predicate MaySubmit(rows: seq<Row>, d: Draft) {
    && d.valid && !d.inCatalogue
    && forall i :: 0 <= i < |rows| && rows[i].requester == d.requester ==>
         && (d.idempotencyKey.Some? ==> rows[i].idempotencyKey != d.idempotencyKey)
         && (rows[i].dedupeKey == StoredKey(d.gradeName, d.manufacturer) ==> Finished(rows[i]))
  }

  /** A create inserts one blank SUBMITTED row with its event exactly when that is so; else it changes nothing. */
  lemma SubmitSays(ws: seq<World>, steps: seq<Step>, n: nat)
    requires IsRun(ws, steps) && n < |steps| && steps[n].Submit?
    ensures var d, db, db' := steps[n].draft, ws[n].db, ws[n + 1].db;
            if MaySubmit(db.rows, d) then
              && |db'.rows| == |db.rows| + 1 && db'.rows[..|db.rows|] == db.rows
              && var row := db'.rows[|db.rows|];
                 && row == Row(d.requester, StoredKey(d.gradeName, d.manufacturer), d.idempotencyKey, Submitted,
                               None, None, None, None, None, None, None, None)
                 && |db'.events| == |db.events| + 1 && db'.events[..|db.events|] == db.events
                 && var e := db'.events[|db.events|];
                    && e.requestId == |db.rows| && e.fromStatus == None && e.toStatus == Some(Submitted) && !e.internal
                    && e.role == if d.requester.Customer? then CustomerRole else SellerRole
            else db' == db
  {
    hide StoredKey;
    OpenIsUnfinished();
  }

  lemma OpenIsUnfinished()
    ensures forall row: Row :: IsOpen(row.status) <==> !Finished(row)
  {
  }

  // ---- Calls in flight ---------------------------------------------------------------------------

  /** The step at which the call was begun last. */
  function Begun(steps: seq<Step>, n: nat, call: nat): (b: Option<nat>)
    requires n <= |steps|
    ensures b.Some? ==> b.value < n && steps[b.value].Begin? && steps[b.value].call == call
  {
    if n == 0 then None
    else if steps[n - 1].Begin? && steps[n - 1].call == call then Some(n - 1)
    else Begun(steps, n - 1, call)
  }

  /** The call in flight is the one begun last under its id: it knows the row as it was then. */
  lemma {:induction false} InFlightWasBegun(ws: seq<World>, steps: seq<Step>, n: nat, call: nat)
    requires IsRun(ws, steps) && n <= |steps| && call in ws[n].pending
    ensures Begun(steps, n, call).Some?
    ensures var b := Begun(steps, n, call).value;
            && steps[b].id < |ws[b].db.rows| && DtoValid(steps[b].op)
            && Decide(ws[b].db.rows[steps[b].id], steps[b].op).Planned?
            && ws[n].pending[call]
               == Pending(steps[b].id, ws[b].db.rows[steps[b].id],
                          Decide(ws[b].db.rows[steps[b].id], steps[b].op).write, steps[b].actor)
  {
    hide Decide, Commit, Create, DtoValid;
    var s := steps[n - 1];
    assert Allowed(ws[n - 1], s) && ws[n] == Take(ws[n - 1], s);
    if s.Begin? && s.call == call {
      assert Begun(steps, n, call) == Some(n - 1);
    } else {
      InFlightWasBegun(ws, steps, n - 1, call);
    }
  }

  // ---- What a call leaves ------------------------------------------------------------------------

  /** What `?.trim() || fallback` gives. */
  predicate IsTextOr(given: Option<string>, fallback: string, text: string) {
    text == if given.Some? && Trim(given.value) != "" then Trim(given.value) else fallback
  }

  predicate GivesText(message: Option<string>) {
    message.Some? && Trim(message.value) != ""
  }

  /** Nothing changed but the status and what is named. */
  predicate SameRequest(a: Row, b: Row) {
    a.requester == b.requester && a.dedupeKey == b.dedupeKey && a.idempotencyKey == b.idempotencyKey
  }

  predicate SameResolution(a: Row, b: Row) {
    a.resolvedGrade == b.resolvedGrade && a.resolutionType == b.resolutionType
  }

  predicate SameClosing(a: Row, b: Row) {
    a.closureReason == b.closureReason && a.closedAt == b.closedAt
  }

  /** An admin who writes takes over what nobody had when the row was read, and reviews it if nobody has. */
  predicate Handled(read: Row, after: Row, actor: nat, now: Time) {
    && after.assignedAdmin == Some(read.assignedAdmin.GetOr(actor))
    && after.reviewedAt == Some(read.reviewedAt.GetOr(now))
  }

  predicate MovedTo(to: Status, message: Option<string>, actor: nat, now: Time, read: Row, before: Row, after: Row) {
    && after.status == to && SameResolution(before, after) && after.response == before.response
    && Handled(read, after, actor, now)
    && after.adminMessage == (if GivesText(message) then Some(Trim(message.value)) else before.adminMessage)
    && (if to == ConvertedToPr || to == Rejected || to == Closed
        then after.closedAt == Some(now) && after.closureReason == if GivesText(message) then Some(Trim(message.value)) else None
        else SameClosing(before, after))
  }

  predicate ResolvedTo(grade: nat, kind: Resolution, actor: nat, now: Time, read: Row, before: Row, after: Row) {
    && after.status == GradeIdentified && after.resolvedGrade == Some(grade) && after.resolutionType == Some(kind)
    && after.response == before.response && SameClosing(before, after) && Handled(read, after, actor, now)
    && after.adminMessage.Some?
  }

  /** The row a committed call leaves, by what the caller asked for. */
  predicate CallSays(op: Op, actor: nat, now: Time, read: Row, before: Row, after: Row) {
    && SameRequest(before, after)
    && match op
       case ChangeStatus(to, message) => MovedTo(to, message, actor, now, read, before, after)
       case RequestInfo(info) => MovedTo(InfoRequired, Some(info), actor, now, read, before, after)
       case MapGrade(g, found, code, message, _) =>
         && found && ResolvedTo(g, MappedExisting, actor, now, read, before, after)
         && IsTextOr(message, "We matched your request to catalogue grade " + code + ".", after.adminMessage.value)
       case CreateGrade(g, _, message) =>
         && ResolvedTo(g, CreatedNew, actor, now, read, before, after)
         && IsTextOr(message, CREATED_MESSAGE, after.adminMessage.value)
       case Assign(target, permitted, _) => permitted && after == before.(assignedAdmin := Some(target))
       case Respond(responder, answer) =>
         && responder == before.requester
         && after == before.(status := UnderReview, response := Some(answer), adminMessage := None)
       case Cancel(owner, reason) =>
         && owner == before.requester && after.closureReason.Some?
         && after == before.(status := Closed, closureReason := after.closureReason, closedAt := Some(now))
         && IsTextOr(reason, if owner.Customer? then "Cancelled by customer" else "Cancelled by seller", after.closureReason.value)
  }

  lemma WriteSays(op: Op, actor: nat, now: Time, read: Row, before: Row)
    requires Decide(read, op).Planned? && SameRequest(read, before)
    ensures CallSays(op, actor, now, read, before, Written(before, read, Decide(read, op).write, actor, now))
  {
    hide Trim, CanTransition;
  }

  /** The events a committed call appends: who acted, between which statuses, and what only admins see. */
  predicate EventsSay(op: Op, read: Row, after: Row, id: nat, events: seq<Entry>) {
    && events != [] && (forall e :: e in events ==> e.requestId == id)
    && var e := events[0];
       && (if op.Assign? then e.internal && e.role == AdminRole && e.fromStatus == e.toStatus == None
           else !e.internal && e.fromStatus == Some(read.status) && e.toStatus == Some(after.status))
       && (op.Respond? || op.Cancel? ==>
             e.role == if read.requester.Customer? then CustomerRole else SellerRole)
       && (op.ChangeStatus? || op.RequestInfo? || op.MapGrade? || op.CreateGrade? ==> e.role == AdminRole)
       && (op.Respond? ==> e.message == Some(op.answer))
       && (op.MapGrade? || op.CreateGrade? ==> e.message == after.adminMessage)
       && (op.Cancel? ==> e.message == after.closureReason)
       && ((op.MapGrade? && GivesText(op.note)) || op.CreateGrade? <==> |events| > 1)
       && (|events| > 1 ==> |events| == 2 && events[1].internal && events[1].role == AdminRole
                            && events[1].fromStatus == events[1].toStatus == None
                            && (op.MapGrade? ==> events[1].message == Some(Trim(op.note.value))))
  }

  lemma WriteRecords(op: Op, actor: nat, now: Time, read: Row, before: Row, id: nat)
    requires Decide(read, op).Planned? && SameRequest(read, before) && (op.Assign? || read.status == before.status)
    ensures var w := Decide(read, op).write;
            EventsSay(op, read, Written(before, read, w, actor, now), id, Entries(id, read, w))
  {
    hide CanTransition, Trim;
    if op.CreateGrade? {
      NoteIsGiven(op.newCode);
    }
  }

  lemma NoteIsGiven(code: string)
    ensures Trim("Created catalogue grade " + code + " (unpublished)") != ""
  {
    var note := "Created catalogue grade " + code + " (unpublished)";
    assert note[0] == 'C' && note[|note| - 1] == ')';
    TrimFixed(note);
  }

  /** Whether the call begun at step `b` takes effect when it finishes at step `n`. */
  predicate TakesEffect(ws: seq<World>, steps: seq<Step>, b: nat, n: nat)
    requires b < n < |ws| <= |steps| + 1 && steps[b].Begin?
  {
    var id := steps[b].id;
    && id < |ws[b].db.rows| && id < |ws[n].db.rows|
    && (steps[b].op.Assign? || ws[n].db.rows[id].status == ws[b].db.rows[id].status)
  }

  /**
   * Under every interleaving a finished call leaves on its row what the caller asked for, and the
   * events that say so, if the status is still the one it read; otherwise it leaves nothing.
   */
  lemma FinishedCallSays(ws: seq<World>, steps: seq<Step>, n: nat)
    requires IsRun(ws, steps) && n < |steps| && steps[n].Finish?
    ensures Begun(steps, n, steps[n].call).Some?
    ensures var b := Begun(steps, n, steps[n].call).value;
            var s, db, db' := steps[b], ws[n].db, ws[n + 1].db;
            if TakesEffect(ws, steps, b, n) then
              && |db'.rows| == |db.rows| && db.events <= db'.events
              && CallSays(s.op, s.actor, steps[n].now, ws[b].db.rows[s.id], db.rows[s.id], db'.rows[s.id])
              && EventsSay(s.op, ws[b].db.rows[s.id], db'.rows[s.id], s.id, db'.events[|db.events|..])
              && forall i :: 0 <= i < |db.rows| && i != s.id ==> db'.rows[i] == db.rows[i]
            else db' == db
  {
    hide Decide, Written, Entries, CallSays, EventsSay, RowOk, WriteFits;
    var call := steps[n].call;
    InFlightWasBegun(ws, steps, n, call);
    RowsAlwaysOk(ws, steps, n);
    var b := Begun(steps, n, call).value;
    var s, p := steps[b], ws[n].pending[call];
    assert PendingOk(ws[n].db, p);
    RetryKeyRemains(ws, steps, b, n, s.id);
    assert p.write.SetAssignee? <==> s.op.Assign? by { WritesAssignee(ws[b].db.rows[s.id], s.op); }
    WriteSays(s.op, s.actor, steps[n].now, p.read, ws[n].db.rows[s.id]);
    if TakesEffect(ws, steps, b, n) {
      WriteRecords(s.op, s.actor, steps[n].now, p.read, ws[n].db.rows[s.id], s.id);
    }
  }

  lemma WritesAssignee(row: Row, op: Op)
    requires Decide(row, op).Planned?
    ensures Decide(row, op).write.SetAssignee? <==> op.Assign?
  {
  }

  // ---- The grade of a row ------------------------------------------------------------------------

  /** The call that finishes at step `n`, if it takes effect on row `i`. */
  function EffectOn(ws: seq<World>, steps: seq<Step>, n: nat, i: nat): (b: Option<nat>)
    requires n < |steps| && |ws| == |steps| + 1
    ensures b.Some? ==> b.value < n && steps[b.value].Begin? && steps[b.value].id == i && i < |ws[b.value].db.rows|
  {
    if !steps[n].Finish? then None
    else
      var b := Begun(steps, n, steps[n].call);
      if b.Some? && TakesEffect(ws, steps, b.value, n) && steps[b.value].id == i then b else None
  }

  /** The grade given by the last call that resolved the row, and how. */
  function LastResolution(ws: seq<World>, steps: seq<Step>, n: nat, i: nat): Option<(nat, Resolution)>
    requires n <= |steps| && |ws| == |steps| + 1
  {
    if n == 0 then None
    else
      var b := EffectOn(ws, steps, n - 1, i);
      if b.Some? && steps[b.value].op.MapGrade? then Some((steps[b.value].op.gradeId, MappedExisting))
      else if b.Some? && steps[b.value].op.CreateGrade? then Some((steps[b.value].op.newGradeId, CreatedNew))
      else LastResolution(ws, steps, n - 1, i)
  }

  predicate TellsResolution(row: Row, last: Option<(nat, Resolution)>) {
    && row.resolvedGrade == (if last.Some? then Some(last.value.0) else None)
    && row.resolutionType == (if last.Some? then Some(last.value.1) else None)
  }

  /** A step that is no effective call on a row leaves the row; a new row starts blank. */
  lemma OtherStepsLeaveRow(ws: seq<World>, steps: seq<Step>, n: nat, i: nat)
    requires IsRun(ws, steps) && n < |steps| && i < |ws[n + 1].db.rows| && EffectOn(ws, steps, n, i).None?
    ensures if i < |ws[n].db.rows| then ws[n + 1].db.rows[i] == ws[n].db.rows[i]
            else ws[n + 1].db.rows[i].resolvedGrade.None? && ws[n + 1].db.rows[i].resolutionType.None?
                 && ws[n + 1].db.rows[i].assignedAdmin.None?
  {
    hide CallSays, EventsSay, Decide;
    if steps[n].Finish? {
      FinishedCallSays(ws, steps, n);
    }
  }

  /** Nobody has done anything to a row that does not exist yet. */
  lemma {:induction false} NoEffectBefore(ws: seq<World>, steps: seq<Step>, n: nat, i: nat)
    requires IsRun(ws, steps) && n <= |steps| && i >= |ws[n].db.rows|
    ensures LastResolution(ws, steps, n, i).None? && Responsible(ws, steps, n, i).None?
    ensures forall m :: 0 <= m < n ==> EffectOn(ws, steps, m, i).None?
  {
    hide Take, Allowed, CallSays;
    if n > 0 {
      RowsAlwaysOk(ws, steps, n - 1);
      StepKeepsRows(ws[n - 1], steps[n - 1]);
      NoEffectBefore(ws, steps, n - 1, i);
    }
  }

  /**
   * At any point of any run the grade of a request is the one the last effective mapping or
   * creation gave it, and so is the way it was resolved; without one it has none.
   */
  lemma {:induction false} GradeTellsLastResolution(ws: seq<World>, steps: seq<Step>, n: nat, i: nat)
    requires IsRun(ws, steps) && n <= |steps| && i < |ws[n].db.rows|
    ensures TellsResolution(ws[n].db.rows[i], LastResolution(ws, steps, n, i))
  {
    hide Take, Allowed, IsTextOr, EventsSay;
    var b := EffectOn(ws, steps, n - 1, i);
    if b.Some? {
      FinishedCallSays(ws, steps, n - 1);
      GradeTellsLastResolution(ws, steps, n - 1, i);
    } else {
      OtherStepsLeaveRow(ws, steps, n - 1, i);
      if i < |ws[n - 1].db.rows| {
        GradeTellsLastResolution(ws, steps, n - 1, i);
      } else {
        NoEffectBefore(ws, steps, n - 1, i);
      }
    }
  }

  // ---- The admin of a row ------------------------------------------------------------------------

  predicate IsAdminWrite(op: Op) {
    op.ChangeStatus? || op.RequestInfo? || op.MapGrade? || op.CreateGrade?
  }

  /** Whoever was assigned last, else the first admin whose call took effect. */
  function Responsible(ws: seq<World>, steps: seq<Step>, n: nat, i: nat): Option<nat>
    requires n <= |steps| && |ws| == |steps| + 1
  {
    if n == 0 then None
    else
      var before, b := Responsible(ws, steps, n - 1, i), EffectOn(ws, steps, n - 1, i);
      if b.Some? && steps[b.value].op.Assign? then Some(steps[b.value].op.target)
      else if b.Some? && IsAdminWrite(steps[b.value].op) && before.None? then Some(steps[b.value].actor)
      else before
  }

  /** A call puts back the assignee it had read although somebody has assigned the row since. */
  predicate Reassigns(ws: seq<World>, steps: seq<Step>, n: nat, i: nat)
    requires n < |steps| && |ws| == |steps| + 1
  {
    var b := EffectOn(ws, steps, n, i);
    && b.Some? && IsAdminWrite(steps[b.value].op) && i < |ws[n].db.rows|
    && ws[b.value].db.rows[i].assignedAdmin.GetOr(steps[b.value].actor) != ws[n].db.rows[i].assignedAdmin.GetOr(steps[b.value].actor)
  }

  ghost predicate TellsResponsible(ws: seq<World>, steps: seq<Step>, n: nat, i: nat)
    requires n <= |steps| && |ws| == |steps| + 1
  {
    i < |ws[n].db.rows| ==> ws[n].db.rows[i].assignedAdmin == Responsible(ws, steps, n, i)
  }

  lemma StepTellsResponsible(ws: seq<World>, steps: seq<Step>, n: nat, i: nat)
    requires IsRun(ws, steps) && n < |steps| && TellsResponsible(ws, steps, n, i)
    ensures TellsResponsible(ws, steps, n + 1, i) <==> !Reassigns(ws, steps, n, i)
  {
    hide Take, Allowed, IsTextOr, EventsSay, SameClosing, SameResolution;
    if i < |ws[n + 1].db.rows| {
      var b := EffectOn(ws, steps, n, i);
      if b.Some? {
        FinishedCallSays(ws, steps, n);
      } else {
        OtherStepsLeaveRow(ws, steps, n, i);
        if i >= |ws[n].db.rows| {
          NoEffectBefore(ws, steps, n, i);
        }
      }
    } else {
      NoEffectBefore(ws, steps, n + 1, i);
    }
  }

  /**
   * A request is in the hands of whoever was assigned last, else of the first admin who acted, at
   * every point up to `n`, exactly when no call put back an assignee it had read before a change.
   */
  lemma {:induction false} AssigneeTellsExactlyWhen(ws: seq<World>, steps: seq<Step>, n: nat, i: nat)
    requires IsRun(ws, steps) && n <= |steps|
    ensures (forall m :: 0 <= m <= n ==> TellsResponsible(ws, steps, m, i))
       <==> (forall m :: 0 <= m < n ==> !Reassigns(ws, steps, m, i))
  {
    hide Take, Allowed, Reassigns, TellsResponsible;
    if n == 0 {
      NoRowsYet(ws, steps, i);
    } else {
      AssigneeTellsExactlyWhen(ws, steps, n - 1, i);
      if forall m :: 0 <= m <= n - 1 ==> TellsResponsible(ws, steps, m, i) {
        StepTellsResponsible(ws, steps, n - 1, i);
      }
    }
  }

  lemma NoRowsYet(ws: seq<World>, steps: seq<Step>, i: nat)
    requires IsRun(ws, steps)
    ensures TellsResponsible(ws, steps, 0, i)
  {
  }

  function SampleDraft(): Draft {
    Draft(Customer(0), None, true, "G", None, false)
  }

  function SampleSteps(admin: nat, target: nat): seq<Step> {
    [Submit(SampleDraft()), Begin(0, 0, ChangeStatus(UnderReview, None), admin),
     Begin(1, 0, Assign(target, true, false), admin), Finish(1, 0), Finish(0, 0)]
  }

  lemma SampleRun(admin: nat, target: nat) returns (ws: seq<World>)
    ensures var row := NewRow(SampleDraft());
            && IsRun(ws, SampleSteps(admin, target))
            && ws[1].db.rows == ws[2].db.rows == ws[3].db.rows == [row]
            && ws[4].db.rows == [row.(assignedAdmin := Some(target))]
            && |ws[5].db.rows| == 1 && ws[5].db.rows[0].assignedAdmin == Some(admin)
  {
    hide StoredKey, Trim;
    var steps, row := SampleSteps(admin, target), NewRow(SampleDraft());
    var w0 := World(Db([], []), map[]);
    var w1 := Take(w0, steps[0]);
    assert w1.db.rows == [row];
    var w2 := Take(w1, steps[1]);
    assert w2.pending[0] == Pending(0, row, Transition(UnderReview, None, "STATUS_CHANGED"), admin);
    var w3 := Take(w2, steps[2]);
    assert w3.pending[1] == Pending(0, row, SetAssignee(target, false), admin);
    var w4 := Take(w3, steps[3]);
    assert w4.db.rows == [row.(assignedAdmin := Some(target))] && 0 in w4.pending;
    ws := [w0, w1, w2, w3, w4, Take(w4, steps[4])];
  }

  lemma SampleBegun(admin: nat, target: nat)
    ensures Begun(SampleSteps(admin, target), 3, 1) == Some(2) && Begun(SampleSteps(admin, target), 4, 0) == Some(1)
  {
    var steps := SampleSteps(admin, target);
    assert Begun(steps, 2, 0) == Some(1);
    assert Begun(steps, 3, 0) == Some(1);
  }

  /**
   * A run in which that happens: an admin opens a new request for review, meanwhile it is assigned
   * to somebody else, and the review puts it back into the admin's hands.
   */
  lemma ReviewUndoesAssignment(admin: nat, target: nat) returns (ws: seq<World>, steps: seq<Step>)
    requires admin != target
    ensures IsRun(ws, steps) && |steps| == 5
    ensures steps[2].Begin? && steps[2].op == Assign(target, true, false) && EffectOn(ws, steps, 3, 0) == Some(2)
    ensures Responsible(ws, steps, 5, 0) == Some(target) && Reassigns(ws, steps, 4, 0)
    ensures |ws[5].db.rows| == 1 && ws[5].db.rows[0].assignedAdmin == Some(admin)
  {
    hide StoredKey, Trim, Take, Allowed, NewRow, Begun;
    ws := SampleRun(admin, target);
    steps := SampleSteps(admin, target);
    SampleBegun(admin, target);
    assert ws[1].db.rows[0].assignedAdmin == None && ws[4].db.rows[0].status == ws[1].db.rows[0].status by { NewRowIsFree(); }
    assert EffectOn(ws, steps, 3, 0) == Some(2) && EffectOn(ws, steps, 4, 0) == Some(1);
    assert Responsible(ws, steps, 4, 0) == Some(target);
  }

  lemma NewRowIsFree()
    ensures NewRow(SampleDraft()).assignedAdmin == None
  {
  }
}

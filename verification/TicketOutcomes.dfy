/**
 * What calls on support tickets do to them, from the call as it was begun to the ticket and the
 * messages it leaves.
 */
module TicketOutcomes {
  import opened Prelude
  import opened Text
  import opened Support

  // ---- Which calls are let through -----------------------------------------------------------------

  /** Where an agent can take a ticket from. */
  predicate AgentTakesFrom(to: Status, from: Status) {
    match to
    case Open => false
    case InProgress => from == Open || from == WaitingCustomer || from == Resolved || from == Closed
    case WaitingCustomer => from == Open || from == InProgress
    case Resolved => from == Open || from == InProgress || from == WaitingCustomer
    case Closed => from != Closed
  }

  predicate GivesText(text: Option<string>) {
    text.Some? && Trim(text.value) != ""
  }

  /** The call may be made on the ticket as it is read; resolving takes a note of five characters. */
  predicate MayCall(t: Ticket, op: Op) {
    match op
    case DoReply(user, _) => user == t.requester && t.status != Closed
    case DoUpdate(to, note, _, _, _) =>
      if to == t.status then GivesText(note)
      else AgentTakesFrom(to, t.status) && (to == Resolved ==> note.Some? && |Trim(note.value)| >= 5)
    case DoAgentReply(_, _) => t.status != Closed
  }

  lemma PlannedExactlyWhen(t: Ticket, op: Op)
    ensures Decide(t, op).Some? <==> MayCall(t, op)
  {
    hide Trim;
    BlankIsBlank();
  }

  lemma BlankIsBlank()
    ensures Trim("") == ""
  {
  }

  // ---- Calls in flight -----------------------------------------------------------------------------

  /** The step at which the call was begun last. */
  function Begun(steps: seq<Step>, n: nat, call: nat): (b: Option<nat>)
    requires n <= |steps|
    ensures b.Some? ==> b.value < n && steps[b.value].Begin? && steps[b.value].call == call
  {
    if n == 0 then None
    else if steps[n - 1].Begin? && steps[n - 1].call == call then Some(n - 1)
    else Begun(steps, n - 1, call)
  }

  lemma {:induction false} InFlightWasBegun(ws: seq<World>, steps: seq<Step>, n: nat, call: nat)
    requires IsRun(ws, steps) && n <= |steps| && call in ws[n].pending
    ensures Begun(steps, n, call).Some?
    ensures var b := Begun(steps, n, call).value;
            && steps[b].id < |ws[b].db.tickets|
            && Decide(ws[b].db.tickets[steps[b].id], steps[b].op).Some?
            && ws[n].pending[call]
               == Pending(steps[b].id, ws[b].db.tickets[steps[b].id], Decide(ws[b].db.tickets[steps[b].id], steps[b].op).value)
  {
    hide Decide, Commit;
    var s := steps[n - 1];
    assert Allowed(ws[n - 1], s) && ws[n] == Take(ws[n - 1], s);
    if s.Begin? && s.call == call {
      assert Begun(steps, n, call) == Some(n - 1);
    } else {
      InFlightWasBegun(ws, steps, n - 1, call);
    }
  }

  // ---- What a call leaves ---------------------------------------------------------------------------

  predicate Reopened(to: Status, read: Ticket) {
    to != read.status && (read.status == Resolved || read.status == Closed)
  }

  /** The times of a ticket after an agent's update. */
  predicate TimesAfter(to: Status, now: Time, read: Ticket, before: Ticket, after: Ticket) {
    if Reopened(to, read) then after.resolvedAt.None? && after.closedAt.None?
    else if to == Resolved then after.resolvedAt == Some(now) && after.closedAt == before.closedAt
    else if to == Closed then after.closedAt == Some(now) && after.resolvedAt == Some(read.resolvedAt.GetOr(now))
    else after.resolvedAt == before.resolvedAt && after.closedAt == before.closedAt
  }

  /** The ticket a committed call leaves, by what the caller asked for. */
  predicate CallSays(op: Op, read: Ticket, before: Ticket, after: Ticket) {
    && after.requester == before.requester
    && match op
       case DoReply(user, _) =>
         && user == read.requester
         && after == before.(
              status := if read.status == Open then Open else InProgress,
              resolvedAt := if read.status == Resolved then None else before.resolvedAt)
       case DoUpdate(to, note, assignee, actor, now) =>
         && after.status == to && TimesAfter(to, now, read, before, after)
         && after.assignedTo == (if assignee.Some? then assignee else if read.assignedTo.Some? then read.assignedTo else Some(actor))
         && after.resolutionNote
            == (if to != Resolved then before.resolutionNote else if GivesText(note) then Some(Trim(note.value)) else None)
       case DoAgentReply(_, agent) =>
         after == before.(
           status := if read.status == Open then InProgress else if read.status == Resolved then Resolved else WaitingCustomer,
           assignedTo := if read.assignedTo.Some? then before.assignedTo else Some(agent))
  }

  lemma WriteSays(op: Op, read: Ticket, before: Ticket)
    requires Decide(read, op).Some?
    ensures CallSays(op, read, before, Written(before, read, Decide(read, op).value))
  {
    hide Trim, AgentMayMove;
    BlankIsBlank();
  }

  /** The messages a committed call leaves: what was said, and what the system notes. */
  predicate MessagesSay(op: Op, read: Ticket, id: nat, ms: seq<Message>) {
    match op
    case DoReply(_, body) =>
      && ms != [] && ms[0] == Message(id, Requester, Trim(body))
      && (|ms| > 1 <==> read.status == Resolved) && (|ms| > 1 ==> |ms| == 2 && ms[1].ticketId == id && ms[1].sender == System)
    case DoUpdate(to, note, _, _, _) =>
      && |ms| == (if to != read.status then 1 else 0) + (if GivesText(note) then 1 else 0)
      && (to != read.status ==>
            ms[0] == Message(id, System, if Reopened(to, read) then "Ticket reopened" else "Status updated"))
      && (GivesText(note) ==> ms[|ms| - 1] == Message(id, Agent, Trim(note.value)))
    case DoAgentReply(body, _) => ms == [Message(id, Agent, Trim(body))]
  }

  lemma WriteRecords(op: Op, read: Ticket, id: nat)
    requires Decide(read, op).Some?
    ensures MessagesSay(op, read, id, Messages(id, read, Decide(read, op).value))
  {
    hide Trim, AgentMayMove;
    BlankIsBlank();
  }

  predicate TakesEffect(ws: seq<World>, steps: seq<Step>, b: nat, n: nat)
    requires b < n < |ws| <= |steps| + 1 && steps[b].Begin?
  {
    var id := steps[b].id;
    id < |ws[b].db.tickets| && id < |ws[n].db.tickets| && ws[n].db.tickets[id].status == ws[b].db.tickets[id].status
  }

  lemma {:induction false} TicketsRemain(ws: seq<World>, steps: seq<Step>, i: nat, j: nat)
    requires IsRun(ws, steps) && i <= j <= |steps|
    ensures |ws[i].db.tickets| <= |ws[j].db.tickets|
    decreases j - i
  {
    hide Decide, Written, Messages;
    if i < j {
      TicketsRemain(ws, steps, i + 1, j);
    }
  }

  /**
   * Under every interleaving a finished call leaves on its ticket what the caller asked for, and
   * the messages that go with it, if the status is still the one it read; otherwise nothing.
   */
  lemma FinishedCallSays(ws: seq<World>, steps: seq<Step>, n: nat)
    requires IsRun(ws, steps) && n < |steps| && steps[n].Finish?
    ensures Begun(steps, n, steps[n].call).Some?
    ensures var b := Begun(steps, n, steps[n].call).value;
            var s, db, db' := steps[b], ws[n].db, ws[n + 1].db;
            if TakesEffect(ws, steps, b, n) then
              && |db'.tickets| == |db.tickets| && db.messages <= db'.messages
              && CallSays(s.op, ws[b].db.tickets[s.id], db.tickets[s.id], db'.tickets[s.id])
              && MessagesSay(s.op, ws[b].db.tickets[s.id], s.id, db'.messages[|db.messages|..])
              && forall i :: 0 <= i < |db.tickets| && i != s.id ==> db'.tickets[i] == db.tickets[i]
            else db' == db
  {
    hide Decide, Written, Messages, CallSays, MessagesSay;
    var call := steps[n].call;
    InFlightWasBegun(ws, steps, n, call);
    var b := Begun(steps, n, call).value;
    var s, p := steps[b], ws[n].pending[call];
    TicketsRemain(ws, steps, b, n);
    WriteSays(s.op, p.read, ws[n].db.tickets[s.id]);
    WriteRecords(s.op, p.read, s.id);
  }

  // ---- Over whole runs --------------------------------------------------------------------------------

  /** The status a ticket can have after another, whoever acts: by an agent's update, by a reply, or as it was. */
  predicate CanFollow(to: Status, from: Status) {
    || to == from || AgentTakesFrom(to, from)
    || (to == InProgress && (from == Open || from == WaitingCustomer || from == Resolved))
    || (to == WaitingCustomer && from == InProgress)
  }

  /** Once a ticket is closed, only an agent's update to IN_PROGRESS can follow; no reply brings it back. */
  lemma ClosedIsReopenedByAgents(ws: seq<World>, steps: seq<Step>, n: nat, i: nat)
    requires IsRun(ws, steps) && n < |steps| && i < |ws[n].db.tickets| && ws[n].db.tickets[i].status == Closed
    ensures i < |ws[n + 1].db.tickets|
    ensures var after := ws[n + 1].db.tickets[i];
            after.status != Closed ==>
              && after.status == InProgress && after.closedAt.None? && after.resolvedAt.None?
              && steps[n].Finish? && Begun(steps, n, steps[n].call).Some?
              && steps[Begun(steps, n, steps[n].call).value].op.DoUpdate?
  {
    hide Decide, Written, Messages, MessagesSay;
    TicketsRemain(ws, steps, n, n + 1);
    if steps[n].Finish? {
      FinishedCallSays(ws, steps, n);
      var b := Begun(steps, n, steps[n].call).value;
      InFlightWasBegun(ws, steps, n, steps[n].call);
      PlannedExactlyWhen(ws[b].db.tickets[steps[b].id], steps[b].op);
    }
  }

  /** Under every interleaving each ticket moves along these steps only. */
  lemma StatusesFollow(ws: seq<World>, steps: seq<Step>, n: nat, i: nat)
    requires IsRun(ws, steps) && n < |steps| && i < |ws[n].db.tickets|
    ensures i < |ws[n + 1].db.tickets| && CanFollow(ws[n + 1].db.tickets[i].status, ws[n].db.tickets[i].status)
  {
    hide Decide, Written, Messages, MessagesSay;
    TicketsRemain(ws, steps, n, n + 1);
    if steps[n].Finish? {
      FinishedCallSays(ws, steps, n);
      var b := Begun(steps, n, steps[n].call).value;
      InFlightWasBegun(ws, steps, n, steps[n].call);
      PlannedExactlyWhen(ws[b].db.tickets[steps[b].id], steps[b].op);
    }
  }
}

/**
 * Support tickets: requesters and agents reply and agents change statuses concurrently, each
 * by reading the ticket and later writing with `where status = <status read>`.
 */
module Support {
  import opened Prelude
  import opened Text

  datatype Status = Open | InProgress | WaitingCustomer | Resolved | Closed

  const RESOLUTION_NOTE_MIN_LENGTH: nat := 5

  function AgentTransitions(from: Status): seq<Status> {
    match from
    case Open => [InProgress, WaitingCustomer, Resolved, Closed]
    case InProgress => [WaitingCustomer, Resolved, Closed]
    case WaitingCustomer => [InProgress, Resolved, Closed]
    case Resolved => [InProgress, Closed]
    case Closed => [InProgress]
  }

  function TrimmedNote(note: Option<string>): string {
    Trim(note.GetOr(""))
  }

  predicate AgentMayMove(from: Status, to: Status, note: Option<string>) {
    if from == to then TrimmedNote(note) != ""
    else to in AgentTransitions(from) && (to == Resolved ==> |TrimmedNote(note)| >= RESOLUTION_NOTE_MIN_LENGTH)
  }

  /** None for a closed ticket, which cannot be replied to. */
  function AfterRequesterReply(from: Status): Option<Status> {
    match from
    case Closed => None
    case Resolved => Some(InProgress)
    case WaitingCustomer => Some(InProgress)
    case _ => Some(from)
  }

  function AfterAgentReply(from: Status): Option<Status> {
    match from
    case Closed => None
    case Open => Some(InProgress)
    case Resolved => Some(Resolved)
    case _ => Some(WaitingCustomer)
  }

  datatype Ticket = Ticket(
    requester: nat, status: Status, assignedTo: Option<nat>, resolutionNote: Option<string>,
    resolvedAt: Option<Time>, closedAt: Option<Time>)

  datatype Sender = Requester | Agent | System

  datatype Message = Message(ticketId: nat, sender: Sender, body: string)

  datatype Db = Db(tickets: seq<Ticket>, messages: seq<Message>)

  /** A call as it stands after its read and its checks. */
  datatype Write =
    | Reply(body: string)
    | Update(to: Status, note: Option<string>, assignee: Option<nat>, actor: nat, now: Time)
    | AgentReply(agentBody: string, agent: nat)

  datatype Op =
    | DoReply(user: nat, body: string)
    | DoUpdate(to: Status, note: Option<string>, assignee: Option<nat>, actor: nat, now: Time)
    | DoAgentReply(body: string, agent: nat)

  /** The write a call decides on for the ticket it read, or none when it is refused. */
  function Decide(read: Ticket, op: Op): Option<Write> {
    match op
    case DoReply(user, body) =>
      if read.requester != user || AfterRequesterReply(read.status).None? then None else Some(Reply(body))
    case DoUpdate(to, note, assignee, actor, now) =>
      if AgentMayMove(read.status, to, note) then Some(Update(to, note, assignee, actor, now)) else None
    case DoAgentReply(body, agent) =>
      if AfterAgentReply(read.status).None? then None else Some(AgentReply(body, agent))
  }

  predicate Reopens(read: Ticket, to: Status) {
    to != read.status && (read.status == Resolved || read.status == Closed)
  }

  predicate Fits(read: Ticket, w: Write) {
    match w
    case Reply(_) => read.status != Closed
    case Update(to, note, _, _, _) => AgentMayMove(read.status, to, note)
    case AgentReply(_, _) => read.status != Closed
  }

  function NoteOrNull(note: Option<string>): Option<string> {
    if TrimmedNote(note) == "" then None else Some(TrimmedNote(note))
  }

  /** The ticket after the write, given it as it is now and as the caller read it. */
  function Written(t: Ticket, read: Ticket, w: Write): Ticket {
    match w
    case Reply(_) =>
      t.(status := AfterRequesterReply(read.status).GetOr(read.status), resolvedAt := if read.status == Resolved then None else t.resolvedAt)
    case Update(to, note, assignee, actor, now) =>
      t.(status := to,
         assignedTo := OrElse(OrElse(assignee, read.assignedTo), Some(actor)),
         resolutionNote := if to == Resolved then NoteOrNull(note) else t.resolutionNote,
         resolvedAt := if Reopens(read, to) then None
                       else if to == Resolved then Some(now)
                       else if to == Closed then OrElse(read.resolvedAt, Some(now))
                       else t.resolvedAt,
         closedAt := if Reopens(read, to) then None else if to == Closed then Some(now) else t.closedAt)
    case AgentReply(_, agent) =>
      t.(status := AfterAgentReply(read.status).GetOr(read.status),
         assignedTo := if read.assignedTo.Some? then t.assignedTo else Some(agent))
  }

  function Messages(id: nat, read: Ticket, w: Write): seq<Message> {
    match w
    case Reply(body) =>
      [Message(id, Requester, Trim(body))]
      + if read.status == Resolved then [Message(id, System, "Ticket reopened by the requester.")] else []
    case Update(to, note, _, _, _) =>
      (if to == read.status then []
       else [Message(id, System, if Reopens(read, to) then "Ticket reopened" else "Status updated")])
      + (if NoteOrNull(note).Some? then [Message(id, Agent, TrimmedNote(note))] else [])
    case AgentReply(body, _) => [Message(id, Agent, Trim(body))]
  }

  predicate Commits(db: Db, id: nat, read: Ticket) {
    id < |db.tickets| && db.tickets[id].status == read.status
  }

  function Commit(db: Db, id: nat, read: Ticket, w: Write): Db {
    if Commits(db, id, read)
    then Db(db.tickets[id := Written(db.tickets[id], read, w)], db.messages + Messages(id, read, w))
    else db
  }

  function NewTicket(requester: nat): Ticket {
    Ticket(requester, Open, None, None, None, None)
  }

  // ---- The interleaved system -------------------------------------------------------------

  datatype Pending = Pending(id: nat, read: Ticket, write: Write)

  datatype World = World(db: Db, pending: map<nat, Pending>)

  datatype Step =
    | Raise(requester: nat, description: string)
    | Begin(call: nat, id: nat, op: Op)
    | Finish(call: nat)

  predicate Allowed(w: World, s: Step) {
    match s
    case Raise(_, _) => true
    case Begin(call, id, _) => call !in w.pending && id < |w.db.tickets|
    case Finish(call) => call in w.pending
  }

  function Take(w: World, s: Step): World
    requires Allowed(w, s)
  {
    match s
    case Raise(requester, description) =>
      w.(db := Db(w.db.tickets + [NewTicket(requester)],
                  w.db.messages + [Message(|w.db.tickets|, Requester, Trim(description))]))
    case Begin(call, id, op) =>
      var plan := Decide(w.db.tickets[id], op);
      if plan.Some? then w.(pending := w.pending[call := Pending(id, w.db.tickets[id], plan.value)]) else w
    case Finish(call) =>
      var p := w.pending[call];
      World(Commit(w.db, p.id, p.read, p.write), w.pending - {call})
  }

  ghost predicate IsRun(ws: seq<World>, steps: seq<Step>) {
    && |ws| == |steps| + 1 && ws[0] == World(Db([], []), map[])
    && forall i :: 0 <= i < |steps| ==> Allowed(ws[i], steps[i]) && ws[i + 1] == Take(ws[i], steps[i])
  }

  // ---- Invariants -----------------------------------------------------------------------------

  predicate TicketOk(t: Ticket) {
    && (t.status != Resolved && t.status != Closed ==> t.resolvedAt.None? && t.closedAt.None?)
    && (t.status == Resolved ==>
          t.resolvedAt.Some? && t.closedAt.None? && t.resolutionNote.Some? && t.resolutionNote.value != "")
  }

  /** Moves a ticket can make: an agent's edge, or where a reply takes it. */
  predicate Edge(from: Status, to: Status) {
    to in AgentTransitions(from) || AfterRequesterReply(from) == Some(to) || AfterAgentReply(from) == Some(to)
  }

  lemma DecisionFits(read: Ticket, op: Op)
    requires Decide(read, op).Some?
    ensures Fits(read, Decide(read, op).value)
  {
  }

  lemma WrittenIsOk(t: Ticket, read: Ticket, w: Write)
    requires TicketOk(t) && Fits(read, w) && t.status == read.status
    ensures TicketOk(Written(t, read, w))
    ensures Written(t, read, w).status == t.status || Edge(t.status, Written(t, read, w).status)
  {
  }

  ghost predicate Inv(w: World) {
    && (forall i :: 0 <= i < |w.db.tickets| ==> TicketOk(w.db.tickets[i]))
    && (forall c :: c in w.pending ==> w.pending[c].id < |w.db.tickets| && Fits(w.pending[c].read, w.pending[c].write))
  }

  lemma StepKeepsInv(w: World, s: Step)
    requires Inv(w) && Allowed(w, s)
    ensures Inv(Take(w, s))
  {
    match s
    case Raise(_, _) =>
    case Begin(call, id, op) =>
      if Decide(w.db.tickets[id], op).Some? {
        DecisionFits(w.db.tickets[id], op);
      }
    case Finish(call) =>
      var p := w.pending[call];
      if Commits(w.db, p.id, p.read) {
        WrittenIsOk(w.db.tickets[p.id], p.read, p.write);
      }
  }

  /**
   * Under every interleaving a ticket that is neither resolved nor closed has no timestamps, and
   * a resolved one has its time and a resolution note but no closing time.
   */
  lemma {:induction false} TimestampsFollowStatus(ws: seq<World>, steps: seq<Step>, n: nat)
    requires IsRun(ws, steps) && n <= |steps|
    ensures Inv(ws[n])
  {
    if n > 0 {
      TimestampsFollowStatus(ws, steps, n - 1);
      StepKeepsInv(ws[n - 1], steps[n - 1]);
    }
  }

  /**
   * Every status change of a run is an edge from the status actually stored, and leaves at
   * least one message on its ticket.
   */
  lemma ChangesAreEdges(ws: seq<World>, steps: seq<Step>, n: nat, i: nat)
    requires IsRun(ws, steps) && n < |steps| && i < |ws[n].db.tickets|
    ensures i < |ws[n + 1].db.tickets|
    ensures var a, b := ws[n].db.tickets[i].status, ws[n + 1].db.tickets[i].status;
            a != b ==>
              && Edge(a, b)
              && exists m :: m in ws[n + 1].db.messages[|ws[n].db.messages|..] && m.ticketId == i
  {
    TimestampsFollowStatus(ws, steps, n);
    if steps[n].Finish? {
      var p := ws[n].pending[steps[n].call];
      if Commits(ws[n].db, p.id, p.read) && p.id == i && ws[n].db.tickets[i].status != ws[n + 1].db.tickets[i].status {
        WrittenIsOk(ws[n].db.tickets[i], p.read, p.write);
        var ms := Messages(i, p.read, p.write);
        assert ws[n + 1].db.messages[|ws[n].db.messages|..] == ms;
        assert ms[0] in ms && ms[0].ticketId == i;
      }
    }
  }

  lemma WrittenClosed(t: Ticket, read: Ticket, w: Write)
    requires TicketOk(t) && Fits(read, w) && t.status == read.status != Closed && Written(t, read, w).status == Closed
    ensures var c := Written(t, read, w);
            && (c.closedAt.Some? <==> t.status != Resolved) && (c.resolvedAt.Some? <==> t.status != Resolved)
            && (t.status != Resolved ==> w.Update? && c.closedAt == Some(w.now))
  {
  }

  /**
   * Whenever a ticket of a run is closed, it has a closing time and a resolution time exactly if
   * it was not resolved before: moving from RESOLVED to CLOSED counts as reopening and clears both.
   */
  lemma ClosingTimeExactlyWhen(ws: seq<World>, steps: seq<Step>, n: nat, i: nat)
    requires IsRun(ws, steps) && n < |steps| && i < |ws[n].db.tickets| <= |ws[n + 1].db.tickets|
    requires ws[n].db.tickets[i].status != Closed && ws[n + 1].db.tickets[i].status == Closed
    ensures var t, c := ws[n].db.tickets[i], ws[n + 1].db.tickets[i];
            (c.closedAt.Some? <==> t.status != Resolved) && (c.resolvedAt.Some? <==> t.status != Resolved)
  {
    hide Written, TicketOk, Fits;
    TimestampsFollowStatus(ws, steps, n);
    var p := ws[n].pending[steps[n].call];
    WrittenClosed(ws[n].db.tickets[i], p.read, p.write);
  }

  // ---- The service as it runs ---------------------------------------------------------------------

  /** A run that ends in `w`. */
  ghost predicate History(ws: seq<World>, steps: seq<Step>, w: World) {
    IsRun(ws, steps) && ws[|steps|] == w
  }

  lemma HistoryGoesOn(ws: seq<World>, steps: seq<Step>, w: World, s: Step)
    requires History(ws, steps, w) && Allowed(w, s)
    ensures History(ws + [Take(w, s)], steps + [s], Take(w, s))
  {
    hide Take, Allowed;
    var ws', steps' := ws + [Take(w, s)], steps + [s];
    forall i | 0 <= i < |steps'| ensures Allowed(ws'[i], steps'[i]) && ws'[i + 1] == Take(ws'[i], steps'[i]) {
      assert i < |steps| ==> steps'[i] == steps[i] && ws'[i] == ws[i] && ws'[i + 1] == ws[i + 1];
    }
  }

  /** The tickets with the calls in flight, each between its read and its guarded write. */
  class TicketTable {
    var tickets: seq<Ticket>
    var messages: seq<Message>
    ghost var pending: map<nat, Pending>
    ghost var ws: seq<World>
    ghost var steps: seq<Step>

    constructor ()
      ensures Valid() && Snapshot() == Db([], []) && pending == map[]
    {
      tickets, messages, pending, ws, steps := [], [], map[], [World(Db([], []), map[])], [];
    }

    ghost function Now(): World
      reads this
    {
      World(Snapshot(), pending)
    }

    ghost predicate Valid()
      reads this
    {
      History(ws, steps, Now())
    }

    ghost predicate InFlight(call: nat, p: Pending)
      reads this
    {
      call in pending && pending[call] == p
    }

    /** Adds to the history the step that has just turned `before` into the current tickets. */
    ghost method Remember(before: World, s: Step)
      requires History(ws, steps, before) && Allowed(before, s) && Take(before, s).db == Snapshot()
      modifies this`pending, this`ws, this`steps
      ensures Valid() && pending == Take(before, s).pending
    {
      hide Take, Allowed, History;
      HistoryGoesOn(ws, steps, before, s);
      pending, ws, steps := Take(before, s).pending, ws + [Take(before, s)], steps + [s];
    }

    /** The insert of `create`. */
    method RaiseTicket(requester: nat, description: string) returns (id: nat)
      requires Valid()
      modifies this
      ensures Valid() && pending == old(pending) && id == |old(tickets)|
      ensures tickets == old(tickets) + [NewTicket(requester)]
      ensures messages == old(messages) + [Message(id, Requester, Trim(description))]
    {
      hide History;
      id := |tickets|;
      tickets := tickets + [Ticket(requester, Open, None, None, None, None)];
      Post(Message(id, Requester, Trim(description)));
      Remember(old(Now()), Raise(requester, description));
    }

    /** The read and the checks of a call, up to the write it decides on. */
    method ReadAndDecide(ghost call: nat, id: nat, op: Op) returns (plan: Option<Write>)
      requires Valid() && call !in pending
      modifies this`pending, this`ws, this`steps
      ensures Valid() && plan == if id < |tickets| then Decide(tickets[id], op) else None
      ensures pending == if plan.Some? then old(pending)[call := Pending(id, tickets[id], plan.value)] else old(pending)
    {
      hide History, Decide;
      if id >= |tickets| {
        return None;
      }
      plan := Decide(tickets[id], op);
      Remember(old(Now()), Begin(call, id, op));
    }

    function Snapshot(): Db
      reads this
    {
      Db(tickets, messages)
    }

    method Post(m: Message)
      modifies this`messages
      ensures messages == old(messages) + [m]
    {
      messages := messages + [m];
    }

    /** The transaction of `replyMine`. */
    method ReplyMine(ghost call: nat, id: nat, read: Ticket, body: string) returns (ok: bool)
      requires Valid() && id < |tickets| && InFlight(call, Pending(id, read, Reply(body))) && Fits(read, Reply(body))
      modifies this
      ensures Valid() && pending == old(pending) - {call}
      ensures ok == Commits(old(Snapshot()), id, read)
      ensures Snapshot() == Commit(old(Snapshot()), id, read, Reply(body))
    {
      hide History;
      var reopened := read.status == Resolved;
      if tickets[id].status != read.status {
        Remember(old(Now()), Finish(call));
        return false;
      }
      var t := tickets[id].(status := AfterRequesterReply(read.status).GetOr(read.status));
      if reopened {
        t := t.(resolvedAt := None);
      }
      tickets := tickets[id := t];
      Post(Message(id, Requester, Trim(body)));
      if reopened {
        Post(Message(id, System, "Ticket reopened by the requester."));
      }
      Remember(old(Now()), Finish(call));
      return true;
    }

    /** The transaction of `updateAdmin`. */
    method UpdateAdmin(ghost call: nat, id: nat, read: Ticket, to: Status, note: Option<string>, assignee: Option<nat>, actor: nat,
          now: Time)
        returns (ok: bool)
      requires Valid() && id < |tickets|
      requires InFlight(call, Pending(id, read, Update(to, note, assignee, actor, now)))
      requires Fits(read, Update(to, note, assignee, actor, now))
      modifies this
      ensures Valid() && pending == old(pending) - {call}
      ensures ok == Commits(old(Snapshot()), id, read)
      ensures Snapshot() == Commit(old(Snapshot()), id, read, Update(to, note, assignee, actor, now))
    {
      hide History, NoteOrNull, TrimmedNote, AgentMayMove;
      var statusChanged := to != read.status;
      var reopened := statusChanged && (read.status == Resolved || read.status == Closed);
      if tickets[id].status != read.status {
        Remember(old(Now()), Finish(call));
        return false;
      }
      var t := tickets[id].(status := to, assignedTo := OrElse(OrElse(assignee, read.assignedTo), Some(actor)));
      if to == Resolved {
        t := t.(resolvedAt := Some(now), resolutionNote := NoteOrNull(note));
      }
      if to == Closed {
        t := t.(closedAt := Some(now), resolvedAt := OrElse(read.resolvedAt, Some(now)));
      }
      if reopened {
        t := t.(resolvedAt := None, closedAt := None);
      }
      tickets := tickets[id := t];
      if statusChanged {
        Post(Message(id, System, if reopened then "Ticket reopened" else "Status updated"));
      }
      if NoteOrNull(note).Some? {
        Post(Message(id, Agent, TrimmedNote(note)));
      }
      Remember(old(Now()), Finish(call));
      return true;
    }

    /** The transaction of `replyAdmin`. */
    method ReplyAdmin(ghost call: nat, id: nat, read: Ticket, body: string, agent: nat) returns (ok: bool)
      requires Valid() && id < |tickets| && InFlight(call, Pending(id, read, AgentReply(body, agent)))
      requires Fits(read, AgentReply(body, agent))
      modifies this
      ensures Valid() && pending == old(pending) - {call}
      ensures ok == Commits(old(Snapshot()), id, read)
      ensures Snapshot() == Commit(old(Snapshot()), id, read, AgentReply(body, agent))
    {
      hide History;
      if tickets[id].status != read.status {
        Remember(old(Now()), Finish(call));
        return false;
      }
      var t := tickets[id].(status := AfterAgentReply(read.status).GetOr(read.status));
      if read.assignedTo.None? {
        t := t.(assignedTo := Some(agent));
      }
      tickets := tickets[id := t];
      Post(Message(id, Agent, Trim(body)));
      Remember(old(Now()), Finish(call));
      return true;
    }

    /** What the history gives: the run theorem holds of the current tickets. */
    lemma RunTheorem(i: nat)
      requires Valid() && i < |tickets|
      ensures TicketOk(tickets[i])
    {
      TimestampsFollowStatus(ws, steps, |steps|);
    }
  }
}

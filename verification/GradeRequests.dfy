/**
 * New-grade requests: admins, customers and sellers work concurrently on shared rows.
 *
 * Every status change reads the row, decides, and later writes with `where status = <status
 * read>`; the event is appended in the same transaction. The read and the guarded write are
 * separate steps here, with any number of calls in flight.
 */
module GradeRequests {
  import opened Prelude
  import opened Text

  datatype Status =
    | Submitted | UnderReview | InfoRequired | GradeIdentified | QuotationAvailable
    | ConvertedToPr | Rejected | Closed

  function Transitions(from: Status): seq<Status> {
    match from
    case Submitted => [UnderReview, InfoRequired, GradeIdentified, Rejected, Closed]
    case UnderReview => [InfoRequired, GradeIdentified, QuotationAvailable, Rejected, Closed]
    case InfoRequired => [UnderReview, Rejected, Closed]
    case GradeIdentified => [UnderReview, QuotationAvailable, ConvertedToPr, Closed]
    case QuotationAvailable => [UnderReview, ConvertedToPr, Closed]
    case ConvertedToPr => []
    case Rejected => []
    case Closed => []
  }

  predicate CanTransition(from: Status, to: Status) {
    to in Transitions(from)
  }

  predicate Terminal(s: Status) {
    s == ConvertedToPr || s == Rejected || s == Closed
  }

  predicate IsOpen(s: Status) {
    s == Submitted || s == UnderReview || s == InfoRequired || s == GradeIdentified || s == QuotationAvailable
  }

  predicate AdminDirect(s: Status) {
    s == UnderReview || s == QuotationAvailable || s == ConvertedToPr || s == Rejected || s == Closed
  }

  predicate RequiresReason(s: Status) {
    s == Rejected || s == Closed
  }

  datatype Requester = Customer(profile: nat) | Seller(profile: nat)

  datatype Role = AdminRole | CustomerRole | SellerRole

  datatype Resolution = MappedExisting | CreatedNew

  datatype Row = Row(
    requester: Requester, dedupeKey: string, idempotencyKey: Option<string>, status: Status,
    assignedAdmin: Option<nat>, resolvedGrade: Option<nat>, resolutionType: Option<Resolution>,
    adminMessage: Option<string>, response: Option<string>, closureReason: Option<string>,
    reviewedAt: Option<Time>, closedAt: Option<Time>)

  datatype Entry = Entry(
    requestId: nat, eventType: string, role: Role, fromStatus: Option<Status>, toStatus: Option<Status>,
    message: Option<string>, internal: bool)

  datatype Db = Db(rows: seq<Row>, events: seq<Entry>)

  // ---- Keys ---------------------------------------------------------------------------

  function CollapseSpaces(value: string): string {
    Trim(ReplaceRuns(value, IsSpace, ' '))
  }

  function EmptyToNull(value: Option<string>): Option<string> {
    if value.None? || CollapseSpaces(value.value) == "" then None else Some(CollapseSpaces(value.value))
  }

  function NormalName(value: string): string {
    Trim(ReplaceRuns(Lower(value), IsSpace, ' '))
  }

  function NormalizeDedupeKey(gradeName: string, manufacturer: Option<string>): string {
    NormalName(gradeName) + "|" + NormalName(manufacturer.GetOr(""))
  }

  /** The key `create` stores: the inputs are collapsed before they are normalized. */
  function StoredKey(gradeName: string, manufacturer: Option<string>): string {
    NormalizeDedupeKey(CollapseSpaces(gradeName), EmptyToNull(manufacturer))
  }

  lemma {:induction false} LowerCommutesWithRuns(s: string)
    ensures Lower(ReplaceRuns(s, IsSpace, ' ')) == ReplaceRuns(Lower(s), IsSpace, ' ')
  {
    if s != "" {
      LowerCommutesWithRuns(s[1..]);
      assert Lower(s)[1..] == Lower(s[1..]);
    }
  }

  lemma {:induction false} LowerCommutesWithTrimStart(s: string)
    ensures Lower(TrimStart(s)) == TrimStart(Lower(s))
  {
    if s != "" {
      LowerCommutesWithTrimStart(s[1..]);
      assert Lower(s)[1..] == Lower(s[1..]);
    }
  }

  lemma {:induction false} LowerCommutesWithTrimEnd(s: string)
    ensures Lower(TrimEnd(s)) == TrimEnd(Lower(s))
  {
    if s != "" {
      LowerCommutesWithTrimEnd(s[..|s| - 1]);
      assert Lower(s)[..|s| - 1] == Lower(s[..|s| - 1]);
    }
  }

  /** Collapsing first changes nothing: normalization sees through blanks and case. */
  lemma CollapseIsInvisible(value: string)
    ensures NormalName(CollapseSpaces(value)) == NormalName(value)
  {
    var a := ReplaceRuns(value, IsSpace, ' ');
    LowerCommutesWithTrimStart(a);
    LowerCommutesWithTrimEnd(TrimStart(a));
    LowerCommutesWithRuns(value);
    var b := ReplaceRuns(Lower(value), IsSpace, ' ');
    assert Lower(CollapseSpaces(value)) == Trim(b);
    ReplaceRunsShape(Lower(value), IsSpace, ' ');
    var from := TrimIsSlice(b);
    ReplaceRunsFixed(Trim(b), IsSpace, ' ');
    TrimFixed(Trim(b));
  }

  lemma NormalNameBarFree(value: string)
    requires '|' !in value
    ensures '|' !in NormalName(value)
  {
    ReplaceRunsShape(Lower(value), IsSpace, ' ');
    var from := TrimIsSlice(ReplaceRuns(Lower(value), IsSpace, ' '));
  }

  /** One name and maker spell the other's key with the bar further right. */
  ghost predicate BarShifts(a: string, s: string, b: string, t: string) {
    exists w: string :: b == a + "|" + w && s == w + "|" + t
  }

  lemma ShiftedBar(a: string, s: string, b: string, t: string)
    requires a + "|" + s == b + "|" + t && |a| < |b|
    ensures BarShifts(a, s, b, t)
  {
    var k, w := a + "|" + s, b[|a| + 1..];
    assert k[..|b|] == b && k[|b| + 1..] == t && k[|b|] == '|';
    assert k[|a| + 1..] == s;
    assert b[|a|] == k[|a|] == '|';
    assert b == a + "|" + w;
    assert s == w + "|" + t;
  }

  lemma SameBar(a: string, s: string, b: string, t: string)
    requires a + "|" + s == b + "|" + t && |a| == |b|
    ensures a == b && s == t
  {
    var k, l := a + "|" + s, b + "|" + t;
    assert a == k[..|a|] && b == l[..|b|] && s == k[|a| + 1..] && t == l[|b| + 1..];
  }

  lemma StoredKeyIs(name: string, maker: Option<string>)
    ensures StoredKey(name, maker) == NormalName(name) + "|" + NormalName(maker.GetOr(""))
  {
    CollapseIsInvisible(name);
    CollapseIsInvisible(maker.GetOr(""));
  }

  /**
   * Requests share a stored key exactly when name and manufacturer agree up to blanks and case,
   * or when a bar inside one name makes up for the bar between the other name and its maker.
   */
  lemma KeysAgreeExactlyWhen(name: string, maker: Option<string>, name': string, maker': Option<string>)
    ensures var a, s, b, t := NormalName(name), NormalName(maker.GetOr("")), NormalName(name'), NormalName(maker'.GetOr(""));
            StoredKey(name, maker) == StoredKey(name', maker') <==>
              (a == b && s == t) || BarShifts(a, s, b, t) || BarShifts(b, t, a, s)
  {
    hide StoredKey, NormalName, BarShifts;
    StoredKeyIs(name, maker);
    StoredKeyIs(name', maker');
    var a, s, b, t := NormalName(name), NormalName(maker.GetOr("")), NormalName(name'), NormalName(maker'.GetOr(""));
    if a + "|" + s == b + "|" + t {
      if |a| < |b| {
        ShiftedBar(a, s, b, t);
      } else if |b| < |a| {
        ShiftedBar(b, t, a, s);
      } else {
        SameBar(a, s, b, t);
      }
    }
    BarShiftJoins(a, s, b, t);
    BarShiftJoins(b, t, a, s);
  }

  lemma BarShiftJoins(a: string, s: string, b: string, t: string)
    ensures BarShifts(a, s, b, t) ==> a + "|" + s == b + "|" + t
  {
    if w: string :| b == a + "|" + w && s == w + "|" + t {
      assert a + "|" + (w + "|" + t) == (a + "|" + w) + "|" + t;
    }
  }

  /** Without bars in the names, only requests for the same material share a key. */
  lemma KeyMeansSameMaterial(name: string, maker: Option<string>, name': string, maker': Option<string>)
    requires '|' !in name && '|' !in name'
    ensures StoredKey(name, maker) == StoredKey(name', maker')
       <==> NormalName(name) == NormalName(name') && NormalName(maker.GetOr("")) == NormalName(maker'.GetOr(""))
  {
    hide StoredKey, NormalName;
    KeysAgreeExactlyWhen(name, maker, name', maker');
    NormalNameBarFree(name);
    NormalNameBarFree(name');
    ShiftNeedsBar(NormalName(name), NormalName(maker.GetOr("")), NormalName(name'), NormalName(maker'.GetOr("")));
    ShiftNeedsBar(NormalName(name'), NormalName(maker'.GetOr("")), NormalName(name), NormalName(maker.GetOr("")));
  }

  lemma ShiftNeedsBar(a: string, s: string, b: string, t: string)
    requires '|' !in b
    ensures !BarShifts(a, s, b, t)
  {
    forall w: string ensures b != a + "|" + w {
      assert (a + "|" + w)[|a|] == '|';
    }
  }

  // ---- Reading and deciding ------------------------------------------------------------

  predicate NonBlank(s: string) {
    Trim(s) != ""
  }

  /** `message?.trim() || null` */
  function TrimmedMessage(message: Option<string>): Option<string> {
    if message.Some? && NonBlank(message.value) then Some(Trim(message.value)) else None
  }

  datatype Op =
    | ChangeStatus(to: Status, message: Option<string>)
    | RequestInfo(info: string)
    | MapGrade(gradeId: nat, known: bool, code: string, mapMessage: Option<string>, note: Option<string>)
    | CreateGrade(newGradeId: nat, newCode: string, createMessage: Option<string>)
    | Assign(target: nat, permitted: bool, toSelf: bool)
    | Respond(responder: Requester, answer: string)
    | Cancel(owner: Requester, reason: Option<string>)

  /** The write a call has decided on after reading the row. */
  datatype Write =
    | Transition(to: Status, message: Option<string>, eventType: string)
    | Resolve(gradeId: nat, kind: Resolution, resolveMessage: string, internalNote: Option<string>)
    | Answer(answer: string)
    | Withdraw(reason: string)
    | SetAssignee(target: nat, toSelf: bool)

  datatype Refusal =
    | UseDedicatedAction | ReasonRequired | GradeNotResolved | NoChange | InvalidTransition
    | InvalidStateForResolution | GradeNotFound | GradeAlreadyResolved | NotPermitted | RequestClosed
    | NotFound | ResponseNotRequested | NotCancellable

  datatype Plan = Refused(why: Refusal) | Planned(write: Write)

  const CREATED_MESSAGE: string :=
    "We identified your requirement. The grade will be available in the catalogue after verification."

  function PlanTransition(row: Row, to: Status, message: Option<string>, eventType: string): Plan {
    if row.status == to then Refused(NoChange)
    else if !CanTransition(row.status, to) then Refused(InvalidTransition)
    else Planned(Transition(to, TrimmedMessage(message), eventType))
  }

  predicate Resolvable(s: Status) {
    s == Submitted || s == UnderReview || s == GradeIdentified
  }

  function OrDefault(message: Option<string>, default: string): string {
    TrimmedMessage(message).GetOr(default)
  }

  function Decide(row: Row, op: Op): Plan {
    match op
    case ChangeStatus(to, message) =>
      if !AdminDirect(to) then Refused(UseDedicatedAction)
      else if RequiresReason(to) && TrimmedMessage(message).None? then Refused(ReasonRequired)
      else if to == ConvertedToPr && row.resolvedGrade.None? then Refused(GradeNotResolved)
      else PlanTransition(row, to, message, "STATUS_CHANGED")
    case RequestInfo(info) => PlanTransition(row, InfoRequired, Some(info), "INFO_REQUESTED")
    case MapGrade(g, found, code, message, note) =>
      if !Resolvable(row.status) then Refused(InvalidStateForResolution)
      else if !found then Refused(GradeNotFound)
      else Planned(Resolve(g, MappedExisting, OrDefault(message, "We matched your request to catalogue grade " + code + "."),
                           TrimmedMessage(note)))
    case CreateGrade(g, code, message) =>
      if !Resolvable(row.status) then Refused(InvalidStateForResolution)
      else if row.resolvedGrade.Some? then Refused(GradeAlreadyResolved)
      else Planned(Resolve(g, CreatedNew, OrDefault(message, CREATED_MESSAGE),
                           TrimmedMessage(Some("Created catalogue grade " + code + " (unpublished)"))))
    case Assign(target, permitted, toSelf) =>
      if !permitted then Refused(NotPermitted)
      else if Terminal(row.status) then Refused(RequestClosed)
      else Planned(SetAssignee(target, toSelf))
    case Respond(responder, answer) =>
      if row.requester != responder then Refused(NotFound)
      else if row.status != InfoRequired then Refused(ResponseNotRequested)
      else Planned(Answer(answer))
    case Cancel(owner, reason) =>
      if row.requester != owner then Refused(NotFound)
      else if !CanTransition(row.status, Closed) then Refused(NotCancellable)
      else Planned(Withdraw(OrDefault(reason, if owner.Customer? then "Cancelled by customer" else "Cancelled by seller")))
  }

  /** What the request DTOs guarantee about a call. */
  predicate DtoValid(op: Op) {
    op.RequestInfo? ==> NonBlank(op.info)
  }

  /** Some valid call on the row plans a write that leads to the status. */
  ghost predicate CanReach(row: Row, to: Status) {
    exists op, actor, now ::
      DtoValid(op) && Decide(row, op).Planned? && Written(row, row, Decide(row, op).write, actor, now).status == to
  }

  /** An edge of the table can be taken exactly when the row has a grade, should the edge lead to CONVERTED_TO_PR. */
  lemma EdgeCanBeTakenExactlyWhen(row: Row, to: Status)
    requires CanTransition(row.status, to)
    ensures CanReach(row, to) <==> (to == ConvertedToPr ==> row.resolvedGrade.Some?)
  {
    if to == ConvertedToPr && row.resolvedGrade.None? {
      forall op, actor, now | Decide(row, op).Planned?
        ensures Written(row, row, Decide(row, op).write, actor, now).status != to
      {
        ConversionNeedsGrade(row, op, actor, now);
      }
    } else {
      assert TrimmedMessage(Some("x")) == Some("x") by { TrimFixed("x"); }
      var op := if to == GradeIdentified then MapGrade(0, true, "", None, None)
                else if to == InfoRequired then RequestInfo("x")
                else ChangeStatus(to, Some("x"));
      EdgePlanned(row, to, op);
    }
  }

  lemma ConversionNeedsGrade(row: Row, op: Op, actor: nat, now: Time)
    requires row.status != ConvertedToPr && row.resolvedGrade.None? && Decide(row, op).Planned?
    ensures Written(row, row, Decide(row, op).write, actor, now).status != ConvertedToPr
  {
    hide TrimmedMessage, OrDefault;
  }

  lemma EdgePlanned(row: Row, to: Status, op: Op)
    requires CanTransition(row.status, to) && (to == ConvertedToPr ==> row.resolvedGrade.Some?)
    requires TrimmedMessage(Some("x")) == Some("x") && NonBlank("x")
    requires op == if to == GradeIdentified then MapGrade(0, true, "", None, None)
                   else if to == InfoRequired then RequestInfo("x")
                   else ChangeStatus(to, Some("x"))
    ensures CanReach(row, to)
  {
    hide TrimmedMessage, OrDefault, NonBlank;
    assert DtoValid(op) && Decide(row, op).Planned? && Written(row, row, Decide(row, op).write, 0, 0).status == to;
  }

  // ---- Guarded writes --------------------------------------------------------------------

  function RoleOf(r: Requester): Role {
    if r.Customer? then CustomerRole else SellerRole
  }

  /** The row after the write, given the row as it is now and as the caller read it. */
  function Written(row: Row, read: Row, w: Write, actor: nat, now: Time): Row {
    match w
    case Transition(to, message, _) =>
      var r := row.(status := to,
                    adminMessage := OrElse(message, row.adminMessage),
                    assignedAdmin := OrElse(read.assignedAdmin, Some(actor)),
                    reviewedAt := OrElse(read.reviewedAt, Some(now)));
      if Terminal(to) then r.(closedAt := Some(now), closureReason := message) else r
    case Resolve(g, kind, message, _) =>
      row.(status := GradeIdentified, resolvedGrade := Some(g), resolutionType := Some(kind), adminMessage := Some(message),
           assignedAdmin := OrElse(read.assignedAdmin, Some(actor)), reviewedAt := OrElse(read.reviewedAt, Some(now)))
    case Answer(answer) => row.(status := UnderReview, response := Some(answer), adminMessage := None)
    case Withdraw(reason) => row.(status := Closed, closureReason := Some(reason), closedAt := Some(now))
    case SetAssignee(target, _) => row.(assignedAdmin := Some(target))
  }

  function Entries(id: nat, read: Row, w: Write): seq<Entry> {
    match w
    case Transition(to, message, eventType) => [Entry(id, eventType, AdminRole, Some(read.status), Some(to), message, false)]
    case Resolve(g, kind, message, note) =>
      [Entry(id, if kind.MappedExisting? then "MAPPED_EXISTING" else "CREATED_NEW", AdminRole,
             Some(read.status), Some(GradeIdentified), Some(message), false)]
      + if note.Some? then [Entry(id, "INTERNAL_NOTE", AdminRole, None, None, note, true)] else []
    case Answer(answer) =>
      [Entry(id, if read.requester.Customer? then "CUSTOMER_RESPONDED" else "SELLER_RESPONDED", RoleOf(read.requester),
             Some(InfoRequired), Some(UnderReview), Some(answer), false)]
    case Withdraw(reason) =>
      [Entry(id, if read.requester.Customer? then "CANCELLED_BY_CUSTOMER" else "CANCELLED_BY_SELLER", RoleOf(read.requester),
             Some(read.status), Some(Closed), Some(reason), false)]
    case SetAssignee(_, toSelf) =>
      [Entry(id, "ASSIGNED", AdminRole, None, None, Some(if toSelf then "Self-assigned" else "Assigned"), true)]
  }

  /** The write takes effect: assignment always, everything else only if the status is still the one read. */
  predicate Commits(db: Db, id: nat, read: Row, w: Write) {
    id < |db.rows| && (w.SetAssignee? || db.rows[id].status == read.status)
  }

  function Commit(db: Db, id: nat, read: Row, w: Write, actor: nat, now: Time): Db {
    if Commits(db, id, read, w)
    then Db(db.rows[id := Written(db.rows[id], read, w, actor, now)], db.events + Entries(id, read, w))
    else db
  }

  // ---- Creating ------------------------------------------------------------------------------

  datatype Draft = Draft(
    requester: Requester, idempotencyKey: Option<string>, valid: bool, gradeName: string,
    manufacturer: Option<string>, inCatalogue: bool)

  predicate Retries(row: Row, d: Draft) {
    row.requester == d.requester && d.idempotencyKey.Some? && row.idempotencyKey == d.idempotencyKey
  }

  predicate OpenDuplicate(row: Row, requester: Requester, key: string) {
    row.requester == requester && row.dedupeKey == key && IsOpen(row.status)
  }

  predicate Inserts(db: Db, d: Draft) {
    && (forall i :: 0 <= i < |db.rows| ==> !Retries(db.rows[i], d))
    && d.valid
    && (forall i :: 0 <= i < |db.rows| ==> !OpenDuplicate(db.rows[i], d.requester, StoredKey(d.gradeName, d.manufacturer)))
    && !d.inCatalogue
  }

  function NewRow(d: Draft): Row {
    Row(d.requester, StoredKey(d.gradeName, d.manufacturer), d.idempotencyKey, Submitted,
        None, None, None, None, None, None, None, None)
  }

  function Create(db: Db, d: Draft): Db {
    if Inserts(db, d)
    then Db(db.rows + [NewRow(d)],
            db.events + [Entry(|db.rows|, "SUBMITTED", RoleOf(d.requester), None, Some(Submitted), Some("Request submitted"), false)])
    else db
  }

  // ---- The interleaved system --------------------------------------------------------------------

  datatype Pending = Pending(id: nat, read: Row, write: Write, actor: nat)

  datatype World = World(db: Db, pending: map<nat, Pending>)

  /** `call` identifies a call in flight. */
  datatype Step =
    | Submit(draft: Draft)
    | Begin(call: nat, id: nat, op: Op, actor: nat)
    | Finish(call: nat, now: Time)
    | Annotate(entry: Entry)

  predicate Allowed(w: World, s: Step) {
    match s
    case Submit(_) => true
    case Begin(call, id, op, _) => call !in w.pending && id < |w.db.rows| && DtoValid(op)
    case Finish(call, _) => call in w.pending
    case Annotate(e) => e.toStatus.None? && e.requestId < |w.db.rows|
  }

  function Take(w: World, s: Step): World
    requires Allowed(w, s)
  {
    match s
    case Submit(d) => w.(db := Create(w.db, d))
    case Begin(call, id, op, actor) =>
      var plan := Decide(w.db.rows[id], op);
      if plan.Planned? then w.(pending := w.pending[call := Pending(id, w.db.rows[id], plan.write, actor)]) else w
    case Finish(call, now) =>
      var p := w.pending[call];
      World(Commit(w.db, p.id, p.read, p.write, p.actor, now), w.pending - {call})
    case Annotate(e) => w.(db := w.db.(events := w.db.events + [e]))
  }

  ghost predicate IsRun(ws: seq<World>, steps: seq<Step>) {
    && |ws| == |steps| + 1 && ws[0] == World(Db([], []), map[])
    && forall i :: 0 <= i < |steps| ==> Allowed(ws[i], steps[i]) && ws[i + 1] == Take(ws[i], steps[i])
  }

  // ---- Row invariants -----------------------------------------------------------------------------

  predicate RowOk(r: Row) {
    && (r.closedAt.Some? <==> Terminal(r.status))
    && (r.status == GradeIdentified || r.status == ConvertedToPr ==> r.resolvedGrade.Some?)
    && (r.status == InfoRequired ==> r.adminMessage.Some?)
    && (r.status == Rejected || r.status == Closed ==> r.closureReason.Some?)
  }

  /** What a planned write may rely on: it fits the row read. */
  predicate WriteFits(read: Row, w: Write) {
    match w
    case Transition(to, message, _) =>
      && CanTransition(read.status, to) && to != GradeIdentified
      && (RequiresReason(to) || to == InfoRequired ==> message.Some?)
      && (to == ConvertedToPr ==> read.resolvedGrade.Some?)
    case Resolve(_, _, _, _) => Resolvable(read.status)
    case Answer(_) => read.status == InfoRequired
    case Withdraw(_) => CanTransition(read.status, Closed)
    case SetAssignee(_, _) => true
  }

  lemma PlansFit(row: Row, op: Op)
    requires DtoValid(op) && Decide(row, op).Planned?
    ensures WriteFits(row, Decide(row, op).write)
  {
  }

  ghost predicate PendingOk(db: Db, p: Pending) {
    && p.id < |db.rows| && WriteFits(p.read, p.write)
    && p.read.requester == db.rows[p.id].requester
    && (p.read.resolvedGrade.Some? ==> db.rows[p.id].resolvedGrade.Some?)
  }

  /** How a row may differ from the same row at any later time. */
  ghost predicate RowEvolves(a: Row, b: Row) {
    && a.requester == b.requester && a.dedupeKey == b.dedupeKey && a.idempotencyKey == b.idempotencyKey
    && (a.resolvedGrade.Some? ==> b.resolvedGrade.Some?)
    && (Terminal(a.status) ==>
          b.status == a.status && b.closureReason == a.closureReason && b.resolvedGrade == a.resolvedGrade && b.closedAt == a.closedAt)
  }

  lemma WrittenIsOk(row: Row, read: Row, w: Write, actor: nat, now: Time)
    requires RowOk(row) && WriteFits(read, w) && (w.SetAssignee? || row.status == read.status)
    requires read.resolvedGrade.Some? ==> row.resolvedGrade.Some?
    ensures RowOk(Written(row, read, w, actor, now))
    ensures RowEvolves(row, Written(row, read, w, actor, now))
    ensures var r := Written(row, read, w, actor, now);
            r.status == row.status || CanTransition(row.status, r.status)
  {
  }

  ghost predicate RowsInv(w: World) {
    && (forall i :: 0 <= i < |w.db.rows| ==> RowOk(w.db.rows[i]))
    && (forall c :: c in w.pending ==> PendingOk(w.db, w.pending[c]))
  }

  lemma CommitKeepsRows(db: Db, p: Pending, now: Time)
    requires PendingOk(db, p) && forall i :: 0 <= i < |db.rows| ==> RowOk(db.rows[i])
    ensures var db' := Commit(db, p.id, p.read, p.write, p.actor, now);
            && |db'.rows| == |db.rows|
            && (forall i :: 0 <= i < |db.rows| ==> RowOk(db'.rows[i]) && RowEvolves(db.rows[i], db'.rows[i]))
  {
    hide Written, WriteFits;
    if Commits(db, p.id, p.read, p.write) {
      WrittenIsOk(db.rows[p.id], p.read, p.write, p.actor, now);
    }
  }

  lemma CreateKeepsRows(db: Db, d: Draft)
    requires forall i :: 0 <= i < |db.rows| ==> RowOk(db.rows[i])
    ensures db.rows <= Create(db, d).rows && forall i :: 0 <= i < |Create(db, d).rows| ==> RowOk(Create(db, d).rows[i])
  {
  }

  lemma StepKeepsRows(w: World, s: Step)
    requires RowsInv(w) && Allowed(w, s)
    ensures RowsInv(Take(w, s))
    ensures |w.db.rows| <= |Take(w, s).db.rows|
    ensures forall i :: 0 <= i < |w.db.rows| ==> RowEvolves(w.db.rows[i], Take(w, s).db.rows[i])
  {
    hide Written, Decide, WriteFits, Commit, Create, RowOk;
    match s
    case Submit(d) => CreateKeepsRows(w.db, d);
    case Begin(call, id, op, actor) =>
      if Decide(w.db.rows[id], op).Planned? {
        PlansFit(w.db.rows[id], op);
      }
    case Finish(call, now) =>
      CommitKeepsRows(w.db, w.pending[call], now);
    case Annotate(e) =>
  }

  lemma {:induction false} RowsAlwaysOk(ws: seq<World>, steps: seq<Step>, n: nat)
    requires IsRun(ws, steps) && n <= |steps|
    ensures RowsInv(ws[n])
  {
    if n > 0 {
      RowsAlwaysOk(ws, steps, n - 1);
      StepKeepsRows(ws[n - 1], steps[n - 1]);
    }
  }

  /**
   * Under every interleaving: closing time exactly in terminal statuses, a grade whenever one
   * is claimed, a message whenever information is asked for, a reason whenever rejected or closed.
   */
  lemma RowInvariants(ws: seq<World>, steps: seq<Step>, n: nat, i: nat)
    requires IsRun(ws, steps) && n <= |steps| && i < |ws[n].db.rows|
    ensures RowOk(ws[n].db.rows[i])
  {
    RowsAlwaysOk(ws, steps, n);
  }

  /** A terminal row keeps status, reason, grade and closing time for the rest of the run. */
  lemma {:induction false} TerminalRowsAreFinal(ws: seq<World>, steps: seq<Step>, n: nat, m: nat, i: nat)
    requires IsRun(ws, steps) && n <= m <= |steps| && i < |ws[n].db.rows| && Terminal(ws[n].db.rows[i].status)
    ensures i < |ws[m].db.rows| && RowEvolves(ws[n].db.rows[i], ws[m].db.rows[i])
    decreases m - n
  {
    if n < m {
      RowsAlwaysOk(ws, steps, n);
      StepKeepsRows(ws[n], steps[n]);
      TerminalRowsAreFinal(ws, steps, n + 1, m, i);
    }
  }

  // ---- One open request per key ---------------------------------------------------------------------

  ghost predicate OneOpenPerKey(rows: seq<Row>) {
    forall i, j :: 0 <= i < j < |rows| && rows[i].requester == rows[j].requester && rows[i].dedupeKey == rows[j].dedupeKey ==>
      !(IsOpen(rows[i].status) && IsOpen(rows[j].status))
  }

  /** With check and insert in one step, a requester never has two open requests for one key. */
  lemma {:induction false} AtMostOneOpenRequest(ws: seq<World>, steps: seq<Step>, n: nat)
    requires IsRun(ws, steps) && n <= |steps|
    ensures OneOpenPerKey(ws[n].db.rows)
  {
    if n > 0 {
      AtMostOneOpenRequest(ws, steps, n - 1);
      RowsAlwaysOk(ws, steps, n - 1);
      StepKeepsRows(ws[n - 1], steps[n - 1]);
      OpenStaysUnique(ws[n - 1], steps[n - 1]);
    }
  }

  lemma OpenStaysUnique(w: World, s: Step)
    requires OneOpenPerKey(w.db.rows) && Allowed(w, s)
    requires forall i :: 0 <= i < |w.db.rows| ==> RowEvolves(w.db.rows[i], Take(w, s).db.rows[i])
    ensures OneOpenPerKey(Take(w, s).db.rows)
  {
    var rows' := Take(w, s).db.rows;
    forall i, j | 0 <= i < j < |rows'| && rows'[i].requester == rows'[j].requester && rows'[i].dedupeKey == rows'[j].dedupeKey
      ensures !(IsOpen(rows'[i].status) && IsOpen(rows'[j].status))
    {
      assert RowEvolves(w.db.rows[i], rows'[i]);
      if j < |w.db.rows| {
        assert RowEvolves(w.db.rows[j], rows'[j]);
      }
    }
  }

  /** No requester has two rows for one idempotency key. */
  ghost predicate OneRowPerRetryKey(rows: seq<Row>) {
    forall i, j :: 0 <= i < j < |rows| && rows[i].requester == rows[j].requester && rows[i].idempotencyKey.Some? ==>
      rows[i].idempotencyKey != rows[j].idempotencyKey
  }

  lemma {:induction false} RetryKeyRemains(ws: seq<World>, steps: seq<Step>, n: nat, m: nat, i: nat)
    requires IsRun(ws, steps) && n <= m <= |steps| && i < |ws[n].db.rows|
    ensures i < |ws[m].db.rows| && RowEvolves(ws[n].db.rows[i], ws[m].db.rows[i])
    decreases m - n
  {
    hide Take, Allowed, RowsInv;
    if n < m {
      RowsAlwaysOk(ws, steps, n);
      StepKeepsRows(ws[n], steps[n]);
      RetryKeyRemains(ws, steps, n + 1, m, i);
    }
  }

  lemma RetryKeysKept(w: World, s: Step)
    requires OneRowPerRetryKey(w.db.rows) && Allowed(w, s)
    requires forall i :: 0 <= i < |w.db.rows| ==> i < |Take(w, s).db.rows| && RowEvolves(w.db.rows[i], Take(w, s).db.rows[i])
    ensures OneRowPerRetryKey(Take(w, s).db.rows)
  {
    hide Written, Entries, Decide;
    var rows, rows' := w.db.rows, Take(w, s).db.rows;
    forall i, j | 0 <= i < j < |rows'| && rows'[i].requester == rows'[j].requester && rows'[i].idempotencyKey.Some?
      ensures rows'[i].idempotencyKey != rows'[j].idempotencyKey
    {
      assert RowEvolves(rows[i], rows'[i]);
      if j < |rows| {
        assert RowEvolves(rows[j], rows'[j]);
      } else {
        assert s.Submit? && !Retries(rows[i], s.draft);
      }
    }
  }

  lemma {:induction false} RetryKeysStayApart(ws: seq<World>, steps: seq<Step>, n: nat)
    requires IsRun(ws, steps) && n <= |steps|
    ensures OneRowPerRetryKey(ws[n].db.rows)
  {
    hide Take, Allowed, RowsInv, OneRowPerRetryKey, RowEvolves;
    if n == 0 {
      assert OneRowPerRetryKey([]) by { NoRowsNoKeys(); }
    } else {
      RetryKeysStayApart(ws, steps, n - 1);
      RowsAlwaysOk(ws, steps, n - 1);
      StepKeepsRows(ws[n - 1], steps[n - 1]);
      RetryKeysKept(ws[n - 1], steps[n - 1]);
    }
  }

  lemma NoRowsNoKeys()
    ensures OneRowPerRetryKey([])
  {
  }

  /**
   * Once a create with an idempotency key has inserted its request or found it, every later
   * create of the requester with that key, whatever else it says, finds the same row and
   * changes nothing. So over any run a key stands for one row.
   */
  lemma RetryInsertsNothing(ws: seq<World>, steps: seq<Step>, n: nat, m: nat, d: Draft, again: Draft)
    requires IsRun(ws, steps) && n < m <= |steps| && steps[n] == Submit(d) && d.idempotencyKey.Some?
    requires Inserts(ws[n].db, d) || exists i :: 0 <= i < |ws[n].db.rows| && Retries(ws[n].db.rows[i], d)
    requires again.requester == d.requester && again.idempotencyKey == d.idempotencyKey
    ensures Create(ws[m].db, again) == ws[m].db && OneRowPerRetryKey(ws[m].db.rows)
    ensures |ws[n + 1].db.rows| <= |ws[m].db.rows|
    ensures exists i :: 0 <= i < |ws[n + 1].db.rows| && Retries(ws[n + 1].db.rows[i], d) && Retries(ws[m].db.rows[i], again)
  {
    var rows := ws[n + 1].db.rows;
    assert rows == Create(ws[n].db, d).rows;
    var i: nat;
    if Inserts(ws[n].db, d) {
      i := |rows| - 1;
    } else {
      i :| i < |ws[n].db.rows| && Retries(ws[n].db.rows[i], d);
    }
    RetryKeyRemains(ws, steps, n + 1, m, i);
    RetryKeyRemains(ws, steps, n + 1, m, |rows| - 1);
    RetryKeysStayApart(ws, steps, m);
  }

  // ---- The event chain ------------------------------------------------------------------------------

  /** The status events of a request, in order. */
  function Chain(events: seq<Entry>, id: nat): seq<Entry> {
    if events == [] then []
    else
      var last := events[|events| - 1];
      Chain(events[..|events| - 1], id) + if last.requestId == id && last.toStatus.Some? then [last] else []
  }

  lemma {:induction false} ChainConcat(events: seq<Entry>, more: seq<Entry>, id: nat)
    ensures Chain(events + more, id) == Chain(events, id) + Chain(more, id)
  {
    if more == [] {
      assert events + more == events;
    } else {
      ChainConcat(events, more[..|more| - 1], id);
      assert (events + more)[..|events + more| - 1] == events + more[..|more| - 1];
    }
  }

  predicate Edge(from: Status, to: Status) {
    CanTransition(from, to) || (from == GradeIdentified && to == GradeIdentified)
  }

  /** One connected chain from submission to `status`, every later link an edge of the table or the self-loop. */
  ghost predicate Connected(chain: seq<Entry>, status: Status) {
    && chain != []
    && (forall i :: 0 <= i < |chain| ==> chain[i].toStatus.Some?)
    && chain[0].fromStatus == None && chain[0].toStatus == Some(Submitted)
    && (forall i :: 1 <= i < |chain| ==>
          chain[i].fromStatus == chain[i - 1].toStatus && Edge(chain[i].fromStatus.value, chain[i].toStatus.value))
    && chain[|chain| - 1].toStatus == Some(status)
  }

  lemma SingleChain(e: Entry, id: nat)
    ensures Chain([e], id) == if e.requestId == id && e.toStatus.Some? then [e] else []
  {
    assert [e][..0] == [];
  }

  lemma ShortChain(es: seq<Entry>, id: nat)
    requires |es| == 1 || (|es| == 2 && es[1].toStatus.None?)
    ensures Chain(es, id) == if es[0].requestId == id && es[0].toStatus.Some? then [es[0]] else []
  {
    SingleChain(es[0], id);
    if |es| == 1 {
      assert es == [es[0]];
    } else {
      assert es == [es[0]] + [es[1]];
      ChainConcat([es[0]], [es[1]], id);
      SingleChain(es[1], id);
    }
  }

  /** A write appends at most one status event, its first entry. */
  lemma EntriesChain(id: nat, read: Row, w: Write, other: nat)
    ensures Chain(Entries(id, read, w), other) == if other == id && !w.SetAssignee? then [Entries(id, read, w)[0]] else []
  {
    ShortChain(Entries(id, read, w), other);
  }

  lemma LinkExtends(chain: seq<Entry>, e: Entry, from: Status, to: Status)
    requires Connected(chain, from) && e.fromStatus == Some(from) && e.toStatus == Some(to) && Edge(from, to)
    ensures Connected(chain + [e], to)
  {
    assert (chain + [e])[0] == chain[0];
  }

  lemma FirstEntryIsLink(row: Row, id: nat, read: Row, w: Write, actor: nat, now: Time)
    requires WriteFits(read, w) && !w.SetAssignee? && row.status == read.status
    ensures var e, to := Entries(id, read, w)[0], Written(row, read, w, actor, now).status;
            e.fromStatus == Some(row.status) && e.toStatus == Some(to) && Edge(row.status, to)
  {
  }

  lemma CommitExtendsChain(db: Db, id: nat, read: Row, w: Write, actor: nat, now: Time, other: nat)
    requires Commits(db, id, read, w) && WriteFits(read, w) && other < |db.rows|
    requires Connected(Chain(db.events, other), db.rows[other].status)
    ensures Connected(Chain(db.events + Entries(id, read, w), other),
                      (if other == id then Written(db.rows[id], read, w, actor, now) else db.rows[other]).status)
  {
    var chain := Chain(db.events, other);
    ChainConcat(db.events, Entries(id, read, w), other);
    EntriesChain(id, read, w, other);
    if other == id && !w.SetAssignee? {
      FirstEntryIsLink(db.rows[id], id, read, w, actor, now);
      LinkExtends(chain, Entries(id, read, w)[0], db.rows[id].status, Written(db.rows[id], read, w, actor, now).status);
    } else {
      assert chain + [] == chain;
    }
  }

  ghost predicate ChainsInv(db: Db) {
    && (forall e :: e in db.events ==> e.requestId < |db.rows|)
    && forall id :: 0 <= id < |db.rows| ==> Connected(Chain(db.events, id), db.rows[id].status)
  }

  lemma {:induction false} NoChainBeforeCreation(events: seq<Entry>, id: nat)
    requires forall e :: e in events ==> e.requestId != id
    ensures Chain(events, id) == []
  {
    if events != [] {
      NoChainBeforeCreation(events[..|events| - 1], id);
    }
  }

  lemma AppendedChain(events: seq<Entry>, e: Entry, id: nat)
    ensures Chain(events + [e], id) == Chain(events, id) + if e.requestId == id && e.toStatus.Some? then [e] else []
  {
    ChainConcat(events, [e], id);
    SingleChain(e, id);
  }

  lemma CreateKeepsChains(db: Db, d: Draft)
    requires ChainsInv(db)
    ensures ChainsInv(Create(db, d))
  {
    hide Inserts, StoredKey;
    if Inserts(db, d) {
      var db' := Create(db, d);
      forall id | 0 <= id < |db'.rows| ensures Connected(Chain(db'.events, id), db'.rows[id].status) {
        AppendedChain(db.events, db'.events[|db.events|], id);
        if id == |db.rows| {
          NoChainBeforeCreation(db.events, id);
        } else {
          assert Chain(db.events, id) + [] == Chain(db.events, id);
        }
      }
    }
  }

  lemma AnnotateKeepsChains(db: Db, e: Entry)
    requires ChainsInv(db) && e.toStatus.None? && e.requestId < |db.rows|
    ensures ChainsInv(db.(events := db.events + [e]))
  {
    forall id | 0 <= id < |db.rows| ensures Connected(Chain(db.events + [e], id), db.rows[id].status) {
      AppendedChain(db.events, e, id);
      assert Chain(db.events, id) + [] == Chain(db.events, id);
    }
  }

  lemma EntriesAreOwn(id: nat, read: Row, w: Write)
    ensures forall e :: e in Entries(id, read, w) ==> e.requestId == id
  {
  }

  lemma CommitKeepsChains(db: Db, p: Pending, now: Time)
    requires ChainsInv(db) && PendingOk(db, p)
    ensures ChainsInv(Commit(db, p.id, p.read, p.write, p.actor, now))
  {
    hide Written, Entries, Connected, Chain, WriteFits;
    if Commits(db, p.id, p.read, p.write) {
      var db' := Commit(db, p.id, p.read, p.write, p.actor, now);
      EntriesAreOwn(p.id, p.read, p.write);
      forall id | 0 <= id < |db'.rows| ensures Connected(Chain(db'.events, id), db'.rows[id].status) {
        CommitExtendsChain(db, p.id, p.read, p.write, p.actor, now, id);
      }
    }
  }

  lemma StepKeepsChains(w: World, s: Step)
    requires RowsInv(w) && ChainsInv(w.db) && Allowed(w, s)
    ensures ChainsInv(Take(w, s).db)
  {
    match s
    case Submit(d) => CreateKeepsChains(w.db, d);
    case Begin(call, rid, op, actor) =>
    case Finish(call, now) => CommitKeepsChains(w.db, w.pending[call], now);
    case Annotate(e) => AnnotateKeepsChains(w.db, e);
  }

  /**
   * Under every interleaving the status events of a request form one connected chain from
   * SUBMITTED to its current status, each link an edge of the transition table or the
   * GRADE_IDENTIFIED self-loop.
   */
  lemma {:induction false} EventsTellTheHistory(ws: seq<World>, steps: seq<Step>, n: nat)
    requires IsRun(ws, steps) && n <= |steps|
    ensures ChainsInv(ws[n].db)
  {
    if n > 0 {
      EventsTellTheHistory(ws, steps, n - 1);
      RowsAlwaysOk(ws, steps, n - 1);
      StepKeepsChains(ws[n - 1], steps[n - 1]);
    }
  }

  // ---- The services as they run ------------------------------------------------------------------------

  datatype CreateResult = Existing(id: nat) | Invalid | DuplicateOpen | InCatalogue | Created(id: nat)

  /** A run that ends in `w`. */
  ghost predicate History(ws: seq<World>, steps: seq<Step>, w: World) {
    IsRun(ws, steps) && ws[|steps|] == w
  }

  lemma HistoryGoesOn(ws: seq<World>, steps: seq<Step>, w: World, s: Step)
    requires History(ws, steps, w) && Allowed(w, s)
    ensures History(ws + [Take(w, s)], steps + [s], Take(w, s))
  {
    hide Take, Allowed;
    var ws', steps' := ws + [Take(w, s)], steps + [s];
    forall i | 0 <= i < |steps'| ensures Allowed(ws'[i], steps'[i]) && ws'[i + 1] == Take(ws'[i], steps'[i]) {
      assert i < |steps| ==> steps'[i] == steps[i] && ws'[i] == ws[i] && ws'[i + 1] == ws[i + 1];
    }
  }

  /**
   * The rows and events with the calls in flight. A call reads and decides in one step and writes
   * in a later one; `call` names it in between, and the history of all steps is a run.
   */
  class RequestTable {
    var rows: seq<Row>
    var events: seq<Entry>
    ghost var pending: map<nat, Pending>
    ghost var ws: seq<World>
    ghost var steps: seq<Step>

    constructor ()
      ensures Valid() && Snapshot() == Db([], []) && pending == map[]
    {
      rows, events, pending, ws, steps := [], [], map[], [World(Db([], []), map[])], [];
    }

    ghost function Now(): World
      reads this
    {
      World(Snapshot(), pending)
    }

    ghost predicate Valid()
      reads this
    {
      History(ws, steps, Now())
    }

    ghost predicate InFlight(call: nat, p: Pending)
      reads this
    {
      call in pending && pending[call] == p
    }

    /** Adds to the history the step that has just turned `before` into the current rows. */
    ghost method Remember(before: World, s: Step)
      requires History(ws, steps, before) && Allowed(before, s) && Take(before, s).db == Snapshot()
      modifies this`pending, this`ws, this`steps
      ensures Valid() && pending == Take(before, s).pending
    {
      hide Take, Allowed, History;
      HistoryGoesOn(ws, steps, before, s);
      pending, ws, steps := Take(before, s).pending, ws + [Take(before, s)], steps + [s];
    }

    /** The read and the checks of a call, up to the write it decides on. */
    method ReadAndDecide(ghost call: nat, id: nat, op: Op, actor: nat) returns (plan: Plan)
      requires Valid() && call !in pending && DtoValid(op)
      modifies this`pending, this`ws, this`steps
      ensures Valid() && plan == if id < |rows| then Decide(rows[id], op) else Refused(NotFound)
      ensures pending == if plan.Planned? then old(pending)[call := Pending(id, rows[id], plan.write, actor)] else old(pending)
    {
      hide History, Decide;
      if id >= |rows| {
        return Refused(NotFound);
      }
      plan := Decide(rows[id], op);
      Remember(old(Now()), Begin(call, id, op, actor));
    }

    /** `addNote`. */
    method AddNote(id: nat, note: string) returns (ok: bool)
      requires Valid()
      modifies this
      ensures Valid() && rows == old(rows) && pending == old(pending) && (ok <==> id < |rows|)
      ensures events == old(events) + if ok then [Entry(id, "INTERNAL_NOTE", AdminRole, None, None, Some(note), true)] else []
    {
      hide History;
      if id >= |rows| {
        return false;
      }
      Record(Entry(id, "INTERNAL_NOTE", AdminRole, None, None, Some(note), true));
      Remember(old(Now()), Annotate(Entry(id, "INTERNAL_NOTE", AdminRole, None, None, Some(note), true)));
      return true;
    }

    function Snapshot(): Db
      reads this
    {
      Db(rows, events)
    }

    /** `recordEvent`. */
    method Record(e: Entry)
      modifies this`events
      ensures events == old(events) + [e]
    {
      events := events + [e];
    }

    method SubmitRequest(d: Draft) returns (r: CreateResult)
      requires Valid()
      modifies this
      ensures Valid() && pending == old(pending)
      ensures Snapshot() == Create(old(Snapshot()), d)
      ensures r.Created? <==> Inserts(old(Snapshot()), d)
      ensures r.Created? ==> r.id == |old(rows)|
      ensures r.Existing? ==> r.id < |rows| && Retries(rows[r.id], d)
      ensures r.DuplicateOpen? ==> exists i :: 0 <= i < |rows| && OpenDuplicate(rows[i], d.requester, StoredKey(d.gradeName, d.manufacturer))
    {
      hide History;
      if i :| 0 <= i < |rows| && Retries(rows[i], d) {
        Remember(old(Now()), Submit(d));
        return Existing(i);
      }
      if !d.valid {
        Remember(old(Now()), Submit(d));
        return Invalid;
      }
      var key := StoredKey(d.gradeName, d.manufacturer);
      if exists i :: 0 <= i < |rows| && OpenDuplicate(rows[i], d.requester, key) {
        Remember(old(Now()), Submit(d));
        return DuplicateOpen;
      }
      if d.inCatalogue {
        Remember(old(Now()), Submit(d));
        return InCatalogue;
      }
      var id := |rows|;
      rows := rows + [NewRow(d)];
      Record(Entry(id, "SUBMITTED", RoleOf(d.requester), None, Some(Submitted), Some("Request submitted"), false));
      Remember(old(Now()), Submit(d));
      return Created(id);
    }

    /** The transaction of `applyTransition`; `read` is the row the caller loaded before. */
    method ApplyTransition(ghost call: nat, id: nat, read: Row, to: Status, message: Option<string>, eventType: string,
                           actor: nat, now: Time)
        returns (ok: bool)
      requires Valid() && id < |rows| && InFlight(call, Pending(id, read, Transition(to, message, eventType), actor))
      modifies this
      ensures Valid() && pending == old(pending) - {call}
      ensures ok == Commits(old(Snapshot()), id, read, Transition(to, message, eventType))
      ensures Snapshot() == Commit(old(Snapshot()), id, read, Transition(to, message, eventType), actor, now)
    {
      hide History, Trim;
      if rows[id].status != read.status {
        Remember(old(Now()), Finish(call, now));
        return false;
      }
      var row := rows[id].(status := to);
      if message.Some? {
        row := row.(adminMessage := message);
      }
      if Terminal(to) {
        row := row.(closedAt := Some(now), closureReason := message);
      }
      row := row.(assignedAdmin := OrElse(read.assignedAdmin, Some(actor)), reviewedAt := OrElse(read.reviewedAt, Some(now)));
      rows := rows[id := row];
      Record(Entry(id, eventType, AdminRole, Some(read.status), Some(to), message, false));
      Remember(old(Now()), Finish(call, now));
      return true;
    }

    /** The transaction of `resolve`. */
    method ResolveGrade(ghost call: nat, id: nat, read: Row, gradeId: nat, kind: Resolution, message: string, note: Option<string>,
                        actor: nat, now: Time)
        returns (ok: bool)
      requires Valid() && id < |rows| && InFlight(call, Pending(id, read, Resolve(gradeId, kind, message, note), actor))
      modifies this
      ensures Valid() && pending == old(pending) - {call}
      ensures ok == Commits(old(Snapshot()), id, read, Resolve(gradeId, kind, message, note))
      ensures Snapshot() == Commit(old(Snapshot()), id, read, Resolve(gradeId, kind, message, note), actor, now)
    {
      hide History, Trim;
      if rows[id].status != read.status {
        Remember(old(Now()), Finish(call, now));
        return false;
      }
      var row := rows[id].(status := GradeIdentified, resolvedGrade := Some(gradeId), resolutionType := Some(kind));
      row := row.(adminMessage := Some(message));
      row := row.(assignedAdmin := OrElse(read.assignedAdmin, Some(actor)), reviewedAt := OrElse(read.reviewedAt, Some(now)));
      rows := rows[id := row];
      Record(Entry(id, if kind.MappedExisting? then "MAPPED_EXISTING" else "CREATED_NEW", AdminRole,
                   Some(read.status), Some(GradeIdentified), Some(message), false));
      if note.Some? {
        Record(Entry(id, "INTERNAL_NOTE", AdminRole, None, None, note, true));
      }
      Remember(old(Now()), Finish(call, now));
      return true;
    }

    /** `respond` of either requester type, after its reads. */
    method RespondTo(ghost call: nat, ghost actor: nat, id: nat, read: Row, answer: string, ghost now: Time) returns (ok: bool)
      requires Valid() && id < |rows| && InFlight(call, Pending(id, read, Answer(answer), actor)) && read.status == InfoRequired
      modifies this
      ensures Valid() && pending == old(pending) - {call}
      ensures ok == Commits(old(Snapshot()), id, read, Answer(answer))
      ensures Snapshot() == Commit(old(Snapshot()), id, read, Answer(answer), 0, 0)
    {
      hide History, Trim;
      if rows[id].status != InfoRequired {
        Remember(old(Now()), Finish(call, now));
        return false;
      }
      rows := rows[id := rows[id].(status := UnderReview, response := Some(answer), adminMessage := None)];
      Record(Entry(id, if read.requester.Customer? then "CUSTOMER_RESPONDED" else "SELLER_RESPONDED", RoleOf(read.requester),
                   Some(InfoRequired), Some(UnderReview), Some(answer), false));
      Remember(old(Now()), Finish(call, now));
      return true;
    }

    /** `cancel` of either requester type, after its reads. */
    method CancelRequest(ghost call: nat, ghost actor: nat, id: nat, read: Row, reason: string, now: Time) returns (ok: bool)
      requires Valid() && id < |rows| && InFlight(call, Pending(id, read, Withdraw(reason), actor))
      modifies this
      ensures Valid() && pending == old(pending) - {call}
      ensures ok == Commits(old(Snapshot()), id, read, Withdraw(reason))
      ensures Snapshot() == Commit(old(Snapshot()), id, read, Withdraw(reason), 0, now)
    {
      hide History, Trim;
      if rows[id].status != read.status {
        Remember(old(Now()), Finish(call, now));
        return false;
      }
      rows := rows[id := rows[id].(status := Closed, closureReason := Some(reason), closedAt := Some(now))];
      Record(Entry(id, if read.requester.Customer? then "CANCELLED_BY_CUSTOMER" else "CANCELLED_BY_SELLER", RoleOf(read.requester),
                   Some(read.status), Some(Closed), Some(reason), false));
      Remember(old(Now()), Finish(call, now));
      return true;
    }

    /** The unguarded write of `assign`. */
    method AssignTo(ghost call: nat, ghost actor: nat, id: nat, read: Row, target: nat, toSelf: bool, ghost now: Time)
      requires Valid() && id < |rows| && InFlight(call, Pending(id, read, SetAssignee(target, toSelf), actor))
      modifies this
      ensures Valid() && pending == old(pending) - {call}
      ensures Snapshot() == Commit(old(Snapshot()), id, read, SetAssignee(target, toSelf), 0, 0)
    {
      hide History, Trim;
      rows := rows[id := rows[id].(assignedAdmin := Some(target))];
      Record(Entry(id, "ASSIGNED", AdminRole, None, None, Some(if toSelf then "Self-assigned" else "Assigned"), true));
      Remember(old(Now()), Finish(call, now));
    }

    /** What the history gives: every run theorem holds of the current rows and events. */
    lemma RunTheorems(i: nat)
      requires Valid()
      ensures ChainsInv(Snapshot()) && OneOpenPerKey(rows) && OneRowPerRetryKey(rows) && (i < |rows| ==> RowOk(rows[i]))
    {
      EventsTellTheHistory(ws, steps, |steps|);
      AtMostOneOpenRequest(ws, steps, |steps|);
      RetryKeysStayApart(ws, steps, |steps|);
      if i < |rows| {
        RowInvariants(ws, steps, |steps|, i);
      }
    }

    /** A row that was terminal at some point of the history is as it was then. */
    lemma TerminalForever(n: nat, i: nat)
      requires Valid() && n <= |steps| && i < |ws[n].db.rows| && Terminal(ws[n].db.rows[i].status)
      ensures i < |rows| && RowEvolves(ws[n].db.rows[i], rows[i])
    {
      TerminalRowsAreFinal(ws, steps, n, |steps|, i);
    }
  }
}

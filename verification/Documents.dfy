/**
 * Rows of the TDS library, the requests waiting for them, and what administrators do to them.
 * Rows are identified by their position; the import key is unique.
 */
module Documents {
  import opened Prelude
  import opened Text
  import opened MatchTokens
  import Matcher
  import ObjectKeys

  datatype Status = PendingReview | Verified | NeedsMapping | Missing | Rejected

  datatype Mapping = Manual | Auto(confidence: Matcher.Confidence)

  datatype Doc = Doc(
    importKey: string, gradeId: Option<nat>, storageKey: Option<string>, status: Status, revision: int, mapping: Mapping,
    category: string, gradeCode: string, producer: string, filename: Option<string>, mime: Option<string>, size: Option<nat>,
    approvedAt: Option<Time>, approvedBy: Option<nat>, rejectedAt: Option<Time>, rejectedBy: Option<nat>,
    uploadedAt: Option<Time>, uploadedBy: Option<nat>, notes: seq<string>, active: bool, deleted: bool)

  datatype RequestStatus = OpenRequest | InProgress | Fulfilled | RequestRejected | RequestClosed

  datatype Request = Request(gradeId: nat, status: RequestStatus, fulfilledBy: Option<nat>, resolvedAt: Option<Time>)

  datatype Db = Db(docs: seq<Doc>, requests: seq<Request>)

  // ---- Lookups ---------------------------------------------------------------------------

  predicate StoredAt(d: Doc, key: string) {
    !d.deleted && d.storageKey == Some(key)
  }

  /** The row a storage key leads to; should several share it, the last one read wins. */
  function FindByStorage(docs: seq<Doc>, key: string): (r: Option<nat>)
    ensures r.Some? ==> r.value < |docs| && StoredAt(docs[r.value], key)
    ensures r.Some? ==> forall j :: r.value < j < |docs| ==> !StoredAt(docs[j], key)
    ensures r.None? ==> forall j :: 0 <= j < |docs| ==> !StoredAt(docs[j], key)
  {
    if docs == [] then None
    else if StoredAt(docs[|docs| - 1], key) then Some(|docs| - 1)
    else FindByStorage(docs[..|docs| - 1], key)
  }

  function FindByImport(docs: seq<Doc>, importKey: string): (r: Option<nat>)
    ensures r.Some? ==> r.value < |docs| && docs[r.value].importKey == importKey
    ensures r.None? ==> forall j :: 0 <= j < |docs| ==> docs[j].importKey != importKey
  {
    if docs == [] then None
    else if docs[|docs| - 1].importKey == importKey then Some(|docs| - 1)
    else FindByImport(docs[..|docs| - 1], importKey)
  }

  ghost predicate UniqueImportKeys(docs: seq<Doc>) {
    forall i, j :: 0 <= i < j < |docs| ==> docs[i].importKey != docs[j].importKey
  }

  /** Import keys are unique and never empty. */
  ghost predicate Table(docs: seq<Doc>) {
    UniqueImportKeys(docs) && forall i :: 0 <= i < |docs| ==> docs[i].importKey != ""
  }

  // ---- Requests ----------------------------------------------------------------------------

  predicate Waiting(r: Request, gradeId: nat) {
    r.gradeId == gradeId && (r.status == OpenRequest || r.status == InProgress)
  }

  predicate NoneWaiting(rs: seq<Request>, gradeId: nat) {
    forall i :: 0 <= i < |rs| ==> !Waiting(rs[i], gradeId)
  }

  /** `notifyOpenTdsRequests`: every waiting request for the grade is fulfilled by the document. */
  function Fulfil(rs: seq<Request>, gradeId: nat, doc: nat, now: Time): seq<Request> {
    seq(|rs|, i requires 0 <= i < |rs| =>
      if Waiting(rs[i], gradeId) then rs[i].(status := Fulfilled, fulfilledBy := Some(doc), resolvedAt := Some(now)) else rs[i])
  }

  /** Fulfilling answers one grade for good and opens nothing elsewhere. */
  lemma FulfilSettles(rs: seq<Request>, gradeId: nat, doc: nat, now: Time, other: nat)
    ensures NoneWaiting(Fulfil(rs, gradeId, doc, now), gradeId)
    ensures NoneWaiting(rs, other) ==> NoneWaiting(Fulfil(rs, gradeId, doc, now), other)
    ensures NoneWaiting(rs, gradeId) ==> Fulfil(rs, gradeId, doc, now) == rs
  {
  }

  /** Requests after a row has been written: a verified row with a grade fulfils. */
  function AfterWrite(rs: seq<Request>, d: Doc, doc: nat, now: Time): seq<Request> {
    if d.status == Verified && d.gradeId.Some? then Fulfil(rs, d.gradeId.value, doc, now) else rs
  }

  // ---- Administrators -------------------------------------------------------------------------

  /** `notes?.trim() || d.reviewNotes` */
  function NotesOr(notes: Option<string>, kept: seq<string>): seq<string> {
    if Trim(notes.GetOr("")) != "" then [Trim(notes.value)] else kept
  }

  predicate Exists(db: Db, id: nat) {
    id < |db.docs| && !db.docs[id].deleted
  }

  predicate CanApprove(db: Db, id: nat) {
    Exists(db, id) && db.docs[id].storageKey.Some? && db.docs[id].gradeId.Some?
  }

  function Approve(db: Db, id: nat, admin: nat, notes: Option<string>, now: Time): Db {
    if !CanApprove(db, id) then db
    else
      var d := db.docs[id];
      Db(db.docs[id := d.(status := Verified, approvedBy := Some(admin), approvedAt := Some(now),
                          notes := NotesOr(notes, d.notes), active := true)],
         Fulfil(db.requests, d.gradeId.value, id, now))
  }

  function Reject(db: Db, id: nat, admin: nat, reason: string, now: Time): Db {
    if !Exists(db, id) then db
    else
      var d := db.docs[id];
      db.(docs := db.docs[id := d.(status := Rejected, rejectedBy := Some(admin), rejectedAt := Some(now),
                                   notes := NotesOr(Some(reason), d.notes))])
  }

  function MapGrade(db: Db, id: nat, grade: nat, catalogue: set<nat>, notes: Option<string>): Db {
    if !Exists(db, id) || grade !in catalogue then db
    else
      var d := db.docs[id];
      db.(docs := db.docs[id := d.(gradeId := Some(grade), mapping := Manual,
                                   status := if d.status == NeedsMapping then PendingReview else d.status,
                                   notes := NotesOr(notes, d.notes))])
  }

  /** An upload with what its product and grade rows say; `product` is absent, unusable, or linked to a grade. */
  datatype ProductLink = NoProduct | Unusable | LinkedTo(gradeId: nat)

  datatype Upload = Upload(
    id: Option<nat>, grade: Option<nat>, product: ProductLink, fileName: string, mime: string, size: nat, maxSize: nat,
    admin: nat, category: string, gradeCode: string, producer: string, origin: string, checksum: string,
    note: Option<string>, approveNow: bool)

  const ALLOWED_MIMES: set<string> := {"application/pdf", "image/jpeg", "image/png", "image/webp"}

  predicate IsAllowedMime(mime: string) {
    mime in ALLOWED_MIMES
  }

  /** The grade the upload is for: the product's, else the given one, else the replaced row's. */
  function UploadGrade(db: Db, u: Upload): Option<nat> {
    var given := if u.product.LinkedTo? then Some(u.product.gradeId) else u.grade;
    if u.id.Some? && u.id.value < |db.docs| then OrElse(given, db.docs[u.id.value].gradeId) else given
  }

  predicate UploadAccepted(db: Db, u: Upload, catalogue: set<nat>) {
    && IsAllowedMime(u.mime) && u.size <= u.maxSize
    && !u.product.Unusable?
    && (u.id.Some? ==> Exists(db, u.id.value))
    && UploadGrade(db, u).Some? && UploadGrade(db, u).value in catalogue
    && (u.id.None? ==> FindByImport(db.docs, UploadImportKey(u)).None?)
  }

  function First16(s: string): string {
    if |s| > 16 then s[..16] else s
  }

  function UploadImportKey(u: Upload): string {
    BuildImportKey(u.category, u.gradeCode, u.producer, u.origin + ":" + First16(u.checksum))
  }

  function UploadStatus(u: Upload): Status {
    if u.approveNow then Verified else PendingReview
  }

  function UploadRevision(db: Db, u: Upload): int {
    if u.id.Some? && u.id.value < |db.docs| then db.docs[u.id.value].revision + 1 else 1
  }

  function UploadKey(u: Upload, revision: int): string {
    ObjectKeys.BuildKey(ObjectKeys.Parts(u.category, u.gradeCode, u.producer, revision,
                                         ObjectKeys.Sanitize(u.fileName, "document.pdf")))
  }

  function UploadNotes(u: Upload): seq<string> {
    (if Trim(u.note.GetOr("")) != "" then [Trim(u.note.value)] else [])
    + (if u.product.LinkedTo? then ["Uploaded for product"] else [])
    + (if u.approveNow then ["Auto-approved on admin upload"] else [])
  }

  function UploadedDoc(db: Db, u: Upload, now: Time): Doc
    requires UploadGrade(db, u).Some?
  {
    var revision := UploadRevision(db, u);
    var made := Doc(UploadImportKey(u), UploadGrade(db, u), Some(UploadKey(u, revision)), UploadStatus(u), revision, Manual,
                      u.category, u.gradeCode, u.producer, Some(u.fileName), Some(u.mime), Some(u.size),
                      if u.approveNow then Some(now) else None, if u.approveNow then Some(u.admin) else None, None, None,
                      Some(now), Some(u.admin), UploadNotes(u), true, false);
    if u.id.Some? && u.id.value < |db.docs| then
      var d := db.docs[u.id.value];
      made.(importKey := d.importKey,
              approvedAt := if u.approveNow then Some(now) else d.approvedAt,
              approvedBy := if u.approveNow then Some(u.admin) else d.approvedBy,
              rejectedAt := d.rejectedAt, rejectedBy := d.rejectedBy,
              notes := if UploadNotes(u) != [] then UploadNotes(u) else d.notes, deleted := d.deleted)
    else made
  }

  function UploadReplace(db: Db, u: Upload, catalogue: set<nat>, now: Time): Db {
    if !UploadAccepted(db, u, catalogue) then db
    else
      var d := UploadedDoc(db, u, now);
      var at := u.id.GetOr(|db.docs|);
      Db(if u.id.Some? then db.docs[at := d] else db.docs + [d], AfterWrite(db.requests, d, at, now))
  }

  // ---- The row invariant ------------------------------------------------------------------------

  /** Verified and pending rows have a grade and a file; rows that need mapping have a file and no grade. */
  predicate DocOk(d: Doc) {
    && (d.status == Verified || d.status == PendingReview ==> d.gradeId.Some? && d.storageKey.Some?)
    && (d.status == NeedsMapping ==> d.storageKey.Some? && d.gradeId.None?)
  }

  ghost predicate DocsOk(docs: seq<Doc>) {
    forall i :: 0 <= i < |docs| ==> DocOk(docs[i])
  }

  /** No row loses its grade, and none disappears. */
  ghost predicate GradesKept(a: seq<Doc>, b: seq<Doc>) {
    |a| <= |b| && forall i :: 0 <= i < |a| && a[i].gradeId.Some? ==> b[i].gradeId.Some?
  }

  ghost predicate Keeps(a: seq<Doc>, b: seq<Doc>) {
    DocsOk(a) && Table(a) ==> DocsOk(b) && Table(b) && GradesKept(a, b)
  }

  lemma ApproveKeeps(db: Db, id: nat, admin: nat, notes: Option<string>, now: Time)
    ensures Keeps(db.docs, Approve(db, id, admin, notes, now).docs)
  {
  }

  lemma RejectKeeps(db: Db, id: nat, admin: nat, reason: string, now: Time)
    ensures Keeps(db.docs, Reject(db, id, admin, reason, now).docs)
  {
  }

  lemma MapGradeKeeps(db: Db, id: nat, grade: nat, catalogue: set<nat>, notes: Option<string>)
    ensures Keeps(db.docs, MapGrade(db, id, grade, catalogue, notes).docs)
  {
  }

  lemma UploadedDocOk(db: Db, u: Upload, now: Time)
    requires UploadGrade(db, u).Some?
    ensures DocOk(UploadedDoc(db, u, now)) && UploadedDoc(db, u, now).gradeId.Some?
    ensures UploadedDoc(db, u, now).importKey
         == if u.id.Some? && u.id.value < |db.docs| then db.docs[u.id.value].importKey else UploadImportKey(u)
  {
  }

  lemma RowReplacedKeeps(docs: seq<Doc>, i: nat, d: Doc)
    requires i < |docs| && DocOk(d) && d.gradeId.Some? && d.importKey == docs[i].importKey
    ensures Keeps(docs, docs[i := d])
  {
  }

  lemma RowAppendedKeeps(docs: seq<Doc>, d: Doc)
    requires DocOk(d) && d.importKey != "" && FindByImport(docs, d.importKey).None?
    ensures Keeps(docs, docs + [d])
  {
  }

  lemma UploadKeeps(db: Db, u: Upload, catalogue: set<nat>, now: Time)
    ensures Keeps(db.docs, UploadReplace(db, u, catalogue, now).docs)
  {
    hide UploadedDoc;
    if UploadAccepted(db, u, catalogue) {
      var d := UploadedDoc(db, u, now);
      UploadedDocOk(db, u, now);
      if u.id.Some? {
        RowReplacedKeeps(db.docs, u.id.value, d);
      } else {
        assert UploadImportKey(u) != "";
        RowAppendedKeeps(db.docs, d);
      }
    }
  }
}

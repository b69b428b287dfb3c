/**
 * What administrators can rely on in the TDS library: what approving, rejecting, mapping and
 * uploading leave, how long such a decision lasts, and through whom a document becomes published.
 */
module LibraryOutcomes {
  import opened Prelude
  import opened Text
  import opened Documents
  import opened Reconcile
  import opened Lifecycle
  import PageSplits
  import ImportOutcomes
  import Importer
  import Matcher
  import ObjectKeys
  import SyncOutcomes

  // ---- What a call leaves ------------------------------------------------------------------------

  predicate Present(docs: seq<Doc>, id: nat) {
    id < |docs| && !docs[id].deleted
  }

  predicate NotesAre(note: Option<string>, before: seq<string>, after: seq<string>) {
    after == if note.Some? && Trim(note.value) != "" then [Trim(note.value)] else before
  }

  /** Every request that waited for the grade is answered by the row, and no other is touched. */
  predicate AllAnswered(before: seq<Request>, after: seq<Request>, grade: nat, id: nat, now: Time) {
    && |after| == |before|
    && forall r :: 0 <= r < |before| ==>
         if before[r].gradeId == grade && (before[r].status == OpenRequest || before[r].status == InProgress)
         then SyncOutcomes.AnsweredBy(before[r], after[r], id, now) else after[r] == before[r]
  }

  predicate OnlyRow(before: seq<Doc>, after: seq<Doc>, id: nat) {
    |after| == |before| && forall i :: 0 <= i < |before| && i != id ==> after[i] == before[i]
  }

  /** Approving publishes a row that has file and grade and answers whoever waited; otherwise nothing happens. */
  lemma ApproveSays(db: Db, id: nat, admin: nat, note: Option<string>, now: Time)
    ensures var db' := Approve(db, id, admin, note, now);
            if Present(db.docs, id) && db.docs[id].storageKey.Some? && db.docs[id].gradeId.Some? then
              && OnlyRow(db.docs, db'.docs, id) && AllAnswered(db.requests, db'.requests, db.docs[id].gradeId.value, id, now)
              && var a, b := db.docs[id], db'.docs[id];
                 && b.status == Verified && b.approvedBy == Some(admin) && b.approvedAt == Some(now) && b.active
                 && NotesAre(note, a.notes, b.notes)
                 && b.(status := a.status, approvedBy := a.approvedBy, approvedAt := a.approvedAt, active := a.active, notes := a.notes) == a
            else db' == db
  {
    hide Trim;
    BlankIsBlank();
  }

  lemma BlankIsBlank()
    ensures Trim("") == ""
  {
  }

  /** Rejecting takes any row out and answers nobody. */
  lemma RejectSays(db: Db, id: nat, admin: nat, reason: string, now: Time)
    ensures var db' := Reject(db, id, admin, reason, now);
            && db'.requests == db.requests
            && (if Present(db.docs, id) then
                  && OnlyRow(db.docs, db'.docs, id)
                  && var a, b := db.docs[id], db'.docs[id];
                     && b.status == Rejected && b.rejectedBy == Some(admin) && b.rejectedAt == Some(now)
                     && NotesAre(Some(reason), a.notes, b.notes)
                     && b.(status := a.status, rejectedBy := a.rejectedBy, rejectedAt := a.rejectedAt, notes := a.notes) == a
                else db' == db)
  {
    hide Trim;
  }

  /** Mapping gives a row a catalogue grade by hand; only a row that needed mapping goes on to review. */
  lemma MapSays(db: Db, id: nat, grade: nat, catalogue: set<nat>, note: Option<string>)
    ensures var db' := MapGrade(db, id, grade, catalogue, note);
            && db'.requests == db.requests
            && (if Present(db.docs, id) && grade in catalogue then
                  && OnlyRow(db.docs, db'.docs, id)
                  && var a, b := db.docs[id], db'.docs[id];
                     && b.gradeId == Some(grade) && b.mapping == Manual
                     && b.status == (if a.status == NeedsMapping then PendingReview else a.status)
                     && NotesAre(note, a.notes, b.notes)
                     && b.(status := a.status, gradeId := a.gradeId, mapping := a.mapping, notes := a.notes) == a
                else db' == db)
  {
    hide Trim;
    BlankIsBlank();
  }

  /** The grade an upload is for: its product's, else the one given, else that of the row it replaces. */
  predicate IsUploadGrade(db: Db, u: Upload, grade: nat) {
    if u.product.LinkedTo? then grade == u.product.gradeId
    else if u.grade.Some? then grade == u.grade.value
    else u.id.Some? && u.id.value < |db.docs| && db.docs[u.id.value].gradeId == Some(grade)
  }

  /** The upload is taken: an allowed and not too large file for a known grade, onto a row that exists or as a new one. */
  predicate Takes(db: Db, u: Upload, catalogue: set<nat>, grade: nat) {
    && IsUploadGrade(db, u, grade) && grade in catalogue && !u.product.Unusable?
    && u.mime in {"application/pdf", "image/jpeg", "image/png", "image/webp"} && u.size <= u.maxSize
    && (if u.id.Some? then Present(db.docs, u.id.value)
        else forall i :: 0 <= i < |db.docs| ==> db.docs[i].importKey != UploadImportKey(u))
  }

  lemma NotesOfUpload(u: Upload)
    ensures forall before, after :: UploadNoted(u, before, after) <==>
                                     after == if UploadNotes(u) != [] then UploadNotes(u) else before
  {
    hide Trim;
    BlankIsBlank();
  }

  /** The row after an upload: published or pending as asked, one revision further. */
  predicate UploadedAs(d: Doc, u: Upload, grade: nat, revision: int, importKey: string, now: Time) {
    && d.gradeId == Some(grade) && d.mapping == Manual && d.status == (if u.approveNow then Verified else PendingReview)
    && d.revision == revision && d.importKey == importKey && d.filename == Some(u.fileName) && d.mime == Some(u.mime)
    && d.size == Some(u.size) && d.category == u.category && d.gradeCode == u.gradeCode && d.producer == u.producer
    && d.storageKey == Some(ObjectKeys.BuildKey(ObjectKeys.Parts(
         u.category, u.gradeCode, u.producer, revision, ObjectKeys.Sanitize(u.fileName, "document.pdf"))))
    && d.uploadedAt == Some(now) && d.uploadedBy == Some(u.admin) && d.active && !d.deleted
    && (u.approveNow ==> d.approvedAt == Some(now) && d.approvedBy == Some(u.admin))
  }

  /** What the upload notes on the row: the uploader's note, the product, the approval; without any the old notes stay. */
  predicate UploadNoted(u: Upload, before: seq<string>, after: seq<string>) {
    var given := if u.note.Some? && Trim(u.note.value) != "" then [Trim(u.note.value)] else [];
    var linked := if u.product.LinkedTo? then ["Uploaded for product"] else [];
    var approved := if u.approveNow then ["Auto-approved on admin upload"] else [];
    after == if given + linked + approved == [] then before else given + linked + approved
  }

  lemma UploadSays(db: Db, u: Upload, catalogue: set<nat>, now: Time)
    ensures var db' := UploadReplace(db, u, catalogue, now);
            if exists grade :: Takes(db, u, catalogue, grade) then
              exists grade :: Takes(db, u, catalogue, grade)
                && (if u.approveNow then AllAnswered(db.requests, db'.requests, grade, u.id.GetOr(|db.docs|), now)
                    else db'.requests == db.requests)
                && (if u.id.Some? then
                      && OnlyRow(db.docs, db'.docs, u.id.value)
                      && var a, b := db.docs[u.id.value], db'.docs[u.id.value];
                         && UploadedAs(b, u, grade, a.revision + 1, a.importKey, now)
                         && UploadNoted(u, a.notes, b.notes) && b.rejectedAt == a.rejectedAt && b.rejectedBy == a.rejectedBy
                         && (!u.approveNow ==> b.approvedAt == a.approvedAt && b.approvedBy == a.approvedBy)
                    else
                      && |db'.docs| == |db.docs| + 1 && db'.docs[..|db.docs|] == db.docs
                      && UploadedAs(db'.docs[|db.docs|], u, grade, 1, UploadImportKey(u), now)
                      && db'.docs[|db.docs|].rejectedAt.None? && UploadNoted(u, [], db'.docs[|db.docs|].notes)
                      && (!u.approveNow ==> db'.docs[|db.docs|].approvedAt.None?))
            else db' == db
  {
    hide ObjectKeys.BuildKey, ObjectKeys.Sanitize, UploadImportKey, UploadNotes, UploadNoted, Trim;
    NotesOfUpload(u);
    if UploadAccepted(db, u, catalogue) {
      assert Takes(db, u, catalogue, UploadGrade(db, u).value);
    }
    forall grade: nat | Takes(db, u, catalogue, grade) ensures UploadAccepted(db, u, catalogue) && UploadGrade(db, u) == Some(grade) {
    }
  }

  // ---- Decisions last --------------------------------------------------------------------------------

  /** The call decides about the row: approves, rejects or replaces it. */
  predicate Decides(e: Event, id: nat) {
    || (e.op.DoApprove? && e.op.id == id) || (e.op.DoReject? && e.op.id == id)
    || (e.op.DoUpload? && e.op.upload.id == Some(id))
  }

  predicate SameDecision(a: Doc, b: Doc) {
    && b.status == a.status && b.approvedAt == a.approvedAt && b.approvedBy == a.approvedBy
    && b.rejectedAt == a.rejectedAt && b.rejectedBy == a.rejectedBy && b.gradeId.Some?
  }

  predicate Decided(d: Doc) {
    d.gradeId.Some? && (d.status == Verified || d.status == Rejected)
  }

  lemma UpdateKeepsDecision(row: Doc, read: Doc, e: Entry, s: Settings, now: Time)
    requires Decided(row) && Decided(read) && SameDecision(read, row)
    ensures SameDecision(row, Updated(row, read, e, s, now))
  {
    hide MappingAfter, Later, FreshStatus;
  }

  lemma ProcessKeepsDecision(db: Db, snapshot: seq<Doc>, e: Entry, s: Settings, now: Time, id: nat)
    requires id < |snapshot| <= |db.docs| && Decided(snapshot[id]) && SameDecision(snapshot[id], db.docs[id])
    ensures var docs' := Process(db, snapshot, e, s, now).docs;
            |snapshot| <= |docs'| && SameDecision(snapshot[id], docs'[id])
  {
    hide Updated, CreatedDoc, AfterWrite;
    var r := Resolve(snapshot, db.docs, e);
    if r.Some? && r.value.0 == id {
      UpdateKeepsDecision(db.docs[id], r.value.1, e, s, now);
    }
  }

  lemma {:induction false} PageKeepsDecision(db: Db, es: seq<Entry>, k: nat, s: Settings, now: Time, id: nat)
    requires k <= |es| && id < |db.docs| && Decided(db.docs[id])
    ensures var docs' := PageSplits.Prefix(db, es, k, s, now).docs;
            |db.docs| <= |docs'| && SameDecision(db.docs[id], docs'[id])
  {
    hide Process, PageSplits.Prefix;
    if k == 0 {
      PageSplits.NothingTouched(db, es, s, now);
    } else {
      PageKeepsDecision(db, es, k - 1, s, now, id);
      PageSplits.PrefixNext(db, es, k - 1, s, now);
      ProcessKeepsDecision(PageSplits.Prefix(db, es, k - 1, s, now), db.docs, es[k - 1], s, now, id);
    }
  }

  lemma StepKeepsDecision(db: Db, e: Event, id: nat)
    requires id < |db.docs| && Decided(db.docs[id]) && !Decides(e, id)
    ensures id < |Apply(db, e).docs| && SameDecision(db.docs[id], Apply(db, e).docs[id])
  {
    hide ReconcilePage, Listed, PlanOf, Importer.Creates, Importer.ImportedDoc, UploadedDoc;
    if e.op.DoSyncPage? {
      var es := Listed(e.op.objects, e.op.grades);
      SyncOutcomes.PageIsPrefix(db, es, e.op.settings, e.now);
      PageKeepsDecision(db, es, |es|, e.op.settings, e.now, id);
    }
  }

  /**
   * Over any run of imports, syncs, mappings and decisions about other rows, a published or
   * rejected row that has a grade stays so, with who decided and when.
   */
  lemma {:induction false} DecisionLasts(dbs: seq<Db>, es: seq<Event>, i: nat, j: nat, id: nat)
    requires IsRun(dbs, es) && i <= j <= |es| && id < |dbs[i].docs| && Decided(dbs[i].docs[id])
    requires forall k :: i <= k < j ==> !Decides(es[k], id)
    ensures id < |dbs[j].docs| && Decided(dbs[j].docs[id]) && SameDecision(dbs[i].docs[id], dbs[j].docs[id])
    decreases j - i
  {
    hide Apply, Possible, Decides;
    if i < j {
      StepKeepsDecision(dbs[i], es[i], id);
      DecisionLasts(dbs, es, i + 1, j, id);
    }
  }

  /** After a rejection of a row that has a grade, it is rejected, by that admin at that time, until it is decided about again. */
  lemma RejectionLasts(dbs: seq<Db>, es: seq<Event>, i: nat, j: nat, id: nat)
    requires IsRun(dbs, es) && i < j <= |es| && es[i].op.DoReject? && es[i].op.id == id
    requires Present(dbs[i].docs, id) && dbs[i].docs[id].gradeId.Some?
    requires forall k :: i < k < j ==> !Decides(es[k], id)
    ensures id < |dbs[j].docs| && dbs[j].docs[id].status == Rejected
    ensures dbs[j].docs[id].rejectedBy == Some(es[i].op.admin) && dbs[j].docs[id].rejectedAt == Some(es[i].now)
  {
    hide Possible, Reject;
    assert dbs[i + 1] == Apply(dbs[i], es[i]);
    RejectSays(dbs[i], id, es[i].op.admin, es[i].op.reason, es[i].now);
    DecisionLasts(dbs, es, i + 1, j, id);
  }

  /** After an approval the row is published, by that admin at that time, until it is decided about again. */
  lemma ApprovalLasts(dbs: seq<Db>, es: seq<Event>, i: nat, j: nat, id: nat)
    requires IsRun(dbs, es) && i < j <= |es| && es[i].op.DoApprove? && es[i].op.id == id
    requires Present(dbs[i].docs, id) && dbs[i].docs[id].gradeId.Some? && dbs[i].docs[id].storageKey.Some?
    requires forall k :: i < k < j ==> !Decides(es[k], id)
    ensures id < |dbs[j].docs| && dbs[j].docs[id].status == Verified
    ensures dbs[j].docs[id].approvedBy == Some(es[i].op.admin) && dbs[j].docs[id].approvedAt == Some(es[i].now)
  {
    hide Possible, Approve;
    assert dbs[i + 1] == Apply(dbs[i], es[i]);
    ApproveSays(dbs[i], id, es[i].op.admin, es[i].op.notes, es[i].now);
    DecisionLasts(dbs, es, i + 1, j, id);
  }

  // ---- Through whom a document becomes published --------------------------------------------------------

  /** The call is one that may publish the row. */
  ghost predicate Publishes(e: Event, id: nat) {
    match e.op
    case DoApprove(i, _, _) => i == id
    case DoUpload(u, _) => u.approveNow && (u.id.Some? ==> u.id.value == id)
    case DoSyncPage(_, _, s) => s.autoVerify
    case DoImportRow(row, archive, grades) =>
      && ImportOutcomes.FromApp(row)
      && ImportOutcomes.OneGrade(ImportOutcomes.MatchOf(row, Matcher.BuildIndex(grades)))
    case _ => false
  }

  lemma ImportedStatus(p: Importer.Plan, now: Time)
    ensures Importer.ImportedDoc(p, now).status == p.status
  {
  }

  lemma PlanIsOfMatch(e: Event)
    requires e.op.DoImportRow?
    ensures PlanOf(e.op.row, e.op.archive, e.op.catalogueGrades)
         == Importer.PlanWith(e.op.row, e.op.archive, ImportOutcomes.MatchOf(e.op.row, Matcher.BuildIndex(e.op.catalogueGrades)))
  {
    hide Importer.PlanWith, Matcher.MatchFromIndex;
  }

  lemma ImportPublishes(db: Db, e: Event, id: nat)
    requires e.op.DoImportRow? && id < |Apply(db, e).docs| && Apply(db, e).docs[id].status == Verified
    requires id < |db.docs| ==> db.docs[id].status != Verified
    ensures Publishes(e, id)
  {
    hide PlanOf, Importer.ImportedDoc, Importer.Creates, Importer.PlanWith, Importer.RowFile, ImportOutcomes.MatchOf;
    hide ImportOutcomes.FromApp, ImportOutcomes.OneGrade, Matcher.BuildIndex;
    var m := ImportOutcomes.MatchOf(e.op.row, Matcher.BuildIndex(e.op.catalogueGrades));
    ImportOutcomes.StatusIs(e.op.row, e.op.archive, m);
    PlanIsOfMatch(e);
    ImportedStatus(PlanOf(e.op.row, e.op.archive, e.op.catalogueGrades), e.now);
  }

  lemma UploadPublishes(db: Db, e: Event, id: nat)
    requires e.op.DoUpload? && id < |Apply(db, e).docs| && Apply(db, e).docs[id].status == Verified
    requires id < |db.docs| ==> db.docs[id].status != Verified
    ensures Publishes(e, id)
  {
    hide UploadKey, UploadNotes, UploadImportKey;
  }

  /**
   * Over any run a row becomes published only by an approval, by an upload to be approved at
   * once, by a sync that publishes matches, or by importing a matched row of the application.
   */
  lemma PublishedOnlyBy(dbs: seq<Db>, es: seq<Event>, n: nat, id: nat)
    requires IsRun(dbs, es) && n < |es| && id < |dbs[n + 1].docs| && dbs[n + 1].docs[id].status == Verified
    requires id < |dbs[n].docs| ==> dbs[n].docs[id].status != Verified
    ensures Publishes(es[n], id)
  {
    hide Possible, ReconcilePage, Listed, PlanOf, UploadReplace, ImportDocs;
    var db, e := dbs[n], es[n];
    match e.op
    case DoSyncPage(objects, grades, s) =>
      var listed := Listed(objects, grades);
      SyncOutcomes.PageIsPrefix(db, listed, s, e.now);
      SyncOutcomes.PagePublishes(db, listed, |listed|, s, e.now);
    case DoUpload(_, _) => UploadPublishes(db, e, id);
    case DoImportRow(_, _, _) => ImportPublishes(db, e, id);
    case _ =>
  }
}

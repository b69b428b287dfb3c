/**
 * The life of a document row over every run of its writers: import, approve, reject, map,
 * upload or replace, and storage sync.
 *
 * A sync page works from a snapshot, so it keeps the row invariant exactly when no entry
 * writes back a missing grade that an earlier entry of the page has just set.
 */
module Lifecycle {
  import opened Prelude
  import opened Documents
  import opened Reconcile
  import Importer
  import Matcher

  // ---- One entry, exactly --------------------------------------------------------------------

  /** How a table in the middle of a page relates to the page's snapshot. */
  ghost predicate MidPage(snapshot: seq<Doc>, docs: seq<Doc>) {
    && |snapshot| <= |docs| && DocsOk(docs) && Table(docs)
    && forall i :: 0 <= i < |snapshot| ==>
         && docs[i].importKey == snapshot[i].importKey
         && (docs[i].status == NeedsMapping ==> snapshot[i].status == NeedsMapping)
         && (snapshot[i].gradeId.Some? ==> docs[i].gradeId.Some?)
  }

  ghost predicate Stable(docs: seq<Doc>) {
    DocsOk(docs) && Table(docs)
  }

  predicate EntryOk(e: Entry) {
    Sound(e) && e.importKey != ""
  }

  /** The entry writes the snapshot's missing grade over a grade set since. */
  predicate Erases(snapshot: seq<Doc>, docs: seq<Doc>, e: Entry) {
    var at := FindByStorage(snapshot, e.key);
    && at.Some? && at.value < |docs|
    && snapshot[at.value].gradeId.None? && e.match_.gradeId.None? && docs[at.value].gradeId.Some?
  }

  /** The written row is in order exactly when it does not erase a grade. */
  lemma UpdatedIsOk(row: Doc, read: Doc, e: Entry, s: Settings, now: Time)
    requires DocOk(row) && DocOk(read) && EntryOk(e)
    requires row.status == NeedsMapping ==> read.status == NeedsMapping
    requires read.gradeId.Some? ==> row.gradeId.Some?
    ensures var d := Updated(row, read, e, s, now);
            var erased := read.gradeId.None? && e.match_.gradeId.None? && row.gradeId.Some?;
            && (!erased <==> (row.gradeId.Some? ==> d.gradeId.Some?))
            && (!erased ==> DocOk(d) && (d.status == NeedsMapping ==> row.status == NeedsMapping))
            && (e.match_.gradeId.Some? ==> d.gradeId.Some?)
            && (read.importKey != "" ==> d.importKey == read.importKey)
  {
  }

  lemma CreatedIsOk(e: Entry, s: Settings, now: Time)
    requires EntryOk(e)
    ensures DocOk(CreatedDoc(e, s, now))
  {
  }

  lemma ReplaceRow(docs: seq<Doc>, i: nat, d: Doc)
    requires Stable(docs) && i < |docs| && d.importKey == docs[i].importKey
    ensures Table(docs[i := d])
    ensures DocsOk(docs[i := d]) <==> DocOk(d)
    ensures GradesKept(docs, docs[i := d]) <==> (docs[i].gradeId.Some? ==> d.gradeId.Some?)
  {
    if DocsOk(docs[i := d]) {
      assert DocOk(docs[i := d][i]);
    }
    if GradesKept(docs, docs[i := d]) && docs[i].gradeId.Some? {
      assert docs[i := d][i].gradeId.Some?;
    }
  }

  lemma AppendRow(docs: seq<Doc>, d: Doc)
    requires Stable(docs) && DocOk(d) && d.importKey != "" && forall i :: 0 <= i < |docs| ==> docs[i].importKey != d.importKey
    ensures Stable(docs + [d]) && GradesKept(docs, docs + [d])
  {
  }

  lemma MidPageReplaced(snapshot: seq<Doc>, docs: seq<Doc>, i: nat, d: Doc)
    requires MidPage(snapshot, docs) && i < |docs| && Stable(docs[i := d]) && d.importKey == docs[i].importKey
    requires (d.status == NeedsMapping ==> docs[i].status == NeedsMapping) && (docs[i].gradeId.Some? ==> d.gradeId.Some?)
    ensures MidPage(snapshot, docs[i := d])
  {
  }

  /** One entry keeps rows and grades exactly when it erases no grade. */
  lemma EntryKeepsExactlyWhen(db: Db, snapshot: seq<Doc>, e: Entry, s: Settings, now: Time)
    requires DocsOk(snapshot) && MidPage(snapshot, db.docs) && EntryOk(e)
    ensures var docs' := Process(db, snapshot, e, s, now).docs;
            && (GradesKept(db.docs, docs') && DocsOk(docs') <==> !Erases(snapshot, db.docs, e))
            && (!Erases(snapshot, db.docs, e) ==> MidPage(snapshot, docs'))
  {
    var r := Resolve(snapshot, db.docs, e);
    if r.Some? {
      var i, read := r.value.0, r.value.1;
      var d := Updated(db.docs[i], read, e, s, now);
      UpdatedIsOk(db.docs[i], read, e, s, now);
      assert Process(db, snapshot, e, s, now).docs == db.docs[i := d];
      ReplaceRow(db.docs, i, d);
      if !Erases(snapshot, db.docs, e) {
        MidPageReplaced(snapshot, db.docs, i, d);
      }
    } else {
      CreatedIsOk(e, s, now);
      AppendRow(db.docs, CreatedDoc(e, s, now));
    }
  }

  // ---- A page, exactly -----------------------------------------------------------------------

  /** Entry `a` reaches row `i` by import key and sets its grade; entry `b` behind it has only the stale row. */
  ghost predicate Clash(docs: seq<Doc>, es: seq<Entry>, a: nat, b: nat, i: nat) {
    && a < b < |es| && i < |docs|
    && FindByStorage(docs, es[a].key).None? && docs[i].importKey == es[a].importKey && es[a].match_.gradeId.Some?
    && FindByStorage(docs, es[b].key) == Some(i) && docs[i].gradeId.None? && es[b].match_.gradeId.None?
  }

  ghost predicate Hazard(docs: seq<Doc>, es: seq<Entry>) {
    exists a, b, i :: Clash(docs, es, a, b, i)
  }

  /** At every point of the page the rows are in order, and no entry loses a grade. */
  ghost predicate PageKeeps(db: Db, es: seq<Entry>, s: Settings, now: Time) {
    forall k :: 0 <= k < |es| ==> EntryKeeps(db, es, k, s, now)
  }

  ghost predicate EntryKeeps(db: Db, es: seq<Entry>, k: nat, s: Settings, now: Time)
    requires k < |es|
  {
    var before, after := Work(db, db.docs, es[..k], s, now).docs, Work(db, db.docs, es[..k + 1], s, now).docs;
    GradesKept(before, after) && DocsOk(after)
  }

  lemma WorkNext(db: Db, es: seq<Entry>, k: nat, s: Settings, now: Time)
    requires k < |es|
    ensures Work(db, db.docs, es[..k + 1], s, now) == Process(Work(db, db.docs, es[..k], s, now), db.docs, es[k], s, now)
  {
    assert es[..k + 1][..k] == es[..k];
  }

  /** A row that gained its grade in the page gained it from an earlier matched entry. */
  ghost predicate Gained(docs: seq<Doc>, es: seq<Entry>, k: nat, i: nat) {
    exists a :: 0 <= a < k && a < |es| && i < |docs| && GaveGrade(docs, es[a], i)
  }

  ghost predicate GaveGrade(docs: seq<Doc>, e: Entry, i: nat)
    requires i < |docs|
  {
    && e.match_.gradeId.Some?
    && (FindByStorage(docs, e.key) == Some(i) || (FindByStorage(docs, e.key).None? && docs[i].importKey == e.importKey))
  }

  /** As long as every entry keeps, the table stays in its mid-page shape and grades have a source. */
  lemma {:induction false} KeptSoFar(db: Db, es: seq<Entry>, k: nat, s: Settings, now: Time)
    requires Stable(db.docs) && k <= |es| && forall e :: e in es ==> EntryOk(e)
    requires forall j :: 0 <= j < k ==> EntryKeeps(db, es, j, s, now)
    ensures var docs := Work(db, db.docs, es[..k], s, now).docs;
            && MidPage(db.docs, docs)
            && forall i :: 0 <= i < |db.docs| && db.docs[i].gradeId.None? && docs[i].gradeId.Some? ==> Gained(db.docs, es, k, i)
  {
    if k == 0 {
      assert es[..0] == [];
    } else {
      KeptSoFar(db, es, k - 1, s, now);
      WorkNext(db, es, k - 1, s, now);
      var before, e := Work(db, db.docs, es[..k - 1], s, now), es[k - 1];
      assert e in es && EntryKeeps(db, es, k - 1, s, now);
      EntryKeepsExactlyWhen(before, db.docs, e, s, now);
      GradesHaveSource(before, db.docs, es, k - 1, s, now);
    }
  }

  lemma GradesHaveSource(db: Db, docs: seq<Doc>, es: seq<Entry>, k: nat, s: Settings, now: Time)
    requires k < |es| && MidPage(docs, db.docs) && !Erases(docs, db.docs, es[k])
    requires forall i :: 0 <= i < |docs| && docs[i].gradeId.None? && db.docs[i].gradeId.Some? ==> Gained(docs, es, k, i)
    ensures var docs' := Process(db, docs, es[k], s, now).docs;
            |docs| <= |docs'| &&
            forall i :: 0 <= i < |docs| && docs[i].gradeId.None? && docs'[i].gradeId.Some? ==> Gained(docs, es, k + 1, i)
  {
    var docs' := Process(db, docs, es[k], s, now).docs;
    forall i | 0 <= i < |docs| && docs[i].gradeId.None? && docs'[i].gradeId.Some? ensures Gained(docs, es, k + 1, i) {
      if db.docs[i].gradeId.Some? {
        assert Gained(docs, es, k, i);
        var a :| 0 <= a < k && a < |es| && i < |docs| && GaveGrade(docs, es[a], i);
        assert GaveGrade(docs, es[a], i);
      } else {
        assert GaveGrade(docs, es[k], i);
      }
    }
  }

  lemma EraseNeedsClash(docs: seq<Doc>, here: seq<Doc>, es: seq<Entry>, k: nat)
    requires k < |es| && DistinctKeys(es) && !Hazard(docs, es)
    requires forall i :: 0 <= i < |docs| && i < |here| && docs[i].gradeId.None? && here[i].gradeId.Some? ==> Gained(docs, es, k, i)
    ensures !Erases(docs, here, es[k])
  {
    if Erases(docs, here, es[k]) {
      var i := FindByStorage(docs, es[k].key).value;
      assert Gained(docs, es, k, i);
      var a :| 0 <= a < k && a < |es| && i < |docs| && GaveGrade(docs, es[a], i);
      assert Clash(docs, es, a, k, i);
    }
  }

  lemma OneEntryKeeps(db: Db, es: seq<Entry>, k: nat, s: Settings, now: Time)
    requires DocsOk(db.docs) && k < |es| && EntryOk(es[k]) && MidPage(db.docs, Work(db, db.docs, es[..k], s, now).docs)
    ensures EntryKeeps(db, es, k, s, now) <==> !Erases(db.docs, Work(db, db.docs, es[..k], s, now).docs, es[k])
  {
    WorkNext(db, es, k, s, now);
    EntryKeepsExactlyWhen(Work(db, db.docs, es[..k], s, now), db.docs, es[k], s, now);
  }

  lemma {:induction false} NoHazardKeeps(db: Db, es: seq<Entry>, k: nat, s: Settings, now: Time)
    requires Stable(db.docs) && DistinctKeys(es) && k <= |es| && forall e :: e in es ==> EntryOk(e)
    requires !Hazard(db.docs, es)
    ensures forall j :: 0 <= j < k ==> EntryKeeps(db, es, j, s, now)
  {
    hide Erases, Hazard, Gained, Work, EntryKeeps, MidPage;
    if k > 0 {
      NoHazardKeeps(db, es, k - 1, s, now);
      KeptSoFar(db, es, k - 1, s, now);
      assert es[k - 1] in es;
      EraseNeedsClash(db.docs, Work(db, db.docs, es[..k - 1], s, now).docs, es, k - 1);
      OneEntryKeeps(db, es, k - 1, s, now);
    }
  }

  lemma {:induction false} GradeStays(db: Db, es: seq<Entry>, j: nat, k: nat, s: Settings, now: Time, i: nat)
    requires PageKeeps(db, es, s, now) && j <= k <= |es|
    requires i < |Work(db, db.docs, es[..j], s, now).docs| && Work(db, db.docs, es[..j], s, now).docs[i].gradeId.Some?
    ensures i < |Work(db, db.docs, es[..k], s, now).docs| && Work(db, db.docs, es[..k], s, now).docs[i].gradeId.Some?
    decreases k - j
  {
    if j < k {
      assert EntryKeeps(db, es, j, s, now);
      GradeStays(db, es, j + 1, k, s, now, i);
    }
  }

  lemma ClashGivesGrade(db: Db, snapshot: seq<Doc>, e: Entry, s: Settings, now: Time, i: nat)
    requires DocsOk(snapshot) && MidPage(snapshot, db.docs) && EntryOk(e) && i < |snapshot|
    requires FindByStorage(snapshot, e.key).None? && snapshot[i].importKey == e.importKey && e.match_.gradeId.Some?
    ensures var docs' := Process(db, snapshot, e, s, now).docs; i < |docs'| && docs'[i].gradeId.Some?
  {
    hide Updated, CreatedDoc, AfterWrite;
    assert FindByImport(db.docs, e.importKey) == Some(i);
    UpdatedIsOk(db.docs[i], db.docs[i], e, s, now);
  }

  lemma HazardBreaks(db: Db, es: seq<Entry>, s: Settings, now: Time, a: nat, b: nat, i: nat)
    requires Stable(db.docs) && (forall e :: e in es ==> EntryOk(e)) && Clash(db.docs, es, a, b, i)
    ensures !PageKeeps(db, es, s, now)
  {
    if PageKeeps(db, es, s, now) {
      KeptSoFar(db, es, a, s, now);
      KeptSoFar(db, es, b, s, now);
      assert es[a] in es && es[b] in es;
      WorkNext(db, es, a, s, now);
      ClashGivesGrade(Work(db, db.docs, es[..a], s, now), db.docs, es[a], s, now, i);
      GradeStays(db, es, a + 1, b, s, now, i);
      OneEntryKeeps(db, es, b, s, now);
    }
  }

  /** A sync page keeps rows and grades throughout exactly when its entries hold no clash. */
  lemma PageKeepsExactlyWhen(db: Db, es: seq<Entry>, s: Settings, now: Time)
    requires Stable(db.docs) && DistinctKeys(es) && forall e :: e in es ==> EntryOk(e)
    ensures PageKeeps(db, es, s, now) <==> !Hazard(db.docs, es)
  {
    if Hazard(db.docs, es) {
      var a, b, i :| Clash(db.docs, es, a, b, i);
      HazardBreaks(db, es, s, now, a, b, i);
    } else {
      NoHazardKeeps(db, es, |es|, s, now);
    }
  }

  lemma EntryFits(index: Matcher.Index, o: Object)
    requires Relevant(o)
    ensures EntryOk(EntryOf(index, o)) && EntryOf(index, o).key == o.key
  {
    var e := EntryOf(index, o);
    assert e.importKey != "";
    Matcher.GradeExactlyWithConfidence(index, Matcher.Input(UnderscoresToBlanks(e.parts.category), e.parts.grade, e.parts.producer));
  }

  /** Entries of objects with distinct keys are what a run asks of a page, whatever the catalogue holds. */
  lemma {:induction false} ListedEntriesFit(index: Matcher.Index, objects: seq<Object>)
    requires forall i, j :: 0 <= i < j < |objects| ==> objects[i].key != objects[j].key
    ensures DistinctKeys(Entries(index, objects)) && forall e :: e in Entries(index, objects) ==> EntryOk(e)
    ensures forall e :: e in Entries(index, objects) ==> exists o :: o in objects && o.key == e.key
  {
    hide EntryOf, Relevant, EntryOk;
    if objects != [] {
      var front, last := objects[..|objects| - 1], objects[|objects| - 1];
      ListedEntriesFit(index, front);
      if Relevant(last) {
        EntryFits(index, last);
        forall x | x in Entries(index, front) ensures x.key != last.key {
          var o :| o in front && o.key == x.key;
        }
      }
    }
  }

  // ---- Runs of all writers ---------------------------------------------------------------------

  datatype Op =
    | DoApprove(id: nat, admin: nat, notes: Option<string>)
    | DoReject(id: nat, admin: nat, reason: string)
    | DoMap(id: nat, grade: nat, catalogue: set<nat>, notes: Option<string>)
    | DoUpload(upload: Upload, catalogue: set<nat>)
    | DoSyncPage(objects: seq<Object>, grades: seq<Matcher.Grade>, settings: Settings)
    | DoImportRow(row: Importer.Row, archive: Importer.Archive, catalogueGrades: seq<Matcher.Grade>)

  datatype Event = Event(op: Op, now: Time)

  function ImportDocs(docs: seq<Doc>, p: Importer.Plan, now: Time): seq<Doc> {
    if Importer.Creates(docs, p) then docs + [Importer.ImportedDoc(p, now)] else docs
  }

  /** What a page lists, matched against the catalogue. */
  ghost function Listed(objects: seq<Object>, grades: seq<Matcher.Grade>): seq<Entry> {
    Entries(Matcher.BuildIndex(grades), objects)
  }

  ghost function PlanOf(row: Importer.Row, archive: Importer.Archive, grades: seq<Matcher.Grade>): Importer.Plan {
    Importer.PlanFor(row, archive, Matcher.BuildIndex(grades))
  }

  ghost function Apply(db: Db, e: Event): Db {
    match e.op
    case DoApprove(id, admin, notes) => Approve(db, id, admin, notes, e.now)
    case DoReject(id, admin, reason) => Reject(db, id, admin, reason, e.now)
    case DoMap(id, grade, catalogue, notes) => MapGrade(db, id, grade, catalogue, notes)
    case DoUpload(u, catalogue) => UploadReplace(db, u, catalogue, e.now)
    case DoSyncPage(objects, grades, s) => ReconcilePage(db, Listed(objects, grades), s, e.now)
    case DoImportRow(row, archive, grades) => db.(docs := ImportDocs(db.docs, PlanOf(row, archive, grades), e.now))
  }

  ghost predicate DistinctObjects(objects: seq<Object>) {
    forall i, j :: 0 <= i < j < |objects| ==> objects[i].key != objects[j].key
  }

  /** A listing names no key twice; nothing else is asked of a call. */
  ghost predicate Possible(e: Event) {
    e.op.DoSyncPage? ==> DistinctObjects(e.op.objects)
  }

  ghost predicate IsRun(dbs: seq<Db>, es: seq<Event>) {
    && |dbs| == |es| + 1 && dbs[0].docs == []
    && forall i :: 0 <= i < |es| ==> Possible(es[i]) && dbs[i + 1] == Apply(dbs[i], es[i])
  }

  /** Two listed objects of a sync page clash on a row of the table. */
  ghost predicate Hazardous(db: Db, e: Event) {
    e.op.DoSyncPage? && Hazard(db.docs, Listed(e.op.objects, e.op.grades))
  }

  /** At every point of the call the rows are in order and no grade is lost. */
  ghost predicate KeepsThroughout(db: Db, e: Event) {
    match e.op
    case DoSyncPage(objects, grades, s) => PageKeeps(db, Listed(objects, grades), s, e.now)
    case _ => DocsOk(Apply(db, e).docs) && GradesKept(db.docs, Apply(db, e).docs)
  }

  lemma GradesKeptTransitive(a: seq<Doc>, b: seq<Doc>, c: seq<Doc>)
    requires GradesKept(a, b) && GradesKept(b, c)
    ensures GradesKept(a, c)
  {
  }

  lemma KeptBySelf(docs: seq<Doc>)
    ensures GradesKept(docs, docs) && Stable([])
  {
  }

  lemma {:induction false} PageEndsWell(db: Db, es: seq<Entry>, k: nat, s: Settings, now: Time)
    requires Stable(db.docs) && k <= |es| && (forall e :: e in es ==> EntryOk(e)) && PageKeeps(db, es, s, now)
    ensures Stable(Work(db, db.docs, es[..k], s, now).docs) && GradesKept(db.docs, Work(db, db.docs, es[..k], s, now).docs)
  {
    KeptSoFar(db, es, k, s, now);
    if k == 0 {
      assert es[..0] == [];
    } else {
      PageEndsWell(db, es, k - 1, s, now);
      assert EntryKeeps(db, es, k - 1, s, now);
      GradesKeptTransitive(db.docs, Work(db, db.docs, es[..k - 1], s, now).docs, Work(db, db.docs, es[..k], s, now).docs);
    }
  }

  lemma SyncStep(db: Db, objects: seq<Object>, grades: seq<Matcher.Grade>, s: Settings, now: Time)
    requires Stable(db.docs) && DistinctObjects(objects)
    ensures var es := Listed(objects, grades);
            && (PageKeeps(db, es, s, now) <==> !Hazard(db.docs, es))
            && (PageKeeps(db, es, s, now) ==>
                  Stable(ReconcilePage(db, es, s, now).docs) && GradesKept(db.docs, ReconcilePage(db, es, s, now).docs))
  {
    hide Stable, Hazard, PageKeeps, GradesKept, DistinctKeys, EntryOk, Work;
    var es := Listed(objects, grades);
    ListedEntriesFit(Matcher.BuildIndex(grades), objects);
    PageKeepsExactlyWhen(db, es, s, now);
    if PageKeeps(db, es, s, now) {
      PageEndsWell(db, es, |es|, s, now);
      assert es[..|es|] == es;
    }
  }

  lemma ImportKeeps(docs: seq<Doc>, row: Importer.Row, archive: Importer.Archive, grades: seq<Matcher.Grade>, now: Time)
    requires Stable(docs)
    ensures var docs' := ImportDocs(docs, PlanOf(row, archive, grades), now); Stable(docs') && GradesKept(docs, docs')
  {
    hide Importer.ImportedDoc, Importer.RowKey, Importer.Fails, DocOk, Matcher.MatchFromIndex;
    var input := Matcher.Input(row.category, row.grade, row.producer);
    var m := Matcher.MatchFromIndex(Matcher.BuildIndex(grades), input);
    Matcher.GradeExactlyWithConfidence(Matcher.BuildIndex(grades), input);
    var p := Importer.PlanWith(row, archive, m);
    if Importer.Creates(docs, p) {
      Importer.ImportedDocOk(row, archive, m, now);
      RowAppendedKeeps(docs, Importer.ImportedDoc(p, now));
    }
  }

  lemma AdminKeeps(db: Db, e: Event)
    requires Stable(db.docs) && (e.op.DoApprove? || e.op.DoReject? || e.op.DoMap? || e.op.DoUpload?)
    ensures Stable(Apply(db, e).docs) && GradesKept(db.docs, Apply(db, e).docs)
  {
    hide Approve, Reject, MapGrade, UploadReplace;
    match e.op
    case DoApprove(id, admin, notes) => ApproveKeeps(db, id, admin, notes, e.now);
    case DoReject(id, admin, reason) => RejectKeeps(db, id, admin, reason, e.now);
    case DoMap(id, grade, catalogue, notes) => MapGradeKeeps(db, id, grade, catalogue, notes);
    case DoUpload(u, catalogue) => UploadKeeps(db, u, catalogue, e.now);
  }

  lemma StepExactly(db: Db, e: Event)
    requires Stable(db.docs) && Possible(e)
    ensures KeepsThroughout(db, e) <==> !Hazardous(db, e)
    ensures KeepsThroughout(db, e) ==> Stable(Apply(db, e).docs) && GradesKept(db.docs, Apply(db, e).docs)
  {
    hide GradesKept, ReconcilePage, PageKeeps, Hazard, ImportDocs, Approve, Reject, MapGrade, UploadReplace, DistinctObjects;
    hide Listed, PlanOf, DocsOk, Table;
    match e.op
    case DoSyncPage(objects, grades, s) => SyncStep(db, objects, grades, s, e.now);
    case DoImportRow(row, archive, grades) => ImportKeeps(db.docs, row, archive, grades, e.now);
    case _ => AdminKeeps(db, e);
  }

  lemma {:induction false} StableSoFar(dbs: seq<Db>, es: seq<Event>, n: nat)
    requires IsRun(dbs, es) && n <= |es|
    requires forall m :: 0 <= m < n ==> KeepsThroughout(dbs[m], es[m]) || !Hazardous(dbs[m], es[m])
    ensures Stable(dbs[n].docs)
  {
    hide Apply, Possible, Stable, GradesKept, KeepsThroughout, Hazardous;
    if n == 0 {
      KeptBySelf([]);
    } else {
      StableSoFar(dbs, es, n - 1);
      StepExactly(dbs[n - 1], es[n - 1]);
    }
  }

  /**
   * Over every run of the writers, all calls up to `n` keep rows and grades throughout exactly
   * when no sync page among them lists objects that clash on a row.
   */
  lemma {:induction false} LifecycleExactlyWhen(dbs: seq<Db>, es: seq<Event>, n: nat)
    requires IsRun(dbs, es) && n <= |es|
    ensures (forall m :: 0 <= m < n ==> KeepsThroughout(dbs[m], es[m])) <==> (forall m :: 0 <= m < n ==> !Hazardous(dbs[m], es[m]))
  {
    hide Apply, Possible, Stable, GradesKept, KeepsThroughout, Hazardous;
    if n > 0 {
      LifecycleExactlyWhen(dbs, es, n - 1);
      if forall m :: 0 <= m < n - 1 ==> !Hazardous(dbs[m], es[m]) {
        StableSoFar(dbs, es, n - 1);
        StepExactly(dbs[n - 1], es[n - 1]);
      }
    }
  }

  /**
   * Over every run without such a page: verified and pending rows have a grade and a file, rows
   * that need mapping have a file and no grade, and a grade once set is never cleared.
   */
  lemma {:induction false} LifecycleHolds(dbs: seq<Db>, es: seq<Event>, m: nat, n: nat)
    requires IsRun(dbs, es) && m <= n <= |es| && forall i :: 0 <= i < n ==> !Hazardous(dbs[i], es[i])
    ensures Stable(dbs[m].docs) && Stable(dbs[n].docs) && GradesKept(dbs[m].docs, dbs[n].docs)
    decreases n
  {
    hide Apply, Possible, Stable, GradesKept, KeepsThroughout, Hazardous;
    StableSoFar(dbs, es, m);
    StableSoFar(dbs, es, n);
    if m == n {
      KeptBySelf(dbs[n].docs);
    } else {
      LifecycleHolds(dbs, es, m, n - 1);
      StepExactly(dbs[n - 1], es[n - 1]);
      GradesKeptTransitive(dbs[m].docs, dbs[n - 1].docs, dbs[n].docs);
    }
  }
}

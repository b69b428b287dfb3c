/**
 * What a bulk import makes of a workbook row: whether it creates a document at all, whether that
 * is published at once, and what the document says.
 */
module ImportOutcomes {
  import opened Prelude
  import opened Text
  import opened MatchTokens
  import opened Documents
  import opened Importer
  import Matcher
  import ObjectKeys
  import Reconcile
  import SyncOutcomes

  // ---- The file of a row -------------------------------------------------------------------------

  predicate Named(filePath: Option<string>) {
    filePath.Some? && filePath.value != "" && filePath.value != "-"
  }

  /** The archive's file for a path: under the whole path, else under its base name, else the first of that name anywhere. */
  predicate FileIs(archive: Archive, path: string, f: File) {
    var whole, base := Lower(ForwardSlashes(path)), Lower(PathBase(ForwardSlashes(path)));
    if whole in archive.byRel then f == archive.byRel[whole]
    else if base in archive.byRel then f == archive.byRel[base]
    else base in archive.byBase && archive.byBase[base] != [] && f == archive.byBase[base][0]
  }

  predicate HasFile(row: Row, archive: Archive, f: File) {
    row.IndexRow? && Named(row.filePath) && FileIs(archive, row.filePath.value, f)
  }

  lemma FileOfRow(row: Row, archive: Archive, f: File)
    ensures HasFile(row, archive, f) <==> RowFile(row, archive) == Some(f)
  {
  }

  // ---- Published at once ---------------------------------------------------------------------------

  predicate Within(part: string, s: string) {
    Contains(s, part)
  }

  /** The workbook names the application as the source, and nothing in it speaks against that. */
  predicate FromApp(row: Row) {
    && row.IndexRow?
    && var availability, source := Lower(row.availability.GetOr("")), Lower(row.source.GetOr(""));
       && (source == "app" || StartsWith(source, "app "))
       && !Within("doubtful", source) && !Within("multi-grade", source) && !Within("group/", source) && !Within("dealer", source)
       && !StartsWith(availability, "no") && !Within("image", availability) && !Within("doubtful", availability)
  }

  predicate OneGrade(m: Matcher.MatchResult) {
    m.gradeId.Some? && m.confidence != Matcher.Ambiguous
  }

  function OrUnknownName(s: string): string {
    if s != "" then s else "UNKNOWN"
  }

  /** The document a row with this match is created as. */
  predicate ImportedAs(d: Doc, row: Row, archive: Archive, m: Matcher.MatchResult, now: Time) {
    var file := RowFile(row, archive);
    && (d.status == Missing <==> file.None?)
    && (d.status == NeedsMapping <==> file.Some? && !OneGrade(m))
    && (d.status == Verified <==> file.Some? && OneGrade(m) && FromApp(row))
    && d.status != Rejected
    && d.approvedAt == (if d.status == Verified then Some(now) else None) && d.approvedBy.None?
    && d.gradeId == m.gradeId && d.revision == 1 && d.importKey == RowKey(row)
    && d.category == OrUnknownName(row.category) && d.gradeCode == OrUnknownName(row.grade)
    && d.producer == OrUnknownName(row.producer)
    && d.active && !d.deleted
    && (if file.None? then d.storageKey.None? && d.filename.None? && d.size.None? && d.uploadedAt.None?
        else
          && d.storageKey == Some(ObjectKeys.BuildKey(
               ObjectKeys.Parts(row.category, row.grade, row.producer, 1, file.value.baseName)))
          && d.filename == Some(file.value.baseName) && d.size == Some(file.value.size) && d.uploadedAt == Some(now))
  }

  lemma StatusIs(row: Row, archive: Archive, m: Matcher.MatchResult)
    ensures var p, file := PlanWith(row, archive, m), RowFile(row, archive);
            && (p.status == Missing <==> file.None?)
            && (p.status == NeedsMapping <==> file.Some? && !OneGrade(m))
            && (p.status == Verified <==> file.Some? && OneGrade(m) && FromApp(row))
            && p.status != Rejected
  {
    hide FindFile, RowKey, Lower, Contains, DecisionFor, Reconcile.MimeFromFilename, WantsFile;
    AppIsNamed();
  }

  lemma AppIsNamed()
    ensures "app" != "" && "app" != "none" && "app" != "nan"
    ensures !StartsWith("", "app ") && !StartsWith("none", "app ") && !StartsWith("nan", "app ")
  {
    assert "app "[0] == 'a' && "none"[0] == 'n';
    assert |"app "| == 4 && |"nan"| == 3;
  }

  lemma DocumentIs(row: Row, archive: Archive, m: Matcher.MatchResult, now: Time)
    requires !Fails(PlanWith(row, archive, m))
    ensures ImportedAs(ImportedDoc(PlanWith(row, archive, m), now), row, archive, m, now)
  {
    hide FindFile, RowKey, FromApp, ObjectKeys.BuildKey, InitialStatus, ClassifySourceKind, Reconcile.MimeFromFilename;
    StatusIs(row, archive, m);
  }

  // ---- Refused rows ---------------------------------------------------------------------------------

  /** The row promises a file that is not there, or matches a grade with a file of a type that is not taken. */
  predicate Refused(row: Row, archive: Archive, m: Matcher.MatchResult) {
    var file := RowFile(row, archive);
    if file.None? then row.IndexRow? && StartsWith(Lower(row.availability.GetOr("")), "yes") && Named(row.filePath)
    else OneGrade(m) && SyncOutcomes.LastPart(file.value.baseName) !in {"pdf", "jpg", "jpeg", "png", "webp"}
  }

  lemma RefusedExactlyWhen(row: Row, archive: Archive, m: Matcher.MatchResult)
    ensures Fails(PlanWith(row, archive, m)) <==> Refused(row, archive, m)
  {
    hide FindFile, RowKey, Lower, SyncOutcomes.LastPart, Reconcile.Extension;
    var file := RowFile(row, archive);
    if file.Some? {
      SyncOutcomes.ExtensionIsLastPart(file.value.baseName);
    }
  }

  // ---- A whole import -------------------------------------------------------------------------------

  ghost function MatchOf(row: Row, index: Matcher.Index): Matcher.MatchResult {
    Matcher.MatchFromIndex(index, Matcher.Input(row.category, row.grade, row.producer))
  }

  ghost predicate CameFromRow(d: Doc, rows: seq<Row>, archive: Archive, index: Matcher.Index, now: Time) {
    exists k :: 0 <= k < |rows| && !Refused(rows[k], archive, MatchOf(rows[k], index))
                && ImportedAs(d, rows[k], archive, MatchOf(rows[k], index), now)
  }

  lemma CameFromFront(d: Doc, rows: seq<Row>, archive: Archive, index: Matcher.Index, now: Time)
    requires rows != [] && CameFromRow(d, rows[..|rows| - 1], archive, index, now)
    ensures CameFromRow(d, rows, archive, index, now)
  {
    hide Refused, ImportedAs, MatchOf;
    var front := rows[..|rows| - 1];
    var k :| 0 <= k < |front| && !Refused(front[k], archive, MatchOf(front[k], index))
             && ImportedAs(d, front[k], archive, MatchOf(front[k], index), now);
    assert rows[k] == front[k];
  }

  lemma LastRowImported(st: State, row: Row, archive: Archive, index: Matcher.Index, now: Time)
    ensures var p := PlanFor(row, archive, index);
            var docs' := Import(st, p, false, now).docs;
            if FindByImport(st.docs, RowKey(row)).Some? || Refused(row, archive, MatchOf(row, index)) then docs' == st.docs
            else |docs'| == |st.docs| + 1 && docs'[..|st.docs|] == st.docs
                 && ImportedAs(docs'[|st.docs|], row, archive, MatchOf(row, index), now)
  {
    hide Import, ImportedDoc, RowKey, Refused, ImportedAs, Matcher.MatchFromIndex, DecisionFor, RowFile, Fails;
    var m := MatchOf(row, index);
    var p := PlanFor(row, archive, index);
    RefusedExactlyWhen(row, archive, m);
    ImportStep(st, p, now);
    assert p.importKey == RowKey(row);
    if Creates(st.docs, p) {
      DocumentIs(row, archive, m, now);
    }
  }

  /**
   * Over any import: rows that were there stay as they are, and every new document is that of a
   * row that was not refused. In particular it is published exactly if its file was found, one
   * grade matched, and the workbook names the application as its source.
   */
  lemma {:induction false} NewDocumentsFollowRows(docs: seq<Doc>, objects: set<string>, rows: seq<Row>, archive: Archive,
                                                  index: Matcher.Index, now: Time)
    ensures var after := ImportAll(Start(docs, objects), PlansFor(rows, archive, index), false, now).docs;
            && |docs| <= |after| && after[..|docs|] == docs
            && forall i :: |docs| <= i < |after| ==> CameFromRow(after[i], rows, archive, index, now)
  {
    hide Import, RowKey, Refused, ImportedAs, MatchOf, PlanFor, CameFromRow;
    if rows != [] {
      var front, last := rows[..|rows| - 1], rows[|rows| - 1];
      var plans := PlansFor(rows, archive, index);
      NewDocumentsFollowRows(docs, objects, front, archive, index, now);
      assert plans[..|plans| - 1] == PlansFor(front, archive, index);
      var st := ImportAll(Start(docs, objects), PlansFor(front, archive, index), false, now);
      var after := ImportAll(Start(docs, objects), plans, false, now).docs;
      LastRowImported(st, last, archive, index, now);
      assert after[..|docs|] == docs;
      forall i | |docs| <= i < |after| ensures CameFromRow(after[i], rows, archive, index, now) {
        if i < |st.docs| {
          assert after[i] == st.docs[i];
          CameFromFront(after[i], rows, archive, index, now);
        } else {
          CameFromLast(after[i], rows, archive, index, now);
        }
      }
    }
  }

  lemma CameFromLast(d: Doc, rows: seq<Row>, archive: Archive, index: Matcher.Index, now: Time)
    requires rows != []
    requires var last := rows[|rows| - 1];
             !Refused(last, archive, MatchOf(last, index)) && ImportedAs(d, last, archive, MatchOf(last, index), now)
    ensures CameFromRow(d, rows, archive, index, now)
  {
  }

  /** A key is in the table afterwards exactly if it was before, or some row with that key was not refused. */
  lemma {:induction false} ImportedExactlyWhen(docs: seq<Doc>, objects: set<string>, rows: seq<Row>, archive: Archive,
                                               index: Matcher.Index, now: Time, importKey: string)
    ensures HasKey(ImportAll(Start(docs, objects), PlansFor(rows, archive, index), false, now).docs, importKey) <==>
              HasKey(docs, importKey)
              || exists k :: 0 <= k < |rows| && RowKey(rows[k]) == importKey && !Refused(rows[k], archive, MatchOf(rows[k], index))
  {
    hide Import, RowKey, Refused, MatchOf, PlanFor, Fails, FindByImport;
    var plans := PlansFor(rows, archive, index);
    KeysAfterImport(docs, objects, plans, now, importKey);
    forall k | 0 <= k < |rows|
      ensures plans[k].importKey == RowKey(rows[k]) && (Fails(plans[k]) <==> Refused(rows[k], archive, MatchOf(rows[k], index)))
    {
      PlansAreOfRows(rows, archive, index, k);
      PlanSays(rows[k], archive, index);
    }
  }

  lemma PlanSays(row: Row, archive: Archive, index: Matcher.Index)
    ensures PlanFor(row, archive, index).importKey == RowKey(row)
    ensures Fails(PlanFor(row, archive, index)) <==> Refused(row, archive, MatchOf(row, index))
  {
    hide Refused, Matcher.MatchFromIndex, RowFile;
    RefusedExactlyWhen(row, archive, MatchOf(row, index));
  }

  // ---- The report ------------------------------------------------------------------------------------

  ghost function HowMany(rows: seq<Row>, p: Row -> bool): nat {
    if rows == [] then 0 else HowMany(rows[..|rows| - 1], p) + if p(rows[|rows| - 1]) then 1 else 0
  }

  ghost predicate Ambiguous(row: Row, index: Matcher.Index) {
    row.IndexRow? && MatchOf(row, index).confidence == Matcher.Ambiguous
  }

  ghost predicate Unmatched(row: Row, index: Matcher.Index) {
    row.IndexRow? && MatchOf(row, index).gradeId.None? && MatchOf(row, index).confidence != Matcher.Ambiguous
  }

  /** The sheet says there is a file, and names one that is not in the archive. */
  predicate LacksFile(row: Row, archive: Archive) {
    row.IndexRow? && RowFile(row, archive).None? && Named(row.filePath) && StartsWith(Lower(row.availability.GetOr("")), "yes")
  }

  predicate FindsFile(row: Row, archive: Archive) {
    RowFile(row, archive).Some?
  }

  lemma OneRowCounted(st: State, row: Row, archive: Archive, index: Matcher.Index, dryRun: bool, now: Time)
    ensures var r, r' := st.report, Import(st, PlanFor(row, archive, index), dryRun, now).report;
            && r'.exactFileMatches == r.exactFileMatches + OneIf(FindsFile(row, archive))
            && r'.missingFiles == r.missingFiles + OneIf(LacksFile(row, archive))
            && r'.ambiguousMappings == r.ambiguousMappings + OneIf(Ambiguous(row, index))
            && r'.unmatchedGrades == r.unmatchedGrades + OneIf(Unmatched(row, index))
  {
    hide FindByImport, ImportedDoc, PlanObject, Stores, Fails, RowKey, Matcher.MatchFromIndex, FindFile, IsDuplicate, InitialStatus;
  }

  /** A report, of a dry run too, counts the rows with a file, those that lack theirs, and those with no or several grades. */
  lemma {:induction false} ReportCountsRows(docs: seq<Doc>, objects: set<string>, rows: seq<Row>, archive: Archive,
                                            index: Matcher.Index, dryRun: bool, now: Time)
    ensures var r := ImportAll(Start(docs, objects), PlansFor(rows, archive, index), dryRun, now).report;
            && r.exactFileMatches == HowMany(rows, row => FindsFile(row, archive))
            && r.missingFiles == HowMany(rows, row => LacksFile(row, archive))
            && r.ambiguousMappings == HowMany(rows, row => Ambiguous(row, index))
            && r.unmatchedGrades == HowMany(rows, row => Unmatched(row, index))
  {
    hide Import, PlanFor, FindsFile, LacksFile, Ambiguous, Unmatched;
    if rows != [] {
      var front, last := rows[..|rows| - 1], rows[|rows| - 1];
      var plans := PlansFor(rows, archive, index);
      ReportCountsRows(docs, objects, front, archive, index, dryRun, now);
      assert plans[..|plans| - 1] == PlansFor(front, archive, index);
      OneRowCounted(ImportAll(Start(docs, objects), PlansFor(front, archive, index), dryRun, now), last, archive, index, dryRun, now);
    }
  }
}

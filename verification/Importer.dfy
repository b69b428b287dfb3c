/**
 * The bulk import of the TDS library: every workbook row is planned, then counted and turned
 * into at most one document row.
 */
module Importer {
  import opened Prelude
  import opened Text
  import opened MatchTokens
  import opened Documents
  import Matcher
  import ObjectKeys
  import Reconcile

  datatype SourceKind = App | Web | WebDealer | WebMultiGrade | WebDoubtful | Image | Other | Unknown

  function ClassifySourceKind(availability: Option<string>, source: Option<string>): SourceKind {
    var a, s := Lower(availability.GetOr("")), Lower(source.GetOr(""));
    if s == "" || s == "none" || s == "nan" || StartsWith(a, "no") then Unknown
    else if Contains(a, "image") then Image
    else if Contains(s, "doubtful") || Contains(a, "doubtful") then WebDoubtful
    else if Contains(s, "multi-grade") || Contains(s, "group/") then WebMultiGrade
    else if Contains(s, "dealer") then WebDealer
    else if s == "app" || StartsWith(s, "app ") then App
    else if StartsWith(s, "web") then Web
    else Other
  }

  function InitialStatus(kind: SourceKind, hasFile: bool, gradeMatched: bool, ambiguous: bool): Status {
    if !hasFile then Missing
    else if ambiguous || !gradeMatched then NeedsMapping
    else if kind == App then Verified
    else PendingReview
  }

  // ---- Rows, files and plans --------------------------------------------------------------

  /** A row of the index sheet, or of the sheet of missing documents. */
  datatype Row =
    | IndexRow(category: string, grade: string, producer: string, availability: Option<string>, source: Option<string>, filePath: Option<string>)
    | MissingRow(category: string, grade: string, producer: string)

  datatype File = File(path: string, baseName: string, size: nat, checksum: string)

  /** The unpacked archive, by lower-cased relative path and by lower-cased base name. */
  datatype Archive = Archive(byRel: map<string, File>, byBase: map<string, seq<File>>)

  datatype Decision = UploadFile | MissingRecord | SkipNoFile | SkipInvalid | AmbiguousGrade | UnmatchedGrade

  datatype Plan = Plan(
    row: Row, importKey: string, decision: Decision, match_: Matcher.MatchResult, status: Status,
    file: Option<File>, mime: Option<string>, wantsFile: bool)

  function AfterLastSlash(p: string): string {
    if p == "" || p[|p| - 1] == '/' then "" else AfterLastSlash(p[..|p| - 1]) + [p[|p| - 1]]
  }

  function PathBase(p: string): string {
    AfterLastSlash(StripSlashes(p))
  }

  function FindFile(archive: Archive, filePath: string): Option<File> {
    var normalized := ForwardSlashes(filePath);
    var base := PathBase(normalized);
    if Lower(normalized) in archive.byRel then Some(archive.byRel[Lower(normalized)])
    else if Lower(base) in archive.byRel then Some(archive.byRel[Lower(base)])
    else if Lower(base) in archive.byBase && archive.byBase[Lower(base)] != [] then Some(archive.byBase[Lower(base)][0])
    else None
  }

  predicate NamesFile(filePath: Option<string>) {
    filePath.Some? && filePath.value != "" && filePath.value != "-"
  }

  function RowKey(row: Row): string {
    match row
    case IndexRow(c, g, p, _, _, filePath) =>
      BuildImportKey(c, g, p, if NamesFile(filePath) then filePath.value else "missing:" + g)
    case MissingRow(c, g, p) => BuildImportKey(c, g, p, "missing-sheet:" + NormalizeMatchToken(g))
  }

  function WantsFile(row: Row): bool {
    row.IndexRow? && StartsWith(Lower(row.availability.GetOr("")), "yes")
  }

  function DecisionFor(row: Row, file: Option<File>, m: Matcher.MatchResult): Decision {
    if file.None? then (if row.IndexRow? && WantsFile(row) && NamesFile(row.filePath) then SkipNoFile else MissingRecord)
    else if m.confidence == Matcher.Ambiguous then AmbiguousGrade
    else if m.gradeId.None? then UnmatchedGrade
    else if !IsAllowedMime(Reconcile.MimeFromFilename(file.value.baseName)) then SkipInvalid
    else UploadFile
  }

  function RowFile(row: Row, archive: Archive): Option<File> {
    if row.IndexRow? && NamesFile(row.filePath) then FindFile(archive, row.filePath.value) else None
  }

  function PlanWith(row: Row, archive: Archive, m: Matcher.MatchResult): Plan {
    var file := RowFile(row, archive);
    var status := if row.MissingRow? then Missing
                  else InitialStatus(ClassifySourceKind(row.availability, row.source), file.Some?, m.gradeId.Some?,
                                     m.confidence == Matcher.Ambiguous);
    Plan(row, RowKey(row), DecisionFor(row, file, m), m, status, file,
         if file.Some? then Some(Reconcile.MimeFromFilename(file.value.baseName)) else None, WantsFile(row))
  }

  ghost function PlanFor(row: Row, archive: Archive, index: Matcher.Index): Plan {
    PlanWith(row, archive, Matcher.MatchFromIndex(index, Matcher.Input(row.category, row.grade, row.producer)))
  }

  ghost function PlansFor(rows: seq<Row>, archive: Archive, index: Matcher.Index): (plans: seq<Plan>)
    ensures |plans| == |rows|
  {
    if rows == [] then [] else PlansFor(rows[..|rows| - 1], archive, index) + [PlanFor(rows[|rows| - 1], archive, index)]
  }

  // ---- Counting and creating ------------------------------------------------------------------

  datatype Report = Report(
    rows: seq<Plan>, exactFileMatches: nat, missingFiles: nat, duplicateChecksums: nat, ambiguousMappings: nat,
    unmatchedGrades: nat, uploaded: nat, skippedExisting: nat, missingRecords: nat, failed: nat)

  datatype State = State(
    docs: seq<Doc>, objects: set<string>, report: Report, checksumSeen: map<string, string>, matchedArchive: set<string>)

  const EMPTY_REPORT: Report := Report([], 0, 0, 0, 0, 0, 0, 0, 0, 0)

  function Start(docs: seq<Doc>, objects: set<string>): State {
    State(docs, objects, EMPTY_REPORT, map[], {})
  }

  function OneIf(b: bool): nat { if b then 1 else 0 }

  predicate IsDuplicate(seen: map<string, string>, p: Plan) {
    p.file.Some? && p.file.value.checksum in seen && seen[p.file.value.checksum] != "" && seen[p.file.value.checksum] != p.importKey
  }

  /** The counters every row moves, before anything is stored. */
  function Counted(st: State, p: Plan): State {
    var r := st.report;
    var r' := r.(rows := r.rows + [p]);
    if p.row.MissingRow? then st.(report := r'.(missingRecords := r.missingRecords + 1))
    else
      st.(report := r'.(exactFileMatches := r.exactFileMatches + OneIf(p.file.Some?),
                        missingFiles := r.missingFiles + OneIf(p.file.None? && NamesFile(p.row.filePath) && p.wantsFile),
                        ambiguousMappings := r.ambiguousMappings + OneIf(p.match_.confidence == Matcher.Ambiguous),
                        unmatchedGrades := r.unmatchedGrades + OneIf(p.match_.gradeId.None? && p.match_.confidence != Matcher.Ambiguous),
                        duplicateChecksums := r.duplicateChecksums + OneIf(IsDuplicate(st.checksumSeen, p))),
          checksumSeen := if p.file.Some? && !IsDuplicate(st.checksumSeen, p)
                          then st.checksumSeen[p.file.value.checksum := p.importKey] else st.checksumSeen,
          matchedArchive := st.matchedArchive + if p.file.Some? then {p.file.value.path} else {})
  }

  predicate Fails(p: Plan) {
    p.decision == SkipNoFile || p.decision == SkipInvalid
  }

  predicate Stores(p: Plan) {
    p.file.Some? && (p.decision == UploadFile || p.decision == AmbiguousGrade || p.decision == UnmatchedGrade)
  }

  function OrUnknown(s: string): string {
    if s == "" then "UNKNOWN" else s
  }

  function PlanObject(p: Plan): Option<string> {
    if Stores(p)
    then Some(ObjectKeys.BuildKey(ObjectKeys.Parts(p.row.category, p.row.grade, p.row.producer, 1, p.file.value.baseName)))
    else None
  }

  function ImportedDoc(p: Plan, now: Time): Doc {
    Doc(p.importKey, p.match_.gradeId, PlanObject(p), p.status, 1, Auto(p.match_.confidence),
        OrUnknown(p.row.category), OrUnknown(p.row.grade), OrUnknown(p.row.producer),
        if p.file.Some? then Some(p.file.value.baseName) else None, p.mime, if p.file.Some? then Some(p.file.value.size) else None,
        if p.status == Verified then Some(now) else None, None, None, None,
        if Stores(p) then Some(now) else None, None, [], true, false)
  }

  /** One row: counted, then skipped, failed or created. A dry run only counts. */
  function Import(st: State, p: Plan, dryRun: bool, now: Time): State {
    var c := Counted(st, p);
    var r := c.report;
    if dryRun then
      if p.row.IndexRow? && p.decision == MissingRecord then c.(report := r.(missingRecords := r.missingRecords + 1)) else c
    else if FindByImport(c.docs, p.importKey).Some? then c.(report := r.(skippedExisting := r.skippedExisting + 1))
    else if Fails(p) then c.(report := r.(failed := r.failed + 1))
    else
      c.(docs := c.docs + [ImportedDoc(p, now)],
         objects := c.objects + (if PlanObject(p).Some? then {PlanObject(p).value} else {}),
         report := r.(uploaded := r.uploaded + OneIf(Stores(p)),
                      missingRecords := r.missingRecords + OneIf(p.row.IndexRow? && p.decision == MissingRecord)))
  }

  function ImportAll(st: State, plans: seq<Plan>, dryRun: bool, now: Time): State {
    if plans == [] then st else Import(ImportAll(st, plans[..|plans| - 1], dryRun, now), plans[|plans| - 1], dryRun, now)
  }

  /** How many rows a limit lets through. */
  function Capped(total: nat, limit: Option<int>): nat {
    if limit.Some? && limit.value < total then (if limit.value < 0 then 0 else limit.value) else total
  }

  // ---- What an import does to the table ---------------------------------------------------------

  predicate Creates(docs: seq<Doc>, p: Plan) {
    FindByImport(docs, p.importKey).None? && !Fails(p)
  }

  /** Exactly one of three things happens to a row that is really imported. */
  lemma ImportStep(st: State, p: Plan, now: Time)
    ensures var n, r := Import(st, p, false, now), st.report;
            && n.report.rows == r.rows + [p]
            && n.docs == st.docs + (if Creates(st.docs, p) then [ImportedDoc(p, now)] else [])
            && n.objects == st.objects + (if Creates(st.docs, p) && PlanObject(p).Some? then {PlanObject(p).value} else {})
            && n.report.skippedExisting == r.skippedExisting + OneIf(FindByImport(st.docs, p.importKey).Some?)
            && n.report.failed == r.failed + OneIf(FindByImport(st.docs, p.importKey).None? && Fails(p))
            && n.report.uploaded == r.uploaded + OneIf(Creates(st.docs, p) && Stores(p))
  {
    hide ImportedDoc, PlanObject, Stores;
  }

  /** Rows of the table plus rows skipped plus rows failed. */
  function Balance(st: State): nat {
    |st.docs| + st.report.skippedExisting + st.report.failed
  }

  lemma BalanceStep(st: State, p: Plan, now: Time)
    ensures var n := Import(st, p, false, now);
            Balance(n) == Balance(st) + 1 && st.docs <= n.docs && n.report.rows == st.report.rows + [p]
  {
    ImportStep(st, p, now);
  }

  /** Rows created are the manifest rows minus those skipped as existing minus those failed. */
  lemma {:induction false} RowsAreConserved(docs: seq<Doc>, objects: set<string>, plans: seq<Plan>, now: Time)
    ensures var st := ImportAll(Start(docs, objects), plans, false, now);
            && st.report.rows == plans && docs <= st.docs
            && |st.docs| + st.report.skippedExisting + st.report.failed == |docs| + |plans|
  {
    hide Import;
    if plans != [] {
      var front := plans[..|plans| - 1];
      RowsAreConserved(docs, objects, front, now);
      BalanceStep(ImportAll(Start(docs, objects), front, false, now), plans[|plans| - 1], now);
      assert plans == front + [plans[|plans| - 1]];
    }
  }

  /** A dry run counts the rows and touches nothing else. */
  lemma {:induction false} DryRunTouchesNothing(docs: seq<Doc>, objects: set<string>, plans: seq<Plan>, now: Time)
    ensures var st := ImportAll(Start(docs, objects), plans, true, now);
            && st.docs == docs && st.objects == objects && st.report.rows == plans
            && st.report.uploaded == 0 && st.report.skippedExisting == 0 && st.report.failed == 0
  {
    hide ImportedDoc, PlanObject, FindByImport, Fails;
    if plans != [] {
      DryRunTouchesNothing(docs, objects, plans[..|plans| - 1], now);
    }
  }

  /** Import keys stay unique. */
  lemma {:induction false} KeysStayUnique(docs: seq<Doc>, objects: set<string>, plans: seq<Plan>, now: Time)
    requires UniqueImportKeys(docs)
    ensures UniqueImportKeys(ImportAll(Start(docs, objects), plans, false, now).docs)
  {
    if plans != [] {
      KeysStayUnique(docs, objects, plans[..|plans| - 1], now);
    }
  }

  function StoredCount(docs: seq<Doc>): nat {
    if docs == [] then 0 else StoredCount(docs[..|docs| - 1]) + OneIf(docs[|docs| - 1].storageKey.Some?)
  }

  lemma StoredAppend(docs: seq<Doc>, d: Doc)
    ensures StoredCount(docs + [d]) == StoredCount(docs) + OneIf(d.storageKey.Some?)
  {
    assert (docs + [d])[..|docs|] == docs;
  }

  /** The files of all rows from position `from` on are in the store. */
  ghost predicate FilesStored(st: State, from: nat) {
    forall i :: from <= i < |st.docs| && st.docs[i].storageKey.Some? ==> st.docs[i].storageKey.value in st.objects
  }

  lemma StoredStep(st: State, p: Plan, now: Time, from: nat)
    requires FilesStored(st, from)
    ensures var n := Import(st, p, false, now);
            && FilesStored(n, from) && st.objects <= n.objects
            && StoredCount(n.docs) + st.report.uploaded == StoredCount(st.docs) + n.report.uploaded
  {
    hide Import, ObjectKeys.BuildKey;
    ImportStep(st, p, now);
    if Creates(st.docs, p) {
      StoredAppend(st.docs, ImportedDoc(p, now));
    } else {
      assert Import(st, p, false, now).docs == st.docs;
    }
  }

  /** The upload counter is the number of new rows with a file, and every such file is in the store. */
  lemma {:induction false} UploadsAreStored(docs: seq<Doc>, objects: set<string>, plans: seq<Plan>, now: Time)
    ensures var st := ImportAll(Start(docs, objects), plans, false, now);
            && StoredCount(st.docs) == StoredCount(docs) + st.report.uploaded
            && objects <= st.objects && FilesStored(st, |docs|)
  {
    if plans != [] {
      var front, last := plans[..|plans| - 1], plans[|plans| - 1];
      UploadsAreStored(docs, objects, front, now);
      StoredStep(ImportAll(Start(docs, objects), front, false, now), last, now, |docs|);
    }
  }

  // ---- Importing again --------------------------------------------------------------------------------

  predicate HasKey(docs: seq<Doc>, importKey: string) {
    FindByImport(docs, importKey).Some?
  }

  /** Some planned row with the key is not refused. */
  ghost predicate Brings(plans: seq<Plan>, importKey: string) {
    exists i :: 0 <= i < |plans| && plans[i].importKey == importKey && !Fails(plans[i])
  }

  lemma HasKeyExactlyWhen(docs: seq<Doc>, importKey: string)
    ensures HasKey(docs, importKey) <==> exists i :: 0 <= i < |docs| && docs[i].importKey == importKey
  {
  }

  lemma ImportAddsKey(st: State, p: Plan, now: Time, importKey: string)
    ensures HasKey(Import(st, p, false, now).docs, importKey) <==>
              HasKey(st.docs, importKey) || (p.importKey == importKey && !Fails(p))
  {
    hide Import;
    ImportStep(st, p, now);
    var docs, docs' := st.docs, Import(st, p, false, now).docs;
    HasKeyExactlyWhen(docs, importKey);
    HasKeyExactlyWhen(docs', importKey);
    if Creates(docs, p) {
      assert docs'[|docs|].importKey == p.importKey;
      assert forall i :: 0 <= i < |docs| ==> docs'[i] == docs[i];
    } else {
      assert docs' == docs;
    }
  }

  lemma BringsStep(plans: seq<Plan>, importKey: string)
    requires plans != []
    ensures var front, last := plans[..|plans| - 1], plans[|plans| - 1];
            Brings(plans, importKey) <==> Brings(front, importKey) || (last.importKey == importKey && !Fails(last))
  {
    var front := plans[..|plans| - 1];
    if Brings(front, importKey) {
      var i :| 0 <= i < |front| && front[i].importKey == importKey && !Fails(front[i]);
      assert plans[i] == front[i];
    }
    if Brings(plans, importKey) {
      var i :| 0 <= i < |plans| && plans[i].importKey == importKey && !Fails(plans[i]);
      assert i < |front| ==> front[i] == plans[i];
    }
  }

  /** The import keys after an import are those before and those of the rows that are not refused. */
  lemma {:induction false} KeysAfterImport(docs: seq<Doc>, objects: set<string>, plans: seq<Plan>, now: Time, importKey: string)
    ensures HasKey(ImportAll(Start(docs, objects), plans, false, now).docs, importKey) <==> HasKey(docs, importKey) || Brings(plans, importKey)
  {
    hide Import, HasKey, Brings;
    if plans == [] {
      NothingBrings(importKey);
    } else {
      var front := plans[..|plans| - 1];
      KeysAfterImport(docs, objects, front, now, importKey);
      ImportAddsKey(ImportAll(Start(docs, objects), front, false, now), plans[|plans| - 1], now, importKey);
      BringsStep(plans, importKey);
    }
  }

  lemma NothingBrings(importKey: string)
    ensures !Brings([], importKey)
  {
  }

  lemma {:induction false} KnownKeysCreateNothing(docs: seq<Doc>, objects: set<string>, plans: seq<Plan>, now: Time)
    requires forall i :: 0 <= i < |plans| ==> Fails(plans[i]) || HasKey(docs, plans[i].importKey)
    ensures var st := ImportAll(Start(docs, objects), plans, false, now); st.docs == docs && st.objects == objects
  {
    hide Import, Fails;
    if plans != [] {
      var front := plans[..|plans| - 1];
      KnownKeysCreateNothing(docs, objects, front, now);
      ImportStep(ImportAll(Start(docs, objects), front, false, now), plans[|plans| - 1], now);
    }
  }

  /** The row was refused for its file's type by the first import, and is not by the second. */
  predicate Reprieved(first: Plan, again: Plan) {
    first.decision == SkipInvalid && !Fails(again)
  }

  lemma SameRowPlans(row: Row, archive: Archive, m: Matcher.MatchResult, m': Matcher.MatchResult)
    ensures var p, q := PlanWith(row, archive, m), PlanWith(row, archive, m');
            p.importKey == q.importKey == RowKey(row) && (p.decision == SkipNoFile <==> q.decision == SkipNoFile)
  {
  }

  lemma {:induction false} PlansAreOfRows(rows: seq<Row>, archive: Archive, index: Matcher.Index, i: nat)
    requires i < |rows|
    ensures PlansFor(rows, archive, index)[i] == PlanFor(rows[i], archive, index)
  {
    if i < |rows| - 1 {
      PlansAreOfRows(rows[..|rows| - 1], archive, index, i);
    }
  }

  lemma PlansForSameRows(rows: seq<Row>, archive: Archive, index: Matcher.Index, index': Matcher.Index, i: nat)
    requires i < |rows|
    ensures var p, q := PlansFor(rows, archive, index)[i], PlansFor(rows, archive, index')[i];
            p.importKey == q.importKey == RowKey(rows[i]) && (p.decision == SkipNoFile <==> q.decision == SkipNoFile)
  {
    hide RowKey, PlanWith, PlansFor;
    PlansAreOfRows(rows, archive, index, i);
    PlansAreOfRows(rows, archive, index', i);
    var input := Matcher.Input(rows[i].category, rows[i].grade, rows[i].producer);
    SameRowPlans(rows[i], archive, Matcher.MatchFromIndex(index, input), Matcher.MatchFromIndex(index', input));
  }

  predicate Matches(m: Matcher.MatchResult) {
    m.gradeId.Some? && m.confidence != Matcher.Ambiguous
  }

  /** A row is reprieved exactly when its file has a refused type and its grade was found then and is not now. */
  lemma ReprievedExactlyWhen(row: Row, archive: Archive, m: Matcher.MatchResult, m': Matcher.MatchResult)
    ensures Reprieved(PlanWith(row, archive, m), PlanWith(row, archive, m')) <==>
              var file := RowFile(row, archive);
              && file.Some? && !IsAllowedMime(Reconcile.MimeFromFilename(file.value.baseName))
              && Matches(m) && !Matches(m')
  {
    hide RowKey, RowFile, ClassifySourceKind, Reconcile.MimeFromFilename, IsAllowedMime;
  }

  /**
   * Importing the same workbook and archive again, whatever has happened to the catalogue in
   * between, adds exactly the import keys of the reprieved rows; so it creates nothing and
   * uploads nothing exactly when these keys are there already.
   */
  lemma RerunCreatesExactly(rows: seq<Row>, archive: Archive, index: Matcher.Index, index': Matcher.Index,
                            docs: seq<Doc>, objects: set<string>, now: Time, later: Time, importKey: string)
    ensures var p, q := PlansFor(rows, archive, index), PlansFor(rows, archive, index');
            var first := ImportAll(Start(docs, objects), p, false, now);
            var second := ImportAll(Start(first.docs, first.objects), q, false, later);
            && (HasKey(second.docs, importKey) <==>
                  HasKey(first.docs, importKey) || exists i :: 0 <= i < |rows| && RowKey(rows[i]) == importKey && Reprieved(p[i], q[i]))
            && (second.docs == first.docs && second.objects == first.objects <==>
                  forall i :: 0 <= i < |rows| && Reprieved(p[i], q[i]) ==> HasKey(first.docs, RowKey(rows[i])))
  {
    hide ImportAll, PlansFor, HasKey, RowKey;
    var p, q := PlansFor(rows, archive, index), PlansFor(rows, archive, index');
    var first := ImportAll(Start(docs, objects), p, false, now);
    var second := ImportAll(Start(first.docs, first.objects), q, false, later);
    forall i | 0 <= i < |rows|
      ensures p[i].importKey == q[i].importKey == RowKey(rows[i])
      ensures !Fails(q[i]) ==> HasKey(first.docs, RowKey(rows[i])) || Reprieved(p[i], q[i])
      ensures Reprieved(p[i], q[i]) ==> HasKey(second.docs, RowKey(rows[i]))
    {
      PlansForSameRows(rows, archive, index, index', i);
      KeysAfterImport(docs, objects, p, now, RowKey(rows[i]));
      KeysAfterImport(first.docs, first.objects, q, later, RowKey(rows[i]));
    }
    KeysAfterImport(first.docs, first.objects, q, later, importKey);
    if forall i :: 0 <= i < |rows| && Reprieved(p[i], q[i]) ==> HasKey(first.docs, RowKey(rows[i])) {
      KnownKeysCreateNothing(first.docs, first.objects, q, later);
    }
  }

  /** With the same answers from the matcher, importing again creates no row and uploads nothing. */
  lemma RerunCreatesNothing(docs: seq<Doc>, objects: set<string>, plans: seq<Plan>, now: Time, later: Time)
    ensures var first := ImportAll(Start(docs, objects), plans, false, now);
            var second := ImportAll(Start(first.docs, first.objects), plans, false, later);
            second.docs == first.docs && second.objects == first.objects
  {
    hide ImportAll, HasKey;
    var first := ImportAll(Start(docs, objects), plans, false, now);
    forall i | 0 <= i < |plans| ensures Fails(plans[i]) || HasKey(first.docs, plans[i].importKey) {
      KeysAfterImport(docs, objects, plans, now, plans[i].importKey);
    }
    KnownKeysCreateNothing(first.docs, first.objects, plans, later);
  }

  /** A created row satisfies the row invariant: this is where "ambiguous" must name no grade. */
  lemma ImportedDocOk(row: Row, archive: Archive, m: Matcher.MatchResult, now: Time)
    requires m.gradeId.Some? ==> m.confidence != Matcher.Ambiguous
    requires !Fails(PlanWith(row, archive, m))
    ensures var d := ImportedDoc(PlanWith(row, archive, m), now); DocOk(d) && d.importKey == RowKey(row) != ""
  {
    assert RowKey(row) != "";
  }

  // ---- The import as it runs -----------------------------------------------------------------------

  class TdsImport {
    var st: State

    constructor (docs: seq<Doc>, objects: set<string>)
      ensures st == Start(docs, objects)
    {
      st := Start(docs, objects);
    }

    method CountIndexRow(p: Plan)
      requires p.row.IndexRow?
      modifies this
      ensures st == Counted(old(st), p)
    {
      var r := st.report;
      if p.file.Some? {
        st := st.(matchedArchive := st.matchedArchive + {p.file.value.path});
        r := r.(exactFileMatches := r.exactFileMatches + 1);
      } else if NamesFile(p.row.filePath) && p.wantsFile {
        r := r.(missingFiles := r.missingFiles + 1);
      }
      if p.match_.confidence == Matcher.Ambiguous {
        r := r.(ambiguousMappings := r.ambiguousMappings + 1);
      } else if p.match_.gradeId.None? {
        r := r.(unmatchedGrades := r.unmatchedGrades + 1);
      }
      if p.file.Some? {
        if IsDuplicate(st.checksumSeen, p) {
          r := r.(duplicateChecksums := r.duplicateChecksums + 1);
        } else {
          st := st.(checksumSeen := st.checksumSeen[p.file.value.checksum := p.importKey]);
        }
      }
      st := st.(report := r.(rows := r.rows + [p]));
    }

    /** `processIndexRow` behind the planning. */
    method ProcessIndexRow(p: Plan, dryRun: bool, now: Time)
      requires p.row.IndexRow?
      modifies this
      ensures st == Import(old(st), p, dryRun, now)
    {
      hide ImportedDoc, Counted, Fails, Stores;
      CountIndexRow(p);
      var r := st.report;
      if dryRun {
        if p.decision == MissingRecord {
          st := st.(report := r.(missingRecords := r.missingRecords + 1));
        }
        return;
      }
      if FindByImport(st.docs, p.importKey).Some? {
        st := st.(report := r.(skippedExisting := r.skippedExisting + 1));
        return;
      }
      if Fails(p) {
        st := st.(report := r.(failed := r.failed + 1));
        return;
      }
      if Stores(p) {
        st := st.(objects := st.objects + {PlanObject(p).value});
        r := r.(uploaded := r.uploaded + 1);
      }
      if p.decision == MissingRecord {
        r := r.(missingRecords := r.missingRecords + 1);
      }
      st := st.(docs := st.docs + [ImportedDoc(p, now)], report := r);
    }

    /** The body of the loop over the sheet of missing documents. */
    method ProcessMissingRow(p: Plan, dryRun: bool, now: Time)
      requires p.row.MissingRow? && p.file.None? && !Fails(p)
      modifies this
      ensures st == Import(old(st), p, dryRun, now)
    {
      var r := st.report;
      r := r.(rows := r.rows + [p], missingRecords := r.missingRecords + 1);
      st := st.(report := r);
      if dryRun {
        return;
      }
      if FindByImport(st.docs, p.importKey).Some? {
        st := st.(report := r.(skippedExisting := r.skippedExisting + 1));
        return;
      }
      st := st.(docs := st.docs + [ImportedDoc(p, now)]);
    }

    /** The loop over the planned index rows. */
    method ImportIndexSheet(plans: seq<Plan>, limit: Option<int>, dryRun: bool, now: Time) returns (processed: nat)
      requires forall p :: p in plans ==> p.row.IndexRow?
      modifies this
      ensures processed == Capped(|plans|, limit)
      ensures st == ImportAll(old(st), plans[..processed], dryRun, now)
    {
      hide Import;
      processed := 0;
      while processed < |plans|
        invariant processed <= Capped(|plans|, limit)
        invariant st == ImportAll(old(st), plans[..processed], dryRun, now)
      {
        if limit.Some? && processed >= limit.value {
          break;
        }
        ProcessIndexRow(plans[processed], dryRun, now);
        ImportAllNext(old(st), plans, processed, dryRun, now);
        processed := processed + 1;
      }
    }

    /** The loop over the planned rows of the missing sheet, under what the limit has left. */
    method ImportMissingSheet(plans: seq<Plan>, before: nat, limit: Option<int>, dryRun: bool,
          now: Time) returns (done: nat)
      requires forall p :: p in plans ==> p.row.MissingRow? && p.file.None? && !Fails(p)
      modifies this
      ensures done == Capped(|plans|, Left(limit, before))
      ensures st == ImportAll(old(st), plans[..done], dryRun, now)
    {
      hide Import;
      var processed := before;
      done := 0;
      while done < |plans|
        invariant done <= Capped(|plans|, Left(limit, before)) && processed == before + done
        invariant st == ImportAll(old(st), plans[..done], dryRun, now)
      {
        if limit.Some? && processed >= limit.value {
          break;
        }
        ProcessMissingRow(plans[done], dryRun, now);
        ImportAllNext(old(st), plans, done, dryRun, now);
        processed, done := processed + 1, done + 1;
      }
    }

    /** Both row loops under one shared limit. */
    method ImportRows(indexPlans: seq<Plan>, missingPlans: seq<Plan>, limit: Option<int>, dryRun: bool, now: Time)
      requires forall p :: p in indexPlans ==> p.row.IndexRow?
      requires forall p :: p in missingPlans ==> p.row.MissingRow? && p.file.None? && !Fails(p)
      modifies this
      ensures var all := indexPlans + missingPlans;
              st == ImportAll(old(st), all[..Capped(|all|, limit)], dryRun, now)
    {
      var processed := ImportIndexSheet(indexPlans, limit, dryRun, now);
      var done := ImportMissingSheet(missingPlans, processed, limit, dryRun, now);
      ImportAllConcat(old(st), indexPlans[..processed], missingPlans[..done], dryRun, now);
      CappedSplit(indexPlans, missingPlans, limit);
    }
  }

  lemma CappedSplit(a: seq<Plan>, b: seq<Plan>, limit: Option<int>)
    ensures var m := Capped(|a|, limit);
            var n := Capped(|b|, Left(limit, m));
            (a + b)[..Capped(|a + b|, limit)] == a[..m] + b[..n]
  {
    var m := Capped(|a|, limit);
    assert Capped(|a + b|, limit) == m + Capped(|b|, Left(limit, m));
  }

  function Left(limit: Option<int>, used: nat): Option<int> {
    if limit.Some? then Some(limit.value - used) else None
  }

  lemma {:induction false} ImportAllConcat(start: State, a: seq<Plan>, b: seq<Plan>, dryRun: bool, now: Time)
    ensures ImportAll(start, a + b, dryRun, now) == ImportAll(ImportAll(start, a, dryRun, now), b, dryRun, now)
  {
    hide Import;
    if b == [] {
      assert a + b == a;
    } else {
      ImportAllConcat(start, a, b[..|b| - 1], dryRun, now);
      assert (a + b)[..|a + b| - 1] == a + b[..|b| - 1];
    }
  }

  lemma ImportAllNext(start: State, plans: seq<Plan>, n: nat, dryRun: bool, now: Time)
    requires n < |plans|
    ensures ImportAll(start, plans[..n + 1], dryRun, now) == Import(ImportAll(start, plans[..n], dryRun, now), plans[n], dryRun, now)
  {
    assert plans[..n + 1][..n] == plans[..n];
  }

  method PlanRow(row: Row, archive: Archive, index: Matcher.Index, ghost grades: seq<Matcher.Grade>) returns (p: Plan)
    requires Matcher.DistinctIds(grades) && index == Matcher.BuildIndex(grades)
    ensures p == PlanFor(row, archive, index)
  {
    var m := Matcher.MatchGradeFromIndex(index, Matcher.Input(row.category, row.grade, row.producer), grades);
    p := PlanWith(row, archive, m);
  }

  /** Planning a sheet: each row is matched against the grades and looked up in the archive. */
  method PlanRows(rows: seq<Row>, archive: Archive, index: Matcher.Index,
        ghost grades: seq<Matcher.Grade>) returns (plans: seq<Plan>)
    requires Matcher.DistinctIds(grades) && index == Matcher.BuildIndex(grades)
    ensures plans == PlansFor(rows, archive, index)
  {
    plans := [];
    for i := 0 to |rows|
      invariant plans == PlansFor(rows[..i], archive, index)
    {
      var p := PlanRow(rows[i], archive, index, grades);
      assert rows[..i + 1][..i] == rows[..i];
      plans := plans + [p];
    }
    assert rows[..|rows|] == rows;
  }

  /** What the row loops rely on: plans are for their rows, and rows of the missing sheet name no file and never fail. */
  lemma {:induction false} MissingPlansNeverFail(rows: seq<Row>, archive: Archive, index: Matcher.Index, i: nat)
    requires i < |rows|
    ensures var p := PlansFor(rows, archive, index)[i];
            p.row == rows[i] && (rows[i].MissingRow? ==> p.file.None? && p.status == Missing && !Fails(p))
  {
    if i < |rows| - 1 {
      MissingPlansNeverFail(rows[..|rows| - 1], archive, index, i);
    }
  }
}

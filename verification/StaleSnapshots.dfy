/**
 * What the stale snapshot of a sync page does to tables that the services themselves produce:
 * a row can lose its grade, and a replaced file can come back as a second row. Whether it does
 * depends on the order in which the storage lists the two objects concerned.
 */
module StaleSnapshots {
  import opened Prelude
  import opened Text
  import opened MatchTokens
  import opened Documents
  import opened Reconcile
  import opened Lifecycle
  import opened PageSplits
  import opened KeyOrder
  import Importer
  import Matcher
  import ObjectKeys

  // ---- A grade is lost -------------------------------------------------------------------------

  /** Two entries that clash on a row that needs mapping leave it published, or pending, without a grade. */
  lemma ClashLosesGrade(db: Db, a: Entry, b: Entry, s: Settings, now: Time, i: nat)
    requires Table(db.docs) && EntryOk(a) && EntryOk(b) && Clash(db.docs, [a, b], 0, 1, i) && db.docs[i].status == NeedsMapping
    ensures var d := ReconcilePage(db, [a, b], s, now).docs;
            |d| == |db.docs| && d[i].gradeId.None? && d[i].status == if s.autoVerify then Verified else PendingReview
  {
    PageOfTwo(db, a, b, s, now);
    assert FindByImport(db.docs, a.importKey) == Some(i);
    var row := Updated(db.docs[i], db.docs[i], a, s, now);
    assert Process(db, db.docs, a, s, now).docs == db.docs[i := row];
    assert row.status == if s.autoVerify then Verified else PendingReview;
    var last := Updated(row, db.docs[i], b, s, now);
    assert last.gradeId.None? && last.status == row.status;
  }

  lemma ListedPair(a: Object, b: Object, grades: seq<Matcher.Grade>)
    requires Relevant(a) && Relevant(b)
    ensures Listed([a, b], grades) == [EntryOf(Matcher.BuildIndex(grades), a), EntryOf(Matcher.BuildIndex(grades), b)]
  {
    hide EntryOf, Relevant;
    var index := Matcher.BuildIndex(grades);
    assert [a, b][..1] == [a] && [a][..0] == [];
    assert Entries(index, []) == [] && Entries(index, [a]) == [] + [EntryOf(index, a)];
  }

  lemma EmptyCatalogueMatchesNothing(input: Matcher.Input)
    ensures Matcher.MatchFromIndex(Matcher.BuildIndex([]), input) == Matcher.MatchResult(None, Matcher.NoMatch)
  {
    hide ProducerAliasTokens, NormalizeMatchToken;
    var number, index := NormalizeMatchToken(input.grade), Matcher.BuildIndex([]);
    assert Matcher.Hits(index, number, ProducerAliasTokens(input.producer)) == {};
    assert Matcher.ToSet(Matcher.At(index.byGradeOnly, number)) == {};
  }

  function RowParts(row: Importer.Row, file: Importer.File): ObjectKeys.Parts {
    ObjectKeys.Parts(row.category, row.grade, row.producer, 1, file.baseName)
  }

  /** The path a workbook would name if the file lay under its unsanitized key. */
  function RawKey(row: Importer.Row, file: Importer.File): string {
    Join(["tds", row.category, row.grade, row.producer, "v" + ObjectKeys.Decimal(1), file.baseName], '/')
  }

  predicate Segments(row: Importer.Row, file: Importer.File) {
    && ObjectKeys.IsSegment(row.category) && ObjectKeys.IsSegment(row.grade) && ObjectKeys.IsSegment(row.producer)
    && ObjectKeys.IsSegment(file.baseName)
  }

  /** Importing a file while the catalogue lacks its grade: stored under the sanitized key, to be mapped. */
  lemma ImportedUnmatched(row: Importer.Row, archive: Importer.Archive, file: Importer.File, now: Time)
    requires row.IndexRow? && Importer.RowFile(row, archive) == Some(file)
    ensures var p := PlanOf(row, archive, []);
            && Importer.Creates([], p)
            && var d := Importer.ImportedDoc(p, now);
               && d.status == NeedsMapping && d.gradeId.None? && !d.deleted && d.importKey == Importer.RowKey(row)
               && d.storageKey == Some(ObjectKeys.BuildKey(RowParts(row, file)))
  {
    hide Importer.RowKey, Importer.RowFile, ObjectKeys.BuildKey, Matcher.MatchFromIndex, Importer.ClassifySourceKind;
    EmptyCatalogueMatchesNothing(Matcher.Input(row.category, row.grade, row.producer));
  }

  /** An object under the raw key leads to the imported row by import key. */
  lemma RawObject(row: Importer.Row, file: Importer.File, o: Object, index: Matcher.Index)
    requires row.IndexRow? && Segments(row, file) && row.filePath == Some(RawKey(row, file)) && o.key == RawKey(row, file)
    requires IsAllowedMime(MimeFromFilename(file.baseName))
    ensures Relevant(o) && EntryOf(index, o).importKey == Importer.RowKey(row)
    ensures EntryOf(index, o).match_
         == Matcher.MatchFromIndex(index, Matcher.Input(UnderscoresToBlanks(row.category), row.grade, row.producer))
  {
    hide BuildImportKey, Matcher.MatchFromIndex, MimeFromFilename, IsAllowedMime, UnderscoresToBlanks;
    ObjectKeys.ParseJoined(row.category, row.grade, row.producer, 1, file.baseName);
    assert Importer.NamesFile(row.filePath) by { assert |RawKey(row, file)| > 2; }
  }

  lemma StoredObject(x: ObjectKeys.Parts, o: Object, index: Matcher.Index)
    requires IsAllowedMime(MimeFromFilename(ObjectKeys.FileSegment(x.filename))) && o.key == ObjectKeys.BuildKey(x)
    ensures var c := ObjectKeys.Canonical(x);
            && Relevant(o)
            && EntryOf(index, o).importKey == BuildImportKey(c.category, c.grade, c.producer, o.key)
            && EntryOf(index, o).match_
               == Matcher.MatchFromIndex(index, Matcher.Input(UnderscoresToBlanks(c.category), c.grade, c.producer))
  {
    hide BuildImportKey, Matcher.MatchFromIndex, MimeFromFilename, IsAllowedMime, ObjectKeys.BuildKey;
    ObjectKeys.ParseBuilt(x);
  }

  function StoredKey(row: Importer.Row, file: Importer.File): string {
    ObjectKeys.BuildKey(RowParts(row, file))
  }

  /**
   * A row is imported before its grade is in the catalogue; then one sync page lists the file
   * under its raw and under its sanitized key, and only the raw spelling matches. The row ends
   * published, or pending; and without a grade exactly when the raw key is listed first.
   */
  lemma ImportThenSyncLosesGrade(row: Importer.Row, archive: Importer.Archive, file: Importer.File, grades: seq<Matcher.Grade>,
                                 page: seq<Object>, s: Settings, t: Time)
      returns (dbs: seq<Db>, es: seq<Event>)
    requires row.IndexRow? && Segments(row, file) && row.filePath == Some(RawKey(row, file))
    requires Importer.RowFile(row, archive) == Some(file)
    requires IsAllowedMime(MimeFromFilename(file.baseName))
    requires IsAllowedMime(MimeFromFilename(ObjectKeys.FileSegment(RowParts(row, file).filename)))
    requires var index, c := Matcher.BuildIndex(grades), ObjectKeys.Canonical(RowParts(row, file));
             && Matcher.MatchFromIndex(index, Matcher.Input(UnderscoresToBlanks(row.category), row.grade, row.producer)).gradeId.Some?
             && Matcher.MatchFromIndex(index, Matcher.Input(UnderscoresToBlanks(c.category), c.grade, c.producer)).gradeId.None?
    requires ListsBoth(page, RawKey(row, file), StoredKey(row, file))
    ensures IsRun(dbs, es) && es == [Event(DoImportRow(row, archive, []), t), Event(DoSyncPage(page, grades, s), t)]
    ensures |dbs| == 3 && |dbs[2].docs| == 1
    ensures dbs[2].docs[0].status == if s.autoVerify then Verified else PendingReview
    ensures dbs[2].docs[0].gradeId.None? <==> Precedes(RawKey(row, file), StoredKey(row, file))
  {
    hide *;
    var inOrder := Precedes(RawKey(row, file), StoredKey(row, file));
    OrderOfPair(page, RawKey(row, file), StoredKey(row, file));
    BothListed(page);
    var raw, stored := if inOrder then page[0] else page[1], if inOrder then page[1] else page[0];
    var index, start := Matcher.BuildIndex(grades), Db([], []);
    StoredKeyOf(row, file);
    RawObject(row, file, raw, index);
    StoredObject(RowParts(row, file), stored, index);
    var import1, sync := Event(DoImportRow(row, archive, []), t), Event(DoSyncPage(page, grades, s), t);
    var d := Importer.ImportedDoc(PlanOf(row, archive, []), t);
    ImportedUnmatched(row, archive, file, t);
    FirstImport(row, archive, t);
    EntryFits(index, raw);
    EntryFits(index, stored);
    if inOrder {
      SingleRowClash(d, raw, stored, grades, s, t);
    } else {
      SingleRowRestored(d, raw, stored, grades, s, t);
    }
    dbs, es := [start, Db([d], []), Apply(Db([d], []), sync)], [import1, sync];
    TwoStepRun(start, Db([d], []), import1, sync);
  }

  lemma StoredKeyOf(row: Importer.Row, file: Importer.File)
    ensures StoredKey(row, file) == ObjectKeys.BuildKey(RowParts(row, file))
  {
  }

  lemma BothListed(page: seq<Object>)
    requires |page| == 2
    ensures page == [page[0], page[1]]
  {
  }

  lemma FirstImport(row: Importer.Row, archive: Importer.Archive, t: Time)
    requires Importer.Creates([], PlanOf(row, archive, []))
    ensures Possible(Event(DoImportRow(row, archive, []), t))
    ensures Apply(Db([], []), Event(DoImportRow(row, archive, []), t)) == Db([Importer.ImportedDoc(PlanOf(row, archive, []), t)], [])
  {
    hide Importer.ImportedDoc, PlanOf, Importer.Creates;
  }

  lemma TwoStepRun(start: Db, db: Db, a: Event, b: Event)
    requires start.docs == [] && db == Apply(start, a) && Possible(a) && Possible(b)
    ensures IsRun([start, db, Apply(db, b)], [a, b])
  {
    hide Apply, Possible;
  }

  /** A row stored at `stored` whose import key is that of `raw`, of which only `raw` matches. */
  lemma SingleRowClash(d: Doc, raw: Object, stored: Object, grades: seq<Matcher.Grade>, s: Settings, t: Time)
    requires Relevant(raw) && Relevant(stored)
    requires var index := Matcher.BuildIndex(grades);
             var a, b := EntryOf(index, raw), EntryOf(index, stored);
             && EntryOk(a) && EntryOk(b) && a.key == raw.key && b.key == stored.key
             && a.match_.gradeId.Some? && b.match_.gradeId.None? && d.importKey == a.importKey
    requires raw.key != stored.key
    requires d.status == NeedsMapping && d.gradeId.None? && !d.deleted && d.storageKey == Some(stored.key)
    ensures Possible(Event(DoSyncPage([raw, stored], grades, s), t))
    ensures var d' := Apply(Db([d], []), Event(DoSyncPage([raw, stored], grades, s), t)).docs;
            |d'| == 1 && d'[0].gradeId.None? && d'[0].status == if s.autoVerify then Verified else PendingReview
  {
    hide EntryOf, Relevant, Process, Entries, Matcher.BuildIndex;
    var index, docs := Matcher.BuildIndex(grades), [d];
    var a, b := EntryOf(index, raw), EntryOf(index, stored);
    ListedPair(raw, stored, grades);
    assert raw.key != stored.key;
    assert docs[..0] == [] && FindByStorage([], a.key).None?;
    assert FindByStorage(docs, a.key).None? && FindByStorage(docs, b.key) == Some(0);
    assert Clash(docs, [a, b], 0, 1, 0);
    ClashLosesGrade(Db(docs, []), a, b, s, t, 0);
  }

  /** The other way round the entry that matches comes last, and its grade stays. */
  lemma SingleRowRestored(d: Doc, raw: Object, stored: Object, grades: seq<Matcher.Grade>, s: Settings, t: Time)
    requires Relevant(raw) && Relevant(stored) && raw.key != stored.key
    requires var index := Matcher.BuildIndex(grades);
             var a, b := EntryOf(index, raw), EntryOf(index, stored);
             && EntryOk(a) && EntryOk(b) && a.key == raw.key && b.key == stored.key
             && a.match_.gradeId.Some? && b.match_.gradeId.None? && d.importKey == a.importKey
    requires d.status == NeedsMapping && d.gradeId.None? && !d.deleted && d.storageKey == Some(stored.key)
    ensures Possible(Event(DoSyncPage([stored, raw], grades, s), t))
    ensures var d' := Apply(Db([d], []), Event(DoSyncPage([stored, raw], grades, s), t)).docs;
            |d'| == 1 && d'[0].gradeId.Some? && d'[0].status == if s.autoVerify then Verified else PendingReview
  {
    hide EntryOf, Relevant, Process, Entries, Matcher.BuildIndex;
    var index := Matcher.BuildIndex(grades);
    var a, b := EntryOf(index, raw), EntryOf(index, stored);
    ListedPair(stored, raw, grades);
    PageOfTwo(Db([d], []), b, a, s, t);
    MatchLast(d, a, b, s, t);
  }

  lemma MatchLast(d: Doc, a: Entry, b: Entry, s: Settings, t: Time)
    requires EntryOk(a) && EntryOk(b) && a.key != b.key && d.importKey == a.importKey
    requires a.match_.gradeId.Some? && b.match_.gradeId.None?
    requires d.status == NeedsMapping && d.gradeId.None? && !d.deleted && d.storageKey == Some(b.key)
    ensures var db := Db([d], []);
            var d' := Process(Process(db, db.docs, b, s, t), db.docs, a, s, t).docs;
            |d'| == 1 && d'[0].gradeId.Some? && d'[0].status == if s.autoVerify then Verified else PendingReview
  {
    hide AfterWrite, FindByImport, FindByStorage;
    var db := Db([d], []);
    FoundAt([d], b.key, 0);
    NotFound([d], a.key);
    var mid := Updated(d, d, b, s, t);
    assert Process(db, db.docs, b, s, t).docs == [mid];
    assert FindByImport([mid], a.importKey) == Some(0) by { LoneRowFound(mid); }
  }

  lemma LoneRowFound(d: Doc)
    ensures FindByImport([d], d.importKey) == Some(0)
  {
  }

  /** A grade name with a character that storage keys do not keep. */
  predicate HasSpecial(name: string) {
    exists i :: 0 <= i < |name| && !ObjectKeys.IsObjectChar(name[i]) && name[i] != ' '
  }

  lemma SanitizedNumberDiffers(name: string)
    requires HasSpecial(name)
    ensures NormalizeMatchToken(ObjectKeys.Sanitize(name, "grade")) != name
  {
    hide NormalizeMatchToken, ObjectKeys.Sanitize;
    ObjectKeys.FallbacksAreGood();
    var safe := ObjectKeys.Sanitize(name, "grade");
    ObjectKeys.SegmentShape(name, "grade");
    var i :| 0 <= i < |name| && !ObjectKeys.IsObjectChar(name[i]) && name[i] != ' ';
    if NormalizeMatchToken(safe) == name {
      NormalizedChars(safe, name[i]);
    }
  }

  lemma RawMatches(category: string, name: string, producer: string)
    requires name != "" && Neat(name) && producer != "" && Neat(producer)
    ensures var index := Matcher.BuildIndex([Matcher.GradeOf(name, producer)]);
            Matcher.MatchFromIndex(index, Matcher.Input(category, name, producer)).gradeId.Some?
  {
    hide ProducerAliasTokens, NormalizeMatchToken, Neat, Matcher.GradeNumber, Matcher.BuildIndex;
    hide Matcher.GradeTokens, Matcher.Pick;
    var g, index := Matcher.GradeOf(name, producer), Matcher.BuildIndex([Matcher.GradeOf(name, producer)]);
    NeatIsFixed(name);
    NeatTokenIsOwn(producer);
    Matcher.NumberOfGrade(name, producer);
    Matcher.OwnGradeToken(name, producer);
    Matcher.LoneGradeIsIndexed(g, producer);
    Matcher.LoneGradeIsHit(g, name, ProducerAliasTokens(producer), producer);
    Matcher.LoneCandidateIsPicked(g, Matcher.ToSet(Matcher.At(index.byGradeOnly, name)), Matcher.Input(category, name, producer));
  }

  lemma OtherNumberDoesNotMatch(g: Matcher.Grade, input: Matcher.Input)
    requires BarFree(g.manufacturer.GetOr("")) && BarFree(input.producer)
    requires Matcher.GradeNumber(g) != NormalizeMatchToken(input.grade)
    ensures Matcher.MatchFromIndex(Matcher.BuildIndex([g]), input).gradeId.None?
  {
    hide Matcher.MatchFromIndex, Matcher.MatchByScan, Matcher.SharpMaker, Matcher.SharpProducer;
    hide NormalizeMatchToken, Matcher.GradeNumber;
    Matcher.BarFreeIsSharp(g.manufacturer.GetOr(""));
    Matcher.BarFreeIsSharp(input.producer);
    Matcher.IndexAgreesWithScan([g], input);
    Matcher.LoneGradeIsNotScanned(g, input);
  }

  lemma SanitizedIsBarFree(value: string, fallback: string)
    requires ObjectKeys.GoodFallback(fallback)
    ensures BarFree(ObjectKeys.Sanitize(value, fallback))
  {
    ObjectKeys.SegmentShape(value, fallback);
  }

  /**
   * For every grade name with a special character, say "PE100+", the catalogue and the workbook
   * agree on the name and the storage key of the file does not keep it; so the outcome is open
   * to the order of the keys.
   */
  lemma SpecialGradeIsLost(row: Importer.Row, archive: Importer.Archive, file: Importer.File, page: seq<Object>, s: Settings, t: Time)
      returns (dbs: seq<Db>, es: seq<Event>)
    requires row.IndexRow? && Segments(row, file) && row.filePath == Some(RawKey(row, file))
    requires Importer.RowFile(row, archive) == Some(file)
    requires IsAllowedMime(MimeFromFilename(file.baseName))
    requires IsAllowedMime(MimeFromFilename(ObjectKeys.FileSegment(RowParts(row, file).filename)))
    requires Neat(row.grade) && HasSpecial(row.grade) && Neat(row.producer) && BarFree(row.producer)
    requires ListsBoth(page, RawKey(row, file), StoredKey(row, file))
    ensures IsRun(dbs, es) && |es| == 2 && es[0].op == DoImportRow(row, archive, [])
    ensures es[1].op.DoSyncPage? && es[1].op.objects == page
    ensures |dbs[2].docs| == 1 && dbs[2].docs[0].status == if s.autoVerify then Verified else PendingReview
    ensures dbs[2].docs[0].gradeId.None? <==> Precedes(RawKey(row, file), StoredKey(row, file))
  {
    hide Neat, HasSpecial, BarFree, RawKey, StoredKey, ListsBoth, IsRun, Matcher.MatchFromIndex, Importer.RowFile;
    hide MimeFromFilename, Matcher.BuildIndex, ObjectKeys.Sanitize, UnderscoresToBlanks, NormalizeMatchToken;
    hide Matcher.GradeNumber, Precedes;
    var g, c := Matcher.GradeOf(row.grade, row.producer), ObjectKeys.Canonical(RowParts(row, file));
    ObjectKeys.FallbacksAreGood();
    RawMatches(UnderscoresToBlanks(row.category), row.grade, row.producer);
    SanitizedNumberDiffers(row.grade);
    SanitizedIsBarFree(row.producer, "producer");
    Matcher.NumberOfGrade(row.grade, row.producer);
    OtherNumberDoesNotMatch(g, Matcher.Input(UnderscoresToBlanks(c.category), c.grade, c.producer));
    dbs, es := ImportThenSyncLosesGrade(row, archive, file, [g], page, s, t);
  }

  lemma JoinTwo(a: string, rest: seq<string>)
    requires rest != []
    ensures Join([a] + rest, '/') == a + "/" + Join(rest, '/')
  {
    assert ([a] + rest)[1..] == rest;
  }

  lemma JoinThree(a: string, b: string, c: string, rest: seq<string>)
    requires rest != []
    ensures Join([a, b, c] + rest, '/') == (a + "/" + b + "/") + (c + ['/'] + Join(rest, '/'))
  {
    hide Join;
    JoinTwo(c, rest);
    JoinTwo(b, [c] + rest);
    JoinTwo(a, [b] + ([c] + rest));
    assert [a, b, c] + rest == [a] + ([b] + ([c] + rest));
  }

  /** Unless the category is rewritten too, the grade's folder decides which key comes first. */
  lemma GradeDecidesOrder(row: Importer.Row, file: Importer.File)
    requires Segments(row, file) && HasSpecial(row.grade) && ObjectKeys.Sanitize(row.category, "category") == row.category
    ensures var safe := ObjectKeys.Sanitize(row.grade, "grade");
            Precedes(RawKey(row, file), StoredKey(row, file)) <==> Precedes(row.grade + ['/'], safe + ['/'])
  {
    hide Join, ObjectKeys.Sanitize, Precedes, ObjectKeys.FileSegment;
    var x, safe := RowParts(row, file), ObjectKeys.Sanitize(row.grade, "grade");
    ObjectKeys.FallbacksAreGood();
    ObjectKeys.SegmentShape(row.grade, "grade");
    var v := "v" + ObjectKeys.Decimal(1);
    var rest, rest' := [row.producer, v, file.baseName],
                       [ObjectKeys.Sanitize(row.producer, "producer"), v, ObjectKeys.FileSegment(x.filename)];
    JoinThree("tds", row.category, row.grade, rest);
    JoinThree("tds", row.category, safe, rest');
    assert ["tds", row.category, row.grade] + rest == ["tds", row.category, row.grade, row.producer, v, file.baseName];
    assert ["tds", row.category, safe] + rest' == ["tds", row.category, safe, rest'[0], v, rest'[2]];
    SharedPrefix("tds" + "/" + row.category + "/", row.grade + ['/'] + Join(rest, '/'), safe + ['/'] + Join(rest', '/'));
    DecidedByPart(row.grade, safe, '/', Join(rest, '/'), Join(rest', '/'));
  }

  /** A visible character, other than the slash, that storage keys replace. */
  predicate Special(c: char) {
    '!' <= c <= '~' && !ObjectKeys.IsObjectChar(c) && c != '/'
  }

  lemma PageOfBoth(a: string, b: string) returns (page: seq<Object>)
    requires a != b
    ensures ListsBoth(page, a, b)
  {
    OneOrder(a, b);
    var x, y := Object(a, None, None), Object(b, None, None);
    page := if Precedes(a, b) then [x, y] else [y, x];
  }

  /**
   * One such row for every special character c: category "C", grade "G" with c, producer "P",
   * file "f.pdf". The grade is lost exactly for the characters before the slash: for "G+", not for "G@".
   */
  lemma SyncLosesAGrade(c: char, s: Settings, t: Time) returns (dbs: seq<Db>, es: seq<Event>)
    requires Special(c)
    ensures IsRun(dbs, es) && |es| == 2 && es[0].op.DoImportRow? && es[1].op.DoSyncPage? && InKeyOrder(es[1].op.objects)
    ensures |dbs[2].docs| == 1 && dbs[2].docs[0].status == if s.autoVerify then Verified else PendingReview
    ensures dbs[2].docs[0].gradeId.None? <==> c < '/'
  {
    hide IsRun, RawKey, StoredKey, InKeyOrder, Precedes, HasSpecial, Neat, ObjectKeys.Sanitize, Special;
    var file := Importer.File("f.pdf", "f.pdf", 1, "00");
    var path := RawKey(Importer.IndexRow("C", "G" + [c], "P", None, None, None), file);
    var row := Importer.IndexRow("C", "G" + [c], "P", None, None, Some(path));
    var archive := Importer.Archive(map[Lower(ForwardSlashes(path)) := file], map[]);
    SampleStrings();
    SampleGrade(c);
    SameRawKey(row, Importer.IndexRow("C", "G" + [c], "P", None, None, None), file);
    RawKeyIsFound(path, file);
    GradeDecidesOrder(row, file);
    SampleOrder(c);
    KeysDiffer(row, file);
    var page := PageOfBoth(RawKey(row, file), StoredKey(row, file));
    dbs, es := SpecialGradeIsLost(row, archive, file, page, s, t);
  }

  /** The stored key does not keep the grade's name, the raw key does. */
  lemma KeysDiffer(row: Importer.Row, file: Importer.File)
    requires Segments(row, file) && HasSpecial(row.grade)
    ensures RawKey(row, file) != StoredKey(row, file)
  {
    hide ObjectKeys.ParseKey, ObjectKeys.BuildKey, ObjectKeys.Sanitize, Join;
    ObjectKeys.FallbacksAreGood();
    ObjectKeys.SegmentShape(row.grade, "grade");
    ObjectKeys.ParseJoined(row.category, row.grade, row.producer, 1, file.baseName);
    ObjectKeys.ParseBuilt(RowParts(row, file));
  }

  lemma SampleGrade(c: char)
    requires Special(c)
    ensures ObjectKeys.IsSegment("G" + [c]) && Neat("G" + [c]) && HasSpecial("G" + [c])
    ensures ObjectKeys.Sanitize("G" + [c], "grade") == "G" && ObjectKeys.Sanitize("C", "category") == "C"
  {
    var name := "G" + [c];
    assert name[1] == c && !ObjectKeys.IsObjectChar(name[1]);
    ObjectKeys.CleanIsFixed("C", "category");
    SampleWhole(c);
  }

  lemma SampleWhole(c: char)
    requires Special(c)
    ensures ObjectKeys.Whole("G" + [c]) == "G"
  {
    var name := "G" + [c];
    TrimFixed(name);
    assert name[1..] == [c] && [c][1..] == "" && "G_"[1..] == "_" && "_"[1..] == "" && "G_"[..1] == "G";
    assert ReplaceRuns([c], ObjectKeys.NotObjectChar, '_') == "_";
    assert ReplaceRuns(name, ObjectKeys.NotObjectChar, '_') == "G_";
    assert ReplaceRuns("_", ObjectKeys.IsUnderscore, '_') == "_";
    assert ReplaceRuns("G_", ObjectKeys.IsUnderscore, '_') == "G_";
    assert ObjectKeys.StripEnd("G_") == ObjectKeys.StripEnd("G");
  }

  lemma SampleOrder(c: char)
    requires Special(c)
    ensures Precedes("G" + [c] + ['/'], "G" + ['/']) <==> c < '/'
  {
    assert "G" + [c] + ['/'] == "G" + [c, '/'];
    SharedPrefix("G", [c, '/'], "/");
  }

  lemma SameRawKey(a: Importer.Row, b: Importer.Row, file: Importer.File)
    requires a.category == b.category && a.grade == b.grade && a.producer == b.producer
    ensures RawKey(a, file) == RawKey(b, file) && |RawKey(a, file)| > 2
  {
  }

  lemma RawKeyIsFound(path: string, file: Importer.File)
    requires |path| > 2
    ensures Importer.NamesFile(Some(path))
    ensures Importer.FindFile(Importer.Archive(map[Lower(ForwardSlashes(path)) := file], map[]), path) == Some(file)
  {
  }

  lemma SampleStrings()
    ensures ObjectKeys.IsSegment("C") && ObjectKeys.IsSegment("P") && ObjectKeys.IsSegment("f.pdf")
    ensures Neat("P") && BarFree("P")
    ensures IsAllowedMime(MimeFromFilename("f.pdf")) && ObjectKeys.FileSegment("f.pdf") == "f.pdf"
  {
    ObjectKeys.BaseNameOfSegment("f.pdf");
    SampleFile();
  }

  lemma SampleFile()
    ensures IsAllowedMime(MimeFromFilename("f.pdf")) && ObjectKeys.Sanitize("f.pdf", "document.pdf") == "f.pdf"
  {
    hide Extension, ObjectKeys.Sanitize;
    assert "f" + "." + "pdf" == "f.pdf";
    ExtensionBehindDot("f", "pdf");
    ObjectKeys.CleanIsFixed("f.pdf", "document.pdf");
  }

  // ---- A replaced file comes back --------------------------------------------------------------------

  /** A row that moved to a new key while its old object is still stored is stolen by the old object. */
  lemma ReplacedRowIsStolen(docs: seq<Doc>, i: nat, old0: Entry, new0: Entry)
    requires Table(docs) && i < |docs| && StoredAt(docs[i], new0.key) && docs[i].importKey == old0.importKey
    requires forall j :: 0 <= j < |docs| ==> !StoredAt(docs[j], old0.key) && (j != i ==> !StoredAt(docs[j], new0.key))
    ensures Steals(docs, old0, new0)
  {
    FoundAt(docs, new0.key, i);
    NotFound(docs, old0.key);
    assert FindByImport(docs, old0.importKey) == Some(i);
  }

  /** Listing the old object first on one page rewrites the row twice; on two pages it makes a second row. */
  lemma OldObjectMakesSecondRow(db: Db, d: Doc, old0: Entry, new0: Entry, s: Settings, t: Time)
    requires db.docs == [d] && StoredAt(d, new0.key) && d.importKey == old0.importKey
    requires old0.key != new0.key && new0.importKey != old0.importKey && old0.importKey != ""
    ensures |ReconcilePages(db, [[old0, new0]], s, t).docs| == 1
    ensures |ReconcilePages(db, [[old0], [new0]], s, t).docs| == 2
  {
    hide Process, Updated, Work, ReconcilePage, ReconcilePages, Flatten, StoredAt;
    OnePage(db, [old0, new0], s, t);
    PageOfTwo(db, old0, new0, s, t);
    OldObjectTakesRow(db, d, old0, new0, s, t);
    PagesOfOne(db, old0, new0, s, t);
  }

  lemma OldObjectTakesRow(db: Db, d: Doc, old0: Entry, new0: Entry, s: Settings, t: Time)
    requires db.docs == [d] && StoredAt(d, new0.key) && d.importKey == old0.importKey
    requires old0.key != new0.key && new0.importKey != old0.importKey && old0.importKey != ""
    ensures var first := Process(db, db.docs, old0, s, t);
            |Process(first, db.docs, new0, s, t).docs| == 1 && |Process(first, first.docs, new0, s, t).docs| == 2
  {
    hide Updated;
    FoundAt(db.docs, new0.key, 0);
    NotFound(db.docs, old0.key);
    var first := Process(db, db.docs, old0, s, t);
    UpdatedKeys(d, d, old0, s, t);
    assert first.docs == [Updated(d, d, old0, s, t)];
    SecondPage(first, new0, s, t);
  }

  /** Listing the new object first leaves one row. */
  lemma NewObjectFirst(db: Db, d: Doc, old0: Entry, new0: Entry, s: Settings, t: Time)
    requires db.docs == [d] && StoredAt(d, new0.key) && d.importKey == old0.importKey
    requires old0.key != new0.key && old0.importKey != ""
    ensures |ReconcilePages(db, [[new0, old0]], s, t).docs| == 1
  {
    hide Updated, Work, ReconcilePages, FindByStorage, FindByImport;
    OnePage(db, [new0, old0], s, t);
    PageOfTwo(db, new0, old0, s, t);
    FoundAt(db.docs, new0.key, 0);
    NotFound(db.docs, old0.key);
    UpdatedKeys(d, d, new0, s, t);
    var first := Updated(d, d, new0, s, t);
    assert Process(db, db.docs, new0, s, t).docs == [first];
    LoneRowFound(first);
  }

  lemma SecondPage(db: Db, e: Entry, s: Settings, t: Time)
    requires forall j :: 0 <= j < |db.docs| ==> !StoredAt(db.docs[j], e.key) && db.docs[j].importKey != e.importKey
    ensures |Process(db, db.docs, e, s, t).docs| == |db.docs| + 1
  {
    NotFound(db.docs, e.key);
    assert FindByImport(db.docs, e.importKey).None?;
  }

  /** The object an accepted replacement stores. */
  function NewObject(db: Db, u: Upload): Object {
    Object(UploadKey(u, UploadRevision(db, u)), None, None)
  }

  /** The two orders of the pair: whether splits matter and how many rows are left. */
  lemma PairOutcome(db: Db, d: Doc, old0: Entry, new0: Entry, oldFirst: bool, s: Settings, t: Time)
    requires db.docs == [d] && StoredAt(d, new0.key) && d.importKey == old0.importKey
    requires old0.key != new0.key && new0.importKey != old0.importKey && old0.importKey != ""
    ensures var listed := if oldFirst then [old0, new0] else [new0, old0];
            && (AnySplitAgrees(db, listed, s, t) <==> !oldFirst)
            && |ReconcilePages(db, [listed], s, t).docs| == 1
            && |ReconcilePages(db, [[listed[0]], [listed[1]]], s, t).docs| == if oldFirst then 2 else 1
  {
    hide Work, ReconcilePage, ReconcilePages, Flatten, FindByStorage, FindByImport, AnySplitAgrees;
    var listed := if oldFirst then [old0, new0] else [new0, old0];
    NotFound(db.docs, old0.key);
    AnySplitAgreesExactlyWhen(db, listed, s, t);
    if oldFirst {
      ReplacedRowIsStolen(db.docs, 0, old0, new0);
      assert Steals(db.docs, listed[0], listed[1]);
      OldObjectMakesSecondRow(db, d, old0, new0, s, t);
    } else {
      NewObjectFirst(db, d, old0, new0, s, t);
      SplitOfTwo(db, new0, old0, s, t);
    }
  }

  lemma SplitOfTwo(db: Db, a: Entry, b: Entry, s: Settings, t: Time)
    requires AnySplitAgrees(db, [a, b], s, t)
    ensures ReconcilePages(db, [[a], [b]], s, t) == ReconcilePages(db, [[a, b]], s, t)
  {
    hide ReconcilePage, ReconcilePages, Flatten;
    TwoPagesAreSplit(db, [a, b], 1, s, t);
    assert [a, b][..1] == [a] && [a, b][1..] == [b];
    OnePage(db, [a, b], s, t);
  }

  /**
   * A file is synced and replaced; then a listing holds its old and its new object. For any later
   * catalogue one page leaves one row. Page boundaries matter, and two pages leave a second row,
   * exactly when the old object is listed first.
   */
  lemma ReplacedFileComesBack(o: Object, before: seq<Matcher.Grade>, first: Settings, u: Upload, catalogue: set<nat>, t: Time,
                              later: seq<Matcher.Grade>, page: seq<Object>, s: Settings, t': Time)
      returns (dbs: seq<Db>, es: seq<Event>)
    requires Relevant(o) && u.id == Some(0)
    requires var db := Apply(Db([], []), Event(DoSyncPage([o], before, first), t));
             var n := NewObject(db, u);
             && UploadAccepted(db, u, catalogue) && Relevant(n) && ListsBoth(page, o.key, n.key)
             && EntryOf(Matcher.BuildIndex(later), n).importKey != EntryOf(Matcher.BuildIndex(later), o).importKey
    ensures es == [Event(DoSyncPage([o], before, first), t), Event(DoUpload(u, catalogue), t)]
    ensures IsRun(dbs, es) && |dbs| == 3 && dbs[1] == Apply(Db([], []), es[0])
    ensures var oldFirst, listed := Precedes(o.key, NewObject(dbs[1], u).key), Listed(page, later);
            && |listed| == 2
            && (AnySplitAgrees(dbs[2], listed, s, t') <==> !oldFirst)
            && |ReconcilePages(dbs[2], [listed], s, t').docs| == 1
            && |ReconcilePages(dbs[2], [[listed[0]], [listed[1]]], s, t').docs| == if oldFirst then 2 else 1
  {
    hide EntryOf, Relevant, UploadAccepted, UploadedDoc, Listed, UploadRevision, UploadKey, CreatedDoc;
    hide Possible, IsRun, Matcher.BuildIndex, EntryOk, Precedes, ListsBoth, AnySplitAgrees, ReconcilePages;
    var start := Db([], []);
    var sync, upload := Event(DoSyncPage([o], before, first), t), Event(DoUpload(u, catalogue), t);
    var db := Apply(start, sync);
    FirstSync(o, before, first, t);
    var n := NewObject(db, u);
    var db2 := Apply(db, upload);
    ReplacedRow(db, u, catalogue, t);
    OrderOfPair(page, o.key, n.key);
    BothListed(page);
    var oldFirst := Precedes(o.key, n.key);
    var o', n' := if oldFirst then page[0] else page[1], if oldFirst then page[1] else page[0];
    var index := Matcher.BuildIndex(later);
    SameKeySameEntry(o, o', before, later);
    SameKeySameEntry(o, o', later, later);
    SameKeySameEntry(n, n', later, later);
    EntryFits(index, o');
    EntryFits(index, n');
    NamedEntry(EntryOf(index, o'));
    ListedPair(page[0], page[1], later);
    PairOutcome(db2, db2.docs[0], EntryOf(index, o'), EntryOf(index, n'), oldFirst, s, t');
    TwoStepRun(start, db, sync, upload);
    dbs, es := [start, db, db2], [sync, upload];
  }

  lemma NamedEntry(e: Entry)
    requires EntryOk(e)
    ensures e.importKey != ""
  {
  }

  /** Neither catalogue nor size nor date changes the keys of an object's entry. */
  lemma SameKeySameEntry(o: Object, o': Object, a: seq<Matcher.Grade>, b: seq<Matcher.Grade>)
    requires Relevant(o) && o'.key == o.key
    ensures Relevant(o') && EntryOf(Matcher.BuildIndex(a), o).importKey == EntryOf(Matcher.BuildIndex(b), o').importKey
  {
  }

  lemma FirstSync(o: Object, grades: seq<Matcher.Grade>, s: Settings, t: Time)
    requires Relevant(o)
    ensures Possible(Event(DoSyncPage([o], grades, s), t))
    ensures var db := Apply(Db([], []), Event(DoSyncPage([o], grades, s), t));
            && |db.docs| == 1 && !db.docs[0].deleted
            && db.docs[0].importKey == EntryOf(Matcher.BuildIndex(grades), o).importKey
            && db.docs[0].revision == EntryOf(Matcher.BuildIndex(grades), o).parts.revision
  {
    hide EntryOf, Relevant, ReconcilePage, Entries, Matcher.BuildIndex;
    var e, start := EntryOf(Matcher.BuildIndex(grades), o), Db([], []);
    ListedOne(o, grades);
    SinglePage(start, e, s, t);
    FirstRow(e, s, t);
  }

  lemma ListedOne(o: Object, grades: seq<Matcher.Grade>)
    requires Relevant(o)
    ensures Listed([o], grades) == [EntryOf(Matcher.BuildIndex(grades), o)]
  {
    hide EntryOf, Relevant;
    assert [o][..0] == [];
    assert Entries(Matcher.BuildIndex(grades), []) == [];
  }

  lemma FirstRow(e: Entry, s: Settings, t: Time)
    ensures Process(Db([], []), [], e, s, t).docs == [CreatedDoc(e, s, t)]
    ensures CreatedDoc(e, s, t).importKey == e.importKey && !CreatedDoc(e, s, t).deleted && CreatedDoc(e, s, t).revision == e.parts.revision
  {
  }

  lemma ReplacedRow(db: Db, u: Upload, catalogue: set<nat>, t: Time)
    requires |db.docs| == 1 && u.id == Some(0) && UploadAccepted(db, u, catalogue)
    ensures Possible(Event(DoUpload(u, catalogue), t))
    ensures var db' := Apply(db, Event(DoUpload(u, catalogue), t));
            |db'.docs| == 1 && StoredAt(db'.docs[0], NewObject(db, u).key) && db'.docs[0].importKey == db.docs[0].importKey
  {
    hide UploadKey, UploadNotes;
  }

  // ---- Such files: category "C", grade "G", producer "P", any revision ------------------------------------

  function SampleKey(revision: nat): string {
    Join(["tds", "C", "G", "P", "v" + ObjectKeys.Decimal(revision), "f.pdf"], '/')
  }

  function SampleUpload(): Upload {
    Upload(Some(0), Some(7), NoProduct, "f.pdf", "application/pdf", 1, 1, 1, "C", "G", "P", "admin-upload", "00", None, true)
  }

  lemma SampleIsRelevant(revision: nat, index: Matcher.Index)
    requires revision >= 1
    ensures var o := Object(SampleKey(revision), None, None);
            && Relevant(o) && EntryOf(index, o).importKey == BuildImportKey("C", "G", "P", SampleKey(revision))
            && EntryOf(index, o).parts.revision == revision
  {
    hide SampleKey, MimeFromFilename, IsAllowedMime, BuildImportKey, Matcher.MatchFromIndex, UnderscoresToBlanks;
    SampleFile();
    SampleParse(revision);
  }

  lemma SampleParse(revision: nat)
    requires revision >= 1
    ensures ObjectKeys.ParseKey(SampleKey(revision)) == Some(ObjectKeys.Parts("C", "G", "P", revision, "f.pdf"))
  {
    hide ObjectKeys.ParseKey;
    assert ObjectKeys.IsSegment("C") && ObjectKeys.IsSegment("G") && ObjectKeys.IsSegment("P") && ObjectKeys.IsSegment("f.pdf");
    ObjectKeys.ParseJoined("C", "G", "P", revision, "f.pdf");
  }

  lemma SampleUploadKey(revision: nat)
    requires revision >= 1
    ensures UploadKey(SampleUpload(), revision) == SampleKey(revision)
  {
    hide ObjectKeys.Sanitize, ObjectKeys.BaseName;
    SampleFile();
    ObjectKeys.BaseNameOfSegment("f.pdf");
    ObjectKeys.CleanIsFixed("C", "category");
    ObjectKeys.CleanIsFixed("G", "grade");
    ObjectKeys.CleanIsFixed("P", "producer");
  }

  lemma SampleKeyIs(r: nat)
    ensures SampleKey(r) == "tds/C/G/P/v" + (ObjectKeys.Decimal(r) + "/f.pdf")
  {
    hide Join;
    var v := "v" + ObjectKeys.Decimal(r);
    JoinTwo(v, ["f.pdf"]);
    JoinTwo("P", [v, "f.pdf"]);
    JoinThree("tds", "C", "G", ["P", v, "f.pdf"]);
    assert Join(["f.pdf"], '/') == "f.pdf" by { JoinOne("f.pdf"); }
    assert ["tds", "C", "G"] + ["P", v, "f.pdf"] == ["tds", "C", "G", "P", v, "f.pdf"];
    assert ["P"] + [v, "f.pdf"] == ["P", v, "f.pdf"];
    assert [v] + ["f.pdf"] == [v, "f.pdf"];
  }

  lemma JoinOne(a: string)
    ensures Join([a], '/') == a
  {
  }

  /** The old key comes first exactly when the next revision has no more digits. */
  lemma SampleKeyOrder(r: nat)
    ensures Precedes(SampleKey(r), SampleKey(r + 1)) <==> |ObjectKeys.Decimal(r)| == |ObjectKeys.Decimal(r + 1)|
  {
    hide SampleKey, Precedes;
    SampleKeyIs(r);
    SampleKeyIs(r + 1);
    SharedPrefix("tds/C/G/P/v", ObjectKeys.Decimal(r) + "/f.pdf", ObjectKeys.Decimal(r + 1) + "/f.pdf");
    NextRevision(r, "/f.pdf", "/f.pdf");
  }

  /** Successive revisions differ in a digit that both have. */
  lemma DigitDiffers(r: nat) returns (k: nat)
    ensures var a, b := ObjectKeys.Decimal(r), ObjectKeys.Decimal(r + 1); k < |a| && k < |b| && a[k] != b[k]
  {
    var a, b := ObjectKeys.Decimal(r), ObjectKeys.Decimal(r + 1);
    NextNumber(r);
    OneOrder(a, b);
    k := 0;
    if |a| == |b| {
      k :| 0 <= k < |a| && a[k] != b[k];
    }
  }

  lemma SampleKeyChars(r: nat, k: nat)
    requires k < |ObjectKeys.Decimal(r)|
    ensures PlainPath(SampleKey(r)) && |SampleKey(r)| > 11 + k && IsDigit(ObjectKeys.Decimal(r)[k])
    ensures SampleKey(r)[11 + k] == ObjectKeys.Decimal(r)[k]
  {
    hide SampleKey, ObjectKeys.Decimal;
    SampleKeyIs(r);
    ObjectKeys.DecimalRoundTrip(r);
    var pre, v := "tds/C/G/P/v", ObjectKeys.Decimal(r);
    assert |pre| == 11;
    forall i | 0 <= i < |SampleKey(r)| ensures !IsSpace(SampleKey(r)[i]) && !IsDash(SampleKey(r)[i]) {
      assert SampleKey(r)[i] == if i < 11 then pre[i] else if i < 11 + |v| then v[i - 11] else "/f.pdf"[i - 11 - |v|];
    }
  }

  lemma SampleImportKeysDiffer(r: nat)
    ensures SampleKey(r) != SampleKey(r + 1)
    ensures BuildImportKey("C", "G", "P", SampleKey(r)) != BuildImportKey("C", "G", "P", SampleKey(r + 1))
  {
    hide SampleKey, BuildImportKey, ObjectKeys.Decimal;
    var k := DigitDiffers(r);
    SampleKeyChars(r, k);
    SampleKeyChars(r + 1, k);
    ImportKeysDiffer("C", "G", "P", SampleKey(r), SampleKey(r + 1), 11 + k);
  }

  /**
   * Upload and listing of the sample at any revision, whatever the catalogue holds when they are
   * synced: page boundaries matter from v1 to v2, and not from v9 to v10.
   */
  lemma SampleFileComesBack(r: nat, before: seq<Matcher.Grade>, first: Settings, t: Time, later: seq<Matcher.Grade>, s: Settings,
                            t': Time)
      returns (dbs: seq<Db>, es: seq<Event>, page: seq<Object>)
    requires r >= 1
    ensures IsRun(dbs, es) && |es| == 2 && es[0].op.DoSyncPage? && es[1].op.DoUpload?
    ensures ListsBoth(page, SampleKey(r), SampleKey(r + 1))
    ensures var listed, sameDigits := Listed(page, later), |ObjectKeys.Decimal(r)| == |ObjectKeys.Decimal(r + 1)|;
            && |listed| == 2
            && (AnySplitAgrees(dbs[2], listed, s, t') <==> !sameDigits)
            && |ReconcilePages(dbs[2], [listed], s, t').docs| == 1
            && |ReconcilePages(dbs[2], [[listed[0]], [listed[1]]], s, t').docs| == if sameDigits then 2 else 1
  {
    hide *;
    var o, u, index := Object(SampleKey(r), None, None), SampleUpload(), Matcher.BuildIndex(later);
    SampleIsRelevant(r, index);
    SampleIsRelevant(r, Matcher.BuildIndex(before));
    SampleIsRelevant(r + 1, index);
    SampleImportKeysDiffer(r);
    SampleKeyOrder(r);
    FirstSync(o, before, first, t);
    SampleReplacement(Apply(Db([], []), Event(DoSyncPage([o], before, first), t)), r);
    page := PageOfBoth(SampleKey(r), SampleKey(r + 1));
    dbs, es := ReplacedFileComesBack(o, before, first, u, {7}, t, later, page, s, t');
    SampleReplacement(dbs[1], r);
  }

  lemma SampleReplacement(db: Db, r: nat)
    requires r >= 1 && |db.docs| == 1 && !db.docs[0].deleted && db.docs[0].revision == r
    ensures SampleUpload().id == Some(0) && UploadAccepted(db, SampleUpload(), {7})
    ensures NewObject(db, SampleUpload()) == Object(SampleKey(r + 1), None, None)
  {
    hide UploadKey;
    SampleUploadKey(r + 1);
  }
}

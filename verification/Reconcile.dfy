/**
 * Reconciling the document table with object storage, one page of listed objects at a time.
 *
 * A page first loads the rows that hold one of its storage keys; that snapshot is not
 * refreshed while the page is worked through, which is why the results below say when
 * objects must lead to distinct rows.
 */
module Reconcile {
  import opened Prelude
  import opened Text
  import opened MatchTokens
  import opened Documents
  import Matcher
  import ObjectKeys

  // ---- From listed objects to entries ------------------------------------------------------

  datatype Object = Object(key: string, size: Option<nat>, modified: Option<Time>)

  /** An object that parses and has an allowed type, with what matching says about it. */
  datatype Entry = Entry(
    key: string, importKey: string, parts: ObjectKeys.Parts, mime: string, size: Option<nat>, modified: Option<Time>,
    match_: Matcher.MatchResult)

  function Extension(filename: string): string {
    if filename == "" || filename[|filename| - 1] == '.' then ""
    else Extension(filename[..|filename| - 1]) + [filename[|filename| - 1]]
  }

  lemma {:induction false} ExtensionBehindDot(stem: string, ext: string)
    requires '.' !in ext
    ensures Extension(stem + "." + ext) == ext
  {
    var name := stem + "." + ext;
    assert name[|stem|] == '.';
    if ext != "" {
      var short := ext[..|ext| - 1];
      ExtensionBehindDot(stem, short);
      assert name[..|name| - 1] == stem + "." + short;
      assert name[|name| - 1] == ext[|ext| - 1] && ext == short + [ext[|ext| - 1]];
    }
  }

  function MimeFromFilename(filename: string): string {
    var ext := Lower(Extension(filename));
    if ext == "pdf" then "application/pdf"
    else if ext == "jpg" || ext == "jpeg" then "image/jpeg"
    else if ext == "png" then "image/png"
    else if ext == "webp" then "image/webp"
    else "application/octet-stream"
  }

  function UnderscoresToBlanks(s: string): string {
    seq(|s|, i requires 0 <= i < |s| => if s[i] == '_' then ' ' else s[i])
  }

  predicate Relevant(o: Object) {
    ObjectKeys.ParseKey(o.key).Some? && IsAllowedMime(MimeFromFilename(ObjectKeys.ParseKey(o.key).value.filename))
  }

  ghost function EntryOf(index: Matcher.Index, o: Object): Entry
    requires Relevant(o)
  {
    var p := ObjectKeys.ParseKey(o.key).value;
    Entry(o.key, BuildImportKey(p.category, p.grade, p.producer, o.key), p, MimeFromFilename(p.filename), o.size, o.modified,
          Matcher.MatchFromIndex(index, Matcher.Input(UnderscoresToBlanks(p.category), p.grade, p.producer)))
  }

  ghost function Entries(index: Matcher.Index, objects: seq<Object>): seq<Entry> {
    if objects == [] then []
    else
      Entries(index, objects[..|objects| - 1])
      + if Relevant(objects[|objects| - 1]) then [EntryOf(index, objects[|objects| - 1])] else []
  }

  /** A listing names no key twice. */
  ghost predicate DistinctKeys(es: seq<Entry>) {
    forall i, j :: 0 <= i < j < |es| ==> es[i].key != es[j].key
  }

  // ---- One entry ------------------------------------------------------------------------------

  datatype Settings = Settings(autoVerify: bool, admin: Option<nat>)

  predicate Matched(e: Entry) {
    e.match_.gradeId.Some? && e.match_.confidence != Matcher.Ambiguous
  }

  /** What the matcher guarantees: an ambiguous answer names no grade. */
  predicate Sound(e: Entry) {
    e.match_.gradeId.Some? ==> e.match_.confidence != Matcher.Ambiguous
  }

  function FreshStatus(e: Entry, s: Settings): Status {
    if !Matched(e) then NeedsMapping else if s.autoVerify then Verified else PendingReview
  }

  predicate Promotes(read: Doc, e: Entry, s: Settings) {
    s.autoVerify && Matched(e) && read.status != Verified && read.status != Rejected
  }

  function Later(a: int, b: int): int {
    if a < b then b else a
  }

  function MappingAfter(read: Doc, e: Entry): Mapping {
    if e.match_.gradeId.Some? then Auto(e.match_.confidence)
    else if read.mapping == Manual then Manual
    else Auto(e.match_.confidence)
  }

  /** The row after the update, given the row as stored and as the page read it. */
  function Updated(row: Doc, read: Doc, e: Entry, s: Settings, now: Time): Doc {
    var d := row.(
      importKey := if read.importKey != "" then read.importKey else e.importKey,
      storageKey := Some(e.key), filename := Some(e.parts.filename), mime := Some(e.mime), size := OrElse(e.size, read.size),
      category := e.parts.category, gradeCode := e.parts.grade, producer := e.parts.producer,
      revision := Later(read.revision, e.parts.revision),
      gradeId := OrElse(e.match_.gradeId, read.gradeId),
      mapping := MappingAfter(read, e),
      active := true, deleted := false);
    if Promotes(read, e, s) then
      d.(status := Verified, approvedAt := OrElse(read.approvedAt, Some(now)),
         approvedBy := OrElse(read.approvedBy, s.admin), notes := read.notes + ["Auto-verified from R2 storage sync"])
    else if read.gradeId.Some? || e.match_.gradeId.None? then d
    else d.(status := FreshStatus(e, s), notes := read.notes + ["Storage sync"])
  }

  function CreatedDoc(e: Entry, s: Settings, now: Time): Doc {
    var st := FreshStatus(e, s);
    Doc(e.importKey, e.match_.gradeId, Some(e.key), st, e.parts.revision, Auto(e.match_.confidence),
        e.parts.category, e.parts.grade, e.parts.producer, Some(e.parts.filename), Some(e.mime), e.size,
        if st == Verified then Some(now) else None, if st == Verified then s.admin else None, None, None,
        OrElse(e.modified, Some(now)), s.admin, ["Synced from R2 storage"], true, false)
  }

  /** The row an entry is about, with its content as the page knows it. */
  function Resolve(snapshot: seq<Doc>, docs: seq<Doc>, e: Entry): Option<(nat, Doc)> {
    var byKey := FindByStorage(snapshot, e.key);
    if byKey.Some? then Some((byKey.value, snapshot[byKey.value]))
    else
      var byImport := FindByImport(docs, e.importKey);
      if byImport.Some? then Some((byImport.value, docs[byImport.value])) else None
  }

  function Put(db: Db, at: nat, d: Doc, now: Time): Db
    requires at <= |db.docs|
  {
    Db(if at < |db.docs| then db.docs[at := d] else db.docs + [d], AfterWrite(db.requests, d, at, now))
  }

  function Process(db: Db, snapshot: seq<Doc>, e: Entry, s: Settings, now: Time): Db {
    var r := Resolve(snapshot, db.docs, e);
    if r.Some? then
      if r.value.0 < |db.docs| then Put(db, r.value.0, Updated(db.docs[r.value.0], r.value.1, e, s, now), now) else db
    else Put(db, |db.docs|, CreatedDoc(e, s, now), now)
  }

  /** A page: its entries in listing order against one snapshot. */
  function Work(db: Db, snapshot: seq<Doc>, entries: seq<Entry>, s: Settings, now: Time): Db {
    if entries == [] then db
    else Process(Work(db, snapshot, entries[..|entries| - 1], s, now), snapshot, entries[|entries| - 1], s, now)
  }

  function ReconcilePage(db: Db, entries: seq<Entry>, s: Settings, now: Time): Db {
    Work(db, db.docs, entries, s, now)
  }

  function ReconcilePages(db: Db, pages: seq<seq<Entry>>, s: Settings, now: Time): Db {
    if pages == [] then db
    else ReconcilePage(ReconcilePages(db, pages[..|pages| - 1], s, now), pages[|pages| - 1], s, now)
  }

  function Flatten(pages: seq<seq<Entry>>): seq<Entry> {
    if pages == [] then [] else Flatten(pages[..|pages| - 1]) + pages[|pages| - 1]
  }

  // ---- Distinct objects for distinct rows --------------------------------------------------------

  /** The row an entry resolves to in a table at rest. */
  function Home(docs: seq<Doc>, e: Entry): Option<nat> {
    OrElse(FindByStorage(docs, e.key), FindByImport(docs, e.importKey))
  }

  ghost predicate DistinctHomes(docs: seq<Doc>, entries: seq<Entry>) {
    forall i, j :: 0 <= i < j < |entries| ==>
      && entries[i].key != entries[j].key
      && entries[i].importKey != entries[j].importKey
      && (Home(docs, entries[i]).Some? ==> Home(docs, entries[i]) != Home(docs, entries[j]))
  }

  /** What an entry leaves behind, computed from the table at rest. */
  function Outcome(docs: seq<Doc>, e: Entry, s: Settings, now: Time): Doc {
    var home := Home(docs, e);
    if home.Some? then Updated(docs[home.value], docs[home.value], e, s, now) else CreatedDoc(e, s, now)
  }

  lemma OutcomeKeys(docs: seq<Doc>, e: Entry, s: Settings, now: Time)
    requires Table(docs)
    ensures StoredAt(Outcome(docs, e, s, now), e.key)
    ensures Outcome(docs, e, s, now).storageKey == Some(e.key)
    ensures Outcome(docs, e, s, now).importKey == if Home(docs, e).Some? then docs[Home(docs, e).value].importKey else e.importKey
  {
  }

  /** The row is what the entry leaves at `home`. */
  ghost predicate CameFrom(docs: seq<Doc>, e: Entry, home: Option<nat>, row: Doc, s: Settings, now: Time) {
    Home(docs, e) == home && row == Outcome(docs, e, s, now)
  }

  ghost predicate OldRows(docs: seq<Doc>, es: seq<Entry>, k: nat, d: seq<Doc>, s: Settings, now: Time)
    requires k <= |es| && |docs| <= |d|
  {
    forall i :: 0 <= i < |docs| ==>
      d[i] == docs[i] || exists j :: 0 <= j < k && CameFrom(docs, es[j], Some(i), d[i], s, now)
  }

  ghost predicate NewRows(docs: seq<Doc>, es: seq<Entry>, k: nat, d: seq<Doc>, s: Settings, now: Time)
    requires k <= |es| && |docs| <= |d|
  {
    forall i :: |docs| <= i < |d| ==> exists j :: 0 <= j < k && CameFrom(docs, es[j], None, d[i], s, now)
  }

  ghost predicate PlacedAt(docs: seq<Doc>, e: Entry, d: seq<Doc>, i: nat, s: Settings, now: Time) {
    && i < |d| && CameFrom(docs, e, if i < |docs| then Some(i) else None, d[i], s, now)
  }

  ghost predicate AllPlaced(docs: seq<Doc>, es: seq<Entry>, k: nat, d: seq<Doc>, s: Settings, now: Time)
    requires k <= |es|
  {
    forall j :: 0 <= j < k ==> IsPlaced(docs, es[j], d, s, now)
  }

  ghost predicate IsPlaced(docs: seq<Doc>, e: Entry, d: seq<Doc>, s: Settings, now: Time) {
    exists i: nat :: PlacedAt(docs, e, d, i, s, now)
  }

  ghost predicate NewKeysDiffer(docs: seq<Doc>, d: seq<Doc>) {
    forall i, i' :: |docs| <= i < i' < |d| ==> d[i].storageKey != d[i'].storageKey
  }

  /** The table after the first `k` entries: touched rows hold their entry's outcome, others are as before. */
  ghost predicate Progress(docs: seq<Doc>, es: seq<Entry>, k: nat, d: seq<Doc>, s: Settings, now: Time)
    requires k <= |es|
  {
    && |docs| <= |d|
    && OldRows(docs, es, k, d, s, now) && NewRows(docs, es, k, d, s, now)
    && AllPlaced(docs, es, k, d, s, now) && NewKeysDiffer(docs, d)
  }

  /** A row of the table in progress is either untouched or carries the key of an earlier entry. */
  lemma TouchedKeys(docs: seq<Doc>, es: seq<Entry>, k: nat, d: seq<Doc>, s: Settings, now: Time, i: nat)
      returns (j: nat)
    requires k <= |es| && |docs| <= |d| && OldRows(docs, es, k, d, s, now) && NewRows(docs, es, k, d, s, now)
    requires Table(docs) && i < |d|
    ensures (i < |docs| && d[i] == docs[i])
         || (j < k && d[i].storageKey == Some(es[j].key)
             && d[i].importKey == (if i < |docs| then docs[i].importKey else es[j].importKey)
             && Home(docs, es[j]) == if i < |docs| then Some(i) else None)
  {
    j := 0;
    if i < |docs| {
      if d[i] != docs[i] {
        j :| 0 <= j < k && CameFrom(docs, es[j], Some(i), d[i], s, now);
        OutcomeKeys(docs, es[j], s, now);
      }
    } else {
      j :| 0 <= j < k && CameFrom(docs, es[j], None, d[i], s, now);
      OutcomeKeys(docs, es[j], s, now);
    }
  }

  lemma FoundAt(docs: seq<Doc>, key: string, i: nat)
    requires i < |docs| && StoredAt(docs[i], key) && forall j :: i < j < |docs| ==> !StoredAt(docs[j], key)
    ensures FindByStorage(docs, key) == Some(i)
  {
  }

  lemma NotFound(docs: seq<Doc>, key: string)
    requires forall j :: 0 <= j < |docs| ==> !StoredAt(docs[j], key)
    ensures FindByStorage(docs, key).None?
  {
  }

  /** No entry before `k` changes what the storage key of entry `k` leads to. */
  lemma SnapshotLookup(docs: seq<Doc>, es: seq<Entry>, p: nat, k: nat, d: seq<Doc>, s: Settings, now: Time)
    requires p <= k < |es| && Progress(docs, es, p, d, s, now) && Table(docs) && DistinctHomes(docs, es)
    ensures FindByStorage(d, es[k].key) == FindByStorage(docs, es[k].key)
    ensures FindByStorage(docs, es[k].key).Some? ==> d[FindByStorage(docs, es[k].key).value] == docs[FindByStorage(docs, es[k].key).value]
  {
    var key, home := es[k].key, FindByStorage(docs, es[k].key);
    forall i | 0 <= i < |d| ensures StoredAt(d[i], key) ==> i < |docs| && d[i] == docs[i] {
      var j := TouchedKeys(docs, es, p, d, s, now, i);
    }
    if home.Some? {
      var j := TouchedKeys(docs, es, p, d, s, now, home.value);
      assert d[home.value] == docs[home.value];
      FoundAt(d, key, home.value);
    } else {
      NotFound(d, key);
    }
  }

  lemma ImportLookup(docs: seq<Doc>, es: seq<Entry>, k: nat, d: seq<Doc>, s: Settings, now: Time)
    requires k < |es| && Progress(docs, es, k, d, s, now) && Table(docs) && DistinctHomes(docs, es)
    requires FindByStorage(docs, es[k].key).None?
    ensures FindByImport(d, es[k].importKey) == FindByImport(docs, es[k].importKey)
    ensures Home(docs, es[k]).Some? ==> d[Home(docs, es[k]).value] == docs[Home(docs, es[k]).value]
  {
    hide Outcome, CameFrom;
    var ik, home := es[k].importKey, FindByImport(docs, es[k].importKey);
    forall i | 0 <= i < |d| ensures d[i].importKey == ik ==> home == Some(i) {
      var j := TouchedKeys(docs, es, k, d, s, now, i);
      if d[i].importKey == ik && i < |docs| {
        assert docs[i].importKey == ik;
      }
    }
    if home.Some? {
      var j := TouchedKeys(docs, es, k, d, s, now, home.value);
      assert d[home.value] == docs[home.value];
    }
  }

  /** Against any snapshot taken on the way, entry `k` is handled as the table at rest says. */
  lemma ResolvesHome(docs: seq<Doc>, es: seq<Entry>, p: nat, k: nat, snapshot: seq<Doc>, d: seq<Doc>, s: Settings,
        now: Time)
    requires p <= k < |es| && Table(docs) && DistinctHomes(docs, es)
    requires Progress(docs, es, p, snapshot, s, now) && Progress(docs, es, k, d, s, now)
    ensures var home := Home(docs, es[k]);
            if home.Some? then home.value < |docs| && d[home.value] == docs[home.value]
                               && Resolve(snapshot, d, es[k]) == Some((home.value, docs[home.value]))
            else Resolve(snapshot, d, es[k]).None?
  {
    SnapshotLookup(docs, es, p, k, snapshot, s, now);
    if FindByStorage(docs, es[k].key).Some? {
      SnapshotLookup(docs, es, k, k, d, s, now);
    } else {
      ImportLookup(docs, es, k, d, s, now);
    }
  }

  /** The table after entry `k` is written at its home, or behind the last row. */
  function Placed(docs: seq<Doc>, e: Entry, d: seq<Doc>, row: Doc): seq<Doc> {
    var home := Home(docs, e);
    if home.Some? && home.value < |d| then d[home.value := row] else d + [row]
  }

  lemma RowsStep(docs: seq<Doc>, es: seq<Entry>, k: nat, d: seq<Doc>, s: Settings, now: Time, row: Doc)
    requires k < |es| && |docs| <= |d| && CameFrom(docs, es[k], Home(docs, es[k]), row, s, now)
    requires OldRows(docs, es, k, d, s, now) && NewRows(docs, es, k, d, s, now)
    ensures var d' := Placed(docs, es[k], d, row);
            |docs| <= |d'| && OldRows(docs, es, k + 1, d', s, now) && NewRows(docs, es, k + 1, d', s, now)
  {
    var d' := Placed(docs, es[k], d, row);
    forall i | 0 <= i < |docs|
      ensures d'[i] == docs[i] || exists j :: 0 <= j < k + 1 && CameFrom(docs, es[j], Some(i), d'[i], s, now)
    {
      if Home(docs, es[k]) == Some(i) {
        assert CameFrom(docs, es[k], Some(i), d'[i], s, now);
      } else {
        assert d'[i] == d[i];
      }
    }
    forall i | |docs| <= i < |d'| ensures exists j :: 0 <= j < k + 1 && CameFrom(docs, es[j], None, d'[i], s, now) {
      if i < |d| {
        assert d'[i] == d[i];
      } else {
        assert CameFrom(docs, es[k], None, d'[i], s, now);
      }
    }
  }

  lemma PlacesStep(docs: seq<Doc>, es: seq<Entry>, k: nat, d: seq<Doc>, s: Settings, now: Time, row: Doc)
    requires k < |es| && |docs| <= |d| && DistinctHomes(docs, es) && CameFrom(docs, es[k], Home(docs, es[k]), row, s, now)
    requires AllPlaced(docs, es, k, d, s, now)
    ensures AllPlaced(docs, es, k + 1, Placed(docs, es[k], d, row), s, now)
  {
    var home, d' := Home(docs, es[k]), Placed(docs, es[k], d, row);
    forall j | 0 <= j < k + 1 ensures IsPlaced(docs, es[j], d', s, now) {
      if j < k {
        assert IsPlaced(docs, es[j], d, s, now);
        var i: nat :| PlacedAt(docs, es[j], d, i, s, now);
        assert PlacedAt(docs, es[j], d', i, s, now);
      } else {
        assert PlacedAt(docs, es[k], d', if home.Some? then home.value else |d|, s, now);
      }
    }
  }

  lemma KeysStep(docs: seq<Doc>, es: seq<Entry>, k: nat, d: seq<Doc>, s: Settings, now: Time, row: Doc)
    requires k < |es| && |docs| <= |d| && Table(docs) && DistinctHomes(docs, es)
    requires OldRows(docs, es, k, d, s, now) && NewRows(docs, es, k, d, s, now) && NewKeysDiffer(docs, d)
    requires row.storageKey == Some(es[k].key)
    ensures NewKeysDiffer(docs, Placed(docs, es[k], d, row))
  {
    forall i | |docs| <= i < |d| ensures d[i].storageKey != Some(es[k].key) {
      var j := TouchedKeys(docs, es, k, d, s, now, i);
    }
  }

  lemma ProgressStep(docs: seq<Doc>, es: seq<Entry>, k: nat, d: seq<Doc>, s: Settings, now: Time)
    requires k < |es| && Table(docs) && DistinctHomes(docs, es) && Progress(docs, es, k, d, s, now)
    ensures Progress(docs, es, k + 1, Placed(docs, es[k], d, Outcome(docs, es[k], s, now)), s, now)
  {
    var row := Outcome(docs, es[k], s, now);
    OutcomeKeys(docs, es[k], s, now);
    RowsStep(docs, es, k, d, s, now, row);
    PlacesStep(docs, es, k, d, s, now, row);
    KeysStep(docs, es, k, d, s, now, row);
  }

  /** What a prefix of the entries does to the whole table, however it is cut into pages. */
  function Direct(db: Db, docs: seq<Doc>, es: seq<Entry>, s: Settings, now: Time): Db {
    if es == [] then db else DirectStep(Direct(db, docs, es[..|es| - 1], s, now), docs, es[|es| - 1], s, now)
  }

  function DirectStep(db: Db, docs: seq<Doc>, e: Entry, s: Settings, now: Time): Db {
    var row, home := Outcome(docs, e, s, now), Home(docs, e);
    Db(Placed(docs, e, db.docs, row),
       AfterWrite(db.requests, row, if home.Some? && home.value < |db.docs| then home.value else |db.docs|, now))
  }

  lemma DirectNext(db: Db, es: seq<Entry>, k: nat, s: Settings, now: Time)
    requires k < |es|
    ensures Direct(db, db.docs, es[..k + 1], s, now) == DirectStep(Direct(db, db.docs, es[..k], s, now), db.docs, es[k], s, now)
  {
    assert es[..k + 1][..k] == es[..k];
  }

  lemma NoProgress(db: Db, es: seq<Entry>, s: Settings, now: Time)
    ensures Progress(db.docs, es, 0, Direct(db, db.docs, es[..0], s, now).docs, s, now)
  {
    assert es[..0] == [];
  }

  lemma {:induction false} DirectProgress(db: Db, es: seq<Entry>, k: nat, s: Settings, now: Time)
    requires k <= |es| && Table(db.docs) && DistinctHomes(db.docs, es)
    ensures Progress(db.docs, es, k, Direct(db, db.docs, es[..k], s, now).docs, s, now)
  {
    hide Table, DistinctHomes, Progress, Direct, Outcome, Home;
    if k == 0 {
      NoProgress(db, es, s, now);
    } else {
      DirectProgress(db, es, k - 1, s, now);
      DirectNext(db, es, k - 1, s, now);
      ProgressStep(db.docs, es, k - 1, Direct(db, db.docs, es[..k - 1], s, now).docs, s, now);
    }
  }

  lemma ProcessAtHome(here: Db, snapshot: seq<Doc>, docs: seq<Doc>, e: Entry, s: Settings, now: Time)
    requires |docs| <= |here.docs|
    requires var home := Home(docs, e);
             if home.Some? then home.value < |docs| && here.docs[home.value] == docs[home.value]
                                && Resolve(snapshot, here.docs, e) == Some((home.value, docs[home.value]))
             else Resolve(snapshot, here.docs, e).None?
    ensures Process(here, snapshot, e, s, now) == DirectStep(here, docs, e, s, now)
  {
  }

  /** One entry, against a snapshot taken at prefix `p`, is one direct step. */
  lemma ProcessIsDirect(db: Db, es: seq<Entry>, p: nat, k: nat, s: Settings, now: Time)
    requires p <= k < |es| && Table(db.docs) && DistinctHomes(db.docs, es)
    ensures Process(Direct(db, db.docs, es[..k], s, now), Direct(db, db.docs, es[..p], s, now).docs, es[k], s, now)
         == Direct(db, db.docs, es[..k + 1], s, now)
  {
    var here, snapshot := Direct(db, db.docs, es[..k], s, now), Direct(db, db.docs, es[..p], s, now).docs;
    DirectProgress(db, es, p, s, now);
    DirectProgress(db, es, k, s, now);
    ResolvesHome(db.docs, es, p, k, snapshot, here.docs, s, now);
    ProcessAtHome(here, snapshot, db.docs, es[k], s, now);
    DirectNext(db, es, k, s, now);
  }

  lemma WorkNothing(db: Db, snapshot: seq<Doc>, s: Settings, now: Time)
    ensures Work(db, snapshot, [], s, now) == db
  {
  }

  lemma WorkAppend(db: Db, snapshot: seq<Doc>, es: seq<Entry>, e: Entry, s: Settings, now: Time)
    ensures Work(db, snapshot, es + [e], s, now) == Process(Work(db, snapshot, es, s, now), snapshot, e, s, now)
  {
    assert (es + [e])[..|es|] == es;
  }

  lemma {:induction false} WorkIsDirect(db: Db, es: seq<Entry>, p: nat, k: nat, s: Settings, now: Time)
    requires p <= k <= |es| && Table(db.docs) && DistinctHomes(db.docs, es)
    ensures var start := Direct(db, db.docs, es[..p], s, now);
            Work(start, start.docs, es[p..k], s, now) == Direct(db, db.docs, es[..k], s, now)
  {
    hide *;
    var start := Direct(db, db.docs, es[..p], s, now);
    if p == k {
      assert es[p..k] == [];
      WorkNothing(start, start.docs, s, now);
    } else {
      WorkIsDirect(db, es, p, k - 1, s, now);
      assert es[p..k] == es[p..k - 1] + [es[k - 1]];
      WorkAppend(start, start.docs, es[p..k - 1], es[k - 1], s, now);
      ProcessIsDirect(db, es, p, k - 1, s, now);
    }
  }

  lemma {:induction false} PagesAreDirect(db: Db, pages: seq<seq<Entry>>, es: seq<Entry>, s: Settings, now: Time)
    requires Table(db.docs) && DistinctHomes(db.docs, es) && Flatten(pages) <= es
    ensures ReconcilePages(db, pages, s, now) == Direct(db, db.docs, Flatten(pages), s, now)
  {
    if pages != [] {
      var front, last := pages[..|pages| - 1], pages[|pages| - 1];
      var p, k := |Flatten(front)|, |Flatten(pages)|;
      PagesAreDirect(db, front, es, s, now);
      WorkIsDirect(db, es, p, k, s, now);
      assert es[..p] == Flatten(front) && es[..k] == Flatten(pages) && es[p..k] == last;
    } else {
      assert Flatten(pages) == [];
    }
  }

  /** Any split into pages gives the rows and requests of one page with everything. */
  lemma ChunkIndependent(db: Db, pages: seq<seq<Entry>>, s: Settings, now: Time)
    requires Table(db.docs) && DistinctHomes(db.docs, Flatten(pages))
    ensures ReconcilePages(db, pages, s, now) == ReconcilePage(db, Flatten(pages), s, now)
  {
    var es := Flatten(pages);
    PagesAreDirect(db, pages, es, s, now);
    WorkIsDirect(db, es, 0, |es|, s, now);
    assert es[0..|es|] == es && es[..|es|] == es && es[..0] == [];
  }
}

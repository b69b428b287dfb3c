/**
 * When it matters how listed objects are cut into pages.
 *
 * An entry steals a row from a later one when it reaches by import key the row that the later
 * one finds by storage key: the row's storage key moves, so a page that starts in between no
 * longer finds it. Without such a pair a listing may be cut anywhere; with one it may not, unless
 * later objects with the thief's import key cover the traces.
 */
module PageSplits {
  import opened Prelude
  import opened Documents
  import opened Reconcile

  /** `x` reaches by import key the row that `e` finds by storage key. */
  predicate Steals(docs: seq<Doc>, x: Entry, e: Entry) {
    var at := FindByStorage(docs, e.key);
    at.Some? && FindByStorage(docs, x.key).None? && FindByImport(docs, x.importKey) == at
  }

  ghost predicate StealsAcross(docs: seq<Doc>, es: seq<Entry>, p: nat) {
    exists i, j :: 0 <= i < p <= j < |es| && Steals(docs, es[i], es[j])
  }

  ghost predicate StealsInOrder(docs: seq<Doc>, es: seq<Entry>) {
    exists i, j :: 0 <= i < j < |es| && Steals(docs, es[i], es[j])
  }

  /** The row a thief has taken is by import key neither the finder's nor any later entry's. */
  ghost predicate Lasting(es: seq<Entry>, x: nat, j: nat)
    requires x < |es|
  {
    forall y :: j <= y < |es| ==> es[y].importKey != es[x].importKey
  }

  ghost predicate StealsLast(docs: seq<Doc>, es: seq<Entry>) {
    forall x, j :: 0 <= x < j < |es| && Steals(docs, es[x], es[j]) ==> Lasting(es, x, j)
  }

  /** Entries with distinct import keys only steal for good. */
  lemma DistinctImportKeysLast(docs: seq<Doc>, es: seq<Entry>)
    requires forall i, j :: 0 <= i < j < |es| ==> es[i].importKey != es[j].importKey
    ensures StealsLast(docs, es)
  {
  }

  // ---- What the entries so far have touched ----------------------------------------------------

  /** The row was last written by an entry that belongs there in the table at rest. */
  ghost predicate Wrote(docs: seq<Doc>, e: Entry, home: Option<nat>, row: Doc) {
    Home(docs, e) == home && row.storageKey == Some(e.key) && (home.None? ==> row.importKey == e.importKey)
  }

  ghost predicate WrittenBy(docs: seq<Doc>, es: seq<Entry>, k: nat, home: Option<nat>, row: Doc) {
    exists j :: 0 <= j < k && j < |es| && Wrote(docs, es[j], home, row)
  }

  ghost predicate OldTouched(docs: seq<Doc>, es: seq<Entry>, k: nat, d: seq<Doc>) {
    && |docs| <= |d|
    && forall i :: 0 <= i < |docs| ==>
         d[i].importKey == docs[i].importKey && (d[i] == docs[i] || WrittenBy(docs, es, k, Some(i), d[i]))
  }

  ghost predicate NewTouched(docs: seq<Doc>, es: seq<Entry>, k: nat, d: seq<Doc>) {
    |docs| <= |d| && forall i :: |docs| <= i < |d| ==> WrittenBy(docs, es, k, None, d[i])
  }

  ghost predicate Touched(docs: seq<Doc>, es: seq<Entry>, k: nat, d: seq<Doc>) {
    OldTouched(docs, es, k, d) && NewTouched(docs, es, k, d)
  }

  lemma WrittenByMore(docs: seq<Doc>, es: seq<Entry>, k: nat, home: Option<nat>, row: Doc)
    requires WrittenBy(docs, es, k, home, row)
    ensures WrittenBy(docs, es, k + 1, home, row)
  {
    var j :| 0 <= j < k && j < |es| && Wrote(docs, es[j], home, row);
    assert Wrote(docs, es[j], home, row);
  }

  /** A touched row carries the key of an earlier entry, hence no later one's. */
  lemma TouchedKeyIsEarlier(docs: seq<Doc>, es: seq<Entry>, p: nat, k: nat, d: seq<Doc>, i: nat)
    requires p <= k < |es| && DistinctKeys(es) && Touched(docs, es, p, d) && i < |d|
    requires i < |docs| ==> d[i] != docs[i]
    ensures !StoredAt(d[i], es[k].key)
  {
    var home := if i < |docs| then Some(i) else None;
    assert WrittenBy(docs, es, p, home, d[i]);
    var j :| 0 <= j < p && j < |es| && Wrote(docs, es[j], home, d[i]);
  }

  lemma TouchedFoundRowIsStolen(docs: seq<Doc>, es: seq<Entry>, p: nat, k: nat, d: seq<Doc>, i: nat)
    requires p <= k < |es| && DistinctKeys(es) && Touched(docs, es, p, d)
    requires FindByStorage(docs, es[k].key) == Some(i) && d[i] != docs[i]
    ensures StealsAcross(docs, es, p)
  {
    assert WrittenBy(docs, es, p, Some(i), d[i]);
    var j :| 0 <= j < p && j < |es| && Wrote(docs, es[j], Some(i), d[i]);
    assert es[j].key != es[k].key;
    assert Steals(docs, es[j], es[k]);
  }

  /** Without a steal across `p`, the row an entry finds by storage key is still as it was. */
  lemma FoundRowIsUntouched(docs: seq<Doc>, es: seq<Entry>, p: nat, k: nat, d: seq<Doc>)
    requires p <= k < |es| && DistinctKeys(es) && Touched(docs, es, p, d) && !StealsAcross(docs, es, p)
    requires FindByStorage(docs, es[k].key).Some?
    ensures var i := FindByStorage(docs, es[k].key).value; i < |d| && d[i] == docs[i]
  {
    var i := FindByStorage(docs, es[k].key).value;
    if d[i] != docs[i] {
      TouchedFoundRowIsStolen(docs, es, p, k, d, i);
    }
  }

  lemma SameStorageLookup(docs: seq<Doc>, es: seq<Entry>, p: nat, k: nat, d: seq<Doc>)
    requires p <= k < |es| && DistinctKeys(es) && Touched(docs, es, p, d) && !StealsAcross(docs, es, p)
    ensures FindByStorage(d, es[k].key) == FindByStorage(docs, es[k].key)
  {
    var key := es[k].key;
    forall i | 0 <= i < |d| && StoredAt(d[i], key) ensures i < |docs| && d[i] == docs[i] {
      if i >= |docs| || d[i] != docs[i] {
        TouchedKeyIsEarlier(docs, es, p, k, d, i);
      }
    }
    if FindByStorage(docs, key).Some? {
      FoundRowIsUntouched(docs, es, p, k, d);
      FoundAt(d, key, FindByStorage(docs, key).value);
    } else {
      NotFound(d, key);
    }
  }

  /** A snapshot taken at `p` leads entry `k` where the table at rest does. */
  lemma SnapshotsAgree(docs: seq<Doc>, es: seq<Entry>, p: nat, k: nat, snapshot: seq<Doc>, d: seq<Doc>)
    requires p <= k < |es| && DistinctKeys(es) && Touched(docs, es, p, snapshot) && !StealsAcross(docs, es, p)
    ensures Resolve(snapshot, d, es[k]) == Resolve(docs, d, es[k])
  {
    SameStorageLookup(docs, es, p, k, snapshot);
    if FindByStorage(docs, es[k].key).Some? {
      FoundRowIsUntouched(docs, es, p, k, snapshot);
    }
  }

  // ---- One page -----------------------------------------------------------------------------------

  lemma NewRowHasNewKey(docs: seq<Doc>, es: seq<Entry>, k: nat, d: seq<Doc>, i: nat)
    requires Touched(docs, es, k, d) && |docs| <= i < |d|
    ensures FindByImport(docs, d[i].importKey).None?
  {
    hide FindByImport, FindByStorage, OldTouched;
    assert WrittenBy(docs, es, k, None, d[i]);
    var j :| 0 <= j < k && j < |es| && Wrote(docs, es[j], None, d[i]);
  }

  lemma OldKeysLast(docs: seq<Doc>, es: seq<Entry>, k: nat, d: seq<Doc>)
    requires Touched(docs, es, k, d)
    ensures |docs| <= |d| && forall i :: 0 <= i < |docs| ==> d[i].importKey == docs[i].importKey
  {
    hide WrittenBy;
  }

  lemma LookupAgain(docs: seq<Doc>, d: seq<Doc>, ik: string)
    requires Table(docs) && |docs| <= |d| && forall i :: 0 <= i < |docs| ==> d[i].importKey == docs[i].importKey
    ensures var old0, at := FindByImport(docs, ik), FindByImport(d, ik);
            (at.Some? && at.value < |docs| ==> old0 == at) && (old0.Some? ==> at.Some?)
  {
    hide FindByImport;
    var old0, at := FindByImport(docs, ik), FindByImport(d, ik);
    if old0.Some? {
      assert d[old0.value].importKey == ik;
    }
  }

  /** An import key of the table at rest keeps its row; others may have got a new row from an earlier entry. */
  lemma SameImportLookup(docs: seq<Doc>, es: seq<Entry>, k: nat, d: seq<Doc>, ik: string)
    requires Table(docs) && Touched(docs, es, k, d)
    ensures FindByImport(docs, ik).Some? ==> FindByImport(d, ik) == FindByImport(docs, ik)
    ensures FindByImport(docs, ik).None? && FindByImport(d, ik).Some? ==> |docs| <= FindByImport(d, ik).value
  {
    hide FindByImport, Touched, Table;
    var at := FindByImport(d, ik);
    OldKeysLast(docs, es, k, d);
    LookupAgain(docs, d, ik);
    if at.Some? && at.value >= |docs| {
      NewRowHasNewKey(docs, es, k, d, at.value);
    }
  }

  /** Against the table at rest, every entry is written at its home, or behind the table if it has none. */
  lemma ResolvesToHome(docs: seq<Doc>, es: seq<Entry>, k: nat, d: seq<Doc>)
    requires k < |es| && Table(docs) && Touched(docs, es, k, d)
    ensures var r, home := Resolve(docs, d, es[k]), Home(docs, es[k]);
            if home.Some? then
              r.Some? && r.value.0 == home.value < |docs| && r.value.1.importKey == docs[home.value].importKey
            else
              r.None? || (|docs| <= r.value.0 < |d| && r.value.1.importKey == es[k].importKey)
  {
    hide NewTouched, WrittenBy;
    SameImportLookup(docs, es, k, d, es[k].importKey);
  }

  lemma UpdatedKeys(row: Doc, read: Doc, e: Entry, s: Settings, now: Time)
    ensures var u := Updated(row, read, e, s, now);
            u.storageKey == Some(e.key) && u.importKey == if read.importKey != "" then read.importKey else e.importKey
  {
  }

  lemma ReplacedIsTouched(docs: seq<Doc>, es: seq<Entry>, k: nat, d: seq<Doc>, at: nat, row: Doc)
    requires k < |es| && Touched(docs, es, k, d) && at < |d|
    requires Wrote(docs, es[k], if at < |docs| then Some(at) else None, row)
    requires at < |docs| ==> row.importKey == docs[at].importKey
    ensures Touched(docs, es, k + 1, d[at := row])
  {
    var d' := d[at := row];
    forall i | 0 <= i < |d'|
      ensures i < |docs| ==> d'[i].importKey == docs[i].importKey && (d'[i] == docs[i] || WrittenBy(docs, es, k + 1, Some(i), d'[i]))
      ensures i >= |docs| ==> WrittenBy(docs, es, k + 1, None, d'[i])
    {
      var home := if i < |docs| then Some(i) else None;
      if i == at {
        assert Wrote(docs, es[k], home, d'[i]);
      } else if i >= |docs| || d[i] != docs[i] {
        WrittenByMore(docs, es, k, home, d[i]);
      }
    }
  }

  lemma AppendedIsTouched(docs: seq<Doc>, es: seq<Entry>, k: nat, d: seq<Doc>, row: Doc)
    requires k < |es| && Touched(docs, es, k, d) && Wrote(docs, es[k], None, row)
    ensures Touched(docs, es, k + 1, d + [row])
  {
    var d' := d + [row];
    forall i | 0 <= i < |d'|
      ensures i < |docs| ==> d'[i].importKey == docs[i].importKey && (d'[i] == docs[i] || WrittenBy(docs, es, k + 1, Some(i), d'[i]))
      ensures i >= |docs| ==> WrittenBy(docs, es, k + 1, None, d'[i])
    {
      if i == |d| {
        assert Wrote(docs, es[k], None, d'[i]);
      } else if i >= |docs| || d[i] != docs[i] {
        WrittenByMore(docs, es, k, if i < |docs| then Some(i) else None, d[i]);
      }
    }
  }

  lemma ProcessTouches(db: Db, docs: seq<Doc>, es: seq<Entry>, k: nat, s: Settings, now: Time)
    requires k < |es| && Table(docs) && Touched(docs, es, k, db.docs)
    ensures Touched(docs, es, k + 1, Process(db, docs, es[k], s, now).docs)
  {
    hide Updated, WrittenBy;
    ResolvesToHome(docs, es, k, db.docs);
    var r := Resolve(docs, db.docs, es[k]);
    if r.Some? {
      var u := Updated(db.docs[r.value.0], r.value.1, es[k], s, now);
      UpdatedKeys(db.docs[r.value.0], r.value.1, es[k], s, now);
      ReplacedIsTouched(docs, es, k, db.docs, r.value.0, u);
    } else {
      AppendedIsTouched(docs, es, k, db.docs, CreatedDoc(es[k], s, now));
    }
  }

  /** The state after the first `k` entries of one page. */
  function Prefix(db: Db, es: seq<Entry>, k: nat, s: Settings, now: Time): Db
    requires k <= |es|
  {
    Work(db, db.docs, es[..k], s, now)
  }

  lemma PrefixNext(db: Db, es: seq<Entry>, k: nat, s: Settings, now: Time)
    requires k < |es|
    ensures Prefix(db, es, k + 1, s, now) == Process(Prefix(db, es, k, s, now), db.docs, es[k], s, now)
  {
    assert es[..k + 1][..k] == es[..k];
  }

  lemma {:induction false} PrefixTouches(db: Db, es: seq<Entry>, k: nat, s: Settings, now: Time)
    requires k <= |es| && Table(db.docs)
    ensures Touched(db.docs, es, k, Prefix(db, es, k, s, now).docs)
  {
    hide Process, Touched, Table, Prefix;
    if k == 0 {
      NothingTouched(db, es, s, now);
    } else {
      PrefixTouches(db, es, k - 1, s, now);
      PrefixNext(db, es, k - 1, s, now);
      ProcessTouches(Prefix(db, es, k - 1, s, now), db.docs, es, k - 1, s, now);
    }
  }

  lemma NothingTouched(db: Db, es: seq<Entry>, s: Settings, now: Time)
    ensures Prefix(db, es, 0, s, now) == db && Touched(db.docs, es, 0, db.docs)
  {
    assert es[..0] == [];
  }

  // ---- Cutting without a steal -----------------------------------------------------------------------

  lemma SameProcess(db: Db, snapshot: seq<Doc>, docs: seq<Doc>, e: Entry, s: Settings, now: Time)
    requires Resolve(snapshot, db.docs, e) == Resolve(docs, db.docs, e)
    ensures Process(db, snapshot, e, s, now) == Process(db, docs, e, s, now)
  {
  }

  /** A page that starts at `p` goes on as the one page would, unless a row is stolen across `p`. */
  lemma {:induction false} PageGoesOn(db: Db, es: seq<Entry>, p: nat, k: nat, s: Settings, now: Time)
    requires p <= k <= |es| && DistinctKeys(es) && Table(db.docs) && !StealsAcross(db.docs, es, p)
    ensures var start := Prefix(db, es, p, s, now); Work(start, start.docs, es[p..k], s, now) == Prefix(db, es, k, s, now)
  {
    hide *;
    var start := Prefix(db, es, p, s, now);
    if p == k {
      assert es[p..k] == [];
      WorkNothing(start, start.docs, s, now);
    } else {
      PageGoesOn(db, es, p, k - 1, s, now);
      assert es[p..k] == es[p..k - 1] + [es[k - 1]];
      WorkAppend(start, start.docs, es[p..k - 1], es[k - 1], s, now);
      var here := Prefix(db, es, k - 1, s, now);
      PrefixTouches(db, es, p, s, now);
      SnapshotsAgree(db.docs, es, p, k - 1, start.docs, here.docs);
      SameProcess(here, start.docs, db.docs, es[k - 1], s, now);
      PrefixNext(db, es, k - 1, s, now);
    }
  }

  lemma NoStealNowhere(docs: seq<Doc>, es: seq<Entry>, p: nat)
    requires !StealsInOrder(docs, es)
    ensures !StealsAcross(docs, es, p)
  {
  }

  lemma {:induction false} PagesAreOne(db: Db, pages: seq<seq<Entry>>, es: seq<Entry>, s: Settings, now: Time)
    requires Flatten(pages) <= es && DistinctKeys(es) && Table(db.docs) && !StealsInOrder(db.docs, es)
    ensures ReconcilePages(db, pages, s, now) == Prefix(db, es, |Flatten(pages)|, s, now)
  {
    hide Work, StealsInOrder, StealsAcross, DistinctKeys, Table;
    if pages == [] {
      NothingTouched(db, es, s, now);
    } else {
      var front, last := pages[..|pages| - 1], pages[|pages| - 1];
      var p, k := |Flatten(front)|, |Flatten(pages)|;
      PagesAreOne(db, front, es, s, now);
      NoStealNowhere(db.docs, es, p);
      PageGoesOn(db, es, p, k, s, now);
      assert es[p..k] == last;
    }
  }

  // ---- Cutting through a steal -------------------------------------------------------------------------

  /** Row `i` holds the two keys, and no other row has its import key. */
  ghost predicate Holds(d: seq<Doc>, i: nat, key: string, importKey: string) {
    i < |d| && d[i].storageKey == Some(key) && d[i].importKey == importKey
  }

  /** An entry with other keys, whose snapshot does not find row `i` either, leaves the row alone. */
  lemma OthersLeaveRow(db: Db, snapshot: seq<Doc>, e: Entry, s: Settings, now: Time, i: nat, key: string, importKey: string)
    requires Holds(db.docs, i, key, importKey) && e.importKey != importKey && FindByStorage(snapshot, e.key) != Some(i)
    ensures Holds(Process(db, snapshot, e, s, now).docs, i, key, importKey)
  {
    hide Updated;
  }

  lemma {:induction false} LaterLeaveRow(db: Db, snapshot: seq<Doc>, es: seq<Entry>, s: Settings, now: Time, i: nat,
                                         key: string, importKey: string)
    requires Holds(db.docs, i, key, importKey)
    requires forall e :: e in es ==> e.importKey != importKey && FindByStorage(snapshot, e.key) != Some(i)
    ensures Holds(Work(db, snapshot, es, s, now).docs, i, key, importKey)
  {
    hide Holds, Process, FindByStorage;
    if es != [] {
      var front := es[..|es| - 1];
      LaterLeaveRow(db, snapshot, front, s, now, i, key, importKey);
      assert es[|es| - 1] in es;
      OthersLeaveRow(Work(db, snapshot, front, s, now), snapshot, es[|es| - 1], s, now, i, key, importKey);
    }
  }

  lemma {:induction false} WorkConcat(db: Db, snapshot: seq<Doc>, a: seq<Entry>, b: seq<Entry>, s: Settings, now: Time)
    ensures Work(db, snapshot, a + b, s, now) == Work(Work(db, snapshot, a, s, now), snapshot, b, s, now)
  {
    hide Process;
    if b == [] {
      assert a + b == a;
    } else {
      WorkConcat(db, snapshot, a, b[..|b| - 1], s, now);
      assert (a + b)[..|a + b| - 1] == a + b[..|b| - 1];
    }
  }

  lemma EntryWritesHome(db: Db, es: seq<Entry>, x: nat, s: Settings, now: Time, i: nat)
    requires x < |es| && Table(db.docs) && Home(db.docs, es[x]) == Some(i)
    ensures i < |db.docs| && Holds(Prefix(db, es, x + 1, s, now).docs, i, es[x].key, db.docs[i].importKey)
  {
    hide Updated, WrittenBy, Prefix;
    var here := Prefix(db, es, x, s, now);
    PrefixTouches(db, es, x, s, now);
    PrefixNext(db, es, x, s, now);
    ResolvesToHome(db.docs, es, x, here.docs);
    var r := Resolve(db.docs, here.docs, es[x]);
    UpdatedKeys(here.docs[i], r.value.1, es[x], s, now);
  }

  /** What entry `x` writes stays until `p` when no entry in between is about the row. */
  lemma WrittenRowStays(db: Db, es: seq<Entry>, x: nat, p: nat, s: Settings, now: Time, i: nat)
    requires x < p <= |es| && Table(db.docs) && Home(db.docs, es[x]) == Some(i)
    requires forall y :: x < y < p ==>
               i < |db.docs| && es[y].importKey != db.docs[i].importKey && FindByStorage(db.docs, es[y].key) != Some(i)
    ensures i < |db.docs| && Holds(Prefix(db, es, p, s, now).docs, i, es[x].key, db.docs[i].importKey)
  {
    hide Work, Holds, FindByStorage;
    EntryWritesHome(db, es, x, s, now, i);
    assert es[..p] == es[..x + 1] + es[x + 1..p];
    WorkConcat(db, db.docs, es[..x + 1], es[x + 1..p], s, now);
    LaterLeaveRow(Prefix(db, es, x + 1, s, now), db.docs, es[x + 1..p], s, now, i, es[x].key, db.docs[i].importKey);
  }

  function TwoPages(db: Db, es: seq<Entry>, p: nat, s: Settings, now: Time): Db
    requires p <= |es|
  {
    ReconcilePage(ReconcilePage(db, es[..p], s, now), es[p..], s, now)
  }

  /** Row `i` has the import key and is stored elsewhere than at `key`. */
  ghost predicate Avoids(d: seq<Doc>, i: nat, key: string, importKey: string) {
    i < |d| && d[i].storageKey != Some(key) && d[i].importKey == importKey
  }

  /** The entry has another storage key, or does not lead to row `i`. */
  predicate KeepsOff(snapshot: seq<Doc>, e: Entry, i: nat, key: string, importKey: string) {
    e.key != key || (e.importKey != importKey && FindByStorage(snapshot, e.key) != Some(i))
  }

  lemma OthersAvoid(db: Db, snapshot: seq<Doc>, e: Entry, s: Settings, now: Time, i: nat, key: string, importKey: string)
    requires Avoids(db.docs, i, key, importKey) && KeepsOff(snapshot, e, i, key, importKey)
    requires importKey != "" && i < |snapshot| && snapshot[i].importKey == importKey
    ensures Avoids(Process(db, snapshot, e, s, now).docs, i, key, importKey)
  {
    hide Updated;
    var r := Resolve(snapshot, db.docs, e);
    if r.Some? && r.value.0 == i {
      UpdatedKeys(db.docs[i], r.value.1, e, s, now);
    }
  }

  lemma {:induction false} LaterAvoid(db: Db, snapshot: seq<Doc>, es: seq<Entry>, s: Settings, now: Time, i: nat, key: string,
                                      importKey: string)
    requires Avoids(db.docs, i, key, importKey) && forall e :: e in es ==> KeepsOff(snapshot, e, i, key, importKey)
    requires importKey != "" && i < |snapshot| && snapshot[i].importKey == importKey
    ensures Avoids(Work(db, snapshot, es, s, now).docs, i, key, importKey)
  {
    hide Avoids, KeepsOff, Process;
    if es != [] {
      var front := es[..|es| - 1];
      LaterAvoid(db, snapshot, front, s, now, i, key, importKey);
      assert es[|es| - 1] in es;
      OthersAvoid(Work(db, snapshot, front, s, now), snapshot, es[|es| - 1], s, now, i, key, importKey);
    }
  }

  /** Of two pages that part thief and finder, neither leaves the row with the finder's key. */
  lemma FinderMissesRow(db: Db, es: seq<Entry>, x: nat, p: nat, j: nat, s: Settings, now: Time, i: nat)
    requires x < p <= j < |es| && DistinctKeys(es) && Table(db.docs) && Lasting(es, x, j)
    requires Steals(db.docs, es[x], es[j]) && FindByStorage(db.docs, es[j].key) == Some(i)
    ensures Avoids(TwoPages(db, es, p, s, now).docs, i, es[j].key, es[x].importKey)
  {
    hide Work;
    var key, ik := es[j].key, es[x].importKey;
    EntryWritesHome(db, es, x, s, now, i);
    assert es[..p] == es[..x + 1] + es[x + 1..p];
    WorkConcat(db, db.docs, es[..x + 1], es[x + 1..p], s, now);
    assert forall e :: e in es[x + 1..p] ==> KeepsOff(db.docs, e, i, key, ik);
    LaterAvoid(Prefix(db, es, x + 1, s, now), db.docs, es[x + 1..p], s, now, i, key, ik);
    var start := Prefix(db, es, p, s, now);
    forall e | e in es[p..] ensures KeepsOff(start.docs, e, i, key, ik) {
      var y :| 0 <= y < |es[p..]| && es[p..][y] == e;
      assert e == es[p + y];
    }
    LaterAvoid(start, start.docs, es[p..], s, now, i, key, ik);
  }

  /** After a lasting steal across the boundary the row ends with the finder's key in one page, and not in two. */
  lemma StealShows(db: Db, es: seq<Entry>, x: nat, p: nat, j: nat, s: Settings, now: Time)
    requires x < p <= j < |es| && DistinctKeys(es) && Table(db.docs) && Steals(db.docs, es[x], es[j]) && Lasting(es, x, j)
    ensures TwoPages(db, es, p, s, now) != ReconcilePage(db, es, s, now)
  {
    hide Work, Table, TwoPages;
    var i := FindByStorage(db.docs, es[j].key).value;
    FinderMissesRow(db, es, x, p, j, s, now, i);
    assert es[..|es|] == es;
    assert Home(db.docs, es[j]) == Some(i);
    if j + 1 < |es| {
      WrittenRowStays(db, es, j, |es|, s, now, i);
    } else {
      EntryWritesHome(db, es, j, s, now, i);
    }
  }

  /** Two pages give what one gives exactly when no row is stolen across the boundary. */
  lemma TwoPagesAgreeExactlyWhen(db: Db, es: seq<Entry>, p: nat, s: Settings, now: Time)
    requires p <= |es| && DistinctKeys(es) && Table(db.docs) && StealsLast(db.docs, es)
    ensures TwoPages(db, es, p, s, now) == ReconcilePage(db, es, s, now) <==> !StealsAcross(db.docs, es, p)
  {
    if StealsAcross(db.docs, es, p) {
      var x, j :| 0 <= x < p <= j < |es| && Steals(db.docs, es[x], es[j]);
      StealShows(db, es, x, p, j, s, now);
    } else {
      PageGoesOn(db, es, p, |es|, s, now);
      assert es[..|es|] == es && es[p..|es|] == es[p..];
    }
  }

  ghost predicate AnySplitAgrees(db: Db, es: seq<Entry>, s: Settings, now: Time) {
    forall pages :: Flatten(pages) == es ==> ReconcilePages(db, pages, s, now) == ReconcilePage(db, es, s, now)
  }

  /** A lasting steal in listing order is enough for some split to differ, whatever else is listed. */
  lemma StealBreaksASplit(db: Db, es: seq<Entry>, s: Settings, now: Time)
    requires DistinctKeys(es) && Table(db.docs)
    requires exists x, j :: 0 <= x < j < |es| && Steals(db.docs, es[x], es[j]) && Lasting(es, x, j)
    ensures !AnySplitAgrees(db, es, s, now)
  {
    hide DistinctKeys, Table, Steals, Lasting, ReconcilePage, ReconcilePages, TwoPages, Flatten;
    var x, j :| 0 <= x < j < |es| && Steals(db.docs, es[x], es[j]) && Lasting(es, x, j);
    StealShows(db, es, x, j, j, s, now);
    TwoPagesAreSplit(db, es, j, s, now);
  }

  /** Without a steal in listing order no split matters, also for objects that share import keys. */
  lemma WithoutStealsSplitsAgree(db: Db, es: seq<Entry>, s: Settings, now: Time)
    requires DistinctKeys(es) && Table(db.docs) && !StealsInOrder(db.docs, es)
    ensures AnySplitAgrees(db, es, s, now)
  {
    hide DistinctKeys, Table, StealsInOrder, Work, ReconcilePages, Flatten;
    forall pages | Flatten(pages) == es ensures ReconcilePages(db, pages, s, now) == ReconcilePage(db, es, s, now) {
      PagesAreOne(db, pages, es, s, now);
      assert es[..|es|] == es;
    }
  }

  /**
   * However the listing is cut, rows and requests come out alike exactly when no entry steals a
   * later one's row; for steals that last, as all do among distinct import keys.
   */
  lemma AnySplitAgreesExactlyWhen(db: Db, es: seq<Entry>, s: Settings, now: Time)
    requires DistinctKeys(es) && Table(db.docs) && StealsLast(db.docs, es)
    ensures AnySplitAgrees(db, es, s, now) <==> !StealsInOrder(db.docs, es)
  {
    hide Table, Steals, Lasting, DistinctKeys, AnySplitAgrees;
    if StealsInOrder(db.docs, es) {
      StealBreaksASplit(db, es, s, now);
    } else {
      WithoutStealsSplitsAgree(db, es, s, now);
    }
  }

  lemma TwoPagesAreSplit(db: Db, es: seq<Entry>, p: nat, s: Settings, now: Time)
    requires p <= |es|
    ensures Flatten([es[..p], es[p..]]) == es && ReconcilePages(db, [es[..p], es[p..]], s, now) == TwoPages(db, es, p, s, now)
  {
    hide Work;
    var a, b := es[..p], es[p..];
    assert [a, b][..1] == [a] && [a][..0] == [];
    assert Flatten([a]) == [] + a && Flatten([a, b]) == Flatten([a]) + b;
    assert ReconcilePages(db, [], s, now) == db && ReconcilePages(db, [a], s, now) == ReconcilePage(db, a, s, now);
  }

  /** Distinct homes leave nothing to steal. */
  lemma DistinctHomesDoNotSteal(docs: seq<Doc>, es: seq<Entry>)
    requires DistinctHomes(docs, es)
    ensures DistinctKeys(es) && !StealsInOrder(docs, es) && StealsLast(docs, es)
  {
    forall i, j | 0 <= i < j < |es| ensures !Steals(docs, es[i], es[j]) {
      assert Home(docs, es[i]).Some? ==> Home(docs, es[i]) != Home(docs, es[j]);
    }
  }

  // ---- Two objects, whatever their import keys ----------------------------------------------------

  lemma PageOfTwo(db: Db, a: Entry, b: Entry, s: Settings, now: Time)
    ensures ReconcilePage(db, [a, b], s, now) == Process(Process(db, db.docs, a, s, now), db.docs, b, s, now)
  {
    hide Process;
    assert [a, b][..1] == [a] && [a][..0] == [];
    assert Work(db, db.docs, [a], s, now) == Process(db, db.docs, a, s, now);
  }

  lemma OnePage(db: Db, es: seq<Entry>, s: Settings, t: Time)
    ensures ReconcilePages(db, [es], s, t) == ReconcilePage(db, es, s, t)
  {
    assert [es][..0] == [];
    assert ReconcilePages(db, [], s, t) == db;
  }

  lemma SinglePage(db: Db, e: Entry, s: Settings, t: Time)
    ensures ReconcilePage(db, [e], s, t) == Process(db, db.docs, e, s, t)
  {
    hide Process, Work;
    assert [] + [e] == [e];
    WorkNothing(db, db.docs, s, t);
    WorkAppend(db, db.docs, [], e, s, t);
  }

  lemma PagesOfOne(db: Db, a: Entry, b: Entry, s: Settings, now: Time)
    ensures var first := Process(db, db.docs, a, s, now);
            ReconcilePages(db, [[a], [b]], s, now) == Process(first, first.docs, b, s, now)
  {
    hide Process, ReconcilePage, Work, ReconcilePages, Flatten;
    TwoPagesAreSplit(db, [a, b], 1, s, now);
    assert [a, b][..1] == [a] && [a, b][1..] == [b];
    SinglePage(db, a, s, now);
    SinglePage(Process(db, db.docs, a, s, now), b, s, now);
  }

  /** Nothing that `a` wrote into the row gets lost when `b` rewrites it from its earlier content. */
  predicate Harmless(row: Doc, a: Entry, b: Entry) {
    && (b.size.Some? || a.size.None? || a.size == row.size)
    && a.parts.revision <= Later(row.revision, b.parts.revision)
    && (b.match_.gradeId.Some? || a.match_.gradeId.None? || (a.match_.gradeId == row.gradeId && row.mapping != Manual))
  }

  /** The stolen row is `b`'s by import key as well, by storage key it was nobody else's, and `a` left no trace. */
  predicate HandedBack(docs: seq<Doc>, a: Entry, b: Entry) {
    var at := FindByStorage(docs, b.key);
    && at.Some? && a.importKey == b.importKey && FindByStorage(docs[..at.value], b.key).None?
    && Harmless(docs[at.value], a, b)
  }

  lemma MergesAgree(row: Doc, mid: Doc, a: Entry, b: Entry)
    requires mid.size == OrElse(a.size, row.size) && mid.revision == Later(row.revision, a.parts.revision)
    requires mid.gradeId == OrElse(a.match_.gradeId, row.gradeId) && mid.mapping == MappingAfter(row, a)
    ensures Harmless(row, a, b) <==>
              && OrElse(b.size, row.size) == OrElse(b.size, mid.size)
              && Later(row.revision, b.parts.revision) == Later(mid.revision, b.parts.revision)
              && OrElse(b.match_.gradeId, row.gradeId) == OrElse(b.match_.gradeId, mid.gradeId)
              && MappingAfter(row, b) == MappingAfter(mid, b)
  {
  }

  predicate KeepsStatus(read: Doc, e: Entry, s: Settings) {
    !Promotes(read, e, s) && (read.gradeId.Some? || e.match_.gradeId.None?)
  }

  lemma StatusAfter(row: Doc, read: Doc, e: Entry, s: Settings, now: Time)
    ensures var d := Updated(row, read, e, s, now);
            && d.gradeId == OrElse(e.match_.gradeId, read.gradeId)
            && d.status == (if Promotes(read, e, s) then Verified
                            else if KeepsStatus(read, e, s) then row.status else FreshStatus(e, s))
            && d.notes == (if Promotes(read, e, s) then read.notes + ["Auto-verified from R2 storage sync"]
                           else if KeepsStatus(read, e, s) then row.notes else read.notes + ["Storage sync"])
            && d.approvedAt == (if Promotes(read, e, s) then OrElse(read.approvedAt, Some(now)) else row.approvedAt)
            && d.approvedBy == (if Promotes(read, e, s) then OrElse(read.approvedBy, s.admin) else row.approvedBy)
  {
    hide MappingAfter, Later, OrElse, Promotes, FreshStatus;
  }

  lemma StatusAgrees(row: Doc, a: Entry, b: Entry, s: Settings, now: Time)
    requires Sound(a) && Sound(b)
    ensures var mid := Updated(row, row, a, s, now);
            var x, y := Updated(mid, row, b, s, now), Updated(mid, mid, b, s, now);
            && x.status == y.status && x.notes == y.notes && x.approvedAt == y.approvedAt && x.approvedBy == y.approvedBy
  {
    hide Updated;
    var mid := Updated(row, row, a, s, now);
    StatusAfter(row, row, a, s, now);
    StatusAfter(mid, row, b, s, now);
    StatusAfter(mid, mid, b, s, now);
  }

  /** What the update sets besides the merged values and the status fields. */
  lemma OtherwiseSame(row: Doc, read: Doc, other: Doc, e: Entry, s: Settings, now: Time)
    requires read.importKey == other.importKey != ""
    ensures var x, y := Updated(row, read, e, s, now), Updated(row, other, e, s, now);
            && x.(size := y.size, revision := y.revision, gradeId := y.gradeId, mapping := y.mapping, status := y.status,
                  notes := y.notes, approvedAt := y.approvedAt, approvedBy := y.approvedBy) == y
            && x.size == OrElse(e.size, read.size) && x.revision == Later(read.revision, e.parts.revision)
            && x.gradeId == OrElse(e.match_.gradeId, read.gradeId) && x.mapping == MappingAfter(read, e)
  {
    hide MappingAfter, Later, OrElse, Promotes, FreshStatus;
  }

  lemma RewriteAgreesExactlyWhen(row: Doc, a: Entry, b: Entry, s: Settings, now: Time)
    requires Sound(a) && Sound(b) && row.importKey != ""
    ensures var mid := Updated(row, row, a, s, now);
            Updated(mid, row, b, s, now) == Updated(mid, mid, b, s, now) <==> Harmless(row, a, b)
  {
    hide Updated, Harmless, MappingAfter, Later, OrElse;
    var mid := Updated(row, row, a, s, now);
    OtherwiseSame(row, row, row, a, s, now);
    UpdatedShapes(a, s, now);
    OtherwiseSame(mid, row, mid, b, s, now);
    OtherwiseSame(mid, mid, row, b, s, now);
    MergesAgree(row, mid, a, b);
    StatusAgrees(row, a, b, s, now);
  }

  lemma NotStolen(db: Db, a: Entry, b: Entry, s: Settings, now: Time)
    requires Table(db.docs) && a.key != b.key && !Steals(db.docs, a, b)
    ensures var docs := Process(db, db.docs, a, s, now).docs; Resolve(db.docs, docs, b) == Resolve(docs, docs, b)
  {
    hide Updated, CreatedDoc, AfterWrite;
    UpdatedShapes(a, s, now);
    var docs := Process(db, db.docs, a, s, now).docs;
    var at := FindByStorage(db.docs, b.key);
    if at.Some? {
      FoundAt(docs, b.key, at.value);
    } else {
      NotFound(docs, b.key);
    }
  }

  lemma UpdatedShapes(e: Entry, s: Settings, now: Time)
    ensures forall row: Doc, read: Doc :: Updated(row, read, e, s, now).storageKey == Some(e.key)
    ensures forall row: Doc :: row.importKey != "" ==> Updated(row, row, e, s, now).importKey == row.importKey
    ensures CreatedDoc(e, s, now).storageKey == Some(e.key)
  {
  }

  lemma StolenRow(db: Db, a: Entry, b: Entry, s: Settings, now: Time, i: nat)
    requires Table(db.docs) && a.key != b.key && Steals(db.docs, a, b) && FindByStorage(db.docs, b.key) == Some(i)
    ensures var mid := Updated(db.docs[i], db.docs[i], a, s, now);
            var first := Process(db, db.docs, a, s, now);
            && first.docs == db.docs[i := mid]
            && Resolve(db.docs, first.docs, b) == Some((i, db.docs[i]))
            && (FindByStorage(db.docs[..i], b.key).None? && a.importKey == b.importKey ==>
                  Resolve(first.docs, first.docs, b) == Some((i, mid)))
            && (FindByStorage(db.docs[..i], b.key).Some? || a.importKey != b.importKey ==>
                  Resolve(first.docs, first.docs, b).None? || Resolve(first.docs, first.docs, b).value.0 != i)
  {
    hide Updated, CreatedDoc, AfterWrite;
    UpdatedShapes(a, s, now);
    var docs := Process(db, db.docs, a, s, now).docs;
    assert docs[i].importKey == a.importKey && forall j :: 0 <= j < |docs| ==> docs[j].importKey == db.docs[j].importKey;
    var before := FindByStorage(db.docs[..i], b.key);
    if before.Some? {
      FoundAt(docs, b.key, before.value);
    } else {
      forall j | 0 <= j < |docs| ensures !StoredAt(docs[j], b.key) {
        assert j < i ==> docs[j] == db.docs[..i][j];
      }
      NotFound(docs, b.key);
    }
  }

  /**
   * Two objects on one page and on two leave the same rows and requests exactly when the first
   * does not steal the row of the second, or hands it back.
   */
  lemma TwoObjectsAgreeExactlyWhen(db: Db, a: Entry, b: Entry, s: Settings, now: Time)
    requires Table(db.docs) && a.key != b.key && Sound(a) && Sound(b)
    ensures ReconcilePages(db, [[a, b]], s, now) == ReconcilePages(db, [[a], [b]], s, now)
       <==> !Steals(db.docs, a, b) || HandedBack(db.docs, a, b)
  {
    hide ReconcilePages, ReconcilePage, Updated, CreatedDoc, AfterWrite, Resolve, Harmless;
    OnePage(db, [a, b], s, now);
    PageOfTwo(db, a, b, s, now);
    PagesOfOne(db, a, b, s, now);
    UpdatedShapes(a, s, now);
    UpdatedShapes(b, s, now);
    var first := Process(db, db.docs, a, s, now);
    if Steals(db.docs, a, b) {
      var i := FindByStorage(db.docs, b.key).value;
      StolenRow(db, a, b, s, now, i);
      RewriteAgreesExactlyWhen(db.docs[i], a, b, s, now);
      assert Process(first, db.docs, b, s, now).docs[i].storageKey == Some(b.key);
      if HandedBack(db.docs, a, b) {
      } else if a.importKey == b.importKey && FindByStorage(db.docs[..i], b.key).None? {
        assert Process(first, db.docs, b, s, now).docs[i] != Process(first, first.docs, b, s, now).docs[i];
      } else {
        assert Process(first, first.docs, b, s, now).docs[i].storageKey == Some(a.key);
      }
    } else {
      NotStolen(db, a, b, s, now);
    }
  }
}

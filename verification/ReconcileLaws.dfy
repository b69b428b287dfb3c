/**
 * What reconciling guarantees: repeating it changes nothing, rejected rows stay rejected,
 * revisions never fall, no request is left waiting, and clock readings do not matter.
 */
module ReconcileLaws {
  import opened Prelude
  import opened Documents
  import opened Reconcile

  // ---- Once is enough ------------------------------------------------------------------------

  /** The values an update merges come out the same when merged again. */
  lemma ValuesSettle(row: Doc, d: Doc, e: Entry)
    requires d.size == OrElse(e.size, row.size) && d.revision == Later(row.revision, e.parts.revision)
    requires d.gradeId == OrElse(e.match_.gradeId, row.gradeId) && d.mapping == MappingAfter(row, e)
    ensures OrElse(e.size, d.size) == d.size && Later(d.revision, e.parts.revision) == d.revision
    ensures OrElse(e.match_.gradeId, d.gradeId) == d.gradeId && MappingAfter(d, e) == d.mapping
    ensures e.match_.gradeId.Some? ==> d.gradeId.Some?
    ensures e.match_.gradeId.None? ==> d.gradeId == row.gradeId
  {
  }

  lemma FreshIsLasting(e: Entry, s: Settings)
    ensures s.autoVerify && Matched(e) ==> FreshStatus(e, s) == Verified
  {
  }

  lemma UpdateIsFixed(row: Doc, e: Entry, s: Settings, now: Time, later: Time)
    requires row.importKey != ""
    ensures var d := Updated(row, row, e, s, now); Updated(d, d, e, s, later) == d
  {
    hide FreshStatus, MappingAfter, OrElse, Later;
    var d := Updated(row, row, e, s, now);
    ValuesSettle(row, d, e);
    FreshIsLasting(e, s);
  }

  lemma NewRowIsFixed(e: Entry, s: Settings, now: Time, later: Time)
    requires e.importKey != ""
    ensures var d := CreatedDoc(e, s, now); Updated(d, d, e, s, later) == d
  {
  }

  lemma OutcomeIsFixed(docs: seq<Doc>, e: Entry, s: Settings, now: Time, later: Time)
    requires Table(docs) && e.importKey != ""
    ensures var d := Outcome(docs, e, s, now); Updated(d, d, e, s, later) == d
  {
    hide Updated, CreatedDoc;
    var home := Home(docs, e);
    if home.Some? {
      UpdateIsFixed(docs[home.value], e, s, now, later);
    } else {
      NewRowIsFixed(e, s, now, later);
    }
  }

  /** In the finished table every entry finds the row it left behind. */
  lemma FindsItself(docs: seq<Doc>, es: seq<Entry>, d: seq<Doc>, s: Settings, now: Time, j: nat) returns (i: nat)
    requires Table(docs) && DistinctHomes(docs, es) && Progress(docs, es, |es|, d, s, now) && j < |es|
    ensures i < |d| && FindByStorage(d, es[j].key) == Some(i) && d[i] == Outcome(docs, es[j], s, now)
    ensures Home(docs, es[j]) == if i < |docs| then Some(i) else None
  {
    hide OldRows, NewRows, Updated, CreatedDoc, Outcome;
    assert IsPlaced(docs, es[j], d, s, now);
    i :| PlacedAt(docs, es[j], d, i, s, now);
    OutcomeKeys(docs, es[j], s, now);
    forall m | i < m < |d| ensures !StoredAt(d[m], es[j].key) {
      var t := TouchedKeys(docs, es, |es|, d, s, now, m);
    }
    FoundAt(d, es[j].key, i);
  }

  /** The requests for the grade of every verified outcome are settled. */
  lemma {:induction false} DirectSettles(db: Db, es: seq<Entry>, k: nat, j: nat, s: Settings, now: Time)
    requires j < k <= |es|
    ensures var o := Outcome(db.docs, es[j], s, now);
            o.status == Verified && o.gradeId.Some? ==> NoneWaiting(Direct(db, db.docs, es[..k], s, now).requests, o.gradeId.value)
  {
    hide *;
    var o := Outcome(db.docs, es[j], s, now);
    DirectNext(db, es, k - 1, s, now);
    if o.status == Verified && o.gradeId.Some? {
      if j < k - 1 {
        DirectSettles(db, es, k - 1, j, s, now);
      }
      DirectStepSettles(Direct(db, db.docs, es[..k - 1], s, now), db.docs, es[k - 1], s, now, o.gradeId.value);
    }
  }

  lemma DirectStepSettles(db: Db, docs: seq<Doc>, e: Entry, s: Settings, now: Time, grade: nat)
    ensures var row, after := Outcome(docs, e, s, now), DirectStep(db, docs, e, s, now);
            && (row.status == Verified && row.gradeId.Some? ==> NoneWaiting(after.requests, row.gradeId.value))
            && (NoneWaiting(db.requests, grade) ==> NoneWaiting(after.requests, grade))
  {
    var row, home := Outcome(docs, e, s, now), Home(docs, e);
    if row.status == Verified && row.gradeId.Some? {
      FulfilSettles(db.requests, row.gradeId.value, if home.Some? && home.value < |db.docs| then home.value else |db.docs|, now, grade);
    }
  }

  /** An entry that finds its row by storage key and would not change it changes nothing. */
  lemma RewriteIsNothing(db: Db, e: Entry, s: Settings, now: Time, i: nat)
    requires i < |db.docs| && FindByStorage(db.docs, e.key) == Some(i)
    requires Updated(db.docs[i], db.docs[i], e, s, now) == db.docs[i] && Settled(db, i)
    ensures Process(db, db.docs, e, s, now) == db
  {
    hide Updated;
    if db.docs[i].status == Verified && db.docs[i].gradeId.Some? {
      FulfilSettles(db.requests, db.docs[i].gradeId.value, i, now, 0);
    }
  }

  lemma AgainIsNothing(db: Db, es: seq<Entry>, s: Settings, now: Time, later: Time, j: nat)
    requires Table(db.docs) && DistinctHomes(db.docs, es) && j < |es| && es[j].importKey != ""
    ensures var done := Direct(db, db.docs, es, s, now); Process(done, done.docs, es[j], s, later) == done
  {
    hide Outcome, Direct, Process, Progress;
    assert es[..|es|] == es;
    var done := Direct(db, db.docs, es, s, now);
    DirectProgress(db, es, |es|, s, now);
    var i := FindsItself(db.docs, es, done.docs, s, now, j);
    OutcomeIsFixed(db.docs, es[j], s, now, later);
    DirectSettles(db, es, |es|, j, s, now);
    RewriteIsNothing(done, es[j], s, later, i);
  }

  lemma {:induction false} WorkOnFixed(db: Db, es: seq<Entry>, s: Settings, now: Time)
    requires forall j :: 0 <= j < |es| ==> Process(db, db.docs, es[j], s, now) == db
    ensures Work(db, db.docs, es, s, now) == db
  {
    if es != [] {
      WorkOnFixed(db, es[..|es| - 1], s, now);
    }
  }

  lemma {:induction false} PagesOnFixed(db: Db, pages: seq<seq<Entry>>, s: Settings, now: Time)
    requires forall e :: e in Flatten(pages) ==> Process(db, db.docs, e, s, now) == db
    ensures ReconcilePages(db, pages, s, now) == db
  {
    if pages != [] {
      PagesOnFixed(db, pages[..|pages| - 1], s, now);
      WorkOnFixed(db, pages[|pages| - 1], s, now);
    }
  }

  /** A second pass, at any time and cut into any pages, changes no row and no request. */
  lemma SecondPassChangesNothing(db: Db, pages: seq<seq<Entry>>, again: seq<seq<Entry>>, s: Settings, now: Time,
        later: Time)
    requires Table(db.docs) && DistinctHomes(db.docs, Flatten(pages)) && Flatten(again) == Flatten(pages)
    requires forall e :: e in Flatten(pages) ==> e.importKey != ""
    ensures var done := ReconcilePages(db, pages, s, now); ReconcilePages(done, again, s, later) == done
  {
    var es := Flatten(pages);
    PagesAreDirect(db, pages, es, s, now);
    var done := ReconcilePages(db, pages, s, now);
    forall e | e in Flatten(again) ensures Process(done, done.docs, e, s, later) == done {
      var j :| 0 <= j < |es| && es[j] == e;
      AgainIsNothing(db, es, s, now, later, j);
    }
    PagesOnFixed(done, again, s, later);
  }

  // ---- Clock readings ------------------------------------------------------------------------------

  /** Equal but for the moments at which something was stamped. */
  predicate SameDoc(a: Doc, b: Doc) {
    && b == a.(approvedAt := b.approvedAt, uploadedAt := b.uploadedAt)
    && a.approvedAt.Some? == b.approvedAt.Some? && a.uploadedAt.Some? == b.uploadedAt.Some?
  }

  predicate SameRequest(a: Request, b: Request) {
    b == a.(resolvedAt := b.resolvedAt) && a.resolvedAt.Some? == b.resolvedAt.Some?
  }

  ghost predicate SameDocs(a: seq<Doc>, b: seq<Doc>) {
    |a| == |b| && forall i :: 0 <= i < |a| ==> SameDoc(a[i], b[i])
  }

  ghost predicate SameButTimes(a: Db, b: Db) {
    && SameDocs(a.docs, b.docs)
    && |a.requests| == |b.requests| && forall i :: 0 <= i < |a.requests| ==> SameRequest(a.requests[i], b.requests[i])
  }

  /** Pages run one after another, each with its own clock reading. */
  function ReconcileTimed(db: Db, pages: seq<seq<Entry>>, s: Settings, nows: seq<Time>): Db
    requires |nows| == |pages|
  {
    if pages == [] then db
    else
      ReconcilePage(ReconcileTimed(db, pages[..|pages| - 1], s, nows[..|pages| - 1]), pages[|pages| - 1], s, nows[|pages| - 1])
  }

  lemma {:induction false} LookupsIgnoreTimes(a: seq<Doc>, b: seq<Doc>, key: string)
    requires SameDocs(a, b)
    ensures FindByStorage(a, key) == FindByStorage(b, key) && FindByImport(a, key) == FindByImport(b, key)
  {
    if a != [] {
      assert SameDoc(a[|a| - 1], b[|a| - 1]);
      LookupsIgnoreTimes(a[..|a| - 1], b[..|a| - 1], key);
    }
  }

  lemma UpdatesIgnoreTimes(row: Doc, row': Doc, read: Doc, read': Doc, e: Entry, s: Settings, t: Time, t': Time)
    requires SameDoc(row, row') && SameDoc(read, read')
    ensures SameDoc(Updated(row, read, e, s, t), Updated(row', read', e, s, t'))
  {
    var u, u' := Updated(row, read, e, s, t), Updated(row', read', e, s, t');
    if Promotes(read, e, s) {
      assert u'.approvedAt.Some? && u.approvedAt.Some?;
    } else if read.gradeId.Some? || e.match_.gradeId.None? {
      assert u'.approvedAt == row'.approvedAt && u.approvedAt == row.approvedAt;
    } else {
      assert u'.approvedAt == row'.approvedAt && u.approvedAt == row.approvedAt;
    }
  }

  lemma NewRowsIgnoreTimes(e: Entry, s: Settings, t: Time, t': Time)
    ensures SameDoc(CreatedDoc(e, s, t), CreatedDoc(e, s, t'))
  {
  }

  lemma PutIgnoresTimes(a: Db, b: Db, at: nat, d: Doc, d': Doc, t: Time, t': Time)
    requires SameButTimes(a, b) && at <= |a.docs| && SameDoc(d, d')
    ensures SameButTimes(Put(a, at, d, t), Put(b, at, d', t'))
  {
  }

  lemma ProcessIgnoresTimes(a: Db, b: Db, snapshot: seq<Doc>, snapshot': seq<Doc>, e: Entry, s: Settings, t: Time, t': Time)
    requires SameButTimes(a, b) && SameDocs(snapshot, snapshot')
    ensures SameButTimes(Process(a, snapshot, e, s, t), Process(b, snapshot', e, s, t'))
  {
    LookupsIgnoreTimes(snapshot, snapshot', e.key);
    LookupsIgnoreTimes(a.docs, b.docs, e.importKey);
    var r, r' := Resolve(snapshot, a.docs, e), Resolve(snapshot', b.docs, e);
    if r.None? {
      NewRowsIgnoreTimes(e, s, t, t');
      PutIgnoresTimes(a, b, |a.docs|, CreatedDoc(e, s, t), CreatedDoc(e, s, t'), t, t');
    } else if r.value.0 < |a.docs| {
      var i := r.value.0;
      UpdatesIgnoreTimes(a.docs[i], b.docs[i], r.value.1, r'.value.1, e, s, t, t');
      PutIgnoresTimes(a, b, i, Updated(a.docs[i], r.value.1, e, s, t), Updated(b.docs[i], r'.value.1, e, s, t'), t, t');
    }
  }

  lemma {:induction false} WorkIgnoresTimes(a: Db, b: Db, snapshot: seq<Doc>, snapshot': seq<Doc>, es: seq<Entry>,
        s: Settings, t: Time, t': Time)
    requires SameButTimes(a, b) && SameDocs(snapshot, snapshot')
    ensures SameButTimes(Work(a, snapshot, es, s, t), Work(b, snapshot', es, s, t'))
  {
    if es != [] {
      var front := es[..|es| - 1];
      WorkIgnoresTimes(a, b, snapshot, snapshot', front, s, t, t');
      ProcessIgnoresTimes(Work(a, snapshot, front, s, t), Work(b, snapshot', front, s, t'), snapshot, snapshot', es[|es| - 1], s, t, t');
    }
  }

  /** When the pages run never matters for more than the recorded moments. */
  lemma {:induction false} TimesDoNotMatter(a: Db, b: Db, pages: seq<seq<Entry>>, s: Settings, nows: seq<Time>, now: Time)
    requires SameButTimes(a, b) && |nows| == |pages|
    ensures SameButTimes(ReconcileTimed(a, pages, s, nows), ReconcilePages(b, pages, s, now))
  {
    if pages != [] {
      var n := |pages| - 1;
      TimesDoNotMatter(a, b, pages[..n], s, nows[..n], now);
      var a', b' := ReconcileTimed(a, pages[..n], s, nows[..n]), ReconcilePages(b, pages[..n], s, now);
      WorkIgnoresTimes(a', b', a'.docs, b'.docs, pages[n], s, nows[n], now);
    }
  }

  /**
   * Two complete passes over the same objects, cut into any pages that run at any moments,
   * leave what one pass in one page leaves, recorded moments aside.
   */
  lemma ReconcileIsIdempotent(db: Db, pages: seq<seq<Entry>>, again: seq<seq<Entry>>, s: Settings,
                              nows: seq<Time>, laters: seq<Time>, now: Time)
    requires |nows| == |pages| && |laters| == |again| && Flatten(again) == Flatten(pages)
    requires Table(db.docs) && DistinctHomes(db.docs, Flatten(pages)) && forall e :: e in Flatten(pages) ==> e.importKey != ""
    ensures var once := ReconcileTimed(db, pages, s, nows);
            && SameButTimes(once, ReconcilePage(db, Flatten(pages), s, now))
            && SameButTimes(ReconcileTimed(once, again, s, laters), ReconcilePage(db, Flatten(pages), s, now))
  {
    var once, one := ReconcileTimed(db, pages, s, nows), ReconcilePages(db, pages, s, now);
    TimesDoNotMatter(db, db, pages, s, nows, now);
    ChunkIndependent(db, pages, s, now);
    TimesDoNotMatter(once, one, again, s, laters, now);
    SecondPassChangesNothing(db, pages, again, s, now, now);
  }

  // ---- Without assumptions on the objects ------------------------------------------------------

  /** Rows below the snapshot only move forward while a page is worked through. */
  ghost predicate Forward(from: seq<Doc>, to: seq<Doc>) {
    && |from| <= |to|
    && forall i :: 0 <= i < |from| ==>
         && from[i].revision <= to[i].revision
         && (from[i].status == Rejected && from[i].gradeId.Some? ==> to[i].status == Rejected && to[i].gradeId.Some?)
  }

  lemma UpdateIsForward(row: Doc, read: Doc, e: Entry, s: Settings, now: Time)
    ensures var d := Updated(row, read, e, s, now);
            && read.revision <= d.revision
            && (read.gradeId.Some? ==> d.gradeId.Some?)
            && (read.status == Rejected && read.gradeId.Some? ==> d.status == row.status)
  {
    hide MappingAfter, FreshStatus;
  }

  lemma ProcessIsForward(db: Db, snapshot: seq<Doc>, e: Entry, s: Settings, now: Time)
    requires Forward(snapshot, db.docs)
    ensures Forward(snapshot, Process(db, snapshot, e, s, now).docs)
  {
    hide Updated, CreatedDoc, AfterWrite;
    var r := Resolve(snapshot, db.docs, e);
    if r.Some? && r.value.0 < |db.docs| {
      UpdateIsForward(db.docs[r.value.0], r.value.1, e, s, now);
    }
  }

  lemma {:induction false} WorkIsForward(db: Db, snapshot: seq<Doc>, es: seq<Entry>, s: Settings, now: Time)
    requires Forward(snapshot, db.docs)
    ensures Forward(snapshot, Work(db, snapshot, es, s, now).docs)
  {
    if es != [] {
      WorkIsForward(db, snapshot, es[..|es| - 1], s, now);
      ProcessIsForward(Work(db, snapshot, es[..|es| - 1], s, now), snapshot, es[|es| - 1], s, now);
    }
  }

  /** For any objects and pages, revisions never fall and a rejected row that has a grade stays rejected. */
  lemma {:induction false} PagesAreForward(db: Db, pages: seq<seq<Entry>>, s: Settings, now: Time)
    ensures Forward(db.docs, ReconcilePages(db, pages, s, now).docs)
  {
    if pages != [] {
      var before := ReconcilePages(db, pages[..|pages| - 1], s, now);
      PagesAreForward(db, pages[..|pages| - 1], s, now);
      WorkIsForward(before, before.docs, pages[|pages| - 1], s, now);
    }
  }

  lemma RejectedIsUpdated(row: Doc, e: Entry, s: Settings, now: Time)
    requires row.status == Rejected
    ensures Updated(row, row, e, s, now).status
         == if row.gradeId.None? && e.match_.gradeId.Some? then FreshStatus(e, s) else Rejected
  {
  }

  /**
   * Exactly the rejected rows that have no grade are given a new status by a reconcile, and only
   * when a match appears; this is in every split of objects with distinct homes.
   */
  lemma RejectedIsRevivedExactlyWhen(db: Db, pages: seq<seq<Entry>>, s: Settings, now: Time, j: nat)
    requires Table(db.docs) && DistinctHomes(db.docs, Flatten(pages)) && j < |Flatten(pages)|
    requires var home := Home(db.docs, Flatten(pages)[j]); home.Some? && db.docs[home.value].status == Rejected
    requires Sound(Flatten(pages)[j])
    ensures var e := Flatten(pages)[j];
            var i, after := Home(db.docs, e).value, ReconcilePages(db, pages, s, now).docs;
            i < |after| && (after[i].status != Rejected <==> db.docs[i].gradeId.None? && e.match_.gradeId.Some?)
  {
    hide Updated, CreatedDoc, Process, Progress, DirectStep;
    var es := Flatten(pages);
    var i, done := Home(db.docs, es[j]).value, Direct(db, db.docs, es, s, now);
    PagesAreDirect(db, pages, es, s, now);
    assert es[..|es|] == es;
    DirectProgress(db, es, |es|, s, now);
    RowAtHome(db.docs, es, done.docs, s, now, j);
    RejectedIsUpdated(db.docs[i], es[j], s, now);
  }

  /** In the finished table the row at an entry's home is what the entry leaves. */
  lemma RowAtHome(docs: seq<Doc>, es: seq<Entry>, d: seq<Doc>, s: Settings, now: Time, j: nat)
    requires Table(docs) && DistinctHomes(docs, es) && Progress(docs, es, |es|, d, s, now) && j < |es| && Home(docs, es[j]).Some?
    ensures Home(docs, es[j]).value < |d| && d[Home(docs, es[j]).value] == Outcome(docs, es[j], s, now)
  {
    assert IsPlaced(docs, es[j], d, s, now);
    var i: nat :| PlacedAt(docs, es[j], d, i, s, now);
  }

  /** The row an entry writes. */
  function Target(db: Db, snapshot: seq<Doc>, e: Entry): nat {
    var r := Resolve(snapshot, db.docs, e);
    if r.Some? then r.value.0 else |db.docs|
  }

  function Targets(db: Db, snapshot: seq<Doc>, es: seq<Entry>, s: Settings, now: Time): set<nat> {
    if es == [] then {}
    else
      var front := es[..|es| - 1];
      Targets(db, snapshot, front, s, now) + {Target(Work(db, snapshot, front, s, now), snapshot, es[|es| - 1])}
  }

  function PageTargets(db: Db, pages: seq<seq<Entry>>, s: Settings, now: Time): set<nat> {
    if pages == [] then {}
    else
      var before := ReconcilePages(db, pages[..|pages| - 1], s, now);
      PageTargets(db, pages[..|pages| - 1], s, now) + Targets(before, before.docs, pages[|pages| - 1], s, now)
  }

  /** The row exists, and if it is verified nobody waits for its grade. */
  ghost predicate Settled(db: Db, i: nat) {
    i < |db.docs| && (db.docs[i].status == Verified && db.docs[i].gradeId.Some? ==> NoneWaiting(db.requests, db.docs[i].gradeId.value))
  }

  lemma PutSettles(db: Db, at: nat, d: Doc, now: Time, i: nat)
    requires at <= |db.docs|
    ensures Settled(Put(db, at, d, now), at)
    ensures Settled(db, i) ==> Settled(Put(db, at, d, now), i)
  {
    if d.status == Verified && d.gradeId.Some? {
      FulfilSettles(db.requests, d.gradeId.value, at, now, if i < |db.docs| then db.docs[i].gradeId.GetOr(0) else 0);
    }
  }

  lemma {:induction false} WorkSettles(db: Db, snapshot: seq<Doc>, es: seq<Entry>, s: Settings, now: Time, i: nat)
    requires |snapshot| <= |db.docs|
    ensures |snapshot| <= |Work(db, snapshot, es, s, now).docs|
    ensures i in Targets(db, snapshot, es, s, now) || Settled(db, i) ==> Settled(Work(db, snapshot, es, s, now), i)
  {
    if es != [] {
      var front, e := es[..|es| - 1], es[|es| - 1];
      WorkSettles(db, snapshot, front, s, now, i);
      var before := Work(db, snapshot, front, s, now);
      var r := Resolve(snapshot, before.docs, e);
      PutSettles(before, Target(before, snapshot, e),
                 if r.Some? then Updated(before.docs[r.value.0], r.value.1, e, s, now) else CreatedDoc(e, s, now), now, i);
    }
  }

  /** For any objects and pages, no request is left waiting for the grade of a processed row that is verified. */
  lemma {:induction false} NobodyLeftWaiting(db: Db, pages: seq<seq<Entry>>, s: Settings, now: Time, i: nat)
    requires i in PageTargets(db, pages, s, now)
    ensures Settled(ReconcilePages(db, pages, s, now), i)
  {
    var front, last := pages[..|pages| - 1], pages[|pages| - 1];
    var before := ReconcilePages(db, front, s, now);
    if i in PageTargets(db, front, s, now) {
      NobodyLeftWaiting(db, front, s, now, i);
    }
    WorkSettles(before, before.docs, last, s, now, i);
  }
}

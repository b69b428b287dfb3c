/**
 * What a storage sync leaves behind, as an administrator sees it: which rows are published and
 * by whom, which requests are answered and by which row, and what the rows say about their files.
 */
module SyncOutcomes {
  import opened Prelude
  import opened Text
  import opened Documents
  import opened Reconcile
  import opened ReconcileLaws
  import opened PageSplits
  import opened MatchTokens
  import Lifecycle
  import Matcher
  import MatchOutcomes
  import ObjectKeys
  import Words

  // ---- Publishing and answering, for any objects and pages -------------------------------------

  predicate PublishedAs(docs: seq<Doc>, i: nat, grade: nat) {
    i < |docs| && docs[i].status == Verified && docs[i].gradeId == Some(grade)
  }

  /** The request was waiting and has been answered by row `i`. */
  predicate AnsweredBy(a: Request, b: Request, i: nat, now: Time) {
    (a.status == OpenRequest || a.status == InProgress) && b == Request(a.gradeId, Fulfilled, Some(i), Some(now))
  }

  /** Rows published now were published before. */
  ghost predicate NoneNew(before: seq<Doc>, after: seq<Doc>) {
    forall i :: 0 <= i < |after| && after[i].status == Verified ==> i < |before| && before[i].status == Verified
  }

  /** The table after `k` entries of page `p`. */
  function Midway(db: Db, pages: seq<seq<Entry>>, p: nat, k: nat, s: Settings, now: Time): Db
    requires p < |pages| && k <= |pages[p]|
  {
    Prefix(ReconcilePages(db, pages[..p], s, now), pages[p], k, s, now)
  }

  ghost predicate PublishedMidway(db: Db, pages: seq<seq<Entry>>, s: Settings, now: Time, i: nat, grade: nat) {
    exists p: nat, k: nat :: p < |pages| && k <= |pages[p]| && PublishedAs(Midway(db, pages, p, k, s, now).docs, i, grade)
  }

  ghost predicate PublishedInPage(db: Db, es: seq<Entry>, n: nat, s: Settings, now: Time, i: nat, grade: nat) {
    exists k: nat :: k <= n && k <= |es| && PublishedAs(Prefix(db, es, k, s, now).docs, i, grade)
  }

  lemma UpdatePublishes(row: Doc, read: Doc, e: Entry, s: Settings, now: Time)
    ensures !s.autoVerify && Updated(row, read, e, s, now).status == Verified ==> row.status == Verified
    ensures !s.autoVerify ==> CreatedDoc(e, s, now).status != Verified
  {
    hide MappingAfter;
  }

  lemma StepPublishes(db: Db, snapshot: seq<Doc>, e: Entry, s: Settings, now: Time)
    ensures !s.autoVerify ==> NoneNew(db.docs, Process(db, snapshot, e, s, now).docs)
    ensures |db.docs| <= |Process(db, snapshot, e, s, now).docs|
  {
    hide Updated, CreatedDoc, AfterWrite;
    var r := Resolve(snapshot, db.docs, e);
    var at := if r.Some? then r.value.0 else 0;
    if at < |db.docs| && r.Some? {
      UpdatePublishes(db.docs[at], r.value.1, e, s, now);
    } else if r.None? {
      var any := CreatedDoc(e, s, now);
      UpdatePublishes(any, any, e, s, now);
    }
  }

  lemma StepAnswers(db: Db, snapshot: seq<Doc>, e: Entry, s: Settings, now: Time, r: nat)
    requires r < |db.requests|
    ensures var n := Process(db, snapshot, e, s, now);
            && |n.requests| == |db.requests|
            && (n.requests[r] == db.requests[r]
                || exists i: nat :: AnsweredBy(db.requests[r], n.requests[r], i, now) && PublishedAs(n.docs, i, n.requests[r].gradeId))
  {
    hide Updated, CreatedDoc, Resolve;
    var n := Process(db, snapshot, e, s, now);
    if n.requests[r] != db.requests[r] {
      var to := Resolve(snapshot, db.docs, e);
      var i := if to.Some? then to.value.0 else |db.docs|;
      assert AnsweredBy(db.requests[r], n.requests[r], i, now) && PublishedAs(n.docs, i, n.requests[r].gradeId);
    }
  }

  lemma {:induction false} PagePublishes(db: Db, es: seq<Entry>, k: nat, s: Settings, now: Time)
    requires k <= |es|
    ensures |db.docs| <= |Prefix(db, es, k, s, now).docs|
    ensures !s.autoVerify ==> NoneNew(db.docs, Prefix(db, es, k, s, now).docs)
  {
    hide Process, Prefix;
    if k == 0 {
      NothingTouched(db, es, s, now);
    } else {
      PagePublishes(db, es, k - 1, s, now);
      PrefixNext(db, es, k - 1, s, now);
      StepPublishes(Prefix(db, es, k - 1, s, now), db.docs, es[k - 1], s, now);
    }
  }

  lemma {:induction false} PageAnswers(db: Db, es: seq<Entry>, n: nat, s: Settings, now: Time, r: nat)
    requires n <= |es| && r < |db.requests|
    ensures var rs := Prefix(db, es, n, s, now).requests;
            && |rs| == |db.requests|
            && (rs[r] == db.requests[r]
                || exists i: nat :: AnsweredBy(db.requests[r], rs[r], i, now) && PublishedInPage(db, es, n, s, now, i, rs[r].gradeId))
  {
    hide Process, Prefix;
    if n == 0 {
      NothingTouched(db, es, s, now);
    } else {
      PageAnswers(db, es, n - 1, s, now, r);
      PrefixNext(db, es, n - 1, s, now);
      var here, there := Prefix(db, es, n - 1, s, now), Prefix(db, es, n, s, now);
      StepAnswers(here, db.docs, es[n - 1], s, now, r);
      if here.requests[r] == db.requests[r] {
        if there.requests[r] != db.requests[r] {
          var i: nat :| AnsweredBy(db.requests[r], there.requests[r], i, now) && PublishedAs(there.docs, i, there.requests[r].gradeId);
          assert PublishedInPage(db, es, n, s, now, i, there.requests[r].gradeId);
        }
      } else {
        var i: nat :| AnsweredBy(db.requests[r], here.requests[r], i, now)
                      && PublishedInPage(db, es, n - 1, s, now, i, here.requests[r].gradeId);
        assert there.requests[r] == here.requests[r];
        assert PublishedInPage(db, es, n, s, now, i, there.requests[r].gradeId);
      }
    }
  }

  lemma PagesSplit(db: Db, pages: seq<seq<Entry>>, s: Settings, now: Time)
    requires pages != []
    ensures var front, last := pages[..|pages| - 1], pages[|pages| - 1];
            ReconcilePages(db, pages, s, now) == Prefix(ReconcilePages(db, front, s, now), last, |last|, s, now)
  {
    var last := pages[|pages| - 1];
    assert last[..|last|] == last;
  }

  lemma MidwayOfFront(db: Db, pages: seq<seq<Entry>>, s: Settings, now: Time, i: nat, grade: nat)
    requires pages != [] && PublishedMidway(db, pages[..|pages| - 1], s, now, i, grade)
    ensures PublishedMidway(db, pages, s, now, i, grade)
  {
    hide Prefix, ReconcilePages;
    var front := pages[..|pages| - 1];
    var p: nat, k: nat :| p < |front| && k <= |front[p]| && PublishedAs(Midway(db, front, p, k, s, now).docs, i, grade);
    assert front[..p] == pages[..p];
    assert PublishedAs(Midway(db, pages, p, k, s, now).docs, i, grade);
  }

  /**
   * Whatever is listed and however it is cut: a request keeps as it is, or it was waiting and is
   * answered now, by a row that was published for its grade at some point of the pages.
   */
  lemma {:induction false} AnswersComeFromPublished(db: Db, pages: seq<seq<Entry>>, s: Settings, now: Time, r: nat)
    requires r < |db.requests|
    ensures var rs := ReconcilePages(db, pages, s, now).requests;
            && |rs| == |db.requests|
            && (rs[r] == db.requests[r]
                || exists i: nat :: AnsweredBy(db.requests[r], rs[r], i, now) && PublishedMidway(db, pages, s, now, i, rs[r].gradeId))
  {
    hide Prefix;
    if pages != [] {
      var front, last := pages[..|pages| - 1], pages[|pages| - 1];
      var here, there := ReconcilePages(db, front, s, now), ReconcilePages(db, pages, s, now);
      AnswersComeFromPublished(db, front, s, now, r);
      PagesSplit(db, pages, s, now);
      PageAnswers(here, last, |last|, s, now, r);
      if here.requests[r] == db.requests[r] {
        if there.requests[r] != db.requests[r] {
          var i: nat :| AnsweredBy(db.requests[r], there.requests[r], i, now)
                        && PublishedInPage(here, last, |last|, s, now, i, there.requests[r].gradeId);
          var k: nat :| k <= |last| && PublishedAs(Prefix(here, last, k, s, now).docs, i, there.requests[r].gradeId);
          assert PublishedAs(Midway(db, pages, |pages| - 1, k, s, now).docs, i, there.requests[r].gradeId);
        }
      } else {
        var i: nat :| AnsweredBy(db.requests[r], here.requests[r], i, now)
                      && PublishedMidway(db, front, s, now, i, here.requests[r].gradeId);
        assert there.requests[r] == here.requests[r];
        MidwayOfFront(db, pages, s, now, i, here.requests[r].gradeId);
      }
    }
  }

  lemma {:induction false} PagesPublish(db: Db, pages: seq<seq<Entry>>, s: Settings, now: Time)
    requires !s.autoVerify
    ensures NoneNew(db.docs, ReconcilePages(db, pages, s, now).docs)
  {
    hide Prefix;
    if pages != [] {
      var front, last := pages[..|pages| - 1], pages[|pages| - 1];
      PagesPublish(db, front, s, now);
      PagesSplit(db, pages, s, now);
      PagePublishes(ReconcilePages(db, front, s, now), last, |last|, s, now);
    }
  }

  /**
   * Without automatic verification a sync publishes nothing: rows published afterwards were
   * published before, and so was every row that answered a request.
   */
  lemma NothingPublishedUnasked(db: Db, pages: seq<seq<Entry>>, s: Settings, now: Time, r: nat)
    requires !s.autoVerify
    ensures NoneNew(db.docs, ReconcilePages(db, pages, s, now).docs)
    ensures r < |db.requests| ==>
              var rs := ReconcilePages(db, pages, s, now).requests;
              && |rs| == |db.requests|
              && (rs[r] == db.requests[r]
                  || exists i: nat :: AnsweredBy(db.requests[r], rs[r], i, now) && i < |db.docs| && db.docs[i].status == Verified)
  {
    hide Prefix, ReconcilePages;
    PagesPublish(db, pages, s, now);
    if r < |db.requests| {
      AnswersComeFromPublished(db, pages, s, now, r);
      var rs := ReconcilePages(db, pages, s, now).requests;
      if rs[r] != db.requests[r] {
        var i: nat :| AnsweredBy(db.requests[r], rs[r], i, now) && PublishedMidway(db, pages, s, now, i, rs[r].gradeId);
        var p: nat, k: nat :| p < |pages| && k <= |pages[p]|
                              && PublishedAs(Midway(db, pages, p, k, s, now).docs, i, rs[r].gradeId);
        PagesPublish(db, pages[..p], s, now);
        PagePublishes(ReconcilePages(db, pages[..p], s, now), pages[p], k, s, now);
      }
    }
  }

  // ---- New rows ----------------------------------------------------------------------------------

  /** A row a sync has created, by whether a grade was found and whether matches are published. */
  predicate FollowsSettings(d: Doc, s: Settings, now: Time) {
    && d.rejectedAt.None? && d.rejectedBy.None?
    && (if d.gradeId.None? then d.status == NeedsMapping && d.approvedAt.None? && d.approvedBy.None?
        else if s.autoVerify then d.status == Verified && d.approvedAt == Some(now) && d.approvedBy == s.admin
        else d.status == PendingReview && d.approvedAt.None? && d.approvedBy.None?)
  }

  ghost predicate NewFollowSettings(from: nat, docs: seq<Doc>, s: Settings, now: Time) {
    from <= |docs| && forall i :: from <= i < |docs| ==> FollowsSettings(docs[i], s, now)
  }

  lemma CreatedFollows(e: Entry, s: Settings, now: Time)
    requires Sound(e)
    ensures FollowsSettings(CreatedDoc(e, s, now), s, now) && CreatedDoc(e, s, now).gradeId == e.match_.gradeId
  {
  }

  lemma UpdatedFollows(row: Doc, e: Entry, s: Settings, now: Time)
    requires Sound(e) && FollowsSettings(row, s, now)
    ensures FollowsSettings(Updated(row, row, e, s, now), s, now)
  {
    hide MappingAfter, Later;
  }

  lemma StepFollows(db: Db, snapshot: seq<Doc>, e: Entry, s: Settings, now: Time)
    requires Sound(e) && NewFollowSettings(|snapshot|, db.docs, s, now)
    ensures NewFollowSettings(|snapshot|, Process(db, snapshot, e, s, now).docs, s, now)
  {
    hide Updated, CreatedDoc, AfterWrite, FollowsSettings;
    var r := Resolve(snapshot, db.docs, e);
    if r.None? {
      CreatedFollows(e, s, now);
    } else if |snapshot| <= r.value.0 {
      UpdatedFollows(db.docs[r.value.0], e, s, now);
    }
  }

  lemma {:induction false} PageFollows(db: Db, es: seq<Entry>, k: nat, s: Settings, now: Time)
    requires k <= |es| && forall e :: e in es ==> Sound(e)
    ensures NewFollowSettings(|db.docs|, Prefix(db, es, k, s, now).docs, s, now)
  {
    hide Process, Prefix, FollowsSettings, Sound;
    if k == 0 {
      NothingTouched(db, es, s, now);
    } else {
      PageFollows(db, es, k - 1, s, now);
      PrefixNext(db, es, k - 1, s, now);
      StepFollows(Prefix(db, es, k - 1, s, now), db.docs, es[k - 1], s, now);
    }
  }

  /**
   * In one page, and in any split of a listing without steals: every new row with a grade is
   * published now by the administrator if matches are published, else pending without approval;
   * every new row without one needs mapping.
   */
  lemma NewRowsFollowSettings(db: Db, pages: seq<seq<Entry>>, s: Settings, now: Time)
    requires forall e :: e in Flatten(pages) ==> Sound(e)
    requires |pages| == 1 || (DistinctKeys(Flatten(pages)) && Table(db.docs) && !StealsInOrder(db.docs, Flatten(pages)))
    ensures NewFollowSettings(|db.docs|, ReconcilePages(db, pages, s, now).docs, s, now)
  {
    hide Sound, DistinctKeys, Table, StealsInOrder, Work, ReconcilePages, Prefix, Flatten, NewFollowSettings;
    var es := Flatten(pages);
    if |pages| == 1 {
      LonePage(db, pages, s, now);
    } else {
      WithoutStealsSplitsAgree(db, es, s, now);
    }
    PageIsPrefix(db, es, s, now);
    PageFollows(db, es, |es|, s, now);
  }

  lemma LonePage(db: Db, pages: seq<seq<Entry>>, s: Settings, now: Time)
    requires |pages| == 1
    ensures Flatten(pages) == pages[0] && ReconcilePages(db, pages, s, now) == ReconcilePage(db, pages[0], s, now)
  {
    hide Work;
    assert pages[..0] == [] && pages == [pages[0]];
    assert Flatten(pages) == [] + pages[0];
    OnePage(db, pages[0], s, now);
  }

  lemma PageIsPrefix(db: Db, es: seq<Entry>, s: Settings, now: Time)
    ensures ReconcilePage(db, es, s, now) == Prefix(db, es, |es|, s, now)
  {
    assert es[..|es|] == es;
  }

  // ---- Each row, when objects have distinct homes ---------------------------------------------------

  predicate CreatedAs(d: Doc, e: Entry, s: Settings, now: Time) {
    && FollowsSettings(d, s, now) && d.gradeId == e.match_.gradeId
    && d.importKey == e.importKey && d.revision == e.parts.revision && d.size == e.size
    && d.uploadedAt == Some(if e.modified.Some? then e.modified.value else now) && d.uploadedBy == s.admin
    && d.mapping == Auto(e.match_.confidence)
  }

  /** The status of a row after its object was synced: who rejects or publishes a graded row has the last word. */
  predicate StatusAfterSync(b: Doc, d: Doc, matched: bool, s: Settings) {
    if b.status == Verified || b.status == Rejected then
      d.status == if b.gradeId.Some? || !matched then b.status else if s.autoVerify then Verified else PendingReview
    else if !matched then d.status == b.status
    else if s.autoVerify then d.status == Verified
    else d.status == if b.gradeId.Some? then b.status else PendingReview
  }

  /** Approval is recorded when a sync publishes a row that was neither published nor rejected, and kept if there is one. */
  predicate ApprovalAfterSync(b: Doc, d: Doc, s: Settings, now: Time) {
    if d.status == Verified && b.status != Verified && b.status != Rejected then
      && d.approvedAt == Some(b.approvedAt.GetOr(now))
      && d.approvedBy == (if b.approvedBy.Some? then b.approvedBy else s.admin)
    else d.approvedAt == b.approvedAt && d.approvedBy == b.approvedBy
  }

  /** A grade found now says how it was found; a grade given by hand otherwise stays so. */
  predicate MappingAfterSync(b: Doc, d: Doc, e: Entry) {
    d.mapping == if e.match_.gradeId.None? && b.mapping == Manual then Manual else Auto(e.match_.confidence)
  }

  /** A note is added exactly when the status was decided anew. */
  predicate NotesAfterSync(b: Doc, d: Doc, matched: bool, s: Settings) {
    if s.autoVerify && matched && b.status != Verified && b.status != Rejected then
      d.notes == b.notes + ["Auto-verified from R2 storage sync"]
    else if matched && b.gradeId.None? then d.notes == b.notes + ["Storage sync"]
    else d.notes == b.notes
  }

  predicate RevisedAs(b: Doc, d: Doc, e: Entry, s: Settings, now: Time) {
    && d.importKey == b.importKey && !d.deleted && d.active
    && d.gradeId == (if e.match_.gradeId.Some? then e.match_.gradeId else b.gradeId)
    && d.revision >= b.revision && d.revision >= e.parts.revision && d.revision in {b.revision, e.parts.revision}
    && d.size == (if e.size.Some? then e.size else b.size)
    && d.uploadedAt == b.uploadedAt && d.uploadedBy == b.uploadedBy && d.rejectedAt == b.rejectedAt && d.rejectedBy == b.rejectedBy
    && StatusAfterSync(b, d, e.match_.gradeId.Some?, s) && ApprovalAfterSync(b, d, s, now)
    && MappingAfterSync(b, d, e) && NotesAfterSync(b, d, e.match_.gradeId.Some?, s)
  }

  lemma CreatedSays(e: Entry, s: Settings, now: Time)
    requires Sound(e)
    ensures CreatedAs(CreatedDoc(e, s, now), e, s, now)
  {
  }

  lemma UpdatedSays(b: Doc, e: Entry, s: Settings, now: Time)
    requires Sound(e) && b.importKey != ""
    ensures RevisedAs(b, Updated(b, b, e, s, now), e, s, now)
  {
  }

  /**
   * Over any split of objects with distinct homes, every object's row is found under its key: the
   * row it had, revised, or a new one behind the table.
   */
  lemma SyncedRowSays(db: Db, pages: seq<seq<Entry>>, s: Settings, now: Time, j: nat)
    requires Table(db.docs) && DistinctHomes(db.docs, Flatten(pages)) && j < |Flatten(pages)| && Sound(Flatten(pages)[j])
    ensures var e, after := Flatten(pages)[j], ReconcilePages(db, pages, s, now).docs;
            var at, home := FindByStorage(after, e.key), Home(db.docs, e);
            if home.Some? then at == home && RevisedAs(db.docs[home.value], after[home.value], e, s, now)
            else at.Some? && at.value >= |db.docs| && CreatedAs(after[at.value], e, s, now)
  {
    hide Sound, Updated, CreatedDoc, DistinctHomes, Work, ReconcilePages, Direct, Flatten, RevisedAs, CreatedAs, Progress;
    var es := Flatten(pages);
    var after := ReconcilePages(db, pages, s, now).docs;
    PagesAreDirect(db, pages, es, s, now);
    DirectProgress(db, es, |es|, s, now);
    assert es[..|es|] == es;
    var i := FindsItself(db.docs, es, after, s, now, j);
    CreatedSays(es[j], s, now);
    if i < |db.docs| {
      UpdatedSays(db.docs[i], es[j], s, now);
    }
  }

  // ---- What rows say about their files ----------------------------------------------------------

  function LastPart(filename: string): string {
    Lower(Split(filename, '.')[|Split(filename, '.')| - 1])
  }

  predicate SaysType(filename: string, mime: string) {
    var ext := LastPart(filename);
    || (ext == "pdf" && mime == "application/pdf")
    || ((ext == "jpg" || ext == "jpeg") && mime == "image/jpeg")
    || (ext == "png" && mime == "image/png")
    || (ext == "webp" && mime == "image/webp")
  }

  /** The row is about the file under the key: names as parsed from it, its type, and at least its revision. */
  predicate CarriesKey(d: Doc, key: string) {
    var p := ObjectKeys.ParseKey(key);
    && p.Some? && d.storageKey == Some(key) && d.active && !d.deleted
    && d.category == p.value.category && d.gradeCode == p.value.grade && d.producer == p.value.producer
    && d.filename == Some(p.value.filename) && p.value.revision <= d.revision
    && d.mime.Some? && SaysType(p.value.filename, d.mime.value)
  }

  /** What an entry takes from its object's key. */
  predicate ReadFromKey(e: Entry) {
    ObjectKeys.ParseKey(e.key) == Some(e.parts) && SaysType(e.parts.filename, e.mime)
  }

  lemma {:induction false} ExtensionIsLastPart(f: string)
    ensures Lower(Extension(f)) == LastPart(f)
  {
    var parts := Split(f, '.');
    SplitEnds(f);
  }

  lemma {:induction false} SplitEnds(f: string)
    ensures Split(f, '.') != [] && Extension(f) == Split(f, '.')[|Split(f, '.')| - 1]
    decreases |f|
  {
    if '.' in f {
      var i := FirstDot(f);
      var stem, rest := f[..i], f[i + 1..];
      SplitEnds(rest);
      SplitAtDot(f, i);
      ExtensionBehind(stem + ".", rest);
      assert f == stem + "." + rest;
    } else {
      WholeExtension(f);
      WholeSplit(f);
    }
  }

  lemma {:induction false} FirstDot(f: string) returns (i: nat)
    requires '.' in f
    ensures i < |f| && f[i] == '.' && '.' !in f[..i]
  {
    if f[0] == '.' {
      i := 0;
    } else {
      var j := FirstDot(f[1..]);
      i := j + 1;
      assert f[..i] == [f[0]] + f[1..][..j];
    }
  }

  lemma {:induction false} SplitAtDot(f: string, i: nat)
    requires i < |f| && f[i] == '.' && '.' !in f[..i]
    ensures Split(f, '.') == [f[..i]] + Split(f[i + 1..], '.')
  {
    if i > 0 {
      assert f[1..][..i - 1] == f[..i][1..];
      SplitAtDot(f[1..], i - 1);
      assert f[1..][i..] == f[i + 1..];
      assert f[..i] == [f[0]] + f[1..][..i - 1];
    } else {
      assert f[..0] == "";
    }
  }

  lemma {:induction false} WholeExtension(f: string)
    requires '.' !in f
    ensures Extension(f) == f
  {
    if f != "" {
      var front := f[..|f| - 1];
      assert f == front + [f[|f| - 1]];
      WholeExtension(front);
    }
  }

  lemma {:induction false} WholeSplit(f: string)
    requires '.' !in f
    ensures Split(f, '.') == [f]
  {
    if f != "" {
      WholeSplit(f[1..]);
      assert f == [f[0]] + f[1..];
    }
  }

  lemma {:induction false} ExtensionBehind(front: string, rest: string)
    requires front != "" && front[|front| - 1] == '.'
    ensures Extension(front + rest) == Extension(rest)
  {
    if rest == "" {
      assert front + rest == front;
    } else {
      var short := rest[..|rest| - 1];
      ExtensionBehind(front, short);
      assert (front + rest)[..|front + rest| - 1] == front + short;
    }
  }

  lemma EntryReadsKey(index: Matcher.Index, o: Object)
    requires Relevant(o)
    ensures ReadFromKey(EntryOf(index, o)) && EntryOf(index, o).key == o.key
  {
    hide BuildImportKey, Matcher.MatchFromIndex, Extension, LastPart;
    ExtensionIsLastPart(ObjectKeys.ParseKey(o.key).value.filename);
  }

  lemma BlanksForUnderscores(category: string)
    ensures NormalizeMatchToken(UnderscoresToBlanks(category)) == NormalizeMatchToken(category)
  {
    hide Words.WordsOf, Words.Glue;
    var blanked := UnderscoresToBlanks(category);
    Words.MatchTokenIsWords(category);
    Words.MatchTokenIsWords(blanked);
    Words.SeparatorsAlike(Upper(blanked), Upper(category), Words.SpaceOrDash);
  }

  /**
   * A listed object is given the grade that matching gives for category, grade and producer as
   * they stand in its key; whether blanks stand for underscores there makes no difference.
   */
  lemma ObjectMatchedByItsNames(index: Matcher.Index, o: Object)
    requires Relevant(o)
    ensures var p := ObjectKeys.ParseKey(o.key).value;
            EntryOf(index, o).match_ == Matcher.MatchFromIndex(index, Matcher.Input(p.category, p.grade, p.producer))
  {
    hide Matcher.MatchFromIndex, ObjectKeys.ParseKey, BuildImportKey, MimeFromFilename, NormalizeMatchToken, UnderscoresToBlanks;
    var p := ObjectKeys.ParseKey(o.key).value;
    BlanksForUnderscores(p.category);
    MatchOutcomes.CategorySpellingIsInvisible(index, Matcher.Input(UnderscoresToBlanks(p.category), p.grade, p.producer),
                                              Matcher.Input(p.category, p.grade, p.producer));
  }

  lemma {:induction false} EntriesReadKeys(index: Matcher.Index, objects: seq<Object>)
    ensures forall e :: e in Entries(index, objects) ==> ReadFromKey(e) && exists o :: o in objects && o.key == e.key
  {
    hide EntryOf, Relevant, ReadFromKey;
    if objects != [] {
      var front, last := objects[..|objects| - 1], objects[|objects| - 1];
      EntriesReadKeys(index, front);
      if Relevant(last) {
        EntryReadsKey(index, last);
      }
      forall e | e in Entries(index, objects) ensures ReadFromKey(e) && exists o :: o in objects && o.key == e.key {
        if e in Entries(index, front) {
          var o :| o in front && o.key == e.key;
          assert o in objects;
        } else {
          assert last in objects;
        }
      }
    }
  }

  /** A page as it is synced: what was listed, and the catalogue at that time. */
  datatype Page = Page(objects: seq<Object>, grades: seq<Matcher.Grade>)

  ghost function ListedPages(pages: seq<Page>): seq<seq<Entry>> {
    if pages == [] then []
    else
      ListedPages(pages[..|pages| - 1]) + [Lifecycle.Listed(pages[|pages| - 1].objects, pages[|pages| - 1].grades)]
  }

  ghost predicate IsListed(pages: seq<Page>, key: string) {
    exists p, o :: 0 <= p < |pages| && o in pages[p].objects && o.key == key
  }

  /** The row is as it was, or about a listed file. */
  ghost predicate OldOrListed(before: seq<Doc>, after: seq<Doc>, i: nat, pages: seq<Page>)
    requires i < |after|
  {
    (i < |before| && after[i] == before[i]) || exists key: string :: CarriesKey(after[i], key) && IsListed(pages, key)
  }

  lemma WriteCarriesKey(row: Doc, read: Doc, e: Entry, s: Settings, now: Time)
    requires ReadFromKey(e)
    ensures CarriesKey(Updated(row, read, e, s, now), e.key) && CarriesKey(CreatedDoc(e, s, now), e.key)
  {
    hide SaysType, MappingAfter, Promotes, FreshStatus, OrElse, ObjectKeys.ParseKey;
  }

  lemma StepCarries(db: Db, before: seq<Doc>, snapshot: seq<Doc>, e: Entry, s: Settings, now: Time, pages: seq<Page>)
    requires |before| <= |db.docs| && ReadFromKey(e) && IsListed(pages, e.key)
    requires forall i :: 0 <= i < |db.docs| ==> OldOrListed(before, db.docs, i, pages)
    ensures var n := Process(db, snapshot, e, s, now);
            |before| <= |n.docs| && forall i :: 0 <= i < |n.docs| ==> OldOrListed(before, n.docs, i, pages)
  {
    hide Updated, CreatedDoc, AfterWrite, Resolve, CarriesKey, IsListed, ReadFromKey;
    var n, r := Process(db, snapshot, e, s, now), Resolve(snapshot, db.docs, e);
    var at := if r.Some? then r.value.0 else |db.docs|;
    forall i | 0 <= i < |n.docs| ensures OldOrListed(before, n.docs, i, pages) {
      if i == at {
        var any := CreatedDoc(e, s, now);
        WriteCarriesKey(if r.Some? then db.docs[at] else any, if r.Some? then r.value.1 else any, e, s, now);
      } else {
        assert n.docs[i] == db.docs[i] && OldOrListed(before, db.docs, i, pages);
      }
    }
  }

  lemma {:induction false} PageCarries(db: Db, before: seq<Doc>, es: seq<Entry>, k: nat, s: Settings, now: Time, pages: seq<Page>)
    requires k <= |es| && |before| <= |db.docs| && forall e :: e in es ==> ReadFromKey(e) && IsListed(pages, e.key)
    requires forall i :: 0 <= i < |db.docs| ==> OldOrListed(before, db.docs, i, pages)
    ensures var n := Prefix(db, es, k, s, now);
            |before| <= |n.docs| && forall i :: 0 <= i < |n.docs| ==> OldOrListed(before, n.docs, i, pages)
  {
    hide Process, Prefix, OldOrListed, ReadFromKey, IsListed;
    if k == 0 {
      NothingTouched(db, es, s, now);
    } else {
      PageCarries(db, before, es, k - 1, s, now, pages);
      PrefixNext(db, es, k - 1, s, now);
      StepCarries(Prefix(db, es, k - 1, s, now), before, db.docs, es[k - 1], s, now, pages);
    }
  }

  lemma ListedInMore(before: seq<Doc>, after: seq<Doc>, i: nat, pages: seq<Page>)
    requires pages != [] && i < |after| && OldOrListed(before, after, i, pages[..|pages| - 1])
    ensures OldOrListed(before, after, i, pages)
  {
    hide CarriesKey;
    var front := pages[..|pages| - 1];
    if !(i < |before| && after[i] == before[i]) {
      var key: string :| CarriesKey(after[i], key) && IsListed(front, key);
      var p, o :| 0 <= p < |front| && o in front[p].objects && o.key == key;
      assert pages[p] == front[p];
      assert IsListed(pages, key);
    }
  }

  /**
   * Over any pages of any objects, with any catalogue for each: a row is as it was before, or it is
   * about a listed file and says of it what its key says.
   */
  lemma {:induction false} RowsCarryTheirKeys(db: Db, pages: seq<Page>, s: Settings, now: Time)
    ensures var after := ReconcilePages(db, ListedPages(pages), s, now).docs;
            |db.docs| <= |after| && forall i :: 0 <= i < |after| ==> OldOrListed(db.docs, after, i, pages)
  {
    hide Prefix, OldOrListed, ReadFromKey, Entries;
    if pages == [] {
      forall i | 0 <= i < |db.docs| ensures OldOrListed(db.docs, db.docs, i, pages) {
        OldStays(db.docs, i, pages);
      }
    } else {
      var front, last := pages[..|pages| - 1], pages[|pages| - 1];
      RowsCarryTheirKeys(db, front, s, now);
      var listed, es := ListedPages(pages), Lifecycle.Listed(last.objects, last.grades);
      var here := ReconcilePages(db, ListedPages(front), s, now);
      assert listed[..|listed| - 1] == ListedPages(front) && listed[|listed| - 1] == es;
      PagesSplit(db, listed, s, now);
      forall i | 0 <= i < |here.docs| ensures OldOrListed(db.docs, here.docs, i, pages) {
        ListedInMore(db.docs, here.docs, i, pages);
      }
      EntriesReadKeys(Matcher.BuildIndex(last.grades), last.objects);
      assert forall e :: e in es ==> IsListed(pages, e.key);
      PageCarries(here, db.docs, es, |es|, s, now, pages);
    }
  }

  lemma OldStays(docs: seq<Doc>, i: nat, pages: seq<Page>)
    requires i < |docs|
    ensures OldOrListed(docs, docs, i, pages)
  {
  }
}

/**
 * The TDS library as it runs: what administrators do to a row, how waiting requests are
 * fulfilled, and one page of the reconcile with object storage.
 */
module TdsLibrary {
  import opened Prelude
  import opened Text
  import opened MatchTokens
  import opened Documents
  import opened Reconcile
  import ReconcileLaws
  import Matcher
  import ObjectKeys

  function WaitingIds(rs: seq<Request>, gradeId: nat): (ids: seq<nat>)
    ensures forall i: nat :: i in ids <==> i < |rs| && Waiting(rs[i], gradeId)
    ensures forall j, k :: 0 <= j < k < |ids| ==> ids[j] < ids[k]
  {
    if rs == [] then []
    else
      var front := WaitingIds(rs[..|rs| - 1], gradeId);
      assert forall k :: 0 <= k < |front| ==> front[k] in front;
      front + if Waiting(rs[|rs| - 1], gradeId) then [|rs| - 1] else []
  }

  /** Requests nobody has answered yet. */
  function Unanswered(rs: seq<Request>): nat {
    if rs == [] then 0
    else
      Unanswered(rs[..|rs| - 1]) + if rs[|rs| - 1].status == OpenRequest || rs[|rs| - 1].status == InProgress then 1 else 0
  }

  /** Fulfilling answers exactly the requests that waited for the grade. */
  lemma {:induction false} FulfilAnswers(rs: seq<Request>, gradeId: nat, doc: nat, now: Time)
    ensures Unanswered(Fulfil(rs, gradeId, doc, now)) + |WaitingIds(rs, gradeId)| == Unanswered(rs)
  {
    if rs != [] {
      FulfilAnswers(rs[..|rs| - 1], gradeId, doc, now);
      assert Fulfil(rs, gradeId, doc, now)[..|rs| - 1] == Fulfil(rs[..|rs| - 1], gradeId, doc, now);
    }
  }

  datatype Stats = Stats(
    scanned: nat, skipped: nat, created: nat, updated: nat, verified: nat, needsMapping: nat, fulfilledRequests: nat)

  /** The rows a page read before its loop, by storage key, with their positions. */
  type Prefetched = map<string, (nat, Doc)>

  ghost predicate Holds(m: Prefetched, docs: seq<Doc>, keys: set<string>) {
    forall key :: key in keys ==>
      var at := FindByStorage(docs, key);
      (key in m <==> at.Some?) && (at.Some? ==> m[key] == (at.value, docs[at.value]))
  }

  lemma HoldsNext(m: Prefetched, docs: seq<Doc>, keys: set<string>, i: nat)
    requires i < |docs| && Holds(m, docs[..i], keys)
    ensures var d := docs[i];
            Holds(if !d.deleted && d.storageKey.Some? && d.storageKey.value in keys then m[d.storageKey.value := (i, d)] else m,
                  docs[..i + 1], keys)
  {
    assert docs[..i + 1][..i] == docs[..i];
  }

  function KeysOf(objects: seq<Object>): set<string> {
    set o | o in objects :: o.key
  }

  method Prefetch(docs: seq<Doc>, objects: seq<Object>) returns (m: Prefetched)
    ensures Holds(m, docs, KeysOf(objects))
  {
    var wanted := KeysOf(objects);
    m := map[];
    for i := 0 to |docs|
      invariant Holds(m, docs[..i], wanted)
    {
      HoldsNext(m, docs, wanted, i);
      var d := docs[i];
      if !d.deleted && d.storageKey.Some? && d.storageKey.value in wanted {
        m := m[d.storageKey.value := (i, d)];
      }
    }
    assert docs[..|docs|] == docs;
  }

  ghost function EntryIfAny(index: Matcher.Index, obj: Object): seq<Entry> {
    if Relevant(obj) then [EntryOf(index, obj)] else []
  }

  lemma EntriesNext(index: Matcher.Index, objects: seq<Object>, n: nat)
    requires n < |objects|
    ensures Entries(index, objects[..n + 1]) == Entries(index, objects[..n]) + EntryIfAny(index, objects[n])
  {
    assert objects[..n + 1][..n] == objects[..n];
  }

  /**
   * The counters of a page add up: every object was skipped or scanned, every scanned one
   * updated a row or created one, new rows are the created ones, and every request answered
   * since the start was counted.
   */
  function OneIfVerified(d: Doc): nat {
    if d.status == Verified && d.gradeId.Some? then 1 else 0
  }

  function OneIfUnmapped(d: Doc): nat {
    if d.status == NeedsMapping then 1 else 0
  }

  /** The row an entry has written, as it is right after. */
  function WrittenRow(start: Db, front: seq<Entry>, e: Entry, s: Settings, now: Time): Doc {
    var here := Work(start, start.docs, front, s, now);
    var docs, at := Process(here, start.docs, e, s, now).docs, ReconcileLaws.Target(here, start.docs, e);
    if at < |docs| then docs[at] else CreatedDoc(e, s, now)
  }

  /** How many entries left their row published with a grade, and how many left it to be mapped. */
  function LeftVerified(start: Db, es: seq<Entry>, s: Settings, now: Time): nat {
    if es == [] then 0
    else LeftVerified(start, es[..|es| - 1], s, now) + OneIfVerified(WrittenRow(start, es[..|es| - 1], es[|es| - 1], s, now))
  }

  function LeftUnmapped(start: Db, es: seq<Entry>, s: Settings, now: Time): nat {
    if es == [] then 0
    else LeftUnmapped(start, es[..|es| - 1], s, now) + OneIfUnmapped(WrittenRow(start, es[..|es| - 1], es[|es| - 1], s, now))
  }

  lemma OneMoreLeft(start: Db, es: seq<Entry>, e: Entry, s: Settings, now: Time)
    ensures LeftVerified(start, es + [e], s, now) == LeftVerified(start, es, s, now) + OneIfVerified(WrittenRow(start, es, e, s, now))
    ensures LeftUnmapped(start, es + [e], s, now) == LeftUnmapped(start, es, s, now) + OneIfUnmapped(WrittenRow(start, es, e, s, now))
  {
    assert (es + [e])[..|es|] == es;
  }

  ghost predicate Tallied(stats: Stats, start: Db, here: Db, objects: nat, es: seq<Entry>, s: Settings, now: Time) {
    && stats.skipped + stats.scanned == objects
    && stats.scanned == |es| == stats.created + stats.updated
    && |here.docs| == |start.docs| + stats.created
    && Unanswered(here.requests) + stats.fulfilledRequests == Unanswered(start.requests)
    && stats.verified == LeftVerified(start, es, s, now) && stats.needsMapping == LeftUnmapped(start, es, s, now)
  }

  lemma TalliedRows(stats: Stats, start: Db, here: Db, objects: nat, es: seq<Entry>, s: Settings, now: Time)
    requires Tallied(stats, start, here, objects, es, s, now)
    ensures |start.docs| <= |here.docs|
  {
  }

  lemma SkipTallied(stats: Stats, start: Db, here: Db, objects: nat, es: seq<Entry>, s: Settings, now: Time)
    requires Tallied(stats, start, here, objects, es, s, now)
    ensures Tallied(stats.(skipped := stats.skipped + 1), start, here, objects + 1, es, s, now)
  {
  }

  lemma EntryTallied(stats: Stats, r: Stats, start: Db, here: Db, there: Db, objects: nat, es: seq<Entry>, e: Entry, s: Settings,
        now: Time)
    requires Tallied(stats, start, here, objects, es, s, now)
    requires here == Work(start, start.docs, es, s, now) && there == Process(here, start.docs, e, s, now)
    requires r.scanned == stats.scanned + 1 && r.skipped == stats.skipped
    requires r.created == stats.created + |there.docs| - |here.docs| && r.created + r.updated == stats.created + stats.updated + 1
    requires Unanswered(there.requests) + r.fulfilledRequests == Unanswered(here.requests) + stats.fulfilledRequests
    requires var at := ReconcileLaws.Target(here, start.docs, e);
             && at < |there.docs| && r.verified == stats.verified + OneIfVerified(there.docs[at])
             && r.needsMapping == stats.needsMapping + OneIfUnmapped(there.docs[at])
    ensures Tallied(r, start, there, objects + 1, es + [e], s, now)
  {
    hide Process, Work, ReconcileLaws.Target, Unanswered, OneIfVerified, OneIfUnmapped, LeftVerified, LeftUnmapped;
    OneMoreLeft(start, es, e, s, now);
  }

  /** Parses and matches a listed object; nothing for an object that is to be skipped. */
  method ReadObject(obj: Object, index: Matcher.Index, ghost grades: seq<Matcher.Grade>) returns (e: Option<Entry>)
    requires Matcher.DistinctIds(grades) && index == Matcher.BuildIndex(grades)
    ensures e == if Relevant(obj) then Some(EntryOf(index, obj)) else None
  {
    var parsed := ObjectKeys.ParseKey(obj.key);
    if parsed.None? {
      return None;
    }
    var p := parsed.value;
    var mime := MimeFromFilename(p.filename);
    if !IsAllowedMime(mime) {
      return None;
    }
    var importKey := BuildImportKey(p.category, p.grade, p.producer, obj.key);
    var found := Matcher.MatchGradeFromIndex(index, Matcher.Input(UnderscoresToBlanks(p.category), p.grade, p.producer), grades);
    return Some(Entry(obj.key, importKey, p, mime, obj.size, obj.modified, found));
  }

  class TdsLibrary {
    var docs: seq<Doc>
    var requests: seq<Request>

    constructor (docs: seq<Doc>, requests: seq<Request>)
      ensures Snapshot() == Db(docs, requests)
    {
      this.docs, this.requests := docs, requests;
    }

    function Snapshot(): Db
      reads this
    {
      Db(docs, requests)
    }

    // ---- Requests ------------------------------------------------------------------------

    /** Fulfils the waiting requests of a grade one by one and says how many there were. */
    method NotifyOpenTdsRequests(gradeId: nat, doc: nat, now: Time) returns (n: nat)
      modifies this`requests
      ensures requests == Fulfil(old(requests), gradeId, doc, now)
      ensures Unanswered(requests) + n == Unanswered(old(requests))
    {
      var openReqs := WaitingIds(requests, gradeId);
      for k := 0 to |openReqs|
        invariant |requests| == |old(requests)|
        invariant forall i :: 0 <= i < |requests| ==>
                    requests[i] == if i in openReqs[..k] then Fulfil(old(requests), gradeId, doc, now)[i] else old(requests)[i]
      {
        var i := openReqs[k];
        assert openReqs[k] in openReqs;
        assert i !in openReqs[..k];
        requests := requests[i := requests[i].(status := Fulfilled, fulfilledBy := Some(doc), resolvedAt := Some(now))];
        assert openReqs[..k + 1] == openReqs[..k] + [i];
      }
      assert openReqs[..|openReqs|] == openReqs;
      FulfilAnswers(old(requests), gradeId, doc, now);
      return |openReqs|;
    }

    // ---- Administrators ---------------------------------------------------------------------

    method AdminApprove(id: nat, admin: nat, notes: Option<string>, now: Time) returns (ok: bool)
      modifies this
      ensures ok == CanApprove(old(Snapshot()), id)
      ensures Snapshot() == Approve(old(Snapshot()), id, admin, notes, now)
    {
      if id >= |docs| || docs[id].deleted {
        return false;
      }
      var d := docs[id];
      if d.storageKey.None? || d.gradeId.None? {
        return false;
      }
      docs := docs[id := d.(status := Verified, approvedBy := Some(admin), approvedAt := Some(now),
                            notes := NotesOr(notes, d.notes), active := true)];
      var n := NotifyOpenTdsRequests(d.gradeId.value, id, now);
      return true;
    }

    method AdminReject(id: nat, admin: nat, reason: string, now: Time) returns (ok: bool)
      modifies this`docs
      ensures ok == Exists(old(Snapshot()), id)
      ensures Snapshot() == Reject(old(Snapshot()), id, admin, reason, now)
    {
      if id >= |docs| || docs[id].deleted {
        return false;
      }
      docs := docs[id := docs[id].(status := Rejected, rejectedBy := Some(admin), rejectedAt := Some(now),
                                   notes := NotesOr(Some(reason), docs[id].notes))];
      return true;
    }

    method AdminMapGrade(id: nat, grade: nat, catalogue: set<nat>, notes: Option<string>) returns (ok: bool)
      modifies this`docs
      ensures ok == (Exists(old(Snapshot()), id) && grade in catalogue)
      ensures Snapshot() == MapGrade(old(Snapshot()), id, grade, catalogue, notes)
    {
      if id >= |docs| || docs[id].deleted || grade !in catalogue {
        return false;
      }
      var d := docs[id];
      var status := if d.status == NeedsMapping then PendingReview else d.status;
      docs := docs[id := d.(gradeId := Some(grade), mapping := Manual, status := status, notes := NotesOr(notes, d.notes))];
      return true;
    }

    method AdminUploadReplace(u: Upload, catalogue: set<nat>, now: Time) returns (ok: bool)
      modifies this
      ensures ok == UploadAccepted(old(Snapshot()), u, catalogue)
      ensures Snapshot() == UploadReplace(old(Snapshot()), u, catalogue, now)
    {
      hide UploadKey, UploadNotes, UploadImportKey, FindByImport;
      if !IsAllowedMime(u.mime) || u.size > u.maxSize || u.product.Unusable? {
        return false;
      }
      var gradeId := if u.product.LinkedTo? then Some(u.product.gradeId) else u.grade;
      if u.id.Some? {
        if u.id.value >= |docs| || docs[u.id.value].deleted {
          return false;
        }
        gradeId := OrElse(gradeId, docs[u.id.value].gradeId);
      }
      if gradeId.None? || gradeId.value !in catalogue {
        return false;
      }
      var revision := if u.id.Some? then docs[u.id.value].revision + 1 else 1;
      var at := u.id.GetOr(|docs|);
      if u.id.Some? {
        var d := docs[at];
        var notes := UploadNotes(u);
        docs := docs[at := d.(
          gradeId := gradeId, storageKey := Some(UploadKey(u, revision)), filename := Some(u.fileName), mime := Some(u.mime),
          size := Some(u.size), revision := revision, category := u.category, gradeCode := u.gradeCode, producer := u.producer,
          uploadedAt := Some(now), uploadedBy := Some(u.admin), status := UploadStatus(u), mapping := Manual, active := true,
          approvedAt := if u.approveNow then Some(now) else d.approvedAt,
          approvedBy := if u.approveNow then Some(u.admin) else d.approvedBy,
          notes := if notes != [] then notes else d.notes)];
      } else {
        var importKey := UploadImportKey(u);
        if FindByImport(docs, importKey).Some? {
          return false;
        }
        var stamp := if u.approveNow then Some(now) else None;
        var approver := if u.approveNow then Some(u.admin) else None;
        docs := docs + [Doc(importKey, gradeId, Some(UploadKey(u, revision)), UploadStatus(u), revision, Manual,
                            u.category, u.gradeCode, u.producer, Some(u.fileName), Some(u.mime), Some(u.size),
                            stamp, approver, None, None, Some(now), Some(u.admin), UploadNotes(u), true, false)];
      }
      assert docs[at] == UploadedDoc(old(Snapshot()), u, now);
      if u.approveNow {
        var n := NotifyOpenTdsRequests(gradeId.value, at, now);
      }
      return true;
    }

    // ---- Reconcile -----------------------------------------------------------------------------

    /** Counts a written row and fulfils for it when it is verified. */
    method Account(stats: Stats, at: nat, now: Time) returns (r: Stats)
      requires at < |docs|
      modifies this`requests
      ensures requests == AfterWrite(old(requests), docs[at], at, now)
      ensures Unanswered(requests) + r.fulfilledRequests == Unanswered(old(requests)) + stats.fulfilledRequests
      ensures r.verified == stats.verified + OneIfVerified(docs[at]) && r.needsMapping == stats.needsMapping + OneIfUnmapped(docs[at])
      ensures r == stats.(verified := r.verified, needsMapping := r.needsMapping, fulfilledRequests := r.fulfilledRequests)
    {
      r := stats;
      if docs[at].status == Verified && docs[at].gradeId.Some? {
        var n := NotifyOpenTdsRequests(docs[at].gradeId.value, at, now);
        r := r.(verified := r.verified + 1, fulfilledRequests := r.fulfilledRequests + n);
      } else if docs[at].status == NeedsMapping {
        r := r.(needsMapping := r.needsMapping + 1);
      }
    }

    /** The body of the loop for an object that is not skipped. */
    method ProcessEntry(e: Entry, existing: Option<(nat, Doc)>, ghost snapshot: seq<Doc>, s: Settings, stats: Stats,
          now: Time)
        returns (r: Stats)
      requires |snapshot| <= |docs|
      requires existing == Resolve(snapshot, docs, e)
      modifies this
      ensures Snapshot() == Process(old(Snapshot()), snapshot, e, s, now) && |snapshot| <= |docs|
      ensures r.created == stats.created + |docs| - |old(docs)|
      ensures r.created + r.updated == stats.created + stats.updated + 1
      ensures Unanswered(requests) + r.fulfilledRequests == Unanswered(old(requests)) + stats.fulfilledRequests
      ensures var at := ReconcileLaws.Target(old(Snapshot()), snapshot, e);
              && at < |docs| && r.verified == stats.verified + OneIfVerified(docs[at])
              && r.needsMapping == stats.needsMapping + OneIfUnmapped(docs[at])
      ensures r.scanned == stats.scanned && r.skipped == stats.skipped
    {
      hide MappingAfter, Later;
      if existing.Some? {
        var at, read := existing.value.0, existing.value.1;
        var row := docs[at].(
          importKey := if read.importKey != "" then read.importKey else e.importKey,
          storageKey := Some(e.key), filename := Some(e.parts.filename), mime := Some(e.mime), size := OrElse(e.size, read.size),
          category := e.parts.category, gradeCode := e.parts.grade, producer := e.parts.producer,
          revision := Later(read.revision, e.parts.revision), gradeId := OrElse(e.match_.gradeId, read.gradeId),
          mapping := MappingAfter(read, e), active := true, deleted := false);
        var shouldPromote := s.autoVerify && e.match_.gradeId.Some? && e.match_.confidence != Matcher.Ambiguous
                             && read.status != Verified && read.status != Rejected;
        if shouldPromote {
          row := row.(status := Verified, approvedAt := if read.approvedAt.Some? then read.approvedAt else Some(now),
                      approvedBy := if read.approvedBy.Some? then read.approvedBy else s.admin,
                      notes := read.notes + ["Auto-verified from R2 storage sync"]);
        } else if read.gradeId.None? && e.match_.gradeId.Some? {
          row := row.(status := FreshStatus(e, s), notes := read.notes + ["Storage sync"]);
        }
        docs := docs[at := row];
        r := Account(stats.(updated := stats.updated + 1), at, now);
      } else {
        var status := FreshStatus(e, s);
        var row := Doc(e.importKey, e.match_.gradeId, Some(e.key), status, e.parts.revision, Auto(e.match_.confidence),
                       e.parts.category, e.parts.grade, e.parts.producer, Some(e.parts.filename), Some(e.mime), e.size,
                       if status == Verified then Some(now) else None, if status == Verified then s.admin else None, None, None,
                       OrElse(e.modified, Some(now)), s.admin, ["Synced from R2 storage"], true, false);
        docs := docs + [row];
        r := Account(stats.(created := stats.created + 1), |docs| - 1, now);
      }
    }

    /** The row the entry is about: the one read before the loop, else whatever holds its import key now. */
    method LookUp(e: Entry, existingByStorageKey: Prefetched, ghost snapshot: seq<Doc>, ghost keys: set<string>)
        returns (existing: Option<(nat, Doc)>)
      requires Holds(existingByStorageKey, snapshot, keys) && e.key in keys
      ensures existing == Resolve(snapshot, docs, e)
    {
      if e.key in existingByStorageKey {
        return Some(existingByStorageKey[e.key]);
      }
      var at := FindByImport(docs, e.importKey);
      if at.None? {
        return None;
      }
      return Some((at.value, docs[at.value]));
    }

    /** The body of the loop, behind the entries `es` of the objects before it. */
    method ProcessObject(obj: Object, index: Matcher.Index, ghost grades: seq<Matcher.Grade>,
          existingByStorageKey: Prefetched,
                         s: Settings, stats: Stats, now: Time, ghost start: Db, ghost keys: set<string>, ghost es: seq<Entry>,
                         ghost n: nat)
        returns (r: Stats)
      requires Matcher.DistinctIds(grades) && index == Matcher.BuildIndex(grades)
      requires Holds(existingByStorageKey, start.docs, keys) && obj.key in keys
      requires Snapshot() == Work(start, start.docs, es, s, now)
      requires Tallied(stats, start, Snapshot(), n, es, s, now)
      modifies this
      ensures Snapshot() == Work(start, start.docs, es + EntryIfAny(index, obj), s, now)
      ensures Tallied(r, start, Snapshot(), n + 1, es + EntryIfAny(index, obj), s, now)
    {
      hide Work, Process, Tallied, WrittenRow;
      var e := ReadObject(obj, index, grades);
      TalliedRows(stats, start, Snapshot(), n, es, s, now);
      if e.None? {
        assert es + EntryIfAny(index, obj) == es;
        SkipTallied(stats, start, Snapshot(), n, es, s, now);
        return stats.(skipped := stats.skipped + 1);
      }
      var existing := LookUp(e.value, existingByStorageKey, start.docs, keys);
      WorkAppend(start, start.docs, es, e.value, s, now);
      ghost var here := Snapshot();
      r := ProcessEntry(e.value, existing, start.docs, s, stats.(scanned := stats.scanned + 1), now);
      EntryTallied(stats, r, start, here, Snapshot(), n, es, e.value, s, now);
    }

    /**
     * One page of the reconcile: its rows and requests are those of `ReconcilePage` over the
     * entries of the listed objects, and its counters add up.
     */
    method AdminReconcileFromStorage(objects: seq<Object>, grades: seq<Matcher.Grade>, s: Settings, now: Time)
        returns (stats: Stats)
      requires Matcher.DistinctIds(grades)
      modifies this
      ensures Snapshot() == ReconcilePage(old(Snapshot()), Entries(Matcher.BuildIndex(grades), objects), s, now)
      ensures Tallied(stats, old(Snapshot()), Snapshot(), |objects|, Entries(Matcher.BuildIndex(grades), objects), s, now)
    {
      var index := Matcher.LoadGradeMatchIndex(grades);
      stats := Stats(0, 0, 0, 0, 0, 0, 0);
      ghost var start := Snapshot();
      var existingByStorageKey := Prefetch(docs, objects);
      ghost var es := [];
      assert objects[..0] == [];
      for n := 0 to |objects|
        invariant es == Entries(index, objects[..n])
        invariant Snapshot() == Work(start, start.docs, es, s, now)
        invariant Tallied(stats, start, Snapshot(), n, es, s, now)
      {
        EntriesNext(index, objects, n);
        assert objects[n] in objects;
        stats := ProcessObject(objects[n], index, grades, existingByStorageKey, s, stats, now, start, KeysOf(objects), es, n);
        es := es + EntryIfAny(index, objects[n]);
      }
      assert objects[..|objects|] == objects;
    }
  }
}

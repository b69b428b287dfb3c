/**
 * The bounded time-to-live cache. A JavaScript `Map` iterates in insertion order and keeps a
 * key's place when its value is overwritten, so the store is a sequence of slots.
 */
module TtlCache {
  import opened Prelude

  datatype Slot<V> = Slot(key: string, value: V, expiresAt: Time)

  function Find<V>(s: seq<Slot<V>>, key: string): (r: Option<nat>)
    ensures r.Some? ==> r.value < |s| && s[r.value].key == key
    ensures r.None? ==> forall i :: 0 <= i < |s| ==> s[i].key != key
  {
    if s == [] then None
    else if s[|s| - 1].key == key then Some(|s| - 1)
    else Find(s[..|s| - 1], key)
  }

  ghost predicate Distinct<V>(s: seq<Slot<V>>) {
    forall i, j :: 0 <= i < j < |s| ==> s[i].key != s[j].key
  }

  function Delete<V>(s: seq<Slot<V>>, key: string): seq<Slot<V>> {
    var at := Find(s, key);
    if at.Some? then s[..at.value] + s[at.value + 1..] else s
  }

  function Put<V>(s: seq<Slot<V>>, slot: Slot<V>): seq<Slot<V>> {
    var at := Find(s, slot.key);
    if at.Some? then s[at.value := slot] else s + [slot]
  }

  /** `get`: an expired slot is deleted on the way. */
  function AfterGet<V>(s: seq<Slot<V>>, key: string, now: Time): seq<Slot<V>> {
    var at := Find(s, key);
    if at.Some? && s[at.value].expiresAt <= now then Delete(s, key) else s
  }

  function Lookup<V>(s: seq<Slot<V>>, key: string, now: Time): Option<V> {
    var at := Find(s, key);
    if at.Some? && now < s[at.value].expiresAt then Some(s[at.value].value) else None
  }

  /** `set`: a full store first loses its oldest slot, even when the key is already present. */
  function AfterSet<V>(s: seq<Slot<V>>, maxEntries: int, slot: Slot<V>): seq<Slot<V>> {
    Put(if |s| >= maxEntries && s != [] then s[1..] else s, slot)
  }

  datatype Op<V> = Get(key: string, now: Time) | Set(key: string, value: V, now: Time)

  function AfterOp<V>(s: seq<Slot<V>>, ttl: int, maxEntries: int, op: Op<V>): seq<Slot<V>> {
    match op
    case Get(key, now) => AfterGet(s, key, now)
    case Set(key, value, now) => AfterSet(s, maxEntries, Slot(key, value, now + ttl))
  }

  function Store<V>(h: seq<Op<V>>, ttl: int, maxEntries: int): seq<Slot<V>> {
    if h == [] then [] else AfterOp(Store(h[..|h| - 1], ttl, maxEntries), ttl, maxEntries, h[|h| - 1])
  }

  function Bound(maxEntries: int): nat {
    if maxEntries < 1 then 1 else maxEntries
  }

  /** The last value stored under a key, with the time it was stored. */
  function Latest<V>(h: seq<Op<V>>, key: string): Option<(V, Time)> {
    if h == [] then None
    else
      var op := h[|h| - 1];
      if op.Set? && op.key == key then Some((op.value, op.now)) else Latest(h[..|h| - 1], key)
  }

  ghost predicate AllLatest<V>(s: seq<Slot<V>>, h: seq<Op<V>>, ttl: int) {
    forall i :: 0 <= i < |s| ==>
      Latest(h, s[i].key).Some? && s[i].value == Latest(h, s[i].key).value.0 && s[i].expiresAt == Latest(h, s[i].key).value.1 + ttl
  }

  lemma GetKeeps<V>(s: seq<Slot<V>>, h: seq<Op<V>>, ttl: int, op: Op<V>)
    requires Distinct(s) && AllLatest(s, h, ttl) && op.Get?
    ensures Distinct(AfterGet(s, op.key, op.now)) && AllLatest(AfterGet(s, op.key, op.now), h + [op], ttl)
    ensures |AfterGet(s, op.key, op.now)| <= |s|
  {
    assert (h + [op])[..|h|] == h;
    var s' := AfterGet(s, op.key, op.now);
    var at := Find(s, op.key);
    if s' != s {
      forall i | 0 <= i < |s'| ensures s'[i] == s[if i < at.value then i else i + 1] {
      }
    }
  }

  /** Storing keeps keys distinct: a row is the new slot or one that was there under another key. */
  lemma PutShape<V>(s: seq<Slot<V>>, slot: Slot<V>)
    requires Distinct(s)
    ensures var s' := Put(s, slot);
            && Distinct(s') && |s'| <= |s| + 1
            && forall i :: 0 <= i < |s'| ==> s'[i] == slot || (s'[i].key != slot.key && i < |s| && s'[i] == s[i])
  {
  }

  lemma SetKeeps<V>(s: seq<Slot<V>>, h: seq<Op<V>>, ttl: int, maxEntries: int, op: Op<V>)
    requires Distinct(s) && AllLatest(s, h, ttl) && op.Set?
    ensures var s' := AfterSet(s, maxEntries, Slot(op.key, op.value, op.now + ttl));
            && Distinct(s') && AllLatest(s', h + [op], ttl)
            && |s'| <= (if |s| >= maxEntries && s != [] then |s| else |s| + 1)
  {
    hide Put, Find;
    assert (h + [op])[..|h|] == h;
    var kept := if |s| >= maxEntries && s != [] then s[1..] else s;
    PutShape(kept, Slot(op.key, op.value, op.now + ttl));
  }

  ghost predicate Good<V>(s: seq<Slot<V>>, h: seq<Op<V>>, ttl: int, maxEntries: int) {
    Distinct(s) && AllLatest(s, h, ttl) && |s| <= Bound(maxEntries)
  }

  lemma OpKeepsGood<V>(s: seq<Slot<V>>, h: seq<Op<V>>, ttl: int, maxEntries: int, op: Op<V>)
    requires Good(s, h, ttl, maxEntries)
    ensures Good(AfterOp(s, ttl, maxEntries, op), h + [op], ttl, maxEntries)
  {
    if op.Get? {
      GetKeeps(s, h, ttl, op);
    } else {
      SetKeeps(s, h, ttl, maxEntries, op);
    }
  }

  lemma {:induction false} StoreIsGood<V>(h: seq<Op<V>>, ttl: int, maxEntries: int)
    ensures Good(Store(h, ttl, maxEntries), h, ttl, maxEntries)
  {
    if h != [] {
      var rest, op := h[..|h| - 1], h[|h| - 1];
      StoreIsGood(rest, ttl, maxEntries);
      OpKeepsGood(Store(rest, ttl, maxEntries), rest, ttl, maxEntries, op);
      assert h == rest + [op];
    }
  }

  /** The store never outgrows its bound; a bound below one still keeps one slot. */
  lemma {:induction false} StoreIsBounded<V>(h: seq<Op<V>>, ttl: int, maxEntries: int)
    ensures |Store(h, ttl, maxEntries)| <= Bound(maxEntries)
  {
    StoreIsGood(h, ttl, maxEntries);
  }

  /** A lookup returns only the latest value stored for the key, and only while it is young enough. */
  lemma LookupIsLatest<V>(h: seq<Op<V>>, ttl: int, maxEntries: int, key: string, now: Time)
    requires Lookup(Store(h, ttl, maxEntries), key, now).Some?
    ensures Latest(h, key).Some?
    ensures Lookup(Store(h, ttl, maxEntries), key, now) == Some(Latest(h, key).value.0)
    ensures now < Latest(h, key).value.1 + ttl
  {
    StoreIsGood(h, ttl, maxEntries);
  }

  function Sets<V>(h: seq<Op<V>>): nat {
    if h == [] then 0 else Sets(h[..|h| - 1]) + if h[|h| - 1].Set? then 1 else 0
  }

  lemma FindUnique<V>(s: seq<Slot<V>>, key: string, i: nat)
    requires Distinct(s) && i < |s| && s[i].key == key
    ensures Find(s, key) == Some(i)
  {
  }

  lemma GetMovesSlot<V>(s: seq<Slot<V>>, q: nat, key: string, now: Time) returns (p: nat)
    requires Distinct(s) && q < |s| && (s[q].key == key ==> now < s[q].expiresAt)
    ensures var s' := AfterGet(s, key, now); p < |s'| && s'[p] == s[q] && |s'| - 1 - p <= |s| - 1 - q
  {
    hide Find;
    var gone := Find(s, key);
    if gone.Some? && gone.value == q {
      p := q;
    } else {
      p := if gone.Some? && s[gone.value].expiresAt <= now && gone.value < q then q - 1 else q;
    }
  }

  lemma SetMovesSlot<V>(s: seq<Slot<V>>, q: nat, maxEntries: int, slot: Slot<V>) returns (p: nat)
    requires Distinct(s) && q < |s| && s[q].key != slot.key && |s| - q < maxEntries
    ensures var s' := AfterSet(s, maxEntries, slot); p < |s'| && s'[p] == s[q] && |s'| - 1 - p <= |s| - q
  {
    p := if |s| >= maxEntries then q - 1 else q;
  }

  lemma OpMovesSlot<V>(s: seq<Slot<V>>, q: nat, ttl: int, maxEntries: int, op: Op<V>) returns (p: nat)
    requires Distinct(s) && q < |s|
    requires if op.Set? then s[q].key != op.key && |s| - q < maxEntries else op.now < s[q].expiresAt
    ensures var s' := AfterOp(s, ttl, maxEntries, op);
            p < |s'| && s'[p] == s[q] && |s'| - 1 - p <= |s| - 1 - q + if op.Set? then 1 else 0
  {
    if op.Set? {
      p := SetMovesSlot(s, q, maxEntries, Slot(op.key, op.value, op.now + ttl));
    } else {
      p := GetMovesSlot(s, q, op.key, op.now);
    }
  }

  lemma StoreAppend<V>(h: seq<Op<V>>, op: Op<V>, ttl: int, maxEntries: int)
    ensures Store(h + [op], ttl, maxEntries) == AfterOp(Store(h, ttl, maxEntries), ttl, maxEntries, op)
    ensures Sets(h + [op]) == Sets(h) + if op.Set? then 1 else 0
  {
    assert (h + [op])[..|h|] == h;
  }

  lemma NewSlotIsLast<V>(s: seq<Slot<V>>, maxEntries: int, slot: Slot<V>)
    requires Find(s, slot.key).None?
    ensures var s' := AfterSet(s, maxEntries, slot); s' != [] && s'[|s'| - 1] == slot
  {
    var kept := if |s| >= maxEntries && s != [] then s[1..] else s;
    assert forall i :: 0 <= i < |kept| ==> kept[i] in s;
  }

  /** The slot sits at `p` and at most as many slots stand behind it as there were later sets. */
  lemma {:induction false} FreshSlotStays<V>(h: seq<Op<V>>, set0: Op<V>, later: seq<Op<V>>, ttl: int,
        maxEntries: int, now: Time)
      returns (p: nat)
    requires set0.Set? && Find(Store(h, ttl, maxEntries), set0.key).None?
    requires Sets(later) < maxEntries && now < set0.now + ttl
    requires forall op :: op in later ==> op.now <= now && !(op.Set? && op.key == set0.key)
    ensures var s := Store(h + [set0] + later, ttl, maxEntries);
            p < |s| && s[p] == Slot(set0.key, set0.value, set0.now + ttl) && |s| - 1 - p <= Sets(later)
  {
    var first := h + [set0];
    if later == [] {
      assert first + later == first;
      StoreAppend(h, set0, ttl, maxEntries);
      NewSlotIsLast(Store(h, ttl, maxEntries), maxEntries, Slot(set0.key, set0.value, set0.now + ttl));
      p := |Store(first, ttl, maxEntries)| - 1;
    } else {
      var rest, op := later[..|later| - 1], later[|later| - 1];
      assert op in later && later == rest + [op] && first + later == first + rest + [op];
      StoreAppend(rest, op, ttl, maxEntries);
      StoreAppend(first + rest, op, ttl, maxEntries);
      var q := FreshSlotStays(h, set0, rest, ttl, maxEntries, now);
      StoreIsGood(first + rest, ttl, maxEntries);
      p := OpMovesSlot(Store(first + rest, ttl, maxEntries), q, ttl, maxEntries, op);
    }
  }

  /** A newly inserted value is found until it expires, as long as fewer than `maxEntries` sets follow. */
  lemma FreshValueSurvives<V>(h: seq<Op<V>>, key: string, value: V, t: Time, later: seq<Op<V>>, ttl: int,
        maxEntries: int, now: Time)
    requires Find(Store(h, ttl, maxEntries), key).None?
    requires Sets(later) < maxEntries && now < t + ttl
    requires forall op :: op in later ==> op.now <= now && !(op.Set? && op.key == key)
    ensures Lookup(Store(h + [Set(key, value, t)] + later, ttl, maxEntries), key, now) == Some(value)
  {
    var p := FreshSlotStays(h, Set(key, value, t), later, ttl, maxEntries, now);
    StoreIsGood(h + [Set(key, value, t)] + later, ttl, maxEntries);
    FindUnique(Store(h + [Set(key, value, t)] + later, ttl, maxEntries), key, p);
  }

  // ---- What one call does to other keys --------------------------------------------------------

  lemma FindAfterPut<V>(s: seq<Slot<V>>, slot: Slot<V>, other: string)
    requires Distinct(s) && other != slot.key
    ensures Find(Put(s, slot), other) == Find(s, other)
  {
    PutShape(s, slot);
    var at := Find(s, other);
    if at.Some? {
      FindUnique(Put(s, slot), other, at.value);
    }
  }

  lemma FindAfterDrop<V>(s: seq<Slot<V>>, other: string)
    requires Distinct(s) && s != []
    ensures Find(s[1..], other) == if s[0].key == other then None
                                   else if Find(s, other).Some? then Some(Find(s, other).value - 1) else None
  {
    var at := Find(s, other);
    if at.Some? && at.value > 0 {
      FindUnique(s[1..], other, at.value - 1);
    }
  }

  /**
   * After any history a set leaves every other key as it was found before, except that a full
   * store has lost the key it held longest.
   */
  lemma SetLosesOnlyOldest<V>(h: seq<Op<V>>, ttl: int, maxEntries: int, set0: Op<V>, other: string, now: Time)
    requires set0.Set? && other != set0.key
    ensures var s := Store(h, ttl, maxEntries);
            Lookup(Store(h + [set0], ttl, maxEntries), other, now)
            == if |s| >= maxEntries && s != [] && s[0].key == other then None else Lookup(s, other, now)
  {
    hide Find, Put;
    var s := Store(h, ttl, maxEntries);
    StoreIsGood(h, ttl, maxEntries);
    StoreAppend(h, set0, ttl, maxEntries);
    var slot := Slot(set0.key, set0.value, set0.now + ttl);
    if |s| >= maxEntries && s != [] {
      FindAfterDrop(s, other);
      FindAfterPut(s[1..], slot, other);
    } else {
      FindAfterPut(s, slot, other);
    }
    FoundStays(s, slot, maxEntries, other);
  }

  lemma FoundStays<V>(s: seq<Slot<V>>, slot: Slot<V>, maxEntries: int, other: string)
    requires Distinct(s) && other != slot.key
    ensures var kept := if |s| >= maxEntries && s != [] then s[1..] else s;
            var at := Find(kept, other);
            at.Some? ==> at.value < |Put(kept, slot)| && Put(kept, slot)[at.value] == kept[at.value]
  {
    hide Find;
  }

  /** Looking a key up never changes what is found from then on, under this key or another. */
  lemma GetIsInvisible<V>(h: seq<Op<V>>, ttl: int, maxEntries: int, get0: Op<V>, other: string, now: Time)
    requires get0.Get? && get0.now <= now
    ensures Lookup(Store(h + [get0], ttl, maxEntries), other, now) == Lookup(Store(h, ttl, maxEntries), other, now)
  {
    hide Find;
    var s := Store(h, ttl, maxEntries);
    StoreIsGood(h, ttl, maxEntries);
    StoreAppend(h, get0, ttl, maxEntries);
    var s' := AfterGet(s, get0.key, get0.now);
    if s' != s {
      FindAfterDelete(s, get0.key, other);
    }
  }

  lemma FindAfterDelete<V>(s: seq<Slot<V>>, key: string, other: string)
    requires Distinct(s) && Find(s, key).Some?
    ensures var s', at, gone := Delete(s, key), Find(s, other), Find(s, key).value;
            if other == key then Find(s', other).None?
            else if at.None? then Find(s', other).None?
            else Find(s', other).Some? && Find(s', other).value < |s'| && s'[Find(s', other).value] == s[at.value]
  {
    hide Find;
    var s', at, gone := Delete(s, key), Find(s, other), Find(s, key).value;
    forall i | 0 <= i < |s'| ensures s'[i] == s[if i < gone then i else i + 1] {
    }
    if at.Some? && other != key {
      var i := if at.value < gone then at.value else at.value - 1;
      assert s'[i] == s[at.value];
      FindUnique(s', other, i);
    }
  }

  // ---- Coalesced loading -------------------------------------------------------------

  datatype Progress<V> = Running | Fulfilled(value: V) | Rejected

  /** A loader promise; it is settled once its `finally` callback has run. */
  datatype Loader<V> = Loader(key: string, progress: Progress<V>, settled: bool)

  /** What `getOrLoad` returned: a cached value, or the promise of a loader. */
  datatype Reply<V> = Cached(value: V) | Awaits(loader: nat)

  datatype State<V> = State(store: seq<Slot<V>>, inflight: map<string, nat>, loaders: seq<Loader<V>>)

  datatype Step<V> =
    | Look(key: string, now: Time)
    | Call(key: string, now: Time)
    | Direct(key: string, value: V, now: Time)
    | Resolve(loader: nat, value: V, now: Time)
    | Reject(loader: nat)
    | Settle(loader: nat)

  predicate Allowed<V>(s: State<V>, step: Step<V>) {
    match step
    case Look(_, _) => true
    case Call(_, _) => true
    case Direct(_, _, _) => true
    case Resolve(l, _, _) => l < |s.loaders| && s.loaders[l].progress.Running?
    case Reject(l) => l < |s.loaders| && s.loaders[l].progress.Running?
    case Settle(l) => l < |s.loaders| && !s.loaders[l].progress.Running? && !s.loaders[l].settled
  }

  function ReplyTo<V>(s: State<V>, key: string, now: Time): Reply<V> {
    var cached := Lookup(s.store, key, now);
    if cached.Some? then Cached(cached.value)
    else if key in s.inflight then Awaits(s.inflight[key])
    else Awaits(|s.loaders|)
  }

  function Take<V>(s: State<V>, ttl: int, maxEntries: int, step: Step<V>): State<V>
    requires Allowed(s, step)
  {
    match step
    case Look(key, now) => s.(store := AfterGet(s.store, key, now))
    case Call(key, now) =>
      var looked := s.(store := AfterGet(s.store, key, now));
      if Lookup(s.store, key, now).Some? || key in s.inflight then looked
      else looked.(loaders := s.loaders + [Loader(key, Running, false)], inflight := s.inflight[key := |s.loaders|])
    case Direct(key, value, now) => s.(store := AfterSet(s.store, maxEntries, Slot(key, value, now + ttl)))
    case Resolve(l, value, now) =>
      s.(store := AfterSet(s.store, maxEntries, Slot(s.loaders[l].key, value, now + ttl)),
         loaders := s.loaders[l := s.loaders[l].(progress := Fulfilled(value))])
    case Reject(l) => s.(loaders := s.loaders[l := s.loaders[l].(progress := Rejected)])
    case Settle(l) => s.(loaders := s.loaders[l := s.loaders[l].(settled := true)], inflight := s.inflight - {s.loaders[l].key})
  }

  ghost predicate IsRun<V>(ss: seq<State<V>>, ttl: int, maxEntries: int, steps: seq<Step<V>>) {
    && |ss| == |steps| + 1 && ss[0] == State([], map[], [])
    && forall i :: 0 <= i < |steps| ==> Allowed(ss[i], steps[i]) && ss[i + 1] == Take(ss[i], ttl, maxEntries, steps[i])
  }

  /** What a step does to the store, if anything. */
  function OpOf<V>(s: State<V>, step: Step<V>): seq<Op<V>>
    requires Allowed(s, step)
  {
    match step
    case Look(key, now) => [Get(key, now)]
    case Call(key, now) => [Get(key, now)]
    case Direct(key, value, now) => [Set(key, value, now)]
    case Resolve(l, value, now) => [Set(s.loaders[l].key, value, now)]
    case Reject(_) => []
    case Settle(_) => []
  }

  /** What the first `n` steps of a run did to the store. */
  ghost function Ops<V>(ss: seq<State<V>>, ttl: int, maxEntries: int, steps: seq<Step<V>>, n: nat): seq<Op<V>>
    requires IsRun(ss, ttl, maxEntries, steps) && n <= |steps|
  {
    if n == 0 then [] else Ops(ss, ttl, maxEntries, steps, n - 1) + OpOf(ss[n - 1], steps[n - 1])
  }

  lemma StepReachesStore<V>(s: State<V>, ttl: int, maxEntries: int, step: Step<V>)
    requires Allowed(s, step)
    ensures var ops, s' := OpOf(s, step), Take(s, ttl, maxEntries, step);
            if ops == [] then s'.store == s.store
            else |ops| == 1 && s'.store == AfterOp(s.store, ttl, maxEntries, ops[0])
  {
    hide AfterGet, AfterSet, Lookup;
  }

  /** Loads, stores and lookups of a run reach the store as one history of gets and sets. */
  lemma {:induction false} StoreFollowsOps<V>(ss: seq<State<V>>, ttl: int, maxEntries: int, steps: seq<Step<V>>, n: nat)
    requires IsRun(ss, ttl, maxEntries, steps) && n <= |steps|
    ensures ss[n].store == Store(Ops(ss, ttl, maxEntries, steps, n), ttl, maxEntries)
  {
    hide AfterOp, Take, Allowed, OpOf;
    if n > 0 {
      StepReachesStore(ss[n - 1], ttl, maxEntries, steps[n - 1]);
      StoreFollowsOps(ss, ttl, maxEntries, steps, n - 1);
      var h, op := Ops(ss, ttl, maxEntries, steps, n - 1), OpOf(ss[n - 1], steps[n - 1]);
      if op != [] {
        StoreAppend(h, op[0], ttl, maxEntries);
        assert h + op == h + [op[0]];
      } else {
        assert h + op == h;
      }
    }
  }

  /** `inflight` holds exactly the unsettled loaders, each under its own key; running ones are unsettled. */
  ghost predicate InflightOk<V>(s: State<V>) {
    && (forall k :: k in s.inflight ==> s.inflight[k] < |s.loaders| && s.loaders[s.inflight[k]].key == k && !s.loaders[s.inflight[k]].settled)
    && (forall l :: 0 <= l < |s.loaders| && !s.loaders[l].settled ==> s.loaders[l].key in s.inflight && s.inflight[s.loaders[l].key] == l)
    && (forall l :: 0 <= l < |s.loaders| && s.loaders[l].progress.Running? ==> !s.loaders[l].settled)
  }

  lemma StepKeepsInflight<V>(s: State<V>, ttl: int, maxEntries: int, step: Step<V>)
    requires InflightOk(s) && Allowed(s, step)
    ensures InflightOk(Take(s, ttl, maxEntries, step))
  {
  }

  lemma {:induction false} RunKeepsInflight<V>(ss: seq<State<V>>, ttl: int, maxEntries: int, steps: seq<Step<V>>, n: nat)
    requires IsRun(ss, ttl, maxEntries, steps) && n <= |steps|
    ensures InflightOk(ss[n])
  {
    if n > 0 {
      RunKeepsInflight(ss, ttl, maxEntries, steps, n - 1);
      StepKeepsInflight(ss[n - 1], ttl, maxEntries, steps[n - 1]);
    }
  }

  /** No two loaders of one key ever run at the same time. */
  lemma OneLoaderPerKey<V>(ss: seq<State<V>>, ttl: int, maxEntries: int, steps: seq<Step<V>>, n: nat, l: nat, m: nat)
    requires IsRun(ss, ttl, maxEntries, steps) && n <= |steps|
    requires l < |ss[n].loaders| && m < |ss[n].loaders| && ss[n].loaders[l].key == ss[n].loaders[m].key
    requires !ss[n].loaders[l].settled && !ss[n].loaders[m].settled
    ensures l == m
  {
    RunKeepsInflight(ss, ttl, maxEntries, steps, n);
  }

  /** A call made while a loader of its key is unsettled starts no loader: it hits or shares that one. */
  lemma ConcurrentCallsShare<V>(ss: seq<State<V>>, ttl: int, maxEntries: int, steps: seq<Step<V>>, n: nat, l: nat,
        key: string, now: Time)
    requires IsRun(ss, ttl, maxEntries, steps) && n <= |steps|
    requires l < |ss[n].loaders| && ss[n].loaders[l].key == key && !ss[n].loaders[l].settled
    ensures Take(ss[n], ttl, maxEntries, Call(key, now)).loaders == ss[n].loaders
    ensures ReplyTo(ss[n], key, now) == Awaits(l)
         || (Lookup(ss[n].store, key, now).Some? && ReplyTo(ss[n], key, now) == Cached(Lookup(ss[n].store, key, now).value))
  {
    RunKeepsInflight(ss, ttl, maxEntries, steps, n);
  }

  /** A call finds the value, or awaits the unsettled loader of its key, or else starts exactly one. */
  lemma CallStartsLoaderExactlyWhen<V>(ss: seq<State<V>>, ttl: int, maxEntries: int, steps: seq<Step<V>>, n: nat, key: string,
        now: Time)
    requires IsRun(ss, ttl, maxEntries, steps) && n <= |steps|
    ensures var s, s' := ss[n], Take(ss[n], ttl, maxEntries, Call(key, now));
            var found := Lookup(s.store, key, now);
            var busy := exists l :: 0 <= l < |s.loaders| && s.loaders[l].key == key && !s.loaders[l].settled;
            && s'.loaders == s.loaders + (if found.Some? || busy then [] else [Loader(key, Running, false)])
            && (found.Some? ==> ReplyTo(s, key, now) == Cached(found.value))
            && (found.None? ==> ReplyTo(s, key, now).Awaits? && ReplyTo(s, key, now).loader < |s'.loaders|
                                && s'.loaders[ReplyTo(s, key, now).loader].key == key
                                && !s'.loaders[ReplyTo(s, key, now).loader].settled)
  {
    hide AfterGet;
    RunKeepsInflight(ss, ttl, maxEntries, steps, n);
  }

  /** The outcome of a loader, once there, never changes, so all who await it see the same one. */
  lemma {:induction false} OutcomeIsFinal<V>(ss: seq<State<V>>, ttl: int, maxEntries: int, steps: seq<Step<V>>,
        i: nat, j: nat, l: nat)
    requires IsRun(ss, ttl, maxEntries, steps) && i <= j <= |steps|
    requires l < |ss[i].loaders| && !ss[i].loaders[l].progress.Running?
    ensures l < |ss[j].loaders| && ss[j].loaders[l].progress == ss[i].loaders[l].progress
    decreases j - i
  {
    if i < j {
      OutcomeIsFinal(ss, ttl, maxEntries, steps, i + 1, j, l);
    }
  }

  // ---- The cache as it runs ----------------------------------------------------------

  /** A run that ends in `s`. */
  ghost predicate History<V>(ss: seq<State<V>>, ttl: int, maxEntries: int, steps: seq<Step<V>>, s: State<V>) {
    IsRun(ss, ttl, maxEntries, steps) && ss[|steps|] == s
  }

  lemma HistoryGoesOn<V>(ss: seq<State<V>>, ttl: int, maxEntries: int, steps: seq<Step<V>>, s: State<V>, step: Step<V>)
    requires History(ss, ttl, maxEntries, steps, s) && Allowed(s, step)
    ensures var s' := Take(s, ttl, maxEntries, step); History(ss + [s'], ttl, maxEntries, steps + [step], s')
  {
    hide Take, Allowed;
    var ss', steps' := ss + [Take(s, ttl, maxEntries, step)], steps + [step];
    forall i | 0 <= i < |steps'|
      ensures Allowed(ss'[i], steps'[i]) && ss'[i + 1] == Take(ss'[i], ttl, maxEntries, steps'[i])
    {
      assert i < |steps| ==> steps'[i] == steps[i] && ss'[i] == ss[i] && ss'[i + 1] == ss[i + 1];
    }
  }

  /** The cache, with the run that has led to it. */
  class Cache<V(!new)> {
    const ttlMs: int
    const maxEntries: int
    var store: seq<Slot<V>>
    var inflight: map<string, nat>
    var loaders: seq<Loader<V>>
    ghost var ss: seq<State<V>>
    ghost var steps: seq<Step<V>>

    constructor (ttlMs: int, maxEntries: int)
      ensures this.ttlMs == ttlMs && this.maxEntries == maxEntries
      ensures Valid() && Snapshot() == State([], map[], [])
    {
      this.ttlMs, this.maxEntries, store, inflight, loaders := ttlMs, maxEntries, [], map[], [];
      ss, steps := [State([], map[], [])], [];
    }

    function Snapshot(): State<V>
      reads this
    {
      State(store, inflight, loaders)
    }

    ghost predicate Valid()
      reads this
    {
      History(ss, ttlMs, maxEntries, steps, Snapshot())
    }

    /** Adds to the history the step that has just turned `before` into the current cache. */
    ghost method Remember(before: State<V>, step: Step<V>)
      requires History(ss, ttlMs, maxEntries, steps, before) && Allowed(before, step)
      requires Snapshot() == Take(before, ttlMs, maxEntries, step)
      modifies this`ss, this`steps
      ensures Valid()
    {
      hide Take, Allowed, History;
      HistoryGoesOn(ss, ttlMs, maxEntries, steps, before, step);
      ss, steps := ss + [Snapshot()], steps + [step];
    }

    method ReadSlot(key: string, now: Time) returns (r: Option<V>)
      modifies this`store
      ensures r == Lookup(old(store), key, now)
      ensures store == AfterGet(old(store), key, now)
    {
      var hit := Find(store, key);
      if hit.None? {
        return None;
      }
      if store[hit.value].expiresAt <= now {
        store := Delete(store, key);
        return None;
      }
      return Some(store[hit.value].value);
    }

    method WriteSlot(key: string, value: V, now: Time)
      modifies this`store
      ensures store == AfterSet(old(store), maxEntries, Slot(key, value, now + ttlMs))
    {
      if |store| >= maxEntries {
        if store != [] {
          store := store[1..];
        }
      }
      store := Put(store, Slot(key, value, now + ttlMs));
    }

    method Get(key: string, now: Time) returns (r: Option<V>)
      requires Valid()
      modifies this
      ensures Valid() && r == Lookup(old(store), key, now)
      ensures Snapshot() == old(Snapshot()).(store := AfterGet(old(store), key, now))
    {
      hide History;
      r := ReadSlot(key, now);
      Remember(old(Snapshot()), Look(key, now));
    }

    method Set(key: string, value: V, now: Time)
      requires Valid()
      modifies this
      ensures Valid()
      ensures Snapshot() == old(Snapshot()).(store := AfterSet(old(store), maxEntries, Slot(key, value, now + ttlMs)))
    {
      hide History;
      WriteSlot(key, value, now);
      Remember(old(Snapshot()), Direct(key, value, now));
    }

    /** The synchronous part of `getOrLoad`, up to the promise it returns. */
    method GetOrLoad(key: string, now: Time) returns (r: Reply<V>)
      requires Valid()
      modifies this
      ensures Valid() && r == ReplyTo(old(Snapshot()), key, now)
      ensures Snapshot() == Take(old(Snapshot()), ttlMs, maxEntries, Call(key, now))
    {
      hide History;
      var cached := ReadSlot(key, now);
      if cached.Some? {
        Remember(old(Snapshot()), Call(key, now));
        return Cached(cached.value);
      }
      if key in inflight {
        Remember(old(Snapshot()), Call(key, now));
        return Awaits(inflight[key]);
      }
      var promise := |loaders|;
      loaders := loaders + [Loader(key, Running, false)];
      inflight := inflight[key := promise];
      Remember(old(Snapshot()), Call(key, now));
      return Awaits(promise);
    }

    /** The `then` callback of a loader. */
    method OnLoaded(loader: nat, value: V, now: Time)
      requires Valid() && loader < |loaders| && loaders[loader].progress.Running?
      modifies this
      ensures Valid()
      ensures Snapshot() == Take(old(Snapshot()), ttlMs, maxEntries, Resolve(loader, value, now))
    {
      hide History;
      WriteSlot(loaders[loader].key, value, now);
      loaders := loaders[loader := loaders[loader].(progress := Fulfilled(value))];
      Remember(old(Snapshot()), Resolve(loader, value, now));
    }

    /** A loader that fails stores nothing. */
    method OnRejected(loader: nat)
      requires Valid() && loader < |loaders| && loaders[loader].progress.Running?
      modifies this
      ensures Valid()
      ensures Snapshot() == Take(old(Snapshot()), ttlMs, maxEntries, Reject(loader))
    {
      hide History;
      loaders := loaders[loader := loaders[loader].(progress := Rejected)];
      Remember(old(Snapshot()), Reject(loader));
    }

    /** The `finally` callback of a loader. */
    method OnSettled(loader: nat)
      requires Valid() && loader < |loaders| && !loaders[loader].progress.Running? && !loaders[loader].settled
      modifies this
      ensures Valid()
      ensures Snapshot() == Take(old(Snapshot()), ttlMs, maxEntries, Settle(loader))
    {
      hide History;
      inflight := inflight - {loaders[loader].key};
      loaders := loaders[loader := loaders[loader].(settled := true)];
      Remember(old(Snapshot()), Settle(loader));
    }

    /** What the history gives: the size of the store, and that a hit is the latest value while it is young. */
    lemma StoreTheorems(key: string, now: Time)
      requires Valid()
      ensures |store| <= Bound(maxEntries)
      ensures var latest := Latest(Ops(ss, ttlMs, maxEntries, steps, |steps|), key);
              (Lookup(store, key, now).Some? ==>
                latest.Some? && Lookup(store, key, now).value == latest.value.0 && now < latest.value.1 + ttlMs)
    {
      var h := Ops(ss, ttlMs, maxEntries, steps, |steps|);
      StoreFollowsOps(ss, ttlMs, maxEntries, steps, |steps|);
      StoreIsBounded(h, ttlMs, maxEntries);
      if Lookup(store, key, now).Some? {
        LookupIsLatest(h, ttlMs, maxEntries, key, now);
      }
    }

    /** The unsettled loaders have different keys. */
    lemma LoadersDiffer(l: nat, m: nat)
      requires Valid() && l < m < |loaders| && !loaders[l].settled && !loaders[m].settled
      ensures loaders[l].key != loaders[m].key
    {
      if loaders[l].key == loaders[m].key {
        OneLoaderPerKey(ss, ttlMs, maxEntries, steps, |steps|, l, m);
      }
    }
  }
}

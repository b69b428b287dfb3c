/**
 * One-time-password challenges: sending with a cooldown and a rolling-hour cap, verifying
 * with an attempt limit, and claiming a challenge for one login.
 *
 * The log records what happened to each challenge; it is what the bounds are stated about.
 */
module Otp {
  import opened Prelude

  const HOUR_MS: Time := 3600000

  datatype Config = Config(cooldownSeconds: nat, expiresInSeconds: nat, maxAttempts: nat, maxSendsPerHour: nat)

  datatype Challenge = Challenge(
    identifier: string, purpose: string, secret: string, createdAt: Time, expiresAt: Time,
    attempts: nat, maxAttempts: nat, verifiedAt: Option<Time>, consumedAt: Option<Time>)

  /** What happened to the challenge at position `id`. */
  datatype Entry =
    | Mismatched(id: nat)
    | LoggedIn(id: nat)
    | RolledBack(id: nat)

  datatype Db = Db(challenges: seq<Challenge>, log: seq<Entry>)

  datatype SendResult = Sent | CoolingDown | HourlyCapReached | NotDelivered

  datatype VerifyResult = NoChallenge | ChallengeExpired | AttemptsExhausted | WrongOtp | LoginRefused | ClaimLost | Verified

  predicate Open(c: Challenge, identifier: string, purpose: string) {
    c.identifier == identifier && c.purpose == purpose && c.consumedAt.None?
  }

  predicate CoolsDown(cs: seq<Challenge>, cfg: Config, identifier: string, purpose: string, now: Time) {
    exists i :: 0 <= i < |cs| && Open(cs[i], identifier, purpose) && cs[i].createdAt > now - cfg.cooldownSeconds * 1000
  }

  /** Challenges of the pair created in the half-open interval `(after, upTo]`. */
  function SentIn(cs: seq<Challenge>, identifier: string, purpose: string, after: Time, upTo: Time): nat {
    if cs == [] then 0
    else
      var c := cs[|cs| - 1];
      SentIn(cs[..|cs| - 1], identifier, purpose, after, upTo)
      + if c.identifier == identifier && c.purpose == purpose && after < c.createdAt <= upTo then 1 else 0
  }

  /** The rows of the pair created after an instant, without an upper end. */
  function SentSince(cs: seq<Challenge>, identifier: string, purpose: string, after: Time): nat {
    if cs == [] then 0
    else
      var c := cs[|cs| - 1];
      SentSince(cs[..|cs| - 1], identifier, purpose, after)
      + if c.identifier == identifier && c.purpose == purpose && after < c.createdAt then 1 else 0
  }

  function Invalidate(cs: seq<Challenge>, identifier: string, purpose: string, now: Time): seq<Challenge> {
    seq(|cs|, i requires 0 <= i < |cs| =>
      if Open(cs[i], identifier, purpose) && cs[i].verifiedAt.None? then cs[i].(consumedAt := Some(now)) else cs[i])
  }

  function NewChallenge(cfg: Config, identifier: string, purpose: string, secret: string, now: Time): Challenge {
    Challenge(identifier, purpose, secret, now, now + cfg.expiresInSeconds * 1000, 0, cfg.maxAttempts, None, None)
  }

  function SendVerdict(cs: seq<Challenge>, cfg: Config, identifier: string, purpose: string, delivered: bool,
        now: Time): SendResult {
    if CoolsDown(cs, cfg, identifier, purpose, now) then CoolingDown
    else if SentSince(cs, identifier, purpose, now - HOUR_MS) >= cfg.maxSendsPerHour then HourlyCapReached
    else if !delivered then NotDelivered
    else Sent
  }

  function AfterSend(cs: seq<Challenge>, cfg: Config, identifier: string, purpose: string, secret: string,
        delivered: bool, now: Time): seq<Challenge> {
    match SendVerdict(cs, cfg, identifier, purpose, delivered, now)
    case CoolingDown => cs
    case HourlyCapReached => cs
    case NotDelivered => Invalidate(cs, identifier, purpose, now)
    case Sent => Invalidate(cs, identifier, purpose, now) + [NewChallenge(cfg, identifier, purpose, secret, now)]
  }

  /** `id` is an open challenge of the pair that no other open one is newer than. */
  ghost predicate IsNewestOpen(cs: seq<Challenge>, identifier: string, purpose: string, id: nat) {
    && id < |cs| && Open(cs[id], identifier, purpose)
    && forall j :: 0 <= j < |cs| && Open(cs[j], identifier, purpose) ==> cs[j].createdAt <= cs[id].createdAt
  }

  predicate Claimable(c: Challenge) {
    c.consumedAt.None? && c.verifiedAt.None?
  }

  function VerifyVerdict(c: Challenge, otp: string, loginOk: bool, now: Time): VerifyResult {
    if c.expiresAt < now then ChallengeExpired
    else if c.attempts >= c.maxAttempts then AttemptsExhausted
    else if otp != c.secret then WrongOtp
    else if !Claimable(c) then ClaimLost
    else if !loginOk then LoginRefused
    else Verified
  }

  function AfterVerify(db: Db, id: nat, otp: string, loginOk: bool, now: Time): Db
    requires id < |db.challenges|
  {
    var c := db.challenges[id];
    match VerifyVerdict(c, otp, loginOk, now)
    case ChallengeExpired => db.(challenges := db.challenges[id := c.(consumedAt := Some(now))])
    case WrongOtp => Db(db.challenges[id := c.(attempts := c.attempts + 1)], db.log + [Mismatched(id)])
    case LoginRefused => db.(log := db.log + [RolledBack(id)])
    case ClaimLost => db.(log := db.log + [RolledBack(id)])
    case Verified => Db(db.challenges[id := c.(verifiedAt := Some(now), consumedAt := Some(now))], db.log + [LoggedIn(id)])
    case _ => db
  }

  /** A call with what it draws from outside; `id` is the row a verification finds, if there is one. */
  datatype Op =
    | Send(identifier: string, purpose: string, secret: string, delivered: bool)
    | Verify(identifier: string, purpose: string, otp: string, loginOk: bool, id: nat)

  datatype Event = Event(op: Op, now: Time)

  function Apply(db: Db, cfg: Config, e: Event): Db {
    match e.op
    case Send(i, p, s, d) => db.(challenges := AfterSend(db.challenges, cfg, i, p, s, d, e.now))
    case Verify(i, p, otp, ok, id) =>
      if id < |db.challenges| && Open(db.challenges[id], i, p) then AfterVerify(db, id, otp, ok, e.now) else db
  }

  ghost predicate Possible(db: Db, e: Event) {
    match e.op
    case Send(_, _, _, _) => true
    case Verify(i, p, _, _, id) =>
      (exists k :: 0 <= k < |db.challenges| && Open(db.challenges[k], i, p)) ==> IsNewestOpen(db.challenges, i, p, id)
  }

  ghost predicate IsRun(dbs: seq<Db>, cfg: Config, es: seq<Event>) {
    && |dbs| == |es| + 1 && dbs[0] == Db([], [])
    && (forall i :: 0 <= i < |es| ==> Possible(dbs[i], es[i]) && dbs[i + 1] == Apply(dbs[i], cfg, es[i]))
    && (forall i, j :: 0 <= i < j < |es| ==> es[i].now <= es[j].now)
  }

  // ---- Counting -----------------------------------------------------------------

  function Count(log: seq<Entry>, e: Entry): nat {
    if log == [] then 0
    else Count(log[..|log| - 1], e) + if log[|log| - 1] == e then 1 else 0
  }

  /** Hash comparisons made against a challenge: every one that failed, logged in or was rolled back. */
  function Comparisons(log: seq<Entry>, id: nat): nat {
    Count(log, Mismatched(id)) + Count(log, LoggedIn(id)) + Count(log, RolledBack(id))
  }

  lemma CountAppend(log: seq<Entry>, last: Entry, e: Entry)
    ensures Count(log + [last], e) == Count(log, e) + if last == e then 1 else 0
  {
    assert (log + [last])[..|log|] == log;
  }

  lemma {:induction false} SameRowsSameCount(cs: seq<Challenge>, ds: seq<Challenge>, identifier: string,
        purpose: string, after: Time, upTo: Time)
    requires |cs| == |ds|
    requires forall i :: 0 <= i < |cs| ==>
               cs[i].identifier == ds[i].identifier && cs[i].purpose == ds[i].purpose && cs[i].createdAt == ds[i].createdAt
    ensures SentIn(cs, identifier, purpose, after, upTo) == SentIn(ds, identifier, purpose, after, upTo)
  {
    if cs != [] {
      SameRowsSameCount(cs[..|cs| - 1], ds[..|ds| - 1], identifier, purpose, after, upTo);
    }
  }

  /** A window that ends after every row counts no more than one that starts earlier. */
  lemma {:induction false} LaterWindowCountsLess(cs: seq<Challenge>, identifier: string, purpose: string,
        after: Time, upTo: Time, since: Time)
    requires since <= after
    ensures SentIn(cs, identifier, purpose, after, upTo) <= SentSince(cs, identifier, purpose, since)
  {
    if cs != [] {
      LaterWindowCountsLess(cs[..|cs| - 1], identifier, purpose, after, upTo, since);
    }
  }

  // ---- Sequential runs ------------------------------------------------------------

  ghost predicate ChallengeOk(db: Db, id: nat, now: Time)
    requires id < |db.challenges|
  {
    var c := db.challenges[id];
    && c.createdAt <= now
    && (c.verifiedAt.Some? ==> c.consumedAt.Some?)
    && Count(db.log, Mismatched(id)) == c.attempts
    && (Count(db.log, LoggedIn(id)) >= 1 ==> c.consumedAt.Some?)
    && c.attempts + Count(db.log, LoggedIn(id)) <= c.maxAttempts
    && Count(db.log, LoggedIn(id)) <= 1
  }

  ghost predicate RowsOk(db: Db, cfg: Config, now: Time) {
    forall id :: 0 <= id < |db.challenges| ==> ChallengeOk(db, id, now) && db.challenges[id].maxAttempts == cfg.maxAttempts
  }

  ghost predicate OneOpen(cs: seq<Challenge>) {
    forall i, j :: 0 <= i < j < |cs| && cs[i].identifier == cs[j].identifier && cs[i].purpose == cs[j].purpose ==>
      cs[i].consumedAt.Some? || cs[j].consumedAt.Some?
  }

  ghost predicate Inv(db: Db, cfg: Config, now: Time) {
    && RowsOk(db, cfg, now)
    && (forall e :: e in db.log ==> e.id < |db.challenges|)
    && OneOpen(db.challenges)
  }

  lemma {:induction false} AbsentMeansZero(log: seq<Entry>, e: Entry)
    requires e !in log
    ensures Count(log, e) == 0
  {
    if log != [] {
      AbsentMeansZero(log[..|log| - 1], e);
    }
  }

  lemma SendKeepsInv(db: Db, cfg: Config, e: Event, before: Time)
    requires Inv(db, cfg, before) && before <= e.now && e.op.Send?
    ensures Inv(Apply(db, cfg, e), cfg, e.now)
  {
    var db' := Apply(db, cfg, e);
    forall id | 0 <= id < |db'.challenges| ensures ChallengeOk(db', id, e.now) {
      if id < |db.challenges| {
        assert ChallengeOk(db, id, before);
      } else {
        AbsentMeansZero(db.log, Mismatched(id));
        AbsentMeansZero(db.log, LoggedIn(id));
      }
    }
  }

  /** What one more entry about challenge `at` does to the counts of challenge `id`. */
  lemma LogGrows(log: seq<Entry>, at: nat, id: nat)
    ensures Count(log + [Mismatched(at)], Mismatched(id)) == Count(log, Mismatched(id)) + if at == id then 1 else 0
    ensures Count(log + [LoggedIn(at)], LoggedIn(id)) == Count(log, LoggedIn(id)) + if at == id then 1 else 0
    ensures Count(log + [Mismatched(at)], LoggedIn(id)) == Count(log + [RolledBack(at)], LoggedIn(id)) == Count(log, LoggedIn(id))
    ensures Count(log + [LoggedIn(at)], Mismatched(id)) == Count(log + [RolledBack(at)], Mismatched(id)) == Count(log, Mismatched(id))
  {
    CountAppend(log, Mismatched(at), Mismatched(id));
    CountAppend(log, LoggedIn(at), LoggedIn(id));
    CountAppend(log, Mismatched(at), LoggedIn(id));
    CountAppend(log, LoggedIn(at), Mismatched(id));
    CountAppend(log, RolledBack(at), LoggedIn(id));
    CountAppend(log, RolledBack(at), Mismatched(id));
  }

  lemma VerifyKeepsRow(db: Db, cfg: Config, e: Event, before: Time, id: nat)
    requires Inv(db, cfg, before) && before <= e.now && e.op.Verify? && id < |db.challenges|
    ensures |Apply(db, cfg, e).challenges| == |db.challenges|
    ensures ChallengeOk(Apply(db, cfg, e), id, e.now)
    ensures Apply(db, cfg, e).challenges[id].maxAttempts == db.challenges[id].maxAttempts
  {
    hide Count;
    assert ChallengeOk(db, id, before);
    LogGrows(db.log, e.op.id, id);
  }

  lemma VerifyKeepsInv(db: Db, cfg: Config, e: Event, before: Time)
    requires Inv(db, cfg, before) && before <= e.now && e.op.Verify?
    ensures Inv(Apply(db, cfg, e), cfg, e.now)
  {
    assert RowsOk(Apply(db, cfg, e), cfg, e.now) by {
      forall id | 0 <= id < |db.challenges| { VerifyKeepsRow(db, cfg, e, before, id); }
    }
  }

  lemma {:induction false} RunKeepsInv(dbs: seq<Db>, cfg: Config, es: seq<Event>, n: nat, now: Time)
    requires IsRun(dbs, cfg, es) && n <= |es| && (n > 0 ==> es[n - 1].now <= now)
    ensures Inv(dbs[n], cfg, now)
  {
    if n > 0 {
      RunKeepsInv(dbs, cfg, es, n - 1, es[n - 1].now);
      if es[n - 1].op.Send? {
        SendKeepsInv(dbs[n - 1], cfg, es[n - 1], es[n - 1].now);
      } else {
        VerifyKeepsInv(dbs[n - 1], cfg, es[n - 1], es[n - 1].now);
      }
      forall id | 0 <= id < |dbs[n].challenges| ensures ChallengeOk(dbs[n], id, now) {
        assert ChallengeOk(dbs[n], id, es[n - 1].now);
      }
    }
  }

  /** At most one challenge of an identifier and purpose is unconsumed. */
  lemma OneOpenChallenge(dbs: seq<Db>, cfg: Config, es: seq<Event>, n: nat, identifier: string, purpose: string,
        i: nat, j: nat)
    requires IsRun(dbs, cfg, es) && n <= |es|
    requires i < |dbs[n].challenges| && j < |dbs[n].challenges|
    requires Open(dbs[n].challenges[i], identifier, purpose) && Open(dbs[n].challenges[j], identifier, purpose)
    ensures i == j
  {
    RunKeepsInv(dbs, cfg, es, n, if n > 0 then es[n - 1].now else 0);
  }

  /** The call reaches the hash comparison: it finds an open, unexpired challenge with attempts left. */
  predicate Compares(db: Db, e: Event) {
    && e.op.Verify? && e.op.id < |db.challenges| && Open(db.challenges[e.op.id], e.op.identifier, e.op.purpose)
    && e.now <= db.challenges[e.op.id].expiresAt
    && db.challenges[e.op.id].attempts < db.challenges[e.op.id].maxAttempts
  }

  /** It compares the right code of a user who may not sign in. */
  predicate RefusedCall(db: Db, e: Event, id: nat) {
    Compares(db, e) && e.op.id == id && e.op.otp == db.challenges[id].secret && !e.op.loginOk
  }

  /**
   * A comparison is paid for, by an attempt or by the challenge itself, exactly when it is not
   * one of the right code of a user who may not sign in. The claim is never lost sequentially.
   */
  lemma PaidExactlyWhen(db: Db, cfg: Config, e: Event, before: Time)
    requires Inv(db, cfg, before) && Compares(db, e)
    ensures var id := e.op.id;
            var c, c' := db.challenges[id], Apply(db, cfg, e).challenges[id];
            && VerifyVerdict(c, e.op.otp, e.op.loginOk, e.now) != ClaimLost
            && (c'.attempts == c.attempts + 1 || c'.consumedAt.Some? <==> !RefusedCall(db, e, id))
  {
    assert ChallengeOk(db, e.op.id, before);
  }

  /** How many of the first `n` calls compared the right code with challenge `id` and were refused. */
  function RefusedCalls(dbs: seq<Db>, es: seq<Event>, n: nat, id: nat): nat
    requires n <= |es| && n <= |dbs|
  {
    if n == 0 then 0 else RefusedCalls(dbs, es, n - 1, id) + if RefusedCall(dbs[n - 1], es[n - 1], id) then 1 else 0
  }

  lemma StepLogsRefusals(db: Db, cfg: Config, e: Event, before: Time, id: nat)
    requires Inv(db, cfg, before)
    ensures Count(Apply(db, cfg, e).log, RolledBack(id)) == Count(db.log, RolledBack(id)) + if RefusedCall(db, e, id) then 1 else 0
  {
    hide Count;
    if e.op.Verify? && e.op.id < |db.challenges| {
      assert ChallengeOk(db, e.op.id, before);
      CountAppend(db.log, Mismatched(e.op.id), RolledBack(id));
      CountAppend(db.log, LoggedIn(e.op.id), RolledBack(id));
      CountAppend(db.log, RolledBack(e.op.id), RolledBack(id));
    }
  }

  lemma {:induction false} RollbacksAreRefusals(dbs: seq<Db>, cfg: Config, es: seq<Event>, n: nat, id: nat)
    requires IsRun(dbs, cfg, es) && n <= |es|
    ensures Count(dbs[n].log, RolledBack(id)) == RefusedCalls(dbs, es, n, id)
  {
    hide Apply, Possible, Inv, RefusedCall;
    if n > 0 {
      RollbacksAreRefusals(dbs, cfg, es, n - 1, id);
      RunKeepsInv(dbs, cfg, es, n - 1, es[n - 1].now);
      StepLogsRefusals(dbs[n - 1], cfg, es[n - 1], es[n - 1].now, id);
    }
  }

  /**
   * A challenge logs in at most once. Its comparisons are its failed attempts, its login and the
   * refused calls with the right code, so they stay within `maxAttempts` when there are none of these.
   */
  lemma ComparisonsAreBounded(dbs: seq<Db>, cfg: Config, es: seq<Event>, n: nat, id: nat)
    requires IsRun(dbs, cfg, es) && n <= |es| && id < |dbs[n].challenges|
    ensures Count(dbs[n].log, LoggedIn(id)) <= 1
    ensures Comparisons(dbs[n].log, id)
         == dbs[n].challenges[id].attempts + Count(dbs[n].log, LoggedIn(id)) + RefusedCalls(dbs, es, n, id)
    ensures dbs[n].challenges[id].attempts + Count(dbs[n].log, LoggedIn(id)) <= cfg.maxAttempts
    ensures RefusedCalls(dbs, es, n, id) == 0 ==> Comparisons(dbs[n].log, id) <= cfg.maxAttempts
  {
    hide Count, RefusedCalls;
    var now := if n > 0 then es[n - 1].now else 0;
    RunKeepsInv(dbs, cfg, es, n, now);
    RollbacksAreRefusals(dbs, cfg, es, n, id);
    assert ChallengeOk(dbs[n], id, now);
  }

  lemma RefusalIsOnlyLogged(db: Db, cfg: Config, e: Event)
    requires |db.challenges| == 1 && e.op.Verify? && e.op.id == 0 && !e.op.loginOk
    requires Open(db.challenges[0], e.op.identifier, e.op.purpose)
    requires var c := db.challenges[0]; e.op.otp == c.secret && e.now <= c.expiresAt && c.attempts < c.maxAttempts && Claimable(c)
    ensures Possible(db, e) && Apply(db, cfg, e) == Db(db.challenges, db.log + [RolledBack(0)])
    ensures Count(Apply(db, cfg, e).log, Mismatched(0)) == Count(db.log, Mismatched(0))
    ensures Count(Apply(db, cfg, e).log, LoggedIn(0)) == Count(db.log, LoggedIn(0))
    ensures Count(Apply(db, cfg, e).log, RolledBack(0)) == Count(db.log, RolledBack(0)) + 1
  {
    CountAppend(db.log, RolledBack(0), Mismatched(0));
    CountAppend(db.log, RolledBack(0), LoggedIn(0));
    CountAppend(db.log, RolledBack(0), RolledBack(0));
  }

  lemma RefusedLoginsBegin(cfg: Config)
    requires cfg.maxSendsPerHour >= 1
    ensures Apply(Db([], []), cfg, Event(Send("a", "LOGIN", "s", true), 0)) == Db([NewChallenge(cfg, "a", "LOGIN", "s", 0)], [])
    ensures Count([], Mismatched(0)) == Count([], LoggedIn(0)) == Count([], RolledBack(0)) == 0
  {
  }

  /**
   * The rollbacks matter under every configuration that allows an attempt: a blocked user who
   * holds the right code has it compared as often as they like, and no attempt is counted.
   */
  lemma {:induction false} RefusedLoginsAreNotCounted(cfg: Config, k: nat) returns (dbs: seq<Db>, es: seq<Event>)
    requires cfg.maxAttempts >= 1 && cfg.maxSendsPerHour >= 1
    ensures IsRun(dbs, cfg, es) && |es| == k + 1 && forall e :: e in es ==> e.now == 0
    ensures dbs[k + 1].challenges == [NewChallenge(cfg, "a", "LOGIN", "s", 0)]
    ensures Count(dbs[k + 1].log, Mismatched(0)) == Count(dbs[k + 1].log, LoggedIn(0)) == 0
    ensures Comparisons(dbs[k + 1].log, 0) == k
  {
    hide Count, AfterVerify;
    if k == 0 {
      RefusedLoginsBegin(cfg);
      es := [Event(Send("a", "LOGIN", "s", true), 0)];
      dbs := [Db([], []), Apply(Db([], []), cfg, es[0])];
    } else {
      var before, es' := RefusedLoginsAreNotCounted(cfg, k - 1);
      var try, last := Event(Verify("a", "LOGIN", "s", false, 0), 0), before[k];
      RefusalIsOnlyLogged(last, cfg, try);
      es, dbs := es' + [try], before + [Apply(last, cfg, try)];
    }
  }

  /** Sends of the pair in the hour that ends at `t`. */
  function HourEnding(cs: seq<Challenge>, identifier: string, purpose: string, t: Time): nat {
    SentIn(cs, identifier, purpose, t - HOUR_MS, t)
  }

  ghost predicate CapHolds(cs: seq<Challenge>, cap: nat) {
    forall identifier, purpose, t :: HourEnding(cs, identifier, purpose, t) <= cap
  }

  lemma SentInAppend(cs: seq<Challenge>, c: Challenge, identifier: string, purpose: string, after: Time, upTo: Time)
    ensures SentIn(cs + [c], identifier, purpose, after, upTo)
         == SentIn(cs, identifier, purpose, after, upTo)
            + if c.identifier == identifier && c.purpose == purpose && after < c.createdAt <= upTo then 1 else 0
  {
    assert (cs + [c])[..|cs|] == cs;
  }

  lemma SendKeepsHour(cs: seq<Challenge>, cfg: Config, op: Op, now: Time, identifier: string, purpose: string, t: Time)
    requires op.Send? && HourEnding(cs, identifier, purpose, t) <= cfg.maxSendsPerHour
    ensures HourEnding(AfterSend(cs, cfg, op.identifier, op.purpose, op.secret, op.delivered, now), identifier, purpose, t)
         <= cfg.maxSendsPerHour
  {
    hide SentIn, SentSince, CoolsDown;
    var closed := Invalidate(cs, op.identifier, op.purpose, now);
    var c := NewChallenge(cfg, op.identifier, op.purpose, op.secret, now);
    SameRowsSameCount(closed, cs, identifier, purpose, t - HOUR_MS, t);
    SentInAppend(closed, c, identifier, purpose, t - HOUR_MS, t);
    if t - HOUR_MS < now <= t {
      LaterWindowCountsLess(cs, identifier, purpose, t - HOUR_MS, t, now - HOUR_MS);
    }
  }

  lemma SendKeepsCap(cs: seq<Challenge>, cfg: Config, op: Op, now: Time)
    requires op.Send? && CapHolds(cs, cfg.maxSendsPerHour)
    ensures CapHolds(AfterSend(cs, cfg, op.identifier, op.purpose, op.secret, op.delivered, now), cfg.maxSendsPerHour)
  {
    var cs' := AfterSend(cs, cfg, op.identifier, op.purpose, op.secret, op.delivered, now);
    forall identifier, purpose, t ensures HourEnding(cs', identifier, purpose, t) <= cfg.maxSendsPerHour {
      assert HourEnding(cs, identifier, purpose, t) <= cfg.maxSendsPerHour;
      SendKeepsHour(cs, cfg, op, now, identifier, purpose, t);
    }
  }

  /** Every rolling hour holds at most the configured number of sends per identifier and purpose. */
  lemma {:induction false} RollingHourCap(dbs: seq<Db>, cfg: Config, es: seq<Event>, n: nat)
    requires IsRun(dbs, cfg, es) && n <= |es|
    ensures CapHolds(dbs[n].challenges, cfg.maxSendsPerHour)
  {
    if n > 0 {
      RollingHourCap(dbs, cfg, es, n - 1);
      var e := es[n - 1];
      if e.op.Send? {
        SendKeepsCap(dbs[n - 1].challenges, cfg, e.op, e.now);
      } else {
        forall i, p, t ensures HourEnding(dbs[n].challenges, i, p, t) <= cfg.maxSendsPerHour {
          assert HourEnding(dbs[n - 1].challenges, i, p, t) <= cfg.maxSendsPerHour;
          SameRowsSameCount(dbs[n].challenges, dbs[n - 1].challenges, i, p, t - HOUR_MS, t);
        }
      }
    }
  }

  // ---- Interleaved calls ------------------------------------------------------------

  /** Where a concurrent `verifyOtp` stands between its database accesses. */
  datatype Phase = Holding(id: nat, snapshot: Challenge) | Matched(id: nat)

  datatype World = World(db: Db, phases: map<nat, Phase>)

  datatype Step =
    | Close(identifier: string, purpose: string)
    | Create(challenge: Challenge)
    | Read(actor: nat, id: nat)
    | Expire(actor: nat)
    | Compare(actor: nat, otp: string)
    | Claim(actor: nat, loginOk: bool)

  predicate Allowed(w: World, cap: nat, s: Step) {
    match s
    case Close(_, _) => true
    case Create(c) => c.attempts == 0 && c.maxAttempts == cap && Claimable(c)
    case Read(a, id) => a !in w.phases && id < |w.db.challenges| && w.db.challenges[id].consumedAt.None?
    case Expire(a) => a in w.phases && w.phases[a].Holding? && w.phases[a].id < |w.db.challenges|
    case Compare(a, _) =>
      && a in w.phases && w.phases[a].Holding? && w.phases[a].id < |w.db.challenges|
      && w.phases[a].snapshot.attempts < w.phases[a].snapshot.maxAttempts
    case Claim(a, _) => a in w.phases && w.phases[a].Matched? && w.phases[a].id < |w.db.challenges|
  }

  function Drop(phases: map<nat, Phase>, actor: nat): map<nat, Phase> {
    map a | a in phases && a != actor :: phases[a]
  }

  /** The effect of one database access; `now` is irrelevant to what is claimed and left open. */
  function Take(w: World, cap: nat, s: Step, now: Time): World
    requires Allowed(w, cap, s)
  {
    match s
    case Close(i, p) => w.(db := w.db.(challenges := Invalidate(w.db.challenges, i, p, now)))
    case Create(c) => w.(db := w.db.(challenges := w.db.challenges + [c]))
    case Read(a, id) =>
      var c := w.db.challenges[id];
      if c.attempts >= c.maxAttempts then w else w.(phases := w.phases[a := Holding(id, c)])
    case Expire(a) =>
      var id := w.phases[a].id;
      World(w.db.(challenges := w.db.challenges[id := w.db.challenges[id].(consumedAt := Some(now))]), Drop(w.phases, a))
    case Compare(a, otp) =>
      var id := w.phases[a].id;
      if otp == w.phases[a].snapshot.secret then w.(phases := w.phases[a := Matched(id)])
      else
        var c := w.db.challenges[id];
        World(Db(w.db.challenges[id := c.(attempts := c.attempts + 1)], w.db.log + [Mismatched(id)]), Drop(w.phases, a))
    case Claim(a, ok) =>
      var id := w.phases[a].id;
      var c := w.db.challenges[id];
      if Claimable(c) && ok then
        World(Db(w.db.challenges[id := c.(verifiedAt := Some(now), consumedAt := Some(now))], w.db.log + [LoggedIn(id)]),
              Drop(w.phases, a))
      else World(w.db.(log := w.db.log + [RolledBack(id)]), Drop(w.phases, a))
  }

  ghost predicate IsInterleaving(ws: seq<World>, cap: nat, steps: seq<Step>, times: seq<Time>) {
    && |ws| == |steps| + 1 && |times| == |steps| && ws[0] == World(Db([], []), map[])
    && forall i :: 0 <= i < |steps| ==> Allowed(ws[i], cap, steps[i]) && ws[i + 1] == Take(ws[i], cap, steps[i], times[i])
  }

  /** The actors that have read challenge `id` and may still compare against it. */
  function Readers(phases: map<nat, Phase>, id: nat): set<nat> {
    set a | a in phases && phases[a].Holding? && phases[a].id == id
  }

  ghost predicate WorldRowOk(w: World, cap: nat, actors: nat, id: nat)
    requires id < |w.db.challenges|
  {
    var c := w.db.challenges[id];
    && c.maxAttempts == cap
    && Count(w.db.log, Mismatched(id)) == c.attempts
    && Count(w.db.log, LoggedIn(id)) <= (if c.consumedAt.Some? then 1 else 0)
    && (c.attempts + |Readers(w.phases, id)| < cap + actors || (c.attempts == 0 && Readers(w.phases, id) == {}))
  }

  ghost predicate WorldInv(w: World, cap: nat, actors: set<nat>) {
    && w.phases.Keys <= actors
    && (forall a :: a in w.phases ==> w.phases[a].id < |w.db.challenges|)
    && (forall e :: e in w.db.log ==> e.id < |w.db.challenges|)
    && forall id :: 0 <= id < |w.db.challenges| ==> WorldRowOk(w, cap, |actors|, id)
  }

  lemma SubsetSize<T>(a: set<T>, b: set<T>)
    requires a <= b
    ensures |a| <= |b|
  {
    assert b == a + (b - a);
  }

  lemma ReadersStep(w: World, cap: nat, s: Step, now: Time, id: nat)
    requires Allowed(w, cap, s)
    ensures var w' := Take(w, cap, s, now);
            && Readers(w'.phases, id) <= Readers(w.phases, id) + (if s.Read? && s.id == id then {s.actor} else {})
            && (s.Compare? && w.phases[s.actor].id == id ==> Readers(w'.phases, id) == Readers(w.phases, id) - {s.actor})
  {
  }

  lemma ReadersAfter(w: World, cap: nat, actors: set<nat>, s: Step, now: Time, id: nat)
    requires WorldInv(w, cap, actors) && Allowed(w, cap, s) && id < |w.db.challenges|
    requires s.Read? ==> s.actor in actors
    ensures var w' := Take(w, cap, s, now);
            && Readers(w'.phases, id) <= Readers(w.phases, id) + (if s.Read? && s.id == id then {s.actor} else {})
            && (s.Compare? && w.phases[s.actor].id == id ==> Readers(w'.phases, id) == Readers(w.phases, id) - {s.actor})
            && |Readers(w'.phases, id)| <= |actors|
            && (!(s.Read? && s.id == id) ==> |Readers(w'.phases, id)| <= |Readers(w.phases, id)|)
  {
    hide Take, Allowed;
    var w' := Take(w, cap, s, now);
    ReadersStep(w, cap, s, now, id);
    assert Readers(w'.phases, id) <= actors;
    SubsetSize(Readers(w'.phases, id), actors);
    if !(s.Read? && s.id == id) {
      SubsetSize(Readers(w'.phases, id), Readers(w.phases, id));
    }
  }

  /** A step that writes no challenge changes only who is reading. */
  lemma QuietStepKeepsRow(w: World, cap: nat, actors: set<nat>, s: Step, now: Time, id: nat)
    requires WorldInv(w, cap, actors) && Allowed(w, cap, s) && (s.Read? ==> s.actor in actors)
    requires id < |w.db.challenges| && (s.Close? || s.Create? || s.Read? || s.Expire?)
    ensures WorldRowOk(Take(w, cap, s, now), cap, |actors|, id)
  {
    assert WorldRowOk(w, cap, |actors|, id);
    ReadersAfter(w, cap, actors, s, now, id);
  }

  lemma CompareKeepsRow(w: World, cap: nat, actors: set<nat>, s: Step, now: Time, id: nat)
    requires WorldInv(w, cap, actors) && Allowed(w, cap, s) && id < |w.db.challenges| && s.Compare?
    ensures WorldRowOk(Take(w, cap, s, now), cap, |actors|, id)
  {
    hide Count;
    assert WorldRowOk(w, cap, |actors|, id);
    ReadersAfter(w, cap, actors, s, now, id);
    LogGrows(w.db.log, w.phases[s.actor].id, id);
  }

  lemma ClaimKeepsRow(w: World, cap: nat, actors: set<nat>, s: Step, now: Time, id: nat)
    requires WorldInv(w, cap, actors) && Allowed(w, cap, s) && id < |w.db.challenges| && s.Claim?
    ensures WorldRowOk(Take(w, cap, s, now), cap, |actors|, id)
  {
    hide Count, Readers;
    assert WorldRowOk(w, cap, |actors|, id);
    ReadersAfter(w, cap, actors, s, now, id);
    LogGrows(w.db.log, w.phases[s.actor].id, id);
  }

  lemma StepKeepsRow(w: World, cap: nat, actors: set<nat>, s: Step, now: Time, id: nat)
    requires WorldInv(w, cap, actors) && Allowed(w, cap, s) && (s.Read? ==> s.actor in actors)
    requires id < |Take(w, cap, s, now).db.challenges|
    ensures WorldRowOk(Take(w, cap, s, now), cap, |actors|, id)
  {
    if id >= |w.db.challenges| {
      AbsentMeansZero(w.db.log, Mismatched(id));
      AbsentMeansZero(w.db.log, LoggedIn(id));
      assert Readers(Take(w, cap, s, now).phases, id) == {};
    } else if s.Compare? {
      CompareKeepsRow(w, cap, actors, s, now, id);
    } else if s.Claim? {
      ClaimKeepsRow(w, cap, actors, s, now, id);
    } else {
      QuietStepKeepsRow(w, cap, actors, s, now, id);
    }
  }

  lemma StepKeepsWorld(w: World, cap: nat, actors: set<nat>, s: Step, now: Time)
    requires WorldInv(w, cap, actors) && Allowed(w, cap, s) && (s.Read? ==> s.actor in actors)
    ensures WorldInv(Take(w, cap, s, now), cap, actors)
  {
    var w' := Take(w, cap, s, now);
    forall id | 0 <= id < |w'.db.challenges| ensures WorldRowOk(w', cap, |actors|, id) {
      StepKeepsRow(w, cap, actors, s, now, id);
    }
  }

  lemma {:induction false} InterleavingKeepsWorld(ws: seq<World>, cap: nat, steps: seq<Step>, times: seq<Time>,
        actors: set<nat>, n: nat)
    requires IsInterleaving(ws, cap, steps, times) && n <= |steps|
    requires forall i :: 0 <= i < |steps| && steps[i].Read? ==> steps[i].actor in actors
    ensures WorldInv(ws[n], cap, actors)
  {
    if n > 0 {
      InterleavingKeepsWorld(ws, cap, steps, times, actors, n - 1);
      StepKeepsWorld(ws[n - 1], cap, actors, steps[n - 1], times[n - 1]);
    }
  }

  /**
   * Under any interleaving a challenge logs in at most once. The attempt limit is only
   * softened by reads that overlap: with N concurrent verifiers there are fewer than
   * `maxAttempts + N` failed comparisons.
   */
  lemma InterleavedBounds(ws: seq<World>, cap: nat, steps: seq<Step>, times: seq<Time>, actors: set<nat>, n: nat, id: nat)
    requires IsInterleaving(ws, cap, steps, times) && n <= |steps| && id < |ws[n].db.challenges|
    requires forall i :: 0 <= i < |steps| && steps[i].Read? ==> steps[i].actor in actors
    ensures Count(ws[n].db.log, LoggedIn(id)) <= 1
    ensures Count(ws[n].db.log, Mismatched(id)) == ws[n].db.challenges[id].attempts
    ensures Count(ws[n].db.log, Mismatched(id)) < cap + |actors| || Count(ws[n].db.log, Mismatched(id)) == 0
  {
    InterleavingKeepsWorld(ws, cap, steps, times, actors, n);
    assert WorldRowOk(ws[n], cap, |actors|, id);
  }
}

/**
 * What one-time passwords promise their users: when a new one is sent, what uses one up, and
 * that exactly the code sent last, entered in time, signs in.
 */
module OtpOutcomes {
  import opened Prelude
  import opened Otp

  // ---- Sending -------------------------------------------------------------------------------------

  predicate ForPair(c: Challenge, identifier: string, purpose: string) {
    c.identifier == identifier && c.purpose == purpose
  }

  /** The challenges of the pair sent after an instant. */
  function SentAfter(cs: seq<Challenge>, identifier: string, purpose: string, after: Time): set<nat> {
    set i: nat | i < |cs| && ForPair(cs[i], identifier, purpose) && after < cs[i].createdAt
  }

  lemma OneMoreSent(front: seq<Challenge>, c: Challenge, identifier: string, purpose: string, after: Time)
    ensures var less, more := SentAfter(front, identifier, purpose, after), SentAfter(front + [c], identifier, purpose, after);
            |more| == |less| + if ForPair(c, identifier, purpose) && after < c.createdAt then 1 else 0
  {
    hide ForPair;
    var cs := front + [c];
    var less, more := SentAfter(front, identifier, purpose, after), SentAfter(cs, identifier, purpose, after);
    var one: set<nat> := if ForPair(c, identifier, purpose) && after < c.createdAt then {|front|} else {};
    forall i: nat ensures i in more <==> i in less + one {
      assert i < |front| ==> cs[i] == front[i];
      assert cs[|front|] == c;
    }
    assert more == less + one;
  }

  lemma {:induction false} SentSinceCounts(cs: seq<Challenge>, identifier: string, purpose: string, after: Time)
    ensures SentSince(cs, identifier, purpose, after) == |SentAfter(cs, identifier, purpose, after)|
  {
    hide SentAfter;
    if cs == [] {
      NoneSent(identifier, purpose, after);
    } else {
      var front, last := cs[..|cs| - 1], cs[|cs| - 1];
      SentSinceCounts(front, identifier, purpose, after);
      OneMoreSent(front, last, identifier, purpose, after);
      assert cs == front + [last];
    }
  }

  lemma NoneSent(identifier: string, purpose: string, after: Time)
    ensures SentAfter([], identifier, purpose, after) == {}
  {
  }

  /** An unused challenge of the pair is younger than the cooldown. */
  ghost predicate TooSoon(cs: seq<Challenge>, cfg: Config, identifier: string, purpose: string, now: Time) {
    exists i :: 0 <= i < |cs| && ForPair(cs[i], identifier, purpose) && cs[i].consumedAt.None?
                && now < cs[i].createdAt + cfg.cooldownSeconds * 1000
  }

  ghost predicate TooMany(cs: seq<Challenge>, cfg: Config, identifier: string, purpose: string, now: Time) {
    |SentAfter(cs, identifier, purpose, now - 3600000)| >= cfg.maxSendsPerHour
  }

  /** The answer to a request for a code, and what it leaves. */
  ghost predicate SendSays(cs: seq<Challenge>, cs': seq<Challenge>, cfg: Config, identifier: string, purpose: string, secret: string,
                           delivered: bool, now: Time, r: SendResult) {
    if TooSoon(cs, cfg, identifier, purpose, now) then r == CoolingDown && cs' == cs
    else if TooMany(cs, cfg, identifier, purpose, now) then r == HourlyCapReached && cs' == cs
    else
      && r == (if delivered then Sent else NotDelivered)
      && |cs'| == |cs| + (if delivered then 1 else 0)
      && (forall i :: 0 <= i < |cs| ==>
            cs'[i] == if ForPair(cs[i], identifier, purpose) && cs[i].consumedAt.None? && cs[i].verifiedAt.None?
                      then cs[i].(consumedAt := Some(now)) else cs[i])
      && (delivered ==>
            cs'[|cs|] == Challenge(identifier, purpose, secret, now, now + cfg.expiresInSeconds * 1000, 0, cfg.maxAttempts, None, None))
  }

  lemma SendAnswers(cs: seq<Challenge>, cfg: Config, identifier: string, purpose: string, secret: string, delivered: bool, now: Time)
    ensures var cs' := AfterSend(cs, cfg, identifier, purpose, secret, delivered, now);
            SendSays(cs, cs', cfg, identifier, purpose, secret, delivered, now,
                     SendVerdict(cs, cfg, identifier, purpose, delivered, now))
  {
    hide SentSince;
    SentSinceCounts(cs, identifier, purpose, now - HOUR_MS);
    assert CoolsDown(cs, cfg, identifier, purpose, now) <==> TooSoon(cs, cfg, identifier, purpose, now);
  }

  // ---- Challenges of a run ---------------------------------------------------------------------------

  /** The call sends the code as challenge `r`. */
  ghost predicate SendsAs(dbs: seq<Db>, es: seq<Event>, k: nat, r: nat)
    requires k < |es| && |dbs| == |es| + 1
  {
    && es[k].op.Send? && es[k].op.delivered && |dbs[k].challenges| == r && |dbs[k + 1].challenges| == r + 1
  }

  predicate SentBy(c: Challenge, cfg: Config, e: Event)
    requires e.op.Send?
  {
    && ForPair(c, e.op.identifier, e.op.purpose) && c.secret == e.op.secret && c.createdAt == e.now
    && c.expiresAt == e.now + cfg.expiresInSeconds * 1000 && c.maxAttempts == cfg.maxAttempts
  }

  /** What never changes about a challenge. */
  predicate SameChallenge(a: Challenge, b: Challenge) {
    && a.identifier == b.identifier && a.purpose == b.purpose && a.secret == b.secret && a.createdAt == b.createdAt
    && a.expiresAt == b.expiresAt && a.maxAttempts == b.maxAttempts
  }

  lemma StepKeepsChallenges(db: Db, cfg: Config, e: Event)
    ensures var cs, cs' := db.challenges, Apply(db, cfg, e).challenges;
            && |cs| <= |cs'| <= |cs| + 1
            && (forall i :: 0 <= i < |cs| ==> SameChallenge(cs[i], cs'[i]) && (cs[i].consumedAt.Some? ==> cs'[i].consumedAt.Some?))
            && (|cs'| > |cs| ==> e.op.Send? && e.op.delivered && SentBy(cs'[|cs|], cfg, e) && cs'[|cs|].consumedAt.None?)
  {
    hide CoolsDown, SentSince;
  }

  /** Every challenge of a run was sent by a call of the run, with its code and its time to live. */
  lemma {:induction false} ChallengesWereSent(dbs: seq<Db>, cfg: Config, es: seq<Event>, n: nat, r: nat)
    requires IsRun(dbs, cfg, es) && n <= |es| && r < |dbs[n].challenges|
    ensures exists k :: 0 <= k < n && SendsAs(dbs, es, k, r) && SentBy(dbs[n].challenges[r], cfg, es[k])
  {
    hide Apply, Possible, SentBy, SameChallenge;
    StepKeepsChallenges(dbs[n - 1], cfg, es[n - 1]);
    if r < |dbs[n - 1].challenges| {
      ChallengesWereSent(dbs, cfg, es, n - 1, r);
      var k :| 0 <= k < n - 1 && SendsAs(dbs, es, k, r) && SentBy(dbs[n - 1].challenges[r], cfg, es[k]);
      StillSentBy(dbs[n - 1].challenges[r], dbs[n].challenges[r], cfg, es[k]);
    } else {
      assert SendsAs(dbs, es, n - 1, r);
    }
  }

  lemma StillSentBy(a: Challenge, b: Challenge, cfg: Config, e: Event)
    requires SameChallenge(a, b) && e.op.Send? && SentBy(a, cfg, e)
    ensures SentBy(b, cfg, e)
  {
  }

  /**
   * Two codes for one pair are sent a cooldown apart, unless the first was used up before: then
   * it was entered, or found expired.
   */
  lemma SendsKeepApart(dbs: seq<Db>, cfg: Config, es: seq<Event>, k: nat, n: nat, r: nat)
    requires IsRun(dbs, cfg, es) && k < n < |es| && SendsAs(dbs, es, k, r) && SendsAs(dbs, es, n, |dbs[n].challenges|)
    requires es[k].op.identifier == es[n].op.identifier && es[k].op.purpose == es[n].op.purpose
    ensures r < |dbs[n].challenges|
    ensures dbs[n].challenges[r].consumedAt.None? ==> es[n].now >= es[k].now + cfg.cooldownSeconds * 1000
  {
    hide Possible;
    ChallengesGrow(dbs, cfg, es, k + 1, n);
    ChallengesWereSent(dbs, cfg, es, n, r);
    OneSender(dbs, cfg, es, n, r, k);
    var op := es[n].op;
    SendAnswers(dbs[n].challenges, cfg, op.identifier, op.purpose, op.secret, op.delivered, es[n].now);
  }

  lemma {:induction false} ChallengesGrow(dbs: seq<Db>, cfg: Config, es: seq<Event>, i: nat, j: nat)
    requires IsRun(dbs, cfg, es) && i <= j <= |es|
    ensures |dbs[i].challenges| <= |dbs[j].challenges|
    ensures forall r :: 0 <= r < |dbs[i].challenges| ==> SameChallenge(dbs[i].challenges[r], dbs[j].challenges[r])
    decreases j - i
  {
    hide Apply, Possible;
    if i < j {
      StepKeepsChallenges(dbs[i], cfg, es[i]);
      ChallengesGrow(dbs, cfg, es, i + 1, j);
    }
  }

  /** Only one call sent the challenge. */
  lemma OneSender(dbs: seq<Db>, cfg: Config, es: seq<Event>, n: nat, r: nat, k: nat)
    requires IsRun(dbs, cfg, es) && k < n <= |es| && SendsAs(dbs, es, k, r)
    ensures r < |dbs[n].challenges| && SentBy(dbs[n].challenges[r], cfg, es[k])
  {
    hide Apply, Possible;
    StepKeepsChallenges(dbs[k], cfg, es[k]);
    ChallengesGrow(dbs, cfg, es, k + 1, n);
  }

  // ---- Signing in -----------------------------------------------------------------------------------

  /** The call signs in with challenge `r`. */
  predicate SignsInWith(dbs: seq<Db>, es: seq<Event>, n: nat, r: nat)
    requires n < |es| && |dbs| == |es| + 1
  {
    dbs[n + 1].log == dbs[n].log + [LoggedIn(r)]
  }

  /** The code of challenge `r` is entered in time, while tries are left, by a user who may sign in. */
  ghost predicate EntersCode(dbs: seq<Db>, cfg: Config, es: seq<Event>, k: nat, n: nat, r: nat)
    requires k < |es| && n < |es| && |dbs| == |es| + 1
  {
    && SendsAs(dbs, es, k, r) && es[n].op.Verify?
    && es[n].op.identifier == es[k].op.identifier && es[n].op.purpose == es[k].op.purpose
    && es[n].op.otp == es[k].op.secret && es[n].now <= es[k].now + cfg.expiresInSeconds * 1000
    && r < |dbs[n].challenges| && dbs[n].challenges[r].consumedAt.None?
    && Count(dbs[n].log, Mismatched(r)) < cfg.maxAttempts && es[n].op.loginOk
  }

  lemma VerifySignsIn(db: Db, cfg: Config, e: Event, r: nat, before: Time)
    requires Inv(db, cfg, before) && e.op.Verify? && Possible(db, e)
    ensures Apply(db, cfg, e).log == db.log + [LoggedIn(r)] <==>
              && r < |db.challenges| && Open(db.challenges[r], e.op.identifier, e.op.purpose) && e.op.id == r
              && e.op.otp == db.challenges[r].secret && e.now <= db.challenges[r].expiresAt
              && Count(db.log, Mismatched(r)) < cfg.maxAttempts && e.op.loginOk
  {
    hide Count;
    if e.op.id < |db.challenges| {
      assert ChallengeOk(db, e.op.id, before);
    }
    assert db.log + [LoggedIn(r)] != db.log;
    assert forall x :: db.log + [x] == db.log + [LoggedIn(r)] ==> (db.log + [x])[|db.log|] == LoggedIn(r);
  }

  lemma TheOpenOneIsFound(db: Db, cfg: Config, e: Event, r: nat, before: Time)
    requires Inv(db, cfg, before) && e.op.Verify? && Possible(db, e)
    requires r < |db.challenges| && Open(db.challenges[r], e.op.identifier, e.op.purpose)
    ensures e.op.id == r
  {
  }

  /**
   * Over any run a verification signs in with a challenge exactly when it enters the code that
   * was sent as that challenge, in time and while tries are left, the challenge is unused, and the
   * user may sign in.
   */
  lemma SignsInExactlyWithSentCode(dbs: seq<Db>, cfg: Config, es: seq<Event>, n: nat, r: nat)
    requires IsRun(dbs, cfg, es) && n < |es| && es[n].op.Verify?
    ensures SignsInWith(dbs, es, n, r) <==> exists k :: 0 <= k < n && EntersCode(dbs, cfg, es, k, n, r)
  {
    hide Apply, Possible, Count, Inv;
    var before := if n > 0 then es[n - 1].now else 0;
    RunKeepsInv(dbs, cfg, es, n, before);
    VerifySignsIn(dbs[n], cfg, es[n], r, before);
    if SignsInWith(dbs, es, n, r) {
      ChallengesWereSent(dbs, cfg, es, n, r);
      var k :| 0 <= k < n && SendsAs(dbs, es, k, r) && SentBy(dbs[n].challenges[r], cfg, es[k]);
      assert EntersCode(dbs, cfg, es, k, n, r);
    }
    if k :| 0 <= k < n && EntersCode(dbs, cfg, es, k, n, r) {
      OneSender(dbs, cfg, es, n, r, k);
      TheOpenOneIsFound(dbs[n], cfg, es[n], r, before);
    }
  }

  // ---- What uses a challenge up ----------------------------------------------------------------------

  /** The call is about the pair of an open challenge and uses it up. */
  ghost predicate UsesUp(dbs: seq<Db>, cfg: Config, es: seq<Event>, n: nat, r: nat)
    requires n < |es| && |dbs| == |es| + 1 && r < |dbs[n].challenges|
  {
    var c := dbs[n].challenges[r];
    && ForPair(c, es[n].op.identifier, es[n].op.purpose)
    && match es[n].op
       case Send(i, p, _, _) =>
         !TooSoon(dbs[n].challenges, cfg, i, p, es[n].now) && !TooMany(dbs[n].challenges, cfg, i, p, es[n].now)
       case Verify(_, _, _, _, _) => c.expiresAt < es[n].now || SignsInWith(dbs, es, n, r)
  }

  lemma VerifyUsesUp(db: Db, cfg: Config, e: Event, r: nat, before: Time)
    requires Inv(db, cfg, before) && e.op.Verify? && Possible(db, e) && r < |db.challenges| && db.challenges[r].consumedAt.None?
    ensures var db' := Apply(db, cfg, e);
            && |db'.challenges| == |db.challenges|
            && (db'.challenges[r].consumedAt.Some? <==>
                  ForPair(db.challenges[r], e.op.identifier, e.op.purpose)
                  && (db.challenges[r].expiresAt < e.now || db'.log == db.log + [LoggedIn(r)]))
            && (db'.challenges[r].consumedAt.Some? ==> db'.challenges[r].consumedAt == Some(e.now))
  {
    hide Count;
    assert ChallengeOk(db, r, before);
    if ForPair(db.challenges[r], e.op.identifier, e.op.purpose) {
      TheOpenOneIsFound(db, cfg, e, r, before);
    }
    assert db.log + [LoggedIn(r)] != db.log;
    assert forall x :: db.log + [x] == db.log + [LoggedIn(r)] ==> (db.log + [x])[|db.log|] == LoggedIn(r);
  }

  lemma SendUsesUp(db: Db, cfg: Config, e: Event, r: nat, before: Time)
    requires Inv(db, cfg, before) && e.op.Send? && r < |db.challenges| && db.challenges[r].consumedAt.None?
    ensures var cs, cs' := db.challenges, Apply(db, cfg, e).challenges;
            && |cs| <= |cs'|
            && (cs'[r].consumedAt.Some? <==>
                  && ForPair(cs[r], e.op.identifier, e.op.purpose)
                  && !TooSoon(cs, cfg, e.op.identifier, e.op.purpose, e.now) && !TooMany(cs, cfg, e.op.identifier, e.op.purpose, e.now))
            && (cs'[r].consumedAt.Some? ==> cs'[r].consumedAt == Some(e.now))
  {
    hide Count, TooSoon, TooMany, AfterSend, SendVerdict;
    assert ChallengeOk(db, r, before);
    SendAnswers(db.challenges, cfg, e.op.identifier, e.op.purpose, e.op.secret, e.op.delivered, e.now);
  }

  /**
   * An open challenge of a run is used up exactly by a new request for its pair that is not
   * refused, by a verification that finds it expired, or by signing in with it.
   */
  lemma UsedUpExactlyWhen(dbs: seq<Db>, cfg: Config, es: seq<Event>, n: nat, r: nat)
    requires IsRun(dbs, cfg, es) && n < |es| && r < |dbs[n].challenges| && dbs[n].challenges[r].consumedAt.None?
    ensures r < |dbs[n + 1].challenges|
    ensures dbs[n + 1].challenges[r].consumedAt.Some? <==> UsesUp(dbs, cfg, es, n, r)
    ensures dbs[n + 1].challenges[r].consumedAt.Some? ==> dbs[n + 1].challenges[r].consumedAt == Some(es[n].now)
  {
    hide Apply, Possible, Count, Inv, TooSoon, TooMany;
    var before := if n > 0 then es[n - 1].now else 0;
    RunKeepsInv(dbs, cfg, es, n, before);
    if es[n].op.Verify? {
      VerifyUsesUp(dbs[n], cfg, es[n], r, before);
    } else {
      SendUsesUp(dbs[n], cfg, es[n], r, before);
    }
  }
}

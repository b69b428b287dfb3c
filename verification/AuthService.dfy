/**
 * The authentication service as it runs. Its methods update the rows step by step; each call
 * is one event of the transition systems of `Sessions`, `Otp` and `RateLimit`. The histories of
 * these events are kept in ghost fields and are full runs, so what is proved about runs holds
 * of the service: see the lemmas at the end of the class.
 */
module AuthService {
  import opened Prelude
  import opened Text
  import opened Sessions
  import Otp
  import RateLimit

  datatype Config = Config(otp: Otp.Config, ipLimit: int, ipWindowMs: int, refreshTtl: nat, resetTtl: nat)

  datatype SendOutcome = IpRefused | Answered(result: Otp.SendResult)

  /** The two purposes under which an unknown identifier gets an account. */
  predicate MayCreate(purpose: string) {
    purpose == "LOGIN" || purpose == "SIGNUP"
  }

  predicate LiveIn(s: Session, userId: nat, familyId: nat) {
    Live(s) && s.userId == userId && s.familyId == familyId
  }

  function IpKey(ip: Option<string>): string {
    if Trim(ip.GetOr("unknown")) == "" then "unknown" else Trim(ip.GetOr("unknown"))
  }

  /** A full run that ends in `db`, with nothing later than `clock`. */
  ghost predicate SessionHistory(dbs: seq<Db>, es: seq<Event>, db: Db, clock: Time) {
    IsFullRun(dbs, es) && dbs[|es|] == db && (es != [] ==> es[|es| - 1].now <= clock)
  }

  ghost predicate OtpHistory(dbs: seq<Otp.Db>, cfg: Otp.Config, es: seq<Otp.Event>, db: Otp.Db, clock: Time) {
    Otp.IsRun(dbs, cfg, es) && dbs[|es|] == db && (es != [] ==> es[|es| - 1].now <= clock)
  }

  lemma SessionsGoOn(dbs: seq<Db>, es: seq<Event>, db: Db, clock: Time, e: Event)
    requires SessionHistory(dbs, es, db, clock) && Possible(db, e) && clock <= e.now
    ensures SessionHistory(dbs + [Apply(db, e)], es + [e], Apply(db, e), e.now)
  {
    hide Apply, Possible;
    var dbs', es' := dbs + [Apply(db, e)], es + [e];
    forall i | 0 <= i < |es'| ensures Possible(dbs'[i], es'[i]) && dbs'[i + 1] == Apply(dbs'[i], es'[i]) {
      assert i < |es| ==> es'[i] == es[i] && dbs'[i] == dbs[i] && dbs'[i + 1] == dbs[i + 1];
    }
  }

  lemma ChallengesGoOn(dbs: seq<Otp.Db>, cfg: Otp.Config, es: seq<Otp.Event>, db: Otp.Db, clock: Time, e: Otp.Event)
    requires OtpHistory(dbs, cfg, es, db, clock) && Otp.Possible(db, e) && clock <= e.now
    ensures OtpHistory(dbs + [Otp.Apply(db, cfg, e)], cfg, es + [e], Otp.Apply(db, cfg, e), e.now)
  {
    hide Otp.Apply, Otp.Possible;
    var dbs', es' := dbs + [Otp.Apply(db, cfg, e)], es + [e];
    forall i | 0 <= i < |es'| ensures Otp.Possible(dbs'[i], es'[i]) && dbs'[i + 1] == Otp.Apply(dbs'[i], cfg, es'[i]) {
      assert i < |es| ==> es'[i] == es[i] && dbs'[i] == dbs[i] && dbs'[i + 1] == dbs[i + 1];
    }
  }

  /** Time passing keeps the histories. */
  lemma HistoriesLast(dbs: seq<Db>, es: seq<Event>, db: Db, otpDbs: seq<Otp.Db>, cfg: Otp.Config, otpEs: seq<Otp.Event>, otpDb: Otp.Db,
                      clock: Time, now: Time)
    requires clock <= now
    ensures SessionHistory(dbs, es, db, clock) ==> SessionHistory(dbs, es, db, now)
    ensures OtpHistory(otpDbs, cfg, otpEs, otpDb, clock) ==> OtpHistory(otpDbs, cfg, otpEs, otpDb, now)
  {
  }

  /** The buckets of the keyed limiter after the requests `h`, all with its settings and none later than `clock`. */
  ghost predicate Counted(h: seq<RateLimit.Request>, buckets: RateLimit.Buckets, limit: int, windowMs: int, clock: Time) {
    && buckets == RateLimit.After(RateLimit.Keyed, h) && RateLimit.Ordered(h)
    && (h != [] ==> h[|h| - 1].now <= clock)
    && forall r :: r in h ==> r.limit == limit && r.windowMs == windowMs
  }

  lemma CountLasts(h: seq<RateLimit.Request>, buckets: RateLimit.Buckets, limit: int, windowMs: int, clock: Time, now: Time)
    requires Counted(h, buckets, limit, windowMs, clock) && clock <= now
    ensures Counted(h, buckets, limit, windowMs, now)
  {
  }

  lemma OneMoreCounted(h: seq<RateLimit.Request>, buckets: RateLimit.Buckets, limit: int, windowMs: int, clock: Time, r: RateLimit.Request)
    requires Counted(h, buckets, limit, windowMs, clock) && r.limit == limit && r.windowMs == windowMs && clock <= r.now
    ensures Counted(h + [r], RateLimit.Step(RateLimit.Keyed, buckets, r), limit, windowMs, r.now)
  {
    hide RateLimit.Step;
    assert (h + [r])[..|h|] == h;
  }

  class AuthService {
    const cfg: Config
    var sessions: seq<Session>
    var resets: seq<ResetToken>
    var users: map<nat, User>
    var challenges: seq<Otp.Challenge>
    ghost var log: seq<Otp.Entry>
    var otpIpLimiter: RateLimit.KeyedRateLimiter?
    ghost var dbs: seq<Db>
    ghost var es: seq<Event>
    ghost var otpDbs: seq<Otp.Db>
    ghost var otpEs: seq<Otp.Event>
    ghost var ips: seq<RateLimit.Request>
    ghost var clock: Time

    constructor (cfg: Config, users: map<nat, User>, ghost now: Time)
      ensures this.cfg == cfg && Valid() && clock == now && IpBuckets() == map[]
      ensures Snapshot() == Db([], [], users) && Challenges() == Otp.Db([], [])
    {
      this.cfg, this.users := cfg, users;
      sessions, resets, challenges, log, otpIpLimiter := [], [], [], [], null;
      dbs, es, otpDbs, otpEs, ips, clock := [Db([], [], users)], [], [Otp.Db([], [])], [], [], now;
    }

    /** Sessions, challenges and buckets are what their histories up to `clock` lead to. */
    ghost predicate Valid()
      reads this, otpIpLimiter
    {
      && SessionHistory(dbs, es, Snapshot(), clock)
      && OtpHistory(otpDbs, cfg.otp, otpEs, Challenges(), clock)
      && Counted(ips, IpBuckets(), cfg.ipLimit, cfg.ipWindowMs, clock)
      && (otpIpLimiter != null ==> otpIpLimiter.limit == cfg.ipLimit && otpIpLimiter.windowMs == cfg.ipWindowMs)
    }

    ghost predicate UnusedFamily(family: nat)
      reads this
    {
      forall s :: s in sessions ==> s.familyId != family
    }

    /** Adds to the history the event that has just turned `before` into the current rows. */
    ghost method Remember(before: Db, e: Event)
      requires SessionHistory(dbs, es, before, clock) && Possible(before, e) && Snapshot() == Apply(before, e)
      requires OtpHistory(otpDbs, cfg.otp, otpEs, Challenges(), clock)
      requires Counted(ips, IpBuckets(), cfg.ipLimit, cfg.ipWindowMs, clock)
      requires otpIpLimiter != null ==> otpIpLimiter.limit == cfg.ipLimit && otpIpLimiter.windowMs == cfg.ipWindowMs
      requires clock <= e.now
      modifies this`dbs, this`es, this`clock
      ensures Valid() && clock == e.now
    {
      hide Apply, Possible, SessionHistory, OtpHistory;
      SessionsGoOn(dbs, es, before, clock, e);
      HistoriesLast(dbs, es, before, otpDbs, cfg.otp, otpEs, Challenges(), clock, e.now);
      dbs, es, clock := dbs + [Snapshot()], es + [e], e.now;
    }

    ghost method RememberOtp(before: Otp.Db, e: Otp.Event, db: Db)
      requires OtpHistory(otpDbs, cfg.otp, otpEs, before, clock) && Otp.Possible(before, e)
      requires Challenges() == Otp.Apply(before, cfg.otp, e)
      requires SessionHistory(dbs, es, db, clock)
      requires Counted(ips, IpBuckets(), cfg.ipLimit, cfg.ipWindowMs, clock)
      requires clock <= e.now
      modifies this`otpDbs, this`otpEs, this`clock
      ensures OtpHistory(otpDbs, cfg.otp, otpEs, Challenges(), clock) && SessionHistory(dbs, es, db, clock) && clock == e.now
      ensures Counted(ips, IpBuckets(), cfg.ipLimit, cfg.ipWindowMs, clock)
    {
      hide Otp.Apply, Otp.Possible, SessionHistory, OtpHistory;
      ChallengesGoOn(otpDbs, cfg.otp, otpEs, before, clock, e);
      HistoriesLast(dbs, es, db, otpDbs, cfg.otp, otpEs, before, clock, e.now);
      otpDbs, otpEs, clock := otpDbs + [Challenges()], otpEs + [e], e.now;
    }

    function Snapshot(): Db
      reads this
    {
      Db(sessions, resets, users)
    }

    ghost function Challenges(): Otp.Db
      reads this
    {
      Otp.Db(challenges, log)
    }

    function IpBuckets(): RateLimit.Buckets
      reads this, otpIpLimiter
    {
      if otpIpLimiter == null then map[] else otpIpLimiter.buckets
    }

    // ---- Sessions -----------------------------------------------------------------------

    method CreateSession(userId: nat, familyId: nat, secret: nat, now: Time)
      modifies this`sessions
      ensures sessions == old(sessions) + [NewSession(userId, familyId, secret, now, cfg.refreshTtl)]
    {
      sessions := sessions + [Session(userId, familyId, secret, now, now + cfg.refreshTtl, None, None)];
    }

    /** A password login for the user found by the identifier, if any; `ok` says a session was created. */
    method Login(user: nat, password: nat, managerOk: bool, newFamily: nat, newSecret: nat, now: Time) returns (ok: bool)
      requires Valid() && clock <= now && UnusedFamily(newFamily)
      modifies this`sessions, this`dbs, this`es, this`clock
      ensures Valid() && clock == now
      ensures ok == LoginAccepted(old(Snapshot()), user, password, managerOk)
      ensures Snapshot() == Apply(old(Snapshot()), Event(Op.Login(user, password, managerOk, newFamily, newSecret, cfg.refreshTtl), now))
    {
      hide SessionHistory, OtpHistory, Counted;
      ghost var e := Event(Op.Login(user, password, managerOk, newFamily, newSecret, cfg.refreshTtl), now);
      if user !in users || users[user].password.None? {
        Remember(old(Snapshot()), e);
        return false;
      }
      if !CanAuthenticate(users[user].status) {
        Remember(old(Snapshot()), e);
        return false;
      }
      if users[user].password.value != password {
        Remember(old(Snapshot()), e);
        return false;
      }
      if !managerOk {
        Remember(old(Snapshot()), e);
        return false;
      }
      CreateSession(user, newFamily, newSecret, now);
      Remember(old(Snapshot()), e);
      return true;
    }

    /** The newest live session of a user's family, by creation time. */
    method NewestInFamily(userId: nat, familyId: nat) returns (newest: Option<nat>)
      ensures newest.Some? ==> IsNewest(sessions, userId, familyId, newest.value)
      ensures newest.None? ==> forall i :: 0 <= i < |sessions| ==> !LiveIn(sessions[i], userId, familyId)
    {
      newest := None;
      for i := 0 to |sessions|
        invariant newest.Some? ==> newest.value < i && LiveIn(sessions[newest.value], userId, familyId)
        invariant newest.Some? ==> forall j :: 0 <= j < i && LiveIn(sessions[j], userId, familyId) ==>
                                     sessions[j].createdAt <= sessions[newest.value].createdAt
        invariant newest.None? ==> forall j :: 0 <= j < i ==> !LiveIn(sessions[j], userId, familyId)
      {
        if LiveIn(sessions[i], userId, familyId) && (newest.None? || sessions[i].createdAt > sessions[newest.value].createdAt) {
          newest := Some(i);
        }
      }
    }

    method Refresh(token: Presented, newSecret: nat, now: Time) returns (result: RefreshResult, ghost link: nat)
      requires Valid() && clock <= now
      modifies this`sessions, this`dbs, this`es, this`clock
      ensures Valid() && clock == now
      ensures result == Decide(old(Snapshot()), token, now)
      ensures var e := Event(Op.Refresh(token, newSecret, cfg.refreshTtl, link), now);
              Possible(old(Snapshot()), e) && Snapshot() == Apply(old(Snapshot()), e)
    {
      hide SessionHistory, OtpHistory, Counted;
      link := 0;
      if token.Unverifiable? || token.sessionId >= |sessions| {
        Remember(old(Snapshot()), Event(Op.Refresh(token, newSecret, cfg.refreshTtl, link), now));
        return InvalidToken, link;
      }
      var id, session := token.sessionId, sessions[token.sessionId];
      if session.revokedAt.Some? {
        var rotatedWithinGrace := session.replacedById.Some? && now - session.revokedAt.value <= REFRESH_REUSE_GRACE_MS
                                  && token.secret == session.secret;
        if !rotatedWithinGrace {
          sessions := Revoke(sessions, Family(session.familyId), now);
          Remember(old(Snapshot()), Event(Op.Refresh(token, newSecret, cfg.refreshTtl, link), now));
          return ReuseDetected, link;
        }
      }
      if session.expiresAt < now {
        Remember(old(Snapshot()), Event(Op.Refresh(token, newSecret, cfg.refreshTtl, link), now));
        return TokenExpired, link;
      }
      if token.secret != session.secret {
        sessions := Revoke(sessions, Family(session.familyId), now);
        Remember(old(Snapshot()), Event(Op.Refresh(token, newSecret, cfg.refreshTtl, link), now));
        return HashMismatch, link;
      }
      if session.userId !in users {
        Remember(old(Snapshot()), Event(Op.Refresh(token, newSecret, cfg.refreshTtl, link), now));
        return UserMissing, link;
      }
      if !CanAuthenticate(users[session.userId].status) {
        Remember(old(Snapshot()), Event(Op.Refresh(token, newSecret, cfg.refreshTtl, link), now));
        return AccountDenied, link;
      }
      link := Rotate(id, newSecret, now);
      Remember(old(Snapshot()), Event(Op.Refresh(token, newSecret, cfg.refreshTtl, link), now));
      return Rotated, link;
    }

    /** The transaction of a successful refresh: insert the successor, revoke the row, link it to the newest. */
    method Rotate(id: nat, newSecret: nat, now: Time) returns (link: nat)
      requires id < |sessions|
      modifies this`sessions
      ensures var s, rows := old(sessions[id]), RotatedRows(old(sessions), id, newSecret, now, cfg.refreshTtl);
              && IsNewest(rows, s.userId, s.familyId, link)
              && sessions == rows[id := rows[id].(replacedById := Some(link))]
    {
      var session := sessions[id];
      CreateSession(session.userId, session.familyId, newSecret, now);
      sessions := sessions[id := sessions[id].(revokedAt := if session.revokedAt.Some? then session.revokedAt else Some(now))];
      assert sessions == RotatedRows(old(sessions), id, newSecret, now, cfg.refreshTtl);
      assert LiveIn(sessions[|sessions| - 1], session.userId, session.familyId);
      var newest := NewestInFamily(session.userId, session.familyId);
      link := newest.value;
      sessions := sessions[id := sessions[id].(replacedById := newest)];
    }

    method Logout(user: nat, accessSession: nat, also: Option<Presented>, now: Time)
      requires Valid() && clock <= now
      modifies this`sessions, this`dbs, this`es, this`clock
      ensures Valid() && clock == now
      ensures Snapshot() == Apply(old(Snapshot()), Event(Op.Logout(user, accessSession, also), now))
    {
      hide SessionHistory, OtpHistory, Counted;
      if also.Some? && also.value.Presented? {
        sessions := Revoke(sessions, One(also.value.sessionId, user), now);
      }
      sessions := Revoke(sessions, One(accessSession, user), now);
      Remember(old(Snapshot()), Event(Op.Logout(user, accessSession, also), now));
    }

    method ChangePassword(user: nat, current: nat, next: nat, now: Time) returns (ok: bool)
      requires Valid() && clock <= now
      modifies this`sessions, this`users, this`dbs, this`es, this`clock
      ensures Valid() && clock == now
      ensures ok == ChangeAccepted(old(Snapshot()), user, current, next)
      ensures Snapshot() == Apply(old(Snapshot()), Event(Op.ChangePassword(user, current, next), now))
    {
      hide SessionHistory, OtpHistory, Counted;
      if user !in users || users[user].password.None? || users[user].password.value != current {
        Remember(old(Snapshot()), Event(Op.ChangePassword(user, current, next), now));
        return false;
      }
      if current == next {
        Remember(old(Snapshot()), Event(Op.ChangePassword(user, current, next), now));
        return false;
      }
      users := users[user := users[user].(password := Some(next))];
      sessions := Revoke(sessions, OfUser(user), now);
      Remember(old(Snapshot()), Event(Op.ChangePassword(user, current, next), now));
      return true;
    }

    // ---- Reset tokens ----------------------------------------------------------------------

    method ForgotPassword(user: Option<nat>, secret: nat, now: Time)
      requires Valid() && clock <= now && (user.Some? ==> user.value in users)
      modifies this`resets, this`dbs, this`es, this`clock
      ensures Valid() && clock == now
      ensures Snapshot() == Apply(old(Snapshot()), Event(Op.ForgotPassword(user, secret, cfg.resetTtl), now))
    {
      hide SessionHistory, OtpHistory, Counted;
      if user.None? {
        Remember(old(Snapshot()), Event(Op.ForgotPassword(user, secret, cfg.resetTtl), now));
        return;
      }
      resets := UseAll(resets, user.value, now);
      resets := resets + [ResetToken(user.value, secret, now + cfg.resetTtl, None)];
      Remember(old(Snapshot()), Event(Op.ForgotPassword(user, secret, cfg.resetTtl), now));
    }

    /** The last unused token with the secret; without one, the number of rows. */
    method FindReset(secret: nat) returns (row: nat)
      ensures row < |resets| ==> Redeemable(resets[row], secret)
      ensures forall i :: 0 <= i < |resets| && Redeemable(resets[i], secret) ==> i <= row < |resets|
    {
      row := |resets|;
      for i := 0 to |resets|
        invariant row < |resets| ==> row < i && Redeemable(resets[row], secret)
        invariant row >= |resets| ==> row == |resets|
        invariant forall j :: 0 <= j < i && Redeemable(resets[j], secret) ==> j <= row < |resets|
      {
        if Redeemable(resets[i], secret) {
          row := i;
        }
      }
    }

    method ResetPassword(secret: nat, newPassword: nat, now: Time) returns (ok: bool, ghost row: nat)
      requires Valid() && clock <= now
      modifies this`sessions, this`resets, this`users, this`dbs, this`es, this`clock
      ensures Valid() && clock == now
      ensures ok == ResetAccepted(old(Snapshot()), secret, row, now)
      ensures Snapshot() == Apply(old(Snapshot()), Event(Op.ResetPassword(secret, row, newPassword), now))
      ensures forall i :: 0 <= i < |old(resets)| && Redeemable(old(resets)[i], secret) ==> i <= row < |old(resets)|
    {
      hide SessionHistory, OtpHistory, Counted;
      var found := FindReset(secret);
      row := found;
      if found >= |resets| || resets[found].expiresAt < now {
        Remember(old(Snapshot()), Event(Op.ResetPassword(secret, row, newPassword), now));
        return false, row;
      }
      var userId := resets[found].userId;
      if userId !in users || users[userId].deleted {
        Remember(old(Snapshot()), Event(Op.ResetPassword(secret, row, newPassword), now));
        return false, row;
      }
      var owner := users[userId];
      resets := resets[found := resets[found].(usedAt := Some(now))];
      resets := UseAll(resets, userId, now);
      users := users[userId := owner.(password := Some(newPassword),
                                      status := if owner.status.Pending? then Active else owner.status)];
      sessions := Revoke(sessions, OfUser(userId), now);
      Remember(old(Snapshot()), Event(Op.ResetPassword(secret, row, newPassword), now));
      return true, row;
    }

    // ---- One-time passwords ------------------------------------------------------------------

    function IpRequest(ip: Option<string>, now: Time): RateLimit.Request {
      RateLimit.Request(IpKey(ip), cfg.ipLimit, cfg.ipWindowMs, now)
    }

    /** The per-address cap; its limiter is made on first use, and a limit of zero or less turns it off. */
    method OtpIpAllowed(ip: Option<string>, now: Time) returns (ok: bool)
      requires Valid() && clock <= now
      modifies this`otpIpLimiter, otpIpLimiter, this`ips, this`clock
      ensures Valid() && clock == now && (otpIpLimiter == old(otpIpLimiter) || fresh(otpIpLimiter))
      ensures cfg.ipLimit <= 0 ==> ok && IpBuckets() == old(IpBuckets())
      ensures cfg.ipLimit > 0 ==>
                && ok == RateLimit.Grants(RateLimit.Before(RateLimit.Keyed, old(IpBuckets()), now), IpRequest(ip, now))
                && IpBuckets() == RateLimit.Step(RateLimit.Keyed, old(IpBuckets()), IpRequest(ip, now))
    {
      hide SessionHistory, OtpHistory, Counted, RateLimit.Step, RateLimit.Grants, RateLimit.Before, IpKey;
      HistoriesLast(dbs, es, Snapshot(), otpDbs, cfg.otp, otpEs, Challenges(), clock, now);
      CountLasts(ips, IpBuckets(), cfg.ipLimit, cfg.ipWindowMs, clock, now);
      clock := now;
      if cfg.ipLimit <= 0 {
        return true;
      }
      if otpIpLimiter == null {
        otpIpLimiter := new RateLimit.KeyedRateLimiter(cfg.ipLimit, cfg.ipWindowMs);
      }
      ok := otpIpLimiter.TryConsume(IpKey(ip), now);
      OneMoreCounted(ips, old(IpBuckets()), cfg.ipLimit, cfg.ipWindowMs, now, IpRequest(ip, now));
      ips := ips + [IpRequest(ip, now)];
    }

    method SendOtp(ip: Option<string>, identifier: string, purpose: string, secret: string, delivered: bool, now: Time)
        returns (r: SendOutcome)
      requires Valid() && clock <= now
      modifies this`otpIpLimiter, otpIpLimiter, this`challenges, this`ips, this`clock, this`otpDbs, this`otpEs
      ensures Valid() && clock == now && (otpIpLimiter == old(otpIpLimiter) || fresh(otpIpLimiter))
      ensures r.IpRefused? <==>
                cfg.ipLimit > 0 && !RateLimit.Grants(RateLimit.Before(RateLimit.Keyed, old(IpBuckets()), now), IpRequest(ip, now))
      ensures cfg.ipLimit > 0 ==> IpBuckets() == RateLimit.Step(RateLimit.Keyed, old(IpBuckets()), IpRequest(ip, now))
      ensures r.IpRefused? ==> Challenges() == old(Challenges())
      ensures r.Answered? ==>
                && r.result == Otp.SendVerdict(old(challenges), cfg.otp, identifier, purpose, delivered, now)
                && Challenges() == Otp.Apply(old(Challenges()), cfg.otp, Otp.Event(Otp.Send(identifier, purpose, secret, delivered), now))
    {
      hide SessionHistory, OtpHistory, Counted, Otp.CoolsDown, Otp.SentSince, Otp.Invalidate, Otp.AfterVerify;
      hide Otp.IsNewestOpen, RateLimit.Step, RateLimit.Grants, RateLimit.Before;
      ghost var e := Otp.Event(Otp.Send(identifier, purpose, secret, delivered), now);
      var allowed := OtpIpAllowed(ip, now);
      if !allowed {
        return IpRefused;
      }
      if Otp.CoolsDown(challenges, cfg.otp, identifier, purpose, now) {
        RememberOtp(old(Challenges()), e, old(Snapshot()));
        return Answered(Otp.CoolingDown);
      }
      var sentLastHour := Otp.SentSince(challenges, identifier, purpose, now - Otp.HOUR_MS);
      if sentLastHour >= cfg.otp.maxSendsPerHour {
        RememberOtp(old(Challenges()), e, old(Snapshot()));
        return Answered(Otp.HourlyCapReached);
      }
      challenges := Otp.Invalidate(challenges, identifier, purpose, now);
      if !delivered {
        RememberOtp(old(Challenges()), e, old(Snapshot()));
        return Answered(Otp.NotDelivered);
      }
      challenges := challenges + [Otp.Challenge(identifier, purpose, secret, now, now + cfg.otp.expiresInSeconds * 1000,
                                                0, cfg.otp.maxAttempts, None, None)];
      RememberOtp(old(Challenges()), e, old(Snapshot()));
      return Answered(Otp.Sent);
    }

    method NewestOpenChallenge(identifier: string, purpose: string) returns (newest: Option<nat>)
      ensures newest.Some? ==> Otp.IsNewestOpen(challenges, identifier, purpose, newest.value)
      ensures newest.None? ==> forall i :: 0 <= i < |challenges| ==> !Otp.Open(challenges[i], identifier, purpose)
    {
      newest := None;
      for i := 0 to |challenges|
        invariant newest.Some? ==> newest.value < i && Otp.Open(challenges[newest.value], identifier, purpose)
        invariant newest.Some? ==> forall j :: 0 <= j < i && Otp.Open(challenges[j], identifier, purpose) ==>
                                     challenges[j].createdAt <= challenges[newest.value].createdAt
        invariant newest.None? ==> forall j :: 0 <= j < i ==> !Otp.Open(challenges[j], identifier, purpose)
      {
        if Otp.Open(challenges[i], identifier, purpose)
           && (newest.None? || challenges[i].createdAt > challenges[newest.value].createdAt) {
          newest := Some(i);
        }
      }
    }

    /** The login inside the claiming transaction; `user` is the known or the next new account. */
    method CompleteOtpLogin(user: nat, mayCreate: bool, pendingManager: bool, newFamily: nat, newSecret: nat, now: Time)
        returns (ok: bool)
      requires UnusedFamily(newFamily)
      modifies this`sessions, this`users
      ensures ok == OtpLoginAccepted(old(Snapshot()), user, mayCreate, pendingManager)
      ensures Snapshot() == Apply(old(Snapshot()),
                                  Event(Op.OtpLogin(user, mayCreate, pendingManager, newFamily, newSecret, cfg.refreshTtl), now))
    {
      if user !in users {
        if !mayCreate {
          return false;
        }
        users := users[user := User(Active, None, false)];
      } else {
        var u := users[user];
        if !CanAuthenticate(u.status) {
          return false;
        }
        if u.status.Pending? && pendingManager {
          return false;
        }
        users := users[user := u.(status := if u.status.Pending? then Active else u.status)];
      }
      CreateSession(user, newFamily, newSecret, now);
      return true;
    }

    /** The checks, the claim and the login of `verifyOtp`. */
    method TryOtp(identifier: string, purpose: string, otp: string, user: nat, pendingManager: bool,
                  newFamily: nat, newSecret: nat, now: Time)
        returns (result: Otp.VerifyResult, ghost id: nat)
      requires UnusedFamily(newFamily)
      modifies this`challenges, this`log, this`sessions, this`users
      ensures var loginOk := OtpLoginAccepted(old(Snapshot()), user, MayCreate(purpose), pendingManager);
              var e := Otp.Event(Otp.Verify(identifier, purpose, otp, loginOk, id), now);
              && Otp.Possible(old(Challenges()), e) && Challenges() == Otp.Apply(old(Challenges()), cfg.otp, e)
              && (id < |old(challenges)| ==> result == Otp.VerifyVerdict(old(challenges)[id], otp, loginOk, now))
              && (result.NoChallenge? <==> id == |old(challenges)|)
      ensures Snapshot() ==
              if result.Verified?
              then Apply(old(Snapshot()),
                         Event(Op.OtpLogin(user, MayCreate(purpose), pendingManager, newFamily, newSecret, cfg.refreshTtl), now))
              else old(Snapshot())
    {
      var newest := NewestOpenChallenge(identifier, purpose);
      if newest.None? {
        id := |challenges|;
        return Otp.NoChallenge, id;
      }
      var at, record := newest.value, challenges[newest.value];
      id := at;
      if record.expiresAt < now {
        challenges := challenges[at := record.(consumedAt := Some(now))];
        return Otp.ChallengeExpired, id;
      }
      if record.attempts >= record.maxAttempts {
        return Otp.AttemptsExhausted, id;
      }
      if otp != record.secret {
        challenges := challenges[at := record.(attempts := record.attempts + 1)];
        log := log + [Otp.Mismatched(at)];
        return Otp.WrongOtp, id;
      }
      if record.consumedAt.Some? || record.verifiedAt.Some? {
        log := log + [Otp.RolledBack(at)];
        return Otp.ClaimLost, id;
      }
      challenges := challenges[at := record.(verifiedAt := Some(now), consumedAt := Some(now))];
      var ok := CompleteOtpLogin(user, MayCreate(purpose), pendingManager, newFamily, newSecret, now);
      if !ok {
        challenges := challenges[at := record];
        log := log + [Otp.RolledBack(at)];
        return Otp.LoginRefused, id;
      }
      log := log + [Otp.LoggedIn(at)];
      return Otp.Verified, id;
    }

    /** A challenge is consumed for a login exactly when its session is created. */
    method VerifyOtp(identifier: string, purpose: string, otp: string, user: nat, pendingManager: bool,
                     newFamily: nat, newSecret: nat, now: Time)
        returns (result: Otp.VerifyResult, ghost id: nat)
      requires Valid() && clock <= now && UnusedFamily(newFamily)
      modifies this`challenges, this`log, this`sessions, this`users, this`dbs, this`es, this`clock, this`otpDbs, this`otpEs
      ensures Valid() && clock == now
      ensures var loginOk := OtpLoginAccepted(old(Snapshot()), user, MayCreate(purpose), pendingManager);
              var e := Otp.Event(Otp.Verify(identifier, purpose, otp, loginOk, id), now);
              && Otp.Possible(old(Challenges()), e) && Challenges() == Otp.Apply(old(Challenges()), cfg.otp, e)
              && (id < |old(challenges)| ==> result == Otp.VerifyVerdict(old(challenges)[id], otp, loginOk, now))
              && (result.NoChallenge? <==> id == |old(challenges)|)
      ensures Snapshot() ==
              if result.Verified?
              then Apply(old(Snapshot()),
                         Event(Op.OtpLogin(user, MayCreate(purpose), pendingManager, newFamily, newSecret, cfg.refreshTtl), now))
              else old(Snapshot())
    {
      hide SessionHistory, OtpHistory, Counted, OtpLoginAccepted, Otp.Apply, Otp.Possible, Apply;
      ghost var loginOk := OtpLoginAccepted(Snapshot(), user, MayCreate(purpose), pendingManager);
      result, id := TryOtp(identifier, purpose, otp, user, pendingManager, newFamily, newSecret, now);
      RememberOtp(old(Challenges()), Otp.Event(Otp.Verify(identifier, purpose, otp, loginOk, id), now), old(Snapshot()));
      if result.Verified? {
        Remember(old(Snapshot()), Event(Op.OtpLogin(user, MayCreate(purpose), pendingManager, newFamily, newSecret, cfg.refreshTtl), now));
      }
    }

    // ---- What the histories give ------------------------------------------------------------

    /** Successor chains never close, and no user has two unused reset tokens. */
    lemma SessionFacts(i: nat, k: nat)
      requires Valid() && i < |sessions| && k > 0
      ensures Follow(sessions, i, k) != Some(i)
      ensures sessions[i].replacedById.Some? ==>
                sessions[i].revokedAt.Some? && LinkOk(sessions, sessions[i], sessions[i].replacedById.value)
      ensures OneUnused(resets)
    {
      ChainsAreAcyclic(dbs, es, |es|, i, k);
      if sessions[i].replacedById.Some? {
        LinksStayInFamily(dbs, es, |es|, i);
      }
      AtMostOneUnusedToken(dbs, es, |es|);
    }

    /** A family that was dead at some point of the history has no live session now. */
    lemma DeadFamilies(n: nat, family: nat, since: Time)
      requires Valid() && n <= |es| && (n < |es| ==> since <= es[n].now)
      requires Known(dbs[n].sessions, family) && Dead(dbs[n].sessions, family, since)
      ensures !HasLive(sessions, family)
    {
      DeadFamilyStaysDead(dbs, es, n, |es|, family, since);
    }

    /** The send cap holds for every hour so far, and two open challenges of a pair are one. */
    lemma ChallengeFacts(identifier: string, purpose: string, i: nat, j: nat)
      requires Valid()
      ensures Otp.CapHolds(challenges, cfg.otp.maxSendsPerHour)
      ensures (i < |challenges| && j < |challenges| && Otp.Open(challenges[i], identifier, purpose)
               && Otp.Open(challenges[j], identifier, purpose)) ==> i == j
      ensures i < |challenges| ==> Otp.Count(log, Otp.LoggedIn(i)) <= 1
    {
      Otp.RollingHourCap(otpDbs, cfg.otp, otpEs, |otpEs|);
      if i < |challenges| {
        Otp.ComparisonsAreBounded(otpDbs, cfg.otp, otpEs, |otpEs|, i);
        if j < |challenges| && Otp.Open(challenges[i], identifier, purpose) && Otp.Open(challenges[j], identifier, purpose) {
          Otp.OneOpenChallenge(otpDbs, cfg.otp, otpEs, |otpEs|, identifier, purpose, i, j);
        }
      }
    }

    /** Any interval one window long holds fewer than twice the limit of sends from one address. */
    lemma AddressFacts(key: string, from: Time)
      requires Valid() && cfg.ipWindowMs > 0
      ensures RateLimit.GrantsIn(RateLimit.Keyed, ips, key, from, from + cfg.ipWindowMs) <= 2 * RateLimit.AtLeastOne(cfg.ipLimit) - 1
    {
      RateLimit.LessThanTwiceTheLimit(RateLimit.Keyed, ips, key, cfg.ipLimit, cfg.ipWindowMs, from);
    }
  }
}

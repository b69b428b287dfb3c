/**
 * Refresh-token rotation with session families, reuse detection and a grace window,
 * together with the one-time password-reset tokens.
 *
 * Rows live in sequences and are identified by their position. Each public call is one
 * atomic step that reads the clock once. Stored hashes are modelled by the secret they
 * hash, which is the assumption that hashing is injective.
 */
module Sessions {
  import opened Prelude

  const REFRESH_REUSE_GRACE_MS: Time := 60000

  datatype UserStatus = Active | Pending | Blocked | Suspended | Inactive | Deleted

  datatype User = User(status: UserStatus, password: Option<nat>, deleted: bool)

  datatype Session = Session(
    userId: nat, familyId: nat, secret: nat, createdAt: Time, expiresAt: Time,
    revokedAt: Option<Time>, replacedById: Option<nat>)

  datatype ResetToken = ResetToken(userId: nat, secret: nat, expiresAt: Time, usedAt: Option<Time>)

  datatype Db = Db(sessions: seq<Session>, resets: seq<ResetToken>, users: map<nat, User>)

  /** A refresh token as presented: signature or type check failed, or its verified claims. */
  datatype Presented = Unverifiable | Presented(sessionId: nat, secret: nat)

  datatype RefreshResult =
    | Rotated | InvalidToken | ReuseDetected | TokenExpired | HashMismatch | UserMissing | AccountDenied

  predicate CanAuthenticate(status: UserStatus) {
    status.Active? || status.Pending?
  }

  predicate Live(s: Session) {
    s.revokedAt.None?
  }

  /** Rotated at most a grace window ago. */
  predicate InGrace(s: Session, now: Time) {
    s.revokedAt.Some? && s.replacedById.Some? && now - s.revokedAt.value <= REFRESH_REUSE_GRACE_MS
  }

  // ---- Bulk revocation ------------------------------------------------------

  /** The `where` clauses of the bulk revocations, all of which also demand `revokedAt: null`. */
  datatype Scope = Family(familyId: nat) | OfUser(userId: nat) | One(sessionId: nat, ownerId: nat)

  predicate InScope(scope: Scope, id: nat, s: Session) {
    match scope
    case Family(f) => s.familyId == f
    case OfUser(u) => s.userId == u
    case One(i, u) => id == i && s.userId == u
  }

  function Revoke(ss: seq<Session>, scope: Scope, now: Time): seq<Session> {
    seq(|ss|, i requires 0 <= i < |ss| =>
      if InScope(scope, i, ss[i]) && Live(ss[i]) then ss[i].(revokedAt := Some(now)) else ss[i])
  }

  function UseAll(rs: seq<ResetToken>, userId: nat, now: Time): seq<ResetToken> {
    seq(|rs|, i requires 0 <= i < |rs| =>
      if rs[i].userId == userId && rs[i].usedAt.None? then rs[i].(usedAt := Some(now)) else rs[i])
  }

  // ---- Refresh --------------------------------------------------------------

  function Decide(db: Db, token: Presented, now: Time): RefreshResult {
    match token
    case Unverifiable => InvalidToken
    case Presented(id, secret) =>
      if id >= |db.sessions| then InvalidToken
      else
        var s := db.sessions[id];
        if s.revokedAt.Some? && !(InGrace(s, now) && secret == s.secret) then ReuseDetected
        else if s.expiresAt < now then TokenExpired
        else if secret != s.secret then HashMismatch
        else if s.userId !in db.users then UserMissing
        else if !CanAuthenticate(db.users[s.userId].status) then AccountDenied
        else Rotated
  }

  /** `link` may be the row that "newest live session of the family" returns; ties are open. */
  ghost predicate IsNewest(ss: seq<Session>, userId: nat, familyId: nat, link: nat) {
    && link < |ss|
    && Live(ss[link]) && ss[link].userId == userId && ss[link].familyId == familyId
    && forall j :: 0 <= j < |ss| && Live(ss[j]) && ss[j].userId == userId && ss[j].familyId == familyId
         ==> ss[j].createdAt <= ss[link].createdAt
  }

  function NewSession(userId: nat, familyId: nat, secret: nat, now: Time, ttl: nat): Session {
    Session(userId, familyId, secret, now, now + ttl, None, None)
  }

  /** The sessions after the successor row is inserted and the presented row is revoked. */
  function RotatedRows(ss: seq<Session>, id: nat, newSecret: nat, now: Time, ttl: nat): (r: seq<Session>)
    requires id < |ss|
  {
    var s := ss[id];
    ss[id := s.(revokedAt := Some(s.revokedAt.GetOr(now)))] + [NewSession(s.userId, s.familyId, newSecret, now, ttl)]
  }

  // ---- The transition system ------------------------------------------------

  /**
   * One public call with everything it draws from outside: fresh identifiers and secrets,
   * the verdicts of checks that are not part of the model, and which of several equally
   * new rows the database returned (`link`).
   */
  datatype Op =
    | Login(loginUser: nat, password: nat, managerOk: bool, newFamily: nat, newSecret: nat, ttl: nat)
    | OtpLogin(otpUser: nat, mayCreate: bool, pendingManager: bool, newFamily: nat, newSecret: nat, ttl: nat)
    | Refresh(token: Presented, newSecret: nat, ttl: nat, link: nat)
    | Logout(logoutUser: nat, accessSession: nat, also: Option<Presented>)
    | ChangePassword(changeUser: nat, current: nat, next: nat)
    | ForgotPassword(forgotUser: Option<nat>, resetSecret: nat, resetTtl: nat)
    | ResetPassword(presentedSecret: nat, row: nat, newPassword: nat)
    | AdminRevoke(revokedUser: nat)
    | AdminSetUser(setUser: nat, record: User)
    | CreateManager(newManager: nat, managerRecord: User, invitation: Option<nat>, inviteTtl: nat)
    | ResetManager(manager: nat, linkSecret: nat, linkTtl: nat)
    | CloseManager(closedManager: nat, closedAs: UserStatus)

  datatype Event = Event(op: Op, now: Time)

  predicate RotatesSession(db: Db, e: Event, id: nat) {
    e.op.Refresh? && e.op.token.Presented? && e.op.token.sessionId == id && Decide(db, e.op.token, e.now) == Rotated
  }

  /** Password login succeeds. */
  predicate LoginAccepted(db: Db, u: nat, password: nat, managerOk: bool) {
    && u in db.users && db.users[u].password == Some(password)
    && CanAuthenticate(db.users[u].status) && managerOk
  }

  /** OTP login reaches `createSession` for an existing or newly created user. */
  predicate OtpLoginAccepted(db: Db, u: nat, mayCreate: bool, pendingManager: bool) {
    if u in db.users then
      CanAuthenticate(db.users[u].status) && !(db.users[u].status.Pending? && pendingManager)
    else mayCreate
  }

  predicate ChangeAccepted(db: Db, u: nat, current: nat, next: nat) {
    u in db.users && db.users[u].password == Some(current) && current != next
  }

  predicate Redeemable(t: ResetToken, secret: nat) {
    t.secret == secret && t.usedAt.None?
  }

  predicate ResetAccepted(db: Db, secret: nat, row: nat, now: Time) {
    && row < |db.resets| && Redeemable(db.resets[row], secret)
    && now <= db.resets[row].expiresAt
    && db.resets[row].userId in db.users && !db.users[db.resets[row].userId].deleted
  }

  function Activated(status: UserStatus): UserStatus {
    if status.Pending? then Active else status
  }

  function RefreshDb(db: Db, token: Presented, now: Time, newSecret: nat, ttl: nat, link: nat): Db {
    match Decide(db, token, now)
    case Rotated =>
      var id := token.sessionId;
      var rows := RotatedRows(db.sessions, id, newSecret, now, ttl);
      db.(sessions := rows[id := rows[id].(replacedById := Some(link))])
    case ReuseDetected => db.(sessions := Revoke(db.sessions, Family(db.sessions[token.sessionId].familyId), now))
    case HashMismatch => db.(sessions := Revoke(db.sessions, Family(db.sessions[token.sessionId].familyId), now))
    case _ => db
  }

  function LogoutSessions(ss: seq<Session>, userId: nat, access: nat, also: Option<Presented>, now: Time): seq<Session> {
    var first := if also.Some? && also.value.Presented? then Revoke(ss, One(also.value.sessionId, userId), now) else ss;
    Revoke(first, One(access, userId), now)
  }

  function ResetDb(db: Db, row: nat, newPassword: nat, now: Time): Db
    requires row < |db.resets| && db.resets[row].userId in db.users
  {
    var u := db.resets[row].userId;
    Db(Revoke(db.sessions, OfUser(u), now),
       UseAll(db.resets, u, now),
       db.users[u := db.users[u].(password := Some(newPassword), status := Activated(db.users[u].status))])
  }

  function Apply(db: Db, e: Event): Db {
    match e.op
    case Login(u, pw, ok, fam, secret, ttl) =>
      if LoginAccepted(db, u, pw, ok) then db.(sessions := db.sessions + [NewSession(u, fam, secret, e.now, ttl)]) else db
    case OtpLogin(u, may, pm, fam, secret, ttl) =>
      if !OtpLoginAccepted(db, u, may, pm) then db
      else
        var user := if u in db.users then db.users[u].(status := Activated(db.users[u].status)) else User(Active, None, false);
        db.(sessions := db.sessions + [NewSession(u, fam, secret, e.now, ttl)], users := db.users[u := user])
    case Refresh(token, secret, ttl, link) => RefreshDb(db, token, e.now, secret, ttl, link)
    case Logout(u, access, also) => db.(sessions := LogoutSessions(db.sessions, u, access, also, e.now))
    case ChangePassword(u, current, next) =>
      if ChangeAccepted(db, u, current, next)
      then db.(sessions := Revoke(db.sessions, OfUser(u), e.now), users := db.users[u := db.users[u].(password := Some(next))])
      else db
    case ForgotPassword(u, secret, ttl) =>
      if u.None? then db
      else db.(resets := UseAll(db.resets, u.value, e.now) + [ResetToken(u.value, secret, e.now + ttl, None)])
    case ResetPassword(secret, row, pw) =>
      if ResetAccepted(db, secret, row, e.now) then ResetDb(db, row, pw, e.now) else db
    case AdminRevoke(u) => db.(sessions := Revoke(db.sessions, OfUser(u), e.now))
    case AdminSetUser(u, record) => db.(users := db.users[u := record])
    case CreateManager(u, record, invitation, ttl) =>
      db.(users := db.users[u := record],
          resets := db.resets + if invitation.Some? then [ResetToken(u, invitation.value, e.now + ttl, None)] else [])
    case ResetManager(u, secret, ttl) =>
      if u !in db.users || db.users[u].deleted then db
      else
        db.(sessions := Revoke(db.sessions, OfUser(u), e.now),
            resets := UseAll(db.resets, u, e.now) + [ResetToken(u, secret, e.now + ttl, None)])
    case CloseManager(u, status) =>
      if u !in db.users || db.users[u].deleted then db
      else Db(Revoke(db.sessions, OfUser(u), e.now), UseAll(db.resets, u, e.now), db.users[u := db.users[u].(status := status)])
  }

  /**
   * What the identifiers drawn from outside satisfy: family ids are unused, `link` is a newest
   * row, a user found by an identifier exists and a created one is new.
   */
  ghost predicate Possible(db: Db, e: Event) {
    match e.op
    case Login(_, _, _, fam, _, _) => forall s :: s in db.sessions ==> s.familyId != fam
    case OtpLogin(_, _, _, fam, _, _) => forall s :: s in db.sessions ==> s.familyId != fam
    case Refresh(token, secret, ttl, link) =>
      Decide(db, token, e.now) == Rotated ==>
        var s := db.sessions[token.sessionId];
        IsNewest(RotatedRows(db.sessions, token.sessionId, secret, e.now, ttl), s.userId, s.familyId, link)
    case ForgotPassword(u, _, _) => u.Some? ==> u.value in db.users
    case CreateManager(u, _, _, _) => u !in db.users
    case _ => true
  }

  /** `dbs[i+1]` is `dbs[i]` after `es[i]`; the clock never runs backwards. */
  ghost predicate IsRun(dbs: seq<Db>, es: seq<Event>) {
    && |dbs| == |es| + 1
    && (forall i :: 0 <= i < |es| ==> Possible(dbs[i], es[i]) && dbs[i + 1] == Apply(dbs[i], es[i]))
    && (forall i, j :: 0 <= i < j < |es| ==> es[i].now <= es[j].now)
  }

  /** A run that starts before the first login. */
  ghost predicate IsFullRun(dbs: seq<Db>, es: seq<Event>) {
    IsRun(dbs, es) && dbs[0].sessions == [] && dbs[0].resets == []
  }

  // ---- Facts about one step ---------------------------------------------------

  /** Nothing but `revokedAt` and `replacedById` ever changes, and `revokedAt` only once. */
  ghost predicate RowKept(a: Session, b: Session) {
    && b.(revokedAt := a.revokedAt, replacedById := a.replacedById) == a
    && (a.revokedAt.Some? ==> b.revokedAt == a.revokedAt)
    && (a.replacedById.Some? ==> b.replacedById.Some?)
  }

  lemma StepKeepsRows(db: Db, e: Event)
    requires Possible(db, e)
    ensures |db.sessions| <= |Apply(db, e).sessions| <= |db.sessions| + 1
    ensures forall i :: 0 <= i < |db.sessions| ==> RowKept(db.sessions[i], Apply(db, e).sessions[i])
  {
  }

  /** The shape of every reachable session table at time `now`. */
  ghost predicate RowOk(ss: seq<Session>, i: nat, now: Time)
    requires i < |ss|
  {
    var s := ss[i];
    && s.createdAt <= now
    && (s.revokedAt.Some? ==> s.createdAt <= s.revokedAt.value <= now)
    && (s.replacedById.Some? ==>
          && s.revokedAt.Some?
          && LinkOk(ss, s, s.replacedById.value))
  }

  /** A successor belongs to the same user and family and was created inside the grace window. */
  ghost predicate LinkOk(ss: seq<Session>, s: Session, j: nat)
    requires s.revokedAt.Some?
  {
    && j < |ss|
    && ss[j].familyId == s.familyId && ss[j].userId == s.userId
    && s.revokedAt.value <= ss[j].createdAt <= s.revokedAt.value + REFRESH_REUSE_GRACE_MS
  }

  ghost predicate Inv(db: Db, now: Time) {
    forall i :: 0 <= i < |db.sessions| ==> RowOk(db.sessions, i, now)
  }

  lemma StepKeepsInv(db: Db, e: Event, before: Time)
    requires Inv(db, before) && before <= e.now && Possible(db, e)
    ensures Inv(Apply(db, e), e.now)
  {
    hide LoginAccepted, OtpLoginAccepted, ChangeAccepted, ResetAccepted, UseAll, Activated;
    var db' := Apply(db, e);
    StepKeepsRows(db, e);
    forall i | 0 <= i < |db'.sessions|
      ensures RowOk(db'.sessions, i, e.now)
    {
      if i < |db.sessions| {
        assert RowOk(db.sessions, i, before);
        var s, s' := db.sessions[i], db'.sessions[i];
        if s'.replacedById.Some? {
          if RotatesSession(db, e, i) {
            var rows := RotatedRows(db.sessions, i, e.op.newSecret, e.now, e.op.ttl);
            assert Live(rows[|db.sessions|]);
            assert e.op.link < |db.sessions| ==> RowOk(db.sessions, e.op.link, before);
            assert rows[e.op.link].createdAt == e.now;
          } else {
            assert s'.replacedById == s.replacedById;
          }
        }
      }
    }
  }

  // ---- Facts about whole runs -------------------------------------------------

  lemma {:induction false} RunKeepsRows(dbs: seq<Db>, es: seq<Event>, i: nat, j: nat)
    requires IsRun(dbs, es) && i <= j <= |es|
    ensures |dbs[i].sessions| <= |dbs[j].sessions|
    ensures forall s :: 0 <= s < |dbs[i].sessions| ==> RowKept(dbs[i].sessions[s], dbs[j].sessions[s])
    decreases j - i
  {
    if i < j {
      StepKeepsRows(dbs[i], es[i]);
      RunKeepsRows(dbs, es, i + 1, j);
    }
  }

  lemma {:induction false} RunKeepsInv(dbs: seq<Db>, es: seq<Event>, n: nat)
    requires IsFullRun(dbs, es) && n < |es|
    ensures Inv(dbs[n], es[n].now) && Inv(dbs[n + 1], es[n].now)
  {
    if n == 0 {
      assert Inv(dbs[0], es[0].now);
    } else {
      RunKeepsInv(dbs, es, n - 1);
      StepKeepsInv(dbs[n - 1], es[n - 1], es[n - 1].now);
      forall i | 0 <= i < |dbs[n].sessions| ensures RowOk(dbs[n].sessions, i, es[n].now) {
        assert RowOk(dbs[n].sessions, i, es[n - 1].now);
      }
    }
    StepKeepsInv(dbs[n], es[n], es[n].now);
  }

  /** `revokedAt` is written at most once: once set it keeps its value for the rest of the run. */
  lemma RevokedOnce(dbs: seq<Db>, es: seq<Event>, i: nat, j: nat, s: nat)
    requires IsRun(dbs, es) && i <= j <= |es|
    requires s < |dbs[i].sessions| && dbs[i].sessions[s].revokedAt.Some?
    ensures s < |dbs[j].sessions| && dbs[j].sessions[s].revokedAt == dbs[i].sessions[s].revokedAt
  {
    RunKeepsRows(dbs, es, i, j);
    assert RowKept(dbs[i].sessions[s], dbs[j].sessions[s]);
  }

  /** Any two successful refreshes with one token lie at most a grace window apart. */
  lemma GraceNotStretched(dbs: seq<Db>, es: seq<Event>, i: nat, j: nat, s: nat)
    requires IsFullRun(dbs, es) && i < j < |es|
    requires RotatesSession(dbs[i], es[i], s) && RotatesSession(dbs[j], es[j], s)
    ensures es[i].now <= es[j].now <= es[i].now + REFRESH_REUSE_GRACE_MS
  {
    RunKeepsInv(dbs, es, i);
    assert RowOk(dbs[i + 1].sessions, s, es[i].now);
    RevokedOnce(dbs, es, i + 1, j, s);
  }

  /** `replacedById` is set exactly on the sessions that some earlier call refreshed successfully. */
  lemma {:induction false} ReplacedExactlyWhenRotated(dbs: seq<Db>, es: seq<Event>, n: nat, s: nat)
    requires IsFullRun(dbs, es) && n <= |es| && s < |dbs[n].sessions|
    ensures dbs[n].sessions[s].replacedById.Some? <==> exists i :: 0 <= i < n && RotatesSession(dbs[i], es[i], s)
  {
    if n > 0 {
      StepKeepsRows(dbs[n - 1], es[n - 1]);
      if s < |dbs[n - 1].sessions| {
        ReplacedExactlyWhenRotated(dbs, es, n - 1, s);
        assert RowKept(dbs[n - 1].sessions[s], dbs[n].sessions[s]);
        if dbs[n].sessions[s].replacedById.Some? && dbs[n - 1].sessions[s].replacedById.None? {
          assert RotatesSession(dbs[n - 1], es[n - 1], s);
        }
      } else {
        forall i | 0 <= i < n ensures !RotatesSession(dbs[i], es[i], s) {
          RunKeepsRows(dbs, es, i, n - 1);
        }
      }
    }
  }

  // ---- Replacement chains are acyclic -------------------------------------------

  /** `rank` orders revoked rows so that every link goes to a live row or to one revoked later. */
  ghost predicate Ranked(ss: seq<Session>, rank: seq<nat>) {
    && |rank| == |ss|
    && forall i :: 0 <= i < |ss| && ss[i].replacedById.Some? ==>
         && !Live(ss[i])
         && ss[i].replacedById.value < |ss|
         && (Live(ss[ss[i].replacedById.value]) || rank[i] < rank[ss[i].replacedById.value])
  }

  function Above(rank: seq<nat>): (m: nat)
    ensures forall i :: 0 <= i < |rank| ==> rank[i] < m
  {
    if rank == [] then 0
    else
      var m := Above(rank[..|rank| - 1]);
      if rank[|rank| - 1] < m then m else rank[|rank| - 1] + 1
  }

  lemma RotationLinksToLive(db: Db, e: Event, i: nat)
    requires Possible(db, e) && RotatesSession(db, e, i)
    ensures var ss' := Apply(db, e).sessions;
            && i < |db.sessions| && i < |ss'| && !Live(ss'[i]) && ss'[i].replacedById.Some?
            && ss'[i].replacedById.value < |ss'| && Live(ss'[ss'[i].replacedById.value])
  {
    var s := db.sessions[i];
    assert IsNewest(RotatedRows(db.sessions, i, e.op.newSecret, e.now, e.op.ttl), s.userId, s.familyId, e.op.link);
  }

  lemma OnlyRotationLinks(db: Db, e: Event, i: nat)
    requires i < |Apply(db, e).sessions| && !RotatesSession(db, e, i)
    ensures if i < |db.sessions| then Apply(db, e).sessions[i].replacedById == db.sessions[i].replacedById
            else Apply(db, e).sessions[i].replacedById.None?
  {
  }

  /** Rows revoked by the step are ranked above everything revoked before it. */
  lemma StepKeepsRank(db: Db, e: Event, rank: seq<nat>) returns (rank': seq<nat>)
    requires Possible(db, e) && Ranked(db.sessions, rank)
    ensures Ranked(Apply(db, e).sessions, rank')
  {
    hide Apply, Possible, RotatesSession;
    var ss, ss' := db.sessions, Apply(db, e).sessions;
    StepKeepsRows(db, e);
    var top := Above(rank);
    rank' := seq(|ss'|, i requires 0 <= i < |ss'| => if i < |ss| && !Live(ss[i]) then rank[i] else top);
    forall i | 0 <= i < |ss'| && ss'[i].replacedById.Some?
      ensures !Live(ss'[i]) && ss'[i].replacedById.value < |ss'|
      ensures Live(ss'[ss'[i].replacedById.value]) || rank'[i] < rank'[ss'[i].replacedById.value]
    {
      if RotatesSession(db, e, i) {
        RotationLinksToLive(db, e, i);
      } else {
        OnlyRotationLinks(db, e, i);
        assert RowKept(ss[i], ss'[i]);
      }
    }
  }

  lemma {:induction false} RunHasRank(dbs: seq<Db>, es: seq<Event>, n: nat) returns (rank: seq<nat>)
    requires IsFullRun(dbs, es) && n <= |es|
    ensures Ranked(dbs[n].sessions, rank)
  {
    if n == 0 {
      rank := [];
    } else {
      var before := RunHasRank(dbs, es, n - 1);
      rank := StepKeepsRank(dbs[n - 1], es[n - 1], before);
    }
  }

  /** The session reached from `i` by `k` replacement links, if the chain is that long. */
  function Follow(ss: seq<Session>, i: nat, k: nat): Option<nat>
    decreases k
  {
    if k == 0 then Some(i)
    else if i < |ss| && ss[i].replacedById.Some? then Follow(ss, ss[i].replacedById.value, k - 1)
    else None
  }

  lemma {:induction false} FollowClimbs(ss: seq<Session>, rank: seq<nat>, i: nat, k: nat)
    requires Ranked(ss, rank) && i < |ss| && k > 0 && Follow(ss, i, k).Some?
    ensures var j := Follow(ss, i, k).value; j < |ss| && !Live(ss[i]) && (Live(ss[j]) || rank[i] < rank[j])
    decreases k
  {
    var next := ss[i].replacedById.value;
    if k > 1 {
      FollowClimbs(ss, rank, next, k - 1);
    } else {
      assert Follow(ss, next, 0) == Some(next);
    }
  }

  /** No session of a reachable state can be reached from itself by following successors. */
  lemma ChainsAreAcyclic(dbs: seq<Db>, es: seq<Event>, n: nat, i: nat, k: nat)
    requires IsFullRun(dbs, es) && n <= |es| && i < |dbs[n].sessions| && k > 0
    ensures Follow(dbs[n].sessions, i, k) != Some(i)
  {
    var rank := RunHasRank(dbs, es, n);
    if Follow(dbs[n].sessions, i, k).Some? {
      FollowClimbs(dbs[n].sessions, rank, i, k);
    }
  }

  /** Every link leads to a session of the same user and family created within the grace window. */
  lemma LinksStayInFamily(dbs: seq<Db>, es: seq<Event>, n: nat, i: nat)
    requires IsFullRun(dbs, es) && n <= |es| && i < |dbs[n].sessions| && dbs[n].sessions[i].replacedById.Some?
    ensures var s, j := dbs[n].sessions[i], dbs[n].sessions[i].replacedById.value;
            && s.revokedAt.Some? && LinkOk(dbs[n].sessions, s, j)
            && s.createdAt <= dbs[n].sessions[j].createdAt
  {
    RunKeepsInv(dbs, es, n - 1);
    assert RowOk(dbs[n].sessions, i, es[n - 1].now);
  }

  // ---- Dead families ----------------------------------------------------------

  /** Every session is revoked, and none is both rotated and inside its grace window. */
  ghost predicate Dead(ss: seq<Session>, family: nat, now: Time) {
    forall i :: 0 <= i < |ss| && ss[i].familyId == family ==> !Live(ss[i]) && !InGrace(ss[i], now)
  }

  ghost predicate HasLive(ss: seq<Session>, family: nat) {
    exists i :: 0 <= i < |ss| && ss[i].familyId == family && Live(ss[i])
  }

  ghost predicate Known(ss: seq<Session>, family: nat) {
    exists s :: s in ss && s.familyId == family
  }

  lemma StepKeepsDead(db: Db, e: Event, family: nat, before: Time)
    requires Possible(db, e) && before <= e.now
    requires Known(db.sessions, family) && Dead(db.sessions, family, before)
    ensures Known(Apply(db, e).sessions, family) && Dead(Apply(db, e).sessions, family, e.now)
  {
    hide LoginAccepted, OtpLoginAccepted, ChangeAccepted, ResetAccepted, UseAll, Activated;
    var ss, ss' := db.sessions, Apply(db, e).sessions;
    StepKeepsRows(db, e);
    var w :| 0 <= w < |ss| && ss[w].familyId == family;
    assert ss'[w] in ss' && RowKept(ss[w], ss'[w]);
    forall i | 0 <= i < |ss'| && ss'[i].familyId == family
      ensures !Live(ss'[i]) && !InGrace(ss'[i], e.now)
    {
      if i < |ss| {
        assert RowKept(ss[i], ss'[i]);
        assert !RotatesSession(db, e, i);
        assert ss'[i].replacedById == ss[i].replacedById;
      }
    }
  }

  /** A dead family never gets another live session, whatever calls follow. */
  lemma {:induction false} DeadFamilyStaysDead(dbs: seq<Db>, es: seq<Event>, n: nat, m: nat, family: nat, since: Time)
    requires IsRun(dbs, es) && n <= m <= |es|
    requires n < |es| ==> since <= es[n].now
    requires Known(dbs[n].sessions, family) && Dead(dbs[n].sessions, family, since)
    ensures !HasLive(dbs[m].sessions, family)
    decreases m - n
  {
    if n < m {
      StepKeepsDead(dbs[n], es[n], family, since);
      DeadFamilyStaysDead(dbs, es, n + 1, m, family, es[n].now);
    }
  }

  /** The session could be refreshed at `now` by whoever holds its token. */
  ghost predicate Refreshable(db: Db, s: Session, now: Time) {
    && (Live(s) || InGrace(s, now)) && now <= s.expiresAt
    && s.userId in db.users && CanAuthenticate(db.users[s.userId].status)
  }

  /**
   * Exactly when one refresh can still put a live session into a family: some session of it,
   * live or rotated within the grace window, is unexpired and its user may sign in.
   */
  lemma FamilyCanGrowExactlyWhen(db: Db, family: nat, now: Time)
    ensures (exists i :: 0 <= i < |db.sessions| && db.sessions[i].familyId == family && Refreshable(db, db.sessions[i], now))
       <==> (exists token: Presented :: Decide(db, token, now) == Rotated && db.sessions[token.sessionId].familyId == family)
  {
    if i :| 0 <= i < |db.sessions| && db.sessions[i].familyId == family && Refreshable(db, db.sessions[i], now) {
      assert Decide(db, Presented(i, db.sessions[i].secret), now) == Rotated;
    }
    if token: Presented :| Decide(db, token, now) == Rotated && db.sessions[token.sessionId].familyId == family {
      assert Refreshable(db, db.sessions[token.sessionId], now);
    }
  }

  /** Of all calls only a refresh of one of its own sessions gives a family without live sessions a live one. */
  lemma FamilyRevivesExactlyWhen(dbs: seq<Db>, es: seq<Event>, n: nat, family: nat)
    requires IsRun(dbs, es) && n < |es| && Known(dbs[n].sessions, family) && !HasLive(dbs[n].sessions, family)
    ensures HasLive(dbs[n + 1].sessions, family) <==>
              exists i :: 0 <= i < |dbs[n].sessions| && dbs[n].sessions[i].familyId == family && RotatesSession(dbs[n], es[n], i)
  {
    StepRevivesExactlyWhen(dbs[n], es[n], family);
  }

  lemma StepRevivesExactlyWhen(db: Db, e: Event, family: nat)
    requires Possible(db, e) && Known(db.sessions, family) && !HasLive(db.sessions, family)
    ensures HasLive(Apply(db, e).sessions, family) <==>
              exists i :: 0 <= i < |db.sessions| && db.sessions[i].familyId == family && RotatesSession(db, e, i)
  {
    var ss, ss' := db.sessions, Apply(db, e).sessions;
    StepKeepsRows(db, e);
    if i :| 0 <= i < |ss| && ss[i].familyId == family && RotatesSession(db, e, i) {
      assert Live(ss'[|ss|]) && ss'[|ss|].familyId == family;
    }
    if i :| 0 <= i < |ss'| && ss'[i].familyId == family && Live(ss'[i]) {
      assert i < |ss| ==> RowKept(ss[i], ss'[i]);
      assert i == |ss|;
      if e.op.Refresh? {
        assert RotatesSession(db, e, e.op.token.sessionId);
      }
    }
  }

  /** Some call at `now` puts a live session into the family. */
  ghost predicate CanRevive(db: Db, family: nat, now: Time) {
    exists e: Event :: e.now == now && Possible(db, e) && HasLive(Apply(db, e).sessions, family)
  }

  /** The new session of a rotation is the newest of its family, so the refresh is a possible call. */
  lemma RefreshRevives(db: Db, token: Presented, before: Time, now: Time)
    requires Inv(db, before) && before <= now && Decide(db, token, now) == Rotated
    ensures CanRevive(db, db.sessions[token.sessionId].familyId, now)
  {
    var ss, e := db.sessions, Event(Op.Refresh(token, 0, 0, |db.sessions|), now);
    var rows, s := RotatedRows(ss, token.sessionId, 0, now, 0), ss[token.sessionId];
    assert forall j :: 0 <= j < |ss| ==> RowOk(ss, j, before) && rows[j].createdAt == ss[j].createdAt;
    assert IsNewest(rows, s.userId, s.familyId, |ss|);
    assert Possible(db, e) && RotatesSession(db, e, token.sessionId);
    var ss' := Apply(db, e).sessions;
    assert Live(ss'[|ss|]) && ss'[|ss|].familyId == s.familyId;
  }

  /**
   * At any point of a run, a family without live sessions can get one by some next call exactly
   * when a session of it, rotated within the grace window, is unexpired and its user may sign in.
   */
  lemma FamilyCanReviveExactlyWhen(dbs: seq<Db>, es: seq<Event>, n: nat, family: nat, now: Time)
    requires IsFullRun(dbs, es) && n <= |es| && (n > 0 ==> es[n - 1].now <= now)
    requires Known(dbs[n].sessions, family) && !HasLive(dbs[n].sessions, family)
    ensures CanRevive(dbs[n], family, now) <==>
              exists i :: 0 <= i < |dbs[n].sessions| && dbs[n].sessions[i].familyId == family
                          && InGrace(dbs[n].sessions[i], now) && Refreshable(dbs[n], dbs[n].sessions[i], now)
  {
    hide Apply, Possible, Inv, CanRevive;
    var db := dbs[n];
    InvBy(dbs, es, n, now);
    FamilyCanGrowExactlyWhen(db, family, now);
    if i :| 0 <= i < |db.sessions| && db.sessions[i].familyId == family && Refreshable(db, db.sessions[i], now) {
      var token: Presented :| Decide(db, token, now) == Rotated && db.sessions[token.sessionId].familyId == family;
      RefreshRevives(db, token, now, now);
    }
    if CanRevive(db, family, now) {
      RevivalIsRefresh(db, family, now);
      var i :| 0 <= i < |db.sessions| && db.sessions[i].familyId == family && Refreshable(db, db.sessions[i], now);
      assert db.sessions[i] in db.sessions;
    }
  }

  lemma RevivalIsRefresh(db: Db, family: nat, now: Time)
    requires CanRevive(db, family, now) && Known(db.sessions, family) && !HasLive(db.sessions, family)
    ensures exists token: Presented :: Decide(db, token, now) == Rotated && db.sessions[token.sessionId].familyId == family
  {
    hide Apply, Possible, Decide, HasLive;
    var e: Event :| e.now == now && Possible(db, e) && HasLive(Apply(db, e).sessions, family);
    StepRevivesExactlyWhen(db, e, family);
    var i :| 0 <= i < |db.sessions| && db.sessions[i].familyId == family && RotatesSession(db, e, i);
    assert Decide(db, e.op.token, now) == Rotated;
  }

  lemma InvBy(dbs: seq<Db>, es: seq<Event>, n: nat, now: Time)
    requires IsFullRun(dbs, es) && n <= |es| && (n > 0 ==> es[n - 1].now <= now)
    ensures Inv(dbs[n], now)
  {
    if n > 0 {
      RunKeepsInv(dbs, es, n - 1);
      var ss := dbs[n].sessions;
      forall i | 0 <= i < |ss| ensures RowOk(ss, i, now) {
        assert RowOk(ss, i, es[n - 1].now);
      }
    }
  }

  predicate DetectsReuse(db: Db, e: Event) {
    e.op.Refresh? && Decide(db, e.op.token, e.now) == ReuseDetected
  }

  function FamilyOf(db: Db, e: Event): nat
    requires DetectsReuse(db, e)
  {
    db.sessions[e.op.token.sessionId].familyId
  }

  /**
   * In any run, reuse detection kills a family exactly when none of its sessions was rotated
   * within the grace window; one that was, and is unexpired, can still be refreshed by its holder.
   */
  lemma ReuseKillsExactlyWhen(dbs: seq<Db>, es: seq<Event>, n: nat, i: nat)
    requires IsFullRun(dbs, es) && n < |es| && DetectsReuse(dbs[n], es[n])
    ensures var family, now := FamilyOf(dbs[n], es[n]), es[n].now;
            Dead(dbs[n + 1].sessions, family, now) <==>
              forall j :: 0 <= j < |dbs[n].sessions| && dbs[n].sessions[j].familyId == family ==> !InGrace(dbs[n].sessions[j], now)
    ensures i < |dbs[n].sessions| && InGrace(dbs[n].sessions[i], es[n].now) && Refreshable(dbs[n], dbs[n].sessions[i], es[n].now) ==>
              Decide(dbs[n + 1], Presented(i, dbs[n].sessions[i].secret), es[n].now) == Rotated
  {
    RunKeepsInv(dbs, es, n);
    var ss, ss', family, now := dbs[n].sessions, dbs[n + 1].sessions, FamilyOf(dbs[n], es[n]), es[n].now;
    assert ss' == Revoke(ss, Family(family), now);
    forall j | 0 <= j < |ss| && ss[j].familyId == family ensures !Live(ss'[j]) && InGrace(ss'[j], now) == InGrace(ss[j], now) {
      assert RowOk(ss, j, now);
    }
  }

  const SAMPLE_TTL: nat := 1000000

  function SampleDb(sessions: seq<Session>): Db {
    Db(sessions, [], map[1 := User(Active, Some(5), false)])
  }

  function SampleSession(secret: nat, at: Time): Session {
    NewSession(1, 7, secret, at, SAMPLE_TTL)
  }

  function SampleRotated(secret: nat, at: Time, revoked: Time, next: nat): Session {
    SampleSession(secret, at).(revokedAt := Some(revoked), replacedById := Some(next))
  }

  function SampleRefresh(id: nat, secret: nat, newSecret: nat, link: nat, at: Time): Event {
    Event(Refresh(Presented(id, secret), newSecret, SAMPLE_TTL, link), at)
  }

  lemma SampleLogin()
    ensures var e := Event(Login(1, 5, true, 7, 10, SAMPLE_TTL), 0);
            Possible(SampleDb([]), e) && Apply(SampleDb([]), e) == SampleDb([SampleSession(10, 0)])
  {
  }

  lemma SampleFirstRotation()
    ensures var d, e := SampleDb([SampleSession(10, 0)]), SampleRefresh(0, 10, 11, 1, 0);
            Possible(d, e) && Apply(d, e) == SampleDb([SampleRotated(10, 0, 0, 1), SampleSession(11, 0)])
  {
    var s := SampleSession(10, 0);
    assert RotatedRows([s], 0, 11, 0, SAMPLE_TTL) == [s.(revokedAt := Some(0)), SampleSession(11, 0)];
  }

  lemma SampleSecondRotation()
    ensures var d := SampleDb([SampleRotated(10, 0, 0, 1), SampleSession(11, 0)]);
            var e := SampleRefresh(1, 11, 12, 2, 90000);
            Possible(d, e) && Apply(d, e) == SampleDb([SampleRotated(10, 0, 0, 1), SampleRotated(11, 0, 90000, 2), SampleSession(12, 90000)])
  {
    var r, s := SampleRotated(10, 0, 0, 1), SampleSession(11, 0);
    assert RotatedRows([r, s], 1, 12, 90000, SAMPLE_TTL) == [r, s.(revokedAt := Some(90000)), SampleSession(12, 90000)];
  }

  lemma SampleReuse()
    ensures var d := SampleDb([SampleRotated(10, 0, 0, 1), SampleRotated(11, 0, 90000, 2), SampleSession(12, 90000)]);
            var e := SampleRefresh(0, 10, 13, 0, 100000);
            Possible(d, e) && DetectsReuse(d, e) && FamilyOf(d, e) == 7 && d.sessions[1].familyId == 7 && InGrace(d.sessions[1], 100000)
  {
  }

  /** A run in which it does not: the first token is reused ten seconds after its successor's rotation. */
  lemma ReuseDetectionLeavesGrace() returns (dbs: seq<Db>, es: seq<Event>)
    ensures IsFullRun(dbs, es) && |es| == 4 && DetectsReuse(dbs[3], es[3])
    ensures !Dead(dbs[4].sessions, FamilyOf(dbs[3], es[3]), es[3].now)
  {
    hide Apply, Possible, DetectsReuse, Dead, InGrace, SampleSession, SampleRotated, FamilyOf;
    var d0, d1 := SampleDb([]), SampleDb([SampleSession(10, 0)]);
    var d2 := SampleDb([SampleRotated(10, 0, 0, 1), SampleSession(11, 0)]);
    var d3 := SampleDb([SampleRotated(10, 0, 0, 1), SampleRotated(11, 0, 90000, 2), SampleSession(12, 90000)]);
    es := [Event(Login(1, 5, true, 7, 10, SAMPLE_TTL), 0), SampleRefresh(0, 10, 11, 1, 0),
           SampleRefresh(1, 11, 12, 2, 90000), SampleRefresh(0, 10, 13, 0, 100000)];
    SampleLogin();
    SampleFirstRotation();
    SampleSecondRotation();
    SampleReuse();
    dbs := [d0, d1, d2, d3, Apply(d3, es[3])];
    ReuseKillsExactlyWhen(dbs, es, 3, 1);
  }

  // ---- Revoking calls and reset tokens -----------------------------------------

  predicate Redeems(db: Db, e: Event, row: nat) {
    e.op.ResetPassword? && e.op.row == row && ResetAccepted(db, e.op.presentedSecret, row, e.now)
  }

  predicate ChangesPassword(db: Db, e: Event, u: nat) {
    || (e.op.ChangePassword? && e.op.changeUser == u && ChangeAccepted(db, u, e.op.current, e.op.next))
    || (e.op.ResetPassword? && ResetAccepted(db, e.op.presentedSecret, e.op.row, e.now) && db.resets[e.op.row].userId == u)
  }

  lemma PasswordChangeSignsOut(db: Db, e: Event, u: nat)
    requires ChangesPassword(db, e, u)
    ensures |Apply(db, e).sessions| == |db.sessions|
    ensures forall i :: 0 <= i < |db.sessions| ==>
              && (db.sessions[i].userId == u ==> !Live(Apply(db, e).sessions[i]))
              && (db.sessions[i].userId != u ==> Apply(db, e).sessions[i] == db.sessions[i])
  {
  }

  /**
   * A password change or reset signs its user out for good: no session the user had is live at
   * any later point of the run. Sessions of others are not touched by the call.
   */
  lemma SignedOutForGood(dbs: seq<Db>, es: seq<Event>, i: nat, j: nat, u: nat, s: nat)
    requires IsRun(dbs, es) && i < j <= |es| && ChangesPassword(dbs[i], es[i], u) && s < |dbs[i].sessions|
    ensures s < |dbs[j].sessions|
    ensures dbs[i].sessions[s].userId == u ==> !Live(dbs[j].sessions[s])
    ensures dbs[i].sessions[s].userId != u ==> s < |dbs[i + 1].sessions| && dbs[i + 1].sessions[s] == dbs[i].sessions[s]
  {
    hide Apply, ChangesPassword;
    PasswordChangeSignsOut(dbs[i], es[i], u);
    if dbs[i].sessions[s].userId == u {
      RevokedOnce(dbs, es, i + 1, j, s);
    }
    RunKeepsRows(dbs, es, i, j);
  }

  /** Among the tokens of a user at most one is unused. */
  ghost predicate OneUnused(rs: seq<ResetToken>) {
    forall i, j :: 0 <= i < j < |rs| && rs[i].userId == rs[j].userId ==> rs[i].usedAt.Some? || rs[j].usedAt.Some?
  }

  /** Every token belongs to a known user, so a new one has none. */
  ghost predicate TokensOwned(db: Db) {
    forall i :: 0 <= i < |db.resets| ==> db.resets[i].userId in db.users
  }

  lemma StepKeepsTokens(db: Db, e: Event)
    requires Possible(db, e) && OneUnused(db.resets) && TokensOwned(db)
    ensures OneUnused(Apply(db, e).resets) && TokensOwned(Apply(db, e))
  {
    hide Decide, Revoke, LogoutSessions, RotatedRows, IsNewest;
  }

  /** Over every run, of the auth service and of the managers' administration, a user has at most one unused token. */
  lemma {:induction false} AtMostOneUnusedToken(dbs: seq<Db>, es: seq<Event>, n: nat)
    requires IsFullRun(dbs, es) && n <= |es|
    ensures OneUnused(dbs[n].resets) && TokensOwned(dbs[n])
  {
    hide Possible, Apply;
    if n > 0 {
      AtMostOneUnusedToken(dbs, es, n - 1);
      StepKeepsTokens(dbs[n - 1], es[n - 1]);
    }
  }

  lemma {:induction false} UsedStaysUsed(dbs: seq<Db>, es: seq<Event>, i: nat, j: nat, row: nat)
    requires IsRun(dbs, es) && i <= j <= |es| && row < |dbs[i].resets| && dbs[i].resets[row].usedAt.Some?
    ensures row < |dbs[j].resets| && dbs[j].resets[row].usedAt.Some?
    decreases j - i
  {
    if i < j {
      UsedStaysUsed(dbs, es, i + 1, j, row);
    }
  }

  /** A reset token is redeemed at most once in any run. */
  lemma ResetTokensAreOneTime(dbs: seq<Db>, es: seq<Event>, i: nat, j: nat, row: nat)
    requires IsRun(dbs, es) && i < j < |es| && Redeems(dbs[i], es[i], row)
    ensures !Redeems(dbs[j], es[j], row)
  {
    assert dbs[i + 1] == Apply(dbs[i], es[i]);
    UsedStaysUsed(dbs, es, i + 1, j, row);
  }
}

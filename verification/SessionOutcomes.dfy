/**
 * What sessions and reset links promise their users: where every session comes from, what a
 * logout or a new password ends, and which link can still be used.
 */
module SessionOutcomes {
  import opened Prelude
  import opened Sessions

  // ---- Where sessions come from ------------------------------------------------------------------

  predicate MaySignIn(db: Db, u: nat) {
    u in db.users && (db.users[u].status == Active || db.users[u].status == Pending)
  }

  /** The token is that of a session that is unrevoked, or was rotated at most a minute ago, and unexpired. */
  predicate Usable(db: Db, token: Presented, now: Time) {
    && token.Presented? && token.sessionId < |db.sessions|
    && var s := db.sessions[token.sessionId];
       && token.secret == s.secret && now <= s.expiresAt
       && (s.revokedAt.None? || (s.replacedById.Some? && now <= s.revokedAt.value + 60000))
       && MaySignIn(db, s.userId)
  }

  /** The call opens a session: for whom, in which family, with which secret and until when. */
  predicate Opens(db: Db, e: Event, x: Session) {
    && x.createdAt == e.now && x.revokedAt.None? && x.replacedById.None?
    && match e.op
       case Login(u, pw, ok, fam, secret, ttl) =>
         && MaySignIn(db, u) && db.users[u].password == Some(pw) && ok
         && x.userId == u && x.familyId == fam && x.secret == secret && x.expiresAt == e.now + ttl
       case OtpLogin(u, may, pm, fam, secret, ttl) =>
         && (if u in db.users then MaySignIn(db, u) && !(db.users[u].status == Pending && pm) else may)
         && x.userId == u && x.familyId == fam && x.secret == secret && x.expiresAt == e.now + ttl
       case Refresh(token, secret, ttl, _) =>
         && Usable(db, token, e.now)
         && x.userId == db.sessions[token.sessionId].userId && x.familyId == db.sessions[token.sessionId].familyId
         && x.secret == secret && x.expiresAt == e.now + ttl
       case _ => false
  }

  lemma UsableIsRotated(db: Db, token: Presented, now: Time)
    ensures Usable(db, token, now) <==> Decide(db, token, now) == Rotated
  {
  }

  /** The new row of a call, before a refresh links to it. */
  lemma StepOpensExactly(db: Db, e: Event)
    requires Possible(db, e)
    ensures var ss, ss' := db.sessions, Apply(db, e).sessions;
            && |ss| <= |ss'| <= |ss| + 1
            && (|ss'| == |ss| + 1 <==> exists x :: Opens(db, e, x))
            && (|ss'| == |ss| + 1 ==> Opens(db, e, ss'[|ss|]))
  {
    hide Usable, IsNewest, Decide;
    StepKeepsRows(db, e);
    if e.op.Refresh? {
      UsableIsRotated(db, e.op.token, e.now);
      RefreshOpens(db, e);
    }
    var ss, ss' := db.sessions, Apply(db, e).sessions;
    if |ss'| == |ss| + 1 {
      assert Opens(db, e, ss'[|ss|]);
    }
  }

  lemma RefreshOpens(db: Db, e: Event)
    requires Possible(db, e) && e.op.Refresh?
    ensures var ss, ss' := db.sessions, Apply(db, e).sessions;
            if Usable(db, e.op.token, e.now) then |ss'| == |ss| + 1 && Opens(db, e, ss'[|ss|]) else |ss'| == |ss|
  {
    UsableIsRotated(db, e.op.token, e.now);
  }

  /** Every session of a run was opened by a call of the run, and each call that may open one opens exactly one. */
  lemma {:induction false} SessionsHaveOrigins(dbs: seq<Db>, es: seq<Event>, n: nat, s: nat)
    requires IsFullRun(dbs, es) && n <= |es| && s < |dbs[n].sessions|
    ensures exists k :: 0 <= k < n && |dbs[k].sessions| == s && |dbs[k + 1].sessions| == s + 1
                        && Opens(dbs[k], es[k], dbs[k + 1].sessions[s]) && RowKept(dbs[k + 1].sessions[s], dbs[n].sessions[s])
  {
    hide Apply, Possible, Opens, RowKept;
    StepOpensExactly(dbs[n - 1], es[n - 1]);
    StepKeepsRows(dbs[n - 1], es[n - 1]);
    if s < |dbs[n - 1].sessions| {
      SessionsHaveOrigins(dbs, es, n - 1, s);
      var k :| 0 <= k < n - 1 && |dbs[k].sessions| == s && |dbs[k + 1].sessions| == s + 1
               && Opens(dbs[k], es[k], dbs[k + 1].sessions[s]) && RowKept(dbs[k + 1].sessions[s], dbs[n - 1].sessions[s]);
      RunKeepsRows(dbs, es, k + 1, n);
    } else {
      KeptItself(dbs[n].sessions[s]);
    }
  }

  lemma KeptItself(s: Session)
    ensures RowKept(s, s)
  {
  }

  // ---- What ends sessions --------------------------------------------------------------------------

  /** The user logs out of the session: with its access token, or by presenting its refresh token. */
  predicate LogsOutOf(e: Event, u: nat, id: nat) {
    && e.op.Logout? && e.op.logoutUser == u
    && (id == e.op.accessSession
        || (e.op.also.Some? && e.op.also.value.Presented? && e.op.also.value.sessionId == id))
  }

  lemma LogoutRevokes(db: Db, e: Event)
    requires e.op.Logout?
    ensures var ss, ss' := db.sessions, Apply(db, e).sessions;
            && |ss'| == |ss|
            && forall i :: 0 <= i < |ss| ==>
                 ss'[i] == if ss[i].userId == e.op.logoutUser && LogsOutOf(e, e.op.logoutUser, i) && ss[i].revokedAt.None?
                           then ss[i].(revokedAt := Some(e.now)) else ss[i]
  {
  }

  /** Revoked and not rotated: nothing brings such a session back. */
  predicate Ended(s: Session) {
    s.revokedAt.Some? && s.replacedById.None?
  }

  lemma EndedStep(db: Db, e: Event, s: nat)
    requires Possible(db, e) && s < |db.sessions| && Ended(db.sessions[s])
    ensures s < |Apply(db, e).sessions| && Apply(db, e).sessions[s] == db.sessions[s]
  {
    hide UseAll, ResetAccepted, LoginAccepted, OtpLoginAccepted, ChangeAccepted;
  }

  lemma {:induction false} EndedForGood(dbs: seq<Db>, es: seq<Event>, i: nat, j: nat, s: nat)
    requires IsRun(dbs, es) && i <= j <= |es| && s < |dbs[i].sessions| && Ended(dbs[i].sessions[s])
    ensures s < |dbs[j].sessions| && dbs[j].sessions[s] == dbs[i].sessions[s]
    decreases j - i
  {
    hide Apply, Possible;
    if i < j {
      EndedStep(dbs[i], es[i], s);
      EndedForGood(dbs, es, i + 1, j, s);
    }
  }

  lemma EndedIsRefused(db: Db, s: nat, secret: nat, now: Time)
    requires s < |db.sessions| && Ended(db.sessions[s])
    ensures Decide(db, Presented(s, secret), now) == ReuseDetected
  {
  }

  /**
   * A logout ends what it names for good: a session of the user is not live at any later point of
   * the run, and if it was live its token is never accepted again. Every other row is untouched.
   */
  lemma LoggedOutForGood(dbs: seq<Db>, es: seq<Event>, i: nat, j: nat, u: nat, s: nat, secret: nat, now: Time)
    requires IsRun(dbs, es) && i < j <= |es| && es[i].op.Logout? && es[i].op.logoutUser == u && s < |dbs[i].sessions|
    ensures |dbs[i + 1].sessions| == |dbs[i].sessions| <= |dbs[j].sessions|
    ensures dbs[i].sessions[s].userId == u && LogsOutOf(es[i], u, s) ==> dbs[j].sessions[s].revokedAt.Some?
    ensures dbs[i].sessions[s].userId == u && LogsOutOf(es[i], u, s)
            && Live(dbs[i].sessions[s]) && dbs[i].sessions[s].replacedById.None? ==>
              dbs[j].sessions[s].revokedAt == Some(es[i].now) && Decide(dbs[j], Presented(s, secret), now) == ReuseDetected
    ensures !(dbs[i].sessions[s].userId == u && LogsOutOf(es[i], u, s)) ==> dbs[i + 1].sessions[s] == dbs[i].sessions[s]
  {
    hide Apply, Possible, LogsOutOf, Decide;
    assert dbs[i + 1] == Apply(dbs[i], es[i]);
    LogoutRevokes(dbs[i], es[i]);
    RunKeepsRows(dbs, es, i + 1, j);
    var ended := dbs[i + 1].sessions[s];
    if ended.revokedAt.Some? {
      RevokedOnce(dbs, es, i + 1, j, s);
    }
    if Ended(ended) {
      EndedForGood(dbs, es, i + 1, j, s);
      EndedIsRefused(dbs[j], s, secret, now);
    }
  }

  /** The presented token shows that the family is in wrong hands: a used one outside its minute, or a forged one. */
  predicate Compromises(db: Db, e: Event, family: nat) {
    && e.op.Refresh? && e.op.token.Presented? && e.op.token.sessionId < |db.sessions|
    && var s := db.sessions[e.op.token.sessionId];
       && s.familyId == family
       && if s.revokedAt.Some?
          then s.replacedById.None? || e.now > s.revokedAt.value + 60000 || e.op.token.secret != s.secret
          else e.now <= s.expiresAt && e.op.token.secret != s.secret
  }

  /** The user gets a new password: with the current one, or with an unused link in time. */
  predicate SetsPassword(db: Db, e: Event, u: nat) {
    match e.op
    case ChangePassword(user, current, next) =>
      user == u && u in db.users && db.users[u].password == Some(current) && next != current
    case ResetPassword(secret, row, _) =>
      && row < |db.resets| && db.resets[row].userId == u && u in db.users && !db.users[u].deleted
      && db.resets[row].secret == secret && db.resets[row].usedAt.None? && e.now <= db.resets[row].expiresAt
    case _ => false
  }

  lemma PasswordSetExactlyWhen(db: Db, e: Event, u: nat)
    ensures ChangesPassword(db, e, u) <==> SetsPassword(db, e, u)
  {
  }

  /** An administrator signs the user out: directly, by resetting or by closing a manager's account. */
  predicate SignsOut(db: Db, e: Event, u: nat) {
    || (e.op.AdminRevoke? && e.op.revokedUser == u)
    || (e.op.ResetManager? && e.op.manager == u && u in db.users && !db.users[u].deleted)
    || (e.op.CloseManager? && e.op.closedManager == u && u in db.users && !db.users[u].deleted)
  }

  /** The call ends the session, or replaces it by its successor. */
  predicate Ends(db: Db, e: Event, id: nat)
    requires id < |db.sessions|
  {
    var s := db.sessions[id];
    || LogsOutOf(e, s.userId, id) || SetsPassword(db, e, s.userId) || SignsOut(db, e, s.userId)
    || Compromises(db, e, s.familyId)
    || (e.op.Refresh? && e.op.token.Presented? && e.op.token.sessionId == id && Usable(db, e.op.token, e.now))
  }

  lemma StepEnds(db: Db, e: Event, id: nat)
    requires Possible(db, e) && id < |db.sessions| && Live(db.sessions[id])
    ensures id < |Apply(db, e).sessions|
    ensures var s := Apply(db, e).sessions[id]; (!Live(s) <==> Ends(db, e, id)) && (!Live(s) ==> s.revokedAt == Some(e.now))
  {
    hide IsNewest, UseAll, NewSession;
    PasswordSetExactlyWhen(db, e, db.sessions[id].userId);
    if e.op.Refresh? {
      UsableIsRotated(db, e.op.token, e.now);
    }
  }

  /**
   * A live session stops being live exactly when its user logs out of it, gets a new password or
   * is signed out by an administrator, when a token of its family is used out of turn, or when it
   * is itself refreshed.
   */
  lemma EndsExactlyWhen(dbs: seq<Db>, es: seq<Event>, n: nat, id: nat)
    requires IsRun(dbs, es) && n < |es| && id < |dbs[n].sessions| && Live(dbs[n].sessions[id])
    ensures id < |dbs[n + 1].sessions|
    ensures !Live(dbs[n + 1].sessions[id]) <==> Ends(dbs[n], es[n], id)
    ensures !Live(dbs[n + 1].sessions[id]) ==> dbs[n + 1].sessions[id].revokedAt == Some(es[n].now)
  {
    hide Apply, Possible, Ends;
    StepEnds(dbs[n], es[n], id);
  }

  /** Signing in by OTP opens a new account or activates a pending one; a redeemed link does the latter. */
  lemma PendingIsActivated(db: Db, e: Event, u: nat)
    requires (e.op.OtpLogin? && e.op.otpUser == u && exists x :: Opens(db, e, x)) || (e.op.ResetPassword? && SetsPassword(db, e, u))
    ensures var users := Apply(db, e).users;
            && u in users
            && (if u in db.users
                then users[u].status == (if db.users[u].status == Pending then Active else db.users[u].status)
                     && users[u].deleted == db.users[u].deleted && (e.op.OtpLogin? ==> users[u].password == db.users[u].password)
                else users[u] == User(Active, None, false))
  {
    hide Revoke, UseAll;
  }

  /**
   * Right after a password change or reset, an old token of the user is accepted exactly if its
   * session was rotated at most a minute ago, is unexpired, and the user may sign in.
   */
  lemma OldTokensAfterNewPassword(dbs: seq<Db>, es: seq<Event>, i: nat, u: nat, s: nat, now: Time)
    requires IsFullRun(dbs, es) && i < |es| && ChangesPassword(dbs[i], es[i], u) && es[i].now <= now
    requires s < |dbs[i].sessions| && dbs[i].sessions[s].userId == u
    ensures var x := dbs[i].sessions[s];
            Decide(dbs[i + 1], Presented(s, x.secret), now) == Rotated <==>
              InGrace(x, now) && now <= x.expiresAt && MaySignIn(dbs[i + 1], u)
  {
    hide Possible;
    RunKeepsInv(dbs, es, i);
    assert RowOk(dbs[i].sessions, s, es[i].now);
    PasswordChangeSignsOut(dbs[i], es[i], u);
    PasswordChangeRevokes(dbs[i], es[i], u, s);
    UsableIsRotated(dbs[i + 1], Presented(s, dbs[i].sessions[s].secret), now);
  }

  lemma PasswordChangeRevokes(db: Db, e: Event, u: nat, s: nat)
    requires ChangesPassword(db, e, u) && s < |db.sessions| && db.sessions[s].userId == u
    ensures |Apply(db, e).sessions| == |db.sessions|
    ensures Apply(db, e).sessions[s] == if Live(db.sessions[s]) then db.sessions[s].(revokedAt := Some(e.now)) else db.sessions[s]
  {
  }

  // ---- Passwords ------------------------------------------------------------------------------------

  /** The call gives the user a password, or an administrator replaces the account. */
  predicate TouchesPassword(db: Db, e: Event, u: nat) {
    ChangesPassword(db, e, u) || (e.op.AdminSetUser? && e.op.setUser == u) || (e.op.CreateManager? && e.op.newManager == u)
  }

  lemma PasswordStays(db: Db, e: Event, u: nat)
    requires Possible(db, e) && u in db.users && !TouchesPassword(db, e, u)
    ensures u in Apply(db, e).users && Apply(db, e).users[u].password == db.users[u].password
  {
    hide Revoke, UseAll, Decide, RotatedRows;
  }

  function PasswordGiven(e: Event): nat
    requires e.op.ChangePassword? || e.op.ResetPassword?
  {
    if e.op.ChangePassword? then e.op.next else e.op.newPassword
  }

  lemma {:induction false} PasswordHolds(dbs: seq<Db>, es: seq<Event>, i: nat, j: nat, u: nat)
    requires IsRun(dbs, es) && i <= j <= |es| && u in dbs[i].users
    requires forall k :: i <= k < j ==> !TouchesPassword(dbs[k], es[k], u)
    ensures u in dbs[j].users && dbs[j].users[u].password == dbs[i].users[u].password
    decreases j - i
  {
    hide Apply, Possible, TouchesPassword;
    if i < j {
      PasswordStays(dbs[i], es[i], u);
      PasswordHolds(dbs, es, i + 1, j, u);
    }
  }

  lemma PasswordIsGiven(db: Db, e: Event, u: nat)
    requires ChangesPassword(db, e, u)
    ensures u in Apply(db, e).users && Apply(db, e).users[u].password == Some(PasswordGiven(e))
  {
  }

  /**
   * From a password change or reset until the next one, the user can log in with exactly the new
   * password, as long as the account may sign in.
   */
  lemma NewPasswordHolds(dbs: seq<Db>, es: seq<Event>, i: nat, j: nat, u: nat, password: nat, managerOk: bool)
    requires IsRun(dbs, es) && i < j <= |es| && ChangesPassword(dbs[i], es[i], u)
    requires forall k :: i < k < j ==> !TouchesPassword(dbs[k], es[k], u)
    ensures LoginAccepted(dbs[j], u, password, managerOk) <==>
              password == PasswordGiven(es[i]) && MaySignIn(dbs[j], u) && managerOk
  {
    hide Apply, Possible, TouchesPassword, ChangesPassword;
    assert dbs[i + 1] == Apply(dbs[i], es[i]);
    assert es[i].op.ChangePassword? || es[i].op.ResetPassword? by { ChangesAre(dbs[i], es[i], u); }
    PasswordIsGiven(dbs[i], es[i], u);
    PasswordHolds(dbs, es, i + 1, j, u);
  }

  lemma ChangesAre(db: Db, e: Event, u: nat)
    requires ChangesPassword(db, e, u)
    ensures e.op.ChangePassword? || e.op.ResetPassword?
  {
  }

  // ---- Reset links ----------------------------------------------------------------------------------

  /** The call sends the user a link with the secret, good until `until`. */
  predicate Issues(db: Db, e: Event, u: nat, secret: nat, until: Time) {
    match e.op
    case ForgotPassword(user, s, ttl) => user == Some(u) && s == secret && until == e.now + ttl
    case CreateManager(m, _, invitation, ttl) => m == u && invitation == Some(secret) && until == e.now + ttl
    case ResetManager(m, s, ttl) => m == u && u in db.users && !db.users[u].deleted && s == secret && until == e.now + ttl
    case _ => false
  }

  /** The call makes earlier links of the user unusable. */
  predicate Voids(db: Db, e: Event, u: nat) {
    match e.op
    case ForgotPassword(user, _, _) => user == Some(u)
    case ResetPassword(_, _, _) => ChangesPassword(db, e, u)
    case ResetManager(m, _, _) => m == u && u in db.users && !db.users[u].deleted
    case CloseManager(m, _) => m == u && u in db.users && !db.users[u].deleted
    case _ => false
  }

  lemma StepIssues(db: Db, e: Event, r: nat)
    requires r < |Apply(db, e).resets|
    ensures var t := Apply(db, e).resets[r];
            if r < |db.resets| then
              t.(usedAt := db.resets[r].usedAt) == db.resets[r]
              && (t.usedAt.None? ==> db.resets[r].usedAt.None? && !Voids(db, e, t.userId))
            else t.usedAt.None? && Issues(db, e, t.userId, t.secret, t.expiresAt)
  {
    hide Revoke, RotatedRows, Decide;
  }

  /** An unused link of a run was sent by a call of the run, and nothing has voided it since. */
  lemma {:induction false} UnusedWasIssued(dbs: seq<Db>, es: seq<Event>, n: nat, r: nat)
    requires IsFullRun(dbs, es) && n <= |es| && r < |dbs[n].resets| && dbs[n].resets[r].usedAt.None?
    ensures var t := dbs[n].resets[r];
            exists k :: 0 <= k < n && Issues(dbs[k], es[k], t.userId, t.secret, t.expiresAt)
                        && forall m :: k < m < n ==> !Voids(dbs[m], es[m], t.userId)
  {
    hide Apply, Issues, Voids, Possible;
    assert dbs[n] == Apply(dbs[n - 1], es[n - 1]);
    StepIssues(dbs[n - 1], es[n - 1], r);
    if r < |dbs[n - 1].resets| {
      UnusedWasIssued(dbs, es, n - 1, r);
    }
  }

  /**
   * A link that is redeemed was sent to that user, has not run out, and nothing has voided it
   * since: no newer link, no redemption, no administrator closing the account.
   */
  lemma RedeemedWasIssued(dbs: seq<Db>, es: seq<Event>, n: nat, row: nat)
    requires IsFullRun(dbs, es) && n < |es| && Redeems(dbs[n], es[n], row)
    ensures var u := dbs[n].resets[row].userId;
            exists k, until :: 0 <= k < n && Issues(dbs[k], es[k], u, es[n].op.presentedSecret, until) && es[n].now <= until
                               && forall m :: k < m < n ==> !Voids(dbs[m], es[m], u)
  {
    hide Apply, Issues, Voids, Possible;
    UnusedWasIssued(dbs, es, n, row);
  }
}

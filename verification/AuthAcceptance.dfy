/** Who gets in, and until when: sign-in, bearer acceptance and password change from end to end, in terms
    of the tables and of the clock alone. */
module AuthAcceptance {
  import opened Options
  import opened AuthModel
  import opened AuthProtocol
  import opened AuthGuarantees

  lemma RunThen(actions: seq<Action>, a: Action, cfg: Settings)
    ensures Run(actions + [a], cfg) == Next(Run(actions, cfg), a, cfg)
  {
    assert (actions + [a])[..|actions|] == actions;
  }

  // ---------------------------------------------------------------- who is accepted

  /** In every reachable state a session is accepted if and only if it is not revoked, its user's profile
      exists and is enabled, it was seen less than the idle time ago, and its absolute expiry is ahead:
      an unrevoked session is always of the current credential. */
  lemma AcceptedIff(actions: seq<Action>, cfg: Settings, id: SessionId, now: Time)
    requires cfg.Valid()
    ensures var db := Run(actions, cfg).db;
      Accepts(db, id, now) <==>
        && id in db.sessions
        && var s := db.sessions[id];
           && s.revokedAt == None && s.user in db.profiles && !db.profiles[s.user]
           && now < s.lastSeenAt + cfg.idleSeconds && now < s.absoluteExpiresAt
  {
    hide Run;
    InvOverRuns(actions, cfg);
    var db := Run(actions, cfg).db;
    if id in db.sessions { assert SessionSound(db, db.sessions[id], cfg); }
  }

  // ---------------------------------------------------------------- disabled profiles

  /** Nothing has been granted to the user, and nothing of theirs has changed, since `sys`. */
  ghost predicate ShutOut(sys: System, sys': System, user: UserId) {
    && user in sys'.db.profiles && sys'.db.profiles[user]
    && (user in sys'.db.credentials <==> user in sys.db.credentials)
    && (user in sys.db.credentials ==> sys'.db.credentials[user] == sys.db.credentials[user])
    && sys.used <= sys'.used
    && (forall id :: id in sys'.db.sessions && sys'.db.sessions[id].user == user ==>
          id in sys.db.sessions && sys.db.sessions[id].user == user)
    && forall id :: (user, id) in sys'.principals ==> (user, id) in sys.principals
  }

  lemma StepStaysShutOut(sys: System, sys': System, a: Action, cfg: Settings, user: UserId)
    requires Inv(sys', cfg) && ShutOut(sys, sys', user) && a != SetProfile(user, false)
    ensures ShutOut(sys, Next(sys', a, cfg), user)
  {
    hide Surplus, NewestFirst, Of, SessionSound, OpSound;
  }

  /** Once the profile is disabled, and until it is enabled again, none of the user's sessions is accepted
      at any clock reading, no authentication vouches for them, no session is added for them, and their
      credential stays as it was. */
  lemma {:induction false} DisabledIsShutOut(actions: seq<Action>, user: UserId, later: seq<Action>, cfg: Settings)
    requires cfg.Valid() && SetProfile(user, false) !in later
    ensures var sys, sys' := Run(actions, cfg), Run(actions + [SetProfile(user, true)] + later, cfg);
      && ShutOut(sys, sys', user)
      && forall id, now :: Accepts(sys'.db, id, now) ==> sys'.db.sessions[id].user != user
  {
    hide Inv, Next, ShutOut;
    var all := actions + [SetProfile(user, true)] + later;
    if later == [] {
      RunThen(actions, SetProfile(user, true), cfg);
      assert all == actions + [SetProfile(user, true)];
      DisabledNow(Run(actions, cfg), user, cfg);
    } else {
      var front, last := later[..|later| - 1], later[|later| - 1];
      DisabledIsShutOut(actions, user, front, cfg);
      assert all == actions + [SetProfile(user, true)] + front + [last];
      RunThen(actions + [SetProfile(user, true)] + front, last, cfg);
      InvOverRuns(actions + [SetProfile(user, true)] + front, cfg);
      StepStaysShutOut(Run(actions, cfg), Run(actions + [SetProfile(user, true)] + front, cfg), last, cfg, user);
    }
    var sys' := Run(all, cfg);
    forall id, now | Accepts(sys'.db, id, now) ensures sys'.db.sessions[id].user != user {
      AcceptedIff(all, cfg, id, now);
      ShutOutDisabled(Run(actions, cfg), sys', user);
    }
  }

  lemma DisabledNow(sys: System, user: UserId, cfg: Settings)
    ensures ShutOut(sys, Next(sys, SetProfile(user, true), cfg), user)
  {}

  lemma ShutOutDisabled(sys: System, sys': System, user: UserId)
    requires ShutOut(sys, sys', user)
    ensures user in sys'.db.profiles && sys'.db.profiles[user]
  {}

  // ---------------------------------------------------------------- signing in

  /** The one enrolled user with that login, if there is one, is enabled and has that password. */
  ghost predicate Knows(db: Db, login: string, password: string, user: UserId, cfg: Settings) {
    && user in db.credentials && db.credentials[user].login == login
    && user in db.profiles && !db.profiles[user]
    && cfg.matches(db.credentials[user].passwordHash, password)
  }

  /** A sign-in with nothing in between issues a session if and only if the login is that of an enabled
      user with that password.  The session is then theirs, and, as long as it is not used, accepted for
      the idle time, or for the absolute time where that is shorter. */
  lemma SignIn(actions: seq<Action>, c: Caller, login: string, password: string, id: SessionId, now: Time,
               issuedAt: Time, order: seq<SessionId>, cfg: Settings)
    requires cfg.Valid() && id !in Run(actions, cfg).used
    requires var db := Run(actions, cfg).db;
      forall user :: user in db.credentials && db.credentials[user].login == login ==>
        NewestFirst(Unexpired(db.sessions, now), user, order)
    ensures var db := Run(actions, cfg).db;
      var db' := Run(actions + [LoginRead(c, login, password)] + [LoginCommit(c, id, now, issuedAt, order)], cfg).db;
      && (id in db'.sessions <==> exists user :: Knows(db, login, password, user, cfg))
      && (id in db'.sessions ==>
            && Knows(db, login, password, db'.sessions[id].user, cfg)
            && db'.sessions[id].issuedAt == issuedAt
            && forall t: Time :: Accepts(db', id, t) <==> t < now + cfg.idleSeconds && t < now + cfg.absoluteSeconds)
  {
    hide Inv, Run, Surplus, NewestFirst, Unexpired;
    InvOverRuns(actions, cfg);
    InvLogins(Run(actions, cfg), cfg, id);
    var read, commit := LoginRead(c, login, password), LoginCommit(c, id, now, issuedAt, order);
    RunThen(actions, read, cfg);
    RunThen(actions + [read], commit, cfg);
    var db := Run(actions, cfg).db;
    if user: UserId :| Knows(db, login, password, user, cfg) {
      assert FindLogin(db, login) == Some(user);
      assert Issues(Run(actions + [read], cfg), commit, cfg);
    }
    if id in Run(actions + [read] + [commit], cfg).db.sessions {
      assert Issues(Run(actions + [read], cfg), commit, cfg);
      assert Knows(db, login, password, FindLogin(db, login).value, cfg);
    }
  }

  lemma InvLogins(sys: System, cfg: Settings, id: SessionId)
    requires Inv(sys, cfg)
    ensures sys.db.UniqueLogins() && (id in sys.db.sessions ==> id in sys.used)
  {}

  /** However it is used, no session is accepted once the absolute time has passed since its issue. */
  lemma AcceptedUntil(actions: seq<Action>, a: Action, later: seq<Action>, cfg: Settings, now: Time)
    requires cfg.Valid() && Issues(Run(actions, cfg), a, cfg)
    ensures Accepts(Run(actions + [a] + later, cfg).db, a.id, now) ==> now < a.now + cfg.absoluteSeconds
  {
    hide Run, Inv;
    RunThen(actions, a, cfg);
    var issued := Run(actions + [a], cfg);
    assert a.id in issued.db.sessions && issued.db.sessions[a.id].absoluteExpiresAt == a.now + cfg.absoluteSeconds;
    RowsKeepIdentity(actions + [a], later, cfg, a.id);
  }

  /** A sign-in leaves the user the nine newest of their unexpired sessions, or all of them when there are
      no more, and the new one; no reachable state has more than ten for one user. */
  lemma TenSessions(actions: seq<Action>, a: Action, cfg: Settings, user: UserId)
    requires cfg.Valid()
    ensures |Of(Run(actions, cfg).db.sessions, user)| <= 10
    ensures var sys := Run(actions, cfg);
      Issues(sys, a, cfg) && sys.ops[a.caller].ticket.user == Some(user) ==>
        var before, after := Unexpired(sys.db.sessions, a.now), Next(sys, a, cfg).db.sessions;
        && |Of(after, user)| == (if |Of(before, user)| < 9 then |Of(before, user)| else 9) + 1
        && forall s, t :: s in Of(before, user) - Of(after, user) && t in Of(before, user) * Of(after, user) ==>
             before[s].issuedAt <= before[t].issuedAt
  {
    hide Run, OpSound, SessionSound, MayIssue, NewestFirst, Surplus, Kept;
    InvOverRuns(actions, cfg);
    var sys := Run(actions, cfg);
    if Issues(sys, a, cfg) && sys.ops[a.caller].ticket.user == Some(user) {
      var ticket, before := sys.ops[a.caller].ticket, Unexpired(sys.db.sessions, a.now);
      IssueKeepsNewest(sys.db, user, ticket.version, a.id, a.now, a.issuedAt, a.order, cfg);
      KeptCount(before, user, a.order);
    }
  }

  lemma KeptCount(sessions: map<SessionId, Session>, user: UserId, order: seq<SessionId>)
    requires NewestFirst(sessions, user, order)
    ensures |Kept(order)| == if |Of(sessions, user)| < 9 then |Of(sessions, user)| else 9
    ensures forall s :: s in Ids(Kept(order)) <==> s in Kept(order)
  {
    DistinctCount(order);
    assert Ids(order) == Of(sessions, user);
  }

  // ---------------------------------------------------------------- bearer sessions

  /** An accepted authentication that finishes undisturbed makes the session last the idle time from now,
      if it was last seen the touch interval ago, and otherwise changes nothing; but never past its
      absolute expiry. */
  lemma Authenticate(actions: seq<Action>, c: Caller, id: SessionId, now: Time, cfg: Settings, t: Time)
    requires cfg.Valid() && Accepts(Run(actions, cfg).db, id, now)
    ensures var sys, sys' := Run(actions, cfg), Run(actions + [AuthenticateRead(c, id, now)] + [TouchCommit(c)], cfg);
      var s := sys.db.sessions[id];
      && sys'.principals == sys.principals + {(s.user, id)}
      && (Accepts(sys'.db, id, t) <==>
            t < s.absoluteExpiresAt
            && t < (if s.lastSeenAt + cfg.touchSeconds <= now then now else s.lastSeenAt) + cfg.idleSeconds)
      && forall other :: other != id ==> (Accepts(sys'.db, other, t) <==> Accepts(sys.db, other, t))
  {
    hide Run;
    InvOverRuns(actions, cfg);
    RunThen(actions, AuthenticateRead(c, id, now), cfg);
    RunThen(actions + [AuthenticateRead(c, id, now)], TouchCommit(c), cfg);
    var db := Run(actions, cfg).db;
    assert SessionSound(db, db.sessions[id], cfg);
  }

  /** A touch that comes late does nothing to a row that was revoked, touched or ran out in between. */
  lemma LateTouch(actions: seq<Action>, c: Caller, cfg: Settings)
    requires cfg.Valid() && c in Run(actions, cfg).ops && Run(actions, cfg).ops[c].Touching?
    ensures var sys := Run(actions, cfg);
      var op, db' := sys.ops[c], Next(sys, TouchCommit(c), cfg).db;
      && db'.profiles == sys.db.profiles && db'.credentials == sys.db.credentials
      && db'.sessions.Keys == sys.db.sessions.Keys
      && (forall id :: id in db'.sessions && id != op.session ==> db'.sessions[id] == sys.db.sessions[id])
      && (op.session in db'.sessions ==>
            var s, s' := sys.db.sessions[op.session], db'.sessions[op.session];
            if s.revokedAt == None && s.lastSeenAt == op.seen.lastSeenAt && s.lastSeenAt + cfg.touchSeconds <= op.now
               && op.now < s.lastSeenAt + cfg.idleSeconds && op.now < s.absoluteExpiresAt
            then s'.lastSeenAt == op.now && s' == s.(lastSeenAt := s'.lastSeenAt, idleExpiresAt := s'.idleExpiresAt)
            else s' == s)
  {
    hide Run;
    InvOverRuns(actions, cfg);
    var sys := Run(actions, cfg);
    assert OpSound(sys, sys.ops[c]);
    if sys.ops[c].session in sys.db.sessions { assert SessionSound(sys.db, sys.db.sessions[sys.ops[c].session], cfg); }
  }

  /** An accepted session stays so at any step that neither ends it nor disables its user. */
  lemma StaysAccepted(actions: seq<Action>, a: Action, cfg: Settings, id: SessionId, now: Time)
    requires cfg.Valid() && Accepts(Run(actions, cfg).db, id, now)
    requires !Ends(Run(actions, cfg), a, cfg, id) && a != SetProfile(Run(actions, cfg).db.sessions[id].user, true)
    ensures Accepts(Run(actions + [a], cfg).db, id, now)
  {
    hide Run, NewestFirst, Of, Surplus;
    RunThen(actions, a, cfg);
    InvOverRuns(actions, cfg);
    var sys := Run(actions, cfg);
    assert id in sys.used && SessionSound(sys.db, sys.db.sessions[id], cfg);
    if a.TouchCommit? && a.caller in sys.ops { assert OpSound(sys, sys.ops[a.caller]); }
  }

  // ---------------------------------------------------------------- credentials

  /** Of the user's sessions all are revoked, and of the others none has changed. */
  ghost predicate RevokedFor(db: Db, db': Db, user: UserId) {
    && db'.profiles == db.profiles && db'.sessions.Keys == db.sessions.Keys
    && (forall u :: u != user ==> (u in db'.credentials <==> u in db.credentials))
    && (forall u :: u != user && u in db.credentials ==> db'.credentials[u] == db.credentials[u])
    && forall id :: id in db.sessions ==>
         if db.sessions[id].user == user then db'.sessions[id].revokedAt.Some? else db'.sessions[id] == db.sessions[id]
  }

  /** An enrolment succeeds if and only if the profile exists and is enabled, nobody else has the login,
      and there is a credential already just when it is a reset; it installs the login and the hash, and a
      reset revokes all of the user's sessions. */
  lemma EnrolIff(actions: seq<Action>, a: Action, cfg: Settings)
    requires cfg.Valid() && a.EnrollCommit?
    ensures var db, db' := Run(actions, cfg).db, Run(actions + [a], cfg).db;
      if a.user in db.profiles && !db.profiles[a.user] && (a.user in db.credentials <==> a.reset)
         && forall u :: u in db.credentials && db.credentials[u].login == a.login ==> u == a.user
      then
        && a.user in db'.credentials
        && db'.credentials[a.user].login == a.login && db'.credentials[a.user].passwordHash == a.encoded
        && (if a.reset then RevokedFor(db, db', a.user)
                            && db'.credentials[a.user].version == db.credentials[a.user].version + 1
            else db' == db.(credentials := db'.credentials) && db'.credentials - {a.user} == db.credentials
                 && db'.credentials[a.user].version == 1)
      else db' == db
  {
    hide Run;
    RunThen(actions, a, cfg);
  }

  /** A password change under way commits if and only if the user is enabled, the credential has not been
      replaced since, its hash matches the password given, and the session used is neither revoked nor
      expired.  It then installs the new hash under the same login and revokes all of the user's sessions. */
  lemma ChangeIff(actions: seq<Action>, a: Action, cfg: Settings)
    requires cfg.Valid() && a.ChangeCommit?
    requires a.caller in Run(actions, cfg).ops && Run(actions, cfg).ops[a.caller].Changing?
    ensures var sys, db' := Run(actions, cfg), Run(actions + [a], cfg).db;
      var db, op := sys.db, sys.ops[a.caller];
      && op.user in db.credentials
      && var credential := db.credentials[op.user];
         if op.user in db.profiles && !db.profiles[op.user] && credential.version == op.rotation.version
            && cfg.matches(credential.passwordHash, op.current)
            && op.session in db.sessions && db.sessions[op.session].revokedAt == None
            && a.now < db.sessions[op.session].lastSeenAt + cfg.idleSeconds
            && a.now < db.sessions[op.session].absoluteExpiresAt
         then
           && RevokedFor(db, db', op.user) && op.user in db'.credentials
           && db'.credentials[op.user] == Credential(credential.login, a.replacement, credential.version + 1)
         else db' == db
  {
    hide Run;
    RunThen(actions, a, cfg);
    InvOverRuns(actions, cfg);
    OwnedOverRuns(actions, cfg);
    var sys := Run(actions, cfg);
    var op := sys.ops[a.caller];
    assert OpSound(sys, op) && OwnedBy(sys, op.user, op.session);
    if op.session in sys.db.sessions { assert SessionSound(sys.db, sys.db.sessions[op.session], cfg); }
  }

  /** A change read and committed with nothing in between is of the credential as it is. */
  lemma ChangeRemembers(sys: System, c: Caller, user: UserId, id: SessionId, current: string, cfg: Settings)
    ensures var sys' := Next(sys, ChangeRead(c, user, id, current), cfg);
      if (user, id) in sys.principals && user in sys.db.credentials then
        && sys' == sys.(ops := sys'.ops) && c in sys'.ops && sys'.ops[c].Changing?
        && sys'.ops[c].user == user && sys'.ops[c].session == id && sys'.ops[c].current == current
        && sys'.ops[c].rotation.version == sys.db.credentials[user].version
      else sys' == sys
  {}

  /** Signing out revokes the named session if it is the caller's own, and touches nothing else. */
  lemma SignOutOnlyOwn(sys: System, id: SessionId, user: UserId, now: Time, cfg: Settings)
    ensures var db, db' := sys.db, Next(sys, LogoutCommit(id, user, now), cfg).db;
      if id in db.sessions && db.sessions[id].user == user then
        && db'.sessions.Keys == db.sessions.Keys && db'.sessions[id].revokedAt.Some?
        && (forall other :: other in db.sessions && other != id ==> db'.sessions[other] == db.sessions[other])
        && db'.profiles == db.profiles && db'.credentials == db.credentials
      else db' == db
  {}
}

/** What every interleaving of native authentication guarantees. */
module AuthGuarantees {
  import opened Options
  import opened AuthModel
  import opened AuthProtocol

  // ---------------------------------------------------------------- credentials

  /** After any run, a step adds a session only for a caller whose password matches the hash
      that is current at that very step, for an enabled user, at the current version.  And such
      a caller, with an unchanged credential and a fresh id, does get one. */
  lemma TokenMeansCurrentPassword(actions: seq<Action>, a: Action, cfg: Settings)
    requires cfg.Valid()
    ensures var sys := Run(actions, cfg);
      var sys' := Next(sys, a, cfg);
      && (forall id :: id in sys'.db.sessions && id !in sys.db.sessions ==>
            && Issues(sys, a, cfg) && id == a.id
            && var op, s := sys.ops[a.caller], sys'.db.sessions[id];
               && s.user in sys.db.credentials && sys.db.Enabled(s.user)
               && op.ticket.user == Some(s.user)
               && cfg.matches(sys.db.credentials[s.user].passwordHash, op.password)
               && s.credentialVersion == sys.db.credentials[s.user].version)
      && (a.LoginCommit? && a.caller in sys.ops && sys.ops[a.caller].SigningIn? && a.id !in sys.used ==>
            var op := sys.ops[a.caller];
            op.ticket.user.Some? && op.ticket.user.value in sys.db.credentials ==>
              var user := op.ticket.user.value;
              NewestFirst(Unexpired(sys.db.sessions, a.now), user, a.order) ==>
                (a.id in sys'.db.sessions <==>
                   && op.ticket.version == sys.db.credentials[user].version && sys.db.Enabled(user)
                   && cfg.matches(sys.db.credentials[user].passwordHash, op.password)))
  {
    hide Run;
    InvOverRuns(actions, cfg);
    var sys := Run(actions, cfg);
    if a.LoginCommit? && a.caller in sys.ops { assert OpSound(sys, sys.ops[a.caller]); }
  }

  lemma OpIsSound(sys: System, c: Caller, cfg: Settings)
    requires Inv(sys, cfg) && c in sys.ops
    ensures OpSound(sys, sys.ops[c])
  {}

  // ---------------------------------------------------------------- dead sessions

  /** A session that was issued once and can never be accepted again. */
  ghost predicate Dead(sys: System, id: SessionId) {
    && id in sys.used
    && (id in sys.db.sessions ==>
          var s := sys.db.sessions[id];
          s.revokedAt.Some? ||
           (s.user in sys.db.credentials && s.credentialVersion < sys.db.credentials[s.user].version))
  }

  lemma DeadIsRejected(sys: System, id: SessionId, now: Time)
    requires Dead(sys, id)
    ensures !Accepts(sys.db, id, now)
  {}

  lemma DeadStaysDead(sys: System, a: Action, cfg: Settings, id: SessionId)
    requires Inv(sys, cfg) && Dead(sys, id)
    ensures Dead(Next(sys, a, cfg), id)
  {
    hide Inv;
  }

  lemma {:induction false} DeadForever(actions: seq<Action>, later: seq<Action>, cfg: Settings, id: SessionId)
    requires cfg.Valid() && Dead(Run(actions, cfg), id)
    ensures Dead(Run(actions + later, cfg), id)
  {
    hide Inv, Next;
    if later == [] {
      assert actions + later == actions;
    } else {
      var front := later[..|later| - 1];
      assert (actions + later)[..|actions + later| - 1] == actions + front;
      DeadForever(actions, front, cfg, id);
      InvOverRuns(actions + front, cfg);
      DeadStaysDead(Run(actions + front, cfg), later[|later| - 1], cfg, id);
    }
  }

  /** A step that ends sessions: a reset or password change ends all of the user's, a logout by
      the owner ends one, and a sign-in deletes expired and surplus rows. */
  ghost predicate Ends(sys: System, a: Action, cfg: Settings, id: SessionId) {
    && id in sys.db.sessions
    && var s := sys.db.sessions[id];
       || (Resets(sys, a) && s.user == a.user)
       || (Changes(sys, a, cfg) && s.user == sys.ops[a.caller].user)
       || (a.LogoutCommit? && a.id == id && s.user == a.user)
       || (Issues(sys, a, cfg) && (s.absoluteExpiresAt <= a.now || id in Surplus(a.order)))
  }

  lemma EndsMeansDead(sys: System, a: Action, cfg: Settings, id: SessionId)
    requires Inv(sys, cfg) && Ends(sys, a, cfg, id)
    ensures Dead(Next(sys, a, cfg), id)
  {
    assert id in sys.used;
    assert SessionSound(sys.db, sys.db.sessions[id], cfg);
  }

  /** Whatever is interleaved afterwards, a session that a reset, a password change, a logout or
      a sign-in's clean-up ended is never accepted again, at any clock reading. */
  lemma EndedNeverAccepted(actions: seq<Action>, a: Action, later: seq<Action>, cfg: Settings, id: SessionId, now: Time)
    requires cfg.Valid() && Ends(Run(actions, cfg), a, cfg, id)
    ensures !Accepts(Run(actions + [a] + later, cfg).db, id, now)
  {
    hide Inv, Next, Ends, Dead;
    InvOverRuns(actions, cfg);
    assert (actions + [a])[..|actions|] == actions;
    EndsMeansDead(Run(actions, cfg), a, cfg, id);
    DeadForever(actions + [a], later, cfg, id);
    DeadIsRejected(Run(actions + [a] + later, cfg), id, now);
  }

  // ---------------------------------------------------------------- lifetimes

  /** A row keeps its identity: only last-seen, idle expiry and revocation ever move, last-seen
      only forward, and a deleted row never comes back. */
  ghost predicate SameRow(before: System, after: System, id: SessionId) {
    && before.used <= after.used
    && (id in before.used && id !in before.db.sessions ==> id !in after.db.sessions)
    && (id in before.db.sessions && id in after.db.sessions ==>
          var s, t := before.db.sessions[id], after.db.sessions[id];
          && t.user == s.user && t.credentialVersion == s.credentialVersion
          && t.issuedAt == s.issuedAt && t.absoluteExpiresAt == s.absoluteExpiresAt
          && s.lastSeenAt <= t.lastSeenAt
          && (s.revokedAt.Some? ==> t.revokedAt.Some?))
  }

  lemma StepKeepsRow(sys: System, a: Action, cfg: Settings, id: SessionId)
    requires Inv(sys, cfg) && cfg.Valid()
    ensures SameRow(sys, Next(sys, a, cfg), id)
  {
    hide SessionSound, Of, Surplus, NewestFirst;
    if id in sys.db.sessions { assert id in sys.used; }
    if a.TouchCommit? && a.caller in sys.ops { assert OpSound(sys, sys.ops[a.caller]); }
  }

  lemma {:induction false} RowsKeepIdentity(actions: seq<Action>, later: seq<Action>, cfg: Settings, id: SessionId)
    requires cfg.Valid() && id in Run(actions, cfg).used
    ensures SameRow(Run(actions, cfg), Run(actions + later, cfg), id)
  {
    hide Inv, Next;
    if later == [] {
      assert actions + later == actions;
    } else {
      var front := later[..|later| - 1];
      assert (actions + later)[..|actions + later| - 1] == actions + front;
      RowsKeepIdentity(actions, front, cfg, id);
      InvOverRuns(actions + front, cfg);
      StepKeepsRow(Run(actions + front, cfg), later[|later| - 1], cfg, id);
    }
  }

  /** No sequence of touches carries a session past the absolute expiry it was issued with. */
  lemma AbsoluteExpiryIsFinal(actions: seq<Action>, later: seq<Action>, cfg: Settings, id: SessionId, now: Time)
    requires cfg.Valid() && id in Run(actions, cfg).db.sessions
    requires Run(actions, cfg).db.sessions[id].absoluteExpiresAt <= now
    ensures !Accepts(Run(actions + later, cfg).db, id, now)
  {
    hide Inv, Next, Run;
    InvOverRuns(actions, cfg);
    assert id in Run(actions, cfg).used by { SessionsAreUsed(Run(actions, cfg), cfg, id); }
    RowsKeepIdentity(actions, later, cfg, id);
  }

  lemma SessionsAreUsed(sys: System, cfg: Settings, id: SessionId)
    requires Inv(sys, cfg) && id in sys.db.sessions
    ensures id in sys.used
  {}

  // ---------------------------------------------------------------- password changes

  /** The session, while there is one, belongs to the user. */
  ghost predicate OwnedBy(sys: System, user: UserId, id: SessionId) {
    id in sys.used && (id in sys.db.sessions ==> sys.db.sessions[id].user == user)
  }

  /** Every principal, and every password change under way, names a user and a session of theirs. */
  ghost predicate Owned(sys: System) {
    && (forall user, id :: (user, id) in sys.principals ==> OwnedBy(sys, user, id))
    && (forall c :: c in sys.ops && sys.ops[c].Changing? ==> OwnedBy(sys, sys.ops[c].user, sys.ops[c].session))
  }

  lemma OwnedStays(sys: System, a: Action, cfg: Settings, user: UserId, id: SessionId)
    requires Inv(sys, cfg) && cfg.Valid() && OwnedBy(sys, user, id)
    ensures OwnedBy(Next(sys, a, cfg), user, id)
  {
    hide Inv, Next;
    StepKeepsRow(sys, a, cfg, id);
  }

  lemma NewPrincipal(sys: System, a: Action, cfg: Settings, user: UserId, id: SessionId)
    requires Inv(sys, cfg) && (user, id) in Next(sys, a, cfg).principals && (user, id) !in sys.principals
    ensures OwnedBy(sys, user, id)
  {}

  lemma NewChange(sys: System, a: Action, cfg: Settings, c: Caller)
    requires c in Next(sys, a, cfg).ops && Next(sys, a, cfg).ops[c].Changing?
    ensures var op := Next(sys, a, cfg).ops[c];
      (c in sys.ops && sys.ops[c] == op) || (op.user, op.session) in sys.principals
  {}

  lemma StepKeepsOwned(sys: System, a: Action, cfg: Settings)
    requires Inv(sys, cfg) && cfg.Valid() && Owned(sys)
    ensures Owned(Next(sys, a, cfg))
  {
    hide Inv, Next, OwnedBy;
    var sys' := Next(sys, a, cfg);
    forall user, id | (user, id) in sys'.principals ensures OwnedBy(sys', user, id) {
      if (user, id) !in sys.principals { NewPrincipal(sys, a, cfg, user, id); }
      OwnedStays(sys, a, cfg, user, id);
    }
    forall c | c in sys'.ops && sys'.ops[c].Changing? ensures OwnedBy(sys', sys'.ops[c].user, sys'.ops[c].session) {
      NewChange(sys, a, cfg, c);
      OwnedStays(sys, a, cfg, sys'.ops[c].user, sys'.ops[c].session);
    }
  }

  lemma {:induction false} OwnedOverRuns(actions: seq<Action>, cfg: Settings)
    requires cfg.Valid()
    ensures Owned(Run(actions, cfg))
  {
    hide Inv, Next;
    if actions != [] {
      var front := actions[..|actions| - 1];
      InvOverRuns(front, cfg);
      OwnedOverRuns(front, cfg);
      StepKeepsOwned(Run(front, cfg), actions[|actions| - 1], cfg);
    }
  }

  /** After any run, an enrolled user's credential changes only by a reset, or by a caller whose
      current password matches the hash being replaced and who presents an unrevoked, unexpired
      session of that user's own, of the current version. */
  lemma HashChangesOnlyWithCurrentPassword(actions: seq<Action>, a: Action, cfg: Settings, user: UserId)
    requires cfg.Valid()
    ensures var sys := Run(actions, cfg);
      var sys' := Next(sys, a, cfg);
      user in sys.db.credentials ==>
        && user in sys'.db.credentials
        && sys.db.credentials[user].version <= sys'.db.credentials[user].version
        && (sys.db.credentials[user] != sys'.db.credentials[user] ==>
              && sys'.db.credentials[user].version == sys.db.credentials[user].version + 1
              && ((Resets(sys, a) && a.user == user)
                  || (Changes(sys, a, cfg)
                      && var op := sys.ops[a.caller];
                         && op.user == user
                         && cfg.matches(sys.db.credentials[user].passwordHash, op.current)
                         && op.session in sys.db.sessions
                         && var s := sys.db.sessions[op.session];
                            && s.user == user && s.revokedAt.None?
                            && s.credentialVersion == sys.db.credentials[user].version
                            && a.now < s.idleExpiresAt && a.now < s.absoluteExpiresAt)))
  {
    hide Run, Inv;
    InvOverRuns(actions, cfg);
    var sys := Run(actions, cfg);
    OwnedOverRuns(actions, cfg);
    if a.ChangeCommit? && a.caller in sys.ops { OpIsSound(sys, a.caller, cfg); }
  }
}

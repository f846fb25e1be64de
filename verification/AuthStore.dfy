/** The authentication tables as updated in place by each transaction, proved to have exactly
    the effect AuthModel gives them. */
module AuthStore {
  import opened Options
  import opened AuthModel

  class Store {
    var profiles: map<UserId, bool>
    var credentials: map<UserId, Credential>
    var sessions: map<SessionId, Session>

    function Tables(): Db
      reads this
    {
      Db(profiles, credentials, sessions)
    }

    constructor ()
      ensures Tables() == Db(map[], map[], map[])
    {
      profiles, credentials, sessions := map[], map[], map[];
    }

    method RevokeSessions(user: UserId, now: Time)
      modifies this`sessions
      ensures sessions == RevokeAll(old(sessions), user, now)
      ensures sessions.Keys == old(sessions.Keys)
      ensures forall s :: s in sessions && sessions[s].user == user ==> sessions[s].revokedAt.Some?
      ensures forall s | s in sessions ::
        old(sessions[s].user != user || sessions[s].revokedAt.Some?) ==> sessions[s] == old(sessions[s])
      ensures forall s | s in sessions :: sessions[s].(revokedAt := None) == old(sessions[s]).(revokedAt := None)
    {
      sessions := map s | s in sessions ::
        if sessions[s].user == user && sessions[s].revokedAt.None?
        then sessions[s].(revokedAt := Some(now)) else sessions[s];
    }

    /** Commits an enrolment or reset whose password is already hashed. */
    method CommitEnrollment(user: UserId, login: string, encoded: string, reset: bool, now: Time)
      returns (ok: bool)
      modifies this
      ensures ok == Enroll(old(Tables()), user, login, encoded, reset, now).Some?
      ensures Tables() == if ok then Enroll(old(Tables()), user, login, encoded, reset, now).value else old(Tables())
    {
      if user !in profiles || profiles[user] {
        return false;
      }
      if exists u :: u in credentials && u != user && credentials[u].login == login {
        return false;
      }
      if user in credentials && !reset {
        return false;
      }
      if user !in credentials && reset {
        return false;
      }
      if user !in credentials {
        credentials := credentials[user := Credential(login, encoded, 1)];
      } else {
        credentials := credentials[user := Credential(login, encoded, credentials[user].version + 1)];
        RevokeSessions(user, now);
      }
      ok := true;
    }

    /** The issuing transaction of `login`: checks, cleans up, keeps nine, inserts. */
    method CommitLogin(ticket: LoginTicket, password: string, id: SessionId, now: Time, issuedAt: Time, cfg: Settings)
      returns (issued: bool, ghost order: seq<SessionId>)
      requires id !in sessions
      modifies this`sessions
      ensures issued == MayIssue(old(Tables()), ticket, password, cfg)
      ensures issued ==>
        && NewestFirst(Unexpired(old(sessions), now), ticket.user.value, order)
        && Tables() == Issue(old(Tables()), ticket.user.value, ticket.version, id, now, issuedAt, order, cfg)
      ensures !issued ==> Tables() == old(Tables())
    {
      order := [];
      if !MayIssue(Tables(), ticket, password, cfg) {
        return false, order;
      }
      var user := ticket.user.value;
      sessions := Unexpired(sessions, now);
      var existing := SessionsNewestFirst(sessions, user);
      order := existing;
      ghost var unexpired := sessions;
      var i := SESSIONS_KEPT;
      while i < |existing|
        invariant SESSIONS_KEPT <= i
        invariant sessions == unexpired - (set j | SESSIONS_KEPT <= j < i && j < |existing| :: existing[j])
      {
        sessions := sessions - {existing[i]};
        i := i + 1;
      }
      assert Surplus(existing) == set j | SESSIONS_KEPT <= j < i && j < |existing| :: existing[j] by {
        SurplusByIndex(existing);
      }
      sessions := sessions[id := NewSession(user, ticket.version, now, issuedAt, cfg)];
      issued := true;
    }

    /** Accepts a live session and, when it is stale enough, touches it. */
    method Authenticate(id: SessionId, now: Time, cfg: Settings) returns (user: Option<UserId>)
      modifies this`sessions
      ensures user.Some? <==> Accepts(old(Tables()), id, now)
      ensures user.Some? ==> user.value == old(sessions[id].user)
      ensures Tables() == if user.Some? then Touch(old(Tables()), id, old(sessions[id]), now, cfg) else old(Tables())
    {
      if id !in sessions || sessions[id].user !in credentials || sessions[id].user !in profiles {
        return None;
      }
      var active := sessions[id];
      if active.revokedAt.Some? || active.idleExpiresAt <= now || active.absoluteExpiresAt <= now
         || credentials[active.user].version != active.credentialVersion || profiles[active.user] {
        return None;
      }
      if active.lastSeenAt <= now - cfg.touchSeconds {
        sessions := sessions[id := active.(
          lastSeenAt := now, idleExpiresAt := Earlier(now + cfg.idleSeconds, active.absoluteExpiresAt))];
      }
      user := Some(active.user);
    }

    method SignOut(id: SessionId, user: UserId, now: Time)
      modifies this`sessions
      ensures Tables() == Logout(old(Tables()), id, user, now)
      ensures sessions.Keys == old(sessions.Keys)
      ensures forall s :: s in sessions && (s != id || sessions[s].user != user) ==> sessions[s] == old(sessions[s])
      ensures id in sessions && sessions[id].user == user ==>
        sessions[id] == old(sessions[id]).(revokedAt := Some(now)) && !Accepts(Tables(), id, now)
    {
      if id in sessions && sessions[id].user == user {
        sessions := sessions[id := sessions[id].(revokedAt := Some(now))];
      }
    }

    /** Commits a password change whose current password was checked against `ticket`. */
    method CommitChange(user: UserId, id: SessionId, ticket: ChangeTicket, current: string, replacement: string,
                        now: Time, cfg: Settings)
      returns (ok: bool)
      modifies this
      ensures ok == Change(old(Tables()), user, id, ticket, current, replacement, now, cfg).Some?
      ensures Tables() == if ok then Change(old(Tables()), user, id, ticket, current, replacement, now, cfg).value
                          else old(Tables())
    {
      if !cfg.matches(ticket.encoded, current) {
        return false;
      }
      if user !in profiles || profiles[user] || user !in credentials || credentials[user].version != ticket.version
         || id !in sessions {
        return false;
      }
      var active := sessions[id];
      if active.revokedAt.Some? || active.credentialVersion != ticket.version
         || active.idleExpiresAt <= now || active.absoluteExpiresAt <= now {
        return false;
      }
      credentials := credentials[user :=
        Credential(credentials[user].login, replacement, credentials[user].version + 1)];
      RevokeSessions(user, now);
      ok := true;
    }
  }

  lemma SurplusByIndex(order: seq<SessionId>)
    ensures Surplus(order) == set j | SESSIONS_KEPT <= j < |order| :: order[j]
  {
    if |order| > SESSIONS_KEPT {
      forall s | s in order[SESSIONS_KEPT..] ensures s in (set j | SESSIONS_KEPT <= j < |order| :: order[j]) {
        var i :| 0 <= i < |order[SESSIONS_KEPT..]| && order[SESSIONS_KEPT..][i] == s;
        assert order[SESSIONS_KEPT + i] == s;
      }
    }
  }

  /** The query `ORDER BY issued_at DESC` over one user's rows. */
  method SessionsNewestFirst(sessions: map<SessionId, Session>, user: UserId) returns (order: seq<SessionId>)
    ensures NewestFirst(sessions, user, order)
  {
    order := [];
    var rest := Of(sessions, user);
    while rest != {}
      invariant rest <= Of(sessions, user)
      invariant forall i, j :: 0 <= i < j < |order| ==> order[i] != order[j]
      invariant forall s :: s in order <==> s in Of(sessions, user) - rest
      invariant forall i :: 0 <= i < |order| ==> order[i] in sessions
      invariant forall i, j :: 0 <= i < j < |order| ==> sessions[order[i]].issuedAt >= sessions[order[j]].issuedAt
      invariant forall i, s :: 0 <= i < |order| && s in rest ==> sessions[order[i]].issuedAt >= sessions[s].issuedAt
      decreases |rest|
    {
      var newest := Newest(sessions, rest);
      assert forall s :: s in order + [newest] <==> s in order || s == newest;
      order := order + [newest];
      rest := rest - {newest};
    }
  }

  method Newest(sessions: map<SessionId, Session>, ids: set<SessionId>) returns (newest: SessionId)
    requires ids != {} && ids <= sessions.Keys
    ensures newest in ids && forall s :: s in ids ==> sessions[s].issuedAt <= sessions[newest].issuedAt
  {
    newest :| newest in ids;
    var rest := ids - {newest};
    while rest != {}
      invariant newest in ids && rest <= ids
      invariant forall s :: s in ids - rest ==> sessions[s].issuedAt <= sessions[newest].issuedAt
      decreases |rest|
    {
      var s :| s in rest;
      if sessions[s].issuedAt > sessions[newest].issuedAt {
        newest := s;
      }
      rest := rest - {s};
    }
  }
}

/** The tables behind native authentication and the effect of each committed transaction.
    Passwords and hashes are uninterpreted; `matches` is the hasher's verdict. */
module AuthModel {
  import opened Options

  type UserId = nat
  type SessionId = nat
  type Time = int

  const SESSIONS_KEPT := 9

  datatype Credential = Credential(login: string, passwordHash: string, version: nat)

  datatype Session = Session(
    user: UserId, credentialVersion: nat, issuedAt: Time, lastSeenAt: Time,
    idleExpiresAt: Time, absoluteExpiresAt: Time, revokedAt: Option<Time>)

  /** Profiles map to whether they are disabled. */
  datatype Db = Db(
    profiles: map<UserId, bool>, credentials: map<UserId, Credential>, sessions: map<SessionId, Session>)
  {
    predicate Enabled(user: UserId) { user in profiles && !profiles[user] }

    ghost predicate UniqueLogins() {
      forall u, v :: u in credentials && v in credentials && credentials[u].login == credentials[v].login ==> u == v
    }
  }

  datatype Settings = Settings(
    idleSeconds: nat, absoluteSeconds: nat, touchSeconds: nat, dummyHash: string,
    matches: (string, string) -> bool)
  {
    predicate Valid() { idleSeconds <= absoluteSeconds && 0 < touchSeconds }
  }

  // ---------------------------------------------------------------- enrolment and reset

  function RevokeAll(sessions: map<SessionId, Session>, user: UserId, now: Time): map<SessionId, Session> {
    map s | s in sessions ::
      if sessions[s].user == user && sessions[s].revokedAt.None?
      then sessions[s].(revokedAt := Some(now)) else sessions[s]
  }

  function Rotate(db: Db, user: UserId, login: string, encoded: string, now: Time): Db
    requires user in db.credentials
  {
    db.(credentials := db.credentials[user := Credential(login, encoded, db.credentials[user].version + 1)],
        sessions := RevokeAll(db.sessions, user, now))
  }

  predicate LoginTaken(db: Db, user: UserId, login: string) {
    exists u :: u in db.credentials && u != user && db.credentials[u].login == login
  }

  /** The committed half of `enroll`; None is the error that leaves the tables alone. */
  function Enroll(db: Db, user: UserId, login: string, encoded: string, reset: bool, now: Time): Option<Db> {
    if !db.Enabled(user) || LoginTaken(db, user, login) || (user in db.credentials) != reset then None
    else if reset then Some(Rotate(db, user, login, encoded, now))
    else Some(db.(credentials := db.credentials[user := Credential(login, encoded, 1)]))
  }

  // ---------------------------------------------------------------- sign-in

  /** What `login` remembers from its first read. */
  datatype LoginTicket = LoginTicket(user: Option<UserId>, encoded: string, version: nat)

  function FindLogin(db: Db, login: string): (user: Option<UserId>)
    requires db.UniqueLogins()
    ensures user.Some? ==> user.value in db.credentials && db.credentials[user.value].login == login
    ensures user.None? ==> forall u :: u in db.credentials ==> db.credentials[u].login != login
  {
    if exists u :: u in db.credentials && db.credentials[u].login == login then
      var u :| u in db.credentials && db.credentials[u].login == login;
      Some(u)
    else None
  }

  function ReadLogin(db: Db, login: string, cfg: Settings): LoginTicket
    requires db.UniqueLogins()
  {
    match FindLogin(db, login)
    case None => LoginTicket(None, cfg.dummyHash, 0)
    case Some(user) => LoginTicket(Some(user), db.credentials[user].passwordHash, db.credentials[user].version)
  }

  /** Whether the second transaction of `login` issues a session. */
  predicate MayIssue(db: Db, ticket: LoginTicket, password: string, cfg: Settings) {
    && cfg.matches(ticket.encoded, password)
    && ticket.user.Some?
    && db.Enabled(ticket.user.value)
    && ticket.user.value in db.credentials
    && db.credentials[ticket.user.value].version == ticket.version
  }

  function Unexpired(sessions: map<SessionId, Session>, now: Time): map<SessionId, Session> {
    map s | s in sessions && sessions[s].absoluteExpiresAt > now :: sessions[s]
  }

  function Of(sessions: map<SessionId, Session>, user: UserId): set<SessionId> {
    set s | s in sessions && sessions[s].user == user
  }

  /** A user's sessions by descending issue time; ties come in any order. */
  ghost predicate NewestFirst(sessions: map<SessionId, Session>, user: UserId, order: seq<SessionId>) {
    && (forall i, j :: 0 <= i < j < |order| ==> order[i] != order[j])
    && (forall s :: s in order <==> s in Of(sessions, user))
    && (forall i :: 0 <= i < |order| ==> order[i] in sessions)
    && (forall i, j :: 0 <= i < j < |order| ==> sessions[order[i]].issuedAt >= sessions[order[j]].issuedAt)
  }

  function Surplus(order: seq<SessionId>): set<SessionId> {
    if |order| <= SESSIONS_KEPT then {} else set s | s in order[SESSIONS_KEPT..]
  }

  function NewSession(user: UserId, version: nat, now: Time, issuedAt: Time, cfg: Settings): Session {
    Session(user, version, issuedAt, now, now + cfg.idleSeconds, now + cfg.absoluteSeconds, None)
  }

  /** Drops expired rows, drops the user's rows beyond the nine newest, adds the new one. */
  function Issue(db: Db, user: UserId, version: nat, id: SessionId, now: Time, issuedAt: Time,
                 order: seq<SessionId>, cfg: Settings): Db
  {
    db.(sessions := (Unexpired(db.sessions, now) - Surplus(order))[id := NewSession(user, version, now, issuedAt, cfg)])
  }

  // ---------------------------------------------------------------- bearer sessions

  /** Whether `authenticate` returns a principal for a session row at `now`. */
  predicate Accepts(db: Db, id: SessionId, now: Time) {
    && id in db.sessions
    && var s := db.sessions[id];
       && s.user in db.credentials && s.user in db.profiles
       && s.revokedAt.None? && now < s.idleExpiresAt && now < s.absoluteExpiresAt
       && db.credentials[s.user].version == s.credentialVersion
       && !db.profiles[s.user]
  }

  function Earlier(x: Time, y: Time): Time { if x <= y then x else y }

  /** The compare-and-set touch of `authenticate`, given the row it read as `seen`. */
  function Touch(db: Db, id: SessionId, seen: Session, now: Time, cfg: Settings): Db {
    if seen.lastSeenAt <= now - cfg.touchSeconds
       && id in db.sessions && db.sessions[id].lastSeenAt == seen.lastSeenAt
       && db.sessions[id].revokedAt.None? && db.sessions[id].idleExpiresAt > now
    then
      db.(sessions := db.sessions[id := db.sessions[id].(
        lastSeenAt := now, idleExpiresAt := Earlier(now + cfg.idleSeconds, seen.absoluteExpiresAt))])
    else db
  }

  function Logout(db: Db, id: SessionId, user: UserId, now: Time): Db {
    if id in db.sessions && db.sessions[id].user == user
    then db.(sessions := db.sessions[id := db.sessions[id].(revokedAt := Some(now))])
    else db
  }

  // ---------------------------------------------------------------- password change

  /** What `change_password` remembers from its first read. */
  datatype ChangeTicket = ChangeTicket(login: string, encoded: string, version: nat)

  function ReadChange(db: Db, user: UserId): Option<ChangeTicket> {
    if user in db.credentials
    then Some(ChangeTicket(db.credentials[user].login, db.credentials[user].passwordHash, db.credentials[user].version))
    else None
  }

  predicate MayChange(db: Db, user: UserId, id: SessionId, ticket: ChangeTicket,
                     current: string, now: Time, cfg: Settings) {
    && cfg.matches(ticket.encoded, current)
    && db.Enabled(user)
    && user in db.credentials && db.credentials[user].version == ticket.version
    && id in db.sessions
    && var s := db.sessions[id];
       s.revokedAt.None? && s.credentialVersion == ticket.version && now < s.idleExpiresAt && now < s.absoluteExpiresAt
  }

  /** The committed half of `change_password`; None is the error that leaves the tables alone. */
  function Change(db: Db, user: UserId, id: SessionId, ticket: ChangeTicket, current: string,
                  replacement: string, now: Time, cfg: Settings): Option<Db>
  {
    if MayChange(db, user, id, ticket, current, now, cfg)
    then Some(Rotate(db, user, db.credentials[user].login, replacement, now))
    else None
  }
}

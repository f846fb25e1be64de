/** Native authentication as a protocol: any number of callers, each between its first read
    and its commit, interleaved with resets, logouts and profile changes. */
module AuthProtocol {
  import opened Counting
  import opened Options
  import opened AuthModel

  type Caller = nat

  /** A caller's local state between two transactions. */
  datatype Op =
    | SigningIn(password: string, ticket: LoginTicket)
    | Changing(user: UserId, session: SessionId, current: string, rotation: ChangeTicket)
    | Touching(session: SessionId, seen: Session, now: Time)

  /** `used` holds every session id ever issued: ids are never reused.  `principals` are the users
      and sessions that an accepted authentication has vouched for. */
  datatype System = System(
    db: Db, ops: map<Caller, Op>, used: set<SessionId>, principals: set<(UserId, SessionId)>)

  datatype Action =
    | SetProfile(user: UserId, disabled: bool)
    | EnrollCommit(user: UserId, login: string, encoded: string, reset: bool, now: Time)
    | LoginRead(caller: Caller, login: string, password: string)
    | LoginCommit(caller: Caller, id: SessionId, now: Time, issuedAt: Time, order: seq<SessionId>)
    | AuthenticateRead(caller: Caller, id: SessionId, now: Time)
    | TouchCommit(caller: Caller)
    | LogoutCommit(id: SessionId, user: UserId, now: Time)
    | ChangeRead(caller: Caller, user: UserId, id: SessionId, current: string)
    | ChangeCommit(caller: Caller, replacement: string, now: Time)
    | GiveUp(caller: Caller)

  /** A caller in `SigningIn` commits under a fresh id, with its rows in newest-first order. */
  ghost predicate Issues(sys: System, a: Action, cfg: Settings) {
    && a.LoginCommit?
    && a.caller in sys.ops && sys.ops[a.caller].SigningIn?
    && var op := sys.ops[a.caller];
       && MayIssue(sys.db, op.ticket, op.password, cfg)
       && a.id !in sys.used
       && NewestFirst(Unexpired(sys.db.sessions, a.now), op.ticket.user.value, a.order)
  }

  ghost predicate Changes(sys: System, a: Action, cfg: Settings) {
    && a.ChangeCommit?
    && a.caller in sys.ops && sys.ops[a.caller].Changing?
    && var op := sys.ops[a.caller];
       MayChange(sys.db, op.user, op.session, op.rotation, op.current, a.now, cfg)
  }

  ghost predicate Resets(sys: System, a: Action) {
    && a.EnrollCommit? && a.reset
    && Enroll(sys.db, a.user, a.login, a.encoded, true, a.now).Some?
  }

  /** One step; an action whose guard fails only ends the caller's operation. */
  ghost function Next(sys: System, a: Action, cfg: Settings): System {
    match a
    case SetProfile(user, disabled) =>
      sys.(db := sys.db.(profiles := sys.db.profiles[user := disabled]))
    case EnrollCommit(user, login, encoded, reset, now) =>
      (match Enroll(sys.db, user, login, encoded, reset, now)
       case None => sys
       case Some(db) => sys.(db := db))
    case LoginRead(caller, login, password) =>
      if sys.db.UniqueLogins()
      then sys.(ops := sys.ops[caller := SigningIn(password, ReadLogin(sys.db, login, cfg))]) else sys
    case LoginCommit(caller, id, now, issuedAt, order) =>
      if Issues(sys, a, cfg) then
        var ticket := sys.ops[caller].ticket;
        sys.(db := Issue(sys.db, ticket.user.value, ticket.version, id, now, issuedAt, order, cfg),
             ops := sys.ops - {caller}, used := sys.used + {id})
      else sys.(ops := sys.ops - {caller})
    case AuthenticateRead(caller, id, now) =>
      if Accepts(sys.db, id, now)
      then sys.(ops := sys.ops[caller := Touching(id, sys.db.sessions[id], now)],
                principals := sys.principals + {(sys.db.sessions[id].user, id)})
      else sys
    case TouchCommit(caller) =>
      if caller in sys.ops && sys.ops[caller].Touching? then
        var op := sys.ops[caller];
        sys.(db := Touch(sys.db, op.session, op.seen, op.now, cfg), ops := sys.ops - {caller})
      else sys
    case LogoutCommit(id, user, now) => sys.(db := Logout(sys.db, id, user, now))
    case ChangeRead(caller, user, id, current) =>
      if (user, id) !in sys.principals then sys
      else (match ReadChange(sys.db, user)
       case None => sys
       case Some(ticket) => sys.(ops := sys.ops[caller := Changing(user, id, current, ticket)]))
    case ChangeCommit(caller, replacement, now) =>
      if Changes(sys, a, cfg) then
        var op := sys.ops[caller];
        sys.(db := Rotate(sys.db, op.user, sys.db.credentials[op.user].login, replacement, now),
             ops := sys.ops - {caller})
      else sys.(ops := sys.ops - {caller})
    case GiveUp(caller) => sys.(ops := sys.ops - {caller})
  }

  /** The system after a run of actions from empty tables. */
  ghost function Run(actions: seq<Action>, cfg: Settings): System {
    if actions == [] then System(Db(map[], map[], map[]), map[], {}, {})
    else Next(Run(actions[..|actions| - 1], cfg), actions[|actions| - 1], cfg)
  }

  // ---------------------------------------------------------------- invariant

  /** A remembered version is never ahead of the table, and while it is current so is the hash. */
  ghost predicate Remembers(db: Db, user: UserId, encoded: string, version: nat) {
    && user in db.credentials
    && version <= db.credentials[user].version
    && (version == db.credentials[user].version ==> encoded == db.credentials[user].passwordHash)
  }

  ghost predicate OpSound(sys: System, op: Op) {
    match op
    case SigningIn(_, ticket) =>
      ticket.user.Some? ==> Remembers(sys.db, ticket.user.value, ticket.encoded, ticket.version)
    case Changing(user, _, _, ticket) => Remembers(sys.db, user, ticket.encoded, ticket.version)
    case Touching(id, seen, _) =>
      && id in sys.used
      && (id in sys.db.sessions ==>
            seen.absoluteExpiresAt == sys.db.sessions[id].absoluteExpiresAt
            && seen.lastSeenAt <= sys.db.sessions[id].lastSeenAt)
  }

  ghost predicate SessionSound(db: Db, s: Session, cfg: Settings) {
    && s.user in db.credentials
    && s.credentialVersion <= db.credentials[s.user].version
    && (s.revokedAt.None? ==> s.credentialVersion == db.credentials[s.user].version)
    && s.idleExpiresAt == Earlier(s.lastSeenAt + cfg.idleSeconds, s.absoluteExpiresAt)
  }

  ghost predicate Inv(sys: System, cfg: Settings) {
    && sys.db.UniqueLogins()
    && sys.db.sessions.Keys <= sys.used
    && (forall id :: id in sys.db.sessions ==> SessionSound(sys.db, sys.db.sessions[id], cfg))
    && (forall user :: |Of(sys.db.sessions, user)| <= SESSIONS_KEPT + 1)
    && (forall c :: c in sys.ops ==> OpSound(sys, sys.ops[c]))
  }

  // ---------------------------------------------------------------- what issuing keeps

  function Ids(order: seq<SessionId>): set<SessionId> { set s | s in order }

  lemma {:induction false} DistinctCount(order: seq<SessionId>)
    requires forall i, j :: 0 <= i < j < |order| ==> order[i] != order[j]
    ensures |Ids(order)| == |order|
  {
    if order != [] {
      var front, last := order[..|order| - 1], order[|order| - 1];
      DistinctCount(front);
      assert order == front + [last];
      assert last !in front;
      assert Ids(order) == Ids(front) + {last};
    }
  }

  /** The nine newest rows, or all of them when there are fewer. */
  function Kept(order: seq<SessionId>): seq<SessionId> {
    if |order| <= SESSIONS_KEPT then order else order[..SESSIONS_KEPT]
  }

  lemma KeptOrSurplus(order: seq<SessionId>)
    requires forall i, j :: 0 <= i < j < |order| ==> order[i] != order[j]
    ensures forall s :: s in order <==> s in Kept(order) || s in Surplus(order)
    ensures forall s :: s in Kept(order) ==> s !in Surplus(order)
    ensures |Ids(Kept(order))| == |Kept(order)|
  {
    if |order| > SESSIONS_KEPT {
      assert order == order[..SESSIONS_KEPT] + order[SESSIONS_KEPT..];
    }
    DistinctCount(Kept(order));
  }

  /** Dropped rows are never newer than kept ones. */
  lemma DroppedAreOlder(sessions: map<SessionId, Session>, user: UserId, order: seq<SessionId>,
                      s: SessionId, t: SessionId)
    requires NewestFirst(sessions, user, order) && s in Surplus(order) && t in Kept(order)
    ensures s in sessions && t in sessions && sessions[s].issuedAt <= sessions[t].issuedAt
  {
    var j :| SESSIONS_KEPT <= j < |order| && order[j] == s;
    var i :| 0 <= i < SESSIONS_KEPT && order[i] == t;
  }

  /** Of a user's unexpired sessions exactly the nine newest survive a sign-in, beside the new
      one; every other user's unexpired sessions survive, and no surviving row changes. */
  lemma IssueKeepsNewest(db: Db, user: UserId, version: nat, id: SessionId, now: Time, issuedAt: Time,
                         order: seq<SessionId>, cfg: Settings)
    requires id !in db.sessions && NewestFirst(Unexpired(db.sessions, now), user, order)
    ensures var before := Unexpired(db.sessions, now);
      var after := Issue(db, user, version, id, now, issuedAt, order, cfg).sessions;
      && Of(after, user) == Ids(Kept(order)) + {id}
      && |Of(after, user)| == |Kept(order)| + 1
      && (forall s, t :: s in Of(before, user) && s !in after && t in Kept(order) ==>
            t in before && before[s].issuedAt <= before[t].issuedAt)
      && (forall s :: s in after && s != id ==> s in before && after[s] == before[s])
      && (forall s :: s in before && before[s].user != user ==> s in after)
  {
    hide Kept, Surplus, NewSession;
    var before := Unexpired(db.sessions, now);
    var after := Issue(db, user, version, id, now, issuedAt, order, cfg).sessions;
    KeptOrSurplus(order);
    assert NewSession(user, version, now, issuedAt, cfg).user == user
      by { OwnerOfNew(user, version, now, issuedAt, cfg); }
    assert Of(after, user) == Ids(Kept(order)) + {id};
    assert id !in Kept(order);
    forall s, t | s in Of(before, user) && s !in after && t in Kept(order)
      ensures t in before && before[s].issuedAt <= before[t].issuedAt
    {
      assert s in order;
      DroppedAreOlder(before, user, order, s, t);
    }
  }

  lemma OwnerOfNew(user: UserId, version: nat, now: Time, issuedAt: Time, cfg: Settings)
    ensures NewSession(user, version, now, issuedAt, cfg).user == user
  {}

  // ---------------------------------------------------------------- preservation

  lemma SameOwners(before: map<SessionId, Session>, after: map<SessionId, Session>)
    requires after.Keys <= before.Keys
    requires forall s :: s in after ==> after[s].user == before[s].user
    ensures forall user :: |Of(after, user)| <= |Of(before, user)|
  {
    forall user ensures |Of(after, user)| <= |Of(before, user)| {
      SubsetCount(Of(after, user), Of(before, user));
    }
  }

  ghost predicate AllSound(db: Db, cfg: Settings) {
    forall id :: id in db.sessions ==> SessionSound(db, db.sessions[id], cfg)
  }

  lemma RotateKeepsSound(db: Db, user: UserId, login: string, encoded: string, now: Time, cfg: Settings)
    requires AllSound(db, cfg) && user in db.credentials
    ensures AllSound(Rotate(db, user, login, encoded, now), cfg)
  {
    var db' := Rotate(db, user, login, encoded, now);
    forall id | id in db'.sessions ensures SessionSound(db', db'.sessions[id], cfg) {
      assert SessionSound(db, db.sessions[id], cfg);
    }
  }

  lemma RotateKeepsInv(sys: System, user: UserId, login: string, encoded: string, now: Time, cfg: Settings)
    requires Inv(sys, cfg) && user in sys.db.credentials && !LoginTaken(sys.db, user, login)
    ensures Inv(sys.(db := Rotate(sys.db, user, login, encoded, now)), cfg)
  {
    hide SessionSound, Of;
    var db' := Rotate(sys.db, user, login, encoded, now);
    SameOwners(sys.db.sessions, db'.sessions);
    RotateKeepsSound(sys.db, user, login, encoded, now, cfg);
    forall c | c in sys.ops ensures OpSound(sys.(db := db'), sys.ops[c]) {
      assert OpSound(sys, sys.ops[c]);
    }
  }

  lemma IssueKeepsInv(sys: System, a: Action, cfg: Settings)
    requires Inv(sys, cfg) && Issues(sys, a, cfg) && cfg.Valid()
    ensures Inv(Next(sys, a, cfg), cfg)
  {
    hide SessionSound, OpSound, Of, MayIssue, NewestFirst, Surplus;
    IssueKeepsSound(sys, a, cfg);
    IssueKeepsCounts(sys, a, cfg);
    IssueKeepsOps(sys, a, cfg);
  }

  lemma IssueKeepsSound(sys: System, a: Action, cfg: Settings)
    requires Inv(sys, cfg) && Issues(sys, a, cfg) && cfg.Valid()
    ensures var sys' := Next(sys, a, cfg);
      forall id :: id in sys'.db.sessions ==> SessionSound(sys'.db, sys'.db.sessions[id], cfg)
  {
    hide OpSound, Of, NewestFirst, Surplus;
    var sys' := Next(sys, a, cfg);
    forall id | id in sys'.db.sessions ensures SessionSound(sys'.db, sys'.db.sessions[id], cfg) {
      if id != a.id { assert SessionSound(sys.db, sys.db.sessions[id], cfg); }
    }
  }

  lemma IssueKeepsCounts(sys: System, a: Action, cfg: Settings)
    requires Inv(sys, cfg) && Issues(sys, a, cfg)
    ensures forall user :: |Of(Next(sys, a, cfg).db.sessions, user)| <= SESSIONS_KEPT + 1
  {
    hide OpSound, SessionSound, NewestFirst, Surplus;
    var sys' := Next(sys, a, cfg);
    var ticket := sys.ops[a.caller].ticket;
    IssueKeepsNewest(sys.db, ticket.user.value, ticket.version, a.id, a.now, a.issuedAt, a.order, cfg);
    forall u ensures |Of(sys'.db.sessions, u)| <= SESSIONS_KEPT + 1 {
      if u != ticket.user.value {
        SubsetCount(Of(sys'.db.sessions, u), Of(sys.db.sessions, u));
        assert |Of(sys.db.sessions, u)| <= SESSIONS_KEPT + 1;
      }
    }
  }

  lemma IssueKeepsOps(sys: System, a: Action, cfg: Settings)
    requires Inv(sys, cfg) && Issues(sys, a, cfg)
    ensures var sys' := Next(sys, a, cfg); forall c :: c in sys'.ops ==> OpSound(sys', sys'.ops[c])
  {
    hide SessionSound, NewestFirst, Surplus, MayIssue, Of;
    var sys' := Next(sys, a, cfg);
    forall c | c in sys'.ops ensures OpSound(sys', sys'.ops[c]) {
      assert OpSound(sys, sys.ops[c]);
    }
  }

  lemma TouchKeepsInv(sys: System, a: Action, cfg: Settings)
    requires Inv(sys, cfg) && a.TouchCommit? && cfg.Valid()
    ensures Inv(Next(sys, a, cfg), cfg)
  {
    hide SessionSound, OpSound, Of, Touch;
    if a.caller in sys.ops && sys.ops[a.caller].Touching? {
      var op, sys' := sys.ops[a.caller], Next(sys, a, cfg);
      assert OpSound(sys, op);
      SeenExpiry(sys, op);
      TouchedRows(sys.db, op.session, op.seen, op.now, cfg);
      SameOwners(sys.db.sessions, sys'.db.sessions);
      forall c | c in sys'.ops ensures OpSound(sys', sys'.ops[c]) {
        assert OpSound(sys, sys.ops[c]);
        TouchKeepsOp(sys, sys', op, sys.ops[c], cfg);
      }
    }
  }

  /** A touch moves one row's last-seen forward and keeps every row sound. */
  lemma TouchedRows(db: Db, id: SessionId, seen: Session, now: Time, cfg: Settings)
    requires AllSound(db, cfg) && cfg.Valid()
    requires id in db.sessions ==> seen.absoluteExpiresAt == db.sessions[id].absoluteExpiresAt
    ensures var db' := Touch(db, id, seen, now, cfg);
      && db'.profiles == db.profiles && db'.credentials == db.credentials
      && db'.sessions.Keys == db.sessions.Keys
      && AllSound(db', cfg)
      && (forall s :: s in db'.sessions ==> db'.sessions[s].user == db.sessions[s].user)
      && (forall s :: s in db'.sessions ==>
            && db'.sessions[s].absoluteExpiresAt == db.sessions[s].absoluteExpiresAt
            && db.sessions[s].lastSeenAt <= db'.sessions[s].lastSeenAt)
  {
    var db' := Touch(db, id, seen, now, cfg);
    forall s | s in db'.sessions ensures SessionSound(db', db'.sessions[s], cfg) {
      assert SessionSound(db, db.sessions[s], cfg);
    }
  }

  lemma SeenExpiry(sys: System, op: Op)
    requires op.Touching? && OpSound(sys, op)
    ensures op.session in sys.db.sessions ==>
      op.seen.absoluteExpiresAt == sys.db.sessions[op.session].absoluteExpiresAt
  {}

  lemma TouchKeepsOp(sys: System, sys': System, op: Op, other: Op, cfg: Settings)
    requires op.Touching? && OpSound(sys, op) && OpSound(sys, other)
    requires sys'.used == sys.used && sys'.db.credentials == sys.db.credentials
    requires sys'.db.sessions.Keys == sys.db.sessions.Keys
    requires forall id :: id in sys.db.sessions ==>
      && sys'.db.sessions[id].absoluteExpiresAt == sys.db.sessions[id].absoluteExpiresAt
      && sys.db.sessions[id].lastSeenAt <= sys'.db.sessions[id].lastSeenAt
    ensures OpSound(sys', other)
  {}

  lemma EnrollKeepsInv(sys: System, a: Action, cfg: Settings)
    requires Inv(sys, cfg) && a.EnrollCommit?
    ensures Inv(Next(sys, a, cfg), cfg)
  {
    match Enroll(sys.db, a.user, a.login, a.encoded, a.reset, a.now)
    case None =>
    case Some(db') =>
      if a.reset {
        RotateKeepsInv(sys, a.user, a.login, a.encoded, a.now, cfg);
      } else {
        forall c | c in sys.ops ensures OpSound(sys.(db := db'), sys.ops[c]) {
          assert OpSound(sys, sys.ops[c]);
        }
      }
  }

  lemma ChangeKeepsInv(sys: System, a: Action, cfg: Settings)
    requires Inv(sys, cfg) && a.ChangeCommit?
    ensures Inv(Next(sys, a, cfg), cfg)
  {
    if Changes(sys, a, cfg) {
      var op := sys.ops[a.caller];
      RotateKeepsInv(sys, op.user, sys.db.credentials[op.user].login, a.replacement, a.now, cfg);
    }
  }

  lemma LogoutKeepsSound(db: Db, id: SessionId, user: UserId, now: Time, cfg: Settings)
    requires AllSound(db, cfg)
    ensures AllSound(Logout(db, id, user, now), cfg)
  {
    var db' := Logout(db, id, user, now);
    forall s | s in db'.sessions ensures SessionSound(db', db'.sessions[s], cfg) {
      assert SessionSound(db, db.sessions[s], cfg);
    }
  }

  lemma LogoutKeepsInv(sys: System, a: Action, cfg: Settings)
    requires Inv(sys, cfg) && a.LogoutCommit?
    ensures Inv(Next(sys, a, cfg), cfg)
  {
    hide Of, SessionSound;
    var sys' := Next(sys, a, cfg);
    SameOwners(sys.db.sessions, sys'.db.sessions);
    LogoutKeepsSound(sys.db, a.id, a.user, a.now, cfg);
    forall c | c in sys'.ops ensures OpSound(sys', sys'.ops[c]) { assert OpSound(sys, sys.ops[c]); }
  }

  lemma ProfileKeepsInv(sys: System, a: Action, cfg: Settings)
    requires Inv(sys, cfg) && a.SetProfile?
    ensures Inv(Next(sys, a, cfg), cfg)
  {
    hide Of;
    var sys' := Next(sys, a, cfg);
    forall id | id in sys'.db.sessions ensures SessionSound(sys'.db, sys'.db.sessions[id], cfg) {
      assert SessionSound(sys.db, sys.db.sessions[id], cfg);
    }
    forall c | c in sys'.ops ensures OpSound(sys', sys'.ops[c]) { assert OpSound(sys, sys.ops[c]); }
  }

  /** Steps that only start or drop an operation. */
  lemma ReadKeepsInv(sys: System, a: Action, cfg: Settings)
    requires Inv(sys, cfg) && (a.LoginRead? || a.AuthenticateRead? || a.ChangeRead? || a.GiveUp?)
    ensures Inv(Next(sys, a, cfg), cfg)
  {
    var sys' := Next(sys, a, cfg);
    forall c | c in sys'.ops ensures OpSound(sys', sys'.ops[c]) {
      if c in sys.ops { assert OpSound(sys, sys.ops[c]); }
    }
  }

  lemma DroppedKeepsInv(sys: System, caller: Caller, cfg: Settings)
    requires Inv(sys, cfg)
    ensures Inv(sys.(ops := sys.ops - {caller}), cfg)
  {
    forall c | c in sys.ops && c != caller ensures OpSound(sys.(ops := sys.ops - {caller}), sys.ops[c]) {
      assert OpSound(sys, sys.ops[c]);
    }
  }

  lemma NextKeepsInv(sys: System, a: Action, cfg: Settings)
    requires Inv(sys, cfg) && cfg.Valid()
    ensures Inv(Next(sys, a, cfg), cfg)
  {
    hide Inv;
    match a
    case EnrollCommit(_, _, _, _, _) => EnrollKeepsInv(sys, a, cfg);
    case LoginCommit(caller, _, _, _, _) =>
      if Issues(sys, a, cfg) { IssueKeepsInv(sys, a, cfg); } else { DroppedKeepsInv(sys, caller, cfg); }
    case TouchCommit(_) => TouchKeepsInv(sys, a, cfg);
    case ChangeCommit(_, _, _) => ChangeKeepsInv(sys, a, cfg);
    case LogoutCommit(_, _, _) => LogoutKeepsInv(sys, a, cfg);
    case SetProfile(_, _) => ProfileKeepsInv(sys, a, cfg);
    case _ => ReadKeepsInv(sys, a, cfg);
  }

  /** Every reachable state: logins are unique, every unrevoked session carries its user's
      current credential version, idle expiry is the earlier of last-seen plus idle and the
      absolute expiry, and nobody has more than ten sessions. */
  lemma {:induction false} InvOverRuns(actions: seq<Action>, cfg: Settings)
    requires cfg.Valid()
    ensures Inv(Run(actions, cfg), cfg)
  {
    if actions == [] {
      assert forall user :: Of(map[], user) == {};
    } else {
      InvOverRuns(actions[..|actions| - 1], cfg);
      NextKeepsInv(Run(actions[..|actions| - 1], cfg), actions[|actions| - 1], cfg);
    }
  }
}

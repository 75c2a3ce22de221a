/** The `sessions` and `refresh_tokens` tables and the statements the server runs on them. */
module SessionTables {
  import opened Common

  type Id = nat
  type Hash = nat
  type Time = int

  datatype Session = Session(userId: Id, revokedAt: Option<Time>)

  datatype RefreshToken = RefreshToken(
    sessionId: Id,
    userId: Id,
    tokenHash: Hash,
    expiresAt: Time,
    rotatedAt: Option<Time>,
    revokedAt: Option<Time>)

  datatype Db = Db(sessions: map<Id, Session>, tokens: map<Id, RefreshToken>)

  // ---- Reads ----

  predicate IsActive(db: Db, session: Id) {
    session in db.sessions && db.sessions[session].revokedAt.None?
  }

  predicate IsRevoked(db: Db, session: Id) {
    session in db.sessions && db.sessions[session].revokedAt.Some?
  }

  predicate IsRotated(db: Db, token: Id) {
    token in db.tokens && db.tokens[token].rotatedAt.Some?
  }

  ghost predicate HasHash(db: Db, token: Id, hash: Hash) {
    token in db.tokens && db.tokens[token].tokenHash == hash
  }

  /** The row with this hash, if there is one; unique by the UNIQUE constraint (see `WellFormed`). */
  ghost function FindToken(db: Db, hash: Hash): Option<Id> {
    if exists t :: HasHash(db, t, hash) then var t :| HasHash(db, t, hash); Some(t) else None
  }

  // ---- Writes: `None` is a constraint violation ----

  function CreateSession(db: Db, id: Id, user: Id): Option<Db> {
    if id in db.sessions then None
    else Some(db.(sessions := db.sessions[id := Session(user, None)]))
  }

  predicate HashTaken(db: Db, hash: Hash) {
    exists t :: t in db.tokens && db.tokens[t].tokenHash == hash
  }

  function InsertToken(db: Db, id: Id, session: Id, user: Id, hash: Hash, expiresAt: Time): Option<Db> {
    if id in db.tokens || session !in db.sessions || HashTaken(db, hash) then None
    else Some(db.(tokens := db.tokens[id := RefreshToken(session, user, hash, expiresAt, None, None)]))
  }

  /** Consume a token: `rotated_at` is set only where it was null, and the flag says whether a row changed. */
  function MarkRotated(db: Db, token: Id, now: Time): (Db, bool) {
    if token in db.tokens && db.tokens[token].rotatedAt.None? then
      (db.(tokens := db.tokens[token := db.tokens[token].(rotatedAt := Some(now))]), true)
    else
      (db, false)
  }

  function RevokedRow(row: RefreshToken, session: Id, now: Time): RefreshToken {
    if row.sessionId == session && row.revokedAt.None? then row.(revokedAt := Some(now)) else row
  }

  function RevokeSession(db: Db, session: Id, now: Time): Db {
    Db(if IsActive(db, session) then db.sessions[session := db.sessions[session].(revokedAt := Some(now))]
       else db.sessions,
       map t | t in db.tokens :: RevokedRow(db.tokens[t], session, now))
  }

  // ---- Table invariants ----

  ghost predicate ForeignKeys(db: Db) {
    forall t :: t in db.tokens ==> db.tokens[t].sessionId in db.sessions
  }

  ghost predicate UniqueHashes(db: Db) {
    forall t, u :: t in db.tokens && u in db.tokens && db.tokens[t].tokenHash == db.tokens[u].tokenHash ==> t == u
  }

  /** A revoked token always belongs to a revoked session (the converse fails: see `Rotation`). */
  ghost predicate RevokedTokensHaveRevokedSessions(db: Db) {
    forall t :: t in db.tokens && db.tokens[t].revokedAt.Some? ==> IsRevoked(db, db.tokens[t].sessionId)
  }

  ghost predicate WellFormed(db: Db) {
    ForeignKeys(db) && UniqueHashes(db) && RevokedTokensHaveRevokedSessions(db)
  }

  /** Rows are never lost, their identity columns never change, and marks are never cleared. */
  ghost predicate Extends(db: Db, db': Db) {
    && (forall s :: s in db.sessions ==>
          && s in db'.sessions
          && db'.sessions[s].userId == db.sessions[s].userId
          && (db.sessions[s].revokedAt.Some? ==> db'.sessions[s] == db.sessions[s]))
    && (forall t :: t in db.tokens ==>
          && t in db'.tokens
          && db'.tokens[t].sessionId == db.tokens[t].sessionId
          && db'.tokens[t].userId == db.tokens[t].userId
          && db'.tokens[t].tokenHash == db.tokens[t].tokenHash
          && db'.tokens[t].expiresAt == db.tokens[t].expiresAt
          && (db.tokens[t].rotatedAt.Some? ==> db'.tokens[t].rotatedAt == db.tokens[t].rotatedAt)
          && (db.tokens[t].revokedAt.Some? ==> db'.tokens[t].revokedAt == db.tokens[t].revokedAt))
  }

  lemma FindTokenIs(db: Db, hash: Hash, token: Id)
    requires UniqueHashes(db) && HasHash(db, token, hash)
    ensures FindToken(db, hash) == Some(token)
  {
  }

  // ---- What each statement writes, and what it leaves alone ----

  /** Both updates are scoped to the session, and a mark once made keeps its time. */
  lemma RevokeSessionIsScoped(db: Db, session: Id, now: Time)
    ensures
      var db' := RevokeSession(db, session, now);
      && db'.sessions.Keys == db.sessions.Keys && db'.tokens.Keys == db.tokens.Keys
      && (forall s :: s in db.sessions && s != session ==> db'.sessions[s] == db.sessions[s])
      && (forall t :: t in db.tokens && db.tokens[t].sessionId != session ==> db'.tokens[t] == db.tokens[t])
      && (session in db.sessions ==>
            var was := db.sessions[session];
            db'.sessions[session] == Session(was.userId, if was.revokedAt == None then Some(now) else was.revokedAt))
      && (forall t :: t in db.tokens && db.tokens[t].sessionId == session ==>
            var was := db.tokens[t];
            db'.tokens[t] == was.(revokedAt := if was.revokedAt == None then Some(now) else was.revokedAt))
  {
  }

  /** One row changes, in one column, and only once. */
  lemma MarkRotatedIsScoped(db: Db, token: Id, now: Time)
    ensures
      var (db', changed) := MarkRotated(db, token, now);
      && db'.sessions == db.sessions && db'.tokens.Keys == db.tokens.Keys
      && (forall t :: t in db.tokens && t != token ==> db'.tokens[t] == db.tokens[t])
      && (changed <==> token in db.tokens && !IsRotated(db, token))
      && (token in db.tokens ==>
            var was := db.tokens[token];
            db'.tokens[token] == was.(rotatedAt := if was.rotatedAt == None then Some(now) else was.rotatedAt))
  {
  }

  /** An insert succeeds exactly within its constraints, adds a live row as given, and changes no other. */
  lemma InsertTokenIsScoped(db: Db, id: Id, session: Id, user: Id, hash: Hash, expiresAt: Time)
    ensures
      var db' := InsertToken(db, id, session, user, hash, expiresAt);
      && (db'.Some? <==> id !in db.tokens && session in db.sessions && forall t :: !HasHash(db, t, hash))
      && (db'.Some? ==>
            && db'.value.sessions == db.sessions && db'.value.tokens.Keys == db.tokens.Keys + {id}
            && db'.value.tokens[id] == RefreshToken(session, user, hash, expiresAt, None, None)
            && forall t :: t in db.tokens ==> db'.value.tokens[t] == db.tokens[t])
  {
    if HashTaken(db, hash) {
      var t :| t in db.tokens && db.tokens[t].tokenHash == hash;
      assert HasHash(db, t, hash);
    }
  }

  lemma CreateSessionIsScoped(db: Db, id: Id, user: Id)
    ensures
      var db' := CreateSession(db, id, user);
      && (db'.Some? <==> id !in db.sessions)
      && (db'.Some? ==>
            && db'.value.tokens == db.tokens && db'.value.sessions.Keys == db.sessions.Keys + {id}
            && IsActive(db'.value, id) && db'.value.sessions[id].userId == user
            && forall s :: s in db.sessions ==> db'.value.sessions[s] == db.sessions[s])
  {
  }

  // ---- Every statement keeps the table invariants ----

  lemma CreateSessionKeeps(db: Db, id: Id, user: Id)
    requires WellFormed(db) && CreateSession(db, id, user).Some?
    ensures WellFormed(CreateSession(db, id, user).value)
  {
  }

  lemma InsertTokenKeeps(db: Db, id: Id, session: Id, user: Id, hash: Hash, expiresAt: Time)
    requires WellFormed(db) && InsertToken(db, id, session, user, hash, expiresAt).Some?
    ensures WellFormed(InsertToken(db, id, session, user, hash, expiresAt).value)
  {
    assert !HashTaken(db, hash);
    assert UniqueHashes(InsertToken(db, id, session, user, hash, expiresAt).value);
  }

  lemma MarkRotatedKeeps(db: Db, token: Id, now: Time)
    requires WellFormed(db)
    ensures WellFormed(MarkRotated(db, token, now).0)
  {
    var db' := MarkRotated(db, token, now).0;
    assert forall t :: t in db'.tokens ==> t in db.tokens && db'.tokens[t].tokenHash == db.tokens[t].tokenHash;
  }

  lemma RevokeSessionKeeps(db: Db, session: Id, now: Time)
    requires WellFormed(db)
    ensures WellFormed(RevokeSession(db, session, now))
  {
    var db' := RevokeSession(db, session, now);
    assert forall t :: t in db'.tokens ==> t in db.tokens && db'.tokens[t].tokenHash == db.tokens[t].tokenHash;
  }
}

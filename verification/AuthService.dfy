/** The session repository and the authentication flows as the server runs them: statement by statement, in place. */
module AuthService {
  import opened Common
  import opened SessionTables
  import opened Rotation
  import T = SessionTables

  /** The tables held by the server, updated in place by each statement. */
  class SessionStore {
    var sessions: map<Id, Session>
    var tokens: map<Id, RefreshToken>

    ghost function Tables(): Db
      reads this
    {
      Db(sessions, tokens)
    }

    constructor ()
      ensures Tables() == Db(map[], map[])
    {
      sessions, tokens := map[], map[];
    }

    method CreateSession(id: Id, user: Id) returns (ok: bool)
      modifies this
      ensures ok == (id !in old(sessions))
      ensures ok ==> T.CreateSession(old(Tables()), id, user) == Some(Tables())
      ensures !ok ==> Tables() == old(Tables())
    {
      ok := id !in sessions;
      if ok {
        sessions := sessions[id := Session(user, None)];
      }
    }

    method IsActive(session: Id) returns (active: bool)
      ensures active == T.IsActive(Tables(), session)
    {
      active := session in sessions && sessions[session].revokedAt.None?;
    }

    /** Two updates in one transaction. */
    method RevokeSession(session: Id, now: Time)
      modifies this
      ensures Tables() == T.RevokeSession(old(Tables()), session, now)
      ensures !T.IsActive(Tables(), session)
      ensures forall t :: t in tokens && tokens[t].sessionId == session ==> tokens[t].revokedAt.Some?
      ensures forall s :: s in old(sessions) && s != session ==> s in sessions && sessions[s] == old(sessions)[s]
    {
      if session in sessions && sessions[session].revokedAt.None? {
        sessions := sessions[session := sessions[session].(revokedAt := Some(now))];
      }
      tokens := map t | t in tokens :: RevokedRow(tokens[t], session, now);
    }

    method InsertRefreshToken(id: Id, session: Id, user: Id, hash: Hash, expiresAt: Time) returns (ok: bool)
      modifies this
      ensures ok == InsertToken(old(Tables()), id, session, user, hash, expiresAt).Some?
      ensures ok ==> InsertToken(old(Tables()), id, session, user, hash, expiresAt) == Some(Tables())
      ensures !ok ==> Tables() == old(Tables())
    {
      ok := id !in tokens && session in sessions && !exists t :: t in tokens && tokens[t].tokenHash == hash;
      if ok {
        tokens := tokens[id := RefreshToken(session, user, hash, expiresAt, None, None)];
      }
    }

    method FindRefreshToken(hash: Hash) returns (found: Option<Id>)
      requires UniqueHashes(Tables())
      ensures found == FindToken(Tables(), hash)
      ensures found.Some? ==> found.value in tokens && tokens[found.value].tokenHash == hash
    {
      if t :| t in tokens && tokens[t].tokenHash == hash {
        FindTokenIs(Tables(), hash, t);
        found := Some(t);
      } else {
        found := None;
      }
    }

    method MarkRotated(token: Id, now: Time) returns (changed: bool)
      modifies this
      ensures (Tables(), changed) == T.MarkRotated(old(Tables()), token, now)
      ensures changed ==> !IsRotated(old(Tables()), token)
      ensures token in tokens ==> IsRotated(Tables(), token)
    {
      changed := token in tokens && tokens[token].rotatedAt.None?;
      if changed {
        tokens := tokens[token := tokens[token].(rotatedAt := Some(now))];
      }
    }
  }

  // ---- The flows, run without interruption ----

  /** A call run for `envs` with nothing in between. */
  ghost function RunAlone(db: Db, p: Process, envs: seq<Env>): (Db, Process)
    decreases |envs|
  {
    if envs == [] then (db, p)
    else
      var (db', p') := RunAlone(db, p, envs[..|envs| - 1]);
      Step(db', p', envs[|envs| - 1])
  }

  lemma AloneStep(db: Db, p: Process, envs: seq<Env>, e: Env)
    ensures RunAlone(db, p, envs + [e]) == Step(RunAlone(db, p, envs).0, RunAlone(db, p, envs).1, e)
  {
    assert (envs + [e])[..|envs|] == envs;
  }

  function Turns(i: nat, envs: seq<Env>): seq<Action> {
    seq(|envs|, k requires 0 <= k < |envs| => Run(i, envs[k], false))
  }

  /** Running alone is one of the interleavings of the protocol. */
  lemma {:induction false} AloneIsARun(w: World, i: nat, envs: seq<Env>)
    requires i in w.calls
    ensures
      var w' := Replay(w, Turns(i, envs));
      && i in w'.calls
      && (w'.ledger.db, w'.calls[i]) == RunAlone(w.ledger.db, w.calls[i], envs)
    decreases |envs|
  {
    if envs != [] {
      var init := envs[..|envs| - 1];
      AloneIsARun(w, i, init);
      assert Turns(i, envs)[..|envs| - 1] == Turns(i, init);
    }
  }

  /** Insert a fresh refresh token for the session and answer with the pair. */
  method IssueTokens(store: SessionStore, user: Id, session: Id, e: Env) returns (reply: Reply)
    modifies store
    ensures forall p: Process :: p.pc == Issuing(user, session) ==>
      Step(old(store.Tables()), p, e) == (store.Tables(), p.(pc := Done(reply)))
    ensures reply == Pair(session, e.hash) || (reply == Database && store.Tables() == old(store.Tables()))
    ensures reply.Pair? ==>
      && e.id !in old(store.tokens) && store.sessions == old(store.sessions)
      && store.tokens == old(store.tokens)[e.id := RefreshToken(session, user, e.hash, e.expiresAt, None, None)]
  {
    var ok := store.InsertRefreshToken(e.id, session, user, e.hash, e.expiresAt);
    reply := if ok then Pair(session, e.hash) else Database;
  }

  method Login(store: SessionStore, user: Option<Id>, e0: Env, e1: Env) returns (reply: Reply)
    modifies store
    ensures
      var (db, p) := RunAlone(old(store.Tables()), Begin(Call.Login(user)), [e0, e1]);
      db == store.Tables() && p.pc == Done(reply)
    ensures user == None ==> reply == Unauthorized(BadCredentials) && store.Tables() == old(store.Tables())
    ensures reply.Pair? ==>
      && reply.session !in old(store.sessions) && T.IsActive(store.Tables(), reply.session)
      && T.HashTaken(store.Tables(), reply.hash) && store.sessions[reply.session].userId == user.value
      && forall s :: s in old(store.sessions) ==> s in store.sessions && store.sessions[s] == old(store.sessions)[s]
  {
    ghost var db, p := store.Tables(), Begin(Call.Login(user));
    AloneStep(db, p, [], e0);
    AloneStep(db, p, [e0], e1);
    assert [] + [e0] == [e0] && [e0] + [e1] == [e0, e1];
    if user == None {
      return Unauthorized(BadCredentials);
    }
    var ok := store.CreateSession(e0.id, user.value);
    if !ok {
      return Database;
    }
    reply := IssueTokens(store, user.value, e0.id, e1);
    assert reply.Pair? ==> store.tokens[e1.id].tokenHash == reply.hash;
  }

  method Logout(store: SessionStore, session: Id, e: Env) returns (reply: Reply)
    modifies store
    ensures
      var (db, p) := RunAlone(old(store.Tables()), Begin(Call.Logout(session)), [e]);
      db == store.Tables() && p.pc == Done(reply)
    ensures reply == LoggedOut && !T.IsActive(store.Tables(), session)
    ensures forall t :: t in store.tokens && store.tokens[t].sessionId == session ==> store.tokens[t].revokedAt.Some?
    ensures forall s :: s in old(store.sessions) && s != session ==>
      s in store.sessions && store.sessions[s] == old(store.sessions)[s]
  {
    AloneStep(store.Tables(), Begin(Call.Logout(session)), [], e);
    assert [] + [e] == [e];
    store.RevokeSession(session, e.now);
    reply := LoggedOut;
  }

  method Authenticate(store: SessionStore, sid: Option<Id>, e: Env) returns (reply: Reply)
    ensures
      var (db, p) := RunAlone(store.Tables(), Begin(Call.Authenticate(sid)), [e]);
      db == store.Tables() && p.pc == Done(reply)
    ensures reply.Accepted? <==> sid.Some? && T.IsActive(store.Tables(), sid.value)
  {
    AloneStep(store.Tables(), Begin(Call.Authenticate(sid)), [], e);
    assert [] + [e] == [e];
    if sid == None {
      return Unauthorized(SessionInactive);
    }
    var active := store.IsActive(sid.value);
    reply := if active then Accepted(sid.value) else Unauthorized(SessionInactive);
  }

  /** The state of the presented token that lets a refresh succeed. */
  ghost predicate Usable(db: Db, hash: Hash, now: Time) {
    FindToken(db, hash).Some? &&
    var row := db.tokens[FindToken(db, hash).value];
    row.rotatedAt == None && row.revokedAt == None && row.expiresAt >= now && T.IsActive(db, row.sessionId)
  }

  method Refresh(store: SessionStore, hash: Hash, e0: Env, e1: Env, e2: Env, e3: Env) returns (reply: Reply)
    requires WellFormed(store.Tables())
    modifies store
    ensures
      var (db, p) := RunAlone(old(store.Tables()), Begin(Call.Refresh(hash)), [e0, e1, e2, e3]);
      db == store.Tables() && p.pc == Done(reply)
    ensures reply.Pair? ==> Usable(old(store.Tables()), hash, e0.now)
    ensures Usable(old(store.Tables()), hash, e0.now) ==> reply.Pair? || reply == Database
    ensures reply.Pair? ==>
      && store.sessions == old(store.sessions) && IsRotated(store.Tables(), FindToken(old(store.Tables()), hash).value)
      && reply == Pair(old(store.Tables()).tokens[FindToken(old(store.Tables()), hash).value].sessionId, e3.hash)
      && HasHash(store.Tables(), e3.id, e3.hash)
    ensures reply == Unauthorized(Reuse) <==>
            && FindToken(old(store.Tables()), hash).Some?
            && IsRotated(old(store.Tables()), FindToken(old(store.Tables()), hash).value)
    ensures reply == Unauthorized(Reuse) ==>
            IsRevoked(store.Tables(), old(store.Tables()).tokens[FindToken(old(store.Tables()), hash).value].sessionId)
    ensures reply.Unauthorized? && reply.reason != Reuse ==> store.Tables() == old(store.Tables())
  {
    ghost var db0, p0 := store.Tables(), Begin(Call.Refresh(hash));
    AloneStep(db0, p0, [], e0);
    AloneStep(db0, p0, [e0], e1);
    AloneStep(db0, p0, [e0, e1], e2);
    AloneStep(db0, p0, [e0, e1, e2], e3);
    assert [] + [e0] == [e0] && [e0] + [e1] == [e0, e1] && [e0, e1] + [e2] == [e0, e1, e2];
    assert [e0, e1, e2] + [e3] == [e0, e1, e2, e3];

    var found := store.FindRefreshToken(hash);
    if found == None {
      return Unauthorized(UnknownToken);
    }
    var record := store.tokens[found.value];
    var alreadyReused := record.rotatedAt.Some?;
    if !alreadyReused {
      if record.revokedAt.Some? {
        return Unauthorized(TokenRevoked);
      }
      if record.expiresAt < e0.now {
        return Unauthorized(Expired);
      }
      var active := store.IsActive(record.sessionId);
      if !active {
        return Unauthorized(SessionInactive);
      }
    }
    var won := false;
    if !alreadyReused {
      won := store.MarkRotated(found.value, e2.now);
    }
    if !won {
      store.RevokeSession(record.sessionId, if alreadyReused then e1.now else e3.now);
      return Unauthorized(Reuse);
    }
    reply := IssueTokens(store, record.userId, record.sessionId, e3);
  }
}

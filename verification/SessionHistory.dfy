/** Why sessions end and whose tokens they hold: what each revocation, token and answer can be traced back to. */
module SessionHistory {
  import opened Common
  import opened SessionTables
  import opened Rotation
  import opened RotationTheorems

  // ---- A session ends only by a call that revokes it ----

  /** The action is the revocation of session `s` by some call. */
  ghost predicate Revokes(w: World, a: Action, s: Id) {
    a.Run? && a.id in w.calls && w.calls[a.id].pc.Revoking? && w.calls[a.id].pc.session == s
  }

  /** Any other action leaves the session row and the revocation marks of its tokens as they were. */
  lemma OnlyRevocationRevokes(w: World, a: Action, s: Id)
    requires s in w.ledger.db.sessions && !Revokes(w, a, s)
    ensures
      var db, db' := w.ledger.db, Apply(w, a).ledger.db;
      && s in db'.sessions && db'.sessions[s] == db.sessions[s]
      && (forall t :: t in db.tokens && db.tokens[t].sessionId == s ==>
            t in db'.tokens && db'.tokens[t].revokedAt == db.tokens[t].revokedAt)
  {
  }

  /** An active session stays active, and its tokens unrevoked, over any run in which no call revokes it. */
  lemma {:induction false} UnrevokedRun(w: World, s: Id, actions: seq<Action>)
    requires s in w.ledger.db.sessions
    requires forall k :: 0 <= k < |actions| ==> !Revokes(Replay(w, actions[..k]), actions[k], s)
    ensures
      var db, db' := w.ledger.db, Replay(w, actions).ledger.db;
      && s in db'.sessions && db'.sessions[s] == db.sessions[s]
      && (forall t :: t in db.tokens && db.tokens[t].sessionId == s ==>
            t in db'.tokens && db'.tokens[t].sessionId == s && db'.tokens[t].revokedAt == db.tokens[t].revokedAt)
    decreases |actions|
  {
    ReplayExtends(w, actions);
    if actions != [] {
      var n := |actions| - 1;
      var init := actions[..n];
      forall k | 0 <= k < n ensures !Revokes(Replay(w, init[..k]), init[k], s) {
        assert init[..k] == actions[..k];
      }
      UnrevokedRun(w, s, init);
      ReplayExtends(w, init);
      OnlyRevocationRevokes(Replay(w, init), actions[n], s);
    }
  }

  // ---- Every revocation has a cause ----

  /** A logout of the session, or a refresh that presented a token of it which was already consumed. */
  ghost predicate Cause(db: Db, p: Process, s: Id) {
    || p.call == Logout(s)
    || (&& p.call.Refresh? && p.read.Some? && p.consumed == None
        && HasHash(db, p.read.value, p.call.hash) && IsRotated(db, p.read.value)
        && db.tokens[p.read.value].sessionId == s)
  }

  ghost predicate HasCause(w: World, s: Id) {
    exists i :: i in w.calls && Cause(w.ledger.db, w.calls[i], s)
  }

  lemma CauseStep(g: Ledger, p: Process, e: Env, s: Id)
    requires CallInv(g, p) && Cause(g.db, p, s)
    ensures Cause(Step(g.db, p, e).0, Step(g.db, p, e).1, s)
  {
    StepExtends(g.db, p, e);
  }

  lemma CauseFrame(db: Db, db': Db, p: Process, s: Id)
    requires Cause(db, p, s) && Extends(db, db')
    ensures Cause(db', p, s)
  {
  }

  lemma CauseStays(w: World, a: Action, s: Id)
    requires Calls(w.ledger, w.calls) && HasCause(w, s)
    ensures HasCause(Apply(w, a), s)
  {
    var i :| i in w.calls && Cause(w.ledger.db, w.calls[i], s);
    assert CallInv(w.ledger, w.calls[i]);
    ApplyExtends(w, a);
    CauseFrame(w.ledger.db, Apply(w, a).ledger.db, w.calls[i], s);
    if a.Run? && a.id == i { CauseStep(w.ledger, w.calls[i], a.env, s); }
    assert Cause(Apply(w, a).ledger.db, Apply(w, a).calls[i], s);
  }

  lemma RevokerIsCause(g: Ledger, p: Process, s: Id)
    requires CallInv(g, p) && p.pc.Revoking? && p.pc.session == s
    ensures Cause(g.db, p, s)
  {
  }

  lemma {:induction false} RevocationHasACause(actions: seq<Action>, s: Id)
    ensures IsRevoked(Replay(EMPTY, actions).ledger.db, s) ==> HasCause(Replay(EMPTY, actions), s)
    decreases |actions|
  {
    if actions != [] {
      var init, a := actions[..|actions| - 1], actions[|actions| - 1];
      var w := Replay(EMPTY, init);
      RevocationHasACause(init, s);
      assert Inv(EMPTY);
      ReplayKeeps(EMPTY, init);
      if Revokes(w, a, s) {
        assert CallInv(w.ledger, w.calls[a.id]);
        RevokerIsCause(w.ledger, w.calls[a.id], s);
      } else if s in w.ledger.db.sessions {
        OnlyRevocationRevokes(w, a, s);
      }
      if HasCause(w, s) { CauseStays(w, a, s); }
    }
  }

  /**
   A session nobody logged out of, and none of whose consumed tokens was presented again, is active with all its
   tokens unrevoked: no call on any other session can end it.
   */
  lemma UncausedSessionIsActive(w: World, s: Id)
    requires Reachable(w) && s in w.ledger.db.sessions && !HasCause(w, s)
    ensures IsActive(w.ledger.db, s)
    ensures forall t :: t in TokensOf(w.ledger.db, s) ==> w.ledger.db.tokens[t].revokedAt == None
  {
    ReachableInv(w);
    var actions :| w == Replay(EMPTY, actions);
    RevocationHasACause(actions, s);
  }

  // ---- Whose tokens they are, and that every pair is real ----

  /** The row of the pair's refresh token is in the tables, for the session the pair names. */
  ghost predicate InTables(db: Db, session: Id, hash: Hash) {
    exists t :: HasHash(db, t, hash) && db.tokens[t].sessionId == session
  }

  ghost predicate TokenUsers(db: Db) {
    forall t :: t in db.tokens ==>
      db.tokens[t].sessionId in db.sessions && db.tokens[t].userId == db.sessions[db.tokens[t].sessionId].userId
  }

  ghost predicate UserOf(db: Db, session: Id, user: Id) {
    session in db.sessions && db.sessions[session].userId == user
  }

  ghost predicate UserInv(db: Db, p: Process) {
    match p.pc
    case CreatingSession(user) => p.call == Login(Some(user))
    case Issuing(user, s) => UserOf(db, s, user) && (p.call.Login? ==> p.call.user == Some(user))
    case Finding(_) => p.call.Refresh?
    case CheckingActive(_, s, user) => p.call.Refresh? && UserOf(db, s, user)
    case Rotating(_, s, user) => p.call.Refresh? && UserOf(db, s, user)
    case Revoking(_, reply) => !reply.Pair?
    case Done(Pair(s, hash)) =>
      InTables(db, s, hash) && s in db.sessions && (p.call.Login? ==> p.call.user == Some(db.sessions[s].userId))
    case _ => true
  }

  ghost predicate UsersInv(w: World) {
    TokenUsers(w.ledger.db) && forall i :: i in w.calls ==> UserInv(w.ledger.db, w.calls[i])
  }

  lemma InTablesStays(db: Db, db': Db, session: Id, hash: Hash)
    requires InTables(db, session, hash) && Extends(db, db')
    ensures InTables(db', session, hash)
  {
    var t :| HasHash(db, t, hash) && db.tokens[t].sessionId == session;
    assert HasHash(db', t, hash);
  }

  lemma UserFrame(db: Db, db': Db, p: Process)
    requires UserInv(db, p) && Extends(db, db')
    ensures UserInv(db', p)
  {
    if p.pc.Done? && p.pc.reply.Pair? { InTablesStays(db, db', p.pc.reply.session, p.pc.reply.hash); }
  }

  lemma StepKeepsTokenUsers(db: Db, p: Process, e: Env)
    requires TokenUsers(db) && UserInv(db, p)
    ensures TokenUsers(Step(db, p, e).0)
  {
  }

  lemma MintIsInTables(db: Db, p: Process, e: Env)
    requires p.pc.Issuing? && Step(db, p, e).1.pc != Done(Database)
    ensures InTables(Step(db, p, e).0, p.pc.session, e.hash)
  {
    assert HasHash(Step(db, p, e).0, e.id, e.hash);
  }

  lemma StepKeepsUser(db: Db, p: Process, e: Env)
    requires TokenUsers(db) && UserInv(db, p)
    ensures UserInv(Step(db, p, e).0, Step(db, p, e).1)
  {
    StepExtends(db, p, e);
    if p.pc.Issuing? && Step(db, p, e).1.pc != Done(Database) { MintIsInTables(db, p, e); }
    if p.pc.Done? { UserFrame(db, Step(db, p, e).0, p); }
  }

  lemma UsersAction(w: World, a: Action)
    requires UsersInv(w)
    ensures UsersInv(Apply(w, a))
  {
    if a.Run? && a.id in w.calls {
      var p, w' := w.calls[a.id], Apply(w, a);
      StepKeepsTokenUsers(w.ledger.db, p, a.env);
      StepKeepsUser(w.ledger.db, p, a.env);
      StepExtends(w.ledger.db, p, a.env);
      forall j | j in w'.calls ensures UserInv(w'.ledger.db, w'.calls[j]) {
        if j != a.id { UserFrame(w.ledger.db, w'.ledger.db, w.calls[j]); }
      }
    }
  }

  lemma {:induction false} UsersRun(actions: seq<Action>)
    ensures UsersInv(Replay(EMPTY, actions))
    decreases |actions|
  {
    if actions != [] {
      UsersRun(actions[..|actions| - 1]);
      UsersAction(Replay(EMPTY, actions[..|actions| - 1]), actions[|actions| - 1]);
    }
  }

  /** In every reachable state each token belongs to its session's user. */
  lemma TokensBelongToTheirUser(w: World, t: Id)
    requires Reachable(w) && t in w.ledger.db.tokens
    ensures UserOf(w.ledger.db, w.ledger.db.tokens[t].sessionId, w.ledger.db.tokens[t].userId)
  {
    var actions :| w == Replay(EMPTY, actions);
    UsersRun(actions);
  }

  /**
   Every pair ever answered is real: its refresh token is in the tables for the session it names, which is the
   session of the user who logged in, or of the token that was presented.
   */
  lemma PairsAreReal(w: World, i: nat)
    requires Reachable(w) && i in w.calls && w.calls[i].pc.Done? && w.calls[i].pc.reply.Pair?
    ensures
      var db, p := w.ledger.db, w.calls[i];
      var s := p.pc.reply.session;
      && InTables(db, s, p.pc.reply.hash) && s in db.sessions
      && (p.call.Login? ==> p.call.user == Some(db.sessions[s].userId))
      && (!p.call.Login? ==> p.call.Refresh? && InTables(db, s, p.call.hash))
  {
    ReachableInv(w);
    var actions :| w == Replay(EMPTY, actions);
    UsersRun(actions);
    assert UserInv(w.ledger.db, w.calls[i]) && CallInv(w.ledger, w.calls[i]);
    if !w.calls[i].call.Login? { assert HasHash(w.ledger.db, w.calls[i].read.value, w.calls[i].call.hash); }
  }
}

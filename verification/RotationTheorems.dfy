/** What the rotation protocol guarantees over whole runs, for every interleaving of any number of calls. */
module RotationTheorems {
  import opened Common
  import opened SessionTables
  import opened Rotation

  ghost predicate Reachable(w: World) {
    exists actions :: w == Replay(EMPTY, actions)
  }

  lemma ReachableInv(w: World)
    requires Reachable(w)
    ensures Inv(w)
  {
    var actions :| w == Replay(EMPTY, actions);
    assert Inv(EMPTY);
    ReplayKeeps(EMPTY, actions);
  }

  // ---- One live credential per session, one chain per session ----

  ghost function TokensOf(db: Db, s: Id): set<Id> {
    set t | t in db.tokens && db.tokens[t].sessionId == s
  }

  ghost function Unrotated(w: World, s: Id): set<Id> {
    set t | t in w.ledger.db.tokens && w.ledger.db.tokens[t].sessionId == s && !IsRotated(w.ledger.db, t)
  }

  ghost function Issuers(w: World, s: Id): set<nat> {
    set i | i in w.calls && w.calls[i].pc.Issuing? && w.calls[i].pc.session == s
  }

  /** Un-rotated tokens plus calls that have consumed or created but not yet inserted: at most one. */
  lemma AtMostOneLiveCredential(w: World, s: Id)
    requires Reachable(w)
    ensures |Unrotated(w, s)| + |Issuers(w, s)| <= 1
  {
    ReachableInv(w);
    var g := w.ledger;
    forall t, u | t in Unrotated(w, s) && u in Unrotated(w, s) ensures t == u {
      UnrotatedIsLast(g.db, s, g.mints[s], t);
      UnrotatedIsLast(g.db, s, g.mints[s], u);
    }
    SubsingletonCard(Unrotated(w, s));
    SubsingletonCard(Issuers(w, s));
    if i :| i in Issuers(w, s) {
      forall t | t in Unrotated(w, s) ensures false { IssuerMeansAllRotated(g, w.calls[i], t); }
      assert Unrotated(w, s) == {};
    } else {
      assert Issuers(w, s) == {};
    }
  }

  /** The tokens of a session are exactly one chain, each minted by consuming the one before it. */
  lemma TokensFormOneChain(w: World, s: Id)
    requires Reachable(w) && s in w.ledger.db.sessions
    ensures s in w.ledger.mints && ChainOf(w.ledger.db, s, w.ledger.mints[s])
    ensures TokensOf(w.ledger.db, s) == set m | m in w.ledger.mints[s] :: m.token
  {
    ReachableInv(w);
    var chain := w.ledger.mints[s];
    forall t | t in TokensOf(w.ledger.db, s) ensures t in set m | m in chain :: m.token {
      assert InChain(chain, t);
      var k :| 0 <= k < |chain| && chain[k].token == t;
      assert chain[k] in chain;
    }
  }

  // ---- Presenting one token ----

  /** However many refreshes present one token, at most one of them is answered with a pair. */
  lemma AtMostOnePairPerToken(w: World, i: nat, j: nat)
    requires Reachable(w) && i in w.calls && j in w.calls
    requires w.calls[i].call.Refresh? && w.calls[j].call == w.calls[i].call
    requires w.calls[i].pc.Done? && w.calls[i].pc.reply.Pair?
    requires w.calls[j].pc.Done? && w.calls[j].pc.reply.Pair?
    ensures i == j
  {
    ReachableInv(w);
    assert CallInv(w.ledger, w.calls[i]) && CallInv(w.ledger, w.calls[j]);
  }

  /** A refresh refused for anything but an unknown or expired token leaves the token's session revoked. */
  lemma RefusalLeavesSessionRevoked(w: World, i: nat)
    requires Reachable(w) && i in w.calls && w.calls[i].call.Refresh?
    requires w.calls[i].pc.Done? && w.calls[i].pc.reply.Unauthorized?
    ensures
      || w.calls[i].pc.reply.reason == UnknownToken
      || w.calls[i].pc.reply.reason == Expired
      || exists t ::
           HasHash(w.ledger.db, t, w.calls[i].call.hash) && IsRevoked(w.ledger.db, w.ledger.db.tokens[t].sessionId)
  {
    ReachableInv(w);
    assert CallInv(w.ledger, w.calls[i]);
  }

  /** A refresh that starts once its token is rotated can only detect the reuse (or fail on the database). */
  ghost predicate DetectsReuse(p: Process, hash: Hash, s: Id) {
    && p.call == Refresh(hash)
    && (p.pc == Finding(hash) || p.pc == Revoking(s, Unauthorized(Reuse))
        || p.pc == Done(Unauthorized(Reuse)) || p.pc == Done(Database))
  }

  lemma ApplyExtends(w: World, a: Action)
    ensures Extends(w.ledger.db, Apply(w, a).ledger.db)
  {
    if a.Run? && a.id in w.calls { StepExtends(w.ledger.db, w.calls[a.id], a.env); }
  }

  lemma {:induction false} ReplayExtends(w: World, actions: seq<Action>)
    ensures Extends(w.ledger.db, Replay(w, actions).ledger.db)
    decreases |actions|
  {
    if actions != [] {
      ReplayExtends(w, actions[..|actions| - 1]);
      ApplyExtends(Replay(w, actions[..|actions| - 1]), actions[|actions| - 1]);
    }
  }

  lemma ReuseStep(db: Db, p: Process, e: Env, t: Id)
    requires UniqueHashes(db) && IsRotated(db, t)
    requires DetectsReuse(p, db.tokens[t].tokenHash, db.tokens[t].sessionId)
    ensures DetectsReuse(Step(db, p, e).1, db.tokens[t].tokenHash, db.tokens[t].sessionId)
  {
    FindTokenIs(db, db.tokens[t].tokenHash, t);
  }

  lemma ReuseAction(w: World, a: Action, t: Id, i: nat)
    requires UniqueHashes(w.ledger.db) && IsRotated(w.ledger.db, t)
    requires i in w.calls && DetectsReuse(w.calls[i], w.ledger.db.tokens[t].tokenHash, w.ledger.db.tokens[t].sessionId)
    ensures i in Apply(w, a).calls
    ensures DetectsReuse(Apply(w, a).calls[i], w.ledger.db.tokens[t].tokenHash, w.ledger.db.tokens[t].sessionId)
  {
    if a.Run? && a.id == i { ReuseStep(w.ledger.db, w.calls[i], a.env, t); }
  }

  lemma UniqueHashesOnRun(w: World, actions: seq<Action>)
    requires Inv(w)
    ensures UniqueHashes(Replay(w, actions).ledger.db)
  {
    ReplayKeeps(w, actions);
  }

  lemma RotatedForever(w: World, t: Id, actions: seq<Action>)
    requires IsRotated(w.ledger.db, t)
    ensures
      var db' := Replay(w, actions).ledger.db;
      && IsRotated(db', t) && db'.tokens[t].tokenHash == w.ledger.db.tokens[t].tokenHash
      && db'.tokens[t].sessionId == w.ledger.db.tokens[t].sessionId
  {
    ReplayExtends(w, actions);
  }

  lemma {:induction false} OnlyReuseIsPossible(w: World, t: Id, i: nat, actions: seq<Action>)
    requires Inv(w) && IsRotated(w.ledger.db, t)
    requires i in w.calls && w.calls[i] == Begin(Refresh(w.ledger.db.tokens[t].tokenHash))
    ensures i in Replay(w, actions).calls
    ensures DetectsReuse(Replay(w, actions).calls[i], w.ledger.db.tokens[t].tokenHash, w.ledger.db.tokens[t].sessionId)
    decreases |actions|
  {
    if actions != [] {
      var prefix := actions[..|actions| - 1];
      OnlyReuseIsPossible(w, t, i, prefix);
      UniqueHashesOnRun(w, prefix);
      RotatedForever(w, t, prefix);
      ReuseAction(Replay(w, prefix), actions[|actions| - 1], t, i);
    }
  }

  /** A refresh that answered `Reuse` has revoked the session of the token it names. */
  lemma ReuseAnswerMeansRevoked(g: Ledger, p: Process, t: Id)
    requires UniqueHashes(g.db) && CallInv(g, p) && p.call.Refresh? && p.pc == Done(Unauthorized(Reuse))
    requires HasHash(g.db, t, p.call.hash)
    ensures IsRevoked(g.db, g.db.tokens[t].sessionId)
  {
    assert HasHash(g.db, p.read.value, p.call.hash);
  }

  /** Theft detection: once a token is rotated, every later refresh with it that completes revokes the session. */
  lemma ReuseIsDetected(w: World, t: Id, i: nat, actions: seq<Action>)
    requires Reachable(w) && IsRotated(w.ledger.db, t)
    requires i in w.calls && w.calls[i] == Begin(Refresh(w.ledger.db.tokens[t].tokenHash))
    ensures
      var w' := Replay(w, actions);
      && i in w'.calls
      && (w'.calls[i].pc.Done? ==>
            || w'.calls[i].pc.reply == Database
            || (&& w'.calls[i].pc.reply == Unauthorized(Reuse)
                && IsRevoked(w'.ledger.db, w.ledger.db.tokens[t].sessionId)))
  {
    ReachableInv(w);
    OnlyReuseIsPossible(w, t, i, actions);
    RotatedForever(w, t, actions);
    if Replay(w, actions).calls[i].pc == Done(Unauthorized(Reuse)) {
      ReplayKeeps(w, actions);
      ReuseAnswerMeansRevoked(Replay(w, actions).ledger, Replay(w, actions).calls[i], t);
    }
  }

  // ---- After a revocation ----

  /** The call holds nothing that could still be turned into an answer for session `s`. */
  ghost predicate Powerless(p: Process, s: Id) {
    match p.pc
    case Issuing(_, r) => r != s
    case Rotating(_, r, _) => r != s
    case Done(Pair(r, _)) => r != s
    case Done(Accepted(r)) => r != s
    case _ => true
  }

  lemma PowerlessStep(g: Ledger, p: Process, e: Env, s: Id)
    requires CallInv(g, p) && IsRevoked(g.db, s) && Powerless(p, s)
    ensures Powerless(Step(g.db, p, e).1, s)
  {
  }

  lemma PowerlessAction(w: World, a: Action, s: Id, i: nat)
    requires Inv(w) && IsRevoked(w.ledger.db, s)
    requires i in w.calls ==> Powerless(w.calls[i], s)
    ensures i in Apply(w, a).calls ==> Powerless(Apply(w, a).calls[i], s)
  {
    if a.Run? && a.id == i && i in w.calls {
      assert CallInv(w.ledger, w.calls[i]);
      PowerlessStep(w.ledger, w.calls[i], a.env, s);
    }
  }

  lemma RevokedForever(w: World, s: Id, actions: seq<Action>)
    requires IsRevoked(w.ledger.db, s)
    ensures IsRevoked(Replay(w, actions).ledger.db, s)
  {
    ReplayExtends(w, actions);
  }

  /**
   Once a session is revoked, no call whose activity check has not already succeeded is ever answered with
   a pair or an acceptance for it: not with the tokens it had, not with one minted afterwards.
   */
  lemma {:induction false} RevokedSessionIsNeverAccepted(w: World, s: Id, i: nat, actions: seq<Action>)
    requires Inv(w) && IsRevoked(w.ledger.db, s)
    requires i in w.calls ==> Powerless(w.calls[i], s)
    ensures IsRevoked(Replay(w, actions).ledger.db, s)
    ensures i in Replay(w, actions).calls ==> Powerless(Replay(w, actions).calls[i], s)
    decreases |actions|
  {
    RevokedForever(w, s, actions);
    if actions != [] {
      var prefix := actions[..|actions| - 1];
      RevokedSessionIsNeverAccepted(w, s, i, prefix);
      ReplayKeeps(w, prefix);
      PowerlessAction(Replay(w, prefix), actions[|actions| - 1], s, i);
    }
  }

  /** The call presents something of session `s`: its id in an access token, or one of its refresh tokens. */
  ghost predicate Concerns(db: Db, p: Process, s: Id) {
    || p.call == Authenticate(Some(s))
    || (p.call.Refresh? && exists t :: HasHash(db, t, p.call.hash) && db.tokens[t].sessionId == s)
  }

  lemma PowerlessIsRefused(g: Ledger, p: Process, s: Id)
    requires UniqueHashes(g.db) && CallInv(g, p) && Concerns(g.db, p, s) && Powerless(p, s) && p.pc.Done?
    ensures p.pc.reply == Database || p.pc.reply.Unauthorized?
  {
  }

  /**
   Nothing accepts a revoked session's credentials: every call begun after the revocation that presents its
   id or any refresh token of it, even one minted after the revocation, can only be refused or fail.
   */
  lemma NothingAcceptsARevokedSession(w: World, s: Id, i: nat, actions: seq<Action>)
    requires Reachable(w) && IsRevoked(w.ledger.db, s) && i !in w.calls
    ensures
      var w' := Replay(w, actions);
      i in w'.calls && w'.calls[i].pc.Done? && Concerns(w'.ledger.db, w'.calls[i], s)
      ==> w'.calls[i].pc.reply == Database || w'.calls[i].pc.reply.Unauthorized?
  {
    ReachableInv(w);
    RevokedSessionIsNeverAccepted(w, s, i, actions);
    ReplayKeeps(w, actions);
    var w' := Replay(w, actions);
    if i in w'.calls && w'.calls[i].pc.Done? && Concerns(w'.ledger.db, w'.calls[i], s) {
      PowerlessIsRefused(w'.ledger, w'.calls[i], s);
    }
  }

  /** Someone can still mint for `s`: a call about to insert, or one about to win an un-rotated token. */
  ghost predicate ReadyToMint(p: Process, db: Db, s: Id) {
    || (p.pc.Issuing? && p.pc.session == s)
    || (p.pc.Rotating? && p.pc.session == s && !IsRotated(db, p.pc.token))
  }

  ghost predicate InFlight(w: World, s: Id) {
    exists i :: i in w.calls && ReadyToMint(w.calls[i], w.ledger.db, s)
  }

  /** Only a call that was already ready for a revoked session can still be ready after its own step. */
  lemma ReadyStep(g: Ledger, p: Process, e: Env, s: Id)
    requires CallInv(g, p) && IsRevoked(g.db, s) && !ReadyToMint(p, g.db, s)
    ensures !ReadyToMint(Step(g.db, p, e).1, Step(g.db, p, e).0, s)
  {
  }

  lemma ReadyFrame(db: Db, db': Db, q: Process, s: Id)
    requires Extends(db, db') && ReadyToMint(q, db', s)
    requires q.pc.Rotating? ==> q.pc.token in db.tokens
    ensures ReadyToMint(q, db, s)
  {
  }

  /** What another call's statement leaves of a call's readiness. */
  lemma ReadyOther(g: Ledger, p: Process, e: Env, q: Process, s: Id)
    requires CallInv(g, q) && ReadyToMint(q, Step(g.db, p, e).0, s)
    ensures ReadyToMint(q, g.db, s)
  {
    StepExtends(g.db, p, e);
    ReadyFrame(g.db, Step(g.db, p, e).0, q, s);
  }

  lemma ReadyBefore(w: World, a: Action, s: Id, i: nat)
    requires Calls(w.ledger, w.calls) && IsRevoked(w.ledger.db, s)
    requires i in Apply(w, a).calls && ReadyToMint(Apply(w, a).calls[i], Apply(w, a).ledger.db, s)
    ensures i in w.calls && ReadyToMint(w.calls[i], w.ledger.db, s)
  {
    assert i in w.calls && CallInv(w.ledger, w.calls[i]);
    if a.Run? && a.id in w.calls {
      if a.id == i {
        if !ReadyToMint(w.calls[i], w.ledger.db, s) { ReadyStep(w.ledger, w.calls[i], a.env, s); }
      } else {
        ReadyOther(w.ledger, w.calls[a.id], a.env, w.calls[i], s);
      }
    }
  }

  lemma RevokedGainsNoFlight(w: World, a: Action, s: Id)
    requires Inv(w) && IsRevoked(w.ledger.db, s) && InFlight(Apply(w, a), s)
    ensures InFlight(w, s)
  {
    var i :| i in Apply(w, a).calls && ReadyToMint(Apply(w, a).calls[i], Apply(w, a).ledger.db, s);
    ReadyBefore(w, a, s, i);
  }

  /** When one call mints, no other call was ready for that session. */
  lemma MinterIsAlone(w: World, i: nat, j: nat, s: Id)
    requires Inv(w) && i in w.calls && w.calls[i].pc.Issuing? && w.calls[i].pc.session == s
    requires j in w.calls && j != i
    ensures !ReadyToMint(w.calls[j], w.ledger.db, s)
  {
    assert CallInv(w.ledger, w.calls[j]);
    if w.calls[j].pc.Rotating? && w.calls[j].pc.session == s {
      IssuerMeansAllRotated(w.ledger, w.calls[i], w.calls[j].pc.token);
    }
  }

  lemma MintClearsFlight(w: World, i: nat, e: Env, replyLost: bool, s: Id)
    requires Inv(w) && i in w.calls && w.calls[i].pc.Issuing? && w.calls[i].pc.session == s
    ensures Step(w.ledger.db, w.calls[i], e).1.pc != Done(Database) ==> !InFlight(Apply(w, Run(i, e, replyLost)), s)
  {
    var a := Run(i, e, replyLost);
    var w' := Apply(w, a);
    if j :| j in w'.calls && ReadyToMint(w'.calls[j], w'.ledger.db, s) {
      if j != i {
        MinterIsAlone(w, i, j, s);
        assert CallInv(w.ledger, w.calls[j]);
        ApplyExtends(w, a);
        ReadyFrame(w.ledger.db, w'.ledger.db, w.calls[j], s);
      }
    }
  }

  /** The chain of `s` changes only when a call issuing for `s` inserts, and then by one link. */
  lemma ChainChange(w: World, a: Action, s: Id)
    requires s in w.ledger.mints && s in w.ledger.db.sessions
    ensures
      var w' := Apply(w, a);
      && s in w'.ledger.mints && w.ledger.mints[s] <= w'.ledger.mints[s]
      && (w'.ledger.mints[s] != w.ledger.mints[s] ==>
            && a.Run? && a.id in w.calls && w.calls[a.id].pc.Issuing? && w.calls[a.id].pc.session == s
            && Step(w.ledger.db, w.calls[a.id], a.env).1.pc != Done(Database)
            && |w'.ledger.mints[s]| == |w.ledger.mints[s]| + 1)
  {
  }

  /** One step after revocation: either the chain is as it was, or the last ready call has just minted. */
  lemma RevokedStep(w: World, a: Action, s: Id)
    requires Inv(w) && IsRevoked(w.ledger.db, s)
    ensures
      var w' := Apply(w, a);
      && s in w.ledger.mints && s in w'.ledger.mints && w.ledger.mints[s] <= w'.ledger.mints[s]
      && (InFlight(w', s) ==> InFlight(w, s))
      && (w'.ledger.mints[s] != w.ledger.mints[s] ==>
            InFlight(w, s) && !InFlight(w', s) && |w'.ledger.mints[s]| == |w.ledger.mints[s]| + 1)
  {
    var w' := Apply(w, a);
    ChainChange(w, a, s);
    if InFlight(w', s) { RevokedGainsNoFlight(w, a, s); }
    if w'.ledger.mints[s] != w.ledger.mints[s] {
      assert ReadyToMint(w.calls[a.id], w.ledger.db, s);
      MintClearsFlight(w, a.id, a.env, a.replyLost, s);
    }
  }

  lemma {:induction false} RevokedRun(w: World, s: Id, actions: seq<Action>)
    requires Inv(w) && IsRevoked(w.ledger.db, s)
    ensures
      var w' := Replay(w, actions);
      && Inv(w') && IsRevoked(w'.ledger.db, s)
      && s in w.ledger.mints && s in w'.ledger.mints && w.ledger.mints[s] <= w'.ledger.mints[s]
      && (InFlight(w', s) ==> InFlight(w, s))
      && (w'.ledger.mints[s] != w.ledger.mints[s] ==>
            InFlight(w, s) && !InFlight(w', s) && |w'.ledger.mints[s]| == |w.ledger.mints[s]| + 1)
    decreases |actions|
  {
    ReplayKeeps(w, actions);
    RevokedForever(w, s, actions);
    if actions != [] {
      var prefix := actions[..|actions| - 1];
      RevokedRun(w, s, prefix);
      RevokedStep(Replay(w, prefix), actions[|actions| - 1], s);
    }
  }

  /** The chains of a revoked session before and after any run. */
  lemma RevokedChains(w: World, s: Id, actions: seq<Action>)
    requires Inv(w) && IsRevoked(w.ledger.db, s)
    ensures
      var g, g' := w.ledger, Replay(w, actions).ledger;
      && s in g.mints && s in g'.mints && ChainOf(g.db, s, g.mints[s]) && ChainOf(g'.db, s, g'.mints[s])
      && g.mints[s] <= g'.mints[s] && |g'.mints[s]| <= |g.mints[s]| + 1
      && (!InFlight(w, s) ==> g'.mints[s] == g.mints[s])
  {
    RevokedRun(w, s, actions);
  }

  lemma AddedTokenIsLast(db: Db, chain: seq<Mint>, db': Db, chain': seq<Mint>, s: Id, t: Id)
    requires ChainOf(db, s, chain) && ChainOf(db', s, chain') && chain <= chain' && |chain'| <= |chain| + 1
    requires t in TokensOf(db', s) - TokensOf(db, s)
    ensures |chain'| == |chain| + 1 && t == chain'[|chain|].token
  {
    assert forall k :: 0 <= k < |chain| ==> chain'[k] == chain[k] && chain[k].token in TokensOf(db, s);
    assert InChain(chain', t);
  }

  lemma AtMostOneAdded(db: Db, chain: seq<Mint>, db': Db, chain': seq<Mint>, s: Id)
    requires ChainOf(db, s, chain) && ChainOf(db', s, chain') && chain <= chain' && |chain'| <= |chain| + 1
    ensures |TokensOf(db', s) - TokensOf(db, s)| <= 1
    ensures chain' == chain ==> TokensOf(db', s) - TokensOf(db, s) == {}
  {
    var added := TokensOf(db', s) - TokensOf(db, s);
    forall t, u | t in added && u in added ensures t == u {
      AddedTokenIsLast(db, chain, db', chain', s, t);
      AddedTokenIsLast(db, chain, db', chain', s, u);
    }
    SubsingletonCard(added);
    if t :| t in added { AddedTokenIsLast(db, chain, db', chain', s, t); }
  }

  /** At most one token is ever added to a session after its revocation, however many calls were in flight. */
  lemma AtMostOneMintAfterRevocation(w: World, s: Id, actions: seq<Action>)
    requires Reachable(w) && IsRevoked(w.ledger.db, s)
    ensures |TokensOf(Replay(w, actions).ledger.db, s) - TokensOf(w.ledger.db, s)| <= 1
  {
    ReachableInv(w);
    RevokedChains(w, s, actions);
    AtMostOneAdded(w.ledger.db, w.ledger.mints[s], Replay(w, actions).ledger.db, Replay(w, actions).ledger.mints[s], s);
  }

  // ---- When exactly a revocation is the last word ----

  lemma FreshNat(used: set<nat>) returns (n: nat)
    ensures n !in used && forall m :: m in used ==> m < n
  {
    n := 0;
    var rest := used;
    while rest != {}
      invariant rest <= used
      invariant forall m :: m in used && m !in rest ==> m < n
      decreases rest
    {
      var m :| m in rest;
      n := if m < n then n else m + 1;
      rest := rest - {m};
    }
  }

  lemma ReplayTwo(w: World, a: Action, b: Action)
    ensures Replay(w, [a]) == Apply(w, a)
    ensures Replay(w, [a, b]) == Apply(Apply(w, a), b)
  {
    assert [a][..0] == [] && [a, b][..1] == [a];
    assert Replay(w, []) == w;
  }

  lemma FreshRow(db: Db) returns (id: Id, hash: Hash)
    ensures id !in db.tokens && !HashTaken(db, hash)
  {
    id := FreshNat(db.tokens.Keys);
    var hashes := set t | t in db.tokens :: db.tokens[t].tokenHash;
    hash := FreshNat(hashes);
    assert forall t :: t in db.tokens ==> db.tokens[t].tokenHash in hashes;
  }

  /** A call about to insert can complete, and the token it adds is not revoked. */
  lemma IssuerCanMint(w: World, i: nat, s: Id) returns (a: Action)
    requires i in w.calls && w.calls[i].pc.Issuing? && w.calls[i].pc.session == s && s in w.ledger.db.sessions
    ensures exists t :: t in TokensOf(Apply(w, a).ledger.db, s) - TokensOf(w.ledger.db, s)
                     && Apply(w, a).ledger.db.tokens[t].revokedAt == None
  {
    var id, hash := FreshRow(w.ledger.db);
    a := Run(i, Env(0, id, hash, 0), false);
    assert id in TokensOf(Apply(w, a).ledger.db, s) - TokensOf(w.ledger.db, s);
  }

  /** A call about to win an un-rotated token becomes the issuer of its session. */
  lemma RotatorBecomesIssuer(w: World, i: nat, s: Id)
    requires i in w.calls && w.calls[i].pc.Rotating? && w.calls[i].pc.session == s
    requires w.calls[i].pc.token in w.ledger.db.tokens && !IsRotated(w.ledger.db, w.calls[i].pc.token)
    ensures
      var w' := Apply(w, Run(i, Env(0, 0, 0, 0), false));
      && i in w'.calls && w'.calls[i].pc.Issuing? && w'.calls[i].pc.session == s
      && TokensOf(w'.ledger.db, s) == TokensOf(w.ledger.db, s)
  {
  }

  lemma FlightCanMint(w: World, s: Id) returns (actions: seq<Action>)
    requires Inv(w) && InFlight(w, s)
    ensures exists t :: t in TokensOf(Replay(w, actions).ledger.db, s) - TokensOf(w.ledger.db, s)
                     && Replay(w, actions).ledger.db.tokens[t].revokedAt == None
  {
    var i :| i in w.calls && ReadyToMint(w.calls[i], w.ledger.db, s);
    assert CallInv(w.ledger, w.calls[i]);
    if w.calls[i].pc.Issuing? {
      var a := IssuerCanMint(w, i, s);
      ReplayTwo(w, a, a);
      actions := [a];
    } else {
      var a := Run(i, Env(0, 0, 0, 0), false);
      RotatorBecomesIssuer(w, i, s);
      ApplyKeeps(w, a);
      assert CallInv(Apply(w, a).ledger, Apply(w, a).calls[i]);
      var b := IssuerCanMint(Apply(w, a), i, s);
      ReplayTwo(w, a, b);
      actions := [a, b];
    }
  }

  lemma TokensStay(w: World, s: Id, actions: seq<Action>)
    ensures TokensOf(w.ledger.db, s) <= TokensOf(Replay(w, actions).ledger.db, s)
  {
    ReplayExtends(w, actions);
  }

  lemma GroundedRevocation(w: World, s: Id, actions: seq<Action>)
    requires Inv(w) && IsRevoked(w.ledger.db, s) && !InFlight(w, s)
    ensures TokensOf(Replay(w, actions).ledger.db, s) == TokensOf(w.ledger.db, s)
  {
    RevokedChains(w, s, actions);
    AtMostOneAdded(w.ledger.db, w.ledger.mints[s], Replay(w, actions).ledger.db, Replay(w, actions).ledger.mints[s], s);
    TokensStay(w, s, actions);
  }

  /** A revoked session never gains another token exactly when nobody is in flight for it. */
  lemma RevocationIsFinalIff(w: World, s: Id)
    requires Reachable(w) && IsRevoked(w.ledger.db, s)
    ensures !InFlight(w, s) <==>
            forall actions :: TokensOf(Replay(w, actions).ledger.db, s) == TokensOf(w.ledger.db, s)
  {
    ReachableInv(w);
    if InFlight(w, s) {
      var actions := FlightCanMint(w, s);
      assert TokensOf(Replay(w, actions).ledger.db, s) != TokensOf(w.ledger.db, s);
    } else {
      forall actions ensures TokensOf(Replay(w, actions).ledger.db, s) == TokensOf(w.ledger.db, s) {
        GroundedRevocation(w, s, actions);
      }
    }
  }

  /** Every token of the session is marked revoked. */
  ghost predicate AllRevoked(db: Db, s: Id) {
    forall t :: t in db.tokens && db.tokens[t].sessionId == s ==> db.tokens[t].revokedAt.Some?
  }

  lemma RevokedTokensStayRevoked(w: World, s: Id, actions: seq<Action>)
    requires Inv(w) && IsRevoked(w.ledger.db, s) && !InFlight(w, s) && AllRevoked(w.ledger.db, s)
    ensures AllRevoked(Replay(w, actions).ledger.db, s)
  {
    GroundedRevocation(w, s, actions);
    ReplayExtends(w, actions);
    var db, db' := w.ledger.db, Replay(w, actions).ledger.db;
    forall t | t in db'.tokens && db'.tokens[t].sessionId == s ensures db'.tokens[t].revokedAt.Some? {
      assert t in TokensOf(db', s);
      assert t in TokensOf(db, s);
    }
  }

  /** A revoked session keeps only revoked tokens exactly when it has only those now and nobody is in flight. */
  lemma TokensStayRevokedIff(w: World, s: Id)
    requires Reachable(w) && IsRevoked(w.ledger.db, s)
    ensures AllRevoked(w.ledger.db, s) && !InFlight(w, s) <==>
            forall actions :: AllRevoked(Replay(w, actions).ledger.db, s)
  {
    ReachableInv(w);
    if AllRevoked(w.ledger.db, s) && !InFlight(w, s) {
      forall actions ensures AllRevoked(Replay(w, actions).ledger.db, s) {
        RevokedTokensStayRevoked(w, s, actions);
      }
    } else if InFlight(w, s) {
      var actions := FlightCanMint(w, s);
      assert !AllRevoked(Replay(w, actions).ledger.db, s);
    } else {
      assert Replay(w, []) == w;
      assert !AllRevoked(Replay(w, []).ledger.db, s);
    }
  }

  lemma ReplaySnoc(w: World, actions: seq<Action>, a: Action)
    ensures Replay(w, actions + [a]) == Apply(Replay(w, actions), a)
  {
    assert (actions + [a])[..|actions|] == actions;
  }

  lemma ReachableStep(w: World, a: Action)
    requires Reachable(w)
    ensures Reachable(Apply(w, a))
  {
    var actions :| w == Replay(EMPTY, actions);
    ReplaySnoc(EMPTY, actions, a);
  }

  lemma AfterALogin() returns (w: World)
    ensures Reachable(w) && w.calls.Keys == {0}
    ensures w.ledger.db == Db(map[1 := Session(7, None)], map[10 := RefreshToken(1, 7, 100, 9, None, None)])
  {
    assert Replay(EMPTY, []) == EMPTY;
    var a, b, c := Start(0, Login(Some(7))), Run(0, Env(0, 1, 0, 0), false), Run(0, Env(0, 10, 100, 9), false);
    ReachableStep(EMPTY, a);
    ReachableStep(Apply(EMPTY, a), b);
    ReachableStep(Apply(Apply(EMPTY, a), b), c);
    w := Apply(Apply(Apply(EMPTY, a), b), c);
  }

  lemma ReadyAfterTwoReads(w: World) returns (w': World)
    requires Reachable(w) && w.calls.Keys == {0}
    requires w.ledger.db == Db(map[1 := Session(7, None)], map[10 := RefreshToken(1, 7, 100, 9, None, None)])
    ensures Reachable(w') && w'.ledger.db == w.ledger.db && w'.calls.Keys == {0, 1}
    ensures w'.calls[1].pc == Rotating(10, 1, 7)
  {
    assert HasHash(w.ledger.db, 10, 100);
    var a, b := Start(1, Refresh(100)), Run(1, Env(0, 0, 0, 0), false);
    ReachableStep(w, a);
    ReachableStep(Apply(w, a), b);
    ReachableStep(Apply(Apply(w, a), b), b);
    w' := Apply(Apply(Apply(w, a), b), b);
  }

  /** A logout commits while the refresh is about to consume its token. */
  lemma LogoutOvertakes(w: World) returns (w': World)
    requires Reachable(w) && w.calls.Keys == {0, 1} && w.calls[1].pc == Rotating(10, 1, 7)
    requires w.ledger.db == Db(map[1 := Session(7, None)], map[10 := RefreshToken(1, 7, 100, 9, None, None)])
    ensures Reachable(w') && IsRevoked(w'.ledger.db, 1) && InFlight(w', 1)
  {
    var a, b := Start(2, Logout(1)), Run(2, Env(0, 0, 0, 0), false);
    ReachableStep(w, a);
    ReachableStep(Apply(w, a), b);
    w' := Apply(Apply(w, a), b);
    assert ReadyToMint(w'.calls[1], w'.ledger.db, 1);
  }

  lemma {:induction false} ReachableRun(w: World, actions: seq<Action>)
    requires Reachable(w)
    ensures Reachable(Replay(w, actions))
    decreases |actions|
  {
    if actions != [] {
      ReachableRun(w, actions[..|actions| - 1]);
      ReachableStep(Replay(w, actions[..|actions| - 1]), actions[|actions| - 1]);
    }
  }

  /**
   "A revoked session has only revoked tokens" is not an invariant: a refresh that is past its activity check
   when a logout commits still consumes its token and inserts another, whose row is not revoked.
   */
  lemma RevokedSessionMayHoldAnUnrevokedToken()
    ensures exists w, t :: Reachable(w) && t in w.ledger.db.tokens && w.ledger.db.tokens[t].revokedAt == None
                        && IsRevoked(w.ledger.db, w.ledger.db.tokens[t].sessionId)
  {
    var w1 := AfterALogin();
    var w2 := ReadyAfterTwoReads(w1);
    var w3 := LogoutOvertakes(w2);
    ReachableInv(w3);
    var actions := FlightCanMint(w3, 1);
    ReachableRun(w3, actions);
    RevokedForever(w3, 1, actions);
  }
}

/**
 Login, refresh, logout and authentication as a concurrent protocol.

 Each call is a process that runs one database statement at a time; any number of calls interleave, and a
 call may die before or after any statement. A run is a list of actions replayed from empty tables, so a
 statement about all action lists is a statement about all interleavings.
 */
module Rotation {
  import opened Common
  import opened SessionTables

  datatype Call =
    | Login(user: Option<Id>)       // the account whose password verified, if any
    | Refresh(hash: Hash)
    | Logout(session: Id)
    | Authenticate(sid: Option<Id>) // the session named by a valid access token; also the per-prompt check

  datatype Reason = BadCredentials | UnknownToken | TokenRevoked | Expired | SessionInactive | Reuse

  datatype Reply =
    | Pair(session: Id, hash: Hash)
    | LoggedOut
    | Accepted(session: Id)
    | Unauthorized(reason: Reason)
    | Database

  /** What a call does next. A refresh carries the row it read in `token`. */
  datatype Pc =
    | CreatingSession(user: Id)
    | Issuing(user: Id, session: Id)
    | Finding(hash: Hash)
    | CheckingActive(token: Id, session: Id, user: Id)
    | Rotating(token: Id, session: Id, user: Id)
    | Revoking(session: Id, reply: Reply)
    | CheckingSession(session: Id)
    | Done(reply: Reply)

  /** `read` is the token row a refresh found, `consumed` the token it won from `mark_rotated`. */
  datatype Process = Process(call: Call, pc: Pc, read: Option<Id>, consumed: Option<Id>)

  /** What one statement takes from outside: the clock, a random id, a random token's hash and its expiry. */
  datatype Env = Env(now: Time, id: Id, hash: Hash, expiresAt: Time)

  function Begin(call: Call): Process {
    var pc :=
      match call
      case Login(None) => Done(Unauthorized(BadCredentials))
      case Login(Some(user)) => CreatingSession(user)
      case Refresh(hash) => Finding(hash)
      case Logout(session) => Revoking(session, LoggedOut)
      case Authenticate(None) => Done(Unauthorized(SessionInactive))
      case Authenticate(Some(sid)) => CheckingSession(sid);
    Process(call, pc, None, None)
  }

  /** The local checks `refresh` makes on the row it read, in the order the code makes them. */
  function Inspect(token: Id, row: RefreshToken, now: Time): Pc {
    if row.rotatedAt.Some? then Revoking(row.sessionId, Unauthorized(Reuse))
    else if row.revokedAt.Some? then Done(Unauthorized(TokenRevoked))
    else if row.expiresAt < now then Done(Unauthorized(Expired))
    else CheckingActive(token, row.sessionId, row.userId)
  }

  /** One statement of one call. */
  ghost function Step(db: Db, p: Process, e: Env): (Db, Process) {
    match p.pc
    case CreatingSession(user) =>
      (match CreateSession(db, e.id, user)
       case None => (db, p.(pc := Done(Database)))
       case Some(db') => (db', p.(pc := Issuing(user, e.id))))
    case Issuing(user, session) =>
      (match InsertToken(db, e.id, session, user, e.hash, e.expiresAt)
       case None => (db, p.(pc := Done(Database)))
       case Some(db') => (db', p.(pc := Done(Pair(session, e.hash)))))
    case Finding(hash) =>
      (match FindToken(db, hash)
       case None => (db, p.(pc := Done(Unauthorized(UnknownToken))))
       case Some(token) => (db, p.(pc := Inspect(token, db.tokens[token], e.now), read := Some(token))))
    case CheckingActive(token, session, user) =>
      (db, p.(pc := if IsActive(db, session) then Rotating(token, session, user)
                    else Done(Unauthorized(SessionInactive))))
    case Rotating(token, session, user) =>
      var (db', changed) := MarkRotated(db, token, e.now);
      (db', if changed then p.(pc := Issuing(user, session), consumed := Some(token))
            else p.(pc := Revoking(session, Unauthorized(Reuse))))
    case Revoking(session, reply) =>
      (RevokeSession(db, session, e.now), p.(pc := Done(reply)))
    case CheckingSession(session) =>
      (db, p.(pc := Done(if IsActive(db, session) then Accepted(session) else Unauthorized(SessionInactive))))
    case Done(_) =>
      (db, p)
  }

  /** A refresh token entering the tables, with the token that was consumed to mint it. */
  datatype Mint = Mint(token: Id, consumed: Option<Id>)

  /** The tables, and (history only) the tokens of each session in the order they were inserted. */
  datatype Ledger = Ledger(db: Db, mints: map<Id, seq<Mint>>)

  datatype World = World(ledger: Ledger, calls: map<nat, Process>)

  /** `replyLost` is a statement that committed although the call saw a connection error. */
  datatype Action =
    | Start(id: nat, call: Call)
    | Run(id: nat, env: Env, replyLost: bool)
    | Die(id: nat)

  function Record(mints: map<Id, seq<Mint>>, p: Process, next: Pc, e: Env): map<Id, seq<Mint>> {
    if p.pc.CreatingSession? && next.Issuing? then mints[e.id := []]
    else if p.pc.Issuing? && next.Done? && next.reply.Pair? then
      mints[p.pc.session :=
        (if p.pc.session in mints then mints[p.pc.session] else []) + [Mint(e.id, p.consumed)]]
    else mints
  }

  /** What one statement of call `p` does to the tables and the history. */
  ghost function After(g: Ledger, p: Process, e: Env): Ledger {
    var (db', p') := Step(g.db, p, e);
    Ledger(db', Record(g.mints, p, p'.pc, e))
  }

  ghost function Apply(w: World, a: Action): World {
    match a
    case Start(id, call) =>
      if id in w.calls then w else w.(calls := w.calls[id := Begin(call)])
    case Run(id, e, replyLost) =>
      if id !in w.calls then w
      else
        var p := w.calls[id];
        var p' := Step(w.ledger.db, p, e).1;
        World(After(w.ledger, p, e),
              w.calls[id := if replyLost && !p.pc.Done? then p.(pc := Done(Database)) else p'])
    case Die(id) =>
      if id !in w.calls || w.calls[id].pc.Done? then w
      else w.(calls := w.calls[id := w.calls[id].(pc := Done(Database))])
  }

  ghost function Replay(w: World, actions: seq<Action>): World {
    if actions == [] then w else Apply(Replay(w, actions[..|actions| - 1]), actions[|actions| - 1])
  }

  const EMPTY: World := World(Ledger(Db(map[], map[]), map[]), map[])

  // ---- The invariant ----

  ghost predicate InChain(chain: seq<Mint>, t: Id) {
    exists k :: 0 <= k < |chain| && chain[k].token == t
  }

  /** The tokens of a session are one chain, every token but the last of it consumed to mint the next. */
  ghost predicate ChainOf(db: Db, s: Id, chain: seq<Mint>) {
    && (forall k :: 0 <= k < |chain| ==> chain[k].token in db.tokens && db.tokens[chain[k].token].sessionId == s)
    && (forall j, k :: 0 <= j < k < |chain| ==> chain[j].token != chain[k].token)
    && (forall t :: t in db.tokens && db.tokens[t].sessionId == s ==> InChain(chain, t))
    && (|chain| > 0 ==> chain[0].consumed == None)
    && (forall j, k :: 0 <= j && j + 1 == k < |chain| ==> chain[k].consumed == Some(chain[j].token))
    && (forall k :: 0 <= k < |chain| - 1 ==> IsRotated(db, chain[k].token))
  }

  ghost predicate Chains(g: Ledger) {
    g.mints.Keys == g.db.sessions.Keys && forall s :: s in g.mints ==> ChainOf(g.db, s, g.mints[s])
  }

  /** What a call must hold to insert a token for `s`: it created the session, or it consumed the last token. */
  ghost predicate MayExtend(db: Db, chain: seq<Mint>, consumed: Option<Id>) {
    match consumed
    case None => chain == []
    case Some(t) => |chain| > 0 && chain[|chain| - 1].token == t && IsRotated(db, t)
  }

  /** The call is a refresh, and this is the row its token names. */
  ghost predicate Presents(db: Db, p: Process, token: Id) {
    p.call.Refresh? && HasHash(db, token, p.call.hash)
  }

  ghost predicate PcInv(g: Ledger, p: Process)
    requires p.read.Some? ==> Presents(g.db, p, p.read.value)
  {
    match p.pc
    case CreatingSession(_) => p.call.Login?
    case Finding(hash) => p.call == Refresh(hash) && p.read == None
    case CheckingSession(s) => p.call == Authenticate(Some(s))
    case Issuing(_, s) =>
      && s in g.mints
      && MayExtend(g.db, g.mints[s], p.consumed)
      && (p.consumed == None ==> p.call.Login?)
    case CheckingActive(t, s, _) => p.read == Some(t) && g.db.tokens[t].sessionId == s
    case Rotating(t, s, _) => p.read == Some(t) && g.db.tokens[t].sessionId == s
    case Revoking(s, reply) =>
      || (reply == LoggedOut && p.call == Logout(s))
      || (reply == Unauthorized(Reuse) && p.read.Some? && g.db.tokens[p.read.value].sessionId == s
          && IsRotated(g.db, p.read.value))
    case Done(reply) =>
      && (reply.Unauthorized? && p.read.Some? ==>
            reply.reason == Expired || IsRevoked(g.db, g.db.tokens[p.read.value].sessionId))
      && (reply.Pair? ==>
            || p.call.Login?
            || (p.consumed.Some? && p.read.Some? && g.db.tokens[p.read.value].sessionId == reply.session))
      && (reply.LoggedOut? ==> p.call.Logout?)
      && (reply.Accepted? ==> p.call == Authenticate(Some(reply.session)))
      && (reply.Unauthorized? && p.call.Refresh? && p.read == None ==> reply.reason == UnknownToken)
  }

  ghost predicate CallInv(g: Ledger, p: Process) {
    && (p.read.Some? ==> Presents(g.db, p, p.read.value))
    && (p.consumed.Some? ==> p.read == p.consumed && IsRotated(g.db, p.consumed.value))
    && (p.consumed.Some? ==> p.pc.Issuing? || p.pc.Done?)
    && PcInv(g, p)
  }

  ghost predicate Calls(g: Ledger, calls: map<nat, Process>) {
    forall i :: i in calls ==> CallInv(g, calls[i])
  }

  ghost predicate OneIssuer(calls: map<nat, Process>) {
    forall i, j :: i in calls && j in calls && i != j && calls[i].pc.Issuing? && calls[j].pc.Issuing?
      ==> calls[i].pc.session != calls[j].pc.session
  }

  ghost predicate OneConsumer(calls: map<nat, Process>) {
    forall i, j :: i in calls && j in calls && i != j && calls[i].consumed.Some?
      ==> calls[i].consumed != calls[j].consumed
  }

  ghost predicate Inv(w: World) {
    && WellFormed(w.ledger.db) && Chains(w.ledger) && Calls(w.ledger, w.calls)
    && OneIssuer(w.calls) && OneConsumer(w.calls)
  }

  // ---- The invariant is inductive ----

  /** No statement loses a row or clears a mark. */
  lemma StepExtends(db: Db, p: Process, e: Env)
    ensures Extends(db, Step(db, p, e).0)
  {
  }

  lemma StepKeepsTables(db: Db, p: Process, e: Env)
    requires WellFormed(db)
    ensures WellFormed(Step(db, p, e).0)
  {
    match p.pc
    case CreatingSession(user) =>
      if CreateSession(db, e.id, user).Some? { CreateSessionKeeps(db, e.id, user); }
    case Issuing(user, session) =>
      if InsertToken(db, e.id, session, user, e.hash, e.expiresAt).Some? {
        InsertTokenKeeps(db, e.id, session, user, e.hash, e.expiresAt);
      }
    case Rotating(token, _, _) => MarkRotatedKeeps(db, token, e.now);
    case Revoking(session, _) => RevokeSessionKeeps(db, session, e.now);
    case _ =>
  }

  /** A token that is not yet rotated is the last of its session's chain. */
  lemma UnrotatedIsLast(db: Db, s: Id, chain: seq<Mint>, t: Id)
    requires ChainOf(db, s, chain) && t in db.tokens && db.tokens[t].sessionId == s && !IsRotated(db, t)
    ensures |chain| > 0 && chain[|chain| - 1].token == t
  {
    assert InChain(chain, t);
  }

  lemma ChainFrame(db: Db, db': Db, s: Id, chain: seq<Mint>)
    requires ChainOf(db, s, chain) && Extends(db, db')
    requires forall t :: t in db'.tokens && db'.tokens[t].sessionId == s ==> t in db.tokens
    ensures ChainOf(db', s, chain)
  {
  }

  lemma GrownChainHoldsAll(db: Db, db': Db, s: Id, chain: seq<Mint>, m: Mint)
    requires Extends(db, db') && m.token in db'.tokens && db'.tokens.Keys == db.tokens.Keys + {m.token}
    requires forall t :: t in db.tokens && db.tokens[t].sessionId == s ==> InChain(chain, t)
    ensures forall t :: t in db'.tokens && db'.tokens[t].sessionId == s ==> InChain(chain + [m], t)
  {
    var chain' := chain + [m];
    forall t | t in db'.tokens && db'.tokens[t].sessionId == s ensures InChain(chain', t) {
      if t == m.token {
        assert chain'[|chain|].token == t;
      } else {
        assert InChain(chain, t);
        var k :| 0 <= k < |chain| && chain[k].token == t;
        assert chain'[k].token == t;
      }
    }
  }

  lemma ChainGrows(db: Db, db': Db, s: Id, chain: seq<Mint>, m: Mint)
    requires ChainOf(db, s, chain) && MayExtend(db, chain, m.consumed) && Extends(db, db')
    requires m.token !in db.tokens && m.token in db'.tokens && db'.tokens[m.token].sessionId == s
    requires db'.tokens.Keys == db.tokens.Keys + {m.token}
    ensures ChainOf(db', s, chain + [m])
  {
    GrownChainHoldsAll(db, db', s, chain, m);
  }

  /** The only statement that adds a token is the insert of an issuing call. */
  lemma OnlyIssuingMints(g: Ledger, p: Process, e: Env)
    requires g.mints.Keys == g.db.sessions.Keys
    requires !p.pc.Issuing? || Step(g.db, p, e).1.pc == Done(Database)
    ensures var g' := After(g, p, e);
      && g'.db.tokens.Keys == g.db.tokens.Keys && g'.mints.Keys == g'.db.sessions.Keys
      && (forall s :: s in g'.mints ==> g'.mints[s] == if s in g.mints then g.mints[s] else [])
  {
  }

  lemma MintKeepsChains(g: Ledger, g': Ledger, s: Id, m: Mint)
    requires Chains(g) && s in g.mints && MayExtend(g.db, g.mints[s], m.consumed) && Extends(g.db, g'.db)
    requires g'.db.sessions.Keys == g.db.sessions.Keys && g'.mints == g.mints[s := g.mints[s] + [m]]
    requires m.token !in g.db.tokens && g'.db.tokens.Keys == g.db.tokens.Keys + {m.token}
    requires g'.db.tokens[m.token].sessionId == s
    ensures Chains(g')
  {
    forall r | r in g'.mints ensures ChainOf(g'.db, r, g'.mints[r]) {
      if r == s {
        ChainGrows(g.db, g'.db, s, g.mints[s], m);
      } else {
        ChainFrame(g.db, g'.db, r, g.mints[r]);
      }
    }
  }

  lemma ChainsFrame(g: Ledger, g': Ledger)
    requires ForeignKeys(g.db) && Chains(g) && Extends(g.db, g'.db)
    requires g'.db.tokens.Keys == g.db.tokens.Keys && g'.mints.Keys == g'.db.sessions.Keys
    requires forall s :: s in g'.mints ==> g'.mints[s] == if s in g.mints then g.mints[s] else []
    ensures Chains(g')
  {
    forall s | s in g'.mints ensures ChainOf(g'.db, s, g'.mints[s]) {
      ChainFrame(g.db, g'.db, s, g'.mints[s]);
    }
  }

  lemma StepKeepsChains(g: Ledger, p: Process, e: Env)
    requires ForeignKeys(g.db) && Chains(g) && CallInv(g, p)
    ensures Chains(After(g, p, e))
  {
    if p.pc.Issuing? && Step(g.db, p, e).1.pc != Done(Database) {
      StepExtends(g.db, p, e);
      MintKeepsChains(g, After(g, p, e), p.pc.session, Mint(e.id, p.consumed));
    } else {
      OnlyIssuingMints(g, p, e);
      StepExtends(g.db, p, e);
      ChainsFrame(g, After(g, p, e));
    }
  }

  /** A call keeps its invariant while others run, as long as nobody else mints for the session it mints for. */
  lemma CallFrame(g: Ledger, g': Ledger, q: Process)
    requires CallInv(g, q) && Extends(g.db, g'.db)
    requires q.pc.Issuing? ==> q.pc.session in g'.mints && g'.mints[q.pc.session] == g.mints[q.pc.session]
    ensures CallInv(g', q)
  {
  }

  /** Winning `mark_rotated` makes the call the one that may extend the chain. */
  lemma RotateKeepsSelf(g: Ledger, p: Process, e: Env)
    requires ForeignKeys(g.db) && Chains(g) && CallInv(g, p) && p.pc.Rotating?
    ensures CallInv(After(g, p, e), Step(g.db, p, e).1)
  {
    if !IsRotated(g.db, p.pc.token) {
      UnrotatedIsLast(g.db, p.pc.session, g.mints[p.pc.session], p.pc.token);
    }
  }

  /** A refresh that finds a revoked row finds a revoked session. */
  lemma FindKeepsSelf(g: Ledger, p: Process, e: Env)
    requires RevokedTokensHaveRevokedSessions(g.db) && CallInv(g, p) && p.pc.Finding?
    ensures CallInv(After(g, p, e), Step(g.db, p, e).1)
  {
  }

  lemma RevokeKeepsSelf(g: Ledger, p: Process, e: Env)
    requires ForeignKeys(g.db) && CallInv(g, p) && p.pc.Revoking?
    ensures CallInv(After(g, p, e), Step(g.db, p, e).1)
  {
  }

  lemma MintKeepsSelf(g: Ledger, p: Process, e: Env)
    requires Chains(g) && CallInv(g, p) && (p.pc.CreatingSession? || p.pc.Issuing?)
    ensures CallInv(After(g, p, e), Step(g.db, p, e).1)
  {
  }

  lemma CheckKeepsSelf(g: Ledger, p: Process, e: Env)
    requires ForeignKeys(g.db) && CallInv(g, p) && (p.pc.CheckingActive? || p.pc.CheckingSession? || p.pc.Done?)
    ensures CallInv(After(g, p, e), Step(g.db, p, e).1)
  {
  }

  lemma StepKeepsSelf(g: Ledger, p: Process, e: Env)
    requires WellFormed(g.db) && Chains(g) && CallInv(g, p)
    ensures CallInv(After(g, p, e), Step(g.db, p, e).1)
  {
    match p.pc
    case Rotating(_, _, _) => RotateKeepsSelf(g, p, e);
    case Finding(_) => FindKeepsSelf(g, p, e);
    case Revoking(_, _) => RevokeKeepsSelf(g, p, e);
    case CreatingSession(_) => MintKeepsSelf(g, p, e);
    case Issuing(_, _) => MintKeepsSelf(g, p, e);
    case _ => CheckKeepsSelf(g, p, e);
  }

  /** While a call is minting for a session, every token of the session is rotated. */
  lemma IssuerMeansAllRotated(g: Ledger, q: Process, t: Id)
    requires Chains(g) && CallInv(g, q) && q.pc.Issuing?
    requires t in g.db.tokens && g.db.tokens[t].sessionId == q.pc.session
    ensures IsRotated(g.db, t)
  {
    var s := q.pc.session;
    if !IsRotated(g.db, t) {
      UnrotatedIsLast(g.db, s, g.mints[s], t);
    }
  }

  /** A call that becomes an issuer does so for a session nobody else is minting for. */
  lemma NewIssuerIsAlone(g: Ledger, p: Process, e: Env, q: Process)
    requires Chains(g) && CallInv(g, p) && CallInv(g, q) && q.pc.Issuing?
    requires !p.pc.Issuing? && Step(g.db, p, e).1.pc.Issuing?
    ensures Step(g.db, p, e).1.pc.session != q.pc.session
  {
    if p.pc.Rotating? && p.pc.session == q.pc.session {
      IssuerMeansAllRotated(g, q, p.pc.token);
    }
  }

  lemma StepKeepsOthers(g: Ledger, p: Process, e: Env, q: Process)
    requires CallInv(g, p) && CallInv(g, q) && g.mints.Keys == g.db.sessions.Keys
    requires p.pc.Issuing? && q.pc.Issuing? ==> p.pc.session != q.pc.session
    ensures CallInv(After(g, p, e), q)
  {
    StepExtends(g.db, p, e);
    CallFrame(g, After(g, p, e), q);
  }

  lemma RunKeepsCalls(w: World, i: nat, e: Env, replyLost: bool)
    requires Inv(w) && i in w.calls
    ensures var w' := Apply(w, Run(i, e, replyLost)); Calls(w'.ledger, w'.calls)
  {
    var p, w' := w.calls[i], Apply(w, Run(i, e, replyLost));
    forall j | j in w'.calls ensures CallInv(w'.ledger, w'.calls[j]) {
      if j != i {
        StepKeepsOthers(w.ledger, p, e, w.calls[j]);
      } else {
        StepKeepsSelf(w.ledger, p, e);
        StepExtends(w.ledger.db, p, e);
      }
    }
  }

  lemma RunKeepsOneIssuer(w: World, i: nat, e: Env, replyLost: bool)
    requires Inv(w) && i in w.calls
    ensures OneIssuer(Apply(w, Run(i, e, replyLost)).calls)
  {
    var p, w' := w.calls[i], Apply(w, Run(i, e, replyLost));
    forall j | j in w.calls && j != i && w'.calls[i].pc.Issuing? && w.calls[j].pc.Issuing?
      ensures w'.calls[i].pc.session != w.calls[j].pc.session
    {
      if !p.pc.Issuing? { NewIssuerIsAlone(w.ledger, p, e, w.calls[j]); }
    }
  }

  lemma RunKeepsOneConsumer(w: World, i: nat, e: Env, replyLost: bool)
    requires Calls(w.ledger, w.calls) && OneConsumer(w.calls) && i in w.calls
    ensures OneConsumer(Apply(w, Run(i, e, replyLost)).calls)
  {
    var w' := Apply(w, Run(i, e, replyLost));
    forall j | j in w.calls && j != i && w.calls[j].consumed.Some?
      ensures w'.calls[i].consumed != w.calls[j].consumed
    {
      assert CallInv(w.ledger, w.calls[j]);
    }
  }

  /** Every action keeps the invariant. */
  lemma ApplyKeeps(w: World, a: Action)
    requires Inv(w)
    ensures Inv(Apply(w, a))
  {
    if a.Run? && a.id in w.calls {
      StepKeepsTables(w.ledger.db, w.calls[a.id], a.env);
      StepKeepsChains(w.ledger, w.calls[a.id], a.env);
      RunKeepsCalls(w, a.id, a.env, a.replyLost);
      RunKeepsOneIssuer(w, a.id, a.env, a.replyLost);
      RunKeepsOneConsumer(w, a.id, a.env, a.replyLost);
    }
  }

  /** In every interleaving, every world reached satisfies the invariant. */
  lemma {:induction false} ReplayKeeps(w: World, actions: seq<Action>)
    requires Inv(w)
    ensures Inv(Replay(w, actions))
    decreases |actions|
  {
    if actions != [] {
      ReplayKeeps(w, actions[..|actions| - 1]);
      ApplyKeeps(Replay(w, actions[..|actions| - 1]), actions[|actions| - 1]);
    }
  }
}

/**
 The store under concurrent use: every service call is a process that runs one database statement at a time, any
 number of calls of any users interleave, and a call may die before or after any statement.
 */
module StoreRuns {
  import opened Common
  import opened UserStore

  /** Calls are named by their user, so that a run can be read from one user's side. */
  datatype CallId = CallId(user: Id, number: nat)

  /** What a call does next. Only `messages::create` and `messages::list` run more than one statement. */
  datatype Pc =
    | OneStatement(op: Op)
    | OwnerForMessage(conversation: Id, fields: Option<Body>, keyId: Option<Id>)
    | OwnerForList(conversation: Id, limit: Option<int>, before: Option<Time>)
    | KeyForMessage(conversation: Id, body: Body, key: Id)
    | Inserting(conversation: Id, body: Body, keyId: Option<Id>)
    | Touching(conversation: Id, reply: Reply)
    | Paging(conversation: Id, limit: Option<int>, before: Option<Time>)
    | Finished(reply: Reply)

  function Begin(op: Op): Pc {
    match op
    case CreateMessage(c, body, keyId) => OwnerForMessage(c, body, keyId)
    case ListMessages(c, limit, before) => OwnerForList(c, limit, before)
    case _ => OneStatement(op)
  }

  /** The insert checks its primary key and both foreign keys, and nothing about owners. */
  function InsertMessage(s: Store, id: Id, row: Message): Option<Store> {
    if id in s.messages || row.conversationId !in s.conversations
       || (row.keyId.Some? && row.keyId.value !in s.keys)
    then None
    else Some(s.(messages := s.messages[id := row]))
  }

  /** One statement of one call. */
  function Statement(s: Store, user: Id, pc: Pc, e: Env): (Store, Pc) {
    match pc
    case OneStatement(op) =>
      var (s', reply) := Step(s, user, op, e);
      (s', Finished(reply))
    case OwnerForMessage(c, fields, keyId) =>
      (s, if !FindOwned(s, c, user) then Finished(NotFound)
          else if fields == None then Finished(Invalid)
          else if keyId.Some? then KeyForMessage(c, fields.value, keyId.value)
          else Inserting(c, fields.value, None))
    case KeyForMessage(c, body, key) =>
      (s, if KeyBelongsTo(s, key, user) then Inserting(c, body, Some(key)) else Finished(Invalid))
    case Inserting(c, body, keyId) =>
      var row := Message(c, user, body, keyId, e.now);
      (match InsertMessage(s, e.id, row)
       case None => (s, Finished(Database))
       case Some(s') => (s', Touching(c, OneMessage(e.id, row))))
    case Touching(c, reply) =>
      (Touch(s, c, e.now), Finished(reply))
    case OwnerForList(c, limit, before) =>
      (s, if FindOwned(s, c, user) then Paging(c, limit, before) else Finished(NotFound))
    case Paging(c, limit, before) =>
      (s, Finished(Messages(MessagesPage(s, c, user, before), PageSize(limit))))
    case Finished(_) =>
      (s, pc)
  }

  datatype World = World(store: Store, calls: map<CallId, Pc>)

  /** `replyLost` is a statement that committed although the call saw a connection error. */
  datatype Action =
    | Start(id: CallId, op: Op)
    | Run(id: CallId, env: Env, replyLost: bool)
    | Die(id: CallId)

  function Apply(w: World, a: Action): World {
    match a
    case Start(id, op) =>
      if id in w.calls then w else w.(calls := w.calls[id := Begin(op)])
    case Run(id, e, replyLost) =>
      if id !in w.calls then w
      else
        var (s', pc') := Statement(w.store, id.user, w.calls[id], e);
        World(s', w.calls[id := if replyLost && !w.calls[id].Finished? then Finished(Database) else pc'])
    case Die(id) =>
      if id !in w.calls || w.calls[id].Finished? then w else w.(calls := w.calls[id := Finished(Database)])
  }

  const START: World := World(EMPTY, map[])

  function Replay(run: seq<Action>): World {
    if run == [] then START else Apply(Replay(run[..|run| - 1]), run[|run| - 1])
  }

  // ---- What every reachable state satisfies ----

  ghost predicate OwnsConversation(s: Store, user: Id, c: Id) {
    c in s.conversations && s.conversations[c].userId == user
  }

  ghost predicate OwnsKey(s: Store, user: Id, k: Id) {
    k in s.keys && s.keys[k].userId == user
  }

  /** A call past its ownership checks still owns what it checked, deleted or not. */
  ghost predicate CallInv(s: Store, user: Id, pc: Pc) {
    match pc
    case KeyForMessage(c, _, _) => OwnsConversation(s, user, c)
    case Inserting(c, _, keyId) => OwnsConversation(s, user, c) && (keyId.Some? ==> OwnsKey(s, user, keyId.value))
    case Touching(c, _) => OwnsConversation(s, user, c)
    case _ => true
  }

  ghost predicate Inv(w: World) {
    Owned(w.store) && forall id :: id in w.calls ==> CallInv(w.store, id.user, w.calls[id])
  }

  /** Conversations and keys are never lost and never change hands. */
  ghost predicate KeepsOwners(s: Store, s': Store) {
    && (forall c :: c in s.conversations ==> OwnsConversation(s', s.conversations[c].userId, c))
    && (forall k :: k in s.keys ==> OwnsKey(s', s.keys[k].userId, k))
  }

  lemma StatementKeepsOwners(s: Store, user: Id, pc: Pc, e: Env)
    ensures KeepsOwners(s, Statement(s, user, pc, e).0)
  {
  }

  lemma StatementKeepsOwned(s: Store, user: Id, pc: Pc, e: Env)
    requires Owned(s) && CallInv(s, user, pc)
    ensures Owned(Statement(s, user, pc, e).0)
  {
    if pc.OneStatement? { StepKeepsOwned(s, user, pc.op, e); }
  }

  lemma StatementKeepsSelf(s: Store, user: Id, pc: Pc, e: Env)
    requires CallInv(s, user, pc)
    ensures CallInv(Statement(s, user, pc, e).0, user, Statement(s, user, pc, e).1)
  {
  }

  lemma CallFrame(s: Store, s': Store, user: Id, pc: Pc)
    requires CallInv(s, user, pc) && KeepsOwners(s, s')
    ensures CallInv(s', user, pc)
  {
  }

  lemma ApplyKeeps(w: World, a: Action)
    requires Inv(w)
    ensures Inv(Apply(w, a))
  {
    if a.Run? && a.id in w.calls {
      var pc, w' := w.calls[a.id], Apply(w, a);
      StatementKeepsOwners(w.store, a.id.user, pc, a.env);
      StatementKeepsOwned(w.store, a.id.user, pc, a.env);
      StatementKeepsSelf(w.store, a.id.user, pc, a.env);
      forall id | id in w'.calls ensures CallInv(w'.store, id.user, w'.calls[id]) {
        if id != a.id { CallFrame(w.store, w'.store, id.user, w.calls[id]); }
      }
    }
  }

  /** In every interleaving, a message's owner owns its conversation and its key. */
  lemma {:induction false} OwnershipHolds(run: seq<Action>)
    ensures Inv(Replay(run))
    decreases |run|
  {
    if run != [] {
      OwnershipHolds(run[..|run| - 1]);
      ApplyKeeps(Replay(run[..|run| - 1]), run[|run| - 1]);
    }
  }

  // ---- One statement against another user's rows ----

  /** A statement of one user changes no row of another: the unscoped `touch` only ever names its caller's own. */
  lemma OthersStatement(s: Store, u: Id, v: Id, pc: Pc, e: Env)
    requires u != v && CallInv(s, v, pc) && Unused(s, e.id)
    ensures SameFor(u, s, Statement(s, v, pc, e).0)
  {
    if pc.OneStatement? { OthersAreUntouched(s, u, v, pc.op, e); }
  }

  lemma OwnInsert(s: Store, t: Store, u: Id, pc: Pc, e: Env)
    requires SameFor(u, s, t) && CallInv(s, u, pc) && CallInv(t, u, pc) && Unused(s, e.id) && Unused(t, e.id)
    requires pc.Inserting?
    ensures Statement(s, u, pc, e).1 == Statement(t, u, pc, e).1
    ensures Covers(Statement(t, u, pc, e).0, Statement(s, u, pc, e).0, u)
  {
  }

  lemma OwnTouch(s: Store, t: Store, u: Id, c: Id, now: Time)
    requires SameFor(u, s, t) && OwnsConversation(s, u, c) && OwnsConversation(t, u, c)
    ensures Covers(Touch(t, c, now), Touch(s, c, now), u)
  {
  }

  /** What a statement answers, and what becomes of its user's rows, depends on that user's rows alone. */
  lemma OwnStatement(s: Store, t: Store, u: Id, pc: Pc, e: Env)
    requires SameFor(u, s, t) && CallInv(s, u, pc) && CallInv(t, u, pc) && Unused(s, e.id) && Unused(t, e.id)
    ensures Statement(s, u, pc, e).1 == Statement(t, u, pc, e).1
    ensures SameFor(u, Statement(s, u, pc, e).0, Statement(t, u, pc, e).0)
  {
    match pc
    case OneStatement(op) => OwnRowsDecide(s, t, u, op, e);
    case Inserting(_, _, _) =>
      OwnInsert(s, t, u, pc, e);
      OwnInsert(t, s, u, pc, e);
    case Touching(c, _) =>
      OwnTouch(s, t, u, c, e.now);
      OwnTouch(t, s, u, c, e.now);
    case Paging(c, _, before) => SamePage(s, t, u, c, before);
    case _ => SameQueries(s, t, u);
  }

  // ---- Runs, from one user's side ----

  /** The worlds are the same to `u`: the same rows, and the same calls with the same answers. */
  ghost predicate SameView(u: Id, w: World, w': World) {
    && SameFor(u, w.store, w'.store)
    && forall id: CallId :: id.user == u ==>
         && (id in w.calls <==> id in w'.calls)
         && (id in w.calls && id in w'.calls ==> w.calls[id] == w'.calls[id])
  }

  lemma OthersAction(u: Id, w: World, a: Action)
    requires Inv(w) && a.id.user != u && (a.Run? ==> Unused(w.store, a.env.id))
    ensures SameView(u, w, Apply(w, a))
  {
    if a.Run? && a.id in w.calls { OthersStatement(w.store, u, a.id.user, w.calls[a.id], a.env); }
  }

  lemma OwnAction(u: Id, w: World, w': World, a: Action)
    requires Inv(w) && Inv(w') && SameView(u, w, w') && a.id.user == u
    requires a.Run? ==> Unused(w.store, a.env.id) && Unused(w'.store, a.env.id)
    ensures SameView(u, Apply(w, a), Apply(w', a))
  {
    if a.Run? && a.id in w.calls { OwnStatement(w.store, w'.store, u, w.calls[a.id], a.env); }
  }

  lemma SameViewSym(u: Id, w: World, w': World)
    requires SameView(u, w, w')
    ensures SameView(u, w', w)
  {
  }

  lemma SameViewTrans(u: Id, w1: World, w2: World, w3: World)
    requires SameView(u, w1, w2) && SameView(u, w2, w3)
    ensures SameView(u, w1, w3)
  {
  }

  /** The run with everyone but `u` taken out. */
  function Only(u: Id, run: seq<Action>): seq<Action> {
    if run == [] then []
    else Only(u, run[..|run| - 1]) + if run[|run| - 1].id.user == u then [run[|run| - 1]] else []
  }

  /** The run draws this random id. */
  ghost predicate Draws(run: seq<Action>, id: Id) {
    exists i :: 0 <= i < |run| && run[i].Run? && run[i].env.id == id
  }

  /** Random ids do not repeat within a run. */
  ghost predicate FreshIds(run: seq<Action>) {
    forall i, j :: 0 <= i < j < |run| && run[i].Run? && run[j].Run? ==> run[i].env.id != run[j].env.id
  }

  lemma DrawsSnoc(run: seq<Action>, id: Id)
    requires run != []
    ensures Draws(run[..|run| - 1], id) ==> Draws(run, id)
    ensures run[|run| - 1].Run? && run[|run| - 1].env.id == id ==> Draws(run, id)
  {
    var init := run[..|run| - 1];
    if Draws(init, id) {
      var i :| 0 <= i < |init| && init[i].Run? && init[i].env.id == id;
      assert run[i] == init[i];
    }
  }

  lemma StatementUses(s: Store, user: Id, pc: Pc, e: Env, id: Id)
    requires Unused(s, id) && id != e.id
    ensures Unused(Statement(s, user, pc, e).0, id)
  {
  }

  /** Every row's id was drawn in the run. */
  lemma {:induction false} RowsHaveDrawnIds(run: seq<Action>, id: Id)
    ensures !Unused(Replay(run).store, id) ==> Draws(run, id)
    decreases |run|
  {
    if run != [] {
      var init, a := run[..|run| - 1], run[|run| - 1];
      RowsHaveDrawnIds(init, id);
      DrawsSnoc(run, id);
      var w := Replay(init);
      if Unused(w.store, id) && a.Run? && a.id in w.calls && a.env.id != id {
        StatementUses(w.store, a.id.user, w.calls[a.id], a.env, id);
      }
    }
  }

  lemma {:induction false} OnlyDrawsRunIds(u: Id, run: seq<Action>, id: Id)
    ensures Draws(Only(u, run), id) ==> Draws(run, id)
    decreases |run|
  {
    if run != [] {
      var init := run[..|run| - 1];
      OnlyDrawsRunIds(u, init, id);
      DrawsSnoc(run, id);
      if Draws(Only(u, run), id) {
        var own := Only(u, run);
        var i :| 0 <= i < |own| && own[i].Run? && own[i].env.id == id;
        assert i < |Only(u, init)| ==> own[i] == Only(u, init)[i];
      }
    }
  }

  lemma LastIdIsFresh(run: seq<Action>)
    requires run != [] && FreshIds(run)
    ensures FreshIds(run[..|run| - 1])
    ensures run[|run| - 1].Run? ==> !Draws(run[..|run| - 1], run[|run| - 1].env.id)
  {
    assert forall i :: 0 <= i < |run| - 1 ==> run[..|run| - 1][i] == run[i];
  }

  /** Taking everyone else out of a run changes neither a user's answers nor the user's rows. */
  lemma {:induction false} OthersDoNotInterfere(u: Id, run: seq<Action>)
    requires FreshIds(run)
    ensures SameView(u, Replay(run), Replay(Only(u, run)))
    decreases |run|
  {
    if run != [] {
      var init, a := run[..|run| - 1], run[|run| - 1];
      var alone := Only(u, init);
      LastIdIsFresh(run);
      OthersDoNotInterfere(u, init);
      OwnershipHolds(init);
      OwnershipHolds(alone);
      if a.Run? {
        RowsHaveDrawnIds(init, a.env.id);
        RowsHaveDrawnIds(alone, a.env.id);
        OnlyDrawsRunIds(u, init, a.env.id);
      }
      if a.id.user == u {
        OwnAction(u, Replay(init), Replay(alone), a);
        assert Only(u, run)[..|alone|] == alone;
      } else {
        OthersAction(u, Replay(init), a);
        SameViewSym(u, Replay(init), Replay(run));
        SameViewTrans(u, Replay(run), Replay(init), Replay(alone));
        assert Only(u, run) == alone;
      }
    }
  }

  /** Two runs in which `u` does the same, whatever anyone else does in between, are the same to `u`. */
  lemma NonInterference(u: Id, run: seq<Action>, run': seq<Action>)
    requires FreshIds(run) && FreshIds(run') && Only(u, run) == Only(u, run')
    ensures SameView(u, Replay(run), Replay(run'))
  {
    OthersDoNotInterfere(u, run);
    OthersDoNotInterfere(u, run');
    SameViewSym(u, Replay(run'), Replay(Only(u, run')));
    SameViewTrans(u, Replay(run), Replay(Only(u, run)), Replay(run'));
  }

  // ---- A call left alone ----

  /** The statements of a call one after the other, until it is finished. */
  function Alone(s: Store, user: Id, pc: Pc, e: Env, n: nat): (Store, Pc)
    decreases n
  {
    if n == 0 then (s, pc)
    else
      var (s', pc') := Statement(s, user, pc, e);
      Alone(s', user, pc', e, n - 1)
  }

  /** Run without interruption, the statements of any call amount to the one step of the sequential store. */
  lemma AloneIsStep(s: Store, user: Id, op: Op, e: Env)
    ensures Alone(s, user, Begin(op), e, 4) ==
            (Step(s, user, op, e).0, Finished(Step(s, user, op, e).1))
  {
    var (s1, pc1) := Statement(s, user, Begin(op), e);
    var (s2, pc2) := Statement(s1, user, pc1, e);
    var (s3, pc3) := Statement(s2, user, pc2, e);
    var (s4, pc4) := Statement(s3, user, pc3, e);
    assert Alone(s4, user, pc4, e, 0) == (s4, pc4);
    assert Alone(s3, user, pc3, e, 1) == (s4, pc4);
    assert Alone(s2, user, pc2, e, 2) == (s4, pc4);
    assert Alone(s1, user, pc1, e, 3) == (s4, pc4);
  }
}

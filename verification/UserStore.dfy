/** The per-user store: conversations, messages and keys, and the separation between users. */
module UserStore {
  import opened Common

  type Id = nat
  type Time = int

  const DEFAULT_PAGE_SIZE: int := 50
  const MAX_PAGE_SIZE: int := 200

  datatype Conversation = Conversation(
    userId: Id, title: string, model: Option<string>, createdAt: Time, updatedAt: Time, deletedAt: Option<Time>)

  datatype Body = Body(role: string, ciphertext: Bytes, nonce: Bytes, algorithm: string)

  datatype Message = Message(conversationId: Id, userId: Id, body: Body, keyId: Option<Id>, createdAt: Time)

  datatype KeyPair = KeyPair(ed25519: Bytes, x25519: Bytes)

  datatype KeyRow = KeyRow(userId: Id, keys: KeyPair, name: string, createdAt: Time, revokedAt: Option<Time>)

  datatype Store = Store(
    conversations: map<Id, Conversation>, messages: map<Id, Message>, keys: map<Id, KeyRow>)

  /** Field values as the validators leave them; `None` in place of the fields is a validation failure. */
  datatype Op =
    | CreateConversation(fields: Option<(string, Option<string>)>)
    | ListConversations
    | UpdateConversation(conversation: Id, changes: Option<(Option<string>, Option<string>)>)
    | DeleteConversation(conversation: Id)
    | CreateMessage(conversation: Id, body: Option<Body>, keyId: Option<Id>)
    | ListMessages(conversation: Id, limit: Option<int>, before: Option<Time>)
    | DeleteMessage(message: Id)
    | UploadKey(upload: Option<(KeyPair, string)>)
    | ListKeys

  /** A listing is given as the rows it ranges over and the page size; the database orders and cuts those. */
  datatype Reply =
    | OneConversation(id: Id, conversation: Conversation)
    | Conversations(conversations: map<Id, Conversation>)
    | OneMessage(id: Id, message: Message)
    | Messages(messages: map<Id, Message>, limit: int)
    | OneKey(id: Id, key: KeyRow)
    | Keys(keys: map<Id, KeyRow>)
    | Deleted
    | NotFound
    | Invalid
    | Conflict
    | Database

  /** What one statement takes from outside: the clock and a random id. */
  datatype Env = Env(now: Time, id: Id)

  // ---- The owner-scoped queries ----

  predicate FindOwned(s: Store, conversation: Id, user: Id) {
    && conversation in s.conversations
    && s.conversations[conversation].userId == user
    && s.conversations[conversation].deletedAt == None
  }

  predicate KeyBelongsTo(s: Store, key: Id, user: Id) {
    key in s.keys && s.keys[key].userId == user && s.keys[key].revokedAt == None
  }

  predicate LabelTaken(s: Store, user: Id, name: string) {
    exists k :: k in s.keys && s.keys[k].userId == user && s.keys[k].name == name
  }

  function Coalesce<T>(a: Option<T>, b: T): T {
    if a.Some? then a.value else b
  }

  function Clamp(n: int, lo: int, hi: int): int {
    if n < lo then lo else if n > hi then hi else n
  }

  function PageSize(limit: Option<int>): int {
    Clamp(Coalesce(limit, DEFAULT_PAGE_SIZE), 1, MAX_PAGE_SIZE)
  }

  /** `touch` names a conversation by id alone. */
  function Touch(s: Store, conversation: Id, now: Time): Store {
    if conversation in s.conversations then
      s.(conversations := s.conversations[conversation := s.conversations[conversation].(updatedAt := now)])
    else s
  }

  function MessagesPage(s: Store, conversation: Id, user: Id, before: Option<Time>): map<Id, Message> {
    map m | m in s.messages && s.messages[m].conversationId == conversation && s.messages[m].userId == user
            && (before.Some? ==> s.messages[m].createdAt < before.value) :: s.messages[m]
  }

  /** One service call by an authenticated user, run without interruption. */
  function Step(s: Store, user: Id, op: Op, e: Env): (Store, Reply) {
    match op
    case CreateConversation(fields) =>
      if fields == None then (s, Invalid)
      else if e.id in s.conversations then (s, Database)
      else
        var row := Conversation(user, fields.value.0, fields.value.1, e.now, e.now, None);
        (s.(conversations := s.conversations[e.id := row]), OneConversation(e.id, row))
    case ListConversations =>
      (s, Conversations(map c | c in s.conversations && FindOwned(s, c, user) :: s.conversations[c]))
    case UpdateConversation(c, changes) =>
      if changes == None then (s, Invalid)
      else if !FindOwned(s, c, user) then (s, NotFound)
      else
        var was := s.conversations[c];
        var model := if changes.value.1.Some? then changes.value.1 else was.model;
        var row := was.(title := Coalesce(changes.value.0, was.title), model := model, updatedAt := e.now);
        (s.(conversations := s.conversations[c := row]), OneConversation(c, row))
    case DeleteConversation(c) =>
      if !FindOwned(s, c, user) then (s, NotFound)
      else (s.(conversations := s.conversations[c := s.conversations[c].(deletedAt := Some(e.now))]), Deleted)
    case CreateMessage(c, body, keyId) =>
      if !FindOwned(s, c, user) then (s, NotFound)
      else if body == None then (s, Invalid)
      else if keyId.Some? && !KeyBelongsTo(s, keyId.value, user) then (s, Invalid)
      else if e.id in s.messages then (s, Database)
      else
        var row := Message(c, user, body.value, keyId, e.now);
        (Touch(s.(messages := s.messages[e.id := row]), c, e.now), OneMessage(e.id, row))
    case ListMessages(c, limit, before) =>
      if !FindOwned(s, c, user) then (s, NotFound)
      else (s, Messages(MessagesPage(s, c, user, before), PageSize(limit)))
    case DeleteMessage(m) =>
      if m in s.messages && s.messages[m].userId == user then (s.(messages := s.messages - {m}), Deleted)
      else (s, NotFound)
    case UploadKey(upload) =>
      if upload == None then (s, Invalid)
      else if LabelTaken(s, user, upload.value.1) || e.id in s.keys then (s, Conflict)
      else
        var row := KeyRow(user, upload.value.0, upload.value.1, e.now, None);
        (s.(keys := s.keys[e.id := row]), OneKey(e.id, row))
    case ListKeys =>
      (s, Keys(map k | k in s.keys && s.keys[k].userId == user && s.keys[k].revokedAt == None :: s.keys[k]))
  }

  // ---- Ownership ----

  /** A message's owner owns its conversation and its key. */
  ghost predicate Owned(s: Store) {
    forall m :: m in s.messages ==>
      var row := s.messages[m];
      && row.conversationId in s.conversations && s.conversations[row.conversationId].userId == row.userId
      && (row.keyId.Some? ==> row.keyId.value in s.keys && s.keys[row.keyId.value].userId == row.userId)
  }

  lemma StepKeepsOwned(s: Store, user: Id, op: Op, e: Env)
    requires Owned(s)
    ensures Owned(Step(s, user, op, e).0)
  {
  }

  // ---- Separation of users ----

  /** Every row of user `u` in `s` is in `t`. */
  ghost predicate Covers(t: Store, s: Store, u: Id) {
    && (forall c :: c in s.conversations && s.conversations[c].userId == u ==>
          c in t.conversations && t.conversations[c] == s.conversations[c])
    && (forall m :: m in s.messages && s.messages[m].userId == u ==> m in t.messages && t.messages[m] == s.messages[m])
    && (forall k :: k in s.keys && s.keys[k].userId == u ==> k in t.keys && t.keys[k] == s.keys[k])
  }

  /** The two stores hold the same rows of user `u`. */
  ghost predicate SameFor(u: Id, s: Store, t: Store) {
    Covers(s, t, u) && Covers(t, s, u)
  }

  ghost predicate Unused(s: Store, id: Id) {
    id !in s.conversations && id !in s.messages && id !in s.keys
  }

  lemma InsertsStayHome(s: Store, u: Id, v: Id, op: Op, e: Env)
    requires u != v && Unused(s, e.id) && (op.CreateConversation? || op.UploadKey?)
    ensures SameFor(u, s, Step(s, v, op, e).0)
  {
  }

  lemma UpdatesStayHome(s: Store, u: Id, v: Id, op: Op, e: Env)
    requires u != v && (op.UpdateConversation? || op.DeleteConversation? || op.DeleteMessage?)
    ensures SameFor(u, s, Step(s, v, op, e).0)
  {
  }

  lemma MessageStaysHome(s: Store, u: Id, v: Id, op: Op, e: Env)
    requires u != v && Unused(s, e.id) && op.CreateMessage?
    ensures SameFor(u, s, Step(s, v, op, e).0)
  {
  }

  /** Nothing one user does changes another user's rows, although `touch` is not scoped by owner. */
  lemma OthersAreUntouched(s: Store, u: Id, v: Id, op: Op, e: Env)
    requires u != v && Unused(s, e.id)
    ensures SameFor(u, s, Step(s, v, op, e).0)
  {
    match op
    case CreateMessage(_, _, _) => MessageStaysHome(s, u, v, op, e);
    case CreateConversation(_) => InsertsStayHome(s, u, v, op, e);
    case UploadKey(_) => InsertsStayHome(s, u, v, op, e);
    case UpdateConversation(_, _) => UpdatesStayHome(s, u, v, op, e);
    case DeleteConversation(_) => UpdatesStayHome(s, u, v, op, e);
    case DeleteMessage(_) => UpdatesStayHome(s, u, v, op, e);
    case _ =>
  }

  lemma SameQueries(s: Store, t: Store, u: Id)
    requires SameFor(u, s, t)
    ensures forall c :: FindOwned(s, c, u) <==> FindOwned(t, c, u)
    ensures forall k :: KeyBelongsTo(s, k, u) <==> KeyBelongsTo(t, k, u)
    ensures forall name :: LabelTaken(s, u, name) <==> LabelTaken(t, u, name)
  {
  }

  lemma SamePage(s: Store, t: Store, u: Id, c: Id, before: Option<Time>)
    requires SameFor(u, s, t)
    ensures MessagesPage(s, c, u, before) == MessagesPage(t, c, u, before)
  {
  }

  lemma SameLists(s: Store, t: Store, u: Id, e: Env)
    requires SameFor(u, s, t)
    ensures Step(s, u, ListConversations, e).1 == Step(t, u, ListConversations, e).1
    ensures Step(s, u, ListKeys, e).1 == Step(t, u, ListKeys, e).1
  {
    assert Step(s, u, ListConversations, e).1.conversations == Step(t, u, ListConversations, e).1.conversations;
    assert Step(s, u, ListKeys, e).1.keys == Step(t, u, ListKeys, e).1.keys;
  }

  lemma SameReply(s: Store, t: Store, u: Id, op: Op, e: Env)
    requires SameFor(u, s, t) && Unused(s, e.id) && Unused(t, e.id)
    ensures Step(s, u, op, e).1 == Step(t, u, op, e).1
  {
    SameQueries(s, t, u);
    SameLists(s, t, u, e);
    if op.ListMessages? { SamePage(s, t, u, op.conversation, op.before); }
  }

  lemma CoversInsert(s: Store, t: Store, u: Id, op: Op, e: Env)
    requires SameFor(u, s, t) && Unused(s, e.id) && Unused(t, e.id) && (op.CreateConversation? || op.UploadKey?)
    ensures Covers(Step(t, u, op, e).0, Step(s, u, op, e).0, u)
  {
    SameQueries(s, t, u);
  }

  lemma CoversUpdate(s: Store, t: Store, u: Id, op: Op, e: Env)
    requires SameFor(u, s, t) && op.UpdateConversation?
    ensures Covers(Step(t, u, op, e).0, Step(s, u, op, e).0, u)
  {
    SameQueries(s, t, u);
  }

  lemma CoversDelete(s: Store, t: Store, u: Id, op: Op, e: Env)
    requires SameFor(u, s, t) && (op.DeleteConversation? || op.DeleteMessage?)
    ensures Covers(Step(t, u, op, e).0, Step(s, u, op, e).0, u)
  {
    SameQueries(s, t, u);
  }

  lemma CoversMessage(s: Store, t: Store, u: Id, op: Op, e: Env)
    requires SameFor(u, s, t) && Unused(s, e.id) && Unused(t, e.id) && op.CreateMessage?
    ensures Covers(Step(t, u, op, e).0, Step(s, u, op, e).0, u)
  {
    SameQueries(s, t, u);
  }

  lemma StepCovers(s: Store, t: Store, u: Id, op: Op, e: Env)
    requires SameFor(u, s, t) && Unused(s, e.id) && Unused(t, e.id)
    ensures Covers(Step(t, u, op, e).0, Step(s, u, op, e).0, u)
  {
    match op
    case CreateMessage(_, _, _) => CoversMessage(s, t, u, op, e);
    case CreateConversation(_) => CoversInsert(s, t, u, op, e);
    case UploadKey(_) => CoversInsert(s, t, u, op, e);
    case UpdateConversation(_, _) => CoversUpdate(s, t, u, op, e);
    case DeleteConversation(_) => CoversDelete(s, t, u, op, e);
    case DeleteMessage(_) => CoversDelete(s, t, u, op, e);
    case _ =>
  }

  /** What a user is answered, and what becomes of the user's rows, depends on the user's rows alone. */
  lemma OwnRowsDecide(s: Store, t: Store, u: Id, op: Op, e: Env)
    requires SameFor(u, s, t) && Unused(s, e.id) && Unused(t, e.id)
    ensures Step(s, u, op, e).1 == Step(t, u, op, e).1
    ensures SameFor(u, Step(s, u, op, e).0, Step(t, u, op, e).0)
  {
    SameReply(s, t, u, op, e);
    StepCovers(s, t, u, op, e);
    StepCovers(t, s, u, op, e);
  }

  const EMPTY: Store := Store(map[], map[], map[])

  // ---- The tables as the server updates them ----

  class Tables {
    var conversations: map<Id, Conversation>
    var messages: map<Id, Message>
    var keys: map<Id, KeyRow>

    ghost function Rows(): Store
      reads this
    {
      Store(conversations, messages, keys)
    }

    constructor ()
      ensures Rows() == EMPTY
    {
      conversations, messages, keys := map[], map[], map[];
    }

    method AssertOwned(user: Id, conversation: Id) returns (ok: bool)
      ensures ok == FindOwned(Rows(), conversation, user)
    {
      ok := conversation in conversations && conversations[conversation].userId == user
            && conversations[conversation].deletedAt == None;
    }

    method CreateConversation(user: Id, fields: Option<(string, Option<string>)>, e: Env) returns (reply: Reply)
      modifies this
      ensures (Rows(), reply) == Step(old(Rows()), user, Op.CreateConversation(fields), e)
    {
      if fields == None {
        return Invalid;
      }
      if e.id in conversations {
        return Database;
      }
      var row := Conversation(user, fields.value.0, fields.value.1, e.now, e.now, None);
      conversations := conversations[e.id := row];
      reply := OneConversation(e.id, row);
    }

    method UpdateConversation(user: Id, c: Id, changes: Option<(Option<string>, Option<string>)>, e: Env)
      returns (reply: Reply)
      modifies this
      ensures (Rows(), reply) == Step(old(Rows()), user, Op.UpdateConversation(c, changes), e)
    {
      if changes == None {
        return Invalid;
      }
      var owned := AssertOwned(user, c);
      if !owned {
        return NotFound;
      }
      var row := conversations[c];
      if changes.value.0.Some? {
        row := row.(title := changes.value.0.value);
      }
      if changes.value.1.Some? {
        row := row.(model := changes.value.1);
      }
      row := row.(updatedAt := e.now);
      conversations := conversations[c := row];
      reply := OneConversation(c, row);
    }

    method DeleteConversation(user: Id, c: Id, e: Env) returns (reply: Reply)
      modifies this
      ensures (Rows(), reply) == Step(old(Rows()), user, Op.DeleteConversation(c), e)
    {
      var owned := AssertOwned(user, c);
      if !owned {
        return NotFound;
      }
      conversations := conversations[c := conversations[c].(deletedAt := Some(e.now))];
      reply := Deleted;
    }

    /** Ownership, then the fields, then the key; insert, then touch the conversation by id alone. */
    method CreateMessage(user: Id, c: Id, body: Option<Body>, keyId: Option<Id>, e: Env) returns (reply: Reply)
      modifies this
      ensures (Rows(), reply) == Step(old(Rows()), user, Op.CreateMessage(c, body, keyId), e)
    {
      var owned := AssertOwned(user, c);
      if !owned {
        return NotFound;
      }
      if body == None {
        return Invalid;
      }
      if keyId.Some? {
        var k := keyId.value;
        if !(k in keys && keys[k].userId == user && keys[k].revokedAt == None) {
          return Invalid;
        }
      }
      if e.id in messages {
        return Database;
      }
      var row := Message(c, user, body.value, keyId, e.now);
      messages := messages[e.id := row];
      conversations := conversations[c := conversations[c].(updatedAt := e.now)];
      reply := OneMessage(e.id, row);
    }

    method DeleteMessage(user: Id, m: Id, e: Env) returns (reply: Reply)
      modifies this
      ensures (Rows(), reply) == Step(old(Rows()), user, Op.DeleteMessage(m), e)
    {
      if !(m in messages && messages[m].userId == user) {
        return NotFound;
      }
      messages := messages - {m};
      reply := Deleted;
    }

    method UploadKey(user: Id, upload: Option<(KeyPair, string)>, e: Env) returns (reply: Reply)
      modifies this
      ensures (Rows(), reply) == Step(old(Rows()), user, Op.UploadKey(upload), e)
    {
      if upload == None {
        return Invalid;
      }
      var name := upload.value.1;
      if exists k :: k in keys && keys[k].userId == user && keys[k].name == name {
        return Conflict;
      }
      if e.id in keys {
        return Conflict;
      }
      var row := KeyRow(user, upload.value.0, name, e.now, None);
      keys := keys[e.id := row];
      reply := OneKey(e.id, row);
    }
  }
}

/** What each store operation does to the rows: what was written can be read back, and every other row is unchanged. */
module StoreLaws {
  import opened Common
  import opened UserStore

  // ---- What reading shows ----

  ghost predicate ListsConversation(s: Store, u: Id, c: Id, row: Conversation) {
    forall e :: Step(s, u, ListConversations, e).1.Conversations?
             && c in Step(s, u, ListConversations, e).1.conversations
             && Step(s, u, ListConversations, e).1.conversations[c] == row
  }

  /** Neither listed, nor found for an update, a deletion, a message or a list of messages. */
  ghost predicate ConversationIsGone(s: Store, u: Id, c: Id) {
    && (forall e :: Step(s, u, ListConversations, e).1.Conversations?
                 && c !in Step(s, u, ListConversations, e).1.conversations)
    && (forall e, limit, before :: Step(s, u, ListMessages(c, limit, before), e) == (s, NotFound))
    && (forall e, body, key :: Step(s, u, CreateMessage(c, body, key), e) == (s, NotFound))
    && (forall e :: Step(s, u, DeleteConversation(c), e) == (s, NotFound))
    && (forall e, changes: (Option<string>, Option<string>) ::
          Step(s, u, UpdateConversation(c, Some(changes)), e) == (s, NotFound))
  }

  /** A listing has exactly the user's live conversations. */
  lemma ListConversationsIs(s: Store, u: Id, e: Env, c: Id)
    ensures
      var (s', reply) := Step(s, u, ListConversations, e);
      && s' == s && reply.Conversations?
      && (c in reply.conversations <==>
            c in s.conversations && s.conversations[c].userId == u && s.conversations[c].deletedAt == None)
      && (c in reply.conversations ==> reply.conversations[c] == s.conversations[c])
  {
  }

  /** A listing has exactly the user's unrevoked keys. */
  lemma ListKeysIs(s: Store, u: Id, e: Env, k: Id)
    ensures
      var (s', reply) := Step(s, u, ListKeys, e);
      && s' == s && reply.Keys?
      && (k in reply.keys <==> k in s.keys && s.keys[k].userId == u && s.keys[k].revokedAt == None)
      && (k in reply.keys ==> reply.keys[k] == s.keys[k])
  {
  }

  ghost predicate LivesIn(s: Store, u: Id, c: Id) {
    c in s.conversations && s.conversations[c].userId == u && s.conversations[c].deletedAt == None
  }

  /**
   A live conversation's listing ranges over exactly its own messages of the user from before the given time, and the
   page size is the one asked for, at least 1 and at most 200, or 50.
   */
  lemma ListMessagesIs(s: Store, u: Id, c: Id, limit: Option<int>, before: Option<Time>, e: Env, m: Id)
    ensures
      var (s', reply) := Step(s, u, ListMessages(c, limit, before), e);
      && s' == s && (reply == NotFound <==> !LivesIn(s, u, c))
      && (LivesIn(s, u, c) ==>
            && reply.Messages?
            && (m in reply.messages <==>
                  && m in s.messages && s.messages[m].conversationId == c && s.messages[m].userId == u
                  && (before.Some? ==> s.messages[m].createdAt < before.value))
            && (m in reply.messages ==> reply.messages[m] == s.messages[m])
            && 1 <= reply.limit <= 200
            && (limit == None ==> reply.limit == 50)
            && (limit.Some? && 1 <= limit.value <= 200 ==> reply.limit == limit.value)
            && (limit.Some? && limit.value < 1 ==> reply.limit == 1)
            && (limit.Some? && limit.value > 200 ==> reply.limit == 200))
  {
  }

  // ---- Conversations ----

  /** Only conversation `c` may differ. */
  ghost predicate OnlyConversation(s: Store, s': Store, c: Id) {
    && s'.messages == s.messages && s'.keys == s.keys && s'.conversations.Keys == s.conversations.Keys + {c}
    && forall d :: d in s.conversations && d != c ==> s'.conversations[d] == s.conversations[d]
  }

  lemma CreateConversationIs(s: Store, u: Id, fields: Option<(string, Option<string>)>, e: Env)
    ensures
      var (s', reply) := Step(s, u, CreateConversation(fields), e);
      if fields == None then (s', reply) == (s, Invalid)
      else if e.id in s.conversations then (s', reply) == (s, Database)
      else
        var row := Conversation(u, fields.value.0, fields.value.1, e.now, e.now, None);
        reply == OneConversation(e.id, row) && OnlyConversation(s, s', e.id) && ListsConversation(s', u, e.id, row)
  {
  }

  /** The title and the model change where given and stay where not; the rest of the row stays, but for its time. */
  ghost predicate Updated(was: Conversation, row: Conversation, changes: (Option<string>, Option<string>), now: Time) {
    && row.userId == was.userId && row.createdAt == was.createdAt && row.deletedAt == was.deletedAt
    && row.updatedAt == now
    && (changes.0.Some? ==> row.title == changes.0.value) && (changes.0 == None ==> row.title == was.title)
    && (changes.1.Some? ==> row.model == changes.1) && (changes.1 == None ==> row.model == was.model)
  }

  lemma UpdateConversationIs(s: Store, u: Id, c: Id, changes: Option<(Option<string>, Option<string>)>, e: Env)
    ensures
      var (s', reply) := Step(s, u, UpdateConversation(c, changes), e);
      if changes == None then (s', reply) == (s, Invalid)
      else if !LivesIn(s, u, c) then (s', reply) == (s, NotFound)
      else
        && reply.OneConversation? && reply.id == c
        && Updated(s.conversations[c], reply.conversation, changes.value, e.now)
        && OnlyConversation(s, s', c) && ListsConversation(s', u, c, reply.conversation)
  {
  }

  /** The conversation is gone for its owner; its messages, and every other row, remain. */
  lemma DeleteConversationIs(s: Store, u: Id, c: Id, e: Env)
    ensures
      var (s', reply) := Step(s, u, DeleteConversation(c), e);
      if !LivesIn(s, u, c) then (s', reply) == (s, NotFound)
      else
        && reply == Deleted && OnlyConversation(s, s', c) && ConversationIsGone(s', u, c)
        && s'.conversations[c] == s.conversations[c].(deletedAt := Some(e.now))
  {
  }

  // ---- Messages ----

  /** The key, if one is named, is an unrevoked key of the user. */
  ghost predicate MayUseKey(s: Store, u: Id, keyId: Option<Id>) {
    keyId.Some? ==> keyId.value in s.keys && s.keys[keyId.value].userId == u && s.keys[keyId.value].revokedAt == None
  }

  ghost predicate ListsMessage(s: Store, u: Id, c: Id, m: Id, row: Message) {
    forall limit, e :: Step(s, u, ListMessages(c, limit, None), e).1.Messages?
                    && m in Step(s, u, ListMessages(c, limit, None), e).1.messages
                    && Step(s, u, ListMessages(c, limit, None), e).1.messages[m] == row
  }

  /** The message is listed with its fields and time, the conversation carries that time, and nothing else changes. */
  lemma CreateMessageIs(s: Store, u: Id, c: Id, body: Option<Body>, keyId: Option<Id>, e: Env)
    ensures
      var (s', reply) := Step(s, u, CreateMessage(c, body, keyId), e);
      if !LivesIn(s, u, c) then (s', reply) == (s, NotFound)
      else if body == None || !MayUseKey(s, u, keyId) then (s', reply) == (s, Invalid)
      else if e.id in s.messages then (s', reply) == (s, Database)
      else
        var row := Message(c, u, body.value, keyId, e.now);
        && reply == OneMessage(e.id, row)
        && ListsMessage(s', u, c, e.id, row)
        && ListsConversation(s', u, c, s.conversations[c].(updatedAt := e.now))
        && s'.keys == s.keys && s'.conversations.Keys == s.conversations.Keys
        && s'.messages.Keys == s.messages.Keys + {e.id}
        && (forall d :: d in s.conversations && d != c ==> s'.conversations[d] == s.conversations[d])
        && (forall m :: m in s.messages ==> s'.messages[m] == s.messages[m])
  {
  }

  /** A message of the user's is removed, and nothing else; one that is not is not found. */
  lemma DeleteMessageIs(s: Store, u: Id, m: Id, e: Env)
    ensures
      var (s', reply) := Step(s, u, DeleteMessage(m), e);
      if m in s.messages && s.messages[m].userId == u then
        && reply == Deleted && s'.conversations == s.conversations && s'.keys == s.keys
        && s'.messages.Keys == s.messages.Keys - {m}
        && (forall n :: n in s'.messages ==> s'.messages[n] == s.messages[n])
      else (s', reply) == (s, NotFound)
  {
  }

  /** A deleted message is in no listing, and cannot be deleted again. */
  lemma DeletedMessageIsGone(s: Store, u: Id, m: Id, e: Env, c: Id, limit: Option<int>, before: Option<Time>)
    requires Step(s, u, DeleteMessage(m), e).1 == Deleted
    ensures
      var s' := Step(s, u, DeleteMessage(m), e).0;
      && Step(s', u, DeleteMessage(m), e) == (s', NotFound)
      && var page := Step(s', u, ListMessages(c, limit, before), e).1; page.Messages? ==> m !in page.messages
  {
    DeleteMessageIs(s, u, m, e);
    ListMessagesIs(Step(s, u, DeleteMessage(m), e).0, u, c, limit, before, e, m);
  }

  // ---- Keys ----

  ghost predicate ListsKey(s: Store, u: Id, k: Id, row: KeyRow) {
    forall e :: Step(s, u, ListKeys, e).1.Keys?
             && k in Step(s, u, ListKeys, e).1.keys && Step(s, u, ListKeys, e).1.keys[k] == row
  }

  /** The label is in use by one of the user's keys, revoked or not. */
  ghost predicate UsesLabel(s: Store, u: Id, k: Id, name: string) {
    k in s.keys && s.keys[k].userId == u && s.keys[k].name == name
  }

  lemma UploadKeyIs(s: Store, u: Id, upload: Option<(KeyPair, string)>, e: Env)
    ensures
      var (s', reply) := Step(s, u, UploadKey(upload), e);
      if upload == None then (s', reply) == (s, Invalid)
      else if e.id in s.keys || exists k :: UsesLabel(s, u, k, upload.value.1) then (s', reply) == (s, Conflict)
      else
        var row := KeyRow(u, upload.value.0, upload.value.1, e.now, None);
        && reply == OneKey(e.id, row) && ListsKey(s', u, e.id, row)
        && s'.conversations == s.conversations && s'.messages == s.messages
        && s'.keys.Keys == s.keys.Keys + {e.id} && (forall k :: k in s.keys ==> s'.keys[k] == s.keys[k])
  {
    if upload.Some? && LabelTaken(s, u, upload.value.1) {
      var k :| k in s.keys && s.keys[k].userId == u && s.keys[k].name == upload.value.1;
      assert UsesLabel(s, u, k, upload.value.1);
    }
  }

  /** A label just taken is taken: the same user cannot upload another key under it. */
  lemma LabelsAreUnique(s: Store, u: Id, keys: KeyPair, again: KeyPair, name: string, e: Env, e': Env)
    requires Step(s, u, UploadKey(Some((keys, name))), e).1.OneKey?
    ensures
      var s' := Step(s, u, UploadKey(Some((keys, name))), e).0;
      Step(s', u, UploadKey(Some((again, name))), e') == (s', Conflict)
  {
    var s' := Step(s, u, UploadKey(Some((keys, name))), e).0;
    UploadKeyIs(s, u, Some((keys, name)), e);
    UploadKeyIs(s', u, Some((again, name)), e');
    assert UsesLabel(s', u, e.id, name);
  }
}

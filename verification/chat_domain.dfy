/**
 * The chat domain of src/chats/chats.service.ts: the records the service reads
 * and writes, the canonical ordering of a participant pair, the access
 * predicates, and the effect of each mutation on the store, stated on values.
 */
module ChatDomain {
  import opened Wrappers
  import opened Ids
  import opened Responses
  import opened Tables

  datatype User = User(id: UserId, username: string, name: string, about: Option<string>, avatarUrl: Option<string>)

  /** A row of `private_chats`; `user1Id < user2Id` for every chat the code creates. */
  datatype PrivateChat = PrivateChat(id: ChatId, user1Id: UserId, user2Id: UserId, createdAt: Time)

  /** A row of `private_messages` with the fields the service uses. */
  datatype PrivateMessage = PrivateMessage(
    id: MessageId,
    privateChatId: ChatId,
    senderId: UserId,
    content: string,
    createdAt: Time,
    editedAt: Option<Time>,
    readAt: Option<Time>,
    deletedAt: Option<Time>)

  /** The three tables, keyed by primary key. */
  datatype Db = Db(users: map<UserId, User>, chats: map<ChatId, PrivateChat>, messages: map<MessageId, PrivateMessage>)

  predicate IsParticipant(chat: PrivateChat, userId: UserId)
  {
    chat.user1Id == userId || chat.user2Id == userId
  }

  /**
   * What the schema and the service keep true of the store: rows are keyed by
   * their id, each chat's pair is ordered and refers to existing users, the
   * unique index on (user1, user2) holds, and every message belongs to an
   * existing chat whose participant sent it.
   */
  ghost predicate Valid(db: Db)
  {
    && ChatsValid(db.users, db.chats)
    && forall id :: id in db.messages ==> db.messages[id].id == id && MessageValid(db.chats, db.messages[id])
  }

  ghost predicate ChatsValid(users: map<UserId, User>, chats: map<ChatId, PrivateChat>)
  {
    && (forall id :: id in users ==> users[id].id == id)
    && (forall id :: id in chats ==>
          && chats[id].id == id
          && LexLess(chats[id].user1Id, chats[id].user2Id)
          && chats[id].user1Id in users
          && chats[id].user2Id in users)
    && (forall a, b ::
          a in chats && b in chats
          && chats[a].user1Id == chats[b].user1Id
          && chats[a].user2Id == chats[b].user2Id
          ==> a == b)
  }

  /** A message belongs to an existing chat, and its sender is a participant of that chat. */
  predicate MessageValid(chats: map<ChatId, PrivateChat>, m: PrivateMessage)
  {
    m.privateChatId in chats && IsParticipant(chats[m.privateChatId], m.senderId)
  }

  // ---------------------------------------------------------------------------
  // Participant pairs

  datatype UserPair = UserPair(user1Id: UserId, user2Id: UserId)

  /** getUser1User2Id: the pair in canonical order, whichever way round it was given. */
  function GetUser1User2Id(randomUserId1: UserId, randomUserId2: UserId): (p: UserPair)
    ensures p == UserPair(randomUserId1, randomUserId2) || p == UserPair(randomUserId2, randomUserId1)
    ensures randomUserId1 != randomUserId2 ==> LexLess(p.user1Id, p.user2Id)
  {
    LexLessTotal(randomUserId1, randomUserId2);
    if LexLess(randomUserId1, randomUserId2) then UserPair(randomUserId1, randomUserId2)
    else UserPair(randomUserId2, randomUserId1)
  }

  /** Both orders of a pair normalise to the same row key, so one chat serves both users. */
  lemma GetUser1User2IdSymmetric(a: UserId, b: UserId)
    ensures GetUser1User2Id(a, b) == GetUser1User2Id(b, a)
  {
    LexLessAsymmetric(a, b);
    LexLessTotal(a, b);
  }

  /** The unique index on (user1_id, user2_id) already holds this pair. */
  predicate PairExists(chats: map<ChatId, PrivateChat>, p: UserPair)
  {
    exists id :: id in chats && chats[id].user1Id == p.user1Id && chats[id].user2Id == p.user2Id
  }

  datatype CurrentOther = CurrentOther(currentUserId: UserId, otherUserId: UserId)

  /** getCurrentOtherUserId: given the caller and the chat's two users, the caller's peer. */
  function GetCurrentOtherUserId(currentUserId: UserId, randomUserId1: UserId, randomUserId2: UserId): (r: CurrentOther)
    ensures r.currentUserId == currentUserId
    ensures r.otherUserId == randomUserId1 || r.otherUserId == randomUserId2
    ensures (currentUserId == randomUserId1 || currentUserId == randomUserId2) && randomUserId1 != randomUserId2
            ==> r.otherUserId != currentUserId
  {
    if randomUserId1 == currentUserId then CurrentOther(currentUserId, randomUserId2)
    else CurrentOther(currentUserId, randomUserId1)
  }

  /** The latest message of an inbox row; its content is hidden once deleted. */
  datatype LatestMessage = LatestMessage(messageId: MessageId, content: Option<string>, createdAt: Time, deletedAt: Option<Time>)

  /** ChatInboxDto. */
  datatype ChatInbox = ChatInbox(
    chatId: ChatId,
    title: string,
    avatarUrl: Option<string>,
    unreadCount: nat,
    latestMessage: Option<LatestMessage>)

  // ---------------------------------------------------------------------------
  // Access predicates

  datatype ChatAccess = ChatAccess(isAuthorized: bool, privateChat: Option<PrivateChat>)

  /** canUserAccessPrivateChat: a chat with that id in which the user is user1 or user2. */
  function CanUserAccessPrivateChat(chats: map<ChatId, PrivateChat>, currentUserId: UserId, privateChatId: ChatId): (r: ChatAccess)
    ensures r.isAuthorized <==> privateChatId in chats && IsParticipant(chats[privateChatId], currentUserId)
    ensures r.isAuthorized ==> r.privateChat == Some(chats[privateChatId])
    ensures !r.isAuthorized ==> r.privateChat == None
  {
    if privateChatId in chats && (chats[privateChatId].user1Id == currentUserId || chats[privateChatId].user2Id == currentUserId)
    then ChatAccess(true, Some(chats[privateChatId]))
    else ChatAccess(false, None)
  }

  datatype MessageAccess = MessageAccess(isAuthorized: bool, privateMessage: Option<PrivateMessage>)

  /**
   * canUserAccessMessage: the message exists, the user sent it, it is not
   * deleted, and its chat has the user as user1 or user2.
   */
  function CanUserAccessMessage(db: Db, currentUserId: UserId, messageId: MessageId): (r: MessageAccess)
    ensures r.isAuthorized <==>
      && messageId in db.messages
      && db.messages[messageId].senderId == currentUserId
      && db.messages[messageId].deletedAt.None?
      && CanUserAccessPrivateChat(db.chats, currentUserId, db.messages[messageId].privateChatId).isAuthorized
    ensures r.isAuthorized ==> r.privateMessage == Some(db.messages[messageId])
    ensures !r.isAuthorized ==> r.privateMessage == None
  {
    if messageId in db.messages
      && db.messages[messageId].senderId == currentUserId
      && db.messages[messageId].deletedAt == None
      && db.messages[messageId].privateChatId in db.chats
      && IsParticipant(db.chats[db.messages[messageId].privateChatId], currentUserId)
    then MessageAccess(true, Some(db.messages[messageId]))
    else MessageAccess(false, None)
  }

  /** In a valid store the join on the chat adds nothing: only ownership and deletion matter. */
  lemma MessageAccessIsOwnership(db: Db, currentUserId: UserId, messageId: MessageId)
    requires Valid(db)
    ensures CanUserAccessMessage(db, currentUserId, messageId).isAuthorized <==>
      messageId in db.messages && db.messages[messageId].senderId == currentUserId && db.messages[messageId].deletedAt.None?
  {
  }

  /** The distinct elements of `s`, each kept at its last occurrence. */
  function Dedup<T(==,!new)>(s: seq<T>): (d: seq<T>)
    ensures forall x :: x in d <==> x in s
    ensures NoDuplicates(d)
    ensures |d| <= |s|
    ensures |d| == |s| <==> NoDuplicates(s)
  {
    if s == [] then []
    else if s[0] in s[1..] then
      assert !NoDuplicates(s) by {
        var j :| 0 <= j < |s[1..]| && s[1..][j] == s[0];
        assert s[j + 1] == s[0];
      }
      Dedup(s[1..])
    else
      assert NoDuplicates(s) <==> NoDuplicates(s[1..]) by {
        if NoDuplicates(s[1..]) {
          forall i, j | 0 <= i < j < |s| ensures s[i] != s[j] {
            if i > 0 {
              assert s[i] == s[1..][i - 1] && s[j] == s[1..][j - 1];
            } else {
              assert s[j] in s[1..];
            }
          }
        }
        if NoDuplicates(s) {
          forall i, j | 0 <= i < j < |s[1..]| ensures s[1..][i] != s[1..][j] {
            assert s[1..][i] == s[i + 1] && s[1..][j] == s[j + 1];
          }
        }
      }
      [s[0]] + Dedup(s[1..])
  }

  /**
   * The rows `find({ where: [{ id: In(ids), user1Id }, { id: In(ids), user2Id }] })`
   * returns for a list of distinct ids: one per id the user can access.
   */
  function AccessibleChats(chats: map<ChatId, PrivateChat>, currentUserId: UserId, ids: seq<ChatId>): (found: seq<PrivateChat>)
    ensures |found| <= |ids|
    ensures |found| == |ids| <==> forall i :: 0 <= i < |ids| ==> CanUserAccessPrivateChat(chats, currentUserId, ids[i]).isAuthorized
    ensures forall k :: k in ids && CanUserAccessPrivateChat(chats, currentUserId, k).isAuthorized ==> chats[k] in found
    ensures forall c :: c in found ==>
      exists k :: k in ids && CanUserAccessPrivateChat(chats, currentUserId, k).isAuthorized && chats[k] == c
  {
    if ids == [] then []
    else
      var rest := AccessibleChats(chats, currentUserId, ids[1..]);
      assert forall i :: 1 <= i < |ids| ==> ids[i] == ids[1..][i - 1];
      assert forall k :: k in ids[1..] ==> k in ids;
      assert forall k :: k in ids ==> k == ids[0] || k in ids[1..];
      if CanUserAccessPrivateChat(chats, currentUserId, ids[0]).isAuthorized then [chats[ids[0]]] + rest
      else rest
  }

  datatype BatchAccess = BatchAccess(isAuthorized: bool, privateChats: seq<PrivateChat>)

  /**
   * canUserAccessPrivateChats: authorised when the query found as many chats as
   * ids were requested. As the query returns each chat once, a repeated id
   * denies the batch.
   */
  function CanUserAccessPrivateChats(chats: map<ChatId, PrivateChat>, currentUserId: UserId, privateChatIds: seq<ChatId>): (r: BatchAccess)
    ensures r.isAuthorized <==>
      && NoDuplicates(privateChatIds)
      && forall i :: 0 <= i < |privateChatIds| ==> CanUserAccessPrivateChat(chats, currentUserId, privateChatIds[i]).isAuthorized
    ensures !r.isAuthorized ==> r.privateChats == []
    ensures r.isAuthorized ==> |r.privateChats| == |privateChatIds|
    ensures r.isAuthorized ==> forall k :: k in privateChatIds ==> k in chats && chats[k] in r.privateChats
    ensures r.isAuthorized ==> forall c :: c in r.privateChats ==> exists k :: k in privateChatIds && k in chats && chats[k] == c
  {
    var distinct := Dedup(privateChatIds);
    var found := AccessibleChats(chats, currentUserId, distinct);
    assert (forall i :: 0 <= i < |distinct| ==> CanUserAccessPrivateChat(chats, currentUserId, distinct[i]).isAuthorized)
       <==> (forall i :: 0 <= i < |privateChatIds| ==> CanUserAccessPrivateChat(chats, currentUserId, privateChatIds[i]).isAuthorized) by {
      forall i | 0 <= i < |privateChatIds| ensures privateChatIds[i] in distinct { }
      forall i | 0 <= i < |distinct| ensures distinct[i] in privateChatIds { }
    }
    if |found| == |privateChatIds| then BatchAccess(true, found) else BatchAccess(false, [])
  }

  // ---------------------------------------------------------------------------
  // Mutations, on values

  /** The row saveMessage inserts; the database fills in id and created_at, the other columns are null. */
  function NewMessage(id: MessageId, chatId: ChatId, senderId: UserId, content: string, now: Time): PrivateMessage
  {
    PrivateMessage(id, chatId, senderId, content, now, None, None, None)
  }

  function ApplySave(db: Db, m: PrivateMessage): Db
  {
    db.(messages := db.messages[m.id := m])
  }

  /** The edited row: new content and editedAt, everything else as before. */
  function EditedMessage(m: PrivateMessage, content: string, now: Time): PrivateMessage
  {
    m.(content := content, editedAt := Some(now))
  }

  /** editMessage's effect on the store. */
  function ApplyEdit(db: Db, messageId: MessageId, content: string, now: Time): Db
    requires messageId in db.messages
  {
    db.(messages := db.messages[messageId := EditedMessage(db.messages[messageId], content, now)])
  }

  /** deleteMessage's effect: the soft delete sets deletedAt and nothing else. */
  function ApplyDelete(db: Db, messageId: MessageId, now: Time): Db
    requires messageId in db.messages
  {
    db.(messages := db.messages[messageId := db.messages[messageId].(deletedAt := Some(now))])
  }

  /** A message readChat must mark: in the chat, sent by someone else, not yet read (deleted ones included). */
  predicate IsUnreadFor(m: PrivateMessage, chatId: ChatId, readerId: UserId)
  {
    m.privateChatId == chatId && m.senderId != readerId && m.readAt.None?
  }

  function UnreadIds(messages: map<MessageId, PrivateMessage>, chatId: ChatId, readerId: UserId): set<MessageId>
  {
    set id | id in messages && IsUnreadFor(messages[id], chatId, readerId)
  }

  function MarkedRead(messages: map<MessageId, PrivateMessage>, unread: set<MessageId>, now: Time): map<MessageId, PrivateMessage>
  {
    map id | id in messages :: if id in unread then messages[id].(readAt := Some(now)) else messages[id]
  }

  /** readChat's effect: readAt set on exactly the chat's unread messages from the other side. */
  function ApplyRead(db: Db, chatId: ChatId, readerId: UserId, now: Time): (r: Db)
    ensures r.users == db.users && r.chats == db.chats && r.messages.Keys == db.messages.Keys
    ensures forall id :: id in db.messages ==>
      if IsUnreadFor(db.messages[id], chatId, readerId)
      then r.messages[id] == db.messages[id].(readAt := Some(now))
      else r.messages[id] == db.messages[id]
  {
    db.(messages := MarkedRead(db.messages, UnreadIds(db.messages, chatId, readerId), now))
  }

  /**
   * How a message may change over time: its identity, chat, sender and
   * creation time never change; once deleted its content, editedAt and
   * deletedAt are frozen; once read its readAt is frozen.
   */
  predicate MessageEvolves(m: PrivateMessage, n: PrivateMessage)
  {
    && n.id == m.id && n.privateChatId == m.privateChatId && n.senderId == m.senderId && n.createdAt == m.createdAt
    && (m.deletedAt.Some? ==> n.deletedAt == m.deletedAt && n.content == m.content && n.editedAt == m.editedAt)
    && (m.readAt.Some? ==> n.readAt == m.readAt)
  }

  /** The store only grows: users and chats are untouched, and every message evolves. */
  ghost predicate Evolves(a: Db, b: Db)
  {
    && a.users == b.users
    && (forall id :: id in a.chats ==> id in b.chats && b.chats[id] == a.chats[id])
    && (forall id :: id in a.messages ==> id in b.messages && MessageEvolves(a.messages[id], b.messages[id]))
  }

  /** saveMessage, when authorised, keeps the store consistent and only adds a row. */
  lemma SavePreserves(db: Db, chatId: ChatId, senderId: UserId, content: string, newId: MessageId, now: Time)
    requires Valid(db) && newId !in db.messages
    requires CanUserAccessPrivateChat(db.chats, senderId, chatId).isAuthorized
    ensures Valid(ApplySave(db, NewMessage(newId, chatId, senderId, content, now)))
    ensures Evolves(db, ApplySave(db, NewMessage(newId, chatId, senderId, content, now)))
  {
    var m := NewMessage(newId, chatId, senderId, content, now);
    var after := ApplySave(db, m);
    assert after.chats == db.chats && after.users == db.users;
    forall id | id in db.messages ensures id in after.messages && MessageEvolves(db.messages[id], after.messages[id]) {
      assert after.messages[id] == db.messages[id];
    }
    forall id | id in after.messages
      ensures after.messages[id].id == id && MessageValid(after.chats, after.messages[id])
    {
      if id != newId {
        assert after.messages[id] == db.messages[id];
      }
    }
  }

  /** editMessage, when authorised, keeps the store consistent; the edited message was not deleted. */
  lemma EditPreserves(db: Db, currentUserId: UserId, messageId: MessageId, content: string, now: Time)
    requires Valid(db)
    requires CanUserAccessMessage(db, currentUserId, messageId).isAuthorized
    ensures Valid(ApplyEdit(db, messageId, content, now))
    ensures Evolves(db, ApplyEdit(db, messageId, content, now))
  {
  }

  lemma DeletePreserves(db: Db, currentUserId: UserId, messageId: MessageId, now: Time)
    requires Valid(db)
    requires CanUserAccessMessage(db, currentUserId, messageId).isAuthorized
    ensures Valid(ApplyDelete(db, messageId, now))
    ensures Evolves(db, ApplyDelete(db, messageId, now))
  {
  }

  lemma ReadPreserves(db: Db, chatId: ChatId, readerId: UserId, now: Time)
    requires Valid(db)
    ensures Valid(ApplyRead(db, chatId, readerId, now))
    ensures Evolves(db, ApplyRead(db, chatId, readerId, now))
  {
    var after := ApplyRead(db, chatId, readerId, now);
    forall id | id in after.messages
      ensures after.messages[id].id == id && MessageValid(after.chats, after.messages[id])
      ensures MessageEvolves(db.messages[id], after.messages[id])
    {
    }
  }

  /** A deleted message is terminal: nobody can edit or delete it again. */
  lemma DeletedIsTerminal(db: Db, messageId: MessageId, now: Time, anyUser: UserId)
    requires messageId in db.messages
    ensures !CanUserAccessMessage(ApplyDelete(db, messageId, now), anyUser, messageId).isAuthorized
  {
  }

  /** Only the sender of a message may edit or delete it, and only while it is not deleted. */
  lemma OnlySenderMutates(db: Db, currentUserId: UserId, messageId: MessageId)
    requires messageId in db.messages
    requires db.messages[messageId].senderId != currentUserId || db.messages[messageId].deletedAt.Some?
    ensures !CanUserAccessMessage(db, currentUserId, messageId).isAuthorized
  {
  }

  /** An immediate second readChat finds nothing to mark and changes nothing. */
  lemma ReadIsIdempotent(db: Db, chatId: ChatId, readerId: UserId, t1: Time, t2: Time)
    ensures UnreadIds(ApplyRead(db, chatId, readerId, t1).messages, chatId, readerId) == {}
    ensures ApplyRead(ApplyRead(db, chatId, readerId, t1), chatId, readerId, t2) == ApplyRead(db, chatId, readerId, t1)
  {
    var once := ApplyRead(db, chatId, readerId, t1);
    var twice := ApplyRead(once, chatId, readerId, t2);
    assert twice.messages == once.messages;
  }

  // ---------------------------------------------------------------------------
  // Finding: editMessage reads `body.message`

  /**
   * A request body as JSON fields. The validation pipe runs with
   * `whitelist: true`, which drops every field the DTO does not declare.
   */
  function Whitelist(body: map<string, string>, declared: set<string>): (r: map<string, string>)
    ensures r.Keys == body.Keys * declared
    ensures forall f :: f in r ==> r[f] == body[f]
  {
    map f | f in body && f in declared :: body[f]
  }

  /** The fields EditMessageRequestDto declares. */
  const EditMessageFields: set<string> := {"messageId", "newMessage"}

  function Field(body: map<string, string>, name: string): Option<string>
  {
    if name in body then Some(body[name]) else None
  }

  /** What `privateMessageRepository.save` writes and what the handler gets back. */
  datatype EditOutcome = EditOutcome(stored: PrivateMessage, returnedContent: Option<string>)

  /**
   * Lines 108-111 as written: `privateMessage.content = body.message` reads a
   * field the whitelisted body never has; TypeORM leaves an undefined property
   * out of the UPDATE, so only editedAt changes and the returned entity has no
   * content.
   */
  function EditAsWritten(m: PrivateMessage, rawBody: map<string, string>, now: Time): (r: EditOutcome)
    ensures r.stored == m.(editedAt := Some(now))
    ensures r.returnedContent == None
  {
    var message := Field(Whitelist(rawBody, EditMessageFields), "message");
    EditOutcome(m.(content := message.GetOr(m.content), editedAt := Some(now)), message)
  }

  /** The edit the DTO and the event payload describe: the content becomes `newMessage`. */
  function EditCorrected(m: PrivateMessage, rawBody: map<string, string>, now: Time): (r: EditOutcome)
    requires "newMessage" in rawBody
    ensures r.stored.content == rawBody["newMessage"] && r.returnedContent == Some(rawBody["newMessage"])
    ensures r.stored == m.(content := rawBody["newMessage"], editedAt := Some(now))
  {
    var newMessage := Whitelist(rawBody, EditMessageFields)["newMessage"];
    EditOutcome(EditedMessage(m, newMessage, now), Some(newMessage))
  }

  /** The input that shows it: a well-formed edit request leaves the old text in place. */
  lemma EditAsWrittenKeepsOldContent()
    ensures var m := PrivateMessage("m", "c", "u", "old", 0, None, None, None);
            var body := map["messageId" := "m", "newMessage" := "new", "message" := "new"];
            && EditAsWritten(m, body, 1).stored.content == "old"
            && EditCorrected(m, body, 1).stored.content == "new"
  {
  }
}

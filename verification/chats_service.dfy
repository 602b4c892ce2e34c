/**
 * ChatsService (src/chats/chats.service.ts) as an object over the store: each
 * operation checks access, then changes the store as the matching transition
 * of ChatDomain says, or fails and changes nothing. The database's generated
 * ids and `now()` are parameters.
 */
module ChatService {
  import opened Wrappers
  import opened Ids
  import opened Responses
  import opened Paging
  import opened Tables
  import opened ChatDomain
  import opened ChatQueries

  datatype SendMessageRequest = SendMessageRequest(chatId: ChatId, message: string)
  datatype EditMessageRequest = EditMessageRequest(messageId: MessageId, newMessage: string)
  datatype DeleteMessageRequest = DeleteMessageRequest(messageId: MessageId)
  datatype ReadChatRequest = ReadChatRequest(chatId: ChatId)

  /** An edit request as the JSON fields left after whitelisting. */
  function EditBody(body: EditMessageRequest): (fields: map<string, string>)
    ensures fields.Keys == EditMessageFields
    ensures Whitelist(fields, EditMessageFields) == fields
    ensures fields["newMessage"] == body.newMessage
  {
    map["messageId" := body.messageId, "newMessage" := body.newMessage]
  }

  datatype Saved = Saved(newMessage: PrivateMessage, privateChat: PrivateChat)
  datatype ReadReceipt = ReadReceipt(readMessages: seq<PrivateMessage>, privateChat: PrivateChat)

  /** What every mutation throws when its access check fails. */
  const UnauthorizedAccess: Exception := WsException(CreateErrorResponse("Unauthorized access"))

  /** SQLSTATE codes of the constraint violations an insert can raise. */
  const UniqueViolation: string := "23505"
  const ForeignKeyViolation: string := "23503"

  function MessageIds(s: seq<PrivateMessage>): set<MessageId>
  {
    set i | 0 <= i < |s| :: s[i].id
  }

  /**
   * The `forEach` of readChat and the `save` after it: stamps readAt on each
   * message the query returned, in its order, and writes the rows back.
   */
  method MarkAllRead(messages: map<MessageId, PrivateMessage>, found: seq<MessageId>, now: Time)
    returns (updated: map<MessageId, PrivateMessage>, readMessages: seq<PrivateMessage>)
    requires forall i :: 0 <= i < |found| ==> found[i] in messages
    ensures |readMessages| == |found|
    ensures forall i :: 0 <= i < |found| ==> readMessages[i] == messages[found[i]].(readAt := Some(now))
    ensures updated.Keys == messages.Keys
    ensures forall k :: k in messages ==>
      updated[k] == if k in found then messages[k].(readAt := Some(now)) else messages[k]
  {
    updated := messages;
    readMessages := [];
    for i := 0 to |found|
      invariant |readMessages| == i
      invariant forall j :: 0 <= j < i ==> readMessages[j] == messages[found[j]].(readAt := Some(now))
      invariant updated.Keys == messages.Keys
      invariant forall k :: k in messages ==>
        updated[k] == if k in found[..i] then messages[k].(readAt := Some(now)) else messages[k]
    {
      assert found[..i + 1] == found[..i] + [found[i]];
      var m := messages[found[i]].(readAt := Some(now));
      readMessages := readMessages + [m];
      updated := updated[found[i] := m];
    }
    assert found[..|found|] == found;
  }

  /** Stamping exactly the rows the query found is the read transition of the store. */
  lemma MarkAllReadIsApplyRead(db: Db, chatId: ChatId, readerId: UserId, now: Time, found: seq<MessageId>,
                               updated: map<MessageId, PrivateMessage>)
    requires forall k :: k in found <==> k in UnreadIds(db.messages, chatId, readerId)
    requires updated.Keys == db.messages.Keys
    requires forall k :: k in db.messages ==>
      updated[k] == if k in found then db.messages[k].(readAt := Some(now)) else db.messages[k]
    ensures db.(messages := updated) == ApplyRead(db, chatId, readerId, now)
  {
  }

  lemma ReadReturnsFound(messages: map<MessageId, PrivateMessage>, found: seq<MessageId>, readMessages: seq<PrivateMessage>,
                         updated: map<MessageId, PrivateMessage>, now: Time)
    requires MessagesKeyed(messages) && NoDuplicates(found)
    requires forall i :: 0 <= i < |found| ==> found[i] in messages
    requires |readMessages| == |found|
    requires forall i :: 0 <= i < |found| ==> readMessages[i] == messages[found[i]].(readAt := Some(now))
    requires updated.Keys == messages.Keys
    requires forall k :: k in messages ==> updated[k] == if k in found then messages[k].(readAt := Some(now)) else messages[k]
    ensures MessageIds(readMessages) == set k | k in found
    ensures |MessageIds(readMessages)| == |readMessages|
    ensures forall i :: 0 <= i < |readMessages| ==>
      readMessages[i].id in updated && readMessages[i] == updated[readMessages[i].id]
  {
    assert forall i :: 0 <= i < |found| ==> readMessages[i].id == found[i];
    assert MessageIds(readMessages) == set k | k in found;
    DistinctCard(found);
  }

  lemma {:induction false} DistinctCard(s: seq<MessageId>)
    requires NoDuplicates(s)
    ensures |set k | k in s| == |s|
  {
    if s != [] {
      assert NoDuplicates(s[1..]) by {
        forall i, j | 0 <= i < j < |s[1..]| ensures s[1..][i] != s[1..][j] {
          assert s[1..][i] == s[i + 1] && s[1..][j] == s[j + 1];
        }
      }
      DistinctCard(s[1..]);
      assert (set k | k in s) == (set k | k in s[1..]) + {s[0]};
      assert s[0] !in (set k | k in s[1..]) by {
        forall j | 0 <= j < |s[1..]| ensures s[1..][j] != s[0] {
          assert s[1..][j] == s[j + 1];
        }
      }
    }
  }

  /** What readChat leaves behind, given the rows its query found and the loop's results. */
  lemma ReadChatOutcome(db: Db, chatId: ChatId, readerId: UserId, now: Time, found: seq<MessageId>,
                        updated: map<MessageId, PrivateMessage>, readMessages: seq<PrivateMessage>)
    requires Valid(db)
    requires Lists(found, map k | k in UnreadIds(db.messages, chatId, readerId) :: db.messages[k])
    requires |readMessages| == |found|
    requires forall i :: 0 <= i < |found| ==> readMessages[i] == db.messages[found[i]].(readAt := Some(now))
    requires updated.Keys == db.messages.Keys
    requires forall k :: k in db.messages ==>
      updated[k] == if k in found then db.messages[k].(readAt := Some(now)) else db.messages[k]
    ensures Valid(db.(messages := updated)) && Evolves(db, db.(messages := updated))
    ensures db.(messages := updated) == ApplyRead(db, chatId, readerId, now)
    ensures MessageIds(readMessages) == UnreadIds(db.messages, chatId, readerId)
    ensures |readMessages| == |UnreadIds(db.messages, chatId, readerId)|
    ensures forall i :: 0 <= i < |readMessages| ==>
      readMessages[i].id in updated && readMessages[i] == updated[readMessages[i].id]
  {
    var unread := UnreadIds(db.messages, chatId, readerId);
    assert forall k :: k in found <==> k in unread;
    MarkAllReadIsApplyRead(db, chatId, readerId, now, found, updated);
    ReadPreserves(db, chatId, readerId, now);
    ReadReturnsFound(db.messages, found, readMessages, updated, now);
    assert (set k | k in found) == unread;
  }

  class ChatsService {
    var db: Db

    constructor(initial: Db)
      requires Valid(initial)
      ensures db == initial
    {
      db := initial;
    }

    /** saveMessage: the caller must be in the chat; the new row names the caller and that chat. */
    method SaveMessage(body: SendMessageRequest, currentUserId: UserId, newId: MessageId, now: Time)
      returns (r: Result<Saved, Exception>)
      requires Valid(db) && newId !in db.messages
      modifies this
      ensures Valid(db) && Evolves(old(db), db)
      ensures r.Success? <==> CanUserAccessPrivateChat(old(db).chats, currentUserId, body.chatId).isAuthorized
      ensures r.Failure? ==> r.error == UnauthorizedAccess && db == old(db)
      ensures r.Success? ==>
        && r.value.privateChat == old(db).chats[body.chatId]
        && r.value.newMessage == NewMessage(newId, r.value.privateChat.id, currentUserId, body.message, now)
        && db == ApplySave(old(db), r.value.newMessage)
    {
      var access := CanUserAccessPrivateChat(db.chats, currentUserId, body.chatId);
      if !access.isAuthorized {
        return Failure(UnauthorizedAccess);
      }
      var privateChat := access.privateChat.value;
      var newMessage := NewMessage(newId, privateChat.id, currentUserId, body.message, now);
      SavePreserves(db, privateChat.id, currentUserId, body.message, newId, now);
      db := ApplySave(db, newMessage);
      return Success(Saved(newMessage, privateChat));
    }

    /**
     * editMessage as written: the whitelisted body has no `message` field, so
     * the save keeps the stored content, sets editedAt, and returns an entity
     * whose content is undefined (see EditAsWritten and EditCorrected).
     */
    method EditMessage(body: EditMessageRequest, currentUserId: UserId, now: Time)
      returns (r: Result<EditOutcome, Exception>)
      requires Valid(db)
      modifies this
      ensures Valid(db) && Evolves(old(db), db)
      ensures r.Success? <==> CanUserAccessMessage(old(db), currentUserId, body.messageId).isAuthorized
      ensures r.Failure? ==> r.error == UnauthorizedAccess && db == old(db)
      ensures r.Success? ==>
        && r.value == EditAsWritten(old(db).messages[body.messageId], EditBody(body), now)
        && r.value.returnedContent == None
        && db == ApplyEdit(old(db), body.messageId, old(db).messages[body.messageId].content, now)
    {
      var access := CanUserAccessMessage(db, currentUserId, body.messageId);
      if !access.isAuthorized {
        return Failure(UnauthorizedAccess);
      }
      var privateMessage := access.privateMessage.value;
      var message := Field(EditBody(body), "message");
      // `save` leaves an undefined property out of the UPDATE
      privateMessage := privateMessage.(content := message.GetOr(privateMessage.content));
      privateMessage := privateMessage.(editedAt := Some(now));
      EditPreserves(db, currentUserId, body.messageId, privateMessage.content, now);
      db := db.(messages := db.messages[privateMessage.id := privateMessage]);
      return Success(EditOutcome(privateMessage, message));
    }

    /** deleteMessage: a soft delete by the sender of a live message. */
    method DeleteMessage(body: DeleteMessageRequest, currentUserId: UserId, now: Time)
      returns (r: Result<PrivateMessage, Exception>)
      requires Valid(db)
      modifies this
      ensures Valid(db) && Evolves(old(db), db)
      ensures r.Success? <==> CanUserAccessMessage(old(db), currentUserId, body.messageId).isAuthorized
      ensures r.Failure? ==> r.error == UnauthorizedAccess && db == old(db)
      ensures r.Success? ==>
        && r.value == old(db).messages[body.messageId].(deletedAt := Some(now))
        && db == ApplyDelete(old(db), body.messageId, now)
    {
      var access := CanUserAccessMessage(db, currentUserId, body.messageId);
      if !access.isAuthorized {
        return Failure(UnauthorizedAccess);
      }
      var privateMessage := access.privateMessage.value;
      privateMessage := privateMessage.(deletedAt := Some(now));
      DeletePreserves(db, currentUserId, body.messageId, now);
      db := db.(messages := db.messages[privateMessage.id := privateMessage]);
      return Success(privateMessage);
    }

    /** readChat: marks the peer's unread messages of the chat as read and returns them. */
    method ReadChat(body: ReadChatRequest, currentUserId: UserId, now: Time)
      returns (r: Result<ReadReceipt, Exception>)
      requires Valid(db)
      modifies this
      ensures Valid(db) && Evolves(old(db), db)
      ensures r.Success? <==> CanUserAccessPrivateChat(old(db).chats, currentUserId, body.chatId).isAuthorized
      ensures r.Failure? ==> r.error == UnauthorizedAccess && db == old(db)
      ensures r.Success? ==>
        && r.value.privateChat == old(db).chats[body.chatId]
        && db == ApplyRead(old(db), body.chatId, currentUserId, now)
        && MessageIds(r.value.readMessages) == UnreadIds(old(db).messages, body.chatId, currentUserId)
        && |r.value.readMessages| == |UnreadIds(old(db).messages, body.chatId, currentUserId)|
        && forall i :: 0 <= i < |r.value.readMessages| ==>
             r.value.readMessages[i].id in db.messages && r.value.readMessages[i] == db.messages[r.value.readMessages[i].id]
    {
      var access := CanUserAccessPrivateChat(db.chats, currentUserId, body.chatId);
      if !access.isAuthorized {
        return Failure(UnauthorizedAccess);
      }
      var unread := UnreadIds(db.messages, body.chatId, currentUserId);
      var found := Scan(map k | k in unread :: db.messages[k]);
      var updated, readMessages := MarkAllRead(db.messages, found, now);
      ReadChatOutcome(db, body.chatId, currentUserId, now, found, updated, readMessages);
      db := db.(messages := updated);
      return Success(ReadReceipt(readMessages, access.privateChat.value));
    }

    /**
     * createNewPrivateChat: rejects a chat with oneself before touching the
     * store and an unknown target next; otherwise inserts the pair in
     * canonical order, which the unique index refuses when the chat exists.
     */
    method CreateNewPrivateChat(currentUserId: UserId, targetUserId: UserId, newId: ChatId, now: Time)
      returns (r: Result<ChatInbox, Exception>)
      requires Valid(db) && newId !in db.chats
      modifies this
      ensures Valid(db) && Evolves(old(db), db)
      ensures currentUserId == targetUserId ==>
        r == Failure(BadRequest(CreateErrorResponse("Cannot chat with yourself"))) && db == old(db)
      ensures currentUserId != targetUserId && targetUserId !in old(db).users ==>
        r == Failure(NotFound(CreateErrorResponse("Target user doesn't exist"))) && db == old(db)
      ensures currentUserId != targetUserId && targetUserId in old(db).users
              && PairExists(old(db).chats, GetUser1User2Id(currentUserId, targetUserId)) ==>
        r == Failure(QueryFailed(UniqueViolation)) && db == old(db)
      ensures currentUserId != targetUserId && targetUserId in old(db).users
              && !PairExists(old(db).chats, GetUser1User2Id(currentUserId, targetUserId))
              && currentUserId !in old(db).users ==>
        r == Failure(QueryFailed(ForeignKeyViolation)) && db == old(db)
      ensures r.Success? ==>
        && currentUserId != targetUserId && currentUserId in old(db).users && targetUserId in old(db).users
        && var p := GetUser1User2Id(currentUserId, targetUserId);
        && db == old(db).(chats := old(db).chats[newId := PrivateChat(newId, p.user1Id, p.user2Id, now)])
        && r.value == ChatInbox(newId, old(db).users[targetUserId].username, old(db).users[targetUserId].avatarUrl, 0, None)
        && PairExists(db.chats, GetUser1User2Id(targetUserId, currentUserId))
    {
      if currentUserId == targetUserId {
        return Failure(BadRequest(CreateErrorResponse("Cannot chat with yourself")));
      }
      var p := GetUser1User2Id(currentUserId, targetUserId);
      if targetUserId !in db.users {
        return Failure(NotFound(CreateErrorResponse("Target user doesn't exist")));
      }
      var targetUser := db.users[targetUserId];
      if PairExists(db.chats, p) {
        return Failure(QueryFailed(UniqueViolation));
      }
      if currentUserId !in db.users {
        return Failure(QueryFailed(ForeignKeyViolation));
      }
      var chat := PrivateChat(newId, p.user1Id, p.user2Id, now);
      CreatePreserves(db, chat);
      db := db.(chats := db.chats[newId := chat]);
      GetUser1User2IdSymmetric(currentUserId, targetUserId);
      assert db.chats[newId] == chat;
      return Success(ChatInbox(newId, targetUser.username, targetUser.avatarUrl, 0, None));
    }

    /** getPrivateChatMessage: a page of the chat's history for a participant. */
    method GetPrivateChatMessage(currentUserId: UserId, privateChatId: ChatId, q: CursorQuery)
      returns (r: Result<(seq<MessageDto>, CursorMeta), Exception>)
      ensures r.Success? <==> CanUserAccessPrivateChat(db.chats, currentUserId, privateChatId).isAuthorized
      ensures r.Failure? ==> r.error == BadRequestText("Unauthorized access")
      ensures r.Success? ==> r.value == HistoryPage(db.messages, privateChatId, q)
    {
      var access := CanUserAccessPrivateChat(db.chats, currentUserId, privateChatId);
      if !access.isAuthorized {
        return Failure(BadRequestText("Unauthorized access"));
      }
      var keys := Scan(db.messages);
      var sorted := HistoryFrom(db.messages, keys, privateChatId);
      HistoryIsTheChat(db.messages, keys, privateChatId);
      var page, nextCursor := Paginate(sorted, q.cursor, q.limit);
      var messagesDto := HistoryDtos(page);
      return Success((messagesDto, CursorMeta(q.cursor, q.limit, nextCursor)));
    }

    /** getPrivateChatInboxes: a page of the caller's inbox, optionally filtered by the peer's username. */
    method GetPrivateChatInboxes(currentUserId: UserId, title: Option<string>, q: CursorQuery)
      returns (inboxes: seq<ChatInbox>, meta: CursorMeta)
      ensures (inboxes, meta) == InboxPage(db, currentUserId, title, q)
    {
      var msgKeys := Scan(db.messages);
      var chatKeys := Scan(db.chats);
      var sorted := InboxFrom(db, msgKeys, chatKeys, currentUserId, title);
      InboxIgnoresStorageOrder(db, msgKeys, chatKeys, currentUserId, title);
      var page, nextCursor := Paginate(sorted, q.cursor, q.limit);
      inboxes := Items(page);
      meta := CursorMeta(q.cursor, q.limit, nextCursor);
    }
  }

  /** Inserting a chat whose pair is new, ordered and made of existing users keeps the store consistent. */
  lemma CreatePreserves(db: Db, chat: PrivateChat)
    requires Valid(db) && chat.id !in db.chats
    requires LexLess(chat.user1Id, chat.user2Id) && chat.user1Id in db.users && chat.user2Id in db.users
    requires !PairExists(db.chats, UserPair(chat.user1Id, chat.user2Id))
    ensures Valid(db.(chats := db.chats[chat.id := chat]))
    ensures Evolves(db, db.(chats := db.chats[chat.id := chat]))
  {
    var after := db.(chats := db.chats[chat.id := chat]);
    assert after.users == db.users && after.messages == db.messages;
    assert Evolves(db, after) by {
      forall id | id in db.messages ensures MessageEvolves(db.messages[id], after.messages[id]) {
      }
    }
    assert ChatsValid(after.users, after.chats) by {
      forall a, b | a in after.chats && b in after.chats
        && after.chats[a].user1Id == after.chats[b].user1Id
        && after.chats[a].user2Id == after.chats[b].user2Id
        ensures a == b
      {
        if (a == chat.id) != (b == chat.id) {
          assert false;
        }
      }
    }
    forall id | id in after.messages
      ensures after.messages[id].id == id && MessageValid(after.chats, after.messages[id])
    {
      assert after.chats[db.messages[id].privateChatId] == db.chats[db.messages[id].privateChatId];
    }
  }
}

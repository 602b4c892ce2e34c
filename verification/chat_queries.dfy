/**
 * The two ranked queries of src/chats/chats.service.ts: a chat's message
 * history (`getPrivateChatMessage`) and a user's inbox
 * (`getPrivateChatInboxes`), each as a function of the store and of the
 * storage order of the scan, with the row mappers that turn result rows into
 * response objects.
 */
module ChatQueries {
  import opened Wrappers
  import opened Ids
  import opened Paging
  import opened Tables
  import opened ChatDomain

  // ---------------------------------------------------------------------------
  // Message history

  /** messages_sorted: the chat's messages ranked by `created_at DESC, id ASC`. */
  function HistoryEntry(chatId: ChatId): (MessageId, PrivateMessage) -> Option<(SortKey, PrivateMessage)>
  {
    (k: MessageId, m: PrivateMessage) =>
      if m.privateChatId == chatId then Some((SortKey(m.createdAt, k), m)) else None
  }

  function HistoryFrom(messages: map<MessageId, PrivateMessage>, keys: seq<MessageId>, chatId: ChatId): seq<Row<PrivateMessage>>
    requires forall i :: 0 <= i < |keys| ==> keys[i] in messages
  {
    Ordered(messages, keys, HistoryEntry(chatId))
  }

  /** The history of a chat, independent of any particular scan. */
  ghost function History(messages: map<MessageId, PrivateMessage>, chatId: ChatId): seq<Row<PrivateMessage>>
  {
    HistoryFrom(messages, Listing(messages), chatId)
  }

  /**
   * Whatever order the table is scanned in, the history holds exactly the
   * chat's messages, each once, strictly ordered newest first with the id as
   * tie-breaker.
   */
  lemma HistoryIsTheChat(messages: map<MessageId, PrivateMessage>, keys: seq<MessageId>, chatId: ChatId)
    requires Lists(keys, messages)
    ensures HistoryFrom(messages, keys, chatId) == History(messages, chatId)
    ensures Sorted(History(messages, chatId)) && DistinctIds(History(messages, chatId))
    ensures forall r :: r in History(messages, chatId) <==>
      && r.id in messages
      && messages[r.id].privateChatId == chatId
      && r.item == messages[r.id]
      && r.key == SortKey(messages[r.id].createdAt, r.id)
  {
    assert TieIsKey(HistoryEntry(chatId));
    TieIsKeyDistinct(messages, HistoryEntry(chatId));
    OrderedIgnoresStorageOrder(messages, keys, Listing(messages), HistoryEntry(chatId));
  }

  /** MessageDto. */
  datatype MessageDto = MessageDto(
    messageId: MessageId,
    chatId: ChatId,
    content: Option<string>,
    editedAt: Option<Time>,
    senderId: UserId,
    readAt: Option<Time>,
    createdAt: Time,
    deletedAt: Option<Time>)

  /**
   * The history row mapper as written (lines 527-536): content is nulled only
   * when it is the empty string, so a deleted message keeps its text.
   */
  function HistoryViewAsWritten(m: PrivateMessage): (d: MessageDto)
    ensures d.content.None? <==> m.content == ""
    ensures d.content.Some? ==> d.content.value == m.content
    ensures d == HistoryView(m).(content := d.content)
  {
    MessageDto(m.id, m.privateChatId, if m.content == "" then None else Some(m.content),
               m.editedAt, m.senderId, m.readAt, m.createdAt, m.deletedAt)
  }

  /**
   * The history row mapper hiding deleted content, as the inbox mapper does:
   * content is present only for a live message, and then it is the stored text.
   */
  function HistoryView(m: PrivateMessage): (d: MessageDto)
    ensures d.content.Some? <==> m.deletedAt.None? && m.content != ""
    ensures d.content.Some? ==> d.content.value == m.content
    ensures d.messageId == m.id && d.chatId == m.privateChatId && d.senderId == m.senderId
    ensures d.createdAt == m.createdAt && d.editedAt == m.editedAt && d.readAt == m.readAt && d.deletedAt == m.deletedAt
  {
    MessageDto(m.id, m.privateChatId, if m.deletedAt.Some? || m.content == "" then None else Some(m.content),
               m.editedAt, m.senderId, m.readAt, m.createdAt, m.deletedAt)
  }

  /** The input that shows the leak: a soft-deleted message still shows its text in history. */
  lemma HistoryLeaksDeletedContent()
    ensures var m := PrivateMessage("m", "c", "u", "secret", 0, None, None, Some(1));
            && HistoryViewAsWritten(m).content == Some("secret")
            && HistoryView(m).content == None
  {
  }

  /** The response of getPrivateChatMessage for an authorised caller. */
  ghost function HistoryPage(messages: map<MessageId, PrivateMessage>, chatId: ChatId, q: CursorQuery): (seq<MessageDto>, CursorMeta)
  {
    var p := PageOf(History(messages, chatId), q.cursor, q.limit);
    (HistoryDtos(p.rows), CursorMeta(q.cursor, q.limit, p.nextCursor))
  }

  /**
   * The row mapper as written, applied to each row of a page: every field is
   * the row's own, and the content is shown whenever it is not empty, deleted
   * or not.
   */
  function HistoryDtos(rows: seq<Row<PrivateMessage>>): (d: seq<MessageDto>)
    ensures |d| == |rows|
    ensures forall i :: 0 <= i < |rows| ==>
      && d[i].messageId == rows[i].item.id && d[i].chatId == rows[i].item.privateChatId
      && d[i].senderId == rows[i].item.senderId && d[i].createdAt == rows[i].item.createdAt
      && d[i].editedAt == rows[i].item.editedAt && d[i].readAt == rows[i].item.readAt
      && d[i].deletedAt == rows[i].item.deletedAt
      && (d[i].content.Some? <==> rows[i].item.content != "")
      && (d[i].content.Some? ==> d[i].content.value == rows[i].item.content)
  {
    seq(|rows|, i requires 0 <= i < |rows| => HistoryViewAsWritten(rows[i].item))
  }

  /**
   * A message sent after the cursor message was written does not shift the
   * page that cursor selects.
   */
  lemma NewMessageKeepsHistoryPage(messages: map<MessageId, PrivateMessage>, m: PrivateMessage, cursor: MessageId, limit: nat)
    requires m.id !in messages && m.id != cursor
    requires cursor in messages && messages[cursor].privateChatId == m.privateChatId
    requires m.createdAt > messages[cursor].createdAt
    ensures PageOf(History(messages[m.id := m], m.privateChatId), Some(cursor), limit)
         == PageOf(History(messages, m.privateChatId), Some(cursor), limit)
  {
    var chatId := m.privateChatId;
    var f := HistoryEntry(chatId);
    var h := History(messages, chatId);
    HistoryIsTheChat(messages, Listing(messages), chatId);
    var cursorRow := Row(SortKey(messages[cursor].createdAt, cursor), cursor, messages[cursor]);
    assert cursorRow in h;
    var idx := IndexOf(h, cursor);
    assert idx.Some?;
    assert h[idx.value] == cursorRow by {
      assert h[idx.value] in h;
    }
    assert TieIsKey(f);
    OrderedAfterInsert(messages, Listing(messages), f, m.id, m, Listing(messages[m.id := m]));
    InsertAheadKeepsPage(h, Row(SortKey(m.createdAt, m.id), m.id, m), cursor, limit);
  }

  // ---------------------------------------------------------------------------
  // Inbox

  /** inbox_unread_count: messages of the chat not yet read and not sent by the viewer, deleted ones included. */
  function UnreadCount(messages: map<MessageId, PrivateMessage>, chatId: ChatId, viewerId: UserId): nat
  {
    |UnreadIds(messages, chatId, viewerId)|
  }

  /** The inbox's latest-message mapper (lines 419-430): content null exactly when deleted. */
  function LatestView(m: PrivateMessage): (l: LatestMessage)
    ensures l.content.None? <==> m.deletedAt.Some?
    ensures l.content.Some? ==> l.content.value == m.content
    ensures l.messageId == m.id && l.createdAt == m.createdAt && l.deletedAt == m.deletedAt
  {
    LatestMessage(m.id, if m.deletedAt.Some? then None else Some(m.content), m.createdAt, m.deletedAt)
  }

  /** `row.avatarUrl ? String(row.avatarUrl) : null`: an empty URL reads as none. */
  function NonEmpty(s: Option<string>): (r: Option<string>)
    ensures r.Some? <==> s.Some? && s.value != ""
    ensures r.Some? ==> r == s
  {
    if s == Some("") then None else s
  }

  /** The title filter: no title, or the peer's username contains it, ignoring ASCII case. */
  predicate TitleMatches(peer: Option<User>, title: Option<string>)
  {
    title.None? || (peer.Some? && ContainsIgnoringCase(peer.value.username, title.value))
  }

  function LookupUser(users: map<UserId, User>, id: UserId): Option<User>
  {
    if id in users then Some(users[id]) else None
  }

  /**
   * inbox_sorted: one row per chat of the viewer that has a message and whose
   * peer matches the title filter, ranked by its latest message, newest first,
   * with the chat id as tie-breaker.
   */
  function InboxEntry(db: Db, msgKeys: seq<MessageId>, viewerId: UserId, title: Option<string>): (ChatId, PrivateChat) -> Option<(SortKey, ChatInbox)>
    requires forall i :: 0 <= i < |msgKeys| ==> msgKeys[i] in db.messages
  {
    (k: ChatId, c: PrivateChat) =>
      var h := HistoryFrom(db.messages, msgKeys, k);
      var peer := LookupUser(db.users, GetCurrentOtherUserId(viewerId, c.user1Id, c.user2Id).otherUserId);
      if !IsParticipant(c, viewerId) || h == [] || !TitleMatches(peer, title) then None
      else
        var latest := h[0].item;
        Some((SortKey(latest.createdAt, k),
              ChatInbox(
                k,
                if peer.Some? then peer.value.username else "null",
                if peer.Some? then NonEmpty(peer.value.avatarUrl) else None,
                UnreadCount(db.messages, k, viewerId),
                Some(LatestView(latest)))))
  }

  function InboxFrom(db: Db, msgKeys: seq<MessageId>, chatKeys: seq<ChatId>, viewerId: UserId, title: Option<string>): seq<Row<ChatInbox>>
    requires forall i :: 0 <= i < |msgKeys| ==> msgKeys[i] in db.messages
    requires forall i :: 0 <= i < |chatKeys| ==> chatKeys[i] in db.chats
  {
    Ordered(db.chats, chatKeys, InboxEntry(db, msgKeys, viewerId, title))
  }

  /** The viewer's inbox, independent of any particular scan. */
  ghost function Inbox(db: Db, viewerId: UserId, title: Option<string>): seq<Row<ChatInbox>>
  {
    InboxFrom(db, Listing(db.messages), Listing(db.chats), viewerId, title)
  }

  /** Whatever order the tables are scanned in, the inbox is the same strictly ordered list. */
  lemma InboxIgnoresStorageOrder(db: Db, msgKeys: seq<MessageId>, chatKeys: seq<ChatId>, viewerId: UserId, title: Option<string>)
    requires Lists(msgKeys, db.messages) && Lists(chatKeys, db.chats)
    ensures InboxFrom(db, msgKeys, chatKeys, viewerId, title) == Inbox(db, viewerId, title)
    ensures Sorted(Inbox(db, viewerId, title)) && DistinctIds(Inbox(db, viewerId, title))
  {
    var f := InboxEntry(db, msgKeys, viewerId, title);
    var g := InboxEntry(db, Listing(db.messages), viewerId, title);
    forall i | 0 <= i < |chatKeys| ensures f(chatKeys[i], db.chats[chatKeys[i]]) == g(chatKeys[i], db.chats[chatKeys[i]]) {
      InboxEntryIgnoresScan(db, msgKeys, Listing(db.messages), viewerId, title, chatKeys[i], db.chats[chatKeys[i]]);
    }
    InboxEntryTieIsKey(db, msgKeys, viewerId, title);
    InboxEntryTieIsKey(db, Listing(db.messages), viewerId, title);
    SelectCongruent(db.chats, chatKeys, f, g);
    TieIsKeyDistinct(db.chats, g);
    OrderedIgnoresStorageOrder(db.chats, chatKeys, Listing(db.chats), g);
  }

  lemma InboxEntryIgnoresScan(db: Db, a: seq<MessageId>, b: seq<MessageId>, viewerId: UserId, title: Option<string>, k: ChatId, c: PrivateChat)
    requires Lists(a, db.messages) && Lists(b, db.messages)
    ensures InboxEntry(db, a, viewerId, title)(k, c) == InboxEntry(db, b, viewerId, title)(k, c)
  {
    HistoryIsTheChat(db.messages, a, k);
    HistoryIsTheChat(db.messages, b, k);
  }

  lemma InboxEntryTieIsKey(db: Db, msgKeys: seq<MessageId>, viewerId: UserId, title: Option<string>)
    requires forall i :: 0 <= i < |msgKeys| ==> msgKeys[i] in db.messages
    ensures TieIsKey(InboxEntry(db, msgKeys, viewerId, title))
  {
  }

  /** Every message is stored under its own id. */
  predicate MessagesKeyed(messages: map<MessageId, PrivateMessage>)
  {
    forall id :: id in messages ==> messages[id].id == id
  }

  /** The first row of a history is a message with the latest creation time in the chat. */
  lemma HeadIsLatest(messages: map<MessageId, PrivateMessage>, chatId: ChatId)
    requires MessagesKeyed(messages)
    requires History(messages, chatId) != []
    ensures var m := History(messages, chatId)[0].item;
      && m.id in messages && messages[m.id] == m && m.privateChatId == chatId
      && forall id :: id in messages && messages[id].privateChatId == chatId ==> messages[id].createdAt <= m.createdAt
  {
    var h := History(messages, chatId);
    HistoryIsTheChat(messages, Listing(messages), chatId);
    assert h[0] in h;
    forall id | id in messages && messages[id].privateChatId == chatId
      ensures messages[id].createdAt <= h[0].item.createdAt
    {
      var r := Row(SortKey(messages[id].createdAt, id), id, messages[id]);
      assert r in h;
      var j :| 0 <= j < |h| && h[j] == r;
      if j > 0 {
        assert KeyBefore(h[0].key, h[j].key);
      }
    }
  }

  /**
   * Each inbox row is a chat of the viewer that has at least one message; its
   * latest message is one with the greatest creation time, its content is
   * hidden exactly when that message is deleted, and its unread count is the
   * number of messages from the peer not yet read.
   */
  lemma InboxRow(db: Db, viewerId: UserId, title: Option<string>, r: Row<ChatInbox>)
    requires MessagesKeyed(db.messages)
    requires r in Inbox(db, viewerId, title)
    ensures r.id in db.chats && IsParticipant(db.chats[r.id], viewerId) && r.item.chatId == r.id
    ensures r.item.unreadCount == |UnreadIds(db.messages, r.id, viewerId)|
    ensures r.item.latestMessage.Some?
    ensures var l := r.item.latestMessage.value;
      && l.messageId in db.messages
      && db.messages[l.messageId].privateChatId == r.id
      && (l.content.None? <==> db.messages[l.messageId].deletedAt.Some?)
      && forall id :: id in db.messages && db.messages[id].privateChatId == r.id ==> db.messages[id].createdAt <= l.createdAt
  {
    HistoryIsTheChat(db.messages, Listing(db.messages), r.id);
    HeadIsLatest(db.messages, r.id);
  }

  /** With no title filter, every chat of the viewer that has a message is in the inbox. */
  lemma InboxComplete(db: Db, viewerId: UserId, chatId: ChatId, messageId: MessageId)
    requires chatId in db.chats && IsParticipant(db.chats[chatId], viewerId)
    requires messageId in db.messages && db.messages[messageId].privateChatId == chatId
    ensures exists r :: r in Inbox(db, viewerId, None) && r.id == chatId
  {
    var keys := Listing(db.messages);
    var f := InboxEntry(db, keys, viewerId, None);
    InboxEntryPresent(db, viewerId, chatId, messageId);
    var e := f(chatId, db.chats[chatId]);
    var r := Row(e.value.0, chatId, e.value.1);
    assert f(r.id, db.chats[r.id]) == Some((r.key, r.item));
    assert r in Ordered(db.chats, Listing(db.chats), f);
  }

  lemma InboxEntryPresent(db: Db, viewerId: UserId, chatId: ChatId, messageId: MessageId)
    requires chatId in db.chats && IsParticipant(db.chats[chatId], viewerId)
    requires messageId in db.messages && db.messages[messageId].privateChatId == chatId
    ensures InboxEntry(db, Listing(db.messages), viewerId, None)(chatId, db.chats[chatId]).Some?
  {
    var keys := Listing(db.messages);
    var h := HistoryFrom(db.messages, keys, chatId);
    HistoryIsTheChat(db.messages, keys, chatId);
    var r := Row(SortKey(db.messages[messageId].createdAt, messageId), messageId, db.messages[messageId]);
    assert r in h;
    assert h != [];
  }

  /** After the viewer reads a chat, its inbox row shows no unread messages. */
  lemma ReadClearsUnread(db: Db, chatId: ChatId, viewerId: UserId, now: Time)
    ensures UnreadCount(ApplyRead(db, chatId, viewerId, now).messages, chatId, viewerId) == 0
  {
    ReadIsIdempotent(db, chatId, viewerId, now, now);
  }

  /**
   * Once a message is deleted, the inbox hides its content, and so does the
   * corrected history view; the history as written still shows any text it had.
   */
  lemma DeletedContentHidden(db: Db, messageId: MessageId, now: Time)
    requires messageId in db.messages
    ensures LatestView(ApplyDelete(db, messageId, now).messages[messageId]).content == None
    ensures HistoryView(ApplyDelete(db, messageId, now).messages[messageId]).content == None
    ensures db.messages[messageId].content != "" ==>
      HistoryViewAsWritten(ApplyDelete(db, messageId, now).messages[messageId]).content == Some(db.messages[messageId].content)
  {
  }

  /** The response of getPrivateChatInboxes. */
  ghost function InboxPage(db: Db, viewerId: UserId, title: Option<string>, q: CursorQuery): (seq<ChatInbox>, CursorMeta)
  {
    var p := PageOf(Inbox(db, viewerId, title), q.cursor, q.limit);
    (Items(p.rows), CursorMeta(q.cursor, q.limit, p.nextCursor))
  }
}

/**
 * The socket.io gateway (src/chats/chats.gateway.ts): the presence registry
 * `userSocketsMap` (user id -> ids of that user's open sockets), room
 * membership, and the events each handler fans out.
 *
 * Rooms are a map from room name (a chat id) to the ids of the sockets in
 * it; every socket is also in the room named by its own id, which socket.io
 * keeps implicitly and which is left implicit here too. Emitted events are
 * appended to `outbox`; delivery itself is not modelled.
 */
module ChatGateway {
  import opened Wrappers
  import opened Ids
  import opened Responses
  import opened ChatDomain
  import opened ChatService
  import opened JwtGuard

  // ---------------------------------------------------------------------------
  // Presence registry

  type Registry = map<UserId, set<SocketId>>

  /** No user maps to an empty set: a user is online exactly when the key is present. */
  predicate NoEmptySets(reg: Registry)
  {
    forall u :: u in reg ==> reg[u] != {}
  }

  /** The registry after `socket` of `user` connects (chats.gateway.ts 78-83). */
  function Connected(reg: Registry, user: UserId, socket: SocketId): (r: Registry)
    ensures user in r && socket in r[user]
    ensures user in reg ==> r[user] == reg[user] + {socket}
    ensures user !in reg ==> r[user] == {socket}
    ensures forall u :: u != user ==> (u in r <==> u in reg)
    ensures forall u :: u != user && u in reg ==> r[u] == reg[u]
    ensures NoEmptySets(reg) ==> NoEmptySets(r)
  {
    if user in reg then reg[user := reg[user] + {socket}] else reg[user := {socket}]
  }

  /** The registry after `socket` of `user` disconnects (chats.gateway.ts 93-100). */
  function Disconnected(reg: Registry, user: UserId, socket: SocketId): (r: Registry)
    ensures user in r ==> user in reg && r[user] == reg[user] - {socket}
    ensures user in reg && user !in r ==> reg[user] <= {socket}
    ensures user !in reg ==> user !in r
    ensures forall u :: u != user ==> (u in r <==> u in reg)
    ensures forall u :: u != user && u in reg ==> r[u] == reg[u]
    ensures forall u :: u in r ==> socket !in r[u] || u != user
    ensures NoEmptySets(reg) ==> NoEmptySets(r)
  {
    if user in reg then
      var rest := reg[user] - {socket};
      if rest == {} then reg - {user} else reg[user := rest]
    else reg
  }

  /** Connecting a socket that is already registered changes nothing. */
  lemma ReconnectIsNoop(reg: Registry, user: UserId, socket: SocketId)
    requires user in reg && socket in reg[user]
    ensures Connected(reg, user, socket) == reg
  {
    assert reg[user] + {socket} == reg[user];
  }

  /** Disconnecting a socket that has just connected restores the registry it connected to. */
  lemma DisconnectUndoesConnect(reg: Registry, user: UserId, socket: SocketId)
    requires NoEmptySets(reg)
    requires user !in reg || socket !in reg[user]
    ensures Disconnected(Connected(reg, user, socket), user, socket) == reg
  {
    var c := Connected(reg, user, socket);
    if user in reg {
      assert c[user] - {socket} == reg[user];
    } else {
      assert c[user] - {socket} == {};
      assert c - {user} == reg;
    }
  }

  // ---------------------------------------------------------------------------
  // Rooms

  type Rooms = map<string, set<SocketId>>

  /** The sockets in a room; a room nobody has joined is empty. */
  function Members(rooms: Rooms, room: string): set<SocketId>
  {
    if room in rooms then rooms[room] else {}
  }

  /** `socket.rooms`: the room named by the socket's own id, and every room it has joined. */
  function SocketRooms(rooms: Rooms, socket: SocketId): (s: set<string>)
    ensures forall room :: room in s <==> room == socket || socket in Members(rooms, room)
  {
    {socket} + set room | room in rooms && socket in rooms[room]
  }

  /** `socket.join(rooms)` for a list of rooms. */
  function JoinAll(rooms: Rooms, ids: seq<ChatId>, socket: SocketId): (r: Rooms)
    ensures forall room :: Members(r, room) == Members(rooms, room) + (if room in ids then {socket} else {})
    ensures forall room :: room in r <==> room in rooms || room in ids
    decreases |ids|
  {
    if ids == [] then rooms
    else JoinAll(rooms[ids[0] := Members(rooms, ids[0]) + {socket}], ids[1..], socket)
  }

  /** The rooms after the sockets `joined` join `room` (a room appears once somebody joins it). */
  function AddMembers(rooms: Rooms, room: string, joined: set<SocketId>): (r: Rooms)
    ensures Members(r, room) == Members(rooms, room) + joined
    ensures forall other :: other != room ==> (other in r <==> other in rooms) && Members(r, other) == Members(rooms, other)
  {
    if joined == {} then rooms else rooms[room := Members(rooms, room) + joined]
  }

  /** Joining sockets into one room leaves the rooms of every other socket as they were. */
  lemma JoinKeepsSocketRooms(rooms: Rooms, room: string, joined: set<SocketId>, socket: SocketId)
    requires socket !in joined
    ensures SocketRooms(AddMembers(rooms, room, joined), socket) == SocketRooms(rooms, socket)
  {
    var after := AddMembers(rooms, room, joined);
    forall r ensures r in SocketRooms(after, socket) <==> r in SocketRooms(rooms, socket) {
      assert socket in Members(after, r) <==> socket in Members(rooms, r);
    }
  }

  /**
   * The rooms after socket.io removes a closing socket from every room it
   * was in; a room left empty is dropped, as the adapter does.
   */
  function LeaveAll(rooms: Rooms, socket: SocketId): (r: Rooms)
    ensures forall room :: Members(r, room) == Members(rooms, room) - {socket}
    ensures forall room :: room in r <==> room in rooms && rooms[room] - {socket} != {}
  {
    map room | room in rooms && rooms[room] - {socket} != {} :: rooms[room] - {socket}
  }

  /** After leaving, the socket is only in its own room, and every other socket keeps its rooms. */
  lemma LeaveAllForgetsSocket(rooms: Rooms, socket: SocketId, other: SocketId)
    requires other != socket
    ensures SocketRooms(LeaveAll(rooms, socket), socket) == {socket}
    ensures SocketRooms(LeaveAll(rooms, socket), other) == SocketRooms(rooms, other)
  {
    var after := LeaveAll(rooms, socket);
    forall room ensures room in SocketRooms(after, other) <==> room in SocketRooms(rooms, other) {
      assert other in Members(after, room) <==> other in Members(rooms, room);
    }
    forall room ensures room in SocketRooms(after, socket) <==> room == socket {
      assert socket !in Members(after, room);
    }
  }

  /**
   * The peer sockets the lazy join puts in the room: those the server still
   * holds, unless the id is in `skip`. As written (chats.gateway.ts 185),
   * `skip` is the sender's own rooms.
   */
  function LazyJoined(peers: set<SocketId>, live: set<SocketId>, skip: set<string>): (j: set<SocketId>)
    ensures forall s :: s in j <==> s in peers && s in live && s !in skip
  {
    set s | s in peers && s in live && s !in skip
  }

  /** One step of the lazy join loop, in terms of the sockets visited so far. */
  lemma LazyJoinStep(start: Rooms, room: string, peers: set<SocketId>, pending: set<SocketId>, s: SocketId,
                     live: set<SocketId>, sender: SocketId)
    requires s in peers && s !in pending
    ensures var senderRooms := SocketRooms(start, sender);
            var before := AddMembers(start, room, LazyJoined(peers - (pending + {s}), live, senderRooms));
            var after := AddMembers(start, room, LazyJoined(peers - pending, live, senderRooms));
            && SocketRooms(before, sender) == senderRooms
            && (s in live && s !in senderRooms ==> after == before[room := Members(before, room) + {s}])
            && (s !in live || s in senderRooms ==> after == before)
  {
    var senderRooms := SocketRooms(start, sender);
    var j0 := LazyJoined(peers - (pending + {s}), live, senderRooms);
    var j1 := LazyJoined(peers - pending, live, senderRooms);
    JoinKeepsSocketRooms(start, room, j0, sender);
    if s in live && s !in senderRooms {
      assert j1 == j0 + {s};
      var before := AddMembers(start, room, j0);
      assert Members(start, room) + j1 == Members(before, room) + {s};
    } else {
      assert j1 == j0;
    }
  }

  /**
   * The lazy join's promise: when no peer socket id names a room of the
   * sender (socket ids never coincide with chat ids or other sockets' ids),
   * every live socket of the peer is in the chat's room afterwards.
   */
  lemma LazyJoinCoversLivePeers(rooms: Rooms, room: string, peers: set<SocketId>, live: set<SocketId>, sender: SocketId)
    requires peers * SocketRooms(rooms, sender) == {}
    ensures LazyJoined(peers, live, SocketRooms(rooms, sender)) == peers * live
    ensures peers * live <= Members(AddMembers(rooms, room, LazyJoined(peers, live, SocketRooms(rooms, sender))), room)
  {
    var senderRooms := SocketRooms(rooms, sender);
    forall s | s in peers * live ensures s !in senderRooms {
      assert s !in peers * senderRooms;
    }
  }

  /**
   * The check as the comment above it describes it skips a peer socket already
   * in the chat's room: the same filter over the room's members instead of the
   * sender's rooms. Then every live peer socket ends up in the room, whatever
   * the sender's rooms are.
   */
  lemma LazyJoinIntendedCovers(rooms: Rooms, room: string, peers: set<SocketId>, live: set<SocketId>)
    ensures var after := AddMembers(rooms, room, LazyJoined(peers, live, Members(rooms, room)));
      && Members(after, room) == Members(rooms, room) + peers * live
  {
    var j := LazyJoined(peers, live, Members(rooms, room));
    assert Members(rooms, room) + j == Members(rooms, room) + peers * live;
  }

  /**
   * The input that shows the as-written check testing the wrong socket: the
   * sender's socket "s1" is in a room named after the peer's socket "s2", so
   * "s2" never joins chat "c"; the intended check lets it join.
   */
  lemma LazyJoinSkipsPeerNamedBySenderRoom()
    ensures var rooms: Rooms := map["s2" := {"s1"}];
      && "s2" !in Members(AddMembers(rooms, "c", LazyJoined({"s2"}, {"s2"}, SocketRooms(rooms, "s1"))), "c")
      && "s2" in Members(AddMembers(rooms, "c", LazyJoined({"s2"}, {"s2"}, Members(rooms, "c"))), "c")
  {
    var rooms: Rooms := map["s2" := {"s1"}];
    assert "s2" in SocketRooms(rooms, "s1");
    assert LazyJoined({"s2"}, {"s2"}, SocketRooms(rooms, "s1")) == {};
    assert "s2" in LazyJoined({"s2"}, {"s2"}, Members(rooms, "c"));
  }

  // ---------------------------------------------------------------------------
  // Events

  /** One entry of a read receipt. */
  datatype ReadMark = ReadMark(messageId: MessageId, readAt: Option<Time>)

  /** The data an event or a reply carries. */
  datatype Payload =
    | NoData
    | MessagePayload(message: PrivateMessage)
    | EditPayload(chatId: ChatId, messageId: MessageId, newMessage: Option<string>, editedAt: Option<Time>)
    | DeletePayload(chatId: ChatId, messageId: MessageId, deletedAt: Option<Time>)
    | TypingPayload(userId: UserId)
    | ReadPayload(chatId: ChatId, messages: seq<ReadMark>)

  /** A success response: its message and its data. */
  datatype Reply = Reply(message: string, data: Payload)

  /** `socket.to(room).emit(event, data)`: the room's members except the emitting socket. */
  datatype Emission = Emission(event: string, room: string, recipients: set<SocketId>, data: Payload)

  function ReadMarks(messages: seq<PrivateMessage>): (marks: seq<ReadMark>)
    ensures |marks| == |messages|
    ensures forall i :: 0 <= i < |messages| ==> marks[i] == ReadMark(messages[i].id, messages[i].readAt)
  {
    seq(|messages|, i requires 0 <= i < |messages| => ReadMark(messages[i].id, messages[i].readAt))
  }

  /** The receipts readChat returns name exactly the messages it marked, each stamped with the read time. */
  lemma ReceiptMarks(db: Db, after: Db, chatId: ChatId, readerId: UserId, now: Time, readMessages: seq<PrivateMessage>)
    requires after == ApplyRead(db, chatId, readerId, now)
    requires MessageIds(readMessages) == UnreadIds(db.messages, chatId, readerId)
    requires forall i :: 0 <= i < |readMessages| ==>
      readMessages[i].id in after.messages && readMessages[i] == after.messages[readMessages[i].id]
    ensures var marks := ReadMarks(readMessages);
      && (set i | 0 <= i < |marks| :: marks[i].messageId) == UnreadIds(db.messages, chatId, readerId)
      && forall i :: 0 <= i < |marks| ==> marks[i].readAt == Some(now)
  {
    var marks := ReadMarks(readMessages);
    assert (set i | 0 <= i < |marks| :: marks[i].messageId) == MessageIds(readMessages);
    forall i | 0 <= i < |marks| ensures marks[i].readAt == Some(now) {
      var id := readMessages[i].id;
      assert id in MessageIds(readMessages);
      assert IsUnreadFor(db.messages[id], chatId, readerId);
    }
  }

  const NoTokenProvided: Exception := WsException(CreateErrorResponse("Unauthorized access: No token provided"))
  const InvalidToken: Exception := WsException(CreateErrorResponse("Unauthorized access: Invalid token"))

  // ---------------------------------------------------------------------------
  // The gateway

  class ChatsGateway {
    const chatService: ChatsService
    var userSocketsMap: Registry
    var rooms: Rooms
    var outbox: seq<Emission>

    ghost predicate Valid()
      reads this, chatService
    {
      NoEmptySets(userSocketsMap) && ChatDomain.Valid(chatService.db)
    }

    constructor(chatService: ChatsService)
      requires ChatDomain.Valid(chatService.db)
      ensures Valid()
      ensures this.chatService == chatService && userSocketsMap == map[] && rooms == map[] && outbox == []
    {
      this.chatService := chatService;
      userSocketsMap := map[];
      rooms := map[];
      outbox := [];
    }

    /** Sends an event to the room's members other than `socket`. */
    method EmitTo(socket: Socket, room: string, event: string, data: Payload)
      modifies this
      ensures outbox == old(outbox) + [Emission(event, room, Members(rooms, room) - {socket.id}, data)]
      ensures userSocketsMap == old(userSocketsMap) && rooms == old(rooms)
    {
      outbox := outbox + [Emission(event, room, Members(rooms, room) - {socket.id}, data)];
    }

    /**
     * handleConnection. The token (missing or empty counts as none) and
     * `verifyJwt` stand for the auth service, which is not part of this model.
     */
    method HandleConnection(socket: Socket, authToken: Option<string>, verifyJwt: string -> Option<UserPayload>)
      returns (r: Result<(), Exception>)
      requires Valid()
      modifies this, socket
      ensures Valid()
      ensures rooms == old(rooms) && outbox == old(outbox)
      ensures authToken.None? || authToken.value == "" ==>
        r == Failure(NoTokenProvided) && userSocketsMap == old(userSocketsMap) && socket.user == old(socket.user)
      ensures authToken.Some? && authToken.value != "" && verifyJwt(authToken.value).None? ==>
        r == Failure(InvalidToken) && userSocketsMap == old(userSocketsMap) && socket.user == old(socket.user)
      ensures authToken.Some? && authToken.value != "" && verifyJwt(authToken.value).Some? ==>
        && r.Success?
        && socket.user == verifyJwt(authToken.value)
        && userSocketsMap == Connected(old(userSocketsMap), socket.user.value.userId, socket.id)
    {
      if authToken.None? || authToken.value == "" {
        return Failure(NoTokenProvided);
      }
      var userPayload := verifyJwt(authToken.value);
      if userPayload.None? {
        return Failure(InvalidToken);
      }
      socket.user := userPayload;
      var userId := userPayload.value.userId;
      if userId in userSocketsMap {
        userSocketsMap := userSocketsMap[userId := userSocketsMap[userId] + {socket.id}];
      } else {
        userSocketsMap := userSocketsMap[userId := {socket.id}];
      }
      return Success(());
    }

    /**
     * handleDisconnect. socket.io has already taken the socket out of every
     * room when the handler runs. A socket whose connection was refused has
     * no user attached, and reading its `userId` throws.
     */
    method HandleDisconnect(socket: Socket) returns (r: Result<(), Exception>)
      requires Valid()
      modifies this
      ensures Valid()
      ensures rooms == LeaveAll(old(rooms), socket.id) && outbox == old(outbox)
      ensures socket.user.None? ==> r == Failure(TypeError) && userSocketsMap == old(userSocketsMap)
      ensures socket.user.Some? ==>
        r.Success? && userSocketsMap == Disconnected(old(userSocketsMap), socket.user.value.userId, socket.id)
    {
      rooms := LeaveAll(rooms, socket.id);
      if socket.user.None? {
        return Failure(TypeError);
      }
      var userId := socket.user.value.userId;
      if userId in userSocketsMap {
        var userSockets := userSocketsMap[userId] - {socket.id};
        if userSockets == {} {
          userSocketsMap := userSocketsMap - {userId};
        } else {
          userSocketsMap := userSocketsMap[userId := userSockets];
        }
      }
      return Success(());
    }

    /** handleJoinChatRooms: all the requested rooms, or none. */
    method HandleJoinChatRooms(socket: Socket, chatIds: seq<ChatId>, reqUser: UserPayload)
      returns (r: Result<Reply, Exception>)
      requires Valid()
      modifies this
      ensures Valid()
      ensures userSocketsMap == old(userSocketsMap) && outbox == old(outbox)
      ensures r.Success? <==> CanUserAccessPrivateChats(chatService.db.chats, reqUser.userId, chatIds).isAuthorized
      ensures r.Failure? ==> r.error == UnauthorizedAccess && rooms == old(rooms)
      ensures r.Success? ==> r.value == Reply("Joined chat room", NoData) && rooms == JoinAll(old(rooms), chatIds, socket.id)
    {
      var access := CanUserAccessPrivateChats(chatService.db.chats, reqUser.userId, chatIds);
      if !access.isAuthorized {
        return Failure(UnauthorizedAccess);
      }
      rooms := JoinAll(rooms, chatIds, socket.id);
      return Success(Reply("Joined chat room", NoData));
    }

    /**
     * The lazy join of handleSendMessage (chats.gateway.ts 180-192): each of
     * the peer's sockets that the server still holds joins the chat's room,
     * unless its id is one of the sender's rooms.
     */
    method LazyJoin(socket: Socket, chatId: ChatId, peers: set<SocketId>, live: set<SocketId>)
      modifies this
      ensures userSocketsMap == old(userSocketsMap) && outbox == old(outbox)
      ensures rooms == AddMembers(old(rooms), chatId, LazyJoined(peers, live, SocketRooms(old(rooms), socket.id)))
    {
      ghost var start := rooms;
      ghost var senderRooms := SocketRooms(start, socket.id);
      var pending := peers;
      while pending != {}
        invariant pending <= peers
        invariant userSocketsMap == old(userSocketsMap) && outbox == old(outbox)
        invariant rooms == AddMembers(start, chatId, LazyJoined(peers - pending, live, senderRooms))
        decreases |pending|
      {
        var socketId :| socketId in pending;
        LazyJoinStep(start, chatId, peers, pending - {socketId}, socketId, live, socket.id);
        assert pending - {socketId} + {socketId} == pending;
        if socketId !in SocketRooms(rooms, socket.id) && socketId in live {
          rooms := rooms[chatId := Members(rooms, chatId) + {socketId}];
        }
        pending := pending - {socketId};
      }
      assert peers - pending == peers;
    }

    /**
     * handleSendMessage: saves the message, lazily joins the peer's sockets
     * to the chat's room, and sends `newMessage` to the room except the
     * sender. `live` is the set of sockets the server still holds.
     */
    method HandleSendMessage(socket: Socket, body: SendMessageRequest, reqUser: UserPayload,
                             newId: MessageId, now: Time, live: set<SocketId>)
      returns (r: Result<Reply, Exception>)
      requires Valid() && newId !in chatService.db.messages
      modifies this, chatService
      ensures Valid()
      ensures userSocketsMap == old(userSocketsMap)
      ensures r.Success? <==> CanUserAccessPrivateChat(old(chatService.db).chats, reqUser.userId, body.chatId).isAuthorized
      ensures r.Failure? ==>
        r.error == UnauthorizedAccess && chatService.db == old(chatService.db) && rooms == old(rooms) && outbox == old(outbox)
      ensures r.Success? ==>
        var chat := old(chatService.db).chats[body.chatId];
        var message := NewMessage(newId, body.chatId, reqUser.userId, body.message, now);
        var other := GetCurrentOtherUserId(reqUser.userId, chat.user1Id, chat.user2Id).otherUserId;
        var peers := if other in userSocketsMap then userSocketsMap[other] else {};
        && other != reqUser.userId
        && chatService.db == ApplySave(old(chatService.db), message)
        && rooms == AddMembers(old(rooms), body.chatId, LazyJoined(peers, live, SocketRooms(old(rooms), socket.id)))
        && (peers * SocketRooms(old(rooms), socket.id) == {} ==> peers * live <= Members(rooms, body.chatId))
        && outbox == old(outbox) + [Emission("newMessage", body.chatId, Members(rooms, body.chatId) - {socket.id},
                                             MessagePayload(message))]
        && r.value == Reply("Message sent", MessagePayload(message))
    {
      var saved := chatService.SaveMessage(body, reqUser.userId, newId, now);
      if saved.Failure? {
        return Failure(saved.error);
      }
      var newMessage := saved.value.newMessage;
      var privateChat := saved.value.privateChat;
      var ids := GetCurrentOtherUserId(reqUser.userId, privateChat.user1Id, privateChat.user2Id);
      LexLessIrreflexive(privateChat.user1Id);
      var peers := if ids.otherUserId in userSocketsMap then userSocketsMap[ids.otherUserId] else {};
      if peers * SocketRooms(rooms, socket.id) == {} {
        LazyJoinCoversLivePeers(rooms, privateChat.id, peers, live, socket.id);
      }
      LazyJoin(socket, privateChat.id, peers, live);
      EmitTo(socket, body.chatId, "newMessage", MessagePayload(newMessage));
      return Success(Reply("Message sent", MessagePayload(newMessage)));
    }

    /**
     * handleEditMessage: the edit as the service performs it, announced to the
     * chat's room except the sender. The entity the service returns has no
     * content, so the payload carries no `newMessage`.
     */
    method HandleEditMessage(socket: Socket, body: EditMessageRequest, reqUser: UserPayload, now: Time)
      returns (r: Result<Reply, Exception>)
      requires Valid()
      modifies this, chatService
      ensures Valid()
      ensures userSocketsMap == old(userSocketsMap) && rooms == old(rooms)
      ensures r.Success? <==> CanUserAccessMessage(old(chatService.db), reqUser.userId, body.messageId).isAuthorized
      ensures r.Failure? ==> r.error == UnauthorizedAccess && chatService.db == old(chatService.db) && outbox == old(outbox)
      ensures r.Success? ==>
        var m := old(chatService.db).messages[body.messageId];
        var data := EditPayload(m.privateChatId, m.id, None, Some(now));
        && chatService.db == ApplyEdit(old(chatService.db), body.messageId, m.content, now)
        && outbox == old(outbox) + [Emission("newEditMessage", m.privateChatId,
                                             Members(rooms, m.privateChatId) - {socket.id}, data)]
        && r.value == Reply("Message edited successfully", data)
    {
      var edited := chatService.EditMessage(body, reqUser.userId, now);
      if edited.Failure? {
        return Failure(edited.error);
      }
      var editedMessage := edited.value.stored;
      var data := EditPayload(editedMessage.privateChatId, editedMessage.id, edited.value.returnedContent, editedMessage.editedAt);
      EmitTo(socket, editedMessage.privateChatId, "newEditMessage", data);
      return Success(Reply("Message edited successfully", data));
    }

    /** handleDeleteMessage: the soft delete, announced to the chat's room except the sender. */
    method HandleDeleteMessage(socket: Socket, body: DeleteMessageRequest, reqUser: UserPayload, now: Time)
      returns (r: Result<Reply, Exception>)
      requires Valid()
      modifies this, chatService
      ensures Valid()
      ensures userSocketsMap == old(userSocketsMap) && rooms == old(rooms)
      ensures r.Success? <==> CanUserAccessMessage(old(chatService.db), reqUser.userId, body.messageId).isAuthorized
      ensures r.Failure? ==> r.error == UnauthorizedAccess && chatService.db == old(chatService.db) && outbox == old(outbox)
      ensures r.Success? ==>
        var m := old(chatService.db).messages[body.messageId];
        var data := DeletePayload(m.privateChatId, m.id, Some(now));
        && chatService.db == ApplyDelete(old(chatService.db), body.messageId, now)
        && outbox == old(outbox) + [Emission("newDeleteMessage", m.privateChatId,
                                             Members(rooms, m.privateChatId) - {socket.id}, data)]
        && r.value == Reply("Message deleted successfully", data)
    {
      var deleted := chatService.DeleteMessage(body, reqUser.userId, now);
      if deleted.Failure? {
        return Failure(deleted.error);
      }
      var m := deleted.value;
      var data := DeletePayload(m.privateChatId, m.id, m.deletedAt);
      EmitTo(socket, m.privateChatId, "newDeleteMessage", data);
      return Success(Reply("Message deleted successfully", data));
    }

    /**
     * handleSendTyping (`event` "typing") and handleSendStopTyping (`event`
     * "stopTyping"): the same access check, then the caller's id to the room.
     */
    method HandleTyping(socket: Socket, chatId: ChatId, reqUser: UserPayload, event: string)
      returns (r: Result<(), Exception>)
      requires Valid()
      modifies this
      ensures Valid()
      ensures userSocketsMap == old(userSocketsMap) && rooms == old(rooms)
      ensures r.Success? <==> CanUserAccessPrivateChat(chatService.db.chats, reqUser.userId, chatId).isAuthorized
      ensures r.Failure? ==> r.error == UnauthorizedAccess && outbox == old(outbox)
      ensures r.Success? ==>
        outbox == old(outbox) + [Emission(event, chatId, Members(rooms, chatId) - {socket.id}, TypingPayload(reqUser.userId))]
    {
      var access := CanUserAccessPrivateChat(chatService.db.chats, reqUser.userId, chatId);
      if !access.isAuthorized {
        return Failure(UnauthorizedAccess);
      }
      EmitTo(socket, chatId, event, TypingPayload(reqUser.userId));
      return Success(());
    }

    /** handleSendReadReceipt: marks the chat read and sends the receipts to the room except the sender. */
    method HandleSendReadReceipt(socket: Socket, body: ReadChatRequest, reqUser: UserPayload, now: Time)
      returns (r: Result<Reply, Exception>)
      requires Valid()
      modifies this, chatService
      ensures Valid()
      ensures userSocketsMap == old(userSocketsMap) && rooms == old(rooms)
      ensures r.Success? <==> CanUserAccessPrivateChat(old(chatService.db).chats, reqUser.userId, body.chatId).isAuthorized
      ensures r.Failure? ==> r.error == UnauthorizedAccess && chatService.db == old(chatService.db) && outbox == old(outbox)
      ensures r.Success? ==>
        && chatService.db == ApplyRead(old(chatService.db), body.chatId, reqUser.userId, now)
        && r.value.message == "Read receipt sent"
        && r.value.data.ReadPayload?
        && r.value.data.chatId == body.chatId
        && (set i | 0 <= i < |r.value.data.messages| :: r.value.data.messages[i].messageId)
           == UnreadIds(old(chatService.db).messages, body.chatId, reqUser.userId)
        && (forall i :: 0 <= i < |r.value.data.messages| ==> r.value.data.messages[i].readAt == Some(now))
        && outbox == old(outbox) + [Emission("newReadChat", body.chatId, Members(rooms, body.chatId) - {socket.id}, r.value.data)]
    {
      var receipt := chatService.ReadChat(body, reqUser.userId, now);
      if receipt.Failure? {
        return Failure(receipt.error);
      }
      var privateChat := receipt.value.privateChat;
      var data := ReadPayload(privateChat.id, ReadMarks(receipt.value.readMessages));
      ReceiptMarks(old(chatService.db), chatService.db, body.chatId, reqUser.userId, now, receipt.value.readMessages);
      EmitTo(socket, privateChat.id, "newReadChat", data);
      return Success(Reply("Read receipt sent", data));
    }
  }
}

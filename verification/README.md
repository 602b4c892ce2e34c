# chat-app-be in Dafny

A model of the back end of a one-to-one chat application (NestJS, TypeORM and
PostgreSQL, socket.io). Users sign up, search each other by username, edit
their profile, open a private chat with another user and exchange messages in
it. Messages can be edited, soft-deleted and marked read. The HTTP side serves
cursor-paginated lists: a user's inbox, a chat's history and the user search.
The socket side pushes each change to the chat's room.

The model covers:

- **Chat service** (`ChatService`, on top of `ChatDomain` and `ChatQueries`).
  - The store is three maps: users, chats and messages.
  - Each mutation is a method of a `ChatsService` class that updates the store. It is specified by a pure transition (`ApplySave`, `ApplyEdit`, `ApplyDelete`, `ApplyRead`).
  - Lemmas show that each transition keeps the store consistent: every chat is an ordered pair of existing users, unique per pair, and every message belongs to a chat its sender is in.
  - The access checks are functions with if-and-only-if contracts.
- **Ranked queries** (`Paging`, `Tables`).
  - The three cursor-paginated SQL queries are `ROW_NUMBER() OVER (ORDER BY …)`, then `rn >= rn(cursor)`, then `LIMIT limit + 1`, then the extra row popped into `nextCursor`.
  - They are modelled once, generically:
    - a table scan in an arbitrary storage order (`Scan`);
    - a projection (`Select`);
    - a sort on a descending primary key with an ascending tie-breaker (`Sort`, `Ordered`);
    - the page promised to the client (`PageFrom`, `PageOf`), and the imperative fetch-then-pop (`Paginate`).
  - Lemmas show the result does not depend on storage order. Following `nextCursor` never skips or repeats a row. A new message does not shift a page anchored at an older cursor.
- **Chat gateway** (`ChatGateway`).
  - A class holding the registry of online users' sockets, the room memberships and the log of emitted events.
  - One method per handler: connect, disconnect, join rooms, send, edit, delete, typing and stop typing, read receipt.
  - Includes the lazy room join of the recipient's live sockets.
- **Users service** (`UsersService`): the username search with its pagination, the profile lookup, and the profile save with its database failures and the mapping of those failures to HTTP errors.
- **JWT guards** (`JwtGuard`): the HTTP guard, with the public-route bypass, and the socket guard. Each is given as a decision function and as a method that binds the user to the request or socket.
- **Validation pipes** (`ValidationPipe`): how validator errors become the single message of the exception, with a loop against a join specification.
- **Request bodies** (`DtoRules`): the rules of the sign-up, change-password and profile-update bodies. This includes the password regular expressions and the Cloudinary URL pattern, each matcher proved equal to a declarative description.
- **Pagination decorators** (`PaginationDecorator`): `parseInt`, `||` defaults, the limit clamp and the UUID v4 cursor pipe.

The database, the JWT library, the clock and id generation are parameters:

- stored rows are maps;
- `verifyJwt` is a function argument;
- `now` and new ids are arguments, with a requirement that new ids are fresh.

## Model

| member | source | states |
|---|---|---|
| ChatDomain.GetUser1User2Id | src/chats/chats.service.ts:46-58 | The pair is the two ids in some order, and for distinct ids the first is the smaller. |
| ChatDomain.GetUser1User2IdSymmetric | src/chats/chats.service.ts:46-58 | Both argument orders give the same pair, so one chat row serves both users. |
| ChatDomain.GetCurrentOtherUserId | src/chats/chats.service.ts:28-44 | The current id is returned as given. The other id is one of the chat's two users, and when the caller is one of two distinct users it is the one that is not the caller. |
| ChatDomain.CanUserAccessPrivateChat | src/chats/chats.service.ts:234-276 | Authorised iff a chat with that id exists and the user is user1 or user2 of it; the chat is returned exactly when authorised. |
| ChatDomain.CanUserAccessMessage | src/chats/chats.service.ts:183-232 | Authorised iff the message exists, is not deleted, was sent by the user, and its chat has the user as a participant; the message is returned exactly when authorised. |
| ChatDomain.MessageAccessIsOwnership | src/chats/chats.service.ts:183-232 | In a consistent store, message access reduces to "sender and not deleted": the join on the chat adds nothing. |
| ChatDomain.Dedup | src/chats/chats.service.ts:288-300 | The distinct ids of the request, as the `In (...)` filter sees them: the same elements, no duplicates, no longer than the input, and as long as the input iff the input has no duplicates. |
| ChatDomain.AccessibleChats | src/chats/chats.service.ts:288-300 | The chats the `find` returns are no more than the ids asked for, and exactly as many iff every id names a chat of the user. |
| ChatDomain.CanUserAccessPrivateChats | src/chats/chats.service.ts:278-320 | Authorised iff the number of chats found equals the number of ids requested: every id is one of the user's chats and no id is repeated. Authorised returns that many chats: the stored chat of every requested id, and nothing else. Unauthorised returns no chats. |
| ChatDomain.ApplyRead | src/chats/chats.service.ts:160-175 | Users, chats and message ids are unchanged. Exactly the chat's messages from the other side that are unread, deleted ones included, get `readAt = now`. Every other message is untouched. |
| ChatDomain.SavePreserves | src/chats/chats.service.ts:60-87 | Saving a message as a participant keeps the store consistent and only adds a row. |
| ChatDomain.EditPreserves | src/chats/chats.service.ts:89-114 | An authorised edit keeps the store consistent and changes only content and `editedAt` of one live message. |
| ChatDomain.DeletePreserves | src/chats/chats.service.ts:116-141 | An authorised soft delete keeps the store consistent and only sets `deletedAt`. |
| ChatDomain.ReadPreserves | src/chats/chats.service.ts:143-181 | Marking a chat read keeps the store consistent and only sets `readAt` on unread rows. |
| ChatDomain.DeletedIsTerminal | src/chats/chats.service.ts:116-141 | After a delete nobody can edit or delete that message again. |
| ChatDomain.OnlySenderMutates | src/chats/chats.service.ts:183-232 | A user who is not the sender, or a message already deleted, is refused. |
| ChatDomain.ReadIsIdempotent | src/chats/chats.service.ts:143-181 | After a read nothing is left unread for that reader in that chat, and a second read changes nothing. |
| ChatDomain.Whitelist | src/chats/dto/edit-message.dto.ts:3-10 | The validation pipe's whitelist keeps exactly the declared fields of the body, with their values. |
| ChatDomain.EditAsWritten | src/chats/chats.service.ts:108-111 | As written, the stored message keeps its content (the whitelisted body has no `message` field) and only `editedAt` changes. |
| ChatDomain.EditCorrected | src/chats/chats.service.ts:108-111 | The intended edit stores `newMessage` as the content and stamps `editedAt`, all else unchanged. |
| ChatDomain.EditAsWrittenKeepsOldContent | src/chats/chats.service.ts:108 | A concrete well-formed edit request whose stored content stays "old". |
| ChatQueries.HistoryIsTheChat | src/chats/chats.service.ts:476-493 | Whatever the scan order, the history is the same strictly ordered list (newest first, id ascending on ties) of exactly the chat's messages. |
| ChatQueries.HistoryViewAsWritten | src/chats/chats.service.ts:528-537 | As written, content is null only when it is the empty string and otherwise the stored text, so a deleted message keeps its text; every other field is as in the corrected view. |
| ChatQueries.HistoryView | src/chats/chats.service.ts:528-537 | The corrected view: content is shown iff the message is not deleted and not empty, and then it is the stored text. The other fields are copied. |
| ChatQueries.HistoryLeaksDeletedContent | src/chats/chats.service.ts:531 | A soft-deleted message with text "secret" shows "secret" in the as-written history. |
| ChatQueries.HistoryDtos | src/chats/chats.service.ts:528-537 | One DTO per row, in order, with the mapper as written: every field is the row's own, and content is present iff the stored text is not empty, deleted or not. |
| ChatQueries.NewMessageKeepsHistoryPage | src/chats/chats.service.ts:488-522 | A message newer than the cursor message does not change the page that cursor selects. |
| ChatQueries.LatestView | src/chats/chats.service.ts:422-431 | The inbox's latest-message content is null iff the message is deleted, otherwise the stored text; ids and times are copied. |
| ChatQueries.NonEmpty | src/chats/chats.service.ts:420 | The avatar URL is kept iff present and non-empty. |
| ChatQueries.InboxIgnoresStorageOrder | src/chats/chats.service.ts:334-411 | Whatever the scan order of the two tables, the inbox is the same strictly ordered list with distinct chat ids. |
| ChatQueries.InboxEntryIgnoresScan | src/chats/chats.service.ts:373 | The latest-message subquery picks the same row whatever the scan order. |
| ChatQueries.InboxEntryTieIsKey | src/chats/chats.service.ts:368 | The inbox rank breaks ties on the chat id itself. |
| ChatQueries.HeadIsLatest | src/chats/chats.service.ts:488 | The first history row has the latest creation time in the chat. |
| ChatQueries.InboxRow | src/chats/chats.service.ts:334-432 | Every inbox row is one of the viewer's chats. Its unread count is the number of unread messages from the other side. Its latest message is a message of that chat with no newer one. |
| ChatQueries.InboxComplete | src/chats/chats.service.ts:370-375 | With no title filter, every chat of the viewer that has a message is in the inbox. |
| ChatQueries.InboxEntryPresent | src/chats/chats.service.ts:370-375 | Such a chat gets an inbox entry. |
| ChatQueries.ReadClearsUnread | src/chats/chats.service.ts:334-346 | After the viewer reads a chat its unread count is 0. |
| ChatQueries.DeletedContentHidden | src/chats/chats.service.ts:424-426 | After a delete, the inbox view hides the content, and so does the corrected history view; the history view as written (line 531) still shows non-empty text. |
| ChatService.MarkAllRead | src/chats/chats.service.ts:169-175 | The loop stamps `readAt = now` on each found row, returning them in the query's order, and updates exactly those rows in the store. |
| ChatService.MarkAllReadIsApplyRead | src/chats/chats.service.ts:160-175 | Stamping exactly the found rows is the read transition of the store. |
| ChatService.ReadReturnsFound | src/chats/chats.service.ts:173-178 | The returned messages are the found rows, each once, stamped. |
| ChatService.ReadChatOutcome | src/chats/chats.service.ts:143-181 | The store after readChat is consistent, is the read transition, and the returned messages are exactly the unread ones, each stamped with the read time. |
| ChatService.ChatsService.SaveMessage | src/chats/chats.service.ts:60-87 | Succeeds iff the caller is in the chat; on failure "Unauthorized access" and no change. On success one new row (fresh id, the caller, that chat, the content, `now`, null times) and the chat are returned. |
| ChatService.ChatsService.EditMessage | src/chats/chats.service.ts:89-114 | Succeeds iff the caller may access the message; on failure no change. On success the outcome is the as-written edit: the store is the edit transition with the old content and a new `editedAt`, and the returned entity has no content. |
| ChatService.ChatsService.DeleteMessage | src/chats/chats.service.ts:116-141 | Succeeds iff the caller may access the message; on success only `deletedAt` is set, and the deleted row is returned. |
| ChatService.ChatsService.ReadChat | src/chats/chats.service.ts:143-181 | Succeeds iff the caller is in the chat. On success the store is the read transition and the returned rows are exactly the newly read messages with the chat. |
| ChatService.ChatsService.CreateNewPrivateChat | src/chats/chats.service.ts:667-710 | With oneself it is BadRequest "Cannot chat with yourself", and with an unknown target NotFound "Target user doesn't exist". An existing pair fails on the unique index (23505) with no change. Otherwise one chat is inserted with the pair in canonical order, and the reply is its inbox row: the target's username and avatar, no message, 0 unread. |
| ChatService.ChatsService.GetPrivateChatMessage | src/chats/chats.service.ts:456-556 | BadRequest "Unauthorized access" iff the caller is not in the chat; otherwise the page of the chat's history at the cursor, mapped as written (deleted messages keep their text), with meta echoing cursor and limit. |
| ChatService.ChatsService.GetPrivateChatInboxes | src/chats/chats.service.ts:322-452 | The result equals the specified page of the caller's inbox and its meta. |
| ChatService.CreatePreserves | src/chats/chats.service.ts:695-705 | Inserting a new ordered pair of existing users keeps the store consistent. |
| ChatGateway.Connected | src/chats/chats.gateway.ts:78-83 | The socket is added to the user's set, creating it if needed. Other users are unchanged and no set becomes empty. |
| ChatGateway.Disconnected | src/chats/chats.gateway.ts:93-100 | The socket is removed from its user's set, and the entry is dropped when it empties. Other users are unchanged and no set is empty. |
| ChatGateway.ReconnectIsNoop | src/chats/chats.gateway.ts:78-83 | Connecting a registered socket changes nothing. |
| ChatGateway.DisconnectUndoesConnect | src/chats/chats.gateway.ts:78-100 | Disconnecting a socket that just connected restores the registry. |
| ChatGateway.SocketRooms | src/chats/chats.gateway.ts:185 | A socket's rooms are its own id's room and every room it joined. |
| ChatGateway.JoinAll | src/chats/chats.gateway.ts:126 | Each listed room gains the socket; no other membership changes. |
| ChatGateway.AddMembers | src/chats/chats.gateway.ts:188 | One room gains the joined sockets; every other room is unchanged. |
| ChatGateway.JoinKeepsSocketRooms | src/chats/chats.gateway.ts:183-191 | A socket outside the joined set keeps its rooms. |
| ChatGateway.LeaveAll | src/chats/chats.gateway.ts:90-101 | A closing socket leaves every room; other members stay, and a room left empty is dropped. |
| ChatGateway.LeaveAllForgetsSocket | src/chats/chats.gateway.ts:90-101 | After leaving, the socket is only in its own room, and every other socket keeps its rooms. |
| ChatGateway.LazyJoined | src/chats/chats.gateway.ts:180-192 | The sockets that join are exactly the recipient's registered sockets that are live and not in the skipped set; as written that set is the sender's rooms. |
| ChatGateway.LazyJoinStep | src/chats/chats.gateway.ts:183-191 | One loop step adds the visited socket to the room exactly when it qualifies. |
| ChatGateway.LazyJoinCoversLivePeers | src/chats/chats.gateway.ts:180-192 | When no recipient socket id names a room of the sender, the check joins every live recipient socket, so all of them are in the room afterwards. |
| ChatGateway.LazyJoinIntendedCovers | src/chats/chats.gateway.ts:180-192 | With the intended check (skip the sockets already in the chat's room) the room gains exactly the live recipient sockets, whatever rooms the sender is in. |
| ChatGateway.LazyJoinSkipsPeerNamedBySenderRoom | src/chats/chats.gateway.ts:185 | A recipient socket whose id names a room of the sender never joins as written, and does join with the intended check. |
| ChatGateway.ReadMarks | src/chats/chats.gateway.ts:330-346 | One receipt per read message, with its id and read time. |
| ChatGateway.ReceiptMarks | src/chats/chats.gateway.ts:330-348 | The receipts name exactly the messages the read marked, each stamped with the read time. |
| ChatGateway.ChatsGateway.EmitTo | src/chats/chats.gateway.ts:195 | Emitting appends one event to the room's members except the sender and changes nothing else. |
| ChatGateway.ChatsGateway.HandleConnection | src/chats/chats.gateway.ts:54-88 | A missing or empty token, or one that does not verify, throws the matching error and changes nothing. A verified token binds the payload to the socket and registers the socket under its user. |
| ChatGateway.ChatsGateway.HandleDisconnect | src/chats/chats.gateway.ts:90-101 | The socket has left every room (socket.io does this before the handler runs). A socket with no user is a TypeError; otherwise the socket is unregistered. |
| ChatGateway.ChatsGateway.HandleJoinChatRooms | src/chats/chats.gateway.ts:107-129 | All rooms are joined iff every id is one of the caller's chats (no repeats); otherwise "Unauthorized access" and no room changes. |
| ChatGateway.ChatsGateway.LazyJoin | src/chats/chats.gateway.ts:180-192 | The room gains exactly the qualifying live sockets of the recipient; registry and events are unchanged. |
| ChatGateway.ChatsGateway.HandleSendMessage | src/chats/chats.gateway.ts:131-197 | Succeeds iff the caller is in the chat. Then the message is saved, the recipient's sockets are lazily joined, and when no recipient socket id names a room of the sender, every live recipient socket is in the room. "newMessage" goes to the room except the sender, and the reply is "Message sent". |
| ChatGateway.ChatsGateway.HandleEditMessage | src/chats/chats.gateway.ts:200-236 | Succeeds iff the caller may access the message; then the as-written edit is stored (old content, new `editedAt`) and "newEditMessage" is emitted to the chat's room except the sender, with no `newMessage` in the payload. |
| ChatGateway.ChatsGateway.HandleDeleteMessage | src/chats/chats.gateway.ts:238-273 | Succeeds iff the caller may access the message; then the soft delete is stored and "newDeleteMessage" is emitted. |
| ChatGateway.ChatsGateway.HandleTyping | src/chats/chats.gateway.ts:275-315 | Succeeds iff the caller is in the chat; then the caller's id is emitted under "typing" or "stopTyping" to the room except the sender. |
| ChatGateway.ChatsGateway.HandleSendReadReceipt | src/chats/chats.gateway.ts:317-350 | Succeeds iff the caller is in the chat; then the chat is read and the receipts go to the room except the sender. |
| UsersService.UniqueUsernamesRankDistinct | src/users/entities/users.entity.ts:17-19 | With unique usernames no two search rows share a rank. |
| UsersService.SearchIsTheMatches | src/users/users.service.ts:33-47 | Whatever the scan order, the search is one strictly ascending list, and a row is in it iff it is a stored user other than the caller whose username contains the query (ASCII case ignored). |
| UsersService.SearchAscending | src/users/users.service.ts:42-46 | Position by position, each result is a stored user other than the caller that matches, in strictly ascending username order. |
| UsersService.SearchPageMembers | src/users/users.service.ts:26-107 | At most `limit` users; the meta echoes cursor and limit; every user and the `nextCursor` user are stored users other than the caller that match the query. |
| UsersService.SearchPageOrder | src/users/users.service.ts:42-101 | The page is in ascending username order and every user on it sorts before the `nextCursor` user. |
| UsersService.SaveOutcome | src/users/users.service.ts:141-147 | The save succeeds iff the avatar URL fits 255 characters, the user exists and no other user holds the username. A unique violation is reported iff the URL fits, the user exists and the name is taken. A success keeps the table valid, changes only that user's columns, and keeps the avatar when `avatarUrl` is left out. |
| UsersService.UpdateError | src/users/users.service.ts:150-166 | A unique violation becomes BadRequest "Username already exists" with a `username` field error; any other failure is InternalServerError "Failed to update profile data". |
| UsersService.UsersService.FindMatchingUserWithoutCurrentUser | src/users/users.service.ts:26-107 | The users and meta returned are the specified search page. |
| UsersService.UsersService.GetProfileData | src/users/users.service.ts:124-135 | Success iff the user exists, returning that row; otherwise BadRequest "User not found". |
| UsersService.UsersService.UpdateProfileData | src/users/users.service.ts:137-168 | On a successful save the table is the saved table and the saved object is returned. On a failure the table is unchanged and the mapped error is returned. |
| JwtGuard.HttpDecision | src/auth/guards/jwt.guard.ts:22-57 | Rejects iff the route is not public and the token does not verify. The error is "No token provided" for a missing or empty token, otherwise "Invalid token". A user is bound iff the token verifies, and it is the verified payload. |
| JwtGuard.WsDecision | src/auth/guards/jwt.guard.ts:68-94 | Allows iff the token verifies, always binding its payload; rejects with the socket form of "No token" or "Invalid token". |
| JwtGuard.WsIsHttpWithoutPublic | src/auth/guards/jwt.guard.ts:22-94 | The socket guard allows exactly what the HTTP guard allows on a non-public route, with the same user. |
| JwtGuard.PublicOnlyAddsAnonymousPasses | src/auth/guards/jwt.guard.ts:33-52 | A public route always passes; it changes nothing where the guard already allows, and turns a rejection into a pass without a user. |
| JwtGuard.HttpCanActivate | src/auth/guards/jwt.guard.ts:22-57 | Returns the decision's error or true, and sets `request.user` exactly when the token verifies. |
| JwtGuard.WsCanActivate | src/auth/guards/jwt.guard.ts:68-94 | Returns the decision's error or true, and binds `socket.data.user` exactly when allowed. |
| ValidationPipe.JoinLength | src/common/pipes/validation.pipe.ts:35 | The joined string's length is the parts' lengths plus one separator between each two. |
| ValidationPipe.JoinPartAt | src/common/pipes/validation.pipe.ts:35 | The joined string spells out each part at its offset. |
| ValidationPipe.JoinSepAfter | src/common/pipes/validation.pipe.ts:35 | The separator sits between each part and the next. |
| ValidationPipe.Segments | src/common/pipes/validation.pipe.ts:26-33 | One segment per error, in order. |
| ValidationPipe.GetErrorMessages | src/common/pipes/validation.pipe.ts:23-36 | The loop's message is the errors' segments joined with ", ". |
| ValidationPipe.ErrorMessagesSmall | src/common/pipes/validation.pipe.ts:23-36 | No errors give the empty message; one error gives its own segment. |
| ValidationPipe.EmptyConstraintsEmptySegment | src/common/pipes/validation.pipe.ts:28-29 | A present but empty constraints object gives an empty segment, not the fallback. |
| ValidationPipe.ErrorMessagesSegmentAt | src/common/pipes/validation.pipe.ts:23-36 | Each error's segment appears in the message at the offset of its position: one segment per error, in the order of the errors. |
| ValidationPipe.ErrorMessagesSeparator | src/common/pipes/validation.pipe.ts:35 | Between each error's segment and the next, the message holds ", ", and the next segment starts right after it. |
| ValidationPipe.HttpExceptionFactory | src/common/pipes/validation.pipe.ts:48-54 | A BadRequest whose response carries the joined message and no field errors. |
| ValidationPipe.WsExceptionFactory | src/common/pipes/validation.pipe.ts:72-78 | A WsException carrying the same response. |
| DtoRules.ScanFirstLineMatches | src/auth/dto/sign-up.dto.ts:32-43 | The scanning matcher accepts iff a character of the class occurs before the first line terminator. This is the meaning of `^(?=.*[…])`. |
| DtoRules.StrongPasswordExample | src/auth/dto/sign-up.dto.ts:28-44 | "Aa1!aaaa" satisfies every password rule. |
| DtoRules.LineBreakHidesSpecial | src/auth/dto/sign-up.dto.ts:41-43 | "Aa1\n!!!!" is refused: the special characters come after a line break. |
| DtoRules.SignUpAccepted | src/auth/dto/sign-up.dto.ts:11-51 | An accepted body has a 3–20 character alphanumeric username, a non-empty name, and a confirmation equal to a strong password. |
| DtoRules.SecuritySharesSignUpRule | src/auth/dto/security.dto.ts.ts:10-40 | A password acceptable at sign-up is acceptable as a new password, and the current password only needs to be a non-empty string. |
| DtoRules.FirstSlash | src/users/dto/update-profile.dto.ts:20 | The position returned is the first slash at or after the start; None means there is none. |
| DtoRules.MatchPathIffSplit | src/users/dto/update-profile.dto.ts:20 | After a host prefix, the matcher accepts iff a slash-free, non-empty segment is followed by `/image/upload/` and a single-line tail. |
| DtoRules.MatchCloudinaryIffSplit | src/users/dto/update-profile.dto.ts:19-24 | Trying the host alternatives in turn accepts iff one of them splits the URL as the pattern describes. |
| DtoRules.MatchCloudinaryIsPattern | src/users/dto/update-profile.dto.ts:19-24 | The matcher accepts exactly the Cloudinary upload URLs of the pattern. |
| DtoRules.CloudinaryUrlOf | src/users/dto/update-profile.dto.ts:20 | Every URL of the described shape is accepted. |
| DtoRules.IsLowercaseNoUpper | src/users/dto/update-profile.dto.ts:29 | A string equals its lower-case form iff it has no upper-case letter. |
| DtoRules.ToProfileUpdate | src/users/dto/update-profile.dto.ts:16-41 | The service receives the body's strings. A missing avatar URL is "left out", null is null, and a string is a Cloudinary URL. |
| DtoRules.UpdateProfileAccepted | src/users/dto/update-profile.dto.ts:16-41 | What reaches the service has a lowercase username of 1–20 characters, a name of 1–50, and an about of at most 140. |
| DtoRules.UploadLimits | src/users/dto/update-profile.dto.ts:43-51 | 5 MiB is 5242880 bytes. A file of exactly that size passes, one byte more is refused, a GIF is refused, and no file is refused. |
| PaginationDecorator.DigitRun | src/common/decorators/pagination.decorator.ts:35 | The longest prefix of digits of the base: all its characters are digits and the next one is not. |
| PaginationDecorator.TrimStart | src/common/decorators/pagination.decorator.ts:35 | A suffix of the input that does not start with white space. |
| PaginationDecorator.DecimalValue | src/common/decorators/pagination.decorator.ts:109 | A decimal numeral of `n` is all digits and reads back as `n`. |
| PaginationDecorator.ParseIntDecimal | src/common/decorators/pagination.decorator.ts:109 | `parseInt` of a numeral followed by a non-digit tail is that number. |
| PaginationDecorator.ParseIntNoDigits | src/common/decorators/pagination.decorator.ts:109-110 | `parseInt` of a string with no digit is NaN. |
| PaginationDecorator.OrNum | src/common/decorators/pagination.decorator.ts:109 | NaN and 0 fall back to the default; any other number is kept. |
| PaginationDecorator.Or | src/common/decorators/pagination.decorator.ts:103-104 | An unset or zero option falls back to the default. |
| PaginationDecorator.ClampLimit | src/common/decorators/pagination.decorator.ts:109-114 | With sane defaults the limit is in 1..max. An in-range value is kept, one above max becomes max, and NaN or one below 1 becomes the default. |
| PaginationDecorator.PagePagination | src/common/decorators/pagination.decorator.ts:30-47 | A page of at least 1 is kept, and anything else becomes the default page (1 unless set). The limit is clamped with defaults 10 and 100. |
| PaginationDecorator.OffsetPagination | src/common/decorators/pagination.decorator.ts:67-84 | An offset of at least 1 is kept, and anything else becomes the default offset, including an explicit 0. The limit is clamped as above. |
| PaginationDecorator.ParseUuidV4 | src/common/decorators/pagination.decorator.ts:105 | Passes a string through iff it is a version-4 UUID; otherwise BadRequest "Validation failed (uuid v 4 is expected)". |
| PaginationDecorator.CursorPagination | src/common/decorators/pagination.decorator.ts:103-130 | An absent or empty cursor is null, and any other goes through the cursor pipe, whose failure is the result. The limit is clamped with defaults 10 and 100. |
| PaginationDecorator.CursorDefaults | src/common/decorators/pagination.decorator.ts:103-130 | With no options and no query the result is a null cursor and limit 10. |
| PaginationDecorator.CursorLimitFromClient | src/common/decorators/pagination.decorator.ts:109-114 | A decimal limit of 1–100 is taken as given, and one above 100 becomes 100. |
| Paging.Sort | src/chats/chats.service.ts:368 | The sort is a permutation of its input. |
| Paging.SortSorted | src/chats/chats.service.ts:368 | With distinct keys the sort is strictly ascending in rank. |
| Paging.SortIgnoresStorageOrder | src/chats/chats.service.ts:368 | Sorting two orderings of the same rows gives the same sequence. |
| Paging.CursorStart | src/chats/chats.service.ts:385-395 | The start is the cursor row's position, or 0 when there is no cursor or it names no row. |
| Paging.PageFrom | src/chats/chats.service.ts:405-446 | At most `limit` consecutive rows from the start. `nextCursor` is present iff more rows follow, and then names the row just after the page. |
| Paging.Paginate | src/users/users.service.ts:96-101 | Fetching `limit + 1` rows and popping the extra one gives exactly the specified page. |
| Paging.NextCursorResumes | src/chats/chats.service.ts:385-446 | Resuming at `nextCursor` starts exactly `limit` rows further on. |
| Paging.WalkCoversAll | src/chats/chats.service.ts:385-446 | Following `nextCursor` from the first page yields every row once, in order. |
| Paging.PageRows | src/users/users.service.ts:69-101 | The page's rows are those from the cursor's position on, and `nextCursor` names the row after them. |
| Paging.InsertAheadKeepsPage | src/chats/chats.service.ts:488-522 | Inserting a row that sorts before the cursor row does not change that cursor's page. |
| Tables.Scan | src/chats/chats.service.ts:369-373 | The scan lists every key of the table exactly once. |
| Tables.ListingsArePermutations | src/chats/chats.service.ts:369-373 | Two scans of a table are permutations of each other. |
| Tables.Select | src/chats/chats.service.ts:347-384 | A row is selected iff its record is in the table and the projection keeps it with that rank and item. |
| Tables.SelectIgnoresStorageOrder | src/chats/chats.service.ts:347-384 | Two scans select the same multiset of rows. |
| Tables.TieIsKeyDistinct | src/chats/chats.service.ts:368 | Breaking ties on the primary key makes ranks distinct. |
| Tables.Ordered | src/chats/chats.service.ts:368 | The ordered query holds exactly the selected rows. |
| Tables.SelectDistinctIds | src/chats/chats.service.ts:347-384 | A scan without duplicates selects each record at most once. |
| Tables.OrderedIgnoresStorageOrder | src/chats/chats.service.ts:368 | With distinct ranks the ordered query is the same strictly ordered list for every scan. |
| Tables.OrderedAfterInsert | src/chats/chats.service.ts:488 | After inserting a record, the ordered query is the old one with the new row inserted in rank order. |

## Left out

- ILIKE: `ContainsIgnoringCase` treats the query literally; the wildcards `%` and `_` inside a query, and case folding beyond ASCII, are not modelled.
- Collation: usernames are ordered by code point (`LexLess`), not by the database's collation. `getUser1User2Id` compares with JavaScript's `<`, which orders UTF-16 code units; that agrees with code-point order on the UUID ids it is given.
- IsLowercase and the username search fold ASCII letters only; Unicode case mapping is not modelled.
- LengthIn counts characters (code points); validator.js's treatment of surrogate pairs and variation selectors is not modelled.
- The order of messages inside one error's `constraints` object is taken as given. class-validator's own ordering and the collision of keys are not modelled.
- The custom `Match` validator: src/utils/class-validator is not part of this model, so confirmation is modelled as plain equality of the two values.
- The inbox's latest message: the correlated subquery `ORDER BY created_at DESC LIMIT 1` has no tie-breaker. The model picks the latest message with the smallest id among those with equal times.
- getPrivateChatInbox (the one inbox row that handleSendMessage puts in its replies) is not modelled. The `chatInbox` field of the send replies is left out of the payload.
- ChatService.ChatsService.CreateNewPrivateChat follows the code, not its doc comment (lines 659-661), which promises to return the existing chat. The code inserts without looking, so an existing pair fails on the unique index of src/chats/entities/private-chats.entity.ts:16. A current user missing from the table fails on the foreign key (23503).
- The response factories for messages and inboxes (ChatResponseFactory) are reduced to the fields the contracts use.
- EmitTo: an `Emission` carries only the inner payload. The gateway wraps what it sends to the other sockets with `createSuccessResponseWithData` and the texts "Message received", "New edit message received", "New delete message received" and "New read receipt received" (src/chats/chats.gateway.ts:172-173, 220-221, 257-258, 337-338), while typing events go out unwrapped as `{ userId }` (lines 293, 314); neither the wrapper texts nor the wrapped/unwrapped difference is modelled.
- HandleTyping: the typing handlers take `@MessageBody() body: any` (src/chats/chats.gateway.ts:278, 299), so the validation pipe checks nothing and the typing DTOs of src/chats/dto/typing.ts are unused. The model takes the chat id as a string; a missing or non-string `chatId`, which reaches the access query with an undefined condition that TypeORM drops, is not modelled.
- Transport: socket.io delivery, `server.sockets.sockets.get` (the set of live sockets is a parameter of the lazy join), and concurrency between handlers are left out.
- JWT extraction and verification, password hashing and the auth service are parameters (`verifyJwt`) or left out.
- uploadProfilePicture: the Cloudinary upload is an external service and is not modelled; only the upload body's rules (`UploadLimits`) are.
- Query strings arrive as single strings: repeated parameters (arrays) and numbers beyond JavaScript's safe integer range are not modelled.
- Clock and ids: `new Date()`, `now()` and generated UUIDs are parameters.
- MarkAllRead: readChat calls `new Date()` once per message inside its `forEach` (src/chats/chats.service.ts:168-170), so one batch may carry several read times; the model takes one clock reading `now` for the whole batch, and `ReadChatOutcome`, `ReceiptMarks` and `HandleSendReadReceipt` state that single time.
- Database failures: only the SQLSTATE codes 22001, 23502 and 23505 of the profile save (UsersService) and 23505 and 23503 of the chat insert (CreateNewPrivateChat) are modelled; any other failure of any query is not. The `try`/`catch` re-throws of the access checks are left out.
- The HTTP controllers, module wiring, the exception filters and the seeder are not part of this model.

## Findings

The service and gateway follow the code as written; each row's corrected member states what the code evidently intends, with its property proved.

| source | as written | input that shows it | evidently intended | confidence | as-written member | corrected member |
|---|---|---|---|---|---|---|
| src/chats/chats.service.ts:108 | The edit stores `body.message`. The request DTO declares `newMessage`, and the whitelisting pipe strips every other field, so the stored content becomes undefined and the message keeps its old text. | An edit of message "m" with body `{messageId: "m", newMessage: "new"}` stores content "old" unchanged. | The content becomes `newMessage`. | not executed | ChatDomain.EditAsWritten | ChatDomain.EditCorrected |
| src/chats/chats.gateway.ts:185 | The lazy join skips a recipient socket when `socket.rooms.has(socketId)`: it looks up the recipient's socket id among the SENDER's rooms. The comment above it says the check is meant to skip a recipient socket already in the chat room. | The sender's socket is in a room named after the recipient's socket id: that recipient socket never joins the chat room. With real ids (UUID chat ids, socket ids unique per socket) the test is always false, so as written every live recipient socket re-joins. | Skip a recipient socket that is already in the chat's room; every live recipient socket ends up in the room. | low; not executed | ChatGateway.LazyJoinSkipsPeerNamedBySenderRoom | ChatGateway.LazyJoinIntendedCovers |
| src/chats/chats.service.ts:531 | The history maps `content` to null only when it is empty, so a soft-deleted message shows its text to both users. The inbox hides it (lines 424-426). | A message with content "secret" and `deletedAt` set shows "secret" in the history. | Content is null once the message is deleted, as in the inbox. | not executed | ChatQueries.HistoryViewAsWritten | ChatQueries.HistoryView |

# Chat backend core, modelled in Dafny

This project models the sequential core of a FastAPI + socket.io chat backend that
exists in two generations: the first one at the repository root (`api/`,
`database/`, `socket_io/`), with synchronous managers that return `None` for
missing rows, and the later one under `app/`, with asynchronous managers that raise.

The model covers six parts:

- **The realtime gateway** (`gateway.dfy`, over `tokens.dfy` and `pytext.dfy`).
  - It keeps the `connected_users` registry (socket id to user id), the server's
    room membership, the messages table and an outbox of emits.
  - Each event handler (`join`, `disconnect`, `message`, `typing`) is a function from
    the state before the event to the state after it. The `ChatGateway` class's
    methods are proved to make exactly that change and to keep the registry coherent
    with the rooms.
  - The sender of every message and typing event is the registry's binding for the
    socket, never a field of the event data.
- **The message log and both message managers** (`message_log.dfy`,
  `message_managers.dfy`, `users.dfy`).
  - The table is an append-only log.
  - History is the pair's messages in ascending timestamp order, chats are the user's
    messages in descending order, and the last message is one with the largest
    timestamp.
  - The database orders by timestamp alone, so equal timestamps have no fixed order.
    The contracts state membership, multiplicity and sortedness rather than one
    sequence.
- **The two chat-list routes** (`chat_lists.dfy`). The app route's loops are a method
  that gives one entry per distinct companion. The root route is a set of companion
  profiles, and companions missing from the users table are dropped.
- **The WebSocket room registry** (`connections.dfy`). It is a class over a map from
  room to an insertion-ordered room dictionary, with an outbox of `accept` and
  `send_text` calls. Nothing in the manager creates a room, so on a fresh manager
  every `connect` accepts the socket and then raises `KeyError`.
- **Record tables and the generic and history managers** (`records.dfy`,
  `base_managers.dfy`, `histories.dfy`).
  - A table is a class holding its rows in increasing id order, plus the next primary
    key.
  - Both generations are modelled: the root one returns `None` (an `Option`), and the
    app one raises (a `Result`).
  - In the app generation, `get_obj_by_id`, `get_all_obj` and
    `delete_history_with_response` catch their own not-found exception and re-raise
    it as `DatabaseError` (500).
- **The authorization chains** (`auth.dfy`). These are pure functions from the
  cookie, the decoded token and the tables to the user, record or error.
  - Both generations' `decode_token` already refuse a falsy `sub`, so the later
    `sub is None` tests never fire.
  - In the app generation, `get_obj_by_id` reports a missing row as `DatabaseError`.
    So the ownership checks' not-found errors and `get_current_user`'s
    `except UserNotFoundError` are never reached. A missing comment, history, like or
    user answers 500, and the contracts say so.
  - The root generation `await`s synchronous managers; see "## Findings".

Python behaviour the code relies on is written out. This covers:

- `str.strip()` and `int()` on strings, which allows underscores between digits;
- `str()` of an int;
- truthiness;
- `dict.get` with a default;
- `getattr(obj, name, None)`;
- socket.io's `enter_room`, which creates a room;
- `leave_room`, which drops a room once it is empty.

Where the code's behaviour differs from what its names suggest, the model follows the
code. For example, a falsy user id 0 can be bound by `join`, but `message` and
`typing` then treat that socket as unauthenticated.

## Model

| member | source | states |
|---|---|---|
| Gateway.ChatGateway.constructor | socket_io/sockets.py:24 | a new gateway has no bindings, no rooms and no emits, and is coherent |
| Gateway.ChatGateway.Join | socket_io/sockets.py:45-62 | the new registry, rooms, log and outbox are exactly those `join` specifies, and coherence is kept |
| Gateway.ChatGateway.Disconnect | socket_io/sockets.py:34-42 | the new state is exactly the specified `disconnect`, and coherence is kept |
| Gateway.ChatGateway.OnMessage | socket_io/sockets.py:65-91 | saving through the synchronous manager and emitting twice give exactly the specified state, and the error when the handler raises |
| Gateway.ChatGateway.Typing | socket_io/sockets.py:94-106 | the new state is exactly the specified `typing` |
| Gateway.JoinCoherent | socket_io/sockets.py:59-61 | `join` keeps every bound sid in its user's room and leaves no room empty |
| Gateway.DisconnectCoherent | socket_io/sockets.py:36-39 | `disconnect` keeps the registry coherent with the rooms |
| Gateway.MessageCoherent | socket_io/sockets.py:78-90 | `message` keeps the registry coherent with the rooms |
| Gateway.TypingCoherent | socket_io/sockets.py:103-106 | `typing` keeps the registry coherent with the rooms |
| Gateway.JoinRejected | socket_io/sockets.py:47-57 | a falsy token, a token that does not decode, or a non-integer subject leaves the whole state unchanged |
| Gateway.JoinBinds | socket_io/sockets.py:59-61 | a token minted for n binds sid to n, overwriting any earlier binding, and puts sid in `user_<n>`; nothing else is bound or emitted |
| Gateway.JoinZero | socket_io/sockets.py:54-70 | subject "0" binds sid to 0, and `message` and `typing` from that sid then do nothing |
| Gateway.DisconnectUnbinds | socket_io/sockets.py:36-42 | the binding is removed, sid leaves the room of a truthy id, and a second `disconnect` changes nothing |
| Gateway.DisconnectZeroStays | socket_io/sockets.py:36-39 | a sid bound to 0 is unbound but stays in room `user_0` |
| Gateway.MessageUnauthenticated | socket_io/sockets.py:67-70 | from an unbound sid or one bound to 0, nothing is saved or emitted |
| Gateway.MessageInvalid | socket_io/sockets.py:72-76 | a text that is blank after `strip()`, or a falsy receiver, saves and emits nothing |
| Gateway.MessageDelivered | socket_io/sockets.py:78-90 | a valid message is saved once with the bound sender, the receiver, the stripped text and the next id; one payload goes to the receiver's room and then to the sender's |
| Gateway.SenderFromRegistry | socket_io/sockets.py:67-90 | a `sender_id` in the event data does not change what `message` or `typing` do |
| Gateway.MessageSenderIsBound | socket_io/sockets.py:80-90 | every emit a message adds carries the sid's registry binding as sender |
| Gateway.TypingEphemeral | socket_io/sockets.py:95-106 | `typing` saves nothing, changes no binding or room, and adds at most one emit to the receiver's room, with `is_typing` defaulting to `False` |
| Gateway.RoomNameInjective | socket_io/sockets.py:60 | distinct user ids have distinct room names |
| Gateway.ReceiverRoom | socket_io/sockets.py:89 | an integer receiver's room is that user's own room |
| Gateway.StoredReceiver | database/managers/message_manager.py:16-18 | the receiver id the Integer column stores: an int as it is, a bool as 1 or 0, and nothing for any other value |
| Gateway.MessageToTrue | socket_io/sockets.py:73-90 | a receiver given as `true` is stored as user 1, while the first emit goes to room `user_True`, which is not user 1's room |
| PyText.StripEmptyIff | socket_io/sockets.py:73-74 | a text is empty after `strip()` exactly when it is all whitespace |
| PyText.StripIdle | socket_io/sockets.py:73 | text without whitespace at either end is unchanged by `strip()` |
| PyText.ParseRender | socket_io/sockets.py:54 | `int(str(n)) == n` for every int |
| PyText.RenderInjective | socket_io/sockets.py:60 | `str()` of an int is injective |
| Tokens.DecodeToken | api/routers/jwt_auth.py:25-31 | a payload comes back exactly when decoding succeeds and `sub` is truthy, and its `sub` is never `None` |
| Tokens.SubjectId | socket_io/sockets.py:52-57 | an id comes back only for a decoded, truthy subject |
| Tokens.SubjectOfMinted | api/routers/auth.py:56-57 | a token minted with `sub = str(id)` decodes to that id, for every id |
| Tokens.FalsySubjectRefused | api/routers/jwt_auth.py:29-30 | a falsy subject names nobody |
| MessageLog.BetweenMembers | app/database/managers/message_manager.py:24-28 | the chat filter keeps exactly the log's messages between the two ids, each at most as often as in the log |
| MessageLog.BetweenSymmetric | app/database/managers/message_manager.py:24-28 | the chat filter gives the same messages for (a, b) and (b, a) |
| MessageLog.InvolvingMembers | app/database/managers/message_manager.py:57-62 | the chats filter keeps exactly the messages the user sent or received |
| MessageLog.SortOrdered | app/database/managers/message_manager.py:46 | ordering by timestamp gives a sorted permutation of its input |
| MessageLog.HistoryExact | app/database/managers/message_manager.py:42-48 | the history has the same messages as the pair filter, with the same multiplicities, in non-decreasing timestamp order |
| MessageLog.HistorySymmetric | database/managers/message_manager.py:28-32 | history(a, b) and history(b, a) hold the same messages |
| MessageLog.ChatsExact | app/database/managers/message_manager.py:53-64 | the chats are exactly the user's messages, in non-increasing timestamp order |
| MessageLog.LatestSpec | app/database/managers/message_manager.py:75-79 | the latest message is a message of the pair with the largest timestamp; there is none exactly when the pair has none |
| MessageLog.SavedInHistory | database/managers/message_manager.py:15-33 | a saved message appears in its pair's history |
| MessageLog.LatestAfterSave | database/managers/message_manager.py:45-54 | a message saved later than every earlier one becomes the pair's latest |
| MessageDb.MessageTable.constructor | models/message.py:17-21 | a new table is empty and numbered |
| MessageDb.MessageTable.Insert | database/managers/message_manager.py:16-23 | one row is appended, with the next id and the given sender, receiver, text and timestamp |
| AppMessageManager.SaveMessage | app/database/managers/message_manager.py:30-40 | appends one message with the given sender, receiver and text under a fresh id; a storage failure gives `DatabaseError` and stores nothing |
| AppMessageManager.GetHistory | app/database/managers/message_manager.py:42-51 | exactly the pair's messages, with their multiplicities, in non-decreasing timestamp order |
| AppMessageManager.GetChats | app/database/managers/message_manager.py:53-67 | exactly the user's messages, in non-increasing timestamp order |
| AppMessageManager.GetLastMessage | app/database/managers/message_manager.py:69-82 | an unknown login gives `DatabaseError`; otherwise a latest message of the pair, or none when the pair has none |
| SyncMessageManager.SaveMessage | database/managers/message_manager.py:15-23 | appends one message with the given sender, receiver, text and timestamp under a fresh id, and returns it |
| SyncMessageManager.GetHistory | database/managers/message_manager.py:26-33 | exactly the messages between the two ids in either direction, in non-decreasing timestamp order, and the same as for the swapped ids |
| SyncMessageManager.GetChats | database/managers/message_manager.py:36-43 | exactly the user's messages, each as often as it is stored, in non-increasing timestamp order |
| SyncMessageManager.GetLastMessage | database/managers/message_manager.py:45-54 | an unknown login yields no message; otherwise a latest message of the pair, or none when the pair has none |
| Users.FindById | database/managers/base_manager.py:37-38 | the user with that id, or none exactly when no user has it |
| Users.FindByLogin | app/database/managers/user_manager.py:33-34 | the user with that login, or none exactly when no user has it |
| Users.FindOwnLogin | app/api/routers/message.py:53 | in a well-formed table a user is found by its own login |
| Users.FindOwnId | app/api/routers/message.py:49 | in a well-formed table a user is found by its own id |
| Users.SyncIdByLogin | database/managers/user_manager.py:14-20 | the id of the user with that login, or `None` exactly for an unknown login |
| Users.AppIdByLogin | app/database/managers/user_manager.py:29-51 | the id of the user with that login; an unknown login gives `DatabaseError` |
| ChatLists.CompanionIff | app/api/routers/message.py:43-48 | c is a companion of u exactly when some message is between u and c |
| ChatLists.SelfCompanion | app/api/routers/message.py:44-45 | a message u sent to itself makes u its own companion |
| ChatLists.Dedup | app/api/routers/message.py:48 | `list(set(ids))` holds each id of the input exactly once |
| ChatLists.CompanionIdsCover | app/api/routers/message.py:42-47 | the first loop's ids are exactly the user's companions |
| ChatLists.EntryForCompanion | app/api/routers/message.py:53-59 | an entry carries the text and time of a latest message of the conversation, and `from_me` is true exactly when the user sent it |
| ChatLists.LoginsDistinct | app/api/routers/message.py:55 | distinct companions have distinct logins |
| ChatLists.EntriesAreChatList | app/api/routers/message.py:48-60 | one entry per distinct companion id, in order, gives one entry per companion and no login twice |
| ChatLists.GetChats | app/api/routers/message.py:35-67 | `DatabaseError` exactly when some companion is missing from the users table; otherwise exactly one entry per distinct companion, no login twice |
| ChatLists.SyncChats | api/routers/message.py:22-40 | every entry is the profile of a companion found in the users table, and every such companion has its entry |
| ChatLists.ProfilesCard | api/routers/message.py:30-39 | companions found in a well-formed table give as many profiles as companions |
| ChatLists.SyncChatsCount | api/routers/message.py:30-40 | one entry per companion the table has, so never more than the distinct companions |
| ChatLists.SyncChatsFromManager | api/routers/message.py:23-28 | the companion set from the manager's `get_chats` is the log's companion set |
| Connections.Lookup | app/database/managers/connection_manager.py:12 | a room dictionary holds a user exactly when some entry has that key |
| Connections.AssignSpec | app/database/managers/connection_manager.py:9 | after `room[user] = ws`, the user's socket is ws, every other user's is unchanged, and each user appears once |
| Connections.AssignOrder | app/database/managers/connection_manager.py:9 | a new user is appended; an existing user keeps its position |
| Connections.RemoveSpec | app/database/managers/connection_manager.py:12 | `pop(user)` removes that user's entry only, and each user still appears once |
| Connections.BroadcastExact | app/database/managers/connection_manager.py:15-16 | a broadcast sends once to every connection of the room, in room order, and to nothing else |
| Connections.ConnectionManager.constructor | app/database/managers/connection_manager.py:4-5 | a new manager has no rooms and has sent nothing |
| Connections.ConnectionManager.Connect | app/database/managers/connection_manager.py:7-9 | the socket is accepted first; a missing room gives `KeyError` with the rooms unchanged; otherwise `room[user] = ws`; no room is created |
| Connections.ConnectionManager.Disconnect | app/database/managers/connection_manager.py:11-12 | a missing room or user gives `KeyError` with nothing changed; otherwise only that entry is removed |
| Connections.ConnectionManager.SendToRoom | app/database/managers/connection_manager.py:14-16 | a missing room gives `KeyError` before sending; otherwise the outbox grows by one send per connection of the room |
| Records.IndexOf | database/managers/base_manager.py:37 | the position of a row with that id, or none exactly when no row has it |
| Records.Find | app/database/managers/base_manager.py:45-48 | the row with that id, or none exactly when no row has it |
| Records.Page | app/database/managers/base_manager.py:69 | `offset(skip).limit(limit)` on non-negative arguments: at most limit rows, which are exactly the ones from position skip on |
| Records.SqlPage | database/managers/base_manager.py:63 | `offset(skip).limit(limit)` as SQLite answers it: a negative offset counts as 0 and a negative limit is no bound; the exact length and the rows from that offset on |
| Records.PatchSpec | app/database/managers/base_manager.py:86-89 | every set field except `id` gets its new value; `id` and every unset field keep their value and presence |
| Records.ApplyPatch | app/database/managers/base_manager.py:87-89 | the update loop produces the patched fields and never changes `id` |
| Records.Table.Add | app/database/managers/base_manager.py:27-29 | the row is stored under the next primary key and the table stays sorted and keyed |
| Records.Table.DeleteAt | app/database/managers/base_manager.py:101-102 | the row is removed and the others keep their order |
| Records.Table.PutAt | app/database/managers/base_manager.py:89-90 | the row at that position gets the new fields under the same id |
| Records.RemovedExactly | app/database/managers/base_manager.py:101-103 | after a deletion the other rows are exactly the rows left, and a lookup of any other id is unchanged |
| AppBase.CreateObj | app/database/managers/base_manager.py:23-34 | the object is stored under the next key and found by it; a failure gives `DatabaseError` and stores nothing |
| AppBase.GetObjById | app/database/managers/base_manager.py:36-55 | the row with that id; a missing id gives `DatabaseError` (500), never `ModelNotFoundError` |
| AppBase.GetAllObj | app/database/managers/base_manager.py:57-77 | `DatabaseError` exactly when the page is empty (offset past the end, or limit 0); otherwise the page's exact length and its rows, with a negative offset read as 0 and a negative limit as no bound |
| AppBase.UpdateObj | app/database/managers/base_manager.py:79-92 | a missing id gives `ModelNotFoundError` and a refused commit gives the uncaught database error, both with nothing changed; otherwise the patched row replaces the old one and is returned |
| AppBase.DeleteObj | app/database/managers/base_manager.py:94-103 | a missing id gives `ModelNotFoundError` with nothing changed; otherwise the row is removed and returned, and every other row stays |
| SyncBase.GetObjById | database/managers/base_manager.py:21-40 | the row with that id, or `None` exactly when it is absent |
| SyncBase.GetAllObj | database/managers/base_manager.py:43-65 | never an error: the page's exact length and its rows, possibly none, with a negative offset read as 0 and a negative limit as no bound |
| SyncBase.CreateObj | database/managers/base_manager.py:68-77 | the object is stored under the next key, returned and found by it; a refused commit gives the uncaught database error and stores nothing |
| SyncBase.DeleteObj | database/managers/base_manager.py:80-92 | `None` with nothing changed for an absent id; otherwise the row is removed and returned, and every other row stays |
| SyncBase.UpdateObj | database/managers/base_manager.py:95-115 | `None` with nothing changed for an absent id; a refused commit gives the uncaught database error with nothing changed; otherwise the patched row replaces the old one |
| HistoryRows.ByAuthorMembers | app/database/managers/history_manager.py:36 | the author filter keeps exactly the rows with that `author_id` |
| HistoryRows.ByAuthorAscending | app/database/managers/history_manager.py:36 | the author filter keeps storage order |
| AppHistory.HistoriesOf | app/database/managers/history_manager.py:32-41 | exactly the histories with that `author_id`, in storage order |
| AppHistory.HistoriesByAuthorId | app/database/managers/history_manager.py:58-74 | only that author's histories, in id order: the page's exact length and its rows from the offset on (negative offset 0, negative limit no bound); an empty list and no error when there are none |
| AppHistory.HistoryByIdWithAuthor | app/database/managers/history_manager.py:76-91 | the history with that id, or `None` exactly when it is absent |
| AppHistory.CreateHistoryWithResponse | app/database/managers/history_manager.py:93-108 | the history is stored and retrievable by its new id; a failure gives `DatabaseError` and stores nothing |
| AppHistory.DeleteHistoryWithResponse | app/database/managers/history_manager.py:110-127 | an absent id gives `DatabaseError` with nothing changed; otherwise the pre-deletion history is returned and removed |
| SyncHistory.JoinedAuthor | database/managers/history_manager.py:17 | the joined author is present exactly when some user has the history's `author_id`, and is then that user's id and login |
| SyncHistory.AuthorIsTheAuthor | database/managers/history_manager.py:17 | with distinct user ids, the joined author is the history's own author |
| SyncHistory.HistoriesWithAuthors | database/managers/history_manager.py:14-19 | one entry per stored history, in storage order, each history paired with the user its `author_id` names, or with none |
| SyncHistory.HistoryByIdWithAuthor | database/managers/history_manager.py:21-28 | the history with that id, or `None` exactly when it is absent |
| SyncHistory.CreateHistoryWithResponse | database/managers/history_manager.py:30-36 | the history is stored and retrievable by its id; a refused commit gives the uncaught database error and stores nothing |
| SyncHistory.DeleteHistoryWithResponse | database/managers/history_manager.py:38-47 | `None` with nothing changed for an absent id; otherwise the pre-deletion history is returned and removed |
| Errors.Status | app/exceptions/base.py:3-26 | each exception's status code: 500, 404, 400 or 403, and a bare `HTTPException`'s own code |
| Access.NotFound | app/exceptions/comment.py:3-6 | each kind's not-found exception carries 404 |
| Access.NotOwner | app/exceptions/comment.py:8-11 | each kind's ownership exception carries 403 |
| Access.KindErrorsDistinct | app/api/dependencies/ownership.py:12-14 | the three kinds report distinct errors |
| Access.OwnerUnique | app/api/dependencies/ownership.py:34 | a record has at most one owner |
| AppAuth.TokenUserId | app/api/dependencies/auth.py:20-33 | no cookie gives `PermissionError`; a token without an integer subject gives `ValidationError`; otherwise the subject id |
| AppAuth.GetCurrentUser | app/api/dependencies/auth.py:16-39 | the user exactly when the cookie's token names a stored user; `PermissionError`, `ValidationError` or, for an unknown user, `DatabaseError`; never `UserNotFoundError` |
| AppAuth.ValidateRefreshToken | app/api/dependencies/auth.py:42-63 | the subject id exactly when it names a stored user; `PermissionError` without a cookie, `ValidationError` for a bad subject, `DatabaseError` for an unknown user |
| AppAuth.RefreshAgreesWithCurrent | app/api/dependencies/auth.py:42-63 | the refresh check passes with n exactly when the access check returns user n, and both fail with the same error |
| AppAuth.MintedTokenAccepted | app/api/dependencies/auth.py:25-39 | a token minted for a stored user gets that user, and its id, back |
| AppOwnership.OwnedOrError | app/api/dependencies/ownership.py:22-37 | the record exactly when it exists and its owner is the user; a missing record gives `DatabaseError`, never the kind's not-found error; no owner gives `UserNotFoundError`; another owner gives the kind's 403 |
| AppOwnership.GetCommentOrError | app/api/dependencies/ownership.py:22-37 | the comment exactly when its `user_id` is the user's id; otherwise one of its three errors |
| AppOwnership.GetHistoryOrError | app/api/dependencies/ownership.py:40-55 | the history exactly when its `author_id` is the user's id; otherwise one of its three errors |
| AppOwnership.GetLikeOrError | app/api/dependencies/ownership.py:58-73 | the like exactly when its `user_id` is the user's id; otherwise one of its three errors |
| AppOwnership.OnlyTheOwnerPasses | app/api/dependencies/ownership.py:34-37 | two users who both pass the check for one record have the same id |
| RootDeps.AccessUserId | api/routers/dependencies.py:29-39 | 401 exactly for a missing cookie or a token without an integer subject; otherwise the subject id |
| RootDeps.RefreshUserId | api/routers/dependencies.py:51-57 | reads the same id as the access path: the `or 0` never applies |
| RootDeps.AwaitOnSyncManagerFails | api/routers/dependencies.py:40 | as written, every request past the token answers `TypeError` (500), in both user checks and all three ownership checks |
| RootDeps.AwaitedLookupRejectsValidRequest | api/routers/dependencies.py:40-43 | as written, a minted token for a stored user and the owner of a record are refused, while the corrected checks accept them |
| RootDeps.GetCurrentUser | api/routers/dependencies.py:25-43 | corrected: the user exactly when the token names a stored user; 401 for a missing or bad token; 404 for an unknown user |
| RootDeps.ValidateRefreshToken | api/routers/dependencies.py:46-63 | corrected: the subject id exactly when it names a stored user; every failure, the unknown user included, is 401 |
| RootDeps.OwnedOrError | api/routers/dependencies.py:66-108 | corrected: the record exactly when it exists and the user owns it; 404 for a missing record or owner; 403 for another owner |
| RootDeps.SameAsApp | api/routers/dependencies.py:25-108 | the corrected root checks and the app checks accept the same requests and return the same user or record |

## Left out

- JWT signing, verification and expiry (app/core/jwt.py and api/routers/jwt_auth.py call python-jose): a token is seen only through the outcome of decoding it, a failure or a payload with an optional `sub`.
- Password hashing, cookie setting, the HTTP routers other than the two chat lists, the error middleware, logging, configuration and the ASGI/CORS setup.
- Transport, delivery and concurrency. Emits and sends are appended to an outbox, and `await` is sequential. The socket.io server's own cleanup of a disconnected socket's rooms and its per-sid default room are not modelled; only `leave_room` calls are.
- ORM plumbing: sessions and pydantic serialisation. A record is a field map. The joined author is modelled only for the root `get_histories_with_authors`; the other history reads return the row without it.
- Timestamps are supplied as naturals by the caller, so `utcnow` is not modelled. A row's `updated_at` refresh on update is not modelled either.
- An explicit id passed to a `create` call is not modelled: the database always hands out the next key. A failed insert does not consume a key.
- JSON lists, objects and floats in event data are not modelled, and neither are non-ASCII digits in `int()`.
- Gateway.ChatGateway.OnMessage: a truthy receiver that is neither an int nor a bool, i.e. any non-empty string, is modelled as a failed insert. SQLite's INTEGER affinity would in fact store it, as an integer for a numeric string and as TEXT otherwise, and foreign keys are not enforced by default. The handler would then emit the message to `user_<string>`. The model's messages table holds only integer receivers.
- SyncMessageManager.SaveMessage: its commit (database/managers/message_manager.py:21) is taken to succeed; the only failed insert modelled is the gateway's string receiver (see Gateway.ChatGateway.OnMessage above), which fails the message event.
- SyncBase.DeleteObj: its commit (database/managers/base_manager.py:90) is taken to succeed; a deletion refused by a foreign-key constraint is not modelled.
- SyncHistory.DeleteHistoryWithResponse: its commit (database/managers/history_manager.py:46) is taken to succeed, as for SyncBase.DeleteObj.
- AppHistory.DeleteHistoryWithResponse: a refused commit (app/database/managers/history_manager.py:123) would also end as `DatabaseError`; the model gives that error only for an absent id.
- AppBase.DeleteObj: its commit (app/database/managers/base_manager.py:102) is taken to succeed, as for SyncBase.DeleteObj.
- AppBase.GetAllObj: states the selected page, not the second read of the already consumed SQLAlchemy result at app/database/managers/base_manager.py:74, whose value depends on library behaviour.
- MessageLog.HistoryExact: states membership, multiplicity and sortedness, not one exact sequence, because the database fixes no order among equal timestamps. The same applies to the other ordered queries.
- ChatLists.GetChats: specifies the entries as one per companion with unique logins, not their order, which comes from a Python set.
- ChatLists.SyncChats: the root route's list is given as a set of profiles, since its order comes from a Python set.
- The app history manager's `_get_history_by_id` and `get_histories_with_authors` are not core operations and are not modelled.

## Findings

| source | as written | input that shows it | evidently intended | confidence | as-written member | corrected member |
|---|---|---|---|---|---|---|
| api/routers/dependencies.py:40 | `await user_manager.get_obj_by_id(id=user_id)` awaits the return value of a synchronous method, which is a `User` or `None`, so Python raises `TypeError` | an access cookie holding a token minted as `{"sub": str(u.id)}` for a stored user u | return u, and 404 for an unknown user | not executed | RootDeps.AwaitOnSyncManagerFails | RootDeps.GetCurrentUser |
| api/routers/dependencies.py:59 | `validate_refresh_token` awaits the synchronous lookup in the same way | a refresh cookie with a token minted for a stored user | return the user's id, and 401 for an unknown user | not executed | RootDeps.AwaitedLookupRejectsValidRequest | RootDeps.ValidateRefreshToken |
| api/routers/dependencies.py:70 | the three ownership checks (also lines 85 and 100) await the synchronous lookups, so even a record's owner gets 500 | the owner of a stored comment, history or like asks for it | return the record; 404 for a missing record or owner; 403 for another owner | not executed | RootDeps.AwaitedLookupRejectsValidRequest | RootDeps.OwnedOrError |

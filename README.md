# Bunch: presence hub and relationship store, modelled in Dafny

Bunch keeps a social graph (friend requests, friendships, blocks) and a live
presence registry that tells an account's online friends when it connects or
disconnects. This project models three sequential cores and proves their
contracts:

- **Presence hub** (`hub.dfy`, module `Presence`): class `Hub` with the table
  `connections: map<AccountId, ConnId>`, the set `closed` of connections that
  a reconnect closed, and the `outbox` of writes sent to friends. It covers
  `Register` (a reconnect supersedes the old connection), `Unregister`,
  `IsOnline`, `BulkOnline`, `OnlineCount` and the `notifyFriends` fan-out
  loop. The fan-out is specified by the function `Fanout`.
- **Presence endpoints** (`presence_handler.dfy`, module `PresenceHandler`):
  the WebSocket session is a state machine (`Connecting`, `Serving`,
  `Terminating`, `Closed`) with an event log. The steps are: token checks, then
  `Register`, then a read loop over given read outcomes until the first error,
  then the deferred `Unregister` and `Close`. The module also has the three
  query endpoints.
- **Relationship store** (`database.dfy`, `friends.dfy`, `blocks.dfy`): the
  `friendships` and `blocks` tables live in class `Db`. Each SQL `WHERE` clause
  is a datatype value read by a predicate. Each handler is a method returning
  `Ok(status, body)` or `Err(ErrorResponse(status, code))`. The listing handlers
  are pure projections of the tables.

Identifiers are UUIDs, i.e. sixteen bytes. Their text form is the canonical
lower-case 8-4-4-4-12 form of section 3 of RFC 4122 (`uuids.dfy`). A decoder
proves that form injective.

Inputs from outside the core are method parameters:
- the friend lister's answer to each notification (`Surroundings.friendIds`, `None` on error);
- the connections whose writes fail (`Surroundings.failingConns`);
- the token's parse outcome;
- the upgraded connection;
- parsed path parameters and bound JSON bodies (`None` when parsing or binding fails);
- the clock (`now`) and fresh row ids.

The model follows the code as written:
- `Unregister` deletes by account id and always tells friends `friend_offline`, even when nothing was removed.
- The two message types are `friend_online` and `friend_offline`.
- A superseded session's cleanup removes the newer connection's entry (`SupersededSessionExit`).

## Model

| member | source | states |
|---|---|---|
| `Uuids.UuidStringRoundTrip` | internal/presence/hub.go:95-98 | the `account_id` text of a message decodes back to the account it names |
| `Uuids.UuidStringInjective` | internal/presence/handler.go:109-111 | two accounts have the same text key exactly when they are the same account |
| `Uuids.UuidString` | internal/presence/hub.go:97 | the text of an id has 36 characters: hyphens at positions 8, 13, 18 and 23 and nowhere else, and lower-case hexadecimal digits everywhere else |
| `Database.Filter` | internal/friends/handler.go:157-160 | a select or delete by a WHERE clause keeps exactly the rows that match (or do not), never adds rows, is empty exactly when no row qualifies, and keeps every row when all qualify |
| `Database.FilterSplits` | internal/friends/handler.go:166 | rows affected by a delete plus rows kept equals the table size |
| `Database.First` | internal/friends/handler.go:63-69 | scanning into one record reads the first matching row in table order, and finds none only when no row matches |
| `Database.FilterPairwise` | internal/database/database.go:77-78 | a delete keeps every pairwise property of the table, such as the unique indexes |
| `Database.AppendPairwise` | internal/database/database.go:85-86 | an insert keeps a pairwise property when the new row is related to every old row |
| `Database.Db.constructor` | internal/database/database.go:45-58 | the migrated tables start empty and satisfy the unique indexes |
| `Database.Db.InsertFriendship` | internal/friends/handler.go:94-100 | the insert succeeds exactly when it breaks neither the primary key nor the (requester, addressee) index; it appends the row, or else changes nothing |
| `Database.Db.UpdateFriendship` | internal/friends/handler.go:135 | an update by primary key replaces only the row with that id and keeps the indexes |
| `Database.Db.DeleteFriendships` | internal/friends/handler.go:184-194 | a delete removes exactly the matching rows and reports how many; zero means no row matched |
| `Database.Db.InsertBlock` | internal/blocks/handler.go:74-77 | the insert succeeds exactly when it breaks neither the primary key nor the (blocker, blocked) index |
| `Database.Db.DeleteBlocks` | internal/blocks/handler.go:91-100 | a delete removes exactly the matching block rows and reports how many |
| `Friends.SameIdSameRow` | internal/models/models.go:22 | the primary key identifies one friendship row |
| `Friends.ExistingRowIsTheRow` | internal/friends/handler.go:62-82 | under the handlers' invariant, the row SendRequest reads is the only one between the pair, so `already_friends` is answered exactly when an accepted row exists |
| `Friends.InsertKeepsConsistent` | internal/friends/handler.go:84-92 | a pending row between two distinct, unlinked accounts keeps the handlers' invariant: no self rows and one row per pair |
| `Friends.DeleteKeepsConsistent` | internal/friends/handler.go:288-295 | deleting rows keeps the handlers' invariant |
| `Friends.SamePairsKeepConsistent` | internal/friends/handler.go:132-135 | rewriting a row's status and time, leaving who it links alone, keeps the handlers' invariant |
| `Friends.Handler.constructor` | internal/friends/handler.go:18-20 | the handler works on the given store |
| `Friends.Handler.SendRequest` | internal/friends/handler.go:22-103 | errors in order: `invalid_request`, `self_friend`, `blocked` (a block in either direction), `already_friends` or `request_exists` (an existing row decides, by its status), `creation_failed` (id clash); each changes nothing; success appends exactly one pending row from caller to friend with created = updated = now, leaves the other rows alone and keeps every invariant |
| `Friends.Handler.AcceptRequest` | internal/friends/handler.go:105-141 | `not_found` with no change unless a pending row with that id is addressed to the caller; otherwise only that row changes, to accepted with the new update time |
| `Friends.Handler.DeclineRequest` | internal/friends/handler.go:143-176 | deletes exactly the pending rows with that id addressed to the caller; `not_found` exactly when there were none |
| `Friends.Handler.RemoveFriend` | internal/friends/handler.go:178-204 | deletes exactly the accepted rows between the pair in either direction; `not_friends` exactly when there were none; pending rows survive |
| `Friends.Handler.RemoveFriendship` | internal/friends/handler.go:286-295 | deletes every row between the pair, whatever its status or direction, and nothing else |
| `Friends.ListFriends` | internal/friends/handler.go:206-234 | the friends list has at most one entry per row, and each entry names an account linked to the caller by an accepted row, with that row's update time as `since` |
| `Friends.ListFriendsExactly` | internal/friends/handler.go:206-234 | the friends list names exactly the accounts joined to the caller by an accepted row, whichever side sent it, with one entry per such row |
| `Friends.ListFriendsDistinct` | internal/friends/handler.go:210-231 | under the handlers' invariant no friend is listed twice |
| `Friends.ListRequests` | internal/friends/handler.go:236-284 | incoming holds exactly the pending rows addressed to the caller and outgoing exactly those the caller sent, one entry per row |
| `Friends.ListRequestsPartition` | internal/friends/handler.go:240-278 | every pending request involving the caller is listed on exactly one side |
| `Blocks.InsertKeepsConsistent` | internal/blocks/handler.go:40-46 | a block between two different accounts keeps the handlers' invariant |
| `Blocks.Handler.constructor` | internal/blocks/handler.go:24-26 | the handler works on the given store and friendship remover |
| `Blocks.Handler.BlockUser` | internal/blocks/handler.go:28-83 | errors in order: `invalid_request`, `self_block`, `already_blocked` (only a same-direction row counts), `creation_failed`; each changes nothing; success appends exactly one block row, then removes every friendship between the pair in either direction |
| `Blocks.Handler.UnblockUser` | internal/blocks/handler.go:85-110 | deletes only the block placed by the caller on the target, so a reverse block survives; `not_found` exactly when there was none |
| `Blocks.ListBlocked` | internal/blocks/handler.go:112-135 | the block list has at most one entry per row, and each entry names an account the caller blocked, with that block's creation time as `since` |
| `Blocks.ListBlockedExactly` | internal/blocks/handler.go:112-135 | the block list names exactly the accounts the caller blocked, one entry per block row |
| `Blocks.ListBlockedDistinct` | internal/blocks/handler.go:116-134 | with the unique (blocker, blocked) index, no account is listed twice |
| `Blocks.BlockThenRequest` | internal/blocks/handler.go:67-82 | after a successful block of y by x, a friend request from x to y and one from y to x both fail with `blocked`, and no friendship row between them remains |
| `Presence.FanoutExact` | internal/presence/hub.go:108-114 | each friend gets one write per listing when online and writable, and none when offline or when its write fails; a failed write does not stop the loop |
| `Presence.FanoutSound` | internal/presence/hub.go:108-114 | every write carries the message and goes to a listed, online friend over its registered connection |
| `Presence.OnlyOnlineFriendIsTold` | internal/presence/hub.go:88-115 | with friends [Y, Z], Y online and Z offline, only Y receives `{friend_online, X}` |
| `Presence.Fanout` | internal/presence/hub.go:108-114 | the loop writes at most once per listed friend, and every write carries the message and goes to a connected account |
| `Presence.Notifications` | internal/presence/hub.go:88-115 | a failing lister means no writes; otherwise at most one per listed friend, each carrying `{msgType, account_id}` with the subject's text id, to a connected account |
| `Presence.Hub.constructor` | internal/presence/hub.go:30-35 | a new hub has no connections: the count is 0 and nobody is online |
| `Presence.Hub.IsOnline` | internal/presence/hub.go:60-65 | an online account means the count is at least one |
| `Presence.Hub.OnlineCount` | internal/presence/hub.go:81-85 | the count is zero exactly when nobody is online |
| `Presence.Hub.OnlineCountCountsOnline` | internal/presence/hub.go:81-85 | the count equals the number of accounts that are online, and, while the hub invariant holds, the number of distinct open connections it holds |
| `Presence.Hub.Register` | internal/presence/hub.go:38-48 | the account maps to the new connection and nothing else changes in the table; a replaced connection is closed and the count stays, otherwise the count grows by one; friends are then told `friend_online` against the updated table; the hub invariant holds for a fresh connection |
| `Presence.Hub.Unregister` | internal/presence/hub.go:51-57 | the account's entry is removed whether or not it exists; the account is offline afterwards; other entries stay and the table is untouched when the account was absent; friends are told `friend_offline` in both cases |
| `Presence.Hub.BulkOnline` | internal/presence/hub.go:68-78 | the keys are exactly the listed accounts, duplicates collapsed; each value says whether that account is online; empty input gives the empty map |
| `Presence.Hub.NotifyFriends` | internal/presence/hub.go:88-115 | appends exactly the fan-out writes for the lister's answer, and none when the lister fails |
| `PresenceHandler.FirstError` | internal/presence/handler.go:66-71 | the read loop stops at the first failed read, with every earlier read a frame |
| `PresenceHandler.LifetimeCleansUpOnce` | internal/presence/handler.go:60-72 | a session registers once, then unregisters exactly once and closes exactly once, with unregister before close |
| `PresenceHandler.ServeConnection` | internal/presence/handler.go:29-72 | a session served from upgrade to close has exactly the history `Lifetime(k)`, where k is the number of frames read before the failing read; so it registers once, unregisters once and closes once, and the account is offline afterwards |
| `PresenceHandler.Session.constructor` | internal/presence/handler.go:60 | a session starts unregistered with an empty history |
| `PresenceHandler.Session.Start` | internal/presence/handler.go:56 | registering the account's connection is the session's first event; the hub invariant is kept when the connection is fresh |
| `PresenceHandler.Session.Run` | internal/presence/handler.go:60-72 | frames are discarded until the first failed read; then the account is unregistered by account id and the connection closed, once each, ending in `Closed`; a session that had only registered ends with exactly the history `Lifetime(k)`; the hub invariant is kept |
| `PresenceHandler.Handler.constructor` | internal/presence/handler.go:23-25 | the handler delegates to the given hub |
| `PresenceHandler.Handler.WebSocket` | internal/presence/handler.go:29-73 | an empty token gives 401 `missing_token` and a bad token 401 `invalid_token`; a failed upgrade gives no session; none of these touches the hub; otherwise a new session is registered before its read loop can start, and the hub invariant is kept when the connection is fresh |
| `PresenceHandler.Handler.GetPresence` | internal/presence/handler.go:76-90 | an unparsable id gives 400 `invalid_id`; otherwise the answer is the id's text and whether it is online |
| `PresenceHandler.Handler.BulkPresence` | internal/presence/handler.go:93-114 | a body that does not bind gives 400 `invalid_request`; otherwise there is one text key per distinct listed account, holding whether it is online |
| `PresenceHandler.Handler.OnlineCount` | internal/presence/handler.go:117-121 | returns exactly the hub's count |
| `PresenceHandler.SupersededSessionExit` | internal/presence/handler.go:61-63 | when the superseded session's loop ends, its cleanup removes the newer connection's entry: the account shows offline while the newer session still serves on an open connection |
| `PresenceHandler.OnlineDespiteListerFailure` | internal/presence/hub.go:89-93 | when the friend lister fails, registration still puts the account online and nobody is told |

## Left out

- Concurrency: the hub's `sync.RWMutex` and the goroutine per connection are not modelled. Every hub operation is atomic, and sessions interleave only at whole operations, as `SupersededSessionExit` shows.
- WebSocket I/O: `Upgrade`, `ReadMessage`, `WriteMessage` and `Close` are not modelled. A connection is an id, upgrade and read outcomes are inputs, and a write is an outbox entry unless the connection is in `failingConns`. The session's own `conn.Close()` is an event in its log; the hub's `closed` set records only the closes that `Register` performs.
- `middleware.ParseToken`, `uuid.Parse` and `uuid.MustParse` are foreign code; their outcomes are inputs. The panic `MustParse` raises on a malformed claim or path parameter is not modelled.
- Gin binding and JSON: `ShouldBindJSON` is an `Option` input, and the response bodies' `message` texts are left out. `json.Marshal` of the two-string `Message` cannot fail, so its error branch (internal/presence/hub.go:100-103) is not modelled.
- `ListFriendIDs` is declared but its implementation is not part of this model. Its answer is an input to each notification (`Surroundings.friendIds`), so `NewHub` takes no lister.
- Database failures: the database I/O errors behind `database_error`, `update_failed` and `creation_failed` are left out. `creation_failed` is modelled only where a unique index refuses the insert. A clash on the fresh `uuid.New()` id is allowed for.
- Row order: SQL without `ORDER BY` leaves row order to the database. The model uses table (insertion) order.
- `time.Now()` and `uuid.New()` are parameters. Times are integers.
- Logging, `cmd/server/main.go` (routing, configuration, shutdown) and `database.Connect`/`Migrate` I/O are left out. Only the unique indexes are kept, as `Db.Valid()`.
- `PresenceHandler.Handler.BulkPresence`: it states the key set and the values, not the cardinality. The cardinality follows from `Uuids.UuidStringInjective`.
- `Presence.Hub.IsOnline`: its own contract says only that an online account makes the count positive. Being online means having a table entry; `GetPresence` and `BulkOnline` state that in their contracts.

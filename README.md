# Chat room server core, modelled in Dafny

The server side of a small Next.js chat room holds one shared room in three module-level stores:
- `activeUsers`, a `Map` from user id to `{ username, joinedAt, lastSeen }`;
- `messages`, a history bounded to the last 100 messages;
- `global.sseClients`, a `Set` of open Server-Sent-Events connections.

Four API handlers change the room:
- `join` validates a username, registers the user under a fresh id, and broadcasts `userJoined` and then `usersList`.
- `message` validates the text and the sender, refreshes the sender's `lastSeen`, appends to the bounded history, and broadcasts the message.
- `typing` validates the sender, refreshes `lastSeen`, and broadcasts a boolean typing flag.
- `events` opens a push connection for a known user and broadcasts `usersList`. Its `cleanup` closure runs on each of three close events. It always removes the connection. If the user is still registered, it removes them too, and then, when at least one client remains, it tells the remaining clients `userLeft` and `usersList`.

The model has two layers.
- **Values.** `RoomStates.RoomState` holds the users, the history, the clients, the log of writes and the id counter. One pure step function per handler (`JoinStep`, `MessageStep`, `TypingStep`, `ConnectStep`, `CleanupStep`) gives the response and the new state, including the error paths. Each splits into its guard checks and a function for the accepted path (`Register`, `Deliver`, `Notify`, `Open`, `Evict`). Each keeps the room invariant `Inv` and the evolution relation `Evolves`.
- **State.** `ChatRoom.Room` is a class with the same five fields, changed in place the way the handlers change their stores. Each handler method is proved equal to its step function. The broadcast loops (`forEach` with a `try`/`catch` around each write) are `while` loops with invariants, proved against `Broadcast.Fanout` and `Broadcast.FanoutExcept`.

Every `client.write` is recorded in `outbox` as a `Write(to, event, delivered)`. The clients whose writes throw during a call are a parameter, `broken`. Such a write is recorded as undelivered and the loop goes on.

JavaScript's insertion-ordered `Map` and `Set` are `OrderedMaps.OrderedMap` (a key sequence plus a map) and a distinct sequence (`OrderedSets`). So `usersList` and the order of the broadcast loops follow insertion order, as in the source. `Js` models the request-body values, their truthiness and `String.prototype.trim` with ECMAScript's whitespace set. A truthy non-string `username` or `message` makes `.trim()` throw; the model answers `Crash`, which the framework turns into a 500.

`Sessions` runs any sequence of requests and close events. It proves that the invariant holds throughout, that removed ids never come back, and that only the first of a connection's `cleanup` runs has any effect, whatever happens in between.

## Model

| member | source | states |
|---|---|---|
| Js.Truthy | pages/api/chat/join.js:12 | ECMAScript ToBoolean, the test behind `!username`, `!message` and `Boolean(isTyping)`: `undefined`, `null`, `false`, `0` and `""` are falsy, every other value (objects and arrays included) is truthy |
| Js.IsWhitespace | pages/api/chat/join.js:12 | the characters `trim` strips: ECMAScript's WhiteSpace (tab, vertical tab, form feed, space, no-break space, BOM and the Zs space separators) and LineTerminator (LF, CR, U+2028, U+2029) |
| Js.TrimStart | pages/api/chat/join.js:12 | drops leading whitespace one character at a time; `TrimStartSpec` characterises the result |
| Js.TrimEnd | pages/api/chat/join.js:12 | drops trailing whitespace one character at a time; `TrimEndSpec` characterises the result |
| Js.Trim | pages/api/chat/join.js:19 | `String.prototype.trim` is both cuts; `TrimIsSlice`, `TrimEnds`, `TrimEmptyIff` and `TrimIdempotent` state what it yields |
| Js.TrimStartSpec | pages/api/chat/join.js:12 | `trim`'s leading cut: the rest is a suffix, only whitespace was dropped, and it starts with a non-whitespace character |
| Js.TrimEndSpec | pages/api/chat/join.js:12 | `trim`'s trailing cut: the rest is a prefix, only whitespace was dropped, and it ends with a non-whitespace character |
| Js.TrimIsSlice | pages/api/chat/join.js:19 | the trimmed username is a slice of the input between two all-whitespace margins |
| Js.TrimEnds | pages/api/chat/message.js:25 | a non-empty trimmed text starts and ends with a non-whitespace character |
| Js.TrimEmptyIff | pages/api/chat/message.js:11 | `trim().length === 0` holds exactly when every character is whitespace (both directions) |
| Js.TrimIdempotent | pages/api/chat/join.js:19 | trimming a stored name again changes nothing |
| Seqs.Distinct | pages/api/chat/events.js:22 | no element twice, as in a JavaScript `Set` and in a `Map`'s keys |
| Seqs.Remove | pages/api/chat/events.js:49 | removal of `x` keeping the order of the rest: exactly the other elements stay; nothing changes when `x` is absent; a distinct sequence loses one element and stays distinct |
| Seqs.RemoveSnoc | pages/api/chat/events.js:58-59 | removing from a sequence extended by one element removes from the prefix and keeps the last element unless it is the removed one |
| Seqs.RemoveAt | pages/api/chat/events.js:54 | removing the element at index k of a distinct sequence cuts out exactly position k |
| Seqs.DistinctCardinality | pages/api/chat/join.js:53 | a distinct sequence has as many elements as the set of its elements, which ties `size` to the number of keys |
| OrderedMaps.OrderedMap.Valid | pages/api/chat/join.js:2 | the key order lists every key of the map once, and only those |
| OrderedMaps.OrderedMap.Has | pages/api/chat/message.js:15 | `activeUsers.has(userId)` is membership of the key |
| OrderedMaps.OrderedMap.Get | pages/api/chat/message.js:19 | `activeUsers.get(userId)` for a key found present: its entry |
| OrderedMaps.OrderedMap.Size | pages/api/chat/join.js:53 | `map.size`, the number of entries; `SizeIsKeyCount` equates it with the key count and the `values()` length |
| OrderedMaps.Empty | pages/api/chat/join.js:2 | `new Map()` is valid, has size 0 and no keys |
| OrderedMaps.OrderedMap.Set | pages/api/chat/join.js:18-22 | `set` keeps the map valid and updates the entry; a new key goes last in insertion order, an existing key keeps its place |
| OrderedMaps.OrderedMap.Delete | pages/api/chat/events.js:54 | `delete` keeps the map valid, drops the entry, and drops the key from the order, keeping the others in order |
| OrderedMaps.OrderedMap.Values | pages/api/chat/join.js:53 | `Array.from(map.values())` lists the values in key-insertion order, one per key |
| OrderedMaps.DeleteAt | pages/api/chat/events.js:54 | after deleting the k-th key, later keys move down by one with their values unchanged |
| OrderedMaps.SizeIsKeyCount | pages/api/chat/join.js:53 | a valid map's `size` equals its number of keys and of `values()` |
| OrderedSets.Add | pages/api/chat/events.js:26 | `Set.add` appends a new client, leaves a present one where it is, and keeps elements distinct |
| OrderedSets.Delete | pages/api/chat/events.js:49 | `Set.delete` is `Seqs.Remove` on the client sequence: the client is gone afterwards and the elements stay distinct; keeping the rest in order is `Remove`'s contract |
| OrderedSets.AddDeleteIdempotent | pages/api/chat/events.js:49 | adding twice is adding once; deleting twice is deleting once |
| History.Append | pages/api/chat/message.js:30-35 | the new message is last; below capacity it is a plain push; at capacity exactly the oldest message is dropped; the length stays at most 100 |
| History.AppendAllKeepsLastWindow | pages/api/chat/message.js:30-35 | after any sequence of posts the history is the last 100 of everything held and posted, oldest first |
| History.LastNOfLastN | pages/api/chat/message.js:32-35 | cutting to the last n before appending does not change the last n after it |
| History.HistoryFillsUp | pages/api/chat/message.js:32-35 | from an empty history, k posts leave min(k, 100) messages |
| Broadcast.WriteTo | pages/api/chat/join.js:43-47 | one `client.write` inside `try`/`catch`: the write is always made and recorded, and is delivered exactly when that client's write does not throw |
| Broadcast.Fanout | pages/api/chat/join.js:41-49 | `broadcastEvent` makes one write per client |
| Broadcast.FanoutAt | pages/api/chat/join.js:41-49 | the k-th write of a broadcast goes to the k-th client, delivered unless that client's write throws; a throw does not stop the others |
| Broadcast.FanoutExcept | pages/api/chat/events.js:58-73 | the `userLeft` `forEach`: clients in set order, `client !== res` skipped, each write under its own `try`/`catch` |
| Broadcast.FanoutExceptIsFanoutOfRest | pages/api/chat/events.js:58-73 | the `userLeft` loop that skips `res` writes exactly what a broadcast to the clients other than `res` writes |
| Broadcast.FanoutSnoc | pages/api/chat/join.js:42-48 | one more turn of the `forEach` adds that client's write at the end |
| Broadcast.FanoutExceptSnoc | pages/api/chat/events.js:58-73 | one more turn of the `userLeft` loop adds that client's write, unless it is the closing client |
| Broadcast.FanoutReachesEachClientOnce | pages/api/chat/join.js:41-49 | every connected client receives a broadcast event exactly once |
| Broadcast.SuccessiveBroadcasts | pages/api/chat/join.js:24-35 | two broadcasts in a row: each client gets the first event and then the second, and every first-event write precedes every second-event write |
| Broadcast.ListComesLast | pages/api/chat/join.js:24-35 | an event followed by `broadcastUsersList`: every write of the event precedes every `usersList` write |
| Broadcast.Usernames | pages/api/chat/join.js:53 | the `usersList` payload has one name per user, equal to the map's size, in insertion order |
| Broadcast.UsernamesAfterAdd | pages/api/chat/join.js:18-22 | registering a new user appends their name at the end of `usersList` |
| Broadcast.UsernamesAfterUpdate | pages/api/chat/message.js:19-20 | changing a user's record without renaming them leaves `usersList` unchanged |
| Broadcast.UsernamesAfterDelete | pages/api/chat/events.js:54 | deleting the k-th user cuts exactly the k-th name out of `usersList` |
| Broadcast.UsernameAfterDeleteAt | pages/api/chat/events.js:54 | pointwise form of the above: the i-th name after deleting user k |
| RoomStates.Inv | pages/api/chat/join.js:2-3 | the room invariant: `activeUsers` is a valid insertion-ordered map, `sseClients` holds no client twice, every user, client and message id was drawn from the counter, and at most 100 messages are kept |
| RoomStates.KnownUser | pages/api/chat/message.js:15 | `userId && activeUsers.has(userId)`: the id is present and registered |
| RoomStates.Evolves | pages/api/chat/join.js:2-3 | across any handler, writes already made stay as they were, the counter never goes back, and new users and clients only get ids not handed out before |
| RoomStates.Initial | pages/api/chat/join.js:2-3 | the room at start has no users, messages, clients or writes, and satisfies the invariant |
| RoomStates.Touch | pages/api/chat/message.js:19-20 | `user.lastSeen = now` changes only that field of that user; keys, order, other users and `usersList` stay the same |
| RoomStates.AddUserKeepsInv | pages/api/chat/join.js:16-22 | storing a user under the next fresh id, and recording writes, keeps the invariant and only appends writes |
| RoomStates.RemovalKeepsInv | pages/api/chat/events.js:47-54 | deleting a client and users, and recording writes, keeps the invariant and only appends writes |
| JoinHandler.BlankUsername | pages/api/chat/join.js:12 | the 400 test `!username \|\| username.trim().length === 0`, for the values where it does not throw |
| JoinHandler.JoinStep | pages/api/chat/join.js:5-38 | non-POST: 405, nothing changes. Falsy or blank username: 400, nothing changes. Truthy non-string: crash, nothing changes. It succeeds exactly for a POST with a non-blank string, and then behaves as `Register` on the trimmed name. Keeps the invariant |
| JoinHandler.Register | pages/api/chat/join.js:16-37 | exactly one new key, never present before, stored with the trimmed name and `joinedAt == lastSeen`; other entries, the history and the clients are unchanged; the response carries the stored id and name; writes are `userJoined` to every client, then `usersList` with the new name last |
| JoinHandler.RegisterWritesEachClientTwice | pages/api/chat/join.js:24-35 | a join adds 2n writes for n clients: the k-th client gets `userJoined` and then the list; the list grew by one |
| JoinHandler.RegisterAnnouncesBeforeListing | pages/api/chat/join.js:24-35 | in a join's writes every `userJoined` precedes every `usersList` |
| MessageHandler.BlankMessage | pages/api/chat/message.js:11 | the 400 test `!message \|\| message.trim().length === 0`, for the values where it does not throw |
| MessageHandler.Posted | pages/api/chat/message.js:22-28 | the stored message: a fresh id, the sender's username, the trimmed text, the time, the sender's id |
| MessageHandler.MessageStep | pages/api/chat/message.js:4-44 | non-POST: 405. Falsy or blank text: 400, checked before the sender, so an unknown sender of a blank text gets 400. Truthy non-string: crash. Missing or unknown sender: 401. Every refusal changes nothing. Success holds exactly when all checks pass, and is `Deliver`. Keeps the invariant |
| MessageHandler.Deliver | pages/api/chat/message.js:19-43 | only the sender's `lastSeen` changes; the stored message has a fresh id, the trimmed text, the sender's name and id; it is appended by `Append` and is the newest entry; clients unchanged; every client, sender included, gets it once |
| TypingHandler.TypingStep | pages/api/chat/typing.js:4-29 | non-POST: 405, nothing changes. Missing or unknown user: 401, nothing changes. Success holds exactly for a POST from a known user, and is `Notify`. Keeps the invariant |
| TypingHandler.Notify | pages/api/chat/typing.js:15-28 | only the sender's `lastSeen` changes; history, clients and counter unchanged; every client, sender included, gets `typing` with `isTyping` the truthiness of the input |
| EventsHandler.ConnectStep | pages/api/chat/events.js:4-45 | missing or unknown user: 401, and no client is registered (any HTTP method); otherwise the stream opens and behaves as `Open`. Keeps the invariant |
| EventsHandler.Open | pages/api/chat/events.js:20-45 | a new client id, not connected before, is added last to the set; every client, the new one included, gets the current `usersList`; the user's `lastSeen` is refreshed; history unchanged |
| EventsHandler.CleanupStep | pages/api/chat/events.js:47-79 | the client always leaves the set and the user is not registered afterwards; history and counter unchanged; a user already gone means only the re-delete happens and nothing is written; otherwise `Evict`. Keeps the invariant |
| EventsHandler.Evict | pages/api/chat/events.js:52-78 | the user leaves the table (other users keep their order); the clients are as after the delete; `LeaveWrites` are appended |
| EventsHandler.LeaveWrites | pages/api/chat/events.js:56-77 | the writes of `cleanup` for a still-registered user: none when no client remains, otherwise the `userLeft` loop skipping `res` followed by `broadcastUsersList` of the users without them |
| EventsHandler.EvictSkipsClosingClient | pages/api/chat/events.js:56-77 | with no client left nothing is written; otherwise every remaining client gets `userLeft` and then the list without the user, so two writes each, and the closing client gets none |
| EventsHandler.EvictAnnouncesBeforeListing | pages/api/chat/events.js:56-77 | every `userLeft` write precedes every `usersList` write of the same cleanup |
| EventsHandler.EvictShrinksList | pages/api/chat/events.js:54 | the list broadcast after a cleanup is the previous list with exactly that user's name cut out |
| EventsHandler.CleanupIdempotent | pages/api/chat/events.js:82-84 | a second `cleanup` of the same connection, at any time and with any failing clients, changes nothing |
| Sessions.Apply | pages/api/chat/join.js:2-3 | every request or close event keeps the room invariant and only appends writes |
| Sessions.Run | pages/api/chat/join.js:2-3 | the invariant holds after any sequence of requests and close events |
| Sessions.EvolvesTransitive | pages/api/chat/join.js:2-3 | writes made stay made, and ids only grow, across several calls |
| Sessions.RemovedStaysRemoved | pages/api/chat/events.js:54 | a removed user and a closed connection never reappear, because ids are never reused |
| Sessions.CleanupTakesEffectOnce | pages/api/chat/events.js:82-84 | of the three `cleanup` runs of one connection, with any requests in between, only the first one changes anything |
| ChatRoom.Room.constructor | pages/api/chat/join.js:2-3 | the room starts as `Initial()` |
| ChatRoom.Room.BroadcastEvent | pages/api/chat/join.js:41-49 | the `forEach` loop appends exactly `Fanout` of the clients, in order; the set is not modified |
| ChatRoom.Room.BroadcastUsersList | pages/api/chat/join.js:52-58 | broadcasts `Usernames` of the current users |
| ChatRoom.Room.Join | pages/api/chat/join.js:5-38 | the new state and response are those of `JoinStep`; the invariant is kept |
| ChatRoom.Room.RegisterUser | pages/api/chat/join.js:16-35 | takes the next id, stores the user, and broadcasts `userJoined` and then `usersList` |
| ChatRoom.Room.PostMessage | pages/api/chat/message.js:4-44 | the new state and response are those of `MessageStep`; the invariant is kept |
| ChatRoom.Room.Publish | pages/api/chat/message.js:19-41 | touches the sender, pushes the message and shifts at capacity (the result equals `Append`), then broadcasts it |
| ChatRoom.Room.SetTyping | pages/api/chat/typing.js:4-29 | the new state and response are those of `TypingStep`; the invariant is kept |
| ChatRoom.Room.AnnounceTyping | pages/api/chat/typing.js:15-26 | touches the sender and broadcasts the boolean flag |
| ChatRoom.Room.Connect | pages/api/chat/events.js:4-45 | the new state and response are those of `ConnectStep`; the invariant is kept |
| ChatRoom.Room.Subscribe | pages/api/chat/events.js:20-45 | adds a fresh client, broadcasts `usersList` to all clients including it, and touches the user |
| ChatRoom.Room.Cleanup | pages/api/chat/events.js:47-79 | the new state is that of `CleanupStep`; the invariant is kept |
| ChatRoom.Room.Depart | pages/api/chat/events.js:52-78 | deletes the user and, when clients remain, appends exactly `LeaveWrites` |
| ChatRoom.Room.BroadcastExcept | pages/api/chat/events.js:58-73 | the `userLeft` loop appends exactly `FanoutExcept`: every client but `res`, in order, each write under its own catch |

## Left out

- SSE wire details are not modelled: `writeHead` headers, the `data: …\n\n` framing, `JSON.stringify`, and the JSON bodies of responses. Events and responses are datatypes.
- The 30-second keep-alive ping timer (`setInterval`/`clearInterval`) is left out. Its one effect on state is a `cleanup` after a failed ping. Any `cleanup` call is available to callers as a close event, so that effect is covered by `Sessions`.
- Ids from `Date.now()` and `Math.random()` are one fresh counter shared by users, messages and clients. So the rare id collision the source could produce is not modelled, and ids are never reused.
- Clock readings (`new Date().toISOString()`) are one abstract reading `now` per call. The source reads the clock separately for `joinedAt`, `lastSeen` and the timestamps.
- JoinHandler.Register: `joinedAt == lastSeen` holds because of the single clock reading. The two reads in the source can differ across a millisecond boundary.
- The `console.error` logging in the three `catch` blocks (pages/api/chat/join.js:46, pages/api/chat/events.js:36 and :70) is dropped. A write that throws is recorded in `outbox` with `delivered == false`.
- The set `broken` of clients whose writes throw is fixed for a whole call. So within one call a client's writes either all throw or all succeed; a client that fails its first write and succeeds its second within one broadcast pair is not modelled.
- Concurrency is left out: each handler call is one atomic step, which matches Node's single-threaded event loop between awaits.
- A missing `req.body` is not modelled. Destructuring `undefined` throws in the source, and the model always has a body whose fields may be `Undefined`.
- Numbers in request bodies are mathematical reals. So `NaN`, which is falsy in JavaScript, is not representable, and `-0` is the same as `0`.
- User records are values in the map. In the source, `user.lastSeen = …` mutates an object that nothing else aliases, so nothing is lost.
- pages/api/socketio.js is not part of this model: it is event wiring over the socket.io library.
- pages/api/chat/leave.js, pages/index.js, pages/index.jsx and tailwind.config.js are not part of this model: they are client UI and styling.
- What the code does not do, and so the model does not do either:
  - `broadcastEvent` does not drop clients whose write fails.
  - No system messages are added to the history on join or leave.
  - `typing` goes to every client, the sender included, despite the "other clients" comment, and a typing flag never expires.
  - There is no operation that clears or sends the history. The client in pages/index.js emits `clearHistory` and listens for `chatHistory` and `historyCleared` (pages/index.js:60, 103, 139), but these only exist over the socket.io wiring, which is not part of this model.
  - `events` accepts any HTTP method.

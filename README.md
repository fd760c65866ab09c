# WebRTC signaling server: presence registry, relay and rate limiter

This project models the server side of a small WebRTC signaling server (`index.js`). The server
keeps two tables in memory:

- `connectionAttempts`: client address to the number of connections admitted from it in the
  current 60-second window. A connection middleware refuses an address whose count is above
  100. Otherwise it adds one to the count.
- `users`: socket id to `{userName, room}`. It is filled by `join` and emptied by `disconnect`.

Socket event handlers read and change these tables:

- `join` validates the user name, registers the socket in a room (`'default'` when none is
  given) and sends the room its member list.
- `offer`, `answer` and `candidate` forward a signaling payload to a registered target,
  stamped with the sender's id. `offer` also requires the sender to be registered.
- `disconnect` removes the socket and tells its former room who remains and who left.

Layout:

- `js.dfy`: `JsValue`, the payload values the handlers inspect. `typeof` tells the kinds apart.
  `===` compares primitives by value and objects by reference. A missing field is `Undefined`.
- `limiter.dfy`: the limiter as pure steps over the attempts table, with lemmas about whole
  windows of attempts.
- `presence.dfy`: the `users` table and its iteration order, with lemmas about the member-list view.
  A JavaScript `Map` iterates in the insertion order of its current keys (a key that is deleted and set again goes last), and that order is the order of `userList`.
- `server.dfy`: class `SignalingServer`. It holds the two tables, the iteration order of
  `users` and an append-only log `out` of everything emitted. Each handler is a method.
  `io.to(x).emit(...)` becomes an event addressed to the room named `x`. In socket.io every
  socket is also in a room named after its id. `socket.emit(...)` becomes an event addressed
  to the calling socket. The 60-second timer is the method `ClearWindow`.

Behaviour of `index.js` worth knowing when reading the model:

- An empty user name is accepted. Only a non-string name or one over 50 characters is rejected (index.js:46).
- `offer`, `answer` and `candidate` forward to any registered target (index.js:72, 94, 107).
- `answer` and `candidate` do not check that the sender is registered (index.js:92-116).
- A join sends the member list to the joined room only (index.js:61). A socket that re-joins
  into another room disappears from its former room's list (`Presence.JoinOtherRoomUsers`),
  but that room is not notified (index.js:50-61).

## Model

| member | source | states |
|---|---|---|
| `Limiter.Step` | index.js:28-37 | An admitted attempt (prior count at most 100) adds exactly one to that address's count. A refused one leaves the table unchanged. Every other address's count is unchanged. |
| `Limiter.RunCount` | index.js:30-36 | Over any series of attempts, an address's count equals its count at the start plus its number of admissions, and never exceeds 101. |
| `Limiter.WindowBound` | index.js:25-37 | From a cleared window, no address is admitted more than 101 times, whatever other addresses do. |
| `Limiter.RefusalPersists` | index.js:32-34 | Once an address is refused, every later attempt in the window is refused and its count stays put. |
| `Limiter.BurstAdmissions` | index.js:30-37 | Of n consecutive attempts from one address, exactly min(n, 101 - count) are admitted. The bound is reached as well as respected. |
| `Presence.RoomOrDefault` | index.js:44 | A missing room becomes `'default'`. A room that was given, including `null`, is kept as given. The result is never undefined. |
| `Presence.RoomUsers` | index.js:54-59 | The room list view (also index.js:126-131): it is no longer than the iteration order, and every entry is a registered socket of that room with its current name. The converse and uniqueness are `RoomUsersMembers` and `RoomUsersDistinct`. |
| `Presence.OrderAfterSet` | index.js:50 | `users.set` keeps every key once. A new key goes last. A key that is already present keeps its position. |
| `Presence.Without` | index.js:123 | `users.delete` removes exactly that key from the iteration order: the result is the old order with that one position cut out, so the others stay distinct and in their relative order. A missing key changes nothing. |
| `Presence.RoomUsersMembers` | index.js:54-59 | A pair (id, name) is in a room's member list if and only if `id` is registered in that room under that name. |
| `Presence.RoomUsersDistinct` | index.js:54-59 | No socket id appears twice in a member list. |
| `Presence.JoinedRoomUsers` | index.js:50-61 | After a join, the joined room's list is the joiner plus exactly the earlier members of that room other than the joiner. The table stays consistent with its order. |
| `Presence.JoinOtherRoomUsers` | index.js:50 | A join leaves every other room's list as it was, except that the joiner is dropped from it. |
| `Presence.RoomUsersAfterDelete` | index.js:123-131 | After a delete, a room's list is its previous list with the deleted socket dropped. The others keep their order and names. |
| `Server.SignalingServer.constructor` | index.js:21-25 | The server starts with no users, no attempts and no emitted events. |
| `Server.SignalingServer.Connect` | index.js:28-38 | The middleware admits iff the prior count is at most 100. Admission increments the count. Refusal returns 'Too many connection attempts' and leaves the table unchanged. The table invariant (counts in 1..101) holds. |
| `Server.SignalingServer.ClearWindow` | index.js:26 | The timer empties the table, so every address's count is 0 and the next attempt is admitted. |
| `Server.SignalingServer.Join` | index.js:44-67 | The guard is `ValidUserName` (index.js:46-48): a value that is not a string, or a string over 50 characters, fails it. A failing name (`!ValidUserName(userName)`) emits `error 'Invalid username'` to the socket and leaves `users` and the iteration order unchanged. A valid join sets `users[sid]` to (name, room or 'default'), keeps one entry per socket and emits exactly one `userList` to the room. That list holds the joiner. |
| `Server.SignalingServer.Offer` | index.js:70-90 | An unknown target gives `error 'Target user not found'`. Otherwise an unregistered sender gives `error 'Not authenticated'`. Otherwise exactly one `offer` event goes to the target with `from`, the payload unchanged and the sender's name. No table changes. |
| `Server.SignalingServer.Answer` | index.js:92-103 | An unknown target gives `error 'Target user not found'`. Otherwise exactly one `answer` event goes to the target with `from` and the payload unchanged. No table changes. |
| `Server.SignalingServer.Candidate` | index.js:105-116 | An unknown target gives `error 'Target user not found'`. Otherwise exactly one `candidate` event goes to the target with `from` and the payload unchanged. No table changes. |
| `Server.SignalingServer.Disconnect` | index.js:119-138 | A registered socket loses only its own entry. Its former room gets `userList` (the previous list without the socket, equal to the new view) and then `userDisconnected(sid)`. An unregistered socket changes and emits nothing. |

## Left out

- `public/webrtc.js` is not part of this model. It is browser code (DOM, media capture, `RTCPeerConnection`) with no server state.
- Transport: the socket.io server options, CORS and ping settings. Also which sockets belong to which socket.io room, and delivery itself. Events are only logged with their addressee. A socket that joins a second room stays in the first socket.io room. That effect of `socket.join` is not modelled.
- Express routes, the health endpoint, the error middleware, server start-up, `SIGTERM` shutdown and logging.
- The timer itself: the 60-second clearing is the explicit method `ClearWindow`.
- Concurrency: socket.io runs each handler to completion on one event loop, so each handler is one atomic method.
- The `rooms` map (index.js:22) is declared but never used by the code.
- A missing, `undefined` or `null` payload: destructuring it throws a TypeError outside the handler's `try`, so no `error` event is sent. Any other payload (a number, string or boolean included) reads its fields, `Undefined` when absent, which the model takes as the handler's parameters.
- Numbers in payloads are integers here. Floating point values and `NaN` (which is not `===` to itself) are not modelled. A character stands for one UTF-16 code unit, as `String.length` counts them.
- Server.SignalingServer.Join: does not model the log line (index.js:63) failing. It converts the room to a string, and a room object that cannot be converted (for example `{"toString": 0}`) makes it throw a TypeError after the `userList` emit. The catch then also sends `error` to the socket; the model emits only the `userList`. Object rooms are represented by their identity only (`Ref`), so the model cannot tell such an object apart.
- Server.SignalingServer.Disconnect: does not model the log line (index.js:136) failing in the same way. For such a room the TypeError is thrown after both emits, outside any `try`, and propagates out of the handler. The state change and the two events are as modelled.
- Socket ids and client addresses are supplied by socket.io. They are parameters of the handlers.

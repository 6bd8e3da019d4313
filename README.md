# Room coordination of the WebRTC signaling server

This project models the signaling server of a small video-call application. The server keeps
one global table `rooms` (room id → ordered `users` list and an optional chat backlog
`messages`), and each socket has a back-reference to the room it last joined (`socket.roomId`).
Sockets raise `join_room`, `offer`, `answer`, `ice_candidate`, `chat_message`, `leave_room` and
`disconnect`. The handlers update the table and emit events to a room, to a room minus its
sender, or to one socket. A room holds at most three users (`MAX_USERS_PER_ROOM`) and at most 50
chat entries. Browsers use the `offer_request`s sent on a join to build a full peer-to-peer
mesh.

The project has these modules:

- `Protocol` (protocol.dfy): ids, the two constants, chat entries, rooms, and the events the
  server emits. Each emit is an `Emission` of one message to an `Audience`. The audience names
  the socket.io call exactly: `ToRoom` for `io.to(room)`, `ToRoomExcept` for `socket.to(room)`,
  `ToSocket` for `socket.emit` and `io.to(socketId)`.
- `Lists` (lists.dfy): `Array.prototype.filter` on the `users` list, and its properties.
- `History` (history.dfy): the chat backlog's push-then-shift append, and the proof that it
  keeps exactly the latest 50 entries.
- `Hub` (hub.dfy): the server state as a value, the invariant `Valid`, and one function per
  handler (`Join`, `Chat`, `Leave`, the dispatch `Handle`, and `Run` over a series of events).
  Each function returns the new state and the emits in the order the handler makes them.
- `Properties` (properties.dfy): what the handlers guarantee, proved about those functions.
- `Server` (server.dfy): the class `SignalingServer`. It keeps `rooms` and `binding` as mutable
  fields, and its handler methods update them in place as the code does (with the `forEach`
  fan-out as a loop). Each method is proved to produce exactly the new state and the emits of
  the matching `Hub` function, and to keep the invariant. The method for `/rooms` reads the
  table and changes nothing.
- `Scenario` (scenario.dfy): a walk-through with any four distinct sockets. Three join, the
  fourth is turned away, one chats, one disconnects and the rest leave.

The model follows the code, including these quirks:

- The capacity check in `join_room` runs before the duplicate check, so a member re-joining a
  full room gets `room_full`.
- Join and leave notices are emitted but never stored in `messages`.
- `chat_message` trusts the room id the client sends. It does not check that the sender is a
  member.
- Joining a second room moves `socket.roomId` but leaves the socket in the first room's
  `users`.
- `leaveRoom` and `chat_message` test the room id for JavaScript truthiness, while `join_room`
  does not. So the room named `""` can be joined but never left.
- `leaveRoom` sends its three emits with `io.to(roomId)` before it calls `socket.leave`
  (server/app.js:151-170). So on `leave_room` the leaver is still subscribed to the room when
  the three emits go out. On `disconnect`, socket.io has already unsubscribed it.

## Model

| member | source | states |
|---|---|---|
| Protocol.Prefix | server/app.js:67 | `substring(0, 5)` yields the first five characters, or the whole id when it is shorter. |
| Lists.Without | server/app.js:150 | Filtering drops every occurrence of the id and keeps every other element. The result is no longer than the input. |
| Lists.WithoutConcat | server/app.js:59 | Filtering distributes over concatenation, so the kept ids stay in their original order. |
| Lists.WithoutAbsent | server/app.js:59 | Filtering out an id that is not in the list returns the list unchanged. |
| Lists.WithoutAt | server/app.js:150 | In a duplicate-free list, filtering out a member removes exactly its position and keeps the others in order. The length drops by one. |
| Lists.WithoutNoDup | server/app.js:150 | Filtering keeps a duplicate-free list duplicate-free. |
| History.Append | server/app.js:113-121 | The new entry is last. Starting from at most 50 entries, the result is the last 50 of the old history plus the entry, and has at most 50 entries. |
| History.AppendAllKeepsRecent | server/app.js:113-121 | After any series of appends, the backlog is exactly the latest 50 entries of everything appended, in append order. |
| Hub.OfferRequests | server/app.js:76-79 | One `offer_request` naming the joiner per listed member, addressed to that member, in list order. |
| Hub.BoundRoom | server/app.js:144 | No contract of its own: the socket's `roomId`, `undefined` (None) when it never joined. `Properties.LeaveNoop` and `Properties.EmptyRoomIdNeverLeft` state what `leaveRoom` does with it. |
| Hub.RoomOrEmpty | server/app.js:31-35 | No contract of its own: the stored room, or the empty room `join_room` creates. `Properties.JoinSucceeds` states that the join creates the room when absent. |
| Protocol.Truthy | server/app.js:146 | No contract of its own: the JavaScript truthiness test of a room id, used by `leaveRoom` and by `chat_message` (server/app.js:102). `Properties.ChatDropped`, `Properties.LeaveNoop` and `Properties.EmptyRoomIdNeverLeft` state its effect. |
| Protocol.JoinNotice | server/app.js:67 | No contract of its own: the join notice text, built on `Protocol.Prefix`. `Properties.JoinSucceeds` and `Properties.JoinNotices` state where it is sent. |
| Protocol.LeftNotice | server/app.js:153 | No contract of its own: the leave notice text, built on `Protocol.Prefix`. `Properties.LeaveRemovesMember` states where it is sent. |
| History.AppendAll | server/app.js:118-121 | No contract of its own: a series of appends, one per chat entry. `History.AppendAllKeepsRecent` and `Properties.ChatSeries` state its result. |
| Hub.JoinEmissions | server/app.js:59-79 | No contract of its own: the emits of a successful join. `Properties.JoinSucceeds`, `Properties.MeshBootstrap` and `Properties.JoinNotices` state their content and order. |
| Hub.Join | server/app.js:28-80 | Every join leaves the named room in the table (created if absent) and no other room appears or changes. Only the joiner's binding can change, and only to the named room. `Properties.JoinFull`, `JoinDuplicate`, `JoinSucceeds`, `JoinRejectsExactlyWhenFull`, `MeshBootstrap`, `JoinNotices` and `JoinValid` state the rest. |
| Hub.Chat | server/app.js:101-128 | A chat event never changes a binding, a room's `users` or which rooms exist. It emits at most one message, and when it emits none the state is unchanged. `Properties.ChatDropped`, `ChatAppends`, `ChatValid` and `ChatSeries` state the rest. |
| Hub.Leave | server/app.js:143-173 | Leaving can only delete rooms, and changes no room other than the leaver's bound room. It changes no other socket's binding. Without emits the state is unchanged. With emits there are exactly three, and the leaver ends unbound. `Properties.LeaveNoop`, `LeaveRemovesMember`, `LeaveIdempotent` and `LeaveValid` state the rest. |
| Hub.Handle | server/app.js:21-139 | `connection`, `offer`, `answer` and `ice_candidate` change nothing and emit exactly one message. No event changes the binding of a socket other than its sender. `Properties.Forwarding`, `HandleValid` and `LeaveIdempotent` state the rest. |
| Hub.Run | server/app.js:21-139 | Over any series of events, a socket that raised none of them keeps its binding, and a room that nobody asked to join does not come into existence. `Properties.RunValid`, `Bounds` and `ChatSeries` state the rest. |
| Properties.JoinFull | server/app.js:37-42 | A join into a room with at least 3 users emits only `room_full` to the joiner. It changes no room and no binding. |
| Properties.JoinRejectsExactlyWhenFull | server/app.js:37-42 | `room_full` is emitted if and only if the room already holds at least 3 users. |
| Properties.JoinDuplicate | server/app.js:44-48 | A repeated join into a non-full room emits nothing and changes nothing. |
| Properties.JoinSucceeds | server/app.js:31-79 | Any other join creates the room if absent and appends the joiner after the earlier users. It binds the socket to the room. It emits `users_in_room` with the new list to the room, the join notice to everyone but the joiner, the backlog when non-empty, then the offer requests to the earlier users. |
| Properties.MeshBootstrap | server/app.js:59-79 | A join into a room with k users emits exactly k `offer_request`s. There is one per earlier member, in `users` order, each naming the joiner, and none goes to the joiner. |
| Properties.JoinNotices | server/app.js:64-73 | The system notice goes to `socket.to(room)` and the stored messages are unchanged. `chat_history` is sent to the joiner, with the stored list, if and only if that list is non-empty. |
| Properties.ChatDropped | server/app.js:102 | A chat event with a falsy room id, or one naming an unknown room, changes nothing and emits nothing. |
| Properties.ChatAppends | server/app.js:101-127 | Otherwise, with no membership check, the entry is stored last. The history becomes the last 50 of old history plus the entry. Users, bindings and other rooms are unchanged. One broadcast from the sender goes to everyone in the room but the sender. |
| Properties.Forwarding | server/app.js:84-99 | `offer`, `answer` and `ice_candidate` each emit one message to the named target. It carries the sender as `from` and the payload unchanged. The state is untouched. |
| Properties.LeaveNoop | server/app.js:143-146 | With no truthy bound room, or a bound room that no longer exists, leaving does nothing. |
| Properties.LeaveRemovesMember | server/app.js:143-172 | Leaving removes exactly the leaver from its room's `users` and keeps the others in order. The room is deleted if and only if nobody is left, and other rooms are unchanged. The binding becomes null. The left notice, `user_left` and the new list go to the room, in that order. |
| Properties.LeaveIdempotent | server/app.js:130-139 | A second leave, or a disconnect after a leave, changes nothing and emits nothing. |
| Properties.JoinValid | server/app.js:28-80 | `join_room` keeps the invariant: every room has 1 to 3 distinct users and at most 50 messages, and every bound socket is a member of its existing room. |
| Properties.ChatValid | server/app.js:101-128 | `chat_message` keeps the invariant. |
| Properties.LeaveValid | server/app.js:143-173 | `leaveRoom` keeps the invariant, including deleting a room once it is empty. |
| Properties.HandleValid | server/app.js:21-139 | Every event handler keeps the invariant. |
| Properties.RunValid | server/app.js:21-139 | Any series of events from a valid state ends in a valid state. |
| Properties.Bounds | server/app.js:18-19 | In every state reachable from start-up, no `users` list exceeds 3 or is empty or repeats an id, and no backlog exceeds 50 entries. |
| Properties.ChatSeries | server/app.js:101-127 | Any series of chat events naming one existing room stores their entries in order through repeated appends. The backlog ends as the latest 50 of the old entries followed by the new ones. Members and bindings are unchanged. |
| Properties.SecondJoinKeepsFirstRoom | server/app.js:53 | Joining a second room rebinds the socket but leaves it in the first room's `users`. It stays there after it leaves the second room. |
| Properties.EmptyRoomIdNeverLeft | server/app.js:146 | A socket bound to room `""` is never removed by `leaveRoom`. Chat naming room `""` is dropped. |
| Server.RequestOffers | server/app.js:76-79 | The `forEach` loop emits one `offer_request` naming the joiner to each listed member, in order. |
| Server.JoinEmits | server/app.js:59-79 | The emits of a successful join, built as the handler builds them (filter, three emits, then the `forEach` fan-out), are exactly `Hub.JoinEmissions` of the room before the push. |
| Server.SignalingServer.constructor | server/app.js:19 | The server starts with no rooms and no bound socket, in a valid state. |
| Server.SignalingServer.OnJoinRoom | server/app.js:28-80 | The in-place `join_room` handler leaves exactly the state and emits exactly the events of `Hub.Join`, and keeps the invariant. |
| Server.SignalingServer.OnChatMessage | server/app.js:101-128 | The in-place `chat_message` handler (push, then shift past 50) matches `Hub.Chat` and keeps the invariant. |
| Server.SignalingServer.LeaveRoom | server/app.js:143-173 | The in-place `leaveRoom` (filter, three emits, delete when empty, clear the binding) matches `Hub.Leave` and keeps the invariant. |
| Server.SignalingServer.OnEvent | server/app.js:21-139 | Each socket event reaches its handler. `leave_room` and `disconnect` share `leaveRoom`, and `connection` greets the socket with `me`. |
| Server.SignalingServer.RoomStatus | server/app.js:193-205 | `/rooms` lists every room with its users and their count, plus the number of rooms, and changes nothing. Under the invariant every count is between 1 and 3. |
| Scenario.JoinStep | server/app.js:28-80 | A fresh socket joining a room with no backlog and fewer than 3 users emits the member list, the notice and one offer request per earlier user. It is stored last and bound. |
| Scenario.TwoJoins | server/app.js:28-80 | Two sockets join an empty server in turn. The second triggers one `offer_request`, to the first, and the table then holds exactly that room with both users bound to it. |
| Scenario.ThreeJoins | server/app.js:28-80 | Three sockets join in turn. The first receives no offer request, the second triggers one to the first, the third triggers one to each of the first two. |
| Scenario.ChatAndLeaves | server/app.js:101-172 | In a full room a fourth socket gets only `room_full`, and a chat reaches everyone but its sender. After a disconnect the room keeps the other two in order. Once the last user leaves, the room is deleted. |

## Left out

- client/src/App.jsx is not part of this model. It is the React UI, browser media capture, `RTCPeerConnection` and the socket.io client, with no server state.
- Express, http and socket.io set-up, CORS, `server.listen`, the `SIGINT` shutdown hook, the `GET /` banner and all `console.log` output are left out. They are I/O plumbing.
- socket.io delivery is not modelled: room subscription through `socket.join` and `socket.leave`, who actually receives an emit, emits to absent ids. Emits are returned as audience descriptors. `io.to(to)` in the forwarding handlers is modelled as `ToSocket(to)`, although socket.io resolves `to` as a room name.
- `new Date().toISOString()` is not modelled. The timestamp is an input of `chat_message`.
- The JSON serialisation of `/rooms` and the insertion order of `Object.keys` are not modelled. The report is a map.
- Values other than strings are not modelled: room ids, payloads and chat text are strings. A non-string `roomId`, a missing event argument (whose destructuring throws), and room names such as `constructor` that collide with inherited object properties are all outside the model.
- A room whose `messages` property was never created is represented with an empty history. The code treats the two alike.
- The `binding` entry of a disconnected socket stays in the table, set to null. The socket object itself is not modelled.
- Server.SignalingServer.OnJoinRoom, OnChatMessage, LeaveRoom and OnEvent require the class invariant. The code demands nothing of its callers, but the constructor establishes the invariant and every handler preserves it.
- Protocol.Prefix counts Unicode scalar values, while JavaScript's `substring(0, 5)` counts UTF-16 code units. The two agree on ids without characters outside the Basic Multilingual Plane, such as socket.io's generated ids.

# Whiteboard socket relay: a Dafny model

This project models the collaboration relay in `server.js`. Clients connect over socket.io with a JWT and a board id (`roomId`). The server keeps a process-wide `rooms` map from room id to the room's connected sockets, and it relays roster, presence and layer events between the members of a room.

The model covers:

- **Handshake middleware** (`Auth.Authenticate`). A falsy token is refused with `Authentication error: Token not provided`. A token that the verifier rejects is refused with `Authentication error: Invalid token`. So is a verified token whose `sub` claim makes the log line's string conversion throw, because that line runs inside the same `try` (`server.js:36`, `38-40`). Otherwise the token's `sub` and `email` claims go onto the socket. The JWT verifier is a parameter, `verify: Value -> Option<Claims>`. Its secret is part of that parameter.
- **Room registry** (`Registry`). A JavaScript `Set` iterates in insertion order, so a room's members are a `seq` without duplicates. `Join` does the connection handler's create-if-absent and `add`. `Leave` does the disconnect handler's `delete`, and it removes the room when the room becomes empty. `RegistryOk` states that every room in the map is non-empty and has no duplicate members. Both operations preserve it.
- **Connections** (`Sockets.Socket`). The handlers overwrite a socket's fields in place, so a socket is a class. `roomId` is a `const` because it is fixed when the socket connects.
- **Roster** (`Rosters.Roster`). This models the `Array.from(room).map(...)` expression. It returns one entry per member, in room order, with fields copied from that member. Presence is either `null` for everyone (the `register` handler) or each member's stored presence (the `presence` and `disconnect` handlers).
- **Fan-out** (`Fanout`). An emit is modelled as the list of deliveries it causes. `Broadcast` models `io.to(roomId)`, which reaches the whole room. `BroadcastExcept` models `socket.to(roomId)`, which reaches the whole room except the sender. socket.io keeps its own room membership. The model takes it to be the registry's member list, which `socket.join(roomId)` and `room.add(socket)` set up together.
- **Server** (`Server.RoomServer`). This class holds the `rooms` map and one member per handler. `Connect` is the middleware followed by the connection handler. `OnRegister`, `OnPresence` and `OnDisconnect` change state, so they are methods. The three `layer-*` relays change nothing, so they are functions.

Client-supplied values are a JSON-like `Values.Value`. This keeps `undefined`, which a field has before it is first set, apart from `null`, which the `register` roster sends.

Handlers require the sender to be a current member of `rooms[s.roomId]`. In the source, each handler closes over the `room` set that it joined. That set stays the registry entry for as long as the socket is connected, because the registry drops a room only when the room is empty.

The `register` roster always sends `null` presence. The `presence` and `disconnect` rosters send each member's stored presence, which is `undefined` until that member's first presence event (`server.js:67`, `86`, `111`).

## Model

| member | source | states |
|---|---|---|
| Auth.Authenticate | server.js:25-42 | A falsy token is refused with "Token not provided". Every other refusal says "Invalid token": a token that the verifier rejects, or one whose `sub` makes the template literal at line 36 throw inside the `try`. The connection is admitted exactly when the token is truthy, verifies and has a printable `sub`. The admitted claims are the verifier's. |
| Auth.OwnToStringSubjectRefused | server.js:34-40 | A verified token whose `sub` is an object with its own `toString` key is refused with "Invalid token". |
| Auth.MissingTokenIgnoresVerifier | server.js:26-30 | A missing token is refused before the verifier is consulted, whatever the verifier would answer. |
| Sockets.Socket.constructor | server.js:33-35 | An admitted socket's `userId` is the token's `sub` and its `userEmail` is the token's `email`. Its room id is the handshake's. Connection id, name, picture and presence start out `undefined`. |
| Registry.Without | server.js:104 | `room.delete(socket)`: the result holds exactly the other members. It is strictly shorter when the socket was a member, and it keeps the no-duplicates property. |
| Registry.WithoutSplices | server.js:104 | In a duplicate-free room, deleting a member removes exactly its position and keeps everyone else in insertion order. |
| Registry.WithoutAbsent | server.js:104 | Deleting a socket that is not a member leaves the room unchanged. |
| Registry.Join | server.js:51-56 | After a join, room `k` exists and contains the socket. Its previous members are still there, as a prefix in their order, with at most one member added. No other room changes. The registry invariant is preserved. |
| Registry.Leave | server.js:103-107 | After a leave, room `k`'s members are the previous ones minus the socket. Other rooms are unchanged, a missing room is a no-op, and the registry invariant is preserved. |
| Registry.LeaveDropsRoomIffLast | server.js:104-106 | The room is deleted exactly when the leaving socket was its only member. Otherwise the room keeps one member fewer. |
| Registry.LeaveUndoesJoin | server.js:51-106 | A socket that joins a room it was not in and then leaves restores the registry exactly. |
| Rosters.Roster | server.js:64-72 | A roster has one entry per member, in room order. `userId`, `connectionId`, name and picture are copied from that member. Presence is `null` for the register roster and the member's stored presence for the presence and disconnect rosters (lines 86 and 111). |
| Fanout.Broadcast | server.js:74 | `io.to(roomId).emit`: each member of the room receives the event exactly once, in room order and unchanged, and nobody else receives it. |
| Fanout.BroadcastExcept | server.js:78 | `socket.to(roomId).emit`: every member except the sender receives the event unchanged. The sender never receives it, and no recipient receives it twice. |
| Server.RoomServer.constructor | server.js:44 | The registry starts empty. |
| Server.RoomServer.Connect | server.js:25-56 | On refusal, `rooms` is untouched and the reason is the middleware's. On success, there is a new socket with the token's `sub` and `email`, appended to its room, and the registry is valid. The socket's connection id, name, picture and presence are `undefined` until the client sets them. |
| Server.RoomServer.Join | server.js:47-56 | The connection handler's registry update, proved equal to `Registry.Join`. |
| Server.RoomServer.OnRegister | server.js:58-75 | Overwrites only the sender's four identity fields. It sends the null-presence roster as a `users` event to every room member, the sender included. A sole member receives exactly its own registration. |
| Server.RoomServer.OnLayerUpdate | server.js:77-79 | Both arguments reach every other member of the sender's room unchanged, under the event name `layer-update`. They never reach the sender or another room, and each recipient gets them once. |
| Server.RoomServer.OnPresence | server.js:81-93 | Overwrites only the sender's presence and ignores the `userId` argument. It sends the stored-presence roster as a `users` event to every member except the sender. |
| Server.RoomServer.OnLayerSend | server.js:95-97 | The array reaches every other member of the sender's room unchanged as `layer-send`, once each, and never the sender. |
| Server.RoomServer.OnLayerDelete | server.js:99-101 | The id list reaches every other member of the sender's room unchanged as `layer-delete`, once each, and never the sender. |
| Server.RoomServer.OnDisconnect | server.js:103-119 | Removes the sender from its room. The room is dropped exactly when the sender was its last member, and then nothing is sent. Otherwise the remaining members, and only they, receive the stored-presence roster as a `users` event. |

## Left out

- The Express app, CORS, the `/ping` endpoint, the HTTP server and `listen`, and `dotenv`/`process.env` (`server.js:1-22`, `122-125`). These are bootstrap and I/O.
- The internals of `jwt.verify`. It is foreign cryptography, so it is a function parameter. The secret is folded into that parameter.
- `console` output. The log line's string conversion is still modelled, because it can throw and so refuse a connection.
- The `Error` object passed to `next`. Only its message string is modelled.
- socket.io's transport and delivery. Emits are returned as delivery lists, and socket.io's room membership is taken to equal the registry.
- Concurrency. Node runs each handler to completion, so each handler is one atomic method or function.
- The `roomId` query parameter is a string or absent (`Option<string>`). A repeated query parameter, which socket.io would deliver as an array, is not modelled.
- Values.Falsy: numbers are integers, so the falsiness of `NaN` and `-0` is not modelled.
- Events that arrive after a socket has disconnected are not modelled. socket.io does not deliver them, so every handler requires the sender to be a current member.

# Real-time chat: server state machine and client state holder

This project models the two stateful parts of a Socket.io chat application and proves properties of them in Dafny.

- **The chat server** (`server/server.js`). It keeps four JavaScript `Map`s:
  - `users`: socket id to user record;
  - `rooms`: room name to the `Set` of member socket ids;
  - `messages`: room name to the room's message log;
  - `typingUsers`: socket id to username.

  Every socket event handler updates these tables in place and emits events to one socket, to a room, to a room minus the sender, or to everyone. The model has these parts:
  - the class `Server.ChatServer`, with one field per table and one method per handler;
  - the read-only views `getOnlineUsers` and `getRoomList` (module `Tables`);
  - the room-switch update and the consistency invariant every handler keeps (module `Tables`).

  Each method returns the events it emits as `(audience, event)` values.
- **The client hook** (`client/src/hooks/useSocket.js`). Module `Client` models it as a state record, `ClientState`, with one function per action and per socket listener. Actions also return the events they emit to the server.

Supporting modules:
- `OrderedMaps` models a JavaScript `Map`. It is a finite map that remembers insertion order. The order matters here because the user list, the room list, the typing list and the private-message recipient lookup all iterate a `Map`.
- `Strings` models `trim` (ECMAScript white space and line terminators) and `toLowerCase`.
- `Protocol` holds the records and events.
- `Options` holds an option type.

Parameters stand in for the outside world:
- the wall clock (`Date.now()` and ISO timestamps) is a `Clock`;
- the client's `socket.id` is an `Id`;
- whether a disconnected socket has reconnected is a `bool`.

The 5-second clean-up timer becomes the operation `Expire`. The client's 3-second typing timer becomes a call of `StopTyping`.

Behaviour as coded, which the model keeps:
- The room-name guard `user.currentRoom && user.currentRoom !== name` never leaves the empty room `""`. A user who joined a whitespace-only name stays a member of `""` after the next switch (`Tables.EmptyCurrentRoomIsNotLeft`).
- Disconnecting keeps the user's room membership, and so does the later clean-up.
- Logs are unbounded. Room names are not validated. Typing entries never expire on the server. The typing list is not filtered by room.
- The private-message recipient is the first user with that name, online or not.
- The server does not reject empty messages. Only the client's guard does.
- The client shows the room name as typed while the server normalises it. After `joinRoom("Tech")`, messages in `tech` from other sockets raise notifications (`Client.MixedCaseRoomNotifies`).
- The server emits `user_left_room`, but the client listens for `user_left`. A room departure therefore changes nothing on the client (`Client.OnServerEvent`).
- `joinRoom` resets the unread counter but leaves the notifications unread (`Client.JoinRoomHidesUnread`).

## Model

| member | source | states |
|---|---|---|
| OrderedMaps.OrderedMap.Set | server/server.js:69 | `Map.set`: result stays well formed; the value is stored; a present key keeps its position, a new key goes last |
| OrderedMaps.OrderedMap.Delete | server/server.js:143 | `Map.delete`: the key leaves the entries and the order; the other keys keep their relative order; deleting an absent key changes nothing |
| OrderedMaps.OrderedMap.Values | server/server.js:131 | `Array.from(map.values())`: one value per key, in key order |
| OrderedMaps.Empty | server/server.js:27-30 | `new Map()` is empty and well formed |
| OrderedMaps.Without | server/server.js:143 | removing a key from the key order keeps exactly the other keys, in order, without repetitions |
| OrderedMaps.WithoutAt | server/server.js:143 | in a repetition-free order, removing the key at position p closes the gap at p |
| OrderedMaps.ValuesComplete | server/server.js:40 | the value list holds every stored value, and nothing else |
| OrderedMaps.ValuesSetNew | server/server.js:129-131 | setting a new key appends its value to the value list |
| OrderedMaps.ValuesSetPresent | server/server.js:129-131 | re-setting a present key replaces its value in place in the value list |
| OrderedMaps.ValuesDelete | server/server.js:143-145 | deleting a key drops exactly its value from the value list |
| OrderedMaps.SetIdempotent | server/server.js:129 | setting the same key to the same value twice equals setting it once |
| OrderedMaps.DeleteIdempotent | server/server.js:143 | deleting the same key twice equals deleting it once |
| Strings.Trim | server/server.js:158 | `trim` keeps a slice with no white space at either end |
| Strings.TrimIsSlice | server/server.js:158 | what `trim` drops at both ends is all white space |
| Strings.TrimOfPadded | server/server.js:158 | white space around an unpadded string is removed and the string itself is kept exactly |
| Strings.TrimUnpadded | server/server.js:158 | a string with no white space at either end trims to itself |
| Strings.TrimIdempotent | server/server.js:158 | trimming twice equals trimming once |
| Strings.TrimEmptyIff | client/src/hooks/useSocket.js:54 | `text.trim()` is empty exactly when every character is white space |
| Strings.LowerChar | server/server.js:158 | an ASCII-only stand-in for `toLowerCase` on one character: A-Z become a-z, every other character is kept |
| Strings.ToLower | server/server.js:158 | lower-casing keeps the length, maps each character, and leaves no capital |
| Strings.ToLowerIdempotent | server/server.js:158 | lower-casing twice equals lower-casing once |
| Strings.LowerCharWhitespace | server/server.js:158 | lower-casing neither creates nor removes white space |
| Strings.ToLowerNoCapitals | server/server.js:158 | a string without capitals lower-cases to itself |
| Strings.Normalize | server/server.js:158 | the normalised room name is no longer than the input, has no white space at either end and has no capitals |
| Strings.NormalizeIdempotent | server/server.js:158 | a normalised name normalises to itself |
| Strings.NormalizeIgnoresPadding | server/server.js:158 | surrounding white space does not change the normalised name |
| Tables.OnlineOf | server/server.js:40 | the filter keeps exactly the online records, each as often as it occurs, in order, as a subsequence |
| Tables.OnlineUsers | server/server.js:39-41 | `getOnlineUsers` lists no more users than are registered |
| Tables.OnlineUsersListsOnline | server/server.js:39-41 | a registered record is listed iff it is online; every listed record is stored; registration order is kept |
| Tables.OfflineNotListed | server/server.js:240-244 | once a record is marked offline, the list broadcast next does not include that socket |
| Tables.RoomList | server/server.js:43-48 | `getRoomList` has one entry per room |
| Tables.RoomListDescribesRooms | server/server.js:43-48 | entries follow room creation order; each count is that room's member-set size; every room appears exactly once |
| Tables.FirstNamed | server/server.js:211 | `find` returns the first record with that username, or none when no record has it |
| Tables.LeavesCurrentRoom | server/server.js:162 | the guard never leaves the empty room `""` and never leaves the target room itself |
| Tables.WithoutMember | server/server.js:164 | `rooms.get(r)?.delete(id)` removes id from room r only, if r exists, and keeps the room order |
| Tables.WithRoom | server/server.js:176-178 | a missing room is created empty and appended last; an existing room is untouched |
| Tables.JoinedRooms | server/server.js:162-185 | after a switch the target room exists and contains id |
| Tables.JoinedRoomsTables | server/server.js:162-185 | a switch never deletes a room; it appends the target only when new; the target gains id; the room left loses id; all other member sets are unchanged |
| Tables.JoinedRoomsTakesOnlyId | server/server.js:162-185 | a switch adds only the target to the room set and removes nobody but id from any room |
| Tables.RejoinKeepsRooms | server/server.js:162 | re-joining the current room changes no member set and no room-list count |
| Tables.JoinedRoomsExclusive | server/server.js:162-185 | if id was a member of its current room only, it is a member of the target only afterwards (given a non-empty current room) |
| Tables.EmptyCurrentRoomIsNotLeft | server/server.js:162 | a record whose room is `""` is not removed from `""` by a switch |
| Tables.PlaceUser | server/server.js:62-71 | storing a record in a room it belongs to keeps every record in a room that lists it |
| Tables.LogsWithRoom | server/server.js:176-179 | the target room has a log; a new room's log is empty; existing logs are unchanged |
| Tables.JoinRoomKeepsConsistent | server/server.js:153-185 | the record, member table and log table a room switch stores, with the typing table, are consistent again |
| Tables.DisconnectKeepsConsistent | server/server.js:237-241 | marking a record offline and deleting its typing entry keeps the tables consistent |
| Tables.JoinRoomKeepsRoomOrder | server/server.js:176-177 | a switch never removes or reorders rooms |
| Server.ChatServer.constructor | server/server.js:27-34 | start-up: no users, nobody typing, only `general`, empty and with an empty log |
| Server.ChatServer.OnUserJoin | server/server.js:58-89 | `user_join` stores an online record in `general` under the socket id and adds the id to `general`; no other room or log changes; it emits the user list, room list and `general` log to the sender, and a join notice to the rest of `general` |
| Server.ChatServer.OnSendMessage | server/server.js:91-121 | an unregistered sender changes nothing; otherwise exactly one `text` message from the sender is appended to the current room's log, no other log changes, and the message is broadcast to that room |
| Server.ChatServer.OnTypingStart | server/server.js:124-136 | inserts or overwrites id to username in the typing table and sends the whole typing list to the sender's room; no-op for an unregistered id |
| Server.ChatServer.OnTypingStop | server/server.js:138-150 | deletes the sender's typing entry and sends the remaining list to its room; no-op for an unregistered id |
| Server.ChatServer.OnJoinRoom | server/server.js:153-205 | `join_room` switches the member and log tables as `JoinedRooms` and `LogsWithRoom` say; it updates the record's room and keeps the typing table; it emits the left notice only when the current room is left, then the room's log, the joined notice and the room list; rooms and logs are never lost |
| Server.ChatServer.MoveUser | server/server.js:161-185 | the table part of a room switch keeps the tables consistent and moves the record to the target room |
| Server.ChatServer.MoveMember | server/server.js:162-183 | the member table becomes `JoinedRooms`; the log table becomes `LogsWithRoom` |
| Server.ChatServer.OnPrivateMessage | server/server.js:208-232 | nothing is emitted iff the sender is unregistered or no record has the name; otherwise the sender and the first record with that name, online or not, each get the message; nothing changes |
| Server.ChatServer.OnDisconnect | server/server.js:235-256 | a registered socket's record is marked offline and its typing entry deleted; rooms, memberships and logs stay; the new online list goes to everyone |
| Server.ChatServer.Expire | server/server.js:247-251 | the delayed clean-up deletes the record only if the socket is still disconnected; member sets, logs and typing stay |
| Server.ChatServer.OnGetRooms | server/server.js:259-265 | `get_rooms` sends the room list to the requester only |
| Client.Initial | client/src/hooks/useSocket.js:21-30 | the hook starts unauthenticated, in `general`, with empty lists and no unread notifications |
| Client.AddNotification | client/src/hooks/useSocket.js:111-121 | the new, unread notification goes first, followed by at most the first nine older ones; the list length is min(10, old + 1); the counter rises by exactly one; nothing else changes |
| Client.AddAllCounts | client/src/hooks/useSocket.js:119-120 | after k notifications, the counter has risen by exactly k and the list holds min(10, old + k) entries |
| Client.AddAllNewestFirst | client/src/hooks/useSocket.js:119 | after k notifications, the newest of them (up to ten) lead the list, newest first |
| Client.UnreadCountOutgrowsList | client/src/hooks/useSocket.js:119-120 | eleven notifications on a fresh client leave ten listed and an unread count of eleven |
| Client.MarkNotificationsAsRead | client/src/hooks/useSocket.js:124-129 | every notification is kept in place and marked read; the counter becomes 0 |
| Client.MarkIdempotent | client/src/hooks/useSocket.js:124-129 | marking twice equals marking once |
| Client.MarkLeavesNothingUnread | client/src/hooks/useSocket.js:124-129 | after marking, no notification is unread |
| Client.CountUnreadPrefix | client/src/hooks/useSocket.js:119 | keeping a prefix of the list never adds unread notifications |
| Client.AddNotificationCoversUnread | client/src/hooks/useSocket.js:111-121 | `addNotification` keeps the counter at or above the number of unread notifications |
| Client.Connect | client/src/hooks/useSocket.js:36-41 | `connect` emits `user_join` and records the user as authenticated; nothing else changes |
| Client.Disconnect | client/src/hooks/useSocket.js:44-50 | `disconnect` clears authentication, the current user, the messages and the user list; it keeps the rooms, the current room and the notifications |
| Client.DisconnectUndoesConnect | client/src/hooks/useSocket.js:36-50 | disconnecting after a connect gives the same state as disconnecting without it |
| Client.SendMessage | client/src/hooks/useSocket.js:53-59 | returns true and emits the text exactly when the client is authenticated and the text has a non-white-space character; otherwise returns false and emits nothing |
| Client.SendPrivateMessage | client/src/hooks/useSocket.js:62-68 | the same guard as `sendMessage`; it emits `private_message` with recipient and text |
| Client.DisconnectedSendsNothing | client/src/hooks/useSocket.js:44-68 | after `disconnect` both sends are refused and emit nothing |
| Client.SendGuardsAgree | client/src/hooks/useSocket.js:53-68 | both send guards accept the same texts |
| Client.StartTyping | client/src/hooks/useSocket.js:71-83 | when authenticated it emits `typing_start` and arms the timer; otherwise nothing happens |
| Client.StopTyping | client/src/hooks/useSocket.js:85-93 | when authenticated it emits `typing_stop` and clears the timer; otherwise nothing happens |
| Client.JoinRoom | client/src/hooks/useSocket.js:96-103 | when authenticated it emits `join_room`, sets the current room to the name as given, empties the messages and zeroes the counter; otherwise nothing happens |
| Client.JoinRoomHidesUnread | client/src/hooks/useSocket.js:96-103 | after `joinRoom` the counter can be below the number of unread notifications |
| Client.GetRooms | client/src/hooks/useSocket.js:106-108 | `getRooms` emits `get_rooms` unconditionally and changes nothing |
| Client.NotifiesOf | client/src/hooks/useSocket.js:158 | a message from the client's own socket, or one stamped with the room shown, never notifies |
| Client.OnReceiveMessage | client/src/hooks/useSocket.js:154-166 | the message is appended; when `NotifiesOf` holds, a new unread notification goes first, the first nine older ones follow and the counter rises by one; otherwise notifications and counter stay; nothing else changes |
| Client.OnPrivateMessage | client/src/hooks/useSocket.js:168-179 | the message is appended; the counter is unchanged iff the message is from the current user's own name, and then the notifications stay too; otherwise a new unread notification goes first, the first nine older ones follow and the counter rises by one; nothing else changes |
| Client.OnRoomMessages | client/src/hooks/useSocket.js:181-184 | the message list is replaced by the room's log, in order; nothing else changes |
| Client.OnUserLeft | client/src/hooks/useSocket.js:201-208 | a new unread "User Left" notification goes first, the first nine older ones follow and the counter rises by one; nothing else changes |
| Client.OnSocketStatus | client/src/hooks/useSocket.js:139-147 | the socket's connect and disconnect events change only the connection flag |
| Client.OnServerEvent | client/src/hooks/useSocket.js:230-242 | no server event lowers the counter or changes identity, authentication or current room; a changed notification list has at most ten entries; `user_left_room` changes nothing |
| Client.ServerEventCoversUnread | client/src/hooks/useSocket.js:154-217 | every server event keeps the counter at or above the number of unread notifications |
| Client.JoinedRoomNotifiesIffRenamed | client/src/hooks/useSocket.js:158 | after `joinRoom(n)`, a message from another socket in `Normalize(n)`, the room the server files the client under, notifies iff normalising changed `n` |
| Client.MixedCaseRoomNotifies | client/src/hooks/useSocket.js:158 | the server's name for `Tech` is `tech`, so after `joinRoom("Tech")` a message from another socket in `tech` notifies |

## Left out

- Socket.io transport: connection set-up, `socket.join`/`leave` and the fan-out of emitted events. Emitted events are returned as values with their audience.
- The `connected` acknowledgement (server/server.js:55) and the client's `connected` listener. They change no state.
- The Express HTTP routes and `server.listen`. They are read-only wrappers or process setup.
- Logging (`console.log`, `console.error`) and the `try`/`catch` around each handler. The modelled handlers take well-typed payloads and cannot throw.
- Timers. The disconnect clean-up is the explicit operation `Server.ChatServer.Expire`. The client's typing timer is an explicit call of `Client.StopTyping`.
- Client.StopTyping: the timer's callback is a closure from the render that armed it, so it sees the authentication flag of that moment. The model applies `StopTyping` to the current state instead.
- `Date.now()` and ISO timestamps. They are the `Clock` parameter; ids are not claimed unique.
- Client.Connect: the socket id is a parameter. The model does not capture that `socket.id` may still be unset right after `socket.connect()`.
- Strings.LowerChar, Strings.ToLower: map only the ASCII capitals A-Z. `toLowerCase` also lower-cases non-ASCII letters (`"É"` becomes `"é"`), which needs Unicode case tables.
- Strings.Normalize: "no longer than the input" holds for the ASCII stand-in only. In JavaScript `"İ".toLowerCase()` is two code units long.
- React rendering, `scrollToBottom`, the socket client configuration, and listener registration and clean-up.

/**
 * The chat server's state machine. The server keeps four tables, all
 * JavaScript `Map`s keyed by socket id or room name: the user records, the
 * member set of every room, the message log of every room and the names of
 * the users currently typing. Each socket event handler is a method of
 * `ChatServer` that updates those tables in place and returns the events it
 * emits, each with its audience.
 */
module Server {
  import opened Options
  import opened OrderedMaps
  import opened Strings
  import opened Protocol
  import opened Tables

  class ChatServer {
    /** `users`: socket id to user record, in registration order. */
    var users: OrderedMap<Id, User>
    /** `rooms`: room name to the set of member socket ids, in creation order. */
    var rooms: OrderedMap<string, set<Id>>
    /** `messages`: room name to its log, oldest first. Its key order is never read. */
    var messages: map<string, seq<Message>>
    /** `typingUsers`: socket id to username, in the order typing started. */
    var typingUsers: OrderedMap<Id, string>

    /** What every handler keeps, see `Consistent`. */
    ghost predicate Valid()
      reads this
    {
      Consistent(users, rooms, messages, typingUsers)
    }

    /** Rooms are never deleted (new ones go last) and logs only grow at their end. */
    twostate predicate KeepsHistory()
      reads this
    {
      && old(rooms.keys) <= rooms.keys
      && old(messages).Keys <= messages.Keys
      && forall r :: r in old(messages) ==> old(messages)[r] <= messages[r]
    }

    /** Start-up: no users, nobody typing, and one room, `general`, empty and with an empty log. */
    constructor ()
      ensures Valid()
      ensures users == Empty() && typingUsers == Empty()
      ensures rooms.keys == [General] && rooms.entries == map[General := {}]
      ensures messages == map[General := []]
    {
      users := Empty();
      rooms := Empty<string, set<Id>>().Set(General, {});
      messages := map[General := []];
      typingUsers := Empty();
    }

    /**
     * `user_join`: stores an online record in `general` under the socket id
     * (replacing any earlier record of that socket, which keeps its place)
     * and adds the socket to `general`'s member set.
     */
    method OnUserJoin(id: Id, username: string, clock: Clock) returns (out: seq<Outbound>)
      requires Valid()
      modifies this
      ensures Valid() && KeepsHistory()
      ensures users == old(users).Set(id, User(id, username, true, General))
      ensures rooms.keys == old(rooms.keys)
      ensures rooms.entries == old(rooms.entries)[General := old(rooms.entries)[General] + {id}]
      ensures messages == old(messages) && typingUsers == old(typingUsers)
      ensures out == [
        Outbound(ToSocket(id), UserListEvent(OnlineUsers(users))),
        Outbound(ToSocket(id), RoomListEvent(RoomList(rooms))),
        Outbound(ToSocket(id), RoomMessagesEvent(messages[General])),
        Outbound(ToRoomExcept(General, id), UserJoinedEvent(username, username + " joined the chat", clock.iso))]
    {
      var rooms' := rooms.Set(General, rooms.entries[General] + {id});
      PlaceUser(users, rooms, rooms', User(id, username, true, General));
      users := users.Set(id, User(id, username, true, General));
      rooms := rooms';
      out := [
        Outbound(ToSocket(id), UserListEvent(OnlineUsers(users))),
        Outbound(ToSocket(id), RoomListEvent(RoomList(rooms))),
        Outbound(ToSocket(id), RoomMessagesEvent(messages[General])),
        Outbound(ToRoomExcept(General, id), UserJoinedEvent(username, username + " joined the chat", clock.iso))];
    }

    /**
     * `send_message`: from an unregistered socket nothing happens; otherwise
     * one `text` message is appended to the log of the sender's current room
     * and broadcast to that room, sender included.
     */
    method OnSendMessage(id: Id, text: string, clock: Clock) returns (out: seq<Outbound>)
      requires Valid()
      modifies this
      ensures Valid() && KeepsHistory()
      ensures users == old(users) && rooms == old(rooms) && typingUsers == old(typingUsers)
      ensures id !in old(users.entries) ==> messages == old(messages) && out == []
      ensures id in old(users.entries) ==>
        var user := old(users.entries[id]);
        var m := Message(clock.millis, user.username, id, text, user.currentRoom, clock.iso, TextType);
        && messages == old(messages)[user.currentRoom := old(messages)[user.currentRoom] + [m]]
        && out == [Outbound(ToRoom(user.currentRoom), ReceiveMessageEvent(m))]
    {
      if id !in users.entries {
        return [];
      }
      var user := users.entries[id];
      var m := Message(clock.millis, user.username, id, text, user.currentRoom, clock.iso, TextType);
      var log := if user.currentRoom in messages then messages[user.currentRoom] else [];
      messages := messages[user.currentRoom := log + [m]];
      out := [Outbound(ToRoom(user.currentRoom), ReceiveMessageEvent(m))];
    }

    /**
     * `typing_start`: records (or re-records, in place) the sender as typing
     * and sends the whole typing list, whatever rooms its users are in, to
     * the sender's room.
     */
    method OnTypingStart(id: Id) returns (out: seq<Outbound>)
      requires Valid()
      modifies this
      ensures Valid() && KeepsHistory()
      ensures users == old(users) && rooms == old(rooms) && messages == old(messages)
      ensures id !in old(users.entries) ==> typingUsers == old(typingUsers) && out == []
      ensures id in old(users.entries) ==>
        && typingUsers == old(typingUsers).Set(id, old(users.entries[id]).username)
        && out == [Outbound(ToRoom(old(users.entries[id]).currentRoom), TypingUsersEvent(typingUsers.Values()))]
    {
      if id !in users.entries {
        return [];
      }
      var user := users.entries[id];
      typingUsers := typingUsers.Set(id, user.username);
      out := [Outbound(ToRoom(user.currentRoom), TypingUsersEvent(typingUsers.Values()))];
    }

    /** `typing_stop`: drops the sender's typing entry and sends the remaining list to its room. */
    method OnTypingStop(id: Id) returns (out: seq<Outbound>)
      requires Valid()
      modifies this
      ensures Valid() && KeepsHistory()
      ensures users == old(users) && rooms == old(rooms) && messages == old(messages)
      ensures id !in old(users.entries) ==> typingUsers == old(typingUsers) && out == []
      ensures id in old(users.entries) ==>
        && typingUsers == old(typingUsers).Delete(id)
        && id !in typingUsers.entries
        && out == [Outbound(ToRoom(old(users.entries[id]).currentRoom), TypingUsersEvent(typingUsers.Values()))]
    {
      if id !in users.entries {
        return [];
      }
      var user := users.entries[id];
      typingUsers := typingUsers.Delete(id);
      out := [Outbound(ToRoom(user.currentRoom), TypingUsersEvent(typingUsers.Values()))];
    }

    /**
     * `join_room`: normalises the name (trim, then lower case), leaves the
     * current room when `LeavesCurrentRoom` says so, creates the target room
     * with an empty log if it is new, joins it and makes it the current room.
     * The sender's typing entry, if any, stays.
     */
    method OnJoinRoom(id: Id, roomName: string, clock: Clock) returns (out: seq<Outbound>)
      requires Valid()
      modifies this
      ensures Valid() && KeepsHistory()
      ensures typingUsers == old(typingUsers)
      ensures id !in old(users.entries) ==>
        users == old(users) && rooms == old(rooms) && messages == old(messages) && out == []
      ensures id in old(users.entries) ==>
        var user := old(users.entries[id]);
        var name := Normalize(roomName);
        && rooms == JoinedRooms(old(rooms), id, user.currentRoom, name)
        && messages == LogsWithRoom(old(messages), name)
        && users == old(users).Set(id, user.(currentRoom := name))
        && out ==
             (if LeavesCurrentRoom(user.currentRoom, name)
              then [Outbound(ToRoomExcept(user.currentRoom, id),
                      UserLeftRoomEvent(user.username, user.currentRoom, user.username + " left " + user.currentRoom, clock.iso))]
              else [])
             + [Outbound(ToSocket(id), RoomMessagesEvent(messages[name])),
                Outbound(ToRoomExcept(name, id),
                  UserJoinedRoomEvent(user.username, name, user.username + " joined " + name, clock.iso)),
                Outbound(ToAll, RoomListEvent(RoomList(rooms)))]
    {
      if id !in users.entries {
        return [];
      }
      var user := users.entries[id];
      var name := Normalize(roomName);
      out := [];
      if LeavesCurrentRoom(user.currentRoom, name) {
        out := [Outbound(ToRoomExcept(user.currentRoom, id),
                  UserLeftRoomEvent(user.username, user.currentRoom, user.username + " left " + user.currentRoom, clock.iso))];
      }
      MoveUser(id, name);
      out := out + [
        Outbound(ToSocket(id), RoomMessagesEvent(messages[name])),
        Outbound(ToRoomExcept(name, id), UserJoinedRoomEvent(user.username, name, user.username + " joined " + name, clock.iso)),
        Outbound(ToAll, RoomListEvent(RoomList(rooms)))];
    }

    /** The table updates of `join_room` for a registered socket, `name` already normalised. */
    method MoveUser(id: Id, name: string)
      requires Valid() && id in users.entries
      modifies this`users, this`rooms, this`messages
      ensures Valid() && KeepsHistory()
      ensures rooms == JoinedRooms(old(rooms), id, old(users.entries[id]).currentRoom, name)
      ensures messages == LogsWithRoom(old(messages), name)
      ensures users == old(users).Set(id, old(users.entries[id]).(currentRoom := name))
    {
      var user := users.entries[id];
      JoinRoomKeepsRoomOrder(rooms, id, user.currentRoom, name);
      MoveMember(id, user.currentRoom, name);
      users := users.Set(id, user.(currentRoom := name));
      JoinRoomKeepsConsistent(old(users), old(rooms), old(messages), typingUsers, id, name, users, rooms, messages);
    }

    /** The member and log tables' part of `MoveUser`. */
    method MoveMember(id: Id, current: string, name: string)
      requires rooms.Valid()
      modifies this`rooms, this`messages
      ensures rooms == JoinedRooms(old(rooms), id, current, name)
      ensures messages == LogsWithRoom(old(messages), name)
    {
      rooms := JoinedRooms(rooms, id, current, name);
      messages := LogsWithRoom(messages, name);
    }

    /**
     * `private_message`: delivered to the sender and to the first registered
     * user, online or not, whose username is `to`; dropped if the sender is
     * unregistered or no user has that name. Nothing is stored.
     */
    method OnPrivateMessage(id: Id, to: string, text: string, clock: Clock) returns (out: seq<Outbound>)
      requires Valid()
      ensures out == [] <==>
        id !in users.entries || forall k :: k in users.entries ==> users.entries[k].username != to
      ensures out != [] ==>
        exists p :: 0 <= p < |users.keys|
          && users.entries[users.keys[p]].username == to
          && (forall q :: 0 <= q < p ==> users.entries[users.keys[q]].username != to)
          && var recipient := users.entries[users.keys[p]];
             var pm := PrivateMessage(clock.millis, users.entries[id].username, to, text, clock.iso, PrivateType);
             out == [Outbound(ToSocket(id), PrivateMessageEvent(pm)),
                     Outbound(ToRoomExcept(recipient.id, id), PrivateMessageEvent(pm))]
    {
      var all := users.Values();
      ValuesComplete(users);
      var found := FirstNamed(all, to);
      if id !in users.entries || found.None? {
        return [];
      }
      var recipient := all[found.value];
      var pm := PrivateMessage(clock.millis, users.entries[id].username, recipient.username, text, clock.iso, PrivateType);
      out := [Outbound(ToSocket(id), PrivateMessageEvent(pm)),
              Outbound(ToRoomExcept(recipient.id, id), PrivateMessageEvent(pm))];
    }

    /**
     * `disconnect`: a registered socket's record is marked offline (it keeps
     * its room and its membership) and its typing entry is dropped; the new
     * online list goes to everyone. The record itself goes later, in `Expire`.
     */
    method OnDisconnect(id: Id) returns (out: seq<Outbound>)
      requires Valid()
      modifies this
      ensures Valid() && KeepsHistory()
      ensures rooms == old(rooms) && messages == old(messages)
      ensures id !in old(users.entries) ==> users == old(users) && typingUsers == old(typingUsers) && out == []
      ensures id in old(users.entries) ==>
        && users == old(users).Set(id, old(users.entries[id]).(online := false))
        && typingUsers == old(typingUsers).Delete(id)
        && out == [Outbound(ToAll, UserListEvent(OnlineUsers(users)))]
    {
      if id !in users.entries {
        return [];
      }
      var user := users.entries[id];
      users := users.Set(id, user.(online := false));
      typingUsers := typingUsers.Delete(id);
      DisconnectKeepsConsistent(old(users), rooms, messages, old(typingUsers), id, users, typingUsers);
      out := [Outbound(ToAll, UserListEvent(OnlineUsers(users)))];
    }

    /**
     * The delayed clean-up a disconnect schedules: if the socket has not
     * reconnected by then, its user record is deleted. Member sets, logs and
     * the typing table are left as they are.
     */
    method Expire(id: Id, socketConnected: bool)
      requires Valid()
      modifies this
      ensures Valid() && KeepsHistory()
      ensures rooms == old(rooms) && messages == old(messages) && typingUsers == old(typingUsers)
      ensures users == if socketConnected then old(users) else old(users).Delete(id)
    {
      if !socketConnected {
        users := users.Delete(id);
      }
    }

    /** `get_rooms`: the room list, to the requesting socket only. */
    method OnGetRooms(id: Id) returns (out: seq<Outbound>)
      requires Valid()
      ensures out == [Outbound(ToSocket(id), RoomListEvent(RoomList(rooms)))]
    {
      out := [Outbound(ToSocket(id), RoomListEvent(RoomList(rooms)))];
    }
  }
}

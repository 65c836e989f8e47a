/**
 * The server's tables as values: the views the handlers send
 * (`getOnlineUsers`, `getRoomList`), the consistency invariant every handler
 * keeps, and the room-switch update of `join_room` with its properties.
 */
module Tables {
  import opened Options
  import opened OrderedMaps
  import opened Strings
  import opened Protocol

  /** The room that exists from start-up and that every user joins first. */
  const General: string := "general"

  /** The online records of `s`, in the order of `s`. */
  function OnlineOf(s: seq<User>): (r: seq<User>)
    ensures |r| <= |s|
    ensures forall u :: u in r <==> u in s && u.online
    ensures forall u :: multiset(r)[u] == if u.online then multiset(s)[u] else 0
    ensures IsSubsequence(r, s)
  {
    assert s != [] ==> s == [s[0]] + s[1..];
    if s == [] then []
    else if s[0].online then [s[0]] + OnlineOf(s[1..])
    else OnlineOf(s[1..])
  }

  /** `getOnlineUsers`: the user records whose `online` flag is set, in registration order. */
  function OnlineUsers(users: OrderedMap<Id, User>): (r: seq<User>)
    requires users.Valid()
    ensures |r| <= |users.keys|
  {
    OnlineOf(users.Values())
  }

  /**
   * The user list names exactly the online records, each one stored under
   * some socket id, and keeps their registration order.
   */
  lemma OnlineUsersListsOnline(users: OrderedMap<Id, User>)
    requires users.Valid()
    ensures var r := OnlineUsers(users);
      && (forall id :: id in users.entries ==> (users.entries[id] in r <==> users.entries[id].online))
      && (forall u :: u in r ==> u.online && exists id :: id in users.entries && users.entries[id] == u)
      && IsSubsequence(r, users.Values())
  {
    ValuesComplete(users);
  }

  /** Once its record is marked offline, a socket's user is no longer listed, whatever else is stored. */
  lemma OfflineNotListed(users: OrderedMap<Id, User>, id: Id)
    requires users.Valid() && id in users.entries
    requires forall k :: k in users.entries ==> users.entries[k].id == k
    ensures forall u :: u in OnlineUsers(users.Set(id, users.entries[id].(online := false))) ==> u.id != id
  {
    var users' := users.Set(id, users.entries[id].(online := false));
    OnlineUsersListsOnline(users');
  }

  /** `getRoomList`: one entry per room, in creation order, with the size of its member set. */
  function RoomList(rooms: OrderedMap<string, set<Id>>): (r: seq<RoomInfo>)
    requires rooms.Valid()
    ensures |r| == |rooms.keys|
  {
    seq(|rooms.keys|, i requires 0 <= i < |rooms.keys| => RoomInfo(rooms.keys[i], |rooms.entries[rooms.keys[i]]|))
  }

  /**
   * The room list follows the creation order of the rooms, gives each the
   * size of its member set, and names every room exactly once.
   */
  lemma RoomListDescribesRooms(rooms: OrderedMap<string, set<Id>>)
    requires rooms.Valid()
    ensures var r := RoomList(rooms);
      && (forall i :: 0 <= i < |r| ==> r[i].name == rooms.keys[i])
      && (forall i :: 0 <= i < |r| ==> r[i].name in rooms.entries && r[i].userCount == |rooms.entries[r[i].name]|)
      && (forall name :: name in rooms.entries ==> exists i :: 0 <= i < |r| && r[i].name == name)
      && (forall i, j :: 0 <= i < j < |r| ==> r[i].name != r[j].name)
  {
    DistinctPairwise(rooms.keys);
  }

  /** The position of the first record of `s` named `name`: `find(u => u.username === name)`. */
  function FirstNamed(s: seq<User>, name: string): (r: Option<nat>)
    ensures r.Some? ==> r.value < |s| && s[r.value].username == name
    ensures r.Some? ==> forall j :: 0 <= j < r.value ==> s[j].username != name
    ensures r.None? ==> forall j :: 0 <= j < |s| ==> s[j].username != name
  {
    if s == [] then None
    else if s[0].username == name then Some(0)
    else match FirstNamed(s[1..], name)
      case None => None
      case Some(i) => Some(i + 1)
  }

  /**
   * Whether a room switch leaves the current room `current`: only when that
   * name is non-empty (the guard is JavaScript truthiness) and differs from
   * the normalised target `name`.
   */
  predicate LeavesCurrentRoom(current: string, name: string): (b: bool)
    ensures current == "" ==> !b
    ensures current == name ==> !b
  {
    current != "" && current != name
  }

  /** `rooms.get(room)?.delete(id)`: drops a member, if the room exists. */
  function WithoutMember(rooms: OrderedMap<string, set<Id>>, room: string, id: Id): (r: OrderedMap<string, set<Id>>)
    requires rooms.Valid()
    ensures r.Valid() && r.keys == rooms.keys && r.entries.Keys == rooms.entries.Keys
    ensures forall x :: x in rooms.entries ==>
      r.entries[x] == if x == room then rooms.entries[x] - {id} else rooms.entries[x]
  {
    if room in rooms.entries then rooms.Set(room, rooms.entries[room] - {id}) else rooms
  }

  /** The room `name`, created with no members if it does not exist yet. */
  function WithRoom(rooms: OrderedMap<string, set<Id>>, name: string): (r: OrderedMap<string, set<Id>>)
    requires rooms.Valid()
    ensures r.Valid() && name in r.entries
    ensures r.keys == if name in rooms.entries then rooms.keys else rooms.keys + [name]
    ensures r.entries == if name in rooms.entries then rooms.entries else rooms.entries[name := {}]
  {
    if name in rooms.entries then rooms else rooms.Set(name, {})
  }

  /**
   * The member table after socket `id`, whose record names room `current`,
   * switches to the normalised room `name`: it leaves `current` when
   * `LeavesCurrentRoom` says so, `name` is created if needed, and `id` joins it.
   */
  function JoinedRooms(rooms: OrderedMap<string, set<Id>>, id: Id, current: string, name: string): (r: OrderedMap<string, set<Id>>)
    requires rooms.Valid()
    ensures r.Valid() && name in r.entries && id in r.entries[name]
  {
    var left := if LeavesCurrentRoom(current, name) then WithoutMember(rooms, current, id) else rooms;
    var created := WithRoom(left, name);
    created.Set(name, created.entries[name] + {id})
  }

  /**
   * A room switch never deletes a room and only appends the target when it
   * is new; the target gains `id`, the room left loses it, and every other
   * member set stays as it was.
   */
  lemma JoinedRoomsTables(rooms: OrderedMap<string, set<Id>>, id: Id, current: string, name: string)
    requires rooms.Valid()
    ensures var r := JoinedRooms(rooms, id, current, name);
      && r.keys == (if name in rooms.entries then rooms.keys else rooms.keys + [name])
      && r.entries.Keys == rooms.entries.Keys + {name}
      && r.entries[name] == (if name in rooms.entries then rooms.entries[name] else {}) + {id}
      && forall x :: x in rooms.entries && x != name ==>
           r.entries[x] == if LeavesCurrentRoom(current, name) && x == current
                           then rooms.entries[x] - {id}
                           else rooms.entries[x]
  {
    var left := if LeavesCurrentRoom(current, name) then WithoutMember(rooms, current, id) else rooms;
    assert left.keys == rooms.keys && left.entries.Keys == rooms.entries.Keys;
    assert name in left.entries <==> name in rooms.entries;
  }

  /** A switch adds `name` to the rooms and takes nobody but `id` out of any room. */
  lemma JoinedRoomsTakesOnlyId(rooms: OrderedMap<string, set<Id>>, id: Id, current: string, name: string)
    requires rooms.Valid()
    ensures var r := JoinedRooms(rooms, id, current, name);
      && r.entries.Keys == rooms.entries.Keys + {name}
      && forall x :: x in rooms.entries ==> rooms.entries[x] - {id} <= r.entries[x]
  {
    JoinedRoomsTables(rooms, id, current, name);
  }

  /** Switching to the room the user is already in, and a member of, changes nothing. */
  lemma RejoinKeepsRooms(rooms: OrderedMap<string, set<Id>>, id: Id, name: string)
    requires rooms.Valid() && name in rooms.entries && id in rooms.entries[name]
    ensures JoinedRooms(rooms, id, name, name) == rooms
    ensures RoomList(JoinedRooms(rooms, id, name, name)) == RoomList(rooms)
  {
    assert rooms.entries[name] + {id} == rooms.entries[name];
    assert rooms.entries[name := rooms.entries[name]] == rooms.entries;
  }

  /**
   * If `id` was a member of `current` only, then after the switch it is a
   * member of `name` only, provided it really left: `current` is non-empty
   * or the target is the empty name as well.
   */
  lemma {:induction false} JoinedRoomsExclusive(rooms: OrderedMap<string, set<Id>>, id: Id, current: string, name: string)
    requires rooms.Valid()
    requires forall x :: x in rooms.entries && id in rooms.entries[x] ==> x == current
    requires current != "" || name == ""
    ensures var r := JoinedRooms(rooms, id, current, name);
      forall x :: x in r.entries && id in r.entries[x] ==> x == name
  {
    JoinedRoomsTables(rooms, id, current, name);
  }

  /**
   * A switch that leaves the current room can leave `id` a member of a third
   * room only if it already was one there: the empty current room is never left.
   */
  lemma EmptyCurrentRoomIsNotLeft(rooms: OrderedMap<string, set<Id>>, id: Id, name: string)
    requires rooms.Valid() && "" in rooms.entries && id in rooms.entries[""] && name != ""
    ensures var r := JoinedRooms(rooms, id, "", name);
      id in r.entries[""] && id in r.entries[name]
  {
    JoinedRoomsTables(rooms, id, "", name);
  }

  /** Every registered socket is a member of the existing room its record names. */
  ghost predicate MembersConsistent(users: OrderedMap<Id, User>, rooms: OrderedMap<string, set<Id>>) {
    forall id :: id in users.entries ==>
      && users.entries[id].id == id
      && users.entries[id].currentRoom in rooms.entries
      && id in rooms.entries[users.entries[id].currentRoom]
  }

  /** Placing a record in a room it is a member of keeps the tables consistent, if no other member left. */
  lemma PlaceUser(users: OrderedMap<Id, User>, rooms: OrderedMap<string, set<Id>>,
                  rooms': OrderedMap<string, set<Id>>, user: User)
    requires users.Valid() && rooms.Valid() && rooms'.Valid()
    requires MembersConsistent(users, rooms)
    requires user.currentRoom in rooms'.entries && user.id in rooms'.entries[user.currentRoom]
    requires forall r :: r in rooms.entries ==>
               r in rooms'.entries && rooms.entries[r] - {user.id} <= rooms'.entries[r]
    ensures MembersConsistent(users.Set(user.id, user), rooms')
  {
    var users' := users.Set(user.id, user);
    forall id | id in users'.entries
      ensures users'.entries[id].id == id
      ensures users'.entries[id].currentRoom in rooms'.entries
      ensures id in rooms'.entries[users'.entries[id].currentRoom]
    {
      if id != user.id {
        assert users'.entries[id] == users.entries[id];
        var r := users.entries[id].currentRoom;
        assert id in rooms.entries[r] - {user.id};
      }
    }
  }

  /**
   * What every handler keeps: the three ordered tables are well formed,
   * `general` exists, every room has a log and every log a room, and every
   * registered socket is a member of the room its record names.
   */
  ghost predicate Consistent(users: OrderedMap<Id, User>, rooms: OrderedMap<string, set<Id>>,
                             messages: map<string, seq<Message>>, typingUsers: OrderedMap<Id, string>) {
    && users.Valid() && rooms.Valid() && typingUsers.Valid()
    && General in rooms.entries
    && rooms.entries.Keys == messages.Keys
    && MembersConsistent(users, rooms)
  }

  /** The log table after `join_room` has made sure the room `name` exists. */
  function LogsWithRoom(messages: map<string, seq<Message>>, name: string): (r: map<string, seq<Message>>)
    ensures name in r && r.Keys == messages.Keys + {name}
    ensures forall x :: x in messages ==> r[x] == messages[x]
    ensures name !in messages ==> r[name] == []
  {
    if name in messages then messages else messages[name := []]
  }

  /**
   * A room switch keeps the tables consistent: the handler's new record,
   * member table and log table, together with the unchanged typing table.
   */
  lemma JoinRoomKeepsConsistent(users: OrderedMap<Id, User>, rooms: OrderedMap<string, set<Id>>,
                                messages: map<string, seq<Message>>, typingUsers: OrderedMap<Id, string>,
                                id: Id, name: string,
                                users': OrderedMap<Id, User>, rooms': OrderedMap<string, set<Id>>,
                                messages': map<string, seq<Message>>)
    requires Consistent(users, rooms, messages, typingUsers) && id in users.entries
    requires users' == users.Set(id, users.entries[id].(currentRoom := name))
    requires rooms' == JoinedRooms(rooms, id, users.entries[id].currentRoom, name)
    requires messages' == LogsWithRoom(messages, name)
    ensures Consistent(users', rooms', messages', typingUsers)
  {
    var user := users.entries[id];
    JoinedRoomsTakesOnlyId(rooms, id, user.currentRoom, name);
    PlaceUser(users, rooms, rooms', user.(currentRoom := name));
  }

  /** Marking a record offline and dropping its typing entry keeps the tables consistent. */
  lemma DisconnectKeepsConsistent(users: OrderedMap<Id, User>, rooms: OrderedMap<string, set<Id>>,
                                  messages: map<string, seq<Message>>, typingUsers: OrderedMap<Id, string>,
                                  id: Id, users': OrderedMap<Id, User>, typingUsers': OrderedMap<Id, string>)
    requires Consistent(users, rooms, messages, typingUsers) && id in users.entries
    requires users' == users.Set(id, users.entries[id].(online := false))
    requires typingUsers' == typingUsers.Delete(id)
    ensures Consistent(users', rooms, messages, typingUsers')
  {
    PlaceUser(users, rooms, rooms, users.entries[id].(online := false));
  }

  /** A room switch never removes or reorders rooms. */
  lemma JoinRoomKeepsRoomOrder(rooms: OrderedMap<string, set<Id>>, id: Id, current: string, name: string)
    requires rooms.Valid()
    ensures rooms.keys <= JoinedRooms(rooms, id, current, name).keys
  {
    JoinedRoomsTables(rooms, id, current, name);
  }

}

/**
 * The client's state holder, the `useSocket` hook. Every action and every
 * socket listener of the hook is a function from the state before to the
 * state after (and, for actions, the events it emits to the server). React's
 * setter calls `setX(prev => f(prev))` become field updates of `ClientState`.
 * The socket id the hook reads (`socket.id`) and the wall clock
 * (`Date.now()`, `new Date().toISOString()`) are parameters.
 */
module Client {
  import opened Options
  import opened Strings
  import opened Protocol

  /** The name a `connect` recorded and the socket id read at that moment. */
  datatype CurrentUser = CurrentUser(username: string, id: Id)

  /** An entry of the message list: a room message or a private message. */
  datatype ChatItem = RoomItem(message: Message) | PrivateItem(privateMessage: PrivateMessage)

  /** The `type` of a notification. */
  datatype NoticeKind = NewMessageNotice | PrivateMessageNotice | UserJoinedNotice | UserLeftNotice | RoomUpdateNotice

  /** What a listener passes to `addNotification`: its type, title, text and, for room messages, the room. */
  datatype Notice = Notice(kind: NoticeKind, title: string, text: string, room: Option<string>)

  /** A stored notification: the notice, stamped with an id and a time, and its read flag. */
  datatype Notification = Notification(id: int, notice: Notice, timestamp: string, read: bool)

  /** The events the hook emits to the server. */
  datatype Emit =
    | UserJoinEmit(username: string)
    | SendMessageEmit(text: string)
    | PrivateMessageEmit(to: string, text: string)
    | TypingStartEmit
    | TypingStopEmit
    | JoinRoomEmit(roomName: string)
    | GetRoomsEmit

  /** The hook's state; `typingTimerSet` says whether `typingTimeoutRef` holds a timer. */
  datatype ClientState = ClientState(
    connected: bool,
    authenticated: bool,
    currentUser: Option<CurrentUser>,
    messages: seq<ChatItem>,
    users: seq<User>,
    typingUsers: seq<string>,
    rooms: seq<RoomInfo>,
    currentRoom: string,
    notifications: seq<Notification>,
    unreadCount: nat,
    typingTimerSet: bool)

  /** An action's outcome: the new state and what it emitted, in order. */
  datatype Step = Step(state: ClientState, emitted: seq<Emit>)

  /** A send action's outcome: its return value and what it emitted. */
  datatype Sent = Sent(accepted: bool, emitted: seq<Emit>)

  /** The most notifications the list keeps. */
  const MaxNotifications: nat := 10

  /** The smaller of two counts. */
  function Min(a: nat, b: nat): (m: nat)
    ensures m <= a && m <= b && (m == a || m == b)
  {
    if a <= b then a else b
  }

  /** The hook's initial state; `connected` is whatever `socket.connected` reads at start-up. */
  function Initial(connected: bool): (s: ClientState)
    ensures s.connected == connected && !s.authenticated && s.currentUser.None?
    ensures s.currentRoom == "general" && s.unreadCount == 0 && !s.typingTimerSet
    ensures s.messages == [] && s.users == [] && s.typingUsers == [] && s.rooms == [] && s.notifications == []
  {
    ClientState(connected, false, None, [], [], [], [], "general", [], 0, false)
  }

  // ----- notifications -----

  /**
   * `addNotification`: the new notification, unread, goes first and at most
   * the nine newest older ones follow it; the unread counter goes up by one,
   * with no cap.
   */
  function AddNotification(s: ClientState, notice: Notice, clock: Clock): (r: ClientState)
    ensures |r.notifications| == Min(MaxNotifications, |s.notifications| + 1)
    ensures r.notifications[0] == Notification(clock.millis, notice, clock.iso, false)
    ensures forall i :: 1 <= i < |r.notifications| ==> r.notifications[i] == s.notifications[i - 1]
    ensures r.unreadCount == s.unreadCount + 1
    ensures r == s.(notifications := r.notifications, unreadCount := r.unreadCount)
  {
    var kept := if |s.notifications| <= 9 then s.notifications else s.notifications[..9];
    s.(notifications := [Notification(clock.millis, notice, clock.iso, false)] + kept,
       unreadCount := s.unreadCount + 1)
  }

  /** `markNotificationsAsRead`: every notification is kept in place, marked read, and the counter is reset. */
  function MarkNotificationsAsRead(s: ClientState): (r: ClientState)
    ensures |r.notifications| == |s.notifications|
    ensures forall i :: 0 <= i < |r.notifications| ==> r.notifications[i] == s.notifications[i].(read := true)
    ensures r.unreadCount == 0
    ensures r == s.(notifications := r.notifications, unreadCount := 0)
  {
    s.(notifications := seq(|s.notifications|, i requires 0 <= i < |s.notifications| => s.notifications[i].(read := true)),
       unreadCount := 0)
  }

  /** Adding notices one after the other, all stamped by the same clock reading. */
  function AddAll(s: ClientState, notices: seq<Notice>, clock: Clock): (r: ClientState)
    decreases |notices|
  {
    if notices == [] then s
    else AddNotification(AddAll(s, notices[..|notices| - 1], clock), notices[|notices| - 1], clock)
  }

  /**
   * After `k` notifications the counter has gone up by exactly `k`, the list
   * holds the newest ten of old and new together, and only the notification
   * list and the counter have changed.
   */
  lemma {:induction false} AddAllCounts(s: ClientState, notices: seq<Notice>, clock: Clock)
    requires |s.notifications| <= MaxNotifications
    ensures var r := AddAll(s, notices, clock);
      && r.unreadCount == s.unreadCount + |notices|
      && |r.notifications| == Min(MaxNotifications, |s.notifications| + |notices|)
      && r == s.(notifications := r.notifications, unreadCount := r.unreadCount)
    decreases |notices|
  {
    if notices != [] {
      AddAllCounts(s, notices[..|notices| - 1], clock);
    }
  }

  /** The list shows the notices added last first: the newest (up to ten) lead it, newest first. */
  lemma {:induction false} AddAllNewestFirst(s: ClientState, notices: seq<Notice>, clock: Clock)
    ensures var r := AddAll(s, notices, clock);
      && |r.notifications| >= Min(MaxNotifications, |notices|)
      && forall i :: 0 <= i < Min(MaxNotifications, |notices|) ==> r.notifications[i].notice == notices[|notices| - 1 - i]
    decreases |notices|
  {
    if notices != [] {
      var front := notices[..|notices| - 1];
      AddAllNewestFirst(s, front, clock);
      var p := AddAll(s, front, clock);
      var r := AddNotification(p, notices[|notices| - 1], clock);
      forall i | 1 <= i < Min(MaxNotifications, |notices|)
        ensures r.notifications[i].notice == notices[|notices| - 1 - i]
      {
        assert r.notifications[i] == p.notifications[i - 1];
        assert front[|front| - 1 - (i - 1)] == notices[|notices| - 1 - i];
      }
    }
  }

  /**
   * The counter is not capped where the list is: eleven notifications on a
   * fresh client leave ten in the list and an unread count of eleven.
   */
  lemma UnreadCountOutgrowsList(connected: bool, notice: Notice, clock: Clock)
    ensures var r := AddAll(Initial(connected), seq(11, _ => notice), clock);
      |r.notifications| == MaxNotifications && r.unreadCount == 11
  {
    AddAllCounts(Initial(connected), seq(11, _ => notice), clock);
  }

  /** Marking as read twice is marking once. */
  lemma MarkIdempotent(s: ClientState)
    ensures MarkNotificationsAsRead(MarkNotificationsAsRead(s)) == MarkNotificationsAsRead(s)
  {
    var once := MarkNotificationsAsRead(s);
    var twice := MarkNotificationsAsRead(once);
    assert twice.notifications == once.notifications;
  }

  /** The number of notifications not yet read. */
  function CountUnread(ns: seq<Notification>): (n: nat)
    ensures n <= |ns|
  {
    if ns == [] then 0 else (if ns[0].read then 0 else 1) + CountUnread(ns[1..])
  }

  /** A prefix holds no more unread notifications than the whole list. */
  lemma {:induction false} CountUnreadPrefix(ns: seq<Notification>, k: nat)
    requires k <= |ns|
    ensures CountUnread(ns[..k]) <= CountUnread(ns)
  {
    if k > 0 {
      assert ns[..k][1..] == ns[1..][..k - 1];
      CountUnreadPrefix(ns[1..], k - 1);
    }
  }

  /** The counter is at least the number of unread notifications in the list. */
  ghost predicate CounterCoversUnread(s: ClientState) {
    CountUnread(s.notifications) <= s.unreadCount
  }

  /** `addNotification` keeps the counter at or above the unread notifications it lists. */
  lemma AddNotificationCoversUnread(s: ClientState, notice: Notice, clock: Clock)
    requires CounterCoversUnread(s)
    ensures CounterCoversUnread(AddNotification(s, notice, clock))
  {
    var r := AddNotification(s, notice, clock);
    var kept := if |s.notifications| <= 9 then s.notifications else s.notifications[..9];
    assert r.notifications[1..] == kept;
    if |s.notifications| > 9 {
      CountUnreadPrefix(s.notifications, 9);
    }
  }

  /** After `markNotificationsAsRead` no notification is unread and the counter is zero. */
  lemma {:induction false} MarkLeavesNothingUnread(s: ClientState)
    ensures var r := MarkNotificationsAsRead(s);
      CountUnread(r.notifications) == 0 && r.unreadCount == 0
  {
    var ns := MarkNotificationsAsRead(s).notifications;
    AllReadCountsZero(ns);
  }

  lemma {:induction false} AllReadCountsZero(ns: seq<Notification>)
    requires forall i :: 0 <= i < |ns| ==> ns[i].read
    ensures CountUnread(ns) == 0
  {
    if ns != [] {
      AllReadCountsZero(ns[1..]);
    }
  }

  // ----- actions -----

  /** `connect`: emits `user_join` and records the user (with the socket id of the moment) as authenticated. */
  function Connect(s: ClientState, username: string, socketId: Id): (r: Step)
    ensures r.emitted == [UserJoinEmit(username)]
    ensures r.state.authenticated && r.state.currentUser == Some(CurrentUser(username, socketId))
    ensures r.state == s.(authenticated := true, currentUser := r.state.currentUser)
  {
    Step(s.(authenticated := true, currentUser := Some(CurrentUser(username, socketId))), [UserJoinEmit(username)])
  }

  /**
   * `disconnect`: the client forgets who it is, its messages and its user
   * list; the room list, the current room, the typing list and the
   * notifications stay as they were. Closing the socket emits nothing.
   */
  function Disconnect(s: ClientState): (r: ClientState)
    ensures !r.authenticated && r.currentUser.None? && r.messages == [] && r.users == []
    ensures r.rooms == s.rooms && r.currentRoom == s.currentRoom
    ensures r.notifications == s.notifications && r.unreadCount == s.unreadCount
    ensures r == s.(authenticated := false, currentUser := None, messages := [], users := [])
  {
    s.(authenticated := false, currentUser := None, messages := [], users := [])
  }

  /** What `disconnect` clears does not depend on an earlier `connect`. */
  lemma DisconnectUndoesConnect(s: ClientState, username: string, socketId: Id)
    ensures Disconnect(Connect(s, username, socketId).state) == Disconnect(s)
  {
  }

  /**
   * `sendMessage`: accepted, and `send_message` emitted with the text as
   * typed, exactly when the client is authenticated and the text has a
   * character that `trim` keeps.
   */
  function SendMessage(s: ClientState, text: string): (r: Sent)
    ensures r.accepted <==> s.authenticated && exists i :: 0 <= i < |text| && !IsWhitespace(text[i])
    ensures r.emitted == if r.accepted then [SendMessageEmit(text)] else []
  {
    TrimEmptyIff(text);
    if Trim(text) != [] && s.authenticated then Sent(true, [SendMessageEmit(text)]) else Sent(false, [])
  }

  /** `sendPrivateMessage`: the same guard as `sendMessage`; the recipient's name is not checked. */
  function SendPrivateMessage(s: ClientState, to: string, text: string): (r: Sent)
    ensures r.accepted <==> s.authenticated && exists i :: 0 <= i < |text| && !IsWhitespace(text[i])
    ensures r.emitted == if r.accepted then [PrivateMessageEmit(to, text)] else []
  {
    TrimEmptyIff(text);
    if Trim(text) != [] && s.authenticated then Sent(true, [PrivateMessageEmit(to, text)]) else Sent(false, [])
  }

  /** A disconnected client sends nothing, whatever the text. */
  lemma DisconnectedSendsNothing(s: ClientState, to: string, text: string)
    ensures SendMessage(Disconnect(s), text) == Sent(false, [])
    ensures SendPrivateMessage(Disconnect(s), to, text) == Sent(false, [])
  {
  }

  /** Both send guards accept and refuse the same texts. */
  lemma SendGuardsAgree(s: ClientState, to: string, text: string)
    ensures SendMessage(s, text).accepted == SendPrivateMessage(s, to, text).accepted
  {
  }

  /** `startTyping`: when authenticated, emits `typing_start` and (re)arms the 3-second timer. */
  function StartTyping(s: ClientState): (r: Step)
    ensures s.authenticated ==> r.emitted == [TypingStartEmit] && r.state == s.(typingTimerSet := true)
    ensures !s.authenticated ==> r == Step(s, [])
  {
    if s.authenticated then Step(s.(typingTimerSet := true), [TypingStartEmit]) else Step(s, [])
  }

  /** `stopTyping`, also what the timer runs when it fires: when authenticated, emits `typing_stop` and clears the timer. */
  function StopTyping(s: ClientState): (r: Step)
    ensures s.authenticated ==> r.emitted == [TypingStopEmit] && r.state == s.(typingTimerSet := false)
    ensures !s.authenticated ==> r == Step(s, [])
  {
    if s.authenticated then Step(s.(typingTimerSet := false), [TypingStopEmit]) else Step(s, [])
  }

  /**
   * `joinRoom`: when authenticated, emits `join_room` with the name as
   * given, shows that name as the current room, empties the message list
   * and resets the unread counter (the notifications keep their read flags).
   * Otherwise nothing happens.
   */
  function JoinRoom(s: ClientState, roomName: string): (r: Step)
    ensures s.authenticated ==>
      && r.emitted == [JoinRoomEmit(roomName)]
      && r.state.currentRoom == roomName && r.state.messages == [] && r.state.unreadCount == 0
      && r.state.notifications == s.notifications
      && r.state == s.(currentRoom := roomName, messages := [], unreadCount := 0)
    ensures !s.authenticated ==> r == Step(s, [])
  {
    if s.authenticated then Step(s.(currentRoom := roomName, messages := [], unreadCount := 0), [JoinRoomEmit(roomName)])
    else Step(s, [])
  }

  /**
   * Switching rooms resets the counter without reading the notifications:
   * one unread notification, then `joinRoom`, and the counter is below the
   * number of unread notifications.
   */
  lemma JoinRoomHidesUnread(s: ClientState, roomName: string, notice: Notice, clock: Clock)
    requires s.authenticated
    ensures var r := JoinRoom(AddNotification(s, notice, clock), roomName).state;
      r.unreadCount == 0 && CountUnread(r.notifications) >= 1 && !CounterCoversUnread(r)
  {
    var r := JoinRoom(AddNotification(s, notice, clock), roomName).state;
    assert !r.notifications[0].read;
  }

  /** `getRooms`: emits `get_rooms`, authenticated or not. */
  function GetRooms(s: ClientState): (r: Step)
    ensures r.state == s && r.emitted == [GetRoomsEmit]
  {
    Step(s, [GetRoomsEmit])
  }

  // ----- listeners -----

  /** Whether `receive_message` raises a notification: sent by another socket, to another room than the one shown. */
  predicate NotifiesOf(s: ClientState, m: Message, socketId: Id): (b: bool)
    ensures m.senderId == socketId ==> !b
    ensures m.room == s.currentRoom ==> !b
  {
    m.senderId != socketId && m.room != s.currentRoom
  }

  /**
   * `receive_message`: the message is appended, whatever its room; a
   * notification is added exactly when `NotifiesOf` holds.
   */
  function OnReceiveMessage(s: ClientState, m: Message, socketId: Id, clock: Clock): (r: ClientState)
    ensures r.messages == s.messages + [RoomItem(m)]
    ensures NotifiesOf(s, m, socketId) ==>
      && r.unreadCount == s.unreadCount + 1
      && r.notifications != []
      && r.notifications[0] == Notification(clock.millis, Notice(NewMessageNotice, "New message from " + m.sender, m.text, Some(m.room)), clock.iso, false)
      && r.notifications[1..] == s.notifications[..Min(MaxNotifications - 1, |s.notifications|)]
    ensures !NotifiesOf(s, m, socketId) ==> r.notifications == s.notifications && r.unreadCount == s.unreadCount
    ensures r == s.(messages := r.messages, notifications := r.notifications, unreadCount := r.unreadCount)
  {
    var s' := s.(messages := s.messages + [RoomItem(m)]);
    if NotifiesOf(s, m, socketId) then
      AddNotification(s', Notice(NewMessageNotice, "New message from " + m.sender, m.text, Some(m.room)), clock)
    else
      s'
  }

  /**
   * `private_message`: the message is appended; a notification is added
   * unless it is from the user's own name. With no current user every
   * private message notifies.
   */
  function OnPrivateMessage(s: ClientState, pm: PrivateMessage, clock: Clock): (r: ClientState)
    ensures r.messages == s.messages + [PrivateItem(pm)]
    ensures (s.currentUser.Some? && pm.fromName == s.currentUser.value.username) <==> r.unreadCount == s.unreadCount
    ensures r.unreadCount != s.unreadCount ==>
      && r.unreadCount == s.unreadCount + 1
      && r.notifications != []
      && r.notifications[0] == Notification(clock.millis, Notice(PrivateMessageNotice, "Private message from " + pm.fromName, pm.text, None), clock.iso, false)
      && r.notifications[1..] == s.notifications[..Min(MaxNotifications - 1, |s.notifications|)]
    ensures r.unreadCount == s.unreadCount ==> r.notifications == s.notifications
    ensures r == s.(messages := r.messages, notifications := r.notifications, unreadCount := r.unreadCount)
  {
    var s' := s.(messages := s.messages + [PrivateItem(pm)]);
    if s.currentUser.None? || pm.fromName != s.currentUser.value.username then
      AddNotification(s', Notice(PrivateMessageNotice, "Private message from " + pm.fromName, pm.text, None), clock)
    else
      s'
  }

  /** `room_messages`: the message list becomes the room's log, replacing what was shown. */
  function OnRoomMessages(s: ClientState, log: seq<Message>): (r: ClientState)
    ensures |r.messages| == |log|
    ensures forall i :: 0 <= i < |log| ==> r.messages[i] == RoomItem(log[i])
    ensures r == s.(messages := r.messages)
  {
    s.(messages := seq(|log|, i requires 0 <= i < |log| => RoomItem(log[i])))
  }

  /** `user_left`: a "User Left" notification. No server event of this chat is called `user_left`. */
  function OnUserLeft(s: ClientState, text: string, clock: Clock): (r: ClientState)
    ensures r.unreadCount == s.unreadCount + 1
    ensures r.notifications != [] && r.notifications[0] == Notification(clock.millis, Notice(UserLeftNotice, "User Left", text, None), clock.iso, false)
    ensures r.notifications[1..] == s.notifications[..Min(MaxNotifications - 1, |s.notifications|)]
    ensures r == s.(notifications := r.notifications, unreadCount := r.unreadCount)
  {
    AddNotification(s, Notice(UserLeftNotice, "User Left", text, None), clock)
  }

  /** The socket's `connect` and `disconnect` events: only the connection flag changes. */
  function OnSocketStatus(s: ClientState, connected: bool): (r: ClientState)
    ensures r.connected == connected && r == s.(connected := connected)
  {
    s.(connected := connected)
  }

  /**
   * The client's reaction to each event the server sends. The server's
   * `user_left_room` has no listener (the hook listens to `user_left`), so
   * it changes nothing.
   */
  function OnServerEvent(s: ClientState, e: Event, socketId: Id, clock: Clock): (r: ClientState)
    ensures r.unreadCount >= s.unreadCount
    ensures r.authenticated == s.authenticated && r.currentUser == s.currentUser
    ensures r.currentRoom == s.currentRoom && r.connected == s.connected
    ensures |r.notifications| <= MaxNotifications || r.notifications == s.notifications
    ensures e.UserLeftRoomEvent? ==> r == s
  {
    match e
    case UserListEvent(users) => s.(users := users)
    case RoomListEvent(rooms) => s.(rooms := rooms)
    case RoomMessagesEvent(log) => OnRoomMessages(s, log)
    case UserJoinedEvent(_, notice, _) => AddNotification(s, Notice(UserJoinedNotice, "User Joined", notice, None), clock)
    case ReceiveMessageEvent(m) => OnReceiveMessage(s, m, socketId, clock)
    case TypingUsersEvent(names) => s.(typingUsers := names)
    case UserLeftRoomEvent(_, _, _, _) => s
    case UserJoinedRoomEvent(_, _, notice, _) =>
      AddNotification(s, Notice(RoomUpdateNotice, "Room Update", notice, None), clock)
    case PrivateMessageEvent(pm) => OnPrivateMessage(s, pm, clock)
  }

  /** Server events only ever add to the unread counter and keep it at or above the unread notifications. */
  lemma ServerEventCoversUnread(s: ClientState, e: Event, socketId: Id, clock: Clock)
    requires CounterCoversUnread(s)
    ensures CounterCoversUnread(OnServerEvent(s, e, socketId, clock))
  {
    match e
    case UserJoinedEvent(_, notice, _) =>
      AddNotificationCoversUnread(s, Notice(UserJoinedNotice, "User Joined", notice, None), clock);
    case UserJoinedRoomEvent(_, _, notice, _) =>
      AddNotificationCoversUnread(s, Notice(RoomUpdateNotice, "Room Update", notice, None), clock);
    case ReceiveMessageEvent(m) =>
      var s' := s.(messages := s.messages + [RoomItem(m)]);
      if NotifiesOf(s, m, socketId) {
        AddNotificationCoversUnread(s', Notice(NewMessageNotice, "New message from " + m.sender, m.text, Some(m.room)), clock);
      }
    case PrivateMessageEvent(pm) =>
      var s' := s.(messages := s.messages + [PrivateItem(pm)]);
      if s.currentUser.None? || pm.fromName != s.currentUser.value.username {
        AddNotificationCoversUnread(s', Notice(PrivateMessageNotice, "Private message from " + pm.fromName, pm.text, None), clock);
      }
    case _ =>
  }

  // ----- the client and the server together -----

  /**
   * The server files a client under the normalised name of the room it
   * joined, while the client shows the name as given. A message another
   * socket sends to that room notifies exactly when normalising changed the
   * name.
   */
  lemma JoinedRoomNotifiesIffRenamed(s: ClientState, roomName: string, m: Message, socketId: Id)
    requires s.authenticated && m.room == Normalize(roomName) && m.senderId != socketId
    ensures NotifiesOf(JoinRoom(s, roomName).state, m, socketId) <==> Normalize(roomName) != roomName
  {
  }

  /**
   * The client shows the room name as typed while the server normalises it:
   * after `joinRoom("Tech")` the server files the client under `tech`, and a
   * message another socket sends there raises a notification for the room
   * the client is in.
   */
  lemma MixedCaseRoomNotifies(s: ClientState, m: Message, socketId: Id)
    requires s.authenticated && m.room == Normalize("Tech") && m.senderId != socketId
    ensures Normalize("Tech") == "tech"
    ensures NotifiesOf(JoinRoom(s, "Tech").state, m, socketId)
  {
    assert !IsWhitespace('T') && !IsWhitespace('h');
    TrimUnpadded("Tech");
    assert ToLower("Tech")[0] == 't';
  }
}

/**
 * The records the server keeps and the events it sends to its clients.
 * Wall-clock values (`Date.now()` used as a message id, ISO timestamps) are
 * not computed here: each handler that stamps something receives a `Clock`.
 */
module Protocol {

  /** A socket id; the server keys every per-connection table by it. */
  type Id = string

  /** The readings `Date.now()` and `new Date().toISOString()` give a handler. */
  datatype Clock = Clock(millis: int, iso: string)

  /** The per-connection user record. */
  datatype User = User(id: Id, username: string, online: bool, currentRoom: string)

  /** The `type` tag a message carries. */
  datatype MessageType = TextType | PrivateType

  /** A room message, as stored in a room log and broadcast by `receive_message`. */
  datatype Message = Message(
    id: int,
    sender: string,
    senderId: Id,
    text: string,
    room: string,
    timestamp: string,
    kind: MessageType)

  /** A direct message; it is delivered, never stored. */
  datatype PrivateMessage = PrivateMessage(
    id: int,
    fromName: string,
    toName: string,
    text: string,
    timestamp: string,
    kind: MessageType)

  /** One entry of the room list: a room and the size of its member set. */
  datatype RoomInfo = RoomInfo(name: string, userCount: nat)

  /**
   * Who receives an emitted event: one socket (`socket.emit`), every socket
   * in a socket.io room (`io.to(room)`), every socket in it but the sender
   * (`socket.to(room)`), or everyone (`io.emit`). Every socket is also in the
   * socket.io room named by its own id.
   */
  datatype Audience =
    | ToSocket(id: Id)
    | ToRoom(room: string)
    | ToRoomExcept(room: string, except: Id)
    | ToAll

  /** The events the server emits, with their payloads. */
  datatype Event =
    | UserListEvent(users: seq<User>)
    | RoomListEvent(rooms: seq<RoomInfo>)
    | RoomMessagesEvent(log: seq<Message>)
    | UserJoinedEvent(username: string, notice: string, timestamp: string)
    | ReceiveMessageEvent(message: Message)
    | TypingUsersEvent(names: seq<string>)
    | UserLeftRoomEvent(username: string, room: string, notice: string, timestamp: string)
    | UserJoinedRoomEvent(username: string, room: string, notice: string, timestamp: string)
    | PrivateMessageEvent(privateMessage: PrivateMessage)

  datatype Outbound = Outbound(to: Audience, event: Event)
}

// Identifiers, wire messages and emission descriptors of the WebRTC signaling server.
module Protocol {
  /** A socket.io connection id (`socket.id`). */
  type SocketId = string
  /** A room name, as the client sends it with `join_room` or `chat_message`. */
  type RoomId = string
  /** An opaque negotiation blob (SDP offer, SDP answer, ICE candidate); the server never inspects it. */
  type Payload = string

  /** `MAX_USERS_PER_ROOM` */
  const MAX_USERS_PER_ROOM: nat := 3
  /** The number of chat entries a room keeps. */
  const HISTORY_LIMIT: nat := 50
  /** The `from` field of join and leave notices. */
  const SYSTEM: string := "system"

  datatype Option<T> = None | Some(value: T)

  /** JavaScript truthiness of an optional room id: `undefined`, `null` and `""` are falsy. */
  predicate Truthy(id: Option<RoomId>)
  {
    id.Some? && id.value != ""
  }

  /** One stored chat entry; `time` is the ISO timestamp the server took when storing it. */
  datatype ChatEntry = ChatEntry(from: SocketId, message: string, time: string)

  /**
   * One value of the `rooms` table. A room whose `messages` property was never created
   * is represented with `messages == []`: the server treats both alike.
   */
  datatype Room = Room(users: seq<SocketId>, messages: seq<ChatEntry>)

  /** One entry of the `/rooms` status report. */
  datatype RoomInfo = RoomInfo(users: seq<SocketId>, count: nat)

  /** Who an emit is addressed to, exactly as the socket.io call names it. */
  datatype Audience =
    | ToRoom(room: RoomId)                          // io.to(room).emit
    | ToRoomExcept(room: RoomId, sender: SocketId)  // socket.to(room).emit
    | ToSocket(target: SocketId)                    // socket.emit, io.to(socketId).emit

  /** The events the server emits, with their payloads. */
  datatype Msg =
    | Me(id: SocketId)
    | RoomFull
    | UsersInRoom(users: seq<SocketId>)
    | ChatMessage(from: string, message: string)
    | ChatHistory(entries: seq<ChatEntry>)
    | OfferRequest(from: SocketId)
    | Offer(from: SocketId, offer: Payload)
    | Answer(from: SocketId, answer: Payload)
    | IceCandidate(from: SocketId, candidate: Payload)
    | UserLeft(id: SocketId)

  datatype Emission = Emission(audience: Audience, msg: Msg)

  /** `s.substring(0, n)`: the first `n` characters, or all of `s` when it is shorter. */
  function Prefix(s: string, n: nat): (p: string)
    ensures |p| == if |s| < n then |s| else n
    ensures p <= s
  {
    if |s| <= n then s else s[..n]
  }

  /** The system notice sent when `id` joins a room. */
  function JoinNotice(id: SocketId): string
  {
    "User " + Prefix(id, 5) + " joined the room"
  }

  /** The system notice sent when `id` leaves a room. */
  function LeftNotice(id: SocketId): string
  {
    "User " + Prefix(id, 5) + " left the room"
  }
}

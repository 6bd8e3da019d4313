// The signaling server's state and its event handlers, as functions from the state before an
// event to the state after it and the emits the handler makes, in the order it makes them.
module Hub {
  import opened Protocol
  import opened Lists
  import History

  /**
   * The global `rooms` table and every socket's `socket.roomId`. A socket missing from
   * `binding` has never joined a room (`undefined`); `None` is the `null` that `leaveRoom`
   * leaves behind.
   */
  datatype State = State(rooms: map<RoomId, Room>, binding: map<SocketId, Option<RoomId>>)

  /** The state after one handler has run, with the emits it made, in order. */
  datatype Outcome = Outcome(state: State, out: seq<Emission>)

  /** The events a connected socket can raise, with the payload the client sends. */
  datatype Event =
    | Connection
    | JoinRoom(roomId: RoomId)
    | OfferEvent(to: SocketId, offer: Payload)
    | AnswerEvent(to: SocketId, answer: Payload)
    | IceCandidateEvent(to: SocketId, candidate: Payload)
    | ChatMessageEvent(chatRoom: Option<RoomId>, message: string, time: string)
    | LeaveRoomEvent
    | Disconnect

  /** One handled event: which socket raised it, and the event. */
  datatype Input = Input(socket: SocketId, event: Event)

  /** The server at start-up: no rooms, no socket bound. */
  const Initial := State(map[], map[])

  /** A stored room is never empty, never over capacity, has no repeated member and a bounded history. */
  ghost predicate RoomValid(r: Room)
  {
    1 <= |r.users| <= MAX_USERS_PER_ROOM && NoDup(r.users) && |r.messages| <= HISTORY_LIMIT
  }

  /** A socket bound to a room is a member of that room, and the room exists. */
  ghost predicate BindingValid(s: State)
  {
    forall id | id in s.binding && s.binding[id].Some? ::
      s.binding[id].value in s.rooms && id in s.rooms[s.binding[id].value].users
  }

  ghost predicate Valid(s: State)
  {
    (forall r | r in s.rooms :: RoomValid(s.rooms[r])) && BindingValid(s)
  }

  /** `socket.roomId` */
  function BoundRoom(s: State, id: SocketId): Option<RoomId>
  {
    if id in s.binding then s.binding[id] else None
  }

  /** The room `join_room` works on: the stored one, or the empty one it is about to create. */
  function RoomOrEmpty(s: State, roomId: RoomId): Room
  {
    if roomId in s.rooms then s.rooms[roomId] else Room([], [])
  }

  /** `usersInRoom.forEach(userId => io.to(userId).emit('offer_request', {from: joiner}))` */
  function OfferRequests(others: seq<SocketId>, joiner: SocketId): (out: seq<Emission>)
    ensures |out| == |others|
    ensures forall i :: 0 <= i < |others| ==> out[i] == Emission(ToSocket(others[i]), OfferRequest(joiner))
  {
    if others == [] then []
    else [Emission(ToSocket(others[0]), OfferRequest(joiner))] + OfferRequests(others[1..], joiner)
  }

  /** The emits of a successful join, given the room as it was before the join. */
  function JoinEmissions(room: Room, id: SocketId, roomId: RoomId): seq<Emission>
  {
    var users := room.users + [id];
    [Emission(ToRoom(roomId), UsersInRoom(users)),
     Emission(ToRoomExcept(roomId, id), ChatMessage(SYSTEM, JoinNotice(id)))]
    + (if |room.messages| > 0 then [Emission(ToSocket(id), ChatHistory(room.messages))] else [])
    + OfferRequests(Without(users, id), id)
  }

  /** The `join_room` handler. The room is created before the capacity and duplicate checks run. */
  function Join(s: State, id: SocketId, roomId: RoomId): (r: Outcome)
    ensures r.state.rooms.Keys == s.rooms.Keys + {roomId}
    ensures forall k | k in s.rooms && k != roomId :: r.state.rooms[k] == s.rooms[k]
    ensures forall k | k != id :: BoundRoom(r.state, k) == BoundRoom(s, k)
    ensures BoundRoom(r.state, id) in {BoundRoom(s, id), Some(roomId)}
  {
    var rooms := s.rooms[roomId := RoomOrEmpty(s, roomId)];
    var room := rooms[roomId];
    if |room.users| >= MAX_USERS_PER_ROOM then
      Outcome(s.(rooms := rooms), [Emission(ToSocket(id), RoomFull)])
    else if id in room.users then
      Outcome(s.(rooms := rooms), [])
    else
      Outcome(State(rooms[roomId := room.(users := room.users + [id])], s.binding[id := Some(roomId)]),
              JoinEmissions(room, id, roomId))
  }

  /** The `chat_message` handler: it trusts the room id the client sends, not the socket's binding. */
  function Chat(s: State, id: SocketId, roomId: Option<RoomId>, message: string, time: string): (r: Outcome)
    ensures r.state.binding == s.binding && r.state.rooms.Keys == s.rooms.Keys
    ensures forall k | k in s.rooms :: r.state.rooms[k].users == s.rooms[k].users
    ensures |r.out| <= 1 && (r.out == [] ==> r.state == s)
  {
    if !Truthy(roomId) || roomId.value !in s.rooms then Outcome(s, [])
    else
      var r := s.rooms[roomId.value];
      var entry := ChatEntry(id, message, time);
      Outcome(s.(rooms := s.rooms[roomId.value := r.(messages := History.Append(r.messages, entry))]),
              [Emission(ToRoomExcept(roomId.value, id), ChatMessage(id, message))])
  }

  /** `leaveRoom(socket)`, the one cleanup path of both `leave_room` and `disconnect`. */
  function Leave(s: State, id: SocketId): (r: Outcome)
    ensures r.state.rooms.Keys <= s.rooms.Keys
    ensures forall k | k in r.state.rooms && Some(k) != BoundRoom(s, id) :: r.state.rooms[k] == s.rooms[k]
    ensures forall k | k != id :: BoundRoom(r.state, k) == BoundRoom(s, k)
    ensures r.out == [] ==> r.state == s
    ensures r.out != [] ==> |r.out| == 3 && BoundRoom(r.state, id) == None
  {
    var roomId := BoundRoom(s, id);
    if !Truthy(roomId) || roomId.value !in s.rooms then Outcome(s, [])
    else
      var rid := roomId.value;
      var r := s.rooms[rid];
      var users := Without(r.users, id);
      var rooms := if |users| == 0 then s.rooms - {rid} else s.rooms[rid := r.(users := users)];
      Outcome(State(rooms, s.binding[id := None]),
              [Emission(ToRoom(rid), ChatMessage(SYSTEM, LeftNotice(id))),
               Emission(ToRoom(rid), UserLeft(id)),
               Emission(ToRoom(rid), UsersInRoom(users))])
  }

  /** The handlers a connected socket registers, and the `me` greeting sent on connection. */
  function Handle(s: State, id: SocketId, ev: Event): (r: Outcome)
    ensures !(ev.JoinRoom? || ev.ChatMessageEvent? || ev.LeaveRoomEvent? || ev.Disconnect?) ==>
              r.state == s && |r.out| == 1
    ensures forall k | k != id :: BoundRoom(r.state, k) == BoundRoom(s, k)
  {
    match ev
    case Connection => Outcome(s, [Emission(ToSocket(id), Me(id))])
    case JoinRoom(roomId) => Join(s, id, roomId)
    case OfferEvent(to, offer) => Outcome(s, [Emission(ToSocket(to), Offer(id, offer))])
    case AnswerEvent(to, answer) => Outcome(s, [Emission(ToSocket(to), Answer(id, answer))])
    case IceCandidateEvent(to, candidate) => Outcome(s, [Emission(ToSocket(to), IceCandidate(id, candidate))])
    case ChatMessageEvent(roomId, message, time) => Chat(s, id, roomId, message, time)
    case LeaveRoomEvent => Leave(s, id)
    case Disconnect => Leave(s, id)
  }

  /** Events handled one after another, each to completion; the emits of all of them, in order. */
  function Run(s: State, trace: seq<Input>): (r: Outcome)
    ensures forall k | (forall i | 0 <= i < |trace| :: trace[i].socket != k) :: BoundRoom(r.state, k) == BoundRoom(s, k)
    ensures forall k | k !in s.rooms && (forall i | 0 <= i < |trace| :: trace[i].event != JoinRoom(k)) :: k !in r.state.rooms
    decreases |trace|
  {
    if trace == [] then Outcome(s, [])
    else
      var first := Handle(s, trace[0].socket, trace[0].event);
      var rest := Run(first.state, trace[1..]);
      Outcome(rest.state, first.out + rest.out)
  }
}

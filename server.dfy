// The signaling server as the program runs it: one object holding the mutable `rooms` table and
// the sockets' `roomId` fields, whose handlers update them in place. Each handler is proved to
// make exactly the state change and the emits that module Hub specifies.
module Server {
  import opened Protocol
  import opened Lists
  import Hub
  import Properties

  /** `usersInRoom.forEach(...)`: one `offer_request` naming the joiner to each listed member, in order. */
  method RequestOffers(others: seq<SocketId>, joiner: SocketId) returns (out: seq<Emission>)
    ensures |out| == |others|
    ensures forall i :: 0 <= i < |others| ==> out[i] == Emission(ToSocket(others[i]), OfferRequest(joiner))
  {
    out := [];
    var i := 0;
    while i < |others|
      invariant 0 <= i <= |others|
      invariant |out| == i
      invariant forall k :: 0 <= k < i ==> out[k] == Emission(ToSocket(others[k]), OfferRequest(joiner))
    {
      out := out + [Emission(ToSocket(others[i]), OfferRequest(joiner))];
      i := i + 1;
    }
  }

  /**
   * The emits of a successful join, in the order `join_room` makes them, given the room as it was
   * before the joiner was pushed.
   */
  method JoinEmits(room: Room, id: SocketId, roomId: RoomId) returns (out: seq<Emission>)
    ensures out == Hub.JoinEmissions(room, id, roomId)
  {
    var users := room.users + [id];
    var usersInRoom := Without(users, id);
    out := [Emission(ToRoom(roomId), UsersInRoom(users)),
            Emission(ToRoomExcept(roomId, id), ChatMessage(SYSTEM, JoinNotice(id)))];
    if |room.messages| > 0 {
      out := out + [Emission(ToSocket(id), ChatHistory(room.messages))];
    }
    var requests := RequestOffers(usersInRoom, id);
    assert requests == Hub.OfferRequests(usersInRoom, id);
    out := out + requests;
  }

  class SignalingServer {
    /** `rooms` */
    var rooms: map<RoomId, Room>
    /** `socket.roomId` of every socket that has one. */
    var binding: map<SocketId, Option<RoomId>>

    function State(): Hub.State
      reads this
    {
      Hub.State(rooms, binding)
    }

    ghost predicate Valid()
      reads this
    {
      Hub.Valid(State())
    }

    constructor ()
      ensures Valid() && State() == Hub.Initial
    {
      rooms := map[];
      binding := map[];
    }

    /** The `join_room` handler. */
    method OnJoinRoom(id: SocketId, roomId: RoomId) returns (out: seq<Emission>)
      requires Valid()
      modifies this
      ensures Valid()
      ensures Hub.Outcome(State(), out) == Hub.Join(old(State()), id, roomId)
    {
      Properties.JoinValid(State(), id, roomId);
      ghost var s0 := State();
      ghost var before := Hub.RoomOrEmpty(s0, roomId);
      if roomId !in rooms {
        rooms := rooms[roomId := Room([], [])];
      }
      assert rooms == s0.rooms[roomId := before];
      if |rooms[roomId].users| >= MAX_USERS_PER_ROOM {
        out := [Emission(ToSocket(id), RoomFull)];
        assert Hub.Outcome(State(), out) == Hub.Join(s0, id, roomId);
        return;
      }
      if id in rooms[roomId].users {
        assert Hub.Outcome(State(), []) == Hub.Join(s0, id, roomId);
        return [];
      }
      var room := rooms[roomId];
      rooms := rooms[roomId := room.(users := room.users + [id])];
      binding := binding[id := Some(roomId)];
      assert State() == Hub.Join(s0, id, roomId).state;
      out := JoinEmits(room, id, roomId);
    }

    /** The `chat_message` handler; `time` is the timestamp taken while handling it. */
    method OnChatMessage(id: SocketId, roomId: Option<RoomId>, message: string, time: string)
      returns (out: seq<Emission>)
      requires Valid()
      modifies this
      ensures Valid()
      ensures Hub.Outcome(State(), out) == Hub.Chat(old(State()), id, roomId, message, time)
    {
      Properties.ChatValid(State(), id, roomId, message, time);
      if !Truthy(roomId) || roomId.value !in rooms {
        return [];
      }
      var rid := roomId.value;
      var messages := rooms[rid].messages + [ChatEntry(id, message, time)];
      if |messages| > HISTORY_LIMIT {
        messages := messages[1..];
      }
      rooms := rooms[rid := rooms[rid].(messages := messages)];
      out := [Emission(ToRoomExcept(rid, id), ChatMessage(id, message))];
    }

    /** `leaveRoom(socket)` */
    method LeaveRoom(id: SocketId) returns (out: seq<Emission>)
      requires Valid()
      modifies this
      ensures Valid()
      ensures Hub.Outcome(State(), out) == Hub.Leave(old(State()), id)
    {
      Properties.LeaveValid(State(), id);
      var roomId := if id in binding then binding[id] else None;
      if !Truthy(roomId) || roomId.value !in rooms {
        return [];
      }
      var rid := roomId.value;
      ghost var before := rooms;
      rooms := rooms[rid := rooms[rid].(users := Without(rooms[rid].users, id))];
      out := [Emission(ToRoom(rid), ChatMessage(SYSTEM, LeftNotice(id))),
              Emission(ToRoom(rid), UserLeft(id)),
              Emission(ToRoom(rid), UsersInRoom(rooms[rid].users))];
      if |rooms[rid].users| == 0 {
        rooms := rooms - {rid};
        assert rooms == before - {rid};
      }
      binding := binding[id := None];
    }

    /** Dispatch of one event raised by socket `id` to its handler. */
    method OnEvent(id: SocketId, ev: Hub.Event) returns (out: seq<Emission>)
      requires Valid()
      modifies this
      ensures Valid()
      ensures Hub.Outcome(State(), out) == Hub.Handle(old(State()), id, ev)
    {
      match ev
      case Connection =>
        out := [Emission(ToSocket(id), Me(id))];
      case JoinRoom(roomId) =>
        out := OnJoinRoom(id, roomId);
      case OfferEvent(to, offer) =>
        out := [Emission(ToSocket(to), Offer(id, offer))];
      case AnswerEvent(to, answer) =>
        out := [Emission(ToSocket(to), Answer(id, answer))];
      case IceCandidateEvent(to, candidate) =>
        out := [Emission(ToSocket(to), IceCandidate(id, candidate))];
      case ChatMessageEvent(roomId, message, time) =>
        out := OnChatMessage(id, roomId, message, time);
      case LeaveRoomEvent =>
        out := LeaveRoom(id);
      case Disconnect =>
        out := LeaveRoom(id);
    }

    /** The `/rooms` status report: each room's users and their count, and the number of rooms. */
    method RoomStatus() returns (info: map<RoomId, RoomInfo>, totalRooms: nat)
      ensures info.Keys == rooms.Keys
      ensures forall r | r in info :: info[r] == RoomInfo(rooms[r].users, |rooms[r].users|)
      ensures totalRooms == |rooms|
      ensures Valid() ==> forall r | r in info :: 1 <= info[r].count <= MAX_USERS_PER_ROOM
    {
      info := map[];
      var keys := rooms.Keys;
      while keys != {}
        invariant keys <= rooms.Keys
        invariant info.Keys == rooms.Keys - keys
        invariant forall r | r in info :: info[r] == RoomInfo(rooms[r].users, |rooms[r].users|)
        decreases |keys|
      {
        var r :| r in keys;
        info := info[r := RoomInfo(rooms[r].users, |rooms[r].users|)];
        keys := keys - {r};
      }
      totalRooms := |rooms|;
    }
  }
}

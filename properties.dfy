// What the handlers of the signaling server guarantee, proved about the functions of module Hub.
module Properties {
  import opened Protocol
  import opened Lists
  import History
  import opened Hub

  /** The `offer_request` emits of a list of emits, in order. */
  function Requests(out: seq<Emission>): (r: seq<Emission>)
    ensures forall e :: e in r ==> e in out && e.msg.OfferRequest?
  {
    if out == [] then []
    else (if out[0].msg.OfferRequest? then [out[0]] else []) + Requests(out[1..])
  }

  lemma {:induction false} RequestsConcat(a: seq<Emission>, b: seq<Emission>)
    ensures Requests(a + b) == Requests(a) + Requests(b)
  {
    if a == [] {
      assert a + b == b;
    } else {
      assert (a + b)[0] == a[0];
      assert (a + b)[1..] == a[1..] + b;
      RequestsConcat(a[1..], b);
    }
  }

  lemma {:induction false} RequestsOfOfferRequests(others: seq<SocketId>, joiner: SocketId)
    ensures Requests(OfferRequests(others, joiner)) == OfferRequests(others, joiner)
  {
    if others != [] {
      var out := OfferRequests(others, joiner);
      assert out[1..] == OfferRequests(others[1..], joiner);
      RequestsOfOfferRequests(others[1..], joiner);
    }
  }

  // ----- join_room -------------------------------------------------------------------------

  /** A join into a room that already holds `MAX_USERS_PER_ROOM` users answers `room_full` only and changes nothing. */
  lemma JoinFull(s: State, id: SocketId, roomId: RoomId)
    requires roomId in s.rooms && |s.rooms[roomId].users| >= MAX_USERS_PER_ROOM
    ensures Join(s, id, roomId) == Outcome(s, [Emission(ToSocket(id), RoomFull)])
  {
  }

  /** A repeated join into a room that is not full emits nothing and changes nothing. */
  lemma JoinDuplicate(s: State, id: SocketId, roomId: RoomId)
    requires roomId in s.rooms && |s.rooms[roomId].users| < MAX_USERS_PER_ROOM
    requires id in s.rooms[roomId].users
    ensures Join(s, id, roomId) == Outcome(s, [])
  {
  }

  /**
   * Every other join succeeds: the room is created if absent, the joiner goes at the end of
   * `users`, the socket is bound to the room, and the emits are the member list to the whole
   * room, the join notice to everyone but the joiner, the backlog to the joiner when there is
   * one, and one `offer_request` to each earlier member.
   */
  lemma JoinSucceeds(s: State, id: SocketId, roomId: RoomId)
    requires !(roomId in s.rooms && (|s.rooms[roomId].users| >= MAX_USERS_PER_ROOM || id in s.rooms[roomId].users))
    ensures var before := RoomOrEmpty(s, roomId);
      Join(s, id, roomId) ==
      Outcome(State(s.rooms[roomId := Room(before.users + [id], before.messages)], s.binding[id := Some(roomId)]),
              [Emission(ToRoom(roomId), UsersInRoom(before.users + [id])),
               Emission(ToRoomExcept(roomId, id), ChatMessage(SYSTEM, JoinNotice(id)))]
              + (if |before.messages| > 0 then [Emission(ToSocket(id), ChatHistory(before.messages))] else [])
              + OfferRequests(before.users, id))
  {
    var before := RoomOrEmpty(s, roomId);
    WithoutConcat(before.users, [id], id);
    WithoutAbsent(before.users, id);
    assert Without([id], id) == [];
  }

  /** `room_full` is emitted exactly when the room already held `MAX_USERS_PER_ROOM` users. */
  lemma JoinRejectsExactlyWhenFull(s: State, id: SocketId, roomId: RoomId)
    ensures Emission(ToSocket(id), RoomFull) in Join(s, id, roomId).out
            <==> roomId in s.rooms && |s.rooms[roomId].users| >= MAX_USERS_PER_ROOM
  {
  }

  /**
   * Mesh bootstrap: a successful join into a room with k users emits exactly k `offer_request`s,
   * one to each earlier member in `users` order, each naming the joiner, none to the joiner.
   */
  lemma MeshBootstrap(s: State, id: SocketId, roomId: RoomId)
    requires !(roomId in s.rooms && (|s.rooms[roomId].users| >= MAX_USERS_PER_ROOM || id in s.rooms[roomId].users))
    ensures var before := RoomOrEmpty(s, roomId); var requests := Requests(Join(s, id, roomId).out);
      |requests| == |before.users|
      && (forall i | 0 <= i < |requests| :: requests[i] == Emission(ToSocket(before.users[i]), OfferRequest(id)))
      && Emission(ToSocket(id), OfferRequest(id)) !in requests
  {
    var before := RoomOrEmpty(s, roomId);
    JoinSucceeds(s, id, roomId);
    var head := [Emission(ToRoom(roomId), UsersInRoom(before.users + [id])),
                 Emission(ToRoomExcept(roomId, id), ChatMessage(SYSTEM, JoinNotice(id)))];
    var backlog := if |before.messages| > 0 then [Emission(ToSocket(id), ChatHistory(before.messages))] else [];
    var requests := OfferRequests(before.users, id);
    RequestsConcat(head + backlog, requests);
    RequestsConcat(head, backlog);
    assert Requests(head) == [] by {
      assert head[1..][1..] == [];
    }
    assert Requests(backlog) == [];
    RequestsOfOfferRequests(before.users, id);
    assert Requests(Join(s, id, roomId).out) == requests;
  }

  /**
   * Join notices: the system notice goes to everyone but the joiner and is not stored; the
   * backlog reaches the joiner, unchanged, exactly when the room already had chat messages.
   */
  lemma JoinNotices(s: State, id: SocketId, roomId: RoomId)
    requires !(roomId in s.rooms && (|s.rooms[roomId].users| >= MAX_USERS_PER_ROOM || id in s.rooms[roomId].users))
    ensures var before := RoomOrEmpty(s, roomId); var o := Join(s, id, roomId);
      roomId in o.state.rooms
      && o.state.rooms[roomId].messages == before.messages
      && o.out[1] == Emission(ToRoomExcept(roomId, id), ChatMessage(SYSTEM, JoinNotice(id)))
      && (Emission(ToSocket(id), ChatHistory(before.messages)) in o.out <==> |before.messages| > 0)
      && (forall e | e in o.out && e.msg.ChatHistory? :: e == Emission(ToSocket(id), ChatHistory(before.messages)))
  {
  }

  // ----- chat_message ----------------------------------------------------------------------

  /** A chat event without a (truthy) room id, or naming an unknown room, is dropped. */
  lemma ChatDropped(s: State, id: SocketId, roomId: Option<RoomId>, message: string, time: string)
    requires !Truthy(roomId) || roomId.value !in s.rooms
    ensures Chat(s, id, roomId, message, time) == Outcome(s, [])
  {
  }

  /**
   * Otherwise, whether or not the sender is a member of the room, the entry is stored last, the
   * history is the last `HISTORY_LIMIT` entries of the old one followed by the new entry, nothing
   * else changes, and one broadcast goes to everyone in the room but the sender.
   */
  lemma ChatAppends(s: State, id: SocketId, rid: RoomId, message: string, time: string)
    requires rid != "" && rid in s.rooms && |s.rooms[rid].messages| <= HISTORY_LIMIT
    ensures var o := Chat(s, id, Some(rid), message, time); var entry := ChatEntry(id, message, time);
      o.state.rooms.Keys == s.rooms.Keys
      && o.state.rooms[rid].users == s.rooms[rid].users
      && o.state.rooms[rid].messages == History.Last(s.rooms[rid].messages + [entry], HISTORY_LIMIT)
      && o.state.rooms[rid].messages[|o.state.rooms[rid].messages| - 1] == entry
      && |o.state.rooms[rid].messages| <= HISTORY_LIMIT
      && (forall r | r in s.rooms && r != rid :: o.state.rooms[r] == s.rooms[r])
      && o.state.binding == s.binding
      && o.out == [Emission(ToRoomExcept(rid, id), ChatMessage(id, message))]
  {
  }

  // ----- offer / answer / ice_candidate ----------------------------------------------------

  /** The three negotiation events forward their payload, unchanged, to the named target and change no state. */
  lemma Forwarding(s: State, id: SocketId, to: SocketId, payload: Payload)
    ensures Handle(s, id, OfferEvent(to, payload)) == Outcome(s, [Emission(ToSocket(to), Offer(id, payload))])
    ensures Handle(s, id, AnswerEvent(to, payload)) == Outcome(s, [Emission(ToSocket(to), Answer(id, payload))])
    ensures Handle(s, id, IceCandidateEvent(to, payload)) == Outcome(s, [Emission(ToSocket(to), IceCandidate(id, payload))])
  {
  }

  // ----- leaveRoom -------------------------------------------------------------------------

  /** Leaving with no (truthy) bound room, or a bound room that is gone, does nothing. */
  lemma LeaveNoop(s: State, id: SocketId)
    requires !Truthy(BoundRoom(s, id)) || BoundRoom(s, id).value !in s.rooms
    ensures Leave(s, id) == Outcome(s, [])
  {
  }

  /**
   * Leaving the bound room removes exactly the leaver from `users`, keeping the others in order,
   * deletes the room exactly when nobody is left, clears the binding, and sends the left notice,
   * `user_left` and the new member list, in that order, to the room.
   */
  lemma LeaveRemovesMember(s: State, id: SocketId, rid: RoomId)
    requires Valid(s) && BoundRoom(s, id) == Some(rid) && rid != ""
    ensures rid in s.rooms && id in s.rooms[rid].users
    ensures var users := s.rooms[rid].users; var left := Without(users, id); var o := Leave(s, id);
      |left| == |users| - 1
      && (forall i | 0 <= i < |users| && users[i] == id :: left == users[..i] + users[i + 1..])
      && (rid in o.state.rooms <==> |left| > 0)
      && (rid in o.state.rooms ==> o.state.rooms[rid] == s.rooms[rid].(users := left))
      && o.state.rooms - {rid} == s.rooms - {rid}
      && o.state.binding == s.binding[id := None]
      && o.out == [Emission(ToRoom(rid), ChatMessage(SYSTEM, LeftNotice(id))),
                   Emission(ToRoom(rid), UserLeft(id)),
                   Emission(ToRoom(rid), UsersInRoom(left))]
  {
    var users := s.rooms[rid].users;
    var i :| 0 <= i < |users| && users[i] == id;
    WithoutAt(users, i);
    forall j | 0 <= j < |users| && users[j] == id ensures Without(users, id) == users[..j] + users[j + 1..] {
      assert j == i;
    }
  }

  /** A second leave, or a disconnect after a leave, emits nothing and changes nothing. */
  lemma LeaveIdempotent(s: State, id: SocketId)
    ensures var after := Leave(s, id).state; Leave(after, id) == Outcome(after, [])
    ensures var after := Handle(s, id, LeaveRoomEvent).state; Handle(after, id, Disconnect) == Outcome(after, [])
  {
  }

  // ----- the invariant ---------------------------------------------------------------------

  /** `join_room` keeps the invariant. */
  lemma JoinValid(s: State, id: SocketId, roomId: RoomId)
    requires Valid(s)
    ensures Valid(Join(s, id, roomId).state)
  {
  }

  /** `chat_message` keeps the invariant. */
  lemma ChatValid(s: State, id: SocketId, roomId: Option<RoomId>, message: string, time: string)
    requires Valid(s)
    ensures Valid(Chat(s, id, roomId, message, time).state)
  {
  }

  /** `leaveRoom` keeps the invariant, also when it deletes the emptied room. */
  lemma LeaveValid(s: State, id: SocketId)
    requires Valid(s)
    ensures Valid(Leave(s, id).state)
  {
    var b := BoundRoom(s, id);
    if Truthy(b) && b.value in s.rooms {
      var rid := b.value;
      LeaveRemovesMember(s, id, rid);
      var users := s.rooms[rid].users;
      var left := Without(users, id);
      WithoutNoDup(users, id);
      var t := Leave(s, id).state;
      forall r | r in t.rooms ensures RoomValid(t.rooms[r]) {
        assert r != rid ==> t.rooms[r] == s.rooms[r];
      }
      forall k | k in t.binding && t.binding[k].Some?
        ensures t.binding[k].value in t.rooms && k in t.rooms[t.binding[k].value].users
      {
        assert k != id;
        if t.binding[k].value == rid {
          assert k in left;
        } else {
          assert t.rooms[t.binding[k].value] == s.rooms[t.binding[k].value];
        }
      }
    }
  }

  /** Every handler keeps the invariant. */
  lemma HandleValid(s: State, id: SocketId, ev: Event)
    requires Valid(s)
    ensures Valid(Handle(s, id, ev).state)
  {
    match ev
    case JoinRoom(roomId) => JoinValid(s, id, roomId);
    case ChatMessageEvent(roomId, message, time) => ChatValid(s, id, roomId, message, time);
    case LeaveRoomEvent => LeaveValid(s, id);
    case Disconnect => LeaveValid(s, id);
    case _ =>
  }

  /** Every state reachable from start-up keeps the invariant. */
  lemma {:induction false} RunValid(s: State, trace: seq<Input>)
    requires Valid(s)
    ensures Valid(Run(s, trace).state)
    decreases |trace|
  {
    if trace != [] {
      HandleValid(s, trace[0].socket, trace[0].event);
      RunValid(Handle(s, trace[0].socket, trace[0].event).state, trace[1..]);
    }
  }

  /**
   * Capacity and history bounds: after any sequence of events from start-up, every room has
   * between one and `MAX_USERS_PER_ROOM` distinct users and at most `HISTORY_LIMIT` messages.
   */
  lemma Bounds(trace: seq<Input>)
    ensures var s := Run(Initial, trace).state;
      forall r | r in s.rooms ::
        1 <= |s.rooms[r].users| <= MAX_USERS_PER_ROOM && NoDup(s.rooms[r].users)
        && |s.rooms[r].messages| <= HISTORY_LIMIT
  {
    RunValid(Initial, trace);
  }

  /** Every event of `trace` is a `chat_message` naming room `rid`. */
  predicate ChatsTo(trace: seq<Input>, rid: RoomId)
  {
    forall i | 0 <= i < |trace| :: trace[i].event.ChatMessageEvent? && trace[i].event.chatRoom == Some(rid)
  }

  /** The entries a series of `chat_message` events would store, oldest first. */
  function ChatEntries(trace: seq<Input>): seq<ChatEntry>
    requires forall i | 0 <= i < |trace| :: trace[i].event.ChatMessageEvent?
    decreases |trace|
  {
    if trace == [] then []
    else [ChatEntry(trace[0].socket, trace[0].event.message, trace[0].event.time)] + ChatEntries(trace[1..])
  }

  /**
   * A series of chat events sent to one existing room appends their entries to its backlog one
   * by one, so the backlog ends as the latest `HISTORY_LIMIT` of the old entries followed by
   * the new ones. Members and bindings stay as they were.
   */
  lemma {:induction false} ChatSeries(s: State, rid: RoomId, trace: seq<Input>)
    requires rid != "" && rid in s.rooms && |s.rooms[rid].messages| <= HISTORY_LIMIT
    requires ChatsTo(trace, rid)
    ensures var t := Run(s, trace).state;
      rid in t.rooms && t.rooms[rid].users == s.rooms[rid].users && t.binding == s.binding
      && t.rooms[rid].messages == History.AppendAll(s.rooms[rid].messages, ChatEntries(trace))
      && t.rooms[rid].messages == History.Last(s.rooms[rid].messages + ChatEntries(trace), HISTORY_LIMIT)
      && |t.rooms[rid].messages| <= HISTORY_LIMIT
    decreases |trace|
  {
    History.AppendAllKeepsRecent(s.rooms[rid].messages, ChatEntries(trace));
    if trace != [] {
      var ev := trace[0].event;
      var e := ChatEntry(trace[0].socket, ev.message, ev.time);
      ChatAppends(s, trace[0].socket, rid, ev.message, ev.time);
      var s1 := Handle(s, trace[0].socket, ev).state;
      assert s1.rooms[rid].messages == History.Append(s.rooms[rid].messages, e);
      assert ChatsTo(trace[1..], rid);
      ChatSeries(s1, rid, trace[1..]);
      assert ChatEntries(trace) == [e] + ChatEntries(trace[1..]);
      assert ([e] + ChatEntries(trace[1..]))[1..] == ChatEntries(trace[1..]);
    }
  }

  // ----- quirks the code has ---------------------------------------------------------------

  /**
   * Joining a second room moves the binding to it but leaves the socket in the first room's
   * `users`, where no later leave of that socket removes it.
   */
  lemma SecondJoinKeepsFirstRoom(s: State, id: SocketId, first: RoomId, second: RoomId)
    requires Valid(s) && BoundRoom(s, id) == Some(first) && first != second
    requires !(second in s.rooms && (|s.rooms[second].users| >= MAX_USERS_PER_ROOM || id in s.rooms[second].users))
    ensures var t := Join(s, id, second).state;
      first in t.rooms && id in t.rooms[first].users && BoundRoom(t, id) == Some(second)
    ensures var t := Leave(Join(s, id, second).state, id).state;
      second != "" ==> first in t.rooms && id in t.rooms[first].users && BoundRoom(t, id) == None
  {
  }

  /**
   * `join_room` accepts the room name `""`, but `leaveRoom` and `chat_message` treat that name as
   * absent: a socket bound to it is never removed, and chat into it is dropped.
   */
  lemma EmptyRoomIdNeverLeft(s: State, id: SocketId, message: string, time: string)
    requires BoundRoom(s, id) == Some("")
    ensures Leave(s, id) == Outcome(s, [])
    ensures Chat(s, id, Some(""), message, time) == Outcome(s, [])
  {
  }
}

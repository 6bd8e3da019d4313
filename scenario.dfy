// The three-user walk-through of the signaling server, for any four distinct sockets and any room.
module Scenario {
  import opened Protocol
  import opened Hub
  import Properties

  /** The room holds exactly a, b and c, in that order, each bound to it, and the state is valid. */
  ghost predicate FullRoom(s: State, a: SocketId, b: SocketId, c: SocketId, r: RoomId)
  {
    Valid(s) && r in s.rooms && s.rooms[r].users == [a, b, c]
    && BoundRoom(s, a) == Some(r) && BoundRoom(s, b) == Some(r) && BoundRoom(s, c) == Some(r)
  }

  /** One join of a fresh socket into a room with no chat history and fewer than three users. */
  lemma JoinStep(s: State, x: SocketId, r: RoomId, users: seq<SocketId>)
    requires Valid(s) && |users| < MAX_USERS_PER_ROOM && x !in users
    requires RoomOrEmpty(s, r) == Room(users, [])
    ensures var o := Join(s, x, r);
            o.out == [Emission(ToRoom(r), UsersInRoom(users + [x])),
                      Emission(ToRoomExcept(r, x), ChatMessage(SYSTEM, JoinNotice(x)))]
                     + OfferRequests(users, x)
            && Valid(o.state) && o.state == State(s.rooms[r := Room(users + [x], [])], s.binding[x := Some(r)])
  {
    Properties.JoinSucceeds(s, x, r);
    Properties.JoinValid(s, x, r);
  }

  /** a and then b join an empty registry: b's join sends one `offer_request`, to a. */
  lemma TwoJoins(a: SocketId, b: SocketId, r: RoomId)
    requires a != b
    ensures var j1 := Join(Initial, a, r);
            var j2 := Join(j1.state, b, r);
            j1.out == [Emission(ToRoom(r), UsersInRoom([a])),
                       Emission(ToRoomExcept(r, a), ChatMessage(SYSTEM, JoinNotice(a)))]
            && j2.out == [Emission(ToRoom(r), UsersInRoom([a, b])),
                          Emission(ToRoomExcept(r, b), ChatMessage(SYSTEM, JoinNotice(b))),
                          Emission(ToSocket(a), OfferRequest(b))]
            && Valid(j2.state)
            && j2.state == State(map[r := Room([a, b], [])], map[a := Some(r), b := Some(r)])
  {
    JoinStep(Initial, a, r, []);
    assert [] + [a] == [a];
    var s1 := State(map[r := Room([a], [])], map[a := Some(r)]);
    assert Join(Initial, a, r).state == s1;
    JoinStep(s1, b, r, [a]);
    assert [a] + [b] == [a, b];
    assert OfferRequests([a], b) == [Emission(ToSocket(a), OfferRequest(b))];
  }

  /** a, b and c join an empty registry: each join sends `offer_request`s to the earlier members only. */
  lemma ThreeJoins(a: SocketId, b: SocketId, c: SocketId, r: RoomId)
    requires a != b && a != c && b != c
    ensures var j1 := Join(Initial, a, r);
            var j2 := Join(j1.state, b, r);
            var j3 := Join(j2.state, c, r);
            j1.out == [Emission(ToRoom(r), UsersInRoom([a])),
                       Emission(ToRoomExcept(r, a), ChatMessage(SYSTEM, JoinNotice(a)))]
            && j2.out == [Emission(ToRoom(r), UsersInRoom([a, b])),
                          Emission(ToRoomExcept(r, b), ChatMessage(SYSTEM, JoinNotice(b))),
                          Emission(ToSocket(a), OfferRequest(b))]
            && j3.out == [Emission(ToRoom(r), UsersInRoom([a, b, c])),
                          Emission(ToRoomExcept(r, c), ChatMessage(SYSTEM, JoinNotice(c))),
                          Emission(ToSocket(a), OfferRequest(c)),
                          Emission(ToSocket(b), OfferRequest(c))]
            && FullRoom(j3.state, a, b, c, r)
  {
    TwoJoins(a, b, r);
    var s2 := State(map[r := Room([a, b], [])], map[a := Some(r), b := Some(r)]);
    JoinStep(s2, c, r, [a, b]);
    assert [a, b] + [c] == [a, b, c];
    assert OfferRequests([a, b], c) == [Emission(ToSocket(a), OfferRequest(c)), Emission(ToSocket(b), OfferRequest(c))];
    var s3 := Join(s2, c, r).state;
    assert BoundRoom(s3, a) == Some(r) && BoundRoom(s3, b) == Some(r) && BoundRoom(s3, c) == Some(r);
  }

  /**
   * In the full room d is turned away, c chats, b disconnects (`leaveRoom`), then a and c leave:
   * the chat reaches everyone but c, the room survives b's disconnect and is deleted once the
   * last user leaves.
   */
  lemma ChatAndLeaves(s: State, a: SocketId, b: SocketId, c: SocketId, d: SocketId, r: RoomId, t: string)
    requires r != "" && a != b && a != c && b != c
    requires FullRoom(s, a, b, c, r)
    ensures var full := Join(s, d, r);
            var hi := Chat(s, c, Some(r), "hi", t);
            var gone := Handle(hi.state, b, Disconnect);
            var la := Leave(gone.state, a);
            var lc := Leave(la.state, c);
            full == Outcome(s, [Emission(ToSocket(d), RoomFull)])
            && hi.out == [Emission(ToRoomExcept(r, c), ChatMessage(c, "hi"))]
            && r in gone.state.rooms && gone.state.rooms[r].users == [a, c]
            && gone.out == [Emission(ToRoom(r), ChatMessage(SYSTEM, LeftNotice(b))),
                            Emission(ToRoom(r), UserLeft(b)),
                            Emission(ToRoom(r), UsersInRoom([a, c]))]
            && r !in lc.state.rooms
  {
    Properties.JoinFull(s, d, r);
    Properties.ChatAppends(s, c, r, "hi", t);
    Properties.ChatValid(s, c, Some(r), "hi", t);
    var s4 := Chat(s, c, Some(r), "hi", t).state;
    assert s4.rooms[r].users == [a, b, c];
    Properties.LeaveRemovesMember(s4, b, r);
    assert [a, b, c][1] == b && [a, b, c][..1] + [a, b, c][2..] == [a, c];
    Properties.LeaveValid(s4, b);
    assert Handle(s4, b, Disconnect) == Leave(s4, b);
    var s5 := Leave(s4, b).state;
    assert s5.rooms[r].users == [a, c];
    Properties.LeaveRemovesMember(s5, a, r);
    assert [a, c][0] == a && [a, c][..0] + [a, c][1..] == [c];
    Properties.LeaveValid(s5, a);
    var s6 := Leave(s5, a).state;
    Properties.LeaveRemovesMember(s6, c, r);
    assert [c][0] == c && [c][..0] + [c][1..] == [];
  }
}

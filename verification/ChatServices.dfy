// The real-time service's objects: rooms, the manager that registers them, and the handling of
// one message, refining the steps of ChatRooms.

module ChatServices {
  import opened Common
  import opened ChatRooms
  import C = ChatRooms

  class ChatRoom {
    const roomID: string
    var users: set<string>
    var messages: seq<Response>
    var profanityFilter: bool
    var round: Option<Round>

    function State(): Room
      reads this
    {
      Room(users, messages, profanityFilter, round)
    }

    constructor (id: string)
      ensures roomID == id && State() == NEW_ROOM
    {
      roomID := id;
      users, messages, profanityFilter, round := {}, [], false, None;
    }

    method AddUser(handle: string)
      modifies this
      ensures State() == old(State()).(users := old(users) + {handle})
    {
      if handle in users {
        return;
      }
      users := users + {handle};
    }

    method RemoveUser(handle: string)
      modifies this
      ensures State() == old(State()).(users := old(users) - {handle})
    {
      if handle in users {
        users := users - {handle};
      }
    }

    method RemoveAllUsers()
      modifies this
      ensures State() == old(State()).(users := {})
    {
      users := {};
    }

    method AddMessage(message: Response)
      modifies this
      ensures State() == C.AddMessage(old(State()), message)
    {
      messages := messages + [message];
      if |messages| > MAX_HISTORY {
        messages := messages[|messages| - MAX_HISTORY..];
      }
    }

    /** What a joining client is sent. */
    method ReplayMessages() returns (replayed: seq<Response>)
      ensures replayed == Replay(messages)
    {
      replayed := [];
      for i := 0 to |messages|
        invariant replayed + Replay(messages[i..]) == Replay(messages)
      {
        if messages[i].Replayable() {
          replayed := replayed + [messages[i]];
        }
      }
    }

    method StartRound(start: int, duration: int, problems: seq<string>)
      modifies this
      ensures State() == old(State()).(round := Some(Round(InProgress, start, duration, problems, {})))
    {
      round := Some(Round(InProgress, start, duration, problems, {}));
    }

    /** Registers a participant once and tells the round's shape. */
    method JoinRound(user: string) returns (info: Option<Round>)
      modifies this
      ensures old(round) == None ==> info == None && State() == old(State())
      ensures old(round).Some? ==>
                && info == Some(old(round).value.(participants := {}))
                && State() == old(State()).(
                                round := Some(old(round).value.(participants := old(round).value.participants + {user})))
    {
      if round == None {
        return None;
      }
      assert user in round.value.participants ==> round.value.participants + {user} == round.value.participants;
      if user !in round.value.participants {
        round := Some(round.value.(participants := round.value.participants + {user}));
      }
      return Some(round.value.(participants := {}));
    }

    method EndRound()
      modifies this
      ensures State() == if old(round) == None then old(State())
                         else old(State()).(round := Some(old(round).value.(status := Ended)))
    {
      if round == None {
        return;
      }
      round := Some(round.value.(status := Ended));
    }
  }

  class ChatManager {
    var rooms: set<ChatRoom>
    ghost var byID: map<string, ChatRoom>

    ghost predicate Valid()
      reads this
    {
      rooms == byID.Values && forall id :: id in byID ==> byID[id].roomID == id
    }

    ghost function View(): Rooms
      reads this, byID.Values
    {
      map id | id in byID :: byID[id].State()
    }

    constructor ()
      ensures Valid() && View() == map[]
    {
      rooms, byID := {}, map[];
    }

    /** No two registered rooms have the same id. */
    lemma DistinctIDs(a: ChatRoom, b: ChatRoom)
      requires Valid() && a in rooms && b in rooms && a.roomID == b.roomID
      ensures a == b
    {
    }

    /** A set of rooms, searched one by one. */
    method GetRoom(id: string) returns (room: ChatRoom?)
      requires Valid()
      ensures room == null <==> id !in byID
      ensures room != null ==> room in rooms && room == byID[id]
    {
      var rest := rooms;
      while rest != {}
        invariant rest <= rooms
        invariant forall r :: r in rooms && r !in rest ==> r.roomID != id
        decreases |rest|
      {
        var r :| r in rest;
        if r.roomID == id {
          return r;
        }
        rest := rest - {r};
      }
      return null;
    }

    /** A registered object is not registered twice. Two objects with one id both would be: ids
        stay distinct exactly if a new object brings a new id. */
    method CreateRoom(room: ChatRoom)
      requires Valid()
      modifies this
      ensures rooms == old(rooms) + {room}
      ensures Valid() <==> room in old(rooms) || room.roomID !in old(byID)
      ensures byID == if room in old(rooms) then old(byID) else old(byID)[room.roomID := room]
    {
      if room in rooms {
        assert byID[room.roomID] == room;
        return;
      }
      ghost var before := byID;
      rooms := rooms + {room};
      byID := byID[room.roomID := room];
      assert room.roomID !in before ==> byID.Values == before.Values + {room} by {
        forall r | room.roomID !in before && r in before.Values ensures r in byID.Values {
          assert byID[r.roomID] == r;
        }
        assert byID[room.roomID] == room;
      }
      if room.roomID in before {
        ghost var other := before[room.roomID];
        assert other in rooms && other != room && byID[other.roomID] == room;
      }
    }

    /** Refuses a room that still has users, and one that is not registered. */
    method RemoveRoom(room: ChatRoom)
      requires Valid()
      modifies this
      ensures Valid()
      ensures rooms == if room.users == {} then old(rooms) - {room} else old(rooms)
      ensures byID == if room.users == {} && room in old(rooms) then old(byID) - {room.roomID} else old(byID)
    {
      if room.users != {} {
        return;
      }
      if room !in rooms {
        return;
      }
      assert byID[room.roomID] == room;
      rooms := rooms - {room};
      byID := byID - {room.roomID};
      assert forall r :: r in rooms ==> byID[r.roomID] == r;
    }
  }

  /** A connected service, reading messages one at a time. */
  class Service {
    const manager: ChatManager
    var name: string
    var joinedRoom: Option<string>

    constructor (manager: ChatManager)
      ensures this.manager == manager && joinedRoom == None
    {
      this.manager, name, joinedRoom := manager, "", None;
    }

    /** The registered room, made if need be. */
    method RegisteredRoom(id: string) returns (room: ChatRoom)
      requires manager.Valid()
      modifies manager
      ensures manager.Valid() && (room in old(manager.rooms) || fresh(room))
      ensures room in manager.rooms && room == manager.byID[room.roomID] && room.roomID == id
      ensures manager.rooms == old(manager.rooms) + {room}
      ensures manager.View() == old(manager.View())[id := RoomOf(old(manager.View()), id)]
    {
      var found := manager.GetRoom(id);
      if found == null {
        room := new ChatRoom(id);
        manager.CreateRoom(room);
      } else {
        room := found;
      }
    }

    /** Sets the filter if the central service asks for it, then adds the user. */
    method Enter(room: ChatRoom, from: string, user: string, filter: Option<bool>) returns (rejoin: bool)
      requires manager.Valid() && room in manager.rooms
      modifies room
      ensures manager.Valid() && rejoin == (user in old(room.users))
      ensures room.State() == Entered(old(room.State()), from, user, filter)
      ensures manager.View() == old(manager.View())[room.roomID := room.State()]
    {
      if filter.Some? && from == CENTRAL_SERVICE {
        room.profanityFilter := filter.value;
      }
      rejoin := user in room.users;
      room.AddUser(user);
    }

    method HandleJoinRoom(from: string, q: Request) returns (reply: Response)
      requires manager.Valid() && q.JoinRoom?
      modifies manager, manager.rooms
      ensures manager.Valid() && fresh(manager.rooms - old(manager.rooms))
      ensures (manager.View(), reply) == HandleJoin(old(manager.View()), from, q)
    {
      hide WithDefault, Entered;
      var room := RegisteredRoom(q.room);
      ghost var before := RoomOf(old(manager.View()), q.room);
      assert room.State() == manager.View()[q.room] == before;
      var rejoin := Enter(room, from, q.user, q.filter);
      assert room.State() == Entered(before, from, q.user, q.filter) && rejoin == (q.user in before.users);
      assert manager.View() == old(manager.View())[q.room := room.State()];
      if rejoin || q.suppress {
        return UserJoined(q.room, "");
      }
      return UserJoined(q.room, WithDefault(q.name, q.user) + " joined the room");
    }

    method HandleLeaveRoom(q: Request) returns (reply: Option<Response>)
      requires manager.Valid() && q.LeaveRoom?
      modifies manager, manager.rooms
      ensures manager.Valid() && manager.rooms <= old(manager.rooms)
      ensures (manager.View(), reply) == HandleLeave(old(manager.View()), q)
    {
      var room := manager.GetRoom(q.room);
      if room == null || q.user !in room.users {
        return None;
      }
      room.RemoveUser(q.user);
      assert manager.View() == old(manager.View())[q.room := room.State()];
      if room.users == {} {
        manager.RemoveRoom(room);
        assert manager.View() == old(manager.View()) - {q.room};
      }
      return Some(UserLeft(q.room, WithDefault(q.name, "A user") + " left the room"));
    }

    method HandleChatMessage(profane: string -> bool, q: Request) returns (reply: Option<Response>)
      requires manager.Valid() && q.SendChat?
      ensures reply == HandleChat(manager.View(), profane, q)
      ensures reply == if q.room in manager.View() && q.user in manager.View()[q.room].users
                          && !(manager.View()[q.room].filter && profane(q.message))
                       then Some(ChatMessage(q.room, q.user, q.message)) else None
    {
      var room := manager.GetRoom(q.room);
      if room == null || q.user !in room.users {
        return None;
      }
      if room.profanityFilter && profane(q.message) {
        return None;
      }
      return Some(ChatMessage(q.room, q.user, q.message));
    }

    method HandleRoundStart(q: Request)
      requires manager.Valid() && q.StartRound?
      modifies manager.rooms
      ensures manager.Valid()
      ensures manager.View() == HandleStart(old(manager.View()), q)
    {
      hide Last;
      var room := manager.GetRoom(q.room);
      if room != null {
        room.StartRound(q.start, q.duration, q.problems);
        room.AddMessage(Announcement(q.room, "The round has started"));
      }
    }

    method HandleJoinRoundRequest(q: Request) returns (reply: Response)
      requires manager.Valid() && q.JoinRound?
      modifies manager.rooms
      ensures manager.Valid()
      ensures (manager.View(), reply) == HandleJoinRound(old(manager.View()), q)
    {
      var room := manager.GetRoom(q.room);
      var info := None;
      if room != null {
        info := room.JoinRound(q.user);
        assert manager.View() == old(manager.View())[q.room := room.State()];
        assert old(manager.View())[q.room].round == None ==> manager.View() == old(manager.View());
      }
      return RoundJoined(q.room, q.user, WithDefault(q.name, q.user), info);
    }

    method HandleRoundEnd(q: Request)
      requires manager.Valid() && q.EndRound?
      modifies manager.rooms
      ensures manager.Valid()
      ensures manager.View() == HandleEnd(old(manager.View()), q)
    {
      var room := manager.GetRoom(q.room);
      if room != null {
        room.EndRound();
      }
    }

    method HandleMessage(m: Message, profane: string -> bool) returns (reply: Option<Response>)
      requires manager.Valid()
      modifies manager, manager.rooms
      ensures manager.Valid() && fresh(manager.rooms - old(manager.rooms))
      ensures (manager.View(), reply) == Handle(old(manager.View()), profane, m)
    {
      hide ChatManager.Valid, ChatManager.View, HandleJoin, HandleLeave, HandleChat, HandleStart, HandleJoinRound, HandleEnd;
      var q := m.request;
      if !q.Complete() {
        return None;
      }
      match q
      case JoinRoom(_, _, _, _, _) =>
        var joined := HandleJoinRoom(m.from, q);
        reply := Some(joined);
      case LeaveRoom(_, _, _) =>
        reply := HandleLeaveRoom(q);
      case SendChat(_, _, _) =>
        reply := HandleChatMessage(profane, q);
      case NewSubmission(user, room, problem, verdict) =>
        reply := Some(Announcement(room, if verdict == "Accepted" then user + " solved " + Spaced(problem) else ""));
      case StartRound(room, start, duration, problems) =>
        HandleRoundStart(q);
        reply := Some(RoundStarted(room, start, duration, problems));
      case JoinRound(_, _, _) =>
        var joined := HandleJoinRoundRequest(q);
        reply := Some(joined);
      case MoveOn(room, problem, user) =>
        reply := Some(NextProblem(room, problem, user));
      case EndRound(room) =>
        HandleRoundEnd(q);
        reply := Some(Announcement(room, "Round has ended!"));
      case ChangeAdmin(room, admin, name) =>
        reply := Some(AdminChanged(room, admin, name));
      case ExpireRoom(room) =>
        reply := Some(RoomExpired(room));
    }

    /** Stores and broadcasts a reply; an expiry then closes the room. */
    method PublishReply(r: Response) returns (audience: set<string>)
      requires manager.Valid()
      modifies manager, manager.rooms
      ensures manager.Valid() && manager.rooms <= old(manager.rooms)
      ensures manager.View() == Publish(old(manager.View()), r)
      ensures audience == if r.Silent() || r.room !in old(manager.View()) then {} else old(manager.View())[r.room].users
    {
      hide Last;
      audience := {};
      if r.Silent() {
        return;
      }
      var room := manager.GetRoom(r.room);
      if room == null {
        return;
      }
      audience := room.users;
      if !r.Control() {
        room.AddMessage(r);
        assert manager.View() == old(manager.View())[r.room := C.AddMessage(old(manager.View())[r.room], r)];
      }
      if r.RoomExpired? {
        CloseRoom(room);
      }
    }

    method CloseRoom(room: ChatRoom)
      requires manager.Valid() && room in manager.rooms
      modifies manager, room
      ensures manager.Valid() && manager.rooms <= old(manager.rooms)
      ensures manager.View() == old(manager.View()) - {room.roomID}
    {
      room.RemoveAllUsers();
      manager.RemoveRoom(room);
    }

    method ReplayTo(id: string) returns (replayed: seq<Response>)
      requires manager.Valid()
      ensures replayed == if id in manager.View() then Replay(manager.View()[id].history) else []
    {
      var room := manager.GetRoom(id);
      replayed := [];
      if room != null {
        replayed := room.ReplayMessages();
      }
    }

    /** One turn of the read loop. */
    method ReadMessage(m: Message, profane: string -> bool)
      returns (reply: Option<Response>, replayed: seq<Response>, audience: set<string>)
      requires manager.Valid()
      modifies this, manager, manager.rooms
      ensures manager.Valid() && fresh(manager.rooms - old(manager.rooms))
      ensures Effect(manager.View(), reply, replayed, audience) == Dispatch(old(manager.View()), profane, m)
      ensures name == m.from
      ensures joinedRoom == if m.request.JoinRoom? && reply.Some? then Some(reply.value.room) else old(joinedRoom)
    {
      hide Handle, Publish, Replay, ChatManager.Valid, ChatManager.View;
      replayed, audience := [], {};
      name := m.from;
      reply := HandleMessage(m, profane);
      if reply == None {
        return;
      }
      if m.request.JoinRoom? {
        joinedRoom := Some(reply.value.room);
        replayed := ReplayTo(reply.value.room);
      }
      audience := PublishReply(reply.value);
    }
  }
}

// What each request says in a room, who is in it, and its round, told without the handlers.

module ChatReplies {
  import opened Common
  import opened ChatRooms

  // ----- what is said -----

  /** What each request leaves in the history of room `id`: a join only when it is announced, a
      chat message only from somebody in the room and past the filter, a submission only when
      accepted, a started round as a plain line, a next problem never. */
  lemma AddedExactly(rooms: Rooms, profane: string -> bool, m: Message, id: string)
    ensures Added(rooms, profane, m, id) ==
            match m.request
            case JoinRoom(user, room, name, suppress, _) =>
              if room == id && id != "" && user != "" && !suppress && !(id in rooms && user in rooms[id].users)
              then [UserJoined(id, (if name == "" then user else name) + " joined the room")] else []
            case LeaveRoom(user, room, name) =>
              if room == id && id in rooms && user in rooms[id].users && rooms[id].users != {user}
              then [UserLeft(id, (if name == "" then "A user" else name) + " left the room")] else []
            case SendChat(user, room, message) =>
              if room == id && id != "" && user != "" && message != "" && id in rooms && user in rooms[id].users
                 && !(rooms[id].filter && profane(message))
              then [ChatMessage(id, user, message)] else []
            case NewSubmission(user, room, problem, verdict) =>
              if room == id && id != "" && user != "" && problem != "" && verdict == "Accepted" && id in rooms
              then [Announcement(id, user + " solved " + Spaced(problem))] else []
            case StartRound(room, _, _, _) =>
              if room == id && id != "" && id in rooms then [Announcement(id, "The round has started")] else []
            case JoinRound(room, user, name) =>
              if room == id && id != "" && user != "" && id in rooms
              then [RoundJoined(id, user, if name == "" then user else name, WithoutParticipants(rooms[id].round))] else []
            case MoveOn(_, _, _) => []
            case EndRound(room) =>
              if room == id && id != "" && id in rooms then [Announcement(id, "Round has ended!")] else []
            case ChangeAdmin(room, admin, name) =>
              if room == id && id != "" && admin != "" && id in rooms then [AdminChanged(id, admin, name)] else []
            case ExpireRoom(room) => if room == id && id != "" && id in rooms then [RoomExpired(id)] else []
  {
    hide Last;
    if m.request.LeaveRoom? && id in rooms && m.request.user in rooms[id].users {
      LastOne(rooms[id].users, m.request.user);
    }
  }

  lemma LastOne(users: set<string>, user: string)
    requires user in users
    ensures users - {user} == {} <==> users == {user}
  {
    assert users == (users - {user}) + {user};
  }

  function WithoutParticipants(round: Option<Round>): Option<Round> {
    if round == None then None else Some(round.value.(participants := {}))
  }

  /** Slugs are shown with spaces for dashes. */
  lemma SpacedExactly(slug: string, i: nat)
    requires i < |slug|
    ensures Spaced(slug)[i] != '-' && (slug[i] != '-' ==> Spaced(slug)[i] == slug[i])
    ensures slug[i] == '-' ==> Spaced(slug)[i] == ' '
  {
  }

  /** Everybody in the room hears a reply that says something, control events included; nobody
      hears a silent join, a submission that was not accepted or a request that failed. */
  lemma HeardExactly(rooms: Rooms, profane: string -> bool, m: Message)
    ensures var e := Dispatch(rooms, profane, m);
            match m.request
            case StartRound(room, start, duration, problems) =>
              && e.reply == (if room == "" then None else Some(RoundStarted(room, start, duration, problems)))
              && e.audience == if room != "" && room in rooms then rooms[room].users else {}
            case MoveOn(room, problem, user) =>
              var complete := room != "" && problem != "" && user != "";
              && e.reply == (if complete then Some(NextProblem(room, problem, user)) else None)
              && e.audience == if complete && room in rooms then rooms[room].users else {}
            case JoinRoom(user, room, _, _, _) =>
              e.audience == if Added(rooms, profane, m, room) == [] then {} else RoomOf(rooms, room).users + {user}
            case LeaveRoom(user, room, _) =>
              e.audience == if room in rooms && user in rooms[room].users then rooms[room].users - {user} else {}
            case _ =>
              e.audience == if Added(rooms, profane, m, m.request.room) == [] then {} else rooms[m.request.room].users
  {
    hide Last;
    AddedExactly(rooms, profane, m, m.request.room);
    if m.request.LeaveRoom? && m.request.room in rooms && m.request.user in rooms[m.request.room].users {
      LastOne(rooms[m.request.room].users, m.request.user);
    }
  }

  // ----- the chat filter -----

  /** A chat message is accepted exactly if its fields are filled in, the room exists, the sender
      is in it, and the filter is off or the message clean. */
  lemma AcceptedIff(rooms: Rooms, profane: string -> bool, from: string, user: string, room: string, message: string)
    ensures var e := Dispatch(rooms, profane, Message(from, SendChat(user, room, message)));
            e.reply == if user != "" && room != "" && message != "" && room in rooms && user in rooms[room].users
                          && (!rooms[room].filter || !profane(message))
                       then Some(ChatMessage(room, user, message)) else None
  {
  }

  /** The message was sent by somebody then in the room, and is clean if the central service then
      wanted the filter on. */
  ghost predicate CleanlySent(profane: string -> bool, run: seq<Message>, id: string, r: Response, k: int)
    requires r.ChatMessage? && 0 <= k < |run|
  {
    && run[k].request == SendChat(r.user, id, r.text)
    && id in After(profane, run[..k]) && r.user in After(profane, run[..k])[id].users
    && (FilterAsked(profane, run[..k], id) ==> !profane(r.text))
  }

  /** In every run, every chat message ever stored in a room was sent that way. */
  lemma {:induction false} RecordedCleanly(profane: string -> bool, run: seq<Message>, id: string, r: Response)
    requires r in Record(profane, run, id) && r.ChatMessage?
    ensures exists k :: 0 <= k < |run| && CleanlySent(profane, run, id, r, k)
  {
    hide After, FilterAsked, Added;
    var before, last := run[..|run| - 1], |run| - 1;
    if r in Record(profane, before, id) {
      RecordedCleanly(profane, before, id, r);
      var k :| 0 <= k < |before| && CleanlySent(profane, before, id, r, k);
      assert before[..k] == run[..k];
      assert CleanlySent(profane, run, id, r, k);
    } else {
      AddedExactly(After(profane, before), profane, run[last], id);
      FilterIsCentral(profane, before, id);
      assert run[..last] == before;
      assert CleanlySent(profane, run, id, r, last);
    }
  }

  // ----- who is there -----

  /** Rooms are made by joining, and last until the last user leaves or central expires them. */
  lemma RoomsExactly(rooms: Rooms, profane: string -> bool, m: Message, id: string)
    ensures id in Dispatch(rooms, profane, m).rooms <==>
            || (m.request.JoinRoom? && m.request.room == id && id != "" && m.request.user != "")
            || (id in rooms
                && !(m.request == ExpireRoom(id) && id != "")
                && !(m.request.LeaveRoom? && m.request.room == id && rooms[id].users == {m.request.user}))
  {
    RoomsHandled(rooms, profane, m, id);
    var (handled, reply) := Handle(rooms, profane, m);
    hide Handle, Last;
  }

  lemma RoomsHandled(rooms: Rooms, profane: string -> bool, m: Message, id: string)
    ensures var (handled, reply) := Handle(rooms, profane, m);
            && (id in handled <==>
                  || (m.request.JoinRoom? && m.request.room == id && id != "" && m.request.user != "")
                  || (id in rooms && !(m.request.LeaveRoom? && m.request.room == id && rooms[id].users == {m.request.user})))
            && (reply.Some? && reply.value.RoomExpired? <==> m.request.ExpireRoom? && m.request.room != "")
            && (reply.Some? && reply.value.RoomExpired? ==> reply.value.room == m.request.room)
  {
    hide Last;
    if m.request.LeaveRoom? && id in rooms && m.request.user in rooms[id].users {
      LastOne(rooms[id].users, m.request.user);
    }
  }

  /** The user joined the room and has not left it since, and it still exists. */
  function IsIn(profane: string -> bool, run: seq<Message>, id: string, u: string): bool {
    if run == [] || id !in After(profane, run) then false
    else
      var q := run[|run| - 1].request;
      if q.JoinRoom? && q.room == id && id != "" && q.user == u && u != "" then true
      else if q.LeaveRoom? && q.room == id && q.user == u then false
      else IsIn(profane, run[..|run| - 1], id, u)
  }

  /** In every run these are exactly the users of a room. */
  lemma {:induction false} UsersExactly(profane: string -> bool, run: seq<Message>, id: string, u: string)
    ensures u in RoomOf(After(profane, run), id).users <==> IsIn(profane, run, id, u)
  {
    if run != [] {
      var before, m := run[..|run| - 1], run[|run| - 1];
      UsersExactly(profane, before, id, u);
      UsersStep(After(profane, before), profane, m, id, u);
      hide Dispatch;
    }
  }

  lemma UsersStep(rooms: Rooms, profane: string -> bool, m: Message, id: string, u: string)
    ensures var after, q := Dispatch(rooms, profane, m).rooms, m.request;
            id in after ==>
              (u in after[id].users <==>
               if q.JoinRoom? && q.room == id && id != "" && q.user == u && u != "" then true
               else if q.LeaveRoom? && q.room == id && q.user == u then false
               else u in RoomOf(rooms, id).users)
  {
    UsersHandled(rooms, profane, m, id, u);
    var (handled, reply) := Handle(rooms, profane, m);
    hide Handle, Publish;
    if reply.Some? {
      PublishRoom(handled, reply.value, id);
    }
  }

  lemma UsersHandled(rooms: Rooms, profane: string -> bool, m: Message, id: string, u: string)
    ensures var after, q := Handle(rooms, profane, m).0, m.request;
            id in after ==>
              (u in after[id].users <==>
               if q.JoinRoom? && q.room == id && id != "" && q.user == u && u != "" then true
               else if q.LeaveRoom? && q.room == id && q.user == u then false
               else u in RoomOf(rooms, id).users)
  {
    hide Last;
  }

  // ----- the round -----

  function RoundAfter(was: Option<Round>, q: Request, id: string): Option<Round> {
    if q.StartRound? && q.room == id then Some(Round(InProgress, q.start, q.duration, q.problems, {}))
    else if q.JoinRound? && q.room == id && q.user != "" && was.Some?
    then Some(was.value.(participants := was.value.participants + {q.user}))
    else if q.EndRound? && q.room == id && was.Some? then Some(was.value.(status := Ended))
    else was
  }

  /** The room's round: as last started since the room was made, with those who joined since,
      and over once ended. */
  function RoundOf(profane: string -> bool, run: seq<Message>, id: string): Option<Round> {
    if run == [] || id !in After(profane, run) then None
    else RoundAfter(RoundOf(profane, run[..|run| - 1], id), run[|run| - 1].request, id)
  }

  /** In every run that is the round the service keeps. */
  lemma {:induction false} RoundExactly(profane: string -> bool, run: seq<Message>, id: string)
    ensures RoomOf(After(profane, run), id).round == RoundOf(profane, run, id)
    ensures id == "" ==> id !in After(profane, run)
  {
    if run != [] {
      var before, m := run[..|run| - 1], run[|run| - 1];
      RoundExactly(profane, before, id);
      RoundStep(After(profane, before), profane, m, id);
      hide Dispatch;
    }
  }

  lemma RoundStep(rooms: Rooms, profane: string -> bool, m: Message, id: string)
    requires id == "" ==> id !in rooms
    ensures var after, q := Dispatch(rooms, profane, m).rooms, m.request;
            && (id == "" ==> id !in after)
            && (id in after ==> after[id].round == RoundAfter(RoomOf(rooms, id).round, q, id))
  {
    RoundHandled(rooms, profane, m, id);
    var (handled, reply) := Handle(rooms, profane, m);
    hide Handle, Publish;
    if reply.Some? {
      PublishRoom(handled, reply.value, id);
    }
  }

  lemma RoundHandled(rooms: Rooms, profane: string -> bool, m: Message, id: string)
    requires id == "" ==> id !in rooms
    ensures var after := Handle(rooms, profane, m).0;
            && (id == "" ==> id !in after)
            && (id in after ==> after[id].round == RoundAfter(RoomOf(rooms, id).round, m.request, id))
  {
    hide Last;
  }
}

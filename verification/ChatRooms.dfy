// The chat rooms of the real-time service: who is in a room, its bounded history, its round,
// and what one request of a connected service does to them. Every request is one step.

module ChatRooms {
  import opened Common

  const MAX_HISTORY := 100
  const CENTRAL_SERVICE := "central-service"

  datatype RoundStatus = InProgress | Ended

  datatype Round = Round(status: RoundStatus, start: int, duration: int, problems: seq<string>, participants: set<string>)

  /** A successful reply. An empty text makes a join or an announcement silent. */
  datatype Response =
    | UserJoined(room: string, text: string)
    | UserLeft(room: string, text: string)
    | ChatMessage(room: string, user: string, text: string)
    | Announcement(room: string, text: string)
    | RoundStarted(room: string, start: int, duration: int, problems: seq<string>)
    | RoundJoined(room: string, user: string, name: string, round: Option<Round>)
    | NextProblem(room: string, problem: string, user: string)
    | AdminChanged(room: string, admin: string, name: string)
    | RoomExpired(room: string)
  {
    predicate Silent() {
      (UserJoined? || Announcement?) && text == ""
    }

    /** Clients navigate when they see one of these, so they are neither stored nor replayed. */
    predicate Control() {
      RoundStarted? || NextProblem?
    }

    predicate Replayable() {
      ChatMessage? || Announcement? || RoundJoined? || UserJoined? || UserLeft?
    }
  }

  datatype Request =
    | JoinRoom(user: string, room: string, name: string, suppress: bool, filter: Option<bool>)
    | LeaveRoom(user: string, room: string, name: string)
    | SendChat(user: string, room: string, message: string)
    | NewSubmission(user: string, room: string, problem: string, verdict: string)
    | StartRound(room: string, start: int, duration: int, problems: seq<string>)
    | JoinRound(room: string, user: string, name: string)
    | MoveOn(room: string, problem: string, user: string)
    | EndRound(room: string)
    | ChangeAdmin(room: string, admin: string, name: string)
    | ExpireRoom(room: string)
  {
    /** The fields a request must fill in; leaving requires none. */
    predicate Complete() {
      match this
      case JoinRoom(user, room, _, _, _) => user != "" && room != ""
      case LeaveRoom(_, _, _) => true
      case SendChat(user, room, message) => user != "" && room != "" && message != ""
      case NewSubmission(user, room, problem, verdict) => user != "" && room != "" && problem != "" && verdict != ""
      case StartRound(room, _, _, _) => room != ""
      case JoinRound(room, user, _) => room != "" && user != ""
      case MoveOn(room, problem, user) => room != "" && problem != "" && user != ""
      case EndRound(room) => room != ""
      case ChangeAdmin(room, admin, _) => room != "" && admin != ""
      case ExpireRoom(room) => room != ""
    }
  }

  /** A request and the name its sender gave. */
  datatype Message = Message(from: string, request: Request)

  datatype Room = Room(users: set<string>, history: seq<Response>, filter: bool, round: Option<Round>)

  const NEW_ROOM := Room({}, [], false, None)

  type Rooms = map<string, Room>

  // ----- rooms -----

  function Last(history: seq<Response>): seq<Response> {
    if |history| > MAX_HISTORY then history[|history| - MAX_HISTORY..] else history
  }

  function AddMessage(room: Room, r: Response): Room {
    room.(history := Last(room.history + [r]))
  }

  function Replay(history: seq<Response>): seq<Response> {
    if history == [] then []
    else (if history[0].Replayable() then [history[0]] else []) + Replay(history[1..])
  }

  function WithDefault(name: string, default: string): string {
    if name == "" then default else name
  }

  // ----- handlers -----

  /** A room as it is before a message, freshly made if it does not exist. */
  function RoomOf(rooms: Rooms, id: string): Room {
    if id in rooms then rooms[id] else NEW_ROOM
  }

  /** Only the central service sets the filter. */
  function Entered(room: Room, from: string, user: string, filter: Option<bool>): Room {
    room.(filter := if from == CENTRAL_SERVICE && filter.Some? then filter.value else room.filter,
          users := room.users + {user})
  }

  function HandleJoin(rooms: Rooms, from: string, q: Request): (Rooms, Response)
    requires q.JoinRoom?
  {
    var room := RoomOf(rooms, q.room);
    var text := if q.user in room.users || q.suppress then "" else WithDefault(q.name, q.user) + " joined the room";
    (rooms[q.room := Entered(room, from, q.user, q.filter)], UserJoined(q.room, text))
  }

  function HandleLeave(rooms: Rooms, q: Request): (Rooms, Option<Response>)
    requires q.LeaveRoom?
  {
    if q.room !in rooms || q.user !in rooms[q.room].users then (rooms, None)
    else
      var users := rooms[q.room].users - {q.user};
      (if users == {} then rooms - {q.room} else rooms[q.room := rooms[q.room].(users := users)],
       Some(UserLeft(q.room, WithDefault(q.name, "A user") + " left the room")))
  }

  function HandleChat(rooms: Rooms, profane: string -> bool, q: Request): Option<Response>
    requires q.SendChat?
  {
    if q.room !in rooms || q.user !in rooms[q.room].users then None
    else if rooms[q.room].filter && profane(q.message) then None
    else Some(ChatMessage(q.room, q.user, q.message))
  }

  /** The announcement is stored, since the reply itself never is. */
  function HandleStart(rooms: Rooms, q: Request): Rooms
    requires q.StartRound?
  {
    if q.room !in rooms then rooms
    else
      var started := rooms[q.room].(round := Some(Round(InProgress, q.start, q.duration, q.problems, {})));
      rooms[q.room := AddMessage(started, Announcement(q.room, "The round has started"))]
  }

  function HandleJoinRound(rooms: Rooms, q: Request): (Rooms, Response)
    requires q.JoinRound?
  {
    var name := WithDefault(q.name, q.user);
    if q.room !in rooms || rooms[q.room].round == None then (rooms, RoundJoined(q.room, q.user, name, None))
    else
      var round := rooms[q.room].round.value;
      var joined := Some(round.(participants := round.participants + {q.user}));
      (rooms[q.room := rooms[q.room].(round := joined)], RoundJoined(q.room, q.user, name, Some(round.(participants := {}))))
  }

  function HandleEnd(rooms: Rooms, q: Request): Rooms
    requires q.EndRound?
  {
    if q.room !in rooms || rooms[q.room].round == None then rooms
    else rooms[q.room := rooms[q.room].(round := Some(rooms[q.room].round.value.(status := Ended)))]
  }

  /** The rooms after a request's handler, and its reply; no reply is an error. */
  function Handle(rooms: Rooms, profane: string -> bool, m: Message): (Rooms, Option<Response>) {
    if !m.request.Complete() then (rooms, None)
    else
      match m.request
      case JoinRoom(_, _, _, _, _) => var (after, reply) := HandleJoin(rooms, m.from, m.request); (after, Some(reply))
      case LeaveRoom(_, _, _) => HandleLeave(rooms, m.request)
      case SendChat(_, _, _) => (rooms, HandleChat(rooms, profane, m.request))
      case NewSubmission(user, room, problem, verdict) =>
        (rooms, Some(Announcement(room, if verdict == "Accepted" then user + " solved " + Spaced(problem) else "")))
      case StartRound(room, start, duration, problems) =>
        (HandleStart(rooms, m.request), Some(RoundStarted(room, start, duration, problems)))
      case JoinRound(_, _, _) => var (after, reply) := HandleJoinRound(rooms, m.request); (after, Some(reply))
      case MoveOn(room, problem, user) => (rooms, Some(NextProblem(room, problem, user)))
      case EndRound(room) => (HandleEnd(rooms, m.request), Some(Announcement(room, "Round has ended!")))
      case ChangeAdmin(room, admin, name) => (rooms, Some(AdminChanged(room, admin, name)))
      case ExpireRoom(room) => (rooms, Some(RoomExpired(room)))
  }

  /** A problem's slug with its dashes as spaces. */
  function Spaced(slug: string): (s: string)
    ensures |s| == |slug|
  {
    seq(|slug|, i requires 0 <= i < |slug| => if slug[i] == '-' then ' ' else slug[i])
  }

  // ----- the dispatch of one message -----

  /** What the sender is sent before the reply, who else hears the reply, and the rooms after. */
  datatype Effect = Effect(rooms: Rooms, reply: Option<Response>, replayed: seq<Response>, audience: set<string>)

  /** Stores a reply that is neither silent nor a control event; an expiry then closes the room. */
  function Publish(rooms: Rooms, r: Response): Rooms {
    if r.Silent() || r.room !in rooms then rooms
    else
      var stored := if r.Control() then rooms else rooms[r.room := AddMessage(rooms[r.room], r)];
      if r.RoomExpired? then stored - {r.room} else stored
  }

  function Dispatch(rooms: Rooms, profane: string -> bool, m: Message): Effect {
    var (handled, reply) := Handle(rooms, profane, m);
    if reply == None then Effect(handled, reply, [], {})
    else
      var r := reply.value;
      var replayed := if m.request.JoinRoom? && r.room in handled then Replay(handled[r.room].history) else [];
      var audience := if r.Silent() || r.room !in handled then {} else handled[r.room].users;
      Effect(Publish(handled, r), reply, replayed, audience)
  }

  function After(profane: string -> bool, run: seq<Message>): Rooms {
    if run == [] then map[] else Dispatch(After(profane, run[..|run| - 1]), profane, run[|run| - 1]).rooms
  }

  // ----- history -----

  /** What a message adds to the record of room `id`. */
  function Added(rooms: Rooms, profane: string -> bool, m: Message, id: string): seq<Response> {
    var (handled, reply) := Handle(rooms, profane, m);
    if reply == None || reply.value.room != id || id !in handled then []
    else if m.request.StartRound? then [Announcement(id, "The round has started")]
    else if reply.value.Silent() || reply.value.Control() then [] else [reply.value]
  }

  /** Everything stored in room `id` since it was last created, without any bound. */
  function Record(profane: string -> bool, run: seq<Message>, id: string): seq<Response> {
    if run == [] || id !in After(profane, run) then []
    else
      var before, last := run[..|run| - 1], run[|run| - 1];
      Record(profane, before, id) + Added(After(profane, before), profane, last, id)
  }

  /** A handler leaves every history alone, except that a started round is announced. */
  lemma HandleHistory(rooms: Rooms, profane: string -> bool, m: Message, id: string)
    requires |RoomOf(rooms, id).history| <= MAX_HISTORY
    ensures var (handled, reply) := Handle(rooms, profane, m);
            id in handled ==>
              handled[id].history ==
              if m.request.StartRound? && reply.Some? && reply.value.room == id
              then Last(RoomOf(rooms, id).history + [Announcement(id, "The round has started")])
              else RoomOf(rooms, id).history
  {
  }

  /** Publishing changes one history and closes one room at most. */
  lemma PublishRoom(rooms: Rooms, r: Response, id: string)
    ensures var after := Publish(rooms, r);
            id in after ==>
              && id in rooms
              && after[id] == rooms[id].(history := after[id].history)
              && after[id].history == if r.room == id && !r.Silent() && !r.Control() then Last(rooms[id].history + [r])
                                      else rooms[id].history
  {
    hide Last;
  }

  lemma DispatchHistory(rooms: Rooms, profane: string -> bool, m: Message, id: string)
    requires |RoomOf(rooms, id).history| <= MAX_HISTORY
    ensures var after := Dispatch(rooms, profane, m).rooms;
            id in after ==> after[id].history == Last(RoomOf(rooms, id).history + Added(rooms, profane, m, id))
  {
    HandleHistory(rooms, profane, m, id);
    HandleKeeps(rooms, profane, m, id);
    var (handled, reply) := Handle(rooms, profane, m);
    hide Handle, Publish;
    if reply.Some? {
      PublishRoom(handled, reply.value, id);
    }
    assert RoomOf(rooms, id).history + [] == RoomOf(rooms, id).history;
  }

  /** Only joining makes a room. */
  lemma HandleKeeps(rooms: Rooms, profane: string -> bool, m: Message, id: string)
    ensures id in Handle(rooms, profane, m).0 && id !in rooms ==>
              m.request.JoinRoom? && m.request.room == id && m.request.Complete()
    ensures var reply := Handle(rooms, profane, m).1; reply.Some? && m.request.StartRound? ==> reply.value.RoundStarted?
  {
  }

  lemma LastOfLast(h: seq<Response>, more: seq<Response>)
    ensures Last(Last(h) + more) == Last(h + more)
  {
    if |h| > MAX_HISTORY {
      assert h + more == h[..|h| - MAX_HISTORY] + (Last(h) + more);
    }
  }

  /** In every run the history of a room is the last hundred, or all, of what was stored in it
      since it was made. */
  lemma {:induction false} HistoryIsLast(profane: string -> bool, run: seq<Message>, id: string)
    ensures var rooms := After(profane, run);
            && RoomOf(rooms, id).history == Last(Record(profane, run, id))
            && |RoomOf(rooms, id).history| <= MAX_HISTORY
            && RoomOf(rooms, id).history == if |Record(profane, run, id)| <= 100 then Record(profane, run, id)
                                            else Record(profane, run, id)[|Record(profane, run, id)| - 100..]
  {
    if run != [] {
      var before, last := run[..|run| - 1], run[|run| - 1];
      HistoryIsLast(profane, before, id);
      DispatchHistory(After(profane, before), profane, last, id);
      hide Dispatch, Added, Last;
      LastOfLast(Record(profane, before, id), Added(After(profane, before), profane, last, id));
      RecordOfNone(profane, before, id);
      LastShort();
    }
  }

  lemma RecordOfNone(profane: string -> bool, run: seq<Message>, id: string)
    ensures id !in After(profane, run) ==> Record(profane, run, id) == []
  {
  }

  lemma LastShort()
    ensures forall h :: |Last(h)| <= MAX_HISTORY
    ensures Last([]) == []
  {
  }

  /** In every run a history holds no round start and no next problem. */
  lemma {:induction false} NoControlEvents(profane: string -> bool, run: seq<Message>, id: string)
    ensures forall r :: r in Record(profane, run, id) ==> !r.RoundStarted? && !r.NextProblem?
    ensures forall r :: r in RoomOf(After(profane, run), id).history ==> !r.RoundStarted? && !r.NextProblem?
  {
    HistoryIsLast(profane, run, id);
    if run != [] {
      NoControlEvents(profane, run[..|run| - 1], id);
      hide After, Handle;
    }
  }

  lemma {:induction false} ReplayExactly(history: seq<Response>, r: Response)
    ensures multiset(Replay(history))[r] ==
            if r.ChatMessage? || r.Announcement? || r.RoundJoined? || r.UserJoined? || r.UserLeft?
            then multiset(history)[r] else 0
  {
    if history != [] {
      ReplayExactly(history[1..], r);
      assert history == [history[0]] + history[1..];
    }
  }

  /** And in the order stored: what comes first is replayed first. */
  lemma {:induction false} ReplayInOrder(a: seq<Response>, b: seq<Response>)
    ensures Replay(a + b) == Replay(a) + Replay(b)
  {
    if a == [] {
      assert a + b == b;
    } else {
      assert (a + b)[1..] == a[1..] + b;
      ReplayInOrder(a[1..], b);
    }
  }

  /** In every run a join, announced or not, is sent the replayable ones among the last hundred
      messages stored in the room, in order, and not its own announcement. */
  lemma JoinReplays(profane: string -> bool, run: seq<Message>, m: Message)
    requires m.request.JoinRoom? && m.request.Complete()
    ensures Dispatch(After(profane, run), profane, m).replayed == Replay(Last(Record(profane, run, m.request.room)))
  {
    HistoryIsLast(profane, run, m.request.room);
    hide After, Record;
  }

  // ----- membership -----

  predicate Enters(rooms: Rooms, m: Message, id: string, u: string) {
    m.request.JoinRoom? && m.request.Complete() && m.request.room == id && m.request.user == u
    && u !in RoomOf(rooms, id).users
  }

  predicate Leaves(rooms: Rooms, m: Message, id: string, u: string) {
    m.request.LeaveRoom? && m.request.room == id && m.request.user == u && u in RoomOf(rooms, id).users
  }

  /** The room hears that `u` joined. */
  predicate Announces(rooms: Rooms, profane: string -> bool, m: Message, id: string, u: string) {
    var reply := Dispatch(rooms, profane, m).reply;
    m.request.JoinRoom? && m.request.user == u && reply.Some? && reply.value.room == id && !reply.value.Silent()
  }

  /** How often `u` entered room `id`, was announced in it and left it since it was made. */
  datatype Tally = Tally(entered: nat, announced: nat, left: nat)

  function TallyOf(profane: string -> bool, run: seq<Message>, id: string, u: string): Tally {
    if run == [] || id !in After(profane, run) then Tally(0, 0, 0)
    else
      var before, m := run[..|run| - 1], run[|run| - 1];
      var t, rooms := TallyOf(profane, before, id, u), After(profane, before);
      Tally(t.entered + if Enters(rooms, m, id, u) then 1 else 0,
            t.announced + if Announces(rooms, profane, m, id, u) then 1 else 0,
            t.left + if Leaves(rooms, m, id, u) then 1 else 0)
  }

  function Present(rooms: Rooms, id: string, u: string): nat {
    if u in RoomOf(rooms, id).users then 1 else 0
  }

  lemma HandleUsers(rooms: Rooms, profane: string -> bool, m: Message, id: string, u: string)
    ensures var (after, reply) := Handle(rooms, profane, m);
            && (id in after ==>
                  Present(after, id, u) + (if Leaves(rooms, m, id, u) then 1 else 0)
                  == Present(rooms, id, u) + if Enters(rooms, m, id, u) then 1 else 0)
            && (m.request.JoinRoom? && reply.Some? ==>
                  reply.value.room == m.request.room && m.request.Complete()
                  && (!reply.value.Silent() ==> m.request.user !in RoomOf(rooms, m.request.room).users))
  {
    hide Last;
  }

  /** Users change by entering and leaving only; an announcement means entering. */
  lemma DispatchUsers(rooms: Rooms, profane: string -> bool, m: Message, id: string, u: string)
    ensures var after := Dispatch(rooms, profane, m).rooms;
            id in after ==>
              Present(after, id, u) + (if Leaves(rooms, m, id, u) then 1 else 0)
              == Present(rooms, id, u) + if Enters(rooms, m, id, u) then 1 else 0
    ensures Announces(rooms, profane, m, id, u) ==> Enters(rooms, m, id, u)
  {
    HandleUsers(rooms, profane, m, id, u);
    var (handled, reply) := Handle(rooms, profane, m);
    hide Handle, Publish, Leaves;
    if reply.Some? {
      PublishRoom(handled, reply.value, id);
    }
  }

  lemma {:induction false} AnnouncedJoins(profane: string -> bool, run: seq<Message>, id: string, u: string)
    ensures var t := TallyOf(profane, run, id, u);
            && t.entered == t.left + Present(After(profane, run), id, u)
            && t.announced <= t.left + Present(After(profane, run), id, u)
  {
    if run != [] {
      var before, m := run[..|run| - 1], run[|run| - 1];
      AnnouncedJoins(profane, before, id, u);
      DispatchUsers(After(profane, before), profane, m, id, u);
      hide Dispatch, Enters, Leaves, Announces;
    }
  }

  /** After every request the registered rooms have somebody in them. */
  lemma {:induction false} NobodyAlone(profane: string -> bool, run: seq<Message>)
    ensures forall id :: id in After(profane, run) ==> After(profane, run)[id].users != {}
  {
    if run != [] {
      var before, m := run[..|run| - 1], run[|run| - 1];
      NobodyAlone(profane, before);
      DispatchOccupied(After(profane, before), profane, m);
      hide Dispatch;
    }
  }

  lemma DispatchOccupied(rooms: Rooms, profane: string -> bool, m: Message)
    requires forall id :: id in rooms ==> rooms[id].users != {}
    ensures var after := Dispatch(rooms, profane, m).rooms; forall id :: id in after ==> after[id].users != {}
  {
    HandleOccupied(rooms, profane, m);
    var (handled, reply) := Handle(rooms, profane, m);
    hide Handle, Publish;
    forall id | id in Dispatch(rooms, profane, m).rooms
      ensures Dispatch(rooms, profane, m).rooms[id].users != {}
    {
      if reply.Some? {
        PublishRoom(handled, reply.value, id);
      }
    }
  }

  lemma HandleOccupied(rooms: Rooms, profane: string -> bool, m: Message)
    requires forall id :: id in rooms ==> rooms[id].users != {}
    ensures var after := Handle(rooms, profane, m).0; forall id :: id in after ==> after[id].users != {}
  {
    hide Last;
  }

  // ----- the profanity filter -----

  predicate SetsFilter(m: Message, id: string, on: bool) {
    m.from == CENTRAL_SERVICE && m.request.JoinRoom? && m.request.Complete() && m.request.room == id && m.request.filter == Some(on)
  }

  lemma DispatchFilter(rooms: Rooms, profane: string -> bool, m: Message, id: string)
    ensures var after := Dispatch(rooms, profane, m).rooms;
            id in after ==>
              after[id].filter == if SetsFilter(m, id, true) then true else if SetsFilter(m, id, false) then false
                                  else RoomOf(rooms, id).filter
  {
    HandleFilter(rooms, profane, m, id);
    var (handled, reply) := Handle(rooms, profane, m);
    hide Handle, Publish;
    if reply.Some? {
      PublishRoom(handled, reply.value, id);
    }
  }

  lemma HandleFilter(rooms: Rooms, profane: string -> bool, m: Message, id: string)
    ensures var after := Handle(rooms, profane, m).0;
            id in after ==>
              after[id].filter == if SetsFilter(m, id, true) then true else if SetsFilter(m, id, false) then false
                                  else RoomOf(rooms, id).filter
  {
    hide Last;
  }

  /** Whether the central service, since the room was made, asked for the filter and has not
      taken it back. */
  function FilterAsked(profane: string -> bool, run: seq<Message>, id: string): bool {
    if run == [] || id !in After(profane, run) then false
    else
      var before, m := run[..|run| - 1], run[|run| - 1];
      SetsFilter(m, id, true) || (!SetsFilter(m, id, false) && FilterAsked(profane, before, id))
  }

  /** In every run a room's filter is on exactly if the central service wants it. */
  lemma {:induction false} FilterIsCentral(profane: string -> bool, run: seq<Message>, id: string)
    ensures RoomOf(After(profane, run), id).filter == FilterAsked(profane, run, id)
  {
    if run != [] {
      var before, m := run[..|run| - 1], run[|run| - 1];
      FilterIsCentral(profane, before, id);
      DispatchFilter(After(profane, before), profane, m, id);
      hide Dispatch;
    }
  }
}

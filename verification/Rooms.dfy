// Rooms and their rounds in the central service: join timestamps and active-room pointers in
// Redis, rooms and rounds in the database, expiry tasks and round timers in the scheduler.
// Every request, timer and expiry is one step.

module Rooms {
  import opened Common
  import opened Text
  import opened ProblemSet

  type RoomId = nat
  type RoundId = nat

  datatype Status = Created | Started | Ended

  datatype Round = Round(room: RoomId, status: Status, duration: int, problems: seq<nat>)

  datatype Room = Room(admin: string, ttl: int)

  /** The join times of a room's members, a sorted set in Redis. */
  type Members = map<string, int>

  /** Row and room ids are fresh when made: `nextRoom` and `nextRound` exceed all used ones.
      `unseated` is history: the rounds whose start failed after they were marked started. */
  datatype State = State(
    rooms: map<RoomId, Room>,
    members: map<RoomId, Members>,
    active: map<string, RoomId>,
    rounds: map<RoundId, Round>,
    timers: set<RoundId>,
    ttlTaskIDs: set<RoomId>,
    pending: set<RoomId>,
    nextRoom: nat,
    nextRound: nat,
    unseated: set<RoundId>
  )

  const INITIAL := State(map[], map[], map[], map[], {}, {}, {}, 0, 0, {})

  datatype Answer = Done | NotFound | BadRequest | Unauthorized | Failed

  const MIN_DURATION := 5
  const MAX_DURATION := 120

  // ----- intervals -----

  const SECOND := 1_000_000_000
  const MINUTE := 60 * SECOND

  /** Durations are 64-bit nanoseconds. */
  function Wrap(ns: int): int {
    (ns + 0x8000_0000_0000_0000) % 0x1_0000_0000_0000_0000 - 0x8000_0000_0000_0000
  }

  /** The scheduler takes only positive intervals. */
  predicate Schedulable(ns: int) {
    Wrap(ns) > 0
  }

  /** The timer of a round: its duration, which nobody checks when it is created, and a second. */
  predicate Timeable(duration: int) {
    Schedulable(duration * MINUTE + SECOND)
  }

  predicate Expires(ttl: int) {
    ttl > 0 && Schedulable(ttl * MINUTE)
  }

  // ----- membership -----

  function MembersOf(s: State, r: RoomId): Members {
    if r in s.members then s.members[r] else map[]
  }

  /** The order of a sorted set: join time, then id. */
  predicate Earlier(m: Members, u: string, v: string) {
    u in m && v in m && (m[u] < m[v] || (m[u] == m[v] && Precedes(u, v)))
  }

  predicate IsLeast(m: Members, u: string) {
    u in m && forall v :: v in m ==> Earlier(m, u, v)
  }

  lemma EarlierOrder(m: Members, u: string, v: string, w: string)
    requires u in m && v in m && w in m
    ensures Earlier(m, u, v) || Earlier(m, v, u)
    ensures Earlier(m, u, v) && Earlier(m, v, u) ==> u == v
    ensures Earlier(m, u, v) && Earlier(m, v, w) ==> Earlier(m, u, w)
  {
    PrecedesTotal(u, v);
    if Precedes(u, v) && Precedes(v, w) {
      PrecedesTransitive(u, v, w);
    }
  }

  lemma {:induction false} LeastExists(m: Members, among: set<string>) returns (u: string)
    requires among != {} && among <= m.Keys
    ensures u in among && forall v :: v in among ==> Earlier(m, u, v)
    decreases |among|
  {
    hide Earlier;
    u :| u in among;
    EarlierOrder(m, u, u, u);
    if among != {u} {
      assert among - {u} != {};
      var w := LeastExists(m, among - {u});
      EarlierOrder(m, u, w, w);
      if Earlier(m, u, w) {
        forall v | v in among
          ensures Earlier(m, u, v)
        {
          EarlierOrder(m, u, w, v);
        }
      } else {
        u := w;
      }
    }
  }

  lemma SomeLeast(m: Members)
    ensures m != map[] ==> exists u :: IsLeast(m, u)
    ensures forall u, v :: IsLeast(m, u) && IsLeast(m, v) ==> u == v
  {
    hide Earlier;
    if m != map[] {
      var u := LeastExists(m, m.Keys);
      assert IsLeast(m, u);
    }
    forall u, v | IsLeast(m, u) && IsLeast(m, v)
      ensures u == v
    {
      EarlierOrder(m, u, v, v);
    }
  }

  /** Who takes over: the member with the least join time, then id. */
  ghost function Successor(m: Members): (u: string)
    requires m != map[]
    ensures IsLeast(m, u)
  {
    SomeLeast(m);
    var u :| IsLeast(m, u);
    u
  }

  function AddJoinMember(s: State, r: RoomId, u: string, now: int): State {
    s.(members := s.members[r := MembersOf(s, r)[u := now]], active := s.active[u := r])
  }

  /** The pointer goes whichever room it names. */
  function RemoveJoinMember(s: State, r: RoomId, u: string): State {
    s.(members := s.members[r := MembersOf(s, r) - {u}], active := s.active - {u})
  }

  function CancelExpiry(s: State, r: RoomId): State {
    if r in s.ttlTaskIDs then s.(ttlTaskIDs := s.ttlTaskIDs - {r}, pending := s.pending - {r}) else s
  }

  function Without(rounds: map<RoundId, Round>, r: RoomId): map<RoundId, Round> {
    map id | id in rounds && rounds[id].room != r :: rounds[id]
  }

  /** Deletes the join times, the members' pointers, the rounds and the room. */
  function DeleteRoom(s: State, r: RoomId): State {
    s.(rooms := s.rooms - {r},
       members := s.members - {r},
       active := s.active - MembersOf(s, r).Keys,
       rounds := Without(s.rounds, r))
  }

  function CreateRoom(s: State, name: string, admin: string, ttl: int): (State, Answer) {
    if |name| < 4 || |name| >= 32 then (s, BadRequest)
    else
      var s' := s.(rooms := s.rooms[s.nextRoom := Room(admin, ttl)], nextRoom := s.nextRoom + 1);
      (if Expires(ttl) then s'.(ttlTaskIDs := s.ttlTaskIDs + {s.nextRoom}, pending := s.pending + {s.nextRoom}) else s', Done)
  }

  /** A member who joins again gets an error, but a new join time and a pointer all the same. */
  function JoinRoom(s: State, r: RoomId, u: string, now: int): (State, Answer) {
    if r !in s.rooms then (s, NotFound)
    else (AddJoinMember(s, r, u, now), if u in MembersOf(s, r) then BadRequest else Done)
  }

  /** The earliest member becomes admin. */
  ghost function HandOver(s: State, r: RoomId): State {
    if r in s.rooms && MembersOf(s, r) != map[] then
      s.(rooms := s.rooms[r := s.rooms[r].(admin := Successor(MembersOf(s, r)))])
    else s
  }

  ghost function LeaveRoom(s: State, r: RoomId, u: string): (State, Answer) {
    if r !in s.rooms then (s, NotFound)
    else
      var left := RemoveJoinMember(s, r, u);
      if u !in MembersOf(s, r) then (left, BadRequest)
      else if MembersOf(left, r) == map[] then (DeleteRoom(CancelExpiry(left, r), r), Done)
      else if s.rooms[r].admin == u then (HandOver(left, r), Done)
      else (left, Done)
  }

  /** The expiry task runs once; its entry in ttlTaskIDs stays behind. */
  function Expire(s: State, r: RoomId): State {
    if r !in s.pending then s
    else
      var s' := s.(pending := s.pending - {r});
      if r in s.rooms then DeleteRoom(s', r) else s'
  }

  // ----- rounds -----

  function RoundsOf(s: State, r: RoomId): set<RoundId> {
    set id | id in s.rounds && s.rounds[id].room == r
  }

  /** The room's first round with a status, in id order, from `from` on. */
  function First(s: State, r: RoomId, status: Status, from: RoundId): (id: Option<RoundId>)
    ensures id.Some? ==> from <= id.value < s.nextRound && id.value in s.rounds
    ensures id.Some? ==> s.rounds[id.value].room == r && s.rounds[id.value].status == status
    ensures id.Some? ==> forall k :: k in RoundsOf(s, r) && from <= k < id.value ==> s.rounds[k].status != status
    ensures id.None? ==> forall k :: k in RoundsOf(s, r) && from <= k < s.nextRound ==> s.rounds[k].status != status
    decreases s.nextRound - from
  {
    if from >= s.nextRound then None
    else if from in s.rounds && s.rounds[from].room == r && s.rounds[from].status == status then Some(from)
    else First(s, r, status, from + 1)
  }

  function Open(s: State, r: RoomId): set<RoundId> {
    set id | id in RoundsOf(s, r) && s.rounds[id].status != Ended
  }

  function InsertRound(s: State, r: RoomId, duration: int, problems: seq<nat>): State {
    s.(rounds := s.rounds[s.nextRound := Round(r, Created, duration, problems)], nextRound := s.nextRound + 1)
  }

  /** The row is inserted before its problems are chosen. If that fails the row stays, unless
      it was the room's first: then the whole room goes. */
  function CreateRound(s: State, limit: int, r: RoomId, duration: int, chosen: Selection): (State, Answer) {
    if r !in s.rooms then (s, NotFound)
    else if |Open(s, r)| >= limit then (s, BadRequest)
    else
      var s' := InsertRound(s, r, duration, if chosen.Selected? then chosen.problems else []);
      if chosen.Selected? then (s', Done)
      else if RoundsOf(s, r) == {} then (DeleteRoom(CancelExpiry(s', r), r), BadRequest)
      else (s', BadRequest)
  }

  /** The status is written first; then the participants are inserted, which may fail, and last
      the timer is scheduled, which fails for an interval that is not positive. */
  function StartRound(s: State, r: RoomId, u: string, seated: bool): (State, Answer) {
    if r !in s.rooms then (s, NotFound)
    else if s.rooms[r].admin != u then (s, Unauthorized)
    else
      var id := First(s, r, Created, 0);
      if id.None? then (s, NotFound)
      else if s.rounds[id.value].problems == [] then (s, BadRequest)
      else
        var started := s.(rounds := s.rounds[id.value := s.rounds[id.value].(status := Started)]);
        if !seated then (started.(unseated := s.unseated + {id.value}), Failed)
        else if !Timeable(s.rounds[id.value].duration) then (started, Failed)
        else (started.(timers := s.timers + {id.value}), Done)
  }

  function SetDuration(s: State, r: RoomId, u: string, duration: int): (State, Answer) {
    if r !in s.rooms then (s, NotFound)
    else if s.rooms[r].admin != u then (s, Unauthorized)
    else
      var id := First(s, r, Created, 0);
      if id.None? then (s, NotFound)
      else if duration < MIN_DURATION || duration > MAX_DURATION then (s, BadRequest)
      else (s.(rounds := s.rounds[id.value := s.rounds[id.value].(duration := duration)]), Done)
  }

  /** Without a started round the request is accepted and does nothing. */
  function EndRound(s: State, r: RoomId, u: string): (State, Answer) {
    if r !in s.rooms then (s, NotFound)
    else if s.rooms[r].admin != u then (s, Unauthorized)
    else
      var id := First(s, r, Started, 0);
      if id.None? then (s, Done)
      else (s.(rounds := s.rounds[id.value := s.rounds[id.value].(status := Ended)]), Done)
  }

  /** A timer is never cancelled: its round may have been ended or deleted since. */
  function TimerFires(s: State, id: RoundId): State {
    if id !in s.timers then s
    else
      var s' := s.(timers := s.timers - {id});
      if id in s.rounds then s'.(rounds := s.rounds[id := s.rounds[id].(status := Ended)]) else s'
  }

  // ----- runs -----

  datatype Event =
    | Create(name: string, admin: string, ttl: int)
    | Join(room: RoomId, user: string, now: int)
    | Leave(room: RoomId, user: string)
    | NewRound(room: RoomId, duration: int, chosen: Selection)
    | Start(room: RoomId, user: string, seated: bool)
    | ChangeDuration(room: RoomId, user: string, duration: int)
    | End(room: RoomId, user: string)
    | Timer(id: RoundId)
    | Expiry(room: RoomId)

  ghost function Next(s: State, limit: int, e: Event): State {
    match e
    case Create(name, admin, ttl) => CreateRoom(s, name, admin, ttl).0
    case Join(room, user, now) => JoinRoom(s, room, user, now).0
    case Leave(room, user) => LeaveRoom(s, room, user).0
    case NewRound(room, duration, chosen) => CreateRound(s, limit, room, duration, chosen).0
    case Start(room, user, seated) => StartRound(s, room, user, seated).0
    case ChangeDuration(room, user, duration) => SetDuration(s, room, user, duration).0
    case End(room, user) => EndRound(s, room, user).0
    case Timer(id) => TimerFires(s, id)
    case Expiry(room) => Expire(s, room)
  }

  ghost function After(s: State, limit: int, run: seq<Event>): State
    decreases |run|
  {
    if run == [] then s else After(Next(s, limit, run[0]), limit, run[1..])
  }

  // ----- invariants -----

  /** A pointer names an existing room its user is a member of. */
  ghost predicate PointersValid(s: State) {
    && (forall r :: r in s.members && s.members[r] != map[] ==> r in s.rooms)
    && (forall u :: u in s.active ==> u in MembersOf(s, s.active[u]))
  }

  /** Pending expiry tasks are those of the rooms with a time to live, and each can be cancelled. */
  ghost predicate ExpiryValid(s: State) {
    && (forall r :: r in s.rooms ==> r < s.nextRoom)
    && (forall r :: r in s.pending <==> r in s.rooms && Expires(s.rooms[r].ttl))
    && s.pending <= s.ttlTaskIDs
  }

  /** The start of the round went as far as scheduling its timer. */
  predicate Timed(s: State, id: RoundId) {
    id in s.rounds && id !in s.unseated && Timeable(s.rounds[id].duration)
  }

  ghost predicate RoundsValid(s: State) {
    && (forall id :: id in s.rounds ==> id < s.nextRound && s.rounds[id].room in s.rooms)
    && (forall id :: id in s.rounds && s.rounds[id].status != Created ==> s.rounds[id].problems != [])
    && (forall id :: id in s.timers || id in s.unseated ==> id < s.nextRound)
    && (forall id :: (id in s.timers || id in s.unseated) && id in s.rounds ==> s.rounds[id].status != Created)
    && (forall id :: id in s.rounds && s.rounds[id].status == Started ==> (id in s.timers <==> Timed(s, id)))
  }

  ghost predicate LimitKept(s: State, limit: int) {
    forall r :: |Open(s, r)| <= if limit < 0 then 0 else limit
  }

  ghost predicate Valid(s: State, limit: int) {
    PointersValid(s) && ExpiryValid(s) && RoundsValid(s) && LimitKept(s, limit)
  }

  // ----- what the steps leave alone -----

  predicate RoundEvent(e: Event) {
    e.Start? || e.ChangeDuration? || e.End? || e.Timer?
  }

  /** Round events change only rounds, timers and the history of failed starts. */
  lemma RoundFrame(s: State, limit: int, e: Event)
    requires RoundEvent(e)
    ensures Next(s, limit, e) ==
            s.(rounds := Next(s, limit, e).rounds, timers := Next(s, limit, e).timers, unseated := Next(s, limit, e).unseated)
  {
    hide First;
  }

  /** Joining and leaving touch only members and pointers. */
  lemma JoinFrame(s: State, r: RoomId, u: string, now: int)
    ensures AddJoinMember(s, r, u, now) == s.(members := AddJoinMember(s, r, u, now).members, active := s.active[u := r])
  {
  }

  lemma LeaveFrame(s: State, r: RoomId, u: string)
    ensures RemoveJoinMember(s, r, u) == s.(members := RemoveJoinMember(s, r, u).members, active := s.active - {u})
  {
  }

  // ----- pointers -----

  lemma PointersFrame(s: State, s': State)
    requires PointersValid(s)
    requires s'.members == s.members && s'.active == s.active && s.rooms.Keys <= s'.rooms.Keys
    ensures PointersValid(s')
  {
  }

  lemma PointersMoved(s: State, r: RoomId, u: string, now: int)
    requires PointersValid(s) && r in s.rooms
    ensures PointersValid(AddJoinMember(s, r, u, now)) && PointersValid(RemoveJoinMember(s, r, u))
  {
  }

  lemma PointersDeleted(s: State, r: RoomId)
    requires PointersValid(s)
    ensures PointersValid(DeleteRoom(s, r))
  {
  }

  lemma PointersLeft(s: State, r: RoomId, u: string)
    requires PointersValid(s)
    ensures PointersValid(LeaveRoom(s, r, u).0)
  {
    hide Successor, PointersValid, RemoveJoinMember, DeleteRoom;
    if r in s.rooms {
      PointersMoved(s, r, u, 0);
      var left := RemoveJoinMember(s, r, u);
      PointersFrame(left, HandOver(left, r));
      PointersFrame(left, CancelExpiry(left, r));
      PointersDeleted(CancelExpiry(left, r), r);
    }
  }

  lemma PointersStep(s: State, limit: int, e: Event)
    requires PointersValid(s)
    ensures PointersValid(Next(s, limit, e))
  {
    hide StartRound, SetDuration, EndRound, TimerFires;
    hide First, Open, Successor, PointersValid, AddJoinMember, LeaveRoom, DeleteRoom, RoundsOf;
    var s' := Next(s, limit, e);
    match e
    case Create(name, admin, ttl) => PointersFrame(s, s');
    case Join(r, u, now) => if r in s.rooms { PointersMoved(s, r, u, now); }
    case Leave(r, u) => PointersLeft(s, r, u);
    case NewRound(r, duration, chosen) =>
      var inserted := InsertRound(s, r, duration, if chosen.Selected? then chosen.problems else []);
      PointersFrame(s, inserted);
      PointersFrame(s, CancelExpiry(inserted, r));
      PointersDeleted(CancelExpiry(inserted, r), r);
    case Start(_, _, _) => RoundFrame(s, limit, e); PointersFrame(s, s');
    case ChangeDuration(_, _, _) => RoundFrame(s, limit, e); PointersFrame(s, s');
    case End(_, _) => RoundFrame(s, limit, e); PointersFrame(s, s');
    case Timer(_) => RoundFrame(s, limit, e); PointersFrame(s, s');
    case Expiry(r) =>
      PointersFrame(s, s.(pending := s.pending - {r}));
      PointersDeleted(s.(pending := s.pending - {r}), r);
  }

  // ----- expiry -----

  lemma ExpiryFrame(s: State, s': State)
    requires ExpiryValid(s)
    requires s'.rooms.Keys == s.rooms.Keys && (forall r :: r in s.rooms ==> s'.rooms[r].ttl == s.rooms[r].ttl)
    requires s'.nextRoom == s.nextRoom && s'.pending == s.pending && s'.ttlTaskIDs == s.ttlTaskIDs
    ensures ExpiryValid(s')
  {
  }

  /** Deleting a room whose task is cancelled, or has just run. */
  lemma ExpiryDeleted(s: State, r: RoomId)
    requires ExpiryValid(s)
    ensures ExpiryValid(DeleteRoom(CancelExpiry(s, r), r))
    ensures ExpiryValid(DeleteRoom(s.(pending := s.pending - {r}), r))
  {
  }

  lemma ExpiryStep(s: State, limit: int, e: Event)
    requires ExpiryValid(s)
    ensures ExpiryValid(Next(s, limit, e))
  {
    hide StartRound, SetDuration, EndRound, TimerFires;
    hide First, Open, Successor, AddJoinMember, RemoveJoinMember, DeleteRoom, RoundsOf, ExpiryValid, CancelExpiry;
    var s' := Next(s, limit, e);
    match e
    case Create(name, admin, ttl) => ExpiryCreated(s, name, admin, ttl);
    case Join(r, u, now) => JoinFrame(s, r, u, now); ExpiryFrame(s, s');
    case Leave(r, u) =>
      LeaveFrame(s, r, u);
      var left := RemoveJoinMember(s, r, u);
      ExpiryFrame(s, left);
      ExpiryFrame(left, HandOver(left, r));
      ExpiryDeleted(left, r);
    case NewRound(r, duration, chosen) =>
      var inserted := InsertRound(s, r, duration, if chosen.Selected? then chosen.problems else []);
      ExpiryFrame(s, inserted);
      ExpiryDeleted(inserted, r);
    case Start(_, _, _) => RoundFrame(s, limit, e); ExpiryFrame(s, s');
    case ChangeDuration(_, _, _) => RoundFrame(s, limit, e); ExpiryFrame(s, s');
    case End(_, _) => RoundFrame(s, limit, e); ExpiryFrame(s, s');
    case Timer(_) => RoundFrame(s, limit, e); ExpiryFrame(s, s');
    case Expiry(r) => ExpiryRuns(s, r);
  }

  lemma ExpiryCreated(s: State, name: string, admin: string, ttl: int)
    requires ExpiryValid(s)
    ensures ExpiryValid(CreateRoom(s, name, admin, ttl).0)
  {
  }

  lemma ExpiryRuns(s: State, r: RoomId)
    requires ExpiryValid(s)
    ensures ExpiryValid(Expire(s, r))
  {
    hide DeleteRoom;
    ExpiryDeleted(s, r);
  }

  // ----- rounds -----

  lemma RoundsFrame(s: State, s': State)
    requires RoundsValid(s)
    requires s'.rounds == s.rounds && s'.nextRound == s.nextRound && s'.timers == s.timers && s'.unseated == s.unseated
    requires s.rooms.Keys <= s'.rooms.Keys
    ensures RoundsValid(s')
  {
  }

  lemma RoundsDeleted(s: State, r: RoomId)
    requires RoundsValid(s)
    ensures RoundsValid(DeleteRoom(s, r))
  {
  }

  lemma RoundsInserted(s: State, r: RoomId, duration: int, problems: seq<nat>)
    requires RoundsValid(s) && r in s.rooms
    ensures RoundsValid(InsertRound(s, r, duration, problems))
  {
  }

  /** A row of the same room replaced, and its timer and history with it. */
  function Replace(s: State, id: RoundId, row: Round, timers: set<RoundId>, unseated: set<RoundId>): State {
    s.(rounds := s.rounds[id := row], timers := timers, unseated := unseated)
  }

  lemma RoundsReplaced(s: State, id: RoundId, row: Round, timers: set<RoundId>, unseated: set<RoundId>)
    requires RoundsValid(s) && id in s.rounds && row.room == s.rounds[id].room
    requires row.status != Created ==> row.problems != []
    requires id in timers || id in unseated ==> row.status != Created
    requires row.status == Started ==> (id in timers <==> id !in unseated && Timeable(row.duration))
    requires timers <= s.timers + {id} && s.timers <= timers + {id}
    requires unseated <= s.unseated + {id} && s.unseated <= unseated + {id}
    ensures RoundsValid(Replace(s, id, row, timers, unseated))
  {
    hide Timeable;
  }

  /** What a round event does to a row, which keeps its room and problems and moves from created
      to started to ended; a start that fails late sets no timer. */
  ghost predicate RoundChange(s: State, s': State, id: RoundId, row: Round) {
    && id in s.rounds && s' == Replace(s, id, row, s'.timers, s'.unseated)
    && row.room == s.rounds[id].room && row.problems == s.rounds[id].problems
    && if row.status == Created then s.rounds[id].status == Created && s'.timers == s.timers && s'.unseated == s.unseated
       else
         && row.duration == s.rounds[id].duration
         && if row.status == Started then
              && s.rounds[id].status == Created && row.problems != []
              && (|| (s'.unseated == s.unseated + {id} && s'.timers == s.timers)
                  || (s'.unseated == s.unseated && s'.timers == if Timeable(row.duration) then s.timers + {id} else s.timers))
            else
              && s'.unseated == s.unseated
              && (|| (s.rounds[id].status == Started && s'.timers == s.timers)
                  || (id in s.timers && s'.timers == s.timers - {id}))
  }

  lemma RoundEventChange(s: State, limit: int, e: Event)
    requires RoundEvent(e)
    ensures var s' := Next(s, limit, e);
            s' == s || (e.Timer? && e.id in s.timers && e.id !in s.rounds && s' == s.(timers := s.timers - {e.id}))
            || exists id: RoundId, row :: RoundChange(s, s', id, row)
  {
    var s' := Next(s, limit, e);
    match e
    case Start(r, u, seated) =>
      if s' != s {
        var id := First(s, r, Created, 0).value;
        assert RoundChange(s, s', id, s'.rounds[id]);
      }
    case ChangeDuration(r, u, duration) =>
      if s' != s {
        var id := First(s, r, Created, 0).value;
        assert RoundChange(s, s', id, s'.rounds[id]);
      }
    case End(r, u) =>
      if s' != s {
        var id := First(s, r, Started, 0).value;
        assert RoundChange(s, s', id, s'.rounds[id]);
      }
    case Timer(id) =>
      if id in s.timers && id in s.rounds {
        assert RoundChange(s, s', id, s'.rounds[id]);
      }
  }

  lemma RoundsChanged(s: State, s': State, id: RoundId, row: Round)
    requires RoundsValid(s) && RoundChange(s, s', id, row)
    ensures RoundsValid(s')
  {
    hide Replace;
    hide Timeable;
    RoundsReplaced(s, id, row, s'.timers, s'.unseated);
  }

  lemma RoundEventKeepsRounds(s: State, limit: int, e: Event)
    requires RoundEvent(e) && RoundsValid(s)
    ensures RoundsValid(Next(s, limit, e))
  {
    var s' := Next(s, limit, e);
    RoundEventChange(s, limit, e);
    hide Next, RoundChange;
    if id: RoundId, row :| RoundChange(s, s', id, row) {
      RoundsChanged(s, s', id, row);
    }
  }

  lemma RoundsStep(s: State, limit: int, e: Event)
    requires RoundsValid(s)
    ensures RoundsValid(Next(s, limit, e))
  {
    hide First, Open, Successor, AddJoinMember, RemoveJoinMember, DeleteRoom, RoundsOf, RoundsValid, InsertRound;
    hide StartRound, SetDuration, EndRound, TimerFires;
    var s' := Next(s, limit, e);
    match e
    case Create(name, admin, ttl) => RoundsFrame(s, s');
    case Join(r, u, now) => JoinFrame(s, r, u, now); RoundsFrame(s, s');
    case Leave(r, u) =>
      LeaveFrame(s, r, u);
      var left := RemoveJoinMember(s, r, u);
      RoundsFrame(s, left);
      RoundsFrame(left, HandOver(left, r));
      RoundsFrame(left, CancelExpiry(left, r));
      RoundsDeleted(CancelExpiry(left, r), r);
    case NewRound(r, duration, chosen) =>
      if r in s.rooms {
        var problems := if chosen.Selected? then chosen.problems else [];
        var inserted := InsertRound(s, r, duration, problems);
        RoundsInserted(s, r, duration, problems);
        RoundsFrame(inserted, CancelExpiry(inserted, r));
        RoundsDeleted(CancelExpiry(inserted, r), r);
      }
    case Start(_, _, _) => RoundEventKeepsRounds(s, limit, e);
    case ChangeDuration(_, _, _) => RoundEventKeepsRounds(s, limit, e);
    case End(_, _) => RoundEventKeepsRounds(s, limit, e);
    case Timer(_) => RoundEventKeepsRounds(s, limit, e);
    case Expiry(r) =>
      RoundsFrame(s, s.(pending := s.pending - {r}));
      RoundsDeleted(s.(pending := s.pending - {r}), r);
  }

  // ----- the life of a round -----

  function Rank(status: Status): nat {
    match status case Created => 0 case Started => 1 case Ended => 2
  }

  /** A round moves from created to started to ended; its problems never change, and its
      duration not after the start. */
  ghost predicate RowLater(a: Round, b: Round) {
    && b.room == a.room && b.problems == a.problems
    && Rank(a.status) <= Rank(b.status)
    && (a.status != Created ==> b.duration == a.duration)
  }

  /** Rounds last exactly as long as their room, and ids are not used twice. */
  ghost predicate RoundsLater(s: State, s': State) {
    && s.nextRound <= s'.nextRound
    && (forall id :: id in s'.rounds && id < s.nextRound ==> id in s.rounds && RowLater(s.rounds[id], s'.rounds[id]))
    && (forall id :: id in s.rounds && s.rounds[id].room in s'.rooms ==> id in s'.rounds)
  }

  lemma RoundsLaterTransitive(a: State, b: State, c: State)
    requires RoundsValid(a) && RoundsLater(a, b) && RoundsLater(b, c)
    requires forall r :: r in c.rooms && r in a.rooms ==> r in b.rooms
    ensures RoundsLater(a, c)
  {
  }

  ghost predicate AdminPresent(s: State, r: RoomId) {
    r in s.rooms && s.rooms[r].admin in MembersOf(s, r)
  }

  /** A deleted room never comes back, and a room whose admin is a member keeps such an admin. */
  ghost predicate RoomsLater(s: State, s': State) {
    && s.nextRoom <= s'.nextRoom
    && (forall r :: r in s'.rooms && r < s.nextRoom ==> r in s.rooms)
    && (forall r :: AdminPresent(s, r) && r in s'.rooms ==> AdminPresent(s', r))
  }

  /** What the other events do to rounds: nothing, delete a room with its rounds, or add one
      round to a room that has fewer open rounds than the limit. */
  ghost predicate RoomChange(s: State, limit: int, s': State, r: RoomId) {
    || (s'.rounds == s.rounds && s'.nextRound == s.nextRound && s.rooms.Keys <= s'.rooms.Keys)
    || (s'.rounds == Without(s.rounds, r) && s'.nextRound >= s.nextRound && s'.rooms.Keys == s.rooms.Keys - {r})
    || (s.nextRound in s'.rounds && s'.nextRound == s.nextRound + 1 && s'.rooms == s.rooms && |Open(s, r)| < limit
        && s'.rounds[s.nextRound].room == r && s'.rounds == s.rounds[s.nextRound := s'.rounds[s.nextRound]])
  }

  function RoomIn(e: Event): RoomId {
    if e.Leave? || e.NewRound? || e.Expiry? then e.room else 0
  }

  lemma LeaveChange(s: State, limit: int, r: RoomId, u: string)
    ensures RoomChange(s, limit, LeaveRoom(s, r, u).0, r)
  {
    hide Open, Successor, RemoveJoinMember, Without;
    LeaveFrame(s, r, u);
  }

  lemma NewRoundChange(s: State, limit: int, r: RoomId, duration: int, chosen: Selection)
    requires RoundsValid(s)
    ensures RoomChange(s, limit, CreateRound(s, limit, r, duration, chosen).0, r)
  {
    hide Open, Without;
    var problems := if chosen.Selected? then chosen.problems else [];
    WithoutInserted(s, r, duration, problems);
  }

  lemma WithoutInserted(s: State, r: RoomId, duration: int, problems: seq<nat>)
    requires RoundsValid(s)
    ensures Without(InsertRound(s, r, duration, problems).rounds, r) == Without(s.rounds, r)
  {
  }

  lemma OtherEventChange(s: State, limit: int, e: Event)
    requires !RoundEvent(e) && RoundsValid(s) && ExpiryValid(s)
    ensures RoomChange(s, limit, Next(s, limit, e), RoomIn(e))
  {
    hide Open, AddJoinMember, LeaveRoom, CreateRound, Without, RoundsValid;
    match e
    case Create(_, _, _) =>
    case Join(r, u, now) => JoinFrame(s, r, u, now);
    case Leave(r, u) => LeaveChange(s, limit, r, u);
    case NewRound(r, duration, chosen) => NewRoundChange(s, limit, r, duration, chosen);
    case Expiry(r) =>
  }

  lemma RoundsLaterStep(s: State, limit: int, e: Event)
    requires RoundsValid(s) && ExpiryValid(s)
    ensures RoundsLater(s, Next(s, limit, e))
  {
    hide Next;
    if RoundEvent(e) {
      RoundEventLater(s, limit, e);
    } else {
      OtherEventChange(s, limit, e);
    }
  }

  lemma RoundEventLater(s: State, limit: int, e: Event)
    requires RoundEvent(e)
    ensures RoundsLater(s, Next(s, limit, e))
  {
    var s' := Next(s, limit, e);
    RoundEventChange(s, limit, e);
    RoundFrame(s, limit, e);
    hide Next, RoundChange, RoundsLater;
    if id: RoundId, row :| RoundChange(s, s', id, row) {
      RoundChangeLater(s, s', id, row);
    } else {
      SameRoundsLater(s, s');
    }
  }

  lemma RoundChangeLater(s: State, s': State, id: RoundId, row: Round)
    requires RoundChange(s, s', id, row)
    ensures RoundsLater(s, s')
  {
    assert RowLater(s.rounds[id], row);
  }

  lemma SameRoundsLater(s: State, s': State)
    requires s'.rounds == s.rounds && s'.nextRound == s.nextRound
    ensures RoundsLater(s, s')
  {
  }

  lemma RoomsLaterStep(s: State, limit: int, e: Event)
    requires ExpiryValid(s)
    ensures RoomsLater(s, Next(s, limit, e))
  {
    var s' := Next(s, limit, e);
    GrowLater(s, s);
    if RoundEvent(e) {
      RoundFrame(s, limit, e);
      hide Next, RoomsLater;
      GrowLater(s, s');
    } else {
      hide LeaveRoom, CreateRound, DeleteRoom, RoomsLater, AddJoinMember;
      match e
      case Create(_, _, _) => GrowLater(s, s');
      case Join(r, u, now) => JoinLater(s, r, u, now);
      case Leave(r, u) => LeaveLater(s, r, u);
      case NewRound(r, duration, chosen) => NewRoundLater(s, limit, r, duration, chosen);
      case Expiry(r) => DeleteLater(s, s.(pending := s.pending - {r}), r);
    }
  }

  lemma NewRoundLater(s: State, limit: int, r: RoomId, duration: int, chosen: Selection)
    requires ExpiryValid(s)
    ensures RoomsLater(s, CreateRound(s, limit, r, duration, chosen).0)
  {
    hide Open, RoundsOf, DeleteRoom, RoomsLater;
    var inserted := InsertRound(s, r, duration, if chosen.Selected? then chosen.problems else []);
    GrowLater(s, inserted);
    GrowLater(s, s);
    DeleteLater(s, CancelExpiry(inserted, r), r);
  }

  /** Rooms may be added under fresh ids. */
  lemma GrowLater(s: State, s': State)
    requires ExpiryValid(s) && s.nextRoom <= s'.nextRoom && s'.members == s.members
    requires forall r :: r in s.rooms ==> r in s'.rooms && s'.rooms[r] == s.rooms[r]
    requires forall r :: r in s'.rooms && r !in s.rooms ==> r >= s.nextRoom
    ensures RoomsLater(s, s')
  {
  }

  lemma JoinLater(s: State, r: RoomId, u: string, now: int)
    ensures RoomsLater(s, AddJoinMember(s, r, u, now))
  {
  }

  lemma DeleteLater(s: State, s': State, r: RoomId)
    requires s'.rooms == s.rooms && s'.members == s.members && s'.nextRoom == s.nextRoom
    ensures RoomsLater(s, s') && RoomsLater(s, DeleteRoom(s', r))
  {
  }

  lemma LeaveLater(s: State, r: RoomId, u: string)
    ensures RoomsLater(s, LeaveRoom(s, r, u).0)
  {
  }

  lemma LimitStep(s: State, limit: int, e: Event)
    requires LimitKept(s, limit) && RoundsValid(s) && ExpiryValid(s)
    ensures LimitKept(Next(s, limit, e), limit)
  {
    var s' := Next(s, limit, e);
    RoundsLaterStep(s, limit, e);
    if RoundEvent(e) {
      RoundEventKeys(s, limit, e);
    } else {
      OtherEventChange(s, limit, e);
    }
    hide Next;
    forall r
      ensures |Open(s', r)| <= if limit < 0 then 0 else limit
    {
      OpenLater(s, s', r);
    }
  }

  lemma RoundEventKeys(s: State, limit: int, e: Event)
    requires RoundEvent(e)
    ensures Next(s, limit, e).rounds.Keys == s.rounds.Keys
  {
    hide Next;
    RoundEventChange(s, limit, e);
  }

  /** Apart from a new round, no round of a room becomes open. */
  lemma OpenLater(s: State, s': State, r: RoomId)
    requires RoundsLater(s, s') && RoundsValid(s)
    requires forall id :: id in s'.rounds && id !in s.rounds ==> id == s.nextRound
    ensures |Open(s', r)| <= |Open(s, r)|
            || (s.nextRound in s'.rounds && s'.rounds[s.nextRound].room == r && |Open(s', r)| <= |Open(s, r)| + 1)
  {
    if s.nextRound in Open(s', r) {
      SubsetSize(Open(s', r), Open(s, r) + {s.nextRound});
    } else {
      SubsetSize(Open(s', r), Open(s, r));
    }
  }

  // ----- every run -----

  lemma {:induction false} ValidRun(s: State, limit: int, run: seq<Event>)
    requires Valid(s, limit)
    ensures Valid(After(s, limit, run), limit)
    ensures RoundsLater(s, After(s, limit, run)) && RoomsLater(s, After(s, limit, run))
    decreases |run|
  {
    hide Next, PointersValid, ExpiryValid, RoundsValid, LimitKept, RoundsLater, RoomsLater;
    if run == [] {
      LaterReflexive(s);
    } else {
      var next := Next(s, limit, run[0]);
      PointersStep(s, limit, run[0]);
      ExpiryStep(s, limit, run[0]);
      RoundsStep(s, limit, run[0]);
      LimitStep(s, limit, run[0]);
      ValidRun(next, limit, run[1..]);
      RoundsLaterStep(s, limit, run[0]);
      RoomsLaterStep(s, limit, run[0]);
      LaterTransitive(s, next, After(s, limit, run));
    }
  }

  lemma LaterReflexive(s: State)
    ensures RoomsLater(s, s)
    ensures RoundsLater(s, s)
  {
  }

  lemma LaterTransitive(a: State, b: State, c: State)
    requires RoundsValid(a) && ExpiryValid(a)
    requires RoundsLater(a, b) && RoundsLater(b, c) && RoomsLater(a, b) && RoomsLater(b, c)
    ensures RoundsLater(a, c) && RoomsLater(a, c)
  {
    RoundsLaterTransitive(a, b, c);
  }

  lemma InitialValid(limit: int)
    ensures Valid(INITIAL, limit)
  {
    assert forall r :: Open(INITIAL, r) == {};
  }

  /** A member's pointer, if any, names an existing room that lists the member, in every run. */
  lemma PointerRun(limit: int, run: seq<Event>, u: string)
    ensures var s := After(INITIAL, limit, run);
            u in s.active ==> s.active[u] in s.rooms && u in MembersOf(s, s.active[u])
  {
    InitialValid(limit);
    ValidRun(INITIAL, limit, run);
  }

  /** From any reachable state on: a round keeps room and problems and never moves back, its
      duration is fixed once it started, a started or ended round has problems, and it lasts
      exactly as long as its room. */
  lemma RoundLifecycle(limit: int, before: seq<Event>, run: seq<Event>, id: RoundId)
    requires id in After(INITIAL, limit, before).rounds
    ensures var s := After(INITIAL, limit, before); var s' := After(s, limit, run); var was := s.rounds[id];
            && (id in s'.rounds <==> was.room in s'.rooms)
            && (id in s'.rounds ==>
                  && RowLater(was, s'.rounds[id])
                  && (s'.rounds[id].status != Created ==> s'.rounds[id].problems != []))
  {
    InitialValid(limit);
    ValidRun(INITIAL, limit, before);
    ValidRun(After(INITIAL, limit, before), limit, run);
  }

  /** In every run the pending expiry tasks are those of the existing rooms with a time to live
      the scheduler takes, and a started round has its timer to come exactly if its start did
      not fail before that and its duration makes an interval the scheduler takes. */
  lemma TasksRun(limit: int, run: seq<Event>)
    ensures var s := After(INITIAL, limit, run);
            && s.pending == (set r | r in s.rooms && Expires(s.rooms[r].ttl))
            && forall id :: id in s.rounds && s.rounds[id].status == Started ==>
                 (id in s.timers <==> id !in s.unseated && Timeable(s.rounds[id].duration))
  {
    InitialValid(limit);
    ValidRun(INITIAL, limit, run);
  }

  /** In every run a room has at most `limit` rounds that have not ended, those left behind by
      a failed choice of problems included. */
  lemma RoundLimit(limit: int, run: seq<Event>, r: RoomId)
    ensures |Open(After(INITIAL, limit, run), r)| <= if limit < 0 then 0 else limit
  {
    InitialValid(limit);
    ValidRun(INITIAL, limit, run);
  }

  /** Once a room's admin is a member, the admin is one as long as the room exists. */
  lemma AdminStays(limit: int, before: seq<Event>, run: seq<Event>, r: RoomId)
    requires AdminPresent(After(INITIAL, limit, before), r)
    ensures var s' := After(After(INITIAL, limit, before), limit, run); r in s'.rooms ==> AdminPresent(s', r)
  {
    InitialValid(limit);
    ValidRun(INITIAL, limit, before);
    ValidRun(After(INITIAL, limit, before), limit, run);
  }

  /** In every run, whenever a room's admin changes, it is because the old one left, and the new
      one is the earliest of the members who stayed. */
  lemma AdminChanges(limit: int, run: seq<Event>, e: Event, r: RoomId)
    requires var s := After(INITIAL, limit, run); r in s.rooms && r in Next(s, limit, e).rooms
    ensures var s := After(INITIAL, limit, run);
            var s' := Next(s, limit, e);
            s'.rooms[r].admin != s.rooms[r].admin ==>
              && e == Leave(r, s.rooms[r].admin)
              && MembersOf(s', r) == MembersOf(s, r) - {s.rooms[r].admin}
              && IsLeast(MembersOf(s', r), s'.rooms[r].admin)
  {
    hide After, Valid;
    InitialValid(limit);
    ValidRun(INITIAL, limit, run);
    var s := After(INITIAL, limit, run);
    assert ExpiryValid(s) by { ValidExpiry(s, limit); }
    AdminStep(s, limit, e, r);
  }

  lemma ValidExpiry(s: State, limit: int)
    requires Valid(s, limit)
    ensures ExpiryValid(s) && RoundsValid(s)
  {
  }

  lemma AdminStep(s: State, limit: int, e: Event, r: RoomId)
    requires ExpiryValid(s) && r in s.rooms && r in Next(s, limit, e).rooms
    ensures var s' := Next(s, limit, e);
            s'.rooms[r].admin != s.rooms[r].admin ==>
              && e == Leave(r, s.rooms[r].admin)
              && MembersOf(s', r) == MembersOf(s, r) - {s.rooms[r].admin}
              && IsLeast(MembersOf(s', r), s'.rooms[r].admin)
  {
    hide IsLeast;
    if RoundEvent(e) {
      RoundFrame(s, limit, e);
      hide Next;
    } else {
      hide Open, First, RoundsOf, Without;
    }
  }

  // ----- timers -----

  /** A started round without a timer stays started until its room's admin ends it or its room
      is deleted. */
  lemma {:induction false} UntimedStays(s: State, limit: int, run: seq<Event>, id: RoundId)
    requires Valid(s, limit) && id in s.rounds && s.rounds[id].status == Started && !Timed(s, id)
    requires forall k :: 0 <= k < |run| ==> !(run[k].End? && run[k].room == s.rounds[id].room)
    ensures var s' := After(s, limit, run);
            id in s'.rounds ==> s'.rounds[id].status == Started && !Timed(s', id) && s'.rounds[id].room == s.rounds[id].room
    decreases |run|
  {
    hide Next, Valid, Timeable;
    if run != [] {
      var s1 := Next(s, limit, run[0]);
      ValidExpiry(s, limit);
      UntimedStep(s, limit, run[0], id);
      ValidOne(s, limit, run[0]);
      ValidRun(s1, limit, run[1..]);
      if id in s1.rounds {
        UntimedStays(s1, limit, run[1..], id);
      } else {
        StaysGone(s1, After(s1, limit, run[1..]), id);
      }
    }
  }

  lemma StaysGone(s: State, s': State, id: RoundId)
    requires RoundsLater(s, s') && id !in s.rounds && id < s.nextRound
    ensures id !in s'.rounds
  {
  }

  lemma ValidOne(s: State, limit: int, e: Event)
    requires Valid(s, limit)
    ensures Valid(Next(s, limit, e), limit)
  {
    hide Next;
    assert After(Next(s, limit, e), limit, []) == Next(s, limit, e);
    assert [e][1..] == [];
    ValidRun(s, limit, [e]);
  }

  lemma UntimedStep(s: State, limit: int, e: Event, id: RoundId)
    requires RoundsValid(s) && ExpiryValid(s) && id in s.rounds && s.rounds[id].status == Started && !Timed(s, id)
    requires !(e.End? && e.room == s.rounds[id].room)
    ensures var s' := Next(s, limit, e);
            && id < s'.nextRound
            && (id in s'.rounds ==> s'.rounds[id].status == Started && !Timed(s', id) && s'.rounds[id].room == s.rounds[id].room)
  {
    hide Timeable;
    if RoundEvent(e) {
      RoundFrame(s, limit, e);
    } else {
      OtherEventChange(s, limit, e);
      UnseatedFrame(s, limit, e);
      hide Next;
    }
  }

  lemma UnseatedFrame(s: State, limit: int, e: Event)
    requires !RoundEvent(e)
    ensures Next(s, limit, e).unseated == s.unseated
  {
    hide Open, First, RoundsOf, Without, Successor;
  }

  /** Such a round: created for minus one minute, started without any failure before the timer. */
  lemma NegativeDuration(limit: int)
    requires limit >= 1
    ensures var run := [Create("room", "admin", 0), NewRound(0, -1, Selected([1], false)), Start(0, "admin", true)];
            var s := After(INITIAL, limit, run);
            0 in s.rounds && s.rounds[0].status == Started && s.timers == {} && s.unseated == {}
  {
    hide Open;
    var run := [Create("room", "admin", 0), NewRound(0, -1, Selected([1], false)), Start(0, "admin", true)];
    assert run[1..] == [NewRound(0, -1, Selected([1], false)), Start(0, "admin", true)];
    assert run[1..][1..] == [Start(0, "admin", true)] && run[1..][1..][1..] == [];
    var s1 := Next(INITIAL, limit, run[0]);
    assert s1.rooms == map[0 := Room("admin", 0)];
    NoneOpen(s1, 0);
    var s2 := Next(s1, limit, run[1]);
    assert s2 == InsertRound(s1, 0, -1, [1]);
    assert First(s2, 0, Created, 0) == Some(0);
    assert !Timeable(-1);
  }

  lemma NoneOpen(s: State, r: RoomId)
    requires forall id :: id in s.rounds && s.rounds[id].room == r ==> s.rounds[id].status == Ended
    ensures |Open(s, r)| == 0
  {
    assert Open(s, r) == {};
  }

  // ----- a failed round in the way -----

  /** A round waiting to start that has no problems. */
  predicate Empty(s: State, r: RoomId, id: RoundId) {
    id in s.rounds && s.rounds[id] == Round(r, Created, s.rounds[id].duration, [])
  }

  /** Creating a round leaves an empty one exactly if no problems were chosen and the room
      survives: a failed choice deletes it with its first round. */
  lemma FailureLeavesEmpty(s: State, limit: int, r: RoomId, duration: int, chosen: Selection)
    requires RoundsValid(s)
    ensures Empty(CreateRound(s, limit, r, duration, chosen).0, r, s.nextRound)
            <==> && r in s.rooms && |Open(s, r)| < limit
                 && if chosen.Selected? then chosen.problems == [] else RoundsOf(s, r) != {}
  {
    hide Open;
  }

  /** Behind an empty round nothing starts: whatever happens, it and every later round of its
      room stay created for as long as they exist. */
  lemma StuckBehind(s: State, limit: int, run: seq<Event>, r: RoomId, id: RoundId, k: RoundId)
    requires Valid(s, limit) && Empty(s, r, id)
    requires k in s.rounds && s.rounds[k].room == r && s.rounds[k].status == Created && id <= k
    ensures var s' := After(s, limit, run); k in s'.rounds ==> s'.rounds[k].status == Created
    decreases |run|
  {
    hide Next, Valid;
    if run != [] {
      var s1 := Next(s, limit, run[0]);
      ValidExpiry(s, limit);
      StuckStep(s, limit, run[0], r, id, k);
      ValidOne(s, limit, run[0]);
      ValidRun(s1, limit, run[1..]);
      if k in s1.rounds {
        StuckBehind(s1, limit, run[1..], r, id, k);
      } else {
        StaysGone(s1, After(s1, limit, run[1..]), k);
      }
    }
  }

  lemma StuckStep(s: State, limit: int, e: Event, r: RoomId, id: RoundId, k: RoundId)
    requires RoundsValid(s) && ExpiryValid(s) && Empty(s, r, id)
    requires k in s.rounds && s.rounds[k].room == r && s.rounds[k].status == Created && id <= k
    ensures var s' := Next(s, limit, e);
            && k < s'.nextRound
            && (k in s'.rounds ==> Empty(s', r, id) && s'.rounds[k].room == r && s'.rounds[k].status == Created)
  {
    hide CreateRoom, JoinRoom, LeaveRoom, CreateRound, Expire, StartRound, EndRound, SetDuration, TimerFires, First;
    FirstUpTo(s, r, id);
    match e
    case Start(room, user, seated) => StuckStart(s, r, id, k, room, user, seated);
    case Timer(timer) => StuckOther(s, r, id, k, room := 0, user := "", duration := 0, timer := timer);
    case End(room, user) => StuckOther(s, r, id, k, room, user, 0, 0);
    case ChangeDuration(room, user, duration) => StuckOther(s, r, id, k, room, user, duration, 0);
    case _ => OtherEventChange(s, limit, e);
  }

  lemma StuckOther(s: State, r: RoomId, id: RoundId, k: RoundId, room: RoomId, user: string, duration: int, timer: RoundId)
    requires RoundsValid(s) && Empty(s, r, id)
    requires k in s.rounds && s.rounds[k].room == r && s.rounds[k].status == Created
    ensures forall s' :: s' in {EndRound(s, room, user).0, SetDuration(s, room, user, duration).0, TimerFires(s, timer)} ==>
              && s'.nextRound == s.nextRound && k in s'.rounds
              && Empty(s', r, id) && s'.rounds[k].room == r && s'.rounds[k].status == Created
  {
    hide First;
  }

  lemma StuckStart(s: State, r: RoomId, id: RoundId, k: RoundId, room: RoomId, user: string, seated: bool)
    requires RoundsValid(s) && Empty(s, r, id) && First(s, r, Created, 0).Some? && First(s, r, Created, 0).value <= id
    requires k in s.rounds && s.rounds[k].room == r && s.rounds[k].status == Created && id <= k
    ensures var s' := StartRound(s, room, user, seated).0;
            && s'.nextRound == s.nextRound && k in s'.rounds
            && Empty(s', r, id) && s'.rounds[k].room == r && s'.rounds[k].status == Created
  {
    hide Timeable, First;
  }

  /** The first created round is not behind any other one. */
  lemma FirstUpTo(s: State, r: RoomId, id: RoundId)
    requires RoundsValid(s) && id in s.rounds && s.rounds[id].room == r && s.rounds[id].status == Created
    ensures First(s, r, Created, 0).Some? && First(s, r, Created, 0).value <= id
  {
    assert id in RoundsOf(s, r);
  }

  /** With no empty round up to it, a waiting round is started by starting them in turn. */
  lemma {:induction false} StartInTurn(s: State, limit: int, k: RoundId) returns (run: seq<Event>)
    requires Valid(s, limit) && k in s.rounds && s.rounds[k].status == Created
    requires forall id :: id in s.rounds && id <= k ==> !Empty(s, s.rounds[k].room, id)
    ensures var s' := After(s, limit, run); k in s'.rounds && s'.rounds[k].status == Started
    decreases k - First(s, s.rounds[k].room, Created, 0).value
  {
    hide Valid;
    ValidExpiry(s, limit);
    var r := s.rounds[k].room;
    FirstUpTo(s, r, k);
    var j := First(s, r, Created, 0).value;
    var e := Start(r, s.rooms[r].admin, true);
    var s1 := Next(s, limit, e);
    StartsFirst(s, limit, k);
    if j == k {
      run := [e];
      assert run[1..] == [];
      assert After(s1, limit, []) == s1;
    } else {
      ValidOne(s, limit, e);
      hide Next;
      ValidExpiry(s1, limit);
      FirstUpTo(s1, r, k);
      var rest := StartInTurn(s1, limit, k);
      run := [e] + rest;
      assert run[1..] == rest;
    }
  }

  lemma StartsFirst(s: State, limit: int, k: RoundId)
    requires RoundsValid(s) && k in s.rounds && s.rounds[k].status == Created
    requires forall id :: id in s.rounds && id <= k ==> !Empty(s, s.rounds[k].room, id)
    requires First(s, s.rounds[k].room, Created, 0).Some? && First(s, s.rounds[k].room, Created, 0).value <= k
    ensures var r := s.rounds[k].room;
            var j := First(s, r, Created, 0).value;
            var s' := Next(s, limit, Start(r, s.rooms[r].admin, true));
            && s'.rounds == s.rounds[j := s.rounds[j].(status := Started)] && s'.nextRound == s.nextRound
            && (forall id :: id in s'.rounds && id <= k ==> !Empty(s', r, id))
            && (j < k ==> First(s', r, Created, 0).Some? && j < First(s', r, Created, 0).value <= k)
  {
    hide Timeable, InsertRound, CreateRound;
    var r := s.rounds[k].room;
    var j := First(s, r, Created, 0).value;
    var s' := Next(s, limit, Start(r, s.rooms[r].admin, true));
    assert s.rounds[j].problems != [] by {
      assert !Empty(s, r, j);
    }
    assert s'.rounds == s.rounds[j := s.rounds[j].(status := Started)] && s'.nextRound == s.nextRound;
    hide Next, First, RoundsValid;
    NoneEmptied(s, s', r, j, k);
    if j < k {
      FirstMovesOn(s, s', r, j, k);
    }
  }

  lemma NoneEmptied(s: State, s': State, r: RoomId, j: RoundId, k: RoundId)
    requires j in s.rounds && s'.rounds == s.rounds[j := s.rounds[j].(status := Started)]
    requires forall id :: id in s.rounds && id <= k ==> !Empty(s, r, id)
    ensures forall id :: id in s'.rounds && id <= k ==> !Empty(s', r, id)
  {
    forall id | id in s'.rounds && id <= k ensures !Empty(s', r, id) {
      assert !Empty(s, r, id);
    }
  }

  lemma FirstMovesOn(s: State, s': State, r: RoomId, j: RoundId, k: RoundId)
    requires First(s, r, Created, 0) == Some(j) && j < k < s.nextRound
    requires k in s.rounds && s.rounds[k].room == r && s.rounds[k].status == Created
    requires s'.rounds == s.rounds[j := s.rounds[j].(status := Started)] && s'.nextRound == s.nextRound
    ensures First(s', r, Created, 0).Some? && j < First(s', r, Created, 0).value <= k
  {
    var next := First(s', r, Created, 0);
    assert k in RoundsOf(s', r);
    assert forall id :: id in RoundsOf(s', r) && id < j ==> id in RoundsOf(s, r);
  }

  /** A waiting round can still be started exactly if no empty round of its room is before it,
      and it is not empty itself. */
  lemma StartableIff(s: State, limit: int, k: RoundId)
    requires Valid(s, limit) && k in s.rounds && s.rounds[k].status == Created
    ensures (exists run :: k in After(s, limit, run).rounds && After(s, limit, run).rounds[k].status == Started)
            <==> forall id :: id in s.rounds && id <= k ==> !Empty(s, s.rounds[k].room, id)
  {
    hide Valid, After;
    if forall id :: id in s.rounds && id <= k ==> !Empty(s, s.rounds[k].room, id) {
      var run := StartInTurn(s, limit, k);
      assert k in After(s, limit, run).rounds;
    } else {
      var id :| id in s.rounds && id <= k && Empty(s, s.rounds[k].room, id);
      forall run ensures k in After(s, limit, run).rounds ==> After(s, limit, run).rounds[k].status == Created {
        StuckBehind(s, limit, run, s.rounds[k].room, id, k);
      }
    }
  }

  /** A run from the start that ends so: the second round finds no problems. */
  lemma SecondRoundFails(limit: int)
    requires limit >= 1
    ensures var run := [Create("room", "admin", 0), NewRound(0, 30, Selected([1], false)), Start(0, "admin", true),
                        End(0, "admin"), NewRound(0, 30, NotEnough(5, 0))];
            Empty(After(INITIAL, limit, run), 0, 1)
  {
    hide Open, Timeable;
    var last := [NewRound(0, 30, NotEnough(5, 0))];
    var ending := [End(0, "admin")] + last;
    var starting := [Start(0, "admin", true)] + ending;
    var choosing := [NewRound(0, 30, Selected([1], false))] + starting;
    assert [Create("room", "admin", 0), NewRound(0, 30, Selected([1], false)), Start(0, "admin", true),
            End(0, "admin"), NewRound(0, 30, NotEnough(5, 0))] == [Create("room", "admin", 0)] + choosing;
    var s1 := Next(INITIAL, limit, Create("room", "admin", 0));
    assert s1.rooms == map[0 := Room("admin", 0)];
    NoneOpen(s1, 0);
    var s2 := Next(s1, limit, choosing[0]);
    assert s2 == InsertRound(s1, 0, 30, [1]);
    assert First(s2, 0, Created, 0) == Some(0);
    var s3 := Next(s2, limit, starting[0]);
    assert s3.rounds == map[0 := Round(0, Started, 30, [1])] && s3.rooms == s1.rooms && s3.nextRound == 1;
    assert First(s3, 0, Started, 0) == Some(0);
    var s4 := Next(s3, limit, ending[0]);
    assert s4.rounds == map[0 := Round(0, Ended, 30, [1])] && s4.rooms == s1.rooms && s4.nextRound == 1;
    NoneOpen(s4, 0);
    assert 0 in RoundsOf(s4, 0);
    var s5 := Next(s4, limit, last[0]);
    assert Empty(s5, 0, 1);
    assert last[1..] == [] && ending[1..] == last && starting[1..] == ending && choosing[1..] == starting;
    hide Next;
    assert After(s5, limit, []) == s5;
    assert After(s4, limit, last) == s5;
    assert After(s3, limit, ending) == s5;
    assert After(s2, limit, starting) == s5;
    assert After(s1, limit, choosing) == s5;
    assert ([Create("room", "admin", 0)] + choosing)[1..] == choosing;
  }
}

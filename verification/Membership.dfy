// Who is in a room and since when, whose pointer names it, and which rooms and rounds there
// are, told from the history of requests alone.

module Membership {
  import opened Common
  import opened ProblemSet
  import opened Rooms
  import opened Text

  ghost function At(limit: int, run: seq<Event>): State {
    After(INITIAL, limit, run)
  }

  lemma {:induction false} AfterLast(s: State, limit: int, run: seq<Event>)
    requires run != []
    ensures After(s, limit, run) == Next(After(s, limit, run[..|run| - 1]), limit, run[|run| - 1])
    decreases |run|
  {
    hide Next;
    if |run| == 1 {
      assert run[..0] == [];
      assert After(Next(s, limit, run[0]), limit, run[1..]) == Next(s, limit, run[0]);
    } else {
      assert run[1..][..|run| - 2] == run[..|run| - 1][1..];
      AfterLast(Next(s, limit, run[0]), limit, run[1..]);
    }
  }

  lemma Reachable(limit: int, run: seq<Event>)
    ensures Valid(At(limit, run), limit)
    ensures PointersValid(At(limit, run)) && ExpiryValid(At(limit, run)) && RoundsValid(At(limit, run))
  {
    InitialValid(limit);
    ValidRun(INITIAL, limit, run);
  }

  // ----- members -----

  /** When the user last joined the room, if they have not left it since and it still exists. */
  ghost function JoinedAt(limit: int, run: seq<Event>, r: RoomId, u: string): Option<int> {
    if run == [] || r !in At(limit, run).rooms then None
    else
      var before, e := run[..|run| - 1], run[|run| - 1];
      if e.Join? && e.room == r && e.user == u then Some(e.now)
      else if e == Leave(r, u) then None
      else JoinedAt(limit, before, r, u)
  }

  ghost function Stored(m: Members, u: string): Option<int> {
    if u in m then Some(m[u]) else None
  }

  /** In every run a room's members are exactly those who joined it and have not left since,
      each with the time of the last join. */
  lemma {:induction false} MembersExactly(limit: int, run: seq<Event>, r: RoomId, u: string)
    ensures Stored(MembersOf(At(limit, run), r), u) == JoinedAt(limit, run, r, u)
  {
    hide Next, After;
    Reachable(limit, run);
    if run == [] {
      assert At(limit, []) == INITIAL by { NoRun(limit); }
    } else if r in At(limit, run).rooms {
      var before, e := run[..|run| - 1], run[|run| - 1];
      MembersExactly(limit, before, r, u);
      AfterLast(INITIAL, limit, run);
      MembersStep(At(limit, before), limit, e, r);
    }
  }

  lemma NoRun(limit: int)
    ensures At(limit, []) == INITIAL
  {
  }

  lemma MembersStep(s: State, limit: int, e: Event, r: RoomId)
    requires r in Next(s, limit, e).rooms
    ensures MembersOf(Next(s, limit, e), r) ==
            if e.Join? && e.room == r then MembersOf(s, r)[e.user := e.now]
            else if e.Leave? && e.room == r then MembersOf(s, r) - {e.user}
            else MembersOf(s, r)
  {
    hide StartRound, SetDuration, EndRound, TimerFires, LeaveRoom, CreateRound;
    match e
    case Create(_, _, _) =>
    case Join(_, _, _) =>
    case Leave(left, u) => LeaveMoves(s, left, u);
    case NewRound(_, _, _) => NewRoundKeeps(s, limit, e.room, e.duration, e.chosen);
    case Expiry(_) =>
    case _ => RoundFrame(s, limit, e);
  }

  /** Leaving takes the user and the pointer, and deletes a room left empty. */
  lemma LeaveMoves(s: State, r: RoomId, u: string)
    ensures var s' := LeaveRoom(s, r, u).0;
            if r !in s.rooms then s' == s
            else
              && s'.active == s.active - {u}
              && s'.rooms.Keys == (if MembersOf(s, r).Keys == {u} then s.rooms.Keys - {r} else s.rooms.Keys)
              && MembersOf(s', r) == MembersOf(s, r) - {u}
              && forall other :: other != r ==> MembersOf(s', other) == MembersOf(s, other)
  {
    hide Successor, Without;
    LeaveFrame(s, r, u);
    LeftEmpty(s, r, u);
    var left := RemoveJoinMember(s, r, u);
    assert MembersOf(left, r) == MembersOf(s, r) - {u};
  }

  /** Asking for a round leaves rooms, members and pointers alone, or deletes the room. */
  lemma NewRoundKeeps(s: State, limit: int, r: RoomId, duration: int, chosen: Selection)
    ensures var s' := CreateRound(s, limit, r, duration, chosen).0;
            if r in s.rooms && |Open(s, r)| < limit && !chosen.Selected? && RoundsOf(s, r) == {}
            then s'.members == s.members - {r} && s'.active == s.active - MembersOf(s, r).Keys && s'.rooms == s.rooms - {r}
            else s'.members == s.members && s'.active == s.active && s'.rooms == s.rooms
  {
    hide Open, RoundsOf, Without;
  }

  /** Who takes over when an admin leaves: of the members who stay, the one whose last join is
      earliest, and of those who joined at once the one whose id comes first. */
  lemma SuccessorJoinedFirst(limit: int, run: seq<Event>, e: Event, r: RoomId)
    requires r in At(limit, run).rooms && r in Next(At(limit, run), limit, e).rooms
    requires Next(At(limit, run), limit, e).rooms[r].admin != At(limit, run).rooms[r].admin
    ensures var was, now := At(limit, run).rooms[r].admin, Next(At(limit, run), limit, e).rooms[r].admin;
            && e == Leave(r, was)
            && JoinedAt(limit, run, r, now).Some?
            && forall v :: v != was && v != now && JoinedAt(limit, run, r, v).Some? ==>
                 var first, other := JoinedAt(limit, run, r, now).value, JoinedAt(limit, run, r, v).value;
                 first < other || (first == other && Precedes(now, v))
  {
    hide Next, After, Precedes, JoinedAt;
    var s, s' := At(limit, run), Next(At(limit, run), limit, e);
    AdminChanges(limit, run, e, r);
    var was, now := s.rooms[r].admin, s'.rooms[r].admin;
    MembersExactly(limit, run, r, now);
    forall v | v != was && v != now && JoinedAt(limit, run, r, v).Some?
      ensures v in MembersOf(s', r) && MembersOf(s, r)[v] == JoinedAt(limit, run, r, v).value && Earlier(MembersOf(s', r), now, v)
    {
      MembersExactly(limit, run, r, v);
    }
  }

  // ----- pointers -----

  /** The user is in a room this step deletes. */
  ghost predicate LosesRoom(limit: int, run: seq<Event>, u: string)
    requires run != []
  {
    var before := run[..|run| - 1];
    exists r :: r in At(limit, before).rooms && r !in At(limit, run).rooms && JoinedAt(limit, before, r, u).Some?
  }

  /** The room last joined, until the user leaves any room or is in one that is deleted. */
  ghost function PointerOf(limit: int, run: seq<Event>, u: string): Option<RoomId> {
    if run == [] then None
    else
      var before, e := run[..|run| - 1], run[|run| - 1];
      if e.Join? && e.user == u && e.room in At(limit, before).rooms then Some(e.room)
      else if (e.Leave? && e.user == u && e.room in At(limit, before).rooms) || LosesRoom(limit, run, u) then None
      else PointerOf(limit, before, u)
  }

  ghost function Active(s: State, u: string): Option<RoomId> {
    if u in s.active then Some(s.active[u]) else None
  }

  /** In every run the active-room pointers are exactly those. */
  lemma {:induction false} PointersExactly(limit: int, run: seq<Event>, u: string)
    ensures Active(At(limit, run), u) == PointerOf(limit, run, u)
  {
    hide Next, After;
    if run == [] {
      NoRun(limit);
    } else {
      var before, e := run[..|run| - 1], run[|run| - 1];
      PointersExactly(limit, before, u);
      AfterLast(INITIAL, limit, run);
      Reachable(limit, before);
      var s := At(limit, before);
      forall r ensures u in MembersOf(s, r) <==> JoinedAt(limit, before, r, u).Some? {
        MembersExactly(limit, before, r, u);
      }
      PointerStep(s, limit, e, u);
    }
  }

  ghost predicate InDeleted(s: State, s': State, u: string) {
    exists r :: r in s.rooms && r !in s'.rooms && u in MembersOf(s, r)
  }

  lemma PointerStep(s: State, limit: int, e: Event, u: string)
    requires PointersValid(s)
    ensures var s' := Next(s, limit, e);
            Active(s', u) ==
            if e.Join? && e.user == u && e.room in s.rooms then Some(e.room)
            else if (e.Leave? && e.user == u && e.room in s.rooms) || InDeleted(s, s', u) then None
            else Active(s, u)
  {
    hide StartRound, SetDuration, EndRound, TimerFires, LeaveRoom, CreateRound;
    match e
    case Create(_, _, _) =>
    case Join(_, _, _) =>
    case Leave(left, user) => LeaveMoves(s, left, user);
    case NewRound(_, _, _) => NewRoundKeeps(s, limit, e.room, e.duration, e.chosen);
    case Expiry(r) => ExpiryPointers(s, r, u);
    case _ => RoundFrame(s, limit, e);
  }

  lemma ExpiryPointers(s: State, r: RoomId, u: string)
    ensures Active(Expire(s, r), u) == if InDeleted(s, Expire(s, r), u) then None else Active(s, u)
  {
    hide Without;
  }

  // ----- rooms -----

  /** A step of any run makes a room exactly if it asks for one with a name of 4 to 31 characters,
      and deletes one exactly if its last member leaves, its time is up, or the problems of its
      first round could not be chosen. */
  lemma RoomsExactly(limit: int, run: seq<Event>, e: Event, r: RoomId)
    ensures var s, s' := At(limit, run), Next(At(limit, run), limit, e);
            && (r in s.rooms ==>
                  (r !in s'.rooms <==>
                    || (e.Leave? && e.room == r && MembersOf(s, r).Keys == {e.user})
                    || (e == Expiry(r) && Expires(s.rooms[r].ttl))
                    || (e.NewRound? && e.room == r && !e.chosen.Selected? && 0 < limit
                        && forall id :: id in s.rounds ==> s.rounds[id].room != r)))
            && (r !in s.rooms ==> (r in s'.rooms <==> e.Create? && 4 <= |e.name| <= 31 && r == s.nextRoom))
            && (r in s.rooms && r in s'.rooms ==> s'.rooms[r].ttl == s.rooms[r].ttl)
            && (r !in s.rooms && r in s'.rooms ==> s'.rooms[r] == Room(e.admin, e.ttl))
            && (r !in s'.rooms ==> MembersOf(s', r) == map[] && forall id :: id in s'.rounds ==> s'.rounds[id].room != r)
  {
    hide After, Next, Valid, PointersValid, ExpiryValid, RoundsValid, Expires;
    var s := At(limit, run);
    Reachable(limit, run);
    NoRoundsOf(s, r);
    RoomStep(s, limit, e, r);
    GoneEmpty(s, limit, e, r);
  }

  lemma GoneEmpty(s: State, limit: int, e: Event, r: RoomId)
    requires Valid(s, limit)
    ensures var s' := Next(s, limit, e);
            r !in s'.rooms ==> MembersOf(s', r) == map[] && forall id :: id in s'.rounds ==> s'.rounds[id].room != r
  {
    hide Next;
    ValidOne(s, limit, e);
  }

  lemma NoRoundsOf(s: State, r: RoomId)
    ensures RoundsOf(s, r) == {} <==> forall id :: id in s.rounds ==> s.rounds[id].room != r
    ensures RoundsOf(s, r) == {} ==> Open(s, r) == {}
  {
    assert forall id :: id in RoundsOf(s, r) <==> id in s.rounds && s.rounds[id].room == r;
  }

  lemma RoomStep(s: State, limit: int, e: Event, r: RoomId)
    requires ExpiryValid(s)
    requires RoundsOf(s, r) == {} ==> Open(s, r) == {}
    ensures var s' := Next(s, limit, e);
            && (r in s.rooms ==>
                  (r !in s'.rooms <==>
                    || (e.Leave? && e.room == r && MembersOf(s, r).Keys == {e.user})
                    || (e == Expiry(r) && Expires(s.rooms[r].ttl))
                    || (e.NewRound? && e.room == r && !e.chosen.Selected? && 0 < limit && RoundsOf(s, r) == {})))
            && (r !in s.rooms ==> (r in s'.rooms <==> e.Create? && 4 <= |e.name| <= 31 && r == s.nextRoom))
            && (r in s.rooms && r in s'.rooms ==> s'.rooms[r].ttl == s.rooms[r].ttl)
            && (r !in s.rooms && r in s'.rooms ==> s'.rooms[r] == Room(e.admin, e.ttl))
  {
    hide StartRound, SetDuration, EndRound, TimerFires, LeaveRoom, CreateRound, Open, RoundsOf, Expires;
    match e
    case Create(_, _, _) =>
    case Join(_, _, _) =>
    case Leave(left, u) => LeaveMoves(s, left, u); LeaveKeepsTtl(s, left, u);
    case NewRound(_, _, _) => NewRoundKeeps(s, limit, e.room, e.duration, e.chosen);
    case Expiry(_) =>
    case _ => RoundFrame(s, limit, e);
  }

  lemma LeaveKeepsTtl(s: State, r: RoomId, u: string)
    ensures forall k :: k in s.rooms && k in LeaveRoom(s, r, u).0.rooms ==> LeaveRoom(s, r, u).0.rooms[k].ttl == s.rooms[k].ttl
  {
    hide Successor, Without;
    LeaveFrame(s, r, u);
  }

  lemma LeftEmpty(s: State, r: RoomId, u: string)
    ensures u in MembersOf(s, r) ==> (MembersOf(s, r) - {u} == map[] <==> MembersOf(s, r).Keys == {u})
  {
    var m := MembersOf(s, r);
    if u in m && m - {u} == map[] {
      forall v | v in m ensures v == u {
        assert v != u ==> v in m - {u};
      }
    }
  }

  // ----- rounds -----

  /** The room's oldest round with this status. */
  predicate OldestWith(s: State, id: RoundId, status: Status) {
    && id in s.rounds && s.rounds[id].status == status
    && forall k :: k in s.rounds && k < id && s.rounds[k].room == s.rounds[id].room ==> s.rounds[k].status != status
  }

  predicate ByAdmin(s: State, id: RoundId, r: RoomId, u: string) {
    id in s.rounds && s.rounds[id].room == r && r in s.rooms && s.rooms[r].admin == u
  }

  /** What a step of any run does to a round that stays: the admin starts the oldest created one
      of the room unless it has no problems, sets its length to 5 to 120 minutes, and ends the
      oldest started one; its timer ends it. Nobody else and nothing else changes a round. */
  lemma RoundsExactly(limit: int, run: seq<Event>, e: Event, id: RoundId)
    requires id in At(limit, run).rounds && id in Next(At(limit, run), limit, e).rounds
    ensures var s := At(limit, run);
            var row := s.rounds[id];
            Next(s, limit, e).rounds[id] ==
            if e.Start? && ByAdmin(s, id, e.room, e.user) && OldestWith(s, id, Created) && row.problems != []
            then row.(status := Started)
            else if e.ChangeDuration? && ByAdmin(s, id, e.room, e.user) && OldestWith(s, id, Created) && 5 <= e.duration <= 120
            then row.(duration := e.duration)
            else if e.End? && ByAdmin(s, id, e.room, e.user) && OldestWith(s, id, Started) then row.(status := Ended)
            else if e == Timer(id) && id in s.timers then row.(status := Ended)
            else row
  {
    hide After, CreateRoom, JoinRoom, LeaveRoom, CreateRound, Expire, First;
    Reachable(limit, run);
    hide Valid, PointersValid, ExpiryValid, RoundsValid, At;
    var s := At(limit, run);
    match e
    case Start(r, u, seated) => FirstIsOldest(s, r, Created, id); RoundStarts(s, r, u, seated, id);
    case ChangeDuration(r, u, duration) => FirstIsOldest(s, r, Created, id);
    case End(r, u) => FirstIsOldest(s, r, Started, id);
    case Timer(_) =>
    case _ => OtherRows(s, limit, e, id);
  }

  lemma RoundStarts(s: State, r: RoomId, u: string, seated: bool, id: RoundId)
    requires id in s.rounds && (s.rounds[id].room == r ==> (First(s, r, Created, 0) == Some(id) <==> OldestWith(s, id, Created)))
    ensures id in StartRound(s, r, u, seated).0.rounds
    ensures StartRound(s, r, u, seated).0.rounds[id] ==
            if ByAdmin(s, id, r, u) && OldestWith(s, id, Created) && s.rounds[id].problems != []
            then s.rounds[id].(status := Started) else s.rounds[id]
  {
    hide Timeable, First;
  }

  lemma FirstIsOldest(s: State, r: RoomId, status: Status, id: RoundId)
    requires RoundsValid(s)
    ensures id in s.rounds && s.rounds[id].room == r ==> (First(s, r, status, 0) == Some(id) <==> OldestWith(s, id, status))
  {
    hide RoundsValid;
    if id in s.rounds && s.rounds[id].room == r {
      assert id < s.nextRound by { InRange(s, id); }
      var first := First(s, r, status, 0);
      forall k | k in s.rounds && s.rounds[k].room == r ensures k in RoundsOf(s, r) {
      }
      if first.Some? {
        assert first.value in RoundsOf(s, r);
      }
    }
  }

  lemma InRange(s: State, id: RoundId)
    requires RoundsValid(s) && id in s.rounds
    ensures id < s.nextRound
  {
  }

  lemma OtherRows(s: State, limit: int, e: Event, id: RoundId)
    requires !RoundEvent(e) && RoundsValid(s) && ExpiryValid(s)
    requires id in s.rounds && id in Next(s, limit, e).rounds
    ensures Next(s, limit, e).rounds[id] == s.rounds[id]
  {
    OtherEventChange(s, limit, e);
    InRange(s, id);
    hide Next;
  }

  /** A round is added exactly when one is asked for in a room with fewer open rounds than the
      limit and either its problems were chosen or the room has rounds already; it is what was
      asked for, not started, and has no problems when none were chosen. */
  lemma RoundsAdded(limit: int, run: seq<Event>, e: Event, id: RoundId)
    requires id !in At(limit, run).rounds
    ensures var s, s' := At(limit, run), Next(At(limit, run), limit, e);
            && (id in s'.rounds <==>
                  && e.NewRound? && id == s.nextRound && e.room in s.rooms && |Open(s, e.room)| < limit
                  && (e.chosen.Selected? || exists k :: k in s.rounds && s.rounds[k].room == e.room))
            && (id in s'.rounds ==> s'.rounds[id] == Round(e.room, Created, e.duration,
                                                           if e.chosen.Selected? then e.chosen.problems else []))
  {
    hide After;
    Reachable(limit, run);
    hide Valid, PointersValid, At;
    var s := At(limit, run);
    if e.NewRound? {
      hide CreateRoom, JoinRoom, LeaveRoom, StartRound, SetDuration, EndRound, TimerFires, Expire;
      NoRoundsOf(s, e.room);
      hide Open, RoundsOf;
    } else if RoundEvent(e) {
      RoundEventKeys(s, limit, e);
      hide Next;
    } else {
      hide Open, First, RoundsOf, Successor;
    }
  }

  /** What a request about a room's round is answered: unknown rooms and rounds are not found, only
      the admin is allowed, and a start succeeds exactly with problems, participants in their
      seats and a duration the scheduler takes. */
  lemma AnswersExactly(limit: int, run: seq<Event>, r: RoomId, u: string, seated: bool, duration: int, id: RoundId)
    ensures var s := At(limit, run);
            && (r !in s.rooms ==>
                  {StartRound(s, r, u, seated).1, SetDuration(s, r, u, duration).1, EndRound(s, r, u).1} == {NotFound})
            && (r in s.rooms && s.rooms[r].admin != u ==>
                  {StartRound(s, r, u, seated).1, SetDuration(s, r, u, duration).1, EndRound(s, r, u).1} == {Unauthorized})
            && (ByAdmin(s, id, r, u) && OldestWith(s, id, Created) ==>
                  && StartRound(s, r, u, seated).1 == (if s.rounds[id].problems == [] then BadRequest
                                                       else if seated && Timeable(s.rounds[id].duration) then Done else Failed)
                  && SetDuration(s, r, u, duration).1 == if 5 <= duration <= 120 then Done else BadRequest)
            && (r in s.rooms && s.rooms[r].admin == u ==> EndRound(s, r, u).1 == Done)
            && (r in s.rooms && s.rooms[r].admin == u
                && (forall k :: k in s.rounds && s.rounds[k].room == r ==> s.rounds[k].status != Created) ==>
                  {StartRound(s, r, u, seated).1, SetDuration(s, r, u, duration).1} == {NotFound})
  {
    hide After, First, Timeable;
    Reachable(limit, run);
    hide Valid, PointersValid, ExpiryValid, RoundsValid, At;
    FirstIsOldest(At(limit, run), r, Created, id);
  }

  // ----- intervals -----

  /** For every number of minutes whose nanoseconds fit 64 bits a round has a timer exactly if its
      length is not negative, and a room expires exactly if its time to live is positive. */
  lemma OrdinaryIntervals(minutes: int)
    requires -153_722_867 <= minutes <= 153_722_867
    ensures Timeable(minutes) <==> minutes >= 0
    ensures Expires(minutes) <==> minutes > 0
  {
  }
}

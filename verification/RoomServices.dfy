// The room service, refining the steps of Rooms.

module RoomServices {
  import opened Common
  import opened Text
  import opened ProblemSet
  import opened Rooms
  import R = Rooms

  class RoomService {
    const maxNumRoundsPerRoom: int
    var rooms: map<RoomId, Room>
    var members: map<RoomId, Members>
    var active: map<string, RoomId>
    var rounds: map<RoundId, Round>
    var timers: set<RoundId>
    var ttlTaskIDs: set<RoomId>
    var pending: set<RoomId>
    var nextRoom: nat
    var nextRound: nat
    ghost var unseated: set<RoundId>

    ghost function View(): State
      reads this
    {
      State(rooms, members, active, rounds, timers, ttlTaskIDs, pending, nextRoom, nextRound, unseated)
    }

    constructor (limit: int)
      ensures maxNumRoundsPerRoom == limit && View() == INITIAL
    {
      maxNumRoundsPerRoom := limit;
      rooms, members, active, rounds := map[], map[], map[], map[];
      timers, ttlTaskIDs, pending := {}, {}, {};
      nextRoom, nextRound, unseated := 0, 0, {};
    }

    method CreateRoom(name: string, admin: string, ttl: int) returns (room: Option<RoomId>)
      modifies this
      ensures (View(), if room.Some? then Done else BadRequest) == R.CreateRoom(old(View()), name, admin, ttl)
      ensures room.Some? <==> 4 <= |name| <= 31
      ensures room.Some? ==> room.value == old(nextRoom)
    {
      if |name| < 4 || |name| >= 32 {
        return None;
      }
      room := Some(nextRoom);
      rooms := rooms[nextRoom := Room(admin, ttl)];
      if ttl > 0 && Schedulable(ttl * MINUTE) {
        pending := pending + {nextRoom};
        ttlTaskIDs := ttlTaskIDs + {nextRoom};
      }
      nextRoom := nextRoom + 1;
    }

    /** ZADD, then SET of the pointer; whether the member is new. */
    method AddJoinMember(r: RoomId, u: string, now: int) returns (added: bool)
      modifies this
      ensures View() == R.AddJoinMember(old(View()), r, u, now)
      ensures added == (u !in MembersOf(old(View()), r))
      ensures r in members && u in members[r] && members[r][u] == now && u in active && active[u] == r
    {
      var joined: Members := if r in members then members[r] else map[];
      added := u !in joined;
      members := members[r := joined[u := now]];
      active := active[u := r];
    }

    /** ZREM, then DEL of the pointer; whether there was such a member. */
    method RemoveJoinMember(r: RoomId, u: string) returns (removed: bool)
      modifies this
      ensures View() == R.RemoveJoinMember(old(View()), r, u)
      ensures removed == (u in MembersOf(old(View()), r))
      ensures u !in MembersOf(View(), r) && u !in active
    {
      var joined: Members := if r in members then members[r] else map[];
      removed := u in joined;
      members := members[r := joined - {u}];
      active := active - {u};
    }

    method DeleteJoinMembers(r: RoomId)
      modifies this
      ensures View() == old(View()).(members := old(members) - {r}, active := old(active) - MembersOf(old(View()), r).Keys)
    {
      var rest := if r in members then members[r].Keys else {};
      ghost var all := rest;
      members := members - {r};
      while rest != {}
        invariant rest <= all && active == old(active) - (all - rest)
        invariant View() == old(View()).(members := old(members) - {r}, active := active)
        decreases |rest|
      {
        var u :| u in rest;
        active := active - {u};
        rest := rest - {u};
      }
      assert all - {} == all;
    }

    method CancelRoomExpiry(r: RoomId)
      modifies this
      ensures View() == CancelExpiry(old(View()), r)
    {
      if r in ttlTaskIDs {
        pending := pending - {r};
        ttlTaskIDs := ttlTaskIDs - {r};
      }
    }

    /** Deletes the rounds loaded with the room, then the room; the database cascades to any other. */
    method DeleteRoom(r: RoomId, loaded: set<RoundId>)
      requires forall id :: id in loaded && id in rounds ==> rounds[id].room == r
      modifies this
      ensures View() == R.DeleteRoom(old(View()), r)
    {
      DeleteJoinMembers(r);
      var rest := loaded;
      while rest != {}
        invariant View() == old(View()).(
                              members := old(members) - {r},
                              active := old(active) - MembersOf(old(View()), r).Keys,
                              rounds := rounds)
        invariant rest <= loaded
        invariant Without(rounds, r) == Without(old(rounds), r)
        invariant forall id :: id in loaded && id in rounds ==> rounds[id].room == r
        decreases |rest|
      {
        var id :| id in rest;
        rounds := rounds - {id};
        rest := rest - {id};
      }
      rounds := Without(rounds, r);
      rooms := rooms - {r};
    }

    /** The rounds loaded with a room. */
    function Loaded(r: RoomId): (ids: set<RoundId>)
      reads this
      ensures ids == RoundsOf(View(), r)
    {
      set id | id in rounds && rounds[id].room == r
    }

    method JoinRoom(r: RoomId, u: string, now: int) returns (answer: Answer)
      modifies this
      ensures (View(), answer) == R.JoinRoom(old(View()), r, u, now)
      ensures answer == if r !in old(rooms) then NotFound else if u in MembersOf(old(View()), r) then BadRequest else Done
    {
      if r !in rooms {
        return NotFound;
      }
      var added := AddJoinMember(r, u, now);
      return if added then Done else BadRequest;
    }

    /** ZRANGE 0 0; an empty room is an error. */
    method FindRightfulRoomAdmin(r: RoomId) returns (found: Option<string>)
      ensures found == if MembersOf(View(), r) == map[] then None else Some(Successor(MembersOf(View(), r)))
    {
      var joined: Members := if r in members then members[r] else map[];
      if joined == map[] {
        return None;
      }
      var rest := joined.Keys;
      var u :| u in rest;
      EarlierOrder(joined, u, u, u);
      rest := rest - {u};
      while rest != {}
        invariant rest <= joined.Keys && u in joined
        invariant forall v :: v in joined && v !in rest ==> Earlier(joined, u, v)
        decreases |rest|
      {
        var v :| v in rest;
        ghost var was := u;
        EarlierOrder(joined, u, v, v);
        EarlierOrder(joined, v, v, v);
        if !(joined[u] < joined[v] || (joined[u] == joined[v] && Precedes(u, v))) {
          u := v;
        }
        rest := rest - {v};
        forall w | w in joined && w !in rest
          ensures Earlier(joined, u, w)
        {
          EarlierOrder(joined, u, was, w);
        }
      }
      SomeLeast(joined);
      assert IsLeast(joined, u);
      return Some(u);
    }

    method LeaveRoom(r: RoomId, u: string) returns (answer: Answer)
      modifies this
      ensures (View(), answer) == R.LeaveRoom(old(View()), r, u)
      ensures answer == if r !in old(rooms) then NotFound else if u !in MembersOf(old(View()), r) then BadRequest else Done
    {
      hide Successor, R.DeleteRoom;
      if r !in rooms {
        return NotFound;
      }
      var room := rooms[r];
      var loaded := Loaded(r);
      var removed := RemoveJoinMember(r, u);
      if !removed {
        return BadRequest;
      }
      if members[r] == map[] {
        CancelRoomExpiry(r);
        DeleteRoom(r, loaded);
        return Done;
      }
      if room.admin == u {
        var successor := FindRightfulRoomAdmin(r);
        rooms := rooms[r := room.(admin := successor.value)];
      }
      return Done;
    }

    /** Run by the scheduler when a room's time is up. */
    method ExpireRoom(r: RoomId)
      modifies this
      ensures View() == Expire(old(View()), r)
    {
      if r !in pending {
        return;
      }
      pending := pending - {r};
      if r !in rooms {
        return;
      }
      DeleteRoom(r, Loaded(r));
    }

    /** Chooses the problems after the row is in the table. */
    method CreateRound(r: RoomId, duration: int, u: Unicode, catalogue: Catalogue, request: Request)
      returns (answer: Answer, chosen: Selection)
      modifies this
      ensures (View(), answer) == R.CreateRound(old(View()), maxNumRoundsPerRoom, r, duration, chosen)
      ensures answer == Done ==> Served(u, catalogue, request)
      ensures answer == NotFound <==> r !in old(rooms)
      ensures r in old(rooms) && |Open(old(View()), r)| < maxNumRoundsPerRoom ==>
                (answer == Done <==> Served(u, catalogue, request))
    {
      hide Served, Answers, R.DeleteRoom;
      chosen := NoneFound;
      if r !in rooms {
        return NotFound, chosen;
      }
      var loaded := Loaded(r);
      var open := set id | id in loaded && rounds[id].status != Ended;
      assert open == Open(View(), r);
      if |open| >= maxNumRoundsPerRoom {
        return BadRequest, chosen;
      }
      chosen := SelectProblems(u, catalogue, request);
      var id := nextRound;
      nextRound := nextRound + 1;
      rounds := rounds[id := Round(r, Created, duration, [])];
      if !chosen.Selected? {
        if loaded == {} {
          CancelRoomExpiry(r);
          DeleteRoom(r, loaded);
        }
        return BadRequest, chosen;
      }
      rounds := rounds[id := rounds[id].(problems := chosen.problems)];
      assert rounds == InsertRound(old(View()), r, duration, chosen.problems).rounds;
      return Done, chosen;
    }

    /** The first of the room's rounds with a status. */
    method FindRound(r: RoomId, status: Status) returns (found: Option<RoundId>)
      ensures found == First(View(), r, status, 0)
    {
      for id := 0 to nextRound
        invariant First(View(), r, status, 0) == First(View(), r, status, id)
      {
        if id in rounds && rounds[id].room == r && rounds[id].status == status {
          return Some(id);
        }
      }
      return None;
    }

    /** `seated` says whether the participants could be inserted. */
    method StartRound(r: RoomId, u: string, seated: bool) returns (answer: Answer)
      modifies this
      ensures (View(), answer) == R.StartRound(old(View()), r, u, seated)
      ensures r !in old(rooms) ==> answer == NotFound
      ensures answer == Unauthorized <==> r in old(rooms) && old(rooms)[r].admin != u
      ensures answer == Done ==> seated
      ensures answer !in {Done, Failed} ==> View() == old(View())
    {
      if r !in rooms {
        return NotFound;
      }
      if rooms[r].admin != u {
        return Unauthorized;
      }
      var round := FindRound(r, Created);
      if round == None {
        return NotFound;
      }
      var id := round.value;
      if rounds[id].problems == [] {
        return BadRequest;
      }
      rounds := rounds[id := rounds[id].(status := Started)];
      if !seated {
        unseated := unseated + {id};
        return Failed;
      }
      if !Schedulable(rounds[id].duration * MINUTE + SECOND) {
        return Failed;
      }
      timers := timers + {id};
      return Done;
    }

    method SetRoundDuration(r: RoomId, u: string, duration: int) returns (answer: Answer)
      modifies this
      ensures (View(), answer) == SetDuration(old(View()), r, u, duration)
      ensures r !in old(rooms) ==> answer == NotFound
      ensures answer == Unauthorized <==> r in old(rooms) && old(rooms)[r].admin != u
      ensures answer == Done ==> 5 <= duration <= 120
      ensures answer != Done ==> View() == old(View())
    {
      if r !in rooms {
        return NotFound;
      }
      if rooms[r].admin != u {
        return Unauthorized;
      }
      var round := FindRound(r, Created);
      if round == None {
        return NotFound;
      }
      if duration < MIN_DURATION || duration > MAX_DURATION {
        return BadRequest;
      }
      rounds := rounds[round.value := rounds[round.value].(duration := duration)];
      return Done;
    }

    method EndRound(r: RoomId, u: string) returns (answer: Answer)
      modifies this
      ensures (View(), answer) == R.EndRound(old(View()), r, u)
      ensures r !in old(rooms) ==> answer == NotFound
      ensures answer == Unauthorized <==> r in old(rooms) && old(rooms)[r].admin != u
      ensures answer != Done ==> View() == old(View())
    {
      if r !in rooms {
        return NotFound;
      }
      if rooms[r].admin != u {
        return Unauthorized;
      }
      var round := FindRound(r, Started);
      if round == None {
        return Done;
      }
      rounds := rounds[round.value := rounds[round.value].(status := Ended)];
      return Done;
    }

    method RoundTimer(id: RoundId)
      modifies this
      ensures View() == TimerFires(old(View()), id)
    {
      if id !in timers {
        return;
      }
      timers := timers - {id};
      if id in rounds {
        rounds := rounds[id := rounds[id].(status := Ended)];
      }
    }
  }
}

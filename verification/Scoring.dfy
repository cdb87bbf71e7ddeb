// Submissions and their points: the score fixed when a round submission is created,
// the award decided when its egress message is processed, and the two leaderboards.

module Scoring {
  import opened Common
  import opened PackedScore

  const ACCEPTED := "Accepted"
  const EASY := "easy"
  const MEDIUM := "medium"
  const HARD := "hard"

  /** A row of `submissions`; `owner` is the id of its round submission. */
  datatype Submission = Submission(problem: nat, verdict: string, owner: nat)

  /** A row of `round_submissions`, with its participant's auth id joined in. */
  datatype RoundSubmission = RoundSubmission(round: nat, auth: string, score: nat)

  /** A row of the lifetime leaderboard. */
  datatype Lifetime = Lifetime(user: nat, easy: nat, medium: nat, hard: nat, total: nat)

  /** `rounds` maps each started round to its problem set. */
  datatype Db = Db(
    difficulty: map<nat, string>,
    users: map<string, nat>, nextUser: nat,
    rounds: map<nat, set<nat>>, ended: set<nat>,
    participants: set<(nat, string)>,
    submissions: map<nat, Submission>, nextSubmission: nat,
    roundSubmissions: map<nat, RoundSubmission>, nextRoundSubmission: nat,
    boards: map<nat, map<string, nat>>,
    lifetime: seq<Lifetime>)

  function ScoreOf(difficulty: string): nat {
    if difficulty == EASY then 3 else if difficulty == MEDIUM then 4 else 5
  }

  function DifficultyOf(db: Db, problem: nat): string {
    if problem in db.difficulty then db.difficulty[problem] else ""
  }

  // ----- creating a submission -----

  /** The submission's round submission still exists and belongs to `auth`. */
  predicate OwnedBy(db: Db, id: nat, auth: string) {
    && id in db.submissions && db.submissions[id].owner in db.roundSubmissions
    && db.roundSubmissions[db.submissions[id].owner].auth == auth
  }

  predicate AcceptedBy(db: Db, id: nat, problem: nat, auth: string) {
    && OwnedBy(db, id, auth)
    && db.submissions[id].problem == problem && db.submissions[id].verdict == ACCEPTED
  }

  /** The user has an accepted submission for the problem, in whatever round. */
  predicate Solved(db: Db, problem: nat, auth: string) {
    exists id :: id in db.submissions && AcceptedBy(db, id, problem, auth)
  }

  function ScoreDelta(db: Db, problem: nat, auth: string): nat {
    if Solved(db, problem, auth) then 0 else ScoreOf(DifficultyOf(db, problem))
  }

  datatype Created = Refused | Accepted(id: nat)

  predicate MayCreate(db: Db, round: nat, problem: nat, auth: string) {
    && round in db.rounds && round !in db.ended
    && problem in db.rounds[round] && (round, auth) in db.participants
  }

  function Create(db: Db, round: nat, problem: nat, auth: string, verdict: string): Db {
    if !MayCreate(db, round, problem, auth) then db
    else
      var rs := RoundSubmission(round, auth, ScoreDelta(db, problem, auth));
      db.(roundSubmissions := db.roundSubmissions[db.nextRoundSubmission := rs],
          nextRoundSubmission := db.nextRoundSubmission + 1,
          submissions := db.submissions[db.nextSubmission := Submission(problem, verdict, db.nextRoundSubmission)],
          nextSubmission := db.nextSubmission + 1)
  }

  // ----- processing an egress message -----

  /** Which reads and writes fail while one message is processed; `verdict` is the outcome
      of the verdict update. */
  datatype Faults = Faults(lookup: bool, problem: bool, owner: bool, user: bool, count: bool,
                           verdict: Outcome, board: bool, save: bool)

  const NO_FAULTS := Faults(false, false, false, false, false, Ok, false, false)

  /** Processed and dropped messages are acked; a transient failure is requeued. */
  datatype Reply = Processed | Permanent | Transient

  datatype Award = Award(id: nat, problem: nat, auth: string, user: nat, round: nat, score: nat)

  function WithUser(db: Db, auth: string): Db {
    if auth in db.users then db
    else db.(users := db.users[auth := db.nextUser], nextUser := db.nextUser + 1)
  }

  /** Another accepted submission of the same user for the same problem. */
  predicate AlreadyAwarded(db: Db, id: nat, problem: nat, user: nat) {
    exists other :: other in db.submissions && other != id
      && db.submissions[other].problem == problem && db.submissions[other].verdict == ACCEPTED
      && db.submissions[other].owner in db.roundSubmissions
      && db.roundSubmissions[db.submissions[other].owner].auth in db.users
      && db.users[db.roundSubmissions[db.submissions[other].owner].auth] == user
  }

  function Counted(row: Lifetime, difficulty: string, score: nat): Lifetime {
    row.(easy := row.easy + if difficulty == EASY then 1 else 0,
         medium := row.medium + if difficulty == MEDIUM then 1 else 0,
         hard := row.hard + if difficulty == HARD then 1 else 0,
         total := row.total + score)
  }

  /** The row FirstOrCreate finds: that of `user`, or the first one when `user` is 0, since
      a zero field is no condition. |rows| when there is none. */
  function RowOf(rows: seq<Lifetime>, user: nat): (i: nat)
    ensures i <= |rows|
    ensures i < |rows| ==> user == 0 || rows[i].user == user
    ensures forall j :: 0 <= j < i ==> user != 0 && rows[j].user != user
  {
    if rows == [] || user == 0 || rows[0].user == user then 0
    else var i := RowOf(rows[1..], user); i + 1
  }

  /** Without a user a missing row cannot be inserted: it would refer to user 0. */
  function Credited(rows: seq<Lifetime>, user: nat, difficulty: string, score: nat): seq<Lifetime> {
    var i := RowOf(rows, user);
    if i < |rows| then rows[i := Counted(rows[i], difficulty, score)]
    else if user == 0 then rows
    else rows + [Counted(Lifetime(user, 0, 0, 0, 0), difficulty, score)]
  }

  function BoardPoint(db: Db, round: nat, auth: string): Option<nat> {
    if round in db.boards && auth in db.boards[round] then Some(db.boards[round][auth]) else None
  }

  function OnBoard(db: Db, round: nat, auth: string, stored: nat): Db {
    var board := if round in db.boards then db.boards[round] else map[];
    db.(boards := db.boards[round := board[auth := stored]])
  }

  /** Both leaderboards credited for one award. */
  function Credit(db: Db, a: Award, f: Faults, now: int): Db {
    var db1 := if f.board then db
               else OnBoard(db, a.round, a.auth, Updated(BoardPoint(db, a.round, a.auth), a.score, now));
    var difficulty := if f.problem then "" else DifficultyOf(db, a.problem);
    if f.save then db1
    else db1.(lifetime := Credited(db1.lifetime, a.user, difficulty, a.score))
  }

  /** The award the message earns, decided before anything but the user row is written. */
  function Decided(db: Db, id: nat, verdict: string, f: Faults): Option<Award>
    requires id in db.submissions
  {
    var row := db.submissions[id];
    if verdict != ACCEPTED || f.owner || row.owner !in db.roundSubmissions then None
    else
      var rs := db.roundSubmissions[row.owner];
      var db1 := if f.user then db else WithUser(db, rs.auth);
      var user := if f.user then 0 else db1.users[rs.auth];
      if rs.score == 0 || (user != 0 && !f.count && AlreadyAwarded(db1, id, row.problem, user)) then None
      else Some(Award(id, row.problem, rs.auth, user, rs.round, rs.score))
  }

  function UserFound(db: Db, id: nat, verdict: string, f: Faults): Db
    requires id in db.submissions
  {
    var row := db.submissions[id];
    if verdict != ACCEPTED || f.owner || row.owner !in db.roundSubmissions || f.user then db
    else WithUser(db, db.roundSubmissions[row.owner].auth)
  }

  datatype Result = Result(db: Db, reply: Reply, award: Option<Award>)

  function Process(db: Db, id: nat, verdict: string, f: Faults, now: int): Result {
    if f.lookup then Result(db, Transient, None)
    else if id !in db.submissions then Result(db, Permanent, None)
    else
      var award := Decided(db, id, verdict, f);
      var db1 := UserFound(db, id, verdict, f);
      var db2 := if f.verdict.Applied()
                 then db1.(submissions := db1.submissions[id := db1.submissions[id].(verdict := verdict)])
                 else db1;
      if f.verdict != Ok then Result(db2, Transient, None)
      else if award == None then Result(db2, Processed, None)
      else
        // Save fails by itself, or because no row can be inserted for user 0.
        var lost := f.save || (award.value.user == 0 && db2.lifetime == []);
        Result(Credit(db2, award.value, f, now), if lost then Permanent else Processed, award)
  }

  // ----- runs -----

  datatype Event =
    | StartRound(round: nat, problems: set<nat>, present: seq<string>, startedAt: int)
    | JoinRound(round: nat, auth: string)
    | EndRound(round: nat)
    | Submit(round: nat, problem: nat, auth: string, verdict: string)
    | Deliver(id: nat, faults: Faults, now: int)
    | DeleteRounds(rounds: set<nat>)

  /** The database, the verdict queued for each submission, and the history: how often
      each message was delivered and which awards were made. */
  datatype World = World(db: Db, queued: map<nat, string>, deliveries: multiset<nat>, awards: seq<Award>)

  const MIN_AUTH_LENGTH := 8

  function Seated(db: Db, round: nat, present: seq<string>, now: int): Db
    decreases |present|
  {
    if present == [] then db
    else
      var rest := Seated(db, round, present[..|present| - 1], now);
      var auth := present[|present| - 1];
      OnBoard(rest.(participants := rest.participants + {(round, auth)}), round, auth, Entry(0, now))
  }

  function Deleted(db: Db, rounds: set<nat>): Db {
    db.(rounds := db.rounds - rounds,
        participants := (set p | p in db.participants && p.0 !in rounds),
        roundSubmissions := (map i | i in db.roundSubmissions && db.roundSubmissions[i].round !in rounds
                              :: db.roundSubmissions[i]),
        boards := db.boards - rounds)
  }

  /** The world after one message was processed with this result. */
  function Noted(w: World, id: nat, r: Result): World {
    World(r.db, w.queued, w.deliveries + multiset{id},
          if r.award.Some? then w.awards + [r.award.value] else w.awards)
  }

  function Next(w: World, e: Event): World {
    match e
    case StartRound(round, problems, present, now) =>
      if round in w.db.rounds || round in w.db.boards || !(problems <= w.db.difficulty.Keys)
         || exists i :: 0 <= i < |present| && |present[i]| < MIN_AUTH_LENGTH then w
      else w.(db := Seated(w.db.(rounds := w.db.rounds[round := problems]), round, present, now))
    case JoinRound(round, auth) =>
      if round !in w.db.rounds || |auth| < MIN_AUTH_LENGTH then w
      else w.(db := w.db.(participants := w.db.participants + {(round, auth)}))
    case EndRound(round) => w.(db := w.db.(ended := w.db.ended + {round}))
    case Submit(round, problem, auth, verdict) =>
      if !MayCreate(w.db, round, problem, auth) then w
      else w.(db := Create(w.db, round, problem, auth, verdict),
              queued := w.queued[w.db.nextRoundSubmission := verdict])
    case Deliver(id, f, now) =>
      if id !in w.queued then w
      else Noted(w, id, Process(w.db, id, w.queued[id], f, now))
    case DeleteRounds(rounds) => w.(db := Deleted(w.db, rounds))
  }

  function Run(w: World, events: seq<Event>): World
    decreases |events|
  {
    if events == [] then w else Next(Run(w, events[..|events| - 1]), events[|events| - 1])
  }

  function Opened(difficulty: map<nat, string>): World {
    World(Db(difficulty, map[], 1, map[], {}, {}, map[], 1, map[], 1, map[], []), map[], multiset{}, [])
  }

  // ----- rounds -----

  /** A new round of known problems seats everyone present with no points, provided their ids are
      long enough; otherwise nothing starts. */
  lemma StartSeats(w: World, round: nat, problems: set<nat>, present: seq<string>, now: int)
    ensures var v := Next(w, StartRound(round, problems, present, now));
            if round !in w.db.rounds && round !in w.db.boards && problems <= w.db.difficulty.Keys
               && forall i :: 0 <= i < |present| ==> |present[i]| >= 8
            then && v.db.rounds == w.db.rounds[round := problems]
                 && (forall r, a :: (r, a) in v.db.participants
                                    <==> (r, a) in w.db.participants || (r == round && a in present))
                 && (forall r, a :: BoardPoint(v.db, r, a)
                                    == if r == round && a in present then Some(Entry(0, now)) else BoardPoint(w.db, r, a))
            else v == w
  {
    hide Entry;
    SeatedExactly(w.db.(rounds := w.db.rounds[round := problems]), round, present, now);
    SeatedKeeps(w.db.(rounds := w.db.rounds[round := problems]), round, present, now);
    hide Seated;
  }

  /** Joining a started round later makes a participant too, without an entry on its board; ids of
      fewer than 8 characters are refused. */
  lemma JoinEnters(w: World, round: nat, auth: string)
    ensures var v := Next(w, JoinRound(round, auth));
            && v == w.(db := w.db.(participants := v.db.participants))
            && forall r, a :: (r, a) in v.db.participants <==>
                 (r, a) in w.db.participants || (r == round && a == auth && round in w.db.rounds && |auth| >= 8)
  {
  }

  lemma {:induction false} SeatedExactly(db: Db, round: nat, present: seq<string>, now: int)
    ensures var d := Seated(db, round, present, now);
            && (forall r, a :: (r, a) in d.participants <==> (r, a) in db.participants || (r == round && a in present))
            && (forall r, a :: BoardPoint(d, r, a)
                               == if r == round && a in present then Some(Entry(0, now)) else BoardPoint(db, r, a))
    decreases |present|
  {
    hide Entry;
    if present != [] {
      var before, last := present[..|present| - 1], present[|present| - 1];
      SeatedExactly(db, round, before, now);
      assert forall a :: a in present <==> a in before || a == last;
      var rest := Seated(db, round, before, now);
      var d := Seated(db, round, present, now);
      hide Seated;
      assert d == OnBoard(rest.(participants := rest.participants + {(round, last)}), round, last, Entry(0, now));
      forall r, a
        ensures (r, a) in d.participants <==> (r, a) in db.participants || (r == round && a in present)
        ensures BoardPoint(d, r, a) == if r == round && a in present then Some(Entry(0, now)) else BoardPoint(db, r, a)
      {
        assert BoardPoint(d, r, a) == if r == round && a == last then Some(Entry(0, now)) else BoardPoint(rest, r, a);
      }
    }
  }

  /** Deleting rounds takes their participants, boards and round submissions along, and leaves
      everything else, the submissions among it. */
  lemma DeletedExactly(w: World, rounds: set<nat>)
    ensures var d, v := w.db, Next(w, DeleteRounds(rounds)).db;
            && (forall r :: r in v.rounds <==> r in d.rounds && r !in rounds)
            && (forall r, a :: (r, a) in v.participants <==> (r, a) in d.participants && r !in rounds)
            && (forall r, a :: BoardPoint(v, r, a) == if r in rounds then None else BoardPoint(d, r, a))
            && (forall i :: i in v.roundSubmissions <==> i in d.roundSubmissions && d.roundSubmissions[i].round !in rounds)
            && (forall i :: i in v.roundSubmissions ==> v.roundSubmissions[i] == d.roundSubmissions[i])
            && v == d.(rounds := v.rounds, participants := v.participants,
                       boards := v.boards, roundSubmissions := v.roundSubmissions)
  {
  }

  /** Once a round is over no submission of it is created any more, whatever else happens. */
  lemma {:induction false} EndedTakesNone(w: World, round: nat, events: seq<Event>)
    ensures var v := Run(Next(w, EndRound(round)), events);
            && round in v.db.ended
            && forall i :: i in v.db.roundSubmissions && v.db.roundSubmissions[i].round == round ==>
                 i in w.db.roundSubmissions && w.db.roundSubmissions[i] == v.db.roundSubmissions[i]
    decreases |events|
  {
    if events != [] {
      var before := events[..|events| - 1];
      EndedTakesNone(w, round, before);
      hide Run;
      EndedStep(Run(Next(w, EndRound(round)), before), events[|events| - 1], round);
    }
  }

  lemma EndedStep(w: World, e: Event, round: nat)
    requires round in w.db.ended
    ensures var v := Next(w, e);
            && round in v.db.ended
            && forall i :: i in v.db.roundSubmissions && v.db.roundSubmissions[i].round == round ==>
                 i in w.db.roundSubmissions && w.db.roundSubmissions[i] == v.db.roundSubmissions[i]
  {
    hide Process;
    match e
    case StartRound(_, problems, present, now) =>
      SeatedKeeps(w.db.(rounds := w.db.rounds[e.round := problems]), e.round, present, now);
    case Deliver(id, f, now) =>
      if id in w.queued {
        ProcessKeeps(w.db, id, w.queued[id], f, now);
      }
    case _ =>
  }

  // ----- lockstep -----

  /** The two tables grow together, so the queued round-submission id names the right
      submission; and every queued verdict is the one stored. */
  ghost predicate Lockstep(w: World) {
    && w.db.nextSubmission == w.db.nextRoundSubmission
    && w.db.submissions.Keys == w.queued.Keys
    && (forall i :: i in w.db.submissions ==>
          i < w.db.nextSubmission && w.db.submissions[i].owner == i && w.db.submissions[i].verdict == w.queued[i])
    && w.db.roundSubmissions.Keys <= w.db.submissions.Keys
  }

  ghost predicate UsersDistinct(db: Db) {
    && db.nextUser >= 1
    && (forall a :: a in db.users ==> 1 <= db.users[a] < db.nextUser)
    && (forall a, b :: a in db.users && b in db.users && db.users[a] == db.users[b] ==> a == b)
  }

  /** What a step may do to the submission tables. */
  ghost predicate SameSubmissions(w: World, v: World) {
    && v.db.submissions == w.db.submissions && v.queued == w.queued
    && v.db.nextSubmission == w.db.nextSubmission && v.db.nextRoundSubmission == w.db.nextRoundSubmission
    && v.db.difficulty == w.db.difficulty
  }

  lemma SeatedKeeps(db: Db, round: nat, present: seq<string>, now: int)
    ensures var d := Seated(db, round, present, now);
            && d == db.(participants := d.participants, boards := d.boards)
            && (forall r :: r in d.boards ==> r == round || r in db.boards)
            && (forall r, a :: BoardPoint(d, r, a) == BoardPoint(db, r, a)
                               || (r == round && BoardPoint(d, r, a) == Some(Entry(0, now))))
    decreases |present|
  {
    if present != [] {
      SeatedKeeps(db, round, present[..|present| - 1], now);
    }
  }

  lemma CreditKeeps(db: Db, a: Award, f: Faults, now: int)
    ensures var d := Credit(db, a, f, now); d == db.(boards := d.boards, lifetime := d.lifetime)
  {
    hide Credited, Updated;
  }

  lemma UserFoundKeeps(db: Db, id: nat, verdict: string, f: Faults)
    requires id in db.submissions
    ensures var d := UserFound(db, id, verdict, f);
            d == db.(users := d.users, nextUser := d.nextUser)
    ensures UsersDistinct(db) ==> UsersDistinct(UserFound(db, id, verdict, f))
  {
  }

  /** Processing touches nothing but the verdict, the user row and the leaderboards. */
  lemma ProcessKeeps(db: Db, id: nat, verdict: string, f: Faults, now: int)
    ensures var d := Process(db, id, verdict, f, now).db;
            d == db.(users := d.users, nextUser := d.nextUser, submissions := d.submissions,
                     boards := d.boards, lifetime := d.lifetime)
    ensures id in db.submissions && db.submissions[id].verdict == verdict ==>
              Process(db, id, verdict, f, now).db.submissions == db.submissions
    ensures UsersDistinct(db) ==> UsersDistinct(Process(db, id, verdict, f, now).db)
  {
    hide Decided, UserFound, Credit, UsersDistinct;
    if id in db.submissions {
      var db1 := UserFound(db, id, verdict, f);
      var row := db.submissions[id];
      UserFoundKeeps(db, id, verdict, f);
      assert row.verdict == verdict ==> db.submissions[id := row.(verdict := verdict)] == db.submissions;
      var db2 := if f.verdict.Applied()
                 then db1.(submissions := db1.submissions[id := db1.submissions[id].(verdict := verdict)])
                 else db1;
      UsersDistinctFrame(db1, db2);
      if Decided(db, id, verdict, f).Some? {
        CreditKeeps(db2, Decided(db, id, verdict, f).value, f, now);
        UsersDistinctFrame(db2, Credit(db2, Decided(db, id, verdict, f).value, f, now));
      }
    }
  }

  lemma UsersDistinctFrame(d: Db, d': Db)
    requires d'.users == d.users && d'.nextUser == d.nextUser
    ensures UsersDistinct(d) ==> UsersDistinct(d')
  {
  }

  /** A delivery rewrites the verdict it finds, so the submission tables stay as they are. */
  lemma DeliverKeepsTables(w: World, id: nat, f: Faults, now: int)
    requires Lockstep(w) && id in w.queued
    ensures SameSubmissions(w, Next(w, Deliver(id, f, now)))
    ensures var d := Next(w, Deliver(id, f, now)).db;
            d == w.db.(users := d.users, nextUser := d.nextUser, boards := d.boards, lifetime := d.lifetime)
  {
    hide Process;
    ProcessKeeps(w.db, id, w.queued[id], f, now);
  }

  lemma LockstepStep(w: World, e: Event)
    requires Lockstep(w)
    ensures Lockstep(Next(w, e))
  {
    match e
    case StartRound(round, problems, present, now) =>
      SeatedKeeps(w.db.(rounds := w.db.rounds[round := problems]), round, present, now);
    case Deliver(id, f, now) =>
      if id in w.queued {
        DeliverKeepsTables(w, id, f, now);
      }
    case _ =>
  }

  lemma CreateKeeps(db: Db, round: nat, problem: nat, auth: string, verdict: string)
    ensures var d := Create(db, round, problem, auth, verdict);
            d == db.(submissions := d.submissions, nextSubmission := d.nextSubmission,
                     roundSubmissions := d.roundSubmissions, nextRoundSubmission := d.nextRoundSubmission)
  {
  }

  lemma UsersStep(w: World, e: Event)
    requires UsersDistinct(w.db)
    ensures UsersDistinct(Next(w, e).db)
  {
    hide Process, Create;
    match e
    case Deliver(id, f, now) =>
      if id in w.queued {
        ProcessKeeps(w.db, id, w.queued[id], f, now);
      }
    case Submit(round, problem, auth, verdict) =>
      CreateKeeps(w.db, round, problem, auth, verdict);
    case StartRound(round, problems, present, now) =>
      SeatedKeeps(w.db.(rounds := w.db.rounds[round := problems]), round, present, now);
    case _ =>
  }

  // ----- at most one award -----

  /** Two submissions still there, of one user for one problem. */
  predicate SamePair(db: Db, i: nat, j: nat) {
    && {i, j} <= db.submissions.Keys && {i, j} <= db.roundSubmissions.Keys
    && db.submissions[i].problem == db.submissions[j].problem
    && db.roundSubmissions[i].auth == db.roundSubmissions[j].auth
  }

  /** Of a user's submissions for a problem, those made after an accepted one carry no score. */
  ghost predicate ScoredOnce(db: Db) {
    forall i, j :: i < j && SamePair(db, i, j) && db.submissions[i].verdict == ACCEPTED ==>
                     db.roundSubmissions[j].score == 0
  }

  /** A submission still there, accepted, of this user for this problem. */
  predicate LiveAccepted(db: Db, i: nat, problem: nat, auth: string) {
    && i in db.submissions && db.submissions[i].problem == problem && db.submissions[i].verdict == ACCEPTED
    && i in db.roundSubmissions && db.roundSubmissions[i].auth == auth
  }

  /** An award fits the submission it was made for, and no submission of the same user for
      the same problem that is still there and accepted is older. */
  ghost predicate AwardFits(db: Db, a: Award) {
    && a.score > 0
    && a.id in db.submissions && db.submissions[a.id].verdict == ACCEPTED && db.submissions[a.id].problem == a.problem
    && (a.id in db.roundSubmissions ==>
          db.roundSubmissions[a.id] == RoundSubmission(a.round, a.auth, a.score))
    && (forall i: nat :: LiveAccepted(db, i, a.problem, a.auth) ==> i >= a.id)
  }

  ghost predicate AwardsFit(w: World) {
    forall k :: 0 <= k < |w.awards| ==> AwardFits(w.db, w.awards[k])
  }

  function CountById(awards: seq<Award>, id: nat): nat {
    if awards == [] then 0
    else CountById(awards[..|awards| - 1], id) + if awards[|awards| - 1].id == id then 1 else 0
  }

  function CountByPair(awards: seq<Award>, problem: nat, auth: string): nat {
    if awards == [] then 0
    else
      var last := awards[|awards| - 1];
      CountByPair(awards[..|awards| - 1], problem, auth) + if last.problem == problem && last.auth == auth then 1 else 0
  }

  ghost predicate AwardsDelivered(w: World) {
    forall id :: CountById(w.awards, id) <= w.deliveries[id]
  }

  ghost predicate AwardInv(w: World) {
    Lockstep(w) && UsersDistinct(w.db) && ScoredOnce(w.db) && AwardsFit(w) && AwardsDelivered(w)
  }

  lemma InLockstep(w: World)
    requires AwardInv(w)
    ensures Lockstep(w) && UsersDistinct(w.db)
  {
  }

  lemma ScoredOnceSubmit(w: World, round: nat, problem: nat, auth: string, verdict: string)
    requires Lockstep(w) && ScoredOnce(w.db) && MayCreate(w.db, round, problem, auth)
    ensures ScoredOnce(Create(w.db, round, problem, auth, verdict))
  {
    var d := Create(w.db, round, problem, auth, verdict);
    forall i, j | i < j && SamePair(d, i, j) && d.submissions[i].verdict == ACCEPTED
      ensures d.roundSubmissions[j].score == 0
    {
      if j == w.db.nextSubmission {
        assert AcceptedBy(w.db, i, problem, auth);
      } else {
        assert SamePair(w.db, i, j);
      }
    }
  }

  lemma AwardFitsSubmit(w: World, round: nat, problem: nat, auth: string, verdict: string, a: Award)
    requires Lockstep(w) && AwardFits(w.db, a) && MayCreate(w.db, round, problem, auth)
    ensures AwardFits(Create(w.db, round, problem, auth, verdict), a)
  {
    hide ScoreDelta;
    var d := Create(w.db, round, problem, auth, verdict);
    forall i: nat | LiveAccepted(d, i, a.problem, a.auth) ensures i >= a.id {
      assert i == w.db.nextSubmission || LiveAccepted(w.db, i, a.problem, a.auth);
    }
  }

  lemma AwardsFitFrame(w: World, v: World)
    requires Lockstep(w) && ScoredOnce(w.db) && AwardsFit(w) && v.db.submissions == w.db.submissions
    requires forall i :: i in v.db.roundSubmissions ==>
               i in w.db.roundSubmissions && v.db.roundSubmissions[i] == w.db.roundSubmissions[i]
    requires v.awards == w.awards
    ensures ScoredOnce(v.db) && AwardsFit(v)
  {
    forall i, j | i < j && SamePair(v.db, i, j) && v.db.submissions[i].verdict == ACCEPTED
      ensures v.db.roundSubmissions[j].score == 0
    {
      assert SamePair(w.db, i, j);
    }
    forall k | 0 <= k < |v.awards| ensures AwardFits(v.db, v.awards[k]) {
      var a := v.awards[k];
      assert AwardFits(w.db, a);
      forall i: nat | LiveAccepted(v.db, i, a.problem, a.auth) ensures i >= a.id {
        assert LiveAccepted(w.db, i, a.problem, a.auth);
      }
    }
  }

  lemma DecidedFits(w: World, id: nat, f: Faults)
    requires Lockstep(w) && ScoredOnce(w.db) && id in w.queued
    ensures var d := Decided(w.db, id, w.queued[id], f);
            d.Some? ==> d.value.id == id && AwardFits(w.db, d.value)
  {
    hide AlreadyAwarded, WithUser;
    var d := Decided(w.db, id, w.queued[id], f);
    if d.Some? {
      forall i: nat | LiveAccepted(w.db, i, d.value.problem, d.value.auth) ensures i >= id {
        assert SamePair(w.db, i, id);
      }
    }
  }

  lemma AwardInvStep(w: World, e: Event)
    requires AwardInv(w)
    ensures AwardInv(Next(w, e))
  {
    hide Process, Create, ScoredOnce, AwardFits, Lockstep, UsersDistinct;
    LockstepStep(w, e);
    UsersStep(w, e);
    match e
    case Submit(round, problem, auth, verdict) =>
      if MayCreate(w.db, round, problem, auth) {
        ScoredOnceSubmit(w, round, problem, auth, verdict);
        forall k | 0 <= k < |w.awards| {
          AwardFitsSubmit(w, round, problem, auth, verdict, w.awards[k]);
        }
      }
    case Deliver(id, f, now) =>
      if id in w.queued {
        DeliverAwards(w, id, f, now);
      }
    case StartRound(round, problems, present, now) =>
      SeatedKeeps(w.db.(rounds := w.db.rounds[round := problems]), round, present, now);
      AwardsFitFrame(w, Next(w, e));
    case _ =>
      AwardsFitFrame(w, Next(w, e));
  }

  lemma DeliverAwards(w: World, id: nat, f: Faults, now: int)
    requires AwardInv(w) && id in w.queued
    ensures var v := Next(w, Deliver(id, f, now));
            ScoredOnce(v.db) && AwardsFit(v) && AwardsDelivered(v)
  {
    hide Decided, Credit, UserFound, Lockstep, UsersDistinct, ScoredOnce, AwardFits;
    var v := Next(w, Deliver(id, f, now));
    DeliverKeepsTables(w, id, f, now);
    DecidedFits(w, id, f);
    var r := Process(w.db, id, w.queued[id], f, now);
    assert r.award.Some? ==> r.award == Decided(w.db, id, w.queued[id], f);
    assert v.awards == if r.award.Some? then w.awards + [r.award.value] else w.awards;
    AwardFitsFrame(w.db, v.db);
    assert v.awards != w.awards ==> v.awards[..|v.awards| - 1] == w.awards;
    forall x ensures CountById(v.awards, x) <= v.deliveries[x] {
      assert CountById(w.awards, x) <= w.deliveries[x];
    }
  }

  lemma AwardFitsFrame(d: Db, d': Db)
    requires d'.submissions == d.submissions && d'.roundSubmissions == d.roundSubmissions
    ensures forall a :: AwardFits(d, a) ==> AwardFits(d', a)
    ensures ScoredOnce(d) ==> ScoredOnce(d')
  {
    assert forall i: nat, p, a :: LiveAccepted(d', i, p, a) ==> LiveAccepted(d, i, p, a);
    assert forall i, j :: SamePair(d', i, j) ==> SamePair(d, i, j);
  }

  lemma {:induction false} AwardInvRun(w: World, events: seq<Event>)
    requires AwardInv(w)
    ensures AwardInv(Run(w, events))
    decreases |events|
  {
    if events != [] {
      AwardInvRun(w, events[..|events| - 1]);
      AwardInvStep(Run(w, events[..|events| - 1]), events[|events| - 1]);
    }
  }

  lemma OpenedAwards(difficulty: map<nat, string>)
    ensures AwardInv(Opened(difficulty))
  {
  }

  predicate NoDeletes(events: seq<Event>) {
    forall k :: 0 <= k < |events| ==> !events[k].DeleteRounds?
  }

  lemma {:induction false} NothingDeleted(w: World, events: seq<Event>)
    requires AwardInv(w) && NoDeletes(events) && w.db.submissions.Keys == w.db.roundSubmissions.Keys
    ensures var v := Run(w, events); v.db.submissions.Keys == v.db.roundSubmissions.Keys
    decreases |events|
  {
    if events != [] {
      var before := events[..|events| - 1];
      NothingDeleted(w, before);
      AwardInvRun(w, before);
      StillPaired(Run(w, before), events[|events| - 1]);
    }
  }

  lemma StillPaired(w: World, e: Event)
    requires Lockstep(w) && !e.DeleteRounds? && w.db.submissions.Keys == w.db.roundSubmissions.Keys
    ensures var v := Next(w, e); v.db.submissions.Keys == v.db.roundSubmissions.Keys
  {
    hide Process;
    match e
    case StartRound(round, problems, present, now) =>
      SeatedKeeps(w.db.(rounds := w.db.rounds[round := problems]), round, present, now);
    case Deliver(id, f, now) =>
      if id in w.queued {
        DeliverKeepsTables(w, id, f, now);
      }
    case _ =>
  }

  /** In every run, rooms deleted or not, the awards of one user for one problem that went to
      submissions still there all went to the same one. */
  lemma OneScoredSubmission(difficulty: map<nat, string>, events: seq<Event>, k: nat, l: nat)
    requires var w := Run(Opened(difficulty), events);
             k < |w.awards| && l < |w.awards| && {w.awards[k].id, w.awards[l].id} <= w.db.roundSubmissions.Keys
    ensures var w := Run(Opened(difficulty), events);
            w.awards[k].problem == w.awards[l].problem && w.awards[k].auth == w.awards[l].auth ==>
              w.awards[k].id == w.awards[l].id
  {
    hide Run;
    OpenedAwards(difficulty);
    AwardInvRun(Opened(difficulty), events);
    var w := Run(Opened(difficulty), events);
    var a, b := w.awards[k], w.awards[l];
    assert AwardFits(w.db, a) && AwardFits(w.db, b);
    assert LiveAccepted(w.db, a.id, a.problem, a.auth) && LiveAccepted(w.db, b.id, b.problem, b.auth);
  }

  lemma {:induction false} PairWithinId(awards: seq<Award>, problem: nat, auth: string, id: nat)
    requires forall k :: 0 <= k < |awards| && awards[k].problem == problem && awards[k].auth == auth ==> awards[k].id == id
    ensures CountByPair(awards, problem, auth) <= CountById(awards, id)
  {
    if awards != [] {
      PairWithinId(awards[..|awards| - 1], problem, auth, id);
    }
  }

  lemma {:induction false} NoneCounted(awards: seq<Award>, problem: nat, auth: string)
    requires forall k :: 0 <= k < |awards| ==> !(awards[k].problem == problem && awards[k].auth == auth)
    ensures CountByPair(awards, problem, auth) == 0
  {
    if awards != [] {
      NoneCounted(awards[..|awards| - 1], problem, auth);
    }
  }

  /** While no room is deleted, all awards of a user for a problem go to one submission. */
  lemma AwardsToOne(difficulty: map<nat, string>, events: seq<Event>, problem: nat, auth: string)
    requires NoDeletes(events)
    ensures var w := Run(Opened(difficulty), events);
            exists id :: CountByPair(w.awards, problem, auth) <= CountById(w.awards, id)
              && forall k :: 0 <= k < |w.awards| && w.awards[k].problem == problem && w.awards[k].auth == auth
                   ==> w.awards[k].id == id
  {
    hide Run, AwardFits, Lockstep, UsersDistinct, ScoredOnce;
    OpenedAwards(difficulty);
    AwardInvRun(Opened(difficulty), events);
    NothingDeleted(Opened(difficulty), events);
    var w := Run(Opened(difficulty), events);
    if k :| 0 <= k < |w.awards| && w.awards[k].problem == problem && w.awards[k].auth == auth {
      var id := w.awards[k].id;
      forall l | 0 <= l < |w.awards| && w.awards[l].problem == problem && w.awards[l].auth == auth
        ensures w.awards[l].id == id
      {
        AwardIsLive(w, k);
        AwardIsLive(w, l);
        OneScoredSubmission(difficulty, events, k, l);
      }
      PairWithinId(w.awards, problem, auth, id);
      assert CountByPair(w.awards, problem, auth) <= CountById(w.awards, id);
    } else {
      NoneCounted(w.awards, problem, auth);
      assert CountByPair(w.awards, problem, auth) <= CountById(w.awards, 0);
    }
  }

  /** Hence there are no more of them than deliveries of its message, faults or not. */
  lemma AwardsWithinDeliveries(difficulty: map<nat, string>, events: seq<Event>, problem: nat, auth: string)
    requires NoDeletes(events)
    ensures var w := Run(Opened(difficulty), events);
            exists id :: CountByPair(w.awards, problem, auth) <= w.deliveries[id]
              && forall k :: 0 <= k < |w.awards| && w.awards[k].problem == problem && w.awards[k].auth == auth
                   ==> w.awards[k].id == id
  {
    hide Run, AwardFits, Lockstep, UsersDistinct, ScoredOnce;
    OpenedAwards(difficulty);
    AwardInvRun(Opened(difficulty), events);
    AwardsToOne(difficulty, events, problem, auth);
    var w := Run(Opened(difficulty), events);
    var id :| CountByPair(w.awards, problem, auth) <= CountById(w.awards, id)
              && forall k :: 0 <= k < |w.awards| && w.awards[k].problem == problem && w.awards[k].auth == auth
                   ==> w.awards[k].id == id;
    assert CountById(w.awards, id) <= w.deliveries[id];
    assert CountByPair(w.awards, problem, auth) <= w.deliveries[id];
  }

  lemma AwardIsLive(w: World, k: nat)
    requires AwardsFit(w) && w.db.submissions.Keys == w.db.roundSubmissions.Keys && k < |w.awards|
    ensures w.awards[k].id in w.db.roundSubmissions
  {
    assert AwardFits(w.db, w.awards[k]);
  }

  /** The message says Accepted, the submission is found, still there and carries a score, its
      verdict is written, and no other accepted submission of the user for the problem is
      there, older or newer, unless the user or the count could not be read. */
  ghost predicate Earns(w: World, id: nat, f: Faults) {
    && !f.lookup && !f.owner && f.verdict == Ok
    && id in w.queued && w.queued[id] == ACCEPTED
    && id in w.db.submissions && id in w.db.roundSubmissions && w.db.roundSubmissions[id].score > 0
    && (f.user || f.count
        || forall other: nat :: LiveAccepted(w.db, other, w.db.submissions[id].problem, w.db.roundSubmissions[id].auth)
             ==> other == id)
  }

  lemma EarnedRow(w: World, id: nat, f: Faults)
    ensures Earns(w, id, f) ==>
              && id in w.queued && w.queued[id] == ACCEPTED && id in w.db.submissions
              && id in w.db.roundSubmissions && w.db.roundSubmissions[id].score > 0
  {
  }

  /** Whatever fails, a delivery earns an award exactly then; and the award is that of the
      submission, credited to its user or, without one, to user 0. */
  lemma AwardIff(w: World, id: nat, f: Faults, now: int)
    requires AwardInv(w) && id in w.queued
    ensures Process(w.db, id, w.queued[id], f, now).award.Some? <==> Earns(w, id, f)
    ensures Earns(w, id, f) ==>
              var rs := w.db.roundSubmissions[id];
              var user := if f.user then 0 else WithUser(w.db, rs.auth).users[rs.auth];
              && Process(w.db, id, w.queued[id], f, now).award
                 == Some(Award(id, w.db.submissions[id].problem, rs.auth, user, rs.round, rs.score))
              && (user == 0 <==> f.user)
  {
    hide Credit;
    if w.queued[id] == ACCEPTED && id in w.db.roundSubmissions {
      AlreadyAwardedIff(w, id);
    }
  }

  lemma AlreadyAwardedIff(w: World, id: nat)
    requires AwardInv(w) && id in w.queued && id in w.db.roundSubmissions
    ensures var auth := w.db.roundSubmissions[id].auth;
            var d := WithUser(w.db, auth);
            var problem := w.db.submissions[id].problem;
            AlreadyAwarded(d, id, problem, d.users[auth])
            <==> exists other: nat :: LiveAccepted(w.db, other, problem, auth) && other != id
  {
    var auth := w.db.roundSubmissions[id].auth;
    var d := WithUser(w.db, auth);
    var problem := w.db.submissions[id].problem;
    assert UsersDistinct(d);
    if AlreadyAwarded(d, id, problem, d.users[auth]) {
      var other :| other in d.submissions && other != id
        && d.submissions[other].problem == problem && d.submissions[other].verdict == ACCEPTED
        && d.submissions[other].owner in d.roundSubmissions
        && d.roundSubmissions[d.submissions[other].owner].auth in d.users
        && d.users[d.roundSubmissions[d.submissions[other].owner].auth] == d.users[auth];
      assert LiveAccepted(w.db, other, problem, auth);
    }
    if other: nat :| LiveAccepted(w.db, other, problem, auth) && other != id {
      assert d.submissions[other].owner == other;
      assert other in d.submissions;
    }
  }

  /** A message is answered for another delivery exactly if the row could not be read, or was
      there and its verdict update reported a failure; for good exactly if there is no row, or
      the points of an award could not be saved, by a fault or for want of any row to credit
      when the user is unknown. */
  lemma ReplyIff(db: Db, id: nat, verdict: string, f: Faults, now: int)
    ensures var r := Process(db, id, verdict, f, now);
            && (r.reply == Transient <==> f.lookup || (id in db.submissions && f.verdict != Ok))
            && (r.reply == Permanent <==>
                  && !f.lookup
                  && (id !in db.submissions
                      || (r.award.Some? && (f.save || (r.award.value.user == 0 && |db.lifetime| == 0)))))
  {
    hide Decided, Credit;
    if id in db.submissions {
      UserFoundKeeps(db, id, verdict, f);
    }
  }

  /** The verdict is written exactly if the row was read and the update took effect, reported
      or not; nothing else of the submissions changes, and nothing at all without the row. */
  lemma VerdictWritten(db: Db, id: nat, verdict: string, f: Faults, now: int)
    ensures var r := Process(db, id, verdict, f, now);
            && (f.lookup || id !in db.submissions ==> r.db == db && r.award == None)
            && r.db.submissions.Keys == db.submissions.Keys
            && (forall i :: i in db.submissions && i != id ==> r.db.submissions[i] == db.submissions[i])
            && (id in db.submissions ==>
                  r.db.submissions[id] == db.submissions[id].(
                    verdict := if f.lookup || f.verdict == NotApplied then db.submissions[id].verdict else verdict))
  {
    hide Decided, Credit, UserFound;
    if id in db.submissions {
      UserFoundKeeps(db, id, verdict, f);
      if Decided(db, id, verdict, f).Some? {
        var written := db.submissions[id].(verdict := verdict);
        var db1 := UserFound(db, id, verdict, f);
        CreditKeeps(db1.(submissions := db1.submissions[id := written]), Decided(db, id, verdict, f).value, f, now);
      }
    }
  }

  /** Users keep their ids, and an award names the id its user has from then on. */
  lemma AwardedUser(db: Db, id: nat, verdict: string, f: Faults, now: int)
    ensures var r := Process(db, id, verdict, f, now);
            && (forall a :: a in db.users ==> a in r.db.users && r.db.users[a] == db.users[a])
            && (r.award.Some? && !f.user ==>
                  r.award.value.auth in r.db.users && r.db.users[r.award.value.auth] == r.award.value.user)
  {
    hide AlreadyAwarded, Credit;
    if id in db.submissions && Decided(db, id, verdict, f).Some? {
      var db1 := UserFound(db, id, verdict, f);
      var written := db1.submissions[id].(verdict := verdict);
      CreditKeeps(db1.(submissions := db1.submissions[id := written]), Decided(db, id, verdict, f).value, f, now);
    }
  }

  /** A requeue for a transient failure never follows an award: nothing was credited. */
  lemma TransientNeverAwards(db: Db, id: nat, verdict: string, f: Faults, now: int)
    ensures var r := Process(db, id, verdict, f, now);
            r.reply == Transient ==> r.award == None && r.db.boards == db.boards && r.db.lifetime == db.lifetime
  {
    hide Decided, Credit;
    if id in db.submissions {
      UserFoundKeeps(db, id, verdict, f);
    }
  }
}

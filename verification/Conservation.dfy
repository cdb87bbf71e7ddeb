// Over whole runs: what the two leaderboards add up to.

module Conservation {
  import opened Common
  import opened PackedScore
  import opened Scoring

  // ----- the solved counters account for the total -----

  predicate Balanced(row: Lifetime) {
    row.total == 3 * row.easy + 4 * row.medium + 5 * row.hard
  }

  predicate AllBalanced(rows: seq<Lifetime>) {
    forall i :: 0 <= i < |rows| ==> Balanced(rows[i])
  }

  predicate Seeded(difficulty: string) {
    difficulty == EASY || difficulty == MEDIUM || difficulty == HARD
  }

  predicate AllSeeded(difficulty: map<nat, string>) {
    forall p :: p in difficulty ==> Seeded(difficulty[p])
  }

  /** A submission's score is 0 or that of its problem, which is one of its round's problems. */
  ghost predicate ScoresFit(db: Db) {
    forall i :: i in db.roundSubmissions && i in db.submissions ==>
                  var rs, problem := db.roundSubmissions[i], db.submissions[i].problem;
                  && (rs.score == 0 || rs.score == ScoreOf(DifficultyOf(db, problem)))
                  && rs.round in db.rounds && problem in db.rounds[rs.round]
  }

  ghost predicate RoundsKnown(db: Db) {
    forall r :: r in db.rounds ==> db.rounds[r] <= db.difficulty.Keys
  }

  /** Every lifetime row belongs to a user id that was given out. */
  predicate RowsOwned(db: Db) {
    forall i :: 0 <= i < |db.lifetime| ==> db.lifetime[i].user < db.nextUser
  }

  ghost predicate TablesInv(w: World) {
    AwardInv(w) && ScoresFit(w.db) && RoundsKnown(w.db) && RowsOwned(w.db)
  }

  lemma DeliverTables(w: World, id: nat, f: Faults, now: int)
    requires Lockstep(w)
    ensures var v := Next(w, Deliver(id, f, now));
            && v.db.submissions == w.db.submissions && v.db.roundSubmissions == w.db.roundSubmissions
            && v.db.rounds == w.db.rounds && v.db.difficulty == w.db.difficulty
  {
    hide Process;
    if id in w.queued {
      DeliverKeepsTables(w, id, f, now);
    }
  }

  lemma ScoresFitStep(w: World, e: Event)
    requires Lockstep(w) && ScoresFit(w.db) && RoundsKnown(w.db)
    ensures var v := Next(w, e); ScoresFit(v.db) && RoundsKnown(v.db) && v.db.difficulty == w.db.difficulty
  {
    hide Process;
    match e
    case StartRound(round, problems, present, now) =>
      SeatedKeeps(w.db.(rounds := w.db.rounds[round := problems]), round, present, now);
    case Deliver(id, f, now) =>
      DeliverTables(w, id, f, now);
    case _ =>
  }

  /** The award a delivery earns, as AwardIff has it. */
  ghost function Earned(w: World, id: nat, f: Faults): Award
    requires Earns(w, id, f)
  {
    var rs := w.db.roundSubmissions[id];
    Award(id, w.db.submissions[id].problem, rs.auth,
          if f.user then 0 else WithUser(w.db, rs.auth).users[rs.auth], rs.round, rs.score)
  }

  /** The difficulty the delivery sees: none if the problem cannot be read. */
  function SeenDifficulty(db: Db, problem: nat, f: Faults): string {
    if f.problem then "" else DifficultyOf(db, problem)
  }

  /** What one delivery writes to the books. */
  lemma DeliverBooks(w: World, id: nat, f: Faults, now: int)
    requires AwardInv(w) && id in w.queued
    ensures var v := Next(w, Deliver(id, f, now));
            if Earns(w, id, f) then
              var a := Earned(w, id, f);
              && v.awards == w.awards + [a]
              && v.db.boards == (if f.board then w.db.boards
                                 else OnBoard(w.db, a.round, a.auth, Updated(BoardPoint(w.db, a.round, a.auth), a.score, now)).boards)
              && v.db.lifetime == (if f.save then w.db.lifetime
                                   else Credited(w.db.lifetime, a.user, SeenDifficulty(w.db, a.problem, f), a.score))
            else v.awards == w.awards && v.db.boards == w.db.boards && v.db.lifetime == w.db.lifetime
  {
    hide Credited, Updated, WithUser, AlreadyAwarded, Earns, AwardFits, ScoredOnce, UsersDistinct, LiveAccepted;
    AwardIff(w, id, f, now);
    InLockstep(w);
    UserFoundKeeps(w.db, id, w.queued[id], f);
    var r := Process(w.db, id, w.queued[id], f, now);
    if Earns(w, id, f) {
      EarnedRow(w, id, f);
      assert r.award == Some(Earned(w, id, f));
    }
  }

  /** What it does to the user table: at most one user is added, and if it earns an award
      without failing to find the user, that one is there. */
  lemma DeliverUsers(w: World, id: nat, f: Faults, now: int)
    requires AwardInv(w) && id in w.queued
    ensures var v := Next(w, Deliver(id, f, now));
            && w.db.nextUser <= v.db.nextUser
            && (v.db.users == w.db.users
                || exists a :: a !in w.db.users && v.db.users == w.db.users[a := w.db.nextUser])
            && (Earns(w, id, f) ==>
                  v.db.users == (if f.user then w.db.users else WithUser(w.db, w.db.roundSubmissions[id].auth).users)
                  && v.db.nextUser == (if f.user then w.db.nextUser else WithUser(w.db, w.db.roundSubmissions[id].auth).nextUser))
  {
    hide Decided, Credit;
    InLockstep(w);
    var d := Decided(w.db, id, w.queued[id], f);
    var db1 := UserFound(w.db, id, w.queued[id], f);
    if d.Some? {
      var db2 := if f.verdict.Applied()
                 then db1.(submissions := db1.submissions[id := db1.submissions[id].(verdict := w.queued[id])])
                 else db1;
      CreditKeeps(db2, d.value, f, now);
    }
  }

  lemma WithUserKnown(db: Db, auth: string)
    requires UsersDistinct(db)
    ensures var d := WithUser(db, auth);
            && auth in d.users && 1 <= d.users[auth] < d.nextUser && UsersDistinct(d) && db.nextUser <= d.nextUser
            && (auth !in db.users ==> d.users[auth] == db.nextUser)
  {
  }

  lemma {:induction false} CreditedUsers(rows: seq<Lifetime>, user: nat, difficulty: string, score: nat)
    ensures forall i :: 0 <= i < |Credited(rows, user, difficulty, score)| ==>
              (i < |rows| && Credited(rows, user, difficulty, score)[i].user == rows[i].user)
              || Credited(rows, user, difficulty, score)[i].user == user
  {
  }

  lemma RowsOwnedStep(w: World, e: Event)
    requires AwardInv(w) && RowsOwned(w.db)
    ensures RowsOwned(Next(w, e).db)
  {
    hide AwardFits, ScoredOnce, Updated, Counted, AlreadyAwarded;
    match e
    case StartRound(round, problems, present, now) =>
      SeatedKeeps(w.db.(rounds := w.db.rounds[round := problems]), round, present, now);
    case Deliver(id, f, now) =>
      if id in w.queued {
        DeliverRows(w, id, f, now);
      }
    case _ =>
  }

  lemma DeliverRows(w: World, id: nat, f: Faults, now: int)
    requires AwardInv(w) && RowsOwned(w.db) && id in w.queued
    ensures RowsOwned(Next(w, Deliver(id, f, now)).db)
  {
    hide Process, Credited, WithUser, Earns;
    var v := Next(w, Deliver(id, f, now));
    AwardIff(w, id, f, now);
    DeliverUsers(w, id, f, now);
    DeliverBooks(w, id, f, now);
    if Earns(w, id, f) && !f.save {
      EarnedRow(w, id, f);
      var a := Earned(w, id, f);
      CreditedUsers(w.db.lifetime, a.user, SeenDifficulty(w.db, a.problem, f), a.score);
      WithUserKnown(w.db, a.auth);
    }
  }

  lemma {:induction false} TablesRun(difficulty: map<nat, string>, events: seq<Event>)
    ensures var w := Run(Opened(difficulty), events); TablesInv(w) && w.db.difficulty == difficulty
    decreases |events|
  {
    hide AwardInv, ScoresFit, RoundsKnown, Next;
    if events != [] {
      var before, e := events[..|events| - 1], events[|events| - 1];
      TablesRun(difficulty, before);
      var w := Run(Opened(difficulty), before);
      AwardInvStep(w, e);
      assert Lockstep(w) by { InLockstep(w); }
      ScoresFitStep(w, e);
      RowsOwnedStep(w, e);
    } else {
      OpenedAwards(difficulty);
      OpenedTables(difficulty);
    }
  }

  lemma OpenedTables(difficulty: map<nat, string>)
    ensures ScoresFit(Opened(difficulty).db) && RoundsKnown(Opened(difficulty).db) && RowsOwned(Opened(difficulty).db)
  {
  }

  /** Crediting keeps the books balanced exactly when the difficulty read is one of the three
      counted ones, or when there is no row to credit. */
  lemma CreditedBalance(rows: seq<Lifetime>, user: nat, difficulty: string)
    requires AllBalanced(rows)
    ensures AllBalanced(Credited(rows, user, difficulty, ScoreOf(difficulty)))
            <==> Seeded(difficulty) || (user == 0 && rows == [])
  {
    var i := RowOf(rows, user);
    var after := Credited(rows, user, difficulty, ScoreOf(difficulty));
    if i < |rows| {
      assert after[i] == Counted(rows[i], difficulty, ScoreOf(difficulty));
    } else if user != 0 {
      assert after[i] == Counted(Lifetime(user, 0, 0, 0, 0), difficulty, ScoreOf(difficulty));
    }
  }

  /** An award is credited with a difficulty that no counter counts. */
  ghost predicate Blind(w: World, id: nat, f: Faults) {
    && Earns(w, id, f) && !f.save
    && (f.problem || !Seeded(DifficultyOf(w.db, w.db.submissions[id].problem)))
    && !(f.user && w.db.lifetime == [])
  }

  /** One delivery keeps every lifetime row's total at 3 per easy, 4 per medium and 5 per hard
      problem counted, unless it awards without having read a seeded difficulty. */
  lemma BalanceStep(w: World, id: nat, f: Faults, now: int)
    requires TablesInv(w) && AllBalanced(w.db.lifetime)
    ensures AllBalanced(Next(w, Deliver(id, f, now)).db.lifetime) <==> !Blind(w, id, f)
  {
    hide AwardInv, Earns, AllBalanced, ScoresFit, Process, Credited;
    InLockstep(w);
    if id in w.queued {
      DeliverBooks(w, id, f, now);
    }
    if Earns(w, id, f) {
      EarnedRow(w, id, f);
      EarnedScore(w, id, f);
      var a := Earned(w, id, f);
      var seen := SeenDifficulty(w.db, a.problem, f);
      UserZeroIff(w, id, f);
      CreditedUnbalance(w.db.lifetime, a.user, seen, a.score);
      if a.score == ScoreOf(seen) {
        CreditedBalance(w.db.lifetime, a.user, seen);
      }
    }
  }

  lemma UserZeroIff(w: World, id: nat, f: Faults)
    requires AwardInv(w) && Earns(w, id, f)
    ensures Earned(w, id, f).user == 0 <==> f.user
  {
    hide Earns, Lockstep, AwardFits, ScoredOnce;
    EarnedRow(w, id, f);
    WithUserKnown(w.db, w.db.roundSubmissions[id].auth);
  }

  /** Without a difficulty no counter moves, whatever the score. */
  lemma CreditedUnbalance(rows: seq<Lifetime>, user: nat, difficulty: string, score: nat)
    requires AllBalanced(rows) && score > 0
    ensures !Seeded(difficulty) ==> (AllBalanced(Credited(rows, user, difficulty, score)) <==> user == 0 && rows == [])
  {
    var i := RowOf(rows, user);
    var after := Credited(rows, user, difficulty, score);
    if i < |rows| {
      assert after[i] == Counted(rows[i], difficulty, score);
    } else if user != 0 {
      assert after[i] == Counted(Lifetime(user, 0, 0, 0, 0), difficulty, score);
    }
  }

  /** An award is worth its problem, one of its round's problems. */
  lemma EarnedScore(w: World, id: nat, f: Faults)
    requires Lockstep(w) && ScoresFit(w.db) && Earns(w, id, f)
    ensures var a := Earned(w, id, f);
            && a.score == ScoreOf(DifficultyOf(w.db, a.problem)) && 0 < a.score <= 5
            && a.round in w.db.rounds && a.problem in w.db.rounds[a.round]
  {
    hide AlreadyAwarded;
  }

  /** Every delivery in the run managed to read the problem. */
  predicate ProblemsRead(events: seq<Event>) {
    forall k :: 0 <= k < |events| && events[k].Deliver? ==> !events[k].faults.problem
  }

  /** Over every run with seeded difficulties, redeliveries, crashes in between, deletions and
      all other faults included: each total is exactly what the counters are worth. */
  lemma {:induction false} TotalsBalanced(difficulty: map<nat, string>, events: seq<Event>)
    requires AllSeeded(difficulty) && ProblemsRead(events)
    ensures AllBalanced(Run(Opened(difficulty), events).db.lifetime)
    decreases |events|
  {
    hide TablesInv, AllBalanced, Process;
    if events != [] {
      var before, e := events[..|events| - 1], events[|events| - 1];
      TotalsBalanced(difficulty, before);
      TablesRun(difficulty, before);
      var w := Run(Opened(difficulty), before);
      if e.Deliver? {
        NotBlind(w, e.id, e.faults);
        BalanceStep(w, e.id, e.faults, e.now);
      } else {
        LifetimeKept(w, e);
      }
    } else {
      assert AllBalanced([]) by { BalancedNone(); }
    }
  }

  lemma BalancedNone()
    ensures AllBalanced([])
  {
  }

  lemma NotBlind(w: World, id: nat, f: Faults)
    requires TablesInv(w) && AllSeeded(w.db.difficulty) && !f.problem
    ensures !Blind(w, id, f)
  {
    if Earns(w, id, f) {
      EarnedScore(w, id, f);
    }
  }

  lemma LifetimeKept(w: World, e: Event)
    requires !e.Deliver?
    ensures Next(w, e).db.lifetime == w.db.lifetime && Next(w, e).awards == w.awards
    ensures Next(w, e).db.users == w.db.users && Next(w, e).deliveries == w.deliveries
  {
    hide Solved;
    match e
    case StartRound(round, problems, present, now) =>
      SeatedKeeps(w.db.(rounds := w.db.rounds[round := problems]), round, present, now);
    case _ =>
  }

  // ----- round leaderboards and lifetime totals agree -----

  function Last<T>(s: seq<T>): T
    requires s != []
  {
    s[|s| - 1]
  }

  /** Points awarded to `auth` in `round`. */
  function SumIn(awards: seq<Award>, round: nat, auth: string): nat {
    if awards == [] then 0
    else SumIn(awards[..|awards| - 1], round, auth)
         + if Last(awards).round == round && Last(awards).auth == auth then Last(awards).score else 0
  }

  /** Points awarded to `auth`. */
  function SumBy(awards: seq<Award>, auth: string): nat {
    if awards == [] then 0
    else SumBy(awards[..|awards| - 1], auth) + if Last(awards).auth == auth then Last(awards).score else 0
  }

  /** Points awarded to `auth` over the first `n` rounds. */
  function SumRounds(awards: seq<Award>, n: nat, auth: string): nat {
    if n == 0 then 0 else SumRounds(awards, n - 1, auth) + SumIn(awards, n - 1, auth)
  }

  /** Points decoded from the leaderboards of the first `n` rounds. */
  function BoardTotal(db: Db, n: nat, auth: string): nat {
    if n == 0 then 0 else BoardTotal(db, n - 1, auth) + Points(BoardPoint(db, n - 1, auth))
  }

  function LifetimeTotal(rows: seq<Lifetime>, user: nat): nat {
    if rows == [] then 0
    else (if rows[0].user == user then rows[0].total else 0) + LifetimeTotal(rows[1..], user)
  }

  /** The lifetime total of a user, 0 without a user row. */
  function TotalOf(db: Db, auth: string): nat {
    if auth in db.users then LifetimeTotal(db.lifetime, db.users[auth]) else 0
  }

  ghost predicate BoardsMatch(w: World) {
    forall r: nat, a :: Points(BoardPoint(w.db, r, a)) == SumIn(w.awards, r, a)
  }

  ghost predicate TotalsMatch(w: World) {
    forall a :: TotalOf(w.db, a) == SumBy(w.awards, a)
  }

  /** Awards name a known round and one of its problems. */
  ghost predicate AwardsPlaced(w: World) {
    forall k :: 0 <= k < |w.awards| ==>
      var a := w.awards[k];
      a.round in w.db.rounds && a.problem in w.db.rounds[a.round] && 0 < a.score <= 5
  }

  ghost predicate InBounds(w: World) {
    forall r: nat, a :: SumIn(w.awards, r, a) < SCORE_RANGE
  }

  /** The first lifetime row is that of `auth`. */
  predicate FirstRowIs(db: Db, auth: string) {
    db.lifetime != [] && auth in db.users && db.lifetime[0].user == db.users[auth]
  }

  /** The award, if any, reaches the round leaderboard. */
  ghost predicate BoardWritten(w: World, id: nat, f: Faults) {
    Earns(w, id, f) ==> !f.board
  }

  /** The award, if any, reaches its user's lifetime total: without the user's id it goes to
      whoever has the first row. */
  ghost predicate TotalWritten(w: World, id: nat, f: Faults) {
    Earns(w, id, f) ==> !f.save && (f.user ==> FirstRowIs(w.db, w.db.roundSubmissions[id].auth))
  }

  /** One delivery keeps the round leaderboards equal to the points awarded exactly when it
      writes the leaderboard of what it awards. */
  lemma BoardsStep(w: World, id: nat, f: Faults, now: int)
    requires TablesInv(w) && BoardsMatch(w) && InBounds(Next(w, Deliver(id, f, now)))
    ensures BoardsMatch(Next(w, Deliver(id, f, now))) <==> BoardWritten(w, id, f)
  {
    hide AwardInv, Earns, Process, Updated, ScoresFit, Points, SumIn;
    InLockstep(w);
    var v := Next(w, Deliver(id, f, now));
    if id in w.queued {
      DeliverBooks(w, id, f, now);
    }
    if Earns(w, id, f) {
      EarnedRow(w, id, f);
      EarnedScore(w, id, f);
      var a := Earned(w, id, f);
      SumInLast(w.awards, a, a.round, a.auth);
      assert Points(BoardPoint(w.db, a.round, a.auth)) == SumIn(w.awards, a.round, a.auth);
      if f.board {
        assert BoardPoint(v.db, a.round, a.auth) == BoardPoint(w.db, a.round, a.auth);
      } else {
        AwardOnBoard(w, v, a, now);
      }
    } else {
      EarnedRow(w, id, f);
      SameBoards(w, v);
    }
  }

  lemma SameBoards(w: World, v: World)
    requires BoardsMatch(w) && v.awards == w.awards && v.db.boards == w.db.boards
    ensures BoardsMatch(v)
  {
    forall r: nat, a ensures Points(BoardPoint(v.db, r, a)) == SumIn(v.awards, r, a) {
      assert BoardPoint(v.db, r, a) == BoardPoint(w.db, r, a);
    }
  }

  /** The one entry rewritten gains the points of the award. */
  lemma AwardOnBoard(w: World, v: World, a: Award, now: int)
    requires BoardsMatch(w) && InBounds(v) && v.awards == w.awards + [a]
    requires v.db.boards == OnBoard(w.db, a.round, a.auth, Updated(BoardPoint(w.db, a.round, a.auth), a.score, now)).boards
    ensures BoardsMatch(v)
  {
    hide Updated, SumIn, Points;
    forall r: nat, x ensures Points(BoardPoint(v.db, r, x)) == SumIn(v.awards, r, x) {
      assert Points(BoardPoint(w.db, r, x)) == SumIn(w.awards, r, x);
      SumInLast(w.awards, a, r, x);
      if r == a.round && x == a.auth {
        assert SumIn(v.awards, r, x) < SCORE_RANGE;
        UpdateAddsPoints(BoardPoint(w.db, r, x), a.score, now);
        PointsOfSome(Updated(BoardPoint(w.db, r, x), a.score, now));
      } else {
        assert BoardPoint(v.db, r, x) == BoardPoint(w.db, r, x);
      }
    }
  }

  lemma PointsOfSome(stored: nat)
    ensures Points(Some(stored)) == Decompress(stored)
  {
  }

  lemma SumInLast(awards: seq<Award>, a: Award, r: nat, x: string)
    ensures SumIn(awards + [a], r, x) == SumIn(awards, r, x) + if a.round == r && a.auth == x then a.score else 0
  {
    assert (awards + [a])[..|awards|] == awards;
  }

  lemma SumByLast(awards: seq<Award>, a: Award, x: string)
    ensures SumBy(awards + [a], x) == SumBy(awards, x) + if a.auth == x then a.score else 0
  {
    assert (awards + [a])[..|awards|] == awards;
  }

  /** The total of the row credited grows by the score: the user's, a new one, or, for user 0,
      the first. */
  lemma {:induction false} CreditedTotal(rows: seq<Lifetime>, user: nat, difficulty: string, score: nat, other: nat)
    ensures LifetimeTotal(Credited(rows, user, difficulty, score), other)
            == LifetimeTotal(rows, other)
               + if user == 0 then (if rows != [] && rows[0].user == other then score else 0)
                 else if other == user then score else 0
  {
    var after := Credited(rows, user, difficulty, score);
    if rows == [] {
      if user != 0 {
        assert after[1..] == [];
      }
    } else if user == 0 || rows[0].user == user {
      assert after[1..] == rows[1..];
    } else {
      assert after[0] == rows[0];
      assert after[1..] == Credited(rows[1..], user, difficulty, score);
      CreditedTotal(rows[1..], user, difficulty, score, other);
    }
  }

  lemma {:induction false} TotalOfUnknown(rows: seq<Lifetime>, user: nat)
    requires forall i :: 0 <= i < |rows| ==> rows[i].user != user
    ensures LifetimeTotal(rows, user) == 0
  {
    if rows != [] {
      TotalOfUnknown(rows[1..], user);
    }
  }

  /** A user row added does not change a total. */
  lemma NewUserTotals(w: World, db: Db)
    requires UsersDistinct(w.db) && RowsOwned(w.db) && db.lifetime == w.db.lifetime
    requires db.users == w.db.users || exists a :: a !in w.db.users && db.users == w.db.users[a := w.db.nextUser]
    ensures forall a :: TotalOf(db, a) == TotalOf(w.db, a)
  {
    TotalOfUnknown(w.db.lifetime, w.db.nextUser);
  }

  /** One delivery keeps the lifetime totals equal to the points awarded exactly when the award
      reaches its user's row. */
  lemma TotalsStep(w: World, id: nat, f: Faults, now: int)
    requires TablesInv(w) && TotalsMatch(w)
    ensures TotalsMatch(Next(w, Deliver(id, f, now))) <==> TotalWritten(w, id, f)
  {
    hide AwardInv, Earns, Process, ScoresFit, Credited, LifetimeTotal, SumBy, RowsOwned, UsersDistinct;
    InLockstep(w);
    var v := Next(w, Deliver(id, f, now));
    if id in w.queued {
      DeliverBooks(w, id, f, now);
      DeliverUsers(w, id, f, now);
    }
    if Earns(w, id, f) {
      EarnedRow(w, id, f);
      EarnedScore(w, id, f);
      AwardTotals(w, v, id, f);
    } else {
      EarnedRow(w, id, f);
      NewUserTotals(w, v.db);
      assert forall a :: TotalOf(w.db, a) == SumBy(w.awards, a) && TotalOf(v.db, a) == TotalOf(w.db, a);
    }
  }

  lemma AwardTotals(w: World, v: World, id: nat, f: Faults)
    requires UsersDistinct(w.db) && RowsOwned(w.db) && TotalsMatch(w) && Earns(w, id, f)
    requires var a := Earned(w, id, f);
             && a.score > 0 && v.awards == w.awards + [a]
             && v.db.users == (if f.user then w.db.users else WithUser(w.db, a.auth).users)
             && v.db.lifetime == (if f.save then w.db.lifetime
                                  else Credited(w.db.lifetime, a.user, SeenDifficulty(w.db, a.problem, f), a.score))
    ensures TotalsMatch(v) <==> TotalWritten(w, id, f)
  {
    hide Earns, Credited, LifetimeTotal, SumBy;
    var a := Earned(w, id, f);
    EarnedRow(w, id, f);
    WithUserKnown(w.db, a.auth);
    var seen := SeenDifficulty(w.db, a.problem, f);
    NewUserTotals(w, w.db.(users := v.db.users));
    forall x
      ensures SumBy(v.awards, x) == TotalOf(w.db, x) + if a.auth == x then a.score else 0
      ensures TotalWritten(w, id, f) ==> TotalOf(v.db, x) == TotalOf(w.db, x) + if a.auth == x then a.score else 0
      ensures !TotalWritten(w, id, f) && x == a.auth ==> TotalOf(v.db, x) == TotalOf(w.db, x)
    {
      SumByLast(w.awards, a, x);
      assert TotalOf(w.db, x) == SumBy(w.awards, x);
      if x in v.db.users && !f.save {
        CreditedTotal(w.db.lifetime, a.user, seen, a.score, v.db.users[x]);
      }
      assert TotalOf(w.db.(users := v.db.users), x) == TotalOf(w.db, x);
    }
    assert !TotalWritten(w, id, f) ==> TotalOf(v.db, a.auth) != SumBy(v.awards, a.auth);
  }

  // ----- whole runs -----

  lemma {:induction false} NotInUnknown(w: World, awards: seq<Award>, round: nat, auth: string)
    requires forall k :: 0 <= k < |awards| ==> awards[k].round in w.db.rounds
    requires round !in w.db.rounds
    ensures SumIn(awards, round, auth) == 0
  {
    if awards != [] {
      NotInUnknown(w, awards[..|awards| - 1], round, auth);
    }
  }

  lemma StartMatched(w: World, round: nat, problems: set<nat>, present: seq<string>, now: int)
    requires BoardsMatch(w) && AwardsPlaced(w)
    ensures BoardsMatch(Next(w, StartRound(round, problems, present, now)))
  {
    var v := Next(w, StartRound(round, problems, present, now));
    if v != w {
      var db := w.db.(rounds := w.db.rounds[round := problems]);
      SeatedKeeps(db, round, present, now);
      RoundTrip(0, now);
      forall r: nat, a ensures Points(BoardPoint(v.db, r, a)) == SumIn(v.awards, r, a) {
        assert BoardPoint(db, r, a) == BoardPoint(w.db, r, a);
        assert Points(BoardPoint(w.db, r, a)) == SumIn(w.awards, r, a);
        if r == round {
          NotInUnknown(w, w.awards, r, a);
        }
      }
    }
  }

  lemma PlacedStep(w: World, e: Event)
    requires TablesInv(w) && AwardsPlaced(w) && !e.DeleteRounds?
    ensures AwardsPlaced(Next(w, e))
  {
    hide Process, AwardInv, ScoresFit, RoundsKnown, ScoreOf, Earns;
    InLockstep(w);
    match e
    case StartRound(round, problems, present, now) =>
      SeatedKeeps(w.db.(rounds := w.db.rounds[round := problems]), round, present, now);
    case Deliver(id, f, now) =>
      if id in w.queued {
        DeliverTables(w, id, f, now);
        DeliverBooks(w, id, f, now);
        if Earns(w, id, f) {
          EarnedScore(w, id, f);
        }
      }
    case _ => LifetimeKept(w, e);
  }

  lemma {:induction false} PlacedRun(difficulty: map<nat, string>, events: seq<Event>)
    requires NoDeletes(events)
    ensures AwardsPlaced(Run(Opened(difficulty), events))
    decreases |events|
  {
    hide TablesInv, AwardsPlaced, Next;
    if events != [] {
      var before, e := events[..|events| - 1], events[|events| - 1];
      PlacedRun(difficulty, before);
      TablesRun(difficulty, before);
      PlacedStep(Run(Opened(difficulty), before), e);
    } else {
      PlacedNone(difficulty);
    }
  }

  lemma PlacedNone(difficulty: map<nat, string>)
    ensures AwardsPlaced(Opened(difficulty))
  {
  }

  /** Every award of the run reached its round leaderboard and its user's lifetime total, and
      no room was deleted. */
  ghost predicate BooksKept(w: World, events: seq<Event>)
    decreases |events|
  {
    events == [] ||
    (var before, e := events[..|events| - 1], events[|events| - 1];
     && BooksKept(w, before) && !e.DeleteRounds?
     && (e.Deliver? ==> BoardWritten(Run(w, before), e.id, e.faults) && TotalWritten(Run(w, before), e.id, e.faults)))
  }

  /** It is enough that no delivery fails to find the user or to write a leaderboard. */
  lemma {:induction false} WrittenIsKept(w: World, events: seq<Event>)
    requires NoDeletes(events)
    requires forall k :: 0 <= k < |events| && events[k].Deliver? ==>
               !events[k].faults.user && !events[k].faults.board && !events[k].faults.save
    ensures BooksKept(w, events)
    decreases |events|
  {
    hide Earns;
    if events != [] {
      WrittenIsKept(w, events[..|events| - 1]);
    }
  }

  lemma {:induction false} KeptHasNoDeletes(w: World, events: seq<Event>)
    requires BooksKept(w, events)
    ensures NoDeletes(events)
    decreases |events|
  {
    hide BoardWritten, TotalWritten;
    if events != [] {
      KeptHasNoDeletes(w, events[..|events| - 1]);
    }
  }

  lemma OtherMatched(w: World, e: Event)
    requires BoardsMatch(w) && TotalsMatch(w) && AwardsPlaced(w) && !e.Deliver? && !e.DeleteRounds?
    ensures BoardsMatch(Next(w, e)) && TotalsMatch(Next(w, e))
  {
    hide Solved, LifetimeTotal, SumBy, AwardsPlaced;
    var v := Next(w, e);
    LifetimeKept(w, e);
    if e.StartRound? {
      StartMatched(w, e.round, e.problems, e.present, e.startedAt);
    } else {
      SameBoards(w, v);
    }
    forall a ensures TotalOf(v.db, a) == SumBy(v.awards, a) {
      assert TotalOf(w.db, a) == SumBy(w.awards, a);
    }
  }

  lemma InBoundsBefore(w: World, e: Event)
    requires InBounds(Next(w, e))
    ensures InBounds(w)
  {
    hide Process;
    var v := Next(w, e);
    if v.awards != w.awards {
      assert v.awards[..|v.awards| - 1] == w.awards;
      forall r: nat, a ensures SumIn(w.awards, r, a) < SCORE_RANGE {
        assert SumIn(v.awards, r, a) < SCORE_RANGE;
      }
    }
  }

  lemma {:induction false} MatchedRun(difficulty: map<nat, string>, events: seq<Event>)
    requires BooksKept(Opened(difficulty), events) && InBounds(Run(Opened(difficulty), events))
    ensures BoardsMatch(Run(Opened(difficulty), events)) && TotalsMatch(Run(Opened(difficulty), events))
    decreases |events|
  {
    hide TablesInv, BoardsMatch, TotalsMatch, InBounds, Next, BoardWritten, TotalWritten, AwardsPlaced;
    if events != [] {
      var before, e := events[..|events| - 1], events[|events| - 1];
      var w := Run(Opened(difficulty), before);
      InBoundsBefore(w, e);
      MatchedRun(difficulty, before);
      TablesRun(difficulty, before);
      if e.Deliver? {
        BoardsStep(w, e.id, e.faults, e.now);
        TotalsStep(w, e.id, e.faults, e.now);
      } else {
        KeptHasNoDeletes(Opened(difficulty), before);
        PlacedRun(difficulty, before);
        OtherMatched(w, e);
      }
    } else {
      OpenedMatched(difficulty);
    }
  }

  lemma OpenedMatched(difficulty: map<nat, string>)
    ensures BoardsMatch(Opened(difficulty)) && TotalsMatch(Opened(difficulty))
  {
  }

  lemma {:induction false} BoardTotalIsSum(w: World, n: nat, auth: string)
    requires BoardsMatch(w)
    ensures BoardTotal(w.db, n, auth) == SumRounds(w.awards, n, auth)
  {
    if n != 0 {
      BoardTotalIsSum(w, n - 1, auth);
      assert Points(BoardPoint(w.db, n - 1, auth)) == SumIn(w.awards, n - 1, auth);
    }
  }

  lemma {:induction false} SumRoundsLast(awards: seq<Award>, a: Award, n: nat, auth: string)
    ensures SumRounds(awards + [a], n, auth)
            == SumRounds(awards, n, auth) + if a.round < n && a.auth == auth then a.score else 0
  {
    if n != 0 {
      SumRoundsLast(awards, a, n - 1, auth);
      SumInLast(awards, a, n - 1, auth);
    }
  }

  lemma {:induction false} SumRoundsNone(n: nat, auth: string)
    ensures SumRounds([], n, auth) == 0
  {
    if n != 0 {
      SumRoundsNone(n - 1, auth);
    }
  }

  /** Summing over the rounds adds the same awards. */
  lemma {:induction false} SumRoundsIsSumBy(awards: seq<Award>, n: nat, auth: string)
    requires forall k :: 0 <= k < |awards| ==> awards[k].round < n
    ensures SumRounds(awards, n, auth) == SumBy(awards, auth)
  {
    if awards == [] {
      SumRoundsNone(n, auth);
    } else {
      var before, a := awards[..|awards| - 1], Last(awards);
      assert awards == before + [a];
      SumRoundsIsSumBy(before, n, auth);
      SumRoundsLast(before, a, n, auth);
    }
  }

  /** While every award reaches both leaderboards and no round's points reach 1024, a user's
      points decoded over all rounds add up to the lifetime total, redeliveries included. */
  lemma PointsAgree(difficulty: map<nat, string>, events: seq<Event>, n: nat, auth: string)
    requires BooksKept(Opened(difficulty), events) && InBounds(Run(Opened(difficulty), events))
    requires forall r :: r in Run(Opened(difficulty), events).db.rounds ==> r < n
    ensures var db := Run(Opened(difficulty), events).db; BoardTotal(db, n, auth) == TotalOf(db, auth)
  {
    hide Run, InBounds, BooksKept;
    MatchedRun(difficulty, events);
    KeptHasNoDeletes(Opened(difficulty), events);
    PlacedRun(difficulty, events);
    var w := Run(Opened(difficulty), events);
    BoardTotalIsSum(w, n, auth);
    SumRoundsIsSumBy(w.awards, n, auth);
    assert TotalOf(w.db, auth) == SumBy(w.awards, auth);
  }

  // ----- the ten bits are enough when no submission is awarded twice -----

  const MAX_PROBLEMS := 204

  function ProblemsIn(awards: seq<Award>, round: nat, auth: string): set<nat> {
    if awards == [] then {}
    else ProblemsIn(awards[..|awards| - 1], round, auth)
         + if Last(awards).round == round && Last(awards).auth == auth then {Last(awards).problem} else {}
  }

  lemma {:induction false} ProblemsInWitness(awards: seq<Award>, round: nat, auth: string, x: nat)
    requires x in ProblemsIn(awards, round, auth)
    ensures exists k :: 0 <= k < |awards| && awards[k].round == round && awards[k].auth == auth && awards[k].problem == x
  {
    var before := awards[..|awards| - 1];
    if x in ProblemsIn(before, round, auth) {
      ProblemsInWitness(before, round, auth, x);
      var k :| 0 <= k < |before| && before[k].round == round && before[k].auth == auth && before[k].problem == x;
      assert awards[k] == before[k];
    } else {
      assert awards[|awards| - 1].problem == x;
    }
  }

  ghost predicate Distinct(awards: seq<Award>) {
    forall k, l :: 0 <= k < l < |awards| && awards[k].auth == awards[l].auth ==> awards[k].problem != awards[l].problem
  }

  lemma {:induction false} SumWithin(awards: seq<Award>, round: nat, auth: string)
    requires Distinct(awards) && forall k :: 0 <= k < |awards| ==> awards[k].score <= 5
    ensures SumIn(awards, round, auth) <= 5 * |ProblemsIn(awards, round, auth)|
  {
    if awards != [] {
      var before, a := awards[..|awards| - 1], Last(awards);
      SumWithin(before, round, auth);
      if a.round == round && a.auth == auth && a.problem in ProblemsIn(before, round, auth) {
        ProblemsInWitness(before, round, auth, a.problem);
      }
    }
  }

  ghost predicate AwardedOnce(w: World) {
    forall id :: CountById(w.awards, id) <= 1
  }

  predicate SmallRounds(w: World) {
    forall r :: r in w.db.rounds ==> |w.db.rounds[r]| <= MAX_PROBLEMS
  }

  lemma {:induction false} CountTwice(awards: seq<Award>, k: nat, l: nat, id: nat)
    requires k < l < |awards| && awards[k].id == id && awards[l].id == id
    ensures CountById(awards, id) >= 2
  {
    var before := awards[..|awards| - 1];
    if l < |before| {
      CountTwice(before, k, l, id);
    } else {
      CountOnce(before, k, id);
    }
  }

  lemma {:induction false} CountOnce(awards: seq<Award>, k: nat, id: nat)
    requires k < |awards| && awards[k].id == id
    ensures CountById(awards, id) >= 1
  {
    if k < |awards| - 1 {
      CountOnce(awards[..|awards| - 1], k, id);
    }
  }

  lemma AwardsDistinct(difficulty: map<nat, string>, events: seq<Event>)
    requires NoDeletes(events) && AwardedOnce(Run(Opened(difficulty), events))
    ensures Distinct(Run(Opened(difficulty), events).awards)
  {
    hide Run, AwardFits, Lockstep, UsersDistinct, ScoredOnce;
    var w := Run(Opened(difficulty), events);
    OpenedAwards(difficulty);
    AwardInvRun(Opened(difficulty), events);
    NothingDeleted(Opened(difficulty), events);
    forall k, l | 0 <= k < l < |w.awards| && w.awards[k].auth == w.awards[l].auth
      ensures w.awards[k].problem != w.awards[l].problem
    {
      if w.awards[k].problem == w.awards[l].problem {
        AwardIsLive(w, k);
        AwardIsLive(w, l);
        OneScoredSubmission(difficulty, events, k, l);
        var id := w.awards[k].id;
        assert CountById(w.awards, id) <= 1;
        CountTwice(w.awards, k, l, id);
      }
    }
  }

  /** While no submission is awarded twice and no room is deleted, whatever else fails, rounds
      of up to 204 problems stay far enough below 1024 points: five at most for each problem. */
  lemma TenBitsSuffice(difficulty: map<nat, string>, events: seq<Event>, round: nat, auth: string)
    requires NoDeletes(events)
    requires AwardedOnce(Run(Opened(difficulty), events)) && SmallRounds(Run(Opened(difficulty), events))
    ensures SumIn(Run(Opened(difficulty), events).awards, round, auth) <= 5 * MAX_PROBLEMS < SCORE_RANGE
  {
    hide Run, AwardedOnce;
    var w := Run(Opened(difficulty), events);
    AwardsDistinct(difficulty, events);
    PlacedRun(difficulty, events);
    SumWithin(w.awards, round, auth);
    var problems := ProblemsIn(w.awards, round, auth);
    if problems != {} {
      var x :| x in problems;
      ProblemsInWitness(w.awards, round, auth, x);
      forall y | y in problems ensures y in w.db.rounds[round] {
        ProblemsInWitness(w.awards, round, auth, y);
      }
      SubsetSize(problems, w.db.rounds[round]);
    }
  }
}

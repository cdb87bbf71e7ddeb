// Deliveries, in runs from an empty database, after which the books are wrong.

module LostPoints {
  import opened Common
  import opened PackedScore
  import opened Scoring
  import opened Conservation
  import opened AwardLimits

  const PROBLEM_UNREAD := NO_FAULTS.(problem := true)
  const USER_NOT_FOUND := NO_FAULTS.(user := true)
  const SAVE_FAILS := NO_FAULTS.(save := true)

  lemma EarnsDespite(w: World, id: nat)
    requires Earns(w, id, NO_FAULTS)
    ensures Earns(w, id, PROBLEM_UNREAD) && Earns(w, id, USER_NOT_FOUND) && Earns(w, id, SAVE_FAILS)
  {
  }

  /** A total without a solved problem: the problem could not be read. */
  lemma Unbalanced()
    ensures !AllBalanced(Run(Opened(CATALOGUE), SUBMITTED + [Deliver(1, PROBLEM_UNREAD, 1)]).db.lifetime)
  {
    hide Earns, TablesInv, Process;
    var w := Run(Opened(CATALOGUE), SUBMITTED);
    Submitted(w);
    TablesRun(CATALOGUE, SUBMITTED);
    EarnsDespite(w, 1);
    RunLast(Opened(CATALOGUE), SUBMITTED, Deliver(1, PROBLEM_UNREAD, 1));
    BalanceStep(w, 1, PROBLEM_UNREAD, 1);
  }

  /** Points on the round leaderboard and lost for the lifetime total: Save failed, and the
      message is acked. */
  lemma SaveLosesPoints()
    ensures var w := Run(Opened(CATALOGUE), SUBMITTED + [Deliver(1, SAVE_FAILS, 1)]);
            && Points(BoardPoint(w.db, 1, AUTH)) == 3 && TotalOf(w.db, AUTH) == 0
    ensures Process(Run(Opened(CATALOGUE), SUBMITTED).db, 1, ACCEPTED, SAVE_FAILS, 1).reply == Permanent
  {
    assert Points(None) == 0;
    hide Earns, TablesInv, Updated, Points;
    var w0, w := Opened(CATALOGUE), Run(Opened(CATALOGUE), SUBMITTED);
    Submitted(w);
    TablesRun(CATALOGUE, SUBMITTED);
    EarnsDespite(w, 1);
    RunLast(w0, SUBMITTED, Deliver(1, SAVE_FAILS, 1));
    AwardIff(w, 1, SAVE_FAILS, 1);
    hide Process;
    DeliverBooks(w, 1, SAVE_FAILS, 1);
    SubmittedWorth(w);
    UpdateAddsPoints(None, 3, 1);
    PointsOfSome(Updated(None, 3, 1));
    var v := Next(w, Deliver(1, SAVE_FAILS, 1));
    assert BoardPoint(v.db, 1, AUTH) == Some(Updated(None, 3, 1));
  }

  lemma SubmittedWorth(w: World)
    requires w == Run(Opened(CATALOGUE), SUBMITTED)
    ensures 1 in w.db.submissions && 1 in w.db.roundSubmissions && w.db.roundSubmissions[1] == RoundSubmission(1, AUTH, 3)
  {
    hide Earns, TablesInv;
    Submitted(w);
    TablesRun(CATALOGUE, SUBMITTED);
    assert TablesInv(w);
    EarnedRow(w, 1, NO_FAULTS);
    InTables(w);
    EarnedScore(w, 1, NO_FAULTS);
  }

  lemma InTables(w: World)
    requires TablesInv(w)
    ensures Lockstep(w) && ScoresFit(w.db) && RowsOwned(w.db) && UsersDistinct(w.db)
  {
  }

  const OTHER := "auth-two"

  /** Two participants; the first one's submission is awarded, the second one's is queued. */
  const TWO_USERS :=
    ROUND + [JoinRound(1, OTHER)] + [Submit(1, 1, AUTH, ACCEPTED)] + [Deliver(1, NO_FAULTS, 1)] + [Submit(1, 1, OTHER, ACCEPTED)]

  lemma FirstOfTwo(w: World)
    requires w == Run(Opened(CATALOGUE), ROUND + [JoinRound(1, OTHER)] + [Submit(1, 1, AUTH, ACCEPTED)])
    ensures TablesInv(w) && w.awards == [] && w.db.lifetime == [] && w.queued == map[1 := ACCEPTED]
    ensures Earns(w, 1, NO_FAULTS) && w.db.nextRoundSubmission == 2 && w.db.roundSubmissions.Keys == {1}
    ensures w.db.roundSubmissions[1] == RoundSubmission(1, AUTH, 3)
    ensures MayCreate(w.db, 1, 1, OTHER) && !Solved(w.db, 1, OTHER)
  {
    hide AwardInv, Earns, TablesInv;
    var w0 := Opened(CATALOGUE);
    var w2 := Run(w0, ROUND);
    RoundStarted(w2);
    RunLast(w0, ROUND, JoinRound(1, OTHER));
    var w3 := Next(w2, JoinRound(1, OTHER));
    AwardInvStep(w2, JoinRound(1, OTHER));
    RunLast(w0, ROUND + [JoinRound(1, OTHER)], Submit(1, 1, AUTH, ACCEPTED));
    FirstSubmission(w3, 1, AUTH);
    TablesRun(CATALOGUE, ROUND + [JoinRound(1, OTHER)] + [Submit(1, 1, AUTH, ACCEPTED)]);
    InTables(w);
    EarnedRow(w, 1, NO_FAULTS);
    EarnedScore(w, 1, NO_FAULTS);
  }

  lemma FirstAwarded(w: World, v: World)
    requires w == Run(Opened(CATALOGUE), ROUND + [JoinRound(1, OTHER)] + [Submit(1, 1, AUTH, ACCEPTED)])
    requires v == Next(w, Deliver(1, NO_FAULTS, 1))
    ensures AwardInv(v) && TotalsMatch(v) && FirstRowIs(v.db, AUTH) && v.db.difficulty == CATALOGUE
    ensures |v.awards| == 1 && v.awards[0].auth == AUTH && v.awards[0].score == 3
    ensures MayCreate(v.db, 1, 1, OTHER) && !Solved(v.db, 1, OTHER) && v.db.nextRoundSubmission == 2
  {
    hide Earns, TablesInv, Process, AwardInv;
    FirstOfTwo(w);
    assert TotalsMatch(w);
    TotalsStep(w, 1, NO_FAULTS, 1);
    InTables(w);
    TablesAwards(w);
    DeliverBooks(w, 1, NO_FAULTS, 1);
    DeliverUsers(w, 1, NO_FAULTS, 1);
    DeliverKeepsTables(w, 1, NO_FAULTS, 1);
    AwardInvStep(w, Deliver(1, NO_FAULTS, 1));
    TablesRun(CATALOGUE, ROUND + [JoinRound(1, OTHER)] + [Submit(1, 1, AUTH, ACCEPTED)]);
  }

  lemma SecondOfTwo(w: World)
    requires w == Run(Opened(CATALOGUE), TWO_USERS)
    ensures TablesInv(w) && Earns(w, 2, NO_FAULTS) && LiveAccepted(w.db, 2, 1, OTHER) && w.db.difficulty == CATALOGUE
    ensures TotalsMatch(w) && FirstRowIs(w.db, AUTH) && |w.awards| == 1 && w.awards[0].auth == AUTH && w.awards[0].score == 3
  {
    hide Earns, TablesInv, AwardInv, LifetimeTotal, SumBy;
    var w0, before := Opened(CATALOGUE), ROUND + [JoinRound(1, OTHER)] + [Submit(1, 1, AUTH, ACCEPTED)];
    var w3 := Run(w0, before);
    RunLast(w0, before, Deliver(1, NO_FAULTS, 1));
    RunLast(w0, before + [Deliver(1, NO_FAULTS, 1)], Submit(1, 1, OTHER, ACCEPTED));
    TablesRun(CATALOGUE, TWO_USERS);
    var w4 := Next(w3, Deliver(1, NO_FAULTS, 1));
    FirstAwarded(w3, w4);
    FirstSubmission(w4, 1, OTHER);
    hide Next;
    forall a ensures TotalOf(w.db, a) == SumBy(w.awards, a) {
      assert TotalOf(w4.db, a) == SumBy(w4.awards, a);
    }
  }

  lemma TablesAwards(w: World)
    requires TablesInv(w)
    ensures AwardInv(w)
  {
  }

  /** The award of the second submission when its user cannot be looked up. */
  lemma OrphanAward(w: World)
    requires w == Run(Opened(CATALOGUE), TWO_USERS)
    ensures TablesInv(w) && Earns(w, 2, USER_NOT_FOUND) && 2 in w.queued
    ensures var a := Earned(w, 2, USER_NOT_FOUND); a.problem == 1 && a.auth == OTHER && a.user == 0 && a.score == 3
  {
    hide TablesInv, Earns;
    SecondOfTwo(w);
    EarnsDespite(w, 2);
    InTables(w);
    EarnedRow(w, 2, USER_NOT_FOUND);
    EarnedScore(w, 2, USER_NOT_FOUND);
  }

  /** Points credited to somebody else: the user could not be looked up, and the first lifetime
      row takes them. */
  lemma StrangerCredited()
    ensures var w := Run(Opened(CATALOGUE), TWO_USERS + [Deliver(2, USER_NOT_FOUND, 2)]);
            && SumBy(w.awards, AUTH) == 3 && TotalOf(w.db, AUTH) == 6
            && SumBy(w.awards, OTHER) == 3 && TotalOf(w.db, OTHER) == 0
  {
    hide Earns, TablesInv, AwardInv, Next, Credited, LifetimeTotal, Earned, WithUser, DifficultyOf;
    var w0, w := Opened(CATALOGUE), Run(Opened(CATALOGUE), TWO_USERS);
    var f := USER_NOT_FOUND;
    SecondOfTwo(w);
    OrphanAward(w);
    RunLast(w0, TWO_USERS, Deliver(2, f, 2));
    TablesAwards(w);
    InTables(w);
    DeliverBooks(w, 2, f, 2);
    DeliverUsers(w, 2, f, 2);
    var v, a := Next(w, Deliver(2, f, 2)), Earned(w, 2, f);
    assert w.awards[..0] == [];
    assert SumBy(w.awards, AUTH) == 3 && SumBy(w.awards, OTHER) == 0;
    SumByLast(w.awards, a, AUTH);
    SumByLast(w.awards, a, OTHER);
    assert TotalOf(w.db, AUTH) == 3 && TotalOf(w.db, OTHER) == 0;
    forall x | x in w.db.users
      ensures LifetimeTotal(v.db.lifetime, w.db.users[x])
           == LifetimeTotal(w.db.lifetime, w.db.users[x]) + if w.db.lifetime[0].user == w.db.users[x] then 3 else 0
    {
      CreditedTotal(w.db.lifetime, 0, SeenDifficulty(w.db, 1, f), 3, w.db.users[x]);
    }
  }
}

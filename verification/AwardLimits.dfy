// Where "each solved problem is awarded once" stops being true of the code.

module AwardLimits {
  import opened Common
  import opened PackedScore
  import opened Scoring

  /** No delivery, whatever fails in it, changes what any later delivery earns: the query that
      guards an award leaves the submission itself out, and nothing else is written for it. */
  lemma DeliveryKeepsEarnings(w: World, id: nat, f: Faults, now: int)
    requires AwardInv(w)
    ensures var v := Next(w, Deliver(id, f, now));
            && AwardInv(v) && SameSubmissions(w, v) && v.db.roundSubmissions == w.db.roundSubmissions
            && (forall i: nat, p, a :: LiveAccepted(v.db, i, p, a) <==> LiveAccepted(w.db, i, p, a))
            && forall other, g :: Earns(v, other, g) <==> Earns(w, other, g)
  {
    hide Process, AwardFits, UsersDistinct, ScoredOnce;
    AwardInvStep(w, Deliver(id, f, now));
    if id in w.queued {
      DeliverKeepsTables(w, id, f, now);
    }
  }

  /** Delivering an awarded message once more awards it once more, at any later time. */
  lemma RedeliveryAwardsAgain(w: World, id: nat, f: Faults, now: int, g: Faults, later: int)
    requires AwardInv(w) && Earns(w, id, f) && Earns(w, id, g)
    ensures var v := Next(Next(w, Deliver(id, f, now)), Deliver(id, g, later));
            |v.awards| == |w.awards| + 2 && v.awards[|w.awards|].id == v.awards[|w.awards| + 1].id == id
  {
    hide AwardInv, SameSubmissions, Process, LiveAccepted, Earns;
    var v := Next(w, Deliver(id, f, now));
    DeliveryKeepsEarnings(w, id, f, now);
    EarnedRow(w, id, f);
    EarnedRow(v, id, g);
    AwardIff(w, id, f, now);
    AwardIff(v, id, g, later);
  }

  // ----- a second accepted submission -----

  /** Two accepted submissions of one user for one problem are there. */
  predicate Twice(db: Db, i: nat, j: nat, problem: nat, auth: string) {
    i != j && LiveAccepted(db, i, problem, auth) && LiveAccepted(db, j, problem, auth)
  }

  /** Deliveries read the user and the count, and nothing is deleted. */
  predicate Sighted(e: Event) {
    !e.DeleteRounds? && (e.Deliver? ==> !e.faults.user && !e.faults.count)
  }

  /** Once a second accepted submission exists, neither of the two can be awarded any more:
      a second acceptance before the first is processed cancels the award. */
  lemma {:induction false} SecondAcceptedCancels(w: World, i: nat, j: nat, problem: nat, auth: string, events: seq<Event>)
    requires AwardInv(w) && Twice(w.db, i, j, problem, auth)
    requires forall k :: 0 <= k < |events| ==> Sighted(events[k])
    ensures var v := Run(w, events);
            && AwardInv(v) && Twice(v.db, i, j, problem, auth)
            && CountByPair(v.awards, problem, auth) == CountByPair(w.awards, problem, auth)
    decreases |events|
  {
    hide AwardInv, Next;
    if events != [] {
      var before, e := events[..|events| - 1], events[|events| - 1];
      SecondAcceptedCancels(w, i, j, problem, auth, before);
      AwardInvStep(Run(w, before), e);
      TwiceStep(Run(w, before), i, j, problem, auth, e);
    }
  }

  lemma TwiceStep(w: World, i: nat, j: nat, problem: nat, auth: string, e: Event)
    requires AwardInv(w) && Twice(w.db, i, j, problem, auth) && Sighted(e)
    ensures var v := Next(w, e);
            && Twice(v.db, i, j, problem, auth)
            && CountByPair(v.awards, problem, auth) == CountByPair(w.awards, problem, auth)
  {
    hide Process, AwardFits, UsersDistinct, ScoredOnce;
    match e
    case StartRound(round, problems, present, now) =>
      SeatedKeeps(w.db.(rounds := w.db.rounds[round := problems]), round, present, now);
    case Deliver(id, f, now) =>
      if id in w.queued {
        DeliveryKeepsEarnings(w, id, f, now);
        NoAwardForPair(w, i, j, problem, auth, id, f, now);
        var r := Process(w.db, id, w.queued[id], f, now);
        assert r.award.Some? ==> (w.awards + [r.award.value])[..|w.awards|] == w.awards;
      }
    case _ =>
  }

  lemma NoAwardForPair(w: World, i: nat, j: nat, problem: nat, auth: string, id: nat, f: Faults, now: int)
    requires AwardInv(w) && Twice(w.db, i, j, problem, auth) && id in w.queued && !f.user && !f.count
    ensures var r := Process(w.db, id, w.queued[id], f, now);
            r.award.Some? ==> !(r.award.value.problem == problem && r.award.value.auth == auth)
  {
    hide Process, AwardFits, UsersDistinct, ScoredOnce;
    AwardIff(w, id, f, now);
  }

  // ----- deleted rooms -----

  /** Deleting rooms forgets who solved what: afterwards a user gets points for a problem again
      exactly when none of the accepted submissions for it is left. */
  lemma DeletionForgets(w: World, rounds: set<nat>, problem: nat, auth: string)
    requires Lockstep(w)
    ensures ScoreDelta(Deleted(w.db, rounds), problem, auth) > 0
            <==> forall i: nat :: LiveAccepted(w.db, i, problem, auth) ==> w.db.roundSubmissions[i].round in rounds
  {
    var d := Deleted(w.db, rounds);
    if Solved(d, problem, auth) {
      var id :| id in d.submissions && AcceptedBy(d, id, problem, auth);
      assert LiveAccepted(w.db, id, problem, auth);
    }
    if i: nat :| LiveAccepted(w.db, i, problem, auth) && w.db.roundSubmissions[i].round !in rounds {
      assert AcceptedBy(d, i, problem, auth);
    }
  }

  // ----- runs that show it -----

  const AUTH := "auth-one"
  const CATALOGUE := map[1 := EASY]

  lemma RunLast(w: World, events: seq<Event>, e: Event)
    ensures Run(w, events + [e]) == Next(Run(w, events), e)
  {
    assert (events + [e])[..|events|] == events;
  }

  /** A started round with one problem and one participant. */
  const ROUND := [StartRound(1, {1}, [], 0), JoinRound(1, AUTH)]

  lemma RoundStarted(w: World)
    requires w == Run(Opened(CATALOGUE), ROUND)
    ensures w == Opened(CATALOGUE).(db := Opened(CATALOGUE).db.(rounds := map[1 := {1}], participants := {(1, AUTH)}))
    ensures AwardInv(w)
  {
    hide AwardInv;
    var w0 := Opened(CATALOGUE);
    OpenedAwards(CATALOGUE);
    AwardInvRun(w0, ROUND);
    assert ROUND == ([] + [ROUND[0]]) + [ROUND[1]];
    RunLast(w0, [], ROUND[0]);
    RunLast(w0, [ROUND[0]], ROUND[1]);
    assert [] + [ROUND[0]] == [ROUND[0]];
    assert Next(w0, ROUND[0]) == w0.(db := w0.db.(rounds := map[1 := {1}]));
  }

  /** The first accepted submission of a user for a problem is worth an award once queued. */
  lemma FirstSubmission(w: World, round: nat, auth: string)
    requires AwardInv(w) && MayCreate(w.db, round, 1, auth) && !Solved(w.db, 1, auth)
    ensures var v := Next(w, Submit(round, 1, auth, ACCEPTED));
            && AwardInv(v) && v.awards == w.awards && v.queued == w.queued[w.db.nextRoundSubmission := ACCEPTED]
            && v.db.roundSubmissions == w.db.roundSubmissions[w.db.nextRoundSubmission := v.db.roundSubmissions[w.db.nextRoundSubmission]]
            && LiveAccepted(v.db, w.db.nextRoundSubmission, 1, auth)
            && Earns(v, w.db.nextRoundSubmission, NO_FAULTS) && v.db.lifetime == w.db.lifetime && v.db.users == w.db.users
            && v.db.rounds == w.db.rounds && v.db.participants == w.db.participants && v.db.ended == w.db.ended
            && v.db.nextRoundSubmission == w.db.nextRoundSubmission + 1 && v.db.difficulty == w.db.difficulty
            && v.db.roundSubmissions[w.db.nextRoundSubmission].auth == auth
  {
    hide AwardFits, UsersDistinct, ScoredOnce;
    AwardInvStep(w, Submit(round, 1, auth, ACCEPTED));
    var v := Next(w, Submit(round, 1, auth, ACCEPTED));
    forall other: nat | LiveAccepted(v.db, other, 1, auth) ensures other == w.db.nextRoundSubmission {
      assert other != w.db.nextRoundSubmission ==> AcceptedBy(w.db, other, 1, auth);
    }
  }

  const SUBMITTED := ROUND + [Submit(1, 1, AUTH, ACCEPTED)]

  lemma Submitted(w: World)
    requires w == Run(Opened(CATALOGUE), SUBMITTED)
    ensures AwardInv(w) && w.awards == [] && w.queued == map[1 := ACCEPTED] && Earns(w, 1, NO_FAULTS)
    ensures w.db.nextRoundSubmission == 2 && w.db.rounds == map[1 := {1}] && w.db.participants == {(1, AUTH)} && w.db.ended == {}
    ensures w.db.roundSubmissions.Keys == {1} && w.db.boards == map[] && w.db.difficulty == CATALOGUE && w.db.lifetime == []
    ensures LiveAccepted(w.db, 1, 1, AUTH) && w.db.roundSubmissions[1].round == 1
  {
    hide AwardInv;
    var w2 := Run(Opened(CATALOGUE), ROUND);
    RoundStarted(w2);
    RunLast(Opened(CATALOGUE), ROUND, Submit(1, 1, AUTH, ACCEPTED));
    FirstSubmission(w2, 1, AUTH);
  }

  /** A run in which one submission is awarded twice: its message is delivered twice. */
  lemma AwardedTwice()
    ensures var w := Run(Opened(CATALOGUE), SUBMITTED + [Deliver(1, NO_FAULTS, 1)] + [Deliver(1, NO_FAULTS, 2)]);
            w.queued == map[1 := ACCEPTED] && |w.awards| == 2
  {
    hide Process, AwardInv, Next, Earns;
    var w := Run(Opened(CATALOGUE), SUBMITTED);
    Submitted(w);
    RunLast(Opened(CATALOGUE), SUBMITTED, Deliver(1, NO_FAULTS, 1));
    RunLast(Opened(CATALOGUE), SUBMITTED + [Deliver(1, NO_FAULTS, 1)], Deliver(1, NO_FAULTS, 2));
    DeliveryKeepsEarnings(w, 1, NO_FAULTS, 1);
    DeliveryKeepsEarnings(Next(w, Deliver(1, NO_FAULTS, 1)), 1, NO_FAULTS, 2);
    RedeliveryAwardsAgain(w, 1, NO_FAULTS, 1, NO_FAULTS, 2);
  }

  /** A delivery that earns an award adds it, and one that does not adds none. */
  lemma DeliveryAwards(w: World, id: nat, now: int)
    requires AwardInv(w) && id in w.queued
    ensures var v := Next(w, Deliver(id, NO_FAULTS, now));
            && v.queued == w.queued && |v.awards| == |w.awards| + (if Earns(w, id, NO_FAULTS) then 1 else 0)
            && (Earns(w, id, NO_FAULTS) ==>
                  && v.awards[..|w.awards|] == w.awards
                  && v.awards[|w.awards|].id == id
                  && v.awards[|w.awards|].problem == w.db.submissions[id].problem
                  && v.awards[|w.awards|].auth == w.db.roundSubmissions[id].auth)
  {
    hide Process, Earns;
    EarnedRow(w, id, NO_FAULTS);
    AwardIff(w, id, NO_FAULTS, now);
  }

  const TWICE_SUBMITTED := SUBMITTED + [Submit(1, 1, AUTH, ACCEPTED)]

  lemma SubmittedTwice(w: World)
    requires w == Run(Opened(CATALOGUE), TWICE_SUBMITTED)
    ensures AwardInv(w) && w.awards == [] && w.queued == map[1 := ACCEPTED, 2 := ACCEPTED] && Twice(w.db, 1, 2, 1, AUTH)
  {
    hide Process, AwardInv, ScoreDelta;
    var w3 := Run(Opened(CATALOGUE), SUBMITTED);
    Submitted(w3);
    InLockstep(w3);
    var again := Submit(1, 1, AUTH, ACCEPTED);
    RunLast(Opened(CATALOGUE), SUBMITTED, again);
    assert MayCreate(w3.db, 1, 1, AUTH);
    AwardInvStep(w3, again);
  }

  /** A run in which a solved problem earns nothing: it is accepted twice before either message
      is delivered, and then both are. */
  lemma AwardCancelled()
    ensures var w := Run(Opened(CATALOGUE), TWICE_SUBMITTED + [Deliver(1, NO_FAULTS, 1)] + [Deliver(2, NO_FAULTS, 2)]);
            w.queued == map[1 := ACCEPTED, 2 := ACCEPTED] && w.awards == [] && Twice(w.db, 1, 2, 1, AUTH)
  {
    var w4 := Run(Opened(CATALOGUE), TWICE_SUBMITTED);
    SubmittedTwice(w4);
    assert !Earns(w4, 1, NO_FAULTS) && !Earns(w4, 2, NO_FAULTS);
    hide Process, Earns, AwardInv, Next, LiveAccepted;
    RunLast(Opened(CATALOGUE), TWICE_SUBMITTED, Deliver(1, NO_FAULTS, 1));
    RunLast(Opened(CATALOGUE), TWICE_SUBMITTED + [Deliver(1, NO_FAULTS, 1)], Deliver(2, NO_FAULTS, 2));
    var w5 := Next(w4, Deliver(1, NO_FAULTS, 1));
    DeliveryKeepsEarnings(w4, 1, NO_FAULTS, 1);
    DeliveryAwards(w4, 1, 1);
    DeliveryKeepsEarnings(w5, 2, NO_FAULTS, 2);
    DeliveryAwards(w5, 2, 2);
  }

  const REOPENED := SUBMITTED + [Deliver(1, NO_FAULTS, 1)] + [DeleteRounds({1})] + [StartRound(2, {1}, [], 3)] + [JoinRound(2, AUTH)]

  /** After the award the round is deleted and another one started. */
  lemma Reopened(w: World)
    requires w == Run(Opened(CATALOGUE), REOPENED)
    ensures AwardInv(w) && |w.awards| == 1 && w.awards[0].id == 1 && w.awards[0].problem == 1 && w.awards[0].auth == AUTH
    ensures w.db.nextRoundSubmission == 2 && MayCreate(w.db, 2, 1, AUTH) && !Solved(w.db, 1, AUTH)
  {
    hide Process, Earns, AwardInv;
    var w0 := Opened(CATALOGUE);
    var w3 := Run(w0, SUBMITTED);
    Submitted(w3);
    RunLast(w0, SUBMITTED, Deliver(1, NO_FAULTS, 1));
    RunLast(w0, SUBMITTED + [Deliver(1, NO_FAULTS, 1)], DeleteRounds({1}));
    RunLast(w0, SUBMITTED + [Deliver(1, NO_FAULTS, 1)] + [DeleteRounds({1})], StartRound(2, {1}, [], 3));
    RunLast(w0, SUBMITTED + [Deliver(1, NO_FAULTS, 1)] + [DeleteRounds({1})] + [StartRound(2, {1}, [], 3)], JoinRound(2, AUTH));
    AwardInvRun(w0, REOPENED) by { OpenedAwards(CATALOGUE); }
    DeliveryAwards(w3, 1, 1);
    InLockstep(w3);
    DeliverKeepsTables(w3, 1, NO_FAULTS, 1);
    DeliveryBoards(w3, 1, 1);
    assert LiveAccepted(w3.db, 1, 1, AUTH);
  }

  lemma DeliveryBoards(w: World, id: nat, now: int)
    requires AwardInv(w) && id in w.queued
    ensures forall r :: r in Next(w, Deliver(id, NO_FAULTS, now)).db.boards ==>
              r in w.db.boards || (id in w.db.roundSubmissions && r == w.db.roundSubmissions[id].round)
  {
    hide AlreadyAwarded, Credited, Updated;
  }

  /** A run in which one user is awarded one problem twice without any redelivery: its room was
      deleted in between. */
  lemma AwardedAfterDeletion()
    ensures var w := Run(Opened(CATALOGUE), REOPENED + [Submit(2, 1, AUTH, ACCEPTED)] + [Deliver(2, NO_FAULTS, 4)]);
            |w.awards| == 2 && CountByPair(w.awards, 1, AUTH) == 2 && w.awards[0].id != w.awards[1].id
  {
    hide Process, Earns, AwardInv, Next;
    var w0 := Opened(CATALOGUE);
    var w7 := Run(w0, REOPENED);
    Reopened(w7);
    RunLast(w0, REOPENED, Submit(2, 1, AUTH, ACCEPTED));
    RunLast(w0, REOPENED + [Submit(2, 1, AUTH, ACCEPTED)], Deliver(2, NO_FAULTS, 4));
    FirstSubmission(w7, 2, AUTH);
    var w8 := Next(w7, Submit(2, 1, AUTH, ACCEPTED));
    DeliveryAwards(w8, 2, 4);
    var w9 := Next(w8, Deliver(2, NO_FAULTS, 4));
    assert w9.awards[0] == w9.awards[..1][0] == w7.awards[0];
    assert w9.awards[..1][..0] == [];
    assert CountByPair(w9.awards[..1], 1, AUTH) == 1;
  }
}

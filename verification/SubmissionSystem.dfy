// The pipeline and the scoring as one system: a submission creates its rows and is published,
// the worker hands it on, and the handler at the other end processes what it consumed. Steps
// are single Redis commands, database transactions of a handler being one step. A handler
// killed halfway is a processing in which the rest of the writes fail, and then a crash.

module SubmissionSystem {
  import opened Common
  import D = Delivery
  import P = Pipeline
  import Q = Consumers
  import S = Scoring
  import C = Conservation

  datatype State = State(world: S.World, sys: P.System)

  datatype Event =
    | Manage(change: S.Event)
    | Submit(round: nat, problem: nat, slug: string, lang: string, code: string, verdict: string, auth: string, o: Outcome)
    | WorkerDoes(step: D.Step)
    | CentralDoes(step: D.Step)
    | Process(faults: S.Faults, now: int)

  /** Rounds and participants, as opposed to submissions and their messages. */
  predicate Managing(e: S.Event) {
    e.StartRound? || e.JoinRound? || e.EndRound? || e.DeleteRounds?
  }

  /** The verdict message the handler has consumed and not processed yet. */
  function InHand(sys: P.System): Option<D.Payload> {
    if sys.egress.pc.Holding? && D.Good(D.Central, sys.egress.pc.m) then Some(sys.egress.pc.m) else None
  }

  /** Whether the handler goes on to ack or to requeue. */
  function ActOutcome(r: S.Result): Outcome {
    if r.reply == S.Transient then NotApplied else Ok
  }

  /** The message a new submission is published as. */
  function Message(w: S.World, e: Event): D.Payload
    requires e.Submit?
  {
    D.Submission(e.slug, e.problem, e.lang, e.code, e.verdict, w.db.nextRoundSubmission)
  }

  /** Processing reads the id and the verdict from the message, and the rest from the database. */
  function Next(s: State, e: Event): State {
    match e
    case Manage(change) => if Managing(change) then s.(world := S.Next(s.world, change)) else s
    case Submit(round, problem, _, _, _, verdict, auth, o) =>
      if !S.MayCreate(s.world.db, round, problem, auth) then s
      else State(S.Next(s.world, S.Submit(round, problem, auth, verdict)),
                 P.NextSystem(s.sys, P.Submit(Message(s.world, e), o)))
    case WorkerDoes(step) => s.(sys := P.NextSystem(s.sys, P.WorkerDoes(step)))
    case CentralDoes(step) => if step.Act? then s else s.(sys := P.NextSystem(s.sys, P.CentralDoes(step)))
    case Process(f, now) =>
      var m := InHand(s.sys);
      if m == None then s
      else
        var r := S.Process(s.world.db, m.value.submissionId, m.value.verdict, f, now);
        State(S.Noted(s.world, m.value.submissionId, r), P.NextSystem(s.sys, P.CentralDoes(D.Act(ActOutcome(r)))))
  }

  function Run(s: State, run: seq<Event>): State {
    if run == [] then s else Next(Run(s, run[..|run| - 1]), run[|run| - 1])
  }

  function Initial(difficulty: map<nat, string>): State {
    State(S.Opened(difficulty), P.INITIAL)
  }

  lemma {:induction false} RunConcat(s: State, a: seq<Event>, b: seq<Event>)
    ensures Run(s, a + b) == Run(Run(s, a), b)
  {
    if b == [] {
      assert a + b == a;
    } else {
      assert (a + b)[..|a + b| - 1] == a + b[..|b| - 1];
      RunConcat(s, a, b[..|b| - 1]);
    }
  }

  // ----- each half is a run of its own model -----

  function ScoringOf(s: State, e: Event): seq<S.Event> {
    match e
    case Manage(change) => if Managing(change) then [change] else []
    case Submit(round, problem, _, _, _, verdict, auth, _) => [S.Submit(round, problem, auth, verdict)]
    case Process(f, now) => if InHand(s.sys).Some? then [S.Deliver(InHand(s.sys).value.submissionId, f, now)] else []
    case _ => []
  }

  function PipelineOf(s: State, e: Event): seq<P.Event> {
    match e
    case Submit(round, problem, _, _, _, _, auth, o) =>
      if S.MayCreate(s.world.db, round, problem, auth) then [P.Submit(Message(s.world, e), o)] else []
    case WorkerDoes(step) => [P.WorkerDoes(step)]
    case CentralDoes(step) => if step.Act? then [] else [P.CentralDoes(step)]
    case Process(f, now) =>
      var m := InHand(s.sys);
      if m == None then []
      else [P.CentralDoes(D.Act(ActOutcome(S.Process(s.world.db, m.value.submissionId, m.value.verdict, f, now))))]
    case _ => []
  }

  function ScoringEvents(s: State, run: seq<Event>): seq<S.Event> {
    if run == [] then []
    else ScoringEvents(s, run[..|run| - 1]) + ScoringOf(Run(s, run[..|run| - 1]), run[|run| - 1])
  }

  function PipelineEvents(s: State, run: seq<Event>): seq<P.Event> {
    if run == [] then []
    else PipelineEvents(s, run[..|run| - 1]) + PipelineOf(Run(s, run[..|run| - 1]), run[|run| - 1])
  }

  lemma {:induction false} IsPipelineRun(s: State, run: seq<Event>)
    ensures Run(s, run).sys == P.RunSystem(s.sys, PipelineEvents(s, run))
  {
    hide S.Next, S.Process, P.NextSystem;
    if run != [] {
      var before, e := run[..|run| - 1], run[|run| - 1];
      IsPipelineRun(s, before);
      Q.RunSystemConcat(s.sys, PipelineEvents(s, before), PipelineOf(Run(s, before), e));
      if PipelineOf(Run(s, before), e) != [] {
        Q.RunOne(Run(s, before).sys, PipelineOf(Run(s, before), e)[0]);
      }
    }
  }

  // ----- what travels on the queues -----

  /** Publications on the ingress queue are those of created submissions, with their verdict,
      and no submission is published twice. */
  ghost predicate IngressTrue(w: S.World, published: seq<D.Payload>) {
    && (forall i :: 0 <= i < |published| ==> published[i].Submission? && Knows(w, published[i].submissionId, published[i].verdict))
    && (forall i, j :: 0 <= i < j < |published| ==> published[i].submissionId != published[j].submissionId)
  }

  predicate Knows(w: S.World, id: nat, verdict: string) {
    id in w.queued && w.queued[id] == verdict
  }

  ghost predicate EgressTrue(w: S.World, published: seq<D.Payload>) {
    forall i :: 0 <= i < |published| ==> published[i].Verdict? && Knows(w, published[i].submissionId, published[i].verdict)
  }

  /** Every award was made by a handling of its message. */
  ghost predicate AwardsHandled(w: S.World, acted: seq<D.Payload>) {
    forall id :: S.CountById(w.awards, id) <=
                 if id in w.queued then multiset(acted)[D.Verdict(id, w.queued[id])] else 0
  }

  ghost predicate Sound(s: State) {
    && P.Linked(s.sys) && S.AwardInv(s.world)
    && IngressTrue(s.world, s.sys.ingress.published)
    && EgressTrue(s.world, s.sys.egress.published)
    && AwardsHandled(s.world, s.sys.egress.acted)
  }

  lemma CarriedIsPublished(role: D.Role, s: D.Stage)
    requires D.Inv(role, s) && D.Carries(s.pc)
    ensures exists i :: 0 <= i < |s.published| && s.published[i] == s.pc.m
  {
    assert s.pc.m in multiset(s.published);
  }

  /** More verdicts known leave everything true. */
  lemma TrueLater(w: S.World, v: S.World, s: P.System)
    requires IngressTrue(w, s.ingress.published) && EgressTrue(w, s.egress.published) && AwardsHandled(w, s.egress.acted)
    requires v.awards == w.awards && forall id :: id in w.queued ==> id in v.queued && v.queued[id] == w.queued[id]
    ensures IngressTrue(v, s.ingress.published) && EgressTrue(v, s.egress.published) && AwardsHandled(v, s.egress.acted)
  {
    forall id
      ensures S.CountById(v.awards, id) <= if id in v.queued then multiset(s.egress.acted)[D.Verdict(id, v.queued[id])] else 0
    {
      assert S.CountById(w.awards, id) <= if id in w.queued then multiset(s.egress.acted)[D.Verdict(id, w.queued[id])] else 0;
    }
  }

  lemma ManageSound(s: State, change: S.Event)
    requires Sound(s) && Managing(change)
    ensures Sound(Next(s, Manage(change)))
  {
    hide S.AwardInv, P.Linked, IngressTrue, EgressTrue, AwardsHandled, S.Next;
    S.AwardInvStep(s.world, change);
    ManageKeeps(s.world, change);
    TrueLater(s.world, S.Next(s.world, change), s.sys);
  }

  lemma ManageKeeps(w: S.World, change: S.Event)
    requires Managing(change)
    ensures S.Next(w, change).awards == w.awards && S.Next(w, change).queued == w.queued
  {
    hide S.Seated, S.Deleted;
  }

  lemma SubmitSound(s: State, e: Event)
    requires Sound(s) && e.Submit? && S.MayCreate(s.world.db, e.round, e.problem, e.auth)
    ensures Sound(Next(s, e))
  {
    var submitted := S.Submit(e.round, e.problem, e.auth, e.verdict);
    S.AwardInvStep(s.world, submitted);
    S.InLockstep(s.world);
    Queues(s.world, e);
    hide S.AwardInv, P.Linked, IngressTrue, EgressTrue, AwardsHandled, P.NextSystem, S.Next;
    P.SubmitPublishes(s.sys, Message(s.world, e), e.o);
    var w := S.Next(s.world, submitted);
    TrueLater(s.world, w, s.sys);
    PublishedTrue(w, s.sys.ingress.published, Message(s.world, e));
  }

  /** A submission is queued under a fresh id. */
  lemma Queues(w: S.World, e: Event)
    requires S.Lockstep(w) && e.Submit? && S.MayCreate(w.db, e.round, e.problem, e.auth)
    ensures var v := S.Next(w, S.Submit(e.round, e.problem, e.auth, e.verdict));
            && w.db.nextRoundSubmission !in w.queued && v.awards == w.awards
            && v.queued == w.queued[w.db.nextRoundSubmission := e.verdict]
    ensures forall p: seq<D.Payload> :: IngressTrue(w, p) ==> forall i :: 0 <= i < |p| ==> p[i].submissionId != w.db.nextRoundSubmission
  {
  }

  lemma PublishedTrue(w: S.World, published: seq<D.Payload>, m: D.Payload)
    requires IngressTrue(w, published) && m.Submission? && Knows(w, m.submissionId, m.verdict)
    requires forall i :: 0 <= i < |published| ==> published[i].submissionId != m.submissionId
    ensures IngressTrue(w, published + [m]) && IngressTrue(w, published + [])
  {
    assert published + [] == published;
  }

  lemma WorkerSound(s: State, step: D.Step)
    requires Sound(s)
    ensures Sound(Next(s, WorkerDoes(step)))
  {
    HandedOnTrue(s, step);
    hide S.AwardInv, IngressTrue, EgressTrue, AwardsHandled, P.NextSystem, P.Linked, P.HandedOn, S.Next, S.Process;
    P.WorkerPublishes(s.sys, step);
    TrueConcat(s.world, s.sys.egress.published, P.HandedOn(s.sys, step));
  }

  lemma TrueConcat(w: S.World, a: seq<D.Payload>, b: seq<D.Payload>)
    requires EgressTrue(w, a) && EgressTrue(w, b)
    ensures EgressTrue(w, a + b)
  {
  }

  lemma HandedOnTrue(s: State, step: D.Step)
    requires Sound(s)
    ensures EgressTrue(s.world, P.HandedOn(s.sys, step))
  {
    hide S.AwardInv, AwardsHandled, EgressTrue;
    if P.HandedOn(s.sys, step) != [] {
      CarriedIsPublished(D.Worker, s.sys.ingress);
    }
    assert EgressTrue(s.world, []) by { NothingTrue(s.world); }
    if P.HandedOn(s.sys, step) != [] {
      hide P.Linked;
      OneTrue(s.world, P.HandedOn(s.sys, step)[0]);
    }
  }

  lemma NothingTrue(w: S.World)
    ensures EgressTrue(w, [])
  {
  }

  lemma OneTrue(w: S.World, m: D.Payload)
    requires m.Verdict? && Knows(w, m.submissionId, m.verdict)
    ensures EgressTrue(w, [m])
  {
  }

  lemma CentralSound(s: State, step: D.Step)
    requires Sound(s) && !step.Act?
    ensures Sound(Next(s, CentralDoes(step)))
  {
    hide S.AwardInv, IngressTrue, EgressTrue, AwardsHandled, P.NextSystem, P.Linked;
    P.CentralHandles(s.sys, step);
    assert s.sys.egress.acted + [] == s.sys.egress.acted;
  }

  /** A verdict message in hand is that of a created submission, so processing it is the
      delivery of the scoring model. */
  lemma ProcessIsDeliver(s: State, f: S.Faults, now: int)
    requires Sound(s) && InHand(s.sys).Some?
    ensures var m := InHand(s.sys).value;
            && Knows(s.world, m.submissionId, m.verdict) && m.Verdict?
            && Next(s, Process(f, now)).world == S.Next(s.world, S.Deliver(m.submissionId, f, now))
  {
    hide S.AwardInv, S.Process, IngressTrue, AwardsHandled, P.NextSystem;
    CarriedIsPublished(D.Central, s.sys.egress);
  }

  lemma ProcessSound(s: State, f: S.Faults, now: int)
    requires Sound(s) && InHand(s.sys).Some?
    ensures Sound(Next(s, Process(f, now)))
  {
    hide S.Process, S.Next, P.NextSystem, IngressTrue, EgressTrue, AwardsHandled, S.AwardInv, P.Linked;
    var m := InHand(s.sys).value;
    var r := S.Process(s.world.db, m.submissionId, m.verdict, f, now);
    ProcessIsDeliver(s, f, now);
    S.AwardInvStep(s.world, S.Deliver(m.submissionId, f, now));
    S.TransientNeverAwards(s.world.db, m.submissionId, m.verdict, f, now);
    AwardIsOwn(s.world, m.submissionId, m.verdict, f, now);
    P.CentralHandles(s.sys, D.Act(ActOutcome(r)));
    assert P.HandledBy(s.sys, D.Act(ActOutcome(r))) == if r.reply == S.Transient then [] else [m];
    SameKnown(s.world, S.Noted(s.world, m.submissionId, r), s.sys);
    HandlingCounts(s.world, s.sys.egress.acted, m, r);
  }

  lemma HandlingCounts(w: S.World, acted: seq<D.Payload>, m: D.Payload, r: S.Result)
    requires AwardsHandled(w, acted) && m.Verdict? && Knows(w, m.submissionId, m.verdict)
    requires r.award.Some? ==> r.award.value.id == m.submissionId && r.reply != S.Transient
    ensures AwardsHandled(S.Noted(w, m.submissionId, r), acted + if r.reply == S.Transient then [] else [m])
  {
    var v := S.Noted(w, m.submissionId, r);
    if r.award.Some? {
      CountLast(w.awards, r.award.value);
    }
    forall id
      ensures S.CountById(v.awards, id)
           <= if id in v.queued then multiset(acted + if r.reply == S.Transient then [] else [m])[D.Verdict(id, v.queued[id])] else 0
    {
      assert S.CountById(w.awards, id) <= if id in w.queued then multiset(acted)[D.Verdict(id, w.queued[id])] else 0;
      assert m.submissionId == id ==> m == D.Verdict(id, w.queued[id]);
    }
  }

  lemma SameKnown(w: S.World, v: S.World, s: P.System)
    requires IngressTrue(w, s.ingress.published) && EgressTrue(w, s.egress.published) && v.queued == w.queued
    ensures IngressTrue(v, s.ingress.published) && EgressTrue(v, s.egress.published)
  {
  }

  lemma AwardIsOwn(w: S.World, id: nat, verdict: string, f: S.Faults, now: int)
    ensures var r := S.Process(w.db, id, verdict, f, now); r.award.Some? ==> r.award.value.id == id
  {
    hide S.AlreadyAwarded, S.Credit;
  }

  lemma CountLast(awards: seq<S.Award>, a: S.Award)
    ensures forall id :: S.CountById(awards + [a], id) == S.CountById(awards, id) + if a.id == id then 1 else 0
  {
    assert (awards + [a])[..|awards|] == awards;
  }

  lemma InitialSound(difficulty: map<nat, string>)
    ensures Sound(Initial(difficulty))
  {
    S.OpenedAwards(difficulty);
    P.InitialLinked();
  }

  /** In every run what is on the queues is what the database says, each submission is published
      once, and each award was made by a handling of its message. */
  lemma {:induction false} SoundRun(s: State, run: seq<Event>)
    requires Sound(s)
    ensures Sound(Run(s, run))
  {
    hide Sound, Next;
    if run != [] {
      SoundRun(s, run[..|run| - 1]);
      SoundStep(Run(s, run[..|run| - 1]), run[|run| - 1]);
    }
  }

  lemma SoundStep(s: State, e: Event)
    requires Sound(s)
    ensures Sound(Next(s, e))
  {
    hide Sound, S.Next, P.NextSystem, S.Process;
    match e
    case Manage(change) => if Managing(change) { ManageSound(s, change); }
    case Submit(round, problem, _, _, _, _, auth, _) => if S.MayCreate(s.world.db, round, problem, auth) { SubmitSound(s, e); }
    case WorkerDoes(step) => WorkerSound(s, step);
    case CentralDoes(step) => if !step.Act? { CentralSound(s, step); }
    case Process(f, now) => if InHand(s.sys).Some? { ProcessSound(s, f, now); }
  }

  /** The database of every run is that of a run of the scoring model, so every theorem about
      those holds of it. */
  lemma {:induction false} IsScoringRun(difficulty: map<nat, string>, run: seq<Event>)
    ensures Run(Initial(difficulty), run).world == S.Run(S.Opened(difficulty), ScoringEvents(Initial(difficulty), run))
  {
    hide Sound, S.Process, P.NextSystem;
    var s0 := Initial(difficulty);
    if run != [] {
      var before, e := run[..|run| - 1], run[|run| - 1];
      var s := Run(s0, before);
      IsScoringRun(difficulty, before);
      InitialSound(difficulty);
      SoundRun(s0, before);
      if e.Process? && InHand(s.sys).Some? {
        ProcessIsDeliver(s, e.faults, e.now);
      }
      ScoringOne(s, e);
      var events := ScoringEvents(s0, before);
      if ScoringOf(s, e) != [] {
        var last := ScoringOf(s, e)[0];
        assert (events + [last])[..|events|] == events;
      } else {
        assert events + [] == events;
      }
    }
  }

  lemma ScoringOne(s: State, e: Event)
    ensures |ScoringOf(s, e)| <= 1
    ensures ScoringOf(s, e) == [] ==> Next(s, e).world == s.world
    ensures ScoringOf(s, e) != [] && !e.Process? ==> Next(s, e).world == S.Next(s.world, ScoringOf(s, e)[0])
    ensures ScoringOf(s, e) != [] ==> ScoringOf(s, e) == [ScoringOf(s, e)[0]]
  {
    hide S.Process, P.NextSystem;
  }

  // ----- awards of whole runs -----

  lemma {:induction false} EgressAtMostOnce(w: S.World, published: seq<D.Payload>, e: D.Payload)
    requires IngressTrue(w, published)
    ensures multiset(P.Egresses(published))[e] <= 1
    ensures e in P.Egresses(published) ==>
              e.Verdict? && exists i :: 0 <= i < |published| && published[i].submissionId == e.submissionId
  {
    if published != [] {
      var rest := published[1..];
      EgressAtMostOnce(w, rest, e);
      var head := if D.Good(D.Worker, published[0]) then [D.Egress(published[0])] else [];
      assert P.Egresses(published) == head + P.Egresses(rest);
      if e in P.Egresses(rest) {
        var i :| 0 <= i < |rest| && rest[i].submissionId == e.submissionId;
        assert published[i + 1] == rest[i];
      }
    }
  }

  /** How often the two consumers acted on a message without acking it. */
  function Repeats(s: P.System): nat {
    |s.ingress.repeats| + |s.egress.repeats|
  }

  function FaultCount(s: P.System): nat {
    s.ingress.faults + s.egress.faults
  }

  /** A submission is awarded at most once, and once more for each repeat. */
  lemma AwardsOfOne(s: State, id: nat)
    requires Sound(s)
    ensures S.CountById(s.world.awards, id) <= 1 + Repeats(s.sys)
    ensures Repeats(s.sys) <= FaultCount(s.sys)
  {
    hide S.AwardInv, IngressTrue, EgressTrue, P.Linked, P.Egresses;
    var e := if id in s.world.queued then D.Verdict(id, s.world.queued[id]) else D.Blank;
    P.HandlingsBound(s.sys, e);
    EgressAtMostOnce(s.world, s.sys.ingress.published, e);
  }

  predicate KeepsRooms(run: seq<Event>) {
    forall k :: 0 <= k < |run| && run[k].Manage? ==> !run[k].change.DeleteRounds?
  }

  lemma {:induction false} KeepsRoomsProjects(s: State, run: seq<Event>)
    requires KeepsRooms(run)
    ensures S.NoDeletes(ScoringEvents(s, run))
  {
    hide Next;
    if run != [] {
      KeepsRoomsProjects(s, run[..|run| - 1]);
    }
  }

  /** While no room is deleted, a user is awarded a problem at most once, and once more for each
      repeat of the two consumers; a repeat takes a fault, so with no fault at most once. */
  lemma AwardsOfPair(difficulty: map<nat, string>, run: seq<Event>, problem: nat, auth: string)
    requires KeepsRooms(run)
    ensures var s := Run(Initial(difficulty), run);
            && S.CountByPair(s.world.awards, problem, auth) <= 1 + Repeats(s.sys)
            && Repeats(s.sys) <= FaultCount(s.sys)
  {
    hide Run, Sound, S.Run;
    var s0 := Initial(difficulty);
    var s := Run(s0, run);
    InitialSound(difficulty);
    SoundRun(s0, run);
    IsScoringRun(difficulty, run);
    KeepsRoomsProjects(s0, run);
    AwardsOfOne(s, 0);
    S.AwardsToOne(difficulty, ScoringEvents(s0, run), problem, auth);
    var id :| S.CountByPair(s.world.awards, problem, auth) <= S.CountById(s.world.awards, id);
    AwardsOfOne(s, id);
  }

  /** If neither consumer repeated a message and no room was deleted, whatever else failed, no
      leaderboard entry of a round of up to 204 problems reaches 1024 points; and if every
      award was written besides, the leaderboards decode to what the lifetime totals say. */
  lemma TenBitsSuffice(difficulty: map<nat, string>, run: seq<Event>)
    requires KeepsRooms(run) && Repeats(Run(Initial(difficulty), run).sys) == 0
    requires C.SmallRounds(Run(Initial(difficulty), run).world)
    ensures var w := Run(Initial(difficulty), run).world;
            && (forall round: nat, auth :: C.SumIn(w.awards, round, auth) <= 5 * C.MAX_PROBLEMS < 1024)
            && (C.BooksKept(S.Opened(difficulty), ScoringEvents(Initial(difficulty), run)) ==> C.BoardsMatch(w) && C.TotalsMatch(w))
  {
    hide Run, Sound, S.Run, C.BooksKept, C.BoardsMatch, C.TotalsMatch;
    var s0 := Initial(difficulty);
    var s := Run(s0, run);
    var events := ScoringEvents(s0, run);
    InitialSound(difficulty);
    SoundRun(s0, run);
    IsScoringRun(difficulty, run);
    KeepsRoomsProjects(s0, run);
    forall id ensures S.CountById(s.world.awards, id) <= 1 {
      AwardsOfOne(s, id);
    }
    forall round: nat, auth ensures C.SumIn(s.world.awards, round, auth) <= 5 * C.MAX_PROBLEMS {
      C.TenBitsSuffice(difficulty, events, round, auth);
    }
    if C.BooksKept(S.Opened(difficulty), events) {
      C.MatchedRun(difficulty, events);
    }
  }

  // ----- handled means settled -----

  /** A processing that may end the life of its message: it read the row and wrote the verdict,
      or found no row. */
  predicate Settles(w: S.World, m: D.Payload, f: S.Faults)
    requires m.Verdict?
  {
    !f.lookup && (m.submissionId !in w.db.submissions || f.verdict == Ok)
  }

  function SettledBy(s: State, e: Event): seq<D.Payload> {
    var m := InHand(s.sys);
    if e.Process? && m.Some? && Settles(s.world, m.value, e.faults) then [m.value] else []
  }

  /** The messages of such processings, in the order of the run. */
  function Settled(s: State, run: seq<Event>): seq<D.Payload> {
    if run == [] then []
    else
      Settled(s, run[..|run| - 1]) + SettledBy(Run(s, run[..|run| - 1]), run[|run| - 1])
  }

  lemma {:induction false} ActedIsSettled(s: State, run: seq<Event>)
    requires Sound(s)
    ensures Run(s, run).sys.egress.acted == s.sys.egress.acted + Settled(s, run)
  {
    hide Sound, Next, SettledBy;
    if run == [] {
      assert s.sys.egress.acted + [] == s.sys.egress.acted;
    } else {
      var before, e := run[..|run| - 1], run[|run| - 1];
      ActedIsSettled(s, before);
      SoundRun(s, before);
      SettledStep(Run(s, before), e);
      assert Settled(s, run) == Settled(s, before) + SettledBy(Run(s, before), e);
    }
  }

  lemma SettledStep(s: State, e: Event)
    requires Sound(s)
    ensures Next(s, e).sys.egress.acted == s.sys.egress.acted + SettledBy(s, e)
  {
    hide S.AwardInv, IngressTrue, EgressTrue, AwardsHandled, P.NextSystem, P.Linked, S.Next, S.Process;
    assert s.sys.egress.acted + [] == s.sys.egress.acted;
    match e
    case Manage(change) =>
    case Submit(_, _, _, _, _, _, _, o) => P.SubmitPublishes(s.sys, Message(s.world, e), o);
    case WorkerDoes(step) => P.WorkerPublishes(s.sys, step);
    case CentralDoes(step) => P.CentralHandles(s.sys, step);
    case Process(f, now) =>
      if InHand(s.sys).Some? {
        var m := InHand(s.sys).value;
        var r := S.Process(s.world.db, m.submissionId, m.verdict, f, now);
        S.ReplyIff(s.world.db, m.submissionId, m.verdict, f, now);
        P.CentralHandles(s.sys, D.Act(ActOutcome(r)));
      }
  }

  /** In every run a verdict message leaves the lists only after a processing that read its row
      and wrote the verdict, or found no row; whatever failed until then, it is on a list, with
      multiplicity. What is handled is exactly what such processings had in hand. */
  lemma FinishedIsSettled(difficulty: map<nat, string>, run: seq<Event>)
    ensures var s := Run(Initial(difficulty), run);
            var settled := Settled(Initial(difficulty), run);
            && s.sys.egress.acted == settled
            && multiset(s.sys.egress.finished) <= multiset(settled)
            && (forall i :: 0 <= i < |s.sys.egress.dropped| ==> !s.sys.egress.dropped[i].Verdict?)
            && multiset(s.sys.egress.published) == multiset(s.sys.egress.queue.main) + multiset(s.sys.egress.queue.processing)
                                                   + multiset(s.sys.egress.finished) + multiset(s.sys.egress.dropped)
  {
    hide Run, Settled, S.AwardInv, IngressTrue, EgressTrue, AwardsHandled, D.InOrder, P.Egresses;
    var s0 := Initial(difficulty);
    InitialSound(difficulty);
    SoundRun(s0, run);
    ActedIsSettled(s0, run);
    assert s0.sys.egress.acted + Settled(s0, run) == Settled(s0, run);
  }

  /** Every created submission whose message was published and is valid is on one of the four
      lists, or was in the hands of a processing that settled it. */
  lemma NoSubmissionLost(difficulty: map<nat, string>, run: seq<Event>)
    ensures var s := Run(Initial(difficulty), run);
            && multiset(P.Egresses(s.sys.ingress.published))
               <= P.InFlight(s.sys) + multiset(Settled(Initial(difficulty), run))
            && forall i :: 0 <= i < |s.sys.ingress.published| ==>
                 && s.sys.ingress.published[i].Submission?
                 && Knows(s.world, s.sys.ingress.published[i].submissionId, s.sys.ingress.published[i].verdict)
  {
    hide Run, Settled, P.RunSystem, P.Egresses, P.InFlight;
    FinishedIsSettled(difficulty, run);
    InitialSound(difficulty);
    SoundRun(Initial(difficulty), run);
    IsPipelineRun(Initial(difficulty), run);
    P.NoLossEndToEnd(PipelineEvents(Initial(difficulty), run));
  }
}

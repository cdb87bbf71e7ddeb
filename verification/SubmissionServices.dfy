// The two ends of the pipeline inside central-service: creating a round submission
// and queueing it, and processing the egress message that comes back. Each method is a
// run of the submission system's steps.

module SubmissionServices {
  import opened Common
  import opened ReliableQueue
  import opened PackedScore
  import opened Scoring
  import Consumers
  import D = Delivery
  import P = Pipeline
  import Y = SubmissionSystem

  /** How one iteration of the egress loop goes. */
  datatype EgressTurn = EgressTurn(consume: Outcome, faults: Faults, now: int, ack: Outcome, requeue: Outcome)

  /** The message at the head of the egress queue, when the turn hands it to the handler. */
  function Delivered(s: Y.State, t: EgressTurn): Option<D.Payload> {
    var main := s.sys.egress.queue.main;
    if s.sys.egress.pc == D.Idle && t.consume == Ok && main != [] && !main[0].Blank? then Some(main[0]) else None
  }

  /** What follows a consumed message: a payload that does not decode is dropped, and only a
      transient failure is requeued. */
  function HandlerEvents(db: Db, m: D.Payload, t: EgressTurn): seq<Y.Event> {
    if !m.Verdict? then [Y.CentralDoes(D.Ack(t.ack))]
    else if Process(db, m.submissionId, m.verdict, t.faults, t.now).reply == Transient
    then [Y.Process(t.faults, t.now), Y.CentralDoes(D.Requeue(t.requeue))]
    else [Y.Process(t.faults, t.now), Y.CentralDoes(D.Ack(t.ack))]
  }

  function EgressEvents(s: Y.State, t: EgressTurn): seq<Y.Event> {
    var m := Delivered(s, t);
    [Y.CentralDoes(D.Consume(t.consume))] + if m.Some? then HandlerEvents(s.world.db, m.value, t) else []
  }

  function AllEgressEvents(s: Y.State, script: seq<EgressTurn>): seq<Y.Event>
    decreases |script|
  {
    if script == [] then []
    else EgressEvents(s, script[0]) + AllEgressEvents(Y.Run(s, EgressEvents(s, script[0])), script[1..])
  }

  lemma RunOne(s: Y.State, e: Y.Event)
    ensures Y.Run(s, [e]) == Y.Next(s, e)
  {
    assert [e][..0] == [];
    assert Y.Run(s, []) == s;
  }

  lemma RunTwo(s: Y.State, a: Y.Event, b: Y.Event)
    ensures Y.Run(s, [a, b]) == Y.Next(Y.Next(s, a), b)
  {
    assert [a, b][..1] == [a];
    RunOne(s, a);
  }

  /** Steps of the worker, as steps of the whole system. */
  function OfWorker(events: seq<P.Event>): seq<Y.Event>
    requires forall i :: 0 <= i < |events| ==> events[i].WorkerDoes?
  {
    seq(|events|, i requires 0 <= i < |events| => Y.WorkerDoes(events[i].step))
  }

  /** A run of the worker's loop is a run of the whole system that leaves the database alone. */
  lemma {:induction false} WorkerRun(s: Y.State, events: seq<P.Event>)
    requires forall i :: 0 <= i < |events| ==> events[i].WorkerDoes?
    ensures Y.Run(s, OfWorker(events)) == s.(sys := P.RunSystem(s.sys, events))
    decreases |events|
  {
    hide P.NextSystem;
    if events != [] {
      var before, last := events[..|events| - 1], events[|events| - 1];
      WorkerRun(s, before);
      assert OfWorker(events)[..|events| - 1] == OfWorker(before);
      assert events == before + [last];
      Consumers.RunSystemConcat(s.sys, before, [last]);
      Consumers.RunOne(P.RunSystem(s.sys, before), last);
    }
  }

  /** Recovery steps of the listener, as steps of the whole system. */
  function OfListener(steps: seq<D.Step>): seq<Y.Event> {
    seq(|steps|, i requires 0 <= i < |steps| => Y.CentralDoes(steps[i]))
  }

  lemma {:induction false} ListenerRun(s: Y.State, steps: seq<D.Step>)
    requires forall i :: 0 <= i < |steps| ==> !steps[i].Act? && !steps[i].Publish?
    ensures Y.Run(s, OfListener(steps)) == s.(sys := s.sys.(egress := D.Run(D.Central, s.sys.egress, steps)))
    decreases |steps|
  {
    hide D.Next;
    if steps == [] {
      assert D.Run(D.Central, s.sys.egress, []) == s.sys.egress;
    } else {
      var before, last := steps[..|steps| - 1], steps[|steps| - 1];
      ListenerRun(s, before);
      assert OfListener(steps)[..|steps| - 1] == OfListener(before);
      assert steps == before + [last];
      D.RunConcat(D.Central, s.sys.egress, before, [last]);
      var t := D.Run(D.Central, s.sys.egress, before);
      assert [last][1..] == [];
      assert D.Run(D.Central, D.Next(D.Central, t, last), []) == D.Next(D.Central, t, last);
    }
  }

  /** Processing leaves the queue alone; an ack or a requeue leaves the database alone. */
  lemma ProcessStep(s: Y.State, m: D.Payload, f: Faults, now: int)
    requires s.sys.egress.pc == D.Holding(m) && m.Verdict?
    ensures var v := Y.Next(s, Y.Process(f, now));
            var r := Process(s.world.db, m.submissionId, m.verdict, f, now);
            && v.world.db == r.db && v.sys.egress.queue == s.sys.egress.queue
            && v.sys.egress.pc == if r.reply == Transient then D.Retrying(m) else D.Acted(m)
  {
    hide Process;
  }

  lemma FinishStep(s: Y.State, m: D.Payload, o: Outcome)
    ensures s.sys.egress.pc == D.Acted(m) || (s.sys.egress.pc == D.Holding(m) && !m.Verdict?) ==>
              var v := Y.Next(s, Y.CentralDoes(D.Ack(o)));
              && v.world == s.world && v.sys.egress.pc == D.Idle
              && v.sys.egress.queue == if o.Applied() then Removed(s.sys.egress.queue, m) else s.sys.egress.queue
    ensures s.sys.egress.pc == D.Retrying(m) ==>
              var v := Y.Next(s, Y.CentralDoes(D.Requeue(o)));
              && v.world == s.world && v.sys.egress.pc == D.Idle
              && v.sys.egress.queue == if o.Applied() then PutBack(s.sys.egress.queue, m) else s.sys.egress.queue
  {
    hide RemoveFirst;
  }

  class EgressService {
    var db: Db
    const queue: RedisQueue<D.Payload>
    ghost var state: Y.State

    constructor (db: Db, queue: RedisQueue<D.Payload>, ghost state: Y.State)
      requires state.world.db == db && state.sys.egress.queue == queue.View()
      ensures this.db == db && this.queue == queue && this.state == state && Tracks()
    {
      this.db, this.queue, this.state := db, queue, state;
    }

    /** `state` is a state of the submission system with this database and this queue. */
    ghost predicate Tracks()
      reads this, queue
    {
      state.world.db == db && state.sys.egress.queue == queue.View()
    }

    /** What a previous run left in processing is recovered first; listening starts whether or
        not that finished. */
    method Startup(script: seq<Outcome>)
      requires Tracks() && state.sys.egress.pc == D.Down
      modifies this`state, queue
      ensures Tracks() && state.sys.egress.pc == D.Idle
      ensures exists n: nat, o :: state == Y.Run(old(state), OfListener(Consumers.RecoverySteps(n, o)))
      ensures (forall k :: 0 <= k < |script| ==> script[k] == Ok) ==>
                queue.View() == Queue(old(queue.main) + old(queue.processing), [])
    {
      ghost var start := state.sys.egress;
      var recovered, err, moved := queue.Recover(script);
      ghost var o := if err then script[recovered] else Ok;
      ghost var steps := Consumers.RecoverySteps(recovered, o);
      hide Y.Next, D.Recovery;
      Consumers.RecoveryStepsRun(D.Central, start.(pc := D.Recovering), recovered, o);
      assert steps[0] == D.Start && steps[1..] == D.Recovery(recovered) + [D.Recover(o)];
      Consumers.OnlyRecovers(recovered, o);
      ListenerRun(state, steps);
      state := Y.Run(state, OfListener(steps));
    }

    method ProcessSubmissionData(id: nat, verdict: string, f: Faults, now: int) returns (reply: Reply)
      modifies this`db
      ensures db == Process(old(db), id, verdict, f, now).db
      ensures reply == Process(old(db), id, verdict, f, now).reply
      ensures reply == Transient <==> f.lookup || (id in old(db).submissions && f.verdict != Ok)
      ensures f.lookup || id !in old(db).submissions ==> db == old(db)
    {
      hide AlreadyAwarded, Updated, RowOf, Counted;
      if f.lookup {
        return Transient;
      }
      if id !in db.submissions {
        return Permanent;
      }
      var submission := db.submissions[id];
      var scoreToAdd, difficulty, userId, auth, round := 0, "", 0, "", 0;
      if verdict == ACCEPTED {
        difficulty := if f.problem then "" else DifficultyOf(db, submission.problem);
        if !f.owner && submission.owner in db.roundSubmissions {
          // Points were fixed when the submission was made.
          var rs := db.roundSubmissions[submission.owner];
          scoreToAdd, auth, round := rs.score, rs.auth, rs.round;
          if !f.user {
            db := WithUser(db, auth);
            userId := db.users[auth];
          }
        }
        if userId != 0 && !f.count && AlreadyAwarded(db, id, submission.problem, userId) {
          scoreToAdd := 0;
        }
      }
      if f.verdict.Applied() {
        db := db.(submissions := db.submissions[id := submission.(verdict := verdict)]);
      }
      if f.verdict != Ok {
        return Transient;
      }
      if verdict == ACCEPTED && scoreToAdd > 0 {
        if !f.board {
          UpdateLeaderboardScore(round, auth, scoreToAdd, now);
        }
        if f.save || (userId == 0 && db.lifetime == []) {
          return Permanent;
        }
        db := db.(lifetime := Credited(db.lifetime, userId, difficulty, scoreToAdd));
      }
      return Processed;
    }

    method UpdateLeaderboardScore(round: nat, auth: string, scoreToAdd: nat, now: int)
      modifies this`db
      ensures db == OnBoard(old(db), round, auth, Updated(BoardPoint(old(db), round, auth), scoreToAdd, now))
    {
      var current := if round in db.boards && auth in db.boards[round] then db.boards[round][auth] else Entry(0, now);
      var points := Decompress(current) + scoreToAdd;
      db := OnBoard(db, round, auth, Entry(points, now));
    }

    /** One iteration of the listening loop. */
    method Iterate(t: EgressTurn)
      requires Tracks() && state.sys.egress.pc == D.Idle
      modifies this, queue
      ensures Tracks() && state.sys.egress.pc == D.Idle
      ensures state == Y.Run(old(state), EgressEvents(old(state), t))
    {
      hide Y.Run, Process, RemoveFirst, HandlerEvents;
      ghost var start := state;
      var r := queue.Consume(t.consume);
      ghost var consumed := Y.CentralDoes(D.Consume(t.consume));
      state := Y.Next(state, consumed);
      RunOne(start, consumed);
      assert [consumed] + [] == [consumed];
      match r {
        case ConsumeFailed => return;
        case Nothing => return;
        case Got(m) =>
          if m.Blank? {
            return;
          }
          Y.RunConcat(start, [consumed], HandlerEvents(db, m, t));
          Handle(m, t);
      }
    }

    /** What follows a consumed message. */
    method Handle(m: D.Payload, t: EgressTurn)
      requires Tracks() && state.sys.egress.pc == D.Holding(m)
      modifies this, queue
      ensures Tracks() && state.sys.egress.pc == D.Idle
      ensures state == Y.Run(old(state), HandlerEvents(old(db), m, t))
    {
      hide Y.Run, Y.Next, Process, RemoveFirst;
      ghost var held := state;
      if m.Verdict? {
        ProcessStep(held, m, t.faults, t.now);
        var reply := ProcessSubmissionData(m.submissionId, m.verdict, t.faults, t.now);
        state := Y.Next(held, Y.Process(t.faults, t.now));
        if reply == Transient {
          var _ := queue.Requeue(m, t.requeue);
          RunTwo(held, Y.Process(t.faults, t.now), Y.CentralDoes(D.Requeue(t.requeue)));
          FinishStep(state, m, t.requeue);
          state := Y.Next(state, Y.CentralDoes(D.Requeue(t.requeue)));
          return;
        }
        RunTwo(held, Y.Process(t.faults, t.now), Y.CentralDoes(D.Ack(t.ack)));
      }
      RunOne(held, Y.CentralDoes(D.Ack(t.ack)));
      FinishStep(state, m, t.ack);
      var _ := queue.Ack(m, t.ack);
      state := Y.Next(state, Y.CentralDoes(D.Ack(t.ack)));
    }

    method Listen(script: seq<EgressTurn>)
      requires Tracks() && state.sys.egress.pc == D.Idle
      modifies this, queue
      ensures Tracks() && state.sys.egress.pc == D.Idle
      ensures state == Y.Run(old(state), AllEgressEvents(old(state), script))
    {
      ghost var start := state;
      for i := 0 to |script|
        invariant Tracks() && state.sys.egress.pc == D.Idle
        invariant Y.Run(state, AllEgressEvents(state, script[i..])) == Y.Run(start, AllEgressEvents(start, script))
      {
        hide Y.Next, EgressEvents;
        ghost var events := EgressEvents(state, script[i]);
        assert script[i..][1..] == script[i + 1..];
        Y.RunConcat(state, events, AllEgressEvents(Y.Run(state, events), script[i + 1..]));
        Iterate(script[i]);
      }
    }
  }

  class RoundSubmissions {
    var db: Db
    const ingress: RedisQueue<D.Payload>
    ghost var state: Y.State

    constructor (db: Db, ingress: RedisQueue<D.Payload>, ghost state: Y.State)
      requires state.world.db == db && state.sys.ingress.queue == ingress.View()
      ensures this.db == db && this.ingress == ingress && this.state == state && Tracks()
    {
      this.db, this.ingress, this.state := db, ingress, state;
    }

    ghost predicate Tracks()
      reads this, ingress
    {
      state.world.db == db && state.sys.ingress.queue == ingress.View()
    }

    /** The submission counts as created even when queueing it fails. */
    method CreateRoundSubmission(round: nat, problem: nat, slug: string, lang: string, code: string,
                                 verdict: string, auth: string, publish: Outcome) returns (r: Created)
      requires Tracks()
      modifies this, ingress
      ensures Tracks() && state == Y.Next(old(state), Y.Submit(round, problem, slug, lang, code, verdict, auth, publish))
      ensures r.Accepted? <==>
                && round in old(db).rounds && round !in old(db).ended
                && problem in old(db).rounds[round] && (round, auth) in old(db).participants
      ensures r.Refused? ==> db == old(db) && ingress.View() == old(ingress.View())
      ensures r.Accepted? ==>
                && r.id == old(db).nextRoundSubmission
                && db.roundSubmissions == old(db).roundSubmissions[r.id := RoundSubmission(round, auth, ScoreDelta(old(db), problem, auth))]
                && db.submissions == old(db).submissions[old(db).nextSubmission := Submission(problem, verdict, r.id)]
                && (publish.Applied() ==> D.Submission(slug, problem, lang, code, verdict, r.id) in ingress.main)
    {
      if round !in db.rounds || round in db.ended {
        return Refused;
      }
      if problem !in db.rounds[round] {
        return Refused;
      }
      if (round, auth) !in db.participants {
        return Refused;
      }
      var score := ScoreDelta(db, problem, auth);
      var id := db.nextRoundSubmission;
      db := db.(roundSubmissions := db.roundSubmissions[id := RoundSubmission(round, auth, score)],
                nextRoundSubmission := id + 1);
      db := db.(submissions := db.submissions[db.nextSubmission := Submission(problem, verdict, id)],
                nextSubmission := db.nextSubmission + 1);
      var _ := ingress.Publish(D.Submission(slug, problem, lang, code, verdict, id), publish);
      state := Y.Next(state, Y.Submit(round, problem, slug, lang, code, verdict, auth, publish));
      return Accepted(id);
    }
  }
}

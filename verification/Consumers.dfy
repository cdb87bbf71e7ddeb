// The two consumer loops as the programs write them, over the queue objects, each
// proved to be a run of the pipeline's single-command steps.

module Consumers {
  import opened Common
  import opened ReliableQueue
  import opened Delivery
  import opened Pipeline

  lemma {:induction false} RunSystemConcat(s: System, a: seq<Event>, b: seq<Event>)
    ensures RunSystem(s, a + b) == RunSystem(RunSystem(s, a), b)
    decreases |a|
  {
    if a == [] {
      assert a + b == b;
    } else {
      assert (a + b)[1..] == a[1..] + b;
      RunSystemConcat(NextSystem(s, a[0]), a[1..], b);
    }
  }

  lemma RunOne(s: System, e: Event)
    ensures RunSystem(s, [e]) == NextSystem(s, e)
  {
    assert [e][1..] == [];
    assert RunSystem(NextSystem(s, e), []) == NextSystem(s, e);
  }

  /** How the commands of one iteration end. */
  datatype Turn = Turn(consume: Outcome, publish: Outcome, ack: Outcome, requeue: Outcome)

  /** The commands one iteration of the worker's loop issues. */
  function WorkerTurn(s: System, t: Turn): seq<Event> {
    var main := s.ingress.queue.main;
    [WorkerDoes(Consume(t.consume))] +
    if t.consume != Ok || main == [] || main[0].Blank? then []
    else if !Good(Worker, main[0]) then [WorkerDoes(Ack(t.ack))]
    else if t.publish == Ok then [WorkerDoes(Act(t.publish)), WorkerDoes(Ack(t.ack))]
    else [WorkerDoes(Act(t.publish)), WorkerDoes(Requeue(t.requeue))]
  }

  function WorkerTurns(s: System, script: seq<Turn>): seq<Event>
    decreases |script|
  {
    if script == [] then []
    else
      var events := WorkerTurn(s, script[0]);
      events + WorkerTurns(RunSystem(s, events), script[1..])
  }

  /** Recovery that moves `n` messages and then finds the list empty or fails. */
  function RecoverySteps(n: nat, o: Outcome): seq<Step> {
    [Start] + (Recovery(n) + [Recover(o)])
  }

  lemma {:induction false} RecoveryMoves(n: nat)
    ensures forall i :: 0 <= i < |Recovery(n)| ==> Recovery(n)[i] == Recover(Ok)
  {
    if n > 0 {
      RecoveryMoves(n - 1);
    }
  }

  lemma OnlyRecovers(n: nat, o: Outcome)
    ensures forall i :: 0 <= i < |RecoverySteps(n, o)| ==> RecoverySteps(n, o)[i] == Start || RecoverySteps(n, o)[i].Recover?
  {
    RecoveryMoves(n);
  }

  lemma {:induction false} RecoveryStepsRun(role: Role, s: Stage, n: nat, o: Outcome)
    requires s.pc == Recovering && n <= |s.queue.processing| && (o == Ok ==> n == |s.queue.processing|)
    ensures var t := Run(role, s, Recovery(n) + [Recover(o)]);
            && t.pc == Idle
            && t.queue == Recovered(s.queue, if o.Applied() && n < |s.queue.processing| then n + 1 else n)
    decreases n
  {
    hide Good, RemoveFirst;
    var steps := Recovery(n) + [Recover(o)];
    if n == 0 {
      assert steps == [Recover(o)] && steps[1..] == [];
      assert Run(role, s, steps) == AfterRecover(s, o);
      assert Recovered(s.queue, 0) == s.queue;
    } else {
      var t := AfterRecover(s, Ok);
      assert steps[0] == Recover(Ok) && steps[1..] == Recovery(n - 1) + [Recover(o)];
      assert t.pc == Recovering && t.queue == Returned(s.queue);
      RecoveryStepsRun(role, t, n - 1, o);
      RecoveredAfterOne(s.queue, if o.Applied() && n < |s.queue.processing| then n + 1 else n);
    }
  }

  lemma RecoveredAfterOne(q: Queue<Payload>, k: nat)
    requires 1 <= k <= |q.processing|
    ensures Recovered(q, k) == Recovered(Returned(q), k - 1)
  {
    assert q.processing[..k] == [q.processing[0]] + q.processing[1..][..k - 1];
  }

  class WorkerService {
    const ingress: RedisQueue<Payload>
    const egress: RedisQueue<Payload>
    ghost var sys: System

    constructor (ingress: RedisQueue<Payload>, egress: RedisQueue<Payload>, ghost sys: System)
      requires ingress != egress
      requires sys.ingress.queue == ingress.View() && sys.egress.queue == egress.View()
      ensures this.ingress == ingress && this.egress == egress && this.sys == sys && Tracks()
    {
      this.ingress, this.egress, this.sys := ingress, egress, sys;
    }

    /** `sys` is a pipeline state whose lists are the ones in Redis. */
    ghost predicate Tracks()
      reads this, ingress, egress
    {
      && ingress != egress
      && sys.ingress.queue == ingress.View() && sys.egress.queue == egress.View()
    }

    /** Startup: recover what a previous run left in processing, then enter the loop whether
        or not recovery finished. */
    method Startup(script: seq<Outcome>)
      requires Tracks() && sys.ingress.pc == Down
      modifies this, ingress
      ensures Tracks() && sys.ingress.pc == Idle
      ensures exists n: nat, o :: sys == old(sys).(ingress := Run(Worker, old(sys).ingress, RecoverySteps(n, o)))
      ensures (forall k :: 0 <= k < |script| ==> script[k] == Ok) ==>
                ingress.View() == Queue(old(ingress.main) + old(ingress.processing), [])
    {
      ghost var start := sys.ingress;
      var recovered, err, moved := ingress.Recover(script);
      ghost var o := if err then script[recovered] else Ok;
      ghost var up := start.(pc := Recovering);
      RecoveryStepsRun(Worker, up, recovered, o);
      assert RecoverySteps(recovered, o)[0] == Start;
      assert RecoverySteps(recovered, o)[1..] == Recovery(recovered) + [Recover(o)];
      sys := sys.(ingress := Run(Worker, start, RecoverySteps(recovered, o)));
    }

    method Iterate(t: Turn)
      requires Tracks() && sys.ingress.pc == Idle
      modifies this, ingress, egress
      ensures Tracks() && sys.ingress.pc == Idle
      ensures sys == RunSystem(old(sys), WorkerTurn(old(sys), t))
    {
      hide RunSystem, Good, RemoveFirst;
      ghost var start := sys;
      var r := ingress.Consume(t.consume);
      sys := NextSystem(sys, WorkerDoes(Consume(t.consume)));
      RunOne(start, WorkerDoes(Consume(t.consume)));
      assert [WorkerDoes(Consume(t.consume))] + [] == [WorkerDoes(Consume(t.consume))];
      match r {
        case ConsumeFailed => return;
        case Nothing => return;
        case Got(m) =>
          if m.Blank? {
            return;
          }
          ghost var held := sys;
          RunSystemConcat(start, [WorkerDoes(Consume(t.consume))], WorkerTurn(start, t)[1..]);
          if !Good(Worker, m) {
            var _ := ingress.Ack(m, t.ack);
            sys := NextSystem(sys, WorkerDoes(Ack(t.ack)));
            RunOne(held, WorkerDoes(Ack(t.ack)));
            return;
          }
          var err := egress.Publish(Egress(m), t.publish);
          sys := NextSystem(sys, WorkerDoes(Act(t.publish)));
          if err {
            var _ := ingress.Requeue(m, t.requeue);
            RunTwo(held, WorkerDoes(Act(t.publish)), WorkerDoes(Requeue(t.requeue)));
            sys := NextSystem(sys, WorkerDoes(Requeue(t.requeue)));
            return;
          }
          var _ := ingress.Ack(m, t.ack);
          RunTwo(held, WorkerDoes(Act(t.publish)), WorkerDoes(Ack(t.ack)));
          sys := NextSystem(sys, WorkerDoes(Ack(t.ack)));
      }
    }

    /** The loop until a signal arrives, which is after the last turn of the script. */
    method Loop(script: seq<Turn>)
      requires Tracks() && sys.ingress.pc == Idle
      modifies this, ingress, egress
      ensures Tracks() && sys.ingress.pc == Down
      ensures sys == RunSystem(old(sys), WorkerTurns(old(sys), script) + [WorkerDoes(Stop)])
    {
      ghost var start := sys;
      var i := 0;
      while i < |script|
        invariant 0 <= i <= |script| && Tracks() && sys.ingress.pc == Idle
        invariant RunSystem(sys, WorkerTurns(sys, script[i..])) == RunSystem(start, WorkerTurns(start, script))
      {
        ghost var events := WorkerTurn(sys, script[i]);
        assert script[i..][1..] == script[i + 1..];
        RunSystemConcat(sys, events, WorkerTurns(RunSystem(sys, events), script[i + 1..]));
        Iterate(script[i]);
        i := i + 1;
      }
      RunSystemConcat(start, WorkerTurns(start, script), [WorkerDoes(Stop)]);
      RunOne(sys, WorkerDoes(Stop));
      assert RunSystem(sys, []) == sys;
      sys := NextSystem(sys, WorkerDoes(Stop));
    }
  }

  lemma RunTwo(s: System, a: Event, b: Event)
    ensures RunSystem(s, [a, b]) == NextSystem(NextSystem(s, a), b)
  {
    assert [a, b][1..] == [b];
    RunOne(NextSystem(s, a), b);
  }
}

// One consumer of one reliable queue, as a transition system whose steps are
// single Redis commands. The worker (on the ingress queue) and central-service
// (on the egress queue) run the same loop and differ only in what they do with
// a message, so one system serves both.

module Delivery {
  import opened Common
  import opened ReliableQueue

  const MAX_CODE_LENGTH := 0x10_0000

  /** The bytes on either list, by what decoding them yields. */
  datatype Payload =
    | Blank
    | Garbled(raw: string)
    | Submission(slug: string, problemId: nat, lang: string, code: string, verdict: string, submissionId: nat)
    | Verdict(submissionId: nat, verdict: string)

  datatype Role = Worker | Central

  /** The consumer acts on this payload; anything else can never succeed and is dropped. */
  predicate Good(role: Role, p: Payload) {
    match role
    case Worker =>
      && p.Submission?
      && p.slug != "" && p.problemId != 0 && p.lang != ""
      && p.code != "" && |p.code| <= MAX_CODE_LENGTH
      && p.submissionId != 0
    case Central => p.Verdict?
  }

  /** What the worker publishes for a valid ingress message. */
  function Egress(p: Payload): Payload
    requires Good(Worker, p)
  {
    Verdict(p.submissionId, p.verdict)
  }

  /** Where the consumer is between two commands. Holding: consumed, not yet acted on.
      Acted: the action succeeded, the ack is next. Retrying: it failed, the requeue is next. */
  datatype Pc = Down | Recovering | Idle | Holding(m: Payload) | Acted(m: Payload) | Retrying(m: Payload)

  /** `acted` lists the messages whose action took effect, `finished` and `dropped`
      the good and the bad messages whose ack took effect, `repeats` the messages
      whose action took effect without leading to an ack. */
  datatype Stage = Stage(
    queue: Queue<Payload>, pc: Pc,
    published: seq<Payload>, acted: seq<Payload>,
    finished: seq<Payload>, dropped: seq<Payload>, repeats: seq<Payload>, faults: nat)

  const FRESH := Stage(Queue([], []), Down, [], [], [], [], [], 0)

  datatype Step =
    | Publish(m: Payload, o: Outcome)
    | Start
    | Recover(o: Outcome)
    | Consume(o: Outcome)
    | Act(o: Outcome)
    | Ack(o: Outcome)
    | Requeue(o: Outcome)
    | Stop
    | Crash

  predicate Enabled(role: Role, s: Stage, step: Step) {
    match step
    case Publish(_, _) => true
    case Start => s.pc.Down?
    case Recover(_) => s.pc.Recovering?
    case Consume(_) => s.pc.Idle?
    case Act(_) => s.pc.Holding? && Good(role, s.pc.m)
    case Ack(_) => s.pc.Acted? || (s.pc.Holding? && !Good(role, s.pc.m))
    case Requeue(_) => s.pc.Retrying?
    case Stop => s.pc.Idle?
    case Crash => !s.pc.Down?
  }

  /** The message acted on and not acked yet. */
  function Held(pc: Pc): seq<Payload> {
    if pc.Acted? then [pc.m] else []
  }

  function Fault(o: Outcome): nat {
    if o == Ok then 0 else 1
  }

  function Published(s: Stage, m: Payload): Stage {
    s.(queue := Pushed(s.queue, m), published := s.published + [m])
  }

  function AfterRecover(s: Stage, o: Outcome): Stage {
    if s.queue.processing == [] then s.(pc := Idle, faults := s.faults + Fault(o))
    else s.(queue := if o.Applied() then Returned(s.queue) else s.queue,
            pc := if o == Ok then Recovering else Idle,
            faults := s.faults + Fault(o))
  }

  function AfterConsume(s: Stage, o: Outcome): Stage {
    if s.queue.main == [] then s.(faults := s.faults + Fault(o))
    else s.(queue := if o.Applied() then Moved(s.queue) else s.queue,
            pc := if o == Ok && !s.queue.main[0].Blank? then Holding(s.queue.main[0]) else Idle,
            faults := s.faults + Fault(o))
  }

  function AfterAct(s: Stage, m: Payload, o: Outcome): Stage {
    s.(pc := if o == Ok then Acted(m) else Retrying(m),
       acted := if o.Applied() then s.acted + [m] else s.acted,
       repeats := if o == AppliedButFailed then s.repeats + [m] else s.repeats,
       faults := s.faults + Fault(o))
  }

  function AfterAck(s: Stage, m: Payload, o: Outcome): Stage {
    if !o.Applied() then
      s.(pc := Idle, repeats := s.repeats + Held(s.pc), faults := s.faults + 1)
    else
      s.(queue := Removed(s.queue, m), pc := Idle,
         finished := if s.pc.Acted? then s.finished + [m] else s.finished,
         dropped := if s.pc.Acted? then s.dropped else s.dropped + [m],
         faults := s.faults + Fault(o))
  }

  function AfterRequeue(s: Stage, m: Payload, o: Outcome): Stage {
    s.(queue := if o.Applied() then PutBack(s.queue, m) else s.queue,
       pc := Idle, faults := s.faults + Fault(o))
  }

  function AfterCrash(s: Stage): Stage {
    s.(pc := Down, repeats := s.repeats + Held(s.pc), faults := s.faults + 1)
  }

  /** One step; a step that is not enabled changes nothing. A failing Publish is the
      publisher's fault, not this consumer's. */
  function Next(role: Role, s: Stage, step: Step): Stage {
    if !Enabled(role, s, step) then s else
    match step
    case Publish(m, o) => if o.Applied() then Published(s, m) else s
    case Start => s.(pc := Recovering)
    case Recover(o) => AfterRecover(s, o)
    case Consume(o) => AfterConsume(s, o)
    case Act(o) => AfterAct(s, s.pc.m, o)
    case Ack(o) => AfterAck(s, s.pc.m, o)
    case Requeue(o) => AfterRequeue(s, s.pc.m, o)
    case Stop => s.(pc := Down)
    case Crash => AfterCrash(s)
  }

  function Run(role: Role, s: Stage, steps: seq<Step>): Stage
    decreases |steps|
  {
    if steps == [] then s else Run(role, Next(role, s, steps[0]), steps[1..])
  }

  // ----- what every step keeps -----

  predicate Carries(pc: Pc) {
    pc.Holding? || pc.Acted? || pc.Retrying?
  }

  /** Every publication is in exactly one of four places: the two lists, or acked as
      good or as bad. */
  ghost predicate Conserves(s: Stage) {
    multiset(s.published) == multiset(s.queue.main) + multiset(s.queue.processing)
                             + multiset(s.finished) + multiset(s.dropped)
  }

  /** Every effect of the action is an ack, a repeat paid for by a fault, or in flight. */
  ghost predicate Accounts(s: Stage) {
    && multiset(s.acted) == multiset(s.finished) + multiset(s.repeats) + multiset(Held(s.pc))
    && |s.repeats| <= s.faults
  }

  predicate AllGood(role: Role, s: seq<Payload>) {
    forall i :: 0 <= i < |s| ==> Good(role, s[i])
  }

  predicate NoneGood(role: Role, s: seq<Payload>) {
    forall i :: 0 <= i < |s| ==> !Good(role, s[i])
  }

  ghost predicate WellPlaced(role: Role, s: Stage) {
    && (s.pc.Acted? || s.pc.Retrying? ==> Good(role, s.pc.m))
    && AllGood(role, s.finished) && AllGood(role, s.acted) && NoneGood(role, s.dropped)
  }

  ghost predicate Inv(role: Role, s: Stage) {
    && Conserves(s)
    && Accounts(s)
    && WellPlaced(role, s)
    && (Carries(s.pc) ==> s.pc.m in s.queue.processing)
  }

  lemma InvStep(role: Role, s: Stage, step: Step)
    requires Inv(role, s)
    ensures Inv(role, Next(role, s, step))
  {
    if Enabled(role, s, step) {
      match step
      case Publish(m, o) => InvPublish(role, s, m);
      case Recover(o) => InvRecover(role, s, o);
      case Consume(o) => InvConsume(role, s, o);
      case Act(o) => InvAct(role, s, s.pc.m, o);
      case Ack(o) => InvAck(role, s, s.pc.m, o);
      case Requeue(o) => InvRequeue(role, s, s.pc.m, o);
      case Crash => InvCrash(role, s);
      case _ =>
    }
  }

  lemma InvPublish(role: Role, s: Stage, m: Payload)
    requires Inv(role, s)
    ensures Inv(role, Published(s, m))
  {
  }

  lemma InvRecover(role: Role, s: Stage, o: Outcome)
    requires Inv(role, s) && s.pc.Recovering?
    ensures Inv(role, AfterRecover(s, o))
  {
    if s.queue.processing != [] {
      assert s.queue.processing == [s.queue.processing[0]] + s.queue.processing[1..];
    }
  }

  lemma InvConsume(role: Role, s: Stage, o: Outcome)
    requires Inv(role, s) && s.pc.Idle?
    ensures Inv(role, AfterConsume(s, o))
  {
    if s.queue.main != [] {
      assert s.queue.main == [s.queue.main[0]] + s.queue.main[1..];
    }
  }

  lemma InvAct(role: Role, s: Stage, m: Payload, o: Outcome)
    requires Inv(role, s) && s.pc == Holding(m) && Good(role, m)
    ensures Inv(role, AfterAct(s, m, o))
  {
  }

  lemma InvAck(role: Role, s: Stage, m: Payload, o: Outcome)
    requires Inv(role, s) && (s.pc == Acted(m) || (s.pc == Holding(m) && !Good(role, m)))
    ensures Inv(role, AfterAck(s, m, o))
  {
    ConservesAck(s, m, o);
    AccountsAck(s, m, o);
    WellPlacedAck(role, s, m, o);
  }

  lemma ConservesAck(s: Stage, m: Payload, o: Outcome)
    requires Conserves(s) && m in s.queue.processing
    ensures Conserves(AfterAck(s, m, o))
  {
    RemoveFirstMultiset(s.queue.processing, m);
  }

  lemma WellPlacedAck(role: Role, s: Stage, m: Payload, o: Outcome)
    requires WellPlaced(role, s) && (s.pc == Acted(m) || (s.pc == Holding(m) && !Good(role, m)))
    ensures WellPlaced(role, AfterAck(s, m, o))
  {
  }

  lemma AccountsAck(s: Stage, m: Payload, o: Outcome)
    requires Accounts(s) && (s.pc == Acted(m) || s.pc == Holding(m))
    ensures Accounts(AfterAck(s, m, o))
  {
  }

  lemma InvRequeue(role: Role, s: Stage, m: Payload, o: Outcome)
    requires Inv(role, s) && s.pc == Retrying(m)
    ensures Inv(role, AfterRequeue(s, m, o))
  {
    RemoveFirstMultiset(s.queue.processing, m);
  }

  lemma InvCrash(role: Role, s: Stage)
    requires Inv(role, s)
    ensures Inv(role, AfterCrash(s))
  {
  }

  lemma {:induction false} InvRun(role: Role, s: Stage, steps: seq<Step>)
    requires Inv(role, s)
    ensures Inv(role, Run(role, s, steps))
    decreases |steps|
  {
    if steps != [] {
      InvStep(role, s, steps[0]);
      InvRun(role, Next(role, s, steps[0]), steps[1..]);
    }
  }

  /** No loss at one stage: after any run, crashes and failing commands included,
      a good publication is on one of the lists or its action has taken effect. */
  lemma NoLoss(role: Role, steps: seq<Step>, m: Payload)
    requires Good(role, m)
    ensures var s := Run(role, FRESH, steps);
            multiset(s.published)[m] <= multiset(s.queue.main)[m] + multiset(s.queue.processing)[m] + multiset(s.acted)[m]
  {
    InvRun(role, FRESH, steps);
    var s := Run(role, FRESH, steps);
    assert m !in s.dropped;
  }

  /** In every run the worker hands on nothing but complete submissions of at most a million or so
      characters, 1048576, and drops nothing but other messages; central-service handles nothing
      but verdicts, and drops nothing but what does not decode to one. */
  lemma OnlyValidActed(role: Role, steps: seq<Step>, m: Payload)
    ensures var s := Run(role, FRESH, steps);
            var valid := if role == Worker
                         then && m.Submission? && m.problemId > 0 && m.submissionId > 0
                              && |m.slug| > 0 && |m.lang| > 0 && 0 < |m.code| <= 1_048_576
                         else m.Verdict?;
            && (m in s.acted || m in s.finished ==> valid)
            && (m in s.dropped ==> !valid)
  {
    InvRun(role, FRESH, steps);
  }

  predicate NotBlankInHand(s: Stage) {
    && (Carries(s.pc) ==> !s.pc.m.Blank?)
    && (forall i :: 0 <= i < |s.finished| ==> !s.finished[i].Blank?)
    && (forall i :: 0 <= i < |s.dropped| ==> !s.dropped[i].Blank?)
  }

  lemma {:induction false} BlankRun(role: Role, s: Stage, steps: seq<Step>)
    requires NotBlankInHand(s)
    ensures NotBlankInHand(Run(role, s, steps))
    decreases |steps|
  {
    if steps != [] {
      BlankStep(role, s, steps[0]);
      BlankRun(role, Next(role, s, steps[0]), steps[1..]);
    }
  }

  lemma BlankStep(role: Role, s: Stage, step: Step)
    requires NotBlankInHand(s)
    ensures NotBlankInHand(Next(role, s, step))
  {
    hide Good, RemoveFirst;
  }

  /** An empty message is taken for an empty list: it is never acked, and stays on one of the two
      lists in every run. */
  lemma BlankStays(role: Role, steps: seq<Step>)
    ensures var s := Run(role, FRESH, steps);
            multiset(s.published)[Blank] == multiset(s.queue.main)[Blank] + multiset(s.queue.processing)[Blank]
  {
    hide Run;
    InvRun(role, FRESH, steps);
    BlankRun(role, FRESH, steps);
  }

  /** Bounded duplication of one message: no more effects than publications and faults. */
  lemma BoundedRepeats(role: Role, steps: seq<Step>, m: Payload)
    ensures var s := Run(role, FRESH, steps);
            multiset(s.acted)[m] <= multiset(s.published)[m] + s.faults
  {
    InvRun(role, FRESH, steps);
    var s := Run(role, FRESH, steps);
    CountAtMostLength(s.repeats, m);
    assert multiset(Held(s.pc))[m] <= multiset(s.queue.processing)[m];
  }

  /** Bounded duplication overall: each extra effect is paid for by its own fault. */
  lemma BoundedTotal(role: Role, steps: seq<Step>)
    ensures var s := Run(role, FRESH, steps);
            |s.acted| <= |s.published| + s.faults
  {
    InvRun(role, FRESH, steps);
    var s := Run(role, FRESH, steps);
    assert |s.published| == |s.queue.main| + |s.queue.processing| + |s.finished| + |s.dropped| by {
      assert |multiset(s.published)| == |s.published|;
    }
    assert |s.acted| == |s.finished| + |s.repeats| + |Held(s.pc)| by {
      assert |multiset(s.acted)| == |s.acted|;
    }
  }

  lemma CountAtMostLength<T>(s: seq<T>, m: T)
    ensures multiset(s)[m] <= |s|
  {
    if s != [] {
      assert s == [s[0]] + s[1..];
      CountAtMostLength(s[1..], m);
    }
  }

  // ----- nothing stays stuck -----

  lemma {:induction false} RunConcat(role: Role, s: Stage, a: seq<Step>, b: seq<Step>)
    ensures Run(role, s, a + b) == Run(role, Run(role, s, a), b)
    decreases |a|
  {
    if a == [] {
      assert a + b == b;
    } else {
      assert (a + b)[1..] == a[1..] + b;
      RunConcat(role, Next(role, s, a[0]), a[1..], b);
    }
  }

  /** `n` recovery moves, all successful. */
  function Recovery(n: nat): seq<Step> {
    if n == 0 then [] else [Recover(Ok)] + Recovery(n - 1)
  }

  /** `n` loop iterations whose commands all succeed. */
  function Iterations(n: nat): seq<Step> {
    if n == 0 then [] else [Consume(Ok), Act(Ok), Ack(Ok)] + Iterations(n - 1)
  }

  /** Restart, recover, then work through the main list, with no fault. */
  function Drain(s: Stage): seq<Step> {
    var n := |s.queue.main| + |s.queue.processing|;
    [Crash, Start] + Recovery(|s.queue.processing| + 1) + Iterations(n)
  }

  lemma {:induction false} RecoveryRun(role: Role, s: Stage)
    requires s.pc == Recovering
    ensures Run(role, s, Recovery(|s.queue.processing| + 1))
            == s.(queue := Recovered(s.queue, |s.queue.processing|), pc := Idle)
    decreases |s.queue.processing|
  {
    var steps := Recovery(|s.queue.processing| + 1);
    assert steps[0] == Recover(Ok) && steps[1..] == Recovery(|s.queue.processing|);
    var t := AfterRecover(s, Ok);
    if s.queue.processing == [] {
      assert Recovered(s.queue, 0) == s.queue;
      assert Run(role, t, []) == t;
    } else {
      RecoveryRun(role, t);
      assert s.queue.main + s.queue.processing == t.queue.main + t.queue.processing;
    }
  }

  lemma Unroll3(role: Role, s: Stage, a: Step, b: Step, c: Step)
    ensures Run(role, s, [a, b, c]) == Next(role, Next(role, Next(role, s, a), b), c)
  {
    var s1 := Next(role, s, a);
    var s2 := Next(role, s1, b);
    assert [a, b, c][1..] == [b, c] && [b, c][1..] == [c] && [c][1..] == [];
    assert Run(role, s2, [c]) == Next(role, s2, c);
    assert Run(role, s1, [b, c]) == Run(role, s2, [c]);
  }

  lemma {:induction false} RemoveFirstWithin(s: seq<Payload>, m: Payload)
    requires m in s
    ensures forall x :: x in RemoveFirst(s, m) ==> x in s
    ensures m == s[|s| - 1] && m !in s[..|s| - 1] ==> RemoveFirst(s, m) == s[..|s| - 1]
  {
    if s[0] != m {
      RemoveFirstWithin(s[1..], m);
      assert s[1..][..|s| - 2] == s[..|s| - 1][1..];
      assert RemoveFirst(s, m) == [s[0]] + RemoveFirst(s[1..], m);
      assert s[..|s| - 1] == [s[0]] + s[1..][..|s| - 2] || |s| == 1;
    } else if |s| > 1 {
      assert m == s[..|s| - 1][0];
    }
  }

  /** One fault-free iteration takes the head off the main list and leaves nothing
      good in processing. */
  lemma IterationRun(role: Role, s: Stage)
    requires s.pc == Idle && s.queue.main != [] && NoneGood(role, s.queue.processing)
    ensures var t := Run(role, s, [Consume(Ok), Act(Ok), Ack(Ok)]);
            t.pc == Idle && t.queue.main == s.queue.main[1..] && NoneGood(role, t.queue.processing)
            && t.faults == s.faults && t.published == s.published
  {
    Unroll3(role, s, Consume(Ok), Act(Ok), Ack(Ok));
    var m := s.queue.main[0];
    var t1 := AfterConsume(s, Ok);
    if !m.Blank? {
      var p := t1.queue.processing;
      RemoveFirstWithin(p, m);
      assert p[..|p| - 1] == s.queue.processing;
      if Good(role, m) {
        IterationGood(role, s, m);
      } else {
        IterationBad(role, s, m);
        forall i | 0 <= i < |RemoveFirst(p, m)| ensures !Good(role, RemoveFirst(p, m)[i]) {
          assert RemoveFirst(p, m)[i] in p;
        }
      }
    }
  }

  lemma IterationGood(role: Role, s: Stage, m: Payload)
    requires s.pc == Idle && s.queue.main != [] && m == s.queue.main[0] && Good(role, m)
    ensures var t := Next(role, Next(role, Next(role, s, Consume(Ok)), Act(Ok)), Ack(Ok));
            t.pc == Idle && t.queue == Queue(s.queue.main[1..], RemoveFirst(s.queue.processing + [m], m))
            && t.faults == s.faults && t.published == s.published
  {
  }

  lemma IterationBad(role: Role, s: Stage, m: Payload)
    requires s.pc == Idle && s.queue.main != [] && m == s.queue.main[0] && !Good(role, m) && !m.Blank?
    ensures var t := Next(role, Next(role, Next(role, s, Consume(Ok)), Act(Ok)), Ack(Ok));
            t.pc == Idle && t.queue == Queue(s.queue.main[1..], RemoveFirst(s.queue.processing + [m], m))
            && t.faults == s.faults && t.published == s.published
  {
  }

  lemma {:induction false} IterationsRun(role: Role, s: Stage)
    requires s.pc == Idle && NoneGood(role, s.queue.processing)
    ensures var t := Run(role, s, Iterations(|s.queue.main|));
            t.pc == Idle && t.queue.main == [] && NoneGood(role, t.queue.processing)
            && t.faults == s.faults && t.published == s.published
    decreases |s.queue.main|
  {
    if s.queue.main != [] {
      var once := [Consume(Ok), Act(Ok), Ack(Ok)];
      IterationRun(role, s);
      RunConcat(role, s, once, Iterations(|s.queue.main| - 1));
      IterationsRun(role, Run(role, s, once));
    }
  }

  /** Eventual delivery: whatever state a run has reached, a restart followed by commands
      that succeed leaves every good publication acted on, at the price of one fault at most. */
  lemma Drained(role: Role, steps: seq<Step>, m: Payload)
    requires Good(role, m)
    ensures var s := Run(role, FRESH, steps);
            var t := Run(role, s, Drain(s));
            && t.published == s.published && t.faults <= s.faults + 1
            && multiset(t.published)[m] <= multiset(t.acted)[m]
  {
    var s := Run(role, FRESH, steps);
    var t := Run(role, s, Drain(s));
    DrainRun(role, s);
    RunConcat(role, FRESH, steps, Drain(s));
    NoLoss(role, steps + Drain(s), m);
    assert m !in t.queue.processing;
  }

  lemma DrainRun(role: Role, s: Stage)
    ensures var t := Run(role, s, Drain(s));
            && t.queue.main == [] && NoneGood(role, t.queue.processing)
            && t.published == s.published && t.faults <= s.faults + 1
  {
    var up := Next(role, Next(role, s, Crash), Start);
    assert [Crash, Start][1..] == [Start];
    assert Run(role, s, [Crash, Start]) == up;
    var back := Recovery(|s.queue.processing| + 1);
    var idle := Run(role, up, back);
    RecoveryRun(role, up);
    RunConcat(role, s, [Crash, Start], back);
    RunConcat(role, s, [Crash, Start] + back, Iterations(|idle.queue.main|));
    IterationsRun(role, idle);
  }

  // ----- order in fault-free runs -----

  function Goods(role: Role, s: seq<Payload>): seq<Payload> {
    if s == [] then [] else (if Good(role, s[0]) then [s[0]] else []) + Goods(role, s[1..])
  }

  lemma {:induction false} GoodsConcat(role: Role, a: seq<Payload>, b: seq<Payload>)
    ensures Goods(role, a + b) == Goods(role, a) + Goods(role, b)
  {
    if a == [] {
      assert a + b == b;
    } else {
      assert (a + b)[1..] == a[1..] + b;
      GoodsConcat(role, a[1..], b);
    }
  }

  lemma {:induction false} GoodsRemoveFirst(role: Role, s: seq<Payload>, m: Payload)
    requires m in s
    ensures !Good(role, m) ==> Goods(role, RemoveFirst(s, m)) == Goods(role, s)
    ensures Good(role, m) && Goods(role, s) == [m] ==> Goods(role, RemoveFirst(s, m)) == []
  {
    if s[0] != m {
      GoodsRemoveFirst(role, s[1..], m);
      if Good(role, s[0]) {
        assert Goods(role, s)[0] == s[0];
      }
    } else if Good(role, m) {
      assert Goods(role, s) == [m] + Goods(role, s[1..]);
      assert |Goods(role, s)| == 1 + |Goods(role, s[1..])|;
    }
  }

  /** The good message the consumer has not acted on yet. */
  function Waiting(role: Role, pc: Pc): seq<Payload> {
    if pc.Holding? then Goods(role, [pc.m]) else []
  }

  /** What sits in processing as good, in a fault-free run: only the message carried. */
  ghost predicate InOrder(role: Role, s: Stage) {
    s.faults == 0 ==>
      && !s.pc.Retrying?
      && Goods(role, s.published) == s.acted + Waiting(role, s.pc) + Goods(role, s.queue.main)
      && Goods(role, s.queue.processing) == if Carries(s.pc) then Goods(role, [s.pc.m]) else []
  }

  lemma InOrderStep(role: Role, s: Stage, step: Step)
    requires Inv(role, s) && InOrder(role, s)
    ensures InOrder(role, Next(role, s, step))
  {
    hide Inv, Goods;
    if Next(role, s, step).faults == 0 && Enabled(role, s, step) {
      match step
      case Publish(m, o) => InOrderPublish(role, s, m);
      case Recover(o) => InOrderRecover(role, s);
      case Consume(o) => InOrderConsume(role, s);
      case Act(o) => InOrderAct(role, s, s.pc.m);
      case Ack(o) => InOrderAck(role, s, s.pc.m);
      case _ =>
    }
  }

  lemma InOrderPublish(role: Role, s: Stage, m: Payload)
    requires InOrder(role, s)
    ensures InOrder(role, Published(s, m))
  {
    GoodsConcat(role, s.queue.main, [m]);
    GoodsConcat(role, s.published, [m]);
  }

  lemma InOrderAct(role: Role, s: Stage, m: Payload)
    requires InOrder(role, s) && s.faults == 0 && s.pc == Holding(m) && Good(role, m)
    ensures InOrder(role, AfterAct(s, m, Ok))
  {
    assert Goods(role, [m]) == [m];
    assert s.acted + [m] + [] == s.acted + [m];
  }

  lemma InOrderAck(role: Role, s: Stage, m: Payload)
    requires Inv(role, s) && InOrder(role, s) && s.faults == 0
    requires s.pc == Acted(m) || (s.pc == Holding(m) && !Good(role, m))
    ensures InOrder(role, AfterAck(s, m, Ok))
  {
    hide Conserves, Accounts, WellPlaced, RemoveFirst;
    assert Goods(role, [m]) == if Good(role, m) then [m] else [];
    hide Goods;
    GoodsRemoveFirst(role, s.queue.processing, m);
  }

  lemma InOrderRecover(role: Role, s: Stage)
    requires InOrder(role, s) && s.faults == 0 && s.pc.Recovering?
    ensures InOrder(role, AfterRecover(s, Ok))
  {
    if s.queue.processing != [] {
      GoodsConcat(role, s.queue.main, [s.queue.processing[0]]);
      assert Goods(role, s.queue.processing)
          == Goods(role, [s.queue.processing[0]]) + Goods(role, s.queue.processing[1..]);
    }
  }

  lemma InOrderConsume(role: Role, s: Stage)
    requires InOrder(role, s) && s.faults == 0 && s.pc.Idle?
    ensures InOrder(role, AfterConsume(s, Ok))
  {
    if s.queue.main != [] {
      var m := s.queue.main[0];
      GoodsConcat(role, s.queue.processing, [m]);
      assert Goods(role, s.queue.main) == Goods(role, [m]) + Goods(role, s.queue.main[1..]);
      assert m.Blank? ==> Goods(role, [m]) == [];
      assert Goods(role, []) == [];
      hide Goods, Good;
    }
  }

  /** First in, first out: with no fault, the actions are exactly the good publications
      in order, apart from the one in hand and those still waiting. */
  lemma {:induction false} FaultFreeOrder(role: Role, s: Stage, steps: seq<Step>)
    requires Inv(role, s) && InOrder(role, s)
    ensures var t := Run(role, s, steps);
            Inv(role, t) && InOrder(role, t)
    decreases |steps|
  {
    if steps != [] {
      InvStep(role, s, steps[0]);
      InOrderStep(role, s, steps[0]);
      FaultFreeOrder(role, Next(role, s, steps[0]), steps[1..]);
    }
  }
}

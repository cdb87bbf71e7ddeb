// The submission pipeline: central-service publishes to the ingress queue, the
// worker moves each valid submission to the egress queue, central-service takes
// it from there. Any of the three may interleave, crash or see a command fail.

module Pipeline {
  import opened Common
  import opened ReliableQueue
  import opened Delivery

  datatype System = System(ingress: Stage, egress: Stage)

  datatype Event =
    | Submit(m: Payload, o: Outcome)
    | WorkerDoes(step: Step)
    | CentralDoes(step: Step)

  const INITIAL := System(FRESH, FRESH)

  /** The worker's action is the publication on the egress queue; nobody else publishes there. */
  function NextSystem(s: System, e: Event): System {
    match e
    case Submit(m, o) => s.(ingress := Next(Worker, s.ingress, Publish(m, o)))
    case WorkerDoes(Publish(_, _)) => s
    case WorkerDoes(Act(o)) =>
      if !Enabled(Worker, s.ingress, Act(o)) then s
      else System(Next(Worker, s.ingress, Act(o)),
                  Next(Central, s.egress, Publish(Egress(s.ingress.pc.m), o)))
    case WorkerDoes(step) => s.(ingress := Next(Worker, s.ingress, step))
    case CentralDoes(Publish(_, _)) => s
    case CentralDoes(step) => s.(egress := Next(Central, s.egress, step))
  }

  function RunSystem(s: System, events: seq<Event>): System
    decreases |events|
  {
    if events == [] then s else RunSystem(NextSystem(s, events[0]), events[1..])
  }

  /** The egress messages of the good ingress messages in `s`, in order. */
  function Egresses(s: seq<Payload>): seq<Payload> {
    if s == [] then []
    else (if Good(Worker, s[0]) then [Egress(s[0])] else []) + Egresses(s[1..])
  }

  ghost predicate Linked(s: System) {
    && Inv(Worker, s.ingress) && InOrder(Worker, s.ingress)
    && Inv(Central, s.egress) && InOrder(Central, s.egress)
    && s.egress.published == Egresses(s.ingress.acted)
  }

  lemma {:induction false} EgressesConcat(a: seq<Payload>, b: seq<Payload>)
    ensures Egresses(a + b) == Egresses(a) + Egresses(b)
  {
    hide Good, Egress;
    if a == [] {
      assert a + b == b;
    } else {
      assert (a + b)[1..] == a[1..] + b && (a + b)[0] == a[0];
      var head := if Good(Worker, a[0]) then [Egress(a[0])] else [];
      assert Egresses(a + b) == head + Egresses(a[1..] + b);
      assert Egresses(a) == head + Egresses(a[1..]);
      hide Egresses;
      EgressesConcat(a[1..], b);
      assert head + (Egresses(a[1..]) + Egresses(b)) == (head + Egresses(a[1..])) + Egresses(b);
    }
  }

  lemma StageStep(role: Role, s: Stage, step: Step)
    requires Inv(role, s) && InOrder(role, s)
    ensures Inv(role, Next(role, s, step)) && InOrder(role, Next(role, s, step))
    ensures Next(role, s, step).acted
            == if step.Act? && Enabled(role, s, step) && step.o.Applied() then s.acted + [s.pc.m] else s.acted
    ensures Next(role, s, step).published
            == if step.Publish? && step.o.Applied() then s.published + [step.m] else s.published
  {
    hide Inv, InOrder;
    InvStep(role, s, step);
    InOrderStep(role, s, step);
  }

  lemma LinkedStep(s: System, e: Event)
    requires Linked(s)
    ensures Linked(NextSystem(s, e))
  {
    hide Inv, InOrder, Next;
    match e
    case Submit(m, o) => StageStep(Worker, s.ingress, Publish(m, o));
    case WorkerDoes(Act(o)) =>
      if Enabled(Worker, s.ingress, Act(o)) {
        StageStep(Worker, s.ingress, Act(o));
        StageStep(Central, s.egress, Publish(Egress(s.ingress.pc.m), o));
        EgressesConcat(s.ingress.acted, [s.ingress.pc.m]);
        assert Egresses([s.ingress.pc.m]) == [Egress(s.ingress.pc.m)];
      }
    case WorkerDoes(step) => StageStep(Worker, s.ingress, step);
    case CentralDoes(step) => StageStep(Central, s.egress, step);
  }

  /** What a worker's step puts on the egress queue. */
  function HandedOn(s: System, step: Step): seq<Payload> {
    if step.Act? && Enabled(Worker, s.ingress, step) && step.o.Applied() then [Egress(s.ingress.pc.m)] else []
  }

  /** The message a step of central-service finishes handling. */
  function HandledBy(s: System, step: Step): seq<Payload> {
    if step.Act? && Enabled(Central, s.egress, step) && step.o.Applied() then [s.egress.pc.m] else []
  }

  lemma SubmitPublishes(s: System, m: Payload, o: Outcome)
    requires Linked(s)
    ensures var t := NextSystem(s, Submit(m, o));
            && Linked(t) && t.egress == s.egress
            && t.ingress.published == s.ingress.published + if o.Applied() then [m] else []
  {
    hide Inv, InOrder, Next, Egresses;
    LinkedStep(s, Submit(m, o));
    StageStep(Worker, s.ingress, Publish(m, o));
  }

  lemma WorkerActs(s: System, o: Outcome)
    requires Linked(s)
    ensures var t := NextSystem(s, WorkerDoes(Act(o)));
            && t.ingress.published == s.ingress.published && t.egress.acted == s.egress.acted
            && t.egress.published == s.egress.published + HandedOn(s, Act(o))
  {
    hide Inv, InOrder, Egresses, Egress;
    if Enabled(Worker, s.ingress, Act(o)) {
      hide Next, Good;
      StageStep(Worker, s.ingress, Act(o));
      StageStep(Central, s.egress, Publish(Egress(s.ingress.pc.m), o));
      assert s.egress.published + [] == s.egress.published;
    } else {
      assert s.egress.published + [] == s.egress.published;
    }
  }

  lemma WorkerPublishes(s: System, step: Step)
    requires Linked(s)
    ensures var t := NextSystem(s, WorkerDoes(step));
            && Linked(t) && t.ingress.published == s.ingress.published && t.egress.acted == s.egress.acted
            && t.egress.published == s.egress.published + HandedOn(s, step)
  {
    LinkedStep(s, WorkerDoes(step));
    hide Next, Inv, InOrder, Egresses;
    if step.Act? {
      WorkerActs(s, step.o);
    } else {
      StageStep(Worker, s.ingress, step);
      assert s.egress.published + [] == s.egress.published;
    }
  }

  lemma CentralHandles(s: System, step: Step)
    requires Linked(s)
    ensures var t := NextSystem(s, CentralDoes(step));
            && Linked(t) && t.ingress == s.ingress && t.egress.published == s.egress.published
            && t.egress.acted == s.egress.acted + HandledBy(s, step)
  {
    hide Inv, InOrder, Next, Egresses, Good, NextSystem, Linked;
    LinkedStep(s, CentralDoes(step));
    CentralShape(s, step);
    LinkedStages(s);
    if !step.Publish? {
      StageStep(Central, s.egress, step);
    }
    assert s.egress.acted + [] == s.egress.acted;
  }

  lemma CentralShape(s: System, step: Step)
    ensures NextSystem(s, CentralDoes(step)) == if step.Publish? then s else s.(egress := Next(Central, s.egress, step))
  {
    hide Next;
  }

  lemma LinkedStages(s: System)
    requires Linked(s)
    ensures Inv(Worker, s.ingress) && InOrder(Worker, s.ingress) && Inv(Central, s.egress) && InOrder(Central, s.egress)
  {
    hide Inv, InOrder, Egresses;
  }

  lemma InitialLinked()
    ensures Linked(INITIAL)
  {
  }

  /** Every state of every run keeps both stages' invariants and hands over exactly what
      the worker acted on. */
  lemma {:induction false} LinkedRun(s: System, events: seq<Event>)
    requires Linked(s)
    ensures Linked(RunSystem(s, events))
    decreases |events|
  {
    if events != [] {
      LinkedStep(s, events[0]);
      LinkedRun(NextSystem(s, events[0]), events[1..]);
    }
  }

  lemma {:induction false} EgressesPermute(a: seq<Payload>, b: seq<Payload>)
    requires multiset(a) == multiset(b)
    ensures multiset(Egresses(a)) == multiset(Egresses(b))
  {
    if a != [] {
      var m := a[0];
      assert a == [m] + a[1..];
      assert m in multiset(b);
      var rest := RemoveFirst(b, m);
      RemoveFirstMultiset(b, m);
      EgressesRemove(b, m);
      EgressesConcat([m], a[1..]);
      EgressesPermute(a[1..], rest);
    } else {
      assert |multiset(b)| == |b|;
    }
  }

  lemma {:induction false} EgressesRemove(b: seq<Payload>, m: Payload)
    requires m in b
    ensures multiset(Egresses(b)) == multiset(Egresses([m])) + multiset(Egresses(RemoveFirst(b, m)))
  {
    hide Good, Egress, Egresses;
    assert b == [b[0]] + b[1..];
    EgressesConcat([b[0]], b[1..]);
    if b[0] != m {
      EgressesRemove(b[1..], m);
      EgressesConcat([b[0]], RemoveFirst(b[1..], m));
    }
  }

  /** What has not reached the handler yet, as egress messages. */
  ghost function InFlight(s: System): multiset<Payload> {
    multiset(Egresses(s.ingress.queue.main + s.ingress.queue.processing))
    + multiset(s.egress.queue.main) + multiset(s.egress.queue.processing)
  }

  /** No loss end to end: in every run each valid submission is on one of the four lists
      (as itself or as its egress message) or was handled by central-service, with multiplicity. */
  lemma NoLossEndToEnd(events: seq<Event>)
    ensures var s := RunSystem(INITIAL, events);
            multiset(Egresses(s.ingress.published)) <= InFlight(s) + multiset(s.egress.acted)
  {
    hide Inv, InOrder, RunSystem, Egresses;
    InitialLinked();
    LinkedRun(INITIAL, events);
    var s := RunSystem(INITIAL, events);
    HandedOverIsGood(s.ingress.acted);
    IngressBalance(s.ingress);
    EgressBalance(s.egress);
  }

  lemma {:induction false} HandedOverIsGood(s: seq<Payload>)
    ensures AllGood(Central, Egresses(s))
  {
    if s != [] {
      HandedOverIsGood(s[1..]);
    }
  }

  /** At the ingress stage a published message is waiting or was handed over. */
  lemma IngressBalance(s: Stage)
    requires Inv(Worker, s)
    ensures multiset(Egresses(s.published))
            <= multiset(Egresses(s.queue.main + s.queue.processing)) + multiset(Egresses(s.acted))
  {
    hide Egresses, RemoveFirst;
    var waiting := s.queue.main + s.queue.processing;
    EgressesPermute(s.published, waiting + (s.finished + s.dropped));
    EgressesConcat(waiting, s.finished + s.dropped);
    EgressesConcat(s.finished, s.dropped);
    EgressesOfBad(s.dropped);
    EgressesPermute(s.acted, s.finished + (s.repeats + Held(s.pc)));
    EgressesConcat(s.finished, s.repeats + Held(s.pc));
  }

  lemma EgressesOfBad(s: seq<Payload>)
    requires NoneGood(Worker, s)
    ensures Egresses(s) == []
  {
  }

  /** At the egress stage a published message is waiting or was handled. */
  lemma EgressBalance(s: Stage)
    requires Inv(Central, s) && AllGood(Central, s.published)
    ensures multiset(s.published) <= multiset(s.queue.main) + multiset(s.queue.processing) + multiset(s.acted)
  {
    AllGoodWithin(s.dropped, s.published);
  }

  lemma AllGoodWithin(a: seq<Payload>, b: seq<Payload>)
    requires multiset(a) <= multiset(b) && AllGood(Central, b)
    ensures AllGood(Central, a)
  {
    forall i | 0 <= i < |a| ensures Good(Central, a[i]) {
      assert a[i] in multiset(b);
    }
  }

  /** First in, first out end to end: with no fault at either consumer, the handled messages
      followed by the ones in hand and the ones waiting are the valid submissions in order. */
  lemma FifoEndToEnd(events: seq<Event>)
    ensures var s := RunSystem(INITIAL, events);
            s.ingress.faults == 0 && s.egress.faults == 0 ==>
              Egresses(s.ingress.published)
              == s.egress.acted + Waiting(Central, s.egress.pc) + s.egress.queue.main
                 + Egresses(Waiting(Worker, s.ingress.pc)) + Egresses(s.ingress.queue.main)
  {
    hide Inv, RunSystem;
    InitialLinked();
    LinkedRun(INITIAL, events);
    var s := RunSystem(INITIAL, events);
    if s.ingress.faults == 0 && s.egress.faults == 0 {
      FifoStages(s);
    }
  }

  lemma FifoStages(s: System)
    requires Linked(s) && s.ingress.faults == 0 && s.egress.faults == 0
    ensures Egresses(s.ingress.published)
            == s.egress.acted + Waiting(Central, s.egress.pc) + s.egress.queue.main
               + Egresses(Waiting(Worker, s.ingress.pc)) + Egresses(s.ingress.queue.main)
  {
    hide Inv, Egresses, Goods;
    var i, e := s.ingress, s.egress;
    EgressesOfGoods(i.published);
    EgressesOfGoods(i.queue.main);
    EgressesConcat(i.acted + Waiting(Worker, i.pc), Goods(Worker, i.queue.main));
    EgressesConcat(i.acted, Waiting(Worker, i.pc));
    HandedOverIsGood(i.acted);
    GoodsOfAllGood(e.published);
    MainAllGood(e);
    GoodsOfAllGood(e.queue.main);
  }

  lemma {:induction false} EgressesOfGoods(s: seq<Payload>)
    ensures Egresses(Goods(Worker, s)) == Egresses(s)
  {
    if s != [] {
      EgressesOfGoods(s[1..]);
      var head := if Good(Worker, s[0]) then [s[0]] else [];
      assert Goods(Worker, s) == head + Goods(Worker, s[1..]);
      assert Egresses(head) == if Good(Worker, s[0]) then [Egress(s[0])] else [];
      EgressesConcat(head, Goods(Worker, s[1..]));
    }
  }

  lemma {:induction false} GoodsOfAllGood(s: seq<Payload>)
    requires AllGood(Central, s)
    ensures Goods(Central, s) == s
  {
    if s != [] {
      GoodsOfAllGood(s[1..]);
    }
  }

  lemma MainAllGood(s: Stage)
    requires Inv(Central, s) && AllGood(Central, s.published)
    ensures AllGood(Central, s.queue.main)
  {
    AllGoodWithin(s.queue.main, s.published);
  }

  /** Bounded duplication end to end: handlings never exceed the valid submissions plus the
      repeats of the two consumers, and each repeat is paid for by a fault. */
  lemma BoundedHandling(events: seq<Event>, e: Payload)
    ensures var s := RunSystem(INITIAL, events);
            && multiset(s.egress.acted)[e]
               <= multiset(Egresses(s.ingress.published))[e] + |s.ingress.repeats| + |s.egress.repeats|
            && |s.ingress.repeats| <= s.ingress.faults && |s.egress.repeats| <= s.egress.faults
  {
    hide RunSystem;
    InitialLinked();
    LinkedRun(INITIAL, events);
    HandlingsBound(RunSystem(INITIAL, events), e);
  }

  lemma HandlingsBound(s: System, e: Payload)
    requires Linked(s)
    ensures multiset(s.egress.acted)[e]
            <= multiset(Egresses(s.ingress.published))[e] + |s.ingress.repeats| + |s.egress.repeats|
    ensures |s.ingress.repeats| <= s.ingress.faults && |s.egress.repeats| <= s.egress.faults
  {
    hide InOrder, Egresses;
    HandledWithin(Central, s.egress, e);
    HandedOverWithin(s.ingress, e);
  }

  lemma HandedOverWithin(i: Stage, e: Payload)
    requires Inv(Worker, i)
    ensures multiset(Egresses(i.acted))[e] <= multiset(Egresses(i.published))[e] + |i.repeats|
  {
    hide Egresses, RemoveFirst;
    var done := i.finished + Held(i.pc);
    var waiting := (i.queue.main + RemoveHeld(i)) + i.dropped;
    EgressesPermute(i.acted, done + i.repeats);
    EgressesConcat(done, i.repeats);
    EgressesShorter(i.repeats);
    CountAtMostLength(Egresses(i.repeats), e);
    HeldInProcessing(i);
    EgressesPermute(i.published, done + waiting);
    EgressesConcat(done, waiting);
  }

  /** The processing list without the message acted on and not acked. */
  function RemoveHeld(s: Stage): seq<Payload> {
    if s.pc.Acted? then RemoveFirst(s.queue.processing, s.pc.m) else s.queue.processing
  }

  lemma HeldInProcessing(s: Stage)
    requires Inv(Worker, s)
    ensures multiset(s.published)
            == multiset((s.finished + Held(s.pc)) + ((s.queue.main + RemoveHeld(s)) + s.dropped))
  {
    if s.pc.Acted? {
      RemoveFirstMultiset(s.queue.processing, s.pc.m);
    }
    assert multiset(s.queue.processing) == multiset(Held(s.pc)) + multiset(RemoveHeld(s));
  }

  lemma HandledWithin(role: Role, s: Stage, m: Payload)
    requires Inv(role, s)
    ensures multiset(s.acted)[m] <= multiset(s.published)[m] + |s.repeats|
  {
    CountAtMostLength(s.repeats, m);
    assert multiset(Held(s.pc))[m] <= multiset(s.queue.processing)[m];
  }

  lemma EgressesShorter(s: seq<Payload>)
    ensures |Egresses(s)| <= |s|
  {
  }
}

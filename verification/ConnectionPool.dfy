// rtc-service's in-memory token buckets: one limiter object per connection, refilled
// continuously, kept in a pool that forgets connections idle for too long.

module ConnectionPool {

  datatype Settings = Settings(rate: nat, burst: nat, maxIdle: real)

  /** A limiter's fields; `activity` is its wrapper's last use. */
  datatype Meter = Meter(tokens: real, refilled: real, activity: real)

  function Full(s: Settings, now: real): Meter {
    Meter(Burst(s), now, now)
  }

  function Burst(s: Settings): (r: real)
    ensures r >= 0.0
  {
    s.burst as real
  }

  /** Tokens gained over `d` seconds. */
  function Gain(s: Settings, d: real): real {
    d * s.rate as real
  }

  function Refill(s: Settings, m: Meter, now: real): real {
    var tokens := m.tokens + Gain(s, now - m.refilled);
    if tokens > Burst(s) then Burst(s) else tokens
  }

  predicate Admits(s: Settings, m: Meter, now: real) {
    Refill(s, m, now) >= 1.0
  }

  function Used(s: Settings, m: Meter, now: real): Meter {
    Meter(if Admits(s, m, now) then Refill(s, m, now) - 1.0 else Refill(s, m, now), now, now)
  }

  /** The tokens after a refill for `elapsed` seconds. */
  function Held(s: Settings, tokens: real, elapsed: real): real {
    var gained := tokens + s.rate as real * elapsed;
    if gained > s.burst as real then s.burst as real else gained
  }

  /** A use refills by elapsed time times rate, caps at the burst, and takes a token if there is one. */
  lemma UsedExactly(s: Settings, tokens: real, refilled: real, activity: real, now: real)
    ensures var m := Meter(tokens, refilled, activity);
            var held := Held(s, tokens, now - refilled);
            && (Admits(s, m, now) <==> held >= 1.0)
            && Used(s, m, now) == Meter(held - (if held >= 1.0 then 1.0 else 0.0), now, now)
  {
    hide Gain, Burst, Held;
    HeldExactly(s, tokens, now - refilled);
  }

  lemma HeldExactly(s: Settings, tokens: real, elapsed: real)
    ensures var gained := tokens + Gain(s, elapsed); Held(s, tokens, elapsed) == if gained > Burst(s) then Burst(s) else gained
  {
    hide Gain, Burst;
    Literally(s, elapsed);
  }

  lemma Commutes(a: real, b: real)
    ensures a * b == b * a
  {
  }

  // ----- one limiter -----

  function Admitted(s: Settings, m: Meter, times: seq<real>, from: real, to: real): nat
    decreases |times|
  {
    if times == [] then 0
    else (if Admits(s, m, times[0]) && from <= times[0] <= to then 1 else 0)
         + Admitted(s, Used(s, m, times[0]), times[1..], from, to)
  }

  predicate Monotone(times: seq<real>) {
    forall i, j :: 0 <= i < j < |times| ==> times[i] <= times[j]
  }

  predicate NotBefore(times: seq<real>, now: real) {
    forall i :: 0 <= i < |times| ==> now <= times[i]
  }

  predicate Sound(s: Settings, m: Meter, now: real) {
    0.0 <= m.tokens <= s.burst as real && m.refilled == m.activity <= now
  }

  lemma Literally(s: Settings, d: real)
    ensures Gain(s, d) == s.rate as real * d && Burst(s) == s.burst as real
  {
  }

  lemma GainGrows(s: Settings, a: real, b: real)
    requires 0.0 <= a <= b
    ensures 0.0 <= Gain(s, a) <= Gain(s, b)
  {
    var rate := s.rate as real;
    assert rate >= 0.0;
    assert (b - a) * rate >= 0.0;
    assert a * rate >= 0.0;
  }

  lemma GainSplit(s: Settings, a: real, b: real)
    ensures Gain(s, a + b) == Gain(s, a) + Gain(s, b)
  {
  }

  lemma UsedMeter(s: Settings, m: Meter, now: real)
    requires Sound(s, m, now)
    ensures Sound(s, Used(s, m, now), now)
    ensures Used(s, m, now).tokens
            <= m.tokens + Gain(s, now - m.refilled) - if Admits(s, m, now) then 1.0 else 0.0
  {
    hide Gain, Burst;
    Literally(s, now - m.refilled);
    GainGrows(s, 0.0, now - m.refilled);
    GainGrows(s, 0.0, 0.0);
  }

  /** A use takes one token or none, and tokens never leave [0, burst]. */
  lemma UsedSound(s: Settings, m: Meter, now: real)
    requires Sound(s, m, now)
    ensures 0.0 <= Used(s, m, now).tokens <= s.burst as real && Used(s, m, now).refilled == now
    ensures Used(s, m, now).tokens
            <= m.tokens + s.rate as real * (now - m.refilled) - if Admits(s, m, now) then 1.0 else 0.0
  {
    hide Gain, Burst, Used, Admits;
    UsedMeter(s, m, now);
    Literally(s, now - m.refilled);
    RefilledNow(s, m, now);
  }

  lemma RefilledNow(s: Settings, m: Meter, now: real)
    ensures Used(s, m, now).refilled == Used(s, m, now).activity == now
  {
  }

  lemma {:induction false} AdmittedFrom(s: Settings, m: Meter, times: seq<real>, from: real, to: real)
    requires Sound(s, m, m.refilled) && NotBefore(times, m.refilled) && Monotone(times) && m.refilled <= to
    ensures Admitted(s, m, times, from, to) as real <= m.tokens + Gain(s, to - m.refilled)
    decreases |times|
  {
    hide Refill, Admits, Gain, Burst;
    GainGrows(s, 0.0, to - m.refilled);
    if times != [] {
      var t := times[0];
      var m' := Used(s, m, t);
      UsedMeter(s, m, t);
      if t <= to {
        AdmittedFrom(s, m', times[1..], from, to);
        GainSplit(s, t - m.refilled, to - t);
      } else {
        NoneAfter(s, m', times[1..], from, to);
      }
    }
  }

  lemma {:induction false} NoneAfter(s: Settings, m: Meter, times: seq<real>, from: real, to: real)
    requires forall i :: 0 <= i < |times| ==> to < times[i]
    ensures Admitted(s, m, times, from, to) == 0
    decreases |times|
  {
    if times != [] {
      NoneAfter(s, Used(s, m, times[0]), times[1..], from, to);
    }
  }

  lemma {:induction false} IntervalBound(s: Settings, m: Meter, times: seq<real>, from: real, to: real)
    requires Sound(s, m, m.refilled) && NotBefore(times, m.refilled) && Monotone(times) && from <= to
    ensures Admitted(s, m, times, from, to) as real <= Burst(s) + Gain(s, to - from)
    decreases |times|
  {
    hide Refill, Admits, Gain, Burst;
    GainGrows(s, 0.0, to - from);
    if times != [] {
      var t := times[0];
      var m' := Used(s, m, t);
      UsedMeter(s, m, t);
      if t < from {
        IntervalBound(s, m', times[1..], from, to);
      } else if t <= to {
        AdmittedFrom(s, m', times[1..], from, to);
        GainGrows(s, to - t, to - from);
        UsedAtMost(s, m, t);
      } else {
        NoneAfter(s, m', times[1..], from, to);
      }
    }
  }

  /** In every run of one limiter, every interval admits at most the burst plus the rate
      times its length. */
  lemma LimiterBound(s: Settings, m: Meter, times: seq<real>, from: real, to: real)
    requires Sound(s, m, m.refilled) && NotBefore(times, m.refilled) && Monotone(times) && from <= to
    ensures Admitted(s, m, times, from, to) as real <= s.burst as real + s.rate as real * (to - from)
  {
    hide Admitted, Gain, Burst;
    IntervalBound(s, m, times, from, to);
    Literally(s, to - from);
  }

  lemma UsedAtMost(s: Settings, m: Meter, now: real)
    ensures Used(s, m, now).tokens <= Burst(s) - if Admits(s, m, now) then 1.0 else 0.0
  {
  }

  /** `n` moments that are all the same. */
  function AllAt(now: real, n: nat): seq<real> {
    if n == 0 then [] else [now] + AllAt(now, n - 1)
  }

  lemma {:induction false} AtOnce(s: Settings, m: Meter, now: real, n: nat)
    requires Sound(s, m, now)
    ensures Refill(s, m, now) >= 0.0
    ensures Admitted(s, m, AllAt(now, n), now, now)
            == if n <= Refill(s, m, now).Floor then n else Refill(s, m, now).Floor
    decreases n
  {
    hide Refill, Gain, Burst;
    RefillNotNegative(s, m, now);
    if n > 0 {
      var m' := Used(s, m, now);
      UsedMeter(s, m, now);
      SameInstant(s, m, now);
      assert AllAt(now, n)[1..] == AllAt(now, n - 1);
      AtOnce(s, m', now, n - 1);
    }
  }

  lemma RefillNotNegative(s: Settings, m: Meter, now: real)
    requires Sound(s, m, now)
    ensures Refill(s, m, now) >= 0.0
  {
    GainGrows(s, 0.0, now - m.refilled);
  }

  /** The other direction: of `n` messages at one instant a limiter admits as many as it then
      holds whole tokens, which are the burst or what it held before and gained since. */
  lemma AtOnceExactly(s: Settings, m: Meter, now: real, n: nat)
    requires Sound(s, m, now)
    ensures var gained := m.tokens + s.rate as real * (now - m.refilled);
            var held := if gained > s.burst as real then s.burst else gained.Floor;
            Admitted(s, m, AllAt(now, n), now, now) == if n <= held then n else held
  {
    hide Admitted, Gain, Burst;
    Literally(s, now - m.refilled);
    AtOnce(s, m, now, n);
  }

  /** So an emptied limiter left alone for `d` seconds admits exactly rate times `d` messages,
      rounded down, or the burst if that is less. */
  lemma RefillsExactly(s: Settings, m: Meter, d: real, n: nat)
    requires d >= 0.0 && m.tokens == 0.0 && m.activity == m.refilled && n >= s.burst
    ensures var gained := (s.rate as real * d).Floor;
            Admitted(s, m, AllAt(m.refilled + d, n), m.refilled + d, m.refilled + d)
            == if gained > s.burst then s.burst else gained
  {
    hide Admitted, AllAt;
    assert m.refilled + d - m.refilled == d;
    AtOnceExactly(s, m, m.refilled + d, n);
    Literally(s, d);
    GainGrows(s, 0.0, d);
  }

  // ----- the pool -----

  datatype Event = Message(id: string, now: real) | Cleanup(now: real) | Disconnect(id: string, now: real)

  type Pool = map<string, Meter>

  function MeterOf(s: Settings, p: Pool, id: string, now: real): Meter {
    if id in p then p[id] else Full(s, now)
  }

  predicate Idle(s: Settings, activity: real, now: real) {
    now - activity > s.maxIdle
  }

  function Next(s: Settings, p: Pool, e: Event): Pool {
    match e
    case Message(id, now) => p[id := Used(s, MeterOf(s, p, id, now), now)]
    case Cleanup(now) => map id | id in p && !Idle(s, p[id].activity, now) :: p[id]
    case Disconnect(id, _) => p - {id}
  }

  /** The decision on each message, in order. */
  function Trace(s: Settings, p: Pool, run: seq<Event>): seq<bool>
    decreases |run|
  {
    if run == [] then []
    else (if run[0].Message? then [Admits(s, MeterOf(s, p, run[0].id, run[0].now), run[0].now)] else [])
         + Trace(s, Next(s, p, run[0]), run[1..])
  }

  function WithoutCleanups(run: seq<Event>): seq<Event> {
    if run == [] then []
    else (if run[0].Cleanup? then [] else [run[0]]) + WithoutCleanups(run[1..])
  }

  predicate InOrder(run: seq<Event>, now: real) {
    && (forall i :: 0 <= i < |run| ==> now <= run[i].now)
    && (forall i, j :: 0 <= i < j < |run| ==> run[i].now <= run[j].now)
  }

  /** `p` is the pool with cleanups and `f` the one without: what `p` forgot is full by now. */
  ghost predicate Agree(s: Settings, p: Pool, f: Pool, now: real) {
    && p.Keys <= f.Keys
    && (forall id :: id in f ==> Sound(s, f[id], now))
    && (forall id :: id in p ==> p[id] == f[id])
    && (forall id :: id in f && id !in p ==> Burst(s) <= Gain(s, now - f[id].refilled))
  }

  lemma AgreeLater(s: Settings, p: Pool, f: Pool, now: real, later: real)
    requires Agree(s, p, f, now) && now <= later
    ensures Agree(s, p, f, later)
  {
    hide Gain, Burst;
    forall id | id in f && id !in p ensures Burst(s) <= Gain(s, later - f[id].refilled) {
      GainGrows(s, now - f[id].refilled, later - f[id].refilled);
    }
  }

  lemma AgreeMessage(s: Settings, p: Pool, f: Pool, id: string, now: real)
    requires Agree(s, p, f, now)
    ensures Admits(s, MeterOf(s, p, id, now), now) == Admits(s, MeterOf(s, f, id, now), now)
    ensures Agree(s, Next(s, p, Message(id, now)), Next(s, f, Message(id, now)), now)
  {
    hide Gain, Burst;
    GainGrows(s, 0.0, 0.0);
    Literally(s, 0.0);
    assert Refill(s, MeterOf(s, p, id, now), now) == Refill(s, MeterOf(s, f, id, now), now);
    UsedMeter(s, MeterOf(s, f, id, now), now);
  }

  lemma AgreeCleanup(s: Settings, p: Pool, f: Pool, now: real)
    requires Agree(s, p, f, now) && 0.0 <= s.maxIdle && Burst(s) <= Gain(s, s.maxIdle)
    ensures Agree(s, Next(s, p, Cleanup(now)), f, now)
  {
    hide Gain, Burst;
    var q := Next(s, p, Cleanup(now));
    forall id | id in f && id !in q ensures Burst(s) <= Gain(s, now - f[id].refilled) {
      if id in p {
        GainGrows(s, s.maxIdle, now - f[id].refilled);
      }
    }
  }

  lemma {:induction false} SameDecisions(s: Settings, p: Pool, f: Pool, run: seq<Event>, now: real)
    requires Agree(s, p, f, now) && InOrder(run, now)
    requires 0.0 <= s.maxIdle && s.burst as real <= s.rate as real * s.maxIdle
    ensures Trace(s, p, run) == Trace(s, f, WithoutCleanups(run))
    decreases |run|
  {
    hide Agree, Admits, MeterOf, Gain, Burst;
    Literally(s, s.maxIdle);
    if run != [] {
      var e := run[0];
      var rest := run[1..];
      AgreeLater(s, p, f, now, e.now);
      match e
      case Message(id, t) =>
        AgreeMessage(s, p, f, id, t);
        SameDecisions(s, Next(s, p, e), Next(s, f, e), rest, t);
        assert WithoutCleanups(run) == [e] + WithoutCleanups(rest);
      case Cleanup(t) =>
        AgreeCleanup(s, p, f, t);
        SameDecisions(s, Next(s, p, e), f, rest, t);
        assert WithoutCleanups(run) == WithoutCleanups(rest);
      case Disconnect(id, t) =>
        AgreeDisconnect(s, p, f, id, t);
        SameDecisions(s, Next(s, p, e), Next(s, f, e), rest, t);
        assert WithoutCleanups(run) == [e] + WithoutCleanups(rest);
    }
  }

  lemma AgreeDisconnect(s: Settings, p: Pool, f: Pool, id: string, now: real)
    requires Agree(s, p, f, now)
    ensures Agree(s, Next(s, p, Disconnect(id, now)), Next(s, f, Disconnect(id, now)), now)
  {
  }

  // ----- the condition is exact -----

  /** `n` messages of one connection at one instant. */
  function Messages(id: string, now: real, n: nat): seq<Event> {
    if n == 0 then [] else [Message(id, now)] + Messages(id, now, n - 1)
  }

  lemma {:induction false} MessagesShape(id: string, now: real, n: nat)
    ensures |Messages(id, now, n)| == n && forall i :: 0 <= i < n ==> Messages(id, now, n)[i] == Message(id, now)
    ensures WithoutCleanups(Messages(id, now, n)) == Messages(id, now, n)
  {
    if n != 0 {
      MessagesShape(id, now, n - 1);
    }
  }

  function After(s: Settings, p: Pool, run: seq<Event>): Pool
    decreases |run|
  {
    if run == [] then p else After(s, Next(s, p, run[0]), run[1..])
  }

  lemma {:induction false} TraceConcat(s: Settings, p: Pool, a: seq<Event>, b: seq<Event>)
    ensures Trace(s, p, a + b) == Trace(s, p, a) + Trace(s, After(s, p, a), b)
    decreases |a|
  {
    if a == [] {
      assert a + b == b;
    } else {
      assert (a + b)[1..] == a[1..] + b;
      TraceConcat(s, Next(s, p, a[0]), a[1..], b);
    }
  }

  /** Of `n` messages at one instant the first floor(tokens) are admitted: here, whether the last is. */
  lemma {:induction false} MessagesTrace(s: Settings, p: Pool, id: string, now: real, n: nat)
    requires n > 0 && Sound(s, MeterOf(s, p, id, now), now)
    ensures var t := Trace(s, p, Messages(id, now, n));
            && |t| == n
            && (t[n - 1] <==> Refill(s, MeterOf(s, p, id, now), now) >= n as real)
            && (Refill(s, MeterOf(s, p, id, now), now) >= n as real ==>
                  var q := After(s, p, Messages(id, now, n));
                  id in q && q[id] == Meter(Refill(s, MeterOf(s, p, id, now), now) - n as real, now, now))
    decreases n
  {
    hide Refill, Gain, Burst;
    var m := MeterOf(s, p, id, now);
    var p' := Next(s, p, Message(id, now));
    var m' := Used(s, m, now);
    UsedMeter(s, m, now);
    SameInstant(s, m, now);
    assert Messages(id, now, n)[1..] == Messages(id, now, n - 1);
    if n == 1 {
      assert Trace(s, p', []) == [] && After(s, p', []) == p';
    } else {
      MessagesTrace(s, p', id, now, n - 1);
    }
  }

  lemma SameInstant(s: Settings, m: Meter, now: real)
    requires Sound(s, m, now)
    ensures Refill(s, Used(s, m, now), now) == Refill(s, m, now) - if Admits(s, m, now) then 1.0 else 0.0
  {
    GainGrows(s, 0.0, 0.0);
  }

  /** A burst, then a cleanup `t` seconds later, then another burst. */
  function Probe(s: Settings, t: real): seq<Event> {
    (Messages("c", 0.0, s.burst) + [Cleanup(t)]) + Messages("c", t, s.burst)
  }

  lemma ProbeShape(s: Settings, t: real)
    requires t >= 0.0
    ensures InOrder(Probe(s, t), 0.0)
    ensures WithoutCleanups(Probe(s, t)) == Messages("c", 0.0, s.burst) + Messages("c", t, s.burst)
  {
    MessagesShape("c", 0.0, s.burst);
    MessagesShape("c", t, s.burst);
    WithoutConcat(Messages("c", 0.0, s.burst) + [Cleanup(t)], Messages("c", t, s.burst));
    WithoutConcat(Messages("c", 0.0, s.burst), [Cleanup(t)]);
    assert WithoutCleanups([Cleanup(t)]) == [];
  }

  lemma {:induction false} WithoutConcat(a: seq<Event>, b: seq<Event>)
    ensures WithoutCleanups(a + b) == WithoutCleanups(a) + WithoutCleanups(b)
  {
    if a == [] {
      assert a + b == b;
    } else {
      assert (a + b)[1..] == a[1..] + b;
      WithoutConcat(a[1..], b);
    }
  }

  /** If a bucket idle for `t` is dropped before it is full, its last probe message is admitted
      with the cleanup and denied without. */
  lemma ProbeTells(s: Settings, t: real)
    requires s.burst > 0 && t > s.maxIdle >= 0.0 && Gain(s, t) < Burst(s)
    ensures Trace(s, map[], Probe(s, t)) != Trace(s, map[], WithoutCleanups(Probe(s, t)))
  {
    hide Gain, Refill;
    var first, second := Messages("c", 0.0, s.burst), Messages("c", t, s.burst);
    ProbeShape(s, t);
    FullRefill(s, 0.0);
    FullRefill(s, t);
    FullSound(s, 0.0);
    MessagesTrace(s, map[], "c", 0.0, s.burst);
    var q := After(s, map[], first);
    assert q["c"] == Meter(0.0, 0.0, 0.0);
    TraceConcat(s, map[], first, second);
    TraceConcat(s, map[], first + [Cleanup(t)], second);
    TraceConcat(s, map[], first, [Cleanup(t)]);
    AfterConcat(s, map[], first, [Cleanup(t)]);
    var cleaned := Next(s, q, Cleanup(t));
    assert After(s, q, [Cleanup(t)]) == After(s, cleaned, []) == cleaned;
    assert Trace(s, q, [Cleanup(t)]) == [] + Trace(s, cleaned, []) == [];
    assert "c" !in cleaned;
    FullSound(s, t);
    MessagesTrace(s, cleaned, "c", t, s.burst);
    EmptyRefill(s, t);
    MessagesTrace(s, q, "c", t, s.burst);
    var n := s.burst;
    var with, without := Trace(s, map[], Probe(s, t)), Trace(s, map[], WithoutCleanups(Probe(s, t)));
    assert with[n + n - 1] && !without[n + n - 1];
  }

  lemma {:induction false} AfterConcat(s: Settings, p: Pool, a: seq<Event>, b: seq<Event>)
    ensures After(s, p, a + b) == After(s, After(s, p, a), b)
    decreases |a|
  {
    if a == [] {
      assert a + b == b;
    } else {
      assert (a + b)[1..] == a[1..] + b;
      AfterConcat(s, Next(s, p, a[0]), a[1..], b);
    }
  }

  lemma FullRefill(s: Settings, now: real)
    ensures Refill(s, Full(s, now), now) == Burst(s)
  {
    GainGrows(s, 0.0, 0.0);
  }

  lemma FullSound(s: Settings, now: real)
    ensures Sound(s, Full(s, now), now)
  {
  }

  lemma EmptyRefill(s: Settings, t: real)
    requires Gain(s, t) < Burst(s)
    ensures Refill(s, Meter(0.0, 0.0, 0.0), t) < Burst(s)
  {
    assert t - 0.0 == t;
  }

  ghost predicate Unobservable(s: Settings) {
    forall run :: InOrder(run, 0.0) ==> Trace(s, map[], run) == Trace(s, map[], WithoutCleanups(run))
  }

  /** Dropping idle connections changes no decision in any run exactly when a bucket that may
      be dropped has had the time to fill up. */
  lemma CleanupUnobservableIff(s: Settings)
    requires 0.0 <= s.maxIdle
    ensures Unobservable(s) <==> s.burst as real <= s.rate as real * s.maxIdle
  {
    hide Trace, WithoutCleanups, InOrder;
    Literally(s, s.maxIdle);
    if s.burst as real <= s.rate as real * s.maxIdle {
      forall run | InOrder(run, 0.0) ensures Trace(s, map[], run) == Trace(s, map[], WithoutCleanups(run)) {
        SameDecisions(s, map[], map[], run, 0.0);
      }
    } else {
      var t := Between(s);
      ProbeShape(s, t);
      ProbeTells(s, t);
    }
  }

  /** A moment late enough to be dropped at and too early to be full at. */
  function Between(s: Settings): (t: real)
    requires 0.0 <= s.maxIdle && Gain(s, s.maxIdle) < Burst(s)
    ensures t > s.maxIdle && Gain(s, t) < Burst(s) && s.burst > 0
  {
    var rate := s.rate as real;
    if s.rate == 0 then s.maxIdle + 1.0
    else
      var slack := (s.burst as real - s.maxIdle * rate) / (2.0 * rate);
      assert slack * rate == (s.burst as real - s.maxIdle * rate) / 2.0;
      assert slack > 0.0;
      assert (s.maxIdle + slack) * rate == s.maxIdle * rate + slack * rate;
      s.maxIdle + slack
  }

  // ----- the objects -----

  class WebSocketRateLimiter {
    const settings: Settings
    ghost const owner: string
    var tokens: real
    var lastRefillTime: real

    constructor (settings: Settings, now: real, ghost owner: string)
      ensures this.settings == settings && this.owner == owner
      ensures tokens == settings.burst as real && lastRefillTime == now
    {
      this.settings, this.owner := settings, owner;
      tokens, lastRefillTime := settings.burst as real, now;
    }

    method Allow(now: real) returns (ok: bool)
      modifies this
      ensures var gained := old(tokens) + settings.rate as real * (now - old(lastRefillTime));
              var held := if gained > settings.burst as real then settings.burst as real else gained;
              ok == (held >= 1.0) && tokens == held - (if ok then 1.0 else 0.0) && lastRefillTime == now
      ensures var held := Held(settings, old(tokens), now - old(lastRefillTime));
              ok == (held >= 1.0) && tokens == held - (if ok then 1.0 else 0.0)
    {
      var elapsed := now - lastRefillTime;
      Commutes(elapsed, settings.rate as real);
      tokens := tokens + elapsed * settings.rate as real;
      if tokens > settings.burst as real {
        tokens := settings.burst as real;
      }
      lastRefillTime := now;
      if tokens >= 1.0 {
        tokens := tokens - 1.0;
        return true;
      }
      return false;
    }
  }

  class ConnectionLimiter {
    const limiter: WebSocketRateLimiter
    ghost const owner: string
    var lastActivity: real

    constructor (settings: Settings, now: real, ghost owner: string)
      ensures fresh(limiter) && limiter.settings == settings && View() == Full(settings, now)
      ensures this.owner == limiter.owner == owner
    {
      this.owner := owner;
      limiter := new WebSocketRateLimiter(settings, now, owner);
      lastActivity := now;
    }

    function View(): Meter
      reads this, limiter
    {
      Meter(limiter.tokens, limiter.lastRefillTime, lastActivity)
    }

    method Allow(now: real) returns (ok: bool)
      modifies this, limiter
      ensures ok == Admits(limiter.settings, old(View()), now)
      ensures View() == Used(limiter.settings, old(View()), now)
    {
      hide Admits, Used, Held;
      UsedExactly(limiter.settings, limiter.tokens, limiter.lastRefillTime, lastActivity, now);
      lastActivity := now;
      ok := limiter.Allow(now);
    }
  }

  class Connections {
    const settings: Settings
    var limiters: map<string, ConnectionLimiter>
    ghost var Repr: set<object>

    constructor (settings: Settings)
      ensures this.settings == settings && Valid() && View() == map[]
      ensures Repr == {}
    {
      this.settings, limiters, Repr := settings, map[], {};
    }

    /** Each connection has its own objects. */
    ghost predicate Valid()
      reads this, Repr
    {
      && this !in Repr
      && forall id :: id in limiters ==>
           && limiters[id] in Repr && limiters[id].limiter in Repr
           && limiters[id].limiter.settings == settings
           && limiters[id].owner == limiters[id].limiter.owner == id
    }

    ghost function View(): Pool
      requires Valid()
      reads this, Repr
    {
      map id | id in limiters :: limiters[id].View()
    }

    method GetOrCreateLimiter(id: string, now: real) returns (l: ConnectionLimiter)
      requires Valid()
      modifies this
      ensures Valid() && fresh(Repr - old(Repr))
      ensures id in limiters && l == limiters[id]
      ensures View() == old(View())[id := MeterOf(settings, old(View()), id, now)]
    {
      if id in limiters {
        return limiters[id];
      }
      l := new ConnectionLimiter(settings, now, id);
      limiters := limiters[id := l];
      Repr := Repr + {l, l.limiter};
    }

    /** Asks the limiter of a connection. */
    method Ask(id: string, now: real) returns (ok: bool)
      requires Valid() && id in limiters
      modifies limiters[id], limiters[id].limiter
      ensures Valid()
      ensures ok == Admits(settings, old(View())[id], now)
      ensures View() == old(View())[id := Used(settings, old(View())[id], now)]
    {
      hide Refill, Gain, Burst, Admits, Used, MeterOf, Full;
      ok := limiters[id].Allow(now);
    }

    /** A message handled by a caller that fetches the limiter anew. */
    method HandleMessage(id: string, now: real) returns (ok: bool)
      requires Valid()
      modifies this, Repr
      ensures Valid() && fresh(Repr - old(Repr))
      ensures ok == Admits(settings, MeterOf(settings, old(View()), id, now), now)
      ensures View() == Next(settings, old(View()), Message(id, now))
    {
      hide Refill, Gain, Burst, Admits, Used, MeterOf, Full;
      var _ := GetOrCreateLimiter(id, now);
      ok := Ask(id, now);
    }

    method RemoveLimiter(id: string, now: real)
      requires Valid()
      modifies this`limiters
      ensures Valid()
      ensures View() == Next(settings, old(View()), Disconnect(id, now))
    {
      limiters := limiters - {id};
    }

    /** The connections that stay: the map is ranged over in no particular order. */
    method DropIdle(now: real) returns (kept: map<string, ConnectionLimiter>)
      ensures forall id :: id in kept <==> id in limiters && now - limiters[id].lastActivity <= settings.maxIdle
      ensures forall id :: id in kept ==> kept[id] == limiters[id]
    {
      kept := limiters;
      var todo := limiters.Keys;
      while todo != {}
        invariant forall id :: id in todo ==> id in limiters && id in kept
        invariant forall id :: id in kept ==> id in limiters && kept[id] == limiters[id]
        invariant forall id :: id in limiters ==>
                    (id in kept <==> id in todo || now - limiters[id].lastActivity <= settings.maxIdle)
        decreases |todo|
      {
        var id :| id in todo;
        if Idle(settings, kept[id].lastActivity, now) {
          kept := kept - {id};
        }
        todo := todo - {id};
      }
    }

    /** One tick of the cleanup goroutine. */
    method CleanupIdleConnections(now: real)
      requires Valid()
      modifies this`limiters
      ensures Valid()
      ensures View() == Next(settings, old(View()), Cleanup(now))
      ensures forall id :: id in limiters <==> id in old(limiters) && now - old(limiters[id].lastActivity) <= settings.maxIdle
    {
      hide Refill, Gain, Burst, Admits, Used, MeterOf;
      limiters := DropIdle(now);
    }
  }
}

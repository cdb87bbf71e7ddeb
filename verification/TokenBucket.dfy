// The token bucket central-service keeps in Redis: one hash per identifier, refilled
// on use by elapsed seconds and expiring 60 seconds after the last admitted request.
// Every limiter builds the same key for an address, so they all share one bucket.

module TokenBucket {
  import opened Common

  const TTL := 60

  datatype Limiter = Limiter(rate: nat, burst: nat)

  /** The stored hash and the time, if any, at which Redis drops it. */
  datatype Bucket = Bucket(tokens: int, updated: int, expiry: Option<int>)

  /** The hash as a command at `now` sees it. */
  function Live(b: Option<Bucket>, now: int): Option<Bucket> {
    if b.Some? && (b.value.expiry == None || now < b.value.expiry.value) then b else None
  }

  function Max(a: int, b: int): int { if a < b then b else a }

  function Min(a: int, b: int): int { if a < b then a else b }

  /** Tokens after the refill: a missing hash counts as a full bucket. */
  function Refilled(b: Option<Bucket>, limiter: Limiter, now: int): int {
    var live := Live(b, now);
    var tokens := if live.Some? then live.value.tokens else limiter.burst;
    var updated := if live.Some? then live.value.updated else now;
    Min(limiter.burst, tokens + Max(0, now - updated) * limiter.rate)
  }

  predicate Admits(b: Option<Bucket>, limiter: Limiter, now: int) {
    Refilled(b, limiter, now) >= 1
  }

  function Expiry(now: int, ttl: Option<nat>): Option<int> {
    if ttl.Some? then Some(now + ttl.value) else None
  }

  /** A denied request writes nothing. Without a `ttl` the hash never expires. */
  function Next(b: Option<Bucket>, limiter: Limiter, now: int, ttl: Option<nat>): Option<Bucket> {
    if Admits(b, limiter, now) then Some(Bucket(Refilled(b, limiter, now) - 1, now, Expiry(now, ttl))) else Live(b, now)
  }

  datatype Request = Request(limiter: Limiter, now: int)

  /** The bucket after a run of requests. */
  function After(b: Option<Bucket>, run: seq<Request>, ttl: Option<nat>): Option<Bucket>
    decreases |run|
  {
    if run == [] then b else After(Next(b, run[0].limiter, run[0].now, ttl), run[1..], ttl)
  }

  function Trace(b: Option<Bucket>, run: seq<Request>, ttl: Option<nat>): seq<bool>
    decreases |run|
  {
    if run == [] then []
    else [Admits(b, run[0].limiter, run[0].now)] + Trace(Next(b, run[0].limiter, run[0].now, ttl), run[1..], ttl)
  }

  /** Admitted requests stamped `from` to `to`. */
  function Admitted(b: Option<Bucket>, run: seq<Request>, ttl: Option<nat>, from: int, to: int): nat
    decreases |run|
  {
    if run == [] then 0
    else
      var r := run[0];
      (if Admits(b, r.limiter, r.now) && from <= r.now <= to then 1 else 0)
      + Admitted(Next(b, r.limiter, r.now, ttl), run[1..], ttl, from, to)
  }

  /** The clock never runs backwards. */
  predicate Monotone(run: seq<Request>) {
    forall i, j :: 0 <= i < j < |run| ==> run[i].now <= run[j].now
  }

  predicate NotBefore(run: seq<Request>, now: int) {
    forall i :: 0 <= i < |run| ==> now <= run[i].now
  }

  predicate Within(run: seq<Request>, top: Limiter) {
    forall i :: 0 <= i < |run| ==> run[i].limiter.rate <= top.rate && run[i].limiter.burst <= top.burst
  }

  /** A bucket some run could have left behind by time `now`. */
  predicate Possible(b: Option<Bucket>, top: Limiter, now: int, ttl: Option<nat>) {
    b.Some? ==> 0 <= b.value.tokens <= Max(0, top.burst - 1) && b.value.updated <= now && b.value.expiry == Expiry(b.value.updated, ttl)
  }

  /** The most tokens any limiter within `top` could find in the bucket at `now`. */
  function Available(b: Option<Bucket>, top: Limiter, now: int): int {
    Refilled(b, top, now)
  }

  /** A bucket left alone until it expires would be full by then. */
  predicate Covers(limiter: Limiter, ttl: Option<nat>) {
    ttl.Some? ==> 0 < ttl.value && limiter.burst <= ttl.value * limiter.rate
  }

  lemma MulLe(a: int, b: int, c: int)
    requires a <= b && 0 <= c
    ensures a * c <= b * c
  {
  }

  /** Waiting adds at most the top rate, if by the time a bucket expires it would be full. */
  lemma AvailableGrows(b: Option<Bucket>, top: Limiter, now: int, later: int, ttl: Option<nat>)
    requires Possible(b, top, now, ttl) && now <= later && Covers(top, ttl)
    ensures 0 <= Available(b, top, now) <= top.burst
    ensures Available(b, top, later) <= Available(b, top, now) + top.rate * (later - now)
  {
    if b.Some? {
      var t := b.value;
      MulLe(0, now - t.updated, top.rate);
      assert (later - t.updated) * top.rate == (now - t.updated) * top.rate + (later - now) * top.rate;
      MulLe(0, later - now, top.rate);
      if t.expiry.Some? && now < t.expiry.value <= later {
        MulLe(ttl.value, later - t.updated, top.rate);
      }
    } else {
      MulLe(0, later - now, top.rate);
    }
  }

  /** An admitted request costs at least one available token, whichever limiter let it in. */
  lemma AvailableStep(b: Option<Bucket>, top: Limiter, r: Request, ttl: Option<nat>)
    requires Possible(b, top, r.now, ttl)
    requires r.limiter.rate <= top.rate && r.limiter.burst <= top.burst && Covers(top, ttl)
    ensures Possible(Next(b, r.limiter, r.now, ttl), top, r.now, ttl)
    ensures Available(Next(b, r.limiter, r.now, ttl), top, r.now)
            <= Available(b, top, r.now) - if Admits(b, r.limiter, r.now) then 1 else 0
  {
    if b.Some? {
      assert Max(0, r.now - b.value.updated) * r.limiter.rate <= Max(0, r.now - b.value.updated) * top.rate by {
        MulLe(r.limiter.rate, top.rate, Max(0, r.now - b.value.updated));
      }
    }
  }

  /** From time `now` on, what can still be admitted up to `to`. */
  lemma {:induction false} AdmittedFrom(b: Option<Bucket>, run: seq<Request>, top: Limiter, now: int, to: int, ttl: Option<nat>)
    requires Possible(b, top, now, ttl) && NotBefore(run, now) && Monotone(run) && Within(run, top)
    requires Covers(top, ttl) && now <= to
    ensures Admitted(b, run, ttl, now, to) <= Available(b, top, now) + top.rate * (to - now)
    decreases |run|
  {
    hide Next, Admits, Refilled, Covers;
    if run == [] || to < run[0].now {
      AvailableGrows(b, top, now, now, ttl);
      NoneAdmitted(b, run, ttl, now, to);
      Scaled(top.rate, 0, to - now);
    } else {
      var r := run[0];
      var b' := Next(b, r.limiter, r.now, ttl);
      AvailableGrows(b, top, now, r.now, ttl);
      AvailableStep(b, top, r, ttl);
      AdmittedFrom(b', run[1..], top, r.now, to, ttl);
      AdmittedLater(b', run[1..], ttl, now, r.now, to);
      Split(top.rate, r.now - now, to - r.now);
    }
  }

  lemma Split(rate: nat, a: int, b: int)
    ensures rate * (a + b) == rate * a + rate * b
  {
  }

  lemma {:induction false} AdmittedLater(b: Option<Bucket>, run: seq<Request>, ttl: Option<nat>, from: int, from': int, to: int)
    requires from <= from' && NotBefore(run, from')
    ensures Admitted(b, run, ttl, from, to) == Admitted(b, run, ttl, from', to)
    decreases |run|
  {
    if run != [] {
      AdmittedLater(Next(b, run[0].limiter, run[0].now, ttl), run[1..], ttl, from, from', to);
    }
  }

  lemma {:induction false} NoneAdmitted(b: Option<Bucket>, run: seq<Request>, ttl: Option<nat>, from: int, to: int)
    requires NotBefore(run, to + 1)
    ensures Admitted(b, run, ttl, from, to) == 0
    decreases |run|
  {
    if run != [] {
      NoneAdmitted(Next(b, run[0].limiter, run[0].now, ttl), run[1..], ttl, from, to);
    }
  }

  /** However the limiters sharing a bucket interleave, an interval admits at most the
      largest burst plus the largest rate times its length. */
  lemma {:induction false} SharedBucketBound(b: Option<Bucket>, run: seq<Request>, top: Limiter, start: int, from: int, to: int, ttl: Option<nat>)
    requires Possible(b, top, start, ttl) && NotBefore(run, start) && Monotone(run) && Within(run, top)
    requires Covers(top, ttl) && from <= to
    ensures Admitted(b, run, ttl, from, to) <= top.burst + top.rate * (to - from)
    decreases |run|
  {
    hide Next, Admits, Refilled;
    if run == [] || to < run[0].now {
      NoneAdmitted(b, run, ttl, from, to);
      Scaled(top.rate, 0, to - from);
    } else if run[0].now < from {
      var r := run[0];
      AvailableStep(b, top, r, ttl);
      SharedBucketBound(Next(b, r.limiter, r.now, ttl), run[1..], top, r.now, from, to, ttl);
    } else {
      BoundFromFirst(b, run, top, from, to, ttl);
    }
  }

  lemma Scaled(rate: nat, a: int, b: int)
    requires 0 <= a <= b
    ensures 0 <= rate * a <= rate * b
  {
  }

  lemma BoundFromFirst(b: Option<Bucket>, run: seq<Request>, top: Limiter, from: int, to: int, ttl: Option<nat>)
    requires run != [] && from <= run[0].now <= to && Possible(b, top, run[0].now, ttl)
    requires Monotone(run) && Within(run, top) && Covers(top, ttl)
    ensures Admitted(b, run, ttl, from, to) <= top.burst + top.rate * (to - from)
  {
    hide Next, Admits, Refilled, Admitted;
    var now := run[0].now;
    AvailableGrows(b, top, now, now, ttl);
    AdmittedFrom(b, run, top, now, to, ttl);
    AdmittedLater(b, run, ttl, from, now, to);
    Scaled(top.rate, to - now, to - from);
  }

  predicate TokensWithin(b: Option<Bucket>, top: Limiter) {
    b.Some? ==> 0 <= b.value.tokens <= Max(0, top.burst - 1)
  }

  lemma TokensStep(b: Option<Bucket>, top: Limiter, r: Request, ttl: Option<nat>)
    requires TokensWithin(b, top) && r.limiter.rate <= top.rate && r.limiter.burst <= top.burst
    ensures TokensWithin(Next(b, r.limiter, r.now, ttl), top)
  {
  }

  /** In every run, whatever the time to live and even if the clock jumps back, the stored tokens
      stay between 0 and the largest burst less the one just taken. */
  lemma {:induction false} TokensInRange(b: Option<Bucket>, run: seq<Request>, top: Limiter, ttl: Option<nat>)
    requires TokensWithin(b, top) && Within(run, top)
    ensures TokensWithin(After(b, run, ttl), top)
    decreases |run|
  {
    hide Next, TokensWithin;
    if run != [] {
      TokensStep(b, top, run[0], ttl);
      TokensInRange(Next(b, run[0].limiter, run[0].now, ttl), run[1..], top, ttl);
    }
  }

  // ----- the condition is exact -----

  /** `n` requests of one limiter at one instant. */
  function Burst(limiter: Limiter, now: int, n: nat): seq<Request> {
    if n == 0 then [] else [Request(limiter, now)] + Burst(limiter, now, n - 1)
  }

  lemma {:induction false} BurstShape(limiter: Limiter, now: int, n: nat)
    ensures |Burst(limiter, now, n)| == n
    ensures forall i :: 0 <= i < n ==> Burst(limiter, now, n)[i] == Request(limiter, now)
  {
    if n != 0 {
      BurstShape(limiter, now, n - 1);
    }
  }

  lemma SameInstant(b: Option<Bucket>, limiter: Limiter, now: int, ttl: Option<nat>)
    requires Admits(b, limiter, now) && (ttl.Some? ==> 0 < ttl.value)
    ensures Refilled(Next(b, limiter, now, ttl), limiter, now) == Refilled(b, limiter, now) - 1
  {
  }

  /** A burst takes as many tokens as there are. */
  lemma {:induction false} BurstAdmitted(b: Option<Bucket>, limiter: Limiter, now: int, n: nat, ttl: Option<nat>, from: int, to: int)
    requires n <= Refilled(b, limiter, now) && from <= now <= to && (ttl.Some? ==> 0 < ttl.value)
    ensures Admitted(b, Burst(limiter, now, n), ttl, from, to) == n
    ensures n > 0 ==> After(b, Burst(limiter, now, n), ttl)
                      == Some(Bucket(Refilled(b, limiter, now) - n, now, Expiry(now, ttl)))
    decreases n
  {
    hide Refilled;
    if n != 0 {
      var b' := Next(b, limiter, now, ttl);
      SameInstant(b, limiter, now, ttl);
      BurstAdmitted(b', limiter, now, n - 1, ttl, from, to);
      assert Burst(limiter, now, n)[1..] == Burst(limiter, now, n - 1);
      assert After(b', [], ttl) == b';
    }
  }

  lemma {:induction false} BurstExactly(b: Option<Bucket>, limiter: Limiter, now: int, n: nat, ttl: Option<nat>)
    requires 0 <= Refilled(b, limiter, now) && (ttl.Some? ==> 0 < ttl.value)
    ensures Admitted(b, Burst(limiter, now, n), ttl, now, now) == Min(n, Refilled(b, limiter, now))
    decreases n
  {
    hide Refilled;
    if n != 0 {
      var b' := Next(b, limiter, now, ttl);
      if Admits(b, limiter, now) {
        SameInstant(b, limiter, now, ttl);
      } else {
        DeniedRefill(b, limiter, now);
      }
      BurstExactly(b', limiter, now, n - 1, ttl);
      assert Burst(limiter, now, n)[1..] == Burst(limiter, now, n - 1);
    }
  }

  lemma DeniedRefill(b: Option<Bucket>, limiter: Limiter, now: int)
    ensures Refilled(Live(b, now), limiter, now) == Refilled(b, limiter, now)
  {
  }

  /** An emptied bucket left alone for `d` seconds short of its expiry admits exactly rate times
      `d` requests at once, or the burst if that is less. */
  lemma RefillsExactly(limiter: Limiter, emptied: int, d: nat, n: nat, ttl: nat)
    requires d < ttl && limiter.burst <= n
    ensures Admitted(Some(Bucket(0, emptied, Some(emptied + ttl))), Burst(limiter, emptied + d, n), Some(ttl), emptied + d, emptied + d)
            == if limiter.burst <= limiter.rate * d then limiter.burst else limiter.rate * d
  {
    hide Admitted, Burst, Admits, Next;
    var b := Some(Bucket(0, emptied, Some(emptied + ttl)));
    EmptiedRefill(limiter, emptied, d, ttl);
    hide Refilled;
    BurstExactly(b, limiter, emptied + d, n, Some(ttl));
  }

  lemma EmptiedRefill(limiter: Limiter, emptied: int, d: nat, ttl: nat)
    requires d < ttl
    ensures Refilled(Some(Bucket(0, emptied, Some(emptied + ttl))), limiter, emptied + d) == Min(limiter.burst, limiter.rate * d)
    ensures limiter.rate * d >= 0
  {
    var elapsed := Max(0, emptied + d - emptied);
    assert elapsed == d;
    assert elapsed * limiter.rate == limiter.rate * d;
  }

  lemma {:induction false} AdmittedConcat(b: Option<Bucket>, run: seq<Request>, rest: seq<Request>, ttl: Option<nat>, from: int, to: int)
    ensures Admitted(b, run + rest, ttl, from, to)
            == Admitted(b, run, ttl, from, to) + Admitted(After(b, run, ttl), rest, ttl, from, to)
    decreases |run|
  {
    if run == [] {
      assert run + rest == rest;
    } else {
      assert (run + rest)[1..] == run[1..] + rest;
      AdmittedConcat(Next(b, run[0].limiter, run[0].now, ttl), run[1..], rest, ttl, from, to);
    }
  }

  /** Two bursts, the second just as the first one's hash expires. */
  function TwoBursts(top: Limiter, ttl: nat): seq<Request> {
    Burst(top, 0, top.burst) + Burst(top, ttl, top.burst)
  }

  lemma TwoBurstsAdmitted(top: Limiter, ttl: nat)
    requires 0 < ttl && 0 < top.burst
    ensures Admitted(None, TwoBursts(top, ttl), Some(ttl), 0, ttl) == 2 * top.burst
    ensures Monotone(TwoBursts(top, ttl)) && NotBefore(TwoBursts(top, ttl), 0) && Within(TwoBursts(top, ttl), top)
    ensures forall i :: 0 <= i < |TwoBursts(top, ttl)| ==> TwoBursts(top, ttl)[i].limiter == top
  {
    var first := Burst(top, 0, top.burst);
    var second := Burst(top, ttl, top.burst);
    BurstShape(top, 0, top.burst);
    BurstShape(top, ttl, top.burst);
    BurstAdmitted(None, top, 0, top.burst, Some(ttl), 0, ttl);
    BurstAdmitted(After(None, first, Some(ttl)), top, ttl, top.burst, Some(ttl), 0, ttl);
    AdmittedConcat(None, first, second, Some(ttl), 0, ttl);
  }

  ghost predicate Bounded(top: Limiter, ttl: nat) {
    forall run: seq<Request>, from: int, to: int :: Monotone(run) && Within(run, top) && from <= to ==>
      Admitted(None, run, Some(ttl), from, to) <= top.burst + top.rate * (to - from)
  }

  /** The interval bound holds for every run exactly when a bucket left alone until it
      expires would have filled up. */
  lemma BoundIff(top: Limiter, ttl: nat)
    requires 0 < ttl
    ensures Bounded(top, ttl) <==> top.burst <= ttl * top.rate
  {
    if top.burst <= ttl * top.rate {
      forall run: seq<Request>, from: int, to: int | Monotone(run) && Within(run, top) && from <= to
        ensures Admitted(None, run, Some(ttl), from, to) <= top.burst + top.rate * (to - from)
      {
        var start := if run == [] then 0 else run[0].now;
        SharedBucketBound(None, run, top, start, from, to, Some(ttl));
      }
    } else {
      TwoBurstsAdmitted(top, ttl);
      assert Admitted(None, TwoBursts(top, ttl), Some(ttl), 0, ttl) > top.burst + top.rate * (ttl - 0);
    }
  }

  /** The three services' limiters, their shared bucket and its 60 seconds. */
  const DEPLOYED := [Limiter(100, 150), Limiter(10, 20), Limiter(2, 5), Limiter(1, 3)]

  /** As deployed, no client gets more than 150 requests plus 100 a second past the limiters. */
  lemma DeployedBound(run: seq<Request>, from: int, to: int)
    requires Monotone(run) && from <= to && forall i :: 0 <= i < |run| ==> run[i].limiter in DEPLOYED
    ensures Admitted(None, run, Some(TTL), from, to) <= 150 + 100 * (to - from)
  {
    BoundIff(Limiter(100, 150), TTL);
    assert Within(run, Limiter(100, 150));
  }

  // ----- expiry cannot be observed -----

  predicate Single(run: seq<Request>, limiter: Limiter) {
    forall i :: 0 <= i < |run| ==> run[i].limiter == limiter
  }

  /** `b` expires after `ttl`, `f` never; both come from the same run. */
  predicate Agree(b: Option<Bucket>, f: Option<Bucket>, now: int, ttl: nat) {
    match f
    case None => b == None
    case Some(t) =>
      && 0 <= t.tokens && t.updated <= now && t.expiry == None
      && (b == Some(t.(expiry := Some(t.updated + ttl))) || (b == None && t.updated + ttl <= now))
  }

  lemma AgreeRefilled(b: Option<Bucket>, f: Option<Bucket>, now: int, ttl: nat, limiter: Limiter)
    requires Agree(b, f, now, ttl) && limiter.burst <= ttl * limiter.rate
    ensures Refilled(b, limiter, now) == Refilled(f, limiter, now)
  {
    if f.Some? && f.value.updated + ttl <= now {
      MulLe(ttl, now - f.value.updated, limiter.rate);
    }
  }

  lemma {:induction false} SameTrace(b: Option<Bucket>, f: Option<Bucket>, run: seq<Request>, now: int, ttl: nat, limiter: Limiter)
    requires Agree(b, f, now, ttl) && NotBefore(run, now) && Monotone(run) && Single(run, limiter)
    requires limiter.burst <= ttl * limiter.rate
    ensures Trace(b, run, Some(ttl)) == Trace(f, run, None)
    decreases |run|
  {
    if run != [] {
      var later := run[0].now;
      AgreeRefilled(b, f, later, ttl, limiter);
      SameTrace(Next(b, limiter, later, Some(ttl)), Next(f, limiter, later, None), run[1..], later, ttl, limiter);
    }
  }

  lemma {:induction false} TraceCounts(b: Option<Bucket>, f: Option<Bucket>, run: seq<Request>,
                                       t1: Option<nat>, t2: Option<nat>, from: int, to: int)
    requires Trace(b, run, t1) == Trace(f, run, t2)
    ensures Admitted(b, run, t1, from, to) == Admitted(f, run, t2, from, to)
    decreases |run|
  {
    if run != [] {
      var r := run[0];
      assert Trace(b, run, t1)[0] == Trace(f, run, t2)[0];
      assert Trace(b, run, t1)[1..] == Trace(f, run, t2)[1..];
      TraceCounts(Next(b, r.limiter, r.now, t1), Next(f, r.limiter, r.now, t2), run[1..], t1, t2, from, to);
    }
  }

  ghost predicate Unobservable(limiter: Limiter, ttl: nat) {
    forall run: seq<Request> :: Monotone(run) && Single(run, limiter) ==> Trace(None, run, Some(ttl)) == Trace(None, run, None)
  }

  /** One limiter decides every request of every run as it would without expiry exactly when
      the time to live is enough to refill a whole burst. */
  lemma ExpiryUnobservableIff(limiter: Limiter, ttl: nat)
    requires 0 < ttl
    ensures Unobservable(limiter, ttl) <==> limiter.burst <= ttl * limiter.rate
  {
    if limiter.burst <= ttl * limiter.rate {
      forall run: seq<Request> | Monotone(run) && Single(run, limiter) ensures Trace(None, run, Some(ttl)) == Trace(None, run, None) {
        SameTrace(None, None, run, if run == [] then 0 else run[0].now, ttl, limiter);
      }
    } else {
      TwoBurstsAdmitted(limiter, ttl);
      var run := TwoBursts(limiter, ttl);
      if Trace(None, run, Some(ttl)) == Trace(None, run, None) {
        TraceCounts(None, None, run, Some(ttl), None, 0, ttl);
        SharedBucketBound(None, run, limiter, 0, 0, ttl, None);
      }
    }
  }

  // ----- the limiter objects -----

  datatype Verdict = Allowed | Denied | NoIdentifier

  class RateLimiters {
    var buckets: map<string, Bucket>

    constructor ()
      ensures buckets == map[]
    {
      buckets := map[];
    }

    function BucketOf(identifier: string): Option<Bucket>
      reads this
    {
      if identifier in buckets then Some(buckets[identifier]) else None
    }

    method Allow(limiter: Limiter, identifier: string, now: int) returns (v: Verdict)
      modifies this
      ensures v == if identifier == "" then NoIdentifier
                   else if Admits(old(BucketOf(identifier)), limiter, now) then Allowed else Denied
      ensures v != NoIdentifier ==> BucketOf(identifier) == Next(old(BucketOf(identifier)), limiter, now, Some(TTL))
      ensures forall other :: other != identifier ==> BucketOf(other) == old(BucketOf(other))
      ensures v == NoIdentifier ==> buckets == old(buckets)
      ensures v == Allowed ==> identifier in buckets && buckets[identifier].expiry == Some(now + 60)
      ensures v == Denied && identifier in buckets ==> old(buckets) == buckets
    {
      if identifier == "" {
        return NoIdentifier;
      }
      var live := Live(BucketOf(identifier), now);
      if live == None {
        buckets := buckets - {identifier};
      }
      var tokens := if live.Some? then live.value.tokens else limiter.burst;
      var updated := if live.Some? then live.value.updated else now;
      var delta := Max(0, now - updated);
      tokens := Min(limiter.burst, tokens + delta * limiter.rate);
      if tokens < 1 {
        return Denied;
      }
      buckets := buckets[identifier := Bucket(tokens - 1, now, Some(now + TTL))];
      return Allowed;
    }

    /** The global limiter first, then the endpoint's own if there is one; both on the same key,
        so a request that passes the first has spent a token even when the second denies it. */
    method AllowRequest(global: Limiter, endpoint: Option<Limiter>, address: string, now: int) returns (v: Verdict)
      modifies this
      ensures var key := "ip:" + address;
              var run := [Request(global, now)] + if endpoint.Some? then [Request(endpoint.value, now)] else [];
              var first := Admits(old(BucketOf(key)), global, now);
              var spent := if first then run else run[..1];
              && BucketOf(key) == After(old(BucketOf(key)), spent, Some(TTL))
              && (v == Allowed <==> false !in Trace(old(BucketOf(key)), run, Some(TTL)))
    {
      var key := "ip:" + address;
      ghost var b := BucketOf(key);
      v := Allow(global, key, now);
      ghost var b1 := BucketOf(key);
      assert After(b, [Request(global, now)], Some(TTL)) == After(b1, [], Some(TTL)) == b1;
      if v == Allowed && endpoint.Some? {
        v := Allow(endpoint.value, key, now);
        ghost var b2 := BucketOf(key);
        ghost var r1, r2 := Request(global, now), Request(endpoint.value, now);
        assert [r1, r2][1..] == [r2] && [r2][1..] == [];
        assert After(b1, [r2], Some(TTL)) == After(b2, [], Some(TTL)) == b2;
        assert [r1] + [r2] == [r1, r2];
        assert Trace(b1, [r2], Some(TTL)) == [Admits(b1, endpoint.value, now)];
      }
    }
  }
}

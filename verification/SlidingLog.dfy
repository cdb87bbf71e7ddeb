// The gateway's in-process limiter: for each client a log of admission times, pruned to
// the window on every request and by a periodic cleanup.

module SlidingLog {

  datatype Settings = Settings(limit: nat, window: nat)

  /** Admission times per client, oldest first. */
  type Log = map<string, seq<int>>

  function Recent(times: seq<int>, now: int, window: nat): seq<int> {
    if times == [] then []
    else (if now - times[0] < window then [times[0]] else []) + Recent(times[1..], now, window)
  }

  function TimesOf(log: Log, client: string): seq<int> {
    if client in log then log[client] else []
  }

  predicate Admits(s: Settings, log: Log, client: string, now: int) {
    |Recent(TimesOf(log, client), now, s.window)| < s.limit
  }

  datatype Event = Request(client: string, now: int) | Cleanup(now: int)

  function Next(s: Settings, log: Log, e: Event): Log {
    match e
    case Request(client, now) =>
      var valid := Recent(TimesOf(log, client), now, s.window);
      log[client := if Admits(s, log, client, now) then valid + [now] else valid]
    case Cleanup(now) =>
      map client | client in log && Recent(log[client], now, s.window) != [] :: Recent(log[client], now, s.window)
  }

  /** The times at which `client` was admitted in a run, in order. */
  function Admissions(s: Settings, log: Log, run: seq<Event>, client: string): seq<int>
    decreases |run|
  {
    if run == [] then []
    else (if run[0].Request? && run[0].client == client && Admits(s, log, client, run[0].now) then [run[0].now] else [])
         + Admissions(s, Next(s, log, run[0]), run[1..], client)
  }

  function Decisions(s: Settings, log: Log, run: seq<Event>): seq<bool>
    decreases |run|
  {
    if run == [] then []
    else (if run[0].Request? then [Admits(s, log, run[0].client, run[0].now)] else [])
         + Decisions(s, Next(s, log, run[0]), run[1..])
  }

  predicate InOrder(run: seq<Event>, now: int) {
    && (forall i :: 0 <= i < |run| ==> now <= run[i].now)
    && (forall i, j :: 0 <= i < j < |run| ==> run[i].now <= run[j].now)
  }

  /** How many of `times` lie in (after, upTo]. */
  function CountIn(times: seq<int>, after: int, upTo: int): nat {
    if times == [] then 0 else (if after < times[0] <= upTo then 1 else 0) + CountIn(times[1..], after, upTo)
  }

  // ----- pruning -----

  lemma {:induction false} RecentTwice(times: seq<int>, earlier: int, now: int, window: nat)
    requires earlier <= now
    ensures Recent(Recent(times, earlier, window), now, window) == Recent(times, now, window)
  {
    if times != [] {
      RecentTwice(times[1..], earlier, now, window);
      RecentConcat(if earlier - times[0] < window then [times[0]] else [], Recent(times[1..], earlier, window), now, window);
    }
  }

  lemma {:induction false} RecentConcat(a: seq<int>, b: seq<int>, now: int, window: nat)
    ensures Recent(a + b, now, window) == Recent(a, now, window) + Recent(b, now, window)
  {
    if a == [] {
      assert a + b == b;
    } else {
      assert (a + b)[1..] == a[1..] + b;
      RecentConcat(a[1..], b, now, window);
    }
  }

  /** The two logs show the same recent times to anybody who asks at `now` or later. */
  ghost predicate SameView(s: Settings, log: Log, log': Log, now: int) {
    forall client, later :: now <= later ==>
      Recent(TimesOf(log, client), later, s.window) == Recent(TimesOf(log', client), later, s.window)
  }

  lemma CleanupSameView(s: Settings, log: Log, log': Log, now: int)
    requires SameView(s, log, log', now)
    ensures SameView(s, Next(s, log, Cleanup(now)), log', now)
  {
    forall client, later | now <= later
      ensures Recent(TimesOf(Next(s, log, Cleanup(now)), client), later, s.window)
           == Recent(TimesOf(log', client), later, s.window)
    {
      RecentTwice(TimesOf(log, client), now, later, s.window);
      assert Recent([], later, s.window) == [];
    }
  }

  lemma RequestSameView(s: Settings, log: Log, log': Log, client: string, now: int)
    requires SameView(s, log, log', now)
    ensures Admits(s, log, client, now) == Admits(s, log', client, now)
    ensures SameView(s, Next(s, log, Request(client, now)), Next(s, log', Request(client, now)), now)
  {
    var next, next' := Next(s, log, Request(client, now)), Next(s, log', Request(client, now));
    forall other, later | now <= later
      ensures Recent(TimesOf(next, other), later, s.window) == Recent(TimesOf(next', other), later, s.window)
    {
      if other == client {
        assert TimesOf(next, other) == TimesOf(next', other);
      } else {
        assert TimesOf(next, other) == TimesOf(log, other) && TimesOf(next', other) == TimesOf(log', other);
      }
    }
  }

  function WithoutCleanups(run: seq<Event>): seq<Event> {
    if run == [] then [] else (if run[0].Cleanup? then [] else [run[0]]) + WithoutCleanups(run[1..])
  }

  /** The periodic cleanup never changes a decision, whenever it runs. */
  lemma {:induction false} CleanupUnobservable(s: Settings, log: Log, log': Log, run: seq<Event>, now: int)
    requires SameView(s, log, log', now) && InOrder(run, now)
    ensures Decisions(s, log, run) == Decisions(s, log', WithoutCleanups(run))
    decreases |run|
  {
    hide Admits;
    if run != [] {
      var e := run[0];
      SameViewLater(s, log, log', now, e.now);
      match e
      case Request(client, t) =>
        RequestSameView(s, log, log', client, t);
        CleanupUnobservable(s, Next(s, log, e), Next(s, log', e), run[1..], t);
        assert WithoutCleanups(run) == [e] + WithoutCleanups(run[1..]);
      case Cleanup(t) =>
        CleanupSameView(s, log, log', t);
        CleanupUnobservable(s, Next(s, log, e), log', run[1..], t);
        assert WithoutCleanups(run) == WithoutCleanups(run[1..]);
    }
  }

  lemma SameViewLater(s: Settings, log: Log, log': Log, now: int, later: int)
    requires SameView(s, log, log', now) && now <= later
    ensures SameView(s, log, log', later)
  {
  }

  // ----- the bound -----

  /** `past` lists the client's admissions so far: what the log shows is the recent ones. */
  ghost predicate Remembers(s: Settings, log: Log, client: string, past: seq<int>, now: int) {
    && (forall i :: 0 <= i < |past| ==> past[i] <= now)
    && (forall later :: now <= later ==> Recent(TimesOf(log, client), later, s.window) == Recent(past, later, s.window))
  }

  lemma RemembersStep(s: Settings, log: Log, client: string, past: seq<int>, now: int, e: Event)
    requires Remembers(s, log, client, past, now) && now <= e.now
    ensures var admitted := e.Request? && e.client == client && Admits(s, log, client, e.now);
            Remembers(s, Next(s, log, e), client, past + if admitted then [e.now] else [], e.now)
  {
    var admitted := e.Request? && e.client == client && Admits(s, log, client, e.now);
    var times := TimesOf(log, client);
    forall later | e.now <= later
      ensures Recent(TimesOf(Next(s, log, e), client), later, s.window)
           == Recent(past + if admitted then [e.now] else [], later, s.window)
    {
      RecentTwice(times, e.now, later, s.window);
      RecentConcat(past, [e.now], later, s.window);
      RecentConcat(Recent(times, e.now, s.window), [e.now], later, s.window);
      assert past + [] == past;
    }
  }

  /** Just after an admission the window behind it holds at most `limit` admissions. */
  lemma {:induction false} CountRecent(times: seq<int>, now: int, window: nat)
    requires forall i :: 0 <= i < |times| ==> times[i] <= now
    ensures CountIn(times, now - window, now) == |Recent(times, now, window)|
  {
    if times != [] {
      CountRecent(times[1..], now, window);
    }
  }

  lemma {:induction false} CountConcat(a: seq<int>, b: seq<int>, after: int, upTo: int)
    ensures CountIn(a + b, after, upTo) == CountIn(a, after, upTo) + CountIn(b, after, upTo)
  {
    if a == [] {
      assert a + b == b;
    } else {
      assert (a + b)[1..] == a[1..] + b;
      CountConcat(a[1..], b, after, upTo);
    }
  }

  lemma {:induction false} CountNarrower(times: seq<int>, after: int, upTo: int, now: int, window: nat)
    requires upTo == after + window && after < now <= upTo
    requires forall i :: 0 <= i < |times| ==> times[i] <= now
    ensures CountIn(times, after, upTo) <= CountIn(times, now - window, now)
  {
    if times != [] {
      CountNarrower(times[1..], after, upTo, now, window);
    }
  }

  /** In every run, with cleanups anywhere, a client is admitted at most `limit` times in every
      interval (after, after + window], `past` being its admissions before the run. */
  lemma {:induction false} WindowBound(s: Settings, log: Log, client: string, past: seq<int>, now: int, run: seq<Event>, after: int)
    requires Remembers(s, log, client, past, now) && InOrder(run, now)
    requires CountIn(past, after, after + s.window) <= s.limit
    ensures CountIn(past + Admissions(s, log, run, client), after, after + s.window) <= s.limit
    decreases |run|
  {
    hide Recent, CountIn, Remembers, Admits;
    if run == [] {
      assert past + [] == past;
    } else {
      var e := run[0];
      var admitted := if e.Request? && e.client == client && Admits(s, log, client, e.now) then [e.now] else [];
      RemembersStep(s, log, client, past, now, e);
      if admitted != [] {
        AdmissionFits(s, log, client, past, now, e.now, after);
      } else {
        assert past + admitted == past;
      }
      WindowBound(s, Next(s, log, e), client, past + admitted, e.now, run[1..], after);
      assert past + Admissions(s, log, run, client)
          == (past + admitted) + Admissions(s, Next(s, log, e), run[1..], client);
    }
  }

  /** From an empty log, in every run. */
  lemma NeverMoreThanLimit(s: Settings, client: string, run: seq<Event>, after: int)
    requires InOrder(run, if run == [] then 0 else run[0].now)
    ensures CountIn(Admissions(s, map[], run, client), after, after + s.window) <= s.limit
  {
    var start := if run == [] then 0 else run[0].now;
    assert Remembers(s, map[], client, [], start);
    WindowBound(s, map[], client, [], start, run, after);
    assert [] + Admissions(s, map[], run, client) == Admissions(s, map[], run, client);
  }

  function After(s: Settings, log: Log, run: seq<Event>): Log
    decreases |run|
  {
    if run == [] then log else After(s, Next(s, log, run[0]), run[1..])
  }

  function LastTime(run: seq<Event>, start: int): int {
    if run == [] then start else run[|run| - 1].now
  }

  lemma {:induction false} RemembersRun(s: Settings, log: Log, client: string, past: seq<int>, now: int, run: seq<Event>)
    requires Remembers(s, log, client, past, now) && InOrder(run, now)
    ensures Remembers(s, After(s, log, run), client, past + Admissions(s, log, run, client), LastTime(run, now))
    decreases |run|
  {
    hide Recent, Remembers, Admits, Next;
    if run == [] {
      assert past + [] == past;
    } else {
      var e := run[0];
      var admitted := if e.Request? && e.client == client && Admits(s, log, client, e.now) then [e.now] else [];
      RemembersStep(s, log, client, past, now, e);
      RemembersRun(s, Next(s, log, e), client, past + admitted, e.now, run[1..]);
      assert LastTime(run, now) == LastTime(run[1..], e.now);
      assert past + Admissions(s, log, run, client)
          == (past + admitted) + Admissions(s, Next(s, log, e), run[1..], client);
    }
  }

  /** After any run a request is admitted exactly when the client was admitted fewer than `limit`
      times in the window behind it. */
  lemma DecisionIff(s: Settings, client: string, run: seq<Event>, now: int)
    requires InOrder(run, if run == [] then now else run[0].now) && (run != [] ==> run[|run| - 1].now <= now)
    ensures Admits(s, After(s, map[], run), client, now)
            <==> CountIn(Admissions(s, map[], run, client), now - s.window, now) < s.limit
  {
    var start := if run == [] then now else run[0].now;
    assert Remembers(s, map[], client, [], start);
    RemembersRun(s, map[], client, [], start, run);
    assert [] + Admissions(s, map[], run, client) == Admissions(s, map[], run, client);
    CountRecent(Admissions(s, map[], run, client), now, s.window);
  }

  lemma AdmissionFits(s: Settings, log: Log, client: string, past: seq<int>, now: int, t: int, after: int)
    requires Remembers(s, log, client, past, now) && now <= t && Admits(s, log, client, t)
    requires CountIn(past, after, after + s.window) <= s.limit
    ensures CountIn(past + [t], after, after + s.window) <= s.limit
  {
    CountConcat(past, [t], after, after + s.window);
    if after < t <= after + s.window {
      CountRecent(past, t, s.window);
      CountNarrower(past, after, after + s.window, t, s.window);
    }
  }

  // ----- the middleware -----

  class RateLimit {
    const settings: Settings
    var clientRequests: Log

    constructor (settings: Settings)
      ensures this.settings == settings && clientRequests == map[]
    {
      this.settings, clientRequests := settings, map[];
    }

    method Prune(times: seq<int>, now: int) returns (active: seq<int>)
      ensures active == Recent(times, now, settings.window)
    {
      active := [];
      for i := 0 to |times|
        invariant active == Recent(times[..i], now, settings.window)
      {
        assert times[..i + 1] == times[..i] + [times[i]];
        RecentConcat(times[..i], [times[i]], now, settings.window);
        if now - times[i] < settings.window {
          active := active + [times[i]];
        }
      }
      assert times[..|times|] == times;
    }

    method Handle(client: string, now: int) returns (allowed: bool)
      modifies this
      ensures allowed == Admits(settings, old(clientRequests), client, now)
      ensures clientRequests == Next(settings, old(clientRequests), Request(client, now))
    {
      if client !in clientRequests {
        clientRequests := clientRequests[client := []];
      }
      var valid := Prune(clientRequests[client], now);
      clientRequests := clientRequests[client := valid];
      if |valid| >= settings.limit {
        return false;
      }
      clientRequests := clientRequests[client := valid + [now]];
      return true;
    }

    /** One tick of the interval timer. */
    method Sweep(now: int)
      modifies this
      ensures clientRequests == Next(settings, old(clientRequests), Cleanup(now))
    {
      var before := clientRequests;
      var todo := before.Keys;
      while todo != {}
        invariant todo <= before.Keys && clientRequests.Keys <= before.Keys
        invariant forall c :: c in todo ==> c in clientRequests && clientRequests[c] == before[c]
        invariant forall c :: c in before && c !in todo ==>
                    (c in clientRequests <==> Recent(before[c], now, settings.window) != [])
        invariant forall c :: c in clientRequests && c !in todo ==> clientRequests[c] == Recent(before[c], now, settings.window)
        decreases |todo|
      {
        var client :| client in todo;
        var active := Prune(clientRequests[client], now);
        if active == [] {
          clientRequests := clientRequests - {client};
        } else {
          clientRequests := clientRequests[client := active];
        }
        todo := todo - {client};
      }
    }
  }
}

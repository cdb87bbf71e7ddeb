// The gateway's Redis limiter: one counter per client and window, keyed by the window's
// index and expiring a window after its first request. Times are in milliseconds.

module FixedWindow {
  import opened Common

  /** `window` is never 0: a missing or zero option falls back to one second. */
  type Window = w: nat | w > 0 witness 1000

  datatype Settings = Settings(window: Window, burst: nat)

  /** A counter whose EXPIRE failed has no expiry. */
  datatype Counter = Counter(count: nat, expiry: Option<int>)

  /** One client's counters by window index. */
  type Counters = map<int, Counter>

  /** What goes wrong in a call: INCR fails without or after taking effect, or the EXPIRE of
      a new counter fails. */
  datatype Fault = NoFault | IncrLost | IncrUnconfirmed | ExpireFailed

  datatype Call = Call(now: int, fault: Fault)

  datatype Verdict = Allowed | Denied | FailedOpen

  function Index(s: Settings, now: int): int {
    now / s.window
  }

  function CountAt(c: Counters, index: int, now: int): nat {
    if index in c && (c[index].expiry == None || now < c[index].expiry.value) then c[index].count else 0
  }

  /** INCR, then EXPIRE when the counter is new. */
  function Next(s: Settings, c: Counters, call: Call): Counters {
    if call.fault == IncrLost then c
    else
      var index := Index(s, call.now);
      var count := CountAt(c, index, call.now) + 1;
      var expiry := if count > 1 then c[index].expiry
                    else if call.fault == NoFault then Some(call.now + s.window) else None;
      c[index := Counter(count, expiry)]
  }

  /** A Redis failure lets the request through. */
  function Decide(s: Settings, c: Counters, call: Call): Verdict {
    var count := CountAt(c, Index(s, call.now), call.now) + 1;
    if call.fault == IncrLost || call.fault == IncrUnconfirmed || (call.fault == ExpireFailed && count == 1) then FailedOpen
    else if count <= s.burst then Allowed else Denied
  }

  function After(s: Settings, calls: seq<Call>): Counters {
    if calls == [] then map[] else Next(s, After(s, calls[..|calls| - 1]), calls[|calls| - 1])
  }

  /** Calls of window `index` that were counted. */
  function Counted(s: Settings, calls: seq<Call>, index: int): nat {
    if calls == [] then 0
    else
      var last := calls[|calls| - 1];
      Counted(s, calls[..|calls| - 1], index) + if Index(s, last.now) == index && last.fault != IncrLost then 1 else 0
  }

  /** Calls in [from, to] the limiter allowed, those let through by a failure not included. */
  function Admitted(s: Settings, calls: seq<Call>, from: int, to: int): nat {
    if calls == [] then 0
    else
      var before, last := calls[..|calls| - 1], calls[|calls| - 1];
      Admitted(s, before, from, to)
      + if Decide(s, After(s, before), last) == Allowed && from <= last.now <= to then 1 else 0
  }

  lemma WindowIndex(s: Settings, now: int)
    ensures Index(s, now) == now / s.window
  {
  }

  lemma IndexBounds(s: Settings, now: int)
    ensures Index(s, now) * s.window <= now < Index(s, now) * s.window + s.window
  {
  }

  lemma IndexOf(s: Settings, index: int, now: int)
    requires index * s.window <= now < index * s.window + s.window
    ensures Index(s, now) == index
  {
    IndexBounds(s, now);
    var w: int := s.window;
    var d := Index(s, now) - index;
    assert d * w == Index(s, now) * w - index * w;
    MultipleOfWindow(d, w);
  }

  lemma MultipleOfWindow(d: int, w: int)
    requires w > 0
    ensures d >= 1 ==> d * w >= w
    ensures d <= -1 ==> d * w <= -w
  {
    assert (d - 1) * w == d * w - w && (d + 1) * w == d * w + w;
    assert d >= 1 ==> (d - 1) * w >= 0;
    assert d <= -1 ==> (d + 1) * w <= 0;
  }

  /** A counter outlives its window: created inside it, it expires a whole window later or never. */
  ghost predicate Exact(s: Settings, c: Counters, calls: seq<Call>) {
    && (forall i :: i in c ==>
          && c[i].count == Counted(s, calls, i)
          && (c[i].expiry == None || c[i].expiry.value >= i * s.window + s.window))
    && (forall i :: i !in c ==> Counted(s, calls, i) == 0)
  }

  lemma ExactStep(s: Settings, c: Counters, calls: seq<Call>, call: Call)
    requires Exact(s, c, calls)
    ensures Exact(s, Next(s, c, call), calls + [call])
    ensures CountAt(c, Index(s, call.now), call.now) == Counted(s, calls, Index(s, call.now))
  {
    IndexBounds(s, call.now);
    assert (calls + [call])[..|calls|] == calls;
  }

  /** In every run, at every moment, the counter read is the number of calls the current window
      has counted: no counter expires inside its own window, even when EXPIRE fails. */
  lemma {:induction false} NeverExpiresEarly(s: Settings, calls: seq<Call>, now: int)
    ensures Exact(s, After(s, calls), calls)
    ensures CountAt(After(s, calls), Index(s, now), now) == Counted(s, calls, Index(s, now))
  {
    if calls != [] {
      var before, last := calls[..|calls| - 1], calls[|calls| - 1];
      NeverExpiresEarly(s, before, now);
      ExactStep(s, After(s, before), before, last);
      assert calls == before + [last];
    }
    ExactStep(s, After(s, calls), calls, Call(now, NoFault));
  }

  /** In every run a failure lets a call through; any other call is denied exactly if its window
      has already counted the whole burst. */
  lemma DecisionIff(s: Settings, calls: seq<Call>, call: Call)
    ensures var counted := Counted(s, calls, call.now / s.window);
            var failed := call.fault in {IncrLost, IncrUnconfirmed} || (call.fault == ExpireFailed && counted == 0);
            Decide(s, After(s, calls), call) == if failed then FailedOpen else if counted < s.burst then Allowed else Denied
  {
    NeverExpiresEarly(s, calls, call.now);
  }

  function AllIn(s: Settings, calls: seq<Call>, index: int): nat {
    if calls == [] then 0
    else AllIn(s, calls[..|calls| - 1], index) + if Index(s, calls[|calls| - 1].now) == index then 1 else 0
  }

  /** A window allows at most the burst; without faults it allows every call up to the burst. */
  lemma {:induction false} WindowCount(s: Settings, calls: seq<Call>, index: int)
    ensures var admitted := Admitted(s, calls, index * s.window, index * s.window + s.window - 1);
            && admitted <= s.burst && admitted <= Counted(s, calls, index)
            && ((forall k :: 0 <= k < |calls| ==> calls[k].fault == NoFault) ==>
                  admitted == if AllIn(s, calls, index) < s.burst then AllIn(s, calls, index) else s.burst)
            && ((forall k :: 0 <= k < |calls| ==> calls[k].fault == NoFault) ==> Counted(s, calls, index) == AllIn(s, calls, index))
  {
    if calls != [] {
      var before, last := calls[..|calls| - 1], calls[|calls| - 1];
      WindowCount(s, before, index);
      NeverExpiresEarly(s, before, last.now);
      IndexBounds(s, last.now);
      if index * s.window <= last.now <= index * s.window + s.window - 1 {
        IndexOf(s, index, last.now);
      }
    }
  }

  lemma {:induction false} AdmittedSplit(s: Settings, calls: seq<Call>, from: int, mid: int, to: int)
    requires from <= mid <= to
    ensures Admitted(s, calls, from, to) == Admitted(s, calls, from, mid) + Admitted(s, calls, mid + 1, to)
  {
    if calls != [] {
      AdmittedSplit(s, calls[..|calls| - 1], from, mid, to);
    }
  }

  lemma {:induction false} AdmittedNarrower(s: Settings, calls: seq<Call>, from: int, to: int, from': int, to': int)
    requires from' <= from && to <= to'
    ensures Admitted(s, calls, from, to) <= Admitted(s, calls, from', to')
  {
    if calls != [] {
      AdmittedNarrower(s, calls[..|calls| - 1], from, to, from', to');
    }
  }

  /** In every run, every interval no longer than a window allows at most twice the burst. */
  lemma TwiceTheBurst(s: Settings, calls: seq<Call>, from: int, to: int)
    requires from <= to <= from + s.window
    ensures Admitted(s, calls, from, to) <= 2 * s.burst
  {
    hide Admitted, AllIn, Counted;
    var index := Index(s, from);
    var start := index * s.window;
    IndexBounds(s, from);
    WindowCount(s, calls, index);
    WindowCount(s, calls, index + 1);
    assert (index + 1) * s.window == start + s.window;
    var last := start + 2 * s.window - 1;
    AdmittedNarrower(s, calls, from, to, start, last);
    AdmittedSplit(s, calls, start, start + s.window - 1, last);
  }

  // ----- the middleware -----

  /** All clients' keys. */
  type Store = map<(string, int), Counter>

  /** The windows one client has a counter for. */
  ghost function Windows(store: Store, client: string): set<int> {
    set k | k in store && k.0 == client :: k.1
  }

  /** The counters of one client. */
  ghost function Of(store: Store, client: string): Counters {
    map i | i in Windows(store, client) :: store[(client, i)]
  }

  lemma OfLookup(store: Store, client: string, index: int)
    ensures index in Of(store, client) <==> (client, index) in store
    ensures (client, index) in store ==> Of(store, client)[index] == store[(client, index)]
  {
    assert (client, index) in store ==> (client, index).1 in Windows(store, client);
  }

  lemma OfUpdate(store: Store, client: string, index: int, counter: Counter)
    ensures Of(store[(client, index) := counter], client) == Of(store, client)[index := counter]
    ensures forall other :: other != client ==> Of(store[(client, index) := counter], other) == Of(store, other)
  {
    hide Of;
    var after := store[(client, index) := counter];
    forall c: string, i
      ensures i in Of(store, c) <==> (c, i) in store
      ensures i in Of(after, c) <==> (c, i) in after
      ensures (c, i) in store ==> Of(store, c)[i] == store[(c, i)]
      ensures (c, i) in after ==> Of(after, c)[i] == after[(c, i)]
    {
      OfLookup(store, c, i);
      OfLookup(after, c, i);
    }
  }

  class RateLimiter {
    const settings: Settings
    var counters: Store

    constructor (settings: Settings)
      ensures this.settings == settings && counters == map[]
    {
      this.settings, counters := settings, map[];
    }

    method CheckLimit(client: string, call: Call) returns (v: Verdict)
      modifies this
      ensures v == Decide(settings, Of(old(counters), client), call)
      ensures Of(counters, client) == Next(settings, Of(old(counters), client), call)
      ensures forall other :: other != client ==> Of(counters, other) == Of(old(counters), other)
      ensures var key := (client, call.now / settings.window);
              key !in old(counters) && call.fault == NoFault ==>
                key in counters && counters[key] == Counter(1, Some(call.now + settings.window))
    {
      hide Index, Of;
      if call.fault == IncrLost {
        return FailedOpen;
      }
      var index := Index(settings, call.now);
      WindowIndex(settings, call.now);
      var key := (client, index);
      OfLookup(counters, client, index);
      var live := key in counters && (counters[key].expiry == None || call.now < counters[key].expiry.value);
      var current := if live then counters[key].count + 1 else 1;
      var expiry := if current > 1 then counters[key].expiry
                    else if call.fault == NoFault then Some(call.now + settings.window) else None;
      OfUpdate(counters, client, index, Counter(current, expiry));
      counters := counters[key := Counter(current, expiry)];
      if call.fault == IncrUnconfirmed || (call.fault == ExpireFailed && current == 1) {
        return FailedOpen;
      }
      return if current <= settings.burst then Allowed else Denied;
    }
  }
}

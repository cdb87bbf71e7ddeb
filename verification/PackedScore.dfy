// A leaderboard entry: points in the top 10 bits, inverted time in the low 43, kept in
// a Redis sorted set whose scores are 64-bit floats.

module PackedScore {
  import opened Common

  const TIME_RANGE := 0x800_0000_0000       // 2^43
  const SCORE_RANGE := 1024                 // 2^10
  const SAFE_INTEGER := 0x20_0000_0000_0000 // 2^53
  const UINT64 := 0x1_0000_0000_0000_0000   // 2^64

  /** `^time` masked to 43 bits is -1 - time modulo 2^43, and the two halves share no bit. */
  function Compress(score: nat, time: int): nat {
    (score * TIME_RANGE) % UINT64 + (-1 - time) % TIME_RANGE
  }

  /** The gap between neighbouring floats at `v`. */
  function Granule(v: nat, g: nat): (r: nat)
    requires g > 0
    ensures r > 0
    decreases v - g
  {
    if v < g * SAFE_INTEGER then g else Granule(v, 2 * g)
  }

  /** The 64-bit float nearest to `v`, ties to even. */
  function Float64(v: nat): nat {
    var g := Granule(v, 1);
    if 2 * (v % g) < g || (2 * (v % g) == g && v / g % 2 == 0) then v / g * g
    else (v / g + 1) * g
  }

  function Decompress(stored: nat): nat {
    stored / TIME_RANGE
  }

  function TimeOf(stored: nat): nat {
    TIME_RANGE - 1 - stored % TIME_RANGE
  }

  function Entry(score: nat, time: int): nat {
    Float64(Compress(score, time))
  }

  predicate InRange(score: nat, time: int) {
    score < SCORE_RANGE && 0 <= time < TIME_RANGE
  }

  /** Unpacking undoes packing, and the packed value is an integer a float holds exactly. */
  lemma RoundTrip(score: nat, time: int)
    requires score < SCORE_RANGE
    ensures Entry(score, time) == Compress(score, time) < SAFE_INTEGER
    ensures Decompress(Entry(score, time)) == score
    ensures 0 <= time < TIME_RANGE ==> TimeOf(Entry(score, time)) == time
  {
    var low := (-1 - time) % TIME_RANGE;
    assert (score * TIME_RANGE) % UINT64 == score * TIME_RANGE;
    DivModOf(score, low);
    if 0 <= time < TIME_RANGE {
      assert low == TIME_RANGE - 1 - time;
    }
  }

  lemma DivModOf(q: nat, r: nat)
    requires r < TIME_RANGE
    ensures (q * TIME_RANGE + r) / TIME_RANGE == q && (q * TIME_RANGE + r) % TIME_RANGE == r
  {
  }

  /** Redis orders entries by points, and at equal points by the earlier time. */
  lemma EntryOrder(s1: nat, t1: int, s2: nat, t2: int)
    requires InRange(s1, t1) && InRange(s2, t2)
    ensures Entry(s1, t1) > Entry(s2, t2) <==> s1 > s2 || (s1 == s2 && t1 < t2)
    ensures Entry(s1, t1) == Entry(s2, t2) <==> s1 == s2 && t1 == t2
  {
    RoundTrip(s1, t1);
    RoundTrip(s2, t2);
  }

  /** What UpdateLeaderboardScore writes: a member not on the board counts as 0 points. */
  function Updated(current: Option<nat>, scoreToAdd: nat, now: int): nat {
    var stored := if current.Some? then current.value else Entry(0, now);
    Entry(Decompress(stored) + scoreToAdd, now)
  }

  function Points(current: Option<nat>): nat {
    if current.Some? then Decompress(current.value) else 0
  }

  lemma UpdateAddsPoints(current: Option<nat>, scoreToAdd: nat, now: int)
    requires Points(current) + scoreToAdd < SCORE_RANGE
    ensures Decompress(Updated(current, scoreToAdd, now)) == Points(current) + scoreToAdd
    ensures 0 <= now < TIME_RANGE ==> TimeOf(Updated(current, scoreToAdd, now)) == now
  {
    RoundTrip(0, now);
    RoundTrip(Points(current) + scoreToAdd, now);
  }

  datatype Update = Update(score: nat, time: int)

  function Sum(updates: seq<Update>): nat {
    if updates == [] then 0 else Sum(updates[..|updates| - 1]) + updates[|updates| - 1].score
  }

  function After(current: Option<nat>, updates: seq<Update>): Option<nat> {
    if updates == [] then current
    else var last := updates[|updates| - 1];
         Some(Updated(After(current, updates[..|updates| - 1]), last.score, last.time))
  }

  /** After any sequence of updates the points are the sum added, as long as that stays
      below 1024, and the time is that of the last update. */
  lemma {:induction false} UpdatesAddUp(current: Option<nat>, updates: seq<Update>)
    requires Points(current) + Sum(updates) < SCORE_RANGE
    ensures Points(After(current, updates)) == Points(current) + Sum(updates)
    ensures updates != [] && 0 <= updates[|updates| - 1].time < TIME_RANGE ==>
              TimeOf(After(current, updates).value) == updates[|updates| - 1].time
  {
    if updates != [] {
      var last := updates[|updates| - 1];
      UpdatesAddUp(current, updates[..|updates| - 1]);
      UpdateAddsPoints(After(current, updates[..|updates| - 1]), last.score, last.time);
    }
  }
}

// Choosing the problems of a round. A query with ORDER BY RANDOM() and LIMIT n returns any
// n distinct rows of its pool in any order, fewer if the pool is smaller; LIMIT 0 returns
// none and a negative limit is no limit, as the ORM builds it.

module ProblemSet {
  import opened Common
  import opened Text

  datatype Problem = Problem(difficulty: string, tags: seq<string>, paid: bool, blind75: bool, neetCode150: bool)

  /** A company asked a problem, in these time windows. */
  datatype CompanyTag = CompanyTag(problem: nat, company: string, windows: set<string>)

  datatype Catalogue = Catalogue(problems: map<nat, Problem>, companyTags: set<CompanyTag>)

  datatype Filters = Filters(
    tags: seq<string>,
    companies: seq<string>,
    blind75: bool,
    neetCode150: bool,
    recentlyAsked: bool,
    excludePaid: bool
  )

  const EASY := "easy"
  const MEDIUM := "medium"
  const HARD := "hard"

  const RECENT_WINDOWS := {"ThirtyDays", "ThreeMonths", "SixMonths"}

  const MAX_HAND_PICKED := 10

  // ----- filters -----

  /** The trimmed entries that are not empty, in order. */
  function Normalized(u: Unicode, tags: seq<string>): seq<string> {
    if tags == [] then []
    else
      var last := TrimSpace(u, tags[|tags| - 1]);
      Normalized(u, tags[..|tags| - 1]) + if last == "" then [] else [last]
  }

  lemma {:induction false} NormalizedExactly(u: Unicode, tags: seq<string>, t: string)
    ensures t in Normalized(u, tags) <==> t != "" && exists k :: 0 <= k < |tags| && TrimSpace(u, tags[k]) == t
  {
    if tags != [] {
      var before, last := tags[..|tags| - 1], |tags| - 1;
      NormalizedExactly(u, before, t);
      assert forall k :: 0 <= k < last ==> before[k] == tags[k];
      assert TrimSpace(u, tags[last]) == t ==> exists k :: 0 <= k < |tags| && TrimSpace(u, tags[k]) == t;
    }
  }

  method NormalizeTags(u: Unicode, tags: seq<string>) returns (r: seq<string>)
    ensures r == Normalized(u, tags)
  {
    r := [];
    for i := 0 to |tags|
      invariant r == Normalized(u, tags[..i])
    {
      assert tags[..i + 1][..i] == tags[..i];
      var trimmed := TrimSpace(u, tags[i]);
      if trimmed == "" {
        continue;
      }
      r := r + [trimmed];
    }
    assert tags[..|tags|] == tags;
  }

  /** The filters as the queries use them. */
  function Normal(u: Unicode, f: Filters): Filters {
    f.(tags := Normalized(u, f.tags), companies := Normalized(u, f.companies))
  }

  method NormalizeFilters(u: Unicode, f: Filters) returns (r: Filters)
    ensures r == Normal(u, f)
  {
    var normalizedTags := NormalizeTags(u, f.tags);
    var normalizedCompanies := NormalizeTags(u, f.companies);
    r := f.(tags := normalizedTags, companies := normalizedCompanies);
  }

  predicate PaidFilter(p: Problem, excludePaid: bool) {
    excludePaid ==> !p.paid
  }

  predicate TagFilter(u: Unicode, p: Problem, tags: seq<string>) {
    tags == [] || exists i, j :: 0 <= i < |tags| && 0 <= j < |p.tags| && ToLower(u, p.tags[j]) == ToLower(u, tags[i])
  }

  predicate AskedBy(u: Unicode, c: Catalogue, id: nat, companies: seq<string>, windows: set<string>) {
    exists t, i :: t in c.companyTags && 0 <= i < |companies| && t.problem == id
                   && ToLower(u, t.company) == ToLower(u, companies[i]) && t.windows * windows != {}
  }

  predicate CompanyFilter(u: Unicode, c: Catalogue, id: nat, companies: seq<string>) {
    companies == [] || exists t, i :: t in c.companyTags && 0 <= i < |companies| && t.problem == id
                                      && ToLower(u, t.company) == ToLower(u, companies[i])
  }

  /** With both lists selected a problem in either passes. */
  predicate ListFilter(p: Problem, blind75: bool, neetCode150: bool) {
    (blind75 && p.blind75) || (neetCode150 && p.neetCode150) || (!blind75 && !neetCode150)
  }

  /** Recency only counts relative to a selected company. */
  predicate RecencyMatters(f: Filters) {
    f.recentlyAsked && f.companies != []
  }

  /** The problems passing the paid, tag, company and list filters. */
  function Base(u: Unicode, c: Catalogue, f: Filters): set<nat> {
    set id | id in c.problems
             && PaidFilter(c.problems[id], f.excludePaid)
             && TagFilter(u, c.problems[id], f.tags)
             && CompanyFilter(u, c, id, f.companies)
             && ListFilter(c.problems[id], f.blind75, f.neetCode150)
  }

  /** Those of them that also pass the recently-asked filter. */
  function Fresh(u: Unicode, c: Catalogue, f: Filters): set<nat> {
    set id | id in Base(u, c, f) && (RecencyMatters(f) ==> AskedBy(u, c, id, f.companies, RECENT_WINDOWS))
  }

  function OfDifficulty(u: Unicode, c: Catalogue, f: Filters, difficulty: string): set<nat> {
    set id | id in Fresh(u, c, f) && c.problems[id].difficulty == difficulty
  }

  // ----- what passes -----

  lemma NormalizedMeans(u: Unicode, tags: seq<string>)
    ensures Normalized(u, tags) == [] <==> forall k :: 0 <= k < |tags| ==> TrimSpace(u, tags[k]) == ""
    ensures forall t :: t in Normalized(u, tags) ==> t != "" && exists k :: 0 <= k < |tags| && TrimSpace(u, tags[k]) == t
    ensures forall k :: 0 <= k < |tags| && TrimSpace(u, tags[k]) != "" ==> TrimSpace(u, tags[k]) in Normalized(u, tags)
  {
    hide Normalized;
    forall t ensures t in Normalized(u, tags) <==> t != "" && exists k :: 0 <= k < |tags| && TrimSpace(u, tags[k]) == t {
      NormalizedExactly(u, tags, t);
    }
    forall k | 0 <= k < |tags| && TrimSpace(u, tags[k]) != "" ensures TrimSpace(u, tags[k]) in Normalized(u, tags) {
    }
    if Normalized(u, tags) != [] {
      var t := Normalized(u, tags)[0];
      assert t in Normalized(u, tags);
    }
  }

  /** Without a tag that is more than white space every problem passes; otherwise one of its tags
      is a requested one up to case. */
  lemma TagsPass(u: Unicode, p: Problem, tags: seq<string>)
    ensures TagFilter(u, p, Normalized(u, tags)) <==>
            || (forall k :: 0 <= k < |tags| ==> TrimSpace(u, tags[k]) == "")
            || exists k, t :: 0 <= k < |tags| && t in p.tags && TrimSpace(u, tags[k]) != ""
                              && ToLower(u, t) == ToLower(u, TrimSpace(u, tags[k]))
  {
    hide Normalized, TrimSpace, ToLower;
    NormalizedMeans(u, tags);
    var named := Normalized(u, tags);
    if i, j :| 0 <= i < |named| && 0 <= j < |p.tags| && ToLower(u, p.tags[j]) == ToLower(u, named[i]) {
      assert named[i] in named && p.tags[j] in p.tags;
    }
    if k, t :| 0 <= k < |tags| && t in p.tags && TrimSpace(u, tags[k]) != "" && ToLower(u, t) == ToLower(u, TrimSpace(u, tags[k])) {
      assert TrimSpace(u, tags[k]) in named;
    }
  }

  /** The same for companies, which ask the problem in a row of their own, and for the companies
      that asked it in the last six months. */
  lemma CompaniesPass(u: Unicode, c: Catalogue, id: nat, companies: seq<string>)
    ensures CompanyFilter(u, c, id, Normalized(u, companies)) <==>
            || (forall k :: 0 <= k < |companies| ==> TrimSpace(u, companies[k]) == "")
            || exists k, t :: 0 <= k < |companies| && t in c.companyTags && t.problem == id && TrimSpace(u, companies[k]) != ""
                              && ToLower(u, t.company) == ToLower(u, TrimSpace(u, companies[k]))
    ensures AskedBy(u, c, id, Normalized(u, companies), RECENT_WINDOWS) <==>
            exists k, t :: 0 <= k < |companies| && t in c.companyTags && t.problem == id && TrimSpace(u, companies[k]) != ""
                           && ToLower(u, t.company) == ToLower(u, TrimSpace(u, companies[k]))
                           && ("ThirtyDays" in t.windows || "ThreeMonths" in t.windows || "SixMonths" in t.windows)
  {
    hide Normalized, TrimSpace, ToLower;
    NormalizedMeans(u, companies);
    var named := Normalized(u, companies);
    forall t: CompanyTag
      ensures t.windows * RECENT_WINDOWS != {} <==>
              "ThirtyDays" in t.windows || "ThreeMonths" in t.windows || "SixMonths" in t.windows
    {
      RecentWindows(t.windows);
    }
    assert forall i :: 0 <= i < |named| ==> named[i] in named;
  }

  lemma RecentWindows(windows: set<string>)
    ensures windows * RECENT_WINDOWS != {} <==> "ThirtyDays" in windows || "ThreeMonths" in windows || "SixMonths" in windows
  {
    assert forall w :: w in windows * RECENT_WINDOWS ==> w == "ThirtyDays" || w == "ThreeMonths" || w == "SixMonths";
    assert forall w :: w in windows && w in RECENT_WINDOWS ==> w in windows * RECENT_WINDOWS;
    assert "ThirtyDays" in RECENT_WINDOWS && "ThreeMonths" in RECENT_WINDOWS && "SixMonths" in RECENT_WINDOWS;
  }

  /** A request's pool is exactly the catalogue's problems that are not premium if those are
      excluded, carry a requested tag, were asked by a requested company and are on a selected
      list; what counts as requested ignores case and surrounding white space. */
  lemma PoolExactly(u: Unicode, c: Catalogue, r: Filters, id: nat)
    ensures id in Base(u, c, Normal(u, r)) <==>
            && id in c.problems
            && (r.excludePaid ==> !c.problems[id].paid)
            && (|| (forall k :: 0 <= k < |r.tags| ==> TrimSpace(u, r.tags[k]) == "")
                || exists k, t :: 0 <= k < |r.tags| && t in c.problems[id].tags && TrimSpace(u, r.tags[k]) != ""
                                  && ToLower(u, t) == ToLower(u, TrimSpace(u, r.tags[k])))
            && (|| (forall k :: 0 <= k < |r.companies| ==> TrimSpace(u, r.companies[k]) == "")
                || exists k, t :: 0 <= k < |r.companies| && t in c.companyTags && t.problem == id && TrimSpace(u, r.companies[k]) != ""
                                  && ToLower(u, t.company) == ToLower(u, TrimSpace(u, r.companies[k])))
            && (r.blind75 || r.neetCode150 ==>
                  (r.blind75 && c.problems[id].blind75) || (r.neetCode150 && c.problems[id].neetCode150))
  {
    hide TagFilter, CompanyFilter, TrimSpace, ToLower, Normalized;
    if id in c.problems {
      TagsPass(u, c.problems[id], r.tags);
      CompaniesPass(u, c, id, r.companies);
    }
  }

  /** Of the pool a problem is fresh unless recency was asked for, a company is named and none of
      those named asked it in the last six months. */
  lemma FreshExactly(u: Unicode, c: Catalogue, r: Filters, id: nat)
    ensures id in Fresh(u, c, Normal(u, r)) <==>
            && id in Base(u, c, Normal(u, r))
            && (|| !r.recentlyAsked
                || (forall k :: 0 <= k < |r.companies| ==> TrimSpace(u, r.companies[k]) == "")
                || exists k, t :: 0 <= k < |r.companies| && t in c.companyTags && t.problem == id && TrimSpace(u, r.companies[k]) != ""
                                  && ToLower(u, t.company) == ToLower(u, TrimSpace(u, r.companies[k]))
                                  && ("ThirtyDays" in t.windows || "ThreeMonths" in t.windows || "SixMonths" in t.windows))
  {
    hide Base, AskedBy, TrimSpace, ToLower, Normalized;
    NormalizedMeans(u, r.companies);
    CompaniesPass(u, c, id, r.companies);
  }

  /** So every problem of the pool meets the request. */
  lemma PoolMeets(u: Unicode, c: Catalogue, filters: Filters)
    ensures forall id :: id in Base(u, c, Normal(u, filters)) ==>
              && id in c.problems
              && (filters.excludePaid ==> !c.problems[id].paid)
              && (|| (forall k :: 0 <= k < |filters.tags| ==> TrimSpace(u, filters.tags[k]) == "")
                  || exists k, t :: 0 <= k < |filters.tags| && t in c.problems[id].tags && TrimSpace(u, filters.tags[k]) != ""
                                    && ToLower(u, t) == ToLower(u, TrimSpace(u, filters.tags[k])))
              && (|| (forall k :: 0 <= k < |filters.companies| ==> TrimSpace(u, filters.companies[k]) == "")
                  || exists k, t :: 0 <= k < |filters.companies| && t in c.companyTags && t.problem == id
                                    && TrimSpace(u, filters.companies[k]) != ""
                                    && ToLower(u, t.company) == ToLower(u, TrimSpace(u, filters.companies[k])))
              && (filters.blind75 || filters.neetCode150 ==>
                    || (filters.blind75 && c.problems[id].blind75)
                    || (filters.neetCode150 && c.problems[id].neetCode150))
  {
    hide Base, Normal, TrimSpace, ToLower;
    forall id | id in Base(u, c, Normal(u, filters)) {
      PoolExactly(u, c, filters, id);
    }
  }

  lemma ElementsMeet(ids: seq<nat>, pool: set<nat>)
    requires Elements(ids) <= pool
    ensures forall id :: id in ids ==> id in pool
  {
    assert forall id :: id in ids ==> id in Elements(ids);
  }

  // ----- queries -----

  /** How many rows LIMIT leaves of `n`. */
  function Take(limit: int, n: nat): nat {
    if limit < 0 || n <= limit then n else limit
  }

  ghost predicate Distinct(ids: seq<nat>) {
    forall i, j :: 0 <= i < j < |ids| ==> ids[i] != ids[j]
  }

  ghost function Elements(ids: seq<nat>): set<nat> {
    set id | id in ids
  }

  /** What a random query over `pool` may return. */
  ghost predicate RandomRows(pool: set<nat>, limit: int, rows: seq<nat>) {
    Distinct(rows) && Elements(rows) <= pool && |rows| == Take(limit, |pool|)
  }

  /** ORDER BY RANDOM() LIMIT `limit`. */
  method Pick(pool: set<nat>, limit: int) returns (rows: seq<nat>)
    ensures RandomRows(pool, limit, rows)
    ensures |rows| == if 0 <= limit < |pool| then limit else |pool|
  {
    rows := [];
    var rest := pool;
    while rest != {} && (limit < 0 || |rows| < limit)
      invariant Distinct(rows) && Elements(rows) <= pool
      invariant rest == pool - Elements(rows) && |rest| == |pool| - |rows|
      invariant limit >= 0 ==> |rows| <= limit
      decreases |rest|
    {
      var id :| id in rest;
      rows := rows + [id];
      assert Elements(rows) == Elements(rows[..|rows| - 1]) + {id};
      rest := rest - {id};
    }
  }

  lemma {:induction false} DistinctSize(ids: seq<nat>)
    requires Distinct(ids)
    ensures |Elements(ids)| == |ids|
  {
    if ids != [] {
      var before, last := ids[..|ids| - 1], ids[|ids| - 1];
      DistinctSize(before);
      assert Elements(ids) == Elements(before) + {last};
      assert last !in before;
    }
  }

  lemma DistinctWithin(ids: seq<nat>, base: set<nat>)
    requires Distinct(ids) && Elements(ids) <= base
    ensures |ids| <= |base|
  {
    DistinctSize(ids);
    SubsetSize(Elements(ids), base);
  }

  /** Joining rows of disjoint pools inside `base` keeps them distinct and inside it. */
  lemma JoinRows(a: seq<nat>, b: seq<nat>, base: set<nat>)
    requires Distinct(a) && Distinct(b) && Elements(a) !! Elements(b)
    requires Elements(a) <= base && Elements(b) <= base
    ensures Distinct(a + b) && Elements(a + b) == Elements(a) + Elements(b) <= base
    ensures |a| <= |base| && |base - Elements(a)| == |base| - |a|
  {
    DistinctSize(a);
    SubsetSize(Elements(a), base);
    assert forall i :: 0 <= i < |a| ==> a[i] in Elements(a);
    assert forall i :: 0 <= i < |b| ==> b[i] in Elements(b);
  }

  // ----- generation -----

  datatype Counts = Counts(easy: int, medium: int, hard: int) {
    function Total(): int { easy + medium + hard }
  }

  datatype Selection =
    | Selected(problems: seq<nat>, fallbackUsed: bool)
    | NotEnough(requested: int, found: nat)
    | TooMany
    | NoneFound

  /** How many problems of a difficulty the first three queries return. */
  function Found(u: Unicode, c: Catalogue, f: Filters, difficulty: string, requested: int): nat {
    Take(requested, |OfDifficulty(u, c, f, difficulty)|)
  }

  function FoundTotal(u: Unicode, c: Catalogue, f: Filters, n: Counts): nat {
    Found(u, c, f, EASY, n.easy) + Found(u, c, f, MEDIUM, n.medium) + Found(u, c, f, HARD, n.hard)
  }

  ghost predicate Short(u: Unicode, c: Catalogue, f: Filters, n: Counts) {
    || |OfDifficulty(u, c, f, EASY)| < n.easy
    || |OfDifficulty(u, c, f, MEDIUM)| < n.medium
    || |OfDifficulty(u, c, f, HARD)| < n.hard
  }

  /** Easy problems first, then medium, then hard, then whatever filled up the rest. */
  ghost predicate InOrderOfDifficulty(u: Unicode, c: Catalogue, f: Filters, n: Counts, problems: seq<nat>) {
    var e, m, h := Found(u, c, f, EASY, n.easy), Found(u, c, f, MEDIUM, n.medium), Found(u, c, f, HARD, n.hard);
    && e + m + h <= |problems|
    && Elements(problems[..e]) <= OfDifficulty(u, c, f, EASY)
    && Elements(problems[e..e + m]) <= OfDifficulty(u, c, f, MEDIUM)
    && Elements(problems[e + m..e + m + h]) <= OfDifficulty(u, c, f, HARD)
  }

  /** What generation by difficulty promises of a selection. */
  ghost predicate GoodSelection(u: Unicode, c: Catalogue, f: Filters, n: Counts, s: Selection)
    requires s.Selected?
  {
    && Distinct(s.problems) && Elements(s.problems) <= Base(u, c, f)
    && InOrderOfDifficulty(u, c, f, n, s.problems)
    && |s.problems| == (if FoundTotal(u, c, f, n) < n.Total() then n.Total() else FoundTotal(u, c, f, n))
    && (s.fallbackUsed <==> Short(u, c, f, n))
  }

  /** What generation without difficulties promises: recent problems first, all of them if
      they do not suffice. */
  ghost predicate GoodAnySelection(u: Unicode, c: Catalogue, f: Filters, count: int, s: Selection)
    requires s.Selected?
  {
    var recent := |Fresh(u, c, f)|;
    && Distinct(s.problems) && Elements(s.problems) <= Base(u, c, f)
    && |s.problems| == (if count < 0 then recent else count)
    && Take(count, recent) <= |s.problems| && Elements(s.problems[..Take(count, recent)]) <= Fresh(u, c, f)
    && (s.fallbackUsed <==> recent < count)
  }

  lemma PoolsApart(u: Unicode, c: Catalogue, f: Filters)
    ensures OfDifficulty(u, c, f, EASY) <= Base(u, c, f)
    ensures OfDifficulty(u, c, f, MEDIUM) <= Base(u, c, f)
    ensures OfDifficulty(u, c, f, HARD) <= Base(u, c, f)
    ensures OfDifficulty(u, c, f, EASY) !! OfDifficulty(u, c, f, MEDIUM)
    ensures OfDifficulty(u, c, f, EASY) + OfDifficulty(u, c, f, MEDIUM) !! OfDifficulty(u, c, f, HARD)
  {
    hide Base;
    assert EASY[0] != MEDIUM[0] && EASY[0] != HARD[0] && MEDIUM[0] != HARD[0];
  }

  lemma Parts(a: seq<nat>, b: seq<nat>, c: seq<nat>, all: seq<nat>)
    requires a + b + c <= all
    ensures all[..|a|] == a && all[|a|..|a| + |b|] == b && all[|a| + |b|..|a| + |b| + |c|] == c
  {
    assert all[..|a + b + c|] == a + b + c;
  }

  /** The transaction of three queries. */
  method PickByDifficulty(u: Unicode, c: Catalogue, f: Filters, n: Counts)
    returns (easyProblems: seq<nat>, mediumProblems: seq<nat>, hardProblems: seq<nat>)
    ensures RandomRows(OfDifficulty(u, c, f, EASY), n.easy, easyProblems)
    ensures RandomRows(OfDifficulty(u, c, f, MEDIUM), n.medium, mediumProblems)
    ensures RandomRows(OfDifficulty(u, c, f, HARD), n.hard, hardProblems)
    ensures Distinct(easyProblems + mediumProblems + hardProblems)
    ensures Elements(easyProblems + mediumProblems + hardProblems) <= Base(u, c, f)
  {
    hide OfDifficulty, Base, Take, Distinct, Elements;
    easyProblems := Pick(OfDifficulty(u, c, f, EASY), n.easy);
    mediumProblems := Pick(OfDifficulty(u, c, f, MEDIUM), n.medium);
    hardProblems := Pick(OfDifficulty(u, c, f, HARD), n.hard);
    PoolsApart(u, c, f);
    JoinRows(easyProblems, mediumProblems, Base(u, c, f));
    JoinRows(easyProblems + mediumProblems, hardProblems, Base(u, c, f));
  }

  /** The fallback query: any problem of `base` not chosen yet. */
  method FillUp(base: set<nat>, problems: seq<nat>, missing: nat) returns (r: seq<nat>)
    requires Distinct(problems) && Elements(problems) <= base
    ensures problems <= r && Distinct(r) && Elements(r) <= base
    ensures |r| == if |problems| + missing <= |base| then |problems| + missing else |base|
  {
    var selected := set id | id in problems;
    var fallbackProblems := Pick(base - selected, missing);
    assert selected == Elements(problems);
    JoinRows(problems, fallbackProblems, base);
    r := problems + fallbackProblems;
  }

  method GenerateByDifficulty(u: Unicode, c: Catalogue, filters: Filters, n: Counts) returns (s: Selection)
    ensures var f := Normal(u, filters);
            && (s.Selected? <==> |Base(u, c, f)| >= n.Total())
            && (!s.Selected? ==> s == NotEnough(n.Total(), |Base(u, c, f)|))
            && (s.Selected? ==> GoodSelection(u, c, f, n, s))
    ensures s.Selected? ==> forall id :: id in s.problems ==>
              && id in c.problems
              && (filters.excludePaid ==> !c.problems[id].paid)
              && (|| (forall k :: 0 <= k < |filters.tags| ==> TrimSpace(u, filters.tags[k]) == "")
                  || exists k, t :: 0 <= k < |filters.tags| && t in c.problems[id].tags && TrimSpace(u, filters.tags[k]) != ""
                                    && ToLower(u, t) == ToLower(u, TrimSpace(u, filters.tags[k])))
              && (|| (forall k :: 0 <= k < |filters.companies| ==> TrimSpace(u, filters.companies[k]) == "")
                  || exists k, t :: 0 <= k < |filters.companies| && t in c.companyTags && t.problem == id
                                    && TrimSpace(u, filters.companies[k]) != ""
                                    && ToLower(u, t.company) == ToLower(u, TrimSpace(u, filters.companies[k])))
              && (filters.blind75 || filters.neetCode150 ==>
                    || (filters.blind75 && c.problems[id].blind75)
                    || (filters.neetCode150 && c.problems[id].neetCode150))
  {
    hide OfDifficulty, Base, Distinct, Elements, Normal, TrimSpace, ToLower;
    var f := NormalizeFilters(u, filters);
    PoolMeets(u, c, filters);
    var easyProblems, mediumProblems, hardProblems := PickByDifficulty(u, c, f, n);
    var exact := |easyProblems| >= n.easy && |mediumProblems| >= n.medium && |hardProblems| >= n.hard;
    var problems := easyProblems + mediumProblems;
    problems := problems + hardProblems;
    DistinctWithin(problems, Base(u, c, f));
    var fallbackUsed := false;
    if |problems| < n.Total() {
      fallbackUsed := true;
      problems := FillUp(Base(u, c, f), problems, n.Total() - |problems|);
    }
    if |problems| < n.Total() {
      return NotEnough(n.Total(), |problems|);
    }
    if !exact {
      fallbackUsed := true;
    }
    Parts(easyProblems, mediumProblems, hardProblems, problems);
    ElementsMeet(problems, Base(u, c, f));
    return Selected(problems, fallbackUsed);
  }

  /** A selection without negative counts has exactly the requested size and at least as many
      problems of each difficulty as requested or available; the flag is down exactly when
      every difficulty got what it asked for. */
  lemma SelectionSizes(u: Unicode, c: Catalogue, f: Filters, n: Counts, s: Selection)
    requires s.Selected? && GoodSelection(u, c, f, n, s)
    requires n.easy >= 0 && n.medium >= 0 && n.hard >= 0
    ensures |s.problems| == n.Total()
    ensures var pool := set id | id in Fresh(u, c, f) && c.problems[id].difficulty == "easy";
            |Elements(s.problems) * pool| >= if n.easy <= |pool| then n.easy else |pool|
    ensures var pool := set id | id in Fresh(u, c, f) && c.problems[id].difficulty == "medium";
            |Elements(s.problems) * pool| >= if n.medium <= |pool| then n.medium else |pool|
    ensures var pool := set id | id in Fresh(u, c, f) && c.problems[id].difficulty == "hard";
            |Elements(s.problems) * pool| >= if n.hard <= |pool| then n.hard else |pool|
    ensures !s.fallbackUsed <==> FoundTotal(u, c, f, n) == n.Total()
  {
    hide Fresh, Base, Distinct, Elements;
    var e, m, h := Found(u, c, f, EASY, n.easy), Found(u, c, f, MEDIUM, n.medium), Found(u, c, f, HARD, n.hard);
    SliceWithin(s.problems, 0, e, OfDifficulty(u, c, f, EASY));
    SliceWithin(s.problems, e, e + m, OfDifficulty(u, c, f, MEDIUM));
    SliceWithin(s.problems, e + m, e + m + h, OfDifficulty(u, c, f, HARD));
  }

  lemma SliceWithin(ids: seq<nat>, from: nat, to: nat, pool: set<nat>)
    requires from <= to <= |ids| && Distinct(ids) && Elements(ids[from..to]) <= pool
    ensures |Elements(ids) * pool| >= to - from
  {
    DistinctSize(ids[from..to]);
    assert forall i :: from <= i < to ==> ids[i] in Elements(ids);
    assert Elements(ids[from..to]) <= Elements(ids) * pool;
    SubsetSize(Elements(ids[from..to]), Elements(ids) * pool);
  }

  method GenerateAnyDifficulty(u: Unicode, c: Catalogue, filters: Filters, count: int) returns (s: Selection)
    ensures var f := Normal(u, filters);
            && (s.Selected? <==> |Base(u, c, f)| >= count)
            && (!s.Selected? ==> s == NotEnough(count, |Base(u, c, f)|))
            && (s.Selected? ==> GoodAnySelection(u, c, f, count, s))
    ensures s.Selected? ==> forall id :: id in s.problems ==>
              && id in c.problems
              && (filters.excludePaid ==> !c.problems[id].paid)
              && (|| (forall k :: 0 <= k < |filters.tags| ==> TrimSpace(u, filters.tags[k]) == "")
                  || exists k, t :: 0 <= k < |filters.tags| && t in c.problems[id].tags && TrimSpace(u, filters.tags[k]) != ""
                                    && ToLower(u, t) == ToLower(u, TrimSpace(u, filters.tags[k])))
              && (|| (forall k :: 0 <= k < |filters.companies| ==> TrimSpace(u, filters.companies[k]) == "")
                  || exists k, t :: 0 <= k < |filters.companies| && t in c.companyTags && t.problem == id
                                    && TrimSpace(u, filters.companies[k]) != ""
                                    && ToLower(u, t.company) == ToLower(u, TrimSpace(u, filters.companies[k])))
              && (filters.blind75 || filters.neetCode150 ==>
                    || (filters.blind75 && c.problems[id].blind75)
                    || (filters.neetCode150 && c.problems[id].neetCode150))
  {
    hide Base, Distinct, Elements, Normal, Fresh, TrimSpace, ToLower;
    var f := NormalizeFilters(u, filters);
    PoolMeets(u, c, filters);
    var problems := Pick(Fresh(u, c, f), count);
    ghost var first := problems;
    FreshWithin(u, c, f);
    var fallbackUsed := false;
    DistinctWithin(problems, Base(u, c, f));
    if |problems| < count && RecencyMatters(f) {
      fallbackUsed := true;
      problems := FillUp(Base(u, c, f), problems, count - |problems|);
    }
    if |problems| < count {
      return NotEnough(count, |problems|);
    }
    assert problems[..|first|] == first;
    ElementsMeet(problems, Base(u, c, f));
    return Selected(problems, fallbackUsed);
  }

  lemma FreshWithin(u: Unicode, c: Catalogue, f: Filters)
    ensures Fresh(u, c, f) <= Base(u, c, f)
    ensures !RecencyMatters(f) ==> Fresh(u, c, f) == Base(u, c, f)
  {
    hide Base;
  }

  // ----- the count the user interface shows -----

  function Available(u: Unicode, c: Catalogue, f: Filters, difficulties: seq<string>): set<nat> {
    set id | id in Fresh(u, c, f) && (difficulties == [] || c.problems[id].difficulty in difficulties)
  }

  /** What is counted, said of the rows: as for the pool, and of the difficulties asked for; with
      recency, some row of a named company must be recent. */
  lemma CountedExactly(u: Unicode, c: Catalogue, filters: Filters, difficulties: seq<string>, id: nat)
    ensures id in Available(u, c, Normal(u, filters), difficulties) <==>
            && id in c.problems
            && (difficulties == [] || c.problems[id].difficulty in difficulties)
            && (filters.excludePaid ==> !c.problems[id].paid)
            && (filters.blind75 || filters.neetCode150 ==>
                  || (filters.blind75 && c.problems[id].blind75)
                  || (filters.neetCode150 && c.problems[id].neetCode150))
            && (|| (forall k :: 0 <= k < |filters.tags| ==> TrimSpace(u, filters.tags[k]) == "")
                || exists k, t :: 0 <= k < |filters.tags| && t in c.problems[id].tags
                                  && TrimSpace(u, filters.tags[k]) != ""
                                  && ToLower(u, t) == ToLower(u, TrimSpace(u, filters.tags[k])))
            && (|| (forall k :: 0 <= k < |filters.companies| ==> TrimSpace(u, filters.companies[k]) == "")
                || exists k, t :: 0 <= k < |filters.companies| && t in c.companyTags && t.problem == id
                                  && TrimSpace(u, filters.companies[k]) != ""
                                  && ToLower(u, t.company) == ToLower(u, TrimSpace(u, filters.companies[k]))
                                  && (|| !filters.recentlyAsked || "ThirtyDays" in t.windows
                                      || "ThreeMonths" in t.windows || "SixMonths" in t.windows))
  {
    hide Base, TrimSpace, ToLower, Normal, Fresh;
    PoolExactly(u, c, filters, id);
    FreshExactly(u, c, filters, id);
  }

  method CountAvailable(u: Unicode, c: Catalogue, filters: Filters, difficulties: seq<string>) returns (count: nat)
    ensures count == |Available(u, c, Normal(u, filters), difficulties)|
  {
    var f := NormalizeFilters(u, filters);
    count := |Available(u, c, f, difficulties)|;
  }

  /** Whether a pool can serve a request, as generation decides it for its base pool. */
  predicate Serves(pool: set<nat>, requested: int) {
    |pool| >= requested
  }

  /** A count that covers the request means creation is not refused for lack of problems,
      whatever difficulties were counted. */
  lemma CountedIsEnough(u: Unicode, c: Catalogue, f: Filters, difficulties: seq<string>, requested: int)
    requires Serves(Available(u, c, f, difficulties), requested)
    ensures Serves(Base(u, c, f), requested)
  {
    hide Base;
    SubsetSize(Available(u, c, f, difficulties), Base(u, c, f));
  }

  /** The count predicts creation both ways, for every request, exactly when every problem of
      the base pool is counted. */
  lemma CountDecides(u: Unicode, c: Catalogue, f: Filters, difficulties: seq<string>)
    ensures (forall requested :: Serves(Available(u, c, f, difficulties), requested) <==> Serves(Base(u, c, f), requested))
            <==> forall id :: id in Base(u, c, f) ==>
                   && (difficulties == [] || c.problems[id].difficulty in difficulties)
                   && (RecencyMatters(f) ==> AskedBy(u, c, id, f.companies, RECENT_WINDOWS))
  {
    hide Base, AskedBy;
    var base, counted := Base(u, c, f), Available(u, c, f, difficulties);
    SubsetSize(counted, base);
    assert counted == base <==> base - counted == {};
    assert Serves(base, |base|);
    assert (forall requested :: Serves(counted, requested) <==> Serves(base, requested)) <==> counted == base;
  }

  /** Counting too few is possible: one problem asked long ago, and none counted. */
  lemma CountCanRefuse(u: Unicode)
    ensures exists c: Catalogue, f: Filters ::
              Available(u, c, f, []) == {} && Serves(Base(u, c, f), 1)
  {
    var problem := Problem(EASY, [], false, false, false);
    var c := Catalogue(map[1 := problem], {CompanyTag(1, "a", {"All"})});
    var f := Filters([], ["a"], false, false, true, false);
    assert CompanyTag(1, "a", {"All"}) in c.companyTags && f.companies[0] == "a";
    assert Base(u, c, f) == {1};
    assert forall w :: w in RECENT_WINDOWS ==> |w| > 3;
    assert {"All"} * RECENT_WINDOWS == {};
    assert Available(u, c, f, []) == {};
  }

  // ----- hand-picked problems -----

  /** The known ids among `ids` at their first occurrence, in order. */
  function FirstOccurrences(ids: seq<nat>, known: set<nat>): seq<nat> {
    if ids == [] then []
    else
      var before, last := ids[..|ids| - 1], ids[|ids| - 1];
      FirstOccurrences(before, known) + if last in known && last !in before then [last] else []
  }

  /** `a` is met before `b` in `ids`. */
  ghost predicate MetBefore(ids: seq<nat>, a: nat, b: nat) {
    exists i :: 0 <= i < |ids| && ids[i] == a && b !in ids[..i + 1]
  }

  lemma {:induction false} OrderKept(ids: seq<nat>, known: set<nat>)
    ensures Distinct(FirstOccurrences(ids, known))
    ensures Elements(FirstOccurrences(ids, known)) == Elements(ids) * known
    ensures var r := FirstOccurrences(ids, known);
            forall i, j :: 0 <= i < j < |r| ==> MetBefore(ids, r[i], r[j])
  {
    if ids != [] {
      var before, last := ids[..|ids| - 1], ids[|ids| - 1];
      var r, earlier := FirstOccurrences(ids, known), FirstOccurrences(before, known);
      OrderKept(before, known);
      assert Elements(ids) == Elements(before) + {last};
      assert last in Elements(before) <==> last in before;
      assert forall k :: 0 <= k < |earlier| ==> earlier[k] in Elements(earlier);
      if last in known && last !in before {
        assert r == earlier + [last];
        assert Elements(r) == Elements(earlier) + {last};
      } else {
        assert r == earlier;
      }
      forall i, j | 0 <= i < j < |r|
        ensures MetBefore(ids, r[i], r[j])
      {
        assert r[i] in Elements(before);
        if j < |earlier| {
          var k :| 0 <= k < |before| && before[k] == r[i] && r[j] !in before[..k + 1];
          assert ids[..k + 1] == before[..k + 1];
        } else {
          var k :| 0 <= k < |before| && before[k] == r[i];
          assert ids[..k + 1] == before[..k + 1];
        }
      }
    }
  }

  method FindProblemsByIDs(c: Catalogue, ids: seq<nat>) returns (ordered: seq<nat>)
    ensures ordered == FirstOccurrences(ids, c.problems.Keys)
  {
    ordered := [];
    if ids == [] {
      return;
    }
    var byId := set id | id in ids && id in c.problems;
    var seen: set<nat> := {};
    for i := 0 to |ids|
      invariant seen == Elements(ids[..i])
      invariant ordered == FirstOccurrences(ids[..i], c.problems.Keys)
    {
      assert ids[..i + 1] == ids[..i] + [ids[i]];
      assert ids[i] in seen <==> ids[i] in ids[..i];
      if ids[i] in seen {
        assert Elements(ids[..i + 1]) == seen;
        continue;
      }
      seen := seen + {ids[i]};
      if ids[i] in byId {
        ordered := ordered + [ids[i]];
      }
    }
    assert ids[..|ids|] == ids;
  }

  // ----- the choice a new round makes -----

  datatype Request = Request(
    ids: seq<nat>,
    anyDifficulty: bool,
    filters: Filters,
    count: int,
    counts: Counts
  )

  /** When a new round finds its problems. */
  predicate Served(u: Unicode, c: Catalogue, r: Request) {
    if r.ids != [] then |r.ids| <= MAX_HAND_PICKED && exists i :: 0 <= i < |r.ids| && r.ids[i] in c.problems
    else Serves(Base(u, c, Normal(u, r.filters)), if r.anyDifficulty then r.count else r.counts.Total())
  }

  /** What the chosen problems are. */
  ghost predicate Answers(u: Unicode, c: Catalogue, r: Request, s: Selection)
    requires s.Selected?
  {
    if r.ids != [] then s == Selected(FirstOccurrences(r.ids, c.problems.Keys), false)
    else if r.anyDifficulty then GoodAnySelection(u, c, Normal(u, r.filters), r.count, s)
    else GoodSelection(u, c, Normal(u, r.filters), r.counts, s)
  }

  lemma SomeFound(ids: seq<nat>, known: set<nat>)
    ensures Distinct(FirstOccurrences(ids, known)) && Elements(FirstOccurrences(ids, known)) <= known
    ensures FirstOccurrences(ids, known) != [] <==> exists i :: 0 <= i < |ids| && ids[i] in known
  {
    hide FirstOccurrences, MetBefore;
    var found := FirstOccurrences(ids, known);
    OrderKept(ids, known);
    assert found != [] ==> found[0] in Elements(found);
    assert forall i :: 0 <= i < |ids| && ids[i] in known ==> ids[i] in Elements(found);
  }

  method SelectProblems(u: Unicode, c: Catalogue, r: Request) returns (s: Selection)
    ensures s.Selected? <==> Served(u, c, r)
    ensures s.Selected? ==> Answers(u, c, r, s) && Distinct(s.problems) && Elements(s.problems) <= c.problems.Keys
    ensures s.TooMany? <==> |r.ids| > 10
    ensures 0 < |r.ids| <= 10 ==> (s.Selected? <==> exists i :: 0 <= i < |r.ids| && r.ids[i] in c.problems)
    ensures s.NotEnough? ==> s.found == |Base(u, c, Normal(u, r.filters))| < s.requested
  {
    hide Distinct, Normal, InOrderOfDifficulty, Short, FoundTotal, Take, FirstOccurrences, Elements;
    assert Base(u, c, Normal(u, r.filters)) <= c.problems.Keys;
    hide Base;
    if r.ids != [] {
      if |r.ids| > MAX_HAND_PICKED {
        return TooMany;
      }
      var found := FindProblemsByIDs(c, r.ids);
      SomeFound(r.ids, c.problems.Keys);
      s := if found == [] then NoneFound else Selected(found, false);
    } else if r.anyDifficulty {
      s := GenerateAnyDifficulty(u, c, r.filters, r.count);
    } else {
      s := GenerateByDifficulty(u, c, r.filters, r.counts);
    }
  }
}

// The extension's reaction to replayed room events: the slugs touched in a round, kept by a
// chain of storage writes, and the navigation of the active tab.

module RoomEvents {
  import opened Common

  // ----- touched problems -----

  datatype Op = Mark(slug: string) | Reset(roundKey: string)

  /** What session storage holds. */
  datatype Store = Store(touched: seq<string>, roundKey: Option<string>)

  /** A slug is stored once; a reset with the stored key changes nothing. */
  function Apply(s: Store, op: Op): Store {
    match op
    case Mark(slug) => if slug in s.touched then s else s.(touched := s.touched + [slug])
    case Reset(key) => if s.roundKey == Some(key) then s else Store([], Some(key))
  }

  function After(ops: seq<Op>): Store {
    if ops == [] then Store([], None) else Apply(After(ops[..|ops| - 1]), ops[|ops| - 1])
  }

  /** The key of the last reset, replayed or not. */
  function LastKey(ops: seq<Op>): Option<string> {
    if ops == [] then None
    else if ops[|ops| - 1].Reset? then Some(ops[|ops| - 1].roundKey)
    else LastKey(ops[..|ops| - 1])
  }

  /** Every report since the last reset whose key differed from that of the reset before it. */
  function Reported(ops: seq<Op>): seq<string> {
    if ops == [] then []
    else
      var before, last := ops[..|ops| - 1], ops[|ops| - 1];
      if last.Mark? then Reported(before) + [last.slug]
      else if LastKey(before) == Some(last.roundKey) then Reported(before) else []
  }

  /** First occurrences, in order. */
  function Deduped(slugs: seq<string>): seq<string> {
    if slugs == [] then []
    else
      var before, last := slugs[..|slugs| - 1], slugs[|slugs| - 1];
      Deduped(before) + if last in before then [] else [last]
  }

  lemma {:induction false} DedupedExactly(slugs: seq<string>)
    ensures forall slug :: slug in Deduped(slugs) <==> slug in slugs
    ensures forall i, j :: 0 <= i < j < |Deduped(slugs)| ==> Deduped(slugs)[i] != Deduped(slugs)[j]
  {
    if slugs != [] {
      DedupedExactly(slugs[..|slugs| - 1]);
    }
  }

  /** Whatever is reported and replayed, storage holds the slugs reported in the current round,
      each once, in the order of their first report. */
  lemma {:induction false} TouchedExactly(ops: seq<Op>)
    ensures After(ops) == Store(Deduped(Reported(ops)), LastKey(ops))
  {
    if ops != [] {
      var before, last := ops[..|ops| - 1], ops[|ops| - 1];
      TouchedExactly(before);
      DedupedExactly(Reported(before));
      if last.Mark? {
        var slugs := Reported(ops);
        assert slugs[..|slugs| - 1] == Reported(before);
      }
    }
  }

  lemma RunLast(ops: seq<Op>, op: Op)
    ensures After(ops + [op]) == Apply(After(ops), op)
  {
    assert (ops + [op])[..|ops|] == ops;
  }

  /** The background worker: storage, and the chain of mutations not run yet. */
  class Background {
    var touched: seq<string>
    var roundKey: Option<string>
    var chain: seq<Op>
    ghost var done: seq<Op>

    ghost predicate Valid()
      reads this
    {
      Store(touched, roundKey) == After(done)
    }

    constructor ()
      ensures Valid() && done == [] && chain == []
    {
      touched, roundKey, chain, done := [], None, [], [];
    }

    /** What storage will hold once the chain has run. */
    ghost function Settled(): Store
      reads this
    {
      After(done + chain)
    }

    /** The slug will be in the list, behind what is there by then. */
    method MarkProblemTouched(slug: string)
      requires Valid()
      modifies this`chain
      ensures Valid() && old(chain) <= chain && Settled().roundKey == old(Settled()).roundKey
      ensures old(Settled()).touched <= Settled().touched
      ensures forall x :: x in Settled().touched <==> x in old(Settled()).touched || (x == slug && slug != "")
    {
      if slug == "" {
        return;
      }
      RunLast(done + chain, Mark(slug));
      assert done + chain + [Mark(slug)] == done + (chain + [Mark(slug)]);
      chain := chain + [Mark(slug)];
    }

    /** The list will be empty, unless the key is the one stored by then. */
    method ResetTouchedProblems(key: string)
      requires Valid()
      modifies this`chain
      ensures Valid() && old(chain) <= chain && Settled().roundKey == Some(key)
      ensures Settled().touched == if old(Settled()).roundKey == Some(key) then old(Settled()).touched else []
    {
      RunLast(done + chain, Reset(key));
      assert done + chain + [Reset(key)] == done + (chain + [Reset(key)]);
      chain := chain + [Reset(key)];
    }

    /** Runs the next mutation to its end; if storage fails it is given up. */
    method RunNext(fails: bool)
      requires Valid() && chain != []
      modifies this
      ensures Valid() && chain == old(chain)[1..]
      ensures done == if fails then old(done) else old(done) + [old(chain)[0]]
    {
      var op := chain[0];
      chain := chain[1..];
      if fails {
        return;
      }
      done := done + [op];
      assert done[..|done| - 1] == old(done);
      match op
      case Mark(slug) =>
        if slug !in touched {
          touched := touched + [slug];
        }
      case Reset(key) =>
        if roundKey != Some(key) {
          roundKey, touched := Some(key), [];
        }
    }

    /** With storage working the whole chain runs in the order it was requested. */
    method Drain()
      requires Valid()
      modifies this
      ensures Valid() && chain == [] && done == old(done) + old(chain)
      ensures touched == Deduped(Reported(old(done) + old(chain)))
    {
      while chain != []
        invariant Valid() && done + chain == old(done) + old(chain)
        decreases |chain|
      {
        RunNext(false);
      }
      assert done == old(done) + old(chain);
      TouchedExactly(done);
    }
  }

  // ----- problem addresses -----

  const PROBLEMS := "/problems/"
  const SITE := "https://leetcode.com"

  predicate Stop(c: char) {
    c == '/' || c == '?' || c == '#'
  }

  predicate PlainSlug(slug: string) {
    slug != "" && forall i :: 0 <= i < |slug| ==> !Stop(slug[i])
  }

  /** The longest start of `s` without a stop. */
  function Segment(s: string): (t: string)
    ensures t <= s && forall i :: 0 <= i < |t| ==> !Stop(t[i])
  {
    if s == "" || Stop(s[0]) then "" else [s[0]] + Segment(s[1..])
  }

  /** The leftmost match of the address pattern. */
  function ParseProblemSlug(url: string): (slug: Option<string>)
    ensures slug.Some? ==> PlainSlug(slug.value)
  {
    if url == "" then None
    else if PROBLEMS <= url && Segment(url[|PROBLEMS|..]) != "" then Some(Segment(url[|PROBLEMS|..]))
    else ParseProblemSlug(url[1..])
  }

  function ProblemUrl(slug: string): string {
    SITE + PROBLEMS + slug + "/"
  }

  lemma {:induction false} SegmentEnds(slug: string, rest: string)
    requires (forall i :: 0 <= i < |slug| ==> !Stop(slug[i])) && rest != "" && Stop(rest[0])
    ensures Segment(slug + rest) == slug
  {
    if slug == "" {
      assert slug + rest == rest;
    } else {
      SegmentEnds(slug[1..], rest);
      assert (slug + rest)[1..] == slug[1..] + rest;
    }
  }

  /** Where no slash is followed by a `p` the pattern does not match. */
  lemma {:induction false} ParseSkips(url: string, n: nat)
    requires n < |url| && forall i :: 0 <= i < n ==> url[i] != '/' || url[i + 1] != 'p'
    ensures ParseProblemSlug(url) == ParseProblemSlug(url[n..])
  {
    if n > 0 {
      assert !(PROBLEMS <= url) by {
        assert PROBLEMS[0] == '/' && PROBLEMS[1] == 'p';
      }
      assert url[1..][n - 1..] == url[n..];
      ParseSkips(url[1..], n - 1);
    }
  }

  /** The address of a plain slug parses to it, whatever the site appends. */
  lemma ParseOfUrl(slug: string, rest: string)
    requires PlainSlug(slug)
    ensures ParseProblemSlug(ProblemUrl(slug) + rest) == Some(slug)
  {
    var url := ProblemUrl(slug) + rest;
    var tail := PROBLEMS + slug + "/" + rest;
    assert url == SITE + tail;
    SiteSkipped(tail);
    ParseTail(slug, rest);
  }

  lemma SiteSkipped(tail: string)
    requires tail != ""
    ensures ParseProblemSlug(SITE + tail) == ParseProblemSlug(tail)
  {
    hide ParseProblemSlug;
    ParseSkips(SITE + tail, |SITE|);
    assert (SITE + tail)[|SITE|..] == tail;
  }

  lemma ParseTail(slug: string, rest: string)
    requires PlainSlug(slug)
    ensures ParseProblemSlug(PROBLEMS + slug + "/" + rest) == Some(slug)
  {
    var tail := PROBLEMS + slug + "/" + rest;
    assert PROBLEMS <= tail && tail[|PROBLEMS|..] == slug + ("/" + rest);
    SegmentEnds(slug, "/" + rest);
  }

  /** Parsing inverts the address exactly for plain slugs. */
  lemma ParseInvertsIff(slug: string)
    ensures ParseProblemSlug(ProblemUrl(slug)) == Some(slug) <==> PlainSlug(slug)
  {
    if PlainSlug(slug) {
      ParseOfUrl(slug, "");
      assert ProblemUrl(slug) + "" == ProblemUrl(slug);
    }
  }

  /** A problem's address begins at `k`. */
  predicate AddressAt(url: string, k: nat) {
    k + 10 < |url| && url[k..k + 10] == "/problems/" && url[k + 10] !in {'/', '?', '#'}
  }

  /** The slug of an address that begins at `k` runs to the next slash, question mark or hash, or
      to the end. */
  predicate SlugAt(url: string, k: nat, slug: string) {
    var end := k + 10 + |slug|;
    && AddressAt(url, k) && end <= |url| && url[k + 10..end] == slug
    && (forall i :: k + 10 <= i < end ==> url[i] !in {'/', '?', '#'})
    && (end == |url| || url[end] in {'/', '?', '#'})
  }

  /** The slug found is that of the first address in the text; without one none is found. */
  lemma {:induction false} ParseExactly(url: string) returns (k: nat)
    ensures ParseProblemSlug(url) == None ==> forall i: nat :: !AddressAt(url, i)
    ensures ParseProblemSlug(url).Some? ==>
              SlugAt(url, k, ParseProblemSlug(url).value) && forall i: nat :: i < k ==> !AddressAt(url, i)
  {
    k := 0;
    if url != "" {
      BeginsHere(url);
      hide SlugAt;
      if !AddressAt(url, 0) {
        var n := ParseExactly(url[1..]);
        k := n + 1;
        forall i: nat | i > 0 ensures AddressAt(url, i) <==> AddressAt(url[1..], i - 1) {
          if i + 10 < |url| {
            assert url[i..i + 10] == url[1..][i - 1..i + 9];
          }
        }
        if ParseProblemSlug(url).Some? {
          SlugLater(url, n, ParseProblemSlug(url).value);
        }
      }
    }
  }

  lemma SlugLater(url: string, k: nat, slug: string)
    requires url != "" && SlugAt(url[1..], k, slug)
    ensures SlugAt(url, k + 1, slug)
  {
    var rest, end := url[1..], k + 10 + |slug|;
    assert url == [url[0]] + rest && end <= |rest|;
    assert url[k + 1..k + 11] == rest[k..k + 10];
    assert url[k + 11..end + 1] == rest[k + 10..end] by {
      assert |url[k + 11..end + 1]| == |rest[k + 10..end]|;
    }
    forall i | k + 11 <= i < end + 1 ensures url[i] !in {'/', '?', '#'} {
      assert url[i] == rest[i - 1];
    }
  }

  lemma {:induction false} SegmentExactly(s: string)
    ensures Segment(s) == s[..|Segment(s)|] && (|Segment(s)| == |s| || s[|Segment(s)|] in {'/', '?', '#'})
    ensures Segment(s) != "" <==> s != "" && s[0] !in {'/', '?', '#'}
    ensures forall i :: 0 <= i < |Segment(s)| ==> s[i] !in {'/', '?', '#'}
  {
    if s != "" && !Stop(s[0]) {
      SegmentExactly(s[1..]);
      forall i | 0 <= i < |Segment(s)| ensures s[i] !in {'/', '?', '#'} {
        if i > 0 {
          assert s[i] == s[1..][i - 1];
        }
      }
    }
  }

  lemma BeginsHere(url: string)
    requires url != ""
    ensures PROBLEMS <= url && Segment(url[|PROBLEMS|..]) != "" <==> AddressAt(url, 0)
    ensures AddressAt(url, 0) ==>
              ParseProblemSlug(url).Some? && SlugAt(url, 0, ParseProblemSlug(url).value)
  {
    assert |PROBLEMS| == 10;
    if PROBLEMS <= url {
      var rest := url[10..];
      SegmentExactly(rest);
      assert url[0..10] == "/problems/";
      assert forall i :: 10 <= i < |url| ==> url[i] == rest[i - 10];
    }
  }

  // ----- navigation -----

  predicate Includes(s: string, part: string) {
    exists i :: 0 <= i <= |s| && part <= s[i..]
  }

  function ResolveResumeSlug(tabUrl: string, problems: seq<string>): Option<string> {
    if problems == [] then None
    else
      var current := ParseProblemSlug(tabUrl);
      if current.Some? && current.value in problems then None
      else if !Includes(tabUrl, "leetcode.com") then None
      else Some(problems[0])
  }

  /** A resumed round, or a move to one problem. */
  datatype Move = Resume(problems: seq<string>) | Next(slug: string)

  function Decide(move: Move, tabUrl: string): Option<string> {
    match move
    case Resume(problems) => ResolveResumeSlug(tabUrl, problems)
    case Next(slug) => Some(slug)
  }

  /** Whether a move changes the tab. */
  predicate Navigates(move: Move, tabUrl: string) {
    var target := Decide(move, tabUrl);
    tabUrl != "" && target.Some? && target.value != "" && ParseProblemSlug(tabUrl) != target
  }

  function UrlAfter(move: Move, tabUrl: string): string {
    if Navigates(move, tabUrl) then ProblemUrl(Decide(move, tabUrl).value) else tabUrl
  }

  /** How often the tab is navigated when an event is seen `n` times. */
  function Navigations(move: Move, tabUrl: string, n: nat): nat
    decreases n
  {
    if n == 0 then 0
    else (if Navigates(move, tabUrl) then 1 else 0) + Navigations(move, UrlAfter(move, tabUrl), n - 1)
  }

  /** The first target of a move, if it has one. */
  function Target(move: Move): string {
    match move
    case Resume(problems) => if problems == [] then "" else problems[0]
    case Next(slug) => slug
  }

  /** Which pages a resumed round moves on, and where to: a page of the site that is not of one of
      the round's problems, to the first of them. */
  lemma ResumeNavigatesIff(problems: seq<string>, tabUrl: string)
    ensures Navigates(Resume(problems), tabUrl) <==>
            && problems != [] && problems[0] != ""
            && Includes(tabUrl, "leetcode.com")
            && (ParseProblemSlug(tabUrl) == None || ParseProblemSlug(tabUrl).value !in problems)
    ensures UrlAfter(Resume(problems), tabUrl) ==
            if Navigates(Resume(problems), tabUrl) then "https://leetcode.com/problems/" + problems[0] + "/" else tabUrl
  {
    hide ParseProblemSlug, Includes;
    IncludesExactly(tabUrl, "leetcode.com");
    assert SITE + PROBLEMS == "https://leetcode.com/problems/";
  }

  lemma IncludesExactly(s: string, part: string)
    ensures Includes(s, part) <==> exists i, j :: 0 <= i <= j <= |s| && s[i..j] == part
    ensures Includes(s, part) && part != "" ==> s != ""
  {
    if i :| 0 <= i <= |s| && part <= s[i..] {
      assert s[i..i + |part|] == part;
    }
    if i, j :| 0 <= i <= j <= |s| && s[i..j] == part {
      assert part <= s[i..];
    }
  }

  /** A move to a problem moves on every page that is not its own. */
  lemma NextNavigatesIff(slug: string, tabUrl: string)
    ensures Navigates(Next(slug), tabUrl) <==> tabUrl != "" && slug != "" && ParseProblemSlug(tabUrl) != Some(slug)
    ensures UrlAfter(Next(slug), tabUrl) ==
            if Navigates(Next(slug), tabUrl) then "https://leetcode.com/problems/" + slug + "/" else tabUrl
  {
    hide ParseProblemSlug;
    assert SITE + PROBLEMS == "https://leetcode.com/problems/";
  }

  lemma {:induction false} NoMoreNavigations(move: Move, tabUrl: string, n: nat)
    requires !Navigates(move, tabUrl)
    ensures Navigations(move, tabUrl, n) == 0
    decreases n
  {
    if n > 0 {
      NoMoreNavigations(move, tabUrl, n - 1);
    }
  }

  /** The move stays put once it has arrived. */
  predicate Settles(move: Move) {
    Target(move) == "" || !Navigates(move, ProblemUrl(Target(move)))
  }

  lemma DecideIsTarget(move: Move, tabUrl: string)
    ensures Decide(move, tabUrl).Some? ==> Decide(move, tabUrl).value == Target(move)
  {
  }

  /** From every page, any number of repeats of an event navigates at most once exactly if the
      address it navigates to keeps it there. */
  lemma AtMostOnceIff(move: Move)
    ensures (forall tabUrl, n: nat :: Navigations(move, tabUrl, n) <= 1) <==> Settles(move)
  {
    hide ParseProblemSlug, Decide;
    if Settles(move) {
      forall tabUrl, n: nat
        ensures Navigations(move, tabUrl, n) <= 1
      {
        DecideIsTarget(move, tabUrl);
        if Navigates(move, tabUrl) {
          if n > 0 {
            NoMoreNavigations(move, UrlAfter(move, tabUrl), n - 1);
          }
        } else {
          NoMoreNavigations(move, tabUrl, n);
        }
      }
    } else {
      var url := ProblemUrl(Target(move));
      DecideIsTarget(move, url);
      assert UrlAfter(move, url) == url;
      assert Navigations(move, url, 1) == 1;
      assert Navigations(move, url, 2) == 2;
    }
  }

  /** Which moves settle: a move to a slug, if the slug is plain or empty; a resumed round, if
      its first problem's address is that of one of its problems. */
  lemma SettlesIff(move: Move)
    ensures move.Next? ==> (Settles(move) <==> move.slug == "" || PlainSlug(move.slug))
    ensures move.Resume? ==>
              (Settles(move) <==>
               || move.problems == [] || move.problems[0] == ""
               || (ParseProblemSlug(ProblemUrl(move.problems[0])).Some?
                   && ParseProblemSlug(ProblemUrl(move.problems[0])).value in move.problems))
  {
    var url := ProblemUrl(Target(move));
    assert Includes(url, "leetcode.com") by {
      assert "leetcode.com" <= url[8..];
    }
    ParseInvertsIff(Target(move));
  }

  /** A replayed start does not take a user off the problem they have stepped to, whatever the
      site appended to its address. */
  lemma ResumeKeepsStep(problems: seq<string>, slug: string, rest: string)
    requires PlainSlug(slug) && slug in problems
    ensures !Navigates(Resume(problems), ProblemUrl(slug) + rest)
  {
    ParseOfUrl(slug, rest);
  }

  /** The active tab of the browser, none if its address is empty. */
  class Browser {
    var tabUrl: string
    var navigations: nat

    constructor (tabUrl: string)
      ensures this.tabUrl == tabUrl && navigations == 0
    {
      this.tabUrl, navigations := tabUrl, 0;
    }

    method NavigateActiveTab(move: Move)
      modifies this
      ensures tabUrl == UrlAfter(move, old(tabUrl))
      ensures navigations == old(navigations) + if Navigates(move, old(tabUrl)) then 1 else 0
    {
      if tabUrl == "" {
        return;
      }
      var target := Decide(move, tabUrl);
      if target == None || target.value == "" || ParseProblemSlug(tabUrl) == target {
        return;
      }
      tabUrl := ProblemUrl(target.value);
      navigations := navigations + 1;
    }

    /** An event replayed any number of times. */
    method Replay(move: Move, times: nat)
      modifies this
      ensures navigations == old(navigations) + Navigations(move, old(tabUrl), times)
    {
      for i := 0 to times
        invariant navigations + Navigations(move, tabUrl, times - i)
               == old(navigations) + Navigations(move, old(tabUrl), times)
      {
        NavigateActiveTab(move);
      }
    }
  }
}

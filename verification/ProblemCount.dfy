// The extension's cache of available-problem counts, and the query it stands for: a key built
// by sorting and joining the filters, and the request that the server splits again.

module ProblemCount {
  import opened Common
  import opened Text
  import opened ProblemSet

  /** A choice of filters; the difficulties come as one comma-separated string. */
  datatype Choice = Choice(difficulties: string, filters: Filters)

  // ----- joining and splitting -----

  function Join(parts: seq<string>, sep: char): string {
    if parts == [] then ""
    else if |parts| == 1 then parts[0]
    else parts[0] + [sep] + Join(parts[1..], sep)
  }

  /** The parts between separators: always at least one. */
  function Split(s: string, sep: char): (parts: seq<string>)
    ensures parts != []
  {
    if s == "" then [""]
    else
      var rest := Split(s[1..], sep);
      if s[0] == sep then [""] + rest else [[s[0]] + rest[0]] + rest[1..]
  }

  predicate FreeOf(s: string, sep: char) {
    forall i :: 0 <= i < |s| ==> s[i] != sep
  }

  lemma {:induction false} SplitOne(s: string, sep: char)
    requires FreeOf(s, sep)
    ensures Split(s, sep) == [s]
  {
    if s != "" {
      SplitOne(s[1..], sep);
      assert [s[0]] + s[1..] == s;
    }
  }

  lemma {:induction false} SplitFirst(first: string, sep: char, rest: string)
    requires FreeOf(first, sep)
    ensures Split(first + [sep] + rest, sep) == [first] + Split(rest, sep)
  {
    var s := first + [sep] + rest;
    if first == "" {
      assert s[1..] == rest;
    } else {
      SplitFirst(first[1..], sep, rest);
      assert s[1..] == first[1..] + [sep] + rest;
      assert [s[0]] + first[1..] == first;
    }
  }

  /** Splitting inverts joining for at least one part without separators. */
  lemma {:induction false} SplitJoin(parts: seq<string>, sep: char)
    requires parts != [] && forall i :: 0 <= i < |parts| ==> FreeOf(parts[i], sep)
    ensures Split(Join(parts, sep), sep) == parts
  {
    if |parts| == 1 {
      SplitOne(parts[0], sep);
      assert parts == [parts[0]];
    } else {
      SplitJoin(parts[1..], sep);
      SplitFirst(parts[0], sep, Join(parts[1..], sep));
      assert parts == [parts[0]] + parts[1..];
    }
  }

  /** What the server reads from a query parameter: nothing if it is empty. */
  function Parameter(s: string): seq<string> {
    if s == "" then [] else Split(s, ',')
  }

  /** Names that survive being joined: not empty, and without `,` and `|`. */
  predicate Plain(names: seq<string>) {
    forall i :: 0 <= i < |names| ==> names[i] != "" && FreeOf(names[i], ',') && FreeOf(names[i], '|')
  }

  lemma ParameterRoundTrip(names: seq<string>)
    requires Plain(names)
    ensures Parameter(Join(names, ',')) == names
  {
    if names != [] {
      SplitJoin(names, ',');
      assert Join(names, ',') != "";
    }
  }

  // ----- sorting -----

  function Insert(name: string, names: seq<string>): seq<string> {
    if names == [] || Precedes(name, names[0]) then [name] + names
    else [names[0]] + Insert(name, names[1..])
  }

  function Sorted(names: seq<string>): seq<string> {
    if names == [] then [] else Insert(names[0], Sorted(names[1..]))
  }

  predicate Ascending(names: seq<string>) {
    forall i, j :: 0 <= i < j < |names| ==> Precedes(names[i], names[j])
  }

  lemma {:induction false} InsertAscending(name: string, names: seq<string>)
    requires Ascending(names)
    ensures Ascending(Insert(name, names))
    ensures multiset(Insert(name, names)) == multiset(names) + multiset{name}
  {
    if names != [] {
      assert names == [names[0]] + names[1..];
      if Precedes(name, names[0]) {
        forall j | 0 <= j < |names|
          ensures Precedes(name, names[j])
        {
          if j > 0 {
            PrecedesTransitive(name, names[0], names[j]);
          }
        }
      } else {
        PrecedesTotal(name, names[0]);
        var rest := Insert(name, names[1..]);
        InsertAscending(name, names[1..]);
        forall j | 0 <= j < |rest|
          ensures Precedes(names[0], rest[j])
        {
          assert rest[j] in multiset(rest);
          assert rest[j] == name || rest[j] in names[1..];
        }
      }
    }
  }

  lemma {:induction false} SortedAscending(names: seq<string>)
    ensures Ascending(Sorted(names)) && multiset(Sorted(names)) == multiset(names)
  {
    if names != [] {
      SortedAscending(names[1..]);
      InsertAscending(names[0], Sorted(names[1..]));
      assert names == [names[0]] + names[1..];
    }
  }

  lemma SameHead(a: seq<string>, b: seq<string>)
    requires Ascending(a) && Ascending(b) && multiset(a) == multiset(b) && a != []
    ensures b != [] && a[0] == b[0]
  {
    hide Precedes;
    assert a[0] in multiset(b) && b[0] in multiset(a);
    var i :| 0 <= i < |b| && b[i] == a[0];
    var j :| 0 <= j < |a| && a[j] == b[0];
    PrecedesTotal(a[0], b[0]);
  }

  lemma AscendingTail(a: seq<string>)
    requires Ascending(a) && a != []
    ensures Ascending(a[1..]) && multiset(a[1..]) == multiset(a) - multiset{a[0]} && a == [a[0]] + a[1..]
  {
    hide Precedes;
    assert a == [a[0]] + a[1..];
  }

  lemma {:induction false} AscendingUnique(a: seq<string>, b: seq<string>)
    requires Ascending(a) && Ascending(b) && multiset(a) == multiset(b)
    ensures a == b
  {
    assert |multiset(a)| == |a| && |multiset(b)| == |b|;
    if a != [] {
      SameHead(a, b);
      AscendingTail(a);
      AscendingTail(b);
      hide Ascending;
      AscendingUnique(a[1..], b[1..]);
    }
  }

  /** Sorting forgets the order and nothing else. */
  lemma SortedIff(a: seq<string>, b: seq<string>)
    ensures Sorted(a) == Sorted(b) <==> multiset(a) == multiset(b)
  {
    SortedAscending(a);
    SortedAscending(b);
    if multiset(a) == multiset(b) {
      AscendingUnique(Sorted(a), Sorted(b));
    }
  }

  // ----- the key -----

  function Flag(b: bool): string {
    if b then "1" else "0"
  }

  function Key(c: Choice): string {
    Join([c.difficulties,
          Join(Sorted(c.filters.tags), ','),
          Join(Sorted(c.filters.companies), ','),
          Flag(c.filters.blind75),
          Flag(c.filters.neetCode150),
          Flag(c.filters.recentlyAsked),
          Flag(c.filters.excludePaid)], '|')
  }

  function FlagPart(f: Filters): string {
    ['|'] + (Flag(f.blind75) + ['|'] + (Flag(f.neetCode150) + ['|'] + (Flag(f.recentlyAsked) + ['|'] + Flag(f.excludePaid))))
  }

  lemma KeyParts(c: Choice)
    ensures Key(c) == c.difficulties + ['|'] + Join(Sorted(c.filters.tags), ',')
                      + ['|'] + Join(Sorted(c.filters.companies), ',') + FlagPart(c.filters)
  {
    hide Sorted, Flag, Join;
    var t, m, f := Join(Sorted(c.filters.tags), ','), Join(Sorted(c.filters.companies), ','), c.filters;
    var flags := [Flag(f.blind75)] + ([Flag(f.neetCode150)] + ([Flag(f.recentlyAsked)] + [Flag(f.excludePaid)]));
    assert [c.difficulties] + ([t] + ([m] + flags))
        == [c.difficulties, t, m, Flag(f.blind75), Flag(f.neetCode150), Flag(f.recentlyAsked), Flag(f.excludePaid)];
    JoinMore(c.difficulties, [t] + ([m] + flags), '|');
    JoinMore(t, [m] + flags, '|');
    JoinMore(m, flags, '|');
    FlagJoin(f);
    Regroup(c.difficulties, t, m, Join(flags, '|'));
  }

  lemma Regroup(d: string, t: string, m: string, flags: string)
    ensures d + ['|'] + (t + ['|'] + (m + ['|'] + flags)) == d + ['|'] + t + ['|'] + m + (['|'] + flags)
  {
  }

  lemma JoinMore(first: string, rest: seq<string>, sep: char)
    requires rest != []
    ensures Join([first] + rest, sep) == first + [sep] + Join(rest, sep)
  {
    assert ([first] + rest)[1..] == rest;
  }

  lemma FlagJoin(f: Filters)
    ensures ['|'] + Join([Flag(f.blind75)] + ([Flag(f.neetCode150)] + ([Flag(f.recentlyAsked)] + [Flag(f.excludePaid)])), '|')
         == FlagPart(f)
  {
    var a, b, c, d := Flag(f.blind75), Flag(f.neetCode150), Flag(f.recentlyAsked), Flag(f.excludePaid);
    assert Join([d], '|') == d;
    hide Flag, Join;
    JoinMore(a, [b] + ([c] + [d]), '|');
    JoinMore(b, [c] + [d], '|');
    JoinMore(c, [d], '|');
  }

  lemma {:induction false} JoinFreeOf(names: seq<string>, sep: char, other: char)
    requires sep != other && forall i :: 0 <= i < |names| ==> FreeOf(names[i], other)
    ensures FreeOf(Join(names, sep), other)
  {
    if |names| > 1 {
      JoinFreeOf(names[1..], sep, other);
    }
  }

  lemma SortedPlain(names: seq<string>)
    requires Plain(names)
    ensures Plain(Sorted(names))
  {
    SortedAscending(names);
    forall i | 0 <= i < |Sorted(names)|
      ensures Sorted(names)[i] in names
    {
      assert Sorted(names)[i] in multiset(Sorted(names));
    }
  }

  /** What follows the last separator of a string is determined. */
  lemma LastPart(u: string, x: string, v: string, y: string, sep: char)
    requires FreeOf(x, sep) && FreeOf(y, sep)
    requires u + [sep] + x == v + [sep] + y
    ensures u == v && x == y
  {
    var s := u + [sep] + x;
    var t := v + [sep] + y;
    assert s[|u|] == sep && t[|v|] == sep;
    assert forall i :: |u| < i < |s| ==> s[i] == x[i - |u| - 1];
    assert forall i :: |v| < i < |t| ==> t[i] == y[i - |v| - 1];
    assert |u| == |v|;
    assert s[..|u|] == u && t[..|v|] == v;
    assert s[|u| + 1..] == x && t[|v| + 1..] == y;
  }

  lemma FlagPartEqual(f: Filters, g: Filters, u: string, v: string)
    requires u + FlagPart(f) == v + FlagPart(g)
    ensures u == v && f.blind75 == g.blind75 && f.neetCode150 == g.neetCode150
    ensures f.recentlyAsked == g.recentlyAsked && f.excludePaid == g.excludePaid
  {
    var a, b := FlagPart(f), FlagPart(g);
    assert |a| == |b| == 8;
    assert (u + a)[..|u|] == u && (v + b)[..|v|] == v;
    assert (u + a)[|u|..] == a && (v + b)[|v|..] == b;
    assert a[1] == Flag(f.blind75)[0] && a[3] == Flag(f.neetCode150)[0];
    assert a[5] == Flag(f.recentlyAsked)[0] && a[7] == Flag(f.excludePaid)[0];
  }

  /** The same selection, whatever order it was made in. */
  predicate Same(c: Choice, d: Choice) {
    && c.difficulties == d.difficulties
    && multiset(c.filters.tags) == multiset(d.filters.tags)
    && multiset(c.filters.companies) == multiset(d.filters.companies)
    && c.filters.blind75 == d.filters.blind75 && c.filters.neetCode150 == d.filters.neetCode150
    && c.filters.recentlyAsked == d.filters.recentlyAsked && c.filters.excludePaid == d.filters.excludePaid
  }

  predicate PlainChoice(c: Choice) {
    Plain(c.filters.tags) && Plain(c.filters.companies)
  }

  /** Keys are equal exactly for the same selections. */
  lemma SameKeyIff(c: Choice, d: Choice)
    requires PlainChoice(c) && PlainChoice(d)
    ensures Key(c) == Key(d) <==> Same(c, d)
  {
    var f, g := c.filters, d.filters;
    var tf, tg, mf, mg := Sorted(f.tags), Sorted(g.tags), Sorted(f.companies), Sorted(g.companies);
    SortedIff(f.tags, g.tags);
    SortedIff(f.companies, g.companies);
    if Key(c) == Key(d) {
      KeyParts(c);
      KeyParts(d);
      SortedPlain(f.tags);
      SortedPlain(g.tags);
      SortedPlain(f.companies);
      SortedPlain(g.companies);
      hide Key, Sorted, FlagPart, Precedes, Join, Split;
      var headF, headG := c.difficulties + ['|'] + Join(tf, ','), d.difficulties + ['|'] + Join(tg, ',');
      FlagPartEqual(f, g, headF + ['|'] + Join(mf, ','), headG + ['|'] + Join(mg, ','));
      JoinFreeOf(mf, ',', '|');
      JoinFreeOf(mg, ',', '|');
      LastPart(headF, Join(mf, ','), headG, Join(mg, ','), '|');
      JoinFreeOf(tf, ',', '|');
      JoinFreeOf(tg, ',', '|');
      LastPart(c.difficulties, Join(tf, ','), d.difficulties, Join(tg, ','), '|');
      ParameterRoundTrip(tf);
      ParameterRoundTrip(tg);
      ParameterRoundTrip(mf);
      ParameterRoundTrip(mg);
    }
  }

  // ----- which other choices share a key -----

  /** The pieces a list falls into at its commas; an empty list looks like one empty name. */
  function Pieces(names: seq<string>): seq<string> {
    if names == [] then [""] else AllPieces(names)
  }

  function AllPieces(names: seq<string>): seq<string> {
    if names == [] then [] else Split(names[0], ',') + AllPieces(names[1..])
  }

  lemma {:induction false} SplitConcat(first: string, rest: string)
    ensures Split(first + [','] + rest, ',') == Split(first, ',') + Split(rest, ',')
  {
    var s := first + [','] + rest;
    if first == "" {
      assert s[1..] == rest;
    } else {
      assert s[1..] == first[1..] + [','] + rest && s[0] == first[0];
      SplitConcat(first[1..], rest);
      HeadSplit(first[0], Split(first[1..], ','), Split(rest, ','));
    }
  }

  lemma HeadSplit(c: char, a: seq<string>, b: seq<string>)
    requires a != []
    ensures [""] + (a + b) == ([""] + a) + b
    ensures [[c] + (a + b)[0]] + (a + b)[1..] == ([[c] + a[0]] + a[1..]) + b
  {
    assert (a + b)[1..] == a[1..] + b;
  }

  lemma {:induction false} SplitOfJoin(names: seq<string>)
    ensures Split(Join(names, ','), ',') == Pieces(names)
  {
    if |names| == 1 {
      assert AllPieces(names) == Split(names[0], ',') + [];
    } else if |names| > 1 {
      SplitOfJoin(names[1..]);
      SplitConcat(names[0], Join(names[1..], ','));
    }
  }

  lemma {:induction false} JoinOfSplit(s: string)
    ensures Join(Split(s, ','), ',') == s
  {
    if s != "" {
      var rest := Split(s[1..], ',');
      JoinOfSplit(s[1..]);
      assert s == [s[0]] + s[1..];
      if s[0] == ',' {
        assert ([""] + rest)[1..] == rest;
      } else {
        assert ([[s[0]] + rest[0]] + rest[1..])[1..] == rest[1..];
      }
    }
  }

  predicate WithoutBars(names: seq<string>) {
    forall i :: 0 <= i < |names| ==> FreeOf(names[i], '|')
  }

  lemma SortedWithoutBars(names: seq<string>)
    requires WithoutBars(names)
    ensures WithoutBars(Sorted(names))
  {
    SortedAscending(names);
    forall i | 0 <= i < |Sorted(names)|
      ensures Sorted(names)[i] in names
    {
      assert Sorted(names)[i] in multiset(Sorted(names));
    }
  }

  /** Whatever the names, as long as none holds a bar: two choices share a key exactly if their
      difficulties and flags are equal and their sorted lists fall into the same pieces. */
  lemma SharedKeyIff(c: Choice, d: Choice)
    requires WithoutBars(c.filters.tags) && WithoutBars(c.filters.companies)
    requires WithoutBars(d.filters.tags) && WithoutBars(d.filters.companies)
    ensures Key(c) == Key(d) <==>
            && c.difficulties == d.difficulties
            && Pieces(Sorted(c.filters.tags)) == Pieces(Sorted(d.filters.tags))
            && Pieces(Sorted(c.filters.companies)) == Pieces(Sorted(d.filters.companies))
            && c.filters.blind75 == d.filters.blind75 && c.filters.neetCode150 == d.filters.neetCode150
            && c.filters.recentlyAsked == d.filters.recentlyAsked && c.filters.excludePaid == d.filters.excludePaid
  {
    var f, g := c.filters, d.filters;
    var tf, tg, mf, mg := Sorted(f.tags), Sorted(g.tags), Sorted(f.companies), Sorted(g.companies);
    SplitOfJoin(tf);
    SplitOfJoin(tg);
    SplitOfJoin(mf);
    SplitOfJoin(mg);
    JoinOfSplit(Join(tf, ','));
    JoinOfSplit(Join(tg, ','));
    JoinOfSplit(Join(mf, ','));
    JoinOfSplit(Join(mg, ','));
    KeyParts(c);
    KeyParts(d);
    if Key(c) == Key(d) {
      SortedWithoutBars(f.tags);
      SortedWithoutBars(g.tags);
      SortedWithoutBars(f.companies);
      SortedWithoutBars(g.companies);
      hide Key, Sorted, FlagPart, Precedes, Join, Split, Pieces;
      var headF, headG := c.difficulties + ['|'] + Join(tf, ','), d.difficulties + ['|'] + Join(tg, ',');
      FlagPartEqual(f, g, headF + ['|'] + Join(mf, ','), headG + ['|'] + Join(mg, ','));
      JoinFreeOf(mf, ',', '|');
      JoinFreeOf(mg, ',', '|');
      LastPart(headF, Join(mf, ','), headG, Join(mg, ','), '|');
      JoinFreeOf(tf, ',', '|');
      JoinFreeOf(tg, ',', '|');
      LastPart(c.difficulties, Join(tf, ','), d.difficulties, Join(tg, ','), '|');
    }
  }

  /** A name with a comma shares its key with its pieces. */
  lemma CommaCollides(f: Filters)
    ensures Key(Choice("", f.(tags := ["a,b"]))) == Key(Choice("", f.(tags := ["a", "b"])))
    ensures !Same(Choice("", f.(tags := ["a,b"])), Choice("", f.(tags := ["a", "b"])))
  {
    TwoNames();
    assert |multiset(["a,b"])| != |multiset(["a", "b"])|;
    hide Sorted, Join;
  }

  lemma TwoNames()
    ensures Join(Sorted(["a,b"]), ',') == "a,b" == Join(Sorted(["a", "b"]), ',')
  {
    assert ["a", "b"][1..] == ["b"] && ["b"][1..] == [];
    assert Precedes("a", "b");
    assert Sorted(["b"]) == ["b"];
    assert Sorted(["a", "b"]) == ["a", "b"];
    hide Sorted, Precedes;
    assert Join(["b"], ',') == "b";
  }

  // ----- the count -----

  /** The filters as the server receives them. */
  function Received(f: Filters): Filters {
    f.(tags := Parameter(Join(f.tags, ',')), companies := Parameter(Join(f.companies, ',')))
  }

  /** The count the server answers a choice with. */
  function Answer(u: Unicode, catalogue: Catalogue, c: Choice): nat {
    |Available(u, catalogue, Normal(u, Received(c.filters)), Parameter(c.difficulties))|
  }

  /** Filters that name the same things select the same problems. */
  lemma SameSelection(u: Unicode, catalogue: Catalogue, f: Filters, g: Filters, difficulties: seq<string>)
    requires f == g.(tags := f.tags, companies := f.companies)
    requires (forall t :: t in f.tags <==> t in g.tags) && (forall t :: t in f.companies <==> t in g.companies)
    ensures Available(u, catalogue, f, difficulties) == Available(u, catalogue, g, difficulties)
  {
    assert f.tags == [] <==> g.tags == [] by {
      assert f.tags != [] ==> f.tags[0] in g.tags;
      assert g.tags != [] ==> g.tags[0] in f.tags;
    }
    assert f.companies == [] <==> g.companies == [] by {
      assert f.companies != [] ==> f.companies[0] in g.companies;
      assert g.companies != [] ==> g.companies[0] in f.companies;
    }
    forall id | id in catalogue.problems
      ensures TagFilter(u, catalogue.problems[id], f.tags) == TagFilter(u, catalogue.problems[id], g.tags)
      ensures CompanyFilter(u, catalogue, id, f.companies) == CompanyFilter(u, catalogue, id, g.companies)
      ensures AskedBy(u, catalogue, id, f.companies, RECENT_WINDOWS) == AskedBy(u, catalogue, id, g.companies, RECENT_WINDOWS)
    {
      TagFilterKeeps(u, catalogue.problems[id], f.tags, g.tags);
      TagFilterKeeps(u, catalogue.problems[id], g.tags, f.tags);
      CompanyFilterKeeps(u, catalogue, id, f.companies, g.companies);
      CompanyFilterKeeps(u, catalogue, id, g.companies, f.companies);
    }
    hide TagFilter, CompanyFilter, AskedBy;
  }

  lemma TagFilterKeeps(u: Unicode, p: Problem, a: seq<string>, b: seq<string>)
    requires forall t :: t in a ==> t in b
    requires b == [] ==> a == []
    ensures a != [] && TagFilter(u, p, a) ==> TagFilter(u, p, b)
  {
    hide ToLower;
    if a != [] && TagFilter(u, p, a) {
      var i, j :| 0 <= i < |a| && 0 <= j < |p.tags| && ToLower(u, p.tags[j]) == ToLower(u, a[i]);
      assert a[i] in b;
      var k :| 0 <= k < |b| && b[k] == a[i];
    }
  }

  lemma CompanyFilterKeeps(u: Unicode, c: Catalogue, id: nat, a: seq<string>, b: seq<string>)
    requires forall t :: t in a ==> t in b
    ensures a != [] && CompanyFilter(u, c, id, a) ==> CompanyFilter(u, c, id, b)
    ensures AskedBy(u, c, id, a, RECENT_WINDOWS) ==> AskedBy(u, c, id, b, RECENT_WINDOWS)
  {
    hide ToLower;
    forall i | 0 <= i < |a|
      ensures exists k :: 0 <= k < |b| && b[k] == a[i]
    {
      assert a[i] in b;
    }
  }

  lemma NormalMembers(u: Unicode, a: seq<string>, b: seq<string>)
    requires multiset(a) == multiset(b)
    ensures forall t :: t in Normalized(u, a) <==> t in Normalized(u, b)
  {
    hide Normalized, TrimSpace;
    forall t
      ensures t in Normalized(u, a) <==> t in Normalized(u, b)
    {
      NormalizedExactly(u, a, t);
      NormalizedExactly(u, b, t);
      assert forall k :: 0 <= k < |a| ==> a[k] in multiset(b);
      assert forall k :: 0 <= k < |b| ==> b[k] in multiset(a);
    }
  }

  /** The server counts the same for choices with the same key. */
  lemma SameKeySameAnswer(u: Unicode, catalogue: Catalogue, c: Choice, d: Choice)
    requires PlainChoice(c) && PlainChoice(d) && Key(c) == Key(d)
    ensures Answer(u, catalogue, c) == Answer(u, catalogue, d)
  {
    SameKeyIff(c, d);
    var f, g := c.filters, d.filters;
    ParameterRoundTrip(f.tags);
    ParameterRoundTrip(g.tags);
    ParameterRoundTrip(f.companies);
    ParameterRoundTrip(g.companies);
    NormalMembers(u, f.tags, g.tags);
    NormalMembers(u, f.companies, g.companies);
    hide Key, Sorted, Join, Parameter, Available, Normalized;
    SameSelection(u, catalogue, Normal(u, f), Normal(u, g), Parameter(c.difficulties));
  }

  /** A count that covers the request means the server will find the problems when the round is
      created with the same filters. */
  lemma ShownCountServes(u: Unicode, catalogue: Catalogue, c: Choice, r: Request)
    requires PlainChoice(c) && r.ids == [] && r.filters == c.filters
    requires Answer(u, catalogue, c) >= if r.anyDifficulty then r.count else r.counts.Total()
    ensures Served(u, catalogue, r)
  {
    hide Available, Base, Parameter, Join, Normalized;
    ParameterRoundTrip(c.filters.tags);
    ParameterRoundTrip(c.filters.companies);
    CountedIsEnough(u, catalogue, Normal(u, c.filters), Parameter(c.difficulties),
                    if r.anyDifficulty then r.count else r.counts.Total());
  }

  // ----- the cache -----

  class ProblemCountStore {
    var counts: map<string, nat>

    constructor ()
      ensures counts == map[]
    {
      counts := map[];
    }

    method GetCount(key: string) returns (count: Option<nat>)
      ensures count == if key in counts then Some(counts[key]) else None
    {
      count := if key in counts then Some(counts[key]) else None;
    }

    method SetCount(key: string, count: nat)
      modifies this
      ensures counts == old(counts)[key := count]
    {
      counts := counts[key := count];
    }

    /** Every cached count of a plain choice is the one the server would answer. */
    ghost predicate Truthful(u: Unicode, catalogue: Catalogue)
      reads this
    {
      forall c :: PlainChoice(c) && Key(c) in counts ==> counts[Key(c)] == Answer(u, catalogue, c)
    }

    /** The count shown for a choice: the cached one, or the server's, then cached. While the
        catalogue does not change this is what the server would answer now. */
    method AvailableCount(u: Unicode, catalogue: Catalogue, c: Choice) returns (count: nat)
      modifies this
      ensures old(Truthful(u, catalogue)) && PlainChoice(c) ==> Truthful(u, catalogue) && count == Answer(u, catalogue, c)
      ensures Key(c) in counts && counts[Key(c)] == count
      ensures forall key :: key != Key(c) ==> (key in counts <==> key in old(counts))
      ensures forall key :: key in old(counts) ==> key in counts && counts[key] == old(counts[key])
    {
      hide Key, Answer, PlainChoice;
      var key := Key(c);
      var cached := GetCount(key);
      if cached != None {
        return cached.value;
      }
      count := Query(u, catalogue, c);
      SetCount(key, count);
      forall d | old(Truthful(u, catalogue)) && PlainChoice(c) && PlainChoice(d) && Key(d) == key
        ensures Answer(u, catalogue, d) == count
      {
        SameKeySameAnswer(u, catalogue, c, d);
      }
    }
  }

  /** The request to the server and its answer. */
  method Query(u: Unicode, catalogue: Catalogue, c: Choice) returns (count: nat)
    ensures count == Answer(u, catalogue, c)
  {
    var tags := Join(c.filters.tags, ',');
    var companies := Join(c.filters.companies, ',');
    var received := c.filters.(tags := Parameter(tags), companies := Parameter(companies));
    count := CountAvailable(u, catalogue, received, Parameter(c.difficulties));
  }
}

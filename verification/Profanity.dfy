// The chat filter: a whole-word search for each listed term that, after a match in the middle
// of a word, goes on behind the match instead of one position later.

module Profanity {
  import opened Text

  predicate OccursAt(text: string, term: string, i: int) {
    0 <= i && i + |term| <= |text| && text[i..i + |term|] == term
  }

  predicate HasWordBoundaries(u: Unicode, text: string, start: nat, end: nat, term: string)
    requires term != "" && start <= end <= |text|
  {
    && !(u.wordCharacter(term[0]) && start > 0 && u.wordCharacter(text[start - 1]))
    && !(u.wordCharacter(term[|term| - 1]) && end < |text| && u.wordCharacter(text[end]))
  }

  /** The term stands at `i` as a whole word or phrase. */
  predicate WholeWordAt(u: Unicode, text: string, term: string, i: int)
    requires term != ""
  {
    OccursAt(text, term, i) && HasWordBoundaries(u, text, i, i + |term|, term)
  }

  /** The simple form: some position of the text holds the whole word. */
  predicate Mentions(u: Unicode, text: string, term: string)
    requires term != ""
  {
    exists i :: 0 <= i <= |text| && WholeWordAt(u, text, term, i)
  }

  /** Where a term begins and ends with a letter or digit, a text mentions it exactly if it stands
      somewhere with no letter or digit next to it. */
  lemma WordMentionedIff(u: Unicode, text: string, term: string)
    requires term != "" && u.wordCharacter(term[0]) && u.wordCharacter(term[|term| - 1])
    ensures Mentions(u, text, term) <==>
            exists i, j ::
              && 0 <= i <= j <= |text| && text[i..j] == term
              && (i == 0 || !u.wordCharacter(text[i - 1])) && (j == |text| || !u.wordCharacter(text[j]))
  {
    if i :| 0 <= i <= |text| && WholeWordAt(u, text, term, i) {
      assert text[i..i + |term|] == term;
    }
    if i, j :|
         && 0 <= i <= j <= |text| && text[i..j] == term
         && (i == 0 || !u.wordCharacter(text[i - 1])) && (j == |text| || !u.wordCharacter(text[j])) {
      assert j == i + |term|;
      assert WholeWordAt(u, text, term, i);
    }
  }

  /** Where it begins and ends with other characters, it is enough that it stands in the text. */
  lemma PhraseMentionedIff(u: Unicode, text: string, term: string)
    requires term != "" && !u.wordCharacter(term[0]) && !u.wordCharacter(term[|term| - 1])
    ensures Mentions(u, text, term) <==> exists i, j :: 0 <= i <= j <= |text| && text[i..j] == term
  {
    if i :| 0 <= i <= |text| && WholeWordAt(u, text, term, i) {
      assert text[i..i + |term|] == term;
    }
    if i, j :| 0 <= i <= j <= |text| && text[i..j] == term {
      assert j == i + |term|;
      assert WholeWordAt(u, text, term, i);
    }
  }

  /** The first occurrence at or after `from`, -1 if there is none. */
  function Index(text: string, term: string, from: nat): (m: int)
    requires from <= |text|
    ensures m == -1 || (from <= m <= |text| - |term| && OccursAt(text, term, m))
    ensures forall i :: from <= i && (m == -1 || i < m) ==> !OccursAt(text, term, i)
    decreases |text| - from
  {
    if OccursAt(text, term, from) then from
    else if from == |text| then -1
    else Index(text, term, from + 1)
  }

  /** The skipping search from `start` on. */
  predicate Finds(u: Unicode, text: string, term: string, start: nat)
    requires term != "" && start <= |text|
    decreases |text| - start
  {
    var m := Index(text, term, start);
    m != -1 && (HasWordBoundaries(u, text, m, m + |term|, term) || Finds(u, text, term, m + |term|))
  }

  /** A search never reports what is not there as a whole word. */
  lemma {:induction false} FindsOnlyMentions(u: Unicode, text: string, term: string, start: nat)
    requires term != "" && start <= |text| && Finds(u, text, term, start)
    ensures Mentions(u, text, term)
    decreases |text| - start
  {
    hide HasWordBoundaries, OccursAt;
    var m := Index(text, term, start);
    if HasWordBoundaries(u, text, m, m + |term|, term) {
      assert WholeWordAt(u, text, term, m);
    } else {
      FindsOnlyMentions(u, text, term, m + |term|);
    }
  }

  /** The term overlaps itself at distance `d`, and there are texts in which the first of two
      overlapping occurrences sticks to a word while the second one does not. */
  predicate BadShift(u: Unicode, term: string, d: int) {
    && 0 < d < |term| && term[d..] == term[..|term| - d]
    && if u.wordCharacter(term[0]) then !u.wordCharacter(term[d - 1])
       else u.wordCharacter(term[|term| - 1]) && u.wordCharacter(term[|term| - d])
  }

  predicate Skippable(u: Unicode, term: string) {
    forall d :: 0 < d < |term| ==> !BadShift(u, term, d)
  }

  lemma OccurrenceChars(text: string, term: string, i: int)
    requires OccursAt(text, term, i)
    ensures forall j :: 0 <= j < |term| ==> term[j] == text[i + j]
  {
    forall j | 0 <= j < |term|
      ensures term[j] == text[i + j]
    {
      assert text[i..i + |term|][j] == text[i + j];
    }
  }

  /** Two occurrences less than a term apart overlap; only a bad shift lets the first fail the
      boundary test while the second passes it. */
  lemma OverlapIsBadShift(u: Unicode, text: string, term: string, m: nat, p: nat)
    requires term != "" && m < p < m + |term|
    requires OccursAt(text, term, m) && WholeWordAt(u, text, term, p)
    requires !HasWordBoundaries(u, text, m, m + |term|, term)
    ensures BadShift(u, term, p - m)
  {
    var d := p - m;
    OccurrenceChars(text, term, m);
    OccurrenceChars(text, term, p);
    assert term[d..] == term[..|term| - d];
    assert term[d - 1] == text[p - 1];
    assert term[|term| - d] == text[m + |term|];
  }

  lemma {:induction false} FindsAll(u: Unicode, text: string, term: string, start: nat, p: nat)
    requires term != "" && Skippable(u, term)
    requires start <= p <= |text| && WholeWordAt(u, text, term, p)
    ensures Finds(u, text, term, start)
    decreases |text| - start
  {
    var m := Index(text, term, start);
    if !HasWordBoundaries(u, text, m, m + |term|, term) {
      if p < m + |term| {
        OverlapIsBadShift(u, text, term, m, p);
      }
      FindsAll(u, text, term, m + |term|, p);
    }
  }

  /** A text in which the search steps over the only whole word. */
  function Missed(u: Unicode, term: string, d: int): string
    requires BadShift(u, term, d)
  {
    if u.wordCharacter(term[0]) then [term[0]] + term[..d] + term else term[..d] + term
  }

  /** In that text the term stands at `lead` and at `lead + d`, and nowhere before. */
  lemma MissedOccurrences(u: Unicode, term: string, d: int)
    requires BadShift(u, term, d)
    ensures var text, lead := Missed(u, term, d), if u.wordCharacter(term[0]) then 1 else 0;
            && |text| == lead + d + |term| && text[lead..] == term[..d] + term && text[0] == term[0]
            && OccursAt(text, term, lead) && OccursAt(text, term, lead + d)
  {
    var text, lead := Missed(u, term, d), if u.wordCharacter(term[0]) then 1 else 0;
    assert text[lead..] == term[..d] + term;
    assert text[lead + d..lead + d + |term|] == (term[..d] + term)[d..] == term;
    assert term == term[..d] + term[..|term| - d];
    assert text[lead..lead + |term|] == (term[..d] + term)[..|term|] == term[..d] + term[..|term| - d];
  }

  lemma NotAtStart(u: Unicode, term: string, d: int)
    requires BadShift(u, term, d) && u.wordCharacter(term[0])
    ensures !OccursAt(Missed(u, term, d), term, 0)
  {
    hide Missed;
    var text := Missed(u, term, d);
    MissedOccurrences(u, term, d);
    OccurrenceChars(text, term, 1);
    if OccursAt(text, term, 0) {
      OccurrenceChars(text, term, 0);
      AllAlike(term, d - 1);
    }
  }

  lemma MissedIsMissed(u: Unicode, term: string, d: int)
    requires BadShift(u, term, d)
    ensures Mentions(u, Missed(u, term, d), term) && !Finds(u, Missed(u, term, d), term, 0)
  {
    hide Missed, OccursAt;
    var text, lead := Missed(u, term, d), if u.wordCharacter(term[0]) then 1 else 0;
    MissedOccurrences(u, term, d);
    assert text[lead + d - 1] == text[lead..][d - 1] == term[d - 1];
    assert WholeWordAt(u, text, term, lead + d);
    assert text[lead + |term|] == text[lead..][|term|] == term[|term| - d];
    assert !HasWordBoundaries(u, text, lead, lead + |term|, term);
    if u.wordCharacter(term[0]) {
      NotAtStart(u, term, d);
    }
    assert Index(text, term, 0) == lead;
    TooShort(text, term, lead + |term|);
  }

  lemma TooShort(text: string, term: string, from: nat)
    requires from <= |text| < from + |term|
    ensures Index(text, term, from) == -1
  {
  }

  lemma {:induction false} AllAlike(s: string, k: nat)
    requires k < |s| && forall i :: 0 <= i < |s| - 1 ==> s[i + 1] == s[i]
    ensures s[k] == s[0]
  {
    if k > 0 {
      AllAlike(s, k - 1);
      assert s[k - 1 + 1] == s[k - 1];
    }
  }

  /** The skipping search answers like the simple one on every text exactly when no bad shift
      exists. */
  lemma SearchExactIff(u: Unicode, term: string)
    requires term != ""
    ensures (forall text: string :: Finds(u, text, term, 0) <==> Mentions(u, text, term)) <==> Skippable(u, term)
  {
    if Skippable(u, term) {
      forall text: string
        ensures Finds(u, text, term, 0) <==> Mentions(u, text, term)
      {
        if Mentions(u, text, term) {
          var p: int :| 0 <= p <= |text| && WholeWordAt(u, text, term, p);
          FindsAll(u, text, term, 0, p);
        }
        if Finds(u, text, term, 0) {
          FindsOnlyMentions(u, text, term, 0);
        }
      }
    } else {
      var d :| 0 < d < |term| && BadShift(u, term, d);
      MissedIsMissed(u, term, d);
    }
  }

  /** Terms of letters and digits alone are searched exactly. */
  lemma WordsAreSkippable(u: Unicode, term: string)
    requires forall i :: 0 <= i < |term| ==> u.wordCharacter(term[i])
    ensures Skippable(u, term)
  {
    forall d | 0 < d < |term|
      ensures !BadShift(u, term, d)
    {
      assert u.wordCharacter(term[d - 1]);
    }
  }

  /** A phrase can be missed: "a b a" in "aa b a b a". */
  lemma PhraseMissed(u: Unicode)
    requires u.wordCharacter('a') && !u.wordCharacter(' ')
    ensures Mentions(u, "aa b a b a", "a b a") && !Finds(u, "aa b a b a", "a b a", 0)
  {
    var term := "a b a";
    assert term[4..] == term[..1] == "a";
    assert BadShift(u, term, 4);
    assert Missed(u, term, 4) == "aa b a b a";
    MissedIsMissed(u, term, 4);
  }

  // ----- the filter -----

  function Term(u: Unicode, word: string): string {
    TrimSpace(u, ToLower(u, word))
  }

  /** What the filter reports. */
  predicate Reports(u: Unicode, words: seq<string>, text: string) {
    exists k :: 0 <= k < |words| && Term(u, words[k]) != "" && Finds(u, ToLower(u, text), Term(u, words[k]), 0)
  }

  /** A term is its entry in lower case without the white space around it. */
  lemma TermExactly(u: Unicode, word: string) returns (i: nat, j: nat)
    ensures i <= j <= |word| && |Term(u, word)| == j - i
    ensures forall k :: i <= k < j ==> Term(u, word)[k - i] == u.lower(word[k])
    ensures forall k :: 0 <= k < i || j <= k < |word| ==> u.space(u.lower(word[k]))
    ensures i < j ==> !u.space(u.lower(word[i])) && !u.space(u.lower(word[j - 1]))
  {
    hide TrimSpace, ToLower;
    i, j := TrimExactly(u, ToLower(u, word));
    var t := Term(u, word);
    assert forall k :: i <= k < j ==> t[k - i] == ToLower(u, word)[k];
  }

  method Contains(u: Unicode, words: seq<string>, text: string) returns (found: bool)
    ensures found == Reports(u, words, text)
  {
    hide HasWordBoundaries, OccursAt, TrimSpace, ToLower;
    var lowered := ToLower(u, text);
    for k := 0 to |words|
      invariant forall j :: 0 <= j < k ==> Term(u, words[j]) == "" || !Finds(u, lowered, Term(u, words[j]), 0)
    {
      var word := TrimSpace(u, ToLower(u, words[k]));
      if word == "" {
        continue;
      }
      var start := 0;
      while true
        invariant start <= |lowered|
        invariant Finds(u, lowered, word, 0) == Finds(u, lowered, word, start)
        decreases |lowered| - start
      {
        var matchStart := Index(lowered, word, start);
        if matchStart == -1 {
          break;
        }
        var matchEnd := matchStart + |word|;
        if HasWordBoundaries(u, lowered, matchStart, matchEnd, word) {
          return true;
        }
        start := matchEnd;
      }
    }
    return false;
  }

  /** Over any list a report names a term that stands in the text as a whole word, and when no
      term of the list has a bad shift every such text is reported. */
  lemma ReportsMentions(u: Unicode, words: seq<string>, text: string)
    ensures Reports(u, words, text) ==>
              exists k :: 0 <= k < |words| && Term(u, words[k]) != "" && Mentions(u, ToLower(u, text), Term(u, words[k]))
    ensures (forall k :: 0 <= k < |words| ==> Skippable(u, Term(u, words[k]))) ==>
              (Reports(u, words, text) <==>
               exists k :: 0 <= k < |words| && Term(u, words[k]) != "" && Mentions(u, ToLower(u, text), Term(u, words[k])))
  {
    hide Skippable, Mentions, Finds, Term;
    forall k | 0 <= k < |words| && Term(u, words[k]) != ""
      ensures Finds(u, ToLower(u, text), Term(u, words[k]), 0) ==> Mentions(u, ToLower(u, text), Term(u, words[k]))
      ensures Skippable(u, Term(u, words[k])) ==>
                (Finds(u, ToLower(u, text), Term(u, words[k]), 0) <==> Mentions(u, ToLower(u, text), Term(u, words[k])))
    {
      var t := Term(u, words[k]);
      SearchExactIff(u, t);
      if Finds(u, ToLower(u, text), t, 0) {
        FindsOnlyMentions(u, ToLower(u, text), t, 0);
      }
    }
  }

  predicate Idempotent(u: Unicode, s: string) {
    forall i :: 0 <= i < |s| ==> u.lower(s[i]) == s[i]
  }

  lemma {:induction false} TrimLeftKeeps(u: Unicode, s: string)
    requires Idempotent(u, s)
    ensures Idempotent(u, TrimLeft(u, s))
  {
    if s != "" {
      TrimLeftKeeps(u, s[1..]);
    }
  }

  lemma {:induction false} TrimRightKeeps(u: Unicode, s: string)
    requires Idempotent(u, s)
    ensures Idempotent(u, TrimRight(u, s))
  {
    if s != "" {
      TrimRightKeeps(u, s[..|s| - 1]);
    }
  }

  /** Lower-casing a missed text changes nothing: it is made of the term. */
  lemma MissedIsLower(u: Unicode, term: string, d: int)
    requires BadShift(u, term, d) && Idempotent(u, term)
    ensures ToLower(u, Missed(u, term, d)) == Missed(u, term, d)
  {
  }

  /** For a filter of one word: every message mentioning it is reported, and no other, exactly
      if its term has no bad shift. Lower-casing twice is lower-casing once. */
  lemma FilterExactIff(u: Unicode, word: string)
    requires Term(u, word) != "" && forall c :: u.lower(u.lower(c)) == u.lower(c)
    ensures (forall text :: Reports(u, [word], text) <==> Mentions(u, ToLower(u, text), Term(u, word)))
            <==> Skippable(u, Term(u, word))
  {
    var term := Term(u, word);
    assert Idempotent(u, ToLower(u, word));
    TrimLeftKeeps(u, ToLower(u, word));
    TrimRightKeeps(u, TrimLeft(u, ToLower(u, word)));
    assert Idempotent(u, term);
    forall text ensures Reports(u, [word], text) <==> Finds(u, ToLower(u, text), term, 0) {
      assert [word][0] == word;
    }
    hide Reports, Finds, Mentions, Term;
    SearchExactIff(u, term);
    if !Skippable(u, term) {
      var d :| 0 < d < |term| && BadShift(u, term, d);
      MissedIsMissed(u, term, d);
      MissedIsLower(u, term, d);
      assert !Reports(u, [word], Missed(u, term, d));
    } else {
      forall text ensures Reports(u, [word], text) <==> Mentions(u, ToLower(u, text), term) {
        assert Finds(u, ToLower(u, text), term, 0) <==> Mentions(u, ToLower(u, text), term);
      }
    }
  }
}

// Strings as the services see them.

module Text {

  /** The character tables of the run-time libraries: white space, letters and numbers, and
      the lower-case form of a character. */
  datatype Unicode = Unicode(space: char -> bool, wordCharacter: char -> bool, lower: char -> char)

  function TrimLeft(u: Unicode, s: string): (t: string)
    ensures t != "" ==> !u.space(t[0])
  {
    if s != "" && u.space(s[0]) then TrimLeft(u, s[1..]) else s
  }

  function TrimRight(u: Unicode, s: string): (t: string)
    ensures t <= s
    ensures t != "" ==> !u.space(t[|t| - 1])
  {
    if s != "" && u.space(s[|s| - 1]) then TrimRight(u, s[..|s| - 1]) else s
  }

  function TrimSpace(u: Unicode, s: string): (t: string)
    ensures t != "" ==> !u.space(t[0]) && !u.space(t[|t| - 1])
  {
    TrimRight(u, TrimLeft(u, s))
  }

  function ToLower(u: Unicode, s: string): (t: string)
    ensures |t| == |s|
    ensures forall i :: 0 <= i < |s| ==> t[i] == u.lower(s[i])
  {
    seq(|s|, i requires 0 <= i < |s| => u.lower(s[i]))
  }

  /** The dictionary order of strings, reflexive. */
  predicate Precedes(a: string, b: string) {
    a == "" || (b != "" && (a[0] < b[0] || (a[0] == b[0] && Precedes(a[1..], b[1..]))))
  }

  lemma {:induction false} PrecedesTotal(a: string, b: string)
    ensures Precedes(a, b) || Precedes(b, a)
    ensures Precedes(a, b) && Precedes(b, a) ==> a == b
  {
    if a != "" && b != "" {
      PrecedesTotal(a[1..], b[1..]);
      assert a == [a[0]] + a[1..] && b == [b[0]] + b[1..];
    }
  }

  lemma {:induction false} PrecedesTransitive(a: string, b: string, c: string)
    requires Precedes(a, b) && Precedes(b, c)
    ensures Precedes(a, c)
  {
    if a != "" {
      if a[0] == b[0] && b[0] == c[0] {
        PrecedesTransitive(a[1..], b[1..], c[1..]);
      }
    }
  }

  /** One string comes before another exactly if it is a start of it, or is less at the first
      place where they differ. */
  lemma PrecedesIff(a: string, b: string)
    ensures Precedes(a, b) <==> a <= b || exists i :: 0 <= i < |a| && i < |b| && a[..i] == b[..i] && a[i] < b[i]
  {
    hide Precedes;
    if a <= b {
      StartPrecedes(a, b);
    }
    if i :| 0 <= i < |a| && i < |b| && a[..i] == b[..i] && a[i] < b[i] {
      LessPrecedes(a, b, i);
    }
    if Precedes(a, b) && !(a <= b) {
      var i := FirstDifference(a, b);
    }
  }

  lemma {:induction false} StartPrecedes(a: string, b: string)
    requires a <= b
    ensures Precedes(a, b)
  {
    if a != "" {
      assert a[0] == b[0] && a[1..] <= b[1..];
      StartPrecedes(a[1..], b[1..]);
    }
  }

  lemma {:induction false} LessPrecedes(a: string, b: string, i: nat)
    requires i < |a| && i < |b| && a[..i] == b[..i] && a[i] < b[i]
    ensures Precedes(a, b)
  {
    if i > 0 {
      assert a[0] == a[..i][0] == b[0];
      assert a[1..][..i - 1] == a[..i][1..] == b[1..][..i - 1];
      LessPrecedes(a[1..], b[1..], i - 1);
    }
  }

  lemma {:induction false} FirstDifference(a: string, b: string) returns (i: nat)
    requires Precedes(a, b) && !(a <= b)
    ensures i < |a| && i < |b| && a[..i] == b[..i] && a[i] < b[i]
  {
    i := 0;
    if a[0] == b[0] {
      assert a == [a[0]] + a[1..] && b == [b[0]] + b[1..];
      var n := FirstDifference(a[1..], b[1..]);
      i := n + 1;
      assert a[..i] == [a[0]] + a[1..][..n] && b[..i] == [b[0]] + b[1..][..n];
    }
  }

  /** Trimming takes white space off both ends and nothing else. */
  lemma TrimExactly(u: Unicode, s: string) returns (i: nat, j: nat)
    ensures i <= j <= |s| && TrimSpace(u, s) == s[i..j]
    ensures forall k :: 0 <= k < i || j <= k < |s| ==> u.space(s[k])
  {
    i := LeftTrimmed(u, s);
    var n := RightTrimmed(u, s[i..]);
    j := i + n;
    forall k | j <= k < |s| ensures u.space(s[k]) {
      assert s[i..][k - i] == s[k];
    }
  }

  lemma {:induction false} LeftTrimmed(u: Unicode, s: string) returns (i: nat)
    ensures i <= |s| && TrimLeft(u, s) == s[i..] && forall k :: 0 <= k < i ==> u.space(s[k])
  {
    i := 0;
    if s != "" && u.space(s[0]) {
      var n := LeftTrimmed(u, s[1..]);
      i := n + 1;
      forall k | 0 <= k < i ensures u.space(s[k]) {
        assert k > 0 ==> s[1..][k - 1] == s[k];
      }
    }
  }

  lemma {:induction false} RightTrimmed(u: Unicode, s: string) returns (n: nat)
    ensures n <= |s| && TrimRight(u, s) == s[..n] && forall k :: n <= k < |s| ==> u.space(s[k])
  {
    n := |s|;
    if s != "" && u.space(s[|s| - 1]) {
      n := RightTrimmed(u, s[..|s| - 1]);
    }
  }
}

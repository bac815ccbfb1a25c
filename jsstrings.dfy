/** The JavaScript string operations the profile normalisers use, on strings as
    sequences of characters: indexOf, includes, startsWith, endsWith, replace
    with a string pattern, split with a string separator, Array.join and trim. */
module JsStrings {

  /** `t` occurs in `s` starting at position `i`. */
  predicate OccursAt(s: string, t: string, i: int) {
    0 <= i && i + |t| <= |s| && s[i..i + |t|] == t
  }

  lemma OccursAtTail(s: string, t: string, j: int)
    requires |s| > 0 && j >= 0
    ensures OccursAt(s[1..], t, j) <==> OccursAt(s, t, j + 1)
  {
    if j + |t| <= |s[1..]| {
      assert s[1..][j..j + |t|] == s[j + 1..j + 1 + |t|];
    }
  }

  /** `s.indexOf(t)`: the first position at which `t` occurs in `s`, or -1. */
  function IndexOf(s: string, t: string): (r: int)
    ensures r == -1 || OccursAt(s, t, r)
    ensures forall j :: 0 <= j && (r == -1 || j < r) ==> !OccursAt(s, t, j)
    decreases |s|
  {
    if |s| < |t| then -1
    else if s[..|t|] == t then 0
    else
      var k := IndexOf(s[1..], t);
      assert forall j :: 1 <= j ==> (OccursAt(s, t, j) <==> OccursAt(s[1..], t, j - 1)) by {
        forall j | 1 <= j ensures OccursAt(s, t, j) <==> OccursAt(s[1..], t, j - 1) {
          OccursAtTail(s, t, j - 1);
        }
      }
      if k == -1 then -1 else k + 1
  }

  /** `s.includes(t)`. */
  predicate Contains(s: string, t: string) {
    IndexOf(s, t) != -1
  }

  lemma ContainsChar(s: string, c: char)
    ensures Contains(s, [c]) <==> c in s
  {
    if c in s {
      var i :| 0 <= i < |s| && s[i] == c;
      assert s[i..i + 1] == [c];
      assert OccursAt(s, [c], i);
    }
    if Contains(s, [c]) {
      var k := IndexOf(s, [c]);
      assert s[k..k + 1] == [c];
      assert s[k] == c;
    }
  }

  /** A prefix of `s` that ends before the first occurrence of `t` does not contain `t`. */
  lemma NotContainsBeforeFirst(s: string, t: string, k: int)
    requires |t| > 0 && 0 <= k <= |s|
    requires forall j :: 0 <= j < k ==> !OccursAt(s, t, j)
    ensures !Contains(s[..k], t)
  {
    var r := IndexOf(s[..k], t);
    if r != -1 {
      assert s[..k][r..r + |t|] == s[r..r + |t|];
      assert OccursAt(s, t, r);
    }
  }

  /** `s.startsWith(p)`. */
  predicate StartsWith(s: string, p: string) {
    |p| <= |s| && s[..|p|] == p
  }

  /** `s.endsWith(x)`. */
  predicate EndsWith(s: string, x: string) {
    |x| <= |s| && s[|s| - |x|..] == x
  }

  /** `s.slice(0, -n)`: a negative end counts from the back, clamped to 0; as
      `-0` is `0`, cutting nothing off yields the empty string. */
  function SliceOffEnd(s: string, n: nat): (r: string)
    ensures 0 < n <= |s| ==> r == s[..|s| - n]
    ensures n == 0 || n > |s| ==> r == ""
  {
    if 0 < n <= |s| then s[..|s| - n] else ""
  }

  /** `s.replace(t, u)` with a string pattern: only the first occurrence is replaced. */
  function ReplaceFirst(s: string, t: string, u: string): (r: string)
    requires |t| > 0
    ensures !Contains(s, t) ==> r == s
    ensures Contains(s, t) ==>
      var k := IndexOf(s, t); r == s[..k] + u + s[k + |t|..] && !Contains(s[..k], t)
  {
    var k := IndexOf(s, t);
    if k == -1 then s
    else
      NotContainsBeforeFirst(s, t, k);
      s[..k] + u + s[k + |t|..]
  }

  /** `t` occurs where it is put. */
  lemma OccursBetween(a: string, t: string, b: string)
    ensures OccursAt(a + t + b, t, |a|)
  {
    var s := a + t + b;
    assert s[|a|..|a| + |t|] == t;
  }

  /** Replacing a leading `t` with nothing leaves what follows it. */
  lemma ReplaceFirstAtStart(t: string, rest: string)
    requires |t| > 0
    ensures ReplaceFirst(t + rest, t, "") == rest
  {
    var s := t + rest;
    assert OccursAt(s, t, 0) by {
      assert s[..|t|] == t;
    }
    assert IndexOf(s, t) == 0;
    assert s[|t|..] == rest;
  }

  /** `ps.join(sep)`. */
  function Join(ps: seq<string>, sep: string): string {
    if |ps| == 0 then ""
    else if |ps| == 1 then ps[0]
    else ps[0] + sep + Join(ps[1..], sep)
  }

  /** Joining all pieces is joining all but the last, the separator and the last. */
  lemma {:induction false} JoinSnoc(ps: seq<string>, sep: string)
    requires |ps| >= 2
    ensures Join(ps[..|ps| - 1], sep) + sep + ps[|ps| - 1] == Join(ps, sep)
  {
    if |ps| > 2 {
      JoinSnoc(ps[1..], sep);
      assert ps[1..][..|ps| - 2] == ps[..|ps| - 1][1..];
      assert ps[1..][|ps| - 2] == ps[|ps| - 1];
    } else {
      assert ps[..1] == [ps[0]];
    }
  }

  /** `s.split(sep)` with a non-empty string separator: every piece, in order,
      empty ones included. The pieces rejoined with `sep` give back `s`, no piece
      contains `sep`, and there are two or more pieces exactly when `sep` occurs. */
  function Split(s: string, sep: string): (r: seq<string>)
    requires |sep| > 0
    ensures |r| >= 1
    ensures Join(r, sep) == s
    ensures forall i :: 0 <= i < |r| ==> !Contains(r[i], sep)
    ensures |r| >= 2 <==> Contains(s, sep)
    decreases |s|
  {
    var k := IndexOf(s, sep);
    if k == -1 then [s]
    else
      NotContainsBeforeFirst(s, sep, k);
      assert s == s[..k] + sep + s[k + |sep|..];
      [s[..k]] + Split(s[k + |sep|..], sep)
  }

  /** The first piece of a split is what comes before the first separator. */
  lemma SplitHead(s: string, sep: string)
    requires |sep| > 0 && Contains(s, sep)
    ensures var k := IndexOf(s, sep); Split(s, sep)[0] == s[..k] && Split(s, sep)[1..] == Split(s[k + |sep|..], sep)
  {
  }

  /** `s.lastIndexOf(c)` for a single character: the last position holding `c`, or -1. */
  function LastIndexOfChar(s: string, c: char): (r: int)
    ensures -1 <= r < |s|
    ensures r >= 0 ==> s[r] == c
    ensures forall i :: r < i < |s| ==> s[i] != c
  {
    if |s| == 0 then -1
    else if s[|s| - 1] == c then |s| - 1
    else LastIndexOfChar(s[..|s| - 1], c)
  }

  /** A string lacking one of the characters of `t` does not contain `t`. */
  lemma NotContainsMissingChar(s: string, t: string, m: nat)
    requires m < |t| && t[m] !in s
    ensures !Contains(s, t)
  {
    forall j | 0 <= j ensures !OccursAt(s, t, j) {
      if j + |t| <= |s| {
        assert s[j..j + |t|][m] == s[j + m];
        assert s[j + m] in s;
      }
    }
  }

  /** When `sep` first occurs right after `a`, splitting `a + sep + b` gives `a`
      and then the pieces of `b`. */
  lemma SplitAtFirst(a: string, sep: string, b: string)
    requires |sep| > 0
    requires forall j :: 0 <= j < |a| ==> !OccursAt(a + sep + b, sep, j)
    ensures Split(a + sep + b, sep) == [a] + Split(b, sep)
  {
    var s := a + sep + b;
    assert OccursAt(s, sep, |a|) by {
      assert s[|a|..|a| + |sep|] == sep;
    }
    var k := IndexOf(s, sep);
    assert k == |a|;
    assert s[..k] == a;
    assert s[k + |sep|..] == b;
  }

  /** A string without `sep` is its own single piece. */
  lemma SplitWithout(s: string, sep: string)
    requires |sep| > 0 && !Contains(s, sep)
    ensures Split(s, sep) == [s]
  {
  }

  /** The characters `trim` removes: JavaScript's WhiteSpace and LineTerminator. */
  predicate IsWhiteSpace(c: char) {
    c == '\t' || c == '\n' || c == '\U{000B}' || c == '\U{000C}' || c == '\r' || c == ' ' ||
    c == '\U{00A0}' || c == '\U{1680}' || ('\U{2000}' <= c <= '\U{200A}') ||
    c == '\U{2028}' || c == '\U{2029}' || c == '\U{202F}' || c == '\U{205F}' ||
    c == '\U{3000}' || c == '\U{FEFF}'
  }

  /** `s` without its leading white space: a suffix of `s`. */
  function TrimStart(s: string): (r: string)
    ensures |r| <= |s| && r == s[|s| - |r|..]
    decreases |s|
  {
    if |s| > 0 && IsWhiteSpace(s[0]) then
      var r := TrimStart(s[1..]);
      assert s[1..][|s| - 1 - |r|..] == s[|s| - |r|..];
      r
    else s
  }

  /** `s` without its trailing white space: a prefix of `s`. */
  function TrimEnd(s: string): (r: string)
    ensures |r| <= |s| && r == s[..|r|]
    decreases |s|
  {
    if |s| > 0 && IsWhiteSpace(s[|s| - 1]) then
      var r := TrimEnd(s[..|s| - 1]);
      assert s[..|s| - 1][..|r|] == s[..|r|];
      r
    else s
  }

  /** TrimStart removes leading white space only, and all of it. */
  lemma {:induction false} TrimStartWhiteSpace(s: string)
    ensures forall i :: 0 <= i < |s| - |TrimStart(s)| ==> IsWhiteSpace(s[i])
    ensures TrimStart(s) == [] || !IsWhiteSpace(TrimStart(s)[0])
    decreases |s|
  {
    if |s| > 0 && IsWhiteSpace(s[0]) {
      var t := s[1..];
      var r := TrimStart(t);
      assert TrimStart(s) == r;
      TrimStartWhiteSpace(t);
      assert forall i :: 0 <= i < |t| - |r| ==> IsWhiteSpace(t[i]);
      forall i | 0 <= i < |s| - |r| ensures IsWhiteSpace(s[i]) {
        if i > 0 {
          assert s[i] == t[i - 1];
        }
      }
    }
  }

  /** TrimEnd removes trailing white space only, and all of it. */
  lemma {:induction false} TrimEndWhiteSpace(s: string)
    ensures forall i :: |TrimEnd(s)| <= i < |s| ==> IsWhiteSpace(s[i])
    ensures TrimEnd(s) == [] || !IsWhiteSpace(TrimEnd(s)[|TrimEnd(s)| - 1])
    decreases |s|
  {
    if |s| > 0 && IsWhiteSpace(s[|s| - 1]) {
      var t := s[..|s| - 1];
      TrimEndWhiteSpace(t);
      forall i | |TrimEnd(s)| <= i < |s| - 1 ensures IsWhiteSpace(s[i]) {
        assert s[i] == t[i];
      }
    }
  }

  /** `s.trim()`: `s` without its leading and trailing white space. */
  function Trim(s: string): string {
    TrimEnd(TrimStart(s))
  }

  /** Trim returns a contiguous part of its input. */
  lemma TrimSlice(s: string)
    ensures var r, a := Trim(s), |s| - |TrimStart(s)|;
      a + |r| <= |s| && s[a..a + |r|] == r
  {
    PrefixOfSuffix(s, TrimStart(s), Trim(s));
  }

  /** A prefix of a suffix of `s` is a slice of `s`. */
  lemma PrefixOfSuffix(s: string, t: string, r: string)
    requires |t| <= |s| && t == s[|s| - |t|..]
    requires |r| <= |t| && r == t[..|r|]
    ensures var a := |s| - |t|; a + |r| <= |s| && s[a..a + |r|] == r
  {
  }

  /** Trim removes only white space. */
  lemma TrimRemovesWhiteSpace(s: string)
    ensures var r, a := Trim(s), |s| - |TrimStart(s)|;
      (forall i :: 0 <= i < a ==> IsWhiteSpace(s[i])) &&
      (forall i :: a + |r| <= i < |s| ==> IsWhiteSpace(s[i]))
  {
    var t := TrimStart(s);
    var r := TrimEnd(t);
    var a := |s| - |t|;
    TrimStartWhiteSpace(s);
    TrimEndWhiteSpace(t);
    WhiteSpaceTailShift(s, t, |r|);
  }

  /** White space at the end of a suffix of `s` is white space at the end of `s`. */
  lemma WhiteSpaceTailShift(s: string, t: string, n: nat)
    requires |t| <= |s| && t == s[|s| - |t|..] && n <= |t|
    requires forall j :: n <= j < |t| ==> IsWhiteSpace(t[j])
    ensures forall i :: |s| - |t| + n <= i < |s| ==> IsWhiteSpace(s[i])
  {
    var a := |s| - |t|;
    forall i | a + n <= i < |s| ensures IsWhiteSpace(s[i]) {
      assert s[i] == t[i - a];
    }
  }

  /** Trim leaves no white space at either end. */
  lemma TrimEnds(s: string)
    ensures var r := Trim(s); r == [] || (!IsWhiteSpace(r[0]) && !IsWhiteSpace(r[|r| - 1]))
  {
    var t := TrimStart(s);
    var r := TrimEnd(t);
    TrimStartWhiteSpace(s);
    TrimEndWhiteSpace(t);
    if r != [] {
      assert r[0] == t[0];
    }
  }

  /** Trimming is idempotent. */
  lemma TrimIdempotent(s: string)
    ensures Trim(Trim(s)) == Trim(s)
  {
    var r := Trim(s);
    TrimEnds(s);
    assert TrimStart(r) == r;
    assert TrimEnd(r) == r;
  }
}

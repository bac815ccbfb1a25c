/** formatName: splitting a full name into first and last name. */
module Names {
  import opened Wrappers
  import opened JsStrings

  datatype Name = Name(first: string, last: string)

  /** The honorifics removed from the start of a name; at most one is removed. */
  const Prefixes: seq<string> := ["Dr. ", "Dr "]

  /** The credentials removed from the end of a name, each tested once, in this order. */
  const Suffixes: seq<string> :=
    [" CPA", ", CPA", ", Esq.", " Esq.", ", MBA", " MBA", ", M.D.", " M.D.", " PhD", " Ph.D", ", PhD", ", Ph.D"]

  /** The name without the first listed prefix it starts with: at most one prefix
      is removed, and the name is unchanged if it starts with none. */
  function StripPrefix(s: string, prefixes: seq<string>): (r: string)
    decreases |prefixes|
  {
    if prefixes == [] then s
    else if StartsWith(s, prefixes[0]) then s[|prefixes[0]|..]
    else StripPrefix(s, prefixes[1..])
  }

  /** `prefixes[i]` is the first listed prefix the name starts with. */
  predicate FirstPrefixAt(s: string, prefixes: seq<string>, i: int) {
    0 <= i < |prefixes| && StartsWith(s, prefixes[i]) &&
    forall j :: 0 <= j < i ==> !StartsWith(s, prefixes[j])
  }

  /** Exactly the first prefix the name starts with is removed. */
  lemma {:induction false} StripPrefixFirst(s: string, prefixes: seq<string>, i: nat)
    requires FirstPrefixAt(s, prefixes, i)
    ensures StripPrefix(s, prefixes) == s[|prefixes[i]|..]
    decreases i
  {
    if i > 0 {
      assert !StartsWith(s, prefixes[0]);
      assert FirstPrefixAt(s, prefixes[1..], i - 1);
      StripPrefixFirst(s, prefixes[1..], i - 1);
    }
  }

  /** A name that starts with none of the prefixes is left alone. */
  lemma {:induction false} StripPrefixNone(s: string, prefixes: seq<string>)
    requires forall i :: 0 <= i < |prefixes| ==> !StartsWith(s, prefixes[i])
    ensures StripPrefix(s, prefixes) == s
    decreases |prefixes|
  {
    if prefixes != [] {
      assert !StartsWith(s, prefixes[0]);
      StripPrefixNone(s, prefixes[1..]);
    }
  }

  /** `if (s.endsWith(x)) s = s.slice(0, -x.length)`: the name with suffix `x`
      cut off if it ends with `x`. An empty suffix, which every name ends with,
      would leave nothing. */
  function StripSuffix(s: string, x: string): (r: string)
    ensures EndsWith(s, x) && |x| > 0 ==> r + x == s
    ensures EndsWith(s, x) && |x| == 0 ==> r == ""
    ensures !EndsWith(s, x) ==> r == s
  {
    if EndsWith(s, x) then SliceOffEnd(s, |x|) else s
  }

  /** One pass over the suffixes, in order: each one the name ends with at the
      moment it is tested is cut off. The result is always a prefix of the name. */
  function StripSuffixes(s: string, suffixes: seq<string>): (r: string)
    ensures |r| <= |s| && r == s[..|r|]
    decreases |suffixes|
  {
    if suffixes == [] then s
    else StripSuffixes(StripSuffix(s, suffixes[0]), suffixes[1..])
  }

  /** The name formatName splits: prefix and suffixes removed. */
  function StrippedName(fullName: string): string {
    StripSuffixes(StripPrefix(fullName, Prefixes), Suffixes)
  }

  /** Reference definition of the split: the first name is everything before the
      last space, the last name everything after it; no space, no name. */
  function NameOf(s: string): Option<Name> {
    var k := LastIndexOfChar(s, ' ');
    if k < 0 then None else Some(Name(s[..k], s[k + 1..]))
  }

  /** NameOf gives a name exactly when there is a space, and then first, a space
      and last make up the whole string, with no space in the last name. */
  lemma NameOfRoundTrip(s: string)
    ensures NameOf(s).None? <==> ' ' !in s
    ensures NameOf(s).Some? ==>
      NameOf(s).value.first + " " + NameOf(s).value.last == s && ' ' !in NameOf(s).value.last
  {
    var k := LastIndexOfChar(s, ' ');
    if k >= 0 {
      assert s == s[..k] + " " + s[k + 1..];
    }
  }

  /** Any split of a string into a part, a space and a space-free part is the one NameOf gives. */
  lemma NameOfUnique(s: string, a: string, b: string)
    requires s == a + " " + b && ' ' !in b
    ensures NameOf(s) == Some(Name(a, b))
  {
    assert s[|a|] == ' ';
    var k := LastIndexOfChar(s, ' ');
    assert k == |a|;
    assert s[..k] == a && s[k + 1..] == b;
  }

  /** With two or more tokens, the joined leading tokens and the last token are the reference split. */
  lemma SplitOnSpacesMany(s: string)
    requires |Split(s, " ")| >= 2
    ensures var tokens := Split(s, " ");
      NameOf(s) == Some(Name(Join(tokens[..|tokens| - 1], " "), tokens[|tokens| - 1]))
  {
    var tokens := Split(s, " ");
    var n := |tokens|;
    JoinSnoc(tokens, " ");
    assert !Contains(tokens[n - 1], " ");
    ContainsChar(tokens[n - 1], ' ');
    NameOfUnique(s, Join(tokens[..n - 1], " "), tokens[n - 1]);
  }

  /** With exactly two tokens they are the reference split. */
  lemma SplitOnSpacesTwo(s: string)
    requires |Split(s, " ")| == 2
    ensures NameOf(s) == Some(Name(Split(s, " ")[0], Split(s, " ")[1]))
  {
    var tokens := Split(s, " ");
    SplitOnSpacesMany(s);
    assert tokens[..1] == [tokens[0]];
  }

  /** With one token there is no space, and so no name. */
  lemma SplitOnSpacesOne(s: string)
    requires |Split(s, " ")| < 2
    ensures NameOf(s) == None
  {
    ContainsChar(s, ' ');
    NameOfRoundTrip(s);
  }

  /** The algorithm of formatName over given prefix and suffix lists: strip the
      first prefix the name starts with, then test each suffix once, in order,
      cutting off each the name ends with; split on single spaces and return all
      but the last token joined by spaces, and the last token. Fewer than two
      tokens give no result. */
  method SplitFullName(fullName: string, prefixes: seq<string>, suffixes: seq<string>)
    returns (name: Option<Name>)
    ensures name == NameOf(StripSuffixes(StripPrefix(fullName, prefixes), suffixes))
  {
    var s := fullName;
    var i := 0;
    while i < |prefixes|
      invariant 0 <= i <= |prefixes|
      invariant s == fullName
      invariant StripPrefix(fullName, prefixes) == StripPrefix(fullName, prefixes[i..])
    {
      if StartsWith(s, prefixes[i]) {
        s := s[|prefixes[i]|..];
        break;
      }
      assert prefixes[i..][1..] == prefixes[i + 1..];
      i := i + 1;
    }
    assert s == StripPrefix(fullName, prefixes);
    ghost var unsuffixed := s;
    var j := 0;
    while j < |suffixes|
      invariant 0 <= j <= |suffixes|
      invariant StripSuffixes(s, suffixes[j..]) == StripSuffixes(unsuffixed, suffixes)
    {
      var x := suffixes[j];
      assert suffixes[j..][1..] == suffixes[j + 1..];
      if EndsWith(s, x) {
        s := SliceOffEnd(s, |x|);
      }
      j := j + 1;
    }
    var tokens := Split(s, " ");
    if |tokens| == 2 {
      SplitOnSpacesTwo(s);
      name := Some(Name(tokens[0], tokens[1]));
    } else if |tokens| > 2 {
      SplitOnSpacesMany(s);
      name := Some(Name(Join(tokens[..|tokens| - 1], " "), tokens[|tokens| - 1]));
    } else {
      SplitOnSpacesOne(s);
      name := None;
    }
  }

  /** formatName, with the prefix and suffix lists the script declares. */
  method FormatName(fullName: string) returns (name: Option<Name>)
    ensures name == NameOf(StrippedName(fullName))
  {
    name := SplitFullName(fullName, Prefixes, Suffixes);
  }

  /** Suffixes that the name does not end with leave it unchanged. */
  lemma {:induction false} StripSuffixesNoMatch(s: string, sufs: seq<string>, k: nat)
    requires k <= |sufs|
    requires forall i :: 0 <= i < k ==> !EndsWith(s, sufs[i])
    ensures StripSuffixes(s, sufs) == StripSuffixes(s, sufs[k..])
    decreases k
  {
    if k > 0 {
      assert sufs[1..][k - 1..] == sufs[k..];
      StripSuffixesNoMatch(s, sufs[1..], k - 1);
    }
  }

  lemma EndsWithLastChar(s: string, x: string)
    requires |x| > 0
    ensures EndsWith(s, x) ==> s[|s| - 1] == x[|x| - 1]
  {
    if EndsWith(s, x) {
      assert s[|s| - 1] == s[|s| - |x|..][|x| - 1];
    }
  }

  /** A name cannot end with a suffix whose last character differs from its own. */
  lemma {:induction false} StripSuffixesLastChar(s: string, sufs: seq<string>)
    requires |s| > 0
    requires forall i :: 0 <= i < |sufs| ==> |sufs[i]| > 0 && sufs[i][|sufs[i]| - 1] != s[|s| - 1]
    ensures StripSuffixes(s, sufs) == s
    decreases |sufs|
  {
    if sufs != [] {
      EndsWithLastChar(s, sufs[0]);
      StripSuffixesLastChar(s, sufs[1..]);
    }
  }

  /** Suffixes are stripped in one pass: " CPA" is tested before ", CPA", so the comma stays. */
  lemma OnePassLeavesComma(s: string)
    requires s == "Jane Smith, CPA"
    ensures StrippedName(s) == "Jane Smith,"
  {
    assert StripPrefix(s, Prefixes) == s;
    assert EndsWith(s, Suffixes[0]) by {
      assert s[|s| - 4..] == " CPA";
    }
    assert s[..|s| - 4] == "Jane Smith,";
    StripSuffixesLastChar("Jane Smith,", Suffixes[1..]);
  }

  /** A comma form listed before its space form is removed whole. */
  lemma CommaSuffixRemoved(s: string)
    requires s == "Jane Smith, MBA"
    ensures StrippedName(s) == "Jane Smith"
  {
    assert StripPrefix(s, Prefixes) == s;
    FirstFourSuffixesMissMba(s);
    FifthSuffixCutsMba(s);
  }

  lemma FifthSuffixCutsMba(s: string)
    requires s == "Jane Smith, MBA"
    ensures StripSuffixes(s, Suffixes[4..]) == "Jane Smith"
  {
    assert StripSuffix(s, Suffixes[4]) == "Jane Smith";
    assert Suffixes[4..][1..] == Suffixes[5..];
    StripSuffixesLastChar("Jane Smith", Suffixes[5..]);
  }

  lemma FirstFourSuffixesMissMba(s: string)
    requires s == "Jane Smith, MBA"
    ensures StripSuffixes(s, Suffixes) == StripSuffixes(s, Suffixes[4..])
  {
    assert forall i :: 0 <= i < 4 ==> !EndsWith(s, Suffixes[i]);
    StripSuffixesNoMatch(s, Suffixes, 4);
  }

  /** Only one prefix is removed. */
  lemma OnePrefixOnly(s: string)
    requires s == "Dr. Dr Jane Smith"
    ensures StrippedName(s) == "Dr Jane Smith"
  {
    assert StartsWith(s, Prefixes[0]);
    assert StripPrefix(s, Prefixes) == "Dr Jane Smith";
    StripSuffixesLastChar("Dr Jane Smith", Suffixes);
  }

  /** The name formatName gives for "Jane Smith, CPA": the comma stays on the last name. */
  lemma FormatNameCpa(s: string)
    requires s == "Jane Smith, CPA"
    ensures NameOf(StrippedName(s)) == Some(Name("Jane", "Smith,"))
  {
    OnePassLeavesComma(s);
    NameOfJaneSmithComma(StrippedName(s));
  }

  lemma NameOfJaneSmithComma(t: string)
    requires t == "Jane Smith,"
    ensures NameOf(t) == Some(Name("Jane", "Smith,"))
  {
    NameOfUnique(t, "Jane", "Smith,");
  }
}

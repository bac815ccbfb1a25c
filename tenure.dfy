/** removeDots, formatTenure and formatDateYear: cleaning company strings and
    splitting date ranges. */
module Tenure {
  import opened Wrappers
  import opened JsStrings

  /** The separator removeDots cuts at, as the script spells it: a space, U+00C2,
      U+00B7 and a space. */
  const Dots: string := [' ', '\U{00C2}', '\U{00B7}', ' ']

  /** The separator between the two dates of a range. */
  const DateSeparator: string := " - "

  /** removeDots: the part of the input before the first separator, or the whole
      input when the separator does not occur. */
  function RemoveDots(input: string): (r: string)
    ensures |r| <= |input| && r == input[..|r|]
    ensures !Contains(r, Dots)
    ensures !Contains(input, Dots) ==> r == input
    ensures Contains(input, Dots) ==> OccursAt(input, Dots, |r|) && |r| == IndexOf(input, Dots)
  {
    var separatorIndex := IndexOf(input, Dots);
    if separatorIndex != -1 then
      NotContainsBeforeFirst(input, Dots, separatorIndex);
      input[..separatorIndex]
    else input
  }

  /** Text without a U+00C2 keeps exactly what precedes the separator after it. */
  lemma RemoveDotsCutsAt(a: string, b: string)
    requires '\U{00C2}' !in a
    ensures RemoveDots(a + Dots + b) == a
  {
    var s := a + Dots + b;
    forall j | 0 <= j < |a| ensures !OccursAt(s, Dots, j) {
      assert s[j + 1] != '\U{00C2}' by {
        if j + 1 < |a| {
          assert s[j + 1] == a[j + 1];
        }
      }
      if j + 4 <= |s| {
        assert s[j..j + 4][1] == s[j + 1];
      }
    }
    assert OccursAt(s, Dots, |a|) by {
      assert s[|a|..|a| + 4] == Dots;
    }
    assert s[..|a|] == a;
  }

  /** Removing the separator twice is removing it once. */
  lemma RemoveDotsIdempotent(input: string)
    ensures RemoveDots(RemoveDots(input)) == RemoveDots(input)
  {
  }

  /** formatTenure: split on " - "; the second token loses what follows the
      removeDots separator and becomes null when it then reads "Present". Without
      a " - " the second token is undefined and removeDots fails on it. */
  function FormatTenure(tenure: string): (r: Result<seq<Option<string>>>)
    ensures r.Err? <==> !Contains(tenure, DateSeparator)
    ensures r.Err? ==> r.error == MalformedDateRange
    ensures r.Ok? ==> |r.value| >= 2 && forall i :: 0 <= i < |r.value| && i != 1 ==> r.value[i].Some?
  {
    var parts := Split(tenure, DateSeparator);
    if |parts| < 2 then Err(MalformedDateRange)
    else
      var tenureArray := AllSome(parts)[1 := Some(RemoveDots(parts[1]))];
      if tenureArray[1] == Some("Present") then Ok(tenureArray[1 := None]) else Ok(tenureArray)
  }

  /** The end token of a range as formatTenure leaves it: cut at the separator,
      null for "Present". */
  function EndDate(token: string): (r: Option<string>)
    ensures r.None? <==> RemoveDots(token) == "Present"
    ensures r.Some? ==> r.value == RemoveDots(token)
  {
    if RemoveDots(token) == "Present" then None else Some(RemoveDots(token))
  }

  /** The first token is the input up to the first " - ", untouched; the second is
      the text up to the next " - " with EndDate applied; the others are as split. */
  lemma FormatTenureTokens(tenure: string)
    requires Contains(tenure, DateSeparator)
    ensures var t, parts := FormatTenure(tenure).value, Split(tenure, DateSeparator);
      |t| == |parts| &&
      t[0] == Some(tenure[..IndexOf(tenure, DateSeparator)]) &&
      t[1] == EndDate(parts[1]) &&
      forall i :: 2 <= i < |t| ==> t[i] == Some(parts[i])
  {
    SplitHead(tenure, DateSeparator);
  }

  /** A start date without a dash, " - " and any end: the range is split exactly there. */
  lemma SplitAtDateSeparator(a: string, b: string)
    requires '-' !in a
    ensures Split(a + DateSeparator + b, DateSeparator) == [a] + Split(b, DateSeparator)
  {
    var s := a + DateSeparator + b;
    forall j | 0 <= j < |a| ensures !OccursAt(s, DateSeparator, j) {
      assert s[j + 1] != '-' by {
        if j + 1 < |a| {
          assert s[j + 1] == a[j + 1];
        }
      }
      if j + 3 <= |s| {
        assert s[j..j + 3][1] == s[j + 1];
      }
    }
    SplitAtFirst(a, DateSeparator, b);
  }

  /** A range "a - b" with no dash in either date splits into a and b. */
  lemma SplitRange(a: string, b: string)
    requires '-' !in a && '-' !in b
    ensures Split(a + DateSeparator + b, DateSeparator) == [a, b]
  {
    SplitAtDateSeparator(a, b);
    NotContainsMissingChar(b, DateSeparator, 1);
    SplitWithout(b, DateSeparator);
  }

  /** A range "a - b" with no dash in either date gives [a, EndDate(b)]. */
  lemma FormatTenureOfRange(a: string, b: string)
    requires '-' !in a && '-' !in b
    ensures FormatTenure(a + DateSeparator + b) == Ok([Some(a), EndDate(b)])
  {
    var s := a + DateSeparator + b;
    SplitRange(a, b);
    var tenureArray := AllSome([a, b])[1 := Some(RemoveDots(b))];
    assert tenureArray == [Some(a), Some(RemoveDots(b))];
    assert tenureArray[1 := None] == [Some(a), None];
  }

  /** When the end token is kept and has no separator, the tokens joined with
      " - " give back the input. */
  lemma FormatTenureRoundTrip(tenure: string)
    requires Contains(tenure, DateSeparator)
    requires var parts := Split(tenure, DateSeparator); !Contains(parts[1], Dots) && parts[1] != "Present"
    ensures var t := FormatTenure(tenure).value;
      forall i :: 0 <= i < |t| ==> t[i].Some?
    ensures var t := FormatTenure(tenure).value;
      Join(seq(|t|, i requires 0 <= i < |t| && t[i].Some? => t[i].value), DateSeparator) == tenure
  {
    var parts := Split(tenure, DateSeparator);
    var t := FormatTenure(tenure).value;
    assert forall i :: 0 <= i < |t| ==> t[i] == Some(parts[i]);
    assert seq(|t|, i requires 0 <= i < |t| && t[i].Some? => t[i].value) == parts;
  }

  /** "MMM YYYY" (eight characters) loses its month; any other token is kept. */
  function YearOf(date: string): (r: string)
    ensures |date| == 8 ==> r == date[4..]
    ensures |date| != 8 ==> r == date
  {
    if |date| == 8 then date[4..] else date
  }

  /** Reducing a token to its year twice is reducing it once. */
  lemma YearOfIdempotent(date: string)
    ensures YearOf(YearOf(date)) == YearOf(date)
  {
  }

  /** The years of a list of date tokens; a null token has no length and fails. */
  function Years(dates: seq<Option<string>>): (r: Result<seq<string>>)
    ensures r.Err? <==> exists i :: 0 <= i < |dates| && dates[i].None?
    ensures r.Err? ==> r.error == OpenEndedYear
    ensures r.Ok? ==>
      |r.value| == |dates| && forall i :: 0 <= i < |dates| ==> dates[i].Some? && r.value[i] == YearOf(dates[i].value)
  {
    if exists i :: 0 <= i < |dates| && dates[i].None? then Err(OpenEndedYear)
    else Ok(seq(|dates|, i requires 0 <= i < |dates| => if dates[i].Some? then YearOf(dates[i].value) else ""))
  }

  lemma YearsOfNull(dates: seq<Option<string>>, i: nat)
    requires i < |dates| && dates[i].None?
    ensures Years(dates) == Err(OpenEndedYear)
  {
  }

  lemma YearsOfPresent(dates: seq<Option<string>>, years: seq<string>)
    requires |years| == |dates|
    requires forall j :: 0 <= j < |dates| ==> dates[j].Some? && years[j] == YearOf(dates[j].value)
    ensures Years(dates) == Ok(years)
  {
    assert years == seq(|dates|, i requires 0 <= i < |dates| => if dates[i].Some? then YearOf(dates[i].value) else "");
  }

  /** formatDateYear as a function of its input: formatTenure, then the year of
      each token. It fails without a " - ", and when the end reads "Present". */
  function DateYears(dateString: string): (r: Result<seq<string>>)
    ensures r.Err? <==> !Contains(dateString, DateSeparator) || FormatTenure(dateString).value[1].None?
    ensures r.Ok? ==> var dates := FormatTenure(dateString).value;
      |r.value| == |dates| && forall i :: 0 <= i < |dates| ==> r.value[i] == YearOf(dates[i].value)
  {
    match FormatTenure(dateString)
    case Err(e) => Err(e)
    case Ok(dates) => Years(dates)
  }

  /** formatDateYear: the tokens of formatTenure, each reduced to its year. */
  method FormatDateYear(dateString: string) returns (r: Result<seq<string>>)
    ensures r == DateYears(dateString)
  {
    var tenure := FormatTenure(dateString);
    if tenure.Err? {
      return Err(tenure.error);
    }
    r := ReduceToYears(tenure.value);
  }

  /** The loop of formatDateYear: each token pushed reduced to its year; a null
      token has no length and fails. */
  method ReduceToYears(dates: seq<Option<string>>) returns (r: Result<seq<string>>)
    ensures r == Years(dates)
  {
    var formattedDates := [];
    var i := 0;
    while i < |dates|
      invariant 0 <= i <= |dates|
      invariant |formattedDates| == i
      invariant forall j :: 0 <= j < i ==> dates[j].Some? && formattedDates[j] == YearOf(dates[j].value)
    {
      var date := dates[i];
      if date.None? {
        YearsOfNull(dates, i);
        return Err(OpenEndedYear);
      }
      if |date.value| == 8 {
        formattedDates := formattedDates + [date.value[4..]];
      } else {
        formattedDates := formattedDates + [date.value];
      }
      i := i + 1;
    }
    YearsOfPresent(dates, formattedDates);
    r := Ok(formattedDates);
  }

  /** A range "a - b" with no dash in either date gives the years of both, and
      fails when its end reads "Present". */
  lemma DateYearsOfRange(a: string, b: string)
    requires '-' !in a && '-' !in b
    ensures RemoveDots(b) == "Present" ==> DateYears(a + DateSeparator + b) == Err(OpenEndedYear)
    ensures RemoveDots(b) != "Present" ==>
      DateYears(a + DateSeparator + b) == Ok([YearOf(a), YearOf(RemoveDots(b))])
  {
    FormatTenureOfRange(a, b);
    var dates := [Some(a), EndDate(b)];
    assert DateYears(a + DateSeparator + b) == Years(dates);
    if RemoveDots(b) == "Present" {
      YearsOfNull(dates, 1);
    } else {
      YearsOfPresent(dates, [YearOf(a), YearOf(RemoveDots(b))]);
    }
  }

  /** A current role whose tenure reads start, " - ", "Present", the four
      characters of Dots (space, U+00C2, U+00B7, space) and a length: the start
      date, and no end date. */
  lemma CurrentRoleTenure(start: string, length: string)
    requires '-' !in start && '-' !in length
    ensures FormatTenure(start + DateSeparator + ("Present" + Dots + length)) == Ok([Some(start), None])
  {
    var end := "Present" + Dots + length;
    OpenEnd(end, length);
    FormatTenureOfRange(start, end);
  }

  /** "Present", the separator and a length: an end token that reads as no end. */
  lemma OpenEnd(end: string, length: string)
    requires end == "Present" + Dots + length && '-' !in length
    ensures '-' !in end && EndDate(end) == None
  {
    RemoveDotsCutsAt("Present", length);
    NoDashInOpenEnd(end, length);
  }

  lemma NoDashInOpenEnd(end: string, length: string)
    requires end == "Present" + Dots + length && '-' !in length
    ensures '-' !in end
  {
    assert end == "Present" + (Dots + length);
    assert '-' !in Dots + length;
  }

  /** A middle dot alone, without the U+00C2 before it, is no separator for
      removeDots: "Jan 2019 - Present · 3 yrs" keeps "Present · 3 yrs" as its
      end date. */
  lemma MiddleDotKeepsEnd(start: string, length: string)
    requires '-' !in start && '-' !in length && '\U{00C2}' !in length
    ensures var end := "Present" + [' ', '\U{00B7}', ' '] + length;
      FormatTenure(start + DateSeparator + end) == Ok([Some(start), Some(end)])
  {
    var end := "Present" + [' ', '\U{00B7}', ' '] + length;
    assert '\U{00C2}' !in end && '-' !in end by {
      assert end == "Present" + ([' ', '\U{00B7}', ' '] + length);
    }
    NotContainsMissingChar(end, Dots, 1);
    assert |end| > |"Present"|;
    FormatTenureOfRange(start, end);
  }

  /** "Sep 2015 - Jun 2019" gives the years 2015 and 2019. */
  lemma SchoolYears(start: string, end: string)
    requires start == "Sep 2015" && end == "Jun 2019"
    ensures DateYears(start + DateSeparator + end) == Ok(["2015", "2019"])
  {
    NotContainsMissingChar(end, Dots, 1);
    DateYearsOfRange(start, end);
  }
}

/** formatLocation: reading city, state and country out of a location string. */
module Locations {
  import opened Wrappers
  import opened JsStrings

  datatype Location = Location(city: Option<string>, state: Option<string>, country: Option<string>)

  const PartSeparator: string := ", "

  /** formatLocation: the array returned for a location string. One part
      without "Area" is a country, two parts are city and country; anything
      else, a single part naming an "Area" included, is the split itself. */
  function FormatLocation(locationStr: string): (r: seq<Option<string>>)
    ensures |r| >= 1 && r[|r| - 1].Some?
    ensures forall i :: 0 <= i < |r| && r[i].Some? ==> !Contains(r[i].value, PartSeparator)
    ensures !Contains(locationStr, PartSeparator) && !Contains(locationStr, "Area") ==> r == [None, None, Some(locationStr)]
    ensures !Contains(locationStr, PartSeparator) && Contains(locationStr, "Area") ==> r == [Some(locationStr)]
    ensures Contains(locationStr, PartSeparator) ==> |r| >= 3 && r[0].Some? && r[2].Some?
  {
    LocationArray(Split(locationStr, PartSeparator))
  }

  /** The array formatLocation builds from the parts of the split. */
  function LocationArray(splitLocation: seq<string>): (r: seq<Option<string>>)
    requires |splitLocation| >= 1
    ensures |r| >= 1 && r[|r| - 1] == Some(splitLocation[|splitLocation| - 1])
    ensures forall i :: 0 <= i < |r| && r[i].Some? ==> r[i].value in splitLocation
    ensures |r| >= 3 <==> !(|splitLocation| == 1 && Contains(splitLocation[0], "Area"))
    ensures |r| >= 3 ==> (r[0].Some? <==> |splitLocation| >= 2) && (r[1].Some? <==> |splitLocation| >= 3)
  {
    if |splitLocation| == 1 && !Contains(splitLocation[0], "Area") then [None, None, Some(splitLocation[0])]
    else if |splitLocation| == 2 then [Some(splitLocation[0]), None, Some(splitLocation[1])]
    else AllSome(splitLocation)
  }

  /** `const [city, state, country] = formatLocation(...)`: the first three
      elements of the array, `undefined` past its end. */
  function LocationOf(locationStr: string): (r: Location)
    ensures r.city.None? <==> !Contains(locationStr, PartSeparator) && !Contains(locationStr, "Area")
    ensures r.state.Some? <==> |Split(locationStr, PartSeparator)| >= 3
    ensures r.country.None? <==> !Contains(locationStr, PartSeparator) && Contains(locationStr, "Area")
  {
    LocationOfParts(Split(locationStr, PartSeparator))
  }

  /** The location the parts of the split give. */
  function LocationOfParts(parts: seq<string>): (r: Location)
    requires |parts| >= 1
    ensures r.city.None? <==> |parts| == 1 && !Contains(parts[0], "Area")
    ensures r.state.Some? <==> |parts| >= 3
    ensures r.country.None? <==> |parts| == 1 && Contains(parts[0], "Area")
  {
    var a := LocationArray(parts);
    Location(At(a, 0), At(a, 1), At(a, 2))
  }

  /** `const [city, state, country] = formatLocation(...)` reads the first three
      elements of the array formatLocation returns. */
  lemma LocationOfFormatLocation(locationStr: string)
    ensures var a := FormatLocation(locationStr);
      LocationOf(locationStr) == Location(At(a, 0), At(a, 1), At(a, 2))
  {
  }

  /** The four cases of the location, in terms of the string itself. */
  lemma LocationCases(s: string)
    ensures var loc := LocationOf(s);
      (!Contains(s, PartSeparator) && !Contains(s, "Area") ==> loc == Location(None, None, Some(s))) &&
      (!Contains(s, PartSeparator) && Contains(s, "Area") ==> loc == Location(Some(s), None, None))
    ensures var loc, parts := LocationOf(s), Split(s, PartSeparator);
      (|parts| == 2 ==> loc == Location(Some(parts[0]), None, Some(parts[1]))) &&
      (|parts| >= 3 ==> loc == Location(Some(parts[0]), Some(parts[1]), Some(parts[2])))
  {
    if !Contains(s, PartSeparator) {
      SplitWithout(s, PartSeparator);
    }
  }

  /** The fields that are present, in the order city, state, country. */
  function Fields(loc: Location): seq<string> {
    (if loc.city.Some? then [loc.city.value] else []) +
    (if loc.state.Some? then [loc.state.value] else []) +
    (if loc.country.Some? then [loc.country.value] else [])
  }

  /** The present fields of a location are its parts, the first three of them
      when there are more. */
  lemma LocationFields(s: string)
    ensures var parts := Split(s, PartSeparator);
      |parts| <= 3 ==> Fields(LocationOf(s)) == parts
    ensures var parts := Split(s, PartSeparator);
      |parts| >= 3 ==> Fields(LocationOf(s)) == parts[..3]
  {
    PartsFields(Split(s, PartSeparator));
  }

  /** Fields(LocationOfParts(parts)) is the parts, at most three of them. */
  lemma PartsFields(parts: seq<string>)
    requires |parts| >= 1
    ensures |parts| <= 3 ==> Fields(LocationOfParts(parts)) == parts
    ensures |parts| >= 3 ==> Fields(LocationOfParts(parts)) == parts[..3]
  {
    var loc := LocationOfParts(parts);
    if |parts| == 1 {
      assert Fields(loc) == [parts[0]];
    } else if |parts| == 2 {
      assert Fields(loc) == [parts[0], parts[1]];
    } else {
      assert loc == Location(Some(parts[0]), Some(parts[1]), Some(parts[2]));
      assert Fields(loc) == [parts[0], parts[1], parts[2]];
    }
  }

  /** Nothing is lost from a location of at most three parts: its present fields
      joined with ", " give back the string. */
  lemma LocationRoundTrip(s: string)
    ensures var parts := Split(s, PartSeparator);
      |parts| <= 3 ==> Join(Fields(LocationOf(s)), PartSeparator) == s
  {
    LocationFields(s);
  }

  /** A location with a comma-free first part: the split happens right after it. */
  lemma SplitAtPartSeparator(a: string, b: string)
    requires ',' !in a
    ensures Split(a + PartSeparator + b, PartSeparator) == [a] + Split(b, PartSeparator)
  {
    var s := a + PartSeparator + b;
    forall j | 0 <= j < |a| ensures !OccursAt(s, PartSeparator, j) {
      assert s[j] == a[j];
      if j + 2 <= |s| {
        assert s[j..j + 2][0] == s[j];
      }
    }
    SplitAtFirst(a, PartSeparator, b);
  }

  /** Three comma-free parts joined with ", " split back into those parts. */
  lemma SplitThree(city: string, state: string, country: string)
    requires ',' !in city && ',' !in state && ',' !in country
    ensures Split(city + PartSeparator + (state + PartSeparator + country), PartSeparator) == [city, state, country]
  {
    SplitAtPartSeparator(city, state + PartSeparator + country);
    SplitAtPartSeparator(state, country);
    NotContainsMissingChar(country, PartSeparator, 0);
    SplitWithout(country, PartSeparator);
  }

  /** City, state and country without commas give those three fields. */
  lemma LocationOfThree(city: string, state: string, country: string)
    requires ',' !in city && ',' !in state && ',' !in country
    ensures LocationOf(city + PartSeparator + state + PartSeparator + country) ==
      Location(Some(city), Some(state), Some(country))
  {
    var s := city + PartSeparator + state + PartSeparator + country;
    assert s == city + PartSeparator + (state + PartSeparator + country);
    SplitThree(city, state, country);
    LocationCases(s);
  }

  /** A string without a comma or a capital A is a country. */
  lemma LocationOfCountry(country: string)
    requires ',' !in country && 'A' !in country
    ensures LocationOf(country) == Location(None, None, Some(country))
  {
    NotContainsMissingChar(country, PartSeparator, 0);
    NotContainsMissingChar(country, "Area", 0);
    LocationCases(country);
  }
}

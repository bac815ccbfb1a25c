/** The education section: one record per school entry, in page order. */
module Education {
  import opened Wrappers
  import opened JsStrings
  import opened Tenure

  /** One education record; only the school name is always present. */
  datatype EducationRecord = EducationRecord(
    schoolName: string,
    degree: Option<string>,
    startYear: Option<string>,
    endYear: Option<string>,
    description: Option<string>)

  /** The record the visible text spans of one school entry give: school name,
      degree, the year range and a description, each read when its span is
      there. The school name is required; a year range is split by
      formatDateYear, whose failures end the extraction. */
  function EducationRecordOf(spans: seq<string>): (r: Result<EducationRecord>)
    ensures r.Ok? <==> |spans| >= 1 && (|spans| >= 3 ==> DateYears(spans[2]).Ok?)
    ensures r.Ok? ==> r.value.schoolName == spans[0]
  {
    if |spans| == 0 then Err(MissingRequiredField)
    else
      var degree := if |spans| > 1 then Some(spans[1]) else None;
      var description := if |spans| > 3 then Some(spans[3]) else None;
      if |spans| > 2 then
        var years :- DateYears(spans[2]);
        Ok(EducationRecord(spans[0], degree, Some(years[0]), Some(years[1]), description))
      else
        Ok(EducationRecord(spans[0], degree, None, None, description))
  }

  /** The education list: the record of each school entry in turn. */
  function EducationOf(entries: seq<seq<string>>): (r: Result<seq<EducationRecord>>)
    ensures r.Ok? <==> forall i :: 0 <= i < |entries| ==> EducationRecordOf(entries[i]).Ok?
    ensures r.Ok? ==>
      |r.value| == |entries| && forall i :: 0 <= i < |entries| ==> EducationRecordOf(entries[i]) == Ok(r.value[i])
  {
    MapResult(EducationRecordOf, entries)
  }

  /** The fields of a record: each optional field is present exactly when its
      span is, and the years are those of formatDateYear. A record fails only
      without a school name or on a year range formatDateYear rejects. */
  lemma EducationRecordFields(spans: seq<string>)
    ensures var r := EducationRecordOf(spans);
      r.Ok? <==> |spans| >= 1 && (|spans| >= 3 ==> DateYears(spans[2]).Ok?)
    ensures var r := EducationRecordOf(spans);
      |spans| == 0 ==> r == Err(MissingRequiredField)
    ensures var r := EducationRecordOf(spans);
      r.Ok? ==>
        r.value.schoolName == spans[0] &&
        (r.value.degree.Some? <==> |spans| >= 2) &&
        (r.value.degree.Some? ==> r.value.degree.value == spans[1]) &&
        (r.value.startYear.Some? <==> |spans| >= 3) &&
        (r.value.endYear.Some? <==> |spans| >= 3) &&
        (|spans| >= 3 ==>
          [r.value.startYear.value, r.value.endYear.value] == DateYears(spans[2]).value[..2]) &&
        (r.value.description.Some? <==> |spans| >= 4) &&
        (r.value.description.Some? ==> r.value.description.value == spans[3])
  {
    if |spans| >= 3 && DateYears(spans[2]).Ok? {
      var years := DateYears(spans[2]).value;
      assert years[..2] == [years[0], years[1]];
    }
  }

  /** One school entry. */
  method ReadEducationRecord(textSpans: seq<string>) returns (record: Result<EducationRecord>)
    ensures record == EducationRecordOf(textSpans)
  {
    if |textSpans| == 0 {
      return Err(MissingRequiredField);
    }
    var schoolName := textSpans[0];
    var degree: Option<string> := None;
    var startYear: Option<string> := None;
    var endYear: Option<string> := None;
    var description: Option<string> := None;
    if |textSpans| > 1 {
      degree := Some(textSpans[1]);
    }
    if |textSpans| > 2 {
      var years := FormatDateYear(textSpans[2]);
      if years.Err? {
        return Err(years.error);
      }
      startYear := Some(years.value[0]);
      endYear := Some(years.value[1]);
    }
    if |textSpans| > 3 {
      description := Some(textSpans[3]);
    }
    record := Ok(EducationRecord(schoolName, degree, startYear, endYear, description));
  }

  /** The education loop: every school entry in turn, each record pushed as it
      is read. */
  method AssembleEducation(educationEntries: seq<seq<string>>) returns (education: Result<seq<EducationRecord>>)
    ensures education == EducationOf(educationEntries)
  {
    var records: seq<EducationRecord> := [];
    for k := 0 to |educationEntries|
      invariant MapResult(EducationRecordOf, educationEntries[..k]) == Ok(records)
    {
      assert educationEntries[..k + 1][..k] == educationEntries[..k];
      var record := ReadEducationRecord(educationEntries[k]);
      if record.Err? {
        MapResultFirstError(EducationRecordOf, educationEntries, k);
        return Err(record.error);
      }
      records := records + [record.value];
    }
    assert educationEntries[..|educationEntries|] == educationEntries;
    education := Ok(records);
  }

  /** A school with a degree and a range of two plain years. */
  lemma EducationExample(school: string, degree: string, range: string)
    requires school == "Stanford University" && degree == "BS" && range == "2015 - 2019"
    ensures EducationRecordOf([school, degree, range]) ==
      Ok(EducationRecord(school, Some(degree), Some("2015"), Some("2019"), None))
  {
    assert range == "2015" + DateSeparator + "2019";
    RangeOfYears("2015", "2019");
  }

  /** Two plain years give themselves. */
  lemma RangeOfYears(a: string, b: string)
    requires a == "2015" && b == "2019"
    ensures DateYears(a + DateSeparator + b) == Ok([a, b])
  {
    NotContainsMissingChar(b, Dots, 0);
    DateYearsOfRange(a, b);
  }
}

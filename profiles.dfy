/** extractProfileData: the profile record assembled from the text a profile
    page shows. */
module Profiles {
  import opened Wrappers
  import opened JsStrings
  import opened Names
  import opened Locations
  import opened Contacts
  import opened Experience
  import opened Education

  /** What the script reads off a profile page: the text of the name element,
      the text of the location element, the addresses of the contact links, the
      company entries of the experience section and the visible text spans of
      each school entry. */
  datatype ProfilePage = ProfilePage(
    nameText: string,
    locationText: string,
    contactLinks: seq<string>,
    companyEntries: seq<CompanyEntry>,
    educationEntries: seq<seq<string>>)

  /** The profile record. */
  datatype Profile = Profile(
    firstName: string,
    lastName: string,
    location: Location,
    contact: Contact,
    experience: seq<Role>,
    education: seq<EducationRecord>)

  /** The name read from the text of the name element: formatName on the trimmed text. */
  function NameFromText(nameText: string): Option<Name> {
    NameOf(StrippedName(Trim(nameText)))
  }

  /** The location read from the text of the location element: formatLocation on the trimmed text. */
  function LocationFromText(locationText: string): Location {
    LocationOf(Trim(locationText))
  }

  /** The profile a page gives, in the script's order: the trimmed name is split
      (a name that does not split ends the extraction), the trimmed location is
      read, then the contact links, the experience entries and the school
      entries. */
  function ProfileOf(page: ProfilePage): Result<Profile> {
    AssembleProfile(
      NameFromText(page.nameText),
      LocationFromText(page.locationText),
      ContactOf(page.contactLinks),
      ExperienceOf(page.companyEntries),
      EducationOf(page.educationEntries))
  }

  /** The record built from what each part of the page gave: the first failure,
      in the script's order, ends the extraction. */
  function AssembleProfile(
    name: Option<Name>,
    location: Location,
    contact: Contact,
    experience: Result<seq<Role>>,
    education: Result<seq<EducationRecord>>): (r: Result<Profile>)
    ensures r.Err? <==> name.None? || experience.Err? || education.Err?
    ensures r.Err? ==>
      r.error == if name.None? then InvalidName else if experience.Err? then experience.error else education.error
    ensures r.Ok? ==>
      name == Some(Name(r.value.firstName, r.value.lastName)) &&
      r.value.location == location && r.value.contact == contact &&
      experience == Ok(r.value.experience) && education == Ok(r.value.education)
  {
    if name.None? then Err(InvalidName)
    else
      var roles :- experience;
      var records :- education;
      Ok(Profile(name.value.first, name.value.last, location, contact, roles, records))
  }

  /** extractProfileData, from the page text onwards. */
  method ExtractProfileData(page: ProfilePage) returns (profile: Result<Profile>)
    ensures profile == ProfileOf(page)
  {
    var name := FormatName(Trim(page.nameText));
    if name.None? {
      return Err(InvalidName);
    }
    var location := LocationFromText(page.locationText);
    var contact := ParseContactData(page.contactLinks);
    var experience := AssembleExperience(page.companyEntries);
    if experience.Err? {
      return Err(experience.error);
    }
    var education := AssembleEducation(page.educationEntries);
    if education.Err? {
      return Err(education.error);
    }
    profile := Ok(Profile(name.value.first, name.value.last, location, contact, experience.value, education.value));
  }

  /** Extraction fails exactly when the name does not split, an experience entry
      fails or a school entry fails, and reports the first of these. */
  lemma ProfileFailure(page: ProfilePage)
    ensures ProfileOf(page).Err? <==>
      NameFromText(page.nameText).None? ||
      ExperienceOf(page.companyEntries).Err? || EducationOf(page.educationEntries).Err?
    ensures ProfileOf(page).Err? ==>
      ProfileOf(page).error ==
      if NameFromText(page.nameText).None? then InvalidName
      else if ExperienceOf(page.companyEntries).Err? then ExperienceOf(page.companyEntries).error
      else EducationOf(page.educationEntries).error
  {
  }

  /** The first and last name of a profile, joined by a space, are the trimmed
      name without its prefix and suffixes; the last name has no space. The
      roles and the school records are one per listed role and school. */
  lemma ProfileFields(page: ProfilePage)
    requires ProfileOf(page).Ok?
    ensures var p := ProfileOf(page).value;
      p.firstName + " " + p.lastName == StrippedName(Trim(page.nameText)) && ' ' !in p.lastName
    ensures var p := ProfileOf(page).value;
      p.location == LocationOf(Trim(page.locationText)) && p.contact == ContactOf(page.contactLinks)
    ensures var p := ProfileOf(page).value;
      |p.experience| == RoleCount(page.companyEntries) && |p.education| == |page.educationEntries|
  {
    NameOfRoundTrip(StrippedName(Trim(page.nameText)));
    ExperienceLength(page.companyEntries);
  }

  /** Trimming the text first changes neither the name nor the location read from it. */
  lemma TextsIgnorePadding(nameText: string, locationText: string)
    ensures NameFromText(Trim(nameText)) == NameFromText(nameText)
    ensures LocationFromText(Trim(locationText)) == LocationFromText(locationText)
  {
    TrimIdempotent(nameText);
    TrimIdempotent(locationText);
  }

  /** White space around the name and the location changes nothing. */
  lemma ProfileIgnoresPadding(page: ProfilePage)
    ensures ProfileOf(page.(nameText := Trim(page.nameText), locationText := Trim(page.locationText))) ==
      ProfileOf(page)
  {
    TextsIgnorePadding(page.nameText, page.locationText);
  }
}

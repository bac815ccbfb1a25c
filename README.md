# Profile normalisation of contact-upload, in Dafny

contact-upload reads LinkedIn profiles in a browser and copies each one into
a CRM. This project models how it turns a profile page's text into a profile
record, and proves properties of that model. It covers the helpers of
`uploadProfiles.js` and the record built by `extractProfileData`:

- **formatName** splits a full name into first and last name. It first strips
  at most one honorific prefix, then makes one ordered pass over credential
  suffixes.
- **formatLocation** reads city, state and country out of a location string.
- **parseContactData** sorts contact links into an email address and a
  profile URL.
- **formatTenure**, **removeDots** and **formatDateYear** split date ranges
  such as `Sep 2015 - Jun 2019`.
- **The experience loop** reads the roles of each company entry. A company
  can list several roles under one name, or be a single role. A span count
  tells whether a location span is present.
- **The education loop** reads one record per school entry.

The JavaScript string operations the code relies on are written out in module
`JsStrings`:

- `indexOf` and `includes`;
- `replace` with a string pattern, which replaces the first occurrence only;
- `split`, which keeps every piece, empty ones included;
- `join`;
- `trim`, with the ECMAScript white-space and line-terminator set.

`removeDots` looks for the four characters space, U+00C2, U+00B7, space (the
UTF-8 bytes of ` · ` read as Latin-1). It does not look for a middle dot
alone, so a tenure shown as `Jan 2019 - Present · 3 yrs` keeps
`Present · 3 yrs` as its end date (`Tenure.MiddleDotKeepsEnd`).

In the script, an error stops the extraction of a profile: a destructuring of
`undefined`, a read of a missing text span, or `removeDots(undefined)`. Each
such error is a JavaScript TypeError. Here each one is an `Err` of the
`Failure` datatype in module `Wrappers`:

- `InvalidName`: the name does not split into two parts.
- `MissingRequiredField`: a required element or span is missing.
- `MalformedDateRange`: a tenure has no `" - "`.
- `OpenEndedYear`: a school year range ends in `Present`, whose `null` has no
  length.

Each function of the script that loops becomes a Dafny `method` with the same
loop and the same branches: formatName, parseContactData, formatDateYear, and
the experience and education loops of extractProfileData. Each is proved
equal to a specification function, and the promised properties are proved as
lemmas about that function. formatLocation, removeDots and formatTenure have
no loop and are functions. formatTenure overwrites `tenureArray[1]` of its
local array in place; here that is a sequence update (`s[1 := v]`).

Some specification functions carry no contract of their own; lemmas state
what they compute:
- `Names.StripPrefix`: `StripPrefixFirst` and `StripPrefixNone`.
- `Names.NameOf`: `NameOfRoundTrip` and `NameOfUnique`.
- `Names.StrippedName`: `OnePassLeavesComma`, `CommaSuffixRemoved` and `OnePrefixOnly`.
- `Experience.RoleFrom`: `RoleFromFields`.
- `Experience.MultiRoleLayout` and `SingleRoleLayout`: `MultiRoleFields` and `SingleRoleFields`.
- `Experience.EntryRoles`: `MultiRoleEntry`, `SingleRoleEntry` and `ExperienceOfOne`.
- `Experience.ExperienceOf`: `ExperienceOk`, `ExperienceAppend` and `ExperienceLength`.
- `Profiles.ProfileOf`: `AssembleProfile`, `ProfileFailure` and `ProfileFields`.
`ExtractProfileData` composes the methods in the script's order, and
`ProfilePage` holds the text the browser would have returned.

The code is followed where it differs from an informal reading of it:

- Suffixes are removed in one pass in list order. `"Jane Smith, CPA"` loses
  `" CPA"` first and keeps its comma.
- Only the first matching prefix is removed.
- A one-part location containing `Area` gives a city and no country.
- `formatDateYear` on a range ending in `Present` fails.
- A link containing both `linkedin` and `@` only sets the URL.
- `replace("mailto:", "")` removes the first `mailto:` wherever it occurs.

## Model

| member | source | states |
|---|---|---|
| `JsStrings.IndexOf` | uploadProfiles.js:163 | `-1` exactly when the pattern does not occur, otherwise the first position where it occurs |
| `JsStrings.ReplaceFirst` | uploadProfiles.js:131 | only the first occurrence is replaced, and nothing before it matches; without an occurrence the string is unchanged |
| `JsStrings.ReplaceFirstAtStart` | uploadProfiles.js:131 | a leading pattern replaced by nothing leaves exactly what follows it |
| `JsStrings.Split` | uploadProfiles.js:102 | at least one piece; the pieces joined with the separator give back the string; no piece contains the separator; two or more pieces exactly when the separator occurs |
| `JsStrings.SplitAtFirst` | uploadProfiles.js:139 | the first piece is the text before the first separator, then come the pieces of the rest |
| `JsStrings.SplitWithout` | uploadProfiles.js:113 | a string without the separator is its own single piece |
| `JsStrings.NotContainsMissingChar` | uploadProfiles.js:128 | a string lacking one character of the pattern does not contain it |
| `JsStrings.TrimStartWhiteSpace` | uploadProfiles.js:192 | everything removed from the front is white space, and the result does not start with white space |
| `JsStrings.TrimEndWhiteSpace` | uploadProfiles.js:192 | everything removed from the back is white space, and the result does not end with white space |
| `JsStrings.TrimSlice` | uploadProfiles.js:192 | `trim` returns a contiguous slice of its input |
| `JsStrings.TrimRemovesWhiteSpace` | uploadProfiles.js:192 | only white space is removed, at either end |
| `JsStrings.TrimEnds` | uploadProfiles.js:199 | the trimmed string has no white space at either end |
| `JsStrings.TrimIdempotent` | uploadProfiles.js:199 | trimming twice is trimming once |
| `Names.StripPrefixFirst` | uploadProfiles.js:91-96 | exactly the first listed prefix the name starts with is removed |
| `Names.StripPrefixNone` | uploadProfiles.js:91-96 | a name starting with no listed prefix is unchanged |
| `Names.OnePrefixOnly` | uploadProfiles.js:89-96 | the loop breaks after one prefix: `"Dr. Dr Jane Smith"` becomes `"Dr Jane Smith"` |
| `Names.StripSuffix` | uploadProfiles.js:98-99 | a suffix the name ends with is cut off, leaving the rest; an empty suffix leaves nothing; otherwise the name is unchanged |
| `Names.StripSuffixes` | uploadProfiles.js:97-101 | cutting suffixes always leaves a prefix of the name |
| `Names.StripSuffixesNoMatch` | uploadProfiles.js:97-101 | suffixes the name does not end with are skipped without effect |
| `Names.StripSuffixesLastChar` | uploadProfiles.js:97-101 | when no suffix ends in the name's last character, the name is unchanged |
| `Names.OnePassLeavesComma` | uploadProfiles.js:90-101 | one ordered pass: `" CPA"` is tested before `", CPA"`, so `"Jane Smith, CPA"` becomes `"Jane Smith,"` |
| `Names.CommaSuffixRemoved` | uploadProfiles.js:90-101 | `", MBA"` is listed before `" MBA"`, so `"Jane Smith, MBA"` becomes `"Jane Smith"` |
| `Names.NameOfRoundTrip` | uploadProfiles.js:102-109 | there is a name exactly when the string has a space; first name, a space and last name give back the string; the last name has no space |
| `Names.NameOfUnique` | uploadProfiles.js:102-109 | any split into a part, a space and a space-free part is the one computed |
| `Names.SplitOnSpacesTwo` | uploadProfiles.js:105 | with two tokens the name is those two tokens |
| `Names.SplitOnSpacesMany` | uploadProfiles.js:108 | with more tokens, all but the last joined by spaces form the first name and the last token is the last name |
| `Names.SplitOnSpacesOne` | uploadProfiles.js:102-109 | with fewer than two tokens there is no name |
| `Names.SplitFullName` | uploadProfiles.js:86-109 | the prefix loop, the suffix loop and the split give the name of the string with its prefix and suffixes removed |
| `Names.FormatName` | uploadProfiles.js:86-109 | formatName with the script's prefix and suffix lists |
| `Names.FormatNameCpa` | uploadProfiles.js:86-109 | `"Jane Smith, CPA"` gives first name `"Jane"` and last name `"Smith,"` |
| `Locations.LocationArray` | uploadProfiles.js:116-121 | the last element is the last part; present elements are parts; three slots unless there is a lone `Area` part; the city slot is filled from two parts and the state slot from three |
| `Locations.FormatLocation` | uploadProfiles.js:112-122 | the array always ends in a present element and no element contains `", "`; one part is `[undefined, undefined, s]`, or `[s]` when it names an `Area`; with a separator the city and country slots are filled |
| `Locations.LocationOf` | uploadProfiles.js:199 | no city exactly for a lone part without `Area`; a state exactly with three or more parts; no country exactly for a lone `Area` part |
| `Locations.LocationOfFormatLocation` | uploadProfiles.js:199 | the location holds the first three elements of the array formatLocation returns, `undefined` past its end |
| `Locations.LocationCases` | uploadProfiles.js:112-122 | one part without `Area` is a country; one part with `Area` is a city; two parts are city and country; more parts are city, state and country |
| `Locations.PartsFields` | uploadProfiles.js:116-121 | the present fields are the parts, or the first three parts when there are more |
| `Locations.LocationFields` | uploadProfiles.js:112-122 | the present fields of a location are the parts of its split, at most three |
| `Locations.LocationRoundTrip` | uploadProfiles.js:112-122 | with at most three parts, the present fields joined with `", "` give back the string |
| `Locations.SplitAtPartSeparator` | uploadProfiles.js:113 | a comma-free first part is the first piece of the split |
| `Locations.SplitThree` | uploadProfiles.js:113 | three comma-free parts joined with `", "` split back into them |
| `Locations.LocationOfThree` | uploadProfiles.js:112-122 | `"city, state, country"` gives those three fields |
| `Locations.LocationOfCountry` | uploadProfiles.js:116-117 | a single part without a comma or `A` is a country |
| `Contacts.ContactOf` | uploadProfiles.js:125-135 | a present URL is one of the links and contains `linkedin` |
| `Contacts.ParseContactData` | uploadProfiles.js:125-135 | the loop over the links computes `ContactOf`, the last profile link and the last email link (see the lemmas below) |
| `Contacts.UrlAbsent` | uploadProfiles.js:127-129 | the URL is absent exactly when no link contains `linkedin` |
| `Contacts.UrlIsLastProfileLink` | uploadProfiles.js:127-129 | a present URL is the last link containing `linkedin` |
| `Contacts.EmailAbsent` | uploadProfiles.js:127-132 | the email is absent exactly when no link has an `@` without containing `linkedin` |
| `Contacts.EmailStep` | uploadProfiles.js:127-132 | one more link changes the email only when it is an email link |
| `Contacts.EmailIsLastEmailLink` | uploadProfiles.js:127-132 | a present email is the last email link with its first `mailto:` removed |
| `Contacts.ContactGrows` | uploadProfiles.js:126-133 | reading more links never unsets a field |
| `Contacts.ProfileLinkWithAt` | uploadProfiles.js:128-131 | a link containing `linkedin` sets the URL only, even when it has an `@` |
| `Contacts.MailtoLink` | uploadProfiles.js:130-131 | `mailto:` followed by an address with an `@` (and no `k`, so no `linkedin`) is an email link giving that address |
| `Contacts.LinkedInLink` | uploadProfiles.js:128 | a `https://www.linkedin.com/in/` address is a profile link |
| `Contacts.ContactExample` | uploadProfiles.js:125-135 | a `mailto:` link and then a `linkedin.com/in/` link give both the email and the URL |
| `JsStrings.SliceOffEnd` | uploadProfiles.js:99 | `slice(0, -n)` drops the last `n` characters, and yields the empty string for `n` of 0 or past the length |
| `Tenure.RemoveDots` | uploadProfiles.js:162-168 | the result is a prefix of the input without the separator; it is the whole input when the separator is absent, and otherwise its length is the index of the first separator |
| `Tenure.RemoveDotsCutsAt` | uploadProfiles.js:162-168 | text without U+00C2, then the separator, gives back that text |
| `Tenure.RemoveDotsIdempotent` | uploadProfiles.js:162-168 | removing the separator twice is removing it once |
| `Tenure.FormatTenure` | uploadProfiles.js:138-143 | it fails exactly when there is no `" - "`; otherwise there are at least two tokens and only the second can be null |
| `Tenure.FormatTenureTokens` | uploadProfiles.js:138-143 | the first token is the text before the first `" - "`; the second is cut at the separator and is null for `Present`; the rest are as split |
| `Tenure.SplitRange` | uploadProfiles.js:139 | `"a - b"` with no dash in either date splits into `a` and `b` |
| `Tenure.FormatTenureOfRange` | uploadProfiles.js:138-143 | `"a - b"` gives `a` and the cleaned end of `b`, null for `Present` |
| `Tenure.FormatTenureRoundTrip` | uploadProfiles.js:139-142 | when the end token holds no separator and is not `Present`, every token is present and the tokens joined with `" - "` give back the input |
| `Tenure.CurrentRoleTenure` | uploadProfiles.js:138-143 | a current role, a dash-free start, `" - "`, `Present`, the separator and a length, gives the start date and a null end |
| `Tenure.EndDate` | uploadProfiles.js:140-141 | the end token is null exactly when it reads `Present` once cut at the separator, and is otherwise that cut text |
| `Tenure.MiddleDotKeepsEnd` | uploadProfiles.js:138-143 | a middle dot without the U+00C2 before it is not cut: `Present · 3 yrs` stays the end date |
| `Tenure.YearOf` | uploadProfiles.js:152-156 | an eight-character `MMM YYYY` token loses its first four characters; any other token is kept |
| `Tenure.Years` | uploadProfiles.js:150-157 | fails exactly when a token is null, with `OpenEndedYear`; otherwise one year per token, in order |
| `Tenure.YearOfIdempotent` | uploadProfiles.js:152-156 | reducing a token to its year twice is reducing it once |
| `Tenure.DateYears` | uploadProfiles.js:146-159 | it fails exactly when there is no `" - "` or the end is null; otherwise each token is reduced to its year |
| `Tenure.FormatDateYear` | uploadProfiles.js:146-159 | the method computes `DateYears`: formatTenure, then each token reduced to its year, failing on a missing `" - "` or a `Present` end |
| `Tenure.ReduceToYears` | uploadProfiles.js:150-157 | the loop reduces each token to its year and fails on a null token |
| `Tenure.DateYearsOfRange` | uploadProfiles.js:146-159 | `"a - b"` gives the years of both dates, and fails when `b` reads `Present` |
| `Tenure.SchoolYears` | uploadProfiles.js:146-159 | `"Sep 2015 - Jun 2019"` gives `2015` and `2019` |
| `Experience.RoleFromFields` | uploadProfiles.js:232-271 | a role is read exactly when its title, tenure and (if from a span) company spans exist and the tenure has `" - "`; its title and dates come from those spans, and its description is present exactly when its span is |
| `Experience.ExperienceOk` | uploadProfiles.js:222-274 | the experience list exists exactly when every company entry is read without failure |
| `Experience.MultiRoleFields` | uploadProfiles.js:231-248 | a role under a shared company is read exactly when it has a title and a tenure containing `" - "`; the fourth of four spans is its description, and otherwise the third |
| `Experience.SingleRoleFields` | uploadProfiles.js:254-271 | a company's only role needs a title, a company span and a tenure with `" - "`; the company is cut at the separator; the fifth of five spans is its description, and otherwise the fourth |
| `Experience.MultiRoleEntry` | uploadProfiles.js:225-250 | a company with several roles gives one role per sub-entry, in order, all under its cleaned name; it fails without a company-name element |
| `Experience.SingleRoleEntry` | uploadProfiles.js:251-273 | a company without several sub-entries is one role read from its own spans |
| `Experience.ReadMultiRole` | uploadProfiles.js:229-249 | building one role from its spans matches the layout rule for several roles |
| `Experience.ReadSingleRole` | uploadProfiles.js:252-272 | building the only role matches the layout rule for one role |
| `Experience.ReadCompanyRoles` | uploadProfiles.js:225-250 | the sub-entry loop reads every role in order and stops at the first failure |
| `Experience.ExperienceStep` | uploadProfiles.js:222-274 | one more entry read without failure adds its roles at the end |
| `Experience.AssembleExperience` | uploadProfiles.js:222-274 | the experience loop computes `ExperienceOf`: every entry's roles in order, stopping at the first failure |
| `Experience.ExperienceAppend` | uploadProfiles.js:222-274 | two runs of entries give the roles of the first, then of the second; a failure in either fails the whole |
| `Experience.ExperienceOfOne` | uploadProfiles.js:224-273 | one entry gives its own roles: as many as it lists |
| `Experience.ExperienceLength` | uploadProfiles.js:222-274 | the experience list has one role per listed role |
| `Education.EducationRecordOf` | uploadProfiles.js:280-292 | a record is read exactly when there is a school span and any year range is accepted by formatDateYear; the school name is the first span |
| `Education.EducationOf` | uploadProfiles.js:279-293 | succeeds exactly when every school entry does, with one record per entry, in order |
| `Education.EducationRecordFields` | uploadProfiles.js:282-291 | the school name is required; degree, years and description are present exactly when their span is; the years are those of formatDateYear |
| `Education.ReadEducationRecord` | uploadProfiles.js:280-292 | building one record is `EducationRecordOf`, whose fields `EducationRecordFields` states |
| `Education.AssembleEducation` | uploadProfiles.js:279-293 | the education loop gives one record per school entry, in order, and stops at the first failure |
| `Education.EducationExample` | uploadProfiles.js:282-291 | school, degree and `"2015 - 2019"` give those fields and the two years |
| `Wrappers.MapResult` | uploadProfiles.js:279-293 | a loop that may fail: it succeeds exactly when every step does, with one result per element in order |
| `Wrappers.MapResultFirstError` | uploadProfiles.js:222-293 | the failure of the loop is that of its first failing step |
| `Wrappers.MapResultAppend` | uploadProfiles.js:222-293 | running over two sequences in turn is running over their concatenation |
| `Wrappers.FlattenAppend` | uploadProfiles.js:249 | pushing role by role onto one list concatenates the companies' roles |
| `Profiles.AssembleProfile` | uploadProfiles.js:190-293 | the record fails exactly when the name does not split or a section fails, reports the first failure, and otherwise holds each part's result |
| `Profiles.ExtractProfileData` | uploadProfiles.js:180-296 | the extraction computes `ProfileOf`, the record `AssembleProfile` describes, from the page text |
| `Profiles.ProfileFailure` | uploadProfiles.js:190-293 | extraction fails exactly when the name, an experience entry or a school entry fails, and reports the first of these |
| `Profiles.ProfileFields` | uploadProfiles.js:190-212 | first name, a space and last name give the trimmed name without prefix and suffixes; the location and contact are those of the page; there is one role per listed role and one record per school |
| `Profiles.TextsIgnorePadding` | uploadProfiles.js:192-199 | trimming the text first changes neither the name nor the location |
| `Profiles.ProfileIgnoresPadding` | uploadProfiles.js:190-202 | white space around the name and the location does not change the profile |

## Left out

- The browser is left out: navigation, selectors, waits and clicks (Playwright). `ProfilePage` is the text those calls return. The order in which spans are found is taken as given.
- Logging in to the CRM and LinkedIn, and the manual two-factor wait, are left out. They are browser I/O.
- Reading the CSV of profile URLs, the command-line arguments, `process.exit` and `console.log` are left out. They are I/O.
- `saveProfileToThrive` and its duplicates list are left out. They only fill in a web form.
- `extractProfileData` logs the profile it builds and returns nothing. Here `ExtractProfileData` returns the record it would log.
- What happens after an error is left out. The script throws and the caller loop ends, which is JavaScript control flow outside this core. A failure is an `Err` with a named cause.
- The traits of a missing value are not modelled. An end date set to `null` and a field never set (`undefined`) are both `None` in `Option`.
- Lengths are counted in Unicode code points, not UTF-16 code units. `date.length === 8` in formatDateYear and the slice offsets agree with the source only for text in the Basic Multilingual Plane.
- The truthiness of spans is not modelled. `if (textSpans[i])` tests whether an element handle exists, and the handle of a present span is always truthy, so here it is simply whether the span exists.
- `Tenure.FormatTenure`: the script writes `tenureArray[1]` in place, twice. The model is a function on a sequence value, with a sequence update. The array is local to formatTenure and shared with nobody, so no aliasing is lost; the model keeps the order of the two writes.

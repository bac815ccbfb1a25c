/** The experience section: the roles read from each company entry, in page
    order. */
module Experience {
  import opened Wrappers
  import opened JsStrings
  import opened Tenure

  /** One role as the profile records it; `endDate` is absent for a current role. */
  datatype Role = Role(
    title: string,
    company: string,
    startDate: string,
    endDate: Option<string>,
    description: Option<string>)

  /** One company entry of the experience section as the page presents it: the
      visible text spans of each role sub-entry, the text of the company-name
      element (absent when the page has none) and the visible text spans of the
      entry itself. */
  datatype CompanyEntry = CompanyEntry(
    roleEntries: seq<seq<string>>,
    companySpan: Option<string>,
    spans: seq<string>)

  /** Where the company of a role comes from: the name shared by all roles of a
      company entry, or a span of the role's own. */
  datatype CompanySource = SharedName(name: string) | CompanyAt(index: nat)

  /** Which span holds each field of a role. */
  datatype SpanLayout = SpanLayout(title: nat, company: CompanySource, tenure: nat, description: nat)

  /** A role under a company with several roles: title and tenure come first;
      with four spans the third is the role's location and the description is
      the fourth, otherwise the description is the third. */
  function MultiRoleLayout(spanCount: nat, companyName: string): SpanLayout {
    if spanCount == 4 then SpanLayout(0, SharedName(companyName), 1, 3)
    else SpanLayout(0, SharedName(companyName), 1, 2)
  }

  /** The only role of a company entry: title, company and tenure come first;
      with five spans the fourth is the location and the description is the
      fifth, otherwise the description is the fourth. */
  function SingleRoleLayout(spanCount: nat): SpanLayout {
    if spanCount == 5 then SpanLayout(0, CompanyAt(1), 2, 4)
    else SpanLayout(0, CompanyAt(1), 2, 3)
  }

  /** The role the spans give under a layout. A span that is read but missing
      fails; the description is simply absent when its span is. The company read
      from a span loses what follows the removeDots separator; the tenure is
      split by formatTenure. */
  function RoleFrom(spans: seq<string>, layout: SpanLayout): Result<Role>
  {
    if layout.title >= |spans| then Err(MissingRequiredField)
    else
      var description := if layout.description < |spans| then Some(spans[layout.description]) else None;
      var company :- match layout.company
        case SharedName(name) => Ok(name)
        case CompanyAt(i) => if i < |spans| then Ok(RemoveDots(spans[i])) else Err(MissingRequiredField);
      if layout.tenure >= |spans| then Err(MissingRequiredField)
      else
        var tenure :- FormatTenure(spans[layout.tenure]);
        Ok(Role(spans[layout.title], company, tenure[0].value, tenure[1], description))
  }

  /** A role is read exactly when its title span, its tenure span and (when the
      company comes from a span) its company span are there and the tenure has a
      " - "; then its title and dates come from those spans, and its description
      is present exactly when its span is. */
  lemma RoleFromFields(spans: seq<string>, layout: SpanLayout)
    ensures var r := RoleFrom(spans, layout);
      r.Ok? <==>
        layout.title < |spans| && layout.tenure < |spans| &&
        (layout.company.CompanyAt? ==> layout.company.index < |spans|) &&
        Contains(spans[layout.tenure], DateSeparator)
    ensures var r := RoleFrom(spans, layout);
      r.Ok? ==>
        r.value.title == spans[layout.title] && DatesFrom(r.value, spans[layout.tenure]) &&
        (r.value.description.Some? <==> layout.description < |spans|) &&
        (r.value.description.Some? ==> r.value.description.value == spans[layout.description])
  {
  }

  /** Reading one role sub-entry under a shared company name. */
  function MultiRole(companyName: string): seq<string> -> Result<Role> {
    textSpans => RoleFrom(textSpans, MultiRoleLayout(|textSpans|, companyName))
  }

  /** The roles of one company entry: one per role sub-entry when there are
      several, all under the entry's company name; otherwise the entry itself is
      the one role. */
  function EntryRoles(entry: CompanyEntry): (r: Result<seq<Role>>)
  {
    if |entry.roleEntries| > 1 then
      match entry.companySpan
      case None => Err(MissingRequiredField)
      case Some(span) => MapResult(MultiRole(RemoveDots(span)), entry.roleEntries)
    else
      var role :- RoleFrom(entry.spans, SingleRoleLayout(|entry.spans|));
      Ok([role])
  }

  /** The experience list: the roles of each company entry in turn. */
  function ExperienceOf(entries: seq<CompanyEntry>): Result<seq<Role>> {
    var blocks :- MapResult(EntryRoles, entries);
    Ok(Flatten(blocks))
  }

  /** The experience list exists exactly when every company entry is read
      without failure. */
  lemma ExperienceOk(entries: seq<CompanyEntry>)
    ensures ExperienceOf(entries).Ok? <==> forall i :: 0 <= i < |entries| ==> EntryRoles(entries[i]).Ok?
  {
  }

  /** The description of a role under a company with several roles: the fourth
      span when there are exactly four (the third is then a location), else the
      third span when there is one. */
  function MultiRoleDescription(spans: seq<string>): Option<string> {
    if |spans| == 4 then Some(spans[3]) else if |spans| >= 3 then Some(spans[2]) else None
  }

  /** The description of the only role of a company entry: the fifth span when
      there are exactly five, else the fourth span when there is one. */
  function SingleRoleDescription(spans: seq<string>): Option<string> {
    if |spans| == 5 then Some(spans[4]) else if |spans| >= 4 then Some(spans[3]) else None
  }

  /** The dates of a role agree with formatTenure on its tenure span. */
  predicate DatesFrom(role: Role, tenureSpan: string) {
    FormatTenure(tenureSpan).Ok? &&
    Some(role.startDate) == FormatTenure(tenureSpan).value[0] &&
    role.endDate == FormatTenure(tenureSpan).value[1]
  }

  /** A role sub-entry is read exactly when it has a title and a tenure span with
      " - "; its fields are those spans, the shared company name and its
      description. A missing span fails before a malformed tenure does. */
  lemma MultiRoleFields(spans: seq<string>, companyName: string)
    ensures var r := MultiRole(companyName)(spans);
      r.Ok? <==> |spans| >= 2 && Contains(spans[1], DateSeparator)
    ensures var r := MultiRole(companyName)(spans);
      r.Err? ==> r.error == (if |spans| < 2 then MissingRequiredField else MalformedDateRange)
    ensures var r := MultiRole(companyName)(spans);
      r.Ok? ==>
        r.value.title == spans[0] && r.value.company == companyName &&
        DatesFrom(r.value, spans[1]) && r.value.description == MultiRoleDescription(spans)
  {
  }

  /** The only role of an entry is read exactly when it has a title, a company
      span and a tenure span with " - "; the company is cut at the removeDots
      separator. */
  lemma SingleRoleFields(spans: seq<string>)
    ensures var r := RoleFrom(spans, SingleRoleLayout(|spans|));
      r.Ok? <==> |spans| >= 3 && Contains(spans[2], DateSeparator)
    ensures var r := RoleFrom(spans, SingleRoleLayout(|spans|));
      r.Err? ==> r.error == (if |spans| < 3 then MissingRequiredField else MalformedDateRange)
    ensures var r := RoleFrom(spans, SingleRoleLayout(|spans|));
      r.Ok? ==>
        r.value.title == spans[0] && r.value.company == RemoveDots(spans[1]) &&
        DatesFrom(r.value, spans[2]) && r.value.description == SingleRoleDescription(spans)
  {
  }

  /** A company with several roles gives one role per sub-entry, in order, all
      under the company's name; it fails without a company-name element. */
  lemma MultiRoleEntry(entry: CompanyEntry)
    requires |entry.roleEntries| > 1
    ensures entry.companySpan.None? ==> EntryRoles(entry) == Err(MissingRequiredField)
    ensures EntryRoles(entry).Ok? ==>
      var roles, subs := EntryRoles(entry).value, entry.roleEntries;
      entry.companySpan.Some? && |roles| == |subs| &&
      forall i :: 0 <= i < |roles| ==>
        roles[i].company == RemoveDots(entry.companySpan.value) && roles[i].title == subs[i][0] &&
        DatesFrom(roles[i], subs[i][1]) && roles[i].description == MultiRoleDescription(subs[i])
  {
    if EntryRoles(entry).Ok? {
      var name := RemoveDots(entry.companySpan.value);
      forall i | 0 <= i < |entry.roleEntries| ensures MultiRole(name)(entry.roleEntries[i]).Ok? {
      }
      forall i | 0 <= i < |entry.roleEntries| {
        MultiRoleFields(entry.roleEntries[i], name);
      }
    }
  }

  /** A company with at most one role sub-entry is one role, read from the
      entry's own spans. */
  lemma SingleRoleEntry(entry: CompanyEntry)
    requires |entry.roleEntries| <= 1
    ensures EntryRoles(entry).Ok? <==> RoleFrom(entry.spans, SingleRoleLayout(|entry.spans|)).Ok?
    ensures EntryRoles(entry).Ok? ==>
      EntryRoles(entry).value == [RoleFrom(entry.spans, SingleRoleLayout(|entry.spans|)).value]
  {
  }

  /** Reading two runs of entries one after the other: the roles of the first
      run, then those of the second; a failure in either fails the whole. */
  lemma ExperienceAppend(a: seq<CompanyEntry>, b: seq<CompanyEntry>)
    ensures ExperienceOf(a + b).Ok? <==> ExperienceOf(a).Ok? && ExperienceOf(b).Ok?
    ensures ExperienceOf(a + b).Ok? ==>
      ExperienceOf(a + b).value == ExperienceOf(a).value + ExperienceOf(b).value
  {
    MapResultAppend(EntryRoles, a, b);
    if MapResult(EntryRoles, a + b).Ok? {
      FlattenAppend(MapResult(EntryRoles, a).value, MapResult(EntryRoles, b).value);
    }
  }

  /** How many roles a company entry lists: its sub-entries when there are
      several, else one. */
  function RolesListed(entry: CompanyEntry): nat {
    if |entry.roleEntries| > 1 then |entry.roleEntries| else 1
  }

  /** How many roles the page lists. */
  function RoleCount(entries: seq<CompanyEntry>): nat
    decreases |entries|
  {
    if entries == [] then 0
    else RoleCount(entries[..|entries| - 1]) + RolesListed(entries[|entries| - 1])
  }

  /** A single entry gives its own roles: as many as it lists. */
  lemma ExperienceOfOne(entry: CompanyEntry)
    ensures ExperienceOf([entry]) == EntryRoles(entry)
    ensures ExperienceOf([entry]).Ok? ==> |ExperienceOf([entry]).value| == RolesListed(entry)
  {
    assert [entry][..0] == [];
    if EntryRoles(entry).Ok? {
      assert [EntryRoles(entry).value][..0] == [];
      assert Flatten([EntryRoles(entry).value]) == EntryRoles(entry).value;
      if |entry.roleEntries| > 1 {
        MultiRoleEntry(entry);
      }
    }
  }

  /** The experience list has one role per listed role. */
  lemma {:induction false} ExperienceLength(entries: seq<CompanyEntry>)
    ensures ExperienceOf(entries).Ok? ==> |ExperienceOf(entries).value| == RoleCount(entries)
    decreases |entries|
  {
    if entries != [] && ExperienceOf(entries).Ok? {
      var init, last := entries[..|entries| - 1], entries[|entries| - 1];
      assert entries == init + [last];
      ExperienceAppend(init, [last]);
      ExperienceLength(init);
      ExperienceOfOne(last);
      assert |ExperienceOf(entries).value| == |ExperienceOf(init).value| + |ExperienceOf([last]).value|;
      assert RoleCount(entries) == RoleCount(init) + RolesListed(last);
    }
  }

  /** One role sub-entry of a company with several roles. */
  method ReadMultiRole(textSpans: seq<string>, companyName: string) returns (role: Result<Role>)
    ensures role == MultiRole(companyName)(textSpans)
  {
    var title: string;
    var description: Option<string> := None;
    var tenureSpan: string;
    if |textSpans| == 4 {
      title := textSpans[0];
      description := Some(textSpans[3]);
      tenureSpan := textSpans[1];
    } else {
      if |textSpans| == 0 {
        return Err(MissingRequiredField);
      }
      title := textSpans[0];
      if |textSpans| > 2 {
        description := Some(textSpans[2]);
      }
      if |textSpans| == 1 {
        return Err(MissingRequiredField);
      }
      tenureSpan := textSpans[1];
    }
    var tenure := FormatTenure(tenureSpan);
    if tenure.Err? {
      return Err(tenure.error);
    }
    role := Ok(Role(title, companyName, tenure.value[0].value, tenure.value[1], description));
  }

  /** The only role of a company entry. */
  method ReadSingleRole(textSpans: seq<string>) returns (role: Result<Role>)
    ensures role == RoleFrom(textSpans, SingleRoleLayout(|textSpans|))
  {
    var title: string;
    var description: Option<string> := None;
    var companySpan: string;
    var tenureSpan: string;
    if |textSpans| == 5 {
      title := textSpans[0];
      description := Some(textSpans[4]);
      companySpan := textSpans[1];
      tenureSpan := textSpans[2];
    } else {
      if |textSpans| == 0 {
        return Err(MissingRequiredField);
      }
      title := textSpans[0];
      if |textSpans| > 3 {
        description := Some(textSpans[3]);
      }
      if |textSpans| < 3 {
        return Err(MissingRequiredField);
      }
      companySpan := textSpans[1];
      tenureSpan := textSpans[2];
    }
    var company := RemoveDots(companySpan);
    var tenure := FormatTenure(tenureSpan);
    if tenure.Err? {
      return Err(tenure.error);
    }
    role := Ok(Role(title, company, tenure.value[0].value, tenure.value[1], description));
  }

  /** The role sub-entries of a company with several roles, read in order. */
  method ReadCompanyRoles(roleLis: seq<seq<string>>, companyName: string) returns (block: Result<seq<Role>>)
    ensures block == MapResult(MultiRole(companyName), roleLis)
  {
    var roles: seq<Role> := [];
    for r := 0 to |roleLis|
      invariant MapResult(MultiRole(companyName), roleLis[..r]) == Ok(roles)
    {
      assert roleLis[..r + 1][..r] == roleLis[..r];
      var role := ReadMultiRole(roleLis[r], companyName);
      if role.Err? {
        MapResultFirstError(MultiRole(companyName), roleLis, r);
        return Err(role.error);
      }
      roles := roles + [role.value];
    }
    assert roleLis[..|roleLis|] == roleLis;
    block := Ok(roles);
  }

  /** One more entry read without failure extends the result by its roles. */
  lemma ExperienceStep(entries: seq<CompanyEntry>, k: nat, blocks: seq<seq<Role>>, block: seq<Role>)
    requires k < |entries|
    requires MapResult(EntryRoles, entries[..k]) == Ok(blocks)
    requires EntryRoles(entries[k]) == Ok(block)
    ensures MapResult(EntryRoles, entries[..k + 1]) == Ok(blocks + [block])
    ensures Flatten(blocks + [block]) == Flatten(blocks) + block
  {
    assert entries[..k + 1][..k] == entries[..k];
    assert (blocks + [block])[..|blocks|] == blocks;
  }

  /** The experience loop: every company entry in turn, every role sub-entry of
      a company with several roles, the roles pushed in the order read. */
  method AssembleExperience(companyEntries: seq<CompanyEntry>) returns (experience: Result<seq<Role>>)
    ensures experience == ExperienceOf(companyEntries)
  {
    var roles: seq<Role> := [];
    ghost var blocks: seq<seq<Role>> := [];
    for k := 0 to |companyEntries|
      invariant MapResult(EntryRoles, companyEntries[..k]) == Ok(blocks)
      invariant roles == Flatten(blocks)
    {
      var cxl := companyEntries[k];
      var block: seq<Role>;
      if |cxl.roleEntries| > 1 {
        if cxl.companySpan.None? {
          MapResultFirstError(EntryRoles, companyEntries, k);
          return Err(MissingRequiredField);
        }
        var companyName := RemoveDots(cxl.companySpan.value);
        var companyRoles := ReadCompanyRoles(cxl.roleEntries, companyName);
        if companyRoles.Err? {
          MapResultFirstError(EntryRoles, companyEntries, k);
          return Err(companyRoles.error);
        }
        block := companyRoles.value;
      } else {
        var role := ReadSingleRole(cxl.spans);
        if role.Err? {
          MapResultFirstError(EntryRoles, companyEntries, k);
          return Err(role.error);
        }
        block := [role.value];
      }
      ExperienceStep(companyEntries, k, blocks, block);
      roles := roles + block;
      blocks := blocks + [block];
    }
    assert companyEntries[..|companyEntries|] == companyEntries;
    experience := Ok(roles);
  }
}

/** The new resume each store action computes from the current one: spreads
    of partial objects, `map` over the sections and their entries, and
    `filter`. A partial object is a record of optional fields; a field that
    is present replaces the current value, an absent one keeps it. */
module ResumeUpdates {
  import opened Wrappers
  import opened JsString
  import opened ResumeModel

  // ---------------------------------------------------------------------
  // Header

  /** `Partial<Resume['header']>`. */
  datatype HeaderPatch = HeaderPatch(
    name: Option<string>, phone: Option<string>, email: Option<string>, links: Option<seq<Link>>)

  /** `updateHeader`: `{ ...header, ...patch }`. */
  function UpdateHeader(r: Resume, p: HeaderPatch): Resume {
    var h := r.header;
    r.(header := Header(p.name.GetOr(h.name), p.phone.GetOr(h.phone), p.email.GetOr(h.email), p.links.GetOr(h.links)))
  }

  /** The supplied header fields are replaced, the others and the sections
      are kept. */
  lemma UpdateHeaderFields(r: Resume, p: HeaderPatch)
    ensures UpdateHeader(r, p).sections == r.sections
    ensures UpdateHeader(r, p).header.name == (if p.name.Some? then p.name.value else r.header.name)
    ensures UpdateHeader(r, p).header.phone == (if p.phone.Some? then p.phone.value else r.header.phone)
    ensures UpdateHeader(r, p).header.email == (if p.email.Some? then p.email.value else r.header.email)
    ensures UpdateHeader(r, p).header.links == (if p.links.Some? then p.links.value else r.header.links)
  {
  }

  /** Applying the same patch twice is applying it once. */
  lemma UpdateHeaderIdempotent(r: Resume, p: HeaderPatch)
    ensures UpdateHeader(UpdateHeader(r, p), p) == UpdateHeader(r, p)
  {
  }

  /** The empty patch changes nothing. */
  lemma UpdateHeaderEmpty(r: Resume)
    ensures UpdateHeader(r, HeaderPatch(None, None, None, None)) == r
  {
  }

  // ---------------------------------------------------------------------
  // Sections

  /** `addSection`: the section goes last. */
  function AddSection(r: Resume, s: Section): Resume {
    r.(sections := r.sections + [s])
  }

  lemma AddSectionAppends(r: Resume, s: Section)
    ensures AddSection(r, s).header == r.header
    ensures |AddSection(r, s).sections| == |r.sections| + 1
    ensures AddSection(r, s).sections[..|r.sections|] == r.sections
    ensures AddSection(r, s).sections[|r.sections|] == s
  {
  }

  /** Adding a well-typed section keeps the resume well typed. */
  lemma AddSectionWellTyped(r: Resume, s: Section)
    requires WellTyped(r) && s.WellTyped()
    ensures WellTyped(AddSection(r, s))
  {
    var longer := AddSection(r, s).sections;
    assert forall i :: 0 <= i < |r.sections| ==> longer[i] == r.sections[i];
  }

  /** `Partial<ResumeSection>`. */
  datatype SectionPatch = SectionPatch(
    id: Option<string>, kind: Option<SectionType>, title: Option<string>, entries: Option<seq<Entry>>)

  /** `{ ...section, ...updates }`. */
  function PatchSection(s: Section, p: SectionPatch): Section {
    Section(p.id.GetOr(s.id), p.kind.GetOr(s.kind), p.title.GetOr(s.title), p.entries.GetOr(s.entries))
  }

  /** `updateSection`: every section whose id is `sectionId` is patched. */
  function UpdateSection(r: Resume, sectionId: string, p: SectionPatch): Resume {
    var ss := r.sections;
    r.(sections := seq(|ss|, i requires 0 <= i < |ss| => if ss[i].id == sectionId then PatchSection(ss[i], p) else ss[i]))
  }

  /** Length and order are kept, the header is kept, and only the sections
      with id `sectionId` change, each to the patched section. */
  lemma UpdateSectionFrame(r: Resume, sectionId: string, p: SectionPatch)
    ensures UpdateSection(r, sectionId, p).header == r.header
    ensures |UpdateSection(r, sectionId, p).sections| == |r.sections|
    ensures forall i :: 0 <= i < |r.sections| ==>
      UpdateSection(r, sectionId, p).sections[i]
        == (if r.sections[i].id == sectionId then PatchSection(r.sections[i], p) else r.sections[i])
  {
  }

  /** An id that no section carries makes `updateSection` a no-op. */
  lemma UpdateSectionMissing(r: Resume, sectionId: string, p: SectionPatch)
    requires sectionId !in SectionIds(r.sections)
    ensures UpdateSection(r, sectionId, p) == r
  {
    var ss := UpdateSection(r, sectionId, p).sections;
    assert forall i :: 0 <= i < |r.sections| ==> ss[i] == r.sections[i] by {
      forall i | 0 <= i < |r.sections| ensures ss[i] == r.sections[i] {
        assert SectionIds(r.sections)[i] == r.sections[i].id;
      }
    }
  }

  /** A patch that leaves the tag and the entries alone keeps the resume
      well typed. */
  lemma UpdateSectionWellTyped(r: Resume, sectionId: string, p: SectionPatch)
    requires WellTyped(r) && p.kind.None? && p.entries.None?
    ensures WellTyped(UpdateSection(r, sectionId, p))
  {
  }

  /** The `filter` callback of `removeSection`. */
  function OtherSection(sectionId: string): Section -> bool {
    (s: Section) => s.id != sectionId
  }

  /** `removeSection`: keeps, in order, the sections with another id. */
  function RemoveSection(r: Resume, sectionId: string): Resume {
    r.(sections := Filter(OtherSection(sectionId), r.sections))
  }

  /** The sections left are exactly the old ones with another id. */
  lemma RemoveSectionMembers(r: Resume, sectionId: string, s: Section)
    ensures RemoveSection(r, sectionId).header == r.header
    ensures s in RemoveSection(r, sectionId).sections <==> s in r.sections && s.id != sectionId
  {
    FilterMembership(OtherSection(sectionId), r.sections, s);
  }

  /** No section with the removed id is left. */
  lemma RemoveSectionGone(r: Resume, sectionId: string)
    ensures sectionId !in SectionIds(RemoveSection(r, sectionId).sections)
  {
    var kept := RemoveSection(r, sectionId).sections;
    forall i | 0 <= i < |kept| ensures SectionIds(kept)[i] != sectionId {
      assert OtherSection(sectionId)(kept[i]);
    }
  }

  lemma RemoveSectionIdempotent(r: Resume, sectionId: string)
    ensures RemoveSection(RemoveSection(r, sectionId), sectionId) == RemoveSection(r, sectionId)
  {
    var kept := Filter(OtherSection(sectionId), r.sections);
    FilterAll(OtherSection(sectionId), kept);
  }

  /** Removing a section keeps the others in their relative order: removing
      from a concatenation removes from each part. */
  lemma RemoveSectionSplits(r: Resume, sectionId: string, front: seq<Section>, back: seq<Section>)
    requires r.sections == front + back
    ensures RemoveSection(r, sectionId).sections
      == Filter(OtherSection(sectionId), front) + Filter(OtherSection(sectionId), back)
  {
    FilterAppend(OtherSection(sectionId), front, back);
  }

  lemma RemoveSectionWellTyped(r: Resume, sectionId: string)
    requires WellTyped(r)
    ensures WellTyped(RemoveSection(r, sectionId))
  {
  }

  /** `reorderSections`: the new list replaces the old one wholesale; the
      header is kept. */
  function ReorderSections(r: Resume, sections: seq<Section>): Resume {
    r.(sections := sections)
  }

  /** Nothing checks that the new list is a permutation of the old one, but
      a permutation of a well-typed list is well typed. */
  lemma ReorderPermutationWellTyped(r: Resume, sections: seq<Section>)
    requires WellTyped(r) && multiset(sections) == multiset(r.sections)
    ensures ReorderSections(r, sections).header == r.header
    ensures WellTyped(ReorderSections(r, sections))
  {
    forall i | 0 <= i < |sections| ensures sections[i].WellTyped() {
      assert sections[i] in multiset(r.sections);
      var j :| 0 <= j < |r.sections| && r.sections[j] == sections[i];
    }
  }

  // ---------------------------------------------------------------------
  // Entries

  /** `addEntry`: the entry goes last in every section with that id. */
  function AddEntry(r: Resume, sectionId: string, e: Entry): Resume {
    var ss := r.sections;
    r.(sections := seq(|ss|, i requires 0 <= i < |ss| =>
      if ss[i].id == sectionId then ss[i].(entries := ss[i].entries + [e]) else ss[i]))
  }

  lemma AddEntryFrame(r: Resume, sectionId: string, e: Entry)
    ensures AddEntry(r, sectionId, e).header == r.header
    ensures |AddEntry(r, sectionId, e).sections| == |r.sections|
    ensures forall i :: 0 <= i < |r.sections| && r.sections[i].id != sectionId ==>
      AddEntry(r, sectionId, e).sections[i] == r.sections[i]
    ensures forall i :: 0 <= i < |r.sections| && r.sections[i].id == sectionId ==>
      AddEntry(r, sectionId, e).sections[i].entries == r.sections[i].entries + [e] &&
      AddEntry(r, sectionId, e).sections[i].kind == r.sections[i].kind
  {
  }

  lemma AddEntryMissing(r: Resume, sectionId: string, e: Entry)
    requires sectionId !in SectionIds(r.sections)
    ensures AddEntry(r, sectionId, e) == r
  {
    var ss := AddEntry(r, sectionId, e).sections;
    assert forall i :: 0 <= i < |r.sections| ==> ss[i] == r.sections[i] by {
      forall i | 0 <= i < |r.sections| ensures ss[i] == r.sections[i] {
        assert SectionIds(r.sections)[i] == r.sections[i].id;
      }
    }
  }

  /** The entry's shape is not checked against the section's tag: adding it
      keeps a well-typed resume well typed exactly when every section it
      lands in has the entry's tag. */
  lemma AddEntryWellTyped(r: Resume, sectionId: string, e: Entry)
    requires WellTyped(r)
    ensures WellTyped(AddEntry(r, sectionId, e))
      <==> forall i :: 0 <= i < |r.sections| && r.sections[i].id == sectionId ==> r.sections[i].kind == e.Kind()
  {
    var ss := AddEntry(r, sectionId, e).sections;
    forall i | 0 <= i < |r.sections| && r.sections[i].id == sectionId
      ensures ss[i].WellTyped() <==> r.sections[i].kind == e.Kind()
    {
      var n := |r.sections[i].entries|;
      assert ss[i].entries[n] == e;
    }
  }

  /** The fields of one entry shape, each optional. */
  datatype ExperiencePatch = ExperiencePatch(
    id: Option<string>, company: Option<string>, role: Option<string>, location: Option<string>,
    startDate: Option<string>, endDate: Option<string>, bullets: Option<seq<string>>)

  datatype EducationPatch = EducationPatch(
    id: Option<string>, institution: Option<string>, degree: Option<string>, location: Option<string>,
    startDate: Option<string>, endDate: Option<string>, details: Option<seq<string>>)

  datatype ProjectPatch = ProjectPatch(
    id: Option<string>, name: Option<string>, technologies: Option<string>,
    startDate: Option<Option<string>>, endDate: Option<Option<string>>, bullets: Option<seq<string>>)

  datatype SkillsPatch = SkillsPatch(id: Option<string>, category: Option<string>, skills: Option<seq<string>>)

  datatype CustomPatch = CustomPatch(
    id: Option<string>, title: Option<string>, subtitle: Option<Option<string>>, location: Option<Option<string>>,
    startDate: Option<Option<string>>, endDate: Option<Option<string>>, bullets: Option<seq<string>>)

  /** `Partial<ResumeEntry>`: a partial object of one of the five shapes. */
  datatype EntryPatch =
    | ExperienceFields(experience: ExperiencePatch)
    | EducationFields(education: EducationPatch)
    | ProjectFields(project: ProjectPatch)
    | SkillsFields(skillGroup: SkillsPatch)
    | CustomFields(custom: CustomPatch)
  {
    /** The `id` field, which all shapes share. */
    function Id(): Option<string> {
      match this
      case ExperienceFields(p) => p.id
      case EducationFields(p) => p.id
      case ProjectFields(p) => p.id
      case SkillsFields(p) => p.id
      case CustomFields(p) => p.id
    }

    /** The `location` field as the patch gives it: absent, or present with
        a value or with `undefined`; a projects or skills patch has none. */
    function Location(): Option<Option<string>> {
      match this
      case ExperienceFields(p) => Present(p.location)
      case EducationFields(p) => Present(p.location)
      case CustomFields(p) => p.location
      case _ => None
    }

    /** The `startDate` field, which skills patches lack. */
    function StartDate(): Option<Option<string>> {
      match this
      case ExperienceFields(p) => Present(p.startDate)
      case EducationFields(p) => Present(p.startDate)
      case ProjectFields(p) => p.startDate
      case CustomFields(p) => p.startDate
      case SkillsFields(_) => None
    }

    /** The `endDate` field, which skills patches lack. */
    function EndDate(): Option<Option<string>> {
      match this
      case ExperienceFields(p) => Present(p.endDate)
      case EducationFields(p) => Present(p.endDate)
      case ProjectFields(p) => p.endDate
      case CustomFields(p) => p.endDate
      case SkillsFields(_) => None
    }

    /** The `bullets` field of the experience, project and custom shapes. */
    function Bullets(): Option<seq<string>> {
      match this
      case ExperienceFields(p) => p.bullets
      case ProjectFields(p) => p.bullets
      case CustomFields(p) => p.bullets
      case _ => None
    }
  }

  /** A field of a required string type, present with a value. */
  function Present(v: Option<string>): (r: Option<Option<string>>)
    ensures r.Some? <==> v.Some?
    ensures r.Some? ==> r.value == v
  {
    if v.Some? then Some(v) else None
  }

  /** A required string field after the spread: the patch's value when it
      gives one, the current value otherwise. */
  function SpreadText(current: string, v: Option<Option<string>>): (r: string)
    ensures v.Some? && v.value.Some? ==> r == v.value.value
    ensures v.None? || v.value.None? ==> r == current
  {
    if v.Some? && v.value.Some? then v.value.value else current
  }

  /** `{ ...entry, ...updates }`. A patch of the entry's own shape replaces
      every field it gives; a patch of another shape replaces the `id` and
      the fields the two shapes share (`location`, the dates, `bullets`). */
  function PatchEntry(e: Entry, p: EntryPatch): Entry {
    match (e, p)
    case (ExperienceItem(x), ExperienceFields(q)) =>
      ExperienceItem(ExperienceEntry(q.id.GetOr(x.id), q.company.GetOr(x.company), q.role.GetOr(x.role),
        q.location.GetOr(x.location), q.startDate.GetOr(x.startDate), q.endDate.GetOr(x.endDate), q.bullets.GetOr(x.bullets)))
    case (EducationItem(x), EducationFields(q)) =>
      EducationItem(EducationEntry(q.id.GetOr(x.id), q.institution.GetOr(x.institution), q.degree.GetOr(x.degree),
        q.location.GetOr(x.location), q.startDate.GetOr(x.startDate), q.endDate.GetOr(x.endDate), q.details.GetOr(x.details)))
    case (ProjectItem(x), ProjectFields(q)) =>
      ProjectItem(ProjectEntry(q.id.GetOr(x.id), q.name.GetOr(x.name), q.technologies.GetOr(x.technologies),
        q.startDate.GetOr(x.startDate), q.endDate.GetOr(x.endDate), q.bullets.GetOr(x.bullets)))
    case (SkillsItem(x), SkillsFields(q)) =>
      SkillsItem(SkillsEntry(q.id.GetOr(x.id), q.category.GetOr(x.category), q.skills.GetOr(x.skills)))
    case (CustomItem(x), CustomFields(q)) =>
      CustomItem(CustomEntry(q.id.GetOr(x.id), q.title.GetOr(x.title), q.subtitle.GetOr(x.subtitle),
        q.location.GetOr(x.location), q.startDate.GetOr(x.startDate), q.endDate.GetOr(x.endDate), q.bullets.GetOr(x.bullets)))
    case (ExperienceItem(x), _) =>
      ExperienceItem(x.(id := p.Id().GetOr(x.id), location := SpreadText(x.location, p.Location()),
        startDate := SpreadText(x.startDate, p.StartDate()), endDate := SpreadText(x.endDate, p.EndDate()),
        bullets := p.Bullets().GetOr(x.bullets)))
    case (EducationItem(x), _) =>
      EducationItem(x.(id := p.Id().GetOr(x.id), location := SpreadText(x.location, p.Location()),
        startDate := SpreadText(x.startDate, p.StartDate()), endDate := SpreadText(x.endDate, p.EndDate())))
    case (ProjectItem(x), _) =>
      ProjectItem(x.(id := p.Id().GetOr(x.id), startDate := p.StartDate().GetOr(x.startDate),
        endDate := p.EndDate().GetOr(x.endDate), bullets := p.Bullets().GetOr(x.bullets)))
    case (SkillsItem(x), _) => SkillsItem(x.(id := p.Id().GetOr(x.id)))
    case (CustomItem(x), _) =>
      CustomItem(x.(id := p.Id().GetOr(x.id), location := p.Location().GetOr(x.location),
        startDate := p.StartDate().GetOr(x.startDate), endDate := p.EndDate().GetOr(x.endDate),
        bullets := p.Bullets().GetOr(x.bullets)))
  }

  /** A patch keeps the entry's shape, takes the supplied id, and is
      idempotent. */
  lemma PatchEntryShape(e: Entry, p: EntryPatch)
    ensures PatchEntry(e, p).Kind() == e.Kind()
    ensures PatchEntry(e, p).Id() == (if p.Id().Some? then p.Id().value else e.Id())
    ensures PatchEntry(PatchEntry(e, p), p) == PatchEntry(e, p)
  {
  }

  /** The fields the entry shares with a patch of any shape: `location`, the
      dates and `bullets` take the patch's value when it gives one (a
      required field only a value, an optional one also `undefined`), and
      keep theirs otherwise; a field only the entry's own shape has changes
      only under a patch of that shape. */
  lemma PatchEntrySharedFields(e: Entry, p: EntryPatch)
    ensures e.ExperienceItem? ==> var x, y := e.experience, PatchEntry(e, p).experience;
      y.location == SpreadText(x.location, p.Location()) &&
      y.startDate == SpreadText(x.startDate, p.StartDate()) && y.endDate == SpreadText(x.endDate, p.EndDate()) &&
      y.bullets == (if p.Bullets().Some? then p.Bullets().value else x.bullets) &&
      (!p.ExperienceFields? ==> y.company == x.company && y.role == x.role)
    ensures e.EducationItem? ==> var x, y := e.education, PatchEntry(e, p).education;
      y.location == SpreadText(x.location, p.Location()) &&
      y.startDate == SpreadText(x.startDate, p.StartDate()) && y.endDate == SpreadText(x.endDate, p.EndDate()) &&
      (!p.EducationFields? ==> y.institution == x.institution && y.degree == x.degree && y.details == x.details)
    ensures e.ProjectItem? ==> var x, y := e.project, PatchEntry(e, p).project;
      y.startDate == (if p.StartDate().Some? then p.StartDate().value else x.startDate) &&
      y.endDate == (if p.EndDate().Some? then p.EndDate().value else x.endDate) &&
      y.bullets == (if p.Bullets().Some? then p.Bullets().value else x.bullets) &&
      (!p.ProjectFields? ==> y.name == x.name && y.technologies == x.technologies)
    ensures e.SkillsItem? && !p.SkillsFields? ==>
      PatchEntry(e, p).skillGroup == e.skillGroup.(id := PatchEntry(e, p).Id())
    ensures e.CustomItem? ==> var x, y := e.custom, PatchEntry(e, p).custom;
      y.location == (if p.Location().Some? then p.Location().value else x.location) &&
      y.startDate == (if p.StartDate().Some? then p.StartDate().value else x.startDate) &&
      y.endDate == (if p.EndDate().Some? then p.EndDate().value else x.endDate) &&
      y.bullets == (if p.Bullets().Some? then p.Bullets().value else x.bullets) &&
      (!p.CustomFields? ==> y.title == x.title && y.subtitle == x.subtitle)
  {
  }

  /** The entries of one section after `updateEntry`. */
  function PatchEntries(entries: seq<Entry>, entryId: string, p: EntryPatch): (r: seq<Entry>)
    ensures |r| == |entries|
  {
    seq(|entries|, j requires 0 <= j < |entries| => if entries[j].Id() == entryId then PatchEntry(entries[j], p) else entries[j])
  }

  /** `updateEntry`: inside the sections with id `sectionId`, every entry
      with id `entryId` is patched. */
  function UpdateEntry(r: Resume, sectionId: string, entryId: string, p: EntryPatch): Resume {
    var ss := r.sections;
    r.(sections := seq(|ss|, i requires 0 <= i < |ss| =>
      if ss[i].id == sectionId then ss[i].(entries := PatchEntries(ss[i].entries, entryId, p)) else ss[i]))
  }

  /** Only the target entries of the target sections change; every count,
      every section's id, tag and title, and the header are kept. */
  lemma UpdateEntryFrame(r: Resume, sectionId: string, entryId: string, p: EntryPatch)
    ensures UpdateEntry(r, sectionId, entryId, p).header == r.header
    ensures |UpdateEntry(r, sectionId, entryId, p).sections| == |r.sections|
    ensures forall i :: 0 <= i < |r.sections| ==>
      var before, after := r.sections[i], UpdateEntry(r, sectionId, entryId, p).sections[i];
      after.id == before.id && after.kind == before.kind && after.title == before.title &&
      |after.entries| == |before.entries| &&
      (before.id != sectionId ==> after == before) &&
      forall j :: 0 <= j < |before.entries| ==>
        after.entries[j] == (if before.id == sectionId && before.entries[j].Id() == entryId
                             then PatchEntry(before.entries[j], p) else before.entries[j])
  {
  }

  /** Patching keeps every entry's shape, so `updateEntry` keeps the resume
      well typed. */
  lemma UpdateEntryWellTyped(r: Resume, sectionId: string, entryId: string, p: EntryPatch)
    requires WellTyped(r)
    ensures WellTyped(UpdateEntry(r, sectionId, entryId, p))
  {
    var ss := UpdateEntry(r, sectionId, entryId, p).sections;
    forall i, j | 0 <= i < |ss| && 0 <= j < |ss[i].entries|
      ensures ss[i].entries[j].Kind() == ss[i].kind
    {
      PatchEntryShape(r.sections[i].entries[j], p);
    }
  }

  /** The `filter` callback of `removeEntry`. */
  function OtherEntry(entryId: string): Entry -> bool {
    (e: Entry) => e.Id() != entryId
  }

  /** `removeEntry`: inside the sections with id `sectionId`, keeps the
      entries with another id. */
  function RemoveEntry(r: Resume, sectionId: string, entryId: string): Resume {
    var ss := r.sections;
    r.(sections := seq(|ss|, i requires 0 <= i < |ss| =>
      if ss[i].id == sectionId then ss[i].(entries := Filter(OtherEntry(entryId), ss[i].entries)) else ss[i]))
  }

  /** Only the target sections lose entries: those with id `entryId`, and
      only those, every other entry staying as often as it occurs; the
      target sections keep their id, kind and title. */
  lemma RemoveEntryFrame(r: Resume, sectionId: string, entryId: string, e: Entry)
    ensures RemoveEntry(r, sectionId, entryId).header == r.header
    ensures |RemoveEntry(r, sectionId, entryId).sections| == |r.sections|
    ensures forall i :: 0 <= i < |r.sections| && r.sections[i].id != sectionId ==>
      RemoveEntry(r, sectionId, entryId).sections[i] == r.sections[i]
    ensures forall i :: 0 <= i < |r.sections| && r.sections[i].id == sectionId ==>
      var after := RemoveEntry(r, sectionId, entryId).sections[i];
      after.id == r.sections[i].id && after.kind == r.sections[i].kind && after.title == r.sections[i].title
    ensures forall i :: 0 <= i < |r.sections| && r.sections[i].id == sectionId ==>
      (e in RemoveEntry(r, sectionId, entryId).sections[i].entries <==>
       e in r.sections[i].entries && e.Id() != entryId)
    ensures forall i :: 0 <= i < |r.sections| && r.sections[i].id == sectionId ==>
      multiset(RemoveEntry(r, sectionId, entryId).sections[i].entries)[e] ==
      (if e.Id() != entryId then multiset(r.sections[i].entries)[e] else 0)
  {
    forall i | 0 <= i < |r.sections| && r.sections[i].id == sectionId
      ensures e in Filter(OtherEntry(entryId), r.sections[i].entries) <==>
              e in r.sections[i].entries && e.Id() != entryId
      ensures multiset(Filter(OtherEntry(entryId), r.sections[i].entries))[e] ==
              (if e.Id() != entryId then multiset(r.sections[i].entries)[e] else 0)
    {
      FilterMembership(OtherEntry(entryId), r.sections[i].entries, e);
      FilterCount(OtherEntry(entryId), r.sections[i].entries, e);
    }
  }

  /** Removing an entry from between others keeps those others in their
      order. */
  lemma RemoveEntryKeepsOrder(r: Resume, sectionId: string, entryId: string, i: nat,
                              before: seq<Entry>, x: Entry, after: seq<Entry>)
    requires i < |r.sections| && r.sections[i].id == sectionId
    requires r.sections[i].entries == before + [x] + after && x.Id() == entryId
    requires forall j :: 0 <= j < |before| ==> before[j].Id() != entryId
    requires forall j :: 0 <= j < |after| ==> after[j].Id() != entryId
    ensures RemoveEntry(r, sectionId, entryId).sections[i].entries == before + after
  {
    var f := OtherEntry(entryId);
    assert forall j :: 0 <= j < |before| ==> f(before[j]);
    assert forall j :: 0 <= j < |after| ==> f(after[j]);
    FilterAll(f, before);
    FilterAll(f, after);
    assert Filter(f, [x]) == [] by {
      assert !f(x);
      assert [x][1..] == [];
    }
    var front := Filter(f, before + [x]);
    FilterAppend(f, before, [x]);
    assert front == before + [];
    FilterAppend(f, before + [x], after);
    assert before + [] == before;
  }

  lemma RemoveEntryIdempotent(r: Resume, sectionId: string, entryId: string)
    ensures RemoveEntry(RemoveEntry(r, sectionId, entryId), sectionId, entryId) == RemoveEntry(r, sectionId, entryId)
  {
    var once := RemoveEntry(r, sectionId, entryId).sections;
    var twice := RemoveEntry(RemoveEntry(r, sectionId, entryId), sectionId, entryId).sections;
    forall i | 0 <= i < |once| ensures twice[i] == once[i] {
      if once[i].id == sectionId {
        FilterAll(OtherEntry(entryId), once[i].entries);
      }
    }
  }

  lemma RemoveEntryWellTyped(r: Resume, sectionId: string, entryId: string)
    requires WellTyped(r)
    ensures WellTyped(RemoveEntry(r, sectionId, entryId))
  {
  }
}

/** The resume document: the header, the five kinds of section and their
    entries. */
module ResumeModel {
  import opened Wrappers

  datatype Link = Link(labelText: string, url: string)

  /** The header has exactly these four fields; there is no location. */
  datatype Header = Header(name: string, phone: string, email: string, links: seq<Link>)

  datatype ExperienceEntry = ExperienceEntry(
    id: string, company: string, role: string, location: string,
    startDate: string, endDate: string, bullets: seq<string>)

  datatype EducationEntry = EducationEntry(
    id: string, institution: string, degree: string, location: string,
    startDate: string, endDate: string, details: seq<string>)

  /** Project dates are optional. */
  datatype ProjectEntry = ProjectEntry(
    id: string, name: string, technologies: string,
    startDate: Option<string>, endDate: Option<string>, bullets: seq<string>)

  datatype SkillsEntry = SkillsEntry(id: string, category: string, skills: seq<string>)

  /** Everything but the title and the bullets of a custom entry is optional. */
  datatype CustomEntry = CustomEntry(
    id: string, title: string, subtitle: Option<string>, location: Option<string>,
    startDate: Option<string>, endDate: Option<string>, bullets: seq<string>)

  /** The five section tags. */
  datatype SectionType = Experience | Education | Projects | Skills | Custom

  /** An element of a section's `entries` array: one of the five entry shapes.
      The shape is not tied to the section's tag by construction, because the
      store accepts any entry in any section. */
  datatype Entry =
    | ExperienceItem(experience: ExperienceEntry)
    | EducationItem(education: EducationEntry)
    | ProjectItem(project: ProjectEntry)
    | SkillsItem(skillGroup: SkillsEntry)
    | CustomItem(custom: CustomEntry)
  {
    function Id(): string {
      match this
      case ExperienceItem(e) => e.id
      case EducationItem(e) => e.id
      case ProjectItem(e) => e.id
      case SkillsItem(e) => e.id
      case CustomItem(e) => e.id
    }

    /** The section tag whose entries have this shape. */
    function Kind(): SectionType {
      match this
      case ExperienceItem(_) => Experience
      case EducationItem(_) => Education
      case ProjectItem(_) => Projects
      case SkillsItem(_) => Skills
      case CustomItem(_) => Custom
    }
  }

  datatype Section = Section(id: string, kind: SectionType, title: string, entries: seq<Entry>)
  {
    /** Every entry has the shape the section's tag announces. */
    predicate WellTyped() {
      forall i :: 0 <= i < |entries| ==> entries[i].Kind() == kind
    }
  }

  datatype Resume = Resume(header: Header, sections: seq<Section>)

  predicate WellTyped(r: Resume) {
    forall i :: 0 <= i < |r.sections| ==> r.sections[i].WellTyped()
  }

  predicate Distinct(ids: seq<string>) {
    forall i, j :: 0 <= i < j < |ids| ==> ids[i] != ids[j]
  }

  function SectionIds(sections: seq<Section>): (ids: seq<string>)
    ensures |ids| == |sections|
    ensures forall i :: 0 <= i < |sections| ==> ids[i] == sections[i].id
  {
    if sections == [] then [] else [sections[0].id] + SectionIds(sections[1..])
  }

  function EntryIds(entries: seq<Entry>): (ids: seq<string>)
    ensures |ids| == |entries|
    ensures forall i :: 0 <= i < |entries| ==> ids[i] == entries[i].Id()
  {
    if entries == [] then [] else [entries[0].Id()] + EntryIds(entries[1..])
  }

  /** The ids of all entries of all sections, in document order. */
  function AllEntryIds(sections: seq<Section>): seq<string> {
    if sections == [] then [] else EntryIds(sections[0].entries) + AllEntryIds(sections[1..])
  }

  function Kinds(sections: seq<Section>): (kinds: seq<SectionType>)
    ensures |kinds| == |sections|
    ensures forall i :: 0 <= i < |sections| ==> kinds[i] == sections[i].kind
  {
    if sections == [] then [] else [sections[0].kind] + Kinds(sections[1..])
  }
}

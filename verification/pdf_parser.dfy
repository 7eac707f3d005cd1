/** `parsePdfTextToResume`: the PDF import. The header is recovered from the
    whole text, the trimmed non-empty lines are cut into sections at the
    heading lines, and each section's lines go to its section parser. Entry
    ids come from `newId` applied to a counter, the model's stand-in for
    `crypto.randomUUID()`; the counter runs on from section to section. */
module PdfParser {
  import opened Wrappers
  import opened JsString
  import opened LinePatterns
  import opened HeaderPatterns
  import opened ResumeModel
  import opened SectionParsers

  // ---------------------------------------------------------------------
  // Header

  /** The labels of the profile links, in the order they are added. */
  const LinkLabels: seq<string> := ["LinkedIn", "GitHub", "Portfolio Website"]

  function LabelsOf(links: seq<Link>): (r: seq<string>)
    ensures |r| == |links| && forall j :: 0 <= j < |links| ==> r[j] == links[j].labelText
  {
    seq(|links|, j requires 0 <= j < |links| => links[j].labelText)
  }

  /** The test `text.includes(label)` as a predicate on labels. */
  function InText(text: string): string -> bool {
    l => Contains(text, l)
  }

  /** `[label]` when the label occurs in the text. */
  function LabelIf(text: string, name: string): seq<string> {
    if Contains(text, name) then [name] else []
  }

  lemma LinkLabelsIn(text: string)
    ensures Filter(InText(text), LinkLabels) ==
      LabelIf(text, "LinkedIn") + LabelIf(text, "GitHub") + LabelIf(text, "Portfolio Website")
  {
    var p := InText(text);
    assert LinkLabels[1..] == ["GitHub", "Portfolio Website"];
    assert LinkLabels[1..][1..] == ["Portfolio Website"];
    assert LinkLabels[1..][1..][1..] == [];
  }

  /** A profile address: the profile's base address followed by the handle
      found after the host path the pattern looks for, or by a placeholder
      when none is found. */
  function ProfileUrl(base: string, host: string, text: string, placeholder: string): string {
    base + Handle(host, text).GetOr(placeholder)
  }

  /** Every profile address is the base address followed either by a
      handle that follows the host path somewhere in the text (in any case)
      or by the placeholder; the placeholder exactly when no occurrence of
      the host path is followed by a handle character, and otherwise the
      handle after the leftmost such occurrence. */
  lemma ProfileUrlShape(base: string, host: string, text: string, placeholder: string)
    ensures StartsWith(ProfileUrl(base, host, text, placeholder), base)
    ensures var h := ProfileUrl(base, host, text, placeholder)[|base|..];
      h == placeholder ||
      (IsHandle(h) && exists k: nat :: PrefixAt(host, text, k) && OccursAt(text, h, k + |host|))
    ensures (forall k :: 0 <= k <= |text| ==> HandleTail(host, text, k).None?) ==>
      ProfileUrl(base, host, text, placeholder) == base + placeholder
    ensures forall k ::
      (0 <= k <= |text| && HandleTail(host, text, k).Some? && forall j :: 0 <= j < k ==> HandleTail(host, text, j).None?) ==>
      ProfileUrl(base, host, text, placeholder) == base + HandleTail(host, text, k).value
  {
    var u := ProfileUrl(base, host, text, placeholder);
    var h := Handle(host, text).GetOr(placeholder);
    assert u[..|base|] == base;
    assert u[|base|..] == h;
  }

  /** `[Link(name, url)]` when the label occurs in the text. */
  function LinkIf(text: string, name: string, url: string): (r: seq<Link>)
    ensures LabelsOf(r) == LabelIf(text, name)
  {
    if Contains(text, name) then [Link(name, url)] else []
  }

  lemma LabelsOfAppend(a: seq<Link>, b: seq<Link>)
    ensures LabelsOf(a + b) == LabelsOf(a) + LabelsOf(b)
  {
  }

  /** One profile link: the handle after `host` when the text has one, the
      placeholder otherwise. */
  method ProfileLink(name: string, base: string, host: string, placeholder: string, text: string) returns (l: Link)
    ensures l == Link(name, ProfileUrl(base, host, text, placeholder))
  {
    match Handle(host, text)
    case Some(h) =>
      l := Link(name, base + h);
    case None =>
      l := Link(name, base + placeholder);
  }

  /** The link list: a link for each label that occurs in the text, exactly
      as written, in the fixed order; LinkedIn and GitHub get the handle
      found after their host name, the portfolio a fixed address. */
  method ExtractLinks(text: string) returns (links: seq<Link>)
    ensures links ==
      LinkIf(text, "LinkedIn", ProfileUrl("https://linkedin.com/in/", "linkedin.com/in/", text, "yourprofile")) +
      LinkIf(text, "GitHub", ProfileUrl("https://github.com/", "github.com/", text, "yourusername")) +
      LinkIf(text, "Portfolio Website", "https://yourportfolio.com")
    ensures LabelsOf(links) == Filter(InText(text), LinkLabels)
  {
    var linkedIn := LinkIf(text, "LinkedIn", ProfileUrl("https://linkedin.com/in/", "linkedin.com/in/", text, "yourprofile"));
    var gitHub := LinkIf(text, "GitHub", ProfileUrl("https://github.com/", "github.com/", text, "yourusername"));
    var portfolio := LinkIf(text, "Portfolio Website", "https://yourportfolio.com");
    LinkLabelsIn(text);
    LabelsOfAppend(linkedIn, gitHub);
    LabelsOfAppend(linkedIn + gitHub, portfolio);
    links := [];
    if Contains(text, "LinkedIn") {
      var l := ProfileLink("LinkedIn", "https://linkedin.com/in/", "linkedin.com/in/", "yourprofile", text);
      links := links + [l];
    }
    assert links == linkedIn;
    if Contains(text, "GitHub") {
      var l := ProfileLink("GitHub", "https://github.com/", "github.com/", "yourusername", text);
      links := links + [l];
    }
    assert links == linkedIn + gitHub;
    if Contains(text, "Portfolio Website") {
      links := links + [Link("Portfolio Website", "https://yourportfolio.com")];
    }
    assert links == linkedIn + gitHub + portfolio;
  }

  /** What the import promises about the header it recovers from the text
      and its trimmed non-empty lines: a name only when the first line looks
      like one, and then that line; the leftmost e-mail address and phone
      number of the text, or the empty string when there is none, the phone
      number whenever ten digits occur in a row, and one link per label that
      occurs, in the fixed order. */
  ghost predicate IsPdfHeader(text: string, lines: seq<string>, h: Header) {
    && (h.name != "" <==> |lines| > 0 && IsNameLine(lines[0]))
    && (h.name != "" ==> h.name == lines[0])
    && h.email == Email(text).GetOr("")
    && (h.email != "" ==> IsEmail(h.email) && Contains(text, h.email))
    && (h.email == "" <==> Email(text).None?)
    && h.phone == Phone(text).GetOr("")
    && (h.phone != "" ==> IsPhone(h.phone) && Contains(text, h.phone))
    && ((exists k: nat :: TenDigitsAt(text, k)) ==> h.phone != "")
    && LabelsOf(h.links) == Filter(InText(text), LinkLabels)
  }

  /** `emailMatches[0]`, or the empty string when there is no match. */
  method FindEmail(text: string) returns (email: string)
    ensures email == Email(text).GetOr("")
    ensures email != "" ==> IsEmail(email) && Contains(text, email)
    ensures email == "" <==> Email(text).None?
  {
    email := "";
    var matches := Email(text);
    if matches.Some? {
      email := matches.value;
      assert email != [] by {
        var i, j :| 0 <= i <= j <= |email| && EmailAt(email, 0, i, j, |email|);
      }
    }
  }

  /** `phoneMatches[0]`, or the empty string when there is no match. */
  method FindPhone(text: string) returns (phone: string)
    ensures phone == Phone(text).GetOr("")
    ensures phone != "" ==> IsPhone(phone) && Contains(text, phone)
    ensures (exists k: nat :: TenDigitsAt(text, k)) ==> phone != ""
  {
    phone := "";
    var matches := Phone(text);
    if matches.Some? {
      phone := matches.value;
    }
  }

  /** The header: the first line when it looks like a name, the leftmost
      e-mail address and phone number of the whole text, and the links. */
  method ExtractHeader(text: string, lines: seq<string>) returns (h: Header)
    ensures IsPdfHeader(text, lines, h)
  {
    var name := "";
    if |lines| > 0 {
      var firstLine := lines[0];
      if IsNameLine(firstLine) {
        name := firstLine;
      }
    }
    var email := FindEmail(text);
    var phone := FindPhone(text);
    var links := ExtractLinks(text);
    h := Header(name, phone, email, links);
  }

  // ---------------------------------------------------------------------
  // Segmentation

  /** A heading line: which marker it matched and its line index. */
  datatype Heading = Heading(marker: Marker, start: nat)

  /** The heading lines in line order, each with the first marker of the
      table it matches. */
  function Headings(lines: seq<string>): (hs: seq<Heading>)
    ensures forall j :: 0 <= j < |hs| ==> hs[j].start < |lines| && MarkerOf(lines[hs[j].start]) == Some(hs[j].marker)
    ensures forall j, k :: 0 <= j < k < |hs| ==> hs[j].start < hs[k].start
    ensures |hs| <= |lines|
    decreases |lines|
  {
    if lines == [] then []
    else
      var n := |lines| - 1;
      var init := Headings(lines[..n]);
      match MarkerOf(lines[n])
      case None => init
      case Some(m) => init + [Heading(m, n)]
  }

  /** Every line that matches a marker is a heading. */
  lemma {:induction false} HeadingsComplete(lines: seq<string>, l: nat)
    requires l < |lines|
    ensures MarkerOf(lines[l]).Some? ==> exists j :: 0 <= j < |Headings(lines)| && Headings(lines)[j].start == l
    decreases |lines|
  {
    var n := |lines| - 1;
    var hs := Headings(lines);
    HeadingsSnoc(lines);
    if MarkerOf(lines[l]).Some? {
      if l == n {
        assert hs[|hs| - 1].start == l;
      } else {
        var init := lines[..n];
        assert init[l] == lines[l];
        HeadingsComplete(init, l);
        var j :| 0 <= j < |Headings(init)| && Headings(init)[j].start == l;
        assert hs[j].start == l;
      }
    }
  }

  /** The headings of a text extend those of the text without its last
      line, by that line when it is a heading. */
  lemma HeadingsSnoc(lines: seq<string>)
    requires |lines| > 0
    ensures var init := Headings(lines[..|lines| - 1]);
      |init| <= |Headings(lines)| &&
      (forall j :: 0 <= j < |init| ==> Headings(lines)[j] == init[j]) &&
      (MarkerOf(lines[|lines| - 1]).Some? ==>
        |Headings(lines)| > 0 && Headings(lines)[|Headings(lines)| - 1].start == |lines| - 1)
  {
    var n := |lines| - 1;
    match MarkerOf(lines[n]) {
      case None =>
      case Some(m) =>
        assert Headings(lines) == Headings(lines[..n]) + [Heading(m, n)];
    }
  }

  /** With no heading line there are no headings. */
  lemma {:induction false} HeadingsNone(lines: seq<string>)
    requires forall l :: 0 <= l < |lines| ==> MarkerOf(lines[l]).None?
    ensures Headings(lines) == []
    decreases |lines|
  {
    if lines != [] {
      var n := |lines| - 1;
      assert forall l :: 0 <= l < n ==> lines[..n][l] == lines[l];
      HeadingsNone(lines[..n]);
    }
  }

  /** The inner loop over the marker table: the first marker whose pattern
      the line matches. */
  method FirstMarker(line: string) returns (r: Option<Marker>)
    ensures r == MarkerOf(line)
  {
    var j := 0;
    while j < |MarkerTable|
      invariant j <= |MarkerTable|
      invariant forall k :: 0 <= k < j ==> !MarkerTest(MarkerTable[k], line)
    {
      if MarkerTest(MarkerTable[j], line) {
        return Some(MarkerTable[j]);
      }
      j := j + 1;
    }
    forall m: Marker ensures !MarkerTest(m, line) {
      assert MarkerTable[MarkerIndex(m)] == m;
    }
    return None;
  }

  /** The `forEach` over the lines that collects the headings. */
  method FindHeadings(lines: seq<string>) returns (hs: seq<Heading>)
    ensures hs == Headings(lines)
  {
    hs := [];
    for i := 0 to |lines|
      invariant hs == Headings(lines[..i])
    {
      var m := FirstMarker(lines[i]);
      assert lines[..i + 1][..i] == lines[..i];
      if m.Some? {
        hs := hs + [Heading(m.value, i)];
      }
    }
    assert lines[..|lines|] == lines;
  }

  /** `s.slice(a, b)` for non-negative bounds: clamped to the length and
      empty when the bounds cross. */
  function Slice<T>(s: seq<T>, a: nat, b: nat): (r: seq<T>)
    ensures |r| <= |s|
    ensures forall i :: 0 <= i < |r| ==> a + i < |s| && r[i] == s[a + i]
  {
    var hi := if b < |s| then b else |s|;
    if a >= hi then [] else s[a..hi]
  }

  /** Where the section of heading `idx` ends: at the next heading, or at
      the end of the lines. */
  function BodyEnd(hs: seq<Heading>, idx: nat, n: nat): nat
    requires idx < |hs|
  {
    if idx < |hs| - 1 then hs[idx + 1].start else n
  }

  /** The lines of the section of heading `idx`. */
  function Body(lines: seq<string>, hs: seq<Heading>, idx: nat): seq<string>
    requires idx < |hs|
  {
    Slice(lines, hs[idx].start + 1, BodyEnd(hs, idx, |lines|))
  }

  /** A section's lines are exactly the lines strictly between its heading
      and the next one (or the end), and none of them is a heading line. */
  lemma BodyBetween(lines: seq<string>, idx: nat)
    requires idx < |Headings(lines)|
    ensures var hs := Headings(lines);
      Body(lines, hs, idx) == lines[hs[idx].start + 1..BodyEnd(hs, idx, |lines|)]
    ensures var hs := Headings(lines);
      forall l :: hs[idx].start < l < BodyEnd(hs, idx, |lines|) ==> MarkerOf(lines[l]).None?
  {
    BodyBounds(lines, idx);
    NoHeadingInBody(lines, idx);
  }

  lemma BodyBounds(lines: seq<string>, idx: nat)
    requires idx < |Headings(lines)|
    ensures var hs := Headings(lines);
      hs[idx].start < BodyEnd(hs, idx, |lines|) <= |lines|
  {
  }

  lemma NoHeadingInBody(lines: seq<string>, idx: nat)
    requires idx < |Headings(lines)|
    ensures var hs := Headings(lines);
      forall l :: hs[idx].start < l < BodyEnd(hs, idx, |lines|) ==> MarkerOf(lines[l]).None?
  {
    var hs := Headings(lines);
    var e := BodyEnd(hs, idx, |lines|);
    BodyBounds(lines, idx);
    forall l | hs[idx].start < l < e
      ensures MarkerOf(lines[l]).None?
    {
      HeadingsComplete(lines, l);
      NoStartBetween(hs, idx, l, |lines|);
    }
  }

  /** In increasing heading starts, no heading starts strictly inside the
      body of another. */
  lemma NoStartBetween(hs: seq<Heading>, idx: nat, l: nat, n: nat)
    requires forall j, k :: 0 <= j < k < |hs| ==> hs[j].start < hs[k].start
    requires idx < |hs| && hs[idx].start < l < BodyEnd(hs, idx, n)
    ensures forall j :: 0 <= j < |hs| ==> hs[j].start != l
  {
    forall j | 0 <= j < |hs| ensures hs[j].start != l {
      if j <= idx {
        assert j == idx || hs[j].start < hs[idx].start;
      } else {
        assert j == idx + 1 || hs[idx + 1].start < hs[j].start;
      }
    }
  }

  /** Sections do not overlap: a later section starts after the line where
      an earlier one ends. */
  lemma BodiesDisjoint(lines: seq<string>, idx: nat, idx2: nat)
    requires idx < idx2 < |Headings(lines)|
    ensures var hs := Headings(lines);
      BodyEnd(hs, idx, |lines|) <= hs[idx2].start
  {
  }

  // ---------------------------------------------------------------------
  // Sections

  /** The id, title and tag of the section a heading produces; a projects
      heading produces none, so its lines are dropped. */
  function SectionShape(m: Marker): (r: Option<(string, string, SectionType)>)
    ensures r.Some? ==> r.value.2 != Projects
    ensures r.None? <==> m == ProjectsMarker
  {
    match m
    case ExperienceMarker => Some(("experience", "Experience", Experience))
    case EducationMarker => Some(("education", "Education", Education))
    case SkillsMarker => Some(("skills", "Technical Skills", Skills))
    case ProjectsMarker => None
    case AwardsMarker => Some(("awards", "Awards", Custom))
    case CertificationsMarker => Some(("certifications", "Certifications", Custom))
  }

  /** A section the import keeps: one of the five shapes above, entries of
      the section's own kind, and at least one of them. */
  ghost predicate IsImported(s: Section) {
    s.WellTyped() && |s.entries| > 0 && s.kind != Projects &&
    exists m :: SectionShape(m) == Some((s.id, s.title, s.kind))
  }

  /** The ids `newId(a)`, ..., `newId(b - 1)`. */
  function Ids(newId: nat -> string, a: nat, b: nat): (r: seq<string>)
    requires a <= b
    ensures |r| == b - a && forall k :: 0 <= k < b - a ==> r[k] == newId(a + k)
  {
    seq(b - a, k requires 0 <= k < b - a => newId(a + k))
  }

  lemma IdsAppend(newId: nat -> string, a: nat, b: nat, c: nat)
    requires a <= b <= c
    ensures Ids(newId, a, b) + Ids(newId, b, c) == Ids(newId, a, c)
  {
    var l, r := Ids(newId, a, b), Ids(newId, b, c);
    forall k | 0 <= k < c - a ensures (l + r)[k] == newId(a + k) {
      if k >= b - a {
        assert (l + r)[k] == r[k - (b - a)];
      }
    }
  }

  /** With an injective id source the ids of a counter range are distinct. */
  lemma IdsDistinct(newId: nat -> string, a: nat, b: nat)
    requires a <= b
    requires forall x: nat, y: nat :: x != y ==> newId(x) != newId(y)
    ensures Distinct(Ids(newId, a, b))
  {
    var ids := Ids(newId, a, b);
    forall i, j | 0 <= i < j < |ids| ensures ids[i] != ids[j] {
      assert ids[i] == newId(a + i) && ids[j] == newId(a + j);
    }
  }

  lemma {:induction false} AllEntryIdsSnoc(sections: seq<Section>, s: Section)
    ensures AllEntryIds(sections + [s]) == AllEntryIds(sections) + EntryIds(s.entries)
  {
    if sections == [] {
      assert [s][1..] == [];
    } else {
      assert (sections + [s])[1..] == sections[1..] + [s];
      AllEntryIdsSnoc(sections[1..], s);
    }
  }

  /** Entries whose ids run through the counter from `first`. */
  lemma ItemIds(items: seq<Entry>, newId: nat -> string, first: nat)
    requires forall j :: 0 <= j < |items| ==> items[j].Id() == newId(first + j)
    ensures EntryIds(items) == Ids(newId, first, first + |items|)
  {
  }

  function ExperienceItems(es: seq<ExperienceEntry>): (r: seq<Entry>)
    ensures |r| == |es| && forall j :: 0 <= j < |es| ==> r[j] == ExperienceItem(es[j])
  {
    seq(|es|, j requires 0 <= j < |es| => ExperienceItem(es[j]))
  }

  function EducationItems(es: seq<EducationEntry>): (r: seq<Entry>)
    ensures |r| == |es| && forall j :: 0 <= j < |es| ==> r[j] == EducationItem(es[j])
  {
    seq(|es|, j requires 0 <= j < |es| => EducationItem(es[j]))
  }

  function SkillsItems(es: seq<SkillsEntry>): (r: seq<Entry>)
    ensures |r| == |es| && forall j :: 0 <= j < |es| ==> r[j] == SkillsItem(es[j])
  {
    seq(|es|, j requires 0 <= j < |es| => SkillsItem(es[j]))
  }

  function CustomItems(es: seq<CustomEntry>): (r: seq<Entry>)
    ensures |r| == |es| && forall j :: 0 <= j < |es| ==> r[j] == CustomItem(es[j])
  {
    seq(|es|, j requires 0 <= j < |es| => CustomItem(es[j]))
  }

  /** The section heading `m` yields from its entries: none for a projects
      heading, and none when there are no entries. */
  function SectionOf(m: Marker, items: seq<Entry>): (r: Option<Section>)
    ensures r.Some? <==> m != ProjectsMarker && items != []
    ensures r.Some? ==> r.value.entries == items && SectionShape(m) == Some((r.value.id, r.value.title, r.value.kind))
  {
    match SectionShape(m)
    case None => None
    case Some((id, title, kind)) => if items == [] then None else Some(Section(id, kind, title, items))
  }

  /** The section built from entries of one kind, with the shape of heading
      `m`, numbered from `first`; nothing when there are no entries. */
  method Emit(m: Marker, items: seq<Entry>, newId: nat -> string, first: nat) returns (s: Option<Section>, next: nat)
    requires SectionShape(m).Some?
    requires forall j :: 0 <= j < |items| ==> items[j].Kind() == SectionShape(m).value.2
    requires forall j :: 0 <= j < |items| ==> items[j].Id() == newId(first + j)
    ensures s == SectionOf(m, items) && next == first + |items|
    ensures s.None? <==> items == []
    ensures s.Some? ==> IsImported(s.value) && SectionShape(m) == Some((s.value.id, s.value.title, s.value.kind))
    ensures s.Some? ==> s.value.entries == items
    ensures first <= next && EntryIds(items) == Ids(newId, first, next)
  {
    ItemIds(items, newId, first);
    next := first + |items|;
    if |items| > 0 {
      var (id, title, kind) := SectionShape(m).value;
      s := Some(Section(id, kind, title, items));
    } else {
      s := None;
    }
  }

  /** The entries the parser that heading `m` selects reads from the
      section's lines, numbered from `first`: experience, education and
      skills entries for their headings, custom entries for the awards and
      certifications headings, and nothing for a projects heading. */
  function SectionItems(m: Marker, body: seq<string>, newId: nat -> string, first: nat): (r: seq<Entry>)
    requires forall i :: 0 <= i < |body| ==> IsLine(body[i])
  {
    match m
    case ExperienceMarker => ExperienceItems(ExperienceFrom(body, 0, newId, first))
    case EducationMarker => EducationItems(EducationFrom(body, 0, newId, first))
    case SkillsMarker => SkillsItems(SkillsOf(SkillRows(body), newId, first))
    case ProjectsMarker => []
    case AwardsMarker => CustomItems(CustomFrom(body, 0, newId, first))
    case CertificationsMarker => CustomItems(CustomFrom(body, 0, newId, first))
  }

  /** The section heading `m` makes of its lines, kept when it has entries,
      and the counter past those entries, which run on from `first`. */
  function SectionStep(m: Marker, body: seq<string>, newId: nat -> string, first: nat): (r: (Option<Section>, nat))
    requires forall i :: 0 <= i < |body| ==> IsLine(body[i])
  {
    var items := SectionItems(m, body, newId, first);
    (SectionOf(m, items), first + |items|)
  }

  /** `parseExperienceSectionImproved` on the section's lines joined with
      `\n`, as entries of the resume. */
  method ExperienceSection(body: seq<string>, newId: nat -> string, first: nat) returns (items: seq<Entry>)
    requires forall i :: 0 <= i < |body| ==> IsLine(body[i])
    ensures items == ExperienceItems(ExperienceFrom(body, 0, newId, first))
    ensures 2 * |items| <= |body|
    ensures forall j :: 0 <= j < |items| ==> items[j].Kind() == Experience && items[j].Id() == newId(first + j)
  {
    NormalizeJoin(body);
    var entries := ParseExperience(Join(body, "\n"), newId, first);
    items := ExperienceItems(entries);
  }

  method EducationSection(body: seq<string>, newId: nat -> string, first: nat) returns (items: seq<Entry>)
    requires forall i :: 0 <= i < |body| ==> IsLine(body[i])
    ensures items == EducationItems(EducationFrom(body, 0, newId, first))
    ensures 2 * |items| <= |body|
    ensures forall j :: 0 <= j < |items| ==> items[j].Kind() == Education && items[j].Id() == newId(first + j)
  {
    NormalizeJoin(body);
    var entries := ParseEducation(Join(body, "\n"), newId, first);
    items := EducationItems(entries);
  }

  /** The skills section holds one entry per line that gives a category and
      its skills. */
  method SkillsSection(body: seq<string>, newId: nat -> string, first: nat) returns (items: seq<Entry>)
    requires forall i :: 0 <= i < |body| ==> IsLine(body[i])
    ensures items == SkillsItems(SkillsOf(SkillRows(body), newId, first))
  {
    NormalizeJoin(body);
    var entries := ParseSkills(Join(body, "\n"), newId, first);
    items := SkillsItems(entries);
  }

  method CustomSection(body: seq<string>, newId: nat -> string, first: nat) returns (items: seq<Entry>)
    requires forall i :: 0 <= i < |body| ==> IsLine(body[i])
    ensures items == CustomItems(CustomFrom(body, 0, newId, first))
    ensures |items| <= |body|
    ensures forall j :: 0 <= j < |items| ==> items[j].Kind() == Custom && items[j].Id() == newId(first + j)
  {
    NormalizeJoin(body);
    var entries := ParseCustom(Join(body, "\n"), newId, first);
    items := CustomItems(entries);
    CustomItemIds(entries, newId, first);
  }

  /** Custom entries numbered from `first` become custom items with the
      same ids. */
  lemma CustomItemIds(entries: seq<CustomEntry>, newId: nat -> string, first: nat)
    requires ParsedCustoms(entries, newId, first)
    ensures forall j :: 0 <= j < |entries| ==>
      CustomItems(entries)[j].Kind() == Custom && CustomItems(entries)[j].Id() == newId(first + j)
  {
  }

  /** One step of the `forEach` over the headings: the parser the marker
      selects reads the section's lines, and the section is kept when it
      gives an entry. */
  method ParseSection(m: Marker, body: seq<string>, newId: nat -> string, first: nat)
    returns (s: Option<Section>, next: nat)
    requires forall i :: 0 <= i < |body| ==> IsLine(body[i])
    ensures s == SectionStep(m, body, newId, first).0 && next == SectionStep(m, body, newId, first).1
    ensures s.Some? <==> m != ProjectsMarker && SectionItems(m, body, newId, first) != []
    ensures SectionShape(m).None? ==> s.None?
    ensures first <= next
    ensures s.Some? ==> IsImported(s.value) && SectionShape(m) == Some((s.value.id, s.value.title, s.value.kind))
    ensures s.Some? ==> |s.value.entries| <= |body|
    ensures s.Some? ==> EntryIds(s.value.entries) == Ids(newId, first, next)
    ensures s.None? ==> next == first
  {
    var items: seq<Entry> := [];
    match m {
      case ExperienceMarker =>
        items := ExperienceSection(body, newId, first);
      case EducationMarker =>
        items := EducationSection(body, newId, first);
      case SkillsMarker =>
        items := SkillsSection(body, newId, first);
        SkillsIds(body, newId, first);
      case AwardsMarker =>
        items := CustomSection(body, newId, first);
      case CertificationsMarker =>
        items := CustomSection(body, newId, first);
      case ProjectsMarker =>
        return None, first;
    }
    s, next := Emit(m, items, newId, first);
  }

  lemma SkillsIds(body: seq<string>, newId: nat -> string, first: nat)
    ensures var items := SkillsItems(SkillsOf(SkillRows(body), newId, first));
      |items| <= |body| &&
      forall j :: 0 <= j < |items| ==> items[j].Kind() == Skills && items[j].Id() == newId(first + j)
  {
  }

  /** The lines of a section are lines of the text. */
  lemma BodyLines(lines: seq<string>, hs: seq<Heading>, idx: nat)
    requires idx < |hs| && forall i :: 0 <= i < |lines| ==> IsLine(lines[i])
    ensures forall i :: 0 <= i < |Body(lines, hs, idx)| ==> IsLine(Body(lines, hs, idx)[i])
  {
  }

  /** What heading `k` yields: the section its parser makes of the lines up
      to the next heading, kept when it has entries, and the counter after
      those entries, which run on from `n`. */
  function HeadingSection(lines: seq<string>, hs: seq<Heading>, k: nat, newId: nat -> string, n: nat)
    : (r: (Option<Section>, nat))
    requires k < |hs| && forall i :: 0 <= i < |lines| ==> IsLine(lines[i])
  {
    BodyLines(lines, hs, k);
    SectionStep(hs[k].marker, Body(lines, hs, k), newId, n)
  }

  /** The sections of the `forEach` over the headings from heading `k` on:
      the sections `kept` so far, then, in heading order, the section each
      heading yields, if any; and the counter after their entries, which run
      on from `n`. */
  function SectionsFrom(lines: seq<string>, hs: seq<Heading>, k: nat, newId: nat -> string, n: nat, kept: seq<Section>)
    : (r: (seq<Section>, nat))
    requires k <= |hs| && forall i :: 0 <= i < |lines| ==> IsLine(lines[i])
    decreases |hs| - k
  {
    if k == |hs| then (kept, n)
    else
      var (s, after) := HeadingSection(lines, hs, k, newId, n);
      SectionsFrom(lines, hs, k + 1, newId, after, if s.Some? then kept + [s.value] else kept)
  }

  /** One heading further: the section heading `k` yields is kept, if any,
      and the counter moves past its entries. */
  lemma {:induction false} SectionsFromStep(lines: seq<string>, hs: seq<Heading>, k: nat, newId: nat -> string, n: nat, kept: seq<Section>,
                         s: Option<Section>, after: nat)
    requires k < |hs| && forall i :: 0 <= i < |lines| ==> IsLine(lines[i])
    requires s == HeadingSection(lines, hs, k, newId, n).0 && after == HeadingSection(lines, hs, k, newId, n).1
    ensures SectionsFrom(lines, hs, k, newId, n, kept) ==
      SectionsFrom(lines, hs, k + 1, newId, after, if s.Some? then kept + [s.value] else kept)
  {
  }

  /** Keeping a section whose entries take the next ids of the counter
      keeps the entry ids of all sections a run of the counter. */
  lemma KeptSection(sections: seq<Section>, s: Option<Section>, newId: nat -> string, first: nat, next: nat, after: nat)
    requires first <= next <= after && AllEntryIds(sections) == Ids(newId, first, next)
    requires s.Some? ==> EntryIds(s.value.entries) == Ids(newId, next, after)
    requires s.None? ==> after == next
    ensures AllEntryIds(if s.Some? then sections + [s.value] else sections) == Ids(newId, first, after)
  {
    if s.Some? {
      AllEntryIdsSnoc(sections, s.value);
      IdsAppend(newId, first, next, after);
    }
  }

  /** The `forEach` over the headings: the sections kept, in heading order,
      and the counter after the last entry. */
  method BuildSections(lines: seq<string>, hs: seq<Heading>, newId: nat -> string, first: nat)
    returns (sections: seq<Section>, next: nat)
    requires forall i :: 0 <= i < |lines| ==> IsLine(lines[i])
    ensures (sections, next) == SectionsFrom(lines, hs, 0, newId, first, [])
    ensures first <= next
    ensures |sections| <= |hs|
    ensures forall i :: 0 <= i < |sections| ==> IsImported(sections[i])
    ensures AllEntryIds(sections) == Ids(newId, first, next)
  {
    sections, next := [], first;
    ghost var all := SectionsFrom(lines, hs, 0, newId, first, []);
    for idx := 0 to |hs|
      invariant SectionsFrom(lines, hs, idx, newId, next, sections) == all
      invariant first <= next && |sections| <= idx
      invariant forall i :: 0 <= i < |sections| ==> IsImported(sections[i])
      invariant AllEntryIds(sections) == Ids(newId, first, next)
    {
      var body := Body(lines, hs, idx);
      BodyLines(lines, hs, idx);
      var s, after := ParseSection(hs[idx].marker, body, newId, next);
      KeptSection(sections, s, newId, first, next, after);
      SectionsFromStep(lines, hs, idx, newId, next, sections, s, after);
      sections, next := if s.Some? then sections + [s.value] else sections, after;
    }
  }

  /** `parsePdfTextToResume`: the header and the sections of the text;
      `next` is the counter after the last entry id used. */
  method ParsePdfTextToResume(text: string, newId: nat -> string, first: nat) returns (r: Resume, next: nat)
    ensures IsPdfHeader(text, NormalizeLines(text), r.header)
    ensures var lines := NormalizeLines(text);
      (r.sections, next) == SectionsFrom(lines, Headings(lines), 0, newId, first, [])
    ensures WellTyped(r)
    ensures forall i :: 0 <= i < |r.sections| ==> IsImported(r.sections[i])
    ensures |r.sections| <= |Headings(NormalizeLines(text))|
    ensures first <= next && AllEntryIds(r.sections) == Ids(newId, first, next)
  {
    var lines := NormalizeLines(text);
    var header := ExtractHeader(text, lines);
    var hs := FindHeadings(lines);
    var sections;
    sections, next := BuildSections(lines, hs, newId, first);
    ImportedWellTyped(header, sections);
    r := Resume(header, sections);
  }

  /** Imported sections make a resume whose entries have their section's
      kind. */
  lemma ImportedWellTyped(header: Header, sections: seq<Section>)
    requires forall i :: 0 <= i < |sections| ==> IsImported(sections[i])
    ensures WellTyped(Resume(header, sections))
  {
  }

  /** With an injective id source the imported entries have distinct ids. */
  lemma ImportedIdsDistinct(sections: seq<Section>, newId: nat -> string, first: nat, next: nat)
    requires first <= next && AllEntryIds(sections) == Ids(newId, first, next)
    requires forall x: nat, y: nat :: x != y ==> newId(x) != newId(y)
    ensures Distinct(AllEntryIds(sections))
  {
    IdsDistinct(newId, first, next);
  }
}

/** The sample resume a new editor starts from and a reset returns to: one
    value, assembled from a function per entry and per section so that the
    facts about each part are proved where the part is written. Long texts
    are written as concatenations of short literals. */
module DefaultResume {
  import opened Wrappers
  import opened ResumeModel
  import opened Validation
  import opened JsString

  /** Two `YYYY-MM` dates that agree before index `k` and are in order at
      `k` pass the date rule and both date-order rules. */
  lemma OrderedDates(start: string, end: string, k: nat)
    requires IsYearMonth(start) && IsYearMonth(end)
    requires k < 7 && start[..k] == end[..k] && start[k] < end[k]
    ensures IsValidDate(start) && IsValidDate(end)
    ensures ExperienceDatesOrdered(start, end) && EducationDatesOrdered(start, end)
  {
    LexAtFirstDifference(start, end, k);
  }

  /** A `YYYY-MM` start with the end "Present" passes the date rule and the
      experience date-order rule. */
  lemma OpenEnded(start: string)
    requires IsYearMonth(start)
    ensures IsValidDate(start) && IsValidDate("Present") && ExperienceDatesOrdered(start, "Present")
  {
    var p := "Present";
    forall i | 0 <= i < |p| ensures LowerChar(p[i]) == LowerChar("present"[i]) {
      if i == 0 { assert LowerChar('P') == 'p'; }
    }
  }

  /** The sample header: three links. Its phone number starts with a `+`,
      so it does not pass the phone rule. */
  function SampleHeader(): (h: Header)
    ensures |h.links| == 3 && |h.name| >= 2
    ensures !IsValidPhone(h.phone)
  {
    PlusFailsPhone("+918483900303");
    Header("Sarvesh Patil", "+918483900303", "sarveshp273@gmail.com", [
      Link("Portfolio Website", "portfolio-website-url.com"),
      Link("LinkedIn", "linkedin.com/in/yourprofile"),
      Link("GitHub", "github.com/yourusername")
    ])
  }

  function Exp1Bullets(): seq<string>
  {
    [
      "Spearheaded the " + "development of " + "SSR-capable dashboards "
        + "using Next.js, " + "improving load time by " + "35% and increasing user "
        + "engagement by 18%.",
      "Implemented modular " + "micro-frontend " + "architectures for 3+ "
        + "enterprise scale " + "applications, enhancing " + "scalability and team "
        + "collaboration across " + "diverse product lines.",
      "Architected and " + "optimised backend " + "systems using Node.js "
        + "and Django, " + "encompassing " + "comprehensive database "
        + "design, efficient CRUD " + "operations, and " + "extensive API "
        + "integration for diverse " + "project deployments.",
      "Led a development team " + "for multiple projects, " + "overseeing project "
        + "execution from " + "conception to " + "deployment, ensuring "
        + "features were delivered " + "on time and met " + "stringent quality "
        + "standards."
    ]
  }

  function Exp1(bullets: seq<string>): (e: ExperienceEntry)
    ensures e.id == "exp-1" && ValidExperience(e)
    ensures e.bullets == bullets
  {
    OpenEnded("2023-06");
    ExperienceEntry(
      "exp-1",
      "Truboard Credit " + "Monitoring Services " + "Pvt. Ltd.",
      "Software Engineer", "Mumbai", "2023-06", "Present",
      bullets)
  }

  function Exp2Bullets(): seq<string>
  {
    [
      "Elevated user " + "experience across " + "client-side products by "
        + "independently building " + "and maintaining key " + "features using React "
        + "and Redux, integrated " + "with REST APIs.",
      "Drove a 30% reduction " + "in web application " + "defects by building and "
        + "implementing a robust " + "automated end-to-end " + "test suite with "
        + "Cypress, significantly " + "boosting software " + "reliability.",
      "Reviewed code and " + "conducted static " + "analysis to pinpoint "
        + "and resolve security " + "vulnerabilities and " + "performance "
        + "bottlenecks, leading to " + "more secure and " + "efficient applications.",
      "Implemented PostgreSQL " + "database optimisations " + "reducing API latency by "
        + "25% for critical data " + "operations."
    ]
  }

  function Exp2(bullets: seq<string>): (e: ExperienceEntry)
    ensures e.id == "exp-2" && ValidExperience(e)
    ensures e.bullets == bullets
  {
    OrderedDates("2022-01", "2023-03", 3);
    ExperienceEntry(
      "exp-2",
      "Neosoft Technologies " + "Pvt Ltd.",
      "Software Engineer", "Pune", "2022-01", "2023-03",
      bullets)
  }

  function Exp3Bullets(): seq<string>
  {
    [
      "Pioneered web " + "applications featuring " + "immersive user "
        + "experiences, leveraging " + "Three.js for " + "interactive 3D "
        + "animations and Framer " + "Motion for fluid, " + "performant UI "
        + "interactions.",
      "Developed end-to-end " + "full-stack solutions " + "for diverse clients, "
        + "encompassing custom " + "frontend development " + "with React.js and "
        + "Next.js, alongside " + "robust backend APIs " + "using Node.js and "
        + "Python.",
      "Orchestrated seamless " + "data migration from " + "databases to "
        + "cloud-based PostgreSQL, " + "resulting in zero data " + "loss and slashing "
        + "infrastructure costs by " + "20% via optimized " + "resource allocation.",
      "Implemented secure user " + "authentication and " + "authorisation systems, "
        + "protecting sensitive " + "data and enhancing " + "application reliability."
    ]
  }

  function Exp3(bullets: seq<string>): (e: ExperienceEntry)
    ensures e.id == "exp-3" && ValidExperience(e)
    ensures e.bullets == bullets
  {
    OrderedDates("2021-07", "2022-04", 3);
    ExperienceEntry(
      "exp-3",
      "Freelancer",
      "Full Stack Developer", "Mumbai", "2021-07", "2022-04",
      bullets)
  }

  function Exp4Bullets(): seq<string>
  {
    [
      "Successfully migrated a " + "legacy Angular " + "application to a "
        + "scalable React.js " + "framework, improving " + "application performance "
        + "by 15% and " + "significantly enhancing " + "maintainability.",
      "Created five custom DOM " + "directives, increasing " + "the modularity and "
        + "reusability of frontend " + "components across " + "various sections of the "
        + "web platform.",
      "Collaborated on the " + "implementation of new " + "user-facing features "
        + "for a travel platform, " + "directly contributing " + "to an improved user "
        + "interface and " + "engagement."
    ]
  }

  function Exp4(bullets: seq<string>): (e: ExperienceEntry)
    ensures e.id == "exp-4" && ValidExperience(e)
    ensures e.bullets == bullets
  {
    OrderedDates("2019-12", "2021-04", 2);
    ExperienceEntry(
      "exp-4",
      "Excursify Inc - Travel " + "& Leisure",
      "Web Developer", "Delhi", "2019-12", "2021-04",
      bullets)
  }

  function ExperienceSection(t: Texts): (s: Section)
    ensures s.id == "experience-1" && s.kind == Experience && |s.title| >= 1 && s.WellTyped()
    ensures EntryIds(s.entries) == ["exp-1", "exp-2", "exp-3", "exp-4"]
    ensures forall j :: 0 <= j < |s.entries| ==> EntryDatesValidOrBlank(s.entries[j])
  {
    var e1 := Exp1(t.exp1);
    var e2 := Exp2(t.exp2);
    var e3 := Exp3(t.exp3);
    var e4 := Exp4(t.exp4);
    ExperienceItemDates(e1);
    ExperienceItemDates(e2);
    ExperienceItemDates(e3);
    ExperienceItemDates(e4);
    Section("experience-1", Experience, "EXPERIENCE", [ExperienceItem(e1), ExperienceItem(e2), ExperienceItem(e3), ExperienceItem(e4)])
  }

  /** A valid experience entry's two dates pass the date rule. */
  lemma ExperienceItemDates(e: ExperienceEntry)
    requires ValidExperience(e)
    ensures EntryDatesValidOrBlank(ExperienceItem(e))
  {
  }

  function Edu1Details(): seq<string>
  {
    [
      "Achieved a strong " + "academic record with a " + "GPA of 8.3. Focused on "
        + "core computer science " + "principles, including " + "algorithms, data "
        + "structures, and " + "software engineering."
    ]
  }

  function Edu1(details: seq<string>): (e: EducationEntry)
    ensures e.id == "edu-1" && ValidEducation(e)
    ensures e.details == details
  {
    OrderedDates("2015-08", "2019-05", 3);
    EducationEntry(
      "edu-1", "Mumbai University", "B.Tech, Computer Science", "Mumbai", "2015-08", "2019-05",
      details)
  }

  function EducationSection(t: Texts): (s: Section)
    ensures s.id == "education-1" && s.kind == Education && |s.title| >= 1 && s.WellTyped()
    ensures EntryIds(s.entries) == ["edu-1"]
    ensures forall j :: 0 <= j < |s.entries| ==> EntryDatesValidOrBlank(s.entries[j])
  {
    var e1 := Edu1(t.edu1);
    Section("education-1", Education, "EDUCATION", [EducationItem(e1)])
  }

  function Award1(): (e: CustomEntry)
    ensures e.id == "award-1" && |e.title| >= 1 && EntryDatesValidOrBlank(CustomItem(e))
  {
    assert IsValidDate("2021-01");
    CustomEntry(
      "award-1",
      "Global Assessment of " + "Information Technology " + "- Bronze",
      Some("Verified Credential"),
      Some(""), Some(""), Some("2021-01"),
      [])
  }

  function Award2Bullets(): seq<string>
  {
    [
      "Certificate for SIH " + "2020, organized by " + "Ministry of Human "
        + "Resources"
    ]
  }

  function Award2Subtitle(): string
  {
    "Led my college in the " + "finals of the Smart " + "India Hackathon (SIH) "
      + "2020, a national-level " + "hackathon where we " + "worked on the problem "
      + "statement of Adani " + "Ports & SEZ, a leading " + "port management company "
      + "in India, to improve " + "the Turn Around Time " + "(TAT) of ships and "
      + "containers, eventually " + "improving the port " + "operation efficiency by "
      + "15% and were awarded " + "with second prize."
  }

  function Award2(subtitle: string, bullets: seq<string>): (e: CustomEntry)
    ensures e.id == "award-2" && |e.title| >= 1 && EntryDatesValidOrBlank(CustomItem(e))
    ensures e.subtitle == Some(subtitle) && e.bullets == bullets
  {
    assert IsValidDate("2020-08");
    CustomEntry(
      "award-2",
      "Smart India Hackathon " + "2020 Finalist",
      Some(subtitle),
      Some("Delhi"), Some(""), Some("2020-08"),
      bullets)
  }

  function AwardsSection(t: Texts): (s: Section)
    ensures s.id == "awards-1" && s.kind == Custom && |s.title| >= 1 && s.WellTyped()
    ensures EntryIds(s.entries) == ["award-1", "award-2"]
    ensures forall j :: 0 <= j < |s.entries| ==> EntryDatesValidOrBlank(s.entries[j])
  {
    var e1 := Award1();
    var e2 := Award2(t.award2Subtitle, t.award2);
    Section("awards-1", Custom, "AWARDS", [CustomItem(e1), CustomItem(e2)])
  }

  function Cert1Bullets(): seq<string>
  {
    [
      "Verified Credential"
    ]
  }

  function Cert1(bullets: seq<string>): (e: CustomEntry)
    ensures e.id == "cert-1" && |e.title| >= 1 && EntryDatesValidOrBlank(CustomItem(e))
    ensures e.bullets == bullets
  {
    CustomEntry(
      "cert-1",
      "React Specialisation - " + "Full-Stack Web " + "Development with React",
      Some("by The Hong Kong " + "University of Science " + "and Technology"),
      Some(""), Some(""), Some(""),
      bullets)
  }

  function Cert2Bullets(): seq<string>
  {
    [
      "Verified Credential"
    ]
  }

  function Cert2(bullets: seq<string>): (e: CustomEntry)
    ensures e.id == "cert-2" && |e.title| >= 1 && EntryDatesValidOrBlank(CustomItem(e))
    ensures e.bullets == bullets
  {
    assert IsValidDate("2019-06");
    CustomEntry(
      "cert-2",
      "Python Specialisation - " + "Python for Everybody",
      Some("by University of " + "Michigan"),
      Some(""), Some(""), Some("2019-06"),
      bullets)
  }

  function CertificationsSection(t: Texts): (s: Section)
    ensures s.id == "certifications-1" && s.kind == Custom && |s.title| >= 1 && s.WellTyped()
    ensures EntryIds(s.entries) == ["cert-1", "cert-2"]
    ensures forall j :: 0 <= j < |s.entries| ==> EntryDatesValidOrBlank(s.entries[j])
  {
    var e1 := Cert1(t.cert1);
    var e2 := Cert2(t.cert2);
    Section("certifications-1", Custom, "CERTIFICATIONS", [CustomItem(e1), CustomItem(e2)])
  }

  function Skill1(): (e: SkillsEntry)
    ensures e.id == "skill-1" && ValidSkills(e)
  {
    SkillsEntry("skill-1", "Languages", ["Python", "JavaScript", "SQL"])
  }

  function Skill2(): (e: SkillsEntry)
    ensures e.id == "skill-2" && ValidSkills(e)
  {
    SkillsEntry("skill-2", "Frameworks & Libraries", ["React", "Next.js", "Node.js", "Django", "Redux", "Angular", "Three.js", "Framer Motion"])
  }

  function Skill3(): (e: SkillsEntry)
    ensures e.id == "skill-3" && ValidSkills(e)
  {
    SkillsEntry("skill-3", "Developer Tools", ["Git", "Docker", "Redis", "Cypress"])
  }

  function Skill4(): (e: SkillsEntry)
    ensures e.id == "skill-4" && ValidSkills(e)
  {
    SkillsEntry("skill-4", "Databases", ["PostgreSQL"])
  }

  function SkillsSection(): (s: Section)
    ensures s.id == "skills-1" && s.kind == Skills && |s.title| >= 1 && s.WellTyped()
    ensures EntryIds(s.entries) == ["skill-1", "skill-2", "skill-3", "skill-4"]
    ensures forall j :: 0 <= j < |s.entries| ==> EntryDatesValidOrBlank(s.entries[j])
  {
    var e1 := Skill1();
    var e2 := Skill2();
    var e3 := Skill3();
    var e4 := Skill4();
    Section("skills-1", Skills, "TECHNICAL SKILLS", [SkillsItem(e1), SkillsItem(e2), SkillsItem(e3), SkillsItem(e4)])
  }

  /** The long texts of the sample: bullet lists, the education details
      and the second award's subtitle. They are kept apart so that the
      facts about the sample's structure are proved without them. */
  datatype Texts = Texts(
    exp1: seq<string>, exp2: seq<string>, exp3: seq<string>, exp4: seq<string>,
    edu1: seq<string>, award2Subtitle: string, award2: seq<string>,
    cert1: seq<string>, cert2: seq<string>)

  function SampleTexts(): Texts {
    Texts(Exp1Bullets(), Exp2Bullets(), Exp3Bullets(), Exp4Bullets(),
      Edu1Details(), Award2Subtitle(), Award2Bullets(), Cert1Bullets(), Cert2Bullets())
  }

  /** What the sample resume promises: it is well typed, its section ids
      and its entry ids are distinct, its header has three links, every date
      is blank or valid, and its sections come in the order experience,
      education, custom (awards), custom (certifications), skills. */
  predicate SampleShaped(r: Resume) {
    && WellTyped(r)
    && Kinds(r.sections) == [Experience, Education, Custom, Custom, Skills]
    && Distinct(SectionIds(r.sections)) && Distinct(AllEntryIds(r.sections))
    && |r.header.links| == 3
    && DatesValidOrBlank(r)
  }

  /** The sample around the texts `t`, whatever they are, has that shape. */
  function SampleAround(t: Texts): (r: Resume)
    ensures SampleShaped(r)
  {
    var header := SampleHeader();
    var s1 := ExperienceSection(t);
    var s2 := EducationSection(t);
    var s3 := AwardsSection(t);
    var s4 := CertificationsSection(t);
    var s5 := SkillsSection();
    var sample := Resume(header, [s1, s2, s3, s4, s5]);
    SampleShape(sample, s1, s2, s3, s4, s5);
    SampleIds(sample, s1, s2, s3, s4, s5);
    sample
  }

  /** `createDefaultResume`: the sample around its own texts. */
  function CreateDefaultResume(): (r: Resume)
    ensures SampleShaped(r)
  {
    SampleAround(SampleTexts())
  }

  /** `createDefaultResume` as the store receives it: the sample around
      the texts `t`, which are its own. The contract does not say which
      texts, so that the store's proofs do not carry them. */
  method NewSample() returns (r: Resume, ghost t: Texts)
    ensures r == SampleAround(t)
  {
    var texts := SampleTexts();
    r, t := SampleAround(texts), texts;
  }

  lemma SampleShape(r: Resume, s1: Section, s2: Section, s3: Section, s4: Section, s5: Section)
    requires r.sections == [s1, s2, s3, s4, s5]
    requires s1.WellTyped() && s2.WellTyped() && s3.WellTyped() && s4.WellTyped() && s5.WellTyped()
    requires s1.kind == Experience && s2.kind == Education && s3.kind == Custom && s4.kind == Custom && s5.kind == Skills
    requires forall j :: 0 <= j < |s1.entries| ==> EntryDatesValidOrBlank(s1.entries[j])
    requires forall j :: 0 <= j < |s2.entries| ==> EntryDatesValidOrBlank(s2.entries[j])
    requires forall j :: 0 <= j < |s3.entries| ==> EntryDatesValidOrBlank(s3.entries[j])
    requires forall j :: 0 <= j < |s4.entries| ==> EntryDatesValidOrBlank(s4.entries[j])
    requires forall j :: 0 <= j < |s5.entries| ==> EntryDatesValidOrBlank(s5.entries[j])
    ensures WellTyped(r) && DatesValidOrBlank(r)
    ensures Kinds(r.sections) == [Experience, Education, Custom, Custom, Skills]
  {
  }

  lemma SampleIds(r: Resume, s1: Section, s2: Section, s3: Section, s4: Section, s5: Section)
    requires r.sections == [s1, s2, s3, s4, s5]
    requires s1.id == "experience-1" && s2.id == "education-1" && s3.id == "awards-1"
    requires s4.id == "certifications-1" && s5.id == "skills-1"
    requires EntryIds(s1.entries) == ["exp-1", "exp-2", "exp-3", "exp-4"]
    requires EntryIds(s2.entries) == ["edu-1"]
    requires EntryIds(s3.entries) == ["award-1", "award-2"]
    requires EntryIds(s4.entries) == ["cert-1", "cert-2"]
    requires EntryIds(s5.entries) == ["skill-1", "skill-2", "skill-3", "skill-4"]
    ensures Distinct(SectionIds(r.sections)) && Distinct(AllEntryIds(r.sections))
  {
    SampleSectionIds(r.sections, s1, s2, s3, s4, s5);
    SampleEntryIds(r.sections, s1, s2, s3, s4, s5);
    SampleIdsDistinct();
  }

  lemma SampleSectionIds(sections: seq<Section>, s1: Section, s2: Section, s3: Section, s4: Section, s5: Section)
    requires sections == [s1, s2, s3, s4, s5]
    requires s1.id == "experience-1" && s2.id == "education-1" && s3.id == "awards-1"
    requires s4.id == "certifications-1" && s5.id == "skills-1"
    ensures SectionIds(sections) == ["experience-1", "education-1", "awards-1", "certifications-1", "skills-1"]
  {
  }

  lemma SampleEntryIds(sections: seq<Section>, s1: Section, s2: Section, s3: Section, s4: Section, s5: Section)
    requires sections == [s1, s2, s3, s4, s5]
    requires EntryIds(s1.entries) == ["exp-1", "exp-2", "exp-3", "exp-4"]
    requires EntryIds(s2.entries) == ["edu-1"]
    requires EntryIds(s3.entries) == ["award-1", "award-2"]
    requires EntryIds(s4.entries) == ["cert-1", "cert-2"]
    requires EntryIds(s5.entries) == ["skill-1", "skill-2", "skill-3", "skill-4"]
    ensures AllEntryIds(sections) == [
      "exp-1", "exp-2", "exp-3", "exp-4", "edu-1", "award-1", "award-2",
      "cert-1", "cert-2", "skill-1", "skill-2", "skill-3", "skill-4"]
  {
    AllEntryIdsOfFive(s1, s2, s3, s4, s5);
  }

  lemma SampleIdsDistinct()
    ensures Distinct(["experience-1", "education-1", "awards-1", "certifications-1", "skills-1"])
    ensures Distinct([
      "exp-1", "exp-2", "exp-3", "exp-4", "edu-1", "award-1", "award-2",
      "cert-1", "cert-2", "skill-1", "skill-2", "skill-3", "skill-4"])
  {
  }

  lemma {:induction false} AllEntryIdsOfFive(a: Section, b: Section, c: Section, d: Section, e: Section)
    ensures AllEntryIds([a, b, c, d, e])
         == EntryIds(a.entries) + (EntryIds(b.entries) + (EntryIds(c.entries) + (EntryIds(d.entries) + EntryIds(e.entries))))
  {
    assert [a, b, c, d, e][1..] == [b, c, d, e];
    assert [b, c, d, e][1..] == [c, d, e];
    assert [c, d, e][1..] == [d, e];
    assert [d, e][1..] == [e];
    assert [e][1..] == [];
    assert AllEntryIds([e]) == EntryIds(e.entries);
    assert AllEntryIds([d, e]) == EntryIds(d.entries) + EntryIds(e.entries);
    assert AllEntryIds([c, d, e]) == EntryIds(c.entries) + (EntryIds(d.entries) + EntryIds(e.entries));
    assert AllEntryIds([b, c, d, e])
        == EntryIds(b.entries) + (EntryIds(c.entries) + (EntryIds(d.entries) + EntryIds(e.entries)));
  }
}

/** The four section parsers of the PDF import: each splits the section's
    text into trimmed non-empty lines and walks them with an index, reading
    an entry heading and then the bullets under it. */
module SectionParsers {
  import opened Wrappers
  import opened JsString
  import opened RegexSearch
  import opened LinePatterns
  import opened ResumeModel

  // ---------------------------------------------------------------------
  // Lines

  predicate NonBlank(s: string) {
    |s| > 0
  }

  /** A line as the parsers see it: non-empty, trimmed, without `\n`. */
  predicate IsLine(l: string) {
    l != [] && IsTrimmed(l) && '\n' !in l
  }

  function TrimAll(parts: seq<string>): (r: seq<string>)
    ensures |r| == |parts| && forall i :: 0 <= i < |r| ==> r[i] == Trim(parts[i])
  {
    seq(|parts|, i requires 0 <= i < |parts| => Trim(parts[i]))
  }

  /** `text.split("\n").map((l) => l.trim()).filter((l) => l)`. */
  function NormalizeLines(text: string): (r: seq<string>)
    ensures forall i :: 0 <= i < |r| ==> IsLine(r[i])
  {
    var parts := Split(text, '\n');
    var trimmed := TrimAll(parts);
    forall i | 0 <= i < |parts| ensures '\n' !in trimmed[i] {
      TrimKeeps(parts[i], '\n');
    }
    Filter(NonBlank, trimmed)
  }

  /** Joining lines with `\n` and normalising again gives back the lines:
      the section text handed to each section parser holds exactly the
      lines of the section. */
  lemma NormalizeJoin(lines: seq<string>)
    requires forall i :: 0 <= i < |lines| ==> IsLine(lines[i])
    ensures NormalizeLines(Join(lines, "\n")) == lines
  {
    if lines == [] {
      NormalizeBlank(Join(lines, "\n"));
    } else {
      SplitJoin(lines, '\n');
      TrimAllLines(lines);
      FilterAll(NonBlank, lines);
    }
  }

  /** A single line of white space normalises to no lines at all. */
  lemma NormalizeBlank(text: string)
    requires '\n' !in text && forall i :: 0 <= i < |text| ==> IsSpace(text[i])
    ensures NormalizeLines(text) == []
  {
    var trimmed := TrimAll(Split(text, '\n'));
    assert trimmed == [Trim(text)];
    TrimEmpty(text);
    FilterNone(NonBlank, trimmed);
  }

  lemma TrimAllLines(lines: seq<string>)
    requires forall i :: 0 <= i < |lines| ==> IsLine(lines[i])
    ensures TrimAll(lines) == lines
  {
    forall i | 0 <= i < |lines| ensures Trim(lines[i]) == lines[i] {
      TrimOfTrimmed(lines[i]);
    }
  }

  /** One step of a loop that appends what it reads: the entries collected
      so far followed by the entries still to come stay the same. */
  lemma Consumed<T>(entries: seq<T>, e: Option<T>, here: seq<T>, rest: seq<T>)
    requires here == if e.Some? then [e.value] + rest else rest
    ensures (if e.Some? then entries + [e.value] else entries) + rest == entries + here
  {
  }

  // ---------------------------------------------------------------------
  // Bullets

  /** The three bullet loops differ in the test that, applied to a line
      after an open bullet that is not a bullet itself, says the line starts
      the next entry, and in whether the open bullet is then pushed twice.
      The loop takes the test as a parameter. */
  predicate EndsExperience(line: string) {
    EndsWithCity(true, line)
  }

  predicate EndsEducation(line: string) {
    IsSectionKeyword(line) || EndsWithCity(false, line)
  }

  predicate EndsCustom(line: string) {
    MatchTrailingDate(line).Some? || HasBy(line) || EndsWithCity(false, line)
  }

  /** The text of a bullet line: `line.replace(/^•\s*\/, "").trim()`. */
  function BulletText(line: string): string {
    Trim(StripBullet(line))
  }

  /** `if (currentBullet) bullets.push(currentBullet.trim())`. */
  function Flush(acc: seq<string>, current: string): seq<string> {
    if current != "" then acc + [Trim(current)] else acc
  }

  /** The bullet loop from line `i` with the open bullet `current` and the
      bullets `acc` already pushed: the bullets at the end and the index of
      the first line not consumed. The custom loop pushes the open bullet
      when it meets the next entry and once more after the loop. */
  function Scan(stop: string -> bool, repeat: bool, lines: seq<string>, i: nat, current: string, acc: seq<string>): (r: (seq<string>, nat))
    requires i <= |lines|
    ensures i <= r.1 <= |lines|
    decreases |lines| - i
  {
    if i == |lines| then (Flush(acc, current), i)
    else if IsBulletLine(lines[i]) then Scan(stop, repeat, lines, i + 1, BulletText(lines[i]), Flush(acc, current))
    else if current == "" then (acc, i)
    else if stop(lines[i]) then
      (if repeat then Flush(acc + [Trim(current)], current) else Flush(acc, current), i)
    else Scan(stop, repeat, lines, i + 1, current + " " + Trim(lines[i]), acc)
  }

  /** A bullet as the parsers store it: non-empty and trimmed. */
  predicate IsBullet(b: string) {
    b != "" && IsTrimmed(b)
  }

  predicate AllBullets(bs: seq<string>) {
    forall j :: 0 <= j < |bs| ==> IsBullet(bs[j])
  }

  lemma FlushBullets(acc: seq<string>, current: string)
    requires AllBullets(acc) && (current == "" || !IsSpace(current[0]))
    ensures AllBullets(Flush(acc, current))
  {
    if current != "" {
      TrimNonEmpty(current);
    }
  }

  /** The loop adds only non-empty trimmed bullets. */
  lemma {:induction false} ScanBullets(stop: string -> bool, repeat: bool, lines: seq<string>, i: nat, current: string, acc: seq<string>)
    requires i <= |lines|
    requires AllBullets(acc) && (current == "" || !IsSpace(current[0]))
    ensures AllBullets(Scan(stop, repeat, lines, i, current, acc).0)
    decreases |lines| - i
  {
    if i == |lines| {
      FlushBullets(acc, current);
    } else if IsBulletLine(lines[i]) {
      FlushBullets(acc, current);
      ScanBullets(stop, repeat, lines, i + 1, BulletText(lines[i]), Flush(acc, current));
    } else if current == "" {
    } else if stop(lines[i]) {
      FlushBullets(acc, current);
      if repeat {
        FlushBullets(acc + [Trim(current)], current);
      }
    } else {
      ScanBullets(stop, repeat, lines, i + 1, current + " " + Trim(lines[i]), acc);
    }
  }

  /** The bullet lines in `i..n` whose text is not empty. */
  function TextBullets(lines: seq<string>, i: nat, n: nat): nat
    requires i <= n <= |lines|
    decreases n - i
  {
    if i == n then 0
    else (if IsBulletLine(lines[i]) && BulletText(lines[i]) != "" then 1 else 0) + TextBullets(lines, i + 1, n)
  }

  /** Each bullet line with text opens exactly one bullet, and the lines
      that continue it add none; the custom loop may list the last one a
      second time. */
  lemma {:induction false} ScanCount(stop: string -> bool, repeat: bool, lines: seq<string>, i: nat, current: string, acc: seq<string>)
    requires i <= |lines|
    ensures var r := Scan(stop, repeat, lines, i, current, acc);
      var base := |acc| + (if current != "" then 1 else 0) + TextBullets(lines, i, r.1);
      base <= |r.0| <= base + (if repeat then 1 else 0)
    decreases |lines| - i
  {
    if i < |lines| {
      if IsBulletLine(lines[i]) {
        ScanCount(stop, repeat, lines, i + 1, BulletText(lines[i]), Flush(acc, current));
      } else if current != "" && !stop(lines[i]) {
        ScanCount(stop, repeat, lines, i + 1, current + " " + Trim(lines[i]), acc);
      }
    }
  }

  /** The loop ends at the end of the lines or at a line that is not a
      bullet. */
  predicate StopsAtNonBullet(lines: seq<string>, next: nat) {
    next < |lines| ==> !IsBulletLine(lines[next])
  }

  /** Every line in `i..next` that is not a bullet fails the test. */
  predicate NoStopBetween(stop: string -> bool, lines: seq<string>, i: nat, next: nat)
    requires i <= next <= |lines|
  {
    forall j :: i <= j < next ==> IsBulletLine(lines[j]) || !stop(lines[j])
  }

  /** The loop stops at the end of the lines or at a line that is not a
      bullet, and every line it consumed that is not a bullet failed the
      end-of-entry test. */
  lemma {:induction false} ScanStops(stop: string -> bool, repeat: bool, lines: seq<string>, i: nat, current: string, acc: seq<string>)
    requires i <= |lines|
    ensures StopsAtNonBullet(lines, Scan(stop, repeat, lines, i, current, acc).1)
    ensures NoStopBetween(stop, lines, i, Scan(stop, repeat, lines, i, current, acc).1)
    decreases |lines| - i
  {
    if i < |lines| {
      if IsBulletLine(lines[i]) {
        ScanStops(stop, repeat, lines, i + 1, BulletText(lines[i]), Flush(acc, current));
      } else if current != "" && !stop(lines[i]) {
        ScanStops(stop, repeat, lines, i + 1, current + " " + Trim(lines[i]), acc);
      }
    }
  }

  /** The custom loop lists the open bullet twice when the next entry
      interrupts it; the experience and education loops list it once. */
  lemma ScanRepeat(stop: string -> bool, repeat: bool, lines: seq<string>, i: nat, current: string, acc: seq<string>)
    requires i < |lines| && !IsBulletLine(lines[i]) && current != "" && stop(lines[i])
    ensures repeat ==> Scan(stop, repeat, lines, i, current, acc) == (acc + [Trim(current), Trim(current)], i)
    ensures !repeat ==> Scan(stop, repeat, lines, i, current, acc) == (acc + [Trim(current)], i)
  {
    assert acc + [Trim(current)] + [Trim(current)] == acc + [Trim(current), Trim(current)];
  }

  /** The bullet loop of the three parsers, from line `start` with no open
      bullet. */
  method CollectBullets(stop: string -> bool, repeat: bool, lines: seq<string>, start: nat) returns (bullets: seq<string>, next: nat)
    requires start <= |lines|
    ensures (bullets, next) == Scan(stop, repeat, lines, start, "", [])
    ensures start <= next <= |lines| && AllBullets(bullets)
  {
    ScanBullets(stop, repeat, lines, start, "", []);
    var i := start;
    var current := "";
    bullets := [];
    while i < |lines|
      invariant start <= i <= |lines|
      invariant Scan(stop, repeat, lines, i, current, bullets) == Scan(stop, repeat, lines, start, "", [])
      decreases |lines| - i
    {
      if IsBulletLine(lines[i]) {
        if current != "" {
          bullets := bullets + [Trim(current)];
        }
        current := BulletText(lines[i]);
        i := i + 1;
      } else if current != "" {
        if stop(lines[i]) {
          if repeat {
            bullets := bullets + [Trim(current)];
          }
          break;
        }
        current := current + " " + Trim(lines[i]);
        i := i + 1;
      } else {
        break;
      }
    }
    if current != "" {
      bullets := bullets + [Trim(current)];
    }
    next := i;
  }

  // ---------------------------------------------------------------------
  // Experience

  /** The end date of an experience entry: `Present` unless the text after
      the dash is something else that holds a month-year, which is then
      written as "Month Year". */
  function EndDate(endPart: string): (r: string)
    ensures r == "Present" || IsMonthYearText(r)
    ensures endPart == "Present" ==> r == "Present"
    ensures endPart != "Present" && First(MonthYearAt, endPart).Some? ==> IsMonthYearText(r)
  {
    if endPart == "Present" then "Present"
    else
      match First(MonthYearAt, endPart)
      case None => "Present"
      case Some((_, my)) =>
        MonthYearTextShape(my);
        MonthYearText(my)
  }

  /** The two lines that open an experience entry, as read. */
  datatype ExperienceHead = ExperienceHead(company: string, role: string, location: string, startDate: string, endDate: string)

  predicate IsExperienceHead(h: ExperienceHead) {
    IsCity(h.location, true) && IsTrimmed(h.company) && IsTrimmed(h.role) &&
    IsMonthYearText(h.startDate) && (h.endDate == "Present" || IsMonthYearText(h.endDate))
  }

  /** The two lines that open an experience entry. The company line must end
      with a city (or `Remote`): the city, as cased in the line, becomes the
      location and the trimmed text before it the company. The next line
      must hold a role followed by a date range. */
  function ReadExperienceHead(companyLine: string, roleLine: string): (r: Option<ExperienceHead>)
    ensures r.Some? <==> EndsWithCity(true, companyLine) && MatchRoleDate(roleLine).Some?
    ensures r.Some? ==> IsExperienceHead(r.value) && EndsWith(companyLine, r.value.location)
    ensures r.Some? && NoLineBreak(companyLine) ==>
      r.value.company == Trim(companyLine[..|companyLine| - |r.value.location|])
    ensures r.Some? ==> var m := MatchRoleDate(roleLine).value;
      r.value.role == Trim(m.role) && r.value.startDate == MonthYearText(m.start) &&
      r.value.endDate == EndDate(Trim(m.endPart))
  {
    var city := CitySuffix(true, companyLine);
    var rd := MatchRoleDate(roleLine);
    if city.None? || rd.None? then None
    else
      var (company, location) := city.value;
      assert NoLineBreak(companyLine) ==> companyLine[..|companyLine| - |location|] == company;
      MonthYearTextShape(rd.value.start);
      Some(ExperienceHead(Trim(company), Trim(rd.value.role), location, MonthYearText(rd.value.start), EndDate(Trim(rd.value.endPart))))
  }

  /** What every experience entry of the parser satisfies. */
  predicate IsParsedExperience(e: ExperienceEntry) {
    IsExperienceHead(ExperienceHead(e.company, e.role, e.location, e.startDate, e.endDate)) &&
    AllBullets(e.bullets)
  }

  /** One step of `parseExperienceSectionImproved` at line `i`, as a value:
      the entry read there, if any, and the line the loop goes on from. */
  function ExperienceStep(lines: seq<string>, i: nat, id: string): (r: (Option<ExperienceEntry>, nat))
    requires i < |lines|
    ensures i < r.1 <= |lines|
    ensures r.0.Some? ==> r.0.value.id == id && IsParsedExperience(r.0.value)
  {
    var head := if IsBulletLine(lines[i]) || i + 1 == |lines| then None else ReadExperienceHead(lines[i], lines[i + 1]);
    if head.None? then (None, i + 1)
    else
      var h := head.value;
      var (bullets, next) := Scan(EndsExperience, false, lines, i + 2, "", []);
      ScanBullets(EndsExperience, false, lines, i + 2, "", []);
      (Some(ExperienceEntry(id, h.company, h.role, h.location, h.startDate, h.endDate, bullets)), next)
  }

  /** One step of the loop, computed as `parseExperienceSectionImproved`
      does it: the head lines, then the bullet loop. */
  method ReadExperience(lines: seq<string>, i: nat, id: string) returns (e: Option<ExperienceEntry>, next: nat)
    requires i < |lines|
    ensures (e, next) == ExperienceStep(lines, i, id)
  {
    next := i + 1;
    e := None;
    if IsBulletLine(lines[i]) || i + 1 == |lines| {
      return;
    }
    var head := ReadExperienceHead(lines[i], lines[i + 1]);
    if head.Some? {
      var h := head.value;
      var bullets;
      bullets, next := CollectBullets(EndsExperience, false, lines, i + 2);
      e := Some(ExperienceEntry(id, h.company, h.role, h.location, h.startDate, h.endDate, bullets));
    }
  }

  /** What one step reads: an entry exactly when the line is not a bullet
      and ends with a city and the next line holds a role and a date range;
      the entry is made of the two lines' fields and of the bullets the
      bullet loop collects after them, and the loop goes on where the
      bullets end. Any other line is skipped. */
  lemma ExperienceStepReads(lines: seq<string>, i: nat, id: string)
    requires i < |lines|
    ensures var (e, next) := ExperienceStep(lines, i, id);
      (e.Some? <==>
        !IsBulletLine(lines[i]) && i + 1 < |lines| && EndsWithCity(true, lines[i]) && MatchRoleDate(lines[i + 1]).Some?) &&
      (e.None? ==> next == i + 1) &&
      (e.Some? ==> var h := ReadExperienceHead(lines[i], lines[i + 1]).value;
        var scan := Scan(EndsExperience, false, lines, i + 2, "", []);
        e.value == ExperienceEntry(id, h.company, h.role, h.location, h.startDate, h.endDate, scan.0) &&
        next == scan.1)
  {
  }

  /** The entries the loop reads from line `i` on, the first of them with
      the id `newId(n)`. */
  function ExperienceFrom(lines: seq<string>, i: nat, newId: nat -> string, n: nat): (r: seq<ExperienceEntry>)
    requires i <= |lines|
    ensures 2 * |r| <= |lines| - i
    decreases |lines| - i
  {
    if i == |lines| then []
    else
      var (e, next) := ExperienceStep(lines, i, newId(n));
      if e.Some? then [e.value] + ExperienceFrom(lines, next, newId, n + 1)
      else ExperienceFrom(lines, next, newId, n)
  }

  /** The entries from line `i` on are the entry read at `i`, if any,
      followed by the entries from where that step stops. */
  lemma ExperienceFromStep(lines: seq<string>, i: nat, newId: nat -> string, n: nat, e: Option<ExperienceEntry>, next: nat)
    requires i < |lines|
    requires (e, next) == ExperienceStep(lines, i, newId(n))
    ensures ExperienceFrom(lines, i, newId, n) ==
      if e.Some? then [e.value] + ExperienceFrom(lines, next, newId, n + 1) else ExperienceFrom(lines, next, newId, n)
  {
  }

  /** Entries numbered from `n` that satisfy the parser's rules. */
  predicate ParsedExperiences(r: seq<ExperienceEntry>, newId: nat -> string, n: nat) {
    forall j :: 0 <= j < |r| ==> r[j].id == newId(n + j) && IsParsedExperience(r[j])
  }

  lemma ParsedExperiencesCons(e: ExperienceEntry, rest: seq<ExperienceEntry>, newId: nat -> string, n: nat)
    requires e.id == newId(n) && IsParsedExperience(e) && ParsedExperiences(rest, newId, n + 1)
    ensures ParsedExperiences([e] + rest, newId, n)
  {
    var r := [e] + rest;
    forall j | 0 < j < |r| ensures r[j].id == newId(n + j) && IsParsedExperience(r[j]) {
      assert r[j] == rest[j - 1];
    }
  }

  /** The entries read from line `i` on take the ids `newId(n)`,
      `newId(n + 1)`, ... in order, and each satisfies the parser's rules. */
  lemma {:induction false} ExperienceFromParsed(lines: seq<string>, i: nat, newId: nat -> string, n: nat)
    requires i <= |lines|
    ensures ParsedExperiences(ExperienceFrom(lines, i, newId, n), newId, n)
    decreases |lines| - i
  {
    if i < |lines| {
      var (e, next) := ExperienceStep(lines, i, newId(n));
      if e.Some? {
        ExperienceFromParsed(lines, next, newId, n + 1);
        ParsedExperiencesCons(e.value, ExperienceFrom(lines, next, newId, n + 1), newId, n);
      } else {
        ExperienceFromParsed(lines, next, newId, n);
      }
    }
  }

  /** The loop of `parseExperienceSectionImproved` over the normalised
      lines. */
  method ExperienceEntries(lines: seq<string>, newId: nat -> string, first: nat) returns (entries: seq<ExperienceEntry>)
    ensures entries == ExperienceFrom(lines, 0, newId, first)
    ensures ParsedExperiences(entries, newId, first)
    ensures 2 * |entries| <= |lines|
  {
    entries := [];
    var i, n := 0, first;
    while i < |lines|
      invariant i <= |lines| && n == first + |entries|
      invariant entries + ExperienceFrom(lines, i, newId, n) == ExperienceFrom(lines, 0, newId, first)
      decreases |lines| - i
    {
      var e, next := ReadExperience(lines, i, newId(n));
      ExperienceFromStep(lines, i, newId, n, e, next);
      Consumed(entries, e, ExperienceFrom(lines, i, newId, n), ExperienceFrom(lines, next, newId, if e.Some? then n + 1 else n));
      entries, n := if e.Some? then entries + [e.value] else entries, if e.Some? then n + 1 else n;
      i := next;
    }
    ExperienceFromParsed(lines, 0, newId, first);
  }

  /** `parseExperienceSectionImproved`: the entries read from the trimmed
      non-empty lines of the text. */
  method ParseExperience(text: string, newId: nat -> string, first: nat) returns (entries: seq<ExperienceEntry>)
    ensures entries == ExperienceFrom(NormalizeLines(text), 0, newId, first)
    ensures ParsedExperiences(entries, newId, first)
    ensures 2 * |entries| <= |NormalizeLines(text)|
  {
    entries := ExperienceEntries(NormalizeLines(text), newId, first);
  }

  // ---------------------------------------------------------------------
  // Education

  /** What every education entry of the parser satisfies: the location is
      one of the seven cities as written, the degree is the line after the
      institution line, and there are no dates. */
  predicate IsParsedEducation(e: EducationEntry) {
    IsCity(e.location, false) && IsTrimmed(e.institution) &&
    IsLine(e.degree) && !IsBulletLine(e.degree) &&
    e.startDate == [] && e.endDate == [] && AllBullets(e.details)
  }

  /** Education entries never get the location `Remote`. */
  lemma EducationNotRemote(e: EducationEntry)
    requires IsParsedEducation(e)
    ensures !EqualsIgnoreCase(e.location, "Remote") && e.startDate == e.endDate == ""
  {
    CityNotRemote(e.location);
  }

  /** Whether the education loop reads an entry at line `i`: not a bullet,
      not one of the two headings `Awards` and `Certifications`, ending with
      one of the seven cities, and followed by a line that is not a bullet. */
  predicate OpensEducation(lines: seq<string>, i: nat)
    requires i < |lines|
  {
    !IsBulletLine(lines[i]) && lines[i] != "Awards" && lines[i] != "Certifications" &&
    i + 1 < |lines| && EndsWithCity(false, lines[i]) && !IsBulletLine(lines[i + 1])
  }

  /** One step of `parseEducationSectionImproved` at line `i`, as a value. */
  function EducationStep(lines: seq<string>, i: nat, id: string): (r: (Option<EducationEntry>, nat))
    requires i < |lines| && forall k :: 0 <= k < |lines| ==> IsLine(lines[k])
    ensures i < r.1 <= |lines|
    ensures r.0.Some? ==> r.0.value.id == id && IsParsedEducation(r.0.value)
  {
    if !OpensEducation(lines, i) then (None, i + 1)
    else
      var (institution, location) := CitySuffix(false, lines[i]).value;
      var (details, next) := Scan(EndsEducation, false, lines, i + 2, "", []);
      ScanBullets(EndsEducation, false, lines, i + 2, "", []);
      (Some(EducationEntry(id, Trim(institution), lines[i + 1], location, "", "", details)), next)
  }

  /** One step of the loop, computed as `parseEducationSectionImproved`
      does it. */
  method ReadEducation(lines: seq<string>, i: nat, id: string) returns (e: Option<EducationEntry>, next: nat)
    requires i < |lines| && forall k :: 0 <= k < |lines| ==> IsLine(lines[k])
    ensures (e, next) == EducationStep(lines, i, id)
  {
    next := i + 1;
    e := None;
    var line := lines[i];
    if IsBulletLine(line) || line == "Awards" || line == "Certifications" || i + 1 == |lines| {
      return;
    }
    var city := CitySuffix(false, line);
    if city.Some? && !IsBulletLine(lines[i + 1]) {
      var (institution, location) := city.value;
      var details;
      details, next := CollectBullets(EndsEducation, false, lines, i + 2);
      e := Some(EducationEntry(id, Trim(institution), lines[i + 1], location, "", "", details));
    }
  }

  /** What one step reads: an entry exactly when the line opens one; its
      institution and location come from the city ending the line, its
      degree is the next line, and its details are what the bullet loop
      collects after them, where the loop goes on. Any other line is
      skipped. */
  lemma EducationStepReads(lines: seq<string>, i: nat, id: string)
    requires i < |lines| && forall k :: 0 <= k < |lines| ==> IsLine(lines[k])
    ensures var (e, next) := EducationStep(lines, i, id);
      (e.Some? <==> OpensEducation(lines, i)) &&
      (e.None? ==> next == i + 1) &&
      (e.Some? ==> var city := CitySuffix(false, lines[i]).value;
        var scan := Scan(EndsEducation, false, lines, i + 2, "", []);
        e.value == EducationEntry(id, Trim(city.0), lines[i + 1], city.1, "", "", scan.0) && next == scan.1)
  {
  }

  /** The entries the education loop reads from line `i` on, the first of
      them with the id `newId(n)`. */
  function EducationFrom(lines: seq<string>, i: nat, newId: nat -> string, n: nat): (r: seq<EducationEntry>)
    requires i <= |lines| && forall k :: 0 <= k < |lines| ==> IsLine(lines[k])
    ensures 2 * |r| <= |lines| - i
    decreases |lines| - i
  {
    if i == |lines| then []
    else
      var (e, next) := EducationStep(lines, i, newId(n));
      if e.Some? then [e.value] + EducationFrom(lines, next, newId, n + 1)
      else EducationFrom(lines, next, newId, n)
  }

  /** The entries from line `i` on are the entry read at `i`, if any,
      followed by the entries from where that step stops. */
  lemma EducationFromStep(lines: seq<string>, i: nat, newId: nat -> string, n: nat, e: Option<EducationEntry>, next: nat)
    requires i < |lines| && (forall k :: 0 <= k < |lines| ==> IsLine(lines[k]))
    requires (e, next) == EducationStep(lines, i, newId(n))
    ensures EducationFrom(lines, i, newId, n) ==
      if e.Some? then [e.value] + EducationFrom(lines, next, newId, n + 1) else EducationFrom(lines, next, newId, n)
  {
  }

  /** Entries numbered from `n` that satisfy the parser's rules. */
  predicate ParsedEducations(r: seq<EducationEntry>, newId: nat -> string, n: nat) {
    forall j :: 0 <= j < |r| ==> r[j].id == newId(n + j) && IsParsedEducation(r[j])
  }

  lemma ParsedEducationsCons(e: EducationEntry, rest: seq<EducationEntry>, newId: nat -> string, n: nat)
    requires e.id == newId(n) && IsParsedEducation(e) && ParsedEducations(rest, newId, n + 1)
    ensures ParsedEducations([e] + rest, newId, n)
  {
    var r := [e] + rest;
    forall j | 0 < j < |r| ensures r[j].id == newId(n + j) && IsParsedEducation(r[j]) {
      assert r[j] == rest[j - 1];
    }
  }

  /** The entries read from line `i` on take the ids `newId(n)`,
      `newId(n + 1)`, ... in order, and each satisfies the parser's rules. */
  lemma {:induction false} EducationFromParsed(lines: seq<string>, i: nat, newId: nat -> string, n: nat)
    requires i <= |lines| && forall k :: 0 <= k < |lines| ==> IsLine(lines[k])
    ensures ParsedEducations(EducationFrom(lines, i, newId, n), newId, n)
    decreases |lines| - i
  {
    if i < |lines| {
      var (e, next) := EducationStep(lines, i, newId(n));
      if e.Some? {
        EducationFromParsed(lines, next, newId, n + 1);
        ParsedEducationsCons(e.value, EducationFrom(lines, next, newId, n + 1), newId, n);
      } else {
        EducationFromParsed(lines, next, newId, n);
      }
    }
  }

  /** The loop of `parseEducationSectionImproved` over the normalised
      lines. */
  method EducationEntries(lines: seq<string>, newId: nat -> string, first: nat) returns (entries: seq<EducationEntry>)
    requires forall k :: 0 <= k < |lines| ==> IsLine(lines[k])
    ensures entries == EducationFrom(lines, 0, newId, first)
    ensures ParsedEducations(entries, newId, first)
    ensures 2 * |entries| <= |lines|
  {
    entries := [];
    var i, n := 0, first;
    while i < |lines|
      invariant i <= |lines| && n == first + |entries|
      invariant entries + EducationFrom(lines, i, newId, n) == EducationFrom(lines, 0, newId, first)
      decreases |lines| - i
    {
      var e, next := ReadEducation(lines, i, newId(n));
      EducationFromStep(lines, i, newId, n, e, next);
      Consumed(entries, e, EducationFrom(lines, i, newId, n), EducationFrom(lines, next, newId, if e.Some? then n + 1 else n));
      entries, n := if e.Some? then entries + [e.value] else entries, if e.Some? then n + 1 else n;
      i := next;
    }
    EducationFromParsed(lines, 0, newId, first);
  }

  /** `parseEducationSectionImproved`: the entries read from the trimmed
      non-empty lines of the text. */
  method ParseEducation(text: string, newId: nat -> string, first: nat) returns (entries: seq<EducationEntry>)
    ensures entries == EducationFrom(NormalizeLines(text), 0, newId, first)
    ensures ParsedEducations(entries, newId, first)
    ensures 2 * |entries| <= |NormalizeLines(text)|
  {
    entries := EducationEntries(NormalizeLines(text), newId, first);
  }
  // ---------------------------------------------------------------------
  // Skills

  /** A skill as the parser stores it: non-empty, trimmed, without a comma. */
  predicate IsSkill(s: string) {
    s != [] && IsTrimmed(s) && ',' !in s
  }

  predicate AllSkills(skills: seq<string>) {
    forall j :: 0 <= j < |skills| ==> IsSkill(skills[j])
  }

  /** `text.split(",").map(s => s.trim()).filter(s => s.length > 0)`. */
  function SkillItems(text: string): (r: seq<string>)
    ensures AllSkills(r)
  {
    var parts := Split(text, ',');
    var trimmed := TrimAll(parts);
    forall i | 0 <= i < |parts| ensures ',' !in trimmed[i] {
      TrimKeeps(parts[i], ',');
    }
    Filter(NonBlank, trimmed)
  }

  /** One line of the skills section, `Category: a, b, c`: the category is
      the trimmed text before the first colon, which must not be the first
      character, and the skills are the non-empty comma-separated items
      after it; a line without any skill gives nothing. */
  function SkillLine(line: string): (r: Option<(string, seq<string>)>)
    ensures r.Some? ==> IsTrimmed(r.value.0) && ':' !in r.value.0
    ensures r.Some? ==> r.value.1 != [] && AllSkills(r.value.1)
    ensures r.Some? && IsLine(line) ==> r.value.0 != []
    ensures ':' !in line ==> r.None?
  {
    var c := IndexOf(line, ':');
    if c <= 0 then None
    else
      var items := SkillItems(Trim(line[c + 1..]));
      if items == [] then None
      else
        TrimKeeps(line[..c], ':');
        assert IsLine(line) ==> Trim(line[..c]) != [] by {
          if IsLine(line) {
            TrimNonEmpty(line[..c]);
          }
        }
        Some((Trim(line[..c]), items))
  }

  /** The pieces of `Join(skills, ", ")` between the commas. */
  function Indent(xs: seq<string>): (r: seq<string>)
    ensures |r| == |xs| && forall i :: 0 <= i < |xs| ==> r[i] == " " + xs[i]
  {
    seq(|xs|, i requires 0 <= i < |xs| => " " + xs[i])
  }

  lemma {:induction false} JoinIndent(xs: seq<string>)
    requires |xs| >= 1
    ensures Join(Indent(xs), ",") == " " + Join(xs, ", ")
    decreases |xs|
  {
    if |xs| > 1 {
      JoinIndent(xs[1..]);
      assert Indent(xs)[1..] == Indent(xs[1..]);
    }
  }

  lemma {:induction false} JoinTrimmed(parts: seq<string>, sep: string)
    requires |parts| >= 1 && forall i :: 0 <= i < |parts| ==> parts[i] != [] && IsTrimmed(parts[i])
    ensures Join(parts, sep) != [] && IsTrimmed(Join(parts, sep))
    decreases |parts|
  {
    if |parts| > 1 {
      JoinTrimmed(parts[1..], sep);
      var rest := Join(parts[1..], sep);
      assert Join(parts, sep)[|Join(parts, sep)| - 1] == rest[|rest| - 1];
    }
  }

  lemma TrimSpaced(x: string)
    requires x != [] && IsTrimmed(x)
    ensures Trim(" " + x) == x
  {
    var y := " " + x;
    assert y[1..] == x;
    TrimStartOfTrimmed(x);
    assert TrimStart(y) == x;
    TrimEndOfTrimmed(x);
  }

  lemma CommaSpace(a: string, j: string)
    ensures a + "," + (" " + j) == a + ", " + j
  {
    assert "," + " " == ", ";
    assert a + "," + (" " + j) == a + ("," + " ") + j;
  }

  lemma JoinPieces(skills: seq<string>)
    requires |skills| >= 1
    ensures Join([skills[0]] + Indent(skills[1..]), ",") == Join(skills, ", ")
  {
    if |skills| > 1 {
      var a, rest := skills[0], skills[1..];
      var j := Join(rest, ", ");
      JoinIndent(rest);
      JoinCons(a, Indent(rest), ",");
      assert Join([a] + Indent(rest), ",") == a + "," + (" " + j);
      CommaSpace(a, j);
      assert Join(skills, ", ") == a + ", " + j;
    }
  }

  lemma TrimPieces(skills: seq<string>)
    requires |skills| >= 1 && AllSkills(skills)
    ensures TrimAll([skills[0]] + Indent(skills[1..])) == skills
  {
    var pieces := [skills[0]] + Indent(skills[1..]);
    TrimOfTrimmed(skills[0]);
    forall i | 1 <= i < |skills| ensures Trim(pieces[i]) == skills[i] {
      TrimSpaced(skills[i]);
    }
  }

  /** The items of `a, b, c` are `a`, `b` and `c`. */
  lemma SkillItemsOfJoin(skills: seq<string>)
    requires skills != [] && AllSkills(skills)
    ensures SkillItems(Join(skills, ", ")) == skills
  {
    var pieces := [skills[0]] + Indent(skills[1..]);
    JoinPieces(skills);
    SplitJoin(pieces, ',');
    TrimPieces(skills);
    FilterAll(NonBlank, skills);
  }

  /** The first colon of `category: rest` is the one after the category. */
  lemma ColonAfter(category: string, rest: string, line: string)
    requires ':' !in category && line == category + ":" + rest
    ensures IndexOf(line, ':') == |category|
    ensures line[..|category|] == category && line[|category| + 1..] == rest
  {
    var c := IndexOf(line, ':');
    assert line[|category|] == ':';
    assert line[..|category|] == category;
  }

  /** A skills line laid out as `Category: a, b, c` reads back as its
      category and its skills. */
  lemma SkillLineRoundTrip(category: string, skills: seq<string>, line: string)
    requires category != [] && IsTrimmed(category) && ':' !in category
    requires skills != [] && AllSkills(skills)
    requires line == category + ": " + Join(skills, ", ")
    ensures SkillLine(line) == Some((category, skills))
  {
    var joined := Join(skills, ", ");
    assert line == category + ":" + (" " + joined);
    ColonAfter(category, " " + joined, line);
    JoinTrimmed(skills, ", ");
    TrimSpaced(joined);
    SkillItemsOfJoin(skills);
    TrimOfTrimmed(category);
  }

  /** The lines of a skills section that give an entry, read, in order. */
  function SkillRows(lines: seq<string>): (r: seq<(string, seq<string>)>)
    ensures |r| <= |lines|
  {
    if lines == [] then []
    else
      var last := SkillLine(lines[|lines| - 1]);
      SkillRows(lines[..|lines| - 1]) + (if last.Some? then [last.value] else [])
  }

  /** Every row comes from a line of the section. */
  lemma {:induction false} SkillRowsFromLines(lines: seq<string>, j: nat)
    requires j < |SkillRows(lines)|
    ensures exists k :: 0 <= k < |lines| && SkillLine(lines[k]) == Some(SkillRows(lines)[j])
    decreases |lines|
  {
    var init := lines[..|lines| - 1];
    if j < |SkillRows(init)| {
      SkillRowsFromLines(init, j);
      var k :| 0 <= k < |init| && SkillLine(init[k]) == Some(SkillRows(init)[j]);
      assert lines[k] == init[k];
    } else {
      assert SkillLine(lines[|lines| - 1]) == Some(SkillRows(lines)[j]);
    }
  }

  lemma LastSplit<T>(s: seq<T>)
    requires |s| > 0
    ensures s[..|s| - 1] + [s[|s| - 1]] == s
  {
  }

  /** Lines laid out as `Category: a, b, c` read back as their rows. */
  lemma {:induction false} SkillRowsRoundTrip(rows: seq<(string, seq<string>)>, lines: seq<string>)
    requires |lines| == |rows|
    requires forall j :: 0 <= j < |rows| ==> lines[j] == rows[j].0 + ": " + Join(rows[j].1, ", ")
    requires forall j :: 0 <= j < |rows| ==> rows[j].0 != [] && IsTrimmed(rows[j].0) && ':' !in rows[j].0
    requires forall j :: 0 <= j < |rows| ==> rows[j].1 != [] && AllSkills(rows[j].1)
    ensures SkillRows(lines) == rows
    decreases |rows|
  {
    if rows != [] {
      var n := |rows| - 1;
      SkillRowsRoundTrip(rows[..n], lines[..n]);
      SkillLineRoundTrip(rows[n].0, rows[n].1, lines[n]);
      SkillRowsSnoc(lines, n);
      assert lines[..n + 1] == lines;
      LastSplit(rows);
    }
  }

  /** Appending a line appends its row, if it gives one. */
  lemma SkillRowsSnoc(lines: seq<string>, i: nat)
    requires i < |lines|
    ensures SkillRows(lines[..i + 1]) == SkillRows(lines[..i]) + Row(SkillLine(lines[i]))
  {
    assert lines[..i + 1][..i] == lines[..i];
  }

  function Row(r: Option<(string, seq<string>)>): seq<(string, seq<string>)> {
    if r.Some? then [r.value] else []
  }

  /** The entries for the rows, with the ids `newId(first)`, `newId(first + 1)`, ... */
  function SkillsOf(rows: seq<(string, seq<string>)>, newId: nat -> string, first: nat): (r: seq<SkillsEntry>)
    ensures |r| == |rows|
    ensures forall j :: 0 <= j < |rows| ==> r[j] == SkillsEntry(newId(first + j), rows[j].0, rows[j].1)
  {
    seq(|rows|, j requires 0 <= j < |rows| => SkillsEntry(newId(first + j), rows[j].0, rows[j].1))
  }

  lemma SkillsOfSnoc(rows: seq<(string, seq<string>)>, row: (string, seq<string>), newId: nat -> string, first: nat)
    ensures SkillsOf(rows + [row], newId, first) == SkillsOf(rows, newId, first) + [SkillsEntry(newId(first + |rows|), row.0, row.1)]
  {
  }

  /** One iteration of the skills loop: the line at `i` adds its entry, if
      it gives one. */
  method ReadSkillLine(lines: seq<string>, i: nat, newId: nat -> string, first: nat, entries: seq<SkillsEntry>)
    returns (next: seq<SkillsEntry>)
    requires i < |lines| && entries == SkillsOf(SkillRows(lines[..i]), newId, first)
    ensures next == SkillsOf(SkillRows(lines[..i + 1]), newId, first)
  {
    SkillRowsSnoc(lines, i);
    var rows := SkillRows(lines[..i]);
    var row := SkillLine(lines[i]);
    next := entries;
    if row.Some? {
      assert SkillRows(lines[..i + 1]) == rows + [row.value];
      SkillsOfSnoc(rows, row.value, newId, first);
      next := entries + [SkillsEntry(newId(first + |rows|), row.value.0, row.value.1)];
    } else {
      assert SkillRows(lines[..i + 1]) == rows + [];
      assert rows + [] == rows;
    }
  }

  /** The loop of `parseSkillsSectionImproved` over the normalised lines:
      one entry per row, in order, with consecutive ids. */
  method SkillsEntries(lines: seq<string>, newId: nat -> string, first: nat) returns (entries: seq<SkillsEntry>)
    ensures entries == SkillsOf(SkillRows(lines), newId, first)
  {
    entries := [];
    for i := 0 to |lines|
      invariant entries == SkillsOf(SkillRows(lines[..i]), newId, first)
    {
      entries := ReadSkillLine(lines, i, newId, first, entries);
    }
    assert lines[..|lines|] == lines;
  }

  /** `parseSkillsSectionImproved`. */
  method ParseSkills(text: string, newId: nat -> string, first: nat) returns (entries: seq<SkillsEntry>)
    ensures entries == SkillsOf(SkillRows(NormalizeLines(text)), newId, first)
  {
    entries := SkillsEntries(NormalizeLines(text), newId, first);
  }

  // ---------------------------------------------------------------------
  // Custom sections

  /** The heading line of a custom entry, as read. */
  datatype CustomHead = CustomHead(title: string, subtitle: string, location: string, endDate: string)

  /** A heading line less a closing month-year, which the branch without
      ` by ` cuts off into the end date before it looks for a location. */
  function UndatedTitle(line: string): string {
    match MatchTrailingDate(line)
    case None => line
    case Some((before, _)) => Trim(before)
  }

  /** The end date of a heading: the closing month-year written as "Month
      Year", or nothing. (The closing-date test of the `by` branch has no
      leading group, but it finds the same month-year.) */
  function HeadingEndDate(line: string): (r: string)
    ensures r == [] || IsMonthYearText(r)
    ensures r == [] <==> MatchTrailingDate(line).None?
  {
    match MatchTrailingDate(line)
    case None => []
    case Some((_, my)) =>
      MonthYearTextShape(my);
      MonthYearText(my)
  }

  /** The heading of a custom entry. A line with ` by ` names a
      certification: the title is the text before it, the subtitle `by` and
      what follows, less a closing month-year. Otherwise the title is the
      line less a closing month-year, and then a city after a `|`, or else a
      city ending the title, is cut off into the location. In both cases the
      closing month-year is the end date. */
  function ReadCustomHeading(line: string): (h: CustomHead)
    ensures h.endDate == HeadingEndDate(line)
    ensures MatchBy(line).Some? ==> var bm := MatchBy(line).value;
      h.title == Trim(bm.0) && h.location == [] &&
      h.subtitle == (if h.endDate == [] then "by " + Trim(bm.1) else Trim(RemoveSuffix("by " + Trim(bm.1), h.endDate)))
    ensures MatchBy(line).None? ==> (
      var t := UndatedTitle(line);
      h.subtitle == [] &&
      (MatchPipeCity(t).Some? ==>
        h.title == Trim(MatchPipeCity(t).value.0) && h.location == Trim(MatchPipeCity(t).value.1)) &&
      (MatchPipeCity(t).None? && CitySuffix(false, t).Some? ==>
        h.title == Trim(CitySuffix(false, t).value.0) && h.location == CitySuffix(false, t).value.1) &&
      (MatchPipeCity(t).None? && CitySuffix(false, t).None? ==> h.title == t && h.location == []))
    ensures h.location == [] || IsCity(h.location, false)
    ensures IsTrimmed(line) ==> IsTrimmed(h.title)
  {
    var endDate := HeadingEndDate(line);
    match MatchBy(line)
    case Some((before, after)) =>
      var subtitle := "by " + Trim(after);
      CustomHead(Trim(before), if endDate == [] then subtitle else Trim(RemoveSuffix(subtitle, endDate)), [], endDate)
    case None =>
      var t := UndatedTitle(line);
      match MatchPipeCity(t)
      case Some((title, city)) =>
        CityTrimmed(city);
        TrimOfTrimmed(city);
        CustomHead(Trim(title), [], Trim(city), endDate)
      case None =>
        match CitySuffix(false, t)
        case Some((title, city)) => CustomHead(Trim(title), [], city, endDate)
        case None => CustomHead(t, [], [], endDate)
  }

  /** What every custom entry of the parser satisfies. */
  predicate IsParsedCustom(e: CustomEntry) {
    |e.title| > 2 && e.subtitle.Some? && e.location.Some? && e.startDate == Some("") && e.endDate.Some? &&
    (e.location.value == [] || IsCity(e.location.value, false)) &&
    (e.endDate.value == [] || IsMonthYearText(e.endDate.value)) && AllBullets(e.bullets)
  }

  /** One step of `parseCustomSectionImproved` at line `i`, as a value. */
  function CustomStep(lines: seq<string>, i: nat, id: string): (r: (Option<CustomEntry>, nat))
    requires i < |lines|
    ensures i < r.1 <= |lines|
    ensures r.0.Some? ==> r.0.value.id == id && IsParsedCustom(r.0.value)
  {
    if IsBulletLine(lines[i]) then (None, i + 1)
    else
      var h := ReadCustomHeading(lines[i]);
      var (bullets, next) := Scan(EndsCustom, true, lines, i + 1, "", []);
      ScanBullets(EndsCustom, true, lines, i + 1, "", []);
      (if |h.title| > 2 then Some(CustomEntry(id, h.title, Some(h.subtitle), Some(h.location), Some(""), Some(h.endDate), bullets)) else None, next)
  }

  /** One step of the loop, computed as `parseCustomSectionImproved` does
      it. */
  method ReadCustom(lines: seq<string>, i: nat, id: string) returns (e: Option<CustomEntry>, next: nat)
    requires i < |lines|
    ensures (e, next) == CustomStep(lines, i, id)
  {
    next := i + 1;
    e := None;
    if IsBulletLine(lines[i]) {
      return;
    }
    var h := ReadCustomHeading(lines[i]);
    var bullets;
    bullets, next := CollectBullets(EndsCustom, true, lines, i + 1);
    if |h.title| > 2 {
      e := Some(CustomEntry(id, h.title, Some(h.subtitle), Some(h.location), Some(""), Some(h.endDate), bullets));
    }
  }

  /** What one step reads: a bullet is skipped; any other line is a
      heading, the bullets under it are read whether or not the title turns
      out long enough to keep, and the entry, made of the heading's fields
      and those bullets, is kept exactly when its title has more than two
      characters. */
  lemma CustomStepReads(lines: seq<string>, i: nat, id: string)
    requires i < |lines|
    ensures var (e, next) := CustomStep(lines, i, id);
      (IsBulletLine(lines[i]) ==> e.None? && next == i + 1) &&
      (!IsBulletLine(lines[i]) ==> next == Scan(EndsCustom, true, lines, i + 1, "", []).1) &&
      (e.Some? <==> !IsBulletLine(lines[i]) && |ReadCustomHeading(lines[i]).title| > 2) &&
      (e.Some? ==> var h := ReadCustomHeading(lines[i]);
        e.value == CustomEntry(id, h.title, Some(h.subtitle), Some(h.location), Some(""), Some(h.endDate),
          Scan(EndsCustom, true, lines, i + 1, "", []).0))
  {
  }

  /** The entries the custom loop reads from line `i` on, the first of them
      with the id `newId(n)`. */
  function CustomFrom(lines: seq<string>, i: nat, newId: nat -> string, n: nat): (r: seq<CustomEntry>)
    requires i <= |lines|
    ensures |r| <= |lines| - i
    decreases |lines| - i
  {
    if i == |lines| then []
    else
      var (e, next) := CustomStep(lines, i, newId(n));
      if e.Some? then [e.value] + CustomFrom(lines, next, newId, n + 1)
      else CustomFrom(lines, next, newId, n)
  }

  /** The entries from line `i` on are the entry read at `i`, if any,
      followed by the entries from where that step stops. */
  lemma CustomFromStep(lines: seq<string>, i: nat, newId: nat -> string, n: nat, e: Option<CustomEntry>, next: nat)
    requires i < |lines|
    requires (e, next) == CustomStep(lines, i, newId(n))
    ensures CustomFrom(lines, i, newId, n) ==
      if e.Some? then [e.value] + CustomFrom(lines, next, newId, n + 1) else CustomFrom(lines, next, newId, n)
  {
  }

  /** Entries numbered from `n` that satisfy the parser's rules. */
  predicate ParsedCustoms(r: seq<CustomEntry>, newId: nat -> string, n: nat) {
    forall j :: 0 <= j < |r| ==> r[j].id == newId(n + j) && IsParsedCustom(r[j])
  }

  lemma ParsedCustomsCons(e: CustomEntry, rest: seq<CustomEntry>, newId: nat -> string, n: nat)
    requires e.id == newId(n) && IsParsedCustom(e) && ParsedCustoms(rest, newId, n + 1)
    ensures ParsedCustoms([e] + rest, newId, n)
  {
    var r := [e] + rest;
    forall j | 0 < j < |r| ensures r[j].id == newId(n + j) && IsParsedCustom(r[j]) {
      assert r[j] == rest[j - 1];
    }
  }

  /** The entries read from line `i` on take the ids `newId(n)`,
      `newId(n + 1)`, ... in order, and each satisfies the parser's rules. */
  lemma {:induction false} CustomFromParsed(lines: seq<string>, i: nat, newId: nat -> string, n: nat)
    requires i <= |lines|
    ensures ParsedCustoms(CustomFrom(lines, i, newId, n), newId, n)
    decreases |lines| - i
  {
    if i < |lines| {
      var (e, next) := CustomStep(lines, i, newId(n));
      if e.Some? {
        CustomFromParsed(lines, next, newId, n + 1);
        ParsedCustomsCons(e.value, CustomFrom(lines, next, newId, n + 1), newId, n);
      } else {
        CustomFromParsed(lines, next, newId, n);
      }
    }
  }

  /** The loop of `parseCustomSectionImproved` over the normalised lines. */
  method CustomEntries(lines: seq<string>, newId: nat -> string, first: nat) returns (entries: seq<CustomEntry>)
    ensures entries == CustomFrom(lines, 0, newId, first)
    ensures ParsedCustoms(entries, newId, first)
    ensures |entries| <= |lines|
  {
    entries := [];
    var i, n := 0, first;
    while i < |lines|
      invariant i <= |lines| && n == first + |entries|
      invariant entries + CustomFrom(lines, i, newId, n) == CustomFrom(lines, 0, newId, first)
      decreases |lines| - i
    {
      var e, next := ReadCustom(lines, i, newId(n));
      CustomFromStep(lines, i, newId, n, e, next);
      Consumed(entries, e, CustomFrom(lines, i, newId, n), CustomFrom(lines, next, newId, if e.Some? then n + 1 else n));
      entries, n := if e.Some? then entries + [e.value] else entries, if e.Some? then n + 1 else n;
      i := next;
    }
    CustomFromParsed(lines, 0, newId, first);
  }

  /** `parseCustomSectionImproved`: the entries read from the trimmed
      non-empty lines of the text. */
  method ParseCustom(text: string, newId: nat -> string, first: nat) returns (entries: seq<CustomEntry>)
    ensures entries == CustomFrom(NormalizeLines(text), 0, newId, first)
    ensures ParsedCustoms(entries, newId, first)
    ensures |entries| <= |NormalizeLines(text)|
  {
    entries := CustomEntries(NormalizeLines(text), newId, first);
  }
}

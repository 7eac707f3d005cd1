/** The form-validation rules: the date and phone predicates, the start/end
    order refinements and the minimum-length rules of the entry schemas. */
module Validation {
  import opened JsString
  import opened ResumeModel
  import opened Wrappers

  /** `/^\d{4}-(0[1-9]|1[0-2])$/`: four digits, a dash and a month 01..12,
      and nothing else (the pattern has no `m` flag, so `$` is the end). */
  predicate IsYearMonth(s: string) {
    && |s| == 7
    && IsDigit(s[0]) && IsDigit(s[1]) && IsDigit(s[2]) && IsDigit(s[3])
    && s[4] == '-'
    && ((s[5] == '0' && '1' <= s[6] <= '9') || (s[5] == '1' && '0' <= s[6] <= '2'))
  }

  /** `val.toLowerCase() === "present"`. */
  predicate IsPresent(s: string) {
    EqualsIgnoreCase(s, "present")
  }

  /** The date rule: any-case "present", or `YYYY-MM` with a month 01..12. */
  predicate IsValidDate(s: string) {
    IsPresent(s) || IsYearMonth(s)
  }

  /** The characters the phone rule removes before counting digits:
      `[\s\-\(\)\.]`. */
  predicate IsPhoneFiller(c: char) {
    IsSpace(c) || c == '-' || c == '(' || c == ')' || c == '.'
  }

  predicate KeptInPhone(c: char) {
    !IsPhoneFiller(c)
  }

  /** `val.replace(/[\s\-\(\)\.]/g, "")`. */
  function StripPhoneFiller(s: string): (r: string)
    ensures |r| <= |s|
    ensures forall i :: 0 <= i < |r| ==> !IsPhoneFiller(r[i]) && r[i] in s
  {
    Filter(KeptInPhone, s)
  }

  /** The phone rule: after removing fillers, exactly 10 or 11 digits remain. */
  predicate IsValidPhone(s: string) {
    var cleaned := StripPhoneFiller(s);
    10 <= |cleaned| <= 11 && AllDigits(cleaned)
  }

  /** A `+` is not a filler, so a phone written with a country-code plus
      never passes. */
  lemma PlusFailsPhone(s: string)
    requires '+' in s
    ensures !IsValidPhone(s)
  {
    FilterMembership(KeptInPhone, s, '+');
    var cleaned := StripPhoneFiller(s);
    var k :| 0 <= k < |cleaned| && cleaned[k] == '+';
    assert !IsDigit(cleaned[k]);
  }

  /** Removing fillers keeps exactly the non-filler characters, so a string
      of 10 or 11 digits decorated with fillers anywhere passes. */
  lemma DecoratedDigitsPass(digits: string, decorated: string)
    requires 10 <= |digits| <= 11 && AllDigits(digits)
    requires StripPhoneFiller(decorated) == digits
    ensures IsValidPhone(decorated)
  {
  }

  /** Fillers placed between the pieces of a phone number vanish: stripping
      distributes over concatenation and removes a filler-only piece. */
  lemma StripAroundFiller(a: string, filler: string, b: string)
    requires forall i :: 0 <= i < |filler| ==> IsPhoneFiller(filler[i])
    ensures StripPhoneFiller(a + filler + b) == StripPhoneFiller(a) + StripPhoneFiller(b)
  {
    FilterAppend(KeptInPhone, a + filler, b);
    FilterAppend(KeptInPhone, a, filler);
    FilterNone(KeptInPhone, filler);
  }

  /** `data.endDate.toLowerCase() === "present" || data.startDate <= data.endDate`:
      the experience refinement. */
  predicate ExperienceDatesOrdered(startDate: string, endDate: string) {
    IsPresent(endDate) || LexLessOrEqual(startDate, endDate)
  }

  /** `data.startDate <= data.endDate`: the education refinement, with no
      exception for "Present". */
  predicate EducationDatesOrdered(startDate: string, endDate: string) {
    LexLessOrEqual(startDate, endDate)
  }

  function DigitValue(c: char): nat
    requires IsDigit(c)
  {
    c as int - '0' as int
  }

  function Pow10(n: nat): (p: nat)
    ensures p >= 1
  {
    if n == 0 then 1 else 10 * Pow10(n - 1)
  }

  /** The number a string of decimal digits denotes. */
  function DigitsValue(s: string): (v: nat)
    requires AllDigits(s)
    ensures v < Pow10(|s|)
  {
    if s == [] then 0 else 10 * DigitsValue(s[..|s| - 1]) + DigitValue(s[|s| - 1])
  }

  /** The year of a `YYYY-MM` date. */
  function Year(s: string): nat
    requires IsYearMonth(s)
  {
    DigitsValue(s[..4])
  }

  /** The month of a `YYYY-MM` date, 1..12. */
  function Month(s: string): (m: nat)
    requires IsYearMonth(s)
    ensures 1 <= m <= 12
  {
    var mm := s[5..];
    assert mm[..1][..0] == [] && mm[..1][0] == s[5];
    assert DigitsValue(mm[..1]) == DigitValue(s[5]);
    assert DigitsValue(mm) == 10 * DigitValue(s[5]) + DigitValue(s[6]);
    DigitsValue(mm)
  }

  /** Among digit strings of one length, the string order is the numeric one. */
  lemma {:induction false} DigitsOrder(a: string, b: string)
    requires |a| == |b| && AllDigits(a) && AllDigits(b)
    ensures LexLessOrEqual(a, b) <==> DigitsValue(a) <= DigitsValue(b)
    decreases |a|
  {
    if a != [] {
      var n := |a| - 1;
      var a', b' := a[..n], b[..n];
      assert a == a' + [a[n]] && b == b' + [b[n]];
      LexOfConcat(a', [a[n]], b', [b[n]]);
      DigitsOrder(a', b');
      DigitsOrder(b', a');
      if a' != b' && DigitsValue(a') == DigitsValue(b') {
        LexAntisymmetric(a', b');
      }
    }
  }

  /** Comparing two strings that share a prefix length compares the prefixes
      first and the rests only on a tie. */
  lemma {:induction false} LexOfConcat(a1: string, a2: string, b1: string, b2: string)
    requires |a1| == |b1|
    ensures LexLessOrEqual(a1 + a2, b1 + b2)
        <==> (a1 != b1 && LexLessOrEqual(a1, b1)) || (a1 == b1 && LexLessOrEqual(a2, b2))
  {
    if a1 == [] {
      assert a1 + a2 == a2 && b1 + b2 == b2;
    } else {
      assert (a1 + a2)[1..] == a1[1..] + a2 && (b1 + b2)[1..] == b1[1..] + b2;
      LexOfConcat(a1[1..], a2, b1[1..], b2);
      if a1[0] == b1[0] {
        assert a1 == b1 <==> a1[1..] == b1[1..] by {
          assert a1 == [a1[0]] + a1[1..] && b1 == [b1[0]] + b1[1..];
        }
      }
    }
  }

  /** For valid `YYYY-MM` dates the string comparison the refinements use is
      the chronological order. */
  lemma LexOrderIsChronological(a: string, b: string)
    requires IsYearMonth(a) && IsYearMonth(b)
    ensures LexLessOrEqual(a, b)
        <==> Year(a) < Year(b) || (Year(a) == Year(b) && Month(a) <= Month(b))
  {
    LexYearThenMonth(a, b);
    YearMonthParts(a);
    YearMonthParts(b);
    DigitsOrder(a[..4], b[..4]);
    DigitsOrder(a[5..], b[5..]);
    DigitsOrder(b[..4], a[..4]);
    if a[..4] != b[..4] {
      if DigitsValue(a[..4]) == DigitsValue(b[..4]) {
        LexAntisymmetric(a[..4], b[..4]);
      }
    } else {
      assert Year(a) == Year(b);
    }
  }

  /** A `YYYY-MM` date is four year digits, a dash and two month digits. */
  lemma YearMonthParts(a: string)
    requires IsYearMonth(a)
    ensures AllDigits(a[..4]) && AllDigits(a[5..]) && |a[5..]| == 2
    ensures Year(a) == DigitsValue(a[..4]) && Month(a) == DigitsValue(a[5..])
  {
  }

  /** Two `YYYY-MM` dates compare by their year digits, and by their month
      digits on a tie. */
  lemma LexYearThenMonth(a: string, b: string)
    requires IsYearMonth(a) && IsYearMonth(b)
    ensures LexLessOrEqual(a, b)
        <==> (a[..4] != b[..4] && LexLessOrEqual(a[..4], b[..4])) || (a[..4] == b[..4] && LexLessOrEqual(a[5..], b[5..]))
  {
    assert a == a[..4] + a[4..] && b == b[..4] + b[4..];
    SuffixCons(a, 4);
    SuffixCons(b, 4);
    LexOfConcat(a[..4], a[4..], b[..4], b[4..]);
    LexOfConcat([a[4]], a[5..], [b[4]], b[5..]);
  }

  lemma {:induction false} LexAntisymmetric(a: string, b: string)
    requires LexLessOrEqual(a, b) && LexLessOrEqual(b, a)
    ensures a == b
  {
    if a != [] && b != [] {
      LexAntisymmetric(a[1..], b[1..]);
      assert a == [a[0]] + a[1..] && b == [b[0]] + b[1..];
    }
  }

  /** Digits sort before letters, so every `YYYY-MM` start date passes the
      education refinement against a "Present" end date, and a "Present"
      start date fails both refinements against a `YYYY-MM` end date. */
  lemma PresentSortsLast(ym: string, present: string)
    requires IsYearMonth(ym) && IsPresent(present)
    ensures EducationDatesOrdered(ym, present) && ExperienceDatesOrdered(ym, present)
    ensures !EducationDatesOrdered(present, ym) && !ExperienceDatesOrdered(present, ym)
  {
    assert LowerChar(present[0]) == 'p';
    assert IsAsciiLetter(present[0]);
  }

  /** `name: z.string().min(2)`, `label`/`url`: `min(1)`; the e-mail rule is
      a library check and is not part of this predicate. */
  predicate ValidHeader(h: Header) {
    && |h.name| >= 2
    && IsValidPhone(h.phone)
    && forall i :: 0 <= i < |h.links| ==> |h.links[i].labelText| >= 1 && |h.links[i].url| >= 1
  }

  predicate ValidExperience(e: ExperienceEntry) {
    && |e.company| >= 1 && |e.role| >= 1 && |e.location| >= 1
    && IsValidDate(e.startDate) && IsValidDate(e.endDate)
    && ExperienceDatesOrdered(e.startDate, e.endDate)
  }

  predicate ValidEducation(e: EducationEntry) {
    && |e.institution| >= 1 && |e.degree| >= 1 && |e.location| >= 1
    && IsValidDate(e.startDate) && IsValidDate(e.endDate)
    && EducationDatesOrdered(e.startDate, e.endDate)
  }

  predicate ValidOptionalDate(d: Option<string>) {
    d.None? || IsValidDate(d.value)
  }

  predicate ValidProject(e: ProjectEntry) {
    && |e.name| >= 1 && |e.technologies| >= 1
    && ValidOptionalDate(e.startDate) && ValidOptionalDate(e.endDate)
  }

  predicate ValidSkills(e: SkillsEntry) {
    |e.category| >= 1 && |e.skills| >= 1
  }

  /** The section rule: a non-empty title (the tag is one of the five by
      construction, and the entries are not checked). */
  predicate ValidSection(s: Section) {
    |s.title| >= 1
  }

  predicate ValidResume(r: Resume) {
    ValidHeader(r.header) && forall i :: 0 <= i < |r.sections| ==> ValidSection(r.sections[i])
  }

  /** A "present" end date passes the experience refinement whatever the
      start date; otherwise the refinement is the string order. */
  lemma ExperienceOrderCases(startDate: string, endDate: string)
    ensures IsPresent(endDate) ==> ExperienceDatesOrdered(startDate, endDate)
    ensures !IsPresent(endDate) ==>
      (ExperienceDatesOrdered(startDate, endDate) <==> EducationDatesOrdered(startDate, endDate))
  {
  }

  /** The dates an entry carries, leaving out absent optional ones. */
  function EntryDates(e: Entry): seq<string> {
    match e
    case ExperienceItem(x) => [x.startDate, x.endDate]
    case EducationItem(x) => [x.startDate, x.endDate]
    case ProjectItem(x) => OptionalDates(x.startDate, x.endDate)
    case SkillsItem(_) => []
    case CustomItem(x) => OptionalDates(x.startDate, x.endDate)
  }

  function OptionalDates(a: Option<string>, b: Option<string>): seq<string> {
    (if a.Some? then [a.value] else []) + (if b.Some? then [b.value] else [])
  }

  /** Every date the entry carries is blank or passes the date rule. */
  predicate EntryDatesValidOrBlank(e: Entry) {
    forall k :: 0 <= k < |EntryDates(e)| ==> EntryDates(e)[k] == "" || IsValidDate(EntryDates(e)[k])
  }

  /** Every date of every entry is blank or passes the date rule. */
  predicate DatesValidOrBlank(r: Resume) {
    forall i, j :: 0 <= i < |r.sections| && 0 <= j < |r.sections[i].entries| ==>
      EntryDatesValidOrBlank(r.sections[i].entries[j])
  }
}

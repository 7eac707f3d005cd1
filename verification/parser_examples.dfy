/** The worked example of the experience parser, proved step by step: the
    company line "Acme Corp Mumbai", the role line "Engineer Jan 2020 –
    Present" and the bullet "• Built thing" give one entry at Acme Corp in
    Mumbai. Each pattern is evaluated on its line by small lemmas that keep
    the literal lines out of the general ones. */
module ParserExamples {
  import opened Wrappers
  import opened JsString
  import opened RegexSearch
  import opened LinePatterns
  import opened ResumeModel
  import opened SectionParsers

  /** No word of the alternation matches at `k`: then the alternation does
      not match there. */
  lemma {:induction false} WordAtNone(words: seq<string>, s: string, k: nat, atEnd: bool)
    requires forall i :: 0 <= i < |words| ==>
      !(k + |words[i]| <= |s| && (atEnd ==> k + |words[i]| == |s|) && EqualsIgnoreCase(s[k..k + |words[i]|], words[i]))
    ensures WordAt(words, s, k, atEnd).None?
    decreases |words|
  {
    if words != [] {
      WordAtNone(words[1..], s, k, atEnd);
    }
  }

  /** The cities an experience line may end with. */
  lemma CityWordsRemote()
    ensures CityWords(true) == ["Mumbai", "Pune", "Delhi", "Bangalore", "Hyderabad", "Chennai", "Kolkata", "Remote"]
  {
  }

  /** No city ends the company line from a start before "Mumbai". */
  lemma NoCityEndsAt(s: string, j: nat)
    requires s == "Acme Corp Mumbai" && j < 10
    ensures WordAt(CityWords(true), s, j, true).None?
  {
    CityWordsRemote();
    var words := CityWords(true);
    forall i | 0 <= i < |words| && j + |words[i]| == |s|
      ensures !EqualsIgnoreCase(s[j..j + |words[i]|], words[i])
    {
      assert j == 7 || j == 9;
      assert LowerChar(s[j]) != LowerChar(words[i][0]);
    }
    WordAtNone(words, s, j, true);
  }

  /** "Mumbai" ends the company line. */
  lemma MumbaiAtEnd(s: string)
    requires s == "Acme Corp Mumbai"
    ensures WordAt(CityWords(true), s, 10, true) == Some("Mumbai")
  {
    CityWordsRemote();
    assert s[10..16] == "Mumbai";
  }

  /** The leftmost match of a word at the end is the one after positions
      where none matches. */
  lemma WordEndAt(words: seq<string>, s: string, k: nat, w: string)
    requires k <= |s| && WordAt(words, s, k, true) == Some(w)
    requires forall j :: 0 <= j < k ==> WordAt(words, s, j, true).None?
    ensures WordEnd(words, s) == Some((k, w))
  {
  }

  /** The company line splits into the company and its city. */
  lemma CompanyLine(s: string)
    requires s == "Acme Corp Mumbai"
    ensures CitySuffix(true, s) == Some(("Acme Corp ", "Mumbai"))
  {
    var words := CityWords(true);
    MumbaiAtEnd(s);
    forall j | 0 <= j < 10 ensures WordAt(words, s, j, true).None? {
      NoCityEndsAt(s, j);
    }
    WordEndAt(words, s, 10, "Mumbai");
    assert s[..10] == "Acme Corp ";
    AcmeNoBreak();
    LineStartZero(s, 10);
  }

  /** The company is on one line. */
  lemma AcmeNoBreak()
    ensures NoLineBreak("Acme Corp ")
  {
  }

  /** A lazy group ending at `k` with no line terminator before `k` starts
      at the start of the text. */
  lemma {:induction false} LineStartZero(s: string, k: nat)
    requires k <= |s| && NoLineBreak(s[..k])
    ensures LineStart(s, k) == 0
  {
    if k > 0 {
      assert s[k - 1] == s[..k][k - 1];
      assert s[..k - 1] == s[..k][..k - 1];
      LineStartZero(s, k - 1);
    }
  }

  /** The leftmost match from `from` is at `k` when `tail` matches there
      and nowhere before. */
  lemma FirstFromAt<T>(tail: (string, nat) -> Option<T>, s: string, from: nat, limit: nat, k: nat, v: T)
    requires from <= k <= limit && tail(s, k) == Some(v)
    requires forall j :: from <= j < k ==> tail(s, j).None?
    ensures FirstFrom(tail, s, from, limit) == Some((k, v))
  {
  }

  /** No month word starts inside "Engineer ". */
  lemma NoMonthAt(s: string, j: nat)
    requires s == "Engineer Jan 2020 \U{2013} Present" && j < 9
    ensures WordAt(Months, s, j, false).None?
  {
    forall i | 0 <= i < |Months|
      ensures !EqualsIgnoreCase(s[j..j + |Months[i]|], Months[i])
    {
      assert LowerChar(s[j]) != LowerChar(Months[i][0]) || LowerChar(s[j + 1]) != LowerChar(Months[i][1]);
    }
    WordAtNone(Months, s, j, false);
  }

  lemma NoRoleDateBefore(s: string)
    requires s == "Engineer Jan 2020 \U{2013} Present"
    ensures forall j :: 0 <= j < 9 ==> RoleDateTail(s, j).None?
  {
    forall j | 0 <= j < 9 ensures RoleDateTail(s, j).None? {
      NoMonthAt(s, j);
    }
  }

  /** A run of exactly one white-space character. */
  lemma OneSpace(s: string, k: nat)
    requires k < |s| && IsSpace(s[k]) && (k + 1 == |s| || !IsSpace(s[k + 1]))
    ensures SpaceRun(s, k) == k + 1
  {
  }

  /** "Jan 2020" is the month-year at 9. */
  lemma JanAt(s: string)
    requires s == "Engineer Jan 2020 \U{2013} Present"
    ensures MonthYearAt(s, 9) == Some(MonthYear("Jan", "2020", 17))
  {
    assert s[9..12] == "Jan";
    assert WordAt(Months, s, 9, false) == Some("Jan");
    OneSpace(s, 12);
    assert s[13..17] == "2020";
  }

  /** The month-year at 9 is followed by the dash, and "Present" ends the
      line. */
  lemma RoleDateAt(s: string)
    requires s == "Engineer Jan 2020 \U{2013} Present"
    ensures RoleDateTail(s, 9) == Some((MonthYear("Jan", "2020", 17), 20))
  {
    JanAt(s);
    OneSpace(s, 17);
    OneSpace(s, 19);
    PresentNoBreak(s);
  }

  /** What follows the dash. */
  lemma PresentNoBreak(s: string)
    requires s == "Engineer Jan 2020 \U{2013} Present"
    ensures s[20..] == "Present" && NoLineBreak(s[20..])
  {
    assert s[20..] == "Present";
  }

  /** The role line is one line and starts with the role. */
  lemma RoleNoBreak(s: string)
    requires s == "Engineer Jan 2020 \U{2013} Present"
    ensures NoLineBreak(s) && s[..9] == "Engineer "
  {
  }

  /** A text without line terminators is one line. */
  lemma FirstBreakAll(s: string)
    requires NoLineBreak(s)
    ensures FirstBreak(s) == |s|
  {
  }

  /** The role line matches at the first month-year followed by a dash. */
  lemma MatchRoleDateAt(s: string, k: nat, my: MonthYear, h: nat)
    requires NoLineBreak(s) && k <= |s| && RoleDateTail(s, k) == Some((my, h))
    requires forall j :: 0 <= j < k ==> RoleDateTail(s, j).None?
    ensures MatchRoleDate(s) == Some(RoleDate(s[..k], my, s[h..]))
  {
    FirstBreakAll(s);
    FirstFromAt(RoleDateTail, s, 0, |s|, k, (my, h));
  }

  /** The role line splits into the role, the start and the end part. */
  lemma RoleLine(s: string)
    requires s == "Engineer Jan 2020 \U{2013} Present"
    ensures MatchRoleDate(s) == Some(RoleDate("Engineer ", MonthYear("Jan", "2020", 17), "Present"))
  {
    RoleNoBreak(s);
    NoRoleDateBefore(s);
    RoleDateAt(s);
    MatchRoleDateAt(s, 9, MonthYear("Jan", "2020", 17), 20);
  }

  /** A string with white space at neither end is its own trim. */
  lemma TrimmedTrim(s: string)
    requires IsTrimmed(s)
    ensures Trim(s) == s
  {
  }

  /** One trailing white-space character is all a trim removes from a
      string that does not start with white space. */
  lemma TrimOneTrailing(s: string)
    requires |s| >= 2 && !IsSpace(s[0]) && IsSpace(s[|s| - 1]) && !IsSpace(s[|s| - 2])
    ensures Trim(s) == s[..|s| - 1]
  {
    assert TrimStart(s) == s;
    assert TrimEnd(s[..|s| - 1]) == s[..|s| - 1];
  }

  /** The head read from two lines, in terms of what the two patterns
      match. */
  lemma HeadFrom(companyLine: string, roleLine: string, company: string, location: string, rd: RoleDate)
    requires CitySuffix(true, companyLine) == Some((company, location))
    requires MatchRoleDate(roleLine) == Some(rd)
    ensures ReadExperienceHead(companyLine, roleLine) ==
      Some(ExperienceHead(Trim(company), Trim(rd.role), location, MonthYearText(rd.start), EndDate(Trim(rd.endPart))))
  {
  }

  /** The trims of the example's pieces. */
  lemma TrimmedWords(c: string, r: string, p: string)
    requires c == "Acme Corp " && r == "Engineer " && p == "Present"
    ensures Trim(c) == "Acme Corp" && Trim(r) == "Engineer" && Trim(p) == "Present"
  {
    TrimOneTrailing(c);
    TrimOneTrailing(r);
    TrimmedTrim(p);
  }

  /** The example's dates as the parser writes them. */
  lemma DatesText(my: MonthYear, p: string)
    requires my == MonthYear("Jan", "2020", 17) && p == "Present"
    ensures MonthYearText(my) == "Jan 2020" && EndDate(p) == "Present"
  {
  }

  /** The two head lines of the example give its company, role, city and
      dates; `c` and `rd` are what the two patterns match. */
  lemma HeadExample(company: string, role: string, c: string, rd: RoleDate)
    requires company == "Acme Corp Mumbai" && role == "Engineer Jan 2020 \U{2013} Present"
    requires c == "Acme Corp " && rd == RoleDate("Engineer ", MonthYear("Jan", "2020", 17), "Present")
    ensures ReadExperienceHead(company, role) == Some(ExperienceHead("Acme Corp", "Engineer", "Mumbai", "Jan 2020", "Present"))
  {
    CompanyLine(company);
    RoleLine(role);
    HeadFrom(company, role, c, "Mumbai", rd);
    TrimmedWords(c, rd.role, rd.endPart);
    DatesText(rd.start, Trim(rd.endPart));
  }

  /** The bullet line's text. */
  lemma BuiltThing(line: string, b: string)
    requires line == "\U{2022} Built thing" && b == "Built thing"
    ensures BulletText(line) == b && Trim(b) == b
  {
    OneSpace(line, 1);
    assert line[2..] == b;
    TrimmedTrim(b);
  }

  /** A last line that is a bullet is the loop's one bullet. */
  lemma ScanLastBullet(stop: string -> bool, repeat: bool, lines: seq<string>, i: nat)
    requires i + 1 == |lines| && IsBulletLine(lines[i]) && BulletText(lines[i]) != ""
    ensures Scan(stop, repeat, lines, i, "", []) == ([Trim(BulletText(lines[i]))], i + 1)
  {
    var b := BulletText(lines[i]);
    assert Scan(stop, repeat, lines, i, "", []) == Scan(stop, repeat, lines, i + 1, b, Flush([], ""));
    assert Scan(stop, repeat, lines, i + 1, b, []) == (Flush([], b), i + 1);
    assert Flush([], b) == [] + [Trim(b)] == [Trim(b)];
  }

  /** The bullet loop after the head lines collects the one bullet. */
  lemma BulletScan(lines: seq<string>, b: string)
    requires |lines| == 3 && lines[2] == "\U{2022} Built thing" && b == "Built thing"
    ensures Scan(EndsExperience, false, lines, 2, "", []) == ([b], 3)
  {
    BuiltThing(lines[2], b);
    ScanLastBullet(EndsExperience, false, lines, 2);
  }

  /** The example of the experience parser: a company line ending with a
      city, a role line with a date range, and one bullet give one entry. */
  lemma ExperienceExample(lines: seq<string>, newId: nat -> string, n: nat)
    requires lines == ["Acme Corp Mumbai", "Engineer Jan 2020 \U{2013} Present", "\U{2022} Built thing"]
    ensures ExperienceFrom(lines, 0, newId, n) ==
      [ExperienceEntry(newId(n), "Acme Corp", "Engineer", "Mumbai", "Jan 2020", "Present", ["Built thing"])]
  {
    HeadExample(lines[0], lines[1], "Acme Corp ", RoleDate("Engineer ", MonthYear("Jan", "2020", 17), "Present"));
    BulletScan(lines, "Built thing");
    var (e, next) := ExperienceStep(lines, 0, newId(n));
    ExperienceFromStep(lines, 0, newId, n, e, next);
  }

  /** The example's lines are trimmed, non-empty and single lines. */
  lemma ExampleLines(lines: seq<string>)
    requires lines == ["Acme Corp Mumbai", "Engineer Jan 2020 \U{2013} Present", "\U{2022} Built thing"]
    ensures forall i :: 0 <= i < |lines| ==> IsLine(lines[i])
  {
    forall i | 0 <= i < |lines| ensures IsLine(lines[i]) {
      assert '\n' !in lines[i];
    }
  }

  /** The same example as the text `parseExperienceSectionImproved`
      receives: the three lines joined by line feeds. */
  lemma ParseExperienceExample(lines: seq<string>, newId: nat -> string, n: nat)
    requires lines == ["Acme Corp Mumbai", "Engineer Jan 2020 \U{2013} Present", "\U{2022} Built thing"]
    ensures ExperienceFrom(NormalizeLines(Join(lines, "\n")), 0, newId, n) ==
      [ExperienceEntry(newId(n), "Acme Corp", "Engineer", "Mumbai", "Jan 2020", "Present", ["Built thing"])]
  {
    ExampleLines(lines);
    NormalizeJoin(lines);
    ExperienceExample(lines, newId, n);
  }
}

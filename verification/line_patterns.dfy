/** The regular expressions the section parsers apply to one line of PDF
    text, each as an explicit search with JavaScript's matching order. All
    of them carry the `/i` flag except the bullet glyph and the end-date
    suffix. */
module LinePatterns {
  import opened Wrappers
  import opened JsString
  import opened RegexSearch

  /** The alternation `(Jan|Feb|...|Dec)`. */
  const Months: seq<string> := ["Jan", "Feb", "Mar", "Apr", "May", "Jun", "Jul", "Aug", "Sep", "Oct", "Nov", "Dec"]

  /** The seven cities of the education and custom patterns. */
  const Cities: seq<string> := ["Mumbai", "Pune", "Delhi", "Bangalore", "Hyderabad", "Chennai", "Kolkata"]

  /** The experience patterns also accept `Remote`. */
  const CitiesOrRemote: seq<string> := Cities + ["Remote"]

  predicate IsMonthWord(m: string) {
    IsWordOf(Months, m)
  }

  /** The cities a pattern accepts. */
  function CityWords(withRemote: bool): seq<string> {
    if withRemote then CitiesOrRemote else Cities
  }

  predicate IsCity(c: string, withRemote: bool) {
    IsWordOf(CityWords(withRemote), c)
  }

  /** `(Jan|...|Dec)\s+(\d{4})` matched at `k`: the month and the year as
      written, and where the match ends. */
  datatype MonthYear = MonthYear(month: string, year: string, end: nat)

  /** The month-year pattern over a given month alternation. */
  function MonthYearIn(months: seq<string>, s: string, k: nat): (r: Option<MonthYear>)
    ensures r.Some? ==> OccursAt(s, r.value.month, k) && IsWordOf(months, r.value.month)
    ensures r.Some? ==> |r.value.year| == 4 && AllDigits(r.value.year) && 4 <= r.value.end <= |s|
    ensures r.Some? ==> OccursAt(s, r.value.year, r.value.end - 4)
  {
    match WordAt(months, s, k, false)
    case None => None
    case Some(month) =>
      var d := SpaceRun(s, k + |month|);
      if d > k + |month| && d + 4 <= |s| && AllDigits(s[d..d + 4]) then Some(MonthYear(month, s[d..d + 4], d + 4))
      else None
  }

  function MonthYearAt(s: string, k: nat): (r: Option<MonthYear>)
    ensures r.Some? ==> IsMonthWord(r.value.month) && OccursAt(s, r.value.month, k)
    ensures r.Some? ==> |r.value.year| == 4 && AllDigits(r.value.year) && 4 <= r.value.end <= |s|
    ensures r.Some? ==> OccursAt(s, r.value.year, r.value.end - 4)
  {
    MonthYearIn(Months, s, k)
  }

  /** The same, followed by `$`. */
  function MonthYearEndAt(s: string, k: nat): (r: Option<MonthYear>)
    ensures r.Some? ==> r.value.end == |s| && MonthYearAt(s, k) == r
    ensures r.Some? ==> IsMonthWord(r.value.month) && |r.value.year| == 4 && AllDigits(r.value.year)
  {
    match MonthYearAt(s, k)
    case Some(my) => if my.end == |s| then Some(my) else None
    case None => None
  }

  /** "Month Year", as the parsers write a date they found. */
  function MonthYearText(my: MonthYear): string {
    my.month + " " + my.year
  }

  /** A date as the parsers write it: a month word, one space and four
      digits. */
  predicate IsMonthYearText(t: string) {
    |t| >= 5 && IsMonthWord(t[..|t| - 5]) && t[|t| - 5] == ' ' && AllDigits(t[|t| - 4..])
  }

  lemma MonthYearTextShape(my: MonthYear)
    requires IsMonthWord(my.month) && |my.year| == 4 && AllDigits(my.year)
    ensures IsMonthYearText(MonthYearText(my))
  {
    var t := MonthYearText(my);
    assert t[..|t| - 5] == my.month && t[|t| - 4..] == my.year;
  }

  /** `Remote` is not one of the seven cities, so the education and custom
      patterns never yield it. */
  lemma CityNotRemote(c: string)
    requires IsCity(c, false)
    ensures !EqualsIgnoreCase(c, "Remote")
  {
    IsWordOfIff(Cities, c);
    var w :| w in Cities && EqualsIgnoreCase(c, w);
    if |c| == 6 {
      assert w == "Mumbai";
      assert LowerChar(c[0]) == 'm';
    }
  }

  /** A city as matched has no white space at its ends, so trimming it
      changes nothing. */
  lemma CityTrimmed(c: string)
    requires IsCity(c, false)
    ensures IsTrimmed(c) && c != []
  {
    WordOfLettersTrimmed(Cities, c);
  }

  /** A word matched from an alternation of words that begin and end with a
      letter begins and ends with a letter too. */
  lemma {:induction false} WordOfLettersTrimmed(words: seq<string>, m: string)
    requires forall i :: 0 <= i < |words| ==> |words[i]| > 0 && IsAsciiLetter(words[i][0]) && IsAsciiLetter(words[i][|words[i]| - 1])
    requires IsWordOf(words, m)
    ensures IsTrimmed(m) && m != []
    decreases |words|
  {
    if EqualsIgnoreCase(m, words[0]) {
      var w := words[0];
      assert LowerChar(m[0]) == LowerChar(w[0]) && LowerChar(m[|m| - 1]) == LowerChar(w[|w| - 1]);
    } else {
      WordOfLettersTrimmed(words[1..], m);
    }
  }

  // ---------------------------------------------------------------------
  // Cities

  /** Where an alternation of words followed by `$` first matches. */
  function WordEnd(words: seq<string>, s: string): (r: Option<(nat, string)>)
    ensures r.Some? ==> r.value.0 <= |s| && WordAt(words, s, r.value.0, true) == Some(r.value.1)
    ensures r.Some? ==> forall j :: 0 <= j < r.value.0 ==> WordAt(words, s, j, true).None?
    ensures r.None? ==> forall j :: 0 <= j <= |s| ==> WordAt(words, s, j, true).None?
  {
    var tail := (t: string, k: nat) => WordAt(words, t, k, true);
    assert forall j: nat :: tail(s, j) == WordAt(words, s, j, true);
    First(tail, s)
  }

  /** `/(.*?)(w1|w2|...)$/i`: the text before the word on its line, and the
      word as written. */
  function WordSuffix(words: seq<string>, s: string): (r: Option<(string, string)>)
    ensures r.Some? ==> EndsWith(s, r.value.1) && IsWordOf(words, r.value.1)
    ensures r.Some? ==> EndsWith(s[..|s| - |r.value.1|], r.value.0) && NoLineBreak(r.value.0)
    ensures r.Some? && NoLineBreak(s) ==> s == r.value.0 + r.value.1
  {
    match WordEnd(words, s)
    case None => None
    case Some((k, word)) =>
      SuffixShape(words, s, k, word);
      Some((s[LineStart(s, k)..k], word))
  }

  /** A word matched at `k` and ending the text, and the lazy group before
      it, as `WordSuffix` returns them. */
  lemma SuffixShape(words: seq<string>, s: string, k: nat, word: string)
    requires k <= |s| && WordAt(words, s, k, true) == Some(word)
    ensures EndsWith(s, word) && IsWordOf(words, word) && k == |s| - |word|
    ensures var pre := s[LineStart(s, k)..k];
      EndsWith(s[..k], pre) && NoLineBreak(pre) && (NoLineBreak(s) ==> s == pre + word)
  {
    WordAtEnd(words, s, k, word);
    LazyGroupBefore(s, k);
    NoBreakPrefixStart(s, k);
    Halves(s, k);
  }

  lemma WordAtEnd(words: seq<string>, s: string, k: nat, word: string)
    requires k <= |s| && WordAt(words, s, k, true) == Some(word)
    ensures EndsWith(s, word) && IsWordOf(words, word) && k == |s| - |word| && s[k..] == word
  {
    assert OccursAt(s, word, k);
  }

  /** The lazy group that ends at `k`: the text from the start of the line
      up to `k`. */
  lemma LazyGroupBefore(s: string, k: nat)
    requires k <= |s|
    ensures var pre := s[LineStart(s, k)..k];
      EndsWith(s[..k], pre) && NoLineBreak(pre)
  {
    var p := LineStart(s, k);
    assert s[p..k] == s[..k][p..];
  }

  lemma Halves(s: string, k: nat)
    requires k <= |s|
    ensures s == s[0..k] + s[k..]
  {
  }

  /** Without line terminators, a lazy group ending at `k` starts at 0. */
  lemma NoBreakPrefixStart(s: string, k: nat)
    requires k <= |s|
    ensures NoLineBreak(s) ==> LineStart(s, k) == 0
  {
    var p := LineStart(s, k);
    if p > 0 {
      assert IsLineBreak(s[p - 1]);
    }
  }

  lemma WordEndIff(words: seq<string>, s: string)
    ensures WordEnd(words, s).Some? <==>
      exists w :: w in words && |w| <= |s| && EqualsIgnoreCase(s[|s| - |w|..], w)
  {
    match WordEnd(words, s)
    case None =>
      forall w | w in words && |w| <= |s|
        ensures !EqualsIgnoreCase(s[|s| - |w|..], w)
      {
        var k := |s| - |w|;
        assert WordAt(words, s, k, true).None?;
        assert s[k..k + |w|] == s[|s| - |w|..];
      }
    case Some((k, word)) =>
      IsWordOfIff(words, word);
      var w :| w in words && EqualsIgnoreCase(word, w);
      assert s[|s| - |w|..] == word;
      assert EqualsIgnoreCase(s[|s| - |w|..], w);
  }

  /** `/(.*?)(Mumbai|...)$/i` (with `Remote` for experience): the text before
      the city on its line, and the city as written. */
  function CitySuffix(withRemote: bool, s: string): (r: Option<(string, string)>)
    ensures r.Some? ==> EndsWith(s, r.value.1) && IsCity(r.value.1, withRemote)
    ensures r.Some? ==> EndsWith(s[..|s| - |r.value.1|], r.value.0) && NoLineBreak(r.value.0)
    ensures r.Some? && NoLineBreak(s) ==> s == r.value.0 + r.value.1
  {
    var words := CityWords(withRemote);
    var r := WordSuffix(words, s);
    assert r.Some? ==> IsWordOf(words, r.value.1);
    r
  }

  /** `/(Mumbai|...)$/i.test(s)`. */
  predicate EndsWithCity(withRemote: bool, s: string) {
    WordEnd(CityWords(withRemote), s).Some?
  }

  /** The test holds exactly when the line ends with one of the cities, in
      any case. */
  lemma EndsWithCityIff(withRemote: bool, s: string)
    ensures EndsWithCity(withRemote, s) <==>
      exists w :: w in CityWords(withRemote) && |w| <= |s| && EqualsIgnoreCase(s[|s| - |w|..], w)
  {
    WordEndIff(CityWords(withRemote), s);
  }

  // ---------------------------------------------------------------------
  // The role and dates line of an experience entry

  function RoleDateTail(s: string, k: nat): (r: Option<(MonthYear, nat)>)
    ensures r.Some? ==> IsMonthWord(r.value.0.month) && |r.value.0.year| == 4 && AllDigits(r.value.0.year)
    ensures r.Some? ==> r.value.1 <= |s| && NoLineBreak(s[r.value.1..])
  {
    match MonthYearAt(s, k)
    case None => None
    case Some(my) =>
      var f := SpaceRun(s, my.end);
      if f < |s| && (s[f] == '\U{2013}' || s[f] == '-') then
        var h := SpaceRun(s, f + 1);
        if NoLineBreak(s[h..]) then Some((my, h)) else None
      else None
  }

  datatype RoleDate = RoleDate(role: string, start: MonthYear, endPart: string)

  /** `/^(.*?)(Jan|...|Dec)\s+(\d{4})\s*[–-]\s*(.*?)$/i`: the role before
      the first month-year that is followed by a dash, and the rest of the
      line after the dash. */
  function MatchRoleDate(s: string): (r: Option<RoleDate>)
    ensures r.Some? ==> StartsWith(s, r.value.role) && NoLineBreak(r.value.role)
    ensures r.Some? ==> IsMonthWord(r.value.start.month) && |r.value.start.year| == 4 && AllDigits(r.value.start.year)
    ensures r.Some? ==> EndsWith(s, r.value.endPart) && NoLineBreak(r.value.endPart)
  {
    var b := FirstBreak(s);
    var m := FirstFrom(RoleDateTail, s, 0, b);
    if m.None? then None
    else
      var k := m.value.0;
      var (my, h) := m.value.1;
      RolePrefix(s, b, k);
      assert EndsWith(s, s[h..]);
      Some(RoleDate(s[..k], my, s[h..]))
  }

  /** The text before a position that comes no later than the first line
      break starts the line and holds no line break. */
  lemma RolePrefix(s: string, b: nat, k: nat)
    requires b <= |s| && NoLineBreak(s[..b]) && k <= b
    ensures StartsWith(s, s[..k]) && NoLineBreak(s[..k])
  {
    var role := s[..k];
    forall i | 0 <= i < |role| ensures !IsLineBreak(role[i]) {
      assert role[i] == s[..b][i];
    }
  }

  // ---------------------------------------------------------------------
  // The heading line of a custom entry

  /** `(.+?)(\||$)` from `n`: the lazy group grows one character at a time,
      never over a line terminator, until a `|` or the end follows it. */
  function LazyToBarOrEnd(s: string, n: nat, q: nat): (r: Option<nat>)
    requires n < q <= |s| + 1 && NoLineBreak(s[n..q - 1])
    ensures r.Some? ==> q <= r.value <= |s| && NoLineBreak(s[n..r.value])
    ensures r.Some? ==> r.value == |s| || s[r.value] == '|'
    decreases |s| + 1 - q
  {
    if q > |s| || IsLineBreak(s[q - 1]) then None
    else
      assert s[n..q] == s[n..q - 1] + [s[q - 1]];
      if q == |s| || s[q] == '|' then Some(q) else LazyToBarOrEnd(s, n, q + 1)
  }

  /** The second `\s+` of the `by` pattern gives characters back one at a
      time, from `n` down to `lo`, until the lazy group after it matches. */
  function ByGroup(s: string, lo: nat, n: nat): (r: Option<(nat, nat)>)
    requires 1 <= lo <= n <= |s|
    ensures r.Some? ==> lo <= r.value.0 < r.value.1 <= |s| && NoLineBreak(s[r.value.0..r.value.1])
    decreases n
  {
    match LazyToBarOrEnd(s, n, n + 1)
    case Some(q) => Some((n, q))
    case None => if n == lo then None else ByGroup(s, lo, n - 1)
  }

  function ByTail(s: string, k: nat): Option<(nat, nat)> {
    if k > |s| then None
    else
      var m := SpaceRun(s, k);
      if m == k || m + 2 > |s| || !EqualsIgnoreCase(s[m..m + 2], "by") then None
      else
        var n := SpaceRun(s, m + 2);
        if n == m + 2 then None else ByGroup(s, m + 3, n)
  }

  /** `/(.*?)\s+by\s+(.+?)(\||$)/i`: the title before ` by `, and the
      institution after it, up to a `|` or the end. */
  function MatchBy(s: string): (r: Option<(string, string)>)
    ensures r.Some? ==> |r.value.1| > 0 && NoLineBreak(r.value.0) && NoLineBreak(r.value.1)
  {
    match First(ByTail, s)
    case None => None
    case Some((k, (n, q))) =>
      var p := LineStart(s, k);
      Some((s[p..k], s[n..q]))
  }

  function PipeTail(words: seq<string>, s: string, k: nat): Option<string> {
    if k < |s| && s[k] == '|' then WordAt(words, s, SpaceRun(s, k + 1), false) else None
  }

  /** `/(.*?)\|\s*(w1|w2|...)/i`: the text before the `|` and the word
      after it. */
  function MatchPipeWord(words: seq<string>, s: string): (r: Option<(string, string)>)
    ensures r.Some? ==> NoLineBreak(r.value.0) && IsWordOf(words, r.value.1)
  {
    match First((t: string, k: nat) => PipeTail(words, t, k), s)
    case None => None
    case Some((k, word)) =>
      var p := LineStart(s, k);
      Some((s[p..k], word))
  }

  /** `/(.*?)\|\s*(Mumbai|...|Kolkata)/i`: the text before the `|` and the
      city after it. */
  function MatchPipeCity(s: string): (r: Option<(string, string)>)
    ensures r.Some? ==> IsCity(r.value.1, false) && NoLineBreak(r.value.0)
  {
    MatchPipeWord(Cities, s)
  }

  /** `/(.*?)(Jan|...|Dec)\s+(\d{4})$/i`: the text before a closing
      month-year, and the month-year. */
  function MatchTrailingDate(s: string): (r: Option<(string, MonthYear)>)
    ensures r.Some? ==> NoLineBreak(r.value.0) && IsMonthWord(r.value.1.month)
    ensures r.Some? ==> |r.value.1.year| == 4 && AllDigits(r.value.1.year)
  {
    match First(MonthYearEndAt, s)
    case None => None
    case Some((k, my)) =>
      var p := LineStart(s, k);
      assert IsMonthWord(my.month) && |my.year| == 4 && AllDigits(my.year);
      Some((s[p..k], my))
  }

  function BySpaceTail(s: string, k: nat): Option<nat> {
    if k + 3 <= |s| && EqualsIgnoreCase(s[k..k + 2], "by") && IsSpace(s[k + 2]) then Some(k + 2) else None
  }

  /** `/by\s+/i.test(s)`. */
  predicate HasBy(s: string) {
    First(BySpaceTail, s).Some?
  }

  /** `/^(Awards|Certifications|Technical Skills|Experience|Projects)$/i`. */
  predicate IsSectionKeyword(s: string) {
    || EqualsIgnoreCase(s, "Awards") || EqualsIgnoreCase(s, "Certifications")
    || EqualsIgnoreCase(s, "Technical Skills") || EqualsIgnoreCase(s, "Experience")
    || EqualsIgnoreCase(s, "Projects")
  }

  /** `s.replace(new RegExp(suffix + "$"), "")` for a suffix without regex
      metacharacters: the suffix is cut off when the string ends with it. */
  function RemoveSuffix(s: string, suffix: string): (r: string)
    ensures EndsWith(s, suffix) ==> r + suffix == s
    ensures !EndsWith(s, suffix) ==> r == s
  {
    if EndsWith(s, suffix) then s[..|s| - |suffix|] else s
  }

  // ---------------------------------------------------------------------
  // Bullets

  const BulletGlyph: char := '\U{2022}'

  /** `line.startsWith("•")`. */
  predicate IsBulletLine(line: string) {
    |line| > 0 && line[0] == BulletGlyph
  }

  /** `line.replace(/^•\s*\/, "")`: the glyph and the white space after it
      are removed. */
  function StripBullet(line: string): (r: string)
    ensures IsBulletLine(line) ==> EndsWith(line, r) && |r| < |line| && (r == [] || !IsSpace(r[0]))
    ensures !IsBulletLine(line) ==> r == line
  {
    if IsBulletLine(line) then line[SpaceRun(line, 1)..] else line
  }

  // ---------------------------------------------------------------------
  // Section headings

  /** The six headings the segmentation looks for. */
  datatype Marker = ExperienceMarker | EducationMarker | SkillsMarker | ProjectsMarker | AwardsMarker | CertificationsMarker

  /** The marker table in the order it is consulted. */
  const MarkerTable: seq<Marker> :=
    [ExperienceMarker, EducationMarker, SkillsMarker, ProjectsMarker, AwardsMarker, CertificationsMarker]

  /** `Skills?` with an optional `Technical\s*` in front. */
  predicate IsSkillsWord(t: string) {
    || EqualsIgnoreCase(t, "Skill") || EqualsIgnoreCase(t, "Skills")
    || (|t| >= 9 && EqualsIgnoreCase(t[..9], "Technical") &&
        (EqualsIgnoreCase(t[SpaceRun(t, 9)..], "Skill") || EqualsIgnoreCase(t[SpaceRun(t, 9)..], "Skills")))
  }

  /** The text between `^` and `$` of each marker pattern. */
  predicate MarkerWord(m: Marker, t: string) {
    match m
    case ExperienceMarker => EqualsIgnoreCase(t, "Experience")
    case EducationMarker => EqualsIgnoreCase(t, "Education")
    case SkillsMarker => IsSkillsWord(t)
    case ProjectsMarker => EqualsIgnoreCase(t, "Project") || EqualsIgnoreCase(t, "Projects")
    case AwardsMarker => EqualsIgnoreCase(t, "Award") || EqualsIgnoreCase(t, "Awards")
    case CertificationsMarker => EqualsIgnoreCase(t, "Certification") || EqualsIgnoreCase(t, "Certifications")
  }

  /** With the `m` flag, `^` matches at the start or after a line
      terminator and `$` at the end or before one. */
  predicate IsSpan(s: string, a: nat, b: nat) {
    a <= b <= |s| && (a == 0 || IsLineBreak(s[a - 1])) && (b == |s| || IsLineBreak(s[b]))
  }

  /** `marker.regex.test(line)`. */
  predicate MarkerTest(m: Marker, s: string) {
    exists a, b | 0 <= a <= b <= |s| :: IsSpan(s, a, b) && MarkerWord(m, s[a..b])
  }

  /** The first marker of the table whose pattern the line matches. */
  function MarkerOf(line: string): (r: Option<Marker>)
    ensures r.Some? ==> MarkerTest(r.value, line)
    ensures r.Some? ==> forall j :: 0 <= j < |MarkerTable| && MarkerTable[j] != r.value ==>
      MarkerTest(MarkerTable[j], line) ==> MarkerIndex(r.value) < j
    ensures r.None? <==> forall m: Marker :: !MarkerTest(m, line)
  {
    if MarkerTest(ExperienceMarker, line) then Some(ExperienceMarker)
    else if MarkerTest(EducationMarker, line) then Some(EducationMarker)
    else if MarkerTest(SkillsMarker, line) then Some(SkillsMarker)
    else if MarkerTest(ProjectsMarker, line) then Some(ProjectsMarker)
    else if MarkerTest(AwardsMarker, line) then Some(AwardsMarker)
    else if MarkerTest(CertificationsMarker, line) then Some(CertificationsMarker)
    else None
  }

  function MarkerIndex(m: Marker): (j: nat)
    ensures j < |MarkerTable| && MarkerTable[j] == m
  {
    match m
    case ExperienceMarker => 0
    case EducationMarker => 1
    case SkillsMarker => 2
    case ProjectsMarker => 3
    case AwardsMarker => 4
    case CertificationsMarker => 5
  }
}

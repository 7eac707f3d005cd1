/** The LaTeX generator for Jake's resume template: the escaping of user
    text, the two date formatters, one renderer per entry shape, the section
    dispatch and the whole document. */
module Generator {
  import opened Wrappers
  import opened JsString
  import opened ResumeModel
  import opened Validation

  // ---------------------------------------------------------------------
  // escapeLaTeX

  /** The first replace: a backslash becomes `\textbackslash{}`. */
  function BackslashStep(c: char): string {
    if c == '\\' then "\\" + "textbackslash" + "{}" else [c]
  }

  /** The characters the second replace escapes, `[&%$#_{}]`. */
  predicate IsLatexSpecial(c: char) {
    c == '&' || c == '%' || c == '$' || c == '#' || c == '_' || c == '{' || c == '}'
  }

  /** The second replace: a backslash in front of each special character
      (the `$&` of the replacement is the matched character). */
  function SpecialStep(c: char): string {
    if IsLatexSpecial(c) then ['\\', c] else [c]
  }

  function TildeStep(c: char): string {
    if c == '~' then "\\" + "textasciitilde" + "{}" else [c]
  }

  function CaretStep(c: char): string {
    if c == '^' then "\\" + "textasciicircum" + "{}" else [c]
  }

  /** A global replace whose pattern matches single characters: every
      character is replaced on its own, left to right. */
  function ReplaceEach(f: char -> string, s: string): string {
    if s == [] then [] else f(s[0]) + ReplaceEach(f, s[1..])
  }

  lemma {:induction false} ReplaceEachAppend(f: char -> string, a: string, b: string)
    ensures ReplaceEach(f, a + b) == ReplaceEach(f, a) + ReplaceEach(f, b)
  {
    if a == [] {
      assert a + b == b;
    } else {
      assert (a + b)[0] == a[0];
      assert (a + b)[1..] == a[1..] + b;
      ReplaceEachAppend(f, a[1..], b);
    }
  }

  /** `escapeLaTeX`: the four global replaces, in the order the source
      applies them. */
  function EscapeLatex(s: string): string {
    ReplaceEach(CaretStep, ReplaceEach(TildeStep, ReplaceEach(SpecialStep, ReplaceEach(BackslashStep, s))))
  }

  /** What a backslash finally becomes: the braces the first replace
      introduces are escaped by the second. */
  const BackslashOut: string := "\\" + "textbackslash" + "\\{\\}"
  const TildeOut: string := "\\" + "textasciitilde" + "{}"
  const CaretOut: string := "\\" + "textasciicircum" + "{}"

  /** A character none of the four replaces touches. */
  predicate IsPlain(c: char) {
    c != '\\' && !IsLatexSpecial(c) && c != '~' && c != '^'
  }

  /** The net effect of the four replaces on one character. */
  function EscapeChar(c: char): (r: string)
    ensures r == EscapeLatex([c])
  {
    EscapeOne(c);
    if c == '\\' then BackslashOut
    else if IsLatexSpecial(c) then ['\\', c]
    else if c == '~' then TildeOut
    else if c == '^' then CaretOut
    else [c]
  }

  /** A replace that leaves every character of `s` alone leaves `s` alone. */
  lemma {:induction false} ReplaceNothing(f: char -> string, s: string)
    requires forall i :: 0 <= i < |s| ==> f(s[i]) == [s[i]]
    ensures ReplaceEach(f, s) == s
  {
    if s != [] {
      ReplaceNothing(f, s[1..]);
    }
  }

  lemma EscapeOne(c: char)
    ensures c == '\\' ==> EscapeLatex([c]) == BackslashOut
    ensures IsLatexSpecial(c) ==> EscapeLatex([c]) == ['\\', c]
    ensures c == '~' ==> EscapeLatex([c]) == TildeOut
    ensures c == '^' ==> EscapeLatex([c]) == CaretOut
    ensures IsPlain(c) ==> EscapeLatex([c]) == [c]
  {
    if c == '\\' {
      EscapeBackslash(c);
    } else if IsLatexSpecial(c) {
      assert ReplaceEach(BackslashStep, [c]) == [c] by { assert [c][1..] == []; }
      assert ReplaceEach(SpecialStep, [c]) == ['\\', c] by { assert [c][1..] == []; }
      ReplaceNothing(TildeStep, ['\\', c]);
      ReplaceNothing(CaretStep, ['\\', c]);
    } else if c == '~' {
      EscapeTilde(c);
    } else if c == '^' {
      EscapeCaret();
    } else {
      EscapePlain([c]);
    }
  }

  /** Text made only of characters no replace touches comes out unchanged. */
  lemma EscapePlain(s: string)
    requires forall i :: 0 <= i < |s| ==> IsPlain(s[i])
    ensures EscapeLatex(s) == s
  {
    ReplaceNothing(BackslashStep, s);
    ReplaceNothing(SpecialStep, s);
    ReplaceNothing(TildeStep, s);
    ReplaceNothing(CaretStep, s);
  }

  predicate AllLower(s: string) {
    forall i :: 0 <= i < |s| ==> 'a' <= s[i] <= 'z'
  }

  /** Lower-case words pass every replace unchanged. */
  lemma LowerUnchanged(s: string)
    requires AllLower(s)
    ensures ReplaceEach(BackslashStep, s) == s && ReplaceEach(SpecialStep, s) == s
    ensures ReplaceEach(TildeStep, s) == s && ReplaceEach(CaretStep, s) == s
  {
    ReplaceNothing(BackslashStep, s);
    ReplaceNothing(SpecialStep, s);
    ReplaceNothing(TildeStep, s);
    ReplaceNothing(CaretStep, s);
  }

  lemma ReplaceThree(f: char -> string, a: string, b: string, c: string)
    ensures ReplaceEach(f, a + b + c) == ReplaceEach(f, a) + ReplaceEach(f, b) + ReplaceEach(f, c)
  {
    ReplaceEachAppend(f, a + b, c);
    ReplaceEachAppend(f, a, b);
  }

  /** The second replace on a control word `\w{}` built by the first or
      the third: only the braces change. */
  lemma SpecialOnControlWord(w: string)
    requires AllLower(w)
    ensures ReplaceEach(SpecialStep, "\\" + w + "{}") == "\\" + w + "\\{\\}"
  {
    LowerUnchanged(w);
    ReplaceThree(SpecialStep, "\\", w, "{}");
    assert ReplaceEach(SpecialStep, "\\") == "\\";
    assert ReplaceEach(SpecialStep, "{}") == "\\{\\}";
  }

  /** A replace that leaves the backslash and the braces alone leaves a
      control word alone. */
  lemma StepOnControlWord(f: char -> string, w: string, tail: string)
    requires ReplaceEach(f, w) == w && ReplaceEach(f, "\\") == "\\" && ReplaceEach(f, tail) == tail
    ensures ReplaceEach(f, "\\" + w + tail) == "\\" + w + tail
  {
    ReplaceThree(f, "\\", w, tail);
  }

  /** The four replaces on one character that the first replace turns into
      a control word `\w{}`. */
  lemma BackslashThrough(c: char, w: string)
    requires AllLower(w) && BackslashStep(c) == "\\" + w + "{}"
    ensures EscapeLatex([c]) == "\\" + w + "\\{\\}"
  {
    LowerUnchanged(w);
    assert [c][1..] == [];
    assert ReplaceEach(BackslashStep, [c]) == "\\" + w + "{}";
    SpecialOnControlWord(w);
    assert ReplaceEach(TildeStep, "\\") == "\\" && ReplaceEach(TildeStep, "\\{\\}") == "\\{\\}";
    StepOnControlWord(TildeStep, w, "\\{\\}");
    assert ReplaceEach(CaretStep, "\\") == "\\" && ReplaceEach(CaretStep, "\\{\\}") == "\\{\\}";
    StepOnControlWord(CaretStep, w, "\\{\\}");
  }

  /** The four replaces on one character that the third replace turns into
      a control word `\w{}`. */
  lemma TildeThrough(c: char, w: string)
    requires AllLower(w) && c == '~' && TildeStep(c) == "\\" + w + "{}"
    ensures EscapeLatex([c]) == "\\" + w + "{}"
  {
    LowerUnchanged(w);
    assert [c][1..] == [];
    assert ReplaceEach(BackslashStep, [c]) == [c];
    assert ReplaceEach(SpecialStep, [c]) == [c];
    assert ReplaceEach(TildeStep, [c]) == "\\" + w + "{}";
    assert ReplaceEach(CaretStep, "\\") == "\\" && ReplaceEach(CaretStep, "{}") == "{}";
    StepOnControlWord(CaretStep, w, "{}");
  }

  lemma EscapeBackslash(c: char)
    requires c == '\\'
    ensures EscapeLatex([c]) == BackslashOut
  {
    assert AllLower("textbackslash");
    BackslashThrough(c, "textbackslash");
  }

  lemma EscapeTilde(c: char)
    requires c == '~'
    ensures EscapeLatex([c]) == TildeOut
  {
    assert AllLower("textasciitilde");
    TildeThrough(c, "textasciitilde");
  }

  lemma EscapeCaret()
    ensures EscapeLatex("^") == CaretOut
  {
    assert ReplaceEach(BackslashStep, "^") == "^";
    assert ReplaceEach(SpecialStep, "^") == "^";
    assert ReplaceEach(TildeStep, "^") == "^";
    assert ReplaceEach(CaretStep, "^") == CaretOut;
  }
  /** Escaping distributes over concatenation. */
  lemma EscapeAppend(a: string, b: string)
    ensures EscapeLatex(a + b) == EscapeLatex(a) + EscapeLatex(b)
  {
    var s1, t1 := ReplaceEach(BackslashStep, a), ReplaceEach(BackslashStep, b);
    ReplaceEachAppend(BackslashStep, a, b);
    var s2, t2 := ReplaceEach(SpecialStep, s1), ReplaceEach(SpecialStep, t1);
    ReplaceEachAppend(SpecialStep, s1, t1);
    var s3, t3 := ReplaceEach(TildeStep, s2), ReplaceEach(TildeStep, t2);
    ReplaceEachAppend(TildeStep, s2, t2);
    ReplaceEachAppend(CaretStep, s3, t3);
  }

  /** `escapeLaTeX` is a per-character map: the four sequential replaces
      equal one pass of `EscapeChar`. */
  lemma {:induction false} EscapeIsPerChar(s: string)
    ensures EscapeLatex(s) == ReplaceEach(EscapeChar, s)
  {
    if s != [] {
      assert s == [s[0]] + s[1..];
      EscapeAppend([s[0]], s[1..]);
      EscapeIsPerChar(s[1..]);
    }
  }

  /** Escaping never shortens the text. */
  lemma EscapeLength(s: string)
    ensures |EscapeLatex(s)| >= |s|
  {
    EscapeIsPerChar(s);
    PerCharLength(s);
  }

  lemma {:induction false} PerCharLength(s: string)
    ensures |ReplaceEach(EscapeChar, s)| >= |s|
  {
    if s != [] {
      PerCharLength(s[1..]);
    }
  }

  /** Text in which each `& % $ # _` is preceded by a backslash and which has
      no raw `~` or `^`. */
  predicate SafeLatex(r: string) {
    && (forall i :: 0 <= i < |r| ==> r[i] != '~' && r[i] != '^')
    && (forall i :: 0 <= i < |r| && (r[i] == '&' || r[i] == '%' || r[i] == '$' || r[i] == '#' || r[i] == '_') ==>
          0 < i && r[i - 1] == '\\')
  }

  lemma SafeAppend(a: string, b: string)
    requires SafeLatex(a) && SafeLatex(b)
    ensures SafeLatex(a + b)
  {
    var r := a + b;
    forall i | 0 <= i < |r| && (r[i] == '&' || r[i] == '%' || r[i] == '$' || r[i] == '#' || r[i] == '_')
      ensures 0 < i && r[i - 1] == '\\'
    {
      if i >= |a| {
        assert r[i] == b[i - |a|];
        assert r[i - 1] == b[i - |a| - 1];
      }
    }
  }

  /** A control word `\w{}` or `\w\{\}` is safe. */
  lemma ControlWordSafe(w: string, tail: string)
    requires AllLower(w)
    requires tail == ['{', '}'] || tail == ['\\', '{', '\\', '}']
    ensures SafeLatex(['\\'] + w + tail)
  {
  }

  lemma EscapeCharSafe(c: char)
    ensures SafeLatex(EscapeChar(c))
  {
    if c == '\\' {
      assert AllLower("textbackslash");
      ControlWordSafe("textbackslash", ['\\', '{', '\\', '}']);
      assert BackslashOut == ['\\'] + "textbackslash" + ['\\', '{', '\\', '}'];
    } else if c == '~' {
      assert AllLower("textasciitilde");
      ControlWordSafe("textasciitilde", ['{', '}']);
      assert TildeOut == ['\\'] + "textasciitilde" + ['{', '}'];
    } else if c == '^' {
      assert AllLower("textasciicircum");
      ControlWordSafe("textasciicircum", ['{', '}']);
      assert CaretOut == ['\\'] + "textasciicircum" + ['{', '}'];
    }
  }

  /** Escaped text has no raw `~` or `^`, and every `& % $ # _` in it is
      preceded by a backslash. */
  lemma {:induction false} EscapeIsSafe(s: string)
    ensures SafeLatex(EscapeLatex(s))
  {
    EscapeIsPerChar(s);
    PerCharSafe(s);
  }

  lemma {:induction false} PerCharSafe(s: string)
    ensures SafeLatex(ReplaceEach(EscapeChar, s))
  {
    if s != [] {
      EscapeCharSafe(s[0]);
      PerCharSafe(s[1..]);
      SafeAppend(EscapeChar(s[0]), ReplaceEach(EscapeChar, s[1..]));
    }
  }

  /** Reads escaped text back: the inverse of `EscapeLatex`. */
  function Unescape(s: string): string
    decreases |s|
  {
    if s == [] then []
    else if StartsWith(s, BackslashOut) then "\\" + Unescape(s[|BackslashOut|..])
    else if StartsWith(s, TildeOut) then "~" + Unescape(s[|TildeOut|..])
    else if StartsWith(s, CaretOut) then "^" + Unescape(s[|CaretOut|..])
    else if |s| >= 2 && s[0] == '\\' && IsLatexSpecial(s[1]) then [s[1]] + Unescape(s[2..])
    else [s[0]] + Unescape(s[1..])
  }

  lemma UnescapeChar(c: char, rest: string)
    ensures Unescape(EscapeChar(c) + rest) == [c] + Unescape(rest)
  {
    if c == '\\' {
      UnescapeBackslash(rest);
    } else if c == '~' {
      UnescapeTilde(rest);
    } else if c == '^' {
      UnescapeCaret(rest);
    } else if IsLatexSpecial(c) {
      UnescapeSpecial(c, rest);
    } else {
      UnescapePlain(c, rest);
    }
  }

  lemma UnescapeBackslash(rest: string)
    ensures Unescape(BackslashOut + rest) == "\\" + Unescape(rest)
  {
    var s := BackslashOut + rest;
    assert s[..|BackslashOut|] == BackslashOut;
    assert s[|BackslashOut|..] == rest;
  }

  lemma UnescapeTilde(rest: string)
    ensures Unescape(TildeOut + rest) == "~" + Unescape(rest)
  {
    var s := TildeOut + rest;
    assert s[5] == 'a' && BackslashOut[5] == 'b';
    assert s[..|TildeOut|] == TildeOut;
    assert s[|TildeOut|..] == rest;
  }

  lemma UnescapeCaret(rest: string)
    ensures Unescape(CaretOut + rest) == "^" + Unescape(rest)
  {
    var s := CaretOut + rest;
    assert s[5] == 'a' && BackslashOut[5] == 'b';
    assert s[10] == 'c' && TildeOut[10] == 't';
    assert s[..|CaretOut|] == CaretOut;
    assert s[|CaretOut|..] == rest;
  }

  lemma UnescapeSpecial(c: char, rest: string)
    requires IsLatexSpecial(c)
    ensures Unescape(['\\', c] + rest) == [c] + Unescape(rest)
  {
    var s := ['\\', c] + rest;
    assert s[1] == c && BackslashOut[1] == 't' && TildeOut[1] == 't' && CaretOut[1] == 't';
    assert s[2..] == rest;
  }

  lemma UnescapePlain(c: char, rest: string)
    requires c != '\\'
    ensures Unescape([c] + rest) == [c] + Unescape(rest)
  {
    var s := [c] + rest;
    assert s[0] == c && BackslashOut[0] == '\\' && TildeOut[0] == '\\' && CaretOut[0] == '\\';
    assert s[1..] == rest;
  }

  /** Escaping loses nothing: `Unescape` recovers the original text. */
  lemma {:induction false} EscapeRoundTrip(s: string)
    ensures Unescape(EscapeLatex(s)) == s
  {
    EscapeIsPerChar(s);
    PerCharRoundTrip(s);
  }

  lemma {:induction false} PerCharRoundTrip(s: string)
    ensures Unescape(ReplaceEach(EscapeChar, s)) == s
  {
    if s != [] {
      UnescapeChar(s[0], ReplaceEach(EscapeChar, s[1..]));
      PerCharRoundTrip(s[1..]);
    }
  }

  // ---------------------------------------------------------------------
  // formatSingleDate and formatDateRange

  /** The month table both formatters index with `parseInt(month) - 1`. */
  const MonthNames: seq<string> :=
    ["Jan.", "Feb.", "Mar.", "Apr.", "May", "June", "July", "Aug.", "Sep.", "Oct.", "Nov.", "Dec."]

  /** The leading run of decimal digits. */
  function DigitPrefix(s: string): (p: string)
    ensures AllDigits(p) && |p| <= |s| && p == s[..|p|]
    ensures |p| == |s| || !IsDigit(s[|p|])
  {
    if s != [] && IsDigit(s[0]) then [s[0]] + DigitPrefix(s[1..]) else []
  }

  /** `parseInt(s)` with no radix, `None` standing for `NaN`: leading white
      space, an optional sign, then the longest run of decimal digits. Only
      applied to text without ASCII letters, so the `0x` prefix cannot occur. */
  function ParseInt(s: string): Option<int>
    requires !HasAsciiLetter(s)
  {
    var t := TrimStart(s);
    var unsigned := if t != [] && (t[0] == '-' || t[0] == '+') then t[1..] else t;
    var digits := DigitPrefix(unsigned);
    if digits == [] then None
    else if t[0] == '-' then Some(-(DigitsValue(digits) as int))
    else Some(DigitsValue(digits))
  }

  /** On a string of digits `parseInt` is the number the digits denote. */
  lemma ParseDigits(s: string)
    requires AllDigits(s) && s != []
    ensures ParseInt(s) == Some(DigitsValue(s))
  {
    TrimStartOfTrimmed(s);
    assert DigitPrefix(s) == s;
  }

  /** `monthNames[parseInt(month) - 1]` as a template literal shows it: an
      index outside the table gives `undefined`. */
  function MonthLabel(month: string): (r: string)
    requires !HasAsciiLetter(month)
    ensures r in MonthNames || r == "undefined"
  {
    match ParseInt(month)
    case Some(k) => if 1 <= k <= 12 then MonthNames[k - 1] else "undefined"
    case None => "undefined"
  }

  /** Every label starts with a letter other than `p`. */
  lemma LabelStart(name: string)
    requires name in MonthNames || name == "undefined"
    ensures |name| >= 3 && IsAsciiLetter(name[0]) && LowerChar(name[0]) != 'p'
  {
    if name != "undefined" {
      var i :| 0 <= i < |MonthNames| && MonthNames[i] == name;
    }
  }

  /** `date.split("-")` and the month label built from its first two pieces. */
  function YearMonthLabel(date: string): (r: string)
    requires !HasAsciiLetter(date) && '-' in date
    ensures HasAsciiLetter(r) && !IsPresent(r)
  {
    var parts := Split(date, '-');
    assert !HasAsciiLetter(parts[1]) by {
      forall j | 0 <= j < |parts[1]|
        ensures !IsAsciiLetter(parts[1][j])
      {
        assert parts[1][j] in date;
      }
    }
    var monthName := MonthLabel(parts[1]);
    LabelStart(monthName);
    var r := monthName + " " + parts[0];
    assert r[0] == monthName[0];
    r
  }

  /** The `formatDate` helper of `formatDateRange`. */
  function FormatDate(date: string): string {
    if date == "" then ""
    else if IsPresent(date) then "Present"
    else if HasAsciiLetter(date) then date
    else if |Split(date, '-')| == 2 then YearMonthLabel(date)
    else date
  }

  /** `formatDateRange`. */
  function FormatDateRange(start: string, end: string): string {
    FormatDate(start) + " -- " + FormatDate(end)
  }

  /** `formatSingleDate`: unlike `FormatDate` it has no "present" case and
      reads the first two pieces of any date with a dash. */
  function FormatSingleDate(date: string): string {
    if date == "" then ""
    else if HasAsciiLetter(date) then date
    else if '-' in date then YearMonthLabel(date)
    else date
  }

  /** How a date accepted by the date rule is shown: "Present", or the
      month's abbreviation and the year. */
  function ValidDateLabel(date: string): string
    requires IsValidDate(date)
  {
    if IsPresent(date) then "Present" else MonthNames[Month(date) - 1] + " " + date[..4]
  }

  lemma SplitYearMonth(date: string)
    requires IsYearMonth(date)
    ensures Split(date, '-') == [date[..4], date[5..]]
  {
    assert IndexOf(date, '-') == 4 by {
      assert date[4] == '-' && '-' !in date[..4];
    }
    assert '-' !in date[5..] by {
      assert date[5..] == [date[5], date[6]];
    }
  }

  lemma YearMonthHasNoLetter(date: string)
    requires IsYearMonth(date)
    ensures !HasAsciiLetter(date) && !IsPresent(date) && '-' in date
  {
    assert date[4] == '-';
    assert LowerChar(date[0]) != 'p';
  }

  lemma YearMonthLabelOfValid(date: string)
    requires IsYearMonth(date)
    ensures !HasAsciiLetter(date) && '-' in date
    ensures YearMonthLabel(date) == MonthNames[Month(date) - 1] + " " + date[..4]
  {
    YearMonthHasNoLetter(date);
    SplitYearMonth(date);
    var month := date[5..];
    ParseDigits(month);
    assert ParseInt(month) == Some(Month(date) as int);
    assert MonthLabel(month) == MonthNames[Month(date) - 1];
  }

  /** Both formatters show a valid `YYYY-MM` date as the month's
      abbreviation and the year; `formatDateRange` shows any-case
      "present" as "Present". */
  lemma FormatValidDate(date: string)
    requires IsValidDate(date)
    ensures FormatDate(date) == ValidDateLabel(date)
    ensures IsYearMonth(date) ==> FormatSingleDate(date) == ValidDateLabel(date)
  {
    if IsYearMonth(date) {
      YearMonthHasNoLetter(date);
      YearMonthLabelOfValid(date);
      SplitYearMonth(date);
    }
  }

  /** Formatting a formatted date changes nothing. */
  lemma FormatDateIdempotent(date: string)
    ensures FormatDate(FormatDate(date)) == FormatDate(date)
  {
    if date != "" && !IsPresent(date) && !HasAsciiLetter(date) && |Split(date, '-')| == 2 {
      var r := YearMonthLabel(date);
      assert r != "";
    }
  }

  /** The ranges of valid dates are the two labels joined by " -- ". */
  lemma FormatValidRange(start: string, end: string)
    requires IsValidDate(start) && IsValidDate(end)
    ensures FormatDateRange(start, end) == ValidDateLabel(start) + " -- " + ValidDateLabel(end)
  {
    FormatValidDate(start);
    FormatValidDate(end);
  }

  /** January of any four-digit year, e.g. `"2021-01"`, is shown as
      `"Jan. 2021"`. */
  lemma FormatJanuary(year: string)
    requires |year| == 4 && AllDigits(year)
    ensures FormatDate(year + "-01") == "Jan. " + year
  {
    var d := year + "-01";
    assert d[4] == '-' && d[5] == '0' && d[6] == '1';
    FormatJanuaryDate(d);
    assert d[..4] == year;
  }

  lemma FormatJanuaryDate(d: string)
    requires IsYearMonth(d) && d[5] == '0' && d[6] == '1'
    ensures FormatDate(d) == "Jan. " + d[..4]
  {
    FormatValidDate(d);
    MonthOfDigits(d);
    assert Month(d) == 1;
    YearMonthHasNoLetter(d);
    assert ValidDateLabel(d) == MonthNames[0] + " " + d[..4];
    assert MonthNames[0] + " " == "Jan. ";
  }

  lemma MonthOfDigits(date: string)
    requires IsYearMonth(date)
    ensures Month(date) == 10 * DigitValue(date[5]) + DigitValue(date[6])
  {
    var mm := date[5..];
    assert mm[..1][..0] == [] && mm[..1][0] == date[5];
    assert DigitsValue(mm[..1]) == DigitValue(date[5]);
  }

  /** Where the two formatters differ: `formatSingleDate` keeps a lower-case
      "present" as it is. */
  lemma FormatPresent()
    ensures FormatDate("present") == "Present" && FormatSingleDate("present") == "present"
  {
    assert IsAsciiLetter("present"[0]);
  }

  // ---------------------------------------------------------------------
  // Bullet and detail lists

  /** `b.trim()` is truthy. */
  predicate NonBlank(line: string) {
    Trim(line) != ""
  }

  function ItemLines(pad: string, lines: seq<string>): seq<string> {
    seq(|lines|, i requires 0 <= i < |lines| => pad + "\\resumeItem{" + EscapeLatex(lines[i]) + "}")
  }

  /** The `\resumeItemListStart ... \resumeItemListEnd` block around the
      kept lines. */
  function ItemBlock(indent: string, pad: string, kept: seq<string>): string {
    if kept == [] then ""
    else
      "\n" + indent + "\\resumeItemList" + "Start\n" + Join(ItemLines(pad, kept), "\n")
      + "\n" + indent + "\\resumeItemList" + "End"
  }

  /** The item block of an entry: absent when every line is blank,
      otherwise one `\resumeItem` per non-blank line, in order, the blank
      ones skipped. */
  function ItemList(indent: string, pad: string, lines: seq<string>): (r: string)
    ensures r == "" <==> forall i :: 0 <= i < |lines| ==> !NonBlank(lines[i])
  {
    FilterEmpty(NonBlank, lines);
    ItemBlock(indent, pad, Filter(NonBlank, lines))
  }

  /** Blank lines have no effect on the block, wherever they stand. */
  lemma BlankLineIgnored(indent: string, pad: string, before: seq<string>, blank: string, after: seq<string>)
    requires !NonBlank(blank)
    ensures ItemList(indent, pad, before + [blank] + after) == ItemList(indent, pad, before + after)
  {
    FilterAppend(NonBlank, before + [blank], after);
    FilterAppend(NonBlank, before, [blank]);
    FilterAppend(NonBlank, before, after);
    assert Filter(NonBlank, [blank]) == [] by {
      assert [blank][1..] == [];
    }
    assert Filter(NonBlank, before + [blank]) == Filter(NonBlank, before);
  }

  /** Each kept line becomes one `\resumeItem` holding its escaped text. */
  lemma ItemsAreKeptLines(pad: string, lines: seq<string>)
    ensures |ItemLines(pad, Filter(NonBlank, lines))| == |Filter(NonBlank, lines)|
    ensures forall i :: 0 <= i < |Filter(NonBlank, lines)| ==>
      NonBlank(Filter(NonBlank, lines)[i]) &&
      ItemLines(pad, Filter(NonBlank, lines))[i] == pad + "\\resumeItem{" + EscapeLatex(Filter(NonBlank, lines)[i]) + "}"
  {
  }

  // ---------------------------------------------------------------------
  // Entries

  /** The two-line `\resumeSubheading{..}{..}{..}{..}` heading shared by
      experience, education and custom entries. */
  function Subheading(first: string, second: string, third: string, fourth: string): string {
    "\n    " + "\\resumeSubheading" + "\n      {" + first + "}{" + second + "}\n      {" + third + "}{" + fourth + "}"
  }

  /** `generateExperience`. */
  function GenerateExperience(e: ExperienceEntry): string {
    Subheading(EscapeLatex(e.company), FormatDateRange(e.startDate, e.endDate), EscapeLatex(e.role), EscapeLatex(e.location))
    + ItemList("      ", "        ", e.bullets)
  }

  /** `generateEducation`: the same layout with the details as items. */
  function GenerateEducation(e: EducationEntry): string {
    Subheading(EscapeLatex(e.institution), FormatDateRange(e.startDate, e.endDate), EscapeLatex(e.degree), EscapeLatex(e.location))
    + ItemList("      ", "        ", e.details)
  }

  /** An optional string that is present and non-empty (JavaScript truthiness). */
  predicate Truthy(s: Option<string>) {
    s.Some? && s.value != ""
  }

  /** The date slot of a project heading: a range only when both dates are set. */
  function ProjectDates(e: ProjectEntry): (r: string)
    ensures r != "" <==> Truthy(e.startDate) && Truthy(e.endDate)
    ensures r != "" ==> r == FormatDateRange(e.startDate.value, e.endDate.value)
  {
    if Truthy(e.startDate) && Truthy(e.endDate) then
      FormatDateRange(e.startDate.value, e.endDate.value)
    else ""
  }

  /** The bold project name, followed by ` $|$ \emph{technologies}` only
      when the technologies are non-empty. */
  function ProjectTitle(e: ProjectEntry): (r: string)
    ensures StartsWith(r, "\\textbf{" + EscapeLatex(e.name) + "}")
    ensures e.technologies == "" <==> r == "\\textbf{" + EscapeLatex(e.name) + "}"
  {
    var bold := "\\textbf{" + EscapeLatex(e.name) + "}";
    if e.technologies != "" then bold + " $|$ \\emph{" + EscapeLatex(e.technologies) + "}" else bold
  }

  /** `generateProject`. */
  function GenerateProject(e: ProjectEntry): string {
    "\n      " + "\\resumeProject" + "Heading" + "\n          {" + ProjectTitle(e) + "}{" + ProjectDates(e) + "}"
    + ItemList("          ", "            ", e.bullets)
  }

  /** `generateSkills`. */
  function GenerateSkills(e: SkillsEntry): string {
    "     \\textbf{" + EscapeLatex(e.category) + "}{: " + Join(EscapeAll(e.skills), ", ") + "}"
  }

  function EscapeAll(items: seq<string>): (r: seq<string>)
    ensures |r| == |items|
  {
    if items == [] then [] else [EscapeLatex(items[0])] + EscapeAll(items[1..])
  }

  /** Escaping each skill and joining with ", " is escaping the joined list,
      since the separator holds no special character. */
  lemma {:induction false} SkillsJoinEscaped(items: seq<string>)
    ensures Join(EscapeAll(items), ", ") == EscapeLatex(Join(items, ", "))
  {
    if |items| == 0 {
      EscapePlain([]);
    } else if |items| > 1 {
      var head, tail := items[0], items[1..];
      assert items == [head] + tail;
      var escapedTail := EscapeAll(tail);
      assert EscapeAll(items) == [EscapeLatex(head)] + escapedTail;
      calc {
        Join(EscapeAll(items), ", ");
        { JoinCons(EscapeLatex(head), escapedTail, ", "); }
        EscapeLatex(head) + ", " + Join(escapedTail, ", ");
        { SkillsJoinEscaped(tail); }
        EscapeLatex(head) + ", " + EscapeLatex(Join(tail, ", "));
        { EscapePlain(", "); EscapeAppend(head, ", "); }
        EscapeLatex(head + ", ") + EscapeLatex(Join(tail, ", "));
        { EscapeAppend(head + ", ", Join(tail, ", ")); }
        EscapeLatex(head + ", " + Join(tail, ", "));
        { JoinCons(head, tail, ", "); }
        EscapeLatex(Join(items, ", "));
      }
    }
  }

  /** Skills without special characters are listed as written. */
  lemma {:induction false} PlainSkills(items: seq<string>)
    requires forall i :: 0 <= i < |items| ==> EscapeLatex(items[i]) == items[i]
    ensures EscapeAll(items) == items
  {
    if items != [] {
      PlainSkills(items[1..]);
    }
  }

  /** `Languages` with `["Go", "Rust"]` lists `Go, Rust`. */
  lemma GoAndRust()
    ensures Join(EscapeAll(["Go", "Rust"]), ", ") == "Go, Rust"
  {
    EscapePlain("Go");
    EscapePlain("Rust");
    PlainSkills(["Go", "Rust"]);
  }

  /** The date slot of a custom entry: its location, else the range when
      both dates are set, else the start date alone; an end date without a
      start date is never shown. */
  function CustomDateSlot(e: CustomEntry): (r: string)
    ensures Truthy(e.location) ==> r == e.location.value
    ensures !Truthy(e.location) && Truthy(e.startDate) && Truthy(e.endDate) ==>
      r == FormatDateRange(e.startDate.value, e.endDate.value)
    ensures !Truthy(e.location) && Truthy(e.startDate) && !Truthy(e.endDate) ==>
      r == FormatSingleDate(e.startDate.value)
    ensures !Truthy(e.location) && !Truthy(e.startDate) ==> r == ""
  {
    var singleDate := if Truthy(e.startDate) && !Truthy(e.endDate) then FormatSingleDate(e.startDate.value) else "";
    var dateRange := if Truthy(e.startDate) && Truthy(e.endDate) then FormatDateRange(e.startDate.value, e.endDate.value) else "";
    var displayDate := if dateRange != "" then dateRange else singleDate;
    if Truthy(e.location) then e.location.value else displayDate
  }

  /** `generateCustom`: the two branches of the source differ only in the
      item block, so they are one expression here. The subtitle and the
      date slot are inserted unescaped, and the fourth argument is empty. */
  function GenerateCustom(e: CustomEntry): string {
    Subheading(EscapeLatex(e.title), CustomDateSlot(e), e.subtitle.GetOr(""), "")
    + ItemList("      ", "        ", e.bullets)
  }

  // ---------------------------------------------------------------------
  // Sections and the document

  /** The entry renderer of the entry's own shape. */
  function RenderEntry(e: Entry): string {
    match e
    case ExperienceItem(x) => GenerateExperience(x)
    case EducationItem(x) => GenerateEducation(x)
    case ProjectItem(x) => GenerateProject(x)
    case SkillsItem(x) => GenerateSkills(x)
    case CustomItem(x) => GenerateCustom(x)
  }

  function RenderEntries(entries: seq<Entry>): (r: seq<string>)
    ensures |r| == |entries|
  {
    seq(|entries|, i requires 0 <= i < |entries| => RenderEntry(entries[i]))
  }

  function SectionHeading(s: Section): string {
    "%-----------" + ToUpper(s.title) + "-----------" + "\n\\section{" + EscapeLatex(s.title) + "}"
  }

  /** The list environment of each section tag around the rendered entries. */
  function SectionBody(kind: SectionType, items: seq<string>): string {
    match kind
    case Experience | Education | Custom =>
      "\n  " + "\\resumeSubHeading" + "ListStart\n" + Join(items, "\n")
      + "\n  " + "\\resumeSubHeading" + "ListEnd"
    case Projects =>
      "\n    " + "\\resumeSubHeading" + "ListStart\n" + Join(items, "\n")
      + "\n    " + "\\resumeSubHeading" + "ListEnd"
    case Skills =>
      "\n \\begin{itemize}" + "[leftmargin=" + "0.15in, " + "label={}]\n    " + "\\small{\\item{\n"
      + Join(items, " \\\\\n") + "\n    }}" + "\n \\end{itemize}"
  }

  /** `generateSection`. Each entry is rendered by the renderer of the
      section's tag; an entry of another shape makes that renderer read a
      field the entry does not have, which throws a `TypeError` in the
      source: `None` here. */
  function GenerateSection(s: Section): (r: Option<string>)
    ensures r.Some? <==> s.WellTyped()
  {
    if s.WellTyped() then Some(SectionHeading(s) + SectionBody(s.kind, RenderEntries(s.entries))) else None
  }

  /** A header link: an `https://` prefix unless the URL starts with "http". */
  function LinkUrl(url: string): (r: string)
    ensures StartsWith(r, "http") && EndsWith(r, url)
  {
    if StartsWith(url, "http") then url else "https://" + url
  }

  lemma LinkUrlIdempotent(url: string)
    ensures LinkUrl(LinkUrl(url)) == LinkUrl(url)
  {
  }

  function LinkLatex(link: Link): string {
    "\\href{" + LinkUrl(link.url) + "}{\\underline{" + EscapeLatex(link.labelText) + "}}"
  }

  function LinkTexts(links: seq<Link>): (r: seq<string>)
    ensures |r| == |links|
  {
    seq(|links|, i requires 0 <= i < |links| => LinkLatex(links[i]))
  }

  /** The separator between links, as written in the source: a backslash
      and an `n`, not a line break. */
  const LinkSeparator: string := " $|$\\n    "

  /** The header up to the links: the name, phone and e-mail. */
  function HeaderContact(h: Header): string {
    "%----------HEADING" + "----------\n" + "\\begin{center}\n"
    + "    \\textbf{\\Huge " + "\\scshape " + EscapeLatex(h.name) + "} \\\\ \\vspace{1pt}\n"
    + "    \\small " + EscapeLatex(h.phone) + " $|$ \\href{mailto:" + h.email
    + "}{\\underline{" + EscapeLatex(h.email) + "}}"
  }

  /** `generateHeader`. */
  function GenerateHeader(h: Header): string {
    var links := Join(LinkTexts(h.links), LinkSeparator);
    HeaderContact(h) + (if links != "" then " $|$\n    " + links else "") + "\n\\end{center}\n"
  }

  /** The link separator appears exactly when there are links. */
  lemma HeaderLinkSeparator(h: Header)
    ensures |h.links| == 0 <==> GenerateHeader(h) == HeaderContact(h) + "\n\\end{center}\n"
  {
    if |h.links| > 0 {
      var texts := LinkTexts(h.links);
      assert StartsWith(texts[0], "\\href{");
    }
  }

  /** The fixed text before the header: the document class, the packages,
      the commands of Jake's template and `\begin{document}`. */
  function Preamble(): string {
      "\\documentclass[letterpaper,11pt]" + "{article}\n"
      + "\n"
      + "\\usepackage{latexsym}\n"
      + "\\usepackage[empty]{fullpage}\n"
      + "\\usepackage{titlesec}\n"
      + "\\usepackage{marvosym}\n"
      + "\\usepackage[usenames,dvipsnames]" + "{color}\n"
      + "\\usepackage{verbatim}\n"
      + "\\usepackage{enumitem}\n"
      + "\\usepackage[hidelinks]{hyperref}" + "\n"
      + "\\usepackage{fancyhdr}\n"
      + "\\usepackage[english]{babel}\n"
      + "\\usepackage{tabularx}\n"
      + "\\input{glyphtounicode}\n"
      + "\n"
      + "\\pagestyle{fancy}\n"
      + "\\fancyhf{} % clear all header " + "and footer fields\n"
      + "\\fancyfoot{}\n"
      + "\\renewcommand{\\headrulewidth}{0p" + "t}\n"
      + "\\renewcommand{\\footrulewidth}{0p" + "t}\n"
      + "\n"
      + "% Adjust margins\n"
      + "\\addtolength{\\oddsidemargin}{-0." + "5in}\n"
      + "\\addtolength{\\evensidemargin}{-0" + ".5in}\n"
      + "\\addtolength{\\textwidth}{1in}\n"
      + "\\addtolength{\\topmargin}{-.5in}\n"
      + "\\addtolength{\\textheight}{1.0in}" + "\n"
      + "\n"
      + "\\urlstyle{same}\n"
      + "\n"
      + "\\raggedbottom\n"
      + "\\raggedright\n"
      + "\\setlength{\\tabcolsep}{0in}\n"
      + "\n"
      + "% Sections formatting\n"
      + "\\titleformat{\\section}{\n"
      + "  " + "\\vspace{-4pt}\\scshape\\raggedrigh" + "t\\large\n"
      + "}{}{0em}{}[\\color{black}\\titleru" + "le \\vspace{-5pt}]\n"
      + "\n"
      + "% Ensure that generate pdf is " + "machine readable/ATS parsable\n"
      + "\\pdfgentounicode=1\n"
      + "\n"
      + "%-------------------------\n"
      + "% Custom commands\n"
      + "\\newcommand{\\resumeItem}[1]{\n"
      + "  \\item\\small{\n"
      + "    {#1 \\vspace{-2pt}}\n"
      + "  }\n"
      + "}\n"
      + "\n"
      + "\\newcommand{\\resumeSubheading}[4" + "]{\n"
      + "  \\vspace{-2pt}\\item\n"
      + "    " + "\\begin{tabular*}{0.97\\textwidth}" + "[t]{l@{\\extracolsep{\\fill}}r}\n"
      + "      \\textbf{#1} & #2 \\\\\n"
      + "      \\textit{\\small#3} & " + "\\textit{\\small #4} \\\\\n"
      + "    \\end{tabular*}\\vspace{-7pt}\n"
      + "}\n"
      + "\n"
      + "\\newcommand{\\resumeSubSubheading" + "}[2]{\n"
      + "    \\item\n"
      + "    " + "\\begin{tabular*}{0.97\\textwidth}" + "{l@{\\extracolsep{\\fill}}r}\n"
      + "      \\textit{\\small#1} & " + "\\textit{\\small #2} \\\\\n"
      + "    \\end{tabular*}\\vspace{-7pt}\n"
      + "}\n"
      + "\n"
      + "\\newcommand{\\resumeProjectHeadin" + "g}[2]{\n"
      + "    \\item\n"
      + "    " + "\\begin{tabular*}{0.97\\textwidth}" + "{l@{\\extracolsep{\\fill}}r}\n"
      + "      \\small#1 & #2 \\\\\n"
      + "    \\end{tabular*}\\vspace{-7pt}\n"
      + "}\n"
      + "\n"
      + "\\newcommand{\\resumeSubItem}[1]{\\" + "resumeItem{#1}\\vspace{-4pt}}\n"
      + "\n"
      + "\\renewcommand\\labelitemii{$\\vcen" + "ter{\\hbox{\\tiny$\\bullet$}}$}\n"
      + "\n"
      + "\\newcommand{\\resumeSubHeadingLis" + "tStart}{\\begin{itemize}[leftmarg" + "in=0.15in, label={}]}\n"
      + "\\newcommand{\\resumeSubHeadingLis" + "tEnd}{\\end{itemize}}\n"
      + "\\newcommand{\\resumeItemListStart" + "}{\\begin{itemize}}\n"
      + "\\newcommand{\\resumeItemListEnd}{" + "\\end{itemize}\\vspace{-5pt}}\n"
      + "\n"
      + "%-------------------------------" + "------------\n"
      + "%%%%%%  RESUME STARTS HERE  " + "%%%%%%%%%%%%%%%%%%%%%%%%%%%%\n"
      + "\n"
      + "\\begin{document}\n"
      + "\n"
  }

  const EndDocument: string := "\\end" + "{document}"

  const DocumentEnd: string := "\n\n" + EndDocument

  function SectionTexts(sections: seq<Section>): (r: seq<string>)
    requires forall i :: 0 <= i < |sections| ==> sections[i].WellTyped()
    ensures |r| == |sections|
    ensures forall i :: 0 <= i < |sections| ==> r[i] == GenerateSection(sections[i]).value
  {
    seq(|sections|, i requires 0 <= i < |sections| => GenerateSection(sections[i]).value)
  }

  /** The header, a blank line and the sections in order, separated by
      blank lines. */
  function HeaderAndSections(resume: Resume): string
    requires WellTyped(resume)
  {
    Stack(GenerateHeader(resume.header), SectionTexts(resume.sections))
  }

  /** A header text followed by section texts, each after a blank line. */
  function Stack(head: string, texts: seq<string>): string {
    head + "\n\n" + Join(texts, "\n\n")
  }

  lemma StackAppend(head: string, texts: seq<string>, last: string)
    requires |texts| >= 1
    ensures Stack(head, texts + [last]) == Stack(head, texts) + "\n\n" + last
  {
    JoinAppend(texts, last, "\n\n");
  }

  lemma SectionTextsAppend(sections: seq<Section>, s: Section)
    requires forall i :: 0 <= i < |sections| ==> sections[i].WellTyped()
    requires s.WellTyped()
    ensures forall i :: 0 <= i < |sections + [s]| ==> (sections + [s])[i].WellTyped()
    ensures SectionTexts(sections + [s]) == SectionTexts(sections) + [GenerateSection(s).value]
  {
    var longer := sections + [s];
    assert forall i :: 0 <= i < |sections| ==> longer[i] == sections[i];
    var a, b := SectionTexts(longer), SectionTexts(sections) + [GenerateSection(s).value];
    assert |a| == |b|;
    forall i | 0 <= i < |a| ensures a[i] == b[i] {
      if i < |sections| { assert longer[i] == sections[i]; } else { assert longer[i] == s; }
    }
  }

  /** Sections are emitted in document order: a section added at the end
      of a resume appears after a blank line at the end of the text. */
  lemma AppendedSectionLast(resume: Resume, s: Section)
    requires WellTyped(resume) && s.WellTyped() && |resume.sections| > 0
    ensures WellTyped(resume.(sections := resume.sections + [s]))
    ensures HeaderAndSections(resume.(sections := resume.sections + [s]))
      == HeaderAndSections(resume) + "\n\n" + GenerateSection(s).value
  {
    SectionTextsAppend(resume.sections, s);
    StackAppend(GenerateHeader(resume.header), SectionTexts(resume.sections), GenerateSection(s).value);
  }

  /** The document after the preamble: the header, a blank line, the
      sections in order separated by blank lines, and `\end{document}`. */
  function DocumentBody(resume: Resume): (r: string)
    requires WellTyped(resume)
    ensures EndsWith(r, EndDocument)
  {
    var text := HeaderAndSections(resume);
    EndsWithAppend(text, DocumentEnd);
    EndsWithAppend("\n\n", EndDocument);
    EndsWithTransitive(text + DocumentEnd, DocumentEnd, EndDocument);
    text + DocumentEnd
  }

  /** The document around a given preamble; `None` when a section holds an
      entry of another shape. */
  function Document(preamble: string, resume: Resume): (r: Option<string>)
    ensures r.Some? <==> WellTyped(resume)
    ensures r.Some? ==> StartsWith(r.value, preamble) && EndsWith(r.value, EndDocument)
  {
    if WellTyped(resume) then
      var body := DocumentBody(resume);
      StartsWithAppend(preamble, body);
      EndsWithAppend(preamble, body);
      EndsWithTransitive(preamble + body, body, EndDocument);
      Some(preamble + body)
    else None
  }

  /** `generateLatex`: the document around Jake's preamble. */
  function GenerateLatex(resume: Resume): Option<string> {
    Document(Preamble(), resume)
  }
}

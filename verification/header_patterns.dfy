/** The patterns that read a resume header: the LaTeX commands found by
    `parseLatexToResume`, and the name rule and the e-mail, phone and
    profile-link patterns of `parsePdfTextToResume`. */
module HeaderPatterns {
  import opened Wrappers
  import opened JsString
  import opened RegexSearch
  import opened ResumeModel

  // ---------------------------------------------------------------------
  // LaTeX commands

  /** `[^}]+\}` from `k`: the greedy run of characters other than `}` must
      be non-empty and closed by a `}`; the position of that `}`. */
  function BracedRun(s: string, k: nat): (r: Option<nat>)
    requires k <= |s|
    ensures r.Some? ==> k < r.value < |s| && s[r.value] == '}' && '}' !in s[k..r.value]
    ensures r.None? ==> '}' !in s[k..] || (k < |s| && s[k] == '}')
  {
    var e := RunEnd((c: char) => c != '}', s, k);
    if e == k || e == |s| then None else Some(e)
  }

  /** `\cmd{arg}` occurs at `k`, where `open` is the command with its opening
      brace: the argument is a non-empty run without `}`, closed by `}`. */
  predicate ArgAt(open: string, s: string, k: nat, arg: string) {
    var c := k + |open|;
    OccursAt(s, open, k) && 0 < |arg| && c + |arg| < |s| &&
    s[c..c + |arg|] == arg && s[c + |arg|] == '}' && '}' !in arg
  }

  function CommandTail(open: string, s: string, k: nat): Option<string> {
    if OccursAt(s, open, k) then
      match BracedRun(s, k + |open|)
      case None => None
      case Some(e) => Some(s[k + |open|..e])
    else None
  }

  /** The tail matches at `k` exactly when the command occurs there, with
      the argument it finds. */
  lemma CommandTailIff(open: string, s: string, k: nat, arg: string)
    ensures CommandTail(open, s, k) == Some(arg) <==> ArgAt(open, s, k, arg)
  {
    var c := k + |open|;
    if ArgAt(open, s, k, arg) {
      assert s[c] == arg[0];
      assert s[c..][|arg|] == '}';
    }
  }

  /** `s.match(/\\cmd\{([^}]+)\}/)`: the argument of the leftmost
      occurrence of the command. */
  function CommandArg(open: string, s: string): (r: Option<string>)
    ensures r.Some? ==> exists k: nat :: ArgAt(open, s, k, r.value) && NoArgBefore(open, s, k)
    ensures r.None? ==> NoArgBefore(open, s, |s| + 1)
  {
    var tail := (t: string, k: nat) => CommandTail(open, t, k);
    assert forall j: nat :: tail(s, j) == CommandTail(open, s, j);
    var m := First(tail, s);
    if m.None? then
      assert NoArgBefore(open, s, |s| + 1) by {
        forall j: nat, a | j < |s| + 1 ensures !ArgAt(open, s, j, a) {
          CommandTailIff(open, s, j, a);
        }
      }
      None
    else
      var k := m.value.0;
      assert ArgAt(open, s, k, m.value.1) && NoArgBefore(open, s, k) by {
        CommandTailIff(open, s, k, m.value.1);
        forall j: nat, a | j < k ensures !ArgAt(open, s, j, a) {
          CommandTailIff(open, s, j, a);
        }
      }
      Some(m.value.1)
  }

  /** The command occurs nowhere before `k`. */
  ghost predicate NoArgBefore(open: string, s: string, k: nat) {
    forall j: nat, a :: j < k ==> !ArgAt(open, s, j, a)
  }

  /** The opening of a link command. */
  const HrefOpen: string := "\\href{"

  /** `\href{url}{text}` occurs at `k`, with `caption` as the text. */
  predicate HrefAt(s: string, k: nat, url: string, caption: string) {
    ArgAt(HrefOpen, s, k, url) && ArgAt("{", s, k + |HrefOpen| + |url| + 1, caption)
  }

  function HrefTail(s: string, k: nat): Option<(string, string)> {
    match CommandTail(HrefOpen, s, k)
    case None => None
    case Some(url) =>
      match CommandTail("{", s, k + |HrefOpen| + |url| + 1)
      case None => None
      case Some(caption) => Some((url, caption))
  }

  lemma HrefTailIff(s: string, k: nat, url: string, caption: string)
    ensures HrefTail(s, k) == Some((url, caption)) <==> HrefAt(s, k, url, caption)
  {
    CommandTailIff(HrefOpen, s, k, url);
    CommandTailIff("{", s, k + |HrefOpen| + |url| + 1, caption);
  }

  /** Where the match of a link command ends. */
  function HrefEnd(k: nat, url: string, caption: string): nat {
    k + |HrefOpen| + |url| + 2 + |caption| + 1
  }

  /** The links the global `/\\href\{([^}]+)\}\{([^}]+)\}/g` loop collects
      from position `from` on: each search starts where the previous match
      ended. */
  function Hrefs(s: string, from: nat): (r: seq<Link>)
    ensures forall l :: l in r ==> exists k: nat :: from <= k && HrefAt(s, k, l.url, l.labelText)
    ensures r == [] <==> forall k: nat, url, caption :: from <= k ==> !HrefAt(s, k, url, caption)
    decreases |s| + 1 - from
  {
    if from > |s| then
      NoHrefFrom(s, from);
      []
    else
      match FirstFrom(HrefTail, s, from, |s|)
      case None =>
        NoHrefFrom(s, from);
        []
      case Some((k, (url, caption))) =>
        var rest := Hrefs(s, HrefEnd(k, url, caption));
        HrefsCons(s, from, k, url, caption, rest);
        [Link(caption, url)] + rest
  }

  /** A link found at `k` followed by links found after it are all links
      from `from` on, and there is one. */
  lemma HrefsCons(s: string, from: nat, k: nat, url: string, caption: string, rest: seq<Link>)
    requires from <= k && HrefTail(s, k) == Some((url, caption))
    requires forall l :: l in rest ==> exists j: nat :: HrefEnd(k, url, caption) <= j && HrefAt(s, j, l.url, l.labelText)
    ensures forall l :: l in [Link(caption, url)] + rest ==> exists j: nat :: from <= j && HrefAt(s, j, l.url, l.labelText)
    ensures !forall j: nat, u, c :: from <= j ==> !HrefAt(s, j, u, c)
  {
    HrefTailIff(s, k, url, caption);
    forall l | l in [Link(caption, url)] + rest
      ensures exists j: nat :: from <= j && HrefAt(s, j, l.url, l.labelText)
    {
      if l !in rest {
        assert l == Link(caption, url);
        assert from <= k && HrefAt(s, k, l.url, l.labelText);
      }
    }
  }

  /** When the search from `from` finds nothing, no link starts there or
      later. */
  lemma NoHrefFrom(s: string, from: nat)
    requires from > |s| || FirstFrom(HrefTail, s, from, |s|).None?
    ensures forall k: nat, url, caption :: from <= k ==> !HrefAt(s, k, url, caption)
  {
    forall k: nat, url, caption | from <= k ensures !HrefAt(s, k, url, caption) {
      if k > |s| {
        assert !OccursAt(s, HrefOpen, k);
      } else {
        HrefTailIff(s, k, url, caption);
      }
    }
  }

  // ---------------------------------------------------------------------
  // The header of a plain-text resume

  /** A character of `[@\d+()]`. */
  predicate IsNameStopChar(c: char) {
    c == '@' || IsDigit(c) || c == '+' || c == '(' || c == ')'
  }

  /** The first line is taken as the name when it has 4 to 49 characters,
      none of them `@`, a digit, `+` or a parenthesis. */
  predicate IsNameLine(line: string) {
    3 < |line| < 50 && forall i :: 0 <= i < |line| ==> !IsNameStopChar(line[i])
  }

  /** `[a-zA-Z0-9._%+-]`. */
  predicate IsLocalChar(c: char) {
    IsAsciiAlnum(c) || c == '.' || c == '_' || c == '%' || c == '+' || c == '-'
  }

  /** `[a-zA-Z0-9.-]`. */
  predicate IsDomainChar(c: char) {
    IsAsciiAlnum(c) || c == '.' || c == '-'
  }

  /** `\.[a-zA-Z]{2,}` can start at `j`. */
  predicate DotAt(s: string, j: nat) {
    j + 2 < |s| && s[j] == '.' && IsAsciiLetter(s[j + 1]) && IsAsciiLetter(s[j + 2])
  }

  /** The greedy domain run gives characters back one at a time: the last
      `j` below `hi` and not below `lo` where `\.[a-zA-Z]{2,}` can start. */
  function LastDot(s: string, lo: nat, hi: nat): (r: Option<nat>)
    ensures r.Some? ==> lo <= r.value < hi && DotAt(s, r.value)
    ensures r.Some? ==> forall j :: r.value < j < hi ==> !DotAt(s, j)
    ensures r.None? ==> forall j :: lo <= j < hi ==> !DotAt(s, j)
    decreases hi
  {
    if hi <= lo then None
    else if DotAt(s, hi - 1) then Some(hi - 1)
    else LastDot(s, lo, hi - 1)
  }

  /** `s[k..end]` is a word of `[a-zA-Z0-9][a-zA-Z0-9._%+-]*@[a-zA-Z0-9.-]+\.[a-zA-Z]{2,}`,
      with its `@` at `at` and the `.` before the last part at `dot`. */
  predicate EmailAt(s: string, k: nat, at: nat, dot: nat, end: nat) {
    k < at && at + 1 < dot && dot + 2 < end <= |s| && IsAsciiAlnum(s[k]) &&
    (forall x :: k < x < at ==> IsLocalChar(s[x])) && s[at] == '@' &&
    (forall x :: at < x < dot ==> IsDomainChar(s[x])) && s[dot] == '.' &&
    (forall x :: dot < x < end ==> IsAsciiLetter(s[x]))
  }

  /** The same shape seen in the matched text alone. */
  lemma EmailAtSlice(s: string, k: nat, at: nat, dot: nat, end: nat)
    requires EmailAt(s, k, at, dot, end)
    ensures IsEmail(s[k..end]) && Contains(s, s[k..end])
  {
    var t := s[k..end];
    assert forall x :: 0 <= x < |t| ==> t[x] == s[k + x];
    assert EmailAt(t, 0, at - k, dot - k, end - k);
    assert OccursAt(s, t, k);
  }

  /** The e-mail pattern matched from `k`: the `@`, the `.` and the end. */
  function EmailTail(s: string, k: nat): (r: Option<(nat, nat, nat)>)
    ensures r.Some? ==> EmailAt(s, k, r.value.0, r.value.1, r.value.2)
  {
    if k < |s| && IsAsciiAlnum(s[k]) then
      var at := RunEnd(IsLocalChar, s, k + 1);
      if at < |s| && s[at] == '@' then
        var e := RunEnd(IsDomainChar, s, at + 1);
        match LastDot(s, at + 2, e + 1)
        case None => None
        case Some(j) =>
          var end := RunEnd(IsAsciiLetter, s, j + 1);
          EmailParts(s, k, at, e, j, end);
          Some((at, j, end))
      else None
    else None
  }

  /** The runs the e-mail pattern reads, and a dot found inside the domain
      run, make up an address. */
  lemma EmailParts(s: string, k: nat, at: nat, e: nat, j: nat, end: nat)
    requires k < at < |s| && IsAsciiAlnum(s[k]) && s[at] == '@'
    requires forall x :: k < x < at ==> IsLocalChar(s[x])
    requires at < e <= |s| && (forall x :: at < x < e ==> IsDomainChar(s[x]))
    requires e == |s| || !IsDomainChar(s[e])
    requires at + 2 <= j <= e && DotAt(s, j)
    requires j + 1 <= end <= |s| && (forall x :: j < x < end ==> IsAsciiLetter(s[x]))
    requires end == |s| || !IsAsciiLetter(s[end])
    ensures EmailAt(s, k, at, j, end)
  {
    assert j < e;
    assert end != j + 1 && end != j + 2;
  }

  /** `t` is an e-mail address of the pattern, as a whole. */
  predicate IsEmail(t: string) {
    exists i, j | 0 <= i <= j <= |t| :: EmailAt(t, 0, i, j, |t|)
  }

  /** `text.match(emailRegex)[0]`: the leftmost e-mail address. */
  function Email(text: string): (r: Option<string>)
    ensures r.Some? ==> IsEmail(r.value) && Contains(text, r.value)
    ensures r.None? <==> forall k :: 0 <= k <= |text| ==> EmailTail(text, k).None?
    ensures r.Some? ==> exists k :: (0 <= k <= |text| && EmailTail(text, k).Some? &&
      r.value == text[k..EmailTail(text, k).value.2] &&
      forall j :: 0 <= j < k ==> EmailTail(text, j).None?)
  {
    match First(EmailTail, text)
    case None => None
    case Some((k, (at, dot, end))) =>
      EmailAtSlice(text, k, at, dot, end);
      Some(text[k..end])
  }

  /** Whenever an address of the pattern occurs, one is found. */
  lemma EmailFound(s: string, k: nat, at: nat, dot: nat, end: nat)
    requires EmailAt(s, k, at, dot, end)
    ensures Email(s).Some?
  {
    var a := RunEnd(IsLocalChar, s, k + 1);
    assert a == at;
    var e := RunEnd(IsDomainChar, s, at + 1);
    assert e >= end;
    assert DotAt(s, dot);
    assert EmailTail(s, k).Some?;
  }

  /** `\+?\d{10,}` matched from `k`: an optional `+` and ten or more
      digits; where the match ends. */
  function PhoneTail(s: string, k: nat): (r: Option<nat>)
    ensures r.Some? ==> k + 10 <= r.value <= |s| && IsPhone(s[k..r.value])
  {
    if k > |s| then None
    else if k < |s| && s[k] == '+' then
      var e := RunEnd(IsDigit, s, k + 1);
      if e >= k + 11 then
        assert s[k..e][1..] == s[k + 1..e];
        Some(e)
      else None
    else
      var e := RunEnd(IsDigit, s, k);
      if e >= k + 10 then Some(e) else None
  }

  /** A word of `\+?\d{10,}`. */
  predicate IsPhone(t: string) {
    (|t| >= 10 && AllDigits(t)) || (|t| >= 11 && t[0] == '+' && AllDigits(t[1..]))
  }

  /** Ten digits in a row start at `k`. */
  predicate TenDigitsAt(text: string, k: nat) {
    k + 10 <= |text| && AllDigits(text[k..k + 10])
  }

  /** `text.match(phoneRegex)[0]`: the leftmost phone number. */
  function Phone(text: string): (r: Option<string>)
    ensures r.Some? ==> IsPhone(r.value) && Contains(text, r.value)
    ensures r.None? ==> forall k: nat :: !TenDigitsAt(text, k)
    ensures r.None? <==> forall k :: 0 <= k <= |text| ==> PhoneTail(text, k).None?
    ensures r.Some? ==> exists k :: (0 <= k <= |text| && PhoneTail(text, k).Some? &&
      r.value == text[k..PhoneTail(text, k).value] &&
      forall j :: 0 <= j < k ==> PhoneTail(text, j).None?)
  {
    match First(PhoneTail, text)
    case None =>
      assert forall k: nat :: !TenDigitsAt(text, k) by {
        forall k: nat | TenDigitsAt(text, k) ensures PhoneTail(text, k).Some? {
          assert text[k] == text[k..k + 10][0];
        }
      }
      None
    case Some((k, e)) =>
      assert OccursAt(text, text[k..e], k);
      Some(text[k..e])
  }

  /** `[a-zA-Z0-9-]`. */
  predicate IsHandleChar(c: char) {
    IsAsciiAlnum(c) || c == '-'
  }

  /** `prefix([a-zA-Z0-9-]+)` under `/i` matched from `k`: the handle. */
  function HandleTail(prefix: string, s: string, k: nat): (r: Option<string>)
    ensures r.Some? ==> PrefixAt(prefix, s, k) && OccursAt(s, r.value, k + |prefix|) && IsHandle(r.value)
    ensures r.Some? <==> PrefixAt(prefix, s, k) && k + |prefix| < |s| && IsHandleChar(s[k + |prefix|])
  {
    if PrefixAt(prefix, s, k) then
      var e := RunEnd(IsHandleChar, s, k + |prefix|);
      if e > k + |prefix| then Some(s[k + |prefix|..e]) else None
    else None
  }

  /** `prefix` occurs at `k`, in any case. */
  predicate PrefixAt(prefix: string, s: string, k: nat) {
    k + |prefix| <= |s| && EqualsIgnoreCase(s[k..k + |prefix|], prefix)
  }

  predicate IsHandle(t: string) {
    |t| > 0 && forall i :: 0 <= i < |t| ==> IsHandleChar(t[i])
  }

  /** The handle after the leftmost occurrence of `prefix`, in any case,
      that is followed by at least one handle character. */
  function Handle(prefix: string, s: string): (r: Option<string>)
    ensures r.Some? ==> IsHandle(r.value) && exists k: nat :: PrefixAt(prefix, s, k) && OccursAt(s, r.value, k + |prefix|)
    ensures r.None? <==> forall k :: 0 <= k <= |s| ==> HandleTail(prefix, s, k).None?
    ensures r.Some? ==> exists k :: (0 <= k <= |s| && HandleTail(prefix, s, k) == r &&
      forall j :: 0 <= j < k ==> HandleTail(prefix, s, j).None?)
  {
    var tail := (t: string, k: nat) => HandleTail(prefix, t, k);
    assert forall j: nat :: tail(s, j) == HandleTail(prefix, s, j);
    match First(tail, s)
    case None => None
    case Some((k, h)) => Some(h)
  }
}

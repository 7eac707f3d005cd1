/** `parseLatexToResume`: reads the header of a LaTeX resume from its
    `\name`, `\phone` and `\email` commands and its `\href` links; it reads
    no sections. */
module LatexParser {
  import opened Wrappers
  import opened RegexSearch
  import opened HeaderPatterns
  import opened ResumeModel

  /** `v` is what a header field gets from the leftmost `\cmd{...}`: its
      argument, or the empty string when the command occurs nowhere. */
  ghost predicate IsFirstArg(open: string, s: string, v: string) {
    (v != "" && exists k: nat :: ArgAt(open, s, k, v) && NoArgBefore(open, s, k)) ||
    (v == "" && NoArgBefore(open, s, |s| + 1))
  }

  /** One header field: the argument of the first match, if there is one. */
  method ReadCommand(open: string, s: string) returns (v: string)
    ensures IsFirstArg(open, s, v)
  {
    v := "";
    var m := CommandArg(open, s);
    if m.Some? {
      v := m.value;
      ghost var k: nat :| ArgAt(open, s, k, v) && NoArgBefore(open, s, k);
    }
  }

  /** One `linkRegex.exec`: the next link command from `lastIndex` on. */
  function ExecHref(s: string, lastIndex: nat): Option<(nat, (string, string))> {
    if lastIndex > |s| then None else FirstFrom(HrefTail, s, lastIndex, |s|)
  }

  /** The `while` loop over `linkRegex.exec`: the links, in text order, each
      search resuming where the previous match ended. */
  method ReadLinks(s: string) returns (links: seq<Link>)
    ensures links == Hrefs(s, 0)
  {
    links := [];
    var lastIndex: nat := 0;
    var m := ExecHref(s, lastIndex);
    while m.Some?
      invariant lastIndex <= |s| + 1
      invariant m == ExecHref(s, lastIndex)
      invariant links + Hrefs(s, lastIndex) == Hrefs(s, 0)
      decreases |s| + 1 - lastIndex
    {
      var (k, (url, caption)) := m.value;
      HrefTailIff(s, k, url, caption);
      assert Hrefs(s, lastIndex) == [Link(caption, url)] + Hrefs(s, HrefEnd(k, url, caption));
      links := links + [Link(caption, url)];
      lastIndex := HrefEnd(k, url, caption);
      m := ExecHref(s, lastIndex);
    }
  }

  method ParseLatexToResume(latex: string) returns (r: Resume)
    ensures IsFirstArg("\\name{", latex, r.header.name)
    ensures IsFirstArg("\\phone{", latex, r.header.phone)
    ensures IsFirstArg("\\email{", latex, r.header.email)
    ensures r.header.links == Hrefs(latex, 0)
    ensures r.sections == []
  {
    var name := ReadCommand("\\name{", latex);
    var phone := ReadCommand("\\phone{", latex);
    var email := ReadCommand("\\email{", latex);
    var links := ReadLinks(latex);
    r := Resume(Header(name, phone, email, links), []);
  }
}

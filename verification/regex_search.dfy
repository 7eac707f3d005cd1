/** The pieces every regular expression of the parser is built from, with
    JavaScript's matching order: the search tries start positions from left
    to right, a lazy `(.*?)` group takes as few characters as it can and
    never crosses a line terminator, and a greedy run takes as many as it
    can. Each pattern of the parser is then a "tail" function that says
    whether the rest of the pattern matches at a position. */
module RegexSearch {
  import opened Wrappers
  import opened JsString

  /** The first position `k` in `from..limit` where `tail` matches, with what
      it matched: the leftmost match. */
  function FirstFrom<T>(tail: (string, nat) -> Option<T>, s: string, from: nat, limit: nat): (r: Option<(nat, T)>)
    ensures r.Some? ==> from <= r.value.0 <= limit && tail(s, r.value.0) == Some(r.value.1)
    ensures r.Some? ==> forall j :: from <= j < r.value.0 ==> tail(s, j).None?
    ensures r.None? ==> forall j :: from <= j <= limit ==> tail(s, j).None?
    decreases limit + 1 - from
  {
    if from > limit then None
    else
      match tail(s, from)
      case Some(t) => Some((from, t))
      case None => FirstFrom(tail, s, from + 1, limit)
  }

  /** The leftmost match anywhere in `s`. */
  function First<T>(tail: (string, nat) -> Option<T>, s: string): (r: Option<(nat, T)>)
    ensures r.Some? ==> r.value.0 <= |s| && tail(s, r.value.0) == Some(r.value.1)
    ensures r.Some? ==> forall j :: 0 <= j < r.value.0 ==> tail(s, j).None?
    ensures r.None? <==> forall j :: 0 <= j <= |s| ==> tail(s, j).None?
  {
    FirstFrom(tail, s, 0, |s|)
  }

  /** Where a lazy `(.*?)` that ends at `k` starts: the leftmost start from
      which no line terminator lies before `k`. */
  function LineStart(s: string, k: nat): (p: nat)
    requires k <= |s|
    ensures p <= k
    ensures NoLineBreak(s[p..k])
    ensures p == 0 || IsLineBreak(s[p - 1])
  {
    if k == 0 || IsLineBreak(s[k - 1]) then k
    else
      var p := LineStart(s, k - 1);
      assert s[p..k] == s[p..k - 1] + [s[k - 1]];
      p
  }

  /** The index of the first line terminator, or the length: how far an
      anchored `^(.*?)` group can reach. */
  function FirstBreak(s: string): (k: nat)
    ensures k <= |s|
    ensures NoLineBreak(s[..k])
    ensures k < |s| ==> IsLineBreak(s[k])
  {
    if s == [] || IsLineBreak(s[0]) then 0
    else
      var k := FirstBreak(s[1..]);
      assert s[..k + 1] == [s[0]] + s[1..][..k];
      k + 1
  }

  /** The end of the greedy run of characters satisfying `p` from `k`. */
  function RunEnd(p: char -> bool, s: string, k: nat): (e: nat)
    requires k <= |s|
    ensures k <= e <= |s|
    ensures forall j :: k <= j < e ==> p(s[j])
    ensures e == |s| || !p(s[e])
    decreases |s| - k
  {
    if k == |s| || !p(s[k]) then k else RunEnd(p, s, k + 1)
  }

  /** The end of the greedy `\s` run from `k`. */
  function SpaceRun(s: string, k: nat): (e: nat)
    requires k <= |s|
    ensures k <= e <= |s|
    ensures forall j :: k <= j < e ==> IsSpace(s[j])
    ensures e == |s| || !IsSpace(s[e])
  {
    RunEnd(IsSpace, s, k)
  }

  /** `m` is one of `words` up to case, as an alternation of them under the
      `/i` flag accepts it. */
  predicate IsWordOf(words: seq<string>, m: string)
    decreases |words|
  {
    |words| > 0 && (EqualsIgnoreCase(m, words[0]) || IsWordOf(words[1..], m))
  }

  lemma {:induction false} IsWordOfIff(words: seq<string>, m: string)
    ensures IsWordOf(words, m) <==> exists w :: w in words && EqualsIgnoreCase(m, w)
    decreases |words|
  {
    if |words| > 0 {
      IsWordOfIff(words[1..], m);
      assert forall w :: w in words <==> w == words[0] || w in words[1..];
    }
  }

  /** An alternation of literal words under the `/i` flag: the first word
      that occurs at `k`, as written in `s`; with `atEnd` the word must also
      end the string (the alternation followed by `$`). */
  function WordAt(words: seq<string>, s: string, k: nat, atEnd: bool): (r: Option<string>)
    ensures r.Some? ==> OccursAt(s, r.value, k) && IsWordOf(words, r.value)
    ensures r.Some? && atEnd ==> k + |r.value| == |s|
    ensures r.None? ==> forall w :: w in words && k + |w| <= |s| && (atEnd ==> k + |w| == |s|) ==>
      !EqualsIgnoreCase(s[k..k + |w|], w)
  {
    if words == [] then None
    else
      var w := words[0];
      if k + |w| <= |s| && (atEnd ==> k + |w| == |s|) && EqualsIgnoreCase(s[k..k + |w|], w) then
        Some(s[k..k + |w|])
      else
        WordAt(words[1..], s, k, atEnd)
  }
}

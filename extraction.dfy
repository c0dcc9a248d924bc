/**
 * `extract_sandpack_block` (scripts/generate-playgrounds.py): remove the
 * code fences the model may add, search for the playground with two
 * patterns in order, put the heading in front when it is missing, and
 * return the block behind a blank line.
 */
module Extraction {
  import opened Wrappers
  import opened Text
  import opened Lessons

  /** The self-closing end of the Sandpack element. */
  const SelfClose := "/>"

  /** The length of the opening fence ```` ```(html|jsx|mdx|tsx)?\n ```` at the start of `s`, or 0. */
  function OpenFenceLength(s: string): (n: nat)
    ensures n == 0 || (|s| >= n >= 4 && OccursAt(s, "```", 0))
  {
    if !OccursAt(s, "```", 0) then 0
    else FenceLanguageLength(s[3..])
  }

  /** The length of `(html|jsx|mdx|tsx)?\n` at the start of `s`, plus the three backticks, or 0. */
  function FenceLanguageLength(s: string): (n: nat)
    ensures n == 0 || (|s| + 3 >= n >= 4)
  {
    if StartsWith(s, "\n") then 4
    else if StartsWith(s, "html\n") then 8
    else if StartsWith(s, "jsx\n") || StartsWith(s, "mdx\n") || StartsWith(s, "tsx\n") then 7
    else 0
  }

  /** `p` occurs in `s[1..]` at `j` only if it occurs in `s` at `j + 1`. */
  lemma OccursInTail(s: string, p: string, j: nat)
    requires |s| > 0 && OccursAt(s[1..], p, j)
    ensures OccursAt(s, p, j + 1)
  {
    assert s[1..][j..j + |p|] == s[j + 1..j + 1 + |p|];
  }

  /**
   * The first `re.sub`: every opening fence, scanning left to right,
   * is deleted. Text without three backticks in a row is left as it is.
   */
  function RemoveOpenFences(s: string): (r: string)
    ensures |r| <= |s|
    decreases |s|
  {
    if s == [] then []
    else
      var n := OpenFenceLength(s);
      if n > 0 then RemoveOpenFences(s[n..])
      else [s[0]] + RemoveOpenFences(s[1..])
  }

  /** Text without three backticks in a row has no opening fence and is left as it is. */
  lemma {:induction false} OpenFencesAbsent(s: string)
    requires !Contains(s, "```")
    ensures RemoveOpenFences(s) == s
    decreases |s|
  {
    if s != [] {
      assert !OccursAt(s, "```", 0);
      assert !Contains(s[1..], "```") by { NoTicksInTail(s); }
      OpenFencesAbsent(s[1..]);
      OpenFenceStep(s);
      assert s == [s[0]] + s[1..];
    }
  }

  /** `j` is where `$` matches under `re.MULTILINE`: the end of the text or just before a newline. */
  predicate AtLineEnd(s: string, j: nat) {
    j == |s| || (j < |s| && s[j] == '\n')
  }

  /** The largest position in `lo..hi` where `$` matches: greedy `\s*` backs off to this one. */
  function LastLineEnd(s: string, lo: nat, hi: nat): (e: Option<nat>)
    requires lo <= hi <= |s|
    ensures e.Some? ==> lo <= e.value <= hi && AtLineEnd(s, e.value)
    ensures e.Some? ==> forall j :: e.value < j <= hi ==> !AtLineEnd(s, j)
    ensures e.None? ==> forall j :: lo <= j <= hi ==> !AtLineEnd(s, j)
    decreases hi - lo
  {
    if AtLineEnd(s, hi) then Some(hi)
    else if hi == lo then None
    else LastLineEnd(s, lo, hi - 1)
  }

  /** The end of a match of ```` \n```\s*$ ```` at the start of `s`, if one matches there. */
  function CloseFenceEnd(s: string): (e: Option<nat>)
    ensures e.Some? ==> 4 <= e.value <= |s| && OccursAt(s, "\n```", 0)
  {
    if !StartsWith(s, "\n```") then None
    else LastLineEnd(s, 4, SkipSpaces(s, 4))
  }

  /**
   * The second `re.sub` (with `re.MULTILINE`): every closing fence, with
   * the whitespace after it up to a line end, is deleted, scanning left to
   * right. Text without three backticks in a row is left as it is.
   */
  function RemoveCloseFences(s: string): (r: string)
    ensures |r| <= |s|
    decreases |s|
  {
    if s == [] then []
    else match CloseFenceEnd(s)
      case Some(e) => RemoveCloseFences(s[e..])
      case None => [s[0]] + RemoveCloseFences(s[1..])
  }

  /** Text without three backticks in a row has no closing fence and is left as it is. */
  lemma {:induction false} CloseFencesAbsent(s: string)
    requires !Contains(s, "```")
    ensures RemoveCloseFences(s) == s
    decreases |s|
  {
    if s != [] {
      assert CloseFenceEnd(s).None? by {
        assert !OccursAt(s, "```", 1);
        NotCloseFence(s);
      }
      assert !Contains(s[1..], "```") by { NoTicksInTail(s); }
      CloseFencesAbsent(s[1..]);
      CloseFenceStep(s);
      assert s == [s[0]] + s[1..];
    }
  }

  /** The text after both substitutions and `strip()`. */
  function CleanText(text: string): string {
    Strip(RemoveCloseFences(RemoveOpenFences(text)))
  }

  /** The two patterns, tried in this order. */
  datatype Pattern =
    | HeadedBlock(heading: string)   // `(## Интерактивный пример\s*\n+<Sandpack[\s\S]*?/>)`
    | BareBlock                      // `(<Sandpack[\s\S]*?/>)`

  const Headed := HeadedBlock(SectionHeading)
  const Patterns := [Headed, BareBlock]

  /**
   * The end of the lazy `<Sandpack[\s\S]*?/>` for the tag at `k`: just past
   * the first `/>` after the tag, which may lie inside the generated code.
   */
  function ElementEnd(t: string, k: nat): (e: Option<nat>)
    requires OccursAt(t, SandpackTag, k)
    ensures e.Some? ==> k + |SandpackTag| + 2 <= e.value <= |t| && OccursAt(t, SelfClose, e.value - 2)
    ensures e.Some? ==> forall c :: k + |SandpackTag| <= c < e.value - 2 ==> !OccursAt(t, SelfClose, c)
    ensures e.None? ==> forall c :: k + |SandpackTag| <= c ==> !OccursAt(t, SelfClose, c)
  {
    match Find(t, SelfClose, k + |SandpackTag|)
    case Some(c) => Some(c + 2)
    case None => None
  }

  /**
   * The end of the match of pattern `p` starting at `i`, if it matches there.
   * For the headed pattern, `\s*\n+` must take the whole run of whitespace
   * after the heading, and that run must end with a newline, since the tag
   * that follows is not whitespace.
   */
  function MatchAt(p: Pattern, t: string, i: nat): (e: Option<nat>)
    ensures e.Some? ==> i < e.value <= |t|
  {
    match p
    case BareBlock =>
      if OccursAt(t, SandpackTag, i) then ElementEnd(t, i) else None
    case HeadedBlock(heading) =>
      if !OccursAt(t, heading, i) then None
      else
        var j := i + |heading|;
        var k := SkipSpaces(t, j);
        if j < k && t[k - 1] == '\n' && OccursAt(t, SandpackTag, k) then ElementEnd(t, k) else None
  }

  /** The first position in `from..to` where `matchAt` gives a match, with the end of that match. */
  function FirstMatch(matchAt: nat -> Option<nat>, from: nat, to: nat): Option<(nat, nat)>
    decreases if from <= to then to - from else 0
  {
    if to <= from then None
    else match matchAt(from)
      case Some(e) => Some((from, e))
      case None => FirstMatch(matchAt, from + 1, to)
  }

  /** The position found is the first in the range that matches; with none found, none in the range matches. */
  lemma {:induction false} FirstMatchIsFirst(matchAt: nat -> Option<nat>, from: nat, to: nat)
    ensures var m := FirstMatch(matchAt, from, to);
            && (m.Some? ==> from <= m.value.0 < to && matchAt(m.value.0) == Some(m.value.1))
            && (m.Some? ==> forall i :: from <= i < m.value.0 ==> matchAt(i).None?)
            && (m.None? ==> forall i :: from <= i < to ==> matchAt(i).None?)
    decreases if from <= to then to - from else 0
  {
    if from < to && matchAt(from).None? {
      FirstMatchIsFirst(matchAt, from + 1, to);
    }
  }

  /** `re.search`: the leftmost position at or after `from` where `p` matches, with the end of the match. */
  function Search(p: Pattern, t: string, from: nat): (m: Option<(nat, nat)>)
    ensures m.Some? ==> from <= m.value.0 < m.value.1 <= |t|
  {
    FirstMatchIsFirst(Matcher(p, t), from, |t|);
    FirstMatch(Matcher(p, t), from, |t|)
  }

  /**
   * Where `p` matches in `t`, as a function of the start position. The
   * ensures only exposes the lambda to the scan lemmas.
   */
  function Matcher(p: Pattern, t: string): (f: nat -> Option<nat>)
    ensures forall i :: f(i) == MatchAt(p, t, i)
  {
    i => MatchAt(p, t, i)
  }

  /** The match found is the leftmost one; with none found, `p` matches nowhere from `from` on. */
  lemma SearchIsLeftmost(p: Pattern, t: string, from: nat)
    ensures var m := Search(p, t, from);
            && (m.Some? ==> from <= m.value.0 && MatchAt(p, t, m.value.0) == Some(m.value.1))
            && (m.Some? ==> forall i :: from <= i < m.value.0 ==> MatchAt(p, t, i).None?)
            && (m.None? ==> forall i :: from <= i ==> MatchAt(p, t, i).None?)
  {
    var f := Matcher(p, t);
    var m := FirstMatch(f, from, |t|);
    FirstMatchIsFirst(f, from, |t|);
    assert Search(p, t, from) == m;
    forall i | from <= i && (m.None? || i < m.value.0) ensures MatchAt(p, t, i).None? {
      if i < |t| {
        assert f(i).None?;
      } else {
        NoMatchPastEnd(p, t, i);
      }
    }
    if m.Some? {
      assert f(m.value.0) == Some(m.value.1);
    }
  }

  lemma NoMatchPastEnd(p: Pattern, t: string, i: nat)
    requires |t| <= i
    ensures MatchAt(p, t, i).None?
  {
  }

  /** `t` holds the Sandpack tag with a `/>` somewhere after it. */
  ghost predicate HasClosedElement(t: string) {
    exists k: nat, c: nat :: OccursAt(t, SandpackTag, k) && k + |SandpackTag| <= c && OccursAt(t, SelfClose, c)
  }

  /** What is returned for the stripped match `block`: the `endswith` check, the heading put in front if missing and a blank line. */
  function Accept(block: string): Option<string> {
    if !EndsWith(block, SelfClose) then None
    else if !StartsWith(block, "##") then Some("\n\n" + SectionHeading + "\n\n" + block)
    else Some("\n\n" + block)
  }

  /** The result of the first pattern that matches, as the loop over `patterns` returns it. */
  function TryPatterns(ps: seq<Pattern>, t: string): Option<string> {
    if ps == [] then None
    else match Search(ps[0], t, 0)
      case None => TryPatterns(ps[1..], t)
      case Some((i, e)) => Accept(Strip(t[i..e]))
  }

  /** Where the Sandpack tag of a match that starts at `i` stands. */
  function TagPosition(p: Pattern, t: string, i: nat): (k: nat)
    requires MatchAt(p, t, i).Some?
    ensures i <= k && OccursAt(t, SandpackTag, k) && MatchAt(p, t, i) == ElementEnd(t, k)
    ensures i + |MatchStart(p)| <= k + |SandpackTag|
  {
    if p == BareBlock then i else SkipSpaces(t, i + |p.heading|)
  }

  /** The text a match of `p` starts with. */
  function MatchStart(p: Pattern): string {
    match p
    case HeadedBlock(heading) => heading
    case BareBlock => SandpackTag
  }

  /**
   * What a match looks like: it starts with the heading or with the tag as
   * its pattern says, holds the tag and ends with `/>`.
   */
  lemma MatchShape(p: Pattern, t: string, i: nat, e: nat)
    requires MatchAt(p, t, i) == Some(e)
    ensures i + 2 <= e && OccursAt(t[i..e], SelfClose, e - i - 2)
    ensures OccursAt(t[i..e], MatchStart(p), 0)
    ensures Contains(t[i..e], SandpackTag)
  {
    var k := TagPosition(p, t, i);
    assert OccursAt(t, MatchStart(p), i);
    SliceShape(t, MatchStart(p), i, k, e);
  }

  /** The slice from a start text to just past a `/>` after a tag starts with the one and holds the others. */
  lemma SliceShape(t: string, start: string, i: nat, k: nat, e: nat)
    requires OccursAt(t, start, i) && i <= k && OccursAt(t, SandpackTag, k) && i + |start| <= k + |SandpackTag|
    requires k + |SandpackTag| + 2 <= e <= |t| && OccursAt(t, SelfClose, e - 2)
    ensures i + 2 <= e && OccursAt(t[i..e], SelfClose, e - i - 2)
    ensures OccursAt(t[i..e], start, 0)
    ensures Contains(t[i..e], SandpackTag)
  {
    OccursInSlice(t, SandpackTag, k, i, e);
    OccursInSlice(t, SelfClose, e - 2, i, e);
    OccursInSlice(t, start, i, i, e);
  }

  /** The first characters of the heading and of the tag. */
  lemma StartMarks()
    ensures |SectionHeading| >= 2 && SectionHeading[..2] == "##"
    ensures |SandpackTag| >= 2 && SandpackTag[0] == '<'
  {
  }

  /**
   * Text that starts with the heading or the tag and ends with `/>` is its
   * own `strip()`, and it starts with `##` exactly when it starts with the heading.
   */
  lemma MatchEnds(m: string, start: string, headed: bool)
    requires |m| >= 2 && OccursAt(m, SelfClose, |m| - 2)
    requires |start| >= 2 && OccursAt(m, start, 0)
    requires headed ==> start[..2] == "##"
    requires !headed ==> start[0] == '<'
    ensures EndsWith(m, SelfClose)
    ensures StartsWith(m, start)
    ensures Strip(m) == m
    ensures StartsWith(m, "##") <==> headed
  {
    assert m[|m| - 2..] == SelfClose;
    assert m[|m| - 1] == '>';
    assert m[..|start|] == start;
    assert m[0] == start[0];
    if headed {
      assert m[..2] == start[..2];
    }
    StripUnchanged(m);
  }

  /**
   * The match is lazy: it ends just past the first `/>` after its tag,
   * even when that `/>` lies inside the generated code.
   */
  lemma MatchIsLazy(p: Pattern, t: string, i: nat, e: nat)
    requires MatchAt(p, t, i) == Some(e)
    ensures var k := TagPosition(p, t, i);
            && k + |SandpackTag| <= e - 2
            && Find(t, SelfClose, k + |SandpackTag|) == Some(e - 2)
            && forall c :: k + |SandpackTag| <= c < e - 2 ==> !OccursAt(t, SelfClose, c)
  {
    var k := TagPosition(p, t, i);
    ElementEndIsFind(t, k, e);
  }

  /** The lazy end of an element is the first `/>` after its tag. */
  lemma ElementEndIsFind(t: string, k: nat, e: nat)
    requires OccursAt(t, SandpackTag, k) && ElementEnd(t, k) == Some(e)
    ensures k + |SandpackTag| <= e - 2 && Find(t, SelfClose, k + |SandpackTag|) == Some(e - 2)
    ensures forall c :: k + |SandpackTag| <= c < e - 2 ==> !OccursAt(t, SelfClose, c)
  {
  }

  /** Either pattern matches only where a tag is followed by `/>`. */
  lemma SearchFindsElement(p: Pattern, t: string)
    requires Search(p, t, 0).Some?
    ensures HasClosedElement(t)
  {
    SearchIsLeftmost(p, t, 0);
    var (i, e) := Search(p, t, 0).value;
    var k := TagPosition(p, t, i);
    assert OccursAt(t, SelfClose, e - 2);
  }

  /** `extract_sandpack_block`: the first pattern's result on the cleaned text. */
  function ExtractSandpackBlock(text: string): Option<string> {
    TryPatterns(Patterns, CleanText(text))
  }

  /**
   * A result of `extract_sandpack_block` is a blank line followed by a block
   * that starts with the heading, holds the tag and ends with `/>`; there is
   * no result exactly when the cleaned text has no tag followed by `/>`.
   */
  lemma ExtractedBlockShape(text: string)
    ensures var r := ExtractSandpackBlock(text);
            && (r.Some? ==> StartsWith(r.value, "\n\n" + SectionHeading))
            && (r.Some? ==> Contains(r.value[2..], SandpackTag) && EndsWith(r.value, SelfClose))
            && (r.Some? ==> Contains(r.value, SandpackTag))
            && (r.None? <==> !HasClosedElement(CleanText(text)))
  {
    ExtractionCases(CleanText(text));
  }

  /** The loop over the two patterns: the heading pattern first, then the bare one. */
  lemma TryBoth(t: string)
    ensures TryPatterns(Patterns, t) ==
              match Search(Headed, t, 0)
              case Some((i, e)) => Accept(Strip(t[i..e]))
              case None => TryPatterns([BareBlock], t)
    ensures TryPatterns([BareBlock], t) ==
              match Search(BareBlock, t, 0)
              case Some((i, e)) => Accept(Strip(t[i..e]))
              case None => None
  {
    assert Patterns[0] == Headed && Patterns[1..] == [BareBlock];
    assert [BareBlock][1..] == [];
  }

  /**
   * A match of the heading pattern is returned as it is; a match of the
   * bare pattern, which never starts with `##`, gets the heading put in front.
   */
  lemma AcceptMatch(p: Pattern, t: string, i: nat, e: nat)
    requires p in Patterns && MatchAt(p, t, i) == Some(e)
    ensures Accept(Strip(t[i..e])) == Some(if p == Headed then "\n\n" + t[i..e]
                                           else "\n\n" + SectionHeading + "\n\n" + t[i..e])
    ensures var r := Accept(Strip(t[i..e])).value;
            StartsWith(r, "\n\n" + SectionHeading) && EndsWith(r, SelfClose)
            && Contains(r[2..], SandpackTag) && Contains(r, SandpackTag)
  {
    MatchShape(p, t, i, e);
    var m := t[i..e];
    StartMarks();
    MatchEnds(m, MatchStart(p), p == Headed);
    AcceptShape(m, p == Headed);
  }

  lemma AcceptShape(m: string, headed: bool)
    requires EndsWith(m, SelfClose) && Contains(m, SandpackTag)
    requires StartsWith(m, "##") <==> headed
    requires headed ==> StartsWith(m, SectionHeading)
    ensures Accept(m) == Some(if headed then "\n\n" + m else "\n\n" + SectionHeading + "\n\n" + m)
    ensures var r := Accept(m).value;
            StartsWith(r, "\n\n" + SectionHeading) && EndsWith(r, SelfClose)
            && Contains(r[2..], SandpackTag) && Contains(r, SandpackTag)
  {
    if headed {
      assert Accept(m) == Some("\n\n" + m);
      assert "\n\n" + "" + m == "\n\n" + m;
      BlockShape(SectionHeading, "", m);
    } else {
      assert Accept(m) == Some("\n\n" + SectionHeading + "\n\n" + m);
      HeadingBlockShape(SectionHeading, m);
    }
  }

  /** A block made of a blank line, the heading `h`, a blank line and a match keeps the heading in front. */
  lemma HeadingBlockShape(h: string, m: string)
    requires Contains(m, SandpackTag) && EndsWith(m, SelfClose)
    ensures var r := "\n\n" + h + "\n\n" + m;
            StartsWith(r, "\n\n" + h) && EndsWith(r, SelfClose)
            && Contains(r[2..], SandpackTag) && Contains(r, SandpackTag)
  {
    assert StartsWith(h + "\n\n" + m, h) by { assert (h + "\n\n" + m)[..|h|] == h; }
    BlockShape(h, h + "\n\n", m);
    assert "\n\n" + (h + "\n\n") + m == "\n\n" + h + "\n\n" + m;
  }

  /** When neither pattern matches, no tag in the text is followed by `/>`. */
  lemma NoMatchNoElement(t: string)
    requires Search(BareBlock, t, 0).None?
    ensures !HasClosedElement(t)
  {
    SearchIsLeftmost(BareBlock, t, 0);
    forall k: nat, c: nat | OccursAt(t, SandpackTag, k) && k + |SandpackTag| <= c
      ensures !OccursAt(t, SelfClose, c)
    {
      assert MatchAt(BareBlock, t, k).None?;
    }
  }

  /** The cases of `extract_sandpack_block` on the cleaned text `t`. */
  lemma ExtractionCases(t: string)
    ensures TryPatterns(Patterns, t).None? <==> !HasClosedElement(t)
    ensures TryPatterns(Patterns, t).Some? ==>
              var r := TryPatterns(Patterns, t).value;
              StartsWith(r, "\n\n" + SectionHeading) && EndsWith(r, SelfClose)
              && Contains(r[2..], SandpackTag) && Contains(r, SandpackTag)
  {
    TryBoth(t);
    SearchIsLeftmost(Headed, t, 0);
    SearchIsLeftmost(BareBlock, t, 0);
    match Search(Headed, t, 0)
    case Some((i, e)) =>
      AcceptMatch(Headed, t, i, e);
      SearchFindsElement(Headed, t);
    case None =>
      match Search(BareBlock, t, 0)
      case Some((i, e)) =>
        AcceptMatch(BareBlock, t, i, e);
        SearchFindsElement(BareBlock, t);
      case None =>
        NoMatchNoElement(t);
  }

  /** A block made of `prefix` and a match keeps the match's tag and `/>` end. */
  lemma BlockShape(h: string, prefix: string, m: string)
    requires StartsWith(prefix + m, h)
    requires Contains(m, SandpackTag) && EndsWith(m, SelfClose)
    ensures var r := "\n\n" + prefix + m;
            StartsWith(r, "\n\n" + h) && EndsWith(r, SelfClose)
            && Contains(r[2..], SandpackTag) && Contains(r, SandpackTag)
  {
    var body := prefix + m;
    var r := "\n\n" + body;
    assert r == "\n\n" + prefix + m;
    assert r[2..] == body;
    assert Contains(body, SandpackTag) by { ContainsAfter(prefix, m, SandpackTag); }
    assert Contains(r, SandpackTag) by { ContainsAfter("\n\n", body, SandpackTag); }
    assert EndsWith(r, SelfClose) by { assert r[|r| - 2..] == m[|m| - 2..]; }
    assert StartsWith(r, "\n\n" + h) by {
      assert r[..2 + |h|] == "\n\n" + body[..|h|];
    }
  }

  /** What occurs in `m` occurs in `a + m`. */
  lemma ContainsAfter(a: string, m: string, p: string)
    requires Contains(m, p)
    ensures Contains(a + m, p)
  {
    var k :| OccursAt(m, p, k);
    OccursShift(a, m, "", p, k);
    assert a + m + "" == a + m;
  }

  /** The language tags an opening fence may carry, each with the newline that ends the fence. */
  const FenceLanguages := ["\n", "html\n", "jsx\n", "mdx\n", "tsx\n"]

  /**
   * Fences the model puts around its answer make no difference: the text
   * inside them is cleaned exactly as it would be without them.
   */
  lemma FencesIgnored(lang: string, body: string)
    requires lang in FenceLanguages
    requires !Contains(body, "```")
    ensures CleanText("```" + lang + body + "\n```") == CleanText(body) == Strip(body)
    ensures ExtractSandpackBlock("```" + lang + body + "\n```") == ExtractSandpackBlock(body)
  {
    var s := "```" + lang + body + "\n```";
    var n := 3 + |lang|;
    assert s == ("```" + lang) + (body + "\n```");
    OpenFenceAtStart(lang, body + "\n```");
    assert s[n..] == body + "\n```";
    OpenFencesKeepTail(body);
    CloseFenceRemoved(body);
    OpenFencesAbsent(body);
    CloseFencesAbsent(body);
  }

  /** An opening fence with each language tag is recognised at the start of the text, with its own length. */
  lemma OpenFenceAtStart(lang: string, rest: string)
    requires lang in FenceLanguages
    ensures OpenFenceLength("```" + lang + rest) == 3 + |lang|
    ensures RemoveOpenFences("```" + lang + rest) == RemoveOpenFences(rest)
  {
    var s := "```" + lang + rest;
    assert s[..3] == "```";
    assert s[3..] == lang + rest;
    assert (lang + rest)[..|lang|] == lang;
    if lang != "\n" {
      assert (lang + rest)[0] != '\n';
    }
    if lang != "\n" && lang != "html\n" && |lang + rest| >= 5 {
      assert (lang + rest)[..5][0] == lang[0];
    }
    assert s[3 + |lang|..] == rest;
  }

  /** Three backticks do not start at `j` in `body + tail` when `body` has none and `tail` starts with a newline. */
  lemma NoTicksAcross(body: string, tail: string, j: nat)
    requires !Contains(body, "```") && |tail| > 0 && tail[0] == '\n' && j <= |body|
    ensures !OccursAt(body + tail, "```", j)
  {
    var s := body + tail;
    if j + 3 <= |body| {
      assert s[j..j + 3] == body[j..j + 3];
      assert !OccursAt(body, "```", j);
    } else if j + 3 <= |s| {
      assert s[|body|] == '\n';
      assert s[j..j + 3][|body| - j] == '\n';
    }
  }

  /** Removing the first character of text without three backticks leaves text without them. */
  lemma NoTicksInTail(s: string)
    requires |s| > 0 && !Contains(s, "```")
    ensures !Contains(s[1..], "```")
  {
    if Contains(s[1..], "```") {
      var j :| OccursAt(s[1..], "```", j);
      OccursInTail(s, "```", j);
    }
  }

  /** Without three backticks in `body`, the trailing newline and fence are no opening fence and stay. */
  lemma {:induction false} OpenFencesKeepTail(body: string)
    requires !Contains(body, "```")
    ensures RemoveOpenFences(body + "\n```") == body + "\n```"
    decreases |body|
  {
    if body == [] {
      assert body + "\n```" == "\n```";
      OpenFencesKeepFence();
    } else {
      assert !OccursAt(body + "\n```", "```", 0) by { NoTicksAcross(body, "\n```", 0); }
      assert !Contains(body[1..], "```") by { NoTicksInTail(body); }
      OpenFencesKeepTail(body[1..]);
      OpenFenceStep(body + "\n```");
      ConsTail(body, "\n```");
    }
  }

  lemma OpenFencesKeepFence()
    ensures RemoveOpenFences("\n```") == "\n```"
  {
    assert "```"[1..] == "``" && "``"[1..] == "`" && "`"[1..] == "";
    assert RemoveOpenFences("```") == "```";
    assert "\n```"[1..] == "```";
  }

  /** Where no fence starts, the first character is kept. */
  lemma OpenFenceStep(s: string)
    requires s != [] && !OccursAt(s, "```", 0)
    ensures RemoveOpenFences(s) == [s[0]] + RemoveOpenFences(s[1..])
  {
  }

  /** Without three backticks in `body`, only the final newline and fence form a closing fence. */
  lemma {:induction false} CloseFenceRemoved(body: string)
    requires !Contains(body, "```")
    ensures RemoveCloseFences(body + "\n```") == body
    decreases |body|
  {
    if body == [] {
      assert body + "\n```" == "\n```";
      CloseFenceAlone();
    } else {
      assert CloseFenceEnd(body + "\n```").None? by {
        NoTicksAcross(body, "\n```", 1);
        NotCloseFence(body + "\n```");
      }
      assert !Contains(body[1..], "```") by { NoTicksInTail(body); }
      CloseFenceRemoved(body[1..]);
      CloseFenceStep(body + "\n```");
      ConsTail(body, "\n```");
    }
  }

  /** Splitting off the first character of `body + tail`. */
  lemma ConsTail(body: string, tail: string)
    requires body != []
    ensures (body + tail)[1..] == body[1..] + tail
    ensures [(body + tail)[0]] + body[1..] + tail == body + tail
    ensures [(body + tail)[0]] + body[1..] == body
  {
    assert body == [body[0]] + body[1..];
  }

  lemma CloseFenceAlone()
    ensures RemoveCloseFences("\n```") == ""
  {
    var s := "\n```";
    assert SkipSpaces(s, 4) == 4;
    assert CloseFenceEnd(s) == Some(4);
    assert s[4..] == [];
  }

  /** Where no closing fence starts, the first character is kept. */
  lemma CloseFenceStep(s: string)
    requires s != [] && CloseFenceEnd(s).None?
    ensures RemoveCloseFences(s) == [s[0]] + RemoveCloseFences(s[1..])
  {
  }

  /** A closing fence cannot start where no three backticks follow the first character. */
  lemma NotCloseFence(s: string)
    requires !OccursAt(s, "```", 1)
    ensures CloseFenceEnd(s).None?
  {
    if |s| >= 4 {
      assert s[1..4] == s[..4][1..];
    }
  }
}

/**
 * `preprocessLaTeX` of `src/components/MarkdownRenderer.tsx`: before the
 * Markdown is rendered, every LaTeX display environment written as
 * `\begin{E}...\end{E}` (for the environments KaTeX would otherwise miss)
 * is put on its own lines between `$$` delimiters.
 *
 * The global regular expression is modelled by a left-to-right scanner
 * that cuts the text into single characters and matched environments.
 */
module MarkdownRenderer {
  import opened Common
  import opened Text

  /** The environments the expression recognises, in the order of its alternation. */
  const Envs := ["equation", "equation*", "align", "align*", "gather", "gather*", "CD"]

  function BeginTag(env: string): string {
    "\\begin{" + env + "}"
  }

  function EndTag(env: string): string {
    "\\end{" + env + "}"
  }

  /** The first of `names` whose `\begin{...}` starts at `p`. */
  function EnvAt(s: string, p: nat, names: seq<string>): (r: Option<string>)
    ensures r.Some? ==> r.value in names && OccursAt(s, p, BeginTag(r.value))
    decreases |names|
  {
    if names == [] then None
    else if OccursAt(s, p, BeginTag(names[0])) then Some(names[0])
    else EnvAt(s, p, names[1..])
  }

  /** No environment is found at `p` exactly when none of the names has its `\begin{...}` there. */
  lemma {:induction false} EnvAtNone(s: string, p: nat, names: seq<string>)
    ensures EnvAt(s, p, names).None? <==> forall e | e in names :: !OccursAt(s, p, BeginTag(e))
    decreases |names|
  {
    if names != [] {
      EnvAtNone(s, p, names[1..]);
      assert forall e | e in names :: e == names[0] || e in names[1..];
    }
  }

  /**
   * `m` is one match: it opens environment `env`, closes the same one, and
   * its closing tag is the first one after the opening tag.
   */
  predicate IsEnvMatch(m: string, env: string) {
    var b, e := BeginTag(env), EndTag(env);
    && |b| + |e| <= |m|
    && m[..|b|] == b
    && m[|m| - |e|..] == e
    && forall j :: |b| <= j < |m| - |e| ==> !OccursAt(m, j, e)
  }

  /** An occurrence inside a slice is an occurrence in the whole string, shifted by the slice's start. */
  lemma OccursInSlice(s: string, lo: nat, hi: nat, j: nat, t: string)
    requires lo <= hi <= |s| && OccursAt(s[lo..hi], j, t)
    ensures OccursAt(s, lo + j, t)
  {
    forall i | 0 <= i < |t|
      ensures s[lo + j + i] == t[i]
    {
      assert s[lo..hi][j..j + |t|][i] == t[i];
    }
    assert s[lo + j..lo + j + |t|] == t;
  }

  /** A string with a different character at one of the tag's positions does not hold the tag there. */
  lemma Mismatch(s: string, p: nat, t: string, i: nat)
    requires i < |t| && p + i < |s| && s[p + i] != t[i]
    ensures !OccursAt(s, p, t)
  {
  }

  /** No environment begins at a position that does not hold a backslash. */
  lemma NoBeginWithoutBackslash(s: string, p: nat, names: seq<string>)
    requires p < |s| && s[p] != '\\'
    ensures EnvAt(s, p, names).None?
  {
    forall e: string
      ensures !OccursAt(s, p, BeginTag(e))
    {
      Mismatch(s, p, BeginTag(e), 0);
    }
    EnvAtNone(s, p, names);
  }

  /** A match at `p` of the expression built from `names`: the environment and where the match ends. */
  function MatchAmong(s: string, p: nat, names: seq<string>): (r: Option<(string, nat)>)
    requires p <= |s|
    ensures r.Some? ==> p < r.value.1 <= |s|
  {
    var env := EnvAt(s, p, names);
    if env.None? then None
    else
      var k := FindFrom(s, EndTag(env.value), p + |BeginTag(env.value)|);
      if k.None? then None else Some((env.value, k.value + |EndTag(env.value)|))
  }

  /** Text from an opening tag to the nearest matching end tag after it is one match. */
  lemma NearestEndMatches(s: string, p: nat, env: string, k: nat)
    requires OccursAt(s, p, BeginTag(env)) && p + |BeginTag(env)| <= k && OccursAt(s, k, EndTag(env))
    requires forall j :: p + |BeginTag(env)| <= j < k ==> !OccursAt(s, j, EndTag(env))
    ensures IsEnvMatch(s[p..k + |EndTag(env)|], env)
  {
    var b, e := BeginTag(env), EndTag(env);
    var m := s[p..k + |e|];
    assert m[..|b|] == s[p..p + |b|];
    assert m[|m| - |e|..] == s[k..k + |e|];
    forall j | |b| <= j < |m| - |e|
      ensures !OccursAt(m, j, e)
    {
      if OccursAt(m, j, e) {
        OccursInSlice(s, p, k + |e|, j, e);
      }
    }
  }

  /** A match at `p` is one of the environments, opened at `p` and closed by the nearest matching end tag. */
  lemma MatchAmongSpec(s: string, p: nat, names: seq<string>)
    requires p <= |s|
    ensures MatchAmong(s, p, names).Some? ==>
      && MatchAmong(s, p, names).value.0 in names
      && OccursAt(s, p, BeginTag(MatchAmong(s, p, names).value.0))
      && IsEnvMatch(s[p..MatchAmong(s, p, names).value.1], MatchAmong(s, p, names).value.0)
  {
    var found := EnvAt(s, p, names);
    if found.Some? {
      var env := found.value;
      var close := FindFrom(s, EndTag(env), p + |BeginTag(env)|);
      if close.Some? {
        MatchAmongFound(s, p, names, env, close.value);
        NearestEndMatches(s, p, env, close.value);
      }
    }
  }

  /** There is no match at `p` exactly when none of the environments opens there, or the first that does is never closed. */
  lemma MatchAmongNone(s: string, p: nat, names: seq<string>)
    requires p <= |s|
    ensures MatchAmong(s, p, names).None? <==>
      (|| EnvAt(s, p, names).None?
       || forall j :: p + |BeginTag(EnvAt(s, p, names).value)| <= j ==> !OccursAt(s, j, EndTag(EnvAt(s, p, names).value)))
  {
    var found := EnvAt(s, p, names);
    if found.Some? {
      var env := found.value;
      var close := FindFrom(s, EndTag(env), p + |BeginTag(env)|);
      if close.Some? {
        MatchAmongFound(s, p, names, env, close.value);
      }
    }
  }

  /** The match found from an opening environment and the nearest end tag after it. */
  lemma MatchAmongFound(s: string, p: nat, names: seq<string>, env: string, k: nat)
    requires p <= |s| && EnvAt(s, p, names) == Some(env)
    requires FindFrom(s, EndTag(env), p + |BeginTag(env)|) == Some(k)
    ensures MatchAmong(s, p, names) == Some((env, k + |EndTag(env)|))
  {
  }

  /** A piece of the content: a character no match starts at, or one match. */
  datatype Segment = Char(c: char) | Env(name: string, text: string)

  /** The content from `p` on, cut the way the global replace walks it. */
  function Scan(s: string, p: nat, names: seq<string>): (r: seq<Segment>)
    requires p <= |s|
    decreases |s| - p
  {
    if p == |s| then []
    else
      var m := MatchAmong(s, p, names);
      if m.Some? then [Env(m.value.0, s[p..m.value.1])] + Scan(s, m.value.1, names)
      else [Char(s[p])] + Scan(s, p + 1, names)
  }

  /** A segment as it was in the content. */
  function RawOf(g: Segment): string {
    match g
    case Char(c) => [c]
    case Env(_, t) => t
  }

  /** A segment after replacement. */
  function RenderedOf(g: Segment): string {
    match g
    case Char(c) => [c]
    case Env(_, t) => Wrap(t)
  }

  /** The text of some segments as they were. */
  function Raw(segs: seq<Segment>): string
    decreases |segs|
  {
    if segs == [] then "" else RawOf(segs[0]) + Raw(segs[1..])
  }

  /** The replacement of one match. */
  function Wrap(m: string): string {
    "\n$$\n" + m + "\n$$\n"
  }

  /** The text of some segments after replacement: every match wrapped, every character kept. */
  function Render(segs: seq<Segment>): string
    decreases |segs|
  {
    if segs == [] then "" else RenderedOf(segs[0]) + Render(segs[1..])
  }

  /**
   * `preprocessLaTeX`: the content rendered along the one cut that fits its
   * matches (`ScanAt` shows the scan is such a cut).
   */
  function PreprocessLaTeX(content: string): (r: string)
    ensures forall segs | SegmentsAt(content, 0, segs, Envs) :: r == Render(segs)
  {
    FitsOnlyScan(content);
    if content == "" then content else Render(Scan(content, 0, Envs))
  }

  /** Every cut of the whole content that fits its matches is the scan. */
  lemma FitsOnlyScan(content: string)
    ensures forall segs | SegmentsAt(content, 0, segs, Envs) :: segs == Scan(content, 0, Envs)
  {
    forall segs | SegmentsAt(content, 0, segs, Envs)
      ensures segs == Scan(content, 0, Envs)
    {
      ScanUnique(content, 0, segs, Envs);
    }
  }

  /** The segments, put back together, are the content: nothing is lost, added or reordered. */
  lemma {:induction false} ScanCovers(s: string, p: nat, names: seq<string>)
    requires p <= |s|
    ensures Raw(Scan(s, p, names)) == s[p..]
    decreases |s| - p
  {
    if p < |s| {
      var mt := MatchAmong(s, p, names);
      var next := if mt.Some? then mt.value.1 else p + 1;
      if mt.Some? {
        RawStepEnv(s, p, mt.value.0, next, names);
      } else {
        RawStepChar(s, p, names);
      }
      ScanCovers(s, next, names);
      SliceSplit(s, p, next);
    }
  }

  /** A match is taken from the content as it is. */
  lemma RawStepEnv(s: string, p: nat, env: string, end: nat, names: seq<string>)
    requires p < |s| && MatchAmong(s, p, names) == Some((env, end))
    ensures Raw(Scan(s, p, names)) == s[p..end] + Raw(Scan(s, end, names))
  {
    ScanEnv(s, p, env, end, names);
    RawCons(Env(env, s[p..end]), Scan(s, end, names));
  }

  /** A character no match starts at is taken as it is. */
  lemma RawStepChar(s: string, p: nat, names: seq<string>)
    requires p < |s| && MatchAmong(s, p, names).None?
    ensures Raw(Scan(s, p, names)) == s[p..p + 1] + Raw(Scan(s, p + 1, names))
  {
    ScanChar(s, p, names);
    RawCons(Char(s[p]), Scan(s, p + 1, names));
    assert s[p..p + 1] == [s[p]];
  }

  /** The match of the expression at every offset of `s`. */
  function MatchTable(s: string, names: seq<string>): (ms: seq<Option<(string, nat)>>)
    ensures |ms| == |s|
    ensures forall o | 0 <= o < |s| :: ms[o] == MatchAmong(s, o, names)
  {
    seq(|s|, o requires 0 <= o < |s| => MatchAmong(s, o, names))
  }

  /**
   * `g` is what the global replace takes at offset `o`, given the match
   * `ms[o]` there: the character when there is no match, or the match, whole.
   */
  predicate SegmentFits(s: string, o: nat, g: Segment, ms: seq<Option<(string, nat)>>) {
    && o < |s| && o < |ms|
    && match g
       case Char(c) => ms[o].None? && c == s[o]
       case Env(n, t) => o + |t| <= |s| && ms[o] == Some((n, o + |t|)) && t == s[o..o + |t|]
  }

  /** `segs`, laid end to end from `p` up to the end of `s`, each fit at its offset. */
  predicate SegmentsFit(s: string, p: nat, segs: seq<Segment>, ms: seq<Option<(string, nat)>>)
    decreases |segs|
  {
    if segs == [] then p == |s|
    else SegmentFits(s, p, segs[0], ms) && SegmentsFit(s, p + |RawOf(segs[0])|, segs[1..], ms)
  }

  /**
   * `segs` cut the content from `p` the way the global replace walks it:
   * each is the character at its offset where the expression does not match
   * there, or the whole match where it does.
   */
  predicate SegmentsAt(s: string, p: nat, segs: seq<Segment>, names: seq<string>) {
    SegmentsFit(s, p, segs, MatchTable(s, names))
  }

  /** Every segment of the scan sits at an offset where the expression matches exactly when it is a match. */
  lemma {:induction false} ScanAt(s: string, p: nat, names: seq<string>)
    requires p <= |s|
    ensures SegmentsAt(s, p, Scan(s, p, names), names)
    decreases |s| - p
  {
    if p < |s| {
      var mt := MatchAmong(s, p, names);
      if mt.Some? {
        ScanAt(s, mt.value.1, names);
        ScanAtEnv(s, p, mt.value.0, mt.value.1, names);
      } else {
        ScanAt(s, p + 1, names);
        ScanAtChar(s, p, names);
      }
    }
  }

  /** A match taken whole sits at its offset. */
  lemma ScanAtEnv(s: string, p: nat, env: string, end: nat, names: seq<string>)
    requires p < |s| && MatchAmong(s, p, names) == Some((env, end))
    requires SegmentsAt(s, end, Scan(s, end, names), names)
    ensures SegmentsAt(s, p, Scan(s, p, names), names)
  {
    var ms := MatchTable(s, names);
    ScanEnv(s, p, env, end, names);
    var g := Env(env, s[p..end]);
    EnvFits(s, p, env, end, ms);
    SegmentsFitCons(s, p, g, Scan(s, end, names), ms);
  }

  /** A match from `p` to `end` fits at `p`. */
  lemma EnvFits(s: string, p: nat, env: string, end: nat, ms: seq<Option<(string, nat)>>)
    requires p < end <= |s| && p < |ms| && ms[p] == Some((env, end))
    ensures SegmentFits(s, p, Env(env, s[p..end]), ms)
  {
  }

  /** A character no match starts at sits at its offset. */
  lemma ScanAtChar(s: string, p: nat, names: seq<string>)
    requires p < |s| && MatchAmong(s, p, names).None?
    requires SegmentsAt(s, p + 1, Scan(s, p + 1, names), names)
    ensures SegmentsAt(s, p, Scan(s, p, names), names)
  {
    var ms := MatchTable(s, names);
    ScanChar(s, p, names);
    assert SegmentFits(s, p, Char(s[p]), ms);
    SegmentsFitCons(s, p, Char(s[p]), Scan(s, p + 1, names), ms);
  }

  /** One segment in front of others: it fits at `p`, the others after it. */
  lemma SegmentsFitCons(s: string, p: nat, g: Segment, rest: seq<Segment>, ms: seq<Option<(string, nat)>>)
    ensures SegmentsFit(s, p, [g] + rest, ms) <==> SegmentFits(s, p, g, ms) && SegmentsFit(s, p + |RawOf(g)|, rest, ms)
  {
    assert ([g] + rest)[0] == g && ([g] + rest)[1..] == rest;
  }

  /** Any segments that cut the content the way the global replace walks it are the scan: the cut is unique. */
  lemma ScanUnique(s: string, p: nat, segs: seq<Segment>, names: seq<string>)
    requires p <= |s| && SegmentsAt(s, p, segs, names)
    ensures segs == Scan(s, p, names)
  {
    ScanAt(s, p, names);
    SegmentsFitUnique(s, p, segs, Scan(s, p, names), MatchTable(s, names));
  }

  /** Two cuts that both fit the same matches at every offset are the same cut. */
  lemma {:induction false} SegmentsFitUnique(s: string, p: nat, a: seq<Segment>, b: seq<Segment>, ms: seq<Option<(string, nat)>>)
    requires SegmentsFit(s, p, a, ms) && SegmentsFit(s, p, b, ms)
    ensures a == b
    decreases |a|
  {
    if a != [] && b != [] {
      assert a[0] == b[0];
      SegmentsFitUnique(s, p + |RawOf(a[0])|, a[1..], b[1..], ms);
      assert a == [a[0]] + a[1..] && b == [b[0]] + b[1..];
    }
  }

  /** Every matched segment is a well-formed environment of the list, closed by its nearest end tag. */
  lemma {:induction false} ScanMatches(s: string, p: nat, names: seq<string>)
    requires p <= |s|
    ensures forall g | g in Scan(s, p, names) && g.Env? :: g.name in names && IsEnvMatch(g.text, g.name)
    decreases |s| - p
  {
    if p < |s| {
      var mt := MatchAmong(s, p, names);
      MatchAmongSpec(s, p, names);
      if mt.Some? {
        ScanMatches(s, mt.value.1, names);
      } else {
        ScanMatches(s, p + 1, names);
      }
    }
  }

  /** Segments with no match render as they are. */
  lemma {:induction false} RenderWithoutMatches(segs: seq<Segment>)
    requires forall g | g in segs :: g.Char?
    ensures Render(segs) == Raw(segs)
    decreases |segs|
  {
    if segs != [] {
      assert forall g | g in segs[1..] :: g in segs;
      RenderWithoutMatches(segs[1..]);
    }
  }

  /** Where no environment begins, the scanner finds no match. */
  lemma {:induction false} ScanWithoutBegin(s: string, p: nat, names: seq<string>)
    requires p <= |s|
    requires forall e | e in names :: !Includes(s, BeginTag(e))
    ensures forall g | g in Scan(s, p, names) :: g.Char?
    decreases |s| - p
  {
    if p < |s| {
      EnvAtNone(s, p, names);
      ScanWithoutBegin(s, p + 1, names);
    }
  }

  /** Content in which no recognised `\begin{...}` occurs comes back unchanged. */
  lemma NoBeginUnchanged(s: string)
    requires forall e | e in Envs :: !Includes(s, BeginTag(e))
    ensures PreprocessLaTeX(s) == s
  {
    if s != "" {
      ScanWithoutBegin(s, 0, Envs);
      RenderWithoutMatches(Scan(s, 0, Envs));
      ScanCovers(s, 0, Envs);
    }
  }

  /** The rendered text is the raw text with each match wrapped in place, one segment at a time. */
  lemma {:induction false} RenderAppend(a: seq<Segment>, b: seq<Segment>)
    ensures Render(a + b) == Render(a) + Render(b)
    ensures Raw(a + b) == Raw(a) + Raw(b)
    decreases |a|
  {
    if a == [] {
      assert a + b == b;
    } else {
      assert (a + b)[0] == a[0];
      assert (a + b)[1..] == a[1..] + b;
      RenderAppend(a[1..], b);
    }
  }

  /** An environment that the author already put between `$$` delimiters. */
  const DelimitedCD := "$$" + CDBody + "$$"

  const CDBody := BeginTag("CD") + "x" + EndTag("CD")

  /** The scanner keeps a character no match starts at. */
  lemma ScanChar(s: string, p: nat, names: seq<string>)
    requires p < |s| && MatchAmong(s, p, names).None?
    ensures Scan(s, p, names) == [Char(s[p])] + Scan(s, p + 1, names)
  {
  }

  /** The scanner takes a match whole and goes on after it. */
  lemma ScanEnv(s: string, p: nat, env: string, end: nat, names: seq<string>)
    requires p < |s| && MatchAmong(s, p, names) == Some((env, end))
    ensures Scan(s, p, names) == [Env(env, s[p..end])] + Scan(s, end, names)
  {
  }

  /** The expression matches the whole `CD` environment, starting at index 2. */
  lemma DelimitedCDMatch()
    ensures MatchAmong(DelimitedCD, 2, Envs) == Some(("CD", 21))
  {
    DelimitedCDOpens();
    DelimitedCDCloses();
    MatchAmongFound(DelimitedCD, 2, Envs, "CD", 13);
  }

  /** Only the last environment of the list, `CD`, opens at index 2. */
  lemma DelimitedCDOpens()
    ensures EnvAt(DelimitedCD, 2, Envs) == Some("CD")
  {
    var s := DelimitedCD;
    assert |s| == 23 && s[9] == 'C';
    Mismatch(s, 2, BeginTag("equation"), 7);
    Mismatch(s, 2, BeginTag("equation*"), 7);
    Mismatch(s, 2, BeginTag("align"), 7);
    Mismatch(s, 2, BeginTag("align*"), 7);
    Mismatch(s, 2, BeginTag("gather"), 7);
    Mismatch(s, 2, BeginTag("gather*"), 7);
    assert s[2..12] == BeginTag("CD");
  }

  /** The nearest `\end{CD}` after the opening tag starts at index 13. */
  lemma DelimitedCDCloses()
    ensures FindFrom(DelimitedCD, EndTag("CD"), 12) == Some(13)
  {
    var s := DelimitedCD;
    assert |s| == 23 && s[12] == 'x';
    assert s[13..21] == EndTag("CD");
    Mismatch(s, 12, EndTag("CD"), 0);
    assert FindFrom(s, EndTag("CD"), 13) == Some(13);
  }

  /** Putting one segment back in front of others. */
  lemma RawCons(g: Segment, rest: seq<Segment>)
    ensures Raw([g] + rest) == RawOf(g) + Raw(rest)
  {
    assert ([g] + rest)[1..] == rest;
  }

  /** Rendering one segment in front of others. */
  lemma RenderCons(g: Segment, rest: seq<Segment>)
    ensures Render([g] + rest) == RenderedOf(g) + Render(rest)
  {
    assert ([g] + rest)[1..] == rest;
  }

  /** Rendering from a position no match starts at keeps its character. */
  lemma RenderChar(s: string, p: nat, names: seq<string>)
    requires p < |s| && MatchAmong(s, p, names).None?
    ensures Render(Scan(s, p, names)) == [s[p]] + Render(Scan(s, p + 1, names))
  {
    ScanChar(s, p, names);
    RenderCons(Char(s[p]), Scan(s, p + 1, names));
  }

  /** Rendering from a match wraps it and goes on after it. */
  lemma RenderEnv(s: string, p: nat, env: string, end: nat, names: seq<string>)
    requires p < |s| && MatchAmong(s, p, names) == Some((env, end))
    ensures Render(Scan(s, p, names)) == Wrap(s[p..end]) + Render(Scan(s, end, names))
  {
    ScanEnv(s, p, env, end, names);
    RenderCons(Env(env, s[p..end]), Scan(s, end, names));
  }

  /** Two dollars put in front one at a time, and two after, around some text. */
  lemma DollarsAround(w: string)
    ensures "$" + ("$" + (w + "$$")) == "$$" + w + "$$"
  {
  }

  /** The last two characters of a 23-character content, when no match starts at them. */
  lemma RenderLastTwo(s: string, names: seq<string>)
    requires |s| == 23 && MatchAmong(s, 21, names).None? && MatchAmong(s, 22, names).None?
    ensures Render(Scan(s, 21, names)) == [s[21], s[22]]
  {
    RenderChar(s, 22, names);
    RenderChar(s, 21, names);
  }

  /** How any 23-character content with one match from index 2 to index 21, between dollars, is rewritten. */
  lemma RewriteOneMatch(s: string, env: string, names: seq<string>)
    requires |s| == 23 && s[0] == s[1] == s[21] == s[22] == '$'
    requires MatchAmong(s, 0, names).None? && MatchAmong(s, 1, names).None? && MatchAmong(s, 21, names).None? && MatchAmong(s, 22, names).None?
    requires MatchAmong(s, 2, names) == Some((env, 21))
    ensures Render(Scan(s, 0, names)) == "$$" + Wrap(s[2..21]) + "$$"
  {
    var m := s[2..21];
    RenderLastTwo(s, names);
    var tail := Render(Scan(s, 21, names));
    assert tail == "$$";
    RenderEnv(s, 2, env, 21, names);
    RenderChar(s, 1, names);
    RenderChar(s, 0, names);
    assert Render(Scan(s, 0, names)) == "$" + ("$" + (Wrap(m) + tail));
    DollarsAround(Wrap(m));
  }

  /**
   * There is no check for delimiters already present: an environment that
   * is already between `$$` is wrapped a second time.
   */
  lemma AlreadyDelimitedIsWrappedAgain()
    ensures PreprocessLaTeX(DelimitedCD) == "$$" + Wrap(CDBody) + "$$"
  {
    var s := DelimitedCD;
    assert |s| == 23 && s[0] == s[1] == s[21] == s[22] == '$';
    assert s[2..21] == CDBody;
    NoBeginWithoutBackslash(s, 0, Envs);
    NoBeginWithoutBackslash(s, 1, Envs);
    NoBeginWithoutBackslash(s, 21, Envs);
    NoBeginWithoutBackslash(s, 22, Envs);
    DelimitedCDMatch();
    RewriteOneMatch(s, "CD", Envs);
  }
}

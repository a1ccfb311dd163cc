/**
 * String primitives that the application borrows from JavaScript: the `\s`
 * character class (also the set `String.prototype.trim` strips), ASCII case
 * mapping, `String.prototype.includes`, trimming, collapsing of whitespace
 * runs and `Array.prototype.join`.
 */
module Text {
  import opened Common

  /** JavaScript's `\s`: the WhiteSpace and LineTerminator characters of ECMAScript. */
  predicate IsSpace(c: char) {
    || c == '\t' || c == '\n' || c == '\U{B}' || c == '\U{C}' || c == '\r' || c == ' '
    || c == '\U{A0}' || c == '\U{1680}' || ('\U{2000}' <= c <= '\U{200A}')
    || c == '\U{2028}' || c == '\U{2029}' || c == '\U{202F}' || c == '\U{205F}'
    || c == '\U{3000}' || c == '\U{FEFF}'
  }

  predicate NoSpace(s: string) {
    forall i :: 0 <= i < |s| ==> !IsSpace(s[i])
  }

  predicate Blank(s: string) {
    forall i :: 0 <= i < |s| ==> IsSpace(s[i])
  }

  /** The non-whitespace characters of `s`, in order. */
  function NonSpace(s: string): string
    decreases |s|
  {
    if s == [] then [] else (if IsSpace(s[0]) then [] else [s[0]]) + NonSpace(s[1..])
  }

  lemma {:induction false} NonSpaceConcat(a: string, b: string)
    ensures NonSpace(a + b) == NonSpace(a) + NonSpace(b)
    decreases |a|
  {
    if a == [] {
      assert a + b == b;
    } else {
      assert (a + b)[0] == a[0];
      assert (a + b)[1..] == a[1..] + b;
      NonSpaceConcat(a[1..], b);
    }
  }

  function UpperChar(c: char): char {
    if 'a' <= c <= 'z' then (c as int - 32) as char else c
  }

  function LowerChar(c: char): char {
    if 'A' <= c <= 'Z' then (c as int + 32) as char else c
  }

  /** `toUpperCase`, restricted to the ASCII letters. */
  function Upper(s: string): (r: string)
    ensures |r| == |s| && forall i :: 0 <= i < |s| ==> r[i] == UpperChar(s[i])
  {
    seq(|s|, i requires 0 <= i < |s| => UpperChar(s[i]))
  }

  /** `toLowerCase`, restricted to the ASCII letters. */
  function Lower(s: string): (r: string)
    ensures |r| == |s| && forall i :: 0 <= i < |s| ==> r[i] == LowerChar(s[i])
  {
    seq(|s|, i requires 0 <= i < |s| => LowerChar(s[i]))
  }

  /** Lower-casing forgets an earlier upper-casing. */
  lemma LowerOfUpper(s: string)
    ensures Lower(Upper(s)) == Lower(s)
  {
  }

  lemma UpperIdempotent(s: string)
    ensures Upper(Upper(s)) == Upper(s)
  {
  }

  /** `t` occurs in `s` starting at index `k`. */
  predicate OccursAt(s: string, k: nat, t: string) {
    k + |t| <= |s| && s[k..k + |t|] == t
  }

  /** `s.includes(t)`, searching from index `k` on. */
  function IncludesFrom(s: string, t: string, k: nat): (r: bool)
    ensures r <==> exists j :: k <= j && OccursAt(s, j, t)
    decreases |s| - k
  {
    if k + |t| > |s| then false
    else if s[k..k + |t|] == t then
      assert OccursAt(s, k, t);
      true
    else
      var r := IncludesFrom(s, t, k + 1);
      assert forall j :: k <= j && OccursAt(s, j, t) ==> j == k || k + 1 <= j;
      r
  }

  /** `s.includes(t)`: `t` is a substring of `s` (the empty string is a substring of every string). */
  function Includes(s: string, t: string): (r: bool)
    ensures r <==> exists j :: OccursAt(s, j, t)
  {
    IncludesFrom(s, t, 0)
  }

  /** The first occurrence of `t` in `s` at index `k` or later. */
  function FindFrom(s: string, t: string, k: nat): (r: Option<nat>)
    requires t != []
    ensures r.None? ==> forall j :: k <= j ==> !OccursAt(s, j, t)
    ensures r.Some? ==> (k <= r.value && OccursAt(s, r.value, t)
      && forall j :: k <= j < r.value ==> !OccursAt(s, j, t))
    decreases |s| - k
  {
    if k + |t| > |s| then None
    else if s[k..k + |t|] == t then Some(k)
    else FindFrom(s, t, k + 1)
  }

  /** Every string contains itself. */
  lemma IncludesSelf(s: string)
    ensures Includes(s, s)
  {
    assert OccursAt(s, 0, s);
  }

  /** A string that lacks one of the characters of `t` does not contain `t`. */
  lemma MissingCharExcludes(s: string, t: string, c: char)
    requires c in t && forall i :: 0 <= i < |s| ==> s[i] != c
    ensures !Includes(s, t)
  {
    var k :| 0 <= k < |t| && t[k] == c;
    forall j: nat
      ensures !OccursAt(s, j, t)
    {
      if j + |t| <= |s| {
        assert s[j..j + |t|][k] == s[j + k];
      }
    }
  }

  /** `s` without its leading whitespace. */
  function TrimStart(s: string): (r: string)
    ensures |r| <= |s| && r == s[|s| - |r|..]
    ensures r == [] || !IsSpace(r[0])
    ensures forall i :: 0 <= i < |s| - |r| ==> IsSpace(s[i])
  {
    s[SpaceRunEnd(s, 0)..]
  }

  /** `s` without its trailing whitespace. */
  function TrimEnd(s: string): (r: string)
    ensures |r| <= |s| && r == s[..|r|]
    ensures r == [] || !IsSpace(r[|r| - 1])
    ensures forall i :: |r| <= i < |s| ==> IsSpace(s[i])
    decreases |s|
  {
    if s != [] && IsSpace(s[|s| - 1]) then TrimEnd(s[..|s| - 1]) else s
  }

  /**
   * `String.prototype.trim`: the slice of `s` that starts after its leading
   * whitespace run and is followed only by whitespace, with no whitespace at
   * either end. Everything inside, inner whitespace included, is kept.
   */
  function Trim(s: string): (r: string)
    ensures r == [] || (!IsSpace(r[0]) && !IsSpace(r[|r| - 1]))
    ensures var i := SpaceRunEnd(s, 0); i + |r| <= |s| && r == s[i..i + |r|] && Blank(s[i + |r|..])
  {
    var i := SpaceRunEnd(s, 0);
    var a := TrimStart(s);
    var r := TrimEnd(a);
    TrimEndLeavesBlank(a);
    assert s[i..i + |r|] == a[..|r|] && s[i + |r|..] == a[|r|..];
    r
  }

  /** What `TrimEnd` cuts off is blank. */
  lemma TrimEndLeavesBlank(s: string)
    ensures Blank(s[|TrimEnd(s)|..])
  {
    var n := |TrimEnd(s)|;
    forall k | 0 <= k < |s| - n
      ensures IsSpace(s[n..][k])
    {
      assert s[n..][k] == s[n + k];
    }
  }

  /** The index just past the whitespace run that starts at `p`. */
  function SpaceRunEnd(s: string, p: nat): (e: nat)
    requires p <= |s|
    ensures p <= e <= |s|
    ensures forall i :: p <= i < e ==> IsSpace(s[i])
    ensures e == |s| || !IsSpace(s[e])
    decreases |s| - p
  {
    if p < |s| && IsSpace(s[p]) then SpaceRunEnd(s, p + 1) else p
  }

  /** The index just past the non-whitespace run that starts at `p` (the extent of `\S+`). */
  function WordEnd(s: string, p: nat): (e: nat)
    requires p <= |s|
    ensures p <= e <= |s|
    ensures forall i :: p <= i < e ==> !IsSpace(s[i])
    ensures e == |s| || IsSpace(s[e])
    decreases |s| - p
  {
    if p < |s| && !IsSpace(s[p]) then WordEnd(s, p + 1) else p
  }

  /** `s.replace(/\s+/g, ' ')`: every maximal whitespace run becomes one space. */
  function CollapseSpaces(s: string): (r: string)
    decreases |s|
  {
    if s == [] then []
    else if IsSpace(s[0]) then
      var e := SpaceRunEnd(s, 0);
      " " + CollapseSpaces(s[e..])
    else [s[0]] + CollapseSpaces(s[1..])
  }

  /** The words of `s`: its maximal runs of non-whitespace characters, in order. */
  function Words(s: string): (r: seq<string>)
    ensures forall w | w in r :: w != [] && NoSpace(w)
    decreases |s|
  {
    if s == [] then []
    else if IsSpace(s[0]) then Words(s[SpaceRunEnd(s, 0)..])
    else
      var e := WordEnd(s, 0);
      [s[..e]] + Words(s[e..])
  }

  /** A string has no words exactly when it is blank. */
  lemma {:induction false} WordsEmptyIffBlank(s: string)
    ensures Words(s) == [] <==> Blank(s)
    decreases |s|
  {
    if s != [] && IsSpace(s[0]) {
      var e := SpaceRunEnd(s, 0);
      WordsEmptyIffBlank(s[e..]);
      assert forall i :: e <= i < |s| ==> s[i] == s[e..][i - e];
    }
  }

  /** `parts.join(sep)`. */
  function Join(parts: seq<string>, sep: string): (r: string)
    decreases |parts|
  {
    if parts == [] then ""
    else if |parts| == 1 then parts[0]
    else parts[0] + sep + Join(parts[1..], sep)
  }

  /** The one space collapsing leaves in front of `s`: there when `s` starts with whitespace. */
  function Lead(s: string): string {
    if s != [] && IsSpace(s[0]) then " " else ""
  }

  /** The one space collapsing leaves behind `s`: there when `s` ends with whitespace. */
  function Trail(s: string): string {
    if s != [] && IsSpace(s[|s| - 1]) then " " else ""
  }

  /** Collapsing passes over a word untouched. */
  lemma {:induction false} CollapseWordPrefix(w: string, rest: string)
    requires NoSpace(w)
    ensures CollapseSpaces(w + rest) == w + CollapseSpaces(rest)
    decreases |w|
  {
    if w != [] {
      assert (w + rest)[0] == w[0] && !IsSpace(w[0]);
      assert (w + rest)[1..] == w[1..] + rest;
      assert NoSpace(w[1..]) by {
        forall i | 0 <= i < |w[1..]|
          ensures !IsSpace(w[1..][i])
        {
          assert w[1..][i] == w[i + 1];
        }
      }
      CollapseWordPrefix(w[1..], rest);
      assert w == [w[0]] + w[1..];
    } else {
      assert w + rest == rest;
    }
  }

  /**
   * What `replace(/\s+/g, ' ')` makes of `s`, told by its words: the words
   * joined by single spaces, with one space in front when `s` starts with
   * whitespace and one behind when it ends with whitespace; a blank,
   * non-empty text becomes a single space.
   */
  function SpacedWords(s: string): string {
    Spaced(s, Words(s))
  }

  /** The words `ws` of `s` laid out as `SpacedWords` describes. */
  function Spaced(s: string, ws: seq<string>): string {
    if ws == [] then (if s == [] then "" else " ")
    else Lead(s) + Join(ws, " ") + Trail(s)
  }

  /**
   * `replace(/\s+/g, ' ')` run by run: every word is kept and every
   * whitespace run becomes exactly one space.
   */
  lemma {:induction false} CollapseSpacesWords(s: string)
    ensures CollapseSpaces(s) == SpacedWords(s)
    decreases |s|
  {
    if s == [] {
    } else if IsSpace(s[0]) {
      var e := SpaceRunEnd(s, 0);
      CollapseSpacesWords(s[e..]);
      SpacedSpaceRun(s);
    } else {
      var e := WordEnd(s, 0);
      CollapseSpacesWords(s[e..]);
      CollapseWordPrefix(s[..e], s[e..]);
      assert s == s[..e] + s[e..];
      SpacedWord(s);
    }
  }

  /** A leading whitespace run stands for one space in front of the rest. */
  lemma SpacedSpaceRun(s: string)
    requires s != [] && IsSpace(s[0])
    ensures var e := SpaceRunEnd(s, 0); SpacedWords(s) == " " + SpacedWords(s[e..])
  {
    var e := SpaceRunEnd(s, 0);
    var rest := s[e..];
    var ws := Words(rest);
    assert Words(s) == ws;
    WordsEmptyIffBlank(rest);
    if ws == [] {
      assert rest == [];
    } else {
      assert rest != [] && !IsSpace(rest[0]);
      assert s[|s| - 1] == rest[|rest| - 1];
      SpacedAfterRun(s, rest, ws);
    }
  }

  /** Words after a leading whitespace run are laid out behind one space. */
  lemma SpacedAfterRun(s: string, rest: string, ws: seq<string>)
    requires ws != [] && Lead(rest) == "" && Lead(s) == " " && Trail(s) == Trail(rest)
    ensures Spaced(s, ws) == " " + Spaced(rest, ws)
  {
    var j, t := Join(ws, " "), Trail(rest);
    assert Spaced(rest, ws) == "" + j + t;
    assert Spaced(s, ws) == " " + j + t;
    assert "" + j + t == j + t;
    assert " " + j + t == " " + (j + t);
  }

  /** A leading word is kept in front of the rest. */
  lemma SpacedWord(s: string)
    requires s != [] && !IsSpace(s[0])
    ensures var e := WordEnd(s, 0); SpacedWords(s) == s[..e] + SpacedWords(s[e..])
  {
    var e := WordEnd(s, 0);
    var w, rest := s[..e], s[e..];
    var ws := Words(rest);
    assert s == w + rest;
    assert Words(s) == [w] + ws;
    assert Lead(s) == "";
    if rest == [] {
      assert s[|s| - 1] == w[|w| - 1];
      assert Join([w], " ") == w;
    } else {
      assert IsSpace(rest[0]);
      assert s[|s| - 1] == rest[|rest| - 1];
      WordsEmptyIffBlank(rest);
      if ws == [] {
        assert Trail(s) == " ";
        SpacedWordThenBlank(s, w, rest);
      } else {
        SpacedWordThenWords(s, w, rest, ws);
      }
    }
  }

  /** A word followed by blank text: the word and one space. */
  lemma SpacedWordThenBlank(s: string, w: string, rest: string)
    requires rest != [] && Lead(s) == "" && Trail(s) == " "
    ensures Spaced(s, [w]) == w + Spaced(rest, [])
  {
    assert Join([w], " ") == w;
  }

  /** A word followed by whitespace and more words: the word, then the rest as it stands. */
  lemma SpacedWordThenWords(s: string, w: string, rest: string, ws: seq<string>)
    requires ws != [] && rest != [] && IsSpace(rest[0])
    requires Lead(s) == "" && Trail(s) == Trail(rest)
    ensures Spaced(s, [w] + ws) == w + Spaced(rest, ws)
  {
    var j, t := Join(ws, " "), Trail(rest);
    assert ([w] + ws)[1..] == ws;
    assert Join([w] + ws, " ") == w + " " + j;
    assert Spaced(rest, ws) == " " + j + t;
    assert Spaced(s, [w] + ws) == "" + (w + " " + j) + t;
    assert "" + (w + " " + j) + t == w + (" " + j + t);
  }

  /** Words joined by single spaces neither start nor end with whitespace. */
  lemma {:induction false} JoinWordsEnds(ws: seq<string>)
    requires ws != [] && forall w | w in ws :: w != [] && NoSpace(w)
    ensures var j := Join(ws, " "); j != [] && !IsSpace(j[0]) && !IsSpace(j[|j| - 1])
    decreases |ws|
  {
    assert ws[0] in ws;
    if |ws| > 1 {
      assert forall w | w in ws[1..] :: w in ws;
      JoinWordsEnds(ws[1..]);
      var t := Join(ws[1..], " ");
      var j := Join(ws, " ");
      assert j == ws[0] + " " + t;
      assert j[0] == ws[0][0];
      assert j[|j| - 1] == t[|t| - 1];
    }
  }

  /** Trimming removes exactly the whitespace around a text that has none at its ends. */
  lemma TrimAround(a: string, x: string, b: string)
    requires Blank(a) && Blank(b)
    requires x == [] || (!IsSpace(x[0]) && !IsSpace(x[|x| - 1]))
    ensures Trim(a + x + b) == x
  {
    var s := a + x + b;
    var r := Trim(s);
    var i := SpaceRunEnd(s, 0);
    if x == [] {
      assert forall k :: 0 <= k < |s| ==> IsSpace(s[k]) by {
        forall k | 0 <= k < |s|
          ensures IsSpace(s[k])
        {
          if k < |a| {
            assert s[k] == a[k];
          } else {
            assert s[k] == b[k - |a|];
          }
        }
      }
    } else {
      assert s[|a|] == x[0];
      assert i == |a|;
      assert s[|a| + |x| - 1] == x[|x| - 1];
      assert |r| == |x|;
      assert s[|a|..|a| + |x|] == x;
    }
  }

  /** `replace(/\s+/g, ' ').trim()` joins the words of the text with single spaces. */
  lemma CollapseTrimJoinsWords(s: string)
    ensures Trim(CollapseSpaces(s)) == Join(Words(s), " ")
  {
    CollapseSpacesWords(s);
    TrimSpaced(s, Words(s));
  }

  /** Trimming the layout of some words leaves them joined by single spaces. */
  lemma TrimSpaced(s: string, ws: seq<string>)
    requires forall w | w in ws :: w != [] && NoSpace(w)
    ensures Trim(Spaced(s, ws)) == Join(ws, " ")
  {
    if ws == [] {
      if s == [] {
        TrimAround("", "", "");
      } else {
        TrimAround(" ", "", "");
      }
    } else {
      JoinWordsEnds(ws);
      assert Blank(Lead(s)) && Blank(Trail(s));
      TrimAround(Lead(s), Join(ws, " "), Trail(s));
    }
  }

  /** The only whitespace left by `CollapseSpaces` is the plain space, never two in a row. */
  predicate SingleSpaced(s: string) {
    && (forall i :: 0 <= i < |s| && IsSpace(s[i]) ==> s[i] == ' ')
    && (forall i :: 0 <= i < |s| - 1 ==> !(IsSpace(s[i]) && IsSpace(s[i + 1])))
  }

  lemma SingleSpacedCons(ch: char, c: string)
    requires SingleSpaced(c)
    requires IsSpace(ch) ==> ch == ' ' && (c == [] || !IsSpace(c[0]))
    ensures SingleSpaced([ch] + c)
  {
    var s := [ch] + c;
    forall i | 0 <= i < |s| - 1
      ensures !(IsSpace(s[i]) && IsSpace(s[i + 1]))
    {
      if i > 0 {
        assert s[i] == c[i - 1] && s[i + 1] == c[i];
      }
    }
  }

  lemma CollapseSpacesFirst(s: string)
    ensures CollapseSpaces(s) != [] && IsSpace(CollapseSpaces(s)[0]) <==> s != [] && IsSpace(s[0])
  {
  }

  lemma {:induction false} CollapseSpacesSingleSpaced(s: string)
    ensures SingleSpaced(CollapseSpaces(s))
    decreases |s|
  {
    if s == [] {
    } else if IsSpace(s[0]) {
      var rest := s[SpaceRunEnd(s, 0)..];
      CollapseSpacesSingleSpaced(rest);
      CollapseSpacesFirst(rest);
      SingleSpacedCons(' ', CollapseSpaces(rest));
    } else {
      CollapseSpacesSingleSpaced(s[1..]);
      SingleSpacedCons(s[0], CollapseSpaces(s[1..]));
    }
  }

  lemma {:induction false} NonSpaceOfBlank(s: string)
    requires Blank(s)
    ensures NonSpace(s) == []
    decreases |s|
  {
    if s != [] {
      NonSpaceOfBlank(s[1..]);
    }
  }

  lemma {:induction false} CollapseSpacesKeepsText(s: string)
    ensures NonSpace(CollapseSpaces(s)) == NonSpace(s)
    decreases |s|
  {
    if s == [] {
    } else if IsSpace(s[0]) {
      var e := SpaceRunEnd(s, 0);
      var rest := s[e..];
      CollapseSpacesKeepsText(rest);
      assert s == s[..e] + rest;
      NonSpaceConcat(s[..e], rest);
      NonSpaceConcat(" ", CollapseSpaces(rest));
      NonSpaceOfBlank(s[..e]);
      NonSpaceOfBlank(" ");
    } else {
      var rest := s[1..];
      CollapseSpacesKeepsText(rest);
      assert s == [s[0]] + rest;
      NonSpaceConcat([s[0]], rest);
      NonSpaceConcat([s[0]], CollapseSpaces(rest));
    }
  }

  /** Removing leading whitespace removes nothing else. */
  lemma TrimStartKeepsText(s: string)
    ensures NonSpace(TrimStart(s)) == NonSpace(s)
  {
    var a := TrimStart(s);
    var lead := s[..|s| - |a|];
    assert s == lead + a;
    NonSpaceConcat(lead, a);
    NonSpaceOfBlank(lead);
  }

  /** Removing trailing whitespace removes nothing else. */
  lemma TrimEndKeepsText(s: string)
    ensures NonSpace(TrimEnd(s)) == NonSpace(s)
  {
    var b := TrimEnd(s);
    var trail := s[|b|..];
    assert s == b + trail;
    NonSpaceConcat(b, trail);
    NonSpaceOfBlank(trail);
  }

  /** Trimming removes nothing but whitespace. */
  lemma TrimKeepsText(s: string)
    ensures NonSpace(Trim(s)) == NonSpace(s)
  {
    TrimStartKeepsText(s);
    TrimEndKeepsText(TrimStart(s));
  }

  /** Every slice of a single-spaced string is single-spaced. */
  lemma SingleSpacedSlice(s: string, lo: nat, hi: nat)
    requires SingleSpaced(s) && lo <= hi <= |s|
    ensures SingleSpaced(s[lo..hi])
  {
    var t := s[lo..hi];
    assert forall i :: 0 <= i < |t| ==> t[i] == s[lo + i];
  }

  /** Trimming a single-spaced string keeps it single-spaced. */
  lemma TrimSingleSpaced(s: string)
    requires SingleSpaced(s)
    ensures SingleSpaced(Trim(s))
  {
    var a := TrimStart(s);
    SingleSpacedSlice(s, |s| - |a|, |s|);
    SingleSpacedSlice(a, 0, |TrimEnd(a)|);
  }
}

/**
 * The pure core of `src/lib/arxiv.ts`: `formatQuery`, which turns what the
 * user typed into arXiv's boolean query syntax, and `parseEntry`, which
 * normalises one `<entry>` of the Atom feed after XML parsing.
 */
module Arxiv {
  import opened Common
  import opened Text

  // ---------------------------------------------------------------------
  // Tokens: the matches of /"[^"]+"|\S+/g, left to right
  // ---------------------------------------------------------------------

  /** The first index from `k` on that holds a double quote, or `|s|`. */
  function NextQuote(s: string, k: nat): (q: nat)
    requires k <= |s|
    ensures k <= q <= |s|
    ensures q < |s| ==> s[q] == '"'
    ensures forall i :: k <= i < q ==> s[i] != '"'
    decreases |s| - k
  {
    if k < |s| && s[k] != '"' then NextQuote(s, k + 1) else k
  }

  /** A token of the first alternative: a quote, at least one other character, a quote. */
  predicate IsPhrase(t: string) {
    && |t| >= 3 && t[0] == '"' && t[|t| - 1] == '"'
    && forall i :: 0 < i < |t| - 1 ==> t[i] != '"'
  }

  /**
   * Where `"[^"]+"` matched at `p` ends, if it matches there: the match is
   * the one phrase that starts at `p`, and there is none when this is None.
   */
  function PhraseEnd(s: string, p: nat): (r: Option<nat>)
    requires p < |s|
    ensures r.Some? ==> p + 3 <= r.value <= |s| && IsPhrase(s[p..r.value])
    ensures forall e :: p < e <= |s| ==> (IsPhrase(s[p..e]) <==> r == Some(e))
  {
    var r := if s[p] == '"' then
      var q := NextQuote(s, p + 1);
      if p + 1 < q < |s| then
        var t := s[p..q + 1];
        assert forall i :: 0 < i < |t| - 1 ==> t[i] == s[p + i];
        Some(q + 1)
      else None
    else None;
    PhrasesAt(s, p, r);
    r
  }

  /** A phrase at `p` closes at the first quote after the opening one. */
  lemma PhrasesAt(s: string, p: nat, r: Option<nat>)
    requires p < |s|
    requires r == (if s[p] == '"' && p + 1 < NextQuote(s, p + 1) < |s| then Some(NextQuote(s, p + 1) + 1) else None)
    ensures forall e :: p < e <= |s| ==> (IsPhrase(s[p..e]) <==> r == Some(e))
  {
    forall e | p < e <= |s|
      ensures IsPhrase(s[p..e]) <==> r == Some(e)
    {
      PhraseAtIff(s, p, e, r);
    }
  }

  /** One end at a time: `s[p..e]` is a phrase exactly when it ends at `r`. */
  lemma PhraseAtIff(s: string, p: nat, e: nat, r: Option<nat>)
    requires p < e <= |s|
    requires r == (if s[p] == '"' && p + 1 < NextQuote(s, p + 1) < |s| then Some(NextQuote(s, p + 1) + 1) else None)
    ensures IsPhrase(s[p..e]) <==> r == Some(e)
  {
    if IsPhrase(s[p..e]) {
      PhraseClosesAtNextQuote(s, p, e);
    } else if r == Some(e) {
      PhraseUpToNextQuote(s, p, e);
    }
  }

  /** From an opening quote to the first quote after it, with something between, is a phrase. */
  lemma PhraseUpToNextQuote(s: string, p: nat, e: nat)
    requires p < e <= |s| && s[p] == '"' && p + 1 < e - 1 == NextQuote(s, p + 1) < |s|
    ensures IsPhrase(s[p..e])
  {
    assert forall i :: 0 < i < e - p - 1 ==> s[p..e][i] == s[p + i];
  }

  /** The closing quote of a phrase at `p` is the first quote after the opening one. */
  lemma PhraseClosesAtNextQuote(s: string, p: nat, e: nat)
    requires p < e <= |s| && IsPhrase(s[p..e])
    ensures s[p] == '"' && p + 3 <= e && NextQuote(s, p + 1) == e - 1
  {
    var t := s[p..e];
    assert s[p] == t[0];
    assert s[e - 1] == t[|t| - 1];
    assert forall i :: p + 1 <= i < e - 1 ==> s[i] == t[i - p];
    NextQuoteIsFirst(s, p + 1, e - 1);
  }

  /** A quote with none between `k` and it is the one `NextQuote` finds. */
  lemma NextQuoteIsFirst(s: string, k: nat, q: nat)
    requires k <= q < |s| && s[q] == '"'
    requires forall i :: k <= i < q ==> s[i] != '"'
    ensures NextQuote(s, k) == q
  {
  }

  /**
   * Where the match at a non-whitespace position `p` ends: the phrase when
   * there is one, else the whole run of non-whitespace (`\S+` is greedy).
   */
  function TokenEnd(s: string, p: nat): (e: nat)
    requires p < |s| && !IsSpace(s[p])
    ensures p < e <= |s|
    ensures PhraseEnd(s, p).Some? ==> IsPhrase(s[p..e])
    ensures PhraseEnd(s, p).None? ==> NoSpace(s[p..e]) && (e == |s| || IsSpace(s[e]))
  {
    match PhraseEnd(s, p)
    case Some(e) => e
    case None =>
      var e := WordEnd(s, p);
      assert forall i :: 0 <= i < e - p ==> s[p..e][i] == s[p + i];
      e
  }

  /** The global matches from `p` on; whitespace where no match starts is skipped. */
  function TokensFrom(s: string, p: nat): (r: seq<string>)
    requires p <= |s|
    ensures forall t | t in r :: IsPhrase(t) || (t != [] && NoSpace(t))
    decreases |s| - p
  {
    if p == |s| then []
    else if IsSpace(s[p]) then TokensFrom(s, p + 1)
    else
      var e := TokenEnd(s, p);
      var t := s[p..e];
      assert PhraseEnd(s, p).None? ==> NoSpace(t);
      [t] + TokensFrom(s, e)
  }

  /** `query.match(regex) || []`. */
  function Tokens(query: string): seq<string> {
    TokensFrom(query, 0)
  }

  /** The matches cover every non-whitespace character of the query, in order. */
  lemma {:induction false} TokensCoverText(s: string, p: nat)
    requires p <= |s|
    ensures NonSpace(Concat(TokensFrom(s, p))) == NonSpace(s[p..])
    decreases |s| - p
  {
    if p == |s| {
    } else if IsSpace(s[p]) {
      TokensCoverText(s, p + 1);
      assert s[p..][1..] == s[p + 1..];
    } else {
      var e := TokenEnd(s, p);
      var ts := TokensFrom(s, p);
      TokensCoverText(s, e);
      assert ts[1..] == TokensFrom(s, e);
      assert Concat(ts) == s[p..e] + Concat(TokensFrom(s, e));
      NonSpaceConcat(s[p..e], Concat(TokensFrom(s, e)));
      SliceSplit(s, p, e);
      NonSpaceConcat(s[p..e], s[e..]);
    }
  }

  /** There are no matches exactly when the rest of the query is blank. */
  lemma {:induction false} TokensEmptyIffBlank(s: string, p: nat)
    requires p <= |s|
    ensures TokensFrom(s, p) == [] <==> Blank(s[p..])
    decreases |s| - p
  {
    if p < |s| && IsSpace(s[p]) {
      TokensEmptyIffBlank(s, p + 1);
      assert forall i :: 0 < i < |s| - p ==> s[p..][i] == s[p + 1..][i - 1];
    } else if p < |s| {
      assert s[p..][0] == s[p];
    }
  }

  /** Gaps and tokens taken in turn: gap, token, gap, ..., token, gap. */
  function Interleave(gaps: seq<string>, ts: seq<string>): string
    requires |gaps| == |ts| + 1
    decreases |ts|
  {
    if ts == [] then gaps[0] else gaps[0] + ts[0] + Interleave(gaps[1..], ts[1..])
  }

  /** A character put in front of the first gap comes first. */
  lemma InterleaveCons(c: char, gaps: seq<string>, ts: seq<string>)
    requires |gaps| == |ts| + 1
    ensures Interleave([[c] + gaps[0]] + gaps[1..], ts) == [c] + Interleave(gaps, ts)
  {
    var g := [[c] + gaps[0]] + gaps[1..];
    assert g[0] == [c] + gaps[0] && g[1..] == gaps[1..];
    if ts != [] {
      assert [c] + gaps[0] + ts[0] + Interleave(gaps[1..], ts[1..])
        == [c] + (gaps[0] + ts[0] + Interleave(gaps[1..], ts[1..]));
    }
  }

  /** `gaps` are blank and, taken in turn with the tokens `ts`, make up `text`. */
  predicate GapsRebuild(gaps: seq<string>, ts: seq<string>, text: string) {
    && |gaps| == |ts| + 1
    && (forall g | g in gaps :: Blank(g))
    && Interleave(gaps, ts) == text
  }

  /** The whitespace the scanner skips from `p` on: before each match, and after the last. */
  function Gaps(s: string, p: nat): (r: seq<string>)
    requires p <= |s|
    ensures |r| == |TokensFrom(s, p)| + 1
    decreases |s| - p
  {
    if p == |s| then [""]
    else if IsSpace(s[p]) then
      var g := Gaps(s, p + 1);
      [[s[p]] + g[0]] + g[1..]
    else [""] + Gaps(s, TokenEnd(s, p))
  }

  /**
   * The matches, with the whitespace between them, make up the query again:
   * the text from `p` is blank gaps and the tokens taken in turn, so the
   * scanner skips nothing but whitespace.
   */
  lemma {:induction false} TokensRebuildText(s: string, p: nat)
    requires p <= |s|
    ensures GapsRebuild(Gaps(s, p), TokensFrom(s, p), s[p..])
    decreases |s| - p
  {
    if p == |s| {
    } else if IsSpace(s[p]) {
      TokensRebuildText(s, p + 1);
      RebuildAfterSpace(s, p);
    } else {
      TokensRebuildText(s, TokenEnd(s, p));
      RebuildAfterToken(s, p);
    }
  }

  /** Whitespace skipped at `p` goes into the first gap. */
  lemma RebuildAfterSpace(s: string, p: nat)
    requires p < |s| && IsSpace(s[p])
    requires GapsRebuild(Gaps(s, p + 1), TokensFrom(s, p + 1), s[p + 1..])
    ensures GapsRebuild(Gaps(s, p), TokensFrom(s, p), s[p..])
  {
    RebuildSpace(s[p], Gaps(s, p + 1), TokensFrom(s, p + 1), s[p + 1..]);
    assert TokensFrom(s, p) == TokensFrom(s, p + 1);
    assert s[p..] == [s[p]] + s[p + 1..];
  }

  /** The token matched at `p` comes after an empty gap. */
  lemma RebuildAfterToken(s: string, p: nat)
    requires p < |s| && !IsSpace(s[p])
    requires GapsRebuild(Gaps(s, TokenEnd(s, p)), TokensFrom(s, TokenEnd(s, p)), s[TokenEnd(s, p)..])
    ensures GapsRebuild(Gaps(s, p), TokensFrom(s, p), s[p..])
  {
    var e := TokenEnd(s, p);
    TokenStep(s, p);
    SliceSplit(s, p, e);
    RebuildToken(s[p..e], Gaps(s, e), TokensFrom(s, e), s[e..]);
  }

  /** At a non-whitespace position the scanner takes one match and goes on after it. */
  lemma TokenStep(s: string, p: nat)
    requires p < |s| && !IsSpace(s[p])
    ensures var e := TokenEnd(s, p);
      && Gaps(s, p) == [""] + Gaps(s, e)
      && TokensFrom(s, p) == [s[p..e]] + TokensFrom(s, e)
  {
  }

  /** Skipped whitespace joins the gap in front of the next token. */
  lemma RebuildSpace(c: char, rest: seq<string>, ts: seq<string>, text: string)
    requires IsSpace(c) && GapsRebuild(rest, ts, text)
    ensures GapsRebuild([[c] + rest[0]] + rest[1..], ts, [c] + text)
  {
    InterleaveCons(c, rest, ts);
    assert rest[0] in rest;
    assert forall g | g in rest[1..] :: g in rest;
  }

  /** A token comes after an empty gap. */
  lemma RebuildToken(t: string, rest: seq<string>, ts: seq<string>, text: string)
    requires GapsRebuild(rest, ts, text)
    ensures GapsRebuild([""] + rest, [t] + ts, t + text)
  {
    var gaps := [""] + rest;
    assert gaps[1..] == rest && ([t] + ts)[1..] == ts;
  }

  // ---------------------------------------------------------------------
  // formatQuery
  // ---------------------------------------------------------------------

  const Operators := ["AND", "OR", "ANDNOT"]

  /** `operators.includes(token.toUpperCase())`: an operator in any letter case. */
  predicate IsOperator(t: string) {
    Upper(t) in Operators
  }

  predicate IsTerm(t: string) {
    !IsOperator(t)
  }

  /** The conjunction the formatter inserts is itself an operator. */
  lemma AndIsOperator()
    ensures IsOperator("AND") && !IsTerm("AND")
  {
    var u := Upper("AND");
    assert u[0] == 'A' && u[1] == 'N' && u[2] == 'D';
    assert u == "AND";
  }

  /** An operator is emitted in upper case, any other token as it was typed. */
  function Normalize(t: string): (r: string)
    ensures IsOperator(r) <==> IsOperator(t)
  {
    if IsOperator(t) then
      UpperIdempotent(t);
      Upper(t)
    else t
  }

  /** What token `i` contributes: an `AND` when it and the token before it are both terms, then the token itself. */
  function Piece(ts: seq<string>, i: nat): seq<string>
    requires i < |ts|
  {
    (if 0 < i && IsTerm(ts[i - 1]) && IsTerm(ts[i]) then ["AND"] else []) + [Normalize(ts[i])]
  }

  /** The contributions of the first `n` tokens. */
  function FormattedPrefix(ts: seq<string>, n: nat): (r: seq<string>)
    requires n <= |ts|
    ensures n > 0 ==> r != [] && r[|r| - 1] == Normalize(ts[n - 1])
  {
    if n == 0 then [] else FormattedPrefix(ts, n - 1) + Piece(ts, n - 1)
  }

  /** The list `formatQuery` joins. */
  function Formatted(ts: seq<string>): seq<string> {
    FormattedPrefix(ts, |ts|)
  }

  /** `formatQuery`: the loop over the matches, then `result.join(' ')`. */
  method FormatQuery(query: string) returns (r: string)
    ensures r == Join(Formatted(Tokens(query)), " ")
  {
    var tokens := Tokens(query);
    var result: seq<string> := [];
    for i := 0 to |tokens|
      invariant result == FormattedPrefix(tokens, i)
    {
      var token := tokens[i];
      var upperToken := Upper(token);
      var effectiveToken := token;
      var isOperator := upperToken in Operators;
      if upperToken == "AND" || upperToken == "OR" || upperToken == "ANDNOT" {
        effectiveToken := upperToken;
        isOperator := true;
      }
      if i > 0 {
        var prevToken := result[|result| - 1];
        var prevIsOperator := Upper(prevToken) in Operators;
        if !isOperator && !prevIsOperator {
          result := result + ["AND"];
        }
      }
      result := result + [effectiveToken];
    }
    r := Join(result, " ");
  }

  /** A blank (or empty) query formats to the empty string. */
  lemma BlankQueryFormatsEmpty(query: string)
    requires Blank(query)
    ensures Join(Formatted(Tokens(query)), " ") == ""
  {
    TokensEmptyIffBlank(query, 0);
    assert query[0..] == query;
  }

  /** Of any two neighbours, at least one is an operator. */
  predicate NoTwoTerms(f: seq<string>) {
    forall k :: 0 <= k < |f| - 1 ==> IsOperator(f[k]) || IsOperator(f[k + 1])
  }

  /** No two terms are ever adjacent in the output: an operator stands between any two. */
  lemma {:induction false} NoAdjacentTerms(ts: seq<string>, n: nat)
    requires n <= |ts|
    ensures NoTwoTerms(FormattedPrefix(ts, n))
  {
    if n > 0 {
      NoAdjacentTerms(ts, n - 1);
      var prev := FormattedPrefix(ts, n - 1);
      var piece := Piece(ts, n - 1);
      var f := prev + piece;
      AndIsOperator();
      forall k | 0 <= k < |f| - 1
        ensures IsOperator(f[k]) || IsOperator(f[k + 1])
      {
        if k + 1 < |prev| {
          assert f[k] == prev[k] && f[k + 1] == prev[k + 1];
          assert IsOperator(prev[k]) || IsOperator(prev[k + 1]);
        } else if k + 1 == |prev| {
          assert n >= 2;
          assert f[k] == Normalize(ts[n - 2]);
          if IsTerm(ts[n - 2]) && IsTerm(ts[n - 1]) {
            assert f[k + 1] == "AND";
          } else {
            assert f[k + 1] == Normalize(ts[n - 1]);
            assert IsOperator(ts[n - 2]) || IsOperator(ts[n - 1]);
          }
        } else {
          assert |piece| == 2 && piece[0] == "AND";
          assert f[k] == piece[0];
        }
      }
    }
  }

  /** A token's contribution holds the token itself as its only term. */
  lemma PieceTerms(ts: seq<string>, i: nat)
    requires i < |ts|
    ensures Filter(Piece(ts, i), IsTerm) == Filter([ts[i]], IsTerm)
  {
    var glue: seq<string> := if 0 < i && IsTerm(ts[i - 1]) && IsTerm(ts[i]) then ["AND"] else [];
    assert Piece(ts, i) == glue + [Normalize(ts[i])];
    FilterConcat(glue, [Normalize(ts[i])], IsTerm);
    AndIsOperator();
    assert Filter(glue, IsTerm) == [];
  }

  /** The terms of the output are exactly the terms of the query, verbatim and in order. */
  lemma {:induction false} TermsKept(ts: seq<string>, n: nat)
    requires n <= |ts|
    ensures Filter(FormattedPrefix(ts, n), IsTerm) == Filter(ts[..n], IsTerm)
  {
    if n > 0 {
      var prev, piece := FormattedPrefix(ts, n - 1), Piece(ts, n - 1);
      var before, last := ts[..n - 1], [ts[n - 1]];
      TermsKept(ts, n - 1);
      PieceTerms(ts, n - 1);
      FilterCongruent(prev, piece, before, last, IsTerm);
      FormattedStep(ts, n);
      PrefixStep(ts, n);
    }
  }

  /** The first `n` contributions are the first `n - 1` followed by the last one. */
  lemma FormattedStep(ts: seq<string>, n: nat)
    requires 0 < n <= |ts|
    ensures FormattedPrefix(ts, n) == FormattedPrefix(ts, n - 1) + Piece(ts, n - 1)
  {
  }

  /** The first `n` tokens are the first `n - 1` followed by the last one. */
  lemma PrefixStep<T>(ts: seq<T>, n: nat)
    requires 0 < n <= |ts|
    ensures ts[..n] == ts[..n - 1] + [ts[n - 1]]
  {
  }

  /** Every operator in the output is written in upper case. */
  lemma {:induction false} OperatorsUpper(ts: seq<string>, n: nat)
    requires n <= |ts|
    ensures forall x | x in FormattedPrefix(ts, n) && IsOperator(x) :: x in Operators
  {
    if n > 0 {
      OperatorsUpper(ts, n - 1);
      var t := ts[n - 1];
      if IsOperator(t) {
        UpperIdempotent(t);
      }
      AndIsOperator();
    }
  }

  // ---------------------------------------------------------------------
  // parseEntry
  // ---------------------------------------------------------------------

  /** A parsed XML text value: a plain string, an element (with its `#text`, if any), or nothing at all. */
  datatype TextNode = Str(s: string) | Node(text: Option<string>) | Missing

  /** A repeatable element after XML parsing: absent, a single object, or an array. */
  datatype Many<T> = Absent | One(item: T) | List(items: seq<T>)

  datatype RawAuthor = RawAuthor(name: TextNode)

  /** A link's `rel`, `href`, `type` and `title` attributes, which are also the fields the paper keeps. */
  datatype Link = Link(rel: Option<string>, href: Option<string>, kind: Option<string>, title: Option<string>)

  /** A `<category>` element; its `term` attribute is None when absent (`undefined`). */
  datatype RawCategory = RawCategory(term: Option<string>)

  datatype RawEntry = RawEntry(
    id: Option<string>, title: TextNode, summary: TextNode,
    author: Many<RawAuthor>, link: Many<Link>, category: Many<RawCategory>,
    published: Option<string>, updated: Option<string>)

  datatype Paper = Paper(
    id: string, shortId: string, title: string, summary: string, authors: seq<string>,
    published: Option<string>, updated: Option<string>, category: Option<string>,
    links: seq<Link>, pdfLink: Option<string>)

  /** `if (!x) x = []; if (!Array.isArray(x)) x = [x];` */
  function AsList<T>(m: Many<T>): (r: seq<T>)
    ensures m.Absent? ==> r == []
    ensures m.One? ==> r == [m.item]
    ensures m.List? ==> r == m.items
  {
    match m
    case Absent => []
    case One(x) => [x]
    case List(xs) => xs
  }

  /** `typeof x === 'string' ? x : x['#text'] || ''`; reading `#text` of nothing throws. */
  function TextOf(n: TextNode): (r: Option<string>)
    ensures r.None? <==> n.Missing?
    ensures n.Str? ==> r == Some(n.s)
    ensures n.Node? && n.text.Some? ==> r == Some(n.text.value)
    ensures n.Node? && n.text.None? ==> r == Some("")
  {
    match n
    case Str(s) => Some(s)
    case Node(t) => Some(if t.Some? then t.value else "")
    case Missing => None
  }

  /** The authors' names, one per author in order, or None when some author has no name. */
  function AuthorNames(authors: seq<RawAuthor>): (r: Option<seq<string>>)
    ensures r.None? <==> exists i :: 0 <= i < |authors| && authors[i].name.Missing?
    ensures r.Some? ==> (|r.value| == |authors|
      && forall i :: 0 <= i < |authors| ==> Some(r.value[i]) == TextOf(authors[i].name))
    decreases |authors|
  {
    if authors == [] then Some([])
    else
      var rest := AuthorNames(authors[1..]);
      assert forall i :: 0 < i < |authors| ==> authors[i] == authors[1..][i - 1];
      match TextOf(authors[0].name)
      case None => None
      case Some(name) =>
        if rest.None? then None else Some([name] + rest.value)
  }

  /** The links `find` accepts as the PDF. */
  predicate IsPdfLink(l: Link) {
    l.title == Some("pdf") || l.kind == Some("application/pdf") || l.rel == Some("related")
  }

  /** The first link that is a PDF link, if any. */
  function FirstPdfLink(links: seq<Link>): (r: Option<nat>)
    ensures r.None? <==> forall i :: 0 <= i < |links| ==> !IsPdfLink(links[i])
    ensures r.Some? ==> (r.value < |links| && IsPdfLink(links[r.value])
      && forall i :: 0 <= i < r.value ==> !IsPdfLink(links[i]))
    decreases |links|
  {
    if links == [] then None
    else if IsPdfLink(links[0]) then Some(0)
    else
      var rest := FirstPdfLink(links[1..]);
      assert forall i :: 0 < i < |links| ==> links[i] == links[1..][i - 1];
      if rest.Some? then Some(rest.value + 1) else None
  }

  /** `links.find(...)?.href`. */
  function PdfLink(links: seq<Link>): Option<string> {
    match FirstPdfLink(links)
    case Some(i) => links[i].href
    case None => None
  }

  const AbsMarker := "/abs/"

  /**
   * `id.split('/abs/')[1]` when the marker occurs, `id` otherwise: the text
   * after the first marker, up to the next marker or the end.
   */
  function ShortId(id: string): string {
    match FindFrom(id, AbsMarker, 0)
    case None => id
    case Some(j) =>
      var start := j + |AbsMarker|;
      match FindFrom(id, AbsMarker, start)
      case None => id[start..]
      case Some(k) => id[start..k]
  }

  /** An id without the marker is its own short id. */
  lemma ShortIdWithoutMarker(id: string)
    requires !Includes(id, AbsMarker)
    ensures ShortId(id) == id
  {
  }

  lemma NoMarkerBefore(prefix: string, rest: string, j: nat)
    requires !Includes(prefix + "/abs", AbsMarker) && j < |prefix|
    ensures !OccursAt(prefix + AbsMarker + rest, j, AbsMarker)
  {
    var id := prefix + AbsMarker + rest;
    var p4 := prefix + "/abs";
    if OccursAt(id, j, AbsMarker) {
      assert id[j..j + 5] == p4[j..j + 5];
      assert OccursAt(p4, j, AbsMarker);
    }
  }

  lemma NoMarkerAfter(prefix: string, rest: string, k: nat)
    requires !Includes(rest, AbsMarker) && |prefix| + 5 <= k
    ensures !OccursAt(prefix + AbsMarker + rest, k, AbsMarker)
  {
    var id := prefix + AbsMarker + rest;
    var start := |prefix| + 5;
    if OccursAt(id, k, AbsMarker) {
      assert id[k..k + 5] == rest[k - start..k - start + 5];
      assert OccursAt(rest, k - start, AbsMarker);
    }
  }

  /** An id with a single marker, not preceded by a partial one, has everything after the marker as its short id. */
  lemma ShortIdAfterMarker(prefix: string, rest: string)
    requires !Includes(prefix + "/abs", AbsMarker) && !Includes(rest, AbsMarker)
    ensures ShortId(prefix + AbsMarker + rest) == rest
  {
    var id := prefix + AbsMarker + rest;
    var m := |prefix|;
    assert OccursAt(id, m, AbsMarker) by { assert id[m..m + 5] == AbsMarker; }
    forall j | 0 <= j < m
      ensures !OccursAt(id, j, AbsMarker)
    {
      NoMarkerBefore(prefix, rest, j);
    }
    assert FindFrom(id, AbsMarker, 0) == Some(m);
    forall k | m + 5 <= k
      ensures !OccursAt(id, k, AbsMarker)
    {
      NoMarkerAfter(prefix, rest, k);
    }
    assert FindFrom(id, AbsMarker, m + 5).None?;
    assert id[m + 5..] == rest;
  }

  /** `title.replace(/\s+/g, ' ').trim()`. */
  function CleanTitle(title: string): (r: string)
    ensures SingleSpaced(r)
    ensures r == [] || (!IsSpace(r[0]) && !IsSpace(r[|r| - 1]))
    ensures NonSpace(r) == NonSpace(title)
    ensures r == Join(Words(title), " ")
  {
    CollapseTrimJoinsWords(title);
    CollapseSpacesSingleSpaced(title);
    TrimSingleSpaced(CollapseSpaces(title));
    CollapseSpacesKeepsText(title);
    TrimKeepsText(CollapseSpaces(title));
    Trim(CollapseSpaces(title))
  }

  /** The property accesses of `parseEntry` that throw a TypeError. */
  predicate ParseFails(e: RawEntry) {
    || e.id.None?
    || e.title.Missing? || e.summary.Missing?
    || (exists i | 0 <= i < |AsList(e.author)| :: AsList(e.author)[i].name.Missing?)
    || e.category == List([])
  }

  /** `parseEntry`. */
  function ParseEntry(e: RawEntry): (r: Result<Paper, string>)
    ensures r.Err? <==> ParseFails(e)
    ensures r.Ok? ==>
      var p := r.value;
      && p.id == e.id.value
      && p.shortId == ShortId(e.id.value)
      && p.title == CleanTitle(TextOf(e.title).value)
      && p.summary == Trim(TextOf(e.summary).value)
      && |p.authors| == |AsList(e.author)|
      && (forall i :: 0 <= i < |p.authors| ==> Some(p.authors[i]) == TextOf(AsList(e.author)[i].name))
      && p.links == AsList(e.link)
      && p.pdfLink == PdfLink(AsList(e.link))
      && p.category == (match e.category case Absent => Some("") case One(c) => c.term case List(cs) => cs[0].term)
      && p.published == e.published && p.updated == e.updated
  {
    if ParseFails(e) then Err("TypeError") else Ok(BuildPaper(e))
  }

  /** The paper `parseEntry` builds from an entry none of whose accesses throw. */
  function BuildPaper(e: RawEntry): Paper
    requires !ParseFails(e)
  {
    var authors := AuthorNames(AsList(e.author));
    var links := AsList(e.link);
    var category := match e.category
      case Absent => Some("")
      case One(c) => c.term
      case List(cs) => cs[0].term;
    Paper(
      e.id.value, ShortId(e.id.value),
      CleanTitle(TextOf(e.title).value), Trim(TextOf(e.summary).value),
      authors.value, e.published, e.updated, category, links, PdfLink(links))
  }
}

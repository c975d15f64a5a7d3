/** Full-text search over the pages (`normalizeQuery`, `splitTerms`,
    `countOccurrences`, `makeSnippet` and `computeSearchResults` in
    docs/doc-engine.js). */
module Search {
  import opened Text
  import opened Json
  import opened Wrappers
  import opened Sorting
  import opened NavTree

  // ---------------------------------------------------------------------------
  // normalizeQuery and splitTerms

  /** `normalizeQuery`: trimmed, lower-cased, each whitespace run one space. */
  function NormalizeQuery(q: string): string {
    ReplaceSpaceRuns(ToLower(Trim(q)), ' ')
  }

  /** A normalised query: trimmed, lower-case, and its only whitespace single
      spaces between words. */
  predicate IsNormalQuery(n: string) {
    Trimmed(n) && IsLower(n) && SingleSpaced(n)
  }

  lemma NormalizeQueryShape(q: string)
    ensures IsNormalQuery(NormalizeQuery(q))
    ensures NormalizeQuery(q) == "" <==> Trim(q) == ""
  {
    var t := Trim(q);
    TrimIsSlice(q);
    var l := ToLower(t);
    ToLowerIsLower(t);
    ReplaceSpaceRunsLower(l, ' ');
    ReplaceSpaceRunsSingleSpaced(l);
    ReplaceSpaceRunsEnds(l, ' ');
  }

  /** Normalising twice is normalising once. */
  lemma NormalizeQueryIdempotent(q: string)
    ensures NormalizeQuery(NormalizeQuery(q)) == NormalizeQuery(q)
  {
    var n := NormalizeQuery(q);
    NormalizeQueryShape(q);
    TrimOfTrimmed(n);
    LowerIsFixed(n);
    ReplaceSpaceRunsFixed(n);
  }

  /** `.map(t => t.trim()).filter(t => t.length >= 2)`. */
  function LongTerms(parts: seq<string>): (r: seq<string>)
    ensures forall k :: 0 <= k < |r| ==> |r[k]| >= 2
  {
    if parts == [] then []
    else (if |Trim(parts[0])| >= 2 then [Trim(parts[0])] else []) + LongTerms(parts[1..])
  }

  /** Words that are already trimmed, lower-case and free of whitespace
      give terms that are too. */
  lemma {:induction false} LongTermsAreTerms(parts: seq<string>)
    requires forall j :: 0 <= j < |parts| ==> Trim(parts[j]) == parts[j] && IsLower(parts[j]) && NoSpace(parts[j])
    ensures forall k :: 0 <= k < |LongTerms(parts)| ==> IsTerm(LongTerms(parts)[k])
  {
    if parts != [] {
      assert forall j :: 1 <= j < |parts| ==> parts[1..][j - 1] == parts[j];
      LongTermsAreTerms(parts[1..]);
    }
  }

  /** `splitTerms`: the words of the normalised query that have at least two
      characters. */
  function SplitTerms(q: string): seq<string> {
    var n := NormalizeQuery(q);
    if n == "" then [] else LongTerms(SplitOn(n, ' '))
  }

  /** Every piece of a split is made of characters of the string. */
  lemma {:induction false} SplitOnChars(s: string, c: char)
    ensures forall k, i :: 0 <= k < |SplitOn(s, c)| && 0 <= i < |SplitOn(s, c)[k]| ==> SplitOn(s, c)[k][i] in s
  {
    if s != [] {
      SplitOnChars(s[1..], c);
    }
  }

  /** A search term: at least two characters, lower-case, no whitespace. */
  predicate IsTerm(t: string) {
    |t| >= 2 && IsLower(t) && NoSpace(t)
  }

  /** The terms of any query are lower-case words of two or more characters,
      and a blank query has none. */
  lemma SplitTermsShape(q: string)
    ensures forall k :: 0 <= k < |SplitTerms(q)| ==> IsTerm(SplitTerms(q)[k])
    ensures Trim(q) == "" ==> SplitTerms(q) == []
  {
    var n := NormalizeQuery(q);
    NormalizeQueryShape(q);
    if n != "" {
      var parts := SplitOn(n, ' ');
      SplitOnChars(n, ' ');
      forall j | 0 <= j < |parts| ensures Trim(parts[j]) == parts[j] && IsLower(parts[j]) && NoSpace(parts[j]) {
        forall i | 0 <= i < |parts[j]| ensures ToLowerChar(parts[j][i]) == parts[j][i] && !IsSpace(parts[j][i]) {
          var ch := parts[j][i];
          assert ch in n && ch != ' ';
          var p :| 0 <= p < |n| && n[p] == ch;
        }
        TrimOfTrimmed(parts[j]);
      }
      LongTermsAreTerms(parts);
    }
  }

  // ---------------------------------------------------------------------------
  // countOccurrences

  /** The matches `countOccurrences` finds from `pos` on: the first one, then
      the ones after its end. */
  function OccurrencesFrom(hay: string, needle: string, pos: nat): nat
    requires needle != "" && pos <= |hay|
    decreases |hay| - pos
  {
    var idx := SearchFrom(hay, needle, pos);
    if idx == -1 then 0 else OccurrencesFrom(hay, needle, idx + |needle|) + 1
  }

  lemma OccurrencesFromStep(hay: string, needle: string, pos: nat)
    requires needle != "" && pos <= |hay|
    ensures SearchFrom(hay, needle, pos) == -1 ==> OccurrencesFrom(hay, needle, pos) == 0
    ensures SearchFrom(hay, needle, pos) != -1 ==>
              OccurrencesFrom(hay, needle, pos)
              == OccurrencesFrom(hay, needle, SearchFrom(hay, needle, pos) + |needle|) + 1
  {
  }

  /** The number of non-overlapping matches, 0 for an empty needle. */
  function Occurrences(hay: string, needle: string): nat {
    if needle == "" then 0 else OccurrencesFrom(hay, needle, 0)
  }

  lemma {:induction false} OccurrencesFromBound(hay: string, needle: string, pos: nat)
    requires needle != "" && pos <= |hay|
    ensures OccurrencesFrom(hay, needle, pos) * |needle| <= |hay| - pos
    decreases |hay| - pos
  {
    var idx := SearchFrom(hay, needle, pos);
    if idx != -1 {
      var next := idx + |needle|;
      OccurrencesFromBound(hay, needle, next);
      assert pos <= idx && next <= |hay|;
      MulSucc(OccurrencesFrom(hay, needle, next), |needle|);
    }
  }

  lemma MulSucc(c: nat, n: nat)
    ensures (c + 1) * n == c * n + n
  {
  }

  /** The matches counted do not overlap: together they fit in the string. */
  lemma OccurrencesBound(hay: string, needle: string)
    ensures Occurrences(hay, needle) * |needle| <= |hay|
  {
    if needle != "" {
      OccurrencesFromBound(hay, needle, 0);
    }
  }

  /** No occurrence exactly when the needle is empty or absent. */
  lemma OccurrencesZeroIffAbsent(hay: string, needle: string)
    ensures Occurrences(hay, needle) == 0 <==> needle == "" || forall i :: !MatchAt(hay, needle, i)
  {
    ContainsMeansMatch(hay, needle);
  }

  /** `countOccurrences(hay, needle)`. */
  method CountOccurrences(hay: string, needle: string) returns (count: nat)
    ensures count == Occurrences(hay, needle)
  {
    if needle == "" {
      return 0;
    }
    count := 0;
    var pos := 0;
    while true
      invariant 0 <= pos <= |hay|
      invariant count + OccurrencesFrom(hay, needle, pos) == Occurrences(hay, needle)
      decreases |hay| - pos
    {
      var idx := IndexOf(hay, needle, pos);
      if idx == -1 {
        CountEnd(hay, needle, pos, count, Occurrences(hay, needle));
        break;
      }
      ghost var pos0, count0 := pos, count;
      count := count + 1;
      pos := idx + |needle|;
      CountStep(hay, needle, pos0, count0, idx, pos, count, Occurrences(hay, needle));
    }
  }

  /** One match found by the counting loop moves past it and counts it. */
  lemma CountStep(hay: string, needle: string, pos0: nat, count0: nat, idx: int, pos: int, count: nat, total: nat)
    requires needle != "" && pos0 <= |hay| && count0 + OccurrencesFrom(hay, needle, pos0) == total
    requires idx == IndexOf(hay, needle, pos0) && idx != -1
    requires pos == idx + |needle| && count == count0 + 1
    ensures pos0 < pos <= |hay| && count + OccurrencesFrom(hay, needle, pos) == total
  {
    IndexOfFound(hay, needle, pos0);
    OccurrencesFromFound(hay, needle, pos0, idx);
  }

  lemma OccurrencesFromFound(hay: string, needle: string, pos: nat, idx: int)
    requires needle != "" && pos <= |hay| && idx == SearchFrom(hay, needle, pos) && idx != -1
    ensures idx + |needle| <= |hay|
    ensures OccurrencesFrom(hay, needle, pos) == OccurrencesFrom(hay, needle, idx + |needle|) + 1
  {
  }

  /** No match left: the counting loop has counted every one. */
  lemma CountEnd(hay: string, needle: string, pos: nat, count: nat, total: nat)
    requires needle != "" && pos <= |hay| && count + OccurrencesFrom(hay, needle, pos) == total
    requires IndexOf(hay, needle, pos) == -1
    ensures count == total
  {
    OccurrencesFromStep(hay, needle, pos);
  }

  // ---------------------------------------------------------------------------
  // makeSnippet

  const DefaultRadius: int := 80
  const Ellipsis: char := '\U{2026}'

  /** The window `[start, end)` around the first match of `queryLower` in the
      lower-cased text, `radius` characters on either side, clamped to the text. */
  function SnippetWindow(t: string, idx: int, queryLength: nat, radius: int): (int, int) {
    (Max(0, idx - radius), Min(|t|, idx + queryLength + radius))
  }

  /** The radius `makeSnippet` uses: the one given, else 80. */
  function SnippetRadius(radius: Option<int>): int {
    if radius.Some? then radius.value else DefaultRadius
  }

  /** Where `makeSnippet` finds the term: the first match in the lower-cased text. */
  function FirstMatch(t: string, queryLower: string): (r: int)
    ensures r == -1 <==> !Contains(ToLower(t), queryLower)
    ensures r != -1 ==> 0 <= r && r + |queryLower| <= |t| && MatchAt(ToLower(t), queryLower, r)
  {
    IndexOf(ToLower(t), queryLower, 0)
  }

  /** The text of the window with its whitespace runs collapsed and trimmed. */
  function SnippetText(t: string, start: int, end: int): string {
    Trim(ReplaceSpaceRuns(Slice(t, start, end), ' '))
  }

  /** The snippet text between the ellipses that mark a cut at either side. */
  function Framed(cutBefore: bool, snip: string, cutAfter: bool): string {
    (if cutBefore then [Ellipsis] else []) + snip + (if cutAfter then [Ellipsis] else [])
  }

  /** `makeSnippet(text, queryLower, radius)`; `None` is a radius that is not a
      number. */
  function MakeSnippet(t: string, queryLower: string, radius: Option<int>): string {
    var idx := FirstMatch(t, queryLower);
    if idx == -1 then ""
    else
      var w := SnippetWindow(t, idx, |queryLower|, SnippetRadius(radius));
      Framed(w.0 > 0, SnippetText(t, w.0, w.1), w.1 < |t|)
  }

  /** The matched text, in its original case. */
  function MatchedText(t: string, queryLower: string): string {
    var idx := FirstMatch(t, queryLower);
    if 0 <= idx && idx + |queryLower| <= |t| then t[idx..idx + |queryLower|] else ""
  }

  /** No snippet when the term does not occur in the text. */
  lemma MakeSnippetAbsent(t: string, queryLower: string, radius: Option<int>)
    requires !Contains(ToLower(t), queryLower)
    ensures MakeSnippet(t, queryLower, radius) == ""
  {
  }

  /** A found term: an ellipsis opens the snippet when the window starts after
      the beginning of the text and closes it when the window stops before the
      end; a window covering the whole text gives the whole text, collapsed. */
  lemma MakeSnippetMarkers(t: string, queryLower: string, radius: Option<int>)
    requires Contains(ToLower(t), queryLower)
    ensures var w := SnippetWindow(t, FirstMatch(t, queryLower), |queryLower|, SnippetRadius(radius));
            var r := MakeSnippet(t, queryLower, radius);
            && (w.0 > 0 ==> r != [] && r[0] == Ellipsis)
            && (w.1 < |t| ==> r != [] && r[|r| - 1] == Ellipsis)
            && (w.0 == 0 && w.1 == |t| ==> r == Trim(ReplaceSpaceRuns(t, ' ')))
  {
    var w := SnippetWindow(t, FirstMatch(t, queryLower), |queryLower|, SnippetRadius(radius));
    var snip := SnippetText(t, w.0, w.1);
    SnippetFound(t, queryLower, radius, w, snip);
    FramedEnds(w.0 > 0, snip, w.1 < |t|);
    WholeWindowText(t, w.0, w.1);
  }

  lemma WholeWindowText(t: string, start: int, end: int)
    ensures start == 0 && end == |t| ==> SnippetText(t, start, end) == Trim(ReplaceSpaceRuns(t, ' '))
  {
    if start == 0 && end == |t| {
      assert Slice(t, start, end) == t;
    }
  }

  lemma FramedEnds(cutBefore: bool, s: string, cutAfter: bool)
    ensures var r := Framed(cutBefore, s, cutAfter);
            && (cutBefore ==> r != [] && r[0] == Ellipsis)
            && (cutAfter ==> r != [] && r[|r| - 1] == Ellipsis)
            && (!cutBefore && !cutAfter ==> r == s)
  {
  }

  /** With a radius that is not negative the snippet is at most the term, the
      radius on either side and two ellipses long. */
  lemma MakeSnippetLength(t: string, queryLower: string, radius: Option<int>)
    requires SnippetRadius(radius) >= 0
    ensures |MakeSnippet(t, queryLower, radius)| <= |queryLower| + 2 * SnippetRadius(radius) + 2
  {
    var idx := FirstMatch(t, queryLower);
    if idx != -1 {
      var w := SnippetWindow(t, idx, |queryLower|, SnippetRadius(radius));
      var s := Slice(t, w.0, w.1);
      SliceLength(t, w.0, w.1);
      ReplaceSpaceRunsLength(s, ' ');
      var snip := SnippetText(t, w.0, w.1);
      assert |snip| <= |s|;
      assert |Framed(w.0 > 0, snip, w.1 < |t|)| <= |snip| + 2;
    }
  }

  /** With a radius that is not negative and a term without whitespace, the
      snippet shows the matched text in its original case. */
  lemma MakeSnippetShowsMatch(t: string, queryLower: string, radius: Option<int>)
    requires Contains(ToLower(t), queryLower) && queryLower != [] && NoSpace(queryLower)
    requires SnippetRadius(radius) >= 0
    ensures ToLower(MatchedText(t, queryLower)) == queryLower
    ensures exists i :: MatchAt(MakeSnippet(t, queryLower, radius), MatchedText(t, queryLower), i)
  {
    var idx := FirstMatch(t, queryLower);
    var m := MatchedText(t, queryLower);
    assert m == t[idx..idx + |queryLower|] && |m| == |queryLower|;
    MatchedTextLower(t, queryLower);
    MatchedTextNoSpace(t, queryLower);
    WindowOfMatchShows(t, queryLower, radius, idx, m);
  }

  /** The snippet around the first match shows the text `m` found there. */
  lemma WindowOfMatchShows(t: string, queryLower: string, radius: Option<int>, idx: int, m: string)
    requires idx == FirstMatch(t, queryLower) && 0 <= idx && idx + |m| <= |t|
    requires m == t[idx..idx + |m|] && |m| == |queryLower| && 0 < |m| && NoSpace(m)
    requires SnippetRadius(radius) >= 0
    ensures exists j :: MatchAt(MakeSnippet(t, queryLower, radius), m, j)
  {
    var w := SnippetWindow(t, idx, |m|, SnippetRadius(radius));
    assert 0 <= w.0 <= idx && idx + |m| <= w.1 <= |t|;
    var snip := SnippetText(t, w.0, w.1);
    WindowShows(t, w.0, idx, m, w.1);
    var i :| MatchAt(snip, m, i);
    MatchAtFramed(w.0 > 0, snip, w.1 < |t|, m, i);
    var j :| MatchAt(Framed(w.0 > 0, snip, w.1 < |t|), m, j);
    SnippetFound(t, queryLower, radius, w, snip);
    assert MatchAt(MakeSnippet(t, queryLower, radius), m, j);
  }

  lemma SnippetFound(t: string, queryLower: string, radius: Option<int>, w: (int, int), snip: string)
    requires FirstMatch(t, queryLower) != -1
    requires w == SnippetWindow(t, FirstMatch(t, queryLower), |queryLower|, SnippetRadius(radius))
    requires snip == SnippetText(t, w.0, w.1)
    ensures MakeSnippet(t, queryLower, radius) == Framed(w.0 > 0, snip, w.1 < |t|)
  {
  }

  /** A window around a stretch without whitespace still shows the stretch
      once collapsed and trimmed. */
  lemma WindowShows(t: string, start: int, idx: int, m: string, end: int)
    requires 0 <= start <= idx && 0 < |m| && idx + |m| <= end <= |t|
    requires m == t[idx..idx + |m|] && NoSpace(m)
    ensures exists i :: MatchAt(SnippetText(t, start, end), m, i)
  {
    SliceAround(t, start, idx, idx + |m|, end);
    var x, y := t[start..idx], t[idx + |m|..end];
    assert Slice(t, start, end) == x + m + y;
    ShowsWord(x, m, y);
    var c := ReplaceSpaceRuns(x, ' ') + m + ReplaceSpaceRuns(y, ' ');
    assert ReplaceSpaceRuns(Slice(t, start, end), ' ') == c;
    TrimKeepsWord(ReplaceSpaceRuns(x, ' '), m, ReplaceSpaceRuns(y, ' '));
    var i :| MatchAt(Trim(c), m, i);
    assert SnippetText(t, start, end) == Trim(c);
    assert MatchAt(SnippetText(t, start, end), m, i);
  }

  /** The text matched lower-cases to the term. */
  lemma MatchedTextLower(t: string, queryLower: string)
    requires Contains(ToLower(t), queryLower)
    ensures ToLower(MatchedText(t, queryLower)) == queryLower
  {
    var idx := FirstMatch(t, queryLower);
    LowerOfSlice(t, idx, idx + |queryLower|);
  }

  /** A term without whitespace matches text without whitespace. */
  lemma MatchedTextNoSpace(t: string, queryLower: string)
    requires Contains(ToLower(t), queryLower) && NoSpace(queryLower)
    ensures NoSpace(MatchedText(t, queryLower))
  {
    MatchedTextLower(t, queryLower);
    NoSpaceOfLower(MatchedText(t, queryLower));
  }

  lemma SliceAround(t: string, a: int, b: int, c: int, d: int)
    requires 0 <= a <= b <= c <= d <= |t| && a < d
    ensures Slice(t, a, d) == t[a..b] + t[b..c] + t[c..d]
  {
  }

  /** The collapse leaves a word without whitespace as it is between the
      collapsed text on either side. */
  lemma ShowsWord(x: string, m: string, y: string)
    requires m != [] && NoSpace(m)
    ensures ReplaceSpaceRuns(x + m + y, ' ') == ReplaceSpaceRuns(x, ' ') + m + ReplaceSpaceRuns(y, ' ')
  {
    assert x + m + y == x + (m + y);
    assert (m + y)[0] == m[0];
    ReplaceSpaceRunsConcat(x, m + y, ' ');
    ReplaceSpaceRunsKeepsWord(m, y, ' ');
  }

  lemma MatchAtFramed(cutBefore: bool, s: string, cutAfter: bool, m: string, i: int)
    requires MatchAt(s, m, i)
    ensures exists j :: MatchAt(Framed(cutBefore, s, cutAfter), m, j)
  {
    var pre := if cutBefore then [Ellipsis] else [];
    var post := if cutAfter then [Ellipsis] else [];
    var x, y := pre + s[..i], s[i + |m|..] + post;
    assert s == s[..i] + m + s[i + |m|..];
    assert Framed(cutBefore, s, cutAfter) == x + m + y;
    MatchAtMiddle(x, m, y);
  }

  // ---------------------------------------------------------------------------
  // buildSearchIndex

  /** One entry of the search index: what is shown and the lower-cased fields
      that are searched. */
  datatype IndexEntry = IndexEntry(
    id: Json,
    title: Json,
    pathText: string,
    plainText: string,
    idLower: string,
    titleLower: string,
    pathLower: string,
    textLower: string)

  /** The entry built for one page. `plainOf` stands for
      `toPlainTextFromMarkdown`, which renders the markdown and reads back its
      text. */
  function EntryOf(p: Page, plainOf: Json -> string): IndexEntry {
    var pathText := Join(NormalizePath(Field(p, "path")), " / ");
    var plain := plainOf(Or(Field(p, "content"), Str("")));
    var id := Field(p, "id");
    IndexEntry(
      id, Or(Field(p, "title"), id), pathText, plain,
      ToLower(ToJsString(Or(id, Str("")))),
      ToLower(ToJsString(Or(Or(Field(p, "title"), id), Str("")))),
      ToLower(pathText),
      ToLower(plain))
  }

  /** `buildSearchIndex`: one entry per page, in page order. */
  function SearchIndex(pages: seq<Page>, plainOf: Json -> string): seq<IndexEntry> {
    MapSeq(p => EntryOf(p, plainOf), pages)
  }

  /** The searched fields are the lower-cased id, title, path and text. */
  predicate LowerFields(e: IndexEntry) {
    && e.idLower == ToLower(ToJsString(Or(e.id, Str(""))))
    && e.titleLower == ToLower(ToJsString(Or(e.title, Str(""))))
    && e.pathLower == ToLower(e.pathText)
    && e.textLower == ToLower(e.plainText)
    && IsLower(e.idLower) && IsLower(e.titleLower) && IsLower(e.pathLower) && IsLower(e.textLower)
  }

  /** Entry `k` of the index is built from page `k`; its title falls back to
      the id, and its searched fields are the lower-cased forms of the shown
      ones. */
  lemma SearchIndexEntries(pages: seq<Page>, plainOf: Json -> string)
    ensures |SearchIndex(pages, plainOf)| == |pages|
    ensures forall k :: 0 <= k < |pages| ==>
              var e := SearchIndex(pages, plainOf)[k];
              && e.id == Field(pages[k], "id")
              && e.title == Or(Field(pages[k], "title"), Field(pages[k], "id"))
              && e.pathText == Join(NormalizePath(Field(pages[k], "path")), " / ")
              && LowerFields(e)
  {
    forall k | 0 <= k < |pages|
      ensures var e := SearchIndex(pages, plainOf)[k];
              && e.id == Field(pages[k], "id")
              && e.title == Or(Field(pages[k], "title"), Field(pages[k], "id"))
              && e.pathText == Join(NormalizePath(Field(pages[k], "path")), " / ")
              && LowerFields(e)
    {
      MapSeqIndex(p => EntryOf(p, plainOf), pages, k);
      EntryLower(pages[k], plainOf);
    }
  }

  lemma EntryLower(p: Page, plainOf: Json -> string)
    ensures LowerFields(EntryOf(p, plainOf))
  {
    var e := EntryOf(p, plainOf);
    var id := Field(p, "id");
    assert Or(Or(Field(p, "title"), id), Str("")) == Or(e.title, Str(""));
    ToLowerIsLower(ToJsString(Or(id, Str(""))));
    ToLowerIsLower(ToJsString(Or(e.title, Str(""))));
    ToLowerIsLower(e.pathText);
    ToLowerIsLower(e.plainText);
  }

  // ---------------------------------------------------------------------------
  // computeSearchResults: scoring

  /** A field's part of a term's score: `weight` for each occurrence, counting
      at most `cap` of them, and nothing when the term is absent. */
  function Weighted(hay: string, term: string, weight: nat, cap: nat): nat {
    if Contains(hay, term) then weight * (if Occurrences(hay, term) < cap then Occurrences(hay, term) else cap)
    else 0
  }

  /** The score one term gives an entry: 40 per title hit, 10 per path hit and
      8 per id hit, at most three of each, and 2 per text hit, at most twenty. */
  function TermScore(e: IndexEntry, term: string): nat {
    Weighted(e.titleLower, term, 40, 3) + Weighted(e.pathLower, term, 10, 3)
    + Weighted(e.idLower, term, 8, 3) + Weighted(e.textLower, term, 2, 20)
  }

  /** An entry's score: the sum of its terms' scores. */
  function Score(e: IndexEntry, terms: seq<string>): nat {
    if terms == [] then 0 else Score(e, terms[..|terms| - 1]) + TermScore(e, terms[|terms| - 1])
  }

  /** The `includes` guard only skips fields whose count would be zero: a
      field's part is its weight times its capped count of occurrences. */
  lemma WeightedIsCappedCount(hay: string, term: string, weight: nat, cap: nat)
    ensures Weighted(hay, term, weight, cap) == weight * Min(cap, Occurrences(hay, term))
  {
    OccurrencesZeroIffAbsent(hay, term);
    ContainsMeansMatch(hay, term);
  }

  /** A term scores exactly when it occurs in one of the four fields; a term
      scores at most 40·3 + 10·3 + 8·3 + 2·20 = 214. */
  lemma TermScoreRange(e: IndexEntry, term: string)
    requires term != ""
    ensures TermScore(e, term) > 0 <==>
              Contains(e.titleLower, term) || Contains(e.pathLower, term)
              || Contains(e.idLower, term) || Contains(e.textLower, term)
    ensures TermScore(e, term) <= 214
  {
    WeightedPositive(e.titleLower, term, 40, 3);
    WeightedPositive(e.pathLower, term, 10, 3);
    WeightedPositive(e.idLower, term, 8, 3);
    WeightedPositive(e.textLower, term, 2, 20);
  }

  lemma WeightedPositive(hay: string, term: string, weight: nat, cap: nat)
    requires term != "" && weight > 0 && cap > 0
    ensures Weighted(hay, term, weight, cap) > 0 <==> Contains(hay, term)
    ensures Weighted(hay, term, weight, cap) <= weight * cap
  {
    OccurrencesZeroIffAbsent(hay, term);
    ContainsMeansMatch(hay, term);
    var n := Occurrences(hay, term);
    var c := if n < cap then n else cap;
    MulMono(weight, c, cap);
  }

  lemma MulMono(w: nat, a: nat, b: nat)
    requires a <= b
    ensures w * a <= w * b
  {
  }

  /** An entry scores exactly when one of the terms scores. */
  lemma {:induction false} ScorePositive(e: IndexEntry, terms: seq<string>)
    ensures Score(e, terms) > 0 <==> exists k :: 0 <= k < |terms| && TermScore(e, terms[k]) > 0
  {
    if terms != [] {
      var init := terms[..|terms| - 1];
      ScorePositive(e, init);
      assert forall k :: 0 <= k < |init| ==> init[k] == terms[k];
    }
  }

  /** `terms.forEach(...)` for one entry. */
  method ScoreEntry(e: IndexEntry, terms: seq<string>) returns (score: nat)
    ensures score == Score(e, terms)
  {
    score := 0;
    for i := 0 to |terms|
      invariant score == Score(e, terms[..i])
    {
      var s := ScoreTerm(e, terms[i]);
      ScoreStep(e, terms, i);
      score := score + s;
    }
    assert terms[..|terms|] == terms;
  }

  /** The body of that `forEach`: one term's contribution. */
  method ScoreTerm(e: IndexEntry, t: string) returns (s: nat)
    ensures s == TermScore(e, t)
  {
    var title := CountWeighted(e.titleLower, t, 40, 3);
    var path := CountWeighted(e.pathLower, t, 10, 3);
    var id := CountWeighted(e.idLower, t, 8, 3);
    var text := CountWeighted(e.textLower, t, 2, 20);
    s := title + path + id + text;
  }

  /** `if (hay.includes(t)) score += weight * Math.min(cap, countOccurrences(hay, t))`. */
  method CountWeighted(hay: string, t: string, weight: nat, cap: nat) returns (s: nat)
    ensures s == Weighted(hay, t, weight, cap)
  {
    s := 0;
    if Contains(hay, t) {
      var c := CountOccurrences(hay, t);
      s := weight * (if c < cap then c else cap);
    }
  }

  lemma ScoreStep(e: IndexEntry, terms: seq<string>, i: nat)
    requires i < |terms|
    ensures Score(e, terms[..i + 1]) == Score(e, terms[..i]) + TermScore(e, terms[i])
  {
    assert terms[..i + 1][..i] == terms[..i];
  }

  // ---------------------------------------------------------------------------
  // computeSearchResults: hits and ranking

  /** One search result. */
  datatype Hit = Hit(id: Json, score: nat, snippet: string)

  /** The radius of the snippets shown with results. */
  const HitSnippetRadius: int := 90
  const DefaultSearchLimit: int := 12

  /** The result for an entry: its id, score, and a snippet around the first
      term in its text. */
  function HitOf(e: IndexEntry, terms: seq<string>): Hit
    requires terms != []
  {
    Hit(e.id, Score(e, terms), MakeSnippet(e.plainText, terms[0], Some(HitSnippetRadius)))
  }

  /** The results before ranking: one per entry with a positive score, in
      index order. */
  function Hits(index: seq<IndexEntry>, terms: seq<string>): seq<Hit>
    requires terms != []
  {
    if index == [] then []
    else
      var e := index[|index| - 1];
      Hits(index[..|index| - 1], terms) + (if Score(e, terms) > 0 then [HitOf(e, terms)] else [])
  }

  /** The comparator `b.score - a.score` as "`a` may precede `b`". */
  function HitLe(a: Hit, b: Hit): bool {
    a.score >= b.score
  }

  function RankedHits(index: seq<IndexEntry>, terms: seq<string>): seq<Hit>
    requires terms != []
  {
    SortBy(Hits(index, terms), HitLe)
  }

  /** `options.searchLimit` when it is a number, else 12. */
  function SearchLimit(limit: Option<int>): int {
    if limit.Some? then limit.value else DefaultSearchLimit
  }

  /** The terms `computeSearchResults` searches for. */
  function QueryTerms(query: string): seq<string> {
    SplitTerms(NormalizeQuery(query))
  }

  /** What `computeSearchResults(query)` returns. */
  function SearchResults(index: seq<IndexEntry>, query: string, limit: Option<int>): seq<Hit> {
    if NormalizeQuery(query) == "" then []
    else
      var terms := QueryTerms(query);
      if terms == [] then [] else Slice(RankedHits(index, terms), 0, SearchLimit(limit))
  }

  /** `computeSearchResults(query)` over the search index. */
  method ComputeSearchResults(index: seq<IndexEntry>, query: string, searchLimit: Option<int>)
    returns (r: seq<Hit>)
    ensures r == SearchResults(index, query, searchLimit)
  {
    var q := NormalizeQuery(query);
    if q == "" {
      return [];
    }
    var terms := SplitTerms(q);
    if terms == [] {
      return [];
    }
    var res := [];
    for i := 0 to |index|
      invariant res == Hits(index[..i], terms)
    {
      var score := ScoreEntry(index[i], terms);
      HitsStep(index, terms, i);
      if score > 0 {
        var snippet := MakeSnippet(index[i].plainText, terms[0], Some(HitSnippetRadius));
        res := res + [Hit(index[i].id, score, snippet)];
      }
    }
    assert index[..|index|] == index;
    r := Slice(SortBy(res, HitLe), 0, SearchLimit(searchLimit));
  }

  lemma HitsStep(index: seq<IndexEntry>, terms: seq<string>, i: nat)
    requires terms != [] && i < |index|
    ensures Hits(index[..i + 1], terms)
            == Hits(index[..i], terms) + (if Score(index[i], terms) > 0 then [HitOf(index[i], terms)] else [])
  {
    assert index[..i + 1][..i] == index[..i];
  }

  /** A blank query, or one without a word of two characters or more, finds
      nothing. */
  lemma SearchResultsBlank(index: seq<IndexEntry>, query: string, limit: Option<int>)
    requires Trim(query) == "" || QueryTerms(query) == []
    ensures SearchResults(index, query, limit) == []
  {
    NormalizeQueryShape(query);
  }

  /** The hits are exactly the entries with a positive score. */
  lemma {:induction false} HitsMembers(index: seq<IndexEntry>, terms: seq<string>)
    requires terms != []
    ensures forall h :: h in Hits(index, terms) <==>
              exists k :: 0 <= k < |index| && Score(index[k], terms) > 0 && h == HitOf(index[k], terms)
  {
    if index != [] {
      var init := index[..|index| - 1];
      HitsMembers(init, terms);
      assert forall k :: 0 <= k < |init| ==> init[k] == index[k];
    }
  }

  /** The ranking is a permutation of the hits in descending order of score,
      and hits with equal scores keep their index order. */
  lemma RankedHitsOrder(index: seq<IndexEntry>, terms: seq<string>, z: Hit)
    requires terms != []
    ensures var ranked := RankedHits(index, terms);
            && multiset(ranked) == multiset(Hits(index, terms))
            && (forall i, j :: 0 <= i < j < |ranked| ==> ranked[i].score >= ranked[j].score)
            && EquivalentTo(ranked, z, HitLe) == EquivalentTo(Hits(index, terms), z, HitLe)
  {
    SortBySorted(Hits(index, terms), HitLe);
    SortByStable(Hits(index, terms), z, HitLe);
  }

  /** The results are the best-ranked hits: the first `limit` of them, or all
      but the last `-limit` when the limit is negative. */
  lemma SearchResultsPrefix(index: seq<IndexEntry>, query: string, limit: Option<int>)
    requires QueryTerms(query) != []
    ensures var ranked := RankedHits(index, QueryTerms(query));
            var r := SearchResults(index, query, limit);
            var n := SearchLimit(limit);
            && r == ranked[..|r|]
            && |r| == (if n >= 0 then Min(n, |ranked|) else Max(|ranked| + n, 0))
  {
    SlicePrefix(RankedHits(index, QueryTerms(query)), SearchLimit(limit));
  }

  /** Every result is the hit of an entry of the index, with a positive score. */
  lemma SearchResultsScored(index: seq<IndexEntry>, query: string, limit: Option<int>)
    requires QueryTerms(query) != []
    ensures forall h :: h in SearchResults(index, query, limit) ==>
              h.score > 0 && exists k :: 0 <= k < |index| && h == HitOf(index[k], QueryTerms(query))
  {
    var terms := QueryTerms(query);
    SearchResultsPrefix(index, query, limit);
    HitsMembers(index, terms);
    var ranked := RankedHits(index, terms);
    forall h | h in SearchResults(index, query, limit)
      ensures h.score > 0 && exists k :: 0 <= k < |index| && h == HitOf(index[k], terms)
    {
      assert h in ranked;
      assert h in multiset(ranked);
      assert h in Hits(index, terms);
    }
  }
}

/** Highlighting search terms in a rendered article (`highlightTextNodes` and
    its `replaceNodeWithHighlighted` in docs/doc-engine.js), over a tree of
    element tags and text runs instead of a DOM. */
module Highlight {
  import opened Text
  import opened Search

  /** A node of the article: a run of text or an element with its children. */
  datatype Node = TextNode(value: string) | Element(tag: string, children: seq<Node>)

  /** The `<mark>` element that wraps one match. */
  function MarkNode(s: string): Node {
    Element("mark", [TextNode(s)])
  }

  predicate IsMark(n: Node) {
    n.Element? && n.tag == "mark"
  }

  // ---------------------------------------------------------------------------
  // The walker's filter

  /** Tags compare as `tagName.toUpperCase()` and `closest` do, without regard
      to case. */
  predicate TagIs(tag: string, name: string) {
    ToLower(tag) == name
  }

  /** A parent whose text is never highlighted. */
  predicate SkippedParent(tag: string) {
    TagIs(tag, "script") || TagIs(tag, "style") || TagIs(tag, "noscript")
    || TagIs(tag, "code") || TagIs(tag, "pre") || TagIs(tag, "mark")
  }

  /** An element whose descendants' text is never highlighted. */
  predicate SkippedAncestor(tag: string) {
    TagIs(tag, "code") || TagIs(tag, "pre") || TagIs(tag, "mark")
  }

  /** `acceptNode` for a text node under the elements `ancestors`, outermost
      first: the text must be non-empty, and unless there is no parent element,
      the parent is not a script, style, noscript, code, pre or mark element and
      no enclosing element is a code, pre or mark element. */
  predicate Eligible(ancestors: seq<string>, value: string) {
    && value != ""
    && (ancestors == [] ||
        (!SkippedParent(ancestors[|ancestors| - 1])
         && forall k :: 0 <= k < |ancestors| ==> !SkippedAncestor(ancestors[k])))
  }

  // ---------------------------------------------------------------------------
  // replaceNodeWithHighlighted

  /** The plain text between the previous match and the next, if any. */
  function Before(text: string, last: nat, idx: nat): seq<Node>
    requires last <= idx <= |text|
  {
    if idx > last then [TextNode(text[last..idx])] else []
  }

  /** The plain text after the last match, if any. */
  function After(text: string, last: nat): seq<Node>
    requires last <= |text|
  {
    if last < |text| then [TextNode(text[last..])] else []
  }

  /** The fragment that replaces a text node from position `last` on, matches
      being searched for in `low`, the lower-cased text: the plain text before
      the next match, the match in a mark, and the rest. */
  function FragmentsFrom(text: string, low: string, term: string, last: nat): seq<Node>
    requires term != "" && |low| == |text| && last <= |text|
    decreases |text| - last
  {
    var idx := SearchFrom(low, term, last);
    if idx == -1 then After(text, last)
    else Before(text, last, idx) + [MarkNode(text[idx..idx + |term|])] + FragmentsFrom(text, low, term, idx + |term|)
  }

  /** The fragment that replaces a text node holding `text`. */
  function Fragments(text: string, term: string): seq<Node>
    requires term != ""
  {
    FragmentsFrom(text, ToLower(text), term, 0)
  }

  /** The text of a node, as `textContent` reads it. */
  function TextOf(n: Node): string {
    match n
    case TextNode(v) => v
    case Element(_, kids) => TextOfAll(kids)
  }

  function TextOfAll(nodes: seq<Node>): string {
    if nodes == [] then "" else TextOf(nodes[0]) + TextOfAll(nodes[1..])
  }

  /** The number of `<mark>` elements among the nodes and their descendants. */
  function MarksIn(nodes: seq<Node>): nat
    decreases nodes
  {
    if nodes == [] then 0 else MarksOf(nodes[0]) + MarksIn(nodes[1..])
  }

  function MarksOf(n: Node): nat
    decreases n
  {
    match n
    case TextNode(_) => 0
    case Element(tag, kids) => (if tag == "mark" then 1 else 0) + MarksIn(kids)
  }

  lemma TextOfAllConcat(a: seq<Node>, b: seq<Node>)
    ensures TextOfAll(a + b) == TextOfAll(a) + TextOfAll(b)
    decreases |a|
  {
    if a == [] {
      assert a + b == b;
    } else {
      assert (a + b)[1..] == a[1..] + b;
      TextOfAllConcat(a[1..], b);
    }
  }

  lemma MarksInConcat(a: seq<Node>, b: seq<Node>)
    ensures MarksIn(a + b) == MarksIn(a) + MarksIn(b)
    decreases |a|
  {
    if a == [] {
      assert a + b == b;
    } else {
      assert (a + b)[1..] == a[1..] + b;
      MarksInConcat(a[1..], b);
    }
  }

  /** One step of `FragmentsFrom` past a match. */
  lemma FragmentsStep(text: string, low: string, term: string, last: nat, idx: int)
    requires term != "" && |low| == |text| && last <= |text|
    requires idx == SearchFrom(low, term, last) && idx != -1
    ensures last <= idx && idx + |term| <= |text|
    ensures FragmentsFrom(text, low, term, last)
            == Before(text, last, idx) + [MarkNode(text[idx..idx + |term|])] + FragmentsFrom(text, low, term, idx + |term|)
  {
    var rest := FragmentsFrom(text, low, term, idx + |term|);
    var pre := Before(text, last, idx);
    var m := [MarkNode(text[idx..idx + |term|])];
    assert FragmentsFrom(text, low, term, last) == pre + m + rest;
  }

  lemma BeforeText(text: string, last: nat, idx: nat)
    requires last <= idx <= |text|
    ensures TextOfAll(Before(text, last, idx)) == text[last..idx]
    ensures MarksIn(Before(text, last, idx)) == 0
  {
    if idx > last {
      SingleText(text[last..idx]);
    }
  }

  lemma AfterText(text: string, last: nat)
    requires last <= |text|
    ensures TextOfAll(After(text, last)) == text[last..]
    ensures MarksIn(After(text, last)) == 0
  {
    if last < |text| {
      SingleText(text[last..]);
    } else {
      assert text[last..] == [];
    }
  }

  lemma MarkText(s: string)
    ensures TextOfAll([MarkNode(s)]) == s
    ensures MarksIn([MarkNode(s)]) == 1
  {
    SingleText(s);
    assert [MarkNode(s)][1..] == [];
    assert TextOfAll([MarkNode(s)]) == TextOf(MarkNode(s)) + "";
  }

  lemma SingleText(s: string)
    ensures TextOfAll([TextNode(s)]) == s
    ensures MarksIn([TextNode(s)]) == 0
  {
    assert [TextNode(s)][1..] == [];
    assert TextOfAll([TextNode(s)]) == s + "";
  }

  lemma SliceSplit3(s: string, a: nat, b: nat, c: nat)
    requires a <= b <= c <= |s|
    ensures s[a..] == s[a..b] + s[b..c] + s[c..]
  {
  }

  /** The fragments read back as the text they replace. */
  lemma {:induction false} FragmentsFromText(text: string, low: string, term: string, last: nat)
    requires term != "" && |low| == |text| && last <= |text|
    ensures TextOfAll(FragmentsFrom(text, low, term, last)) == text[last..]
    decreases |text| - last
  {
    var idx := SearchFrom(low, term, last);
    if idx == -1 {
      AfterText(text, last);
    } else {
      FragmentsStep(text, low, term, last, idx);
      var next := idx + |term|;
      var pre := Before(text, last, idx);
      var mark := [MarkNode(text[idx..next])];
      var rest := FragmentsFrom(text, low, term, next);
      FragmentsFromText(text, low, term, next);
      BeforeText(text, last, idx);
      MarkText(text[idx..next]);
      TextOfAllConcat(pre, mark);
      TextOfAllConcat(pre + mark, rest);
      SliceSplit3(text, last, idx, next);
    }
  }

  /** One mark per match that `countOccurrences` counts in the lower-cased
      text. */
  lemma {:induction false} FragmentsFromMarks(text: string, low: string, term: string, last: nat)
    requires term != "" && |low| == |text| && last <= |text|
    ensures MarksIn(FragmentsFrom(text, low, term, last)) == OccurrencesFrom(low, term, last)
    decreases |text| - last
  {
    var idx := SearchFrom(low, term, last);
    OccurrencesFromStep(low, term, last);
    if idx == -1 {
      AfterText(text, last);
    } else {
      FragmentsStep(text, low, term, last, idx);
      var next := idx + |term|;
      FragmentsFromMarks(text, low, term, next);
      MarksOfStep(text, last, idx, next, FragmentsFrom(text, low, term, next));
    }
  }

  /** The marks of one step: none in the plain text, one for the match, then
      those of the rest. */
  lemma MarksOfStep(text: string, last: nat, idx: nat, next: nat, rest: seq<Node>)
    requires last <= idx <= next <= |text|
    ensures MarksIn(Before(text, last, idx) + [MarkNode(text[idx..next])] + rest) == MarksIn(rest) + 1
  {
    var pre := Before(text, last, idx);
    var mark := [MarkNode(text[idx..next])];
    BeforeText(text, last, idx);
    MarkText(text[idx..next]);
    MarksInConcat(pre, mark);
    MarksInConcat(pre + mark, rest);
  }

  /** A mark that holds a single run of text whose lower-cased form is one of
      `lows`. */
  predicate MarkHolds(n: Node, lows: set<string>) {
    n.Element? && |n.children| == 1 && n.children[0].TextNode?
    && ToLower(n.children[0].value) in lows
  }

  /** Every mark among the nodes and their descendants holds one of `lows`. */
  predicate AllMarksHold(nodes: seq<Node>, lows: set<string>)
    decreases nodes
  {
    nodes == [] || (NodeMarksHold(nodes[0], lows) && AllMarksHold(nodes[1..], lows))
  }

  predicate NodeMarksHold(n: Node, lows: set<string>)
    decreases n
  {
    match n
    case TextNode(_) => true
    case Element(tag, kids) => (tag == "mark" ==> MarkHolds(n, lows)) && AllMarksHold(kids, lows)
  }

  lemma {:induction false} AllMarksHoldConcat(a: seq<Node>, b: seq<Node>, lows: set<string>)
    requires AllMarksHold(a, lows) && AllMarksHold(b, lows)
    ensures AllMarksHold(a + b, lows)
    decreases |a|
  {
    if a == [] {
      assert a + b == b;
    } else {
      assert (a + b)[1..] == a[1..] + b;
      AllMarksHoldConcat(a[1..], b, lows);
    }
  }

  /** Every mark of a fragment holds a match: text that lower-cases to the
      term. */
  lemma {:induction false} FragmentsFromMarksHold(text: string, low: string, term: string, last: nat, lows: set<string>)
    requires term != "" && LowerOf(low, text) && last <= |text| && term in lows
    ensures AllMarksHold(FragmentsFrom(text, low, term, last), lows)
    decreases |text| - last
  {
    var idx := SearchFrom(low, term, last);
    if idx == -1 {
      PlainMarksHold(text, last, last, lows);
    } else {
      FragmentsStep(text, low, term, last, idx);
      var next := idx + |term|;
      var pre := Before(text, last, idx);
      var mark := [MarkNode(text[idx..next])];
      PlainMarksHold(text, last, idx, lows);
      MatchLower(text, low, term, idx);
      MarkOfMatchHolds(text[idx..next], term, lows);
      FragmentsFromMarksHold(text, low, term, next, lows);
      AllMarksHoldConcat(pre, mark, lows);
      AllMarksHoldConcat(pre + mark, FragmentsFrom(text, low, term, next), lows);
    }
  }

  lemma PlainMarksHold(text: string, last: nat, idx: nat, lows: set<string>)
    requires last <= idx <= |text|
    ensures AllMarksHold(Before(text, last, idx), lows)
    ensures AllMarksHold(After(text, last), lows)
  {
    SingleHolds(TextNode(text[last..idx]), lows);
    SingleHolds(TextNode(text[last..]), lows);
  }

  lemma MarkOfMatchHolds(x: string, term: string, lows: set<string>)
    requires LowerOf(term, x) && term in lows
    ensures AllMarksHold([MarkNode(x)], lows)
  {
    LowerOfIff(term, x);
    SingleHolds(TextNode(x), lows);
    assert NodeMarksHold(MarkNode(x), lows);
    SingleHolds(MarkNode(x), lows);
  }

  lemma SingleHolds(n: Node, lows: set<string>)
    requires NodeMarksHold(n, lows)
    ensures AllMarksHold([n], lows)
  {
    assert [n][1..] == [];
  }

  /** `replaceNodeWithHighlighted(node, termLower)` on the node's text: whether
      the node was replaced, the fragment that replaces it, and the number of
      marks it added to `totalMarks`. */
  method ReplaceNodeWithHighlighted(text: string, termLower: string)
    returns (replaced: bool, frag: seq<Node>, marks: nat)
    requires termLower != ""
    ensures replaced == Contains(ToLower(text), termLower)
    ensures replaced ==> frag == Fragments(text, termLower)
    ensures !replaced ==> frag == []
    ensures marks == Occurrences(ToLower(text), termLower)
  {
    var low := ToLower(text);
    var idx := IndexOf(low, termLower, 0);
    HighlightStart(text, low, termLower, idx);
    if idx == -1 {
      return false, [], 0;
    }
    frag := [];
    marks := 0;
    var last := 0;
    while idx != -1
      invariant Scanning(text, low, termLower, last, idx, frag, marks)
      decreases |text| - last
    {
      ScanBounds(text, low, termLower, last, idx, frag, marks);
      var mark := MarkNode(text[idx..idx + |termLower|]);
      var step: seq<Node>;
      if idx > last {
        step := [TextNode(text[last..idx]), mark];
      } else {
        step := [mark];
      }
      ghost var last0, idx0, frag0, marks0 := last, idx, frag, marks;
      frag := frag + step;
      marks := marks + 1;
      last := idx + |termLower|;
      idx := IndexOf(low, termLower, last);
      HighlightStep(text, low, termLower, last0, idx0, frag0, marks0, step, last, idx, frag, marks);
    }
    HighlightEnd(text, low, termLower, last, frag, marks);
    if last < |text| {
      frag := frag + [TextNode(text[last..])];
    } else {
      AppendNothing(frag);
    }
    replaced := true;
  }

  /** The loop's invariant: `idx` is the next match from `last`, and what is
      built so far followed by what remains is the whole fragment, the marks
      made so far followed by the matches that remain are all the matches. */
  predicate Scanning(text: string, low: string, term: string, last: int, idx: int, frag: seq<Node>, marks: nat) {
    && term != "" && |low| == |text| && 0 <= last <= |text|
    && idx == SearchFrom(low, term, last)
    && frag + FragmentsFrom(text, low, term, last) == FragmentsFrom(text, low, term, 0)
    && marks + OccurrencesFrom(low, term, last) == OccurrencesFrom(low, term, 0)
  }

  /** Before the loop: `idx` is the first match, and when there is one the
      empty fragment and no marks start the scan. */
  lemma HighlightStart(text: string, low: string, term: string, idx: int)
    requires term != "" && low == ToLower(text) && idx == IndexOf(low, term, 0)
    ensures idx == -1 <==> !Contains(ToLower(text), term)
    ensures idx == -1 ==> Occurrences(ToLower(text), term) == 0
    ensures idx != -1 ==> Scanning(text, low, term, 0, idx, [], 0)
    ensures Fragments(text, term) == FragmentsFrom(text, low, term, 0)
    ensures Occurrences(ToLower(text), term) == OccurrencesFrom(low, term, 0)
  {
    OccurrencesFromStep(low, term, 0);
    assert [] + FragmentsFrom(text, low, term, 0) == FragmentsFrom(text, low, term, 0);
  }

  lemma ScanBounds(text: string, low: string, term: string, last: nat, idx: int, frag: seq<Node>, marks: nat)
    requires Scanning(text, low, term, last, idx, frag, marks) && idx != -1
    ensures last <= idx && idx + |term| <= |text|
  {
  }

  /** One turn of the loop: the nodes appended are the plain text before the
      match, if any, and its mark. */
  lemma HighlightStep(text: string, low: string, term: string, last: nat, idx: int, frag: seq<Node>, marks: nat,
                      step: seq<Node>, last': nat, idx': int, frag': seq<Node>, marks': nat)
    requires Scanning(text, low, term, last, idx, frag, marks) && idx != -1
    requires last <= idx && idx + |term| <= |text|
    requires var mark := MarkNode(text[idx..idx + |term|]);
             step == if idx > last then [TextNode(text[last..idx]), mark] else [mark]
    requires last' == idx + |term| && idx' == IndexOf(low, term, last') && frag' == frag + step && marks' == marks + 1
    ensures Scanning(text, low, term, last', idx', frag', marks')
  {
    FragStep(text, low, term, last, idx, frag, step, FragmentsFrom(text, low, term, 0));
    CountStep(low, term, last, idx, marks, OccurrencesFrom(low, term, 0));
  }

  /** The fragment part of one turn of the loop. */
  lemma FragStep(text: string, low: string, term: string, last: nat, idx: int, frag: seq<Node>, step: seq<Node>,
                 whole: seq<Node>)
    requires term != "" && |low| == |text| && last <= |text|
    requires idx == SearchFrom(low, term, last) && idx != -1 && idx + |term| <= |text|
    requires frag + FragmentsFrom(text, low, term, last) == whole
    requires var mark := MarkNode(text[idx..idx + |term|]);
             step == if idx > last then [TextNode(text[last..idx]), mark] else [mark]
    ensures (frag + step) + FragmentsFrom(text, low, term, idx + |term|) == whole
  {
    FragmentsStep(text, low, term, last, idx);
    StepIsBefore(text, last, idx, |term|, step);
    ConcatShift(frag, step, FragmentsFrom(text, low, term, idx + |term|), whole);
  }

  /** The count part of one turn of the loop. */
  lemma CountStep(low: string, term: string, last: nat, idx: int, marks: nat, total: nat)
    requires term != "" && last <= |low|
    requires idx == SearchFrom(low, term, last) && idx != -1
    requires marks + OccurrencesFrom(low, term, last) == total
    ensures idx + |term| <= |low| && (marks + 1) + OccurrencesFrom(low, term, idx + |term|) == total
  {
    OccurrencesFromStep(low, term, last);
  }

  lemma StepIsBefore(text: string, last: nat, idx: nat, len: nat, step: seq<Node>)
    requires last <= idx && idx + len <= |text|
    requires var mark := MarkNode(text[idx..idx + len]);
             step == if idx > last then [TextNode(text[last..idx]), mark] else [mark]
    ensures step == Before(text, last, idx) + [MarkNode(text[idx..idx + len])]
  {
  }

  lemma ConcatShift<T>(a: seq<T>, b: seq<T>, c: seq<T>, w: seq<T>)
    requires a + (b + c) == w
    ensures (a + b) + c == w
  {
    assert (a + b) + c == a + (b + c);
  }

  lemma HighlightEnd(text: string, low: string, term: string, last: nat, frag: seq<Node>, marks: nat)
    requires Scanning(text, low, term, last, -1, frag, marks)
    ensures frag + After(text, last) == FragmentsFrom(text, low, term, 0)
    ensures marks == OccurrencesFrom(low, term, 0)
  {
    OccurrencesFromStep(low, term, last);
  }

  lemma AppendNothing<T>(a: seq<T>)
    ensures a + [] == a
  {
  }

  lemma ConcatAssoc<T>(a: seq<T>, b: seq<T>, c: seq<T>)
    ensures (a + b) + c == a + (b + c)
  {
  }

  // ---------------------------------------------------------------------------
  // highlightTextNodes

  /** One term's pass over `nodes`, whose enclosing elements have the tags
      `anc` (outermost first; empty when the parent has no tag name, as for a
      document fragment): every text node the walker accepts and whose
      lower-cased text contains `term` is replaced by its fragment; every
      other node stays, and elements are searched below. */
  function PassNodes(anc: seq<string>, nodes: seq<Node>, term: string): seq<Node>
    requires term != ""
    decreases nodes
  {
    if nodes == [] then [] else PassNode(anc, nodes[0], term) + PassNodes(anc, nodes[1..], term)
  }

  function PassNode(anc: seq<string>, n: Node, term: string): seq<Node>
    requires term != ""
    decreases n
  {
    match n
    case TextNode(v) =>
      if Eligible(anc, v) && Contains(ToLower(v), term) then Fragments(v, term) else [n]
    case Element(tag, kids) => [Element(tag, PassNodes(anc + [tag], kids, term))]
  }

  /** The matches of `term` that `countOccurrences` finds in the lower-cased
      text of every text node the walker accepts. */
  function PassMatches(anc: seq<string>, nodes: seq<Node>, term: string): nat
    decreases nodes
  {
    if nodes == [] then 0 else NodeMatches(anc, nodes[0], term) + PassMatches(anc, nodes[1..], term)
  }

  function NodeMatches(anc: seq<string>, n: Node, term: string): nat
    decreases n
  {
    match n
    case TextNode(v) => if Eligible(anc, v) then Occurrences(ToLower(v), term) else 0
    case Element(tag, kids) => PassMatches(anc + [tag], kids, term)
  }

  /** A term's pass: an empty term is skipped, any other is searched for in
      lower case. */
  function TermPass(anc: seq<string>, nodes: seq<Node>, term: string): seq<Node> {
    if term == "" then nodes else PassNodes(anc, nodes, ToLower(term))
  }

  function TermMatches(anc: seq<string>, nodes: seq<Node>, term: string): nat {
    if term == "" then 0 else PassMatches(anc, nodes, ToLower(term))
  }

  /** The nodes after the passes of all the terms, in order. */
  function Highlighted(anc: seq<string>, nodes: seq<Node>, terms: seq<string>): seq<Node>
    decreases |terms|
  {
    if terms == [] then nodes else Highlighted(anc, TermPass(anc, nodes, terms[0]), terms[1..])
  }

  /** The matches every pass finds in the nodes as the earlier passes left them. */
  function TotalMatches(anc: seq<string>, nodes: seq<Node>, terms: seq<string>): nat
    decreases |terms|
  {
    if terms == [] then 0
    else TermMatches(anc, nodes, terms[0]) + TotalMatches(anc, TermPass(anc, nodes, terms[0]), terms[1..])
  }

  /** One term's pass, node by node: accepted text nodes go through
      `replaceNodeWithHighlighted`, elements are walked into. */
  method HighlightPass(anc: seq<string>, nodes: seq<Node>, term: string) returns (out: seq<Node>, marks: nat)
    requires term != ""
    ensures out == PassNodes(anc, nodes, term)
    ensures marks == PassMatches(anc, nodes, term)
    decreases nodes
  {
    out := [];
    marks := 0;
    var i := 0;
    while i < |nodes|
      invariant 0 <= i <= |nodes|
      invariant out + PassNodes(anc, nodes[i..], term) == PassNodes(anc, nodes, term)
      invariant marks + PassMatches(anc, nodes[i..], term) == PassMatches(anc, nodes, term)
    {
      var piece: seq<Node>;
      var m: nat;
      match nodes[i] {
        case TextNode(v) =>
          if Eligible(anc, v) {
            var replaced, frag, count := ReplaceNodeWithHighlighted(v, term);
            piece := if replaced then frag else [nodes[i]];
            m := count;
          } else {
            piece := [nodes[i]];
            m := 0;
          }
        case Element(tag, kids) =>
          var inner, count := HighlightPass(anc + [tag], kids, term);
          piece := [Element(tag, inner)];
          m := count;
      }
      ghost var out0, marks0 := out, marks;
      out := out + piece;
      marks := marks + m;
      i := i + 1;
      PassStep(anc, nodes, i - 1, term, piece, m, out0, marks0, out, marks);
    }
    AppendNothing(out);
  }

  /** The pass invariant carried from `i` to `i + 1` by one node's piece. */
  lemma PassStep(anc: seq<string>, nodes: seq<Node>, i: nat, term: string, piece: seq<Node>, m: nat,
                 out: seq<Node>, marks: nat, out': seq<Node>, marks': nat)
    requires term != "" && i < |nodes|
    requires piece == PassNode(anc, nodes[i], term) && m == NodeMatches(anc, nodes[i], term)
    requires out + PassNodes(anc, nodes[i..], term) == PassNodes(anc, nodes, term)
    requires marks + PassMatches(anc, nodes[i..], term) == PassMatches(anc, nodes, term)
    requires out' == out + piece && marks' == marks + m
    ensures out' + PassNodes(anc, nodes[i + 1..], term) == PassNodes(anc, nodes, term)
    ensures marks' + PassMatches(anc, nodes[i + 1..], term) == PassMatches(anc, nodes, term)
  {
    PassUnfold(anc, nodes, i, term);
    ConcatAssoc(out, piece, PassNodes(anc, nodes[i + 1..], term));
  }

  lemma PassUnfold(anc: seq<string>, nodes: seq<Node>, i: nat, term: string)
    requires term != "" && i < |nodes|
    ensures PassNodes(anc, nodes[i..], term) == PassNode(anc, nodes[i], term) + PassNodes(anc, nodes[i + 1..], term)
    ensures PassMatches(anc, nodes[i..], term) == NodeMatches(anc, nodes[i], term) + PassMatches(anc, nodes[i + 1..], term)
  {
    assert nodes[i..][1..] == nodes[i + 1..];
  }

  /** `highlightTextNodes(container, terms)`: the container's children after
      every term's pass, and `totalMarks`, the number of marks made. */
  method HighlightTextNodes(anc: seq<string>, nodes: seq<Node>, terms: seq<string>)
    returns (out: seq<Node>, totalMarks: nat)
    ensures out == Highlighted(anc, nodes, terms)
    ensures totalMarks == TotalMatches(anc, nodes, terms)
  {
    out := nodes;
    totalMarks := 0;
    for i := 0 to |terms|
      invariant Highlighted(anc, out, terms[i..]) == Highlighted(anc, nodes, terms)
      invariant totalMarks + TotalMatches(anc, out, terms[i..]) == TotalMatches(anc, nodes, terms)
    {
      assert terms[i..][1..] == terms[i + 1..];
      var term := terms[i];
      if term != "" {
        var m: nat;
        out, m := HighlightPass(anc, out, ToLower(term));
        totalMarks := totalMarks + m;
      }
    }
  }

  // ---------------------------------------------------------------------------
  // What a pass keeps and what it adds

  /** A pass leaves the text of the article as it was. */
  lemma {:induction false} PassNodesText(anc: seq<string>, nodes: seq<Node>, term: string)
    requires term != ""
    ensures TextOfAll(PassNodes(anc, nodes, term)) == TextOfAll(nodes)
    decreases nodes
  {
    if nodes != [] {
      PassNodeText(anc, nodes[0], term);
      PassNodesText(anc, nodes[1..], term);
      TextOfAllConcat(PassNode(anc, nodes[0], term), PassNodes(anc, nodes[1..], term));
    }
  }

  lemma {:induction false} PassNodeText(anc: seq<string>, n: Node, term: string)
    requires term != ""
    ensures TextOfAll(PassNode(anc, n, term)) == TextOf(n)
    decreases n
  {
    match n
    case TextNode(v) =>
      if Eligible(anc, v) && Contains(ToLower(v), term) {
        FragmentsFromText(v, ToLower(v), term, 0);
        assert v[0..] == v;
      } else {
        SingleText(v);
      }
    case Element(tag, kids) =>
      PassNodesText(anc + [tag], kids, term);
      SingleNode(Element(tag, PassNodes(anc + [tag], kids, term)));
  }

  lemma SingleNode(n: Node)
    ensures TextOfAll([n]) == TextOf(n)
    ensures MarksIn([n]) == MarksOf(n)
  {
    assert [n][1..] == [];
    assert TextOfAll([n]) == TextOf(n) + "";
  }

  /** A pass adds one mark per match it finds and removes none. */
  lemma {:induction false} PassNodesMarks(anc: seq<string>, nodes: seq<Node>, term: string)
    requires term != ""
    ensures MarksIn(PassNodes(anc, nodes, term)) == MarksIn(nodes) + PassMatches(anc, nodes, term)
    decreases nodes
  {
    if nodes != [] {
      PassNodeMarks(anc, nodes[0], term);
      PassNodesMarks(anc, nodes[1..], term);
      MarksInConcat(PassNode(anc, nodes[0], term), PassNodes(anc, nodes[1..], term));
    }
  }

  lemma {:induction false} PassNodeMarks(anc: seq<string>, n: Node, term: string)
    requires term != ""
    ensures MarksIn(PassNode(anc, n, term)) == MarksOf(n) + NodeMatches(anc, n, term)
    decreases n
  {
    match n
    case TextNode(v) =>
      SingleNode(n);
      if Eligible(anc, v) {
        FragmentsFromMarks(v, ToLower(v), term, 0);
        OccurrencesZeroIffAbsent(ToLower(v), term);
      }
    case Element(tag, kids) =>
      PassNodesMarks(anc + [tag], kids, term);
      SingleNode(Element(tag, PassNodes(anc + [tag], kids, term)));
  }

  /** Text inside a code, pre or mark element is never touched. */
  predicate InSkipped(anc: seq<string>) {
    exists k :: 0 <= k < |anc| && SkippedAncestor(anc[k])
  }

  lemma {:induction false} SkippedUntouched(anc: seq<string>, nodes: seq<Node>, term: string)
    requires term != "" && InSkipped(anc)
    ensures PassNodes(anc, nodes, term) == nodes
    ensures PassMatches(anc, nodes, term) == 0
    decreases nodes
  {
    if nodes != [] {
      SkippedNodeUntouched(anc, nodes[0], term);
      SkippedUntouched(anc, nodes[1..], term);
      assert [nodes[0]] + nodes[1..] == nodes;
    }
  }

  lemma {:induction false} SkippedNodeUntouched(anc: seq<string>, n: Node, term: string)
    requires term != "" && InSkipped(anc)
    ensures PassNode(anc, n, term) == [n]
    ensures NodeMatches(anc, n, term) == 0
    decreases n
  {
    var k :| 0 <= k < |anc| && SkippedAncestor(anc[k]);
    match n
    case TextNode(v) =>
      assert !Eligible(anc, v);
    case Element(tag, kids) =>
      assert (anc + [tag])[k] == anc[k];
      SkippedUntouched(anc + [tag], kids, term);
  }

  /** Text whose direct parent is a script, style, noscript, code, pre or
      mark element is never changed and counts no match, whatever encloses
      that parent. */
  lemma {:induction false} SkippedParentUntouched(anc: seq<string>, nodes: seq<Node>, term: string)
    requires term != "" && anc != [] && SkippedParent(anc[|anc| - 1])
    requires forall i :: 0 <= i < |nodes| ==> nodes[i].TextNode?
    ensures PassNodes(anc, nodes, term) == nodes
    ensures PassMatches(anc, nodes, term) == 0
    decreases nodes
  {
    if nodes != [] {
      assert !Eligible(anc, nodes[0].value);
      SkippedParentUntouched(anc, nodes[1..], term);
      assert [nodes[0]] + nodes[1..] == nodes;
    }
  }

  /** The marks a pass makes hold the lower-cased term. */
  lemma {:induction false} PassNodesHold(anc: seq<string>, nodes: seq<Node>, term: string, lows: set<string>)
    requires term != "" && term in lows && AllMarksHold(nodes, lows)
    ensures AllMarksHold(PassNodes(anc, nodes, term), lows)
    decreases nodes
  {
    if nodes != [] {
      PassNodeHolds(anc, nodes[0], term, lows);
      PassNodesHold(anc, nodes[1..], term, lows);
      AllMarksHoldConcat(PassNode(anc, nodes[0], term), PassNodes(anc, nodes[1..], term), lows);
    }
  }

  lemma {:induction false} PassNodeHolds(anc: seq<string>, n: Node, term: string, lows: set<string>)
    requires term != "" && term in lows && NodeMarksHold(n, lows)
    ensures AllMarksHold(PassNode(anc, n, term), lows)
    decreases n
  {
    match n
    case TextNode(v) =>
      if Eligible(anc, v) && Contains(ToLower(v), term) {
        FragmentsFromMarksHold(v, ToLower(v), term, 0, lows);
      } else {
        SingleHolds(n, lows);
      }
    case Element(tag, kids) =>
      PassNodesHold(anc + [tag], kids, term, lows);
      var e := Element(tag, PassNodes(anc + [tag], kids, term));
      assert tag == "mark" ==> MarkHolds(e, lows) by {
        if tag == "mark" {
          SkippedUntouched(anc + [tag], kids, term) by {
            assert SkippedAncestor((anc + [tag])[|anc|]);
          }
        }
      }
      SingleHolds(e, lows);
  }

  // ---------------------------------------------------------------------------
  // All the terms

  /** Highlighting leaves the text of the article as it was. */
  lemma {:induction false} HighlightedText(anc: seq<string>, nodes: seq<Node>, terms: seq<string>)
    ensures TextOfAll(Highlighted(anc, nodes, terms)) == TextOfAll(nodes)
    decreases |terms|
  {
    if terms != [] {
      if terms[0] != "" {
        PassNodesText(anc, nodes, ToLower(terms[0]));
      }
      HighlightedText(anc, TermPass(anc, nodes, terms[0]), terms[1..]);
    }
  }

  /** `totalMarks` counts exactly the marks that highlighting adds. */
  lemma {:induction false} HighlightedMarks(anc: seq<string>, nodes: seq<Node>, terms: seq<string>)
    ensures MarksIn(Highlighted(anc, nodes, terms)) == MarksIn(nodes) + TotalMatches(anc, nodes, terms)
    decreases |terms|
  {
    if terms != [] {
      if terms[0] != "" {
        PassNodesMarks(anc, nodes, ToLower(terms[0]));
      }
      HighlightedMarks(anc, TermPass(anc, nodes, terms[0]), terms[1..]);
    }
  }

  /** The lower-cased forms of the non-empty terms. */
  predicate CoversTerms(lows: set<string>, terms: seq<string>) {
    forall i :: 0 <= i < |terms| && terms[i] != "" ==> ToLower(terms[i]) in lows
  }

  /** Starting from marks that hold one of `lows` (or none at all), every mark
      after highlighting holds the lower-cased form of one of the terms or was
      already there. */
  lemma {:induction false} HighlightedHold(anc: seq<string>, nodes: seq<Node>, terms: seq<string>, lows: set<string>)
    requires AllMarksHold(nodes, lows) && CoversTerms(lows, terms)
    ensures AllMarksHold(Highlighted(anc, nodes, terms), lows)
    decreases |terms|
  {
    if terms != [] {
      if terms[0] != "" {
        PassNodesHold(anc, nodes, ToLower(terms[0]), lows);
      }
      assert CoversTerms(lows, terms[1..]) by {
        forall i | 0 <= i < |terms[1..]| && terms[1..][i] != "" ensures ToLower(terms[1..][i]) in lows {
          assert terms[1..][i] == terms[i + 1];
        }
      }
      HighlightedHold(anc, TermPass(anc, nodes, terms[0]), terms[1..], lows);
    }
  }
}

/** The small pure helpers of the documentation engine (docs/doc-engine.js):
    HTML escaping, slugs, hash routes and joining a directory with a file name. */
module EngineHelpers {
  import opened Text
  import opened Wrappers

  // ---------------------------------------------------------------------------
  // escapeHtml

  /** `s.replaceAll(c, rep)` for a one-character pattern. */
  function ReplaceChar(s: string, c: char, rep: string): string {
    if s == [] then [] else (if s[0] == c then rep else [s[0]]) + ReplaceChar(s[1..], c, rep)
  }

  /** The five replacements, applied in the order the engine applies them:
      `&` first, so that the entities introduced later are not escaped again. */
  function EscapeHtml(s: string): string {
    ReplaceChar(ReplaceChar(ReplaceChar(ReplaceChar(ReplaceChar(
      s, '&', "&amp;"), '<', "&lt;"), '>', "&gt;"), '"', "&quot;"), '\'', "&#39;")
  }

  /** The entity that one character escapes to. */
  function EscapeChar(c: char): string {
    if c == '&' then "&amp;"
    else if c == '<' then "&lt;"
    else if c == '>' then "&gt;"
    else if c == '"' then "&quot;"
    else if c == '\'' then "&#39;"
    else [c]
  }

  /** Escaping character by character. */
  function EscapeEach(s: string): string {
    if s == [] then [] else EscapeChar(s[0]) + EscapeEach(s[1..])
  }

  /** Decoding of the five entities, the inverse of escaping. */
  function UnescapeHtml(s: string): string
    decreases |s|
  {
    if s == [] then []
    else if |s| >= 5 && s[..5] == "&amp;" then "&" + UnescapeHtml(s[5..])
    else if |s| >= 4 && s[..4] == "&lt;" then "<" + UnescapeHtml(s[4..])
    else if |s| >= 4 && s[..4] == "&gt;" then ">" + UnescapeHtml(s[4..])
    else if |s| >= 6 && s[..6] == "&quot;" then "\"" + UnescapeHtml(s[6..])
    else if |s| >= 5 && s[..5] == "&#39;" then "'" + UnescapeHtml(s[5..])
    else [s[0]] + UnescapeHtml(s[1..])
  }

  lemma {:induction false} ReplaceCharAppend(a: string, b: string, c: char, rep: string)
    ensures ReplaceChar(a + b, c, rep) == ReplaceChar(a, c, rep) + ReplaceChar(b, c, rep)
  {
    if a == [] {
      assert a + b == b;
    } else {
      assert (a + b)[1..] == a[1..] + b;
      ReplaceCharAppend(a[1..], b, c, rep);
    }
  }

  lemma {:induction false} ReplaceCharAbsent(s: string, c: char, rep: string)
    requires c !in s
    ensures ReplaceChar(s, c, rep) == s
  {
    if s != [] {
      ReplaceCharAbsent(s[1..], c, rep);
    }
  }

  lemma ReplaceCharSingle(c: char, d: char, rep: string)
    ensures ReplaceChar([c], d, rep) == if c == d then rep else [c]
  {
    assert ReplaceChar([], d, rep) == [];
  }

  lemma EscapeHtmlAppend(a: string, b: string)
    ensures EscapeHtml(a + b) == EscapeHtml(a) + EscapeHtml(b)
  {
    ReplaceCharAppend(a, b, '&', "&amp;");
    var a1, b1 := ReplaceChar(a, '&', "&amp;"), ReplaceChar(b, '&', "&amp;");
    ReplaceCharAppend(a1, b1, '<', "&lt;");
    var a2, b2 := ReplaceChar(a1, '<', "&lt;"), ReplaceChar(b1, '<', "&lt;");
    ReplaceCharAppend(a2, b2, '>', "&gt;");
    var a3, b3 := ReplaceChar(a2, '>', "&gt;"), ReplaceChar(b2, '>', "&gt;");
    ReplaceCharAppend(a3, b3, '"', "&quot;");
    var a4, b4 := ReplaceChar(a3, '"', "&quot;"), ReplaceChar(b3, '"', "&quot;");
    ReplaceCharAppend(a4, b4, '\'', "&#39;");
  }

  lemma EscapeHtmlSingle(c: char)
    ensures EscapeHtml([c]) == EscapeChar(c)
  {
    if c == '&' {
      EscapeSingleAmpersand();
    } else if c == '<' {
      EscapeSingleLess();
    } else if c == '>' {
      EscapeSingleGreater();
    } else if c == '"' {
      EscapeSingleQuote();
    } else if c == '\'' {
      EscapeSingleApostrophe();
    } else {
      EscapeSinglePlain(c);
    }
  }

  lemma EscapeSingleAmpersand()
    ensures EscapeHtml("&") == "&amp;"
  {
    ReplaceCharSingle('&', '&', "&amp;");
    EscapeAmpersandEntity(ReplaceChar("&", '&', "&amp;"));
  }

  lemma EscapeSingleLess()
    ensures EscapeHtml("<") == "&lt;"
  {
    ReplaceCharAbsent("<", '&', "&amp;");
    ReplaceCharSingle('<', '<', "&lt;");
    EscapeLastThree("<", "&lt;");
  }

  /** When the first two replacements already give a text without `>`, `"`
      or `'`, the last three leave it alone. */
  lemma EscapeLastThree(s: string, s2: string)
    requires ReplaceChar(ReplaceChar(s, '&', "&amp;"), '<', "&lt;") == s2
    requires '>' !in s2 && '"' !in s2 && '\'' !in s2
    ensures EscapeHtml(s) == s2
  {
    ReplaceCharAbsent(s2, '>', "&gt;");
    ReplaceCharAbsent(s2, '"', "&quot;");
    ReplaceCharAbsent(s2, '\'', "&#39;");
  }

  lemma EscapeSingleGreater()
    ensures EscapeHtml(">") == "&gt;"
  {
    ReplaceCharAbsent(">", '&', "&amp;");
    ReplaceCharAbsent(">", '<', "&lt;");
    ReplaceCharSingle('>', '>', "&gt;");
    ReplaceCharAbsent("&gt;", '"', "&quot;");
    ReplaceCharAbsent("&gt;", '\'', "&#39;");
  }

  lemma EscapeSingleQuote()
    ensures EscapeHtml("\"") == "&quot;"
  {
    ReplaceCharAbsent("\"", '&', "&amp;");
    ReplaceCharAbsent("\"", '<', "&lt;");
    ReplaceCharAbsent("\"", '>', "&gt;");
    ReplaceCharSingle('"', '"', "&quot;");
    ReplaceCharAbsent("&quot;", '\'', "&#39;");
  }

  lemma EscapeSingleApostrophe()
    ensures EscapeHtml("'") == "&#39;"
  {
    ReplaceCharAbsent("'", '&', "&amp;");
    ReplaceCharAbsent("'", '<', "&lt;");
    ReplaceCharAbsent("'", '>', "&gt;");
    ReplaceCharAbsent("'", '"', "&quot;");
    ReplaceCharSingle('\'', '\'', "&#39;");
  }

  lemma EscapeSinglePlain(c: char)
    requires c !in "&<>\"'"
    ensures EscapeHtml([c]) == [c]
  {
    ReplaceCharAbsent([c], '&', "&amp;");
    ReplaceCharAbsent([c], '<', "&lt;");
    ReplaceCharAbsent([c], '>', "&gt;");
    ReplaceCharAbsent([c], '"', "&quot;");
    ReplaceCharAbsent([c], '\'', "&#39;");
  }

  /** The later replacements leave `&amp;` alone. */
  lemma EscapeAmpersandEntity(s1: string)
    requires s1 == "&amp;"
    ensures ReplaceChar(ReplaceChar(ReplaceChar(ReplaceChar(
              s1, '<', "&lt;"), '>', "&gt;"), '"', "&quot;"), '\'', "&#39;") == "&amp;"
  {
    ReplaceCharAbsent(s1, '<', "&lt;");
    ReplaceCharAbsent(s1, '>', "&gt;");
    ReplaceCharAbsent(s1, '"', "&quot;");
    ReplaceCharAbsent(s1, '\'', "&#39;");
  }

  /** The chain of replacements escapes every character on its own, so the
      order `&`-first makes it the same as escaping character by character. */
  lemma {:induction false} EscapeHtmlIsPerCharacter(s: string)
    ensures EscapeHtml(s) == EscapeEach(s)
  {
    if s == [] {
      assert EscapeHtml(s) == [];
    } else {
      assert s == [s[0]] + s[1..];
      EscapeHtmlAppend([s[0]], s[1..]);
      EscapeHtmlSingle(s[0]);
      EscapeHtmlIsPerCharacter(s[1..]);
    }
  }

  /** Unescaping undoes escaping, so no information is lost. */
  lemma {:induction false} UnescapeEscape(s: string)
    ensures UnescapeHtml(EscapeHtml(s)) == s
  {
    EscapeHtmlIsPerCharacter(s);
    UnescapeEscapeEach(s);
  }

  lemma {:induction false} UnescapeEscapeEach(s: string)
    ensures UnescapeHtml(EscapeEach(s)) == s
  {
    if s != [] {
      assert EscapeEach(s) == EscapeChar(s[0]) + EscapeEach(s[1..]);
      UnescapeHead(s[0], EscapeEach(s[1..]));
      UnescapeEscapeEach(s[1..]);
      assert s == [s[0]] + s[1..];
    }
  }

  /** Unescaping reads the escape of one character back as that character. */
  lemma UnescapeHead(c: char, tail: string)
    ensures UnescapeHtml(EscapeChar(c) + tail) == [c] + UnescapeHtml(tail)
  {
    if c == '&' {
      UnescapeAmp(tail);
    } else if c == '<' {
      UnescapeLess(tail);
    } else if c == '>' {
      UnescapeGreater(tail);
    } else if c == '"' {
      UnescapeQuote(tail);
    } else if c == '\'' {
      UnescapeApostrophe(tail);
    } else {
      UnescapePlain(c, tail);
    }
  }

  lemma UnescapeAmp(tail: string)
    ensures UnescapeHtml("&amp;" + tail) == "&" + UnescapeHtml(tail)
  {
    var e := "&amp;" + tail;
    assert e[5..] == tail;
    assert e[..5] == "&amp;";
  }

  lemma UnescapeLess(tail: string)
    ensures UnescapeHtml("&lt;" + tail) == "<" + UnescapeHtml(tail)
  {
    var e := "&lt;" + tail;
    assert e[4..] == tail;
    assert e[..4] == "&lt;";
    assert |e| < 5 || e[..5] != "&amp;" by { assert e[1] == 'l'; }
  }

  lemma UnescapeGreater(tail: string)
    ensures UnescapeHtml("&gt;" + tail) == ">" + UnescapeHtml(tail)
  {
    var e := "&gt;" + tail;
    assert e[4..] == tail;
    assert e[..4] == "&gt;";
    assert |e| < 5 || e[..5] != "&amp;" by { assert e[1] == 'g'; }
    assert e[..4] != "&lt;" by { assert e[1] == 'g'; }
  }

  lemma UnescapePlain(c: char, tail: string)
    requires c !in "&<>\"'"
    ensures UnescapeHtml([c] + tail) == [c] + UnescapeHtml(tail)
  {
    var e := [c] + tail;
    assert e[1..] == tail;
    assert e[0] == c;
    assert |e| < 5 || e[..5] != "&amp;" by { assert e[0] != '&'; }
    assert |e| < 4 || e[..4] != "&lt;" by { assert e[0] != '&'; }
    assert |e| < 4 || e[..4] != "&gt;" by { assert e[0] != '&'; }
    assert |e| < 6 || e[..6] != "&quot;" by { assert e[0] != '&'; }
    assert |e| < 5 || e[..5] != "&#39;" by { assert e[0] != '&'; }
  }

  lemma UnescapeQuote(tail: string)
    ensures UnescapeHtml("&quot;" + tail) == "\"" + UnescapeHtml(tail)
  {
    var e := "&quot;" + tail;
    assert e[6..] == tail;
    assert e[..6] == "&quot;";
    assert e[..5] != "&amp;" by { assert e[1] == 'q'; }
    assert e[..4] != "&lt;" by { assert e[1] == 'q'; }
    assert e[..4] != "&gt;" by { assert e[1] == 'q'; }
  }

  lemma UnescapeApostrophe(tail: string)
    ensures UnescapeHtml("&#39;" + tail) == "'" + UnescapeHtml(tail)
  {
    var e := "&#39;" + tail;
    assert e[5..] == tail;
    assert e[..5] == "&#39;";
    assert e[..5] != "&amp;" by { assert e[1] == '#'; }
    assert e[..4] != "&lt;" by { assert e[1] == '#'; }
    assert e[..4] != "&gt;" by { assert e[1] == '#'; }
    assert |e| < 6 || e[..6] != "&quot;" by { assert e[1] == '#'; }
  }

  /** Escaped text holds none of the characters that delimit markup. */
  lemma {:induction false} EscapedHasNoMarkup(s: string)
    ensures forall i :: 0 <= i < |EscapeHtml(s)| ==> EscapeHtml(s)[i] !in "<>\"'"
  {
    EscapeHtmlIsPerCharacter(s);
    EscapeEachHasNoMarkup(s);
  }

  lemma {:induction false} EscapeEachHasNoMarkup(s: string)
    ensures forall i :: 0 <= i < |EscapeEach(s)| ==> EscapeEach(s)[i] !in "<>\"'"
  {
    if s != [] {
      EscapeEachHasNoMarkup(s[1..]);
      var e := EscapeEach(s);
      var h := EscapeChar(s[0]);
      forall i | 0 <= i < |e| ensures e[i] !in "<>\"'" {
        if i >= |h| {
          assert e[i] == EscapeEach(s[1..])[i - |h|];
        }
      }
    }
  }

  // ---------------------------------------------------------------------------
  // slugify

  /** The characters `[\w\-а-яё]` matches under the `i` flag. */
  predicate IsSlugChar(c: char) {
    || ('a' <= c <= 'z') || ('A' <= c <= 'Z') || ('0' <= c <= '9') || c == '_' || c == '-'
    || ('а' <= c <= 'я') || ('А' <= c <= 'Я') || c == 'ё' || c == 'Ё'
  }

  /** The characters a slug can hold: lower-case Latin and Russian letters,
      digits, `_` and `-`. */
  predicate IsSlugOutputChar(c: char) {
    ('a' <= c <= 'z') || ('0' <= c <= '9') || c == '_' || c == '-' || ('а' <= c <= 'я') || c == 'ё'
  }

  /** `replaceAll(/[^\w\-а-яё]/gi, "")`. */
  function KeepSlugChars(s: string): (r: string)
    ensures forall i :: 0 <= i < |r| ==> IsSlugChar(r[i])
  {
    if s == [] then []
    else (if IsSlugChar(s[0]) then [s[0]] else []) + KeepSlugChars(s[1..])
  }

  /** `slugify`: trim, lower-case, whitespace runs to `-`, drop the rest. */
  function Slugify(s: string): string {
    KeepSlugChars(ReplaceSpaceRuns(ToLower(Trim(s)), '-'))
  }

  predicate IsSlug(s: string) {
    forall i :: 0 <= i < |s| ==> IsSlugOutputChar(s[i])
  }

  lemma {:induction false} KeepSlugCharsLower(s: string)
    requires IsLower(s)
    ensures IsSlug(KeepSlugChars(s))
  {
    if s != [] {
      assert IsLower(s[1..]) by {
        forall k | 0 <= k < |s| - 1 ensures ToLowerChar(s[1..][k]) == s[1..][k] {
          assert s[1..][k] == s[k + 1];
        }
      }
      KeepSlugCharsLower(s[1..]);
    }
  }

  lemma {:induction false} KeepSlugCharsFixed(s: string)
    requires forall i :: 0 <= i < |s| ==> IsSlugChar(s[i])
    ensures KeepSlugChars(s) == s
  {
    if s != [] {
      KeepSlugCharsFixed(s[1..]);
    }
  }

  /** A slug holds only lower-case letters, digits, `_` and `-`; in particular
      no whitespace and no `/`. */
  lemma SlugifyIsSlug(s: string)
    ensures IsSlug(Slugify(s))
    ensures NoSpace(Slugify(s)) && '/' !in Slugify(s)
  {
    var l := ToLower(Trim(s));
    ToLowerIsLower(Trim(s));
    ReplaceSpaceRunsLower(l, '-');
    KeepSlugCharsLower(ReplaceSpaceRuns(l, '-'));
  }

  /** Slugifying a slug changes nothing. */
  lemma SlugifyIdempotent(s: string)
    ensures Slugify(Slugify(s)) == Slugify(s)
  {
    var g := Slugify(s);
    SlugifyIsSlug(s);
    assert Trimmed(g);
    TrimOfTrimmed(g);
    LowerIsFixed(g);
    ReplaceSpaceRunsNoSpace(g, '-');
    KeepSlugCharsFixed(g);
  }

  // ---------------------------------------------------------------------------
  // parseRoute

  datatype Route = Home | PageRoute(id: string)

  /** `filter(Boolean)` on strings. */
  function NonEmpty(parts: seq<string>): (r: seq<string>)
    ensures forall k :: 0 <= k < |r| ==> r[k] != ""
  {
    if parts == [] then []
    else (if parts[0] != "" then [parts[0]] else []) + NonEmpty(parts[1..])
  }

  /** `parseRoute(location.hash)`. `decode` is `decodeURIComponent`; it yields
      `None` where that throws on a malformed escape. */
  function ParseRoute(hash: string, decode: string -> Option<string>): Option<Route> {
    var h := Trim(hash);
    if h == "" then Some(Home)
    else
      var body := if h[0] == '#' then h[1..] else h;
      var parts := NonEmpty(SplitOn(body, '/'));
      if |parts| >= 2 && parts[0] == "page" then
        match decode(parts[1])
        case Some(id) => Some(PageRoute(id))
        case None => None
      else Some(Home)
  }

  lemma NonEmptyAppend(a: seq<string>, b: seq<string>)
    ensures NonEmpty(a + b) == NonEmpty(a) + NonEmpty(b)
  {
    if a == [] {
      assert a + b == b;
    } else {
      assert (a + b)[1..] == a[1..] + b;
      NonEmptyAppend(a[1..], b);
    }
  }

  /** The pieces of `/page/` followed by `x`. */
  lemma SplitPagePrefix(x: string)
    ensures SplitOn("/page/" + x, '/') == ["", "page"] + SplitOn(x, '/')
  {
    assert "/page/" + x == "" + ['/'] + ("page" + ['/'] + x);
    SplitOnConcat("", "page" + ['/'] + x, '/');
    SplitOnConcat("page", x, '/');
    SplitOnAbsent("page", '/');
    assert SplitOn("", '/') == [""];
  }

  lemma PageSegments(enc: string)
    requires enc != ""
    ensures NonEmpty(["", "page", enc]) == ["page", enc]
  {
    assert ["", "page", enc][1..] == ["page", enc];
    assert ["page", enc][1..] == [enc];
    assert [enc][1..] == [];
    assert NonEmpty([enc]) == [enc] + NonEmpty([]);
    assert NonEmpty(["page", enc]) == ["page"] + NonEmpty([enc]);
  }

  /** The link the engine writes for a page, `#/page/` followed by the
      encoded id, routes back to that id. */
  lemma PageLinkRoutesBack(enc: string, id: string, decode: string -> Option<string>)
    requires enc != "" && '/' !in enc && NoSpace(enc)
    requires decode(enc) == Some(id)
    ensures ParseRoute("#/page/" + enc, decode) == Some(PageRoute(id))
  {
    var h := "#/page/" + enc;
    assert Trimmed(h);
    TrimOfTrimmed(h);
    assert h[1..] == "/page/" + enc;
    SplitPagePrefix(enc);
    SplitOnAbsent(enc, '/');
    assert SplitOn(h[1..], '/') == ["", "page", enc];
    PageSegments(enc);
  }

  /** Segments after the id do not change the route: only the second
      non-empty segment is read. */
  lemma ExtraSegmentsIgnored(enc: string, rest: string, id: string, decode: string -> Option<string>)
    requires enc != "" && '/' !in enc
    requires decode(enc) == Some(id)
    requires rest == [] || !IsSpace(rest[|rest| - 1])
    ensures ParseRoute("#/page/" + enc + "/" + rest, decode) == Some(PageRoute(id))
  {
    PageHashBody(enc, rest);
    LongerPathSegments(enc, rest);
    NonEmptyAppend(["", "page", enc], SplitOn(rest, '/'));
    PageSegments(enc);
  }

  lemma PageHashBody(enc: string, rest: string)
    requires rest == [] || !IsSpace(rest[|rest| - 1])
    ensures var h := "#/page/" + enc + "/" + rest;
            Trim(h) == h && h[0] == '#' && h[1..] == "/page/" + (enc + ['/'] + rest)
  {
    var h := "#/page/" + enc + "/" + rest;
    assert Trimmed(h);
    TrimOfTrimmed(h);
    assert h[1..] == "/page/" + (enc + ['/'] + rest);
  }

  lemma LongerPathSegments(enc: string, rest: string)
    requires '/' !in enc
    ensures SplitOn("/page/" + (enc + ['/'] + rest), '/') == ["", "page", enc] + SplitOn(rest, '/')
  {
    SplitPagePrefix(enc + ['/'] + rest);
    SplitOnConcat(enc, rest, '/');
    SplitOnAbsent(enc, '/');
  }

  // ---------------------------------------------------------------------------
  // joinUrl

  predicate StartsWith(s: string, prefix: string) {
    |prefix| <= |s| && s[..|prefix|] == prefix
  }

  /** `/^(https?:)?\/\//i`: a scheme-relative or http(s) URL. */
  predicate IsAbsoluteUrl(file: string) {
    || StartsWith(file, "//")
    || StartsWith(ToLower(file), "http://")
    || StartsWith(ToLower(file), "https://")
  }

  /** Names `joinUrl` leaves as they are besides absolute URLs. */
  predicate IsRooted(file: string) {
    StartsWith(file, "/") || StartsWith(file, "./") || StartsWith(file, "../")
  }

  /** `replace(/\/+$/, "")`. */
  function StripTrailingSlashes(s: string): (r: string)
    ensures |r| <= |s| && r == s[..|r|] && (r == [] || r[|r| - 1] != '/')
    ensures forall k :: |r| <= k < |s| ==> s[k] == '/'
  {
    if s != [] && s[|s| - 1] == '/' then StripTrailingSlashes(s[..|s| - 1]) else s
  }

  /** `replace(/^\/+/, "")`. */
  function StripLeadingSlashes(s: string): (r: string)
    ensures |r| <= |s| && r == s[|s| - |r|..] && (r == [] || r[0] != '/')
    ensures forall k :: 0 <= k < |s| - |r| ==> s[k] == '/'
  {
    if s != [] && s[0] == '/' then StripLeadingSlashes(s[1..]) else s
  }

  function JoinUrl(dir: string, file: string): string {
    if dir == "" then file
    else if IsAbsoluteUrl(file) then file
    else if IsRooted(file) then file
    else StripTrailingSlashes(dir) + "/" + StripLeadingSlashes(file)
  }

  /** `joinUrl` returns absolute and rooted names, and every name when there
      is no directory, unchanged; otherwise it puts exactly one `/` between
      the directory without its trailing slashes and the name. */
  lemma JoinUrlShape(dir: string, file: string)
    ensures dir == "" || IsAbsoluteUrl(file) || IsRooted(file) ==> JoinUrl(dir, file) == file
    ensures dir != "" && !IsAbsoluteUrl(file) && !IsRooted(file) ==>
              var d := StripTrailingSlashes(dir);
              && JoinUrl(dir, file) == d + "/" + file
              && (d == [] || d[|d| - 1] != '/')
              && (file == [] || file[0] != '/')
  {
    if dir != "" && !IsAbsoluteUrl(file) && !IsRooted(file) && file != [] {
      assert file[..1] != "/";
    }
  }
}

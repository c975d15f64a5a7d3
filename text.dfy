/** The JavaScript string built-ins that the documentation engine relies on:
    `trim`, `toLowerCase`, replacing `\s+` runs, `split` on one character,
    `join`, `indexOf`/`includes`, and decimal rendering of integers.
    Strings are sequences of code points. */
module Text {

  /** The characters JavaScript's `\s` class matches and `trim` removes
      (WhiteSpace and LineTerminator of ECMA-262). */
  predicate IsSpace(c: char) {
    || c == '\t' || c == '\n' || c == '\U{000B}' || c == '\U{000C}' || c == '\r' || c == ' '
    || c == '\U{00A0}' || c == '\U{1680}' || ('\U{2000}' <= c <= '\U{200A}')
    || c == '\U{2028}' || c == '\U{2029}' || c == '\U{202F}' || c == '\U{205F}'
    || c == '\U{3000}' || c == '\U{FEFF}'
  }

  predicate NoSpace(s: string) {
    forall i :: 0 <= i < |s| ==> !IsSpace(s[i])
  }

  // ---------------------------------------------------------------------------
  // toLowerCase

  /** Lower-casing of the Latin (ASCII and Latin-1) and Cyrillic capitals;
      every other character is left as it is. */
  function ToLowerChar(c: char): char {
    if 'A' <= c <= 'Z' then (c as int + 32) as char
    else if '\U{00C0}' <= c <= '\U{00DE}' && c != '\U{00D7}' then (c as int + 32) as char
    else if '\U{0410}' <= c <= '\U{042F}' then (c as int + 32) as char
    else if '\U{0400}' <= c <= '\U{040F}' then (c as int + 80) as char
    else c
  }

  function ToLower(s: string): (r: string)
    ensures |r| == |s|
    ensures forall i :: 0 <= i < |s| ==> r[i] == ToLowerChar(s[i])
  {
    if s == [] then [] else [ToLowerChar(s[0])] + ToLower(s[1..])
  }

  predicate IsLower(s: string) {
    forall i :: 0 <= i < |s| ==> ToLowerChar(s[i]) == s[i]
  }

  lemma ToLowerCharFacts(c: char)
    ensures ToLowerChar(ToLowerChar(c)) == ToLowerChar(c)
    ensures IsSpace(ToLowerChar(c)) <==> IsSpace(c)
  {
  }

  /** Lower-casing is idempotent and keeps whitespace where it was. */
  lemma ToLowerIsLower(s: string)
    ensures IsLower(ToLower(s))
    ensures forall i :: 0 <= i < |s| ==> (IsSpace(ToLower(s)[i]) <==> IsSpace(s[i]))
  {
    forall i | 0 <= i < |s| {
      ToLowerCharFacts(s[i]);
    }
  }

  /** Lower-casing commutes with taking a slice. */
  lemma LowerOfSlice(s: string, a: nat, b: nat)
    requires a <= b <= |s|
    ensures ToLower(s[a..b]) == ToLower(s)[a..b]
  {
  }

  /** `low` is `s` lower-cased, character by character. */
  predicate LowerOf(low: string, s: string) {
    |low| == |s| && forall i :: 0 <= i < |s| ==> low[i] == ToLowerChar(s[i])
  }

  /** The pointwise reading of lower-casing is the same as `ToLower`. */
  lemma LowerOfIff(low: string, s: string)
    ensures LowerOf(low, s) <==> low == ToLower(s)
  {
    if LowerOf(low, s) {
      var r := ToLower(s);
      forall i | 0 <= i < |s| ensures r[i] == low[i] {}
    }
  }

  /** A match of `needle` in the lower-cased `s` is the lower-cased form of the
      characters of `s` at the same place. */
  lemma MatchLower(s: string, low: string, needle: string, i: int)
    requires LowerOf(low, s) && MatchAt(low, needle, i)
    ensures i + |needle| <= |s|
    ensures LowerOf(needle, s[i..i + |needle|])
  {
    forall k | 0 <= k < |needle| ensures needle[k] == ToLowerChar(s[i..i + |needle|][k]) {
      assert low[i..i + |needle|][k] == needle[k];
    }
  }

  /** A string whose lower-case form has no whitespace has none either. */
  lemma NoSpaceOfLower(s: string)
    requires NoSpace(ToLower(s))
    ensures NoSpace(s)
  {
    forall k | 0 <= k < |s| ensures !IsSpace(s[k]) {
      ToLowerCharFacts(s[k]);
    }
  }

  lemma LowerIsFixed(s: string)
    requires IsLower(s)
    ensures ToLower(s) == s
  {
  }

  // ---------------------------------------------------------------------------
  // trim

  /** Drops the leading whitespace: the result is a suffix of `s`, everything
      dropped is whitespace, and the result does not start with whitespace. */
  function TrimStart(s: string): (r: string)
    ensures |r| <= |s| && r == s[|s| - |r|..]
    ensures forall k :: 0 <= k < |s| - |r| ==> IsSpace(s[k])
    ensures r == [] || !IsSpace(r[0])
  {
    if |s| > 0 && IsSpace(s[0]) then TrimStart(s[1..]) else s
  }

  /** Drops the trailing whitespace, symmetrically to `TrimStart`. */
  function TrimEnd(s: string): (r: string)
    ensures |r| <= |s| && r == s[..|r|]
    ensures forall k :: |r| <= k < |s| ==> IsSpace(s[k])
    ensures r == [] || !IsSpace(r[|r| - 1])
  {
    if |s| > 0 && IsSpace(s[|s| - 1]) then TrimEnd(s[..|s| - 1]) else s
  }

  /** `String.prototype.trim`. */
  function Trim(s: string): string {
    TrimEnd(TrimStart(s))
  }

  predicate Trimmed(s: string) {
    s == [] || (!IsSpace(s[0]) && !IsSpace(s[|s| - 1]))
  }

  lemma TrimStartEnd(s: string)
    requires s == [] || !IsSpace(s[0])
    ensures Trimmed(TrimEnd(s))
  {
    var r := TrimEnd(s);
    if r != [] {
      assert r[0] == s[0];
    }
  }

  /** `trim` yields the middle of `s`: whitespace is all that is cut on either
      side, and what is left neither starts nor ends with whitespace. */
  lemma TrimIsSlice(s: string)
    ensures Trimmed(Trim(s))
    ensures exists i, j :: 0 <= i <= j <= |s| && Trim(s) == s[i..j]
                           && (forall k :: 0 <= k < i ==> IsSpace(s[k]))
                           && (forall k :: j <= k < |s| ==> IsSpace(s[k]))
  {
    var a := TrimStart(s);
    TrimStartEnd(a);
    var i := |s| - |a|;
    var j := i + |TrimEnd(a)|;
    TrimCut(s, a, TrimEnd(a));
    assert 0 <= i <= j <= |s| && Trim(s) == s[i..j]
           && (forall k :: 0 <= k < i ==> IsSpace(s[k]))
           && (forall k :: j <= k < |s| ==> IsSpace(s[k]));
  }

  /** The two cuts of `trim` seen from the original string: `a` is `s` less
      a whitespace prefix and `r` is `a` less a whitespace suffix. */
  lemma TrimCut(s: string, a: string, r: string)
    requires |a| <= |s| && a == s[|s| - |a|..] && forall k :: 0 <= k < |s| - |a| ==> IsSpace(s[k])
    requires |r| <= |a| && r == a[..|r|] && forall k :: |r| <= k < |a| ==> IsSpace(a[k])
    ensures var i := |s| - |a|;
            && i + |r| <= |s| && r == s[i..i + |r|]
            && (forall k :: 0 <= k < i ==> IsSpace(s[k]))
            && (forall k :: i + |r| <= k < |s| ==> IsSpace(s[k]))
  {
    var i := |s| - |a|;
    var j := i + |r|;
    assert r == s[i..j];
    forall k | j <= k < |s| ensures IsSpace(s[k]) {
      assert s[k] == a[k - i];
    }
  }

  lemma TrimOfTrimmed(s: string)
    requires Trimmed(s)
    ensures Trim(s) == s
  {
  }

  lemma TrimIdempotent(s: string)
    ensures Trim(Trim(s)) == Trim(s)
  {
    TrimIsSlice(s);
    TrimOfTrimmed(Trim(s));
  }

  // ---------------------------------------------------------------------------
  // replaceAll(/\s+/g, rep)

  /** Replaces every maximal run of whitespace by the single character `rep`. */
  function ReplaceSpaceRuns(s: string, rep: char): string
    decreases |s|
  {
    if s == [] then []
    else if IsSpace(s[0]) then [rep] + ReplaceSpaceRuns(TrimStart(s[1..]), rep)
    else [s[0]] + ReplaceSpaceRuns(s[1..], rep)
  }

  /** Every character of the result is `rep` or a non-whitespace character of
      the input. */
  lemma {:induction false} ReplaceSpaceRunsChars(s: string, rep: char)
    ensures forall i :: 0 <= i < |ReplaceSpaceRuns(s, rep)| ==>
              ReplaceSpaceRuns(s, rep)[i] == rep || !IsSpace(ReplaceSpaceRuns(s, rep)[i])
    decreases |s|
  {
    if s == [] {
    } else if IsSpace(s[0]) {
      ReplaceSpaceRunsChars(TrimStart(s[1..]), rep);
    } else {
      ReplaceSpaceRunsChars(s[1..], rep);
    }
  }

  /** Every character of the result is `rep` or a character of the input. */
  lemma {:induction false} ReplaceSpaceRunsWithin(s: string, rep: char)
    ensures forall i :: 0 <= i < |ReplaceSpaceRuns(s, rep)| ==>
              ReplaceSpaceRuns(s, rep)[i] == rep || ReplaceSpaceRuns(s, rep)[i] in s
    decreases |s|
  {
    if s == [] {
    } else {
      var t := if IsSpace(s[0]) then TrimStart(s[1..]) else s[1..];
      SuffixOfTail(s, t);
      ReplaceSpaceRunsWithin(t, rep);
      SuffixChars(s, t);
    }
  }

  /** A suffix of a string's tail is a suffix of the string. */
  lemma SuffixOfTail(s: string, t: string)
    requires s != [] && |t| <= |s| - 1 && t == s[1..][|s| - 1 - |t|..]
    ensures |t| < |s| && t == s[|s| - |t|..]
  {
  }

  lemma SuffixChars(s: string, t: string)
    requires |t| <= |s| && t == s[|s| - |t|..]
    ensures forall c :: c in t ==> c in s
  {
    forall c | c in t ensures c in s {
      var k :| 0 <= k < |t| && t[k] == c;
      assert s[|s| - |t| + k] == c;
    }
  }

  lemma SuffixLower(s: string, t: string)
    requires |t| <= |s| && t == s[|s| - |t|..] && IsLower(s)
    ensures IsLower(t)
  {
    forall k | 0 <= k < |t| ensures ToLowerChar(t[k]) == t[k] {
      assert t[k] == s[|s| - |t| + k];
    }
  }

  /** Replacing whitespace runs by a lower-case character keeps a lower-case
      string lower-case. */
  lemma {:induction false} ReplaceSpaceRunsLower(s: string, rep: char)
    requires IsLower(s) && ToLowerChar(rep) == rep
    ensures IsLower(ReplaceSpaceRuns(s, rep))
    decreases |s|
  {
    if s == [] {
    } else {
      var t := if IsSpace(s[0]) then TrimStart(s[1..]) else s[1..];
      SuffixOfTail(s, t);
      SuffixLower(s, t);
      ReplaceSpaceRunsLower(t, rep);
      var head := if IsSpace(s[0]) then rep else s[0];
      assert ToLowerChar(s[0]) == s[0];
      assert ReplaceSpaceRuns(s, rep) == [head] + ReplaceSpaceRuns(t, rep);
      LowerConcat([head], ReplaceSpaceRuns(t, rep));
    }
  }

  lemma LowerConcat(a: string, b: string)
    requires IsLower(a) && IsLower(b)
    ensures IsLower(a + b)
  {
    forall k | 0 <= k < |a + b| ensures ToLowerChar((a + b)[k]) == (a + b)[k] {
      if k < |a| { assert (a + b)[k] == a[k]; } else { assert (a + b)[k] == b[k - |a|]; }
    }
  }

  /** The result is empty exactly when the input is, starts with `rep` exactly
      when the input starts with whitespace, and keeps a last character that is
      not whitespace. */
  lemma {:induction false} ReplaceSpaceRunsEnds(s: string, rep: char)
    ensures (ReplaceSpaceRuns(s, rep) == []) <==> (s == [])
    ensures s != [] && IsSpace(s[0]) ==> ReplaceSpaceRuns(s, rep)[0] == rep
    ensures s != [] && !IsSpace(s[0]) ==> ReplaceSpaceRuns(s, rep)[0] == s[0]
    ensures s != [] && !IsSpace(s[|s| - 1]) ==>
              ReplaceSpaceRuns(s, rep)[|ReplaceSpaceRuns(s, rep)| - 1] == s[|s| - 1]
    decreases |s|
  {
    if s == [] {
    } else if IsSpace(s[0]) {
      var t := TrimStart(s[1..]);
      ReplaceSpaceRunsEnds(t, rep);
      if !IsSpace(s[|s| - 1]) {
        assert t != [] && t[|t| - 1] == s[|s| - 1];
      }
    } else {
      var t := s[1..];
      ReplaceSpaceRunsEnds(t, rep);
    }
  }

  /** A string without whitespace is left unchanged. */
  lemma {:induction false} ReplaceSpaceRunsNoSpace(s: string, rep: char)
    requires NoSpace(s)
    ensures ReplaceSpaceRuns(s, rep) == s
    decreases |s|
  {
    if s != [] {
      assert NoSpace(s[1..]) by {
        forall k | 0 <= k < |s| - 1 ensures !IsSpace(s[1..][k]) {
          assert s[1..][k] == s[k + 1];
        }
      }
      ReplaceSpaceRunsNoSpace(s[1..], rep);
    }
  }

  /** Whitespace is only the plain space, and never two of them in a row. */
  predicate SingleSpaced(s: string) {
    forall i :: 0 <= i < |s| && IsSpace(s[i]) ==> s[i] == ' ' && (i + 1 < |s| ==> !IsSpace(s[i + 1]))
  }

  lemma {:induction false} ReplaceSpaceRunsSingleSpaced(s: string)
    ensures SingleSpaced(ReplaceSpaceRuns(s, ' '))
    decreases |s|
  {
    var r := ReplaceSpaceRuns(s, ' ');
    if s == [] {
    } else if IsSpace(s[0]) {
      var t := TrimStart(s[1..]);
      ReplaceSpaceRunsSingleSpaced(t);
      ReplaceSpaceRunsEnds(t, ' ');
      assert r == [' '] + ReplaceSpaceRuns(t, ' ');
      if |r| > 1 {
        assert t != [] && !IsSpace(t[0]);
        assert r[1] == t[0];
      }
      forall i | 0 <= i < |r| && IsSpace(r[i])
        ensures r[i] == ' ' && (i + 1 < |r| ==> !IsSpace(r[i + 1]))
      {
        if i > 0 {
          assert r[i] == ReplaceSpaceRuns(t, ' ')[i - 1];
        }
      }
    } else {
      var t := s[1..];
      ReplaceSpaceRunsSingleSpaced(t);
      assert r == [s[0]] + ReplaceSpaceRuns(t, ' ');
      forall i | 0 <= i < |r| && IsSpace(r[i])
        ensures r[i] == ' ' && (i + 1 < |r| ==> !IsSpace(r[i + 1]))
      {
        assert i > 0;
        assert r[i] == ReplaceSpaceRuns(t, ' ')[i - 1];
      }
    }
  }

  /** On a single-spaced string the replacement changes nothing. */
  lemma {:induction false} ReplaceSpaceRunsFixed(s: string)
    requires SingleSpaced(s)
    ensures ReplaceSpaceRuns(s, ' ') == s
    decreases |s|
  {
    if s != [] {
      SingleSpacedTail(s);
      ReplaceSpaceRunsFixed(s[1..]);
      if IsSpace(s[0]) {
        TrimStartFixed(s[1..]);
        assert ReplaceSpaceRuns(s, ' ') == [' '] + ReplaceSpaceRuns(s[1..], ' ');
      } else {
        assert ReplaceSpaceRuns(s, ' ') == [s[0]] + ReplaceSpaceRuns(s[1..], ' ');
      }
      assert [s[0]] + s[1..] == s;
    }
  }

  lemma SingleSpacedTail(s: string)
    requires SingleSpaced(s) && s != []
    ensures SingleSpaced(s[1..])
    ensures IsSpace(s[0]) ==> s[0] == ' ' && (s[1..] == [] || !IsSpace(s[1..][0]))
  {
    forall i | 0 <= i < |s[1..]| && IsSpace(s[1..][i])
      ensures s[1..][i] == ' ' && (i + 1 < |s[1..]| ==> !IsSpace(s[1..][i + 1]))
    {
      assert s[1..][i] == s[i + 1];
    }
  }

  lemma TrimStartFixed(s: string)
    requires s == [] || !IsSpace(s[0])
    ensures TrimStart(s) == s
  {
  }

  /** Collapsing runs never lengthens a string. */
  lemma {:induction false} ReplaceSpaceRunsLength(s: string, rep: char)
    ensures |ReplaceSpaceRuns(s, rep)| <= |s|
    decreases |s|
  {
    if s != [] {
      if IsSpace(s[0]) {
        ReplaceSpaceRunsLength(TrimStart(s[1..]), rep);
      } else {
        ReplaceSpaceRunsLength(s[1..], rep);
      }
    }
  }

  /** Leading whitespace does not reach past a character that is not whitespace. */
  lemma {:induction false} TrimStartConcat(a: string, c: string)
    requires c == [] || !IsSpace(c[0])
    ensures TrimStart(a + c) == TrimStart(a) + c
  {
    if a == [] {
      assert a + c == c;
    } else if IsSpace(a[0]) {
      assert (a + c)[1..] == a[1..] + c;
      TrimStartConcat(a[1..], c);
    }
  }

  /** A run of whitespace ends where a character that is not whitespace
      starts, so the two sides collapse separately. */
  lemma {:induction false} ReplaceSpaceRunsConcat(a: string, c: string, rep: char)
    requires c == [] || !IsSpace(c[0])
    ensures ReplaceSpaceRuns(a + c, rep) == ReplaceSpaceRuns(a, rep) + ReplaceSpaceRuns(c, rep)
    decreases |a|
  {
    if a == [] {
      assert a + c == c;
    } else if IsSpace(a[0]) {
      var t := TrimStart(a[1..]);
      ConcatSpaceHead(a, c, rep);
      ReplaceSpaceRunsConcat(t, c, rep);
      ConsAssoc(rep, ReplaceSpaceRuns(t, rep), ReplaceSpaceRuns(c, rep));
    } else {
      ConcatWordHead(a, c, rep);
      ReplaceSpaceRunsConcat(a[1..], c, rep);
      ConsAssoc(a[0], ReplaceSpaceRuns(a[1..], rep), ReplaceSpaceRuns(c, rep));
    }
  }

  lemma ConsAssoc<T>(h: T, x: seq<T>, y: seq<T>)
    ensures [h] + (x + y) == ([h] + x) + y
  {
  }

  lemma ConcatSpaceHead(a: string, c: string, rep: char)
    requires a != [] && IsSpace(a[0]) && (c == [] || !IsSpace(c[0]))
    ensures ReplaceSpaceRuns(a + c, rep) == [rep] + ReplaceSpaceRuns(TrimStart(a[1..]) + c, rep)
    ensures ReplaceSpaceRuns(a, rep) == [rep] + ReplaceSpaceRuns(TrimStart(a[1..]), rep)
  {
    assert (a + c)[1..] == a[1..] + c;
    TrimStartConcat(a[1..], c);
  }

  lemma ConcatWordHead(a: string, c: string, rep: char)
    requires a != [] && !IsSpace(a[0])
    ensures ReplaceSpaceRuns(a + c, rep) == [a[0]] + ReplaceSpaceRuns(a[1..] + c, rep)
    ensures ReplaceSpaceRuns(a, rep) == [a[0]] + ReplaceSpaceRuns(a[1..], rep)
  {
    assert (a + c)[1..] == a[1..] + c;
  }

  /** Text without whitespace passes through the collapse unchanged. */
  lemma {:induction false} ReplaceSpaceRunsKeepsWord(m: string, b: string, rep: char)
    requires NoSpace(m)
    ensures ReplaceSpaceRuns(m + b, rep) == m + ReplaceSpaceRuns(b, rep)
  {
    if m == [] {
      assert m + b == b;
    } else {
      assert (m + b)[1..] == m[1..] + b;
      assert NoSpace(m[1..]) by {
        forall k | 0 <= k < |m| - 1 ensures !IsSpace(m[1..][k]) {
          assert m[1..][k] == m[k + 1];
        }
      }
      ReplaceSpaceRunsKeepsWord(m[1..], b, rep);
      assert ReplaceSpaceRuns(m + b, rep) == [m[0]] + ReplaceSpaceRuns(m[1..] + b, rep);
    }
  }

  /** Trimming keeps a non-empty stretch without whitespace. */
  lemma TrimKeepsWord(x: string, m: string, y: string)
    requires m != [] && NoSpace(m)
    ensures exists i :: MatchAt(Trim(x + m + y), m, i)
  {
    var s := x + m + y;
    MatchAtMiddle(x, m, y);
    var a := TrimStart(s);
    assert Trim(s) == TrimEnd(a);
    KeepsThroughCuts(s, a, TrimEnd(a), m, |x|);
  }

  /** A match that neither starts nor ends with whitespace survives cutting a
      whitespace prefix (giving `a`) and then a whitespace suffix (giving `r`). */
  lemma KeepsThroughCuts(s: string, a: string, r: string, m: string, q: int)
    requires |a| <= |s| && a == s[|s| - |a|..] && forall k :: 0 <= k < |s| - |a| ==> IsSpace(s[k])
    requires |r| <= |a| && r == a[..|r|] && forall k :: |r| <= k < |a| ==> IsSpace(a[k])
    requires MatchAt(s, m, q) && m != [] && NoSpace(m)
    ensures exists i :: MatchAt(r, m, i)
  {
    TrimStartKeeps(s, a, m, q);
    TrimEndKeeps(a, r, m, q - (|s| - |a|));
  }

  /** Cutting a whitespace prefix keeps a match that starts with a
      character that is not whitespace. */
  lemma TrimStartKeeps(s: string, a: string, m: string, q: int)
    requires |a| <= |s| && a == s[|s| - |a|..] && forall k :: 0 <= k < |s| - |a| ==> IsSpace(s[k])
    requires MatchAt(s, m, q) && m != [] && !IsSpace(m[0])
    ensures |s| - |a| <= q && MatchAt(a, m, q - (|s| - |a|))
  {
    var d := |s| - |a|;
    MatchAtChar(s, m, q, 0);
    MatchAtSuffix(s, m, q, d);
  }

  /** Cutting a whitespace suffix keeps a match that ends with a character
      that is not whitespace. */
  lemma TrimEndKeeps(a: string, r: string, m: string, p: int)
    requires |r| <= |a| && r == a[..|r|] && forall k :: |r| <= k < |a| ==> IsSpace(a[k])
    requires MatchAt(a, m, p) && m != [] && !IsSpace(m[|m| - 1])
    ensures MatchAt(r, m, p)
  {
    MatchAtChar(a, m, p, |m| - 1);
    MatchAtPrefix(a, m, p, |r|);
  }

  // ---------------------------------------------------------------------------
  // split and join

  /** `s.split(c)` for a one-character separator: the pieces between
      separators, empty ones included; `""` splits into `[""]`. */
  function SplitOn(s: string, c: char): (r: seq<string>)
    ensures |r| >= 1
    ensures forall k :: 0 <= k < |r| ==> c !in r[k]
  {
    if s == [] then [[]]
    else
      var rest := SplitOn(s[1..], c);
      if s[0] == c then [[]] + rest else [[s[0]] + rest[0]] + rest[1..]
  }

  /** `parts.join(sep)`. */
  function Join(parts: seq<string>, sep: string): string {
    if parts == [] then []
    else if |parts| == 1 then parts[0]
    else parts[0] + sep + Join(parts[1..], sep)
  }

  /** Joining the pieces of a split with the separator gives back the string. */
  lemma {:induction false} SplitJoin(s: string, c: char)
    ensures Join(SplitOn(s, c), [c]) == s
  {
    if s != [] {
      SplitJoin(s[1..], c);
      var rest := SplitOn(s[1..], c);
      if s[0] != c {
        if |rest| == 1 {
          assert SplitOn(s, c) == [[s[0]] + rest[0]];
        } else {
          assert SplitOn(s, c) == [[s[0]] + rest[0]] + rest[1..];
          assert Join(rest, [c]) == rest[0] + [c] + Join(rest[1..], [c]);
        }
      }
    }
  }

  lemma {:induction false} SplitOnAbsent(s: string, c: char)
    requires c !in s
    ensures SplitOn(s, c) == [s]
  {
    if s != [] {
      assert c !in s[1..] by {
        forall i | 0 <= i < |s| - 1 ensures s[1..][i] != c {
          assert s[1..][i] == s[i + 1];
        }
      }
      SplitOnAbsent(s[1..], c);
      assert [s[0]] + s[1..] == s;
    }
  }

  lemma {:induction false} SplitOnConcat(a: string, b: string, c: char)
    ensures SplitOn(a + [c] + b, c) == SplitOn(a, c) + SplitOn(b, c)
  {
    var x := a + [c] + b;
    if a == [] {
      assert x[0] == c && x[1..] == b;
    } else {
      assert x[0] == a[0];
      assert x[1..] == a[1..] + [c] + b;
      SplitOnConcat(a[1..], b, c);
      if a[0] != c {
        SplitOnConsOther(a, SplitOn(x[1..], c), SplitOn(a[1..], c), SplitOn(b, c));
      }
    }
  }

  lemma SplitOnConsOther(a: string, r: seq<string>, ra: seq<string>, rb: seq<string>)
    requires |a| >= 1 && |ra| >= 1 && r == ra + rb
    ensures [[a[0]] + r[0]] + r[1..] == ([[a[0]] + ra[0]] + ra[1..]) + rb
  {
    assert r[0] == ra[0];
    assert r[1..] == ra[1..] + rb;
  }

  /** Joining pieces free of the separator and splitting again gives the
      pieces back. */
  lemma {:induction false} JoinSplit(parts: seq<string>, c: char)
    requires |parts| >= 1
    requires forall k :: 0 <= k < |parts| ==> c !in parts[k]
    ensures SplitOn(Join(parts, [c]), c) == parts
  {
    if |parts| == 1 {
      SplitOnAbsent(parts[0], c);
    } else {
      JoinSplit(parts[1..], c);
      SplitOnConcat(parts[0], Join(parts[1..], [c]), c);
      SplitOnAbsent(parts[0], c);
      assert Join(parts, [c]) == parts[0] + [c] + Join(parts[1..], [c]);
      assert parts == [parts[0]] + parts[1..];
    }
  }

  // ---------------------------------------------------------------------------
  // indexOf and includes

  predicate MatchAt(hay: string, needle: string, i: int) {
    0 <= i && i + |needle| <= |hay| && hay[i..i + |needle|] == needle
  }

  /** The scan of `indexOf` from a start that is within the string. */
  function SearchFrom(hay: string, needle: string, start: nat): (r: int)
    requires start <= |hay|
    ensures r == -1 || (start <= r && MatchAt(hay, needle, r))
    ensures forall i :: start <= i && (r == -1 || i < r) ==> !MatchAt(hay, needle, i)
    decreases |hay| - start
  {
    if start + |needle| > |hay| then -1
    else if hay[start..start + |needle|] == needle then start
    else if start == |hay| then -1
    else SearchFrom(hay, needle, start + 1)
  }

  lemma MatchAtMiddle(x: string, m: string, y: string)
    ensures MatchAt(x + m + y, m, |x|)
  {
    assert (x + m + y)[|x|..|x| + |m|] == m;
  }

  lemma MatchAtChar(s: string, m: string, p: int, k: nat)
    requires MatchAt(s, m, p) && k < |m|
    ensures s[p + k] == m[k]
  {
    assert s[p..p + |m|][k] == s[p + k];
  }

  lemma MatchAtSuffix(s: string, m: string, p: int, d: nat)
    requires MatchAt(s, m, p) && d <= p
    ensures MatchAt(s[d..], m, p - d)
  {
    assert s[d..][p - d..p - d + |m|] == s[p..p + |m|];
  }

  lemma MatchAtPrefix(s: string, m: string, p: int, e: nat)
    requires MatchAt(s, m, p) && p + |m| <= e <= |s|
    ensures MatchAt(s[..e], m, p)
  {
    assert s[..e][p..p + |m|] == s[p..p + |m|];
  }

  /** `hay.indexOf(needle, from)`: a position past the end is clamped to it. */
  function IndexOf(hay: string, needle: string, from: nat): int {
    SearchFrom(hay, needle, if from < |hay| then from else |hay|)
  }

  /** A found position is a match at or after the start of the search. */
  lemma IndexOfFound(hay: string, needle: string, from: nat)
    requires IndexOf(hay, needle, from) != -1
    ensures var i := IndexOf(hay, needle, from);
            && 0 <= i && i + |needle| <= |hay| && MatchAt(hay, needle, i)
            && (from <= |hay| ==> from <= i)
  {
  }

  /** `hay.includes(needle)`. */
  predicate Contains(hay: string, needle: string) {
    IndexOf(hay, needle, 0) != -1
  }

  lemma ContainsMeansMatch(hay: string, needle: string)
    ensures Contains(hay, needle) <==> exists i :: MatchAt(hay, needle, i)
  {
    if !Contains(hay, needle) {
      forall i ensures !MatchAt(hay, needle, i) {
      }
    }
  }

  // ---------------------------------------------------------------------------
  // slice

  /** A `slice` bound: a negative one counts from the end; both are clamped
      to the length. */
  function SliceIndex(len: nat, k: int): (r: nat)
    ensures r <= len
  {
    if k < 0 then (if len + k < 0 then 0 else len + k)
    else if k > len then len
    else k
  }

  /** `s.slice(a, b)`: empty when the bounds cross. */
  function Slice<T>(s: seq<T>, a: int, b: int): seq<T> {
    var i, j := SliceIndex(|s|, a), SliceIndex(|s|, b);
    if i < j then s[i..j] else []
  }

  /** `slice(0, limit)` keeps the first `limit` elements, or drops the last
      `-limit` when `limit` is negative. */
  lemma SlicePrefix<T>(s: seq<T>, limit: int)
    ensures var r := Slice(s, 0, limit);
            && |r| == (if limit >= 0 then Min(limit, |s|) else Max(|s| + limit, 0))
            && r == s[..|r|]
  {
  }

  /** Bounds that are not negative take at most the elements between them. */
  lemma SliceLength<T>(s: seq<T>, a: int, b: int)
    requires 0 <= a && 0 <= b
    ensures |Slice(s, a, b)| <= (if a < b then b - a else 0)
  {
  }

  function Min(a: int, b: int): int {
    if a <= b then a else b
  }

  function Max(a: int, b: int): int {
    if a >= b then a else b
  }

  // ---------------------------------------------------------------------------
  // Decimal rendering (Number.prototype.toString(10) on integers)

  function DigitChar(d: nat): char
    requires d < 10
  {
    "0123456789"[d]
  }

  function NatToString(n: nat): (r: string)
    ensures |r| >= 1
    ensures n >= 10 ==> |r| >= 2
    ensures forall i :: 0 <= i < |r| ==> '0' <= r[i] <= '9'
  {
    if n < 10 then [DigitChar(n)] else NatToString(n / 10) + [DigitChar(n % 10)]
  }

  function IntToString(n: int): string {
    if n < 0 then "-" + NatToString(-n) else NatToString(n)
  }

  /** Distinct numbers have distinct decimal renderings. */
  lemma {:induction false} NatToStringInjective(a: nat, b: nat)
    requires NatToString(a) == NatToString(b)
    ensures a == b
  {
    var sa, sb := NatToString(a), NatToString(b);
    if a < 10 && b < 10 {
      DigitCharInjective(a, b);
    } else if a >= 10 && b >= 10 {
      assert sa == NatToString(a / 10) + [DigitChar(a % 10)];
      assert sb == NatToString(b / 10) + [DigitChar(b % 10)];
      assert sa[|sa| - 1] == DigitChar(a % 10) && sb[|sb| - 1] == DigitChar(b % 10);
      DigitCharInjective(a % 10, b % 10);
      assert sa[..|sa| - 1] == NatToString(a / 10);
      assert sb[..|sb| - 1] == NatToString(b / 10);
      NatToStringInjective(a / 10, b / 10);
    }
  }

  lemma DigitCharInjective(d: nat, e: nat)
    requires d < 10 && e < 10 && DigitChar(d) == DigitChar(e)
    ensures d == e
  {
  }
}

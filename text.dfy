/**
 * Character classes and the handful of Python string operations the
 * scrapers and the cleaning pipeline rely on: str.split() / ' '.join(),
 * str.strip(), the `in` substring test and per-character case mapping.
 */
module Text {

  // ---------------------------------------------------------------------
  // Character classes
  // ---------------------------------------------------------------------

  /** Python's str.isspace(): the characters str.split(), str.strip() and
      the regex class \s treat as whitespace. */
  predicate IsSpace(c: char) {
    c == ' ' || ('\t' <= c <= '\r') || ('\U{1C}' <= c <= '\U{1F}')
    || c == '\U{85}' || c == '\U{A0}' || c == '\U{1680}'
    || ('\U{2000}' <= c <= '\U{200A}') || c == '\U{2028}' || c == '\U{2029}'
    || c == '\U{202F}' || c == '\U{205F}' || c == '\U{3000}'
  }

  /** The regex class \d: ASCII digits and the two Arabic-Indic digit ranges. */
  predicate IsDigit(c: char) {
    ('0' <= c <= '9') || ('\U{660}' <= c <= '\U{669}') || ('\U{6F0}' <= c <= '\U{6F9}')
  }

  /** Latin-1 characters that Python counts as alphanumeric. */
  predicate IsLatin1Alnum(c: char) {
    c == 'ª' || c == '²' || c == '³' || c == 'µ' || c == '¹' || c == 'º'
    || ('¼' <= c <= '¾') || ('À' <= c <= 'Ö') || ('Ø' <= c <= 'ö') || ('ø' <= c <= 'ÿ')
  }

  /** The regex class \w (re.UNICODE): letters, digits and '_'. Above Latin-1
      every character counts except whitespace, the combining diacritical
      marks U+0300-U+036F and the punctuation and symbol blocks
      U+2000-U+2BFF and U+3000-U+303F. */
  predicate IsWordChar(c: char) {
    IsDigit(c) || ('a' <= c <= 'z') || ('A' <= c <= 'Z') || c == '_' || IsLatin1Alnum(c)
    || (c >= '\U{100}' && !IsSpace(c) && !('\U{300}' <= c <= '\U{36F}')
        && !('\U{2000}' <= c <= '\U{2BFF}') && !('\U{3000}' <= c <= '\U{303F}'))
  }

  lemma DigitIsNotSpace(c: char)
    requires IsDigit(c)
    ensures !IsSpace(c) && IsWordChar(c)
  {
  }

  /** str.lower() on one character (ASCII and Latin-1 capitals). */
  function Lower(c: char): char {
    if 'A' <= c <= 'Z' || ('À' <= c <= 'Þ' && c != '×') then (c as int + 32) as char else c
  }

  /** str.upper() on one character (ASCII and Latin-1 small letters). */
  function Upper(c: char): char {
    if 'a' <= c <= 'z' || ('à' <= c <= 'þ' && c != '÷') then (c as int - 32) as char
    else if c == 'ÿ' then '\U{178}'
    else if c == 'µ' then '\U{39C}'
    else c
  }

  function LowerStr(s: string): (r: string)
    ensures |r| == |s| && forall i :: 0 <= i < |s| ==> r[i] == Lower(s[i])
  {
    seq(|s|, i requires 0 <= i < |s| => Lower(s[i]))
  }

  function UpperStr(s: string): (r: string)
    ensures |r| == |s| && forall i :: 0 <= i < |s| ==> r[i] == Upper(s[i])
  {
    seq(|s|, i requires 0 <= i < |s| => Upper(s[i]))
  }

  predicate AllSpace(s: string) {
    forall i :: 0 <= i < |s| ==> IsSpace(s[i])
  }

  predicate AllDigits(s: string) {
    forall i :: 0 <= i < |s| ==> IsDigit(s[i])
  }

  // ---------------------------------------------------------------------
  // Substrings: Python's `needle in haystack`
  // ---------------------------------------------------------------------

  predicate OccursAt(h: string, n: string, i: nat) {
    i + |n| <= |h| && h[i..i + |n|] == n
  }

  /** `n in h`: n occurs at some index of h. */
  predicate Contains(h: string, n: string) {
    exists i: nat | i <= |h| :: OccursAt(h, n, i)
  }

  /** A needle with a character the haystack lacks does not occur in it. */
  lemma MissingChar(h: string, n: string, k: nat)
    requires k < |n| && n[k] !in h
    ensures !Contains(h, n)
  {
  }

  lemma ContainsSelf(s: string)
    ensures Contains(s, s)
  {
    assert s[0..|s|] == s;
    assert OccursAt(s, s, 0);
  }

  // ---------------------------------------------------------------------
  // str.split() and ' '.join(...)
  // ---------------------------------------------------------------------

  /** Length of the run of non-whitespace characters that starts s. */
  function WordLen(s: string): (n: nat)
    ensures n <= |s|
    ensures forall i :: 0 <= i < n ==> !IsSpace(s[i])
    ensures n < |s| ==> IsSpace(s[n])
  {
    if s == [] || IsSpace(s[0]) then 0 else 1 + WordLen(s[1..])
  }

  predicate GoodWord(w: string) {
    |w| > 0 && forall i :: 0 <= i < |w| ==> !IsSpace(w[i])
  }

  predicate GoodWords(ws: seq<string>) {
    forall k :: 0 <= k < |ws| ==> GoodWord(ws[k])
  }

  /** str.split() with no argument: the maximal runs of non-whitespace. */
  function Words(s: string): seq<string>
    decreases |s|
  {
    if s == [] then []
    else if IsSpace(s[0]) then Words(s[1..])
    else
      var n := WordLen(s);
      [s[..n]] + Words(s[n..])
  }

  /** sep.join(parts). */
  function Join(sep: string, parts: seq<string>): string
    decreases |parts|
  {
    if |parts| == 0 then ""
    else if |parts| == 1 then parts[0]
    else parts[0] + sep + Join(sep, parts[1..])
  }

  /** ' '.join(s.split()): whitespace runs become one space, ends are trimmed. */
  function Collapse(s: string): string {
    Join(" ", Words(s))
  }

  /** No leading or trailing whitespace, every whitespace character is a
      plain space, and no two whitespace characters are adjacent. */
  predicate Normalised(t: string) {
    (|t| > 0 ==> !IsSpace(t[0]) && !IsSpace(t[|t| - 1]))
    && (forall i :: 0 <= i < |t| && IsSpace(t[i]) ==> t[i] == ' ')
    && (forall i :: 0 <= i < |t| - 1 && IsSpace(t[i]) ==> !IsSpace(t[i + 1]))
  }

  lemma {:induction false} WordsAreGood(s: string)
    ensures GoodWords(Words(s))
    decreases |s|
  {
    if s == [] {
    } else if IsSpace(s[0]) {
      WordsAreGood(s[1..]);
    } else {
      var n := WordLen(s);
      WordsAreGood(s[n..]);
    }
  }

  lemma {:induction false} WordsEmptyIff(s: string)
    ensures Words(s) == [] <==> AllSpace(s)
    decreases |s|
  {
    if s != [] {
      if IsSpace(s[0]) {
        WordsEmptyIff(s[1..]);
        if AllSpace(s[1..]) {
          forall i | 0 <= i < |s| ensures IsSpace(s[i]) {
            if i > 0 { assert s[i] == s[1..][i - 1]; }
          }
        }
      }
    }
  }

  lemma {:induction false} JoinSpaceNormalised(ws: seq<string>)
    requires GoodWords(ws)
    ensures Normalised(Join(" ", ws))
    ensures Join(" ", ws) == [] <==> ws == []
    decreases |ws|
  {
    if |ws| > 1 {
      JoinSpaceNormalised(ws[1..]);
      var w, j := ws[0], Join(" ", ws[1..]);
      var t := w + " " + j;
      assert GoodWord(w);
      assert t == Join(" ", ws);
      forall i | 0 <= i < |t| && IsSpace(t[i]) ensures t[i] == ' ' {
        if i > |w| { assert t[i] == j[i - |w| - 1]; }
      }
      forall i | 0 <= i < |t| - 1 && IsSpace(t[i]) ensures !IsSpace(t[i + 1]) {
        if i > |w| {
          assert t[i] == j[i - |w| - 1] && t[i + 1] == j[i - |w|];
        } else if i == |w| {
          assert t[i + 1] == j[0];
        }
      }
    } else if |ws| == 1 {
      assert GoodWord(ws[0]);
    }
  }

  /** str.split() always yields ' '.join-able words, so collapsing gives a
      normalised string; it is empty exactly when s is all whitespace. */
  lemma CollapseNormalised(s: string)
    ensures Normalised(Collapse(s))
    ensures Collapse(s) == [] <==> AllSpace(s)
  {
    WordsAreGood(s);
    JoinSpaceNormalised(Words(s));
    WordsEmptyIff(s);
  }

  lemma {:induction false} NormalisedSuffix(t: string, k: nat)
    requires Normalised(t) && k < |t| && !IsSpace(t[k])
    ensures Normalised(t[k..])
  {
    var u := t[k..];
    forall i | 0 <= i < |u| && IsSpace(u[i]) ensures u[i] == ' ' {
      assert u[i] == t[k + i];
    }
    forall i | 0 <= i < |u| - 1 && IsSpace(u[i]) ensures !IsSpace(u[i + 1]) {
      assert u[i] == t[k + i] && u[i + 1] == t[k + i + 1];
    }
  }

  /** A word, one space and a string that starts with a non-space
      character split into that word followed by the rest's words. */
  lemma WordsSplitAtSpace(t: string, n: nat)
    requires 0 < n == WordLen(t) && n + 1 < |t| && IsSpace(t[n]) && !IsSpace(t[n + 1])
    ensures Words(t) == [t[..n]] + Words(t[n + 1..])
  {
    assert t[n..][1..] == t[n + 1..];
    assert Words(t[n..]) == Words(t[n + 1..]);
  }

  lemma JoinCons(sep: string, w: string, ws: seq<string>)
    requires ws != []
    ensures Join(sep, [w] + ws) == w + sep + Join(sep, ws)
  {
    assert ([w] + ws)[1..] == ws;
  }

  /** Appending a part to a non-empty join adds one separator and the part. */
  lemma {:induction false} JoinSnoc(sep: string, ws: seq<string>, w: string)
    requires ws != []
    ensures Join(sep, ws + [w]) == Join(sep, ws) + sep + w
    decreases |ws|
  {
    if |ws| == 1 {
      assert (ws + [w])[1..] == [w];
    } else {
      assert (ws + [w])[1..] == ws[1..] + [w];
      JoinSnoc(sep, ws[1..], w);
    }
  }

  lemma SplitAround(t: string, n: nat)
    requires n < |t|
    ensures t == t[..n] + [t[n]] + t[n + 1..]
  {
  }

  /** A normalised string is a fixed point of ' '.join(s.split()). */
  lemma {:induction false} CollapseFixesNormalised(t: string)
    requires Normalised(t)
    ensures Collapse(t) == t
    decreases |t|
  {
    if t != [] {
      var n := WordLen(t);
      if n == |t| {
        assert t[..n] == t && t[n..] == [];
        assert Words(t) == [t];
      } else {
        assert t[n] == ' ' && n + 1 < |t| && !IsSpace(t[n + 1]);
        var rest := t[n + 1..];
        NormalisedSuffix(t, n + 1);
        CollapseFixesNormalised(rest);
        WordsSplitAtSpace(t, n);
        WordsEmptyIff(rest);
        assert !AllSpace(rest) by { assert !IsSpace(rest[0]); }
        JoinCons(" ", t[..n], Words(rest));
        SplitAround(t, n);
      }
    }
  }

  /** A single word is normalised. */
  lemma WordNormalised(w: string)
    requires GoodWord(w)
    ensures Normalised(w)
  {
    JoinSpaceNormalised([w]);
  }

  /** Three words separated by single spaces are normalised. */
  lemma ThreeWordsNormalised(a: string, b: string, c: string)
    requires GoodWord(a) && GoodWord(b) && GoodWord(c)
    ensures Normalised(a + " " + b + " " + c)
  {
    JoinSpaceNormalised([a, b, c]);
    JoinCons(" ", b, [c]);
    JoinCons(" ", a, [b, c]);
    assert [a] + [b, c] == [a, b, c];
    assert [b] + [c] == [b, c];
  }

  /** ' '.join(s.split()) is idempotent. */
  lemma CollapseIdempotent(s: string)
    ensures Collapse(Collapse(s)) == Collapse(s)
  {
    CollapseNormalised(s);
    CollapseFixesNormalised(Collapse(s));
  }

  // ---------------------------------------------------------------------
  // str.strip()
  // ---------------------------------------------------------------------

  function StripLeft(s: string): (r: string)
    ensures |r| <= |s|
    ensures r != [] ==> !IsSpace(r[0])
  {
    if s != [] && IsSpace(s[0]) then StripLeft(s[1..]) else s
  }

  /** StripLeft removes a whitespace prefix. */
  lemma {:induction false} StripLeftSpec(s: string)
    ensures StripLeft(s) == s[|s| - |StripLeft(s)|..]
    ensures forall i :: 0 <= i < |s| - |StripLeft(s)| ==> IsSpace(s[i])
    decreases |s|
  {
    if s != [] && IsSpace(s[0]) {
      StripLeftSpec(s[1..]);
      assert forall i :: 1 <= i < |s| ==> s[i] == s[1..][i - 1];
    }
  }

  function StripRight(s: string): (r: string)
    ensures |r| <= |s|
    ensures r != [] ==> !IsSpace(r[|r| - 1])
  {
    if s != [] && IsSpace(s[|s| - 1]) then StripRight(s[..|s| - 1]) else s
  }

  /** StripRight removes a whitespace suffix. */
  lemma {:induction false} StripRightSpec(s: string)
    ensures StripRight(s) == s[..|StripRight(s)|]
    ensures forall i :: |StripRight(s)| <= i < |s| ==> IsSpace(s[i])
    decreases |s|
  {
    if s != [] && IsSpace(s[|s| - 1]) {
      StripRightSpec(s[..|s| - 1]);
      assert forall i :: 0 <= i < |s| - 1 ==> s[i] == s[..|s| - 1][i];
    }
  }

  /** str.strip(): whitespace removed from both ends. */
  function Strip(s: string): (r: string)
    ensures |r| <= |s|
    ensures r != [] ==> !IsSpace(r[0]) && !IsSpace(r[|r| - 1])
  {
    StripRightSpec(StripLeft(s));
    StripRight(StripLeft(s))
  }

  /** Strip keeps a contiguous part of s and removes only whitespace. */
  lemma StripSubstring(s: string) returns (i: nat, j: nat)
    ensures i <= j <= |s| && Strip(s) == s[i..j]
    ensures AllSpace(s[..i]) && AllSpace(s[j..])
  {
    var l := StripLeft(s);
    var r := StripRight(l);
    StripLeftSpec(s);
    StripRightSpec(l);
    i, j := |s| - |l|, |s| - |l| + |r|;
    assert r == s[i..j];
    assert AllSpace(s[..i]) by {
      forall k | 0 <= k < i ensures IsSpace(s[..i][k]) { assert s[..i][k] == s[k]; }
    }
    var suffix := s[j..];
    assert AllSpace(suffix) by {
      forall k | 0 <= k < |suffix| ensures IsSpace(suffix[k]) {
        assert suffix[k] == l[|r| + k];
      }
    }
  }

  /** Every character Strip keeps comes from s. */
  lemma StripChars(s: string)
    ensures forall k :: 0 <= k < |Strip(s)| ==> Strip(s)[k] in s
  {
    var i, j := StripSubstring(s);
    assert forall k :: 0 <= k < |Strip(s)| ==> Strip(s)[k] == s[i + k];
  }

  lemma StripFixesNormalised(t: string)
    requires Normalised(t)
    ensures Strip(t) == t
  {
  }

  /** Strip returns the empty string exactly for all-whitespace input. */
  lemma StripEmptyIff(s: string)
    ensures Strip(s) == [] <==> AllSpace(s)
  {
    var i, j := StripSubstring(s);
    if Strip(s) == [] {
      forall k | 0 <= k < |s| ensures IsSpace(s[k]) {
        if k < i { assert s[k] == s[..i][k]; } else { assert s[k] == s[j..][k - j]; }
      }
    } else {
      assert s[i] == Strip(s)[0];
    }
  }

  /** ' '.join(s.split()).strip(): the strip has nothing left to remove. */
  lemma StripCollapse(s: string)
    ensures Strip(Collapse(s)) == Collapse(s)
  {
    CollapseNormalised(s);
    StripFixesNormalised(Collapse(s));
  }

  /** ' '.join(s.strip().split()) is normalised, and empty exactly when s
      is all whitespace. */
  lemma CollapseStrip(s: string)
    ensures Normalised(Collapse(Strip(s)))
    ensures Collapse(Strip(s)) == [] <==> AllSpace(s)
  {
    CollapseNormalised(Strip(s));
    StripEmptyIff(s);
    if Strip(s) != [] {
      assert !IsSpace(Strip(s)[0]);
    }
  }

  /** A substring of a substring of h is a substring of h. */
  lemma ContainsTrans(h: string, m: string, n: string)
    requires Contains(h, m) && Contains(m, n)
    ensures Contains(h, n)
  {
    var i: nat :| i <= |h| && OccursAt(h, m, i);
    var j: nat :| j <= |m| && OccursAt(m, n, j);
    forall q | 0 <= q < |n| ensures h[i + j + q] == n[q] {
      assert n[q] == m[j..j + |n|][q] == m[j + q];
      assert m[j + q] == h[i..i + |m|][j + q];
    }
    assert h[i + j..i + j + |n|] == n;
    assert OccursAt(h, n, i + j);
  }

  /** A substring of a suffix of h is a substring of h. */
  lemma ContainsInSuffix(h: string, k: nat, n: string)
    requires k <= |h| && Contains(h[k..], n)
    ensures Contains(h, n)
  {
    assert h[k..] == h[k..k + |h[k..]|];
    assert OccursAt(h, h[k..], k);
    ContainsTrans(h, h[k..], n);
  }

  /** Every word str.split() returns is a substring of its input. */
  lemma {:induction false} WordsInside(s: string)
    ensures forall k :: 0 <= k < |Words(s)| ==> Contains(s, Words(s)[k])
    decreases |s|
  {
    if s != [] {
      if IsSpace(s[0]) {
        WordsInside(s[1..]);
        forall k | 0 <= k < |Words(s)| ensures Contains(s, Words(s)[k]) {
          ContainsInSuffix(s, 1, Words(s)[k]);
        }
      } else {
        var n := WordLen(s);
        WordsInside(s[n..]);
        var ws := Words(s);
        assert ws == [s[..n]] + Words(s[n..]);
        forall k | 0 <= k < |ws| ensures Contains(s, ws[k]) {
          if k == 0 {
            assert OccursAt(s, s[..n], 0);
          } else {
            assert ws[k] == Words(s[n..])[k - 1];
            ContainsInSuffix(s, n, ws[k]);
          }
        }
      }
    }
  }

  /** A non-empty substring of a space-joined string that has no
      whitespace lies inside one of the parts. */
  lemma {:induction false} SpaceFreeInJoin(ws: seq<string>, t: string)
    requires |t| > 0 && forall i :: 0 <= i < |t| ==> !IsSpace(t[i])
    requires Contains(Join(" ", ws), t)
    ensures exists k :: 0 <= k < |ws| && Contains(ws[k], t)
    decreases |ws|
  {
    var j := Join(" ", ws);
    var p: nat :| p <= |j| && OccursAt(j, t, p);
    if |ws| == 1 {
      assert Contains(ws[0], t);
    } else {
      var w := ws[0];
      var r := Join(" ", ws[1..]);
      assert j == w + " " + r;
      forall k | p <= k < p + |t| ensures !IsSpace(j[k]) { assert j[k] == t[k - p]; }
      assert j[|w|] == ' ';
      if p + |t| <= |w| {
        assert w[p..p + |t|] == j[p..p + |t|];
        assert OccursAt(w, t, p);
      } else {
        assert p >= |w| + 1;
        assert r[p - |w| - 1..p - |w| - 1 + |t|] == j[p..p + |t|];
        assert OccursAt(r, t, p - |w| - 1);
        SpaceFreeInJoin(ws[1..], t);
        var k :| 0 <= k < |ws[1..]| && Contains(ws[1..][k], t);
        assert ws[k + 1] == ws[1..][k];
      }
    }
  }

  /** A non-empty substring without whitespace of ' '.join(s.strip().split())
      is a substring of s itself. */
  lemma SpaceFreeInCollapse(s: string, t: string)
    requires |t| > 0 && forall i :: 0 <= i < |t| ==> !IsSpace(t[i])
    requires Contains(Collapse(Strip(s)), t)
    ensures Contains(s, t)
  {
    var ws := Words(Strip(s));
    SpaceFreeInJoin(ws, t);
    var k :| 0 <= k < |ws| && Contains(ws[k], t);
    WordsInside(Strip(s));
    ContainsTrans(Strip(s), ws[k], t);
    var i, j := StripSubstring(s);
    assert s[i..j] == s[i..i + |Strip(s)|];
    assert OccursAt(s, Strip(s), i);
    ContainsTrans(s, Strip(s), t);
  }

  // ---------------------------------------------------------------------
  // re.sub(r'[^...]', '', s): deleting every character outside a class
  // ---------------------------------------------------------------------

  /** Keep the characters of s that satisfy keep, in order. */
  function Filter(s: string, keep: char -> bool): (r: string)
    ensures |r| <= |s|
  {
    if s == [] then [] else (if keep(s[0]) then [s[0]] else []) + Filter(s[1..], keep)
  }

  /** Filter keeps only wanted characters, and all of them when every
      character is wanted. */
  lemma {:induction false} FilterSpec(s: string, keep: char -> bool)
    ensures forall i :: 0 <= i < |Filter(s, keep)| ==> keep(Filter(s, keep)[i])
    ensures (forall i :: 0 <= i < |s| ==> keep(s[i])) ==> Filter(s, keep) == s
    decreases |s|
  {
    if s != [] {
      FilterSpec(s[1..], keep);
      if keep(s[0]) {
        assert forall i :: 1 <= i < |Filter(s, keep)| ==> Filter(s, keep)[i] == Filter(s[1..], keep)[i - 1];
      }
    }
  }

  /** A single character is kept exactly when it is wanted. */
  lemma FilterChar(c: char, keep: char -> bool)
    ensures Filter([c], keep) == if keep(c) then [c] else []
  {
    assert [c][1..] == [];
  }

  /** Filtering a concatenation filters each part in turn: every wanted
      character survives, in order. */
  lemma {:induction false} FilterAppend(a: string, b: string, keep: char -> bool)
    ensures Filter(a + b, keep) == Filter(a, keep) + Filter(b, keep)
    decreases |a|
  {
    if a == [] {
      assert a + b == b;
    } else {
      var h := if keep(a[0]) then [a[0]] else [];
      assert (a + b)[0] == a[0] && (a + b)[1..] == a[1..] + b;
      assert Filter(a + b, keep) == h + Filter(a[1..] + b, keep);
      FilterAppend(a[1..], b, keep);
      assert Filter(a, keep) == h + Filter(a[1..], keep);
    }
  }

  predicate NotSpace(c: char) {
    !IsSpace(c)
  }

  /** The parts, concatenated. */
  function Concat(ws: seq<string>): string
    decreases |ws|
  {
    if ws == [] then "" else ws[0] + Concat(ws[1..])
  }

  /** The non-whitespace characters of s are those of its words, in order. */
  lemma {:induction false} WordsKeepChars(s: string)
    ensures Filter(s, NotSpace) == Concat(Words(s))
    decreases |s|
  {
    if s != [] {
      if IsSpace(s[0]) {
        WordsKeepChars(s[1..]);
      } else {
        var n := WordLen(s);
        assert s == s[..n] + s[n..];
        FilterAppend(s[..n], s[n..], NotSpace);
        FilterSpec(s[..n], NotSpace);
        WordsKeepChars(s[n..]);
        assert ([s[..n]] + Words(s[n..]))[1..] == Words(s[n..]);
      }
    }
  }

  /** Joining whitespace-free words with spaces adds only whitespace. */
  lemma {:induction false} JoinKeepsChars(ws: seq<string>)
    requires GoodWords(ws)
    ensures Filter(Join(" ", ws), NotSpace) == Concat(ws)
    decreases |ws|
  {
    if |ws| == 1 {
      FilterSpec(ws[0], NotSpace);
      assert Concat(ws[1..]) == "";
    } else if |ws| > 1 {
      assert GoodWords(ws[1..]) by {
        forall k | 0 <= k < |ws[1..]| ensures GoodWord(ws[1..][k]) { assert ws[1..][k] == ws[k + 1]; }
      }
      JoinKeepsChars(ws[1..]);
      FilterSpec(ws[0], NotSpace);
      FilterAppend(ws[0] + " ", Join(" ", ws[1..]), NotSpace);
      FilterAppend(ws[0], " ", NotSpace);
      FilterChar(' ', NotSpace);
    }
  }

  /** ' '.join(s.split()) loses no character but whitespace, and keeps the
      others in order. */
  lemma CollapseKeepsChars(s: string)
    ensures Filter(Collapse(s), NotSpace) == Filter(s, NotSpace)
  {
    WordsAreGood(s);
    JoinKeepsChars(Words(s));
    WordsKeepChars(s);
  }

  // ---------------------------------------------------------------------
  // Decimal rendering of naturals (f-strings, strftime)
  // ---------------------------------------------------------------------

  function DigitChar(d: nat): (c: char)
    requires d < 10
    ensures '0' <= c <= '9'
  {
    ('0' as int + d) as char
  }

  function DigitValue(c: char): nat
    requires '0' <= c <= '9'
  {
    c as int - '0' as int
  }

  /** The decimal digits of n without leading zeros, as str(n) prints them. */
  function NatToString(n: nat): (s: string)
    ensures |s| > 0 && forall i :: 0 <= i < |s| ==> '0' <= s[i] <= '9'
    ensures |s| > 1 ==> s[0] != '0'
  {
    if n < 10 then [DigitChar(n)] else NatToString(n / 10) + [DigitChar(n % 10)]
  }

  /** The value of a string of ASCII digits. */
  function DecimalValue(s: string): nat
    requires forall i :: 0 <= i < |s| ==> '0' <= s[i] <= '9'
  {
    if s == [] then 0 else 10 * DecimalValue(s[..|s| - 1]) + DigitValue(s[|s| - 1])
  }

  /** The value of two or four rendered digits. */
  lemma DecimalValue2(c0: char, c1: char)
    requires '0' <= c0 <= '9' && '0' <= c1 <= '9'
    ensures DecimalValue([c0, c1]) == 10 * DigitValue(c0) + DigitValue(c1)
  {
    assert [c0, c1][..1] == [c0];
    assert [c0][..0] == [];
    assert DecimalValue([c0]) == DigitValue(c0);
  }

  lemma DecimalValue4(c0: char, c1: char, c2: char, c3: char)
    requires '0' <= c0 <= '9' && '0' <= c1 <= '9' && '0' <= c2 <= '9' && '0' <= c3 <= '9'
    ensures DecimalValue([c0, c1, c2, c3]) ==
              1000 * DigitValue(c0) + 100 * DigitValue(c1) + 10 * DigitValue(c2) + DigitValue(c3)
  {
    assert [c0, c1, c2, c3][..3] == [c0, c1, c2];
    assert [c0, c1, c2][..2] == [c0, c1];
    DecimalValue2(c0, c1);
  }

  /** Reading back the printed digits gives the number. */
  lemma {:induction false} NatToStringRoundTrip(n: nat)
    ensures DecimalValue(NatToString(n)) == n
  {
    if n >= 10 {
      NatToStringRoundTrip(n / 10);
      var s := NatToString(n);
      assert s[..|s| - 1] == NatToString(n / 10);
    }
  }
}

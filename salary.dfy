/**
 * The salary search of the cleaning pipeline:
 *   re.search(r'(\d+)\s*[-à]\s*(\d+)\s*(?:TND|DT|dinars?)', text, re.IGNORECASE)
 * written as a leftmost scan, next to a declarative description of what a
 * match is, with lemmas tying the two together.
 */
module SalaryPattern {
  import opened Text
  import opened Items

  /** The class [-à] under re.IGNORECASE: '-', 'à' or 'À'. */
  predicate IsRangeSep(c: char) {
    c == '-' || Lower(c) == 'à'
  }

  predicate EqualsIgnoreCase(t: string, w: string) {
    |t| == |w| && forall k :: 0 <= k < |t| ==> Lower(t[k]) == Lower(w[k])
  }

  /** t is matched in full by (?:TND|DT|dinars?) ignoring case. */
  predicate IsUnit(t: string) {
    EqualsIgnoreCase(t, "TND") || EqualsIgnoreCase(t, "DT")
    || EqualsIgnoreCase(t, "dinar") || EqualsIgnoreCase(t, "dinars")
  }

  /** The positions of one match starting at i: digits s[i..a], spaces
      s[a..b], the separator s[b], spaces s[b+1..c], digits s[c..d], spaces
      s[d..e] and the currency unit s[e..f]. */
  predicate IsMatch(s: string, i: nat, a: nat, b: nat, c: nat, d: nat, e: nat, f: nat) {
    i < a <= b < |s| && b < c < d <= e <= f <= |s|
    && AllDigits(s[i..a]) && AllSpace(s[a..b]) && IsRangeSep(s[b])
    && AllSpace(s[b + 1..c]) && AllDigits(s[c..d]) && AllSpace(s[d..e])
    && IsUnit(s[e..f])
  }

  /** Some match of the pattern starts at i. */
  ghost predicate MatchesAt(s: string, i: nat) {
    exists a, b, c, d, e, f :: IsMatch(s, i, a, b, c, d, e, f)
  }

  /** The positions the regex engine reports for a match. */
  datatype Span = Span(a: nat, b: nat, c: nat, d: nat, e: nat, f: nat)

  /** End of the maximal run of \d from i. */
  function DigitRun(s: string, i: nat): (j: nat)
    requires i <= |s|
    ensures i <= j <= |s|
    decreases |s| - i
  {
    if i < |s| && IsDigit(s[i]) then DigitRun(s, i + 1) else i
  }

  /** DigitRun ends a maximal run of digits. */
  lemma {:induction false} DigitRunSpec(s: string, i: nat)
    requires i <= |s|
    ensures var j := DigitRun(s, i); AllDigits(s[i..j]) && (j < |s| ==> !IsDigit(s[j]))
    decreases |s| - i
  {
    if i < |s| && IsDigit(s[i]) {
      var j := DigitRun(s, i + 1);
      DigitRunSpec(s, i + 1);
      assert s[i..j] == [s[i]] + s[i + 1..j];
    }
  }

  /** End of the maximal run of \s from i. */
  function SpaceRun(s: string, i: nat): (j: nat)
    requires i <= |s|
    ensures i <= j <= |s|
    decreases |s| - i
  {
    if i < |s| && IsSpace(s[i]) then SpaceRun(s, i + 1) else i
  }

  /** SpaceRun ends a maximal run of whitespace. */
  lemma {:induction false} SpaceRunSpec(s: string, i: nat)
    requires i <= |s|
    ensures var j := SpaceRun(s, i); AllSpace(s[i..j]) && (j < |s| ==> !IsSpace(s[j]))
    decreases |s| - i
  {
    if i < |s| && IsSpace(s[i]) {
      var j := SpaceRun(s, i + 1);
      SpaceRunSpec(s, i + 1);
      assert s[i..j] == [s[i]] + s[i + 1..j];
    }
  }


  predicate WordAt(s: string, e: nat, w: string) {
    e + |w| <= |s| && EqualsIgnoreCase(s[e..e + |w|], w)
  }

  /** The alternation TND | DT | dinars?, tried in that order; the greedy
      s? tries "dinars" before "dinar". The end of the unit, if any. */
  function UnitAt(s: string, e: nat): Option<nat>
    requires e <= |s|
  {
    if WordAt(s, e, "TND") then Some(e + 3)
    else if WordAt(s, e, "DT") then Some(e + 2)
    else if WordAt(s, e, "dinars") then Some(e + 6)
    else if WordAt(s, e, "dinar") then Some(e + 5)
    else None
  }

  /** The regex engine anchored at i. Every \d+ and \s* run is taken in full:
      giving a character back would leave a digit or a space where nothing
      that follows in the pattern can match, so backtracking never succeeds
      with a shorter run. */
  function MatchAt(s: string, i: nat): (r: Option<Span>)
    requires i <= |s|
    ensures r.Some? ==> i < r.value.a <= r.value.b < r.value.c < r.value.d <= |s|
  {
    var a := DigitRun(s, i);
    if a == i then None
    else
      var b := SpaceRun(s, a);
      if b == |s| || !IsRangeSep(s[b]) then None
      else
        var c := SpaceRun(s, b + 1);
        var d := DigitRun(s, c);
        if d == c then None
        else
          var e := SpaceRun(s, d);
          match UnitAt(s, e)
          case None => None
          case Some(f) => Some(Span(a, b, c, d, e, f))
  }

  /** re.search from position i: the first start at which MatchAt succeeds. */
  function SearchFrom(s: string, i: nat): (r: Option<(nat, Span)>)
    requires i <= |s|
    ensures r.Some? ==> i <= r.value.0 < r.value.1.a <= r.value.1.c <= r.value.1.d <= |s|
    decreases |s| - i
  {
    match MatchAt(s, i)
    case Some(p) => Some((i, p))
    case None => if i == |s| then None else SearchFrom(s, i + 1)
  }

  function Search(s: string): (r: Option<(nat, Span)>)
    ensures r.Some? ==> r.value.0 < r.value.1.a <= r.value.1.c <= r.value.1.d <= |s|
  {
    SearchFrom(s, 0)
  }

  /** f"{match.group(1)}-{match.group(2)} TND" for the leftmost match. */
  function ExtractSalary(s: string): Option<string> {
    match Search(s)
    case None => None
    case Some((i, p)) => Some(s[i..p.a] + "-" + s[p.c..p.d] + " TND")
  }

  // ---------------------------------------------------------------------
  // The scan agrees with the declarative description
  // ---------------------------------------------------------------------

  lemma UnitAtSound(s: string, e: nat)
    requires e <= |s| && UnitAt(s, e).Some?
    ensures e < UnitAt(s, e).value <= |s| && IsUnit(s[e..UnitAt(s, e).value])
  {
  }

  lemma UnitStartsWithLetter(t: string)
    requires IsUnit(t)
    ensures |t| > 0 && (Lower(t[0]) == 't' || Lower(t[0]) == 'd')
    ensures !IsSpace(t[0]) && !IsDigit(t[0])
  {
    if EqualsIgnoreCase(t, "TND") {
      assert Lower(t[0]) == Lower("TND"[0]);
    } else if EqualsIgnoreCase(t, "DT") {
      assert Lower(t[0]) == Lower("DT"[0]);
    } else if EqualsIgnoreCase(t, "dinar") {
      assert Lower(t[0]) == Lower("dinar"[0]);
    } else {
      assert Lower(t[0]) == Lower("dinars"[0]);
    }
  }

  lemma UnitAtComplete(s: string, e: nat, f: nat)
    requires e <= f <= |s| && IsUnit(s[e..f])
    ensures UnitAt(s, e).Some?
  {
    assert s[e..f] == s[e..e + (f - e)];
  }

  lemma DigitRunMaximal(s: string, i: nat, a: nat)
    requires i <= a <= |s| && AllDigits(s[i..a]) && (a < |s| ==> !IsDigit(s[a]))
    ensures DigitRun(s, i) == a
    decreases a - i
  {
    if i < a {
      assert s[i] == s[i..a][0];
      assert s[i + 1..a] == s[i..a][1..];
      DigitRunMaximal(s, i + 1, a);
    }
  }

  lemma SpaceRunMaximal(s: string, i: nat, a: nat)
    requires i <= a <= |s| && AllSpace(s[i..a]) && (a < |s| ==> !IsSpace(s[a]))
    ensures SpaceRun(s, i) == a
    decreases a - i
  {
    if i < a {
      assert s[i] == s[i..a][0];
      assert s[i + 1..a] == s[i..a][1..];
      SpaceRunMaximal(s, i + 1, a);
    }
  }

  /** What MatchAt returns is a match. */
  lemma MatchAtSound(s: string, i: nat)
    requires i <= |s| && MatchAt(s, i).Some?
    ensures var p := MatchAt(s, i).value; IsMatch(s, i, p.a, p.b, p.c, p.d, p.e, p.f)
  {
    var p := MatchAt(s, i).value;
    DigitRunSpec(s, i);
    SpaceRunSpec(s, p.a);
    SpaceRunSpec(s, p.b + 1);
    DigitRunSpec(s, p.c);
    SpaceRunSpec(s, p.d);
    UnitAtSound(s, p.e);
  }

  lemma RangeSepIsNotSpace(c: char)
    requires IsRangeSep(c)
    ensures !IsSpace(c) && !IsDigit(c)
  {
  }

  /** In a match, the first digit group and the spaces after it are
      maximal runs. */
  lemma FrontRunsOfMatch(s: string, i: nat, a: nat, b: nat, c: nat, d: nat, e: nat, f: nat)
    requires IsMatch(s, i, a, b, c, d, e, f)
    ensures DigitRun(s, i) == a && SpaceRun(s, a) == b
  {
    RangeSepIsNotSpace(s[b]);
    if a < b {
      assert s[a] == s[a..b][0];
    }
    DigitRunMaximal(s, i, a);
    SpaceRunMaximal(s, a, b);
  }

  /** In a match, the spaces after the separator, the second digit group
      and the spaces before the unit are maximal runs. */
  lemma BackRunsOfMatch(s: string, i: nat, a: nat, b: nat, c: nat, d: nat, e: nat, f: nat)
    requires IsMatch(s, i, a, b, c, d, e, f)
    ensures SpaceRun(s, b + 1) == c && DigitRun(s, c) == d && SpaceRun(s, d) == e
  {
    UnitStartsWithLetter(s[e..f]);
    assert s[e..f][0] == s[e];
    assert s[c] == s[c..d][0];
    SpaceRunMaximal(s, b + 1, c);
    if d < e {
      assert s[d] == s[d..e][0];
    }
    DigitRunMaximal(s, c, d);
    SpaceRunMaximal(s, d, e);
  }

  /** MatchAt succeeds when its runs have the lengths the pattern needs. */
  lemma MatchAtOfRuns(s: string, i: nat, a: nat, b: nat, c: nat, d: nat, e: nat)
    requires i <= |s| && i < a == DigitRun(s, i) && b == SpaceRun(s, a) && b < |s| && IsRangeSep(s[b])
    requires c == SpaceRun(s, b + 1) && c < d == DigitRun(s, c) && e == SpaceRun(s, d)
    requires UnitAt(s, e).Some?
    ensures MatchAt(s, i) == Some(Span(a, b, c, d, e, UnitAt(s, e).value))
  {
  }

  /** Every match starting at i is found by MatchAt, with the same digit
      groups and the same separator position. */
  lemma MatchAtComplete(s: string, i: nat, a: nat, b: nat, c: nat, d: nat, e: nat, f: nat)
    requires IsMatch(s, i, a, b, c, d, e, f)
    ensures MatchAt(s, i).Some?
    ensures var p := MatchAt(s, i).value; p.a == a && p.b == b && p.c == c && p.d == d && p.e == e
  {
    assert DigitRun(s, i) == a && SpaceRun(s, a) == b by {
      FrontRunsOfMatch(s, i, a, b, c, d, e, f);
    }
    assert SpaceRun(s, b + 1) == c && DigitRun(s, c) == d && SpaceRun(s, d) == e by {
      BackRunsOfMatch(s, i, a, b, c, d, e, f);
    }
    assert UnitAt(s, e).Some? by {
      UnitAtComplete(s, e, f);
    }
    assert IsRangeSep(s[b]) && i < a && c < d;
    MatchAtOfRuns(s, i, a, b, c, d, e);
  }

  lemma MatchAtNoneIff(s: string, i: nat)
    requires i <= |s|
    ensures MatchAt(s, i).None? <==> !MatchesAt(s, i)
  {
    if MatchAt(s, i).Some? {
      var p := MatchAt(s, i).value;
      MatchAtSound(s, i);
      assert IsMatch(s, i, p.a, p.b, p.c, p.d, p.e, p.f);
    } else if MatchesAt(s, i) {
      var a, b, c, d, e, f :| IsMatch(s, i, a, b, c, d, e, f);
      MatchAtComplete(s, i, a, b, c, d, e, f);
    }
  }

  /** MatchAt fails at every start from i up to, not including, k. */
  predicate NoMatchBetween(s: string, i: nat, k: nat)
    requires k <= |s| + 1
    decreases k - i
  {
    i >= k || (i <= |s| && MatchAt(s, i).None? && NoMatchBetween(s, i + 1, k))
  }

  lemma {:induction false} NoMatchBetweenAt(s: string, i: nat, k: nat, k': nat)
    requires k <= |s| + 1 && NoMatchBetween(s, i, k) && i <= k' < k
    ensures MatchAt(s, k').None?
    decreases k - i
  {
    if i < k' { NoMatchBetweenAt(s, i + 1, k, k'); }
  }

  /** The scan stops at the first position where MatchAt succeeds. */
  lemma {:induction false} SearchFromSpec(s: string, i: nat)
    requires i <= |s|
    ensures match SearchFrom(s, i)
            case Some((k, p)) => i <= k <= |s| && MatchAt(s, k) == Some(p) && NoMatchBetween(s, i, k)
            case None => NoMatchBetween(s, i, |s| + 1)
    decreases |s| - i
  {
    if MatchAt(s, i).None? && i < |s| {
      SearchFromSpec(s, i + 1);
    }
  }

  /** A match never starts beyond the end of the text. */
  lemma NoMatchPastEnd(s: string, k: nat)
    requires k > |s|
    ensures !MatchesAt(s, k)
  {
  }

  /** The salary written by the pipeline: Some exactly when the text holds a
      match, and then the two digit groups of the leftmost match joined by
      '-' and followed by " TND". */
  lemma ExtractSalarySpec(s: string)
    ensures ExtractSalary(s).None? <==> forall k: nat :: !MatchesAt(s, k)
    ensures ExtractSalary(s).Some? ==>
              var (i, p) := Search(s).value;
              IsMatch(s, i, p.a, p.b, p.c, p.d, p.e, p.f)
              && ExtractSalary(s).value == s[i..p.a] + "-" + s[p.c..p.d] + " TND"
              && forall k :: 0 <= k < i ==> !MatchesAt(s, k)
  {
    SearchFromSpec(s, 0);
    match Search(s)
    case Some((i, p)) =>
      MatchAtSound(s, i);
      assert MatchesAt(s, i);
      forall k | 0 <= k < i ensures !MatchesAt(s, k) {
        NoMatchBetweenAt(s, 0, i, k);
        MatchAtNoneIff(s, k);
      }
    case None =>
      forall k: nat ensures !MatchesAt(s, k) {
        if k > |s| {
          NoMatchPastEnd(s, k);
        } else {
          NoMatchBetweenAt(s, 0, |s| + 1, k);
          MatchAtNoneIff(s, k);
        }
      }
  }

  /** The extracted salary is "<digits>-<digits> TND". */
  lemma ExtractSalaryShape(s: string)
    requires ExtractSalary(s).Some?
    ensures exists g1, g2 :: |g1| > 0 && |g2| > 0 && AllDigits(g1) && AllDigits(g2)
                             && ExtractSalary(s).value == g1 + "-" + g2 + " TND"
  {
    ExtractSalarySpec(s);
    var (i, p) := Search(s).value;
    var g1, g2 := s[i..p.a], s[p.c..p.d];
    assert |g1| > 0 && |g2| > 0 && AllDigits(g1) && AllDigits(g2);
  }
}

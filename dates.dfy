/**
 * Dates as the scrapers see them: today's date rendered with
 * strftime('%d/%m/%Y'), and the search for the pattern
 * \d{1,2}/\d{1,2}/\d{4} that the Tanitjobs spider runs over a posting date.
 */
module Dates {
  import opened Text
  import opened Items

  type Day = d: int | 1 <= d <= 31 witness 1
  type Month = m: int | 1 <= m <= 12 witness 1
  /** Years that %Y renders with exactly four digits. */
  type Year = y: int | 1000 <= y <= 9999 witness 2000

  /** The value of datetime.now() that the model takes as a parameter. */
  datatype Date = Date(day: Day, month: Month, year: Year)

  predicate Ascii(s: string) {
    forall i :: 0 <= i < |s| ==> '0' <= s[i] <= '9'
  }

  /** n zero-padded to two digits. */
  function Pad2(n: nat): (s: string)
    requires n < 100
    ensures |s| == 2 && AllDigits(s) && Ascii(s) && DecimalValue(s) == n
  {
    var s := [DigitChar(n / 10), DigitChar(n % 10)];
    DecimalValue2(s[0], s[1]);
    s
  }

  /** n zero-padded to four digits. */
  function Pad4(n: nat): (s: string)
    requires n < 10000
    ensures |s| == 4 && AllDigits(s) && Ascii(s) && DecimalValue(s) == n
  {
    var s := [DigitChar(n / 1000), DigitChar(n / 100 % 10), DigitChar(n / 10 % 10), DigitChar(n % 10)];
    DecimalValue4(s[0], s[1], s[2], s[3]);
    FourDigits(n);
    s
  }

  /** The four decimal digits of n add up to n. */
  lemma FourDigits(n: nat)
    requires n < 10000
    ensures 1000 * (n / 1000) + 100 * (n / 100 % 10) + 10 * (n / 10 % 10) + n % 10 == n
  {
    var q := n / 10;
    assert n == 10 * q + n % 10;
    assert n / 100 == q / 10 && n / 1000 == q / 100;
    assert q == 100 * (q / 100) + 10 * (q / 10 % 10) + q % 10;
  }

  /** date.strftime('%d/%m/%Y'): day, month and year in that order, as two,
      two and four decimal digits separated by '/'. */
  function Strftime(d: Date): (s: string)
    ensures |s| == 10 && s[2] == '/' && s[5] == '/'
    ensures AllDigits(s[..2]) && AllDigits(s[3..5]) && AllDigits(s[6..])
    ensures Ascii(s[..2]) && Ascii(s[3..5]) && Ascii(s[6..])
    ensures DecimalValue(s[..2]) == d.day && DecimalValue(s[3..5]) == d.month && DecimalValue(s[6..]) == d.year
  {
    var s := Pad2(d.day) + "/" + Pad2(d.month) + "/" + Pad4(d.year);
    assert s[..2] == Pad2(d.day) && s[3..5] == Pad2(d.month) && s[6..] == Pad4(d.year);
    s
  }

  // ---------------------------------------------------------------------
  // The pattern \d{1,2}/\d{1,2}/\d{4}
  // ---------------------------------------------------------------------

  /** t is a digits, '/', b digits, '/', four digits. */
  predicate DateShape(t: string, a: nat, b: nat) {
    |t| == a + b + 6
    && AllDigits(t[..a]) && t[a] == '/'
    && AllDigits(t[a + 1..a + 1 + b]) && t[a + 1 + b] == '/'
    && AllDigits(t[a + b + 2..])
  }

  /** t is matched in full by \d{1,2}/\d{1,2}/\d{4}. */
  predicate IsDate(t: string) {
    DateShape(t, 1, 1) || DateShape(t, 1, 2) || DateShape(t, 2, 1) || DateShape(t, 2, 2)
  }

  predicate Fits(s: string, i: nat, a: nat, b: nat) {
    i + a + b + 6 <= |s| && DateShape(s[i..i + a + b + 6], a, b)
  }

  /** The regex engine anchored at i: the greedy \d{1,2} groups try two
      digits before one, and \d{4} is fixed; the end of the match, if any. */
  function MatchAt(s: string, i: nat): Option<nat>
    requires i <= |s|
  {
    if Fits(s, i, 2, 2) then Some(i + 10)
    else if Fits(s, i, 2, 1) then Some(i + 9)
    else if Fits(s, i, 1, 2) then Some(i + 9)
    else if Fits(s, i, 1, 1) then Some(i + 8)
    else None
  }

  /** re.search from position i onwards: the first start with a match. */
  function SearchFrom(s: string, i: nat): Option<(nat, nat)>
    requires i <= |s|
    decreases |s| - i
  {
    match MatchAt(s, i)
    case Some(j) => Some((i, j))
    case None => if i == |s| then None else SearchFrom(s, i + 1)
  }

  /** re.search(r'\d{1,2}/\d{1,2}/\d{4}', s): start and end of the match. */
  function SearchDate(s: string): Option<(nat, nat)> {
    SearchFrom(s, 0)
  }

  /** The two digit groups of a date are delimited by its slashes, so at
      most one date starts at a given position. */
  lemma DateShapeUnique(t: string, u: string, a: nat, b: nat, a': nat, b': nat)
    requires 1 <= a <= 2 && 1 <= b <= 2 && 1 <= a' <= 2 && 1 <= b' <= 2
    requires DateShape(t, a, b) && DateShape(u, a', b')
    requires |t| <= |u| && t == u[..|t|]
    ensures a == a' && b == b' && t == u
  {
  }

  lemma MatchAtSound(s: string, i: nat)
    requires i <= |s| && MatchAt(s, i).Some?
    ensures i <= MatchAt(s, i).value <= |s| && IsDate(s[i..MatchAt(s, i).value])
  {
  }

  lemma MatchAtComplete(s: string, i: nat, j: nat)
    requires i <= j <= |s| && IsDate(s[i..j])
    ensures MatchAt(s, i) == Some(j)
  {
    var t := s[i..j];
    var a: nat, b: nat :| 1 <= a <= 2 && 1 <= b <= 2 && DateShape(t, a, b);
    assert DateShape(t, a, b);
    forall a', b' | 1 <= a' <= 2 && 1 <= b' <= 2 && Fits(s, i, a', b')
      ensures a' == a && b' == b
    {
      var u := s[i..i + a' + b' + 6];
      if |t| <= |u| {
        assert t == u[..|t|];
        DateShapeUnique(t, u, a, b, a', b');
      } else {
        assert u == t[..|u|];
        DateShapeUnique(u, t, a', b', a, b);
      }
    }
    assert j == i + a + b + 6 && s[i..i + a + b + 6] == t;
    assert Fits(s, i, a, b);
  }

  lemma {:induction false} SearchFromSpec(s: string, i: nat)
    requires i <= |s|
    ensures SearchFrom(s, i).Some? ==>
              var (k, j) := SearchFrom(s, i).value;
              i <= k <= j <= |s| && IsDate(s[k..j])
              && forall k', l :: i <= k' < k && k' <= l <= |s| ==> !IsDate(s[k'..l])
    ensures SearchFrom(s, i).None? ==>
              forall k', l :: i <= k' <= l <= |s| ==> !IsDate(s[k'..l])
    decreases |s| - i
  {
    match MatchAt(s, i)
    case Some(j) =>
      MatchAtSound(s, i);
    case None =>
      forall l | i <= l <= |s| ensures !IsDate(s[i..l]) {
        if IsDate(s[i..l]) { MatchAtComplete(s, i, l); }
      }
      if i < |s| {
        SearchFromSpec(s, i + 1);
      }
  }

  /** re.search finds the leftmost substring of the date form, and finds
      nothing exactly when no substring has that form. */
  lemma SearchDateSpec(s: string)
    ensures SearchDate(s).Some? ==>
              var (i, j) := SearchDate(s).value;
              i <= j <= |s| && IsDate(s[i..j])
              && forall k, l :: 0 <= k < i && k <= l <= |s| ==> !IsDate(s[k..l])
    ensures SearchDate(s).None? <==> forall k, l :: 0 <= k <= l <= |s| ==> !IsDate(s[k..l])
  {
    SearchFromSpec(s, 0);
  }

  /** A matched date is a single non-empty run of digits and slashes. */
  lemma DateIsNormalised(t: string)
    requires IsDate(t)
    ensures t != [] && Normalised(t)
    ensures forall i :: 0 <= i < |t| ==> IsDigit(t[i]) || t[i] == '/'
  {
    var a: nat, b: nat :| 1 <= a <= 2 && 1 <= b <= 2 && DateShape(t, a, b);
    assert DateShape(t, a, b);
    forall i | 0 <= i < |t| ensures IsDigit(t[i]) || t[i] == '/' {
      if i < a { assert t[..a][i] == t[i]; }
      else if a < i < a + 1 + b { assert t[a + 1..a + 1 + b][i - a - 1] == t[i]; }
      else if i > a + 1 + b { assert t[a + b + 2..][i - a - b - 2] == t[i]; }
    }
  }

  /** Today's date as strftime renders it is itself of the searched form. */
  lemma StrftimeIsDate(d: Date)
    ensures IsDate(Strftime(d)) && SearchDate(Strftime(d)) == Some((0, 10))
  {
    var s := Strftime(d);
    assert s[..2] == s[..2] && s[2 + 1..2 + 1 + 2] == s[3..5] && s[2 + 2 + 2..] == s[6..];
    assert DateShape(s, 2, 2);
    assert s[0..10] == s;
    MatchAtComplete(s, 0, 10);
  }
}

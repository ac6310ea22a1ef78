/**
  The keystroke filter of the height and weight fields: a new field value is
  accepted when it matches the regular expression `/^\d*\.?\d*$/` (or is the
  empty string). In a JavaScript regular expression without the `u` flag `\d`
  is an ASCII digit, and `$` without the `m` flag matches only at the very end
  of the input, so the accepted language is: digits, at most one '.', digits.
 */
module Sanitizer {

  /** `\d`: one of the ASCII characters '0' .. '9'. */
  predicate IsDigit(c: char) {
    '0' <= c <= '9'
  }

  predicate AllDigits(s: string) {
    forall i :: 0 <= i < |s| ==> IsDigit(s[i])
  }

  /** Scanning after the '.' has been consumed: only `\d*` and the end may follow. */
  predicate ScanFraction(s: string) {
    s == [] || (IsDigit(s[0]) && ScanFraction(s[1..]))
  }

  /** Scanning before any '.': `\d*`, then either the end or `\.` followed by the fraction. */
  predicate ScanWhole(s: string) {
    || s == []
    || (IsDigit(s[0]) && ScanWhole(s[1..]))
    || (s[0] == '.' && ScanFraction(s[1..]))
  }

  /** `/^\d*\.?\d*$/.test(s)`, decided left to right as the pattern reads. */
  predicate Matches(s: string) {
    ScanWhole(s)
  }

  /** The full test of the keystroke handler: the pattern, or the empty string. */
  function Accepted(value: string): (ok: bool)
    ensures ok <==> Matches(value)
  {
    Matches(value) || value == ""
  }

  /** Index of the first '.' in `s`, or `|s|` when there is none. */
  function DotIndex(s: string): (k: nat)
    ensures k <= |s|
    ensures k < |s| ==> s[k] == '.'
    ensures forall i :: 0 <= i < k ==> s[i] != '.'
  {
    if s == [] then 0
    else if s[0] == '.' then 0
    else 1 + DotIndex(s[1..])
  }

  /** The characters of `s` are all digits or '.', and at most one of them is '.'. */
  predicate DigitsAndOneDot(s: string) {
    && (forall i :: 0 <= i < |s| ==> IsDigit(s[i]) || s[i] == '.')
    && multiset(s)['.'] <= 1
  }

  /** A string starting with `c` is all digits iff `c` is one and the rest are too. */
  lemma AllDigitsCons(c: char, t: string)
    ensures AllDigits([c] + t) <==> IsDigit(c) && AllDigits(t)
  {
    var s := [c] + t;
    if AllDigits(s) {
      assert IsDigit(s[0]);
      forall i | 0 <= i < |t| ensures IsDigit(t[i]) {
        assert t[i] == s[i + 1];
      }
    }
    if IsDigit(c) && AllDigits(t) {
      forall i | 0 <= i < |s| ensures IsDigit(s[i]) {
        if i > 0 { assert s[i] == t[i - 1]; }
      }
    }
  }

  lemma {:induction false} ScanFractionIsAllDigits(s: string)
    ensures ScanFraction(s) <==> AllDigits(s)
  {
    if s != [] {
      ScanFractionIsAllDigits(s[1..]);
      AllDigitsCons(s[0], s[1..]);
      assert s == [s[0]] + s[1..];
    }
  }

  /**
    The pattern splits at the first '.': everything before it is digits, and
    everything after it (when there is one) is digits too.
   */
  lemma {:induction false} MatchesSplitsAtDot(s: string)
    ensures Matches(s) <==>
      AllDigits(s[..DotIndex(s)]) && (DotIndex(s) < |s| ==> AllDigits(s[DotIndex(s) + 1..]))
  {
    if s == [] {
    } else if s[0] == '.' {
      ScanFractionIsAllDigits(s[1..]);
    } else {
      MatchesSplitsAtDot(s[1..]);
      var k := DotIndex(s[1..]);
      assert DotIndex(s) == k + 1;
      var whole, rest := s[..k + 1], s[1..][..k];
      assert whole == [s[0]] + rest;
      assert k < |s[1..]| ==> s[k + 2..] == s[1..][k + 1..];
      AllDigitsCons(s[0], rest);
    }
  }

  lemma DotCountOfAllDigits(s: string)
    requires AllDigits(s)
    ensures multiset(s)['.'] == 0
  {
    assert '.' !in s;
  }

  /**
    The accepted language, stated on characters: only digits and '.', with at
    most one '.'. So letters, '-', spaces and a second '.' are all refused.
   */
  lemma {:induction false} MatchesIffDigitsAndOneDot(s: string)
    ensures Matches(s) <==> DigitsAndOneDot(s)
  {
    if s != [] {
      var t := s[1..];
      assert s == [s[0]] + t;
      assert multiset(s) == multiset([s[0]]) + multiset(t);
      if IsDigit(s[0]) {
        MatchesIffDigitsAndOneDot(t);
        assert DigitsAndOneDot(s) <==> DigitsAndOneDot(t) by {
          if DigitsAndOneDot(t) {
            forall i | 0 <= i < |s| ensures IsDigit(s[i]) || s[i] == '.' {
              if i > 0 { assert t[i - 1] == s[i]; }
            }
          }
        }
      } else if s[0] == '.' {
        ScanFractionIsAllDigits(t);
        if AllDigits(t) {
          DotCountOfAllDigits(t);
        } else {
          var i :| 0 <= i < |t| && !IsDigit(t[i]);
          if t[i] == '.' {
            assert t[i] in multiset(t);
          } else {
            assert !(IsDigit(s[i + 1]) || s[i + 1] == '.');
          }
        }
      } else {
        assert !(IsDigit(s[0]) || s[0] == '.');
      }
    }
  }

  /** The pattern as written: `\d*`, an optional `\.`, `\d*`, anchored at both ends. */
  ghost predicate PatternShape(s: string) {
    exists k :: 0 <= k <= |s| && AllDigits(s[..k]) && (k == |s| || (s[k] == '.' && AllDigits(s[k + 1..])))
  }

  /** The left-to-right scan decides exactly the pattern's language. */
  lemma MatchesIffPatternShape(s: string)
    ensures Matches(s) <==> PatternShape(s)
  {
    MatchesSplitsAtDot(s);
    var d := DotIndex(s);
    if PatternShape(s) {
      var k :| 0 <= k <= |s| && AllDigits(s[..k]) && (k == |s| || (s[k] == '.' && AllDigits(s[k + 1..])));
      assert forall i :: 0 <= i < k ==> s[..k][i] == s[i];
      assert d == k;
    }
  }

  /** Accepted and refused samples of the keystroke filter. */
  lemma Samples()
    ensures Accepted("") && Accepted(".") && Accepted("75") && Accepted("75.")
    ensures Accepted(".5") && Accepted("75.5")
    ensures !Accepted("7a") && !Accepted("-5") && !Accepted(" 5") && !Accepted("1.2.3")
  {
  }
}

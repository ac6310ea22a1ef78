/**
  Decimal numerals as the calculator reads and prints them: `parseFloat` on
  the strings the keystroke filter lets through, and `toFixed(1)` on the
  one-decimal bounds of the classification table. Values are exact reals.
 */
module Decimal {
  import opened Wrappers
  import opened Sanitizer

  function Pow10(n: nat): (p: nat)
    ensures p >= 1
  {
    if n == 0 then 1 else 10 * Pow10(n - 1)
  }

  function DigitValue(c: char): (d: nat)
    requires IsDigit(c)
    ensures d < 10
  {
    (c as int) - ('0' as int)
  }

  function DigitChar(d: nat): (c: char)
    requires d < 10
    ensures IsDigit(c) && DigitValue(c) == d
  {
    (('0' as int) + d) as char
  }

  /** The value of a string of decimal digits, most significant first. */
  function DigitsValue(ds: string): (v: nat)
    requires AllDigits(ds)
    ensures v < Pow10(|ds|)
    ensures v == 0 <==> forall i :: 0 <= i < |ds| ==> ds[i] == '0'
  {
    if ds == [] then 0
    else
      var init := ds[..|ds| - 1];
      assert forall i :: 0 <= i < |init| ==> init[i] == ds[i];
      10 * DigitsValue(init) + DigitValue(ds[|ds| - 1])
  }

  predicate HasDigit(s: string) {
    exists i :: 0 <= i < |s| && IsDigit(s[i])
  }

  predicate HasNonZeroDigit(s: string) {
    exists i :: 0 <= i < |s| && '1' <= s[i] <= '9'
  }

  /** The digits before the first '.' of a sanitised string. */
  function WholePart(s: string): (w: string)
    requires Matches(s)
    ensures AllDigits(w)
  {
    MatchesSplitsAtDot(s);
    s[..DotIndex(s)]
  }

  /** The digits after the first '.' of a sanitised string (none when there is no '.'). */
  function FractionPart(s: string): (f: string)
    requires Matches(s)
    ensures AllDigits(f)
  {
    MatchesSplitsAtDot(s);
    var k := DotIndex(s);
    if k < |s| then s[k + 1..] else []
  }

  /**
    `parseFloat(s)` for a string that passed the keystroke filter: `None`
    (NaN) when there is no digit at all ("" and "."), otherwise the decimal
    value of the whole part plus the fraction part (".5" is 0.5, "75." is 75).
   */
  function ParseFloat(s: string): (r: Option<real>)
    requires Matches(s)
    ensures r.None? <==> !HasDigit(s)
    ensures r.Some? ==> r.value >= 0.0
  {
    var whole, frac := WholePart(s), FractionPart(s);
    SplitCoversDigits(s);
    if whole == [] && frac == [] then None
    else Some(DecimalValue(whole, frac))
  }

  /** The value of the numeral `whole.frac`. */
  function DecimalValue(whole: string, frac: string): (v: real)
    requires AllDigits(whole) && AllDigits(frac)
    ensures v >= 0.0
    ensures v > 0.0 <==> DigitsValue(whole) != 0 || DigitsValue(frac) != 0
  {
    var w, f, p := DigitsValue(whole) as real, DigitsValue(frac) as real, Pow10(|frac|) as real;
    assert f / p >= 0.0 && (f / p > 0.0 <==> f > 0.0) by {
      assert (f / p) * p == f;
    }
    w + f / p
  }

  /** A sanitised string is its whole part, then (when there is one) the '.', then its fraction part. */
  lemma SplitRebuilds(s: string)
    requires Matches(s)
    ensures DotIndex(s) < |s| ==> s == WholePart(s) + "." + FractionPart(s)
    ensures DotIndex(s) == |s| ==> s == WholePart(s) && FractionPart(s) == []
  {
    var k := DotIndex(s);
    if k < |s| {
      assert s == s[..k] + [s[k]] + s[k + 1..];
    }
  }

  /** The digits of a sanitised string are those of its whole and fraction parts. */
  lemma SplitCoversDigits(s: string)
    requires Matches(s)
    ensures HasDigit(s) <==> WholePart(s) != [] || FractionPart(s) != []
  {
    SplitRebuilds(s);
    var k := DotIndex(s);
    var whole, frac := WholePart(s), FractionPart(s);
    if HasDigit(s) {
      var i :| 0 <= i < |s| && IsDigit(s[i]);
      if i < k {
        assert whole[i] == s[i];
      } else {
        assert frac[i - k - 1] == s[i];
      }
    }
    if whole != [] {
      assert IsDigit(s[0]);
    } else if frac != [] {
      assert IsDigit(s[k + 1]);
    }
  }

  /** The non-zero digits of a sanitised string are those of its whole and fraction parts. */
  lemma SplitCoversNonZeroDigits(s: string)
    requires Matches(s)
    ensures HasNonZeroDigit(s) <==> HasNonZeroDigit(WholePart(s)) || HasNonZeroDigit(FractionPart(s))
  {
    SplitRebuilds(s);
    var k := DotIndex(s);
    var whole, frac := WholePart(s), FractionPart(s);
    if HasNonZeroDigit(s) {
      var i :| 0 <= i < |s| && '1' <= s[i] <= '9';
      if i < k {
        assert whole[i] == s[i];
      } else {
        assert frac[i - k - 1] == s[i];
      }
    }
    if HasNonZeroDigit(whole) {
      var i :| 0 <= i < |whole| && '1' <= whole[i] <= '9';
      assert s[i] == whole[i];
    }
    if HasNonZeroDigit(frac) {
      var i :| 0 <= i < |frac| && '1' <= frac[i] <= '9';
      assert s[k + 1 + i] == frac[i];
    }
  }

  /**
    A sanitised string parses to a strictly positive number exactly when it
    holds a digit other than '0': "0", "0.0", "00." and ".0" all give 0.
   */
  lemma ParsePositiveIff(s: string)
    requires Matches(s)
    ensures ParseFloat(s).Some? && ParseFloat(s).value > 0.0 <==> HasNonZeroDigit(s)
  {
    SplitCoversNonZeroDigits(s);
    var whole, frac := WholePart(s), FractionPart(s);
    assert HasNonZeroDigit(whole) <==> DigitsValue(whole) != 0 by {
      if DigitsValue(whole) != 0 {
        var i :| 0 <= i < |whole| && whole[i] != '0';
        assert IsDigit(whole[i]);
      }
    }
    assert HasNonZeroDigit(frac) <==> DigitsValue(frac) != 0 by {
      if DigitsValue(frac) != 0 {
        var i :| 0 <= i < |frac| && frac[i] != '0';
        assert IsDigit(frac[i]);
      }
    }
  }

  /**
    The shortest decimal numeral of `n`. For n below 10^21 this is what
    `Number.prototype.toString` writes; from 10^21 up JavaScript switches to
    exponent form ("1e+21"), and this function keeps writing plain digits.
   */
  function NatToString(n: nat): (s: string)
    ensures AllDigits(s) && |s| >= 1
    ensures |s| > 1 ==> s[0] != '0'
    ensures DigitsValue(s) == n
  {
    if n < 10 then [DigitChar(n)]
    else
      var init := NatToString(n / 10);
      var s := init + [DigitChar(n % 10)];
      assert s[..|s| - 1] == init;
      s
  }

  /** A non-empty string of digits passes the keystroke filter and reads as the whole number it spells. */
  lemma ParseDigits(s: string)
    requires AllDigits(s) && s != []
    ensures Matches(s) && ParseFloat(s) == Some(DigitsValue(s) as real)
  {
    assert forall i :: 0 <= i < |s| ==> s[i] != '.' by {
      forall i | 0 <= i < |s| ensures s[i] != '.' { assert IsDigit(s[i]); }
    }
    assert DotIndex(s) == |s|;
    assert s[..|s|] == s;
    MatchesSplitsAtDot(s);
  }

  /** A non-negative real with at most one digit after the decimal point. */
  predicate OneDecimal(x: real) {
    x >= 0.0 && (x * 10.0).Floor as real == x * 10.0
  }

  /**
    `x.toFixed(1)` for a non-negative real with at most one decimal: the whole
    part, a '.', and the tenths digit ("18.5", "25.0"). So the numeral ends in
    a '.' and exactly one digit, with at least one digit before the '.' and no
    leading zero unless the whole part is just "0". This
    matches JavaScript below 10^21; from there on `toFixed` falls back to
    exponent form ("1e+21"), which is not modelled.
   */
  function ToFixed1(x: real): (s: string)
    requires OneDecimal(x)
    ensures |s| >= 3 && s[|s| - 2] == '.' && IsDigit(s[|s| - 1])
    ensures AllDigits(s[..|s| - 2])
    ensures |s| > 3 ==> s[0] != '0'
  {
    var n := (x * 10.0).Floor;
    var whole := NatToString(n / 10);
    var s := whole + "." + [DigitChar(n % 10)];
    assert s[..|s| - 2] == whole;
    assert s[0] == whole[0];
    s
  }

  /** The numeral `ToFixed1` writes passes the keystroke filter, and `parseFloat` reads it back as `x`. */
  lemma ToFixed1RoundTrip(x: real)
    requires OneDecimal(x)
    ensures Matches(ToFixed1(x)) && ParseFloat(ToFixed1(x)) == Some(x)
  {
    var n := (x * 10.0).Floor;
    ToFixed1ReadsBack(ToFixed1(x), NatToString(n / 10), n);
  }

  /** The numeral `ToFixed1` writes for `n` tenths. */
  lemma ToFixed1OfTenths(x: real, n: nat)
    requires x == n as real / 10.0
    ensures OneDecimal(x)
    ensures ToFixed1(x) == NatToString(n / 10) + "." + [DigitChar(n % 10)]
  {
    TenthsFloor(x, n);
  }

  lemma TenthsFloor(x: real, n: nat)
    requires x == n as real / 10.0
    ensures OneDecimal(x) && (x * 10.0).Floor == n
  {
    calc {
      x * 10.0;
      (n as real / 10.0) * 10.0;
      n as real;
    }
    assert (n as real).Floor == n;
  }

  /** `toFixed(1)` of a value from 10.0 to 99.9: two digits, a '.', the tenths digit. */
  lemma ToFixed1TwoDigits(x: real, tens: nat, units: nat, tenths: nat)
    requires 1 <= tens < 10 && units < 10 && tenths < 10
    requires x == (100 * tens + 10 * units + tenths) as real / 10.0
    ensures OneDecimal(x)
    ensures ToFixed1(x) == [DigitChar(tens), DigitChar(units), '.', DigitChar(tenths)]
  {
    var n := 100 * tens + 10 * units + tenths;
    ToFixed1OfTenths(x, n);
    assert n / 10 == 10 * tens + units && n % 10 == tenths;
    assert (10 * tens + units) / 10 == tens && (10 * tens + units) % 10 == units;
    assert NatToString(10 * tens + units) == [DigitChar(tens), DigitChar(units)];
  }

  lemma ToFixed1ReadsBack(s: string, whole: string, n: nat)
    requires whole == NatToString(n / 10)
    requires s == whole + "." + [DigitChar(n % 10)]
    ensures Matches(s) && ParseFloat(s) == Some(n as real / 10.0)
  {
    var frac := [DigitChar(n % 10)];
    SplitAtPoint(s, whole, frac);
    assert DigitsValue(frac) == n % 10 by {
      assert frac[..0] == [];
    }
    assert Pow10(1) == 10;
    TenthsSum(n);
  }

  /** A string of digits, a '.', and more digits passes the filter and splits at that '.'. */
  lemma SplitAtPoint(s: string, whole: string, frac: string)
    requires AllDigits(whole) && AllDigits(frac)
    requires s == whole + "." + frac
    ensures Matches(s) && WholePart(s) == whole && FractionPart(s) == frac
  {
    assert DotIndex(s) == |whole| by {
      assert s[|whole|] == '.';
      assert forall i :: 0 <= i < |whole| ==> s[i] == whole[i];
    }
    assert s[..|whole|] == whole;
    assert s[|whole| + 1..] == frac;
    MatchesSplitsAtDot(s);
  }

  lemma TenthsSum(n: nat)
    ensures (n / 10) as real + (n % 10) as real / 10.0 == n as real / 10.0
  {
    assert (n / 10) * 10 + n % 10 == n;
  }

  /** `parseFloat` on sample field values: with no digit it is NaN, ".5" is 0.5, "75." is 75. */
  lemma ParseSamples()
    ensures ParseFloat("") == None && ParseFloat(".") == None
    ensures ParseFloat(".5") == Some(0.5) && ParseFloat("75.") == Some(75.0)
  {
    assert DotIndex(".5") == 0 && DotIndex("75.") == 2;
    assert DigitsValue("75") == 75 by { assert "75"[..1] == "7"; }
  }

  /** `parseFloat` reads "75.5" as 75.5 and "0.0" as 0. */
  lemma ParseFractionSamples()
    ensures ParseFloat("75.5") == Some(75.5) && ParseFloat("0.0") == Some(0.0)
  {
    assert DotIndex("75.5") == 2 && DotIndex("0.0") == 1;
    assert DigitsValue("75") == 75 by { assert "75"[..1] == "7"; }
  }

  /** `parseFloat` reads every fraction digit: "1.25" is 1.25. */
  lemma ParseHundredths()
    ensures ParseFloat("1.25") == Some(1.25)
  {
    assert DotIndex("1.25") == 1;
    assert DigitsValue("25") == 25 by { assert "25"[..1] == "2"; }
  }

  /** `parseFloat` ignores leading zeros and keeps trailing ones: "007.50" is 7.5. */
  lemma ParseLeadingZeros()
    ensures ParseFloat("007.50") == Some(7.5)
  {
    assert DotIndex("007.50") == 3;
    assert DigitsValue("007") == 7 by { assert "007"[..2] == "00" && "00"[..1] == "0"; }
    assert DigitsValue("50") == 50 by { assert "50"[..1] == "5"; }
  }

  /** `parseFloat` on the whole numbers of the worked examples. */
  lemma ParseWholeNumbers()
    ensures ParseFloat("0") == Some(0.0) && ParseFloat("70") == Some(70.0)
    ensures ParseFloat("100") == Some(100.0) && ParseFloat("175") == Some(175.0)
  {
    assert NatToString(70) == "70" by { assert NatToString(7) == "7"; }
    assert NatToString(100) == "100" by {
      assert NatToString(10) == "10" by { assert NatToString(1) == "1"; }
    }
    assert NatToString(175) == "175" by {
      assert NatToString(17) == "17" by { assert NatToString(1) == "1"; }
    }
    ParseDigits("0");
    ParseDigits("70");
    ParseDigits("100");
    ParseDigits("175");
  }
}

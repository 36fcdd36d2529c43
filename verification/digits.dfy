/**
 * The digit-stripping normaliser (index.js, lines 59-60):
 * `String(text || '').replace(/[^\d]/g, '')` keeps the ASCII digits of the
 * text, and `digits ? parseInt(digits, 10) : null` reads them as one decimal
 * number, or gives null when none are left.
 */
module Digits {
  import opened Wrappers

  /** `\d` without the `u` flag: the ASCII digits `0`-`9` only. */
  predicate IsDigit(c: char) {
    '0' <= c <= '9'
  }

  predicate AllDigits(s: string) {
    forall i :: 0 <= i < |s| ==> IsDigit(s[i])
  }

  predicate HasDigit(s: string) {
    exists i :: 0 <= i < |s| && IsDigit(s[i])
  }

  /** `s.replace(/[^\d]/g, '')`: every character that is not a digit is deleted. */
  function StripNonDigits(s: string): (d: string)
    ensures AllDigits(d)
    ensures |d| <= |s|
  {
    if s == [] then []
    else (if IsDigit(s[0]) then [s[0]] else []) + StripNonDigits(s[1..])
  }

  /** `a` can be obtained from `b` by deleting characters, keeping the order of the rest. */
  predicate IsSubsequence(a: string, b: string)
    decreases |b|
  {
    if a == [] then true
    else if b == [] then false
    else if a[0] == b[0] then IsSubsequence(a[1..], b[1..])
    else IsSubsequence(a, b[1..])
  }

  /** Stripping works piece by piece: the digit groups of a text are joined in order. */
  lemma {:induction false} StripNonDigitsAppend(a: string, b: string)
    ensures StripNonDigits(a + b) == StripNonDigits(a) + StripNonDigits(b)
    decreases |a|
  {
    if a != [] {
      assert (a + b)[1..] == a[1..] + b;
      StripNonDigitsAppend(a[1..], b);
    } else {
      assert a + b == b;
    }
  }

  /** The digits are kept in their original order: the result is a subsequence of the text. */
  lemma {:induction false} StripNonDigitsIsSubsequence(s: string)
    ensures IsSubsequence(StripNonDigits(s), s)
    decreases |s|
  {
    if s != [] {
      StripNonDigitsIsSubsequence(s[1..]);
      var rest := StripNonDigits(s[1..]);
      if IsDigit(s[0]) {
        assert StripNonDigits(s) == [s[0]] + rest;
        assert StripNonDigits(s)[1..] == rest;
      } else {
        assert StripNonDigits(s) == rest;
        assert rest != [] ==> IsDigit(rest[0]) && rest[0] != s[0];
      }
    }
  }

  /** Every digit occurs as often in the result as in the text; nothing else occurs. */
  lemma {:induction false} StripNonDigitsCounts(s: string, c: char)
    ensures multiset(StripNonDigits(s))[c] == if IsDigit(c) then multiset(s)[c] else 0
    decreases |s|
  {
    if s != [] {
      StripNonDigitsCounts(s[1..], c);
      assert s == [s[0]] + s[1..];
      assert multiset(s) == multiset([s[0]]) + multiset(s[1..]);
    }
  }

  /** The result is empty exactly when the text has no digit. */
  lemma {:induction false} StripNonDigitsEmpty(s: string)
    ensures StripNonDigits(s) == [] <==> !HasDigit(s)
    decreases |s|
  {
    if s != [] {
      StripNonDigitsEmpty(s[1..]);
      if HasDigit(s) && !IsDigit(s[0]) {
        var i :| 0 <= i < |s| && IsDigit(s[i]);
        assert s[1..][i - 1] == s[i];
      }
      if HasDigit(s[1..]) {
        var i :| 0 <= i < |s[1..]| && IsDigit(s[1..][i]);
        assert s[i + 1] == s[1..][i];
      }
    }
  }

  /** A text made only of digits is left as it is, and only such a text. */
  lemma {:induction false} StripNonDigitsFixedPoints(s: string)
    ensures StripNonDigits(s) == s <==> AllDigits(s)
    decreases |s|
  {
    if s != [] && AllDigits(s) {
      StripNonDigitsFixedPoints(s[1..]);
      assert AllDigits(s[1..]);
      assert s == [s[0]] + s[1..];
    }
  }

  /** Stripping twice is the same as stripping once. */
  lemma StripNonDigitsIdempotent(s: string)
    ensures StripNonDigits(StripNonDigits(s)) == StripNonDigits(s)
  {
    StripNonDigitsFixedPoints(StripNonDigits(s));
  }

  function Pow10(k: nat): (p: nat)
    ensures p >= 1
  {
    if k == 0 then 1 else 10 * Pow10(k - 1)
  }

  /** The value of one decimal digit. */
  function DigitValue(c: char): (v: nat)
    requires IsDigit(c)
    ensures v < 10
  {
    c as int - '0' as int
  }

  /** The digit for a value below ten. */
  function DigitChar(v: nat): (c: char)
    requires v < 10
    ensures IsDigit(c) && DigitValue(c) == v
  {
    ('0' as int + v) as char
  }

  /**
   * `parseInt(d, 10)` on a string of digits: its base-10 value, read most
   * significant digit first; leading zeros are allowed.
   */
  function ParseDecimal(d: string): (n: nat)
    requires AllDigits(d)
    ensures n < Pow10(|d|)
    decreases |d|
  {
    if d == [] then 0 else ParseDecimal(d[..|d| - 1]) * 10 + DigitValue(d[|d| - 1])
  }

  /** Concatenated digit strings read as the first shifted left past the second. */
  lemma {:induction false} ParseDecimalAppend(a: string, b: string)
    requires AllDigits(a) && AllDigits(b)
    ensures ParseDecimal(a + b) == ParseDecimal(a) * Pow10(|b|) + ParseDecimal(b)
    decreases |b|
  {
    if b == [] {
      assert a + b == a;
    } else {
      var b', c := b[..|b| - 1], b[|b| - 1];
      assert (a + b)[..|a + b| - 1] == a + b';
      ParseDecimalAppend(a, b');
      ShiftDigit(ParseDecimal(a), ParseDecimal(b'), Pow10(|b'|), DigitValue(c));
    }
  }

  /** Appending one digit to `x * k + y` appends it to `y` and multiplies `k` by ten. */
  lemma ShiftDigit(x: int, y: int, k: int, v: int)
    ensures (x * k + y) * 10 + v == x * (k * 10) + (y * 10 + v)
  {
  }

  /** A string of zeros reads as 0. */
  lemma {:induction false} ParseDecimalZeros(z: string)
    requires forall i :: 0 <= i < |z| ==> z[i] == '0'
    ensures AllDigits(z) && ParseDecimal(z) == 0
    decreases |z|
  {
    if z != [] {
      ParseDecimalZeros(z[..|z| - 1]);
    }
  }

  /** Leading zeros do not change the value. */
  lemma LeadingZerosIgnored(z: string, d: string)
    requires forall i :: 0 <= i < |z| ==> z[i] == '0'
    requires AllDigits(d)
    ensures ParseDecimal(z + d) == ParseDecimal(d)
  {
    ParseDecimalZeros(z);
    ParseDecimalAppend(z, d);
  }

  /** The shortest decimal spelling of `n`, as `String(n)` gives it. */
  function Decimal(n: nat): (d: string)
    ensures AllDigits(d) && |d| > 0
    decreases n
  {
    if n < 10 then [DigitChar(n)] else Decimal(n / 10) + [DigitChar(n % 10)]
  }

  /** Reading back the spelling of `n` gives `n`. */
  lemma {:induction false} ParseDecimalOfDecimal(n: nat)
    ensures ParseDecimal(Decimal(n)) == n
    decreases n
  {
    var d := Decimal(n);
    if n < 10 {
      assert d[..|d| - 1] == [];
    } else {
      ParseDecimalOfDecimal(n / 10);
      assert d[..|d| - 1] == Decimal(n / 10);
    }
  }

  /** `String(text || '')`: null and the empty string both become `""`. */
  function TextOrEmpty(text: Option<string>): string
  {
    text.GetOr("")
  }

  /**
   * The `value` field: the concatenated digits of the text read as one
   * decimal number, or null when the text is null or has no digit.
   */
  function ParseValue(text: Option<string>): (value: Option<nat>)
    ensures value.None? <==> text.None? || !HasDigit(text.value)
    ensures value.Some? ==> value.value == ParseDecimal(StripNonDigits(text.value))
  {
    var digits := StripNonDigits(TextOrEmpty(text));
    StripNonDigitsEmpty(TextOrEmpty(text));
    if digits == [] then None else Some(ParseDecimal(digits))
  }

  /**
   * Separate digit groups are joined, not chosen between: the value of `x + y`
   * is the digits of `x` followed by the digits of `y`, read as one number.
   */
  lemma ParseValueJoinsDigitGroups(x: string, y: string)
    requires HasDigit(x) || HasDigit(y)
    ensures ParseValue(Some(x + y))
         == Some(ParseDecimal(StripNonDigits(x)) * Pow10(|StripNonDigits(y)|) + ParseDecimal(StripNonDigits(y)))
  {
    StripNonDigitsAppend(x, y);
    ParseDecimalAppend(StripNonDigits(x), StripNonDigits(y));
    StripNonDigitsEmpty(x);
    StripNonDigitsEmpty(y);
  }

  /** A text that is exactly the spelling of `n` gives back `n`. */
  lemma ParseValueOfDecimal(n: nat)
    ensures ParseValue(Some(Decimal(n))) == Some(n)
  {
    StripNonDigitsFixedPoints(Decimal(n));
    ParseDecimalOfDecimal(n);
  }

  /** The digits of `$450,000`, in order. */
  lemma StripDollarAmount()
    ensures StripNonDigits("$450,000") == "450000"
  {
    assert "$450,000" == "$450" + ",000";
    StripNonDigitsAppend("$450", ",000");
    assert StripNonDigits("$450") == "450" by {
      assert "$450" == "$" + "450";
      StripNonDigitsAppend("$", "450");
      StripNonDigitsFixedPoints("450");
    }
    assert StripNonDigits(",000") == "000" by {
      assert ",000" == "," + "000";
      StripNonDigitsAppend(",", "000");
      StripNonDigitsFixedPoints("000");
    }
  }

  /** `450000` read as a decimal number. */
  lemma ParseDollarDigits()
    ensures ParseDecimal("450000") == 450000
  {
    assert "450000" == "45" + "0000";
    ParseDecimalAppend("45", "0000");
    ParseDecimalZeros("0000");
    assert "45"[..1] == "4" && "4"[..0] == "";
  }

  /** A figure decorated with a currency sign and a thousands separator. */
  lemma DollarAmountExample()
    ensures ParseValue(Some("$450,000")) == Some(450000)
  {
    StripDollarAmount();
    ParseDollarDigits();
  }

  lemma StripNonDigitsAppend3(a: string, b: string, c: string)
    ensures StripNonDigits(a + b + c) == StripNonDigits(a) + StripNonDigits(b) + StripNonDigits(c)
  {
    StripNonDigitsAppend(a + b, c);
    StripNonDigitsAppend(a, b);
  }

  /** The only digit of ` (3 comps)`. */
  lemma StripCompsNote()
    ensures StripNonDigits(" (3 comps)") == "3"
  {
    assert StripNonDigits(" comps)") == "" by { StripNonDigitsEmpty(" comps)"); }
    assert StripNonDigits(" (") == "";
    assert StripNonDigits("3") == "3";
    StripNonDigitsAppend3(" (", "3", " comps)");
    assert " (3 comps)" == " (" + "3" + " comps)";
  }

  /** Texts whose digits are `450000` and `3` give 4500003 when joined. */
  lemma JoinedDigitGroups(x: string, y: string)
    requires StripNonDigits(x) == "450000" && StripNonDigits(y) == "3"
    ensures ParseValue(Some(x + y)) == Some(4500003)
  {
    ParseDollarDigits();
    assert HasDigit("3");
    StripNonDigitsEmpty(y);
    ParseValueJoinsDigitGroups(x, y);
    assert Pow10(1) == 10;
    assert ParseDecimal("3") == 3 by { assert "3"[..0] == ""; }
  }

  lemma SeveralNumbersParts(x: string, y: string)
    requires x == "$450,000" && y == " (3 comps)"
    ensures ParseValue(Some(x + y)) == Some(4500003)
  {
    StripDollarAmount();
    StripCompsNote();
    JoinedDigitGroups(x, y);
  }

  /** A second number in the prose is appended to the first, not ignored. */
  lemma SeveralNumbersExample()
    ensures ParseValue(Some("$450,000 (3 comps)")) == Some(4500003)
  {
    SeveralNumbersParts("$450,000", " (3 comps)");
    assert "$450,000 (3 comps)" == "$450,000" + " (3 comps)";
  }

  /** Prose without digits gives null. */
  lemma NoDigitsExample()
    ensures ParseValue(Some("I cannot determine a value.")) == None
  {
    assert !HasDigit("I cannot determine a value.");
  }

  /** Leading zeros are read, not rejected: `007` gives 7. */
  lemma LeadingZerosExample()
    ensures ParseValue(Some("007")) == Some(7)
  {
    StripNonDigitsFixedPoints("007");
    assert "007" == "00" + "7";
    LeadingZerosIgnored("00", "7");
    assert "7"[..0] == "";
  }
}

/**
 * Character-level helpers: the price digit filter (`re.sub(r'[^\d]+', '', s)`),
 * the decimal value of a digit string, and the ASCII parts of `str.strip()`
 * and `str.lower()`.
 */
module Text {

  /** A decimal digit, the class `\d` stands for (ASCII digits only). */
  predicate IsDigit(c: char) {
    '0' <= c <= '9'
  }

  /** A whitespace character as `str.strip()` sees it (ASCII range only). */
  predicate IsSpace(c: char) {
    c == ' ' || 9 <= c as int <= 13 || 28 <= c as int <= 31
  }

  function DigitValue(c: char): (d: nat)
    requires IsDigit(c)
    ensures d < 10
  {
    c as int - '0' as int
  }

  predicate AllDigits(s: string) {
    forall i :: 0 <= i < |s| ==> IsDigit(s[i])
  }

  /** The price filter: deletes every non-digit character, keeping the digits in order. */
  function DigitFilter(s: string): (r: string)
    ensures AllDigits(r)
    ensures |r| <= |s|
  {
    if s == [] then []
    else if IsDigit(s[0]) then [s[0]] + DigitFilter(s[1..])
    else DigitFilter(s[1..])
  }

  /** The filter distributes over concatenation, so it acts character by character. */
  lemma {:induction false} DigitFilterAppend(a: string, b: string)
    ensures DigitFilter(a + b) == DigitFilter(a) + DigitFilter(b)
  {
    if a == [] {
      assert a + b == b;
    } else {
      assert (a + b)[1..] == a[1..] + b;
      DigitFilterAppend(a[1..], b);
    }
  }

  /** A string made only of digits passes through unchanged. */
  lemma {:induction false} DigitFilterKeepsDigits(s: string)
    requires AllDigits(s)
    ensures DigitFilter(s) == s
  {
    if s != [] {
      DigitFilterKeepsDigits(s[1..]);
    }
  }

  /** The filter yields "" exactly when the input holds no digit at all. */
  lemma {:induction false} DigitFilterEmpty(s: string)
    ensures DigitFilter(s) == [] <==> forall i :: 0 <= i < |s| ==> !IsDigit(s[i])
  {
    if s != [] {
      DigitFilterEmpty(s[1..]);
      assert forall i :: 1 <= i < |s| ==> s[i] == s[1..][i - 1];
    }
  }

  /** Filtering twice is filtering once. */
  lemma DigitFilterIdempotent(s: string)
    ensures DigitFilter(DigitFilter(s)) == DigitFilter(s)
  {
    DigitFilterKeepsDigits(DigitFilter(s));
  }

  /** Decimal value of a digit string, most significant digit first. */
  function DigitsValue(s: string): nat
    requires AllDigits(s)
  {
    if s == [] then 0 else DigitsValue(s[..|s| - 1]) * 10 + DigitValue(s[|s| - 1])
  }

  lemma DigitsValueAppend(s: string, c: char)
    requires AllDigits(s) && IsDigit(c)
    ensures DigitsValue(s + [c]) == DigitsValue(s) * 10 + DigitValue(c)
  {
    assert (s + [c])[..|s|] == s;
  }

  /** "$12.99" is stored as 1299 cents. */
  lemma DigitFilterDollarExample()
    ensures DigitFilter("$12.99") == "1299" && DigitsValue("1299") == 1299
  {
    assert "$12.99"[1..] == "12.99" && "12.99"[1..] == "2.99" && "2.99"[1..] == ".99";
    assert ".99"[1..] == "99" && "99"[1..] == "9" && "9"[1..] == "";
    assert DigitFilter("9") == "9";
    assert DigitFilter("99") == "99";
    assert DigitFilter(".99") == "99";
    assert DigitFilter("2.99") == "299";
    assert DigitFilter("12.99") == "1299";
    assert "1"[..0] == "";
    assert DigitsValue("1") == 1;
    assert "12"[..1] == "1";
    assert DigitsValue("12") == 12;
    assert "129"[..2] == "12";
    assert DigitsValue("129") == 129;
    assert "1299"[..3] == "129";
  }

  /** A price with no digit at all filters to the empty string. */
  lemma DigitFilterNoDigitExample()
    ensures DigitFilter("free") == ""
  {
    DigitFilterEmpty("free");
  }

  /**
   * Stripping is written once for any set of whitespace characters: `str.strip()`
   * and `int()` skip different sets.
   */
  type Blanks = char -> bool

  /** Drops leading whitespace. */
  function StripLeft(s: string, space: Blanks): string {
    if s != [] && space(s[0]) then StripLeft(s[1..], space) else s
  }

  /** Drops trailing whitespace. */
  function StripRight(s: string, space: Blanks): string {
    if s != [] && space(s[|s| - 1]) then StripRight(s[..|s| - 1], space) else s
  }

  /** What a left strip removes is a run of whitespace, and what it keeps does not start with one. */
  lemma {:induction false} StripLeftSpec(s: string, space: Blanks)
    ensures |StripLeft(s, space)| <= |s| && StripLeft(s, space) == s[|s| - |StripLeft(s, space)|..]
    ensures StripLeft(s, space) != [] ==> !space(StripLeft(s, space)[0])
    ensures forall i :: 0 <= i < |s| - |StripLeft(s, space)| ==> space(s[i])
  {
    if s != [] && space(s[0]) {
      var rest := s[1..];
      StripLeftSpec(rest, space);
      forall i | 0 <= i < |s| - |StripLeft(s, space)| ensures space(s[i]) {
        if i > 0 {
          assert s[i] == rest[i - 1];
        }
      }
    }
  }

  /** What a right strip removes is a run of whitespace, and what it keeps does not end with one. */
  lemma {:induction false} StripRightSpec(s: string, space: Blanks)
    ensures |StripRight(s, space)| <= |s| && StripRight(s, space) == s[..|StripRight(s, space)|]
    ensures StripRight(s, space) != [] ==> !space(StripRight(s, space)[|StripRight(s, space)| - 1])
    ensures forall i :: |StripRight(s, space)| <= i < |s| ==> space(s[i])
  {
    if s != [] && space(s[|s| - 1]) {
      StripRightSpec(s[..|s| - 1], space);
    }
  }

  /** Both ends. */
  function Strip(s: string, space: Blanks): string {
    StripRight(StripLeft(s, space), space)
  }

  /** A text that neither starts nor ends with whitespace is its own strip. */
  lemma StripUnpadded(s: string, space: Blanks)
    requires s != [] ==> !space(s[0]) && !space(s[|s| - 1])
    ensures Strip(s, space) == s
  {
  }

  lemma DigitFilterStripLeft(s: string, space: Blanks)
    requires forall c :: space(c) ==> !IsDigit(c)
    ensures DigitFilter(StripLeft(s, space)) == DigitFilter(s)
  {
    StripLeftSpec(s, space);
    var l := StripLeft(s, space);
    var k := |s| - |l|;
    assert s == s[..k] + l;
    DigitFilterEmpty(s[..k]);
    DigitFilterAppend(s[..k], l);
  }

  lemma DigitFilterStripRight(s: string, space: Blanks)
    requires forall c :: space(c) ==> !IsDigit(c)
    ensures DigitFilter(StripRight(s, space)) == DigitFilter(s)
  {
    StripRightSpec(s, space);
    var r := StripRight(s, space);
    assert s == r + s[|r|..];
    DigitFilterEmpty(s[|r|..]);
    DigitFilterAppend(r, s[|r|..]);
  }

  /** Stripping whitespace that holds no digit never removes a digit. */
  lemma DigitFilterStrip(s: string, space: Blanks)
    requires forall c :: space(c) ==> !IsDigit(c)
    ensures DigitFilter(Strip(s, space)) == DigitFilter(s)
  {
    DigitFilterStripLeft(s, space);
    DigitFilterStripRight(StripLeft(s, space), space);
  }

  function LowerChar(c: char): char {
    if 'A' <= c <= 'Z' then (c as int + 32) as char else c
  }

  /**
   * `lower()` on the ASCII letters: every upper-case letter becomes its
   * lower-case letter, every other character stays, and no upper-case letter
   * is left.
   */
  function Lower(s: string): (r: string)
    ensures |r| == |s|
    ensures forall i :: 0 <= i < |s| && 'A' <= s[i] <= 'Z' ==> r[i] as int == s[i] as int + 32
    ensures forall i :: 0 <= i < |s| && !('A' <= s[i] <= 'Z') ==> r[i] == s[i]
    ensures forall i :: 0 <= i < |r| ==> !('A' <= r[i] <= 'Z')
  {
    seq(|s|, i requires 0 <= i < |s| => LowerChar(s[i]))
  }
}

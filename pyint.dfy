/**
 * Python's `int(text)` on a string, as the import uses it to read a quantity
 * and as the add form uses it to check a quantity and a price: surrounding
 * whitespace is ignored, one optional sign, then decimal digits in which
 * single underscores may separate digits.
 */
module PyInt {
  import opened Wrappers
  import opened Text

  /** The unsigned body `int()` accepts: digits, with single `_` separators between digits. */
  predicate IsLiteral(u: string) {
    && |u| > 0
    && IsDigit(u[0])
    && IsDigit(u[|u| - 1])
    && (forall i :: 0 <= i < |u| ==> IsDigit(u[i]) || u[i] == '_')
    && (forall i :: 0 <= i < |u| - 1 ==> IsDigit(u[i]) || IsDigit(u[i + 1]))
  }

  /** The value of a literal body, reading its digits and skipping separators. */
  function LiteralValue(u: string): nat {
    if u == [] then 0
    else if IsDigit(u[|u| - 1]) then LiteralValue(u[..|u| - 1]) * 10 + DigitValue(u[|u| - 1])
    else LiteralValue(u[..|u| - 1])
  }

  predicate IsSign(c: char) {
    c == '+' || c == '-'
  }

  /**
   * The whitespace `int()` skips around its literal: space, tab, line feed,
   * vertical tab, form feed and carriage return. Unlike `str.strip()`, it does
   * not skip the separator controls 28 to 31.
   */
  predicate IsIntSpace(c: char) {
    c == ' ' || 9 <= c as int <= 13
  }

  /** The text after the optional sign. */
  function Body(t: string): string {
    if |t| > 0 && IsSign(t[0]) then t[1..] else t
  }

  /**
   * `int(s)`: None where Python raises ValueError because the text is not an
   * integer literal. The limit on the number of digits is not modelled.
   */
  function Int(s: string): Option<int> {
    var t := Strip(s, IsIntSpace);
    if IsLiteral(Body(t)) then
      Some(if |t| > 0 && t[0] == '-' then -(LiteralValue(Body(t)) as int) else LiteralValue(Body(t)))
    else None
  }

  /** Separators do not contribute: the value is that of the digits alone. */
  lemma {:induction false} LiteralValueDigits(u: string)
    ensures LiteralValue(u) == DigitsValue(DigitFilter(u))
  {
    if u != [] {
      var init, c := u[..|u| - 1], u[|u| - 1];
      assert u == init + [c];
      LiteralValueDigits(init);
      DigitFilterAppend(init, [c]);
      if IsDigit(c) {
        assert DigitFilter([c]) == [c];
        DigitsValueAppend(DigitFilter(init), c);
      } else {
        assert DigitFilter([c]) == [];
        assert DigitFilter(init) + [] == DigitFilter(init);
      }
    }
  }

  function Abs(n: int): nat {
    if n < 0 then -n else n
  }

  /** A sign is not a digit, so the filter sees only the body. */
  lemma DigitFilterBody(t: string)
    ensures DigitFilter(Body(t)) == DigitFilter(t)
  {
    if |t| > 0 && IsSign(t[0]) {
      assert t == [t[0]] + t[1..];
      DigitFilterAppend([t[0]], t[1..]);
      assert DigitFilter([t[0]]) == [];
    }
  }

  /** A literal body starts with a digit, so its filter is not empty. */
  lemma LiteralHasDigit(u: string)
    requires IsLiteral(u)
    ensures DigitFilter(u) != []
  {
    assert u == [u[0]] + u[1..];
    DigitFilterAppend([u[0]], u[1..]);
  }

  /**
   * Anything `int()` accepts still has its digits after the price filter, and
   * the filtered digits spell the magnitude of the number: the sign, the
   * separators and the whitespace are dropped, so "-5" is stored as a price of 5.
   */
  lemma IntDigitFilter(s: string)
    requires Int(s).Some?
    ensures DigitFilter(s) != []
    ensures DigitsValue(DigitFilter(s)) == Abs(Int(s).value)
  {
    var t := Strip(s, IsIntSpace);
    DigitFilterStrip(s, IsIntSpace);
    DigitFilterBody(t);
    LiteralValueDigits(Body(t));
    LiteralHasDigit(Body(t));
  }

  /**
   * A non-empty text of digits is read by `int()` as the number the digits
   * spell: the integer the store keeps for a filtered price.
   */
  lemma DigitsValueIsInt(s: string)
    requires AllDigits(s) && s != []
    ensures Int(s) == Some(DigitsValue(s))
  {
    StripUnpadded(s, IsIntSpace);
    assert Body(s) == s;
    LiteralValueDigits(s);
    DigitFilterKeepsDigits(s);
  }

  /** `int()` takes signs, so a quantity may come out negative. */
  lemma IntNegativeExample()
    ensures Int("-3") == Some(-3)
  {
    assert StripLeft("-3", IsIntSpace) == "-3";
    assert StripRight("-3", IsIntSpace) == "-3";
    assert "-3"[1..] == "3";
    assert "3"[0] == '3';
    assert IsLiteral("3");
    assert "3"[..0] == "";
  }

  /** Surrounding whitespace is ignored. */
  lemma IntPaddedExample()
    ensures Int(" 42\n") == Some(42)
  {
    assert " 42\n"[1..] == "42\n";
    assert StripLeft(" 42\n", IsIntSpace) == "42\n";
    assert "42\n"[..2] == "42";
    assert StripRight("42\n", IsIntSpace) == "42";
    assert "42"[0] == '4' && "42"[1] == '2';
    assert IsLiteral("42");
    assert "42"[..1] == "4" && "4"[..0] == "";
  }

  /** A decimal point is not accepted: "12.5" is not an int. */
  lemma IntRejectsPointExample()
    ensures Int("12.5") == None
  {
    assert StripLeft("12.5", IsIntSpace) == "12.5";
    assert StripRight("12.5", IsIntSpace) == "12.5";
    assert Body("12.5") == "12.5";
    assert "12.5"[2] == '.';
  }

  /** An empty answer is not an int. */
  lemma IntRejectsEmptyExample()
    ensures Int("") == None
  {
  }

  /** The separator control 28 is whitespace to `str.strip()` but not to `int()`. */
  lemma IntRejectsSeparatorExample()
    ensures Int("\U{1C}5") == None
  {
    assert StripLeft("\U{1C}5", IsIntSpace) == "\U{1C}5";
    assert StripRight("\U{1C}5", IsIntSpace) == "\U{1C}5";
    assert Body("\U{1C}5") == "\U{1C}5";
    assert !IsDigit("\U{1C}5"[0]);
  }
}

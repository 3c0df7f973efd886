/**
 * `get_value_type_level`: the rank of one cell in the type hierarchy,
 * -1 blank, 0 BIGINT, 1 FLOAT8, 2 DATE, 3 TIMESTAMP, 4 TEXT. Numbers are
 * tried before dates and times.
 */
module Classify {
  import opened Wrappers
  import opened Text
  import opened Cells
  import opened Temporal
  import Strptime
  import Iso

  /** The text after an optional leading sign. */
  function Unsigned(t: string): string {
    if t != [] && (t[0] == '+' || t[0] == '-') then t[1..] else t
  }

  /** Digits, then optionally a point and more digits, with at least one digit in all. */
  predicate IsUnsignedDecimal(u: string) {
    var n := LeadingDigits(u);
    || (n == |u| && n > 0)
    || (n < |u| && u[n] == '.' && AllDigits(u[n + 1..]) && (n > 0 || n + 1 < |u|))
  }

  /** What `float()` accepts here: a signed decimal literal. */
  predicate IsDecimal(t: string) {
    IsUnsignedDecimal(Unsigned(t))
  }

  /** `float(t) == int(float(t))` for a decimal literal: nothing but zeros after the point. */
  predicate IsIntegral(t: string) {
    var u := Unsigned(t);
    forall i | LeadingDigits(u) < i < |u| :: u[i] == '0'
  }

  /** `get_value_type_level` */
  function ValueTypeLevel(v: Scalar): (r: int)
    ensures -1 <= r <= 4
  {
    if IsBlank(v) then -1
    else
      var t := Strip(Render(v));
      if IsDecimal(t) && IsIntegral(t) then 0
      else if IsDecimal(t) then 1
      else
        match DetectText(Render(v))
        case Some(Date) => 2
        case Some(Timestamp) => 3
        case None => 4
  }

  /**
   * What each level means: blank, an integral number, another number, and
   * only for text that is no number a date, a timestamp, or anything else.
   * The levels partition the cells, and a number never reaches 2 or 3.
   */
  lemma ValueTypeLevelMeaning(v: Scalar)
    ensures var r := ValueTypeLevel(v);
      var t := Strip(Render(v));
      && (r == -1 <==> IsBlank(v))
      && (r == 0 <==> !IsBlank(v) && IsDecimal(t) && IsIntegral(t))
      && (r == 1 <==> !IsBlank(v) && IsDecimal(t) && !IsIntegral(t))
      && (r == 2 <==> !IsBlank(v) && !IsDecimal(t) && DetectText(Render(v)) == Some(Date))
      && (r == 3 <==> !IsBlank(v) && !IsDecimal(t) && DetectText(Render(v)) == Some(Timestamp))
      && (r == 4 <==> !IsBlank(v) && !IsDecimal(t) && DetectText(Render(v)) == None)
  {
  }

  // ---------------------------------------------------------------------
  // Numbers

  predicate IsSign(sign: string) {
    sign == "" || sign == "+" || sign == "-"
  }

  /** A non-blank string cell that is its own stripped text. */
  lemma TrimmedCell(t: string)
    requires t != [] && !IsSpace(t[0]) && !IsSpace(t[|t| - 1])
    ensures !IsBlank(Str(t)) && Strip(Render(Str(t))) == t
  {
    StripTrimmed(t);
  }

  lemma SignedDigits(sign: string, digits: string)
    requires IsSign(sign)
    requires digits != [] && AllDigits(digits)
    ensures IsDecimal(sign + digits) && IsIntegral(sign + digits)
  {
    assert Unsigned(sign + digits) == digits;
    LeadingDigitsOfRun(digits, []);
    assert digits + [] == digits;
  }

  /** Any optionally signed run of digits is a BIGINT cell. */
  lemma IntegerTextIsBigInt(sign: string, digits: string)
    requires IsSign(sign)
    requires digits != [] && AllDigits(digits)
    ensures ValueTypeLevel(Str(sign + digits)) == 0
  {
    var t := sign + digits;
    assert t[|t| - 1] == digits[|digits| - 1];
    assert t[0] == if sign == "" then digits[0] else sign[0];
    TrimmedCell(t);
    SignedDigits(sign, digits);
  }

  lemma UnsignedFraction(whole: string, frac: string, k: nat)
    requires AllDigits(whole) && AllDigits(frac)
    requires k < |frac| && frac[k] != '0'
    ensures var u := whole + "." + frac;
      && LeadingDigits(u) == |whole|
      && IsUnsignedDecimal(u)
      && u[|whole| + 1 + k] != '0'
  {
    var u := whole + "." + frac;
    LeadingDigitsOfRun(whole, "." + frac);
    assert u[|whole|] == '.';
    assert u[|whole| + 1..] == frac;
  }

  lemma SignedFraction(sign: string, whole: string, frac: string, k: nat)
    requires IsSign(sign)
    requires AllDigits(whole) && AllDigits(frac)
    requires k < |frac| && frac[k] != '0'
    ensures IsDecimal(sign + whole + "." + frac) && !IsIntegral(sign + whole + "." + frac)
  {
    var u := whole + "." + frac;
    assert sign + whole + "." + frac == sign + u;
    assert Unsigned(sign + u) == u;
    UnsignedFraction(whole, frac, k);
  }

  /** A decimal with a non-zero digit after the point is a FLOAT8 cell. */
  lemma FractionTextIsFloat(sign: string, whole: string, frac: string, k: nat)
    requires IsSign(sign)
    requires AllDigits(whole) && AllDigits(frac)
    requires k < |frac| && frac[k] != '0'
    ensures ValueTypeLevel(Str(sign + whole + "." + frac)) == 1
  {
    var t := sign + whole + "." + frac;
    assert t[|t| - 1] == frac[|frac| - 1];
    assert t[0] == if sign != "" then sign[0] else if whole != "" then whole[0] else '.';
    TrimmedCell(t);
    SignedFraction(sign, whole, frac, k);
  }

  // ---------------------------------------------------------------------
  // Numbers are never dates

  /** Past its first character a decimal literal holds only digits and a point. */
  lemma DecimalChars(t: string)
    requires IsDecimal(t)
    ensures forall i | 0 < i < |t| :: IsDigit(t[i]) || t[i] == '.'
  {
    var u := Unsigned(t);
    var n := LeadingDigits(u);
    assert forall i | 0 <= i < n :: IsDigit(u[i]) by {
      assert forall i | 0 <= i < n :: u[i] == u[..n][i];
    }
    if n < |u| {
      assert forall i | n + 1 <= i < |u| :: IsDigit(u[i]) by {
        assert forall i | n + 1 <= i < |u| :: u[i] == u[n + 1..][i - n - 1];
      }
    }
    var off := |t| - |u|;
    assert forall i | off <= i < |t| :: t[i] == u[i - off];
  }

  /**
   * A format that reads a field and then a '-' or '/' cannot read a text
   * whose characters after the first are all digits or points.
   */
  lemma NoSeparatorNoScan(fmt: Strptime.Format, t: string, acc: Strptime.Stamp)
    requires |fmt| >= 2 && Strptime.IsField(fmt[0])
    requires fmt[1] == Strptime.Lit('-') || fmt[1] == Strptime.Lit('/')
    requires forall i | 0 < i < |t| :: IsDigit(t[i]) || t[i] == '.'
    ensures Strptime.Scan(fmt, t, acc).None?
  {
    match Strptime.ReadField(fmt[0], t)
    case None =>
    case Some((n, v)) =>
      var rest := t[n..];
      assert fmt[1..][0] == fmt[1];
      if rest != [] {
        assert rest[0] == t[n];
        assert Lower(rest[0]) == rest[0];
      }
  }

  lemma NoSeparatorNoParse(fmts: seq<Strptime.Format>, t: string)
    requires forall k | 0 <= k < |fmts| ::
      |fmts[k]| >= 2 && Strptime.IsField(fmts[k][0])
      && (fmts[k][1] == Strptime.Lit('-') || fmts[k][1] == Strptime.Lit('/'))
    requires forall i | 0 < i < |t| :: IsDigit(t[i]) || t[i] == '.'
    ensures !AnyParses(fmts, t)
  {
    forall k | 0 <= k < |fmts|
      ensures Strptime.Parse(fmts[k], t).None?
    {
      NoSeparatorNoScan(fmts[k], t, Strptime.Defaults);
    }
  }

  /**
   * A number is never a date or a timestamp, so trying numbers first
   * never hides a temporal reading.
   */
  lemma NumberIsNotTemporal(value: string)
    requires IsDecimal(Strip(value))
    ensures DetectText(value) == None
  {
    var t := Strip(value);
    DecimalChars(t);
    assert !Iso.IsIso(t) by {
      if |t| >= 10 {
        assert t[..10][4] == t[4];
      }
    }
    NoSeparatorNoParse(Strptime.DateFormats, t);
    NoSeparatorNoParse(Strptime.DatetimeFormats, t);
    DetectTextMeaning(value);
  }
}

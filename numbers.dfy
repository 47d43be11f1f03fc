/**
 * Amounts and the number parser the ledger loader uses for them.
 *
 * `float(s)` and `pd.to_numeric(s, errors='coerce')` are both modelled by
 * `ParseNumber`, restricted to plain decimal notation; `None` is the
 * `ValueError` of `float` and the NaN of `to_numeric`. Amounts are exact
 * decimals rather than binary floating point.
 */
module Numbers {
  import opened Wrappers
  import opened PyText

  predicate IsDigit(c: char) { '0' <= c <= '9' }

  predicate AllDigits(s: string) {
    forall k :: 0 <= k < |s| ==> IsDigit(s[k])
  }

  function DigitValue(c: char): nat
    requires IsDigit(c)
  {
    c as int - '0' as int
  }

  function DigitChar(d: nat): (c: char)
    requires d < 10
    ensures IsDigit(c) && DigitValue(c) == d
  {
    ('0' as int + d) as char
  }

  /** Digit strings contain none of the separators the parsers split on. */
  lemma DigitsHaveNoSeparator(ds: string)
    requires AllDigits(ds)
    ensures '-' !in ds && '.' !in ds && ',' !in ds
  {
  }

  /** The number a string of decimal digits spells (leading zeros allowed). */
  function DigitsValue(ds: string): nat
    requires AllDigits(ds)
  {
    if ds == [] then 0 else DigitsValue(ds[..|ds| - 1]) * 10 + DigitValue(ds[|ds| - 1])
  }

  /** An exact decimal amount, worth `units / 10^scale`. */
  datatype Decimal = Decimal(units: int, scale: nat) {
    /** Whether the amount is zero, the `!= 0` test of the post-filter. */
    predicate IsZero() { units == 0 }

    /** The amount with its sign flipped, Python's unary minus. */
    function Negate(): (r: Decimal)
      ensures r.IsZero() == IsZero()
    {
      Decimal(-units, scale)
    }
  }

  /** The integer literal 0 that the dual-column layout falls back to. */
  const Zero := Decimal(0, 0)

  /**
   * Digits with at most one decimal point and at least one digit, read as
   * a non-negative amount.
   */
  function ParseUnsigned(body: string): Option<Decimal>
  {
    var parts := Split(body, '.');
    if |parts| > 2 then None
    else
      var whole := parts[0];
      var frac := if |parts| == 2 then parts[1] else "";
      if AllDigits(whole) && AllDigits(frac) && |whole| + |frac| > 0 then
        Some(Decimal(DigitsValue(whole + frac), |frac|))
      else
        None
  }

  /**
   * `float(s)` for plain decimal notation: optional surrounding whitespace,
   * an optional sign, then digits with at most one decimal point and at
   * least one digit in all (so `"1."` and `".5"` are numbers, `"."`, `""`
   * and `"1.2.3"` are not).
   */
  function ParseNumber(s: string): Option<Decimal>
  {
    ParseStripped(Strip(s))
  }

  /** `ParseNumber` once the surrounding whitespace is gone. */
  function ParseStripped(t: string): Option<Decimal>
  {
    var signed := |t| > 0 && (t[0] == '+' || t[0] == '-');
    match ParseUnsigned(if signed then t[1..] else t)
    case None => None
    case Some(d) => Some(if signed && t[0] == '-' then d.Negate() else d)
  }

  /** `n` in decimal, zero-padded on the left to at least `minWidth` digits. */
  function PaddedDigits(n: nat, minWidth: nat): (ds: string)
    ensures |ds| >= minWidth && |ds| >= 1
    ensures AllDigits(ds) && DigitsValue(ds) == n
    decreases n + minWidth
  {
    var front := if n < 10 && minWidth <= 1 then []
                 else PaddedDigits(n / 10, if minWidth > 0 then minWidth - 1 else 0);
    var ds := front + [DigitChar(n % 10)];
    assert ds[..|ds| - 1] == front;
    ds
  }

  function Pow10(n: nat): (p: nat)
    ensures p >= 1
  {
    if n == 0 then 1 else 10 * Pow10(n - 1)
  }

  lemma Pow10Small()
    ensures Pow10(2) == 100 && Pow10(4) == 10000
  {
    assert Pow10(1) == 10;
    assert Pow10(3) == 1000;
  }

  /** A number below `10^w` is written with exactly `w` digits. */
  lemma {:induction false} PaddedExact(n: nat, w: nat)
    requires w >= 1 && n < Pow10(w)
    ensures |PaddedDigits(n, w)| == w
    decreases w
  {
    if w > 1 { PaddedExact(n / 10, w - 1); }
  }

  /** The digits-and-point part of `FormatDecimal`. */
  function FormatUnsigned(n: nat, scale: nat): (body: string)
    ensures body != [] && IsDigit(body[0]) && IsDigit(body[|body| - 1])
  {
    var ds := PaddedDigits(n, scale + 1);
    var w := |ds|;
    if scale == 0 then ds else ds[..w - scale] + "." + ds[w - scale..]
  }

  lemma FormatWithoutPoint(n: nat, whole: string)
    requires whole == PaddedDigits(n, 1)[..|PaddedDigits(n, 1)|]
    ensures FormatUnsigned(n, 0) == whole
  {
    var ds := PaddedDigits(n, 1);
    assert ds[..|ds|] == ds;
  }

  lemma FormatWithPoint(n: nat, scale: nat, whole: string, frac: string)
    requires scale > 0
    requires whole == PaddedDigits(n, scale + 1)[..|PaddedDigits(n, scale + 1)| - scale]
    requires frac == PaddedDigits(n, scale + 1)[|PaddedDigits(n, scale + 1)| - scale..]
    ensures FormatUnsigned(n, scale) == whole + "." + frac
  {
  }

  /** Two separator-free pieces joined at a point split there again. */
  lemma SplitPoint(whole: string, frac: string)
    requires '.' !in whole && '.' !in frac
    ensures Split(whole + "." + frac, '.') == [whole, frac]
  {
    var fields := [whole, frac];
    assert fields[1..] == [frac];
    assert Join(fields, '.') == whole + "." + frac;
    SplitJoin(fields, '.');
  }

  lemma ParseFormatUnsigned(n: nat, scale: nat)
    ensures ParseUnsigned(FormatUnsigned(n, scale)) == Some(Decimal(n, scale))
  {
    var ds := PaddedDigits(n, scale + 1);
    var w := |ds|;
    var whole, frac := ds[..w - scale], ds[w - scale..];
    assert whole + frac == ds;
    assert AllDigits(whole) && AllDigits(frac);
    DigitsHaveNoSeparator(whole);
    DigitsHaveNoSeparator(frac);
    if scale == 0 {
      FormatWithoutPoint(n, whole);
      SplitWhole(whole);
    } else {
      FormatWithPoint(n, scale, whole, frac);
      SplitPoint(whole, frac);
    }
  }

  /** A piece without a point is not split. */
  lemma SplitWhole(whole: string)
    requires '.' !in whole
    ensures Split(whole, '.') == [whole]
  {
    assert Join([whole], '.') == whole;
    SplitJoin([whole], '.');
  }

  /** Writes an amount in plain decimal notation with exactly `scale` fractional digits. */
  function FormatDecimal(d: Decimal): (s: string)
    ensures s != [] && (s[0] == '-' || IsDigit(s[0])) && IsDigit(s[|s| - 1])
  {
    var body := FormatUnsigned(if d.units < 0 then -d.units else d.units, d.scale);
    if d.units < 0 then "-" + body else body
  }

  /** A digit string, possibly behind a minus sign, reads as its unsigned value with that sign. */
  lemma ParseStrippedSigned(body: string, u: Decimal)
    requires body != [] && IsDigit(body[0])
    requires ParseUnsigned(body) == Some(u)
    ensures ParseStripped(body) == Some(u)
    ensures ParseStripped("-" + body) == Some(u.Negate())
  {
    assert ("-" + body)[1..] == body;
  }

  lemma ParseSigned(s: string, body: string, negative: bool, u: Decimal)
    requires s == if negative then "-" + body else body
    requires body != [] && IsDigit(body[0]) && IsDigit(body[|body| - 1])
    requires ParseUnsigned(body) == Some(u)
    ensures ParseNumber(s) == Some(if negative then u.Negate() else u)
  {
    NotSpace(s[0]);
    NotSpace(s[|s| - 1]);
    StripUnchanged(s);
    ParseStrippedSigned(body, u);
  }

  /** Blank text is not a number: `float('')` raises, and `to_numeric` gives `NaN`. */
  lemma BlankIsNotANumber(s: string)
    requires AllSpace(s)
    ensures ParseNumber(s) == None
  {
    StripEmptyIff(s);
    var parts := Split([], '.');
    assert |parts| == 1 && Join(parts, '.') == [];
  }

  /** Digits and the minus sign are not whitespace. */
  lemma NotSpace(c: char)
    ensures IsDigit(c) || c == '-' ==> !IsSpace(c)
  {
  }

  /** Parsing what `FormatDecimal` writes gives the same amount back. */
  lemma ParseFormat(d: Decimal)
    ensures ParseNumber(FormatDecimal(d)) == Some(d)
  {
    var n := if d.units < 0 then -d.units else d.units;
    var body := FormatUnsigned(n, d.scale);
    ParseFormatUnsigned(n, d.scale);
    var s := FormatDecimal(d);
    assert s == if d.units < 0 then "-" + body else body;
    ParseSigned(s, body, d.units < 0, Decimal(n, d.scale));
  }
}

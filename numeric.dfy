/**
 * Decimal text and numeric coercion.
 *
 * ParseNumber is the model of `pd.to_numeric(..., errors='coerce')` on one
 * text cell: a numeral becomes its value, anything else becomes null.
 */
module Numeric {
  import opened Wrappers

  predicate IsDigit(c: char) { '0' <= c <= '9' }

  predicate AllDigits(s: string) { forall i :: 0 <= i < |s| ==> IsDigit(s[i]) }

  function DigitValue(c: char): nat
    requires IsDigit(c)
  {
    c as int - '0' as int
  }

  function DigitChar(d: nat): (c: char)
    requires d < 10
    ensures IsDigit(c) && DigitValue(c) == d
  {
    ('0' as int + d) as char
  }

  /** Value of a digit string, most significant digit first; the empty string is 0. */
  function DigitsValue(s: string): nat
    requires AllDigits(s)
    decreases |s|
  {
    if s == [] then 0 else DigitsValue(s[..|s| - 1]) * 10 + DigitValue(s[|s| - 1])
  }

  /** The decimal rendering of n, without leading zeros. */
  function NatToDigits(n: nat): (s: string)
    ensures |s| >= 1 && AllDigits(s)
  {
    if n < 10 then [DigitChar(n)] else NatToDigits(n / 10) + [DigitChar(n % 10)]
  }

  /** The decimal rendering of an integer, with a leading '-' when negative. */
  function IntToText(i: int): string
  {
    if i < 0 then "-" + NatToDigits(-i) else NatToDigits(i)
  }

  /** Position of the first '.' in s, or |s| when there is none. */
  function DotIndex(s: string): (k: nat)
    ensures k <= |s|
    ensures k < |s| ==> s[k] == '.'
    ensures forall i :: 0 <= i < k ==> s[i] != '.'
  {
    if s == [] then 0 else if s[0] == '.' then 0 else 1 + DotIndex(s[1..])
  }

  /** The value of the digits after a '.': 0.d1d2... is (d1 + 0.d2...) / 10. */
  function FractionValue(f: string): real
    requires AllDigits(f)
    decreases |f|
  {
    if f == [] then 0.0 else (DigitValue(f[0]) as real + FractionValue(f[1..])) / 10.0
  }

  /** The value of the numeral w.f: the whole part plus the fraction. */
  function DecimalValue(w: string, f: string): real
    requires AllDigits(w) && AllDigits(f)
  {
    DigitsValue(w) as real + FractionValue(f)
  }

  /** The decimal text w.f. */
  function DecimalText(w: string, f: string): string
  {
    w + "." + f
  }

  /** Only digits and '.', at most one '.', and at least one digit. */
  predicate UnsignedNumeral(s: string)
  {
    && (forall i :: 0 <= i < |s| ==> IsDigit(s[i]) || s[i] == '.')
    && (forall i, j :: 0 <= i < j < |s| && s[i] == '.' ==> s[j] != '.')
    && (exists i :: 0 <= i < |s| && IsDigit(s[i]))
  }

  /** The texts `to_numeric` reads here: an optional leading sign, then an unsigned numeral. */
  predicate Numeral(s: string)
  {
    if |s| > 0 && (s[0] == '-' || s[0] == '+') then UnsignedNumeral(s[1..]) else UnsignedNumeral(s)
  }

  /** An unsigned numeral's value: the whole part plus the fraction after the '.'. */
  function ParseUnsigned(s: string): (r: Option<real>)
    ensures r.Some? <==> UnsignedNumeral(s)
  {
    var k := DotIndex(s);
    var whole := s[..k];
    var frac := if k < |s| then s[k + 1..] else "";
    assert forall i :: k < i < |s| ==> s[i] == frac[i - k - 1];
    if AllDigits(whole) && AllDigits(frac) && |whole| + |frac| > 0 then
      assert if |whole| > 0 then IsDigit(s[0]) else IsDigit(s[k + 1]);
      Some(DecimalValue(whole, frac))
    else
      assert UnsignedNumeral(s) ==> AllDigits(whole) && AllDigits(frac) && |whole| + |frac| > 0 by {
        if UnsignedNumeral(s) {
          var d :| 0 <= d < |s| && IsDigit(s[d]);
          assert d != k;
        }
      }
      None
  }

  /**
   * A cell's text read as a number: exactly the numerals are accepted, every
   * other text is null, as with errors='coerce'.
   */
  function ParseNumber(s: string): (r: Option<real>)
    ensures r.Some? <==> Numeral(s)
  {
    if |s| > 0 && (s[0] == '-' || s[0] == '+') then
      match ParseUnsigned(s[1..])
      case None => None
      case Some(x) => Some(if s[0] == '-' then -x else x)
    else
      ParseUnsigned(s)
  }

  /**
   * The numerals are exactly the texts that hold a digit, and otherwise only
   * digits, at most one '.' and a sign in first position.
   */
  lemma NumeralShape(s: string)
    ensures Numeral(s) <==>
      && (exists i :: 0 <= i < |s| && IsDigit(s[i]))
      && (forall i :: 0 <= i < |s| ==>
            IsDigit(s[i]) || s[i] == '.' || (i == 0 && (s[i] == '-' || s[i] == '+')))
      && (forall i, j :: 0 <= i < j < |s| && s[i] == '.' ==> s[j] != '.')
  {
    if |s| > 0 && (s[0] == '-' || s[0] == '+') {
      var t := s[1..];
      assert forall i :: 1 <= i < |s| ==> s[i] == t[i - 1];
      if UnsignedNumeral(t) {
        var d :| 0 <= d < |t| && IsDigit(t[d]);
        assert IsDigit(s[d + 1]);
      }
      if exists i :: 0 <= i < |s| && IsDigit(s[i]) {
        var d :| 0 <= d < |s| && IsDigit(s[d]);
        assert d != 0 && IsDigit(t[d - 1]);
      }
    }
  }

  /** `to_numeric` on a cell that may already be null. */
  function ParseCell(cell: Option<string>): (r: Option<real>)
    ensures cell.None? ==> r.None?
  {
    match cell
    case None => None
    case Some(s) => ParseNumber(s)
  }

  lemma {:induction false} DigitsRoundTrip(n: nat)
    ensures DigitsValue(NatToDigits(n)) == n
  {
    if n >= 10 {
      var s := NatToDigits(n);
      assert s[..|s| - 1] == NatToDigits(n / 10);
      DigitsRoundTrip(n / 10);
    }
  }

  lemma {:induction false} NoDotInDigits(s: string)
    requires AllDigits(s)
    ensures DotIndex(s) == |s|
  {
    if s != [] {
      NoDotInDigits(s[1..]);
    }
  }

  /** Reading back the rendering of any integer gives that integer. */
  lemma ParseIntRoundTrip(i: int)
    ensures ParseNumber(IntToText(i)) == Some(i as real)
  {
    var n: nat := if i < 0 then -i else i;
    var d := NatToDigits(n);
    NoDotInDigits(d);
    DigitsRoundTrip(n);
    assert d[..|d|] == d;
    assert ParseUnsigned(d) == Some(n as real);
    if i < 0 {
      assert IntToText(i)[1..] == d;
    }
  }

  /** A text with one '.' and digits on either side reads as whole part plus fraction. */
  lemma UnsignedDecimal(s: string, k: nat)
    requires k < |s| && s[k] == '.' && |s| > 1
    requires AllDigits(s[..k]) && AllDigits(s[k + 1..])
    ensures ParseUnsigned(s) == Some(DecimalValue(s[..k], s[k + 1..]))
  {
    assert DotIndex(s) == k by {
      assert forall i :: 0 <= i < k ==> s[i] == s[..k][i];
    }
  }

  /** Text that does not start with a sign is read as an unsigned numeral. */
  lemma UnsignedNumber(s: string)
    requires |s| == 0 || (s[0] != '-' && s[0] != '+')
    ensures ParseNumber(s) == ParseUnsigned(s)
  {
  }

  /** A leading '+' keeps an unsigned numeral's value and a leading '-' negates it. */
  lemma SignedNumeral(t: string, x: real)
    requires ParseUnsigned(t) == Some(x)
    ensures ParseNumber("+" + t) == Some(x)
    ensures ParseNumber("-" + t) == Some(-x)
  {
    assert ("+" + t)[1..] == t;
    assert ("-" + t)[1..] == t;
  }

  /**
   * A decimal numeral w.f, unsigned or signed, reads as the whole part plus
   * the fraction; either part may be empty but not both ("1.5", ".5", "2.").
   */
  lemma ParseDecimal(w: string, f: string)
    requires AllDigits(w) && AllDigits(f) && |w| + |f| > 0
    ensures ParseNumber(DecimalText(w, f)) == Some(DecimalValue(w, f))
    ensures ParseNumber("+" + DecimalText(w, f)) == Some(DecimalValue(w, f))
    ensures ParseNumber("-" + DecimalText(w, f)) == Some(-DecimalValue(w, f))
  {
    var s := DecimalText(w, f);
    assert s[..|w|] == w && s[|w| + 1..] == f;
    UnsignedDecimal(s, |w|);
    assert s[0] == '.' || IsDigit(s[0]);
    UnsignedNumber(s);
    SignedNumeral(s, DecimalValue(w, f));
  }

  /** Bathroom text such as "1.5" reads as 1.5. */
  lemma HalfBathExample()
    ensures ParseNumber("1.5") == Some(1.5)
  {
    var w, f := "1", "5";
    assert DigitsValue(w) == 1 by {
      assert w[..0] == "";
    }
    assert FractionValue(f) == 0.5 by {
      assert f[1..] == "";
    }
    ParseDecimal(w, f);
    assert DecimalText(w, f) == "1.5";
  }

  /** A signed numeral with an empty whole part: "-.5" reads as -0.5. */
  lemma SignedFractionExample()
    ensures ParseNumber("-.5") == Some(-0.5)
  {
    ParseDecimal("", "5");
    assert "-" + DecimalText("", "5") == "-.5";
  }

  /** Exponent notation is not a numeral here: "1e3" is null. */
  lemma ExponentExample()
    ensures ParseNumber("1e3") == None
  {
    assert !(IsDigit("1e3"[1]) || "1e3"[1] == '.');
  }

  /** A digit-only numeral, leading zeros allowed, reads as its digits' value, negated for '-'. */
  lemma ParseWhole(w: string)
    requires AllDigits(w) && |w| > 0
    ensures ParseNumber(w) == Some(DigitsValue(w) as real)
    ensures ParseNumber("+" + w) == Some(DigitsValue(w) as real)
    ensures ParseNumber("-" + w) == Some(-(DigitsValue(w) as real))
  {
    NoDotInDigits(w);
    assert w[..|w|] == w;
    UnsignedNumber(w);
    SignedNumeral(w, DigitsValue(w) as real);
  }
}

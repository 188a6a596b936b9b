/**
 * The first run of decimal digits in a text, as `str.extract('(\d+)')`
 * followed by `astype(float)` reads it: "3 dorm." gives 3, "Studio" gives null.
 */
module DigitRun {
  import opened Wrappers
  import opened Numeric

  predicate NoDigits(s: string) { forall i :: 0 <= i < |s| ==> !IsDigit(s[i]) }

  /** Length of the maximal run of digits at the start of s. */
  function RunLength(s: string): (n: nat)
    ensures n <= |s| && AllDigits(s[..n])
    ensures n < |s| ==> !IsDigit(s[n])
  {
    if s != [] && IsDigit(s[0]) then
      var n := 1 + RunLength(s[1..]);
      assert forall i :: 1 <= i < n ==> s[..n][i] == s[1..][..n - 1][i - 1];
      n
    else
      0
  }

  /** s[i..j] is the first maximal run of digits in s. */
  ghost predicate FirstRunAt(s: string, i: int, j: int)
  {
    && 0 <= i < j <= |s|
    && NoDigits(s[..i])
    && AllDigits(s[i..j])
    && (j < |s| ==> !IsDigit(s[j]))
  }

  function FirstInt(s: string): Option<nat>
  {
    if s == [] then None
    else if IsDigit(s[0]) then Some(DigitsValue(s[..RunLength(s)]))
    else FirstInt(s[1..])
  }

  /** The bedroom column after extraction: a null cell stays null. */
  function ExtractCount(cell: Option<string>): (r: Option<nat>)
    ensures cell.None? ==> r.None?
  {
    match cell
    case None => None
    case Some(s) => FirstInt(s)
  }

  /**
   * FirstInt is null exactly when the text has no digit, and otherwise is the
   * value of the first maximal run of digits.
   */
  lemma {:induction false} FirstIntSpec(s: string)
    ensures FirstInt(s).None? <==> NoDigits(s)
    ensures FirstInt(s).Some? ==>
      exists i, j :: FirstRunAt(s, i, j) && FirstInt(s).value == DigitsValue(s[i..j])
  {
    if s == [] {
    } else if IsDigit(s[0]) {
      var j := RunLength(s);
      assert s[0..j] == s[..j];
      assert FirstRunAt(s, 0, j);
    } else {
      FirstIntSpec(s[1..]);
      assert forall k :: 1 <= k < |s| ==> s[k] == s[1..][k - 1];
      if FirstInt(s[1..]).Some? {
        var i, j :| FirstRunAt(s[1..], i, j) && FirstInt(s[1..]).value == DigitsValue(s[1..][i..j]);
        assert s[1..][i..j] == s[i + 1..j + 1];
        assert s[..i + 1] == [s[0]] + s[1..][..i];
        assert FirstRunAt(s, i + 1, j + 1);
      }
    }
  }

  lemma {:induction false} RunOfRendering(n: nat, rest: string)
    requires rest == [] || !IsDigit(rest[0])
    ensures RunLength(NatToDigits(n) + rest) == |NatToDigits(n)|
  {
    RunOverDigits(NatToDigits(n), rest);
  }

  lemma {:induction false} RunOverDigits(d: string, rest: string)
    requires AllDigits(d)
    requires rest == [] || !IsDigit(rest[0])
    ensures RunLength(d + rest) == |d|
  {
    if d != [] {
      assert (d + rest)[1..] == d[1..] + rest;
      RunOverDigits(d[1..], rest);
    }
  }

  /**
   * Round trip: a number written in a text after a digit-free prefix and
   * before a non-digit is what extraction reads back.
   */
  lemma {:induction false} ExtractRoundTrip(prefix: string, n: nat, rest: string)
    requires NoDigits(prefix)
    requires rest == [] || !IsDigit(rest[0])
    ensures FirstInt(prefix + NatToDigits(n) + rest) == Some(n)
  {
    var d := NatToDigits(n);
    var s := prefix + d + rest;
    if prefix == [] {
      assert s == d + rest;
      RunOfRendering(n, rest);
      assert s[..|d|] == d;
      DigitsRoundTrip(n);
    } else {
      assert s[1..] == prefix[1..] + d + rest;
      ExtractRoundTrip(prefix[1..], n, rest);
    }
  }

  /** "3 dorm." gives 3 and "12 dorm." gives 12. */
  lemma ExtractExamples()
    ensures FirstInt("3 dorm.") == Some(3)
    ensures FirstInt("12 dorm.") == Some(12)
  {
    assert NatToDigits(3) == "3";
    assert "3 dorm." == "" + NatToDigits(3) + " dorm.";
    ExtractRoundTrip("", 3, " dorm.");
    assert NatToDigits(12) == NatToDigits(1) + "2" == "12";
    assert "12 dorm." == "" + NatToDigits(12) + " dorm.";
    ExtractRoundTrip("", 12, " dorm.");
  }

  /** "Studio" has no digit, so its bedroom count is null. */
  lemma ExtractStudio()
    ensures FirstInt("Studio") == None
  {
    var s := "Studio";
    assert forall i :: 0 <= i < |s| ==> !IsDigit(s[i]);
    FirstIntSpec(s);
  }
}

/**
  The `WIDTHxHEIGHT` geometry argument (egl-anim.cc and lorenceau-experiment.cc).
  Each side is read with `atof`; the model reads the leading run of decimal
  digits, which is what `atof` does on such strings.
*/
module Geometry {
  import opened Wrappers

  predicate IsDigit(c: char) {
    '0' <= c <= '9'
  }

  predicate AllDigits(s: string) {
    forall i :: 0 <= i < |s| ==> IsDigit(s[i])
  }

  /** Length of the leading run of digits of s. */
  function DigitRun(s: string): (n: nat)
    ensures n <= |s| && AllDigits(s[..n])
    ensures n < |s| ==> !IsDigit(s[n])
  {
    if s == [] || !IsDigit(s[0]) then 0
    else
      var n := 1 + DigitRun(s[1..]);
      assert s[..n] == [s[0]] + s[1..][..n - 1];
      n
  }

  /** Decimal value of a string of digits. */
  function DigitsValue(ds: string): nat
    requires AllDigits(ds)
  {
    if ds == [] then 0
    else 10 * DigitsValue(ds[..|ds| - 1]) + (ds[|ds| - 1] as int - '0' as int)
  }

  /** `atof` on a string whose number is a plain run of decimal digits; 0 when there is none. */
  function LeadingNumber(s: string): nat {
    DigitsValue(s[..DigitRun(s)])
  }

  /** Decimal notation of n, without leading zeros. */
  function NatToString(n: nat): (s: string)
    ensures |s| >= 1 && AllDigits(s)
  {
    if n < 10 then [('0' as int + n) as char]
    else NatToString(n / 10) + [('0' as int + n % 10) as char]
  }

  lemma {:induction false} NatToStringValue(n: nat)
    ensures DigitsValue(NatToString(n)) == n
  {
    if n >= 10 {
      var s := NatToString(n);
      assert s[..|s| - 1] == NatToString(n / 10);
      NatToStringValue(n / 10);
    }
  }

  /** A run of digits followed by a non-digit (or nothing) is read up to that point. */
  lemma {:induction false} DigitRunOfConcat(ds: string, rest: string)
    requires AllDigits(ds)
    requires rest == [] || !IsDigit(rest[0])
    ensures DigitRun(ds + rest) == |ds|
  {
    if ds != [] {
      assert (ds + rest)[1..] == ds[1..] + rest;
      DigitRunOfConcat(ds[1..], rest);
    }
  }

  /** The digits before a non-digit at index k are all the leading digits. */
  lemma {:induction false} DigitRunStopsAt(s: string, k: nat)
    requires k < |s| && !IsDigit(s[k])
    ensures DigitRun(s) == DigitRun(s[..k]) <= k
  {
    if k > 0 && IsDigit(s[0]) {
      assert s[..k][1..] == s[1..][..k - 1];
      DigitRunStopsAt(s[1..], k - 1);
    }
  }

  lemma LeadingNumberOfFormatted(n: nat, rest: string)
    requires rest == [] || !IsDigit(rest[0])
    ensures LeadingNumber(NatToString(n) + rest) == n
  {
    var s := NatToString(n);
    DigitRunOfConcat(s, rest);
    assert (s + rest)[..|s|] == s;
    NatToStringValue(n);
  }

  /** `std::string::find`: the index of the first occurrence of c. */
  function Find(s: string, c: char): (r: Option<nat>)
    ensures r.None? <==> c !in s
    ensures r.Some? ==> r.value < |s| && s[r.value] == c && c !in s[..r.value]
  {
    if s == [] then None
    else if s[0] == c then Some(0)
    else match Find(s[1..], c)
      case None => None
      case Some(k) =>
        assert s[..k + 1] == [s[0]] + s[1..][..k];
        Some(k + 1)
  }

  datatype GeometryError =
    | NoSeparator    // no 'x' in the string
    | ZeroDimension  // a side reads as 0

  /**
    Parse `WIDTHxHEIGHT`: the width is read from the text before the first
    'x', the height from the text after it, and neither may be zero.
  */
  function ParseDimensions(geom: string): (r: Result<(nat, nat), GeometryError>)
    ensures r == Err(NoSeparator) <==> 'x' !in geom
    ensures 'x' in geom ==>
      var sep := Find(geom, 'x').value;
      var w := LeadingNumber(geom[..sep]);
      var h := LeadingNumber(geom[sep + 1..]);
      (r == Err(ZeroDimension) <==> w == 0 || h == 0) && (r.Ok? ==> r.value == (w, h))
  {
    match Find(geom, 'x')
    case None => Err(NoSeparator)
    case Some(sep) =>
      // atof reads the whole string and stops at the separator
      DigitRunStopsAt(geom, sep);
      assert geom[..sep][..DigitRun(geom)] == geom[..DigitRun(geom)];
      var width := LeadingNumber(geom);
      var height := LeadingNumber(geom[sep + 1..]);
      if width == 0 || height == 0 then Err(ZeroDimension) else Ok((width, height))
  }

  /** Formatting two positive sides as `WIDTHxHEIGHT` and parsing gives them back. */
  lemma ParseFormatted(w: nat, h: nat)
    requires w >= 1 && h >= 1
    ensures ParseDimensions(NatToString(w) + "x" + NatToString(h)) == Ok((w, h))
  {
    var sw, sh := NatToString(w), NatToString(h);
    var geom := sw + "x" + sh;
    assert 'x' !in sw by {
      forall i | 0 <= i < |sw| ensures sw[i] != 'x' {
        assert IsDigit(sw[i]);
      }
    }
    assert geom[|sw|] == 'x';
    assert geom[..|sw|] == sw;
    var sep := Find(geom, 'x').value;
    assert sep == |sw|;
    assert geom[sep + 1..] == sh;
    LeadingNumberOfFormatted(w, []);
    assert sw + [] == sw;
    LeadingNumberOfFormatted(h, []);
    assert sh + [] == sh;
  }
}

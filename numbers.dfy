/**
 * Rust's fixed-width integers as far as the client uses them: `u8` (enum
 * discriminants, header bytes), `i32` (ids, page numbers), the decimal text
 * `format!("{n}")` prints for an `i32`, and `<i32 as FromStr>::from_str`.
 */
module Numbers {
  import opened Wrappers

  newtype u8 = x: int | 0 <= x < 0x100

  const I32_MIN: int := -0x8000_0000
  const I32_MAX: int := 0x7fff_ffff

  newtype i32 = x: int | -0x8000_0000 <= x < 0x8000_0000

  predicate IsDigit(c: char) {
    '0' <= c <= '9'
  }

  predicate AllDigits(s: string) {
    forall i :: 0 <= i < |s| ==> IsDigit(s[i])
  }

  function DigitChar(d: nat): (c: char)
    requires d < 10
    ensures IsDigit(c) && c as int - '0' as int == d
  {
    ('0' as int + d) as char
  }

  /** The value of a string of decimal digits, most significant first. */
  function DigitsValue(s: string): nat
    requires AllDigits(s)
  {
    if s == [] then 0 else DigitsValue(s[..|s| - 1]) * 10 + (s[|s| - 1] as int - '0' as int)
  }

  /** Decimal text of a natural number, without leading zeros. */
  function NatToDecimal(n: nat): (s: string)
    ensures |s| >= 1 && AllDigits(s)
    ensures |s| > 1 ==> s[0] != '0'
    ensures s[0] == '0' <==> n == 0
  {
    if n < 10 then [DigitChar(n)] else NatToDecimal(n / 10) + [DigitChar(n % 10)]
  }

  /** `format!("{n}")`: an optional minus sign, then the digits of the magnitude. */
  function IntToDecimal(n: int): (s: string)
    ensures |s| >= 1
    ensures forall i :: 0 <= i < |s| ==> IsDigit(s[i]) || s[i] == '-'
  {
    if n < 0 then "-" + NatToDecimal(-n) else NatToDecimal(n)
  }

  /**
   * Decimal text as `format!` prints it: an optional minus sign, then one or
   * more digits with no leading zero (a lone `0` excepted, and never `-0`).
   */
  predicate Canonical(s: string) {
    |s| >= 1 &&
    if s[0] == '-' then |s| >= 2 && AllDigits(s[1..]) && s[1] != '0'
    else AllDigits(s) && (|s| > 1 ==> s[0] != '0')
  }

  /** `format!("{n}")` for an `i32`: a minus sign exactly for negative values, digits elsewhere. */
  function I32ToDecimal(n: i32): (s: string)
    ensures |s| >= 1
    ensures s[0] == '-' <==> n < 0
    ensures AllDigits(s[1..])
    ensures n >= 0 ==> AllDigits(s)
    ensures n >= 0 && |s| > 1 ==> s[0] != '0'
    ensures n < 0 ==> |s| >= 2 && s[1] != '0'
    ensures Canonical(s)
  {
    var s := IntToDecimal(n as int);
    assert n < 0 ==> s[1..] == NatToDecimal(-(n as int));
    s
  }

  /** Appending digit `c` to the decimal digits of `a`. */
  lemma LastDigit(a: nat, c: nat)
    requires c < 10
    ensures (a * 10 + c) / 10 == a && (a * 10 + c) % 10 == c
  {
  }

  /** A digit string without a leading zero, other than `0` itself, has a positive value. */
  lemma {:induction false} DigitsValuePositive(d: string)
    requires |d| >= 1 && AllDigits(d) && d[0] != '0'
    ensures DigitsValue(d) >= 1
  {
    if |d| > 1 {
      var u := d[..|d| - 1];
      assert u[0] == d[0];
      DigitsValuePositive(u);
    }
  }

  /** Printing the value of a digit string without a leading zero gives that string back. */
  lemma {:induction false} NatToDecimalOfValue(d: string)
    requires |d| >= 1 && AllDigits(d) && (|d| > 1 ==> d[0] != '0')
    ensures NatToDecimal(DigitsValue(d)) == d
  {
    if |d| > 1 {
      var u := d[..|d| - 1];
      assert u[0] == d[0];
      assert |u| > 1 ==> u[0] != '0';
      DigitsValuePositive(u);
      NatToDecimalOfValue(u);
      var c := d[|d| - 1] as int - '0' as int;
      var n := DigitsValue(d);
      assert n == DigitsValue(u) * 10 + c;
      LastDigit(DigitsValue(u), c);
      assert NatToDecimal(n) == NatToDecimal(n / 10) + [DigitChar(n % 10)];
      assert d == u + [d[|d| - 1]];
    }
  }

  /**
   * The text `format!` prints is the only canonical text that parses to its
   * value: reading back pins the value, and canonical form pins the text.
   */
  lemma CanonicalTextUnique(s: string, n: i32)
    requires Canonical(s) && ParseI32(s) == Some(n)
    ensures s == I32ToDecimal(n)
  {
    if s[0] == '-' {
      var d := s[1..];
      NatToDecimalOfValue(d);
      DigitsValuePositive(d);
      assert s == "-" + d;
    } else {
      NatToDecimalOfValue(s);
    }
  }

  lemma {:induction false} NatToDecimalValue(n: nat)
    ensures DigitsValue(NatToDecimal(n)) == n
  {
    if n >= 10 {
      var s := NatToDecimal(n);
      assert s[..|s| - 1] == NatToDecimal(n / 10);
      NatToDecimalValue(n / 10);
    }
  }

  /** The text after an optional leading `+` or `-`. */
  function Magnitude(s: string): (d: string)
    ensures |d| == |s| - 1 || d == s
  {
    if |s| >= 1 && (s[0] == '+' || s[0] == '-') then s[1..] else s
  }

  /** -1 after a leading minus, 1 otherwise. */
  function SignOf(s: string): int {
    if |s| >= 1 && s[0] == '-' then -1 else 1
  }

  /** A leading zero adds nothing to the value of a digit string. */
  lemma {:induction false} DigitsValueLeadingZero(t: string)
    requires AllDigits(t)
    ensures AllDigits("0" + t) && DigitsValue("0" + t) == DigitsValue(t)
  {
    var z := "0" + t;
    assert AllDigits(z) by {
      forall i | 0 <= i < |z| ensures IsDigit(z[i]) {
        if i > 0 { assert z[i] == t[i - 1]; }
      }
    }
    if t != [] {
      var u := t[..|t| - 1];
      assert z[..|z| - 1] == "0" + u;
      assert z[|z| - 1] == t[|t| - 1];
      DigitsValueLeadingZero(u);
    }
  }

  /** `from_str` accepts leading zeros: they do not change the value parsed. */
  lemma ParseI32LeadingZero(t: string)
    requires |t| >= 1 && AllDigits(t)
    ensures ParseI32("0" + t) == ParseI32(t)
  {
    DigitsValueLeadingZero(t);
    assert Magnitude("0" + t) == "0" + t;
  }

  /**
   * `from_str` accepts an explicit `+` in front of an unsigned number, and a
   * `-` in front of one negates it.
   */
  lemma ParseI32Signs(t: string)
    requires |t| >= 1 && t[0] != '+' && t[0] != '-'
    ensures ParseI32("+" + t) == ParseI32(t)
    ensures ParseI32(t).Some? ==> ParseI32("-" + t) == Some((-(ParseI32(t).value as int)) as i32)
  {
  }

  /**
   * `<i32 as FromStr>::from_str`: an optional `+` or `-`, then one or more
   * ASCII digits (leading zeros allowed, no spaces); a lone sign, an empty
   * string, any other character, or a value outside `i32` is an error.
   */
  function ParseI32(s: string): (r: Option<i32>)
    ensures r.Some? <==>
      |s| >= 1 && |Magnitude(s)| >= 1 && AllDigits(Magnitude(s)) &&
      I32_MIN <= SignOf(s) * DigitsValue(Magnitude(s)) <= I32_MAX
    ensures r.Some? ==> r.value as int == SignOf(s) * DigitsValue(Magnitude(s))
    ensures r.Some? && s[0] != '-' ==> r.value >= 0
    ensures r.Some? && s[0] == '-' ==> r.value <= 0
  {
    if s == [] then None
    else if (s[0] == '+' || s[0] == '-') && |s| == 1 then None
    else
      var digits := if s[0] == '+' || s[0] == '-' then s[1..] else s;
      if !AllDigits(digits) then None
      else
        var magnitude: int := DigitsValue(digits);
        var v := if s[0] == '-' then -magnitude else magnitude;
        if I32_MIN <= v <= I32_MAX then Some(v as i32) else None
  }

  /** Reading back what `format!` printed gives the same `i32`. */
  lemma ParseI32RoundTrip(n: i32)
    ensures ParseI32(I32ToDecimal(n)) == Some(n)
  {
    var m := n as int;
    if m < 0 {
      var s := I32ToDecimal(n);
      assert s[0] == '-' && s[1..] == NatToDecimal(-m);
      NatToDecimalValue(-m);
    } else {
      NatToDecimalValue(m);
    }
  }

  /** Distinct `i32` values print differently. */
  lemma I32ToDecimalInjective(a: i32, b: i32)
    ensures I32ToDecimal(a) == I32ToDecimal(b) ==> a == b
  {
    ParseI32RoundTrip(a);
    ParseI32RoundTrip(b);
  }
}

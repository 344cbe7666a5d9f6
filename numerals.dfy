/**
 * Unsigned numerals as the Rust standard library reads them
 * (`u32::from_str_radix`, `str::parse::<u64>`): an optional `+`, then one or
 * more digits of the radix, and an error on anything else or on overflow.
 */
module Numerals {
  import opened Wrappers

  datatype Radix = Decimal | Hexadecimal {
    function Base(): nat {
      if Decimal? then 10 else 16
    }

    /** Digits are ASCII; hexadecimal letters may be of either case. */
    predicate IsDigit(c: char) {
      || '0' <= c <= '9'
      || (Hexadecimal? && ('a' <= c <= 'f' || 'A' <= c <= 'F'))
    }
  }

  predicate AllDigits(s: string, r: Radix) {
    forall i :: 0 <= i < |s| ==> r.IsDigit(s[i])
  }

  function DigitValue(c: char, r: Radix): (v: nat)
    requires r.IsDigit(c)
    ensures v < r.Base()
  {
    if '0' <= c <= '9' then c as int - '0' as int
    else if 'a' <= c <= 'f' then c as int - 'a' as int + 10
    else c as int - 'A' as int + 10
  }

  /** The value of a digit string, most significant digit first. */
  function Value(s: string, r: Radix): nat
    requires AllDigits(s, r)
  {
    if s == [] then 0
    else Value(s[..|s| - 1], r) * r.Base() + DigitValue(s[|s| - 1], r)
  }

  /** The lower-case digit for `d`. */
  function DigitChar(d: nat, r: Radix): (c: char)
    requires d < r.Base()
    ensures r.IsDigit(c) && DigitValue(c, r) == d
  {
    if d < 10 then ('0' as int + d) as char else ('a' as int + d - 10) as char
  }

  /** The shortest numeral for `n`: no sign, no leading zeros. */
  function Numeral(n: nat, r: Radix): (s: string)
    ensures |s| > 0 && AllDigits(s, r)
    ensures |s| > 1 ==> s[0] != '0'
    decreases n
  {
    if n < r.Base() then [DigitChar(n, r)]
    else Numeral(n / r.Base(), r) + [DigitChar(n % r.Base(), r)]
  }

  lemma {:induction false} ValueOfNumeral(n: nat, r: Radix)
    ensures Value(Numeral(n, r), r) == n
    decreases n
  {
    if n >= r.Base() {
      var init := Numeral(n / r.Base(), r);
      var s := Numeral(n, r);
      assert s[..|s| - 1] == init;
      ValueOfNumeral(n / r.Base(), r);
      assert n == (n / r.Base()) * r.Base() + n % r.Base();
    }
  }

  /**
   * `from_str_radix` for an unsigned type whose values are below `bound`:
   * an optional leading `+` (a lone `+` is an error), then at least one
   * digit; a value of `bound` or more is an overflow error.
   */
  function FromStrRadix(s: string, r: Radix, bound: nat): (v: Option<nat>)
    ensures v.Some? ==> v.value < bound
  {
    var digits := if |s| > 0 && s[0] == '+' then s[1..] else s;
    if digits == [] || !AllDigits(digits, r) then None
    else if Value(digits, r) < bound then Some(Value(digits, r))
    else None
  }

  /** Reading back the numeral of an in-range value gives the value. */
  lemma NumeralRoundTrip(n: nat, r: Radix, bound: nat)
    requires n < bound
    ensures FromStrRadix(Numeral(n, r), r, bound) == Some(n)
  {
    ValueOfNumeral(n, r);
    assert Numeral(n, r)[0] != '+';
  }

  /** One or more digits, with or without a leading `+`, read as their value when it is in range. */
  lemma DigitsRead(t: string, r: Radix, bound: nat)
    requires t != [] && AllDigits(t, r)
    ensures FromStrRadix(t, r, bound) == if Value(t, r) < bound then Some(Value(t, r)) else None
    ensures FromStrRadix("+" + t, r, bound) == FromStrRadix(t, r, bound)
  {
    assert r.IsDigit(t[0]);
    assert ("+" + t)[1..] == t;
  }

  /** Nothing, or a sign with no digits after it, is an error. */
  lemma NoDigitsRejected(r: Radix, bound: nat)
    ensures FromStrRadix("", r, bound) == None
    ensures FromStrRadix("+", r, bound) == None
  {
    assert "+"[1..] == "";
  }

  /** A character that is not a digit (other than one leading `+`) is rejected. */
  lemma StrayCharacterRejected(s: string, r: Radix, bound: nat, i: nat)
    requires 0 < i < |s| || (i == 0 < |s| && s[0] != '+')
    requires !r.IsDigit(s[i])
    ensures FromStrRadix(s, r, bound) == None
  {
    var digits := if |s| > 0 && s[0] == '+' then s[1..] else s;
    if s[0] == '+' {
      assert digits[i - 1] == s[i];
    } else {
      assert digits[i] == s[i];
    }
  }
}

/** Decimal rendering of numbers, as Python's `str(int)` and the `:.0%` format
    specifier produce it. Numbers are exact reals here, not binary doubles. */
module Numbers {

  function DigitChar(d: nat): (c: char)
    requires d < 10
    ensures '0' <= c <= '9' && c as int - '0' as int == d
  {
    ('0' as int + d) as char
  }

  predicate AllDigits(s: string) {
    forall i :: 0 <= i < |s| ==> '0' <= s[i] <= '9'
  }

  /** `str(n)` for a non-negative integer: no sign, no leading zeros. */
  function NatToString(n: nat): (r: string)
    ensures |r| >= 1 && AllDigits(r)
    ensures |r| > 1 ==> r[0] != '0'
    decreases n
  {
    if n < 10 then [DigitChar(n)] else NatToString(n / 10) + [DigitChar(n % 10)]
  }

  /** The value of a string of decimal digits (`int(s)` without sign or spaces). */
  function ParseDigits(s: string): nat
    requires AllDigits(s)
  {
    if s == [] then 0 else ParseDigits(s[..|s| - 1]) * 10 + (s[|s| - 1] as int - '0' as int)
  }

  /** Reading back the rendering of `n` gives `n`. */
  lemma {:induction false} ParseNatToString(n: nat)
    ensures ParseDigits(NatToString(n)) == n
    decreases n
  {
    if n >= 10 {
      ParseNatToString(n / 10);
      var s := NatToString(n);
      assert s[..|s| - 1] == NatToString(n / 10);
    }
  }

  /** The text of an integer literal: digits, optionally after a minus sign. */
  predicate IntText(s: string) {
    || (|s| >= 1 && AllDigits(s))
    || (|s| >= 2 && s[0] == '-' && AllDigits(s[1..]))
  }

  /** The text `str` gives an integer: no leading zero, and no `-0`. */
  predicate CanonicalInt(s: string) {
    && IntText(s)
    && (s[0] == '-' ==> s[1] != '0')
    && (s[0] != '-' && |s| > 1 ==> s[0] != '0')
  }

  /** `int(s)` on such a text. */
  function ParseInt(s: string): int
    requires IntText(s)
  {
    if s[0] == '-' then -(ParseDigits(s[1..]) as int) else ParseDigits(s) as int
  }

  /** `str(i)` for any integer: it reads back as `i`, carries a minus sign
      exactly when `i` is negative, and has no leading zero. */
  function IntToString(i: int): (r: string)
    ensures IntText(r) && ParseInt(r) == i
    ensures i < 0 <==> r[0] == '-'
    ensures CanonicalInt(r)
  {
    var n: nat := if i < 0 then -i else i;
    ParseNatToString(n);
    var digits := NatToString(n);
    if i < 0 then
      assert ("-" + digits)[1..] == digits;
      "-" + digits
    else digits
  }

  /** Rounding to the nearest integer, ties to the even neighbour (the rounding of
      Python's format specifiers and of `round`). */
  function RoundHalfEven(x: real): (r: int)
    ensures x - 0.5 <= r as real <= x + 0.5
    ensures r as real - x == 0.5 || x - r as real == 0.5 ==> r % 2 == 0
  {
    var f := x.Floor;
    var frac := x - f as real;
    if frac < 0.5 then f
    else if frac > 0.5 then f + 1
    else if f % 2 == 0 then f else f + 1
  }

  /** `f"{x:.0%}"`: the ratio times one hundred, rounded, followed by a percent
      sign. The sign of a negative ratio survives rounding to zero (`-0%`). */
  function PercentText(x: real): (r: string)
    ensures |r| >= 2 && r[|r| - 1] == '%'
    ensures IntText(r[..|r| - 1]) && ParseInt(r[..|r| - 1]) == RoundHalfEven(x * 100.0)
    ensures r[0] == '-' <==> x < 0.0
    ensures x < 0.0 && RoundHalfEven(x * 100.0) == 0 ==> r == "-0%"
    ensures !(x < 0.0 && RoundHalfEven(x * 100.0) == 0) ==> CanonicalInt(r[..|r| - 1])
  {
    var n := RoundHalfEven(x * 100.0);
    if x < 0.0 && n == 0 then
      assert "-0"[1..] == "0" && "0"[..0] == [];
      assert ParseDigits("0") == 0;
      "-0%"
    else
      var t := IntToString(n);
      assert (t + "%")[..|t|] == t;
      t + "%"
  }
}

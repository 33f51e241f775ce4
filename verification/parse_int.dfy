/** JavaScript's global `parseInt(string)` called without a radix, as the
    ECMAScript algorithm defines it (ECMA-262, section 19.2.5 "parseInt"):
    skip leading white space, read an optional sign, read an optional `0x` or
    `0X` prefix that switches to radix 16, then take the longest run of digits
    of the radix; an empty run is NaN.

    The Number that `parseInt` returns is modelled as an unbounded integer.
    The form only compares it with 0, 1 and 10, and rounding to the nearest
    double, -0 and Infinity never change the outcome of those comparisons. */
module JsParseInt {
  import opened Chars

  /** The result of `parseInt`: NaN, or an integral Number. */
  datatype JsInt = NaN | Int(value: int)

  /** JavaScript's `<=`, `<` and `>` between a `parseInt` result and an
      integer literal: every comparison involving NaN is false. */
  predicate AtMost(x: JsInt, k: int) {
    x.Int? && x.value <= k
  }

  predicate Below(x: JsInt, k: int) {
    x.Int? && x.value < k
  }

  predicate Above(x: JsInt, k: int) {
    x.Int? && x.value > k
  }

  predicate AllSpace(w: string) {
    forall i | 0 <= i < |w| :: IsSpace(w[i])
  }

  /** TrimString(s, start): drops the leading white space. */
  function TrimStart(s: string): string {
    if |s| > 0 && IsSpace(s[0]) then TrimStart(s[1..]) else s
  }

  /** What `TrimStart` leaves is a suffix of its input, everything it dropped
      is white space, and it stops at the first character that is not. */
  lemma {:induction false} TrimStartDropsSpace(s: string)
    ensures var t := TrimStart(s);
      && |t| <= |s| && t == s[|s| - |t|..]
      && AllSpace(s[..|s| - |t|])
      && (t == [] || !IsSpace(t[0]))
    decreases |s|
  {
    if |s| > 0 && IsSpace(s[0]) {
      TrimStartDropsSpace(s[1..]);
      var t := TrimStart(s);
      assert s[..|s| - |t|] == [s[0]] + s[1..][..|s| - 1 - |t|];
    }
  }

  /** The prefix of `s` that `parseInt` reads as digits of `radix`. */
  function DigitRun(s: string, radix: Radix): string {
    if |s| > 0 && radix.IsDigitOf(s[0]) then [s[0]] + DigitRun(s[1..], radix) else []
  }

  /** `DigitRun` is the longest prefix made of digits of the radix. */
  lemma {:induction false} DigitRunIsLongest(s: string, radix: Radix)
    ensures var d := DigitRun(s, radix);
      && |d| <= |s| && d == s[..|d|]
      && AllDigitsOf(d, radix)
      && (|d| == |s| || !radix.IsDigitOf(s[|d|]))
    decreases |s|
  {
    if |s| > 0 && radix.IsDigitOf(s[0]) {
      DigitRunIsLongest(s[1..], radix);
    }
  }

  /** The value of a digit string in the given radix, most significant digit
      first. */
  function DigitsValue(d: string, radix: Radix): nat
    requires AllDigitsOf(d, radix)
  {
    if |d| == 0 then 0
    else DigitsValue(d[..|d| - 1], radix) * radix.Base() + radix.ValueOf(d[|d| - 1])
  }

  predicate HasHexPrefix(s: string) {
    |s| >= 2 && s[0] == '0' && (s[1] == 'x' || s[1] == 'X')
  }

  /** Steps after the sign: the optional `0x` prefix, then the digit run. */
  function ParseMagnitude(u: string): (r: JsInt)
    ensures r.Int? ==> r.value >= 0
  {
    var radix := if HasHexPrefix(u) then Hexadecimal else Decimal;
    var body := if HasHexPrefix(u) then u[2..] else u;
    var z := DigitRun(body, radix);
    DigitRunIsLongest(body, radix);
    if |z| == 0 then NaN else Int(DigitsValue(z, radix))
  }

  function Negate(x: JsInt): JsInt {
    if x.NaN? then NaN else Int(-x.value)
  }

  function ParseInt(input: string): (r: JsInt)
  {
    var s := TrimStart(input);
    if |s| > 0 && s[0] == '-' then Negate(ParseMagnitude(s[1..]))
    else if |s| > 0 && s[0] == '+' then ParseMagnitude(s[1..])
    else ParseMagnitude(s)
  }

  /** The text after the white space and the sign. */
  function Unsigned(input: string): string {
    var s := TrimStart(input);
    if |s| > 0 && (s[0] == '-' || s[0] == '+') then s[1..] else s
  }

  /** When `parseInt` gives NaN: nothing but white space and a sign, a
      first character that is not a decimal digit, or a bare `0x` prefix. */
  lemma ParseIntNaN(input: string)
    ensures ParseInt(input) == NaN <==>
      var u := Unsigned(input);
      || u == []
      || !IsDigit(u[0])
      || (HasHexPrefix(u) && (|u| == 2 || !IsHexDigit(u[2])))
  {
  }

  /** The shortest decimal numeral of a natural number. */
  function Numeral(m: nat): (d: string)
    ensures |d| > 0 && AllDigitsOf(d, Decimal)
    ensures d[0] == '0' ==> m == 0
    decreases m
  {
    if m < 10 then [DigitChar(m)] else Numeral(m / 10) + [DigitChar(m % 10)]
  }

  /** The decimal text of an integer, with a leading `-` when negative, as
      `String(n)` writes it. */
  function DecimalString(n: int): string {
    if n < 0 then "-" + Numeral(-n) else Numeral(n)
  }

  lemma {:induction false} NumeralValue(m: nat)
    ensures DigitsValue(Numeral(m), Decimal) == m
    decreases m
  {
    if m >= 10 {
      var d := Numeral(m);
      assert d[..|d| - 1] == Numeral(m / 10);
      NumeralValue(m / 10);
    }
  }

  lemma {:induction false} DigitRunStops(d: string, rest: string, radix: Radix)
    requires AllDigitsOf(d, radix)
    requires rest == [] || !radix.IsDigitOf(rest[0])
    ensures DigitRun(d + rest, radix) == d
    decreases |d|
  {
    if |d| > 0 {
      assert (d + rest)[1..] == d[1..] + rest;
      DigitRunStops(d[1..], rest, radix);
    }
  }

  lemma {:induction false} TrimStartSkips(w: string, t: string)
    requires AllSpace(w)
    requires t == [] || !IsSpace(t[0])
    ensures TrimStart(w + t) == t
    decreases |w|
  {
    if |w| > 0 {
      assert (w + t)[1..] == w[1..] + t;
      TrimStartSkips(w[1..], t);
    } else {
      assert w + t == t;
    }
  }

  /** The unsigned part of the round trip below. */
  lemma ParseMagnitudeOfNumeral(m: nat, rest: string)
    requires rest == [] || !IsDigit(rest[0])
    requires m == 0 ==> rest == [] || (rest[0] != 'x' && rest[0] != 'X')
    ensures ParseMagnitude(Numeral(m) + rest) == Int(m)
  {
    var d := Numeral(m);
    assert !HasHexPrefix(d + rest) by {
      assert (d + rest)[0] == d[0];
      if |d| > 1 {
        assert (d + rest)[1] == d[1];
      }
    }
    DigitRunStops(d, rest, Decimal);
    NumeralValue(m);
  }

  lemma ParseIntAfterMinus(w: string, u: string)
    requires AllSpace(w)
    ensures ParseInt(w + ("-" + u)) == Negate(ParseMagnitude(u))
  {
    var text := "-" + u;
    TrimStartSkips(w, text);
    assert text[1..] == u;
  }

  lemma ParseIntAfterDigit(w: string, u: string)
    requires AllSpace(w)
    requires |u| > 0 && IsDigit(u[0])
    ensures ParseInt(w + u) == ParseMagnitude(u)
  {
    SpaceIsNotAlphanumeric(u[0]);
    TrimStartSkips(w, u);
  }

  lemma ParseIntAfterPlus(w: string, u: string)
    requires AllSpace(w)
    ensures ParseInt(w + ("+" + u)) == ParseMagnitude(u)
  {
    var text := "+" + u;
    TrimStartSkips(w, text);
    assert text[1..] == u;
  }

  /** `prefix + z + rest` is a numeral that `parseInt` reads as the digits `z`
      of `radix`: the prefix is `0x` or `0X` for radix 16 and empty for radix
      10, `z` is a non-empty run of digits of the radix, `rest` does not
      continue it, and in radix 10 the text does not itself open with a hex
      prefix (as `0x1` does). */
  predicate NumeralText(prefix: string, z: string, rest: string, radix: Radix) {
    && (if radix == Hexadecimal then prefix == "0x" || prefix == "0X" else prefix == "")
    && |z| > 0 && AllDigitsOf(z, radix)
    && (rest == [] || !radix.IsDigitOf(rest[0]))
    && (radix == Decimal ==> !HasHexPrefix(z + rest))
  }

  /** The unsigned part of `ParseIntOfDigits`. */
  lemma MagnitudeOfDigits(prefix: string, z: string, rest: string, radix: Radix)
    requires NumeralText(prefix, z, rest, radix)
    ensures ParseMagnitude(prefix + z + rest) == Int(DigitsValue(z, radix))
  {
    var u := prefix + z + rest;
    DigitRunStops(z, rest, radix);
    if radix == Hexadecimal {
      assert u[0] == '0' && (u[1] == 'x' || u[1] == 'X');
      assert u[2..] == z + rest;
    } else {
      assert u == z + rest;
    }
  }

  /** What `parseInt` returns for any numeral: white space, an optional sign,
      an optional `0x` prefix, a run of digits (leading zeros allowed), and
      text that does not continue the run. The result is the value of the
      digits in their radix, negated after a `-`. */
  lemma ParseIntOfDigits(w: string, sign: string, prefix: string, z: string, rest: string, radix: Radix)
    requires AllSpace(w)
    requires sign == "" || sign == "+" || sign == "-"
    requires NumeralText(prefix, z, rest, radix)
    ensures ParseInt(w + sign + prefix + z + rest) ==
      Int(if sign == "-" then -(DigitsValue(z, radix) as int) else DigitsValue(z, radix))
  {
    MagnitudeOfDigits(prefix, z, rest, radix);
    if sign == "-" {
      NegativeDigits(w, prefix, z, rest);
    } else if sign == "+" {
      PositiveDigits(w, prefix, z, rest);
    } else {
      UnsignedDigits(w, prefix, z, rest, radix);
    }
  }

  lemma NegativeDigits(w: string, prefix: string, z: string, rest: string)
    requires AllSpace(w)
    ensures ParseInt(w + "-" + prefix + z + rest) == Negate(ParseMagnitude(prefix + z + rest))
  {
    assert w + "-" + prefix + z + rest == w + ("-" + (prefix + z + rest));
    ParseIntAfterMinus(w, prefix + z + rest);
  }

  lemma PositiveDigits(w: string, prefix: string, z: string, rest: string)
    requires AllSpace(w)
    ensures ParseInt(w + "+" + prefix + z + rest) == ParseMagnitude(prefix + z + rest)
  {
    assert w + "+" + prefix + z + rest == w + ("+" + (prefix + z + rest));
    ParseIntAfterPlus(w, prefix + z + rest);
  }

  lemma UnsignedDigits(w: string, prefix: string, z: string, rest: string, radix: Radix)
    requires AllSpace(w)
    requires NumeralText(prefix, z, rest, radix)
    ensures ParseInt(w + "" + prefix + z + rest) == ParseMagnitude(prefix + z + rest)
  {
    var u := prefix + z + rest;
    assert w + "" + prefix + z + rest == w + u;
    assert u[0] == if prefix == "" then z[0] else '0';
    ParseIntAfterDigit(w, u);
  }

  /** Round trip: `parseInt` reads back the decimal text of any integer,
      whatever white space precedes it and whatever follows it, provided the
      text after it does not continue the numeral: it must not start with a
      digit, and after a lone `0` it must not start with `x` or `X`. */
  lemma ParseIntRoundTrip(w: string, n: int, rest: string)
    requires AllSpace(w)
    requires rest == [] || !IsDigit(rest[0])
    requires n == 0 ==> rest == [] || (rest[0] != 'x' && rest[0] != 'X')
    ensures ParseInt(w + DecimalString(n) + rest) == Int(n)
  {
    if n < 0 {
      NegativeRoundTrip(w, -n, rest);
    } else {
      NaturalRoundTrip(w, n, rest);
    }
  }

  lemma NaturalRoundTrip(w: string, m: nat, rest: string)
    requires AllSpace(w)
    requires rest == [] || !IsDigit(rest[0])
    requires m == 0 ==> rest == [] || (rest[0] != 'x' && rest[0] != 'X')
    ensures ParseInt(w + Numeral(m) + rest) == Int(m)
  {
    var d := Numeral(m);
    ParseMagnitudeOfNumeral(m, rest);
    assert w + d + rest == w + (d + rest);
    assert (d + rest)[0] == d[0];
    ParseIntAfterDigit(w, d + rest);
  }

  lemma NegativeRoundTrip(w: string, m: nat, rest: string)
    requires AllSpace(w) && m > 0
    requires rest == [] || !IsDigit(rest[0])
    ensures ParseInt(w + ("-" + Numeral(m)) + rest) == Int(-(m as int))
  {
    var d := Numeral(m);
    ParseMagnitudeOfNumeral(m, rest);
    assert w + ("-" + d) + rest == w + ("-" + (d + rest));
    ParseIntAfterMinus(w, d + rest);
  }
}

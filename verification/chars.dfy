/** Character classes used by the form's regular expressions and by
    JavaScript's `parseInt`. A `char` is a Unicode scalar value. For every
    character of the Basic Multilingual Plane that is one UTF-16 code unit of
    a JavaScript string; a character above U+FFFF is one `char` here but two
    code units in JavaScript. Every class below contains only characters of
    the Basic Multilingual Plane. */
module Chars {

  /** `\d` (and `[0-9]`): ASCII decimal digits only. */
  predicate IsDigit(c: char) {
    '0' <= c <= '9'
  }

  /** `[A-Za-z]`: ASCII letters in either case. */
  predicate IsAsciiLetter(c: char) {
    'A' <= c <= 'Z' || 'a' <= c <= 'z'
  }

  /** A digit of radix 16 as `parseInt` reads it after a `0x` prefix. */
  predicate IsHexDigit(c: char) {
    IsDigit(c) || 'a' <= c <= 'f' || 'A' <= c <= 'F'
  }

  /** The numeric value of a decimal digit. */
  function DigitValue(c: char): (v: nat)
    requires IsDigit(c)
    ensures v < 10
  {
    c as int - '0' as int
  }

  /** The numeric value of a hexadecimal digit. */
  function HexDigitValue(c: char): (v: nat)
    requires IsHexDigit(c)
    ensures v < 16
    ensures IsDigit(c) ==> v == DigitValue(c)
  {
    if IsDigit(c) then DigitValue(c)
    else if 'a' <= c <= 'f' then c as int - 'a' as int + 10
    else c as int - 'A' as int + 10
  }

  /** The decimal digit character for a value below ten. */
  function DigitChar(k: nat): (c: char)
    requires k < 10
    ensures IsDigit(c) && DigitValue(c) == k
  {
    ('0' as int + k) as char
  }

  /** The two radixes `parseInt` reads without an explicit radix argument. */
  datatype Radix = Decimal | Hexadecimal {
    function Base(): nat {
      if Decimal? then 10 else 16
    }

    predicate IsDigitOf(c: char) {
      if Decimal? then IsDigit(c) else IsHexDigit(c)
    }

    function ValueOf(c: char): (v: nat)
      requires IsDigitOf(c)
      ensures v < Base()
    {
      if Decimal? then DigitValue(c) else HexDigitValue(c)
    }
  }

  /** Every character of `d` is a digit of the radix. */
  predicate AllDigitsOf(d: string, radix: Radix) {
    forall i | 0 <= i < |d| :: radix.IsDigitOf(d[i])
  }

  /** ECMAScript `WhiteSpace` or `LineTerminator`: the code units matched by
      `\s` in a regular expression and skipped by `parseInt` before the
      numeral. These are TAB, LF, VT, FF, CR, SPACE, NO-BREAK SPACE, the other
      members of Unicode category Zs, LINE and PARAGRAPH SEPARATOR, and the
      byte-order mark. */
  predicate IsSpace(c: char) {
    var u := c as int;
    || 0x09 <= u <= 0x0D
    || u == 0x20
    || u == 0xA0
    || u == 0x1680
    || 0x2000 <= u <= 0x200A
    || u == 0x2028
    || u == 0x2029
    || u == 0x202F
    || u == 0x205F
    || u == 0x3000
    || u == 0xFEFF
  }

  /** No digit and no letter is white space, so the classes above never
      overlap with `\s`. */
  lemma SpaceIsNotAlphanumeric(c: char)
    ensures IsSpace(c) ==> !IsHexDigit(c) && !IsAsciiLetter(c)
    ensures IsSpace(c) ==> c != '@' && c != '.' && c != '+' && c != '-'
  {
  }
}

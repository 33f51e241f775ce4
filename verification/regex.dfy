/** The fragment of JavaScript regular expressions that the order form uses,
    with the meaning that `/^…$/.test(s)` gives it: the pattern is anchored at
    both ends and has no flags, so `test` answers whether `s` as a whole
    belongs to the language of the pattern. Backtracking finds a match
    whenever one exists, so a language-membership definition is exact. */
module Regex {
  import opened Chars

  datatype CharClass =
    | Digit                      // \d
    | Range(lo: char, hi: char)  // [lo-hi]
    | Letter                     // [A-Za-z]
    | Exactly(c: char)           // a literal character, escaped or not
    | NotSpaceNor(c: char)       // [^\s c]

  predicate InClass(cc: CharClass, ch: char) {
    match cc
    case Digit => IsDigit(ch)
    case Range(lo, hi) => lo <= ch <= hi
    case Letter => IsAsciiLetter(ch)
    case Exactly(c) => ch == c
    case NotSpaceNor(c) => !IsSpace(ch) && ch != c
  }

  datatype Regex =
    | Empty                      // the empty pattern
    | Chr(cc: CharClass)         // one character of a class
    | Cat(a: Regex, b: Regex)    // a b
    | Alt(a: Regex, b: Regex)    // (a|b)
    | Opt(a: Regex)              // a?
    | Plus(a: Regex)             // a+

  /** `r{n}`: n copies of `r` in a row. */
  function Repeat(r: Regex, n: nat): Regex {
    if n == 0 then Empty else Cat(r, Repeat(r, n - 1))
  }

  /** A run of single-character classes, such as `[A-Za-z]\d[A-Za-z]`. */
  function Word(ccs: seq<CharClass>): Regex {
    if |ccs| == 0 then Empty else Cat(Chr(ccs[0]), Word(ccs[1..]))
  }

  /** Does the whole of `s` match `r`? */
  predicate Matches(r: Regex, s: string)
    decreases r, |s|
  {
    match r
    case Empty => |s| == 0
    case Chr(cc) => |s| == 1 && InClass(cc, s[0])
    case Cat(a, b) => exists i | 0 <= i <= |s| :: Matches(a, s[..i]) && Matches(b, s[i..])
    case Alt(a, b) => Matches(a, s) || Matches(b, s)
    case Opt(a) => |s| == 0 || Matches(a, s)
    // one iteration, or a non-empty first iteration followed by more; empty
    // iterations in the middle of a longer match can always be dropped
    case Plus(a) =>
      || Matches(a, s)
      || exists i | 0 < i < |s| :: Matches(a, s[..i]) && Matches(Plus(a), s[i..])
  }

  datatype Width = Fixed(n: nat) | Variable

  /** The length every match of `r` has, when the syntax fixes it. */
  function WidthOf(r: Regex): Width {
    match r
    case Empty => Fixed(0)
    case Chr(_) => Fixed(1)
    case Cat(a, b) =>
      if WidthOf(a).Fixed? && WidthOf(b).Fixed? then Fixed(WidthOf(a).n + WidthOf(b).n) else Variable
    case Alt(a, b) => if WidthOf(a) == WidthOf(b) then WidthOf(a) else Variable
    case Opt(_) => Variable
    case Plus(_) => Variable
  }

  lemma {:induction false} MatchLength(r: Regex, s: string)
    requires WidthOf(r).Fixed? && Matches(r, s)
    ensures |s| == WidthOf(r).n
  {
    match r
    case Empty =>
    case Chr(_) =>
    case Cat(a, b) =>
      var i :| 0 <= i <= |s| && Matches(a, s[..i]) && Matches(b, s[i..]);
      MatchLength(a, s[..i]);
      MatchLength(b, s[i..]);
    case Alt(a, b) =>
      if Matches(a, s) {
        MatchLength(a, s);
      } else {
        MatchLength(b, s);
      }
  }

  /** A concatenation whose left part has a fixed width splits at that width. */
  lemma CatLeftFixed(a: Regex, b: Regex, s: string)
    requires WidthOf(a).Fixed?
    ensures Matches(Cat(a, b), s) <==>
      var n := WidthOf(a).n;
      n <= |s| && Matches(a, s[..n]) && Matches(b, s[n..])
  {
    var n := WidthOf(a).n;
    if Matches(Cat(a, b), s) {
      var i :| 0 <= i <= |s| && Matches(a, s[..i]) && Matches(b, s[i..]);
      MatchLength(a, s[..i]);
    } else if n <= |s| {
      assert !(Matches(a, s[..n]) && Matches(b, s[n..]));
    }
  }

  /** `c?` matches nothing, or `c` alone. */
  lemma OptExactly(c: char, t: string)
    ensures Matches(Opt(Chr(Exactly(c))), t) <==> |t| == 0 || (|t| == 1 && t[0] == c)
  {
  }

  /** A pattern that starts with an optional fixed character: the character
      is either absent or the first of the string. */
  lemma CatOptExactly(c: char, b: Regex, s: string)
    ensures Matches(Cat(Opt(Chr(Exactly(c))), b), s) <==>
      Matches(b, s) || (|s| > 0 && s[0] == c && Matches(b, s[1..]))
  {
    var o := Opt(Chr(Exactly(c)));
    if Matches(Cat(o, b), s) {
      var i :| 0 <= i <= |s| && Matches(o, s[..i]) && Matches(b, s[i..]);
      OptExactly(c, s[..i]);
      if i == 0 {
        assert s[i..] == s;
      }
    }
    if Matches(b, s) {
      OptExactly(c, s[..0]);
      assert s[0..] == s;
      assert Matches(o, s[..0]) && Matches(b, s[0..]);
    }
    if |s| > 0 && s[0] == c && Matches(b, s[1..]) {
      OptExactly(c, s[..1]);
      assert Matches(o, s[..1]) && Matches(b, s[1..]);
    }
  }

  /** A pattern that starts with one fixed character. */
  lemma CatExactly(c: char, b: Regex, s: string)
    ensures Matches(Cat(Chr(Exactly(c)), b), s) <==> |s| > 0 && s[0] == c && Matches(b, s[1..])
  {
    CatLeftFixed(Chr(Exactly(c)), b, s);
    if |s| > 0 {
      assert Matches(Chr(Exactly(c)), s[..1]) <==> s[0] == c;
    }
  }

  /** A match of a pattern `a c b` around one literal character splits at an
      occurrence of that character... */
  lemma CatAtCharSplit(a: Regex, c: char, b: Regex, s: string) returns (i: int)
    requires Matches(Cat(a, Cat(Chr(Exactly(c)), b)), s)
    ensures 0 <= i < |s| && s[i] == c && Matches(a, s[..i]) && Matches(b, s[i + 1..])
  {
    i :| 0 <= i <= |s| && Matches(a, s[..i]) && Matches(Cat(Chr(Exactly(c)), b), s[i..]);
    CatExactly(c, b, s[i..]);
    assert s[i..][1..] == s[i + 1..];
  }

  /** ... and every such occurrence joins two matches into one. */
  lemma CatAtCharJoin(a: Regex, c: char, b: Regex, s: string, i: int)
    requires 0 <= i < |s| && s[i] == c && Matches(a, s[..i]) && Matches(b, s[i + 1..])
    ensures Matches(Cat(a, Cat(Chr(Exactly(c)), b)), s)
  {
    CatExactly(c, b, s[i..]);
    assert s[i..][1..] == s[i + 1..];
    assert Matches(Cat(Chr(Exactly(c)), b), s[i..]);
  }

  lemma {:induction false} WordWidth(ccs: seq<CharClass>)
    ensures WidthOf(Word(ccs)) == Fixed(|ccs|)
    decreases |ccs|
  {
    if |ccs| > 0 {
      WordWidth(ccs[1..]);
    }
  }

  /** A word matches exactly the strings of its length whose every character
      is in the class at the same position. */
  lemma {:induction false} WordMatches(ccs: seq<CharClass>, s: string)
    ensures Matches(Word(ccs), s) <==>
      |s| == |ccs| && forall i | 0 <= i < |s| :: InClass(ccs[i], s[i])
    decreases |ccs|
  {
    if |ccs| > 0 {
      CatLeftFixed(Chr(ccs[0]), Word(ccs[1..]), s);
      if |s| > 0 {
        WordMatches(ccs[1..], s[1..]);
      }
    }
  }

  /** `c{n}` matches exactly the strings of length n drawn from the class. */
  lemma {:induction false} RepeatMatches(cc: CharClass, n: nat, s: string)
    ensures Matches(Repeat(Chr(cc), n), s) <==>
      |s| == n && forall i | 0 <= i < |s| :: InClass(cc, s[i])
    decreases n
  {
    if n > 0 {
      CatLeftFixed(Chr(cc), Repeat(Chr(cc), n - 1), s);
      if |s| > 0 {
        RepeatMatches(cc, n - 1, s[1..]);
      }
    }
  }

  /** `c+` matches exactly the non-empty strings drawn from the class. */
  lemma {:induction false} PlusMatches(cc: CharClass, s: string)
    ensures Matches(Plus(Chr(cc)), s) <==>
      |s| > 0 && forall i | 0 <= i < |s| :: InClass(cc, s[i])
    decreases |s|
  {
    if |s| > 1 {
      PlusMatches(cc, s[1..]);
      if Matches(Plus(Chr(cc)), s) {
        assert !Matches(Chr(cc), s);
        var i :| 0 < i < |s| && Matches(Chr(cc), s[..i]) && Matches(Plus(Chr(cc)), s[i..]);
        assert i == 1;
      } else {
        assert !(Matches(Chr(cc), s[..1]) && Matches(Plus(Chr(cc)), s[1..]));
      }
    }
  }
}

/** The five regular expressions of the order form (src/ticketForm.jsx,
    lines 41, 52, 69, 75 and 96), transcribed into the `Regex` syntax, and for
    each one a plain description of the strings it accepts, proved equal to
    the pattern's language. */
module Patterns {
  import opened Chars
  import opened Regex

  /** `[^\s@]+` */
  const EmailPart: Regex := Plus(Chr(NotSpaceNor('@')))

  /** `/^[^\s@]+@[^\s@]+\.[^\s@]+$/` */
  const EmailPattern: Regex :=
    Cat(EmailPart, Cat(Chr(Exactly('@')), Cat(EmailPart, Cat(Chr(Exactly('.')), EmailPart))))

  /** `/^\d{10}$/` */
  const PhonePattern: Regex := Repeat(Chr(Digit), 10)

  /** `/^(0[1-9]|1[0-2])\/([0-9]{2})$/` */
  const ExpirationPattern: Regex :=
    Cat(Alt(Word([Exactly('0'), Range('1', '9')]), Word([Exactly('1'), Range('0', '2')])),
        Cat(Chr(Exactly('/')), Repeat(Chr(Range('0', '9')), 2)))

  /** `/^\d{3}$/` */
  const SecurityCodePattern: Regex := Repeat(Chr(Digit), 3)

  /** `/^[A-Za-z]\d[A-Za-z] ?\d[A-Za-z]\d$/` */
  const PostalPattern: Regex :=
    Cat(Word([Letter, Digit, Letter]), Cat(Opt(Chr(Exactly(' '))), Word([Digit, Letter, Digit])))

  /** An address with exactly one `@`, no white space anywhere, something
      before the `@`, and after it a `.` that is neither the first nor the last
      character of the domain. */
  predicate EmailShape(s: string) {
    && (forall k | 0 <= k < |s| :: !IsSpace(s[k]))
    && exists at | 0 < at < |s| ::
         && s[at] == '@'
         && (forall k | 0 <= k < |s| && s[k] == '@' :: k == at)
         && (exists dot | at + 1 < dot < |s| - 1 :: s[dot] == '.')
  }

  /** `MM/YY` read arithmetically: two digits making a month from 1 to 12, a
      slash, two more digits. */
  predicate ExpirationShape(s: string) {
    && |s| == 5
    && IsDigit(s[0]) && IsDigit(s[1])
    && 1 <= 10 * DigitValue(s[0]) + DigitValue(s[1]) <= 12
    && s[2] == '/'
    && IsDigit(s[3]) && IsDigit(s[4])
  }

  /** Letter, digit, letter, digit, letter, digit. */
  predicate PostalSix(t: string) {
    && |t| == 6
    && IsAsciiLetter(t[0]) && IsDigit(t[1]) && IsAsciiLetter(t[2])
    && IsDigit(t[3]) && IsAsciiLetter(t[4]) && IsDigit(t[5])
  }

  /** A Canadian postal code, written `A1A1A1` or `A1A 1A1`. */
  predicate PostalShape(s: string) {
    || PostalSix(s)
    || (|s| == 7 && s[3] == ' ' && PostalSix(s[..3] + s[4..]))
  }

  lemma PhonePatternMatches(s: string)
    ensures Matches(PhonePattern, s) <==> |s| == 10 && AllDigitsOf(s, Decimal)
  {
    RepeatMatches(Digit, 10, s);
  }

  lemma SecurityCodePatternMatches(s: string)
    ensures Matches(SecurityCodePattern, s) <==> |s| == 3 && AllDigitsOf(s, Decimal)
  {
    RepeatMatches(Digit, 3, s);
  }

  /** `(0[1-9]|1[0-2])`: two digits making a month from 1 to 12. */
  lemma MonthMatches(m: string)
    ensures Matches(Alt(Word([Exactly('0'), Range('1', '9')]), Word([Exactly('1'), Range('0', '2')])), m) <==>
      && |m| == 2 && IsDigit(m[0]) && IsDigit(m[1])
      && 1 <= 10 * DigitValue(m[0]) + DigitValue(m[1]) <= 12
  {
    WordMatches([Exactly('0'), Range('1', '9')], m);
    WordMatches([Exactly('1'), Range('0', '2')], m);
  }

  /** `\/([0-9]{2})`: a slash and two digits. */
  lemma YearMatches(y: string)
    ensures Matches(Cat(Chr(Exactly('/')), Repeat(Chr(Range('0', '9')), 2)), y) <==>
      |y| == 3 && y[0] == '/' && IsDigit(y[1]) && IsDigit(y[2])
  {
    CatExactly('/', Repeat(Chr(Range('0', '9')), 2), y);
    if |y| > 0 {
      RepeatMatches(Range('0', '9'), 2, y[1..]);
    }
  }

  lemma ExpirationPatternMatches(s: string)
    ensures Matches(ExpirationPattern, s) <==> ExpirationShape(s)
  {
    var month := Alt(Word([Exactly('0'), Range('1', '9')]), Word([Exactly('1'), Range('0', '2')]));
    var year := Cat(Chr(Exactly('/')), Repeat(Chr(Range('0', '9')), 2));
    WordWidth([Exactly('0'), Range('1', '9')]);
    WordWidth([Exactly('1'), Range('0', '2')]);
    CatLeftFixed(month, year, s);
    if |s| >= 2 {
      MonthMatches(s[..2]);
      YearMatches(s[2..]);
    }
  }

  /** The postal pattern splits into three letters-and-digits, an optional
      space, and three more. */
  lemma PostalPatternSplits(s: string)
    ensures Matches(PostalPattern, s) <==>
      && 3 <= |s|
      && Matches(Word([Letter, Digit, Letter]), s[..3])
      && (|| Matches(Word([Digit, Letter, Digit]), s[3..])
          || (|s| > 3 && s[3] == ' ' && Matches(Word([Digit, Letter, Digit]), s[4..])))
  {
    var head := [Letter, Digit, Letter];
    WordWidth(head);
    CatLeftFixed(Word(head), Cat(Opt(Chr(Exactly(' '))), Word([Digit, Letter, Digit])), s);
    if 3 <= |s| {
      CatOptExactly(' ', Word([Digit, Letter, Digit]), s[3..]);
      if |s| > 3 {
        assert s[3..][1..] == s[4..];
      }
    }
  }

  lemma PostalPatternMatches(s: string)
    ensures Matches(PostalPattern, s) <==> PostalShape(s)
  {
    PostalPatternSplits(s);
    if 3 <= |s| {
      WordMatches([Letter, Digit, Letter], s[..3]);
      WordMatches([Digit, Letter, Digit], s[3..]);
      if |s| > 3 {
        WordMatches([Digit, Letter, Digit], s[4..]);
      }
      if |s| == 7 {
        var t := s[..3] + s[4..];
        assert t[0] == s[0] && t[1] == s[1] && t[2] == s[2];
        assert t[3] == s[4] && t[4] == s[5] && t[5] == s[6];
      }
    }
  }

  lemma EmailPatternMatches(s: string)
    ensures Matches(EmailPattern, s) <==> EmailShape(s)
  {
    AddressMatches(s);
    if AddressShape(s) {
      AddressHasEmailShape(s);
    }
    if EmailShape(s) {
      EmailShapeIsAddress(s);
    }
  }

  /** Every character may appear in a part of an address: `[^\s@]`. */
  predicate PartChars(t: string) {
    forall k | 0 <= k < |t| :: InClass(NotSpaceNor('@'), t[k])
  }

  /** The language of `[^\s@]+\.[^\s@]+`, written as a split. */
  predicate DomainShape(t: string) {
    exists j | 0 < j < |t| - 1 :: t[j] == '.' && PartChars(t[..j]) && PartChars(t[j + 1..])
  }

  /** The language of the whole email pattern, written as a split. */
  predicate AddressShape(s: string) {
    exists at | 0 < at < |s| :: s[at] == '@' && PartChars(s[..at]) && DomainShape(s[at + 1..])
  }

  lemma EmailPartMatches(t: string)
    ensures Matches(EmailPart, t) <==> |t| > 0 && PartChars(t)
  {
    PlusMatches(NotSpaceNor('@'), t);
  }

  /** The domain `[^\s@]+\.[^\s@]+` of an address. */
  lemma DomainMatches(t: string)
    ensures Matches(Cat(EmailPart, Cat(Chr(Exactly('.')), EmailPart)), t) <==> DomainShape(t)
  {
    if Matches(Cat(EmailPart, Cat(Chr(Exactly('.')), EmailPart)), t) {
      var j := CatAtCharSplit(EmailPart, '.', EmailPart, t);
      EmailPartMatches(t[..j]);
      EmailPartMatches(t[j + 1..]);
      assert 0 < j < |t| - 1 && t[j] == '.' && PartChars(t[..j]) && PartChars(t[j + 1..]);
    }
    if DomainShape(t) {
      var j :| 0 < j < |t| - 1 && t[j] == '.' && PartChars(t[..j]) && PartChars(t[j + 1..]);
      EmailPartMatches(t[..j]);
      EmailPartMatches(t[j + 1..]);
      CatAtCharJoin(EmailPart, '.', EmailPart, t, j);
    }
  }

  /** The whole address: local part, `@`, domain. */
  lemma AddressMatches(s: string)
    ensures Matches(EmailPattern, s) <==> AddressShape(s)
  {
    var domain := Cat(EmailPart, Cat(Chr(Exactly('.')), EmailPart));
    if Matches(EmailPattern, s) {
      var at := CatAtCharSplit(EmailPart, '@', domain, s);
      EmailPartMatches(s[..at]);
      DomainMatches(s[at + 1..]);
      assert 0 < at && PartChars(s[..at]) && DomainShape(s[at + 1..]);
    }
    if AddressShape(s) {
      var at :| 0 < at < |s| && s[at] == '@' && PartChars(s[..at]) && DomainShape(s[at + 1..]);
      EmailPartMatches(s[..at]);
      DomainMatches(s[at + 1..]);
      CatAtCharJoin(EmailPart, '@', domain, s, at);
    }
  }

  /** A character inside a part of an address is neither white space nor `@`. */
  lemma PartCharAt(t: string, k: int)
    requires PartChars(t) && 0 <= k < |t|
    ensures !IsSpace(t[k]) && t[k] != '@'
  {
    assert InClass(NotSpaceNor('@'), t[k]);
  }

  /** Cut after an `@` at `at` and a `.` at `j` within the rest, an address
      whose three parts are made of part characters has no white space, and
      no `@` but the one at the cut. */
  lemma CharOfParts(s: string, at: int, j: int, k: int)
    requires 0 < at < |s| && 0 < j < |s[at + 1..]| - 1
    requires PartChars(s[..at]) && PartChars(s[at + 1..][..j]) && PartChars(s[at + 1..][j + 1..])
    requires 0 <= k < |s| && k != at && k != at + 1 + j
    ensures !IsSpace(s[k]) && s[k] != '@'
  {
    if k < at {
      PartCharAt(s[..at], k);
    } else if k < at + 1 + j {
      PartCharAt(s[at + 1..][..j], k - at - 1);
    } else {
      PartCharAt(s[at + 1..][j + 1..], k - at - 2 - j);
    }
  }

  /** The cut points of an address: the `@`, and the `.` within the domain. */
  lemma AddressCut(s: string) returns (at: int, j: int)
    requires AddressShape(s)
    ensures 0 < at < |s| && 0 < j < |s[at + 1..]| - 1
    ensures s[at] == '@' && s[at + 1..][j] == '.'
    ensures PartChars(s[..at]) && PartChars(s[at + 1..][..j]) && PartChars(s[at + 1..][j + 1..])
  {
    at :| 0 < at < |s| && s[at] == '@' && PartChars(s[..at]) && DomainShape(s[at + 1..]);
    j :| 0 < j < |s[at + 1..]| - 1 && s[at + 1..][j] == '.'
      && PartChars(s[at + 1..][..j]) && PartChars(s[at + 1..][j + 1..]);
  }

  lemma AddressIntro(s: string, at: int, j: int)
    requires 0 < at < |s| && 0 < j < |s[at + 1..]| - 1
    requires s[at] == '@' && s[at + 1..][j] == '.'
    requires PartChars(s[..at]) && PartChars(s[at + 1..][..j]) && PartChars(s[at + 1..][j + 1..])
    ensures AddressShape(s)
  {
    assert DomainShape(s[at + 1..]);
  }

  /** The cut points of an email address: its one `@` and a later `.`. */
  lemma EmailCut(s: string) returns (at: int, dot: int)
    requires EmailShape(s)
    ensures 0 < at && at + 1 < dot < |s| - 1
    ensures s[at] == '@' && s[dot] == '.'
    ensures forall k | 0 <= k < |s| :: !IsSpace(s[k]) && (s[k] == '@' ==> k == at)
  {
    at :| 0 < at < |s| && s[at] == '@'
      && (forall k | 0 <= k < |s| && s[k] == '@' :: k == at)
      && (exists dot | at + 1 < dot < |s| - 1 :: s[dot] == '.');
    dot :| at + 1 < dot < |s| - 1 && s[dot] == '.';
  }

  lemma EmailIntro(s: string, at: int, dot: int)
    requires 0 < at && at + 1 < dot < |s| - 1
    requires s[at] == '@' && s[dot] == '.'
    requires forall k | 0 <= k < |s| :: !IsSpace(s[k]) && (s[k] == '@' ==> k == at)
    ensures EmailShape(s)
  {
    assert forall k | 0 <= k < |s| && s[k] == '@' :: k == at;
  }

  lemma AddressHasEmailShape(s: string)
    requires AddressShape(s)
    ensures EmailShape(s)
  {
    var at, j := AddressCut(s);
    CutsAreTheOnlySpecials(s, at, j);
    EmailIntro(s, at, at + 1 + j);
  }

  /** The `forall` half of `AddressHasEmailShape`, one position at a time. */
  lemma CutsAreTheOnlySpecials(s: string, at: int, j: int)
    requires 0 < at < |s| && 0 < j < |s[at + 1..]| - 1
    requires s[at] == '@' && s[at + 1..][j] == '.'
    requires PartChars(s[..at]) && PartChars(s[at + 1..][..j]) && PartChars(s[at + 1..][j + 1..])
    ensures forall k | 0 <= k < |s| :: !IsSpace(s[k]) && (s[k] == '@' ==> k == at)
    ensures s[at + 1 + j] == '.'
  {
    SpaceIsNotAlphanumeric(s[at]);
    SpaceIsNotAlphanumeric(s[at + 1 + j]);
    forall k | 0 <= k < |s|
      ensures !IsSpace(s[k]) && (s[k] == '@' ==> k == at)
    {
      if k != at && k != at + 1 + j {
        CharOfParts(s, at, j, k);
      }
    }
  }

  /** Every character other than the cuts is a part character. */
  lemma PartsOfCuts(s: string, at: int, dot: int)
    requires 0 < at && at + 1 < dot < |s| - 1
    requires s[at] == '@' && s[dot] == '.'
    requires forall k | 0 <= k < |s| :: !IsSpace(s[k]) && (s[k] == '@' ==> k == at)
    ensures PartChars(s[..at]) && PartChars(s[at + 1..][..dot - at - 1]) && PartChars(s[at + 1..][dot - at..])
  {
    var local, host, tld := s[..at], s[at + 1..][..dot - at - 1], s[at + 1..][dot - at..];
    forall k | 0 <= k < |local| ensures InClass(NotSpaceNor('@'), local[k]) {
      assert local[k] == s[k];
    }
    forall k | 0 <= k < |host| ensures InClass(NotSpaceNor('@'), host[k]) {
      assert host[k] == s[at + 1 + k];
    }
    forall k | 0 <= k < |tld| ensures InClass(NotSpaceNor('@'), tld[k]) {
      assert tld[k] == s[dot + 1 + k];
    }
  }

  lemma EmailShapeIsAddress(s: string)
    requires EmailShape(s)
    ensures AddressShape(s)
  {
    var at, dot := EmailCut(s);
    PartsOfCuts(s, at, dot);
    AddressIntro(s, at, dot - at - 1);
  }
}

/** The order validator `validate` (src/ticketForm.jsx, lines 32-108): one
    independent check per field, each adding that field's message to a fresh
    error map when it fails, and a verdict that is true exactly when the map
    stays empty. Each check is written as the source's failure condition. */
module Validator {
  import opened Chars
  import opened JsParseInt
  import opened Regex
  import opened Patterns
  import opened OrderDraft

  /** `!s` on a string: only the empty string is falsy. */
  predicate Falsy(s: string) {
    |s| == 0
  }

  predicate ConcertIdRejected(s: string) {
    Falsy(s) || AtMost(ParseInt(s), 0)
  }

  predicate EmailRejected(s: string) {
    Falsy(s) || !Matches(EmailPattern, s)
  }

  predicate NameRejected(s: string) {
    Falsy(s) || |s| < 2 || |s| > 50
  }

  predicate PhoneRejected(s: string) {
    Falsy(s) || !Matches(PhonePattern, s)
  }

  predicate QuantityRejected(s: string) {
    var qty := ParseInt(s);
    qty.NaN? || Below(qty, 1) || Above(qty, 10)
  }

  predicate CreditCardRejected(s: string) {
    Falsy(s) || |s| < 13
  }

  predicate ExpirationRejected(s: string) {
    Falsy(s) || !Matches(ExpirationPattern, s)
  }

  predicate SecurityCodeRejected(s: string) {
    Falsy(s) || !Matches(SecurityCodePattern, s)
  }

  predicate AddressRejected(s: string) {
    Falsy(s) || |s| > 100
  }

  /** The rule shared by city, province and country. */
  predicate PlaceRejected(s: string) {
    Falsy(s) || |s| > 50
  }

  predicate PostalCodeRejected(s: string) {
    Falsy(s) || !Matches(PostalPattern, s)
  }

  /** The check that field `f` runs on its value `v`. */
  predicate Rejected(f: Field, v: string) {
    match f
    case ConcertId => ConcertIdRejected(v)
    case Email => EmailRejected(v)
    case Name => NameRejected(v)
    case Phone => PhoneRejected(v)
    case Quantity => QuantityRejected(v)
    case CreditCard => CreditCardRejected(v)
    case Expiration => ExpirationRejected(v)
    case SecurityCode => SecurityCodeRejected(v)
    case Address => AddressRejected(v)
    case City => PlaceRejected(v)
    case Province => PlaceRejected(v)
    case PostalCode => PostalCodeRejected(v)
    case Country => PlaceRejected(v)
  }

  /** The message shown under a field that fails its check. */
  function Message(f: Field): string {
    match f
    case ConcertId => "Concert ID must be a positive number"
    case Email => "Please provide a valid email address"
    case Name => "Name must be between 2 and 50 characters"
    case Phone => "Phone number must be 10 digits"
    case Quantity => "Quantity must be between 1 and 10 tickets"
    case CreditCard => "Please provide a valid credit card number"
    case Expiration => "Expiration date must be in MM/YY format"
    case SecurityCode => "Security code must be 3 digits"
    case Address => "Address is required and cannot exceed 100 characters"
    case City => "City is required and cannot exceed 50 characters"
    case Province => "Province/State is required and cannot exceed 50 characters"
    case PostalCode => "Please provide a valid Canadian postal code (e.g., A1B 0A1)"
    case Country => "Country is required and cannot exceed 50 characters"
  }

  /** What `validate` leaves behind: the value it returns and the error map
      it stores. */
  datatype Validation = Validation(valid: bool, errors: map<Field, string>)

  /** The order in which `validate` runs the checks. */
  const CheckOrder: seq<Field> := [
    ConcertId, Email, Name, Phone, Quantity, CreditCard, Expiration,
    SecurityCode, Address, City, Province, PostalCode, Country]

  lemma EveryFieldChecked()
    ensures forall f :: f in CheckOrder
  {
    forall f ensures f in CheckOrder {
      match f
      case ConcertId => assert CheckOrder[0] == f;
      case Email => assert CheckOrder[1] == f;
      case Name => assert CheckOrder[2] == f;
      case Phone => assert CheckOrder[3] == f;
      case Quantity => assert CheckOrder[4] == f;
      case CreditCard => assert CheckOrder[5] == f;
      case Expiration => assert CheckOrder[6] == f;
      case SecurityCode => assert CheckOrder[7] == f;
      case Address => assert CheckOrder[8] == f;
      case City => assert CheckOrder[9] == f;
      case Province => assert CheckOrder[10] == f;
      case PostalCode => assert CheckOrder[11] == f;
      case Country => assert CheckOrder[12] == f;
    }
  }

  /** Runs the checks of `fields` one after another, each adding its field's
      message when it fails; a check never looks at another field or at the
      errors found so far. */
  function RunChecks(d: Draft, fields: seq<Field>): (errors: map<Field, string>)
    ensures forall f :: f in errors <==> f in fields && Rejected(f, d.Get(f))
    ensures forall f | f in errors :: errors[f] == Message(f)
  {
    if |fields| == 0 then map[]
    else
      var f := fields[|fields| - 1];
      var before := RunChecks(d, fields[..|fields| - 1]);
      assert forall g :: g in fields <==> g in fields[..|fields| - 1] || g == f;
      if Rejected(f, d.Get(f)) then before[f := Message(f)] else before
  }

  /** `validate()`: all thirteen checks, no short circuit, and a verdict that
      is true exactly when no key was added. */
  function Validate(d: Draft): (r: Validation)
    ensures forall f :: f in r.errors <==> Rejected(f, d.Get(f))
    ensures forall f | f in r.errors :: r.errors[f] == Message(f)
    ensures r.valid <==> forall f :: !Rejected(f, d.Get(f))
  {
    var errors := RunChecks(d, CheckOrder);
    EveryFieldChecked();
    assert |errors| == 0 <==> errors == map[];
    Validation(|errors| == 0, errors)
  }

  /* The checks, each described without the source's code. */

  /** A concert id written as a numeral (after any white space, with an
      optional sign, in decimal or after `0x`, and followed by anything that
      does not extend the digits) is rejected exactly when it is negative or
      zero: a `-` sign or digits worth 0. */
  lemma ConcertIdOfNumber(w: string, sign: string, prefix: string, z: string, rest: string, radix: Radix)
    requires AllSpace(w)
    requires sign == "" || sign == "+" || sign == "-"
    requires NumeralText(prefix, z, rest, radix)
    ensures ConcertIdRejected(w + sign + prefix + z + rest) <==> sign == "-" || DigitsValue(z, radix) == 0
  {
    ParseIntOfDigits(w, sign, prefix, z, rest, radix);
  }

  /** A quantity written as a numeral passes exactly when it has no `-` sign
      and its digits are worth 1 to 10; leading zeros, a `+` sign, a `0x`
      prefix and whatever follows the digits make no difference. */
  lemma QuantityOfNumber(w: string, sign: string, prefix: string, z: string, rest: string, radix: Radix)
    requires AllSpace(w)
    requires sign == "" || sign == "+" || sign == "-"
    requires NumeralText(prefix, z, rest, radix)
    ensures !QuantityRejected(w + sign + prefix + z + rest) <==>
      sign != "-" && 1 <= DigitsValue(z, radix) <= 10
  {
    ParseIntOfDigits(w, sign, prefix, z, rest, radix);
  }

  /** Every non-empty text that parses to NaN is accepted as a concert id,
      because `NaN <= 0` is false, and rejected as a quantity. `ParseIntNaN`
      says which texts these are: blank text, a lone sign, text that does not
      start with a digit after the sign, and a bare `0x` prefix. */
  lemma NonNumericText(s: string)
    requires |s| > 0 && ParseInt(s) == NaN
    ensures !ConcertIdRejected(s)
    ensures QuantityRejected(s)
  {
  }

  /** The boundaries of the quantity check: one and ten tickets pass... */
  lemma QuantityBoundaries()
    ensures !QuantityRejected("1") && !QuantityRejected("10")
    ensures QuantityRejected("0") && QuantityRejected("11")
  {
    QuantityBoundariesInside();
    QuantityBoundariesOutside();
  }

  lemma QuantityBoundariesInside()
    ensures !QuantityRejected("1") && !QuantityRejected("10")
  {
    QuantityOfNumber("", "", "", "1", "", Decimal);
    QuantityOfNumber("", "", "", "10", "", Decimal);
    assert "" + "" + "" + "1" + "" == "1" && "" + "" + "" + "10" + "" == "10";
  }

  /** ... zero and eleven do not. */
  lemma QuantityBoundariesOutside()
    ensures QuantityRejected("0") && QuantityRejected("11")
  {
    QuantityOfNumber("", "", "", "0", "", Decimal);
    QuantityOfNumber("", "", "", "11", "", Decimal);
    assert "" + "" + "" + "0" + "" == "0" && "" + "" + "" + "11" + "" == "11";
  }

  /** `parseInt` stops at the first character that is not a digit, so
      trailing text is ignored. */
  lemma QuantityIgnoresTrailingText()
    ensures !QuantityRejected("5xyz")
  {
    QuantityOfNumber("", "", "", "5", "xyz", Decimal);
    assert "" + "" + "" + "5" + "xyz" == "5xyz";
  }

  /** A `+` sign and leading zeros are read as a number: `+5` and `007` are
      valid quantities. */
  lemma QuantitySignAndZeros()
    ensures !QuantityRejected("+5") && !QuantityRejected("007")
  {
    QuantityOfNumber("", "+", "", "5", "", Decimal);
    QuantityOfNumber("", "", "", "007", "", Decimal);
    assert "" + "+" + "" + "5" + "" == "+5";
    assert "" + "" + "" + "007" + "" == "007";
  }

  /** A `0x` prefix switches to radix 16: `0xA` (ten) is a valid quantity,
      `0xB` (eleven) is not. */
  lemma QuantityInHex()
    ensures !QuantityRejected("0xA") && QuantityRejected("0xB")
  {
    QuantityOfNumber("", "", "0x", "A", "", Hexadecimal);
    QuantityOfNumber("", "", "0x", "B", "", Hexadecimal);
    assert "" + "" + "0x" + "A" + "" == "0xA";
    assert "" + "" + "0x" + "B" + "" == "0xB";
  }

  /** Non-numeric text: rejected as a quantity, accepted as a concert id. */
  lemma NonNumericAbc()
    ensures QuantityRejected("abc") && !ConcertIdRejected("abc")
  {
    assert TrimStart("abc") == "abc";
    ParseIntNaN("abc");
    NonNumericText("abc");
  }

  /** A bare `0x` prefix also parses to NaN, so the concert id check accepts
      it. */
  lemma BareHexPrefix()
    ensures !ConcertIdRejected("0xyz")
  {
    assert TrimStart("0xyz") == "0xyz";
    ParseIntNaN("0xyz");
    NonNumericText("0xyz");
  }

  /** Blank text and a lone sign are not empty, so they are truthy, and they
      parse to NaN: all of them pass the concert id check. */
  lemma BlankConcertIds()
    ensures !ConcertIdRejected(" ") && !ConcertIdRejected("-") && !ConcertIdRejected("+")
  {
    ParseIntNaN(" ");
    ParseIntNaN("-");
    ParseIntNaN("+");
    NonNumericText(" ");
    NonNumericText("-");
    NonNumericText("+");
  }

  /** The boundaries of the concert id check. */
  lemma ConcertIdBoundaries()
    ensures ConcertIdRejected("") && ConcertIdRejected("0") && ConcertIdRejected("-3")
    ensures !ConcertIdRejected("5")
  {
    ConcertIdOfNumber("", "", "", "0", "", Decimal);
    ConcertIdOfNumber("", "", "", "5", "", Decimal);
    ConcertIdOfNumber("", "-", "", "3", "", Decimal);
    assert "" + "" + "" + "0" + "" == "0" && "" + "" + "" + "5" + "" == "5";
    assert "" + "-" + "" + "3" + "" == "-3";
  }

  lemma NameRule(s: string)
    ensures !NameRejected(s) <==> 2 <= |s| <= 50
  {
  }

  lemma CreditCardRule(s: string)
    ensures !CreditCardRejected(s) <==> 13 <= |s|
  {
  }

  lemma AddressRule(s: string)
    ensures !AddressRejected(s) <==> 1 <= |s| <= 100
  {
  }

  /** City, province and country. */
  lemma PlaceRule(s: string)
    ensures !PlaceRejected(s) <==> 1 <= |s| <= 50
  {
  }

  lemma PhoneRule(s: string)
    ensures !PhoneRejected(s) <==> |s| == 10 && AllDigitsOf(s, Decimal)
  {
    PhonePatternMatches(s);
  }

  lemma SecurityCodeRule(s: string)
    ensures !SecurityCodeRejected(s) <==> |s| == 3 && AllDigitsOf(s, Decimal)
  {
    SecurityCodePatternMatches(s);
  }

  lemma ExpirationRule(s: string)
    ensures !ExpirationRejected(s) <==> ExpirationShape(s)
  {
    ExpirationPatternMatches(s);
  }

  lemma PostalCodeRule(s: string)
    ensures !PostalCodeRejected(s) <==> PostalShape(s)
    ensures !PostalCodeRejected(s) ==> |s| == 6 || |s| == 7
  {
    PostalPatternMatches(s);
  }

  lemma EmailRule(s: string)
    ensures !EmailRejected(s) <==> EmailShape(s)
  {
    EmailPatternMatches(s);
  }

  /* Properties of the whole validation. */

  /** Editing one field can change the verdict on that field only: every
      other field keeps its error, or its absence of one. */
  lemma ValidateIsLocal(d: Draft, f: Field, v: string)
    ensures f in Validate(d.With(f, v)).errors <==> Rejected(f, v)
    ensures forall g | g != f :: g in Validate(d.With(f, v)).errors <==> g in Validate(d).errors
  {
  }

  /** The draft the form starts with fails every check except the quantity
      check. */
  lemma InitialDraftErrors()
    ensures forall f :: f in Validate(InitialDraft).errors <==> f != Quantity
    ensures !Validate(InitialDraft).valid
  {
    QuantityBoundaries();
    forall f ensures Rejected(f, InitialDraft.Get(f)) <==> f != Quantity {
      InitialDraftFields(f);
    }
  }

  /** A complete, well-formed order. */
  const SampleOrder: Draft := Draft(
    "5", "a@b.com", "Jane Doe", "4165551234", "2", "4111111111111111", "09/26",
    "123", "1 Main St", "Toronto", "Ontario", "M5H 2N2", "Canada")

  lemma SampleEmailPasses()
    ensures !EmailRejected("a@b.com")
  {
    var s := "a@b.com";
    assert s[1] == '@' && s[3] == '.';
    forall k | 0 <= k < |s| ensures !IsSpace(s[k]) && (s[k] == '@' ==> k == 1) {
    }
    assert EmailShape(s);
    EmailRule(s);
  }

  lemma SamplePostalCodePasses()
    ensures !PostalCodeRejected("M5H 2N2")
  {
    var p := "M5H 2N2";
    assert p[..3] + p[4..] == "M5H2N2";
    assert PostalSix("M5H2N2");
    PostalCodeRule(p);
  }

  lemma SamplePhonePasses()
    ensures !PhoneRejected("4165551234")
  {
    PhoneRule("4165551234");
  }

  lemma SampleExpirationPasses()
    ensures !ExpirationRejected("09/26")
  {
    ExpirationRule("09/26");
  }

  lemma SampleSecurityCodePasses()
    ensures !SecurityCodeRejected("123")
  {
    SecurityCodeRule("123");
  }

  /** A draft whose every field passes its own check is valid. */
  lemma FieldsPassValidate(d: Draft)
    requires !ConcertIdRejected(d.concertId) && !EmailRejected(d.email) && !NameRejected(d.name)
    requires !PhoneRejected(d.phone) && !QuantityRejected(d.quantity)
    requires !CreditCardRejected(d.creditCard) && !ExpirationRejected(d.expiration)
    requires !SecurityCodeRejected(d.securityCode) && !AddressRejected(d.address)
    requires !PlaceRejected(d.city) && !PlaceRejected(d.province)
    requires !PostalCodeRejected(d.postalCode) && !PlaceRejected(d.country)
    ensures Validate(d).valid
  {
    forall f ensures !Rejected(f, d.Get(f)) {
      match f
      case ConcertId =>
      case Email =>
      case Name =>
      case Phone =>
      case Quantity =>
      case CreditCard =>
      case Expiration =>
      case SecurityCode =>
      case Address =>
      case City =>
      case Province =>
      case PostalCode =>
      case Country =>
    }
  }

  lemma SampleOrderIsValid()
    ensures Validate(SampleOrder).valid
  {
    ConcertIdBoundaries();
    QuantityOfNumber("", "", "", "2", "", Decimal);
    assert "" + "" + "" + "2" + "" == "2";
    SampleEmailPasses();
    SamplePostalCodePasses();
    SamplePhonePasses();
    SampleExpirationPasses();
    SampleSecurityCodePasses();
    FieldsPassValidate(SampleOrder);
  }

  /** The same order with a postal code of five digits fails on the postal
      code and on nothing else. */
  lemma BadPostalCodeOnly()
    ensures forall f :: f in Validate(SampleOrder.With(PostalCode, "12345")).errors <==> f == PostalCode
  {
    SampleOrderIsValid();
    ValidateIsLocal(SampleOrder, PostalCode, "12345");
    PostalCodeRule("12345");
  }
}

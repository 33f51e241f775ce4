# Ticket order form: validator and submit transitions

A Dafny model of the logic in `TicketForm`, the one component of a
single-page concert ticket order form (`src/ticketForm.jsx`). The model covers
three pieces:

- the **order draft**: thirteen text fields (`concertId`, `email`, `name`,
  `phone`, `quantity`, `creditCard`, `expiration`, `securityCode`, `address`,
  `city`, `province`, `postalCode`, `country`), with their initial values;
- the **validator** `validate`: thirteen independent checks, each adding a
  fixed message under its field's key when it fails, with a verdict that is
  true exactly when no key was added;
- the two **transitions** around it: `handleChange`, which edits one field and
  clears every error, and `handleSubmit`, which validates, sends the draft
  when it is valid, and resets the draft only when the request succeeds.

Modules, one per concern:

| file | module | what it holds |
|---|---|---|
| `chars.dfy` | `Chars` | ASCII digits and letters, and JavaScript's white-space set (`\s`) |
| `parse_int.dfy` | `JsParseInt` | JavaScript `parseInt(s)` without a radix, with NaN |
| `regex.dfy` | `Regex` | the anchored regular expressions the form uses, as a language |
| `patterns.dfy` | `Patterns` | the form's five patterns, and the proof of what each accepts |
| `order_draft.dfy` | `OrderDraft` | the `Field` names, the `Draft` record, single-field update |
| `validator.dfy` | `Validator` | the thirteen checks, `Validate`, and the facts about them |
| `ticket_form.dfy` | `TicketForm` | `Edit` (`handleChange`) and `Submit` (`handleSubmit`) |

How the source's JavaScript is read:

- A string is a sequence of `char`, and `.length` is `|s|`. A `char` is a
  Unicode scalar value. Every character of the Basic Multilingual Plane is
  one UTF-16 code unit, so there the two lengths agree. A character outside
  the Basic Multilingual Plane is one `char` here, so `|s|` counts it once
  where `.length` counts two. A JavaScript string is falsy exactly when it
  is empty.
- The regular expressions are anchored (`^…$`) and have no flags, so
  `test(s)` says whether the whole of `s` belongs to the pattern's language.
  `Regex.Matches` defines that language directly. `\d` is `[0-9]` and the
  letter classes are ASCII. `\s` is the ECMAScript WhiteSpace and
  LineTerminator set, written out code point by code point.
- `parseInt` follows the ECMAScript algorithm (ECMA-262, section 19.2.5). It
  skips leading white space and reads an optional sign. An optional `0x` or
  `0X` prefix switches it to radix 16. It then takes the longest run of
  digits, and an empty run is NaN. The result is an unbounded integer or
  `NaN`. Every JavaScript comparison with NaN is false, so `NaN <= 0` is
  false.
- Unbounded integers are exact here. The source only compares the result
  with 0, 1 and 10. Rounding a large integer to a double keeps it on the same
  side of each of those constants. Infinity, and the zeros that the standard
  lets an engine put after the 20th significant digit, do the same. `-0`
  compares like 0.

The code has quirks, and the model keeps them.

- A non-numeric concert id such as `"abc"` **passes** its check. It parses
  to NaN, and `NaN <= 0` is false. The same holds for every non-empty text
  that parses to NaN, such as `" "`, `"-"`, `"+"` and the bare hex prefix
  `"0xyz"`. The error message at `src/ticketForm.jsx:37`, "Concert ID must
  be a positive number", shows that such ids were meant to be rejected. The
  model follows the code, which accepts them.
- A quantity of `"5xyz"` passes, because it parses as 5. So do `"+5"`,
  `"007"` and `"0xA"` (ten).
- Any edit clears **all** errors, not only the errors of the edited field.

## Model

| member | source | states |
|---|---|---|
| `OrderDraft.InitialDraftFields` | src/ticketForm.jsx:5-19 | the initial draft has every field empty except `quantity`, which is `"1"` |
| `OrderDraft.Draft.With` | src/ticketForm.jsx:25-28 | the spread update `{...formData, [name]: value}` gives the edited key the new value and leaves the other twelve keys unchanged |
| `OrderDraft.WithSameValue` | src/ticketForm.jsx:25-28 | writing back a field's current value leaves the draft unchanged |
| `OrderDraft.WithTwice` | src/ticketForm.jsx:25-28 | a second edit of the same field overrides the first |
| `OrderDraft.WithCommutes` | src/ticketForm.jsx:25-28 | edits of two different fields can be applied in either order |
| `OrderDraft.DraftsAgree` | src/ticketForm.jsx:5-19 | a draft is determined by its thirteen fields |
| `JsParseInt.TrimStartDropsSpace` | src/ticketForm.jsx:36 | `parseInt` drops exactly the leading white space: what is left is a suffix, everything dropped is white space, and what is left does not start with white space |
| `JsParseInt.DigitRunIsLongest` | src/ticketForm.jsx:58 | the digits `parseInt` reads are the longest prefix made of digits of the radix |
| `JsParseInt.ParseIntNaN` | src/ticketForm.jsx:58-59 | `parseInt` gives NaN exactly when, after white space and sign, nothing is left, the next character is not a digit, or there is a bare `0x` prefix |
| `JsParseInt.NumeralValue` | src/ticketForm.jsx:58 | the decimal numeral of a natural number has that number as its value |
| `JsParseInt.NaturalRoundTrip` | src/ticketForm.jsx:58 | `parseInt` reads back the numeral of a natural number after any white space, whatever non-digit text follows (other than `x` or `X` after a lone `0`) |
| `JsParseInt.NegativeRoundTrip` | src/ticketForm.jsx:36 | `parseInt` reads back `-` followed by the numeral of a positive number as that negative number |
| `JsParseInt.MagnitudeOfDigits` | src/ticketForm.jsx:58 | after the sign, `parseInt` reads a `0x` prefix and hex digits, or decimal digits, as the value of those digits in their radix |
| `JsParseInt.ParseIntOfDigits` | src/ticketForm.jsx:58 | `parseInt` of white space, an optional `+` or `-`, an optional `0x`/`0X`, a run of digits of that radix (leading zeros allowed) and text that does not continue the run is the digits' value, negated after `-` |
| `JsParseInt.ParseIntRoundTrip` | src/ticketForm.jsx:58 | `parseInt` reads back the decimal text of any integer, whatever white space precedes it and whatever non-digit text follows it; after a lone `0`, the next character must not be `x` or `X` |
| `Regex.RepeatMatches` | src/ticketForm.jsx:52 | `c{n}` matches exactly the strings of length n whose characters are all in class c |
| `Regex.PlusMatches` | src/ticketForm.jsx:41 | `c+` matches exactly the non-empty strings whose characters are all in class c |
| `Regex.WordMatches` | src/ticketForm.jsx:96 | a run of one-character classes matches exactly the strings of that length that agree with the classes position by position |
| `Regex.MatchLength` | src/ticketForm.jsx:69 | every match of a pattern whose syntax fixes its width has that length |
| `Regex.CatOptExactly` | src/ticketForm.jsx:96 | ` ?` followed by a pattern accepts a string exactly when the pattern accepts it, or it starts with a space and the pattern accepts the rest |
| `Regex.CatAtCharSplit` | src/ticketForm.jsx:41 | a match of `a c b`, with `c` a literal character, has an occurrence of `c` with a match of `a` before it and a match of `b` after it |
| `Regex.CatAtCharJoin` | src/ticketForm.jsx:41 | conversely, an occurrence of `c` with a match of `a` before it and a match of `b` after it makes a match of `a c b` |
| `Patterns.PhonePatternMatches` | src/ticketForm.jsx:52 | `/^\d{10}$/` accepts exactly the strings of ten ASCII digits |
| `Patterns.SecurityCodePatternMatches` | src/ticketForm.jsx:75 | `/^\d{3}$/` accepts exactly the strings of three ASCII digits |
| `Patterns.ExpirationPatternMatches` | src/ticketForm.jsx:69 | `/^(0[1-9]\|1[0-2])\/([0-9]{2})$/` accepts exactly five characters: two digits giving a month value from 1 to 12, a `/`, and two digits |
| `Patterns.PostalPatternSplits` | src/ticketForm.jsx:96 | the postal pattern accepts a string exactly when its first three characters match `[A-Za-z]\d[A-Za-z]` and the rest, after at most one leading space, matches `\d[A-Za-z]\d` |
| `Patterns.PostalPatternMatches` | src/ticketForm.jsx:96 | the postal pattern accepts letter-digit-letter-digit-letter-digit in either letter case, and also the same seven-character form with a space in the middle |
| `Patterns.EmailPatternMatches` | src/ticketForm.jsx:41 | the email pattern accepts exactly these strings: one `@`, no white space, a non-empty part before the `@`, and after it a `.` that is neither the first nor the last character |
| `Patterns.AddressHasEmailShape` | src/ticketForm.jsx:41 | an address cut into local part, `@`, and a domain of two parts around a `.` has the one-`@`, no-white-space shape |
| `Patterns.EmailShapeIsAddress` | src/ticketForm.jsx:41 | every string of that shape can be cut at its `@` and a later `.` into three parts made of `[^\s@]` characters |
| `Patterns.DomainMatches` | src/ticketForm.jsx:41 | `[^\s@]+\.[^\s@]+` accepts a string exactly when some `.` in it, neither first nor last, has only `[^\s@]` characters before and after it |
| `Patterns.AddressMatches` | src/ticketForm.jsx:41 | the email pattern accepts a string exactly when some `@` in it, not first, has a non-empty `[^\s@]` local part before it and a domain after it |
| `Patterns.MonthMatches` | src/ticketForm.jsx:69 | `(0[1-9]\|1[0-2])` accepts exactly the two-digit strings whose value is from 1 to 12 |
| `Patterns.YearMatches` | src/ticketForm.jsx:69 | `\/([0-9]{2})` accepts exactly a slash followed by two digits |
| `Validator.RunChecks` | src/ticketForm.jsx:33-104 | running the checks of a list of fields gives an error key for exactly those listed fields whose check fails, each with that field's message |
| `Validator.Validate` | src/ticketForm.jsx:32-108 | the error map has a key exactly for each field whose check fails, with that field's message; the result is true exactly when every field passes |
| `Validator.EveryFieldChecked` | src/ticketForm.jsx:35-104 | every one of the thirteen fields has a check |
| `Validator.ValidateIsLocal` | src/ticketForm.jsx:32-107 | changing one field changes only that field's error entry, so there is no short circuit and no check reads another field |
| `Validator.FieldsPassValidate` | src/ticketForm.jsx:32-107 | a draft whose every field passes its own check is valid |
| `Validator.InitialDraftErrors` | src/ticketForm.jsx:5-19 | the initial draft fails every check except the quantity check |
| `Validator.ConcertIdOfNumber` | src/ticketForm.jsx:36-38 | a concert id written as a numeral (any white space, optional sign, decimal or `0x` digits with any leading zeros, then text that does not continue the digits) is rejected exactly when it has a `-` sign or its digits are worth 0 |
| `Validator.ConcertIdBoundaries` | src/ticketForm.jsx:36-38 | `""`, `"0"` and `"-3"` are rejected as a concert id; `"5"` is accepted |
| `Validator.NonNumericText` | src/ticketForm.jsx:36-61 | every non-empty text that parses to NaN is accepted as a concert id, since `NaN <= 0` is false, and rejected as a quantity |
| `Validator.BlankConcertIds` | src/ticketForm.jsx:36-38 | `" "`, `"-"` and `"+"` are accepted as concert ids |
| `Validator.NonNumericAbc` | src/ticketForm.jsx:36-61 | `"abc"` is accepted as a concert id and rejected as a quantity |
| `Validator.BareHexPrefix` | src/ticketForm.jsx:36-38 | `"0xyz"` parses to NaN and is accepted as a concert id |
| `Validator.QuantityOfNumber` | src/ticketForm.jsx:58-61 | a quantity written as a numeral (any white space, optional sign, decimal or `0x` digits with any leading zeros, then text that does not continue the digits) is accepted exactly when it has no `-` sign and its digits are worth 1 to 10 |
| `Validator.QuantitySignAndZeros` | src/ticketForm.jsx:58-61 | `"+5"` and `"007"` are accepted as quantities |
| `Validator.QuantityInHex` | src/ticketForm.jsx:58-61 | `"0xA"` (ten) is accepted as a quantity and `"0xB"` (eleven) is rejected |
| `Validator.QuantityBoundaries` | src/ticketForm.jsx:58-61 | `"1"` and `"10"` are accepted as a quantity; `"0"` and `"11"` are rejected |
| `Validator.QuantityIgnoresTrailingText` | src/ticketForm.jsx:58-61 | `"5xyz"` is accepted as a quantity |
| `Validator.NameRule` | src/ticketForm.jsx:47-49 | a name is accepted exactly when its length is from 2 to 50 |
| `Validator.CreditCardRule` | src/ticketForm.jsx:64-66 | a card number is accepted exactly when its length is at least 13 |
| `Validator.AddressRule` | src/ticketForm.jsx:81-83 | an address is accepted exactly when its length is from 1 to 100 |
| `Validator.PlaceRule` | src/ticketForm.jsx:86-104 | a city, province or country is accepted exactly when its length is from 1 to 50 |
| `Validator.PhoneRule` | src/ticketForm.jsx:52-55 | a phone number is accepted exactly when it is ten ASCII digits |
| `Validator.SecurityCodeRule` | src/ticketForm.jsx:75-78 | a security code is accepted exactly when it is three ASCII digits |
| `Validator.ExpirationRule` | src/ticketForm.jsx:69-72 | an expiration date is accepted exactly when it is `MM/YY` with a month from 01 to 12 |
| `Validator.PostalCodeRule` | src/ticketForm.jsx:96-99 | a postal code is accepted exactly when it is a Canadian code, with or without the middle space; every accepted code has length 6 or 7 |
| `Validator.EmailRule` | src/ticketForm.jsx:41-44 | an email is accepted exactly when it has the one-`@`, no-white-space, dotted-domain shape |
| `Validator.SampleOrderIsValid` | src/ticketForm.jsx:32-108 | a complete sample order passes every check |
| `Validator.BadPostalCodeOnly` | src/ticketForm.jsx:95-99 | the same order with postal code `"12345"` fails on the postal code and on nothing else |
| `TicketForm.Edit` | src/ticketForm.jsx:23-30 | an edit sets one field, keeps the other twelve, and leaves no error on display |
| `TicketForm.EditThenSubmit` | src/ticketForm.jsx:23-30 | after an edit, the next submit shows the same verdict as before on every field except the edited one |
| `TicketForm.Submit` | src/ticketForm.jsx:110-154 | a submit always displays the validator's errors. A request is sent exactly when every field passes, and it carries the current draft. A draft that fails sends nothing and raises no notification. A success resets the draft with the success notice. Any other outcome keeps the draft with the failure notice |
| `TicketForm.SuccessResetsEveryField` | src/ticketForm.jsx:135-149 | after a successful purchase, every field is empty except a quantity of `"1"`, and no error is shown |
| `TicketForm.NoRequestAfterReset` | src/ticketForm.jsx:113-149 | a second submit straight after a success sends nothing and shows errors on twelve fields |
| `TicketForm.RetrySendsSameOrder` | src/ticketForm.jsx:150-153 | after a failed submission, trying again sends the very same order |
| `TicketForm.InvalidSubmitIsStable` | src/ticketForm.jsx:113-115 | submitting an invalid draft twice leaves the same state as submitting it once |
| `TicketForm.ValidOrderAccepted` | src/ticketForm.jsx:117-149 | the sample order with a 200 JSON response is sent unchanged, fires the success notice and returns the form to its initial state |
| `TicketForm.ValidOrderFailed` | src/ticketForm.jsx:128-153 | the sample order with a network error or a 500 response fires the failure notice and stays in the form |
| `TicketForm.BadPostalCodeNotSent` | src/ticketForm.jsx:113-115 | an order with a five-digit postal code sends no request and shows an error on the postal code only |

## Left out

- The JSX markup, Tailwind classes, the `Toaster` widget and `console.log`
  are presentation and logging. A notification is the tag `Notice`, and
  `NoticeText` holds its fixed message.
- `fetch` is network I/O. So are the endpoint URL, the headers and the
  `JSON.stringify` body. The request is `Post(draft)`. The response is
  abstracted to `Outcome`: a status with a flag saying whether the body
  parsed as JSON, or a network error.
- React's state batching, stale closures over `formData`, the `await`
  suspensions and two submissions in flight at once are framework and
  concurrency behaviour. Each transition is one atomic step.
- `e.preventDefault()` and the event object. `Edit` takes the field name and
  the value directly.
- The browser's own input constraints are left out: `type="number"`,
  `type="email"` and the quantity `<select>`. The validator is modelled over
  arbitrary strings.
- A `handleChange` call with a `name` outside the thirteen keys is not
  modelled: in the source it would add a key to `formData`. Every input in
  the form uses one of the thirteen names, so the field name is the closed
  type `Field`.
- Characters outside the Basic Multilingual Plane are one `char` here, so
  `|s|` counts them once where `.length` counts two. A Dafny `char` cannot
  be a lone surrogate, so such a character cannot be split into its two
  code units either. The length rules for name, card number, address and
  places can therefore differ for text with such characters. No check
  treats surrogates in any other special way.
- The double that `parseInt` returns is not modelled bit for bit. The
  introduction explains why an unbounded integer gives the same verdict in
  every comparison the form makes.
- `validate` being idempotent needs no lemma: `Validate` is a function of the
  draft.

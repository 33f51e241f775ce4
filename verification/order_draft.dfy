/** The order draft the form holds (src/ticketForm.jsx, lines 5-19): thirteen
    text fields, addressed by a closed set of field names. */
module OrderDraft {

  /** The keys of the draft, in the order the source declares them. */
  datatype Field =
    | ConcertId | Email | Name | Phone | Quantity | CreditCard | Expiration
    | SecurityCode | Address | City | Province | PostalCode | Country

  datatype Draft = Draft(
    concertId: string,
    email: string,
    name: string,
    phone: string,
    quantity: string,
    creditCard: string,
    expiration: string,
    securityCode: string,
    address: string,
    city: string,
    province: string,
    postalCode: string,
    country: string)
  {
    /** `formData[f]` */
    function Get(f: Field): string {
      match f
      case ConcertId => concertId
      case Email => email
      case Name => name
      case Phone => phone
      case Quantity => quantity
      case CreditCard => creditCard
      case Expiration => expiration
      case SecurityCode => securityCode
      case Address => address
      case City => city
      case Province => province
      case PostalCode => postalCode
      case Country => country
    }

    /** `{ ...formData, [f]: v }`: the one key replaced, every other kept. */
    function With(f: Field, v: string): (d: Draft)
      ensures d.Get(f) == v
      ensures forall g | g != f :: d.Get(g) == Get(g)
    {
      match f
      case ConcertId => this.(concertId := v)
      case Email => this.(email := v)
      case Name => this.(name := v)
      case Phone => this.(phone := v)
      case Quantity => this.(quantity := v)
      case CreditCard => this.(creditCard := v)
      case Expiration => this.(expiration := v)
      case SecurityCode => this.(securityCode := v)
      case Address => this.(address := v)
      case City => this.(city := v)
      case Province => this.(province := v)
      case PostalCode => this.(postalCode := v)
      case Country => this.(country := v)
    }
  }

  /** The draft the form starts with and returns to after a successful
      purchase: every field empty except a quantity of one ticket. */
  const InitialDraft: Draft := Draft("", "", "", "", "1", "", "", "", "", "", "", "", "")

  /** The initial draft, field by field. */
  lemma InitialDraftFields(f: Field)
    ensures InitialDraft.Get(f) == if f == Quantity then "1" else ""
  {
  }

  /** Two drafts that agree on every field are the same draft. */
  lemma DraftsAgree(a: Draft, b: Draft)
    requires forall f :: a.Get(f) == b.Get(f)
    ensures a == b
  {
    assert a.Get(ConcertId) == b.Get(ConcertId) && a.Get(Email) == b.Get(Email);
    assert a.Get(Name) == b.Get(Name) && a.Get(Phone) == b.Get(Phone);
    assert a.Get(Quantity) == b.Get(Quantity) && a.Get(CreditCard) == b.Get(CreditCard);
    assert a.Get(Expiration) == b.Get(Expiration) && a.Get(SecurityCode) == b.Get(SecurityCode);
    assert a.Get(Address) == b.Get(Address) && a.Get(City) == b.Get(City);
    assert a.Get(Province) == b.Get(Province) && a.Get(PostalCode) == b.Get(PostalCode);
    assert a.Get(Country) == b.Get(Country);
  }

  /** Writing back the value a field already has changes nothing. */
  lemma WithSameValue(d: Draft, f: Field)
    ensures d.With(f, d.Get(f)) == d
  {
    DraftsAgree(d.With(f, d.Get(f)), d);
  }

  /** A second edit of the same field overrides the first. */
  lemma WithTwice(d: Draft, f: Field, v: string, w: string)
    ensures d.With(f, v).With(f, w) == d.With(f, w)
  {
    DraftsAgree(d.With(f, v).With(f, w), d.With(f, w));
  }

  /** Edits of two different fields do not interfere. */
  lemma WithCommutes(d: Draft, f: Field, g: Field, v: string, w: string)
    requires f != g
    ensures d.With(f, v).With(g, w) == d.With(g, w).With(f, v)
  {
    DraftsAgree(d.With(f, v).With(g, w), d.With(g, w).With(f, v));
  }
}

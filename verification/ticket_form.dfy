/** The two transitions of the ticket form component around the validator
    (src/ticketForm.jsx): the single-field edit `handleChange` (lines 23-30)
    and the submit handler `handleSubmit` (lines 110-154). The network call is
    replaced by its outcome, given as a parameter, and the toast widget by a
    tag naming which notification fires. */
module TicketForm {
  import opened OrderDraft
  import opened Validator

  /** The component's state: the draft and the errors on display. */
  datatype FormState = FormState(draft: Draft, errors: map<Field, string>)

  /** The state on mount: the initial draft and no errors. */
  const InitialState: FormState := FormState(InitialDraft, map[])

  /** `handleChange`: one field takes the new value, and every error
      disappears. The source stores the empty string as the error object, on
      which every field lookup is undefined; that is the empty map here. */
  function Edit(st: FormState, f: Field, v: string): (r: FormState)
    ensures r.draft.Get(f) == v
    ensures forall g | g != f :: r.draft.Get(g) == st.draft.Get(g)
    ensures r.errors == map[]
  {
    FormState(st.draft.With(f, v), map[])
  }

  /** What became of the POST request, as far as `handleSubmit` looks at it:
      a response with its status and whether its body parsed as JSON, or a
      failure to get any response. */
  datatype Outcome = Responded(status: int, bodyIsJson: bool) | NetworkError

  /** `response.ok`: a status from 200 to 299. */
  predicate IsOkStatus(status: int) {
    200 <= status <= 299
  }

  /** The only path through the `try` block that reaches the reset. */
  predicate Succeeded(outcome: Outcome) {
    outcome.Responded? && IsOkStatus(outcome.status) && outcome.bodyIsJson
  }

  /** The request the submit sends: none, or one POST whose body is a draft. */
  datatype Request = NoRequest | Post(body: Draft)

  /** Which notification fires. */
  datatype Notice = NoNotice | SuccessToast | FailureToast

  function NoticeText(n: Notice): string {
    match n
    case NoNotice => ""
    case SuccessToast => "Ticket Form submit successful!"
    case FailureToast => "Ticket Form submit failed. Please try again."
  }

  datatype Submission = Submission(state: FormState, request: Request, notice: Notice)

  /** `handleSubmit`: validate and store the errors; stop there when the
      draft is invalid; otherwise send the draft, and reset it only when the
      response is ok and its body parses, any other outcome raising the
      failure notification and keeping the draft. */
  function Submit(st: FormState, outcome: Outcome): (r: Submission)
    ensures r.state.errors == Validate(st.draft).errors
    ensures r.request.Post? <==> forall f :: !Rejected(f, st.draft.Get(f))
    ensures r.request.Post? ==> r.request.body == st.draft
    ensures r.request.NoRequest? ==> r.notice == NoNotice && r.state.draft == st.draft
    ensures r.request.Post? && Succeeded(outcome) ==>
      r.notice == SuccessToast && r.state.draft == InitialDraft
    ensures r.request.Post? && !Succeeded(outcome) ==>
      r.notice == FailureToast && r.state.draft == st.draft
  {
    var v := Validate(st.draft);
    var shown := FormState(st.draft, v.errors);
    if !v.valid then Submission(shown, NoRequest, NoNotice)
    else if Succeeded(outcome) then Submission(FormState(InitialDraft, v.errors), Post(st.draft), SuccessToast)
    else Submission(shown, Post(st.draft), FailureToast)
  }

  /** After a successful purchase every field is empty again except the
      quantity, which is back to one ticket, and no error is shown. */
  lemma SuccessResetsEveryField(st: FormState, outcome: Outcome)
    requires Submit(st, outcome).notice == SuccessToast
    ensures forall f :: Submit(st, outcome).state.draft.Get(f) == if f == Quantity then "1" else ""
    ensures Submit(st, outcome).state.errors == map[]
  {
    forall f ensures Submit(st, outcome).state.draft.Get(f) == if f == Quantity then "1" else "" {
      InitialDraftFields(f);
    }
  }

  /** Submitting again straight after a successful purchase sends nothing:
      the reset draft fails every check but the quantity check. */
  lemma NoRequestAfterReset(st: FormState, first: Outcome, second: Outcome)
    requires Submit(st, first).notice == SuccessToast
    ensures Submit(Submit(st, first).state, second).request == NoRequest
    ensures forall f :: f in Submit(Submit(st, first).state, second).state.errors <==> f != Quantity
  {
    InitialDraftErrors();
  }

  /** After a failed submission the draft is kept, so trying again sends the
      very same order. */
  lemma RetrySendsSameOrder(st: FormState, first: Outcome, second: Outcome)
    requires Submit(st, first).notice == FailureToast
    ensures Submit(Submit(st, first).state, second).request == Submit(st, first).request
    ensures Submit(st, first).request == Post(st.draft)
  {
  }

  /** Submitting an invalid draft again changes nothing: the same errors,
      no request, no notification. */
  lemma InvalidSubmitIsStable(st: FormState, first: Outcome, second: Outcome)
    requires Submit(st, first).request == NoRequest
    ensures Submit(Submit(st, first).state, second) == Submit(st, first)
  {
  }

  /** An edit followed by a submit shows the same verdict as before on every
      field other than the one edited. */
  lemma EditThenSubmit(st: FormState, f: Field, v: string, first: Outcome, second: Outcome)
    ensures forall g | g != f ::
      g in Submit(Edit(st, f, v), second).state.errors <==> g in Submit(st, first).state.errors
    ensures f in Submit(Edit(st, f, v), second).state.errors <==> Rejected(f, v)
  {
    ValidateIsLocal(st.draft, f, v);
    assert Edit(st, f, v).draft == st.draft.With(f, v);
  }

  /** A complete order, answered with status 200 and a JSON body: the order
      is sent as it is, the success notification fires, the form resets. */
  lemma ValidOrderAccepted(errors: map<Field, string>)
    ensures var r := Submit(FormState(SampleOrder, errors), Responded(200, true));
      && r.request == Post(SampleOrder)
      && r.notice == SuccessToast
      && r.state == InitialState
  {
    SampleOrderIsValid();
  }

  /** The same order when the network fails, or the server answers 500: the
      failure notification fires and the order stays in the form. */
  lemma ValidOrderFailed(errors: map<Field, string>, outcome: Outcome)
    requires outcome == NetworkError || outcome == Responded(500, true)
    ensures var r := Submit(FormState(SampleOrder, errors), outcome);
      && r.request == Post(SampleOrder)
      && r.notice == FailureToast
      && r.state == FormState(SampleOrder, map[])
  {
    SampleOrderIsValid();
  }

  /** A five-digit postal code: no request, and an error on the postal code
      only. */
  lemma BadPostalCodeNotSent(errors: map<Field, string>, outcome: Outcome)
    ensures var r := Submit(FormState(SampleOrder.With(PostalCode, "12345"), errors), outcome);
      && r.request == NoRequest
      && r.notice == NoNotice
      && (forall f :: f in r.state.errors <==> f == PostalCode)
  {
    BadPostalCodeOnly();
  }
}

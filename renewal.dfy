/**
 * The renewal-date rule of the librarian's renewal form
 * (`RenewBookModelForm.clean_due_back`) and the date the renewal page
 * proposes by default.
 *
 * A proposed date `d` is checked against `today` in two steps: a date before
 * today is refused as a renewal in the past; a date more than four weeks after
 * today is refused as too far ahead; any other date is returned unchanged.
 * Both ends of the window, today and today + 28, are accepted.
 */
module Renewal {
  import opened Catalog

  /** `datetime.timedelta(weeks=4)`, the furthest a librarian may renew. */
  const RENEWAL_LIMIT_DAYS: int := 4 * 7
  /** `datetime.timedelta(weeks=3)`, the default proposal. */
  const PROPOSED_RENEWAL_DAYS: int := 3 * 7

  /** The two messages the rule can report. */
  datatype RenewalError =
    | RenewalInPast          // 'Invalid date - renewal in past'
    | RenewalTooFarAhead     // 'Invalid date - renewal more than 4 weeks ahead'

  /** The outcome of cleaning the due-back field: the cleaned date, or a form error. */
  datatype Cleaned = Accepted(date: Day) | Rejected(error: RenewalError)

  /** True when `d` lies in the renewal window that starts on `today`. */
  predicate InRenewalWindow(d: Day, today: Day) {
    today <= d <= today + RENEWAL_LIMIT_DAYS
  }

  /**
   * The cleaning rule: accepted exactly inside the window, and then the very
   * date submitted; otherwise the error names the side of the window missed.
   */
  function CleanDueBack(data: Day, today: Day): (r: Cleaned)
    ensures r.Accepted? <==> InRenewalWindow(data, today)
    ensures r.Accepted? ==> r.date == data
    ensures r == Rejected(RenewalInPast) <==> data < today
    ensures r == Rejected(RenewalTooFarAhead) <==> data > today + RENEWAL_LIMIT_DAYS
  {
    if data < today then Rejected(RenewalInPast)
    else if data > today + RENEWAL_LIMIT_DAYS then Rejected(RenewalTooFarAhead)
    else Accepted(data)
  }

  /** Both ends of the window are inside it; the days just outside are refused, each with its own error. */
  lemma WindowBoundaries(today: Day)
    ensures CleanDueBack(today, today) == Accepted(today)
    ensures CleanDueBack(today + 28, today) == Accepted(today + 28)
    ensures CleanDueBack(today - 1, today) == Rejected(RenewalInPast)
    ensures CleanDueBack(today + 29, today) == Rejected(RenewalTooFarAhead)
  {
  }

  /** Cleaning an accepted date again, on the same day, accepts it again. */
  lemma CleanIdempotent(data: Day, today: Day)
    requires CleanDueBack(data, today).Accepted?
    ensures CleanDueBack(CleanDueBack(data, today).date, today) == CleanDueBack(data, today)
  {
  }

  /**
   * The renewal date the page proposes when no date has been submitted:
   * three weeks after today, which the cleaning rule always accepts.
   */
  function ProposedRenewalDate(today: Day): (r: Day)
    ensures CleanDueBack(r, today) == Accepted(r)
    ensures today < r < today + RENEWAL_LIMIT_DAYS
  {
    today + PROPOSED_RENEWAL_DAYS
  }

  /**
   * What Python raises when the cleaning method of catalog/views.py runs.
   * `ValidationError` is referred to there but never imported, so evaluating
   * it raises `NameError` before any form error can be built.
   */
  datatype PyException = ValidationError(message: string) | NameError(name: string)

  /** The outcome of a Python call: a returned value or a raised exception. */
  datatype CleanOutcome = Returned(date: Day) | Raised(exception: PyException)

  /**
   * `clean_due_back` exactly as written: on a date outside the window the
   * lookup of the unbound name `ValidationError` fails.
   */
  function CleanDueBackAsWritten(data: Day, today: Day): (r: CleanOutcome)
    ensures r.Returned? <==> InRenewalWindow(data, today)
    ensures r.Returned? ==> r.date == data
    ensures r.Raised? ==> r.exception == NameError("ValidationError")
  {
    if data < today then Raised(NameError("ValidationError"))
    else if data > today + RENEWAL_LIMIT_DAYS then Raised(NameError("ValidationError"))
    else Returned(data)
  }

  /**
   * Django's form cleaning turns only a `ValidationError` into a form error;
   * any other exception leaves the request.
   */
  predicate BecomesFormError(o: CleanOutcome) {
    o.Raised? && o.exception.ValidationError?
  }

  /**
   * A date one day in the past escapes as a `NameError` from the code as
   * written, where the intended rule reports a renewal in the past.
   */
  lemma PastDateEscapesFormValidation(today: Day)
    ensures CleanDueBackAsWritten(today - 1, today) == Raised(NameError("ValidationError"))
    ensures !BecomesFormError(CleanDueBackAsWritten(today - 1, today))
    ensures CleanDueBack(today - 1, today) == Rejected(RenewalInPast)
  {
  }

  /**
   * Every date outside the window escapes as a `NameError` from the code as
   * written, on either side of the window, where the intended rule reports
   * the side missed.
   */
  lemma OutsideWindowEscapesFormValidation(data: Day, today: Day)
    requires !InRenewalWindow(data, today)
    ensures CleanDueBackAsWritten(data, today) == Raised(NameError("ValidationError"))
    ensures !BecomesFormError(CleanDueBackAsWritten(data, today))
    ensures CleanDueBack(data, today) == Rejected(if data < today then RenewalInPast else RenewalTooFarAhead)
  {
  }

  /** Inside the window the code as written and the intended rule agree. */
  lemma AsWrittenAgreesInsideWindow(data: Day, today: Day)
    ensures CleanDueBackAsWritten(data, today).Returned? <==> CleanDueBack(data, today).Accepted?
    ensures CleanDueBack(data, today).Accepted? ==>
              CleanDueBackAsWritten(data, today).date == CleanDueBack(data, today).date
  {
  }
}

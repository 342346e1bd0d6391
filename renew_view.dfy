/**
 * The librarian's renewal view (`renew_book_librarian`) over the store of
 * book instances.
 *
 * The store maps each instance id to its record. A renewal looks the record
 * up (a missing id is a not-found response), and on a POST whose date the
 * renewal rule accepts it overwrites that record's due-back date and nothing
 * else. An invalid POST re-displays the form with its error; any other
 * request displays the form with the default proposed date.
 */
module RenewView {
  import opened Catalog
  import opened Renewal

  /** A request to the renewal page: a POST with the submitted renewal date, or any other method. */
  datatype Request = Post(renewalDate: Day) | NotPost

  /** The form the page displays. */
  datatype RenewForm =
    | Unbound(initial: Day)                        // the default form, proposing a date
    | Bound(submitted: Day, error: RenewalError)   // a submitted form that failed validation

  datatype Response =
    | NotFound                                     // `get_object_or_404` found no record
    | RedirectToBorrowed                           // redirect to the librarian's loan list
    | RenderRenewPage(form: RenewForm, bookinst: BookInstance)

  class InstanceStore {
    var instances: map<InstanceId, BookInstance>

    /** Every record sits under its own id. */
    ghost predicate Valid()
      reads this
    {
      forall id :: id in instances ==> instances[id].id == id
    }

    constructor (initial: map<InstanceId, BookInstance>)
      requires forall id :: id in initial ==> initial[id].id == id
      ensures Valid() && instances == initial
    {
      instances := initial;
    }

    /** `book_inst.due_back = d; book_inst.save()`: one field of one record changes. */
    method SetDueBack(pk: InstanceId, d: Day)
      requires Valid() && pk in instances
      modifies this
      ensures Valid()
      ensures instances == old(instances)[pk := old(instances)[pk].(dueBack := Some(d))]
    {
      instances := instances[pk := instances[pk].(dueBack := Some(d))];
    }

    /**
     * The renewal view. Only a POST whose date the renewal rule accepts
     * changes the store, and then only the due-back date of record `pk`,
     * which becomes the submitted date.
     */
    method RenewBookLibrarian(pk: InstanceId, request: Request, today: Day) returns (response: Response)
      requires Valid()
      modifies this
      ensures Valid()
      ensures pk !in old(instances) ==> response == NotFound && instances == old(instances)
      ensures pk in old(instances) && request.Post? && InRenewalWindow(request.renewalDate, today) ==>
                && response == RedirectToBorrowed
                && instances == old(instances)[pk := old(instances)[pk].(dueBack := Some(request.renewalDate))]
      ensures pk in old(instances) && request.Post? && !InRenewalWindow(request.renewalDate, today) ==>
                && response == RenderRenewPage(Bound(request.renewalDate, CleanDueBack(request.renewalDate, today).error), old(instances)[pk])
                && instances == old(instances)
      ensures pk in old(instances) && request.NotPost? ==>
                && response == RenderRenewPage(Unbound(today + 21), old(instances)[pk])
                && instances == old(instances)
      ensures response.RenderRenewPage? ==> response.bookinst.id == pk
      ensures instances.Keys == old(instances).Keys
      ensures forall id :: id in instances && id != pk ==> instances[id] == old(instances)[id]
    {
      if pk !in instances {
        return NotFound;
      }
      var bookInst := instances[pk];
      if request.Post? {
        var cleaned := CleanDueBack(request.renewalDate, today);
        if cleaned.Accepted? {
          SetDueBack(pk, cleaned.date);
          return RedirectToBorrowed;
        }
        response := RenderRenewPage(Bound(request.renewalDate, cleaned.error), bookInst);
      } else {
        response := RenderRenewPage(Unbound(ProposedRenewalDate(today)), bookInst);
      }
    }
  }

  /**
   * The renewal scenario: a copy due today cannot be renewed to yesterday
   * nor to thirty days ahead, and renewing it to ten days ahead sets its
   * due-back date to that day.
   */
  method RenewalScenario(today: Day, copy: BookInstance)
  {
    var store := new InstanceStore(map[copy.id := copy.(dueBack := Some(today))]);
    var r1 := store.RenewBookLibrarian(copy.id, Post(today - 1), today);
    assert r1.RenderRenewPage? && r1.form.error == RenewalInPast;
    var r2 := store.RenewBookLibrarian(copy.id, Post(today + 30), today);
    assert r2.RenderRenewPage? && r2.form.error == RenewalTooFarAhead;
    assert store.instances[copy.id].dueBack == Some(today);
    var r3 := store.RenewBookLibrarian(copy.id, Post(today + 10), today);
    assert r3 == RedirectToBorrowed;
    assert store.instances[copy.id] == copy.(dueBack := Some(today + 10));
  }
}

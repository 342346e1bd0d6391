# Library catalog: renewals, loan listings and the home page

A model of the logic in the views of a small library-catalog web application
(`catalog/views.py`): the rule a librarian's renewal date must satisfy, the
date the renewal page proposes, the renewal itself as an update of one
book-instance record, the two lists of copies on loan, and the home page's
counts and per-session visit counter.

Dates are day numbers, so four weeks is 28 days and three weeks 21; the
current date is a parameter `today`. The instance store is a class holding a
map from instance id to record; the visitor's session is a class holding a map
from key to value. Both are changed in place by methods, as the views change
them. The listings, the counts and the renewal rule are functions.

- `catalog.dfy` (`Catalog`): the entities and `Filter`, the ORM's `filter`.
- `renewal.dfy` (`Renewal`): `clean_due_back`, the default proposal, and the
  cleaning method as written (see Findings).
- `loans.dfy` (`Loans`): the by-user and librarian loan listings, with the
  `order_by('due_back')` sort.
- `home.dfy` (`Home`): the home-page counts, the session and the `index` view.
- `renew_view.dfy` (`RenewView`): the instance store and `renew_book_librarian`.

The renewal window is closed at both ends: the code refuses only dates
`< today` and dates `> today + 4 weeks`, so a renewal to today itself is
accepted. The model follows the code.

The view `renew_book_librarian` validates with `RenewBookForm`, which lives in
`catalog/forms.py`; that file is not part of this model. The model takes a
form as valid exactly when the rule of `RenewBookModelForm.clean_due_back`,
defined in the same views file, accepts its date.

## Model

| member | source | states |
|---|---|---|
| `Catalog.Filter` | catalog/views.py:15-18 | keeps exactly the rows satisfying the condition, each with its full multiplicity, and is never longer than the table |
| `Catalog.FilterAppend` | catalog/views.py:15-18 | filtering a table with rows appended is filtering each part and concatenating |
| `Catalog.FilterCountsPositions` | catalog/views.py:15-18 | a filter's `count()` is the number of table positions whose row passes the filter |
| `Catalog.PositionsOfLast` | catalog/views.py:15-18 | appending a row adds one matching position exactly when that row matches |
| `Catalog.FilterKeepsAll` | catalog/views.py:13-15 | a filtered count equals the unfiltered count exactly when every row satisfies the condition |
| `Renewal.CleanDueBack` | catalog/views.py:132-144 | a date is accepted iff `today <= d <= today + 28`, and then returned unchanged; `d < today` yields the renewal-in-past error and `d > today + 28` the more-than-4-weeks error |
| `Renewal.WindowBoundaries` | catalog/views.py:136-141 | today and today + 28 are accepted; today - 1 is refused as past and today + 29 as too far ahead |
| `Renewal.CleanIdempotent` | catalog/views.py:143-144 | cleaning an accepted date again on the same day accepts it again |
| `Renewal.ProposedRenewalDate` | catalog/views.py:122 | the default proposal always passes the renewal rule and lies strictly inside the window |
| `Renewal.CleanDueBackAsWritten` | catalog/views.py:136-144 | as written, a date inside the window is returned unchanged and any other date raises `NameError` for `ValidationError` |
| `Renewal.PastDateEscapesFormValidation` | catalog/views.py:136-137 | as written, yesterday's date raises an exception that is not a form error, where the intended rule reports a renewal in the past |
| `Renewal.OutsideWindowEscapesFormValidation` | catalog/views.py:136-141 | as written, every date outside the window, on either side, raises an exception that is not a form error, where the intended rule reports the side missed |
| `Renewal.AsWrittenAgreesInsideWindow` | catalog/views.py:132-144 | the code as written and the intended rule accept the same dates and return the same value for them |
| `Loans.Insert` | catalog/views.py:77 | inserting into a due-date-sorted list keeps it sorted and adds exactly the one row |
| `Loans.SortByDue` | catalog/views.py:86 | `order_by('due_back')` yields a permutation of its input sorted by due date, undated rows last |
| `Loans.SortedIsAscending` | catalog/views.py:86 | a list in that order has its dated rows in ascending due-back order |
| `Loans.LoanedBooksByUser` | catalog/views.py:76-77 | the list holds exactly the rows with `borrower == user` and `status == 'o'`, each as often as in the table, dated rows ascending |
| `Loans.LoanedBooksForLibrarians` | catalog/views.py:85-86 | the list holds exactly the rows with `status == 'o'`, whatever the borrower, each as often as in the table, dated rows ascending |
| `Loans.ByUserWithinLibrarianList` | catalog/views.py:77-86 | every entry of a user's loan list is in the librarian's list, as a sub-multiset |
| `Loans.ByUserListsEachLoanOnce` | catalog/views.py:77 | over a table that enumerates the store, each of the user's loaned records appears once and no two entries share an id |
| `Home.HomeCounts` | catalog/views.py:12-18 | the books, copies, authors and genres counts are the table sizes; the available count is the number of copies with status `'a'` and the "the" count the number of books whose summary mentions "the"; available copies never exceed all copies, equalling them exactly when every copy is available; books mentioning "the" never exceed all books |
| `Home.Session.Set` | catalog/views.py:22 | reading the key afterwards, with any default, gives the new value; reading any other key gives what it gave before |
| `Home.Index` | catalog/views.py:7-32 | the context shows the counts and the visits before this request (0 if none); the stored counter becomes that plus one; no other session key changes |
| `RenewView.InstanceStore.SetDueBack` | catalog/views.py:114-115 | only the due-back date of the one record changes |
| `RenewView.InstanceStore.RenewBookLibrarian` | catalog/views.py:99-125 | unknown id: not found, store unchanged; valid POST: redirect, and only that record's due-back date changes, to the submitted date; invalid POST: form re-shown with its error, store unchanged; other methods: form proposing today + 21, store unchanged; a displayed page shows the record with id `pk` |

## Left out

- Template rendering, redirects and URL reversal: a response is a datatype naming the page, the form and the record shown.
- Login and permission gating (`LoginRequiredMixin`, `PermissionRequiredMixin`, `@permission_required`): that is the framework's authorisation machinery, not code of this application.
- Pagination (`paginate_by` of 2 and 10): the paginator is framework code; the listings return whole lists.
- The generic create, update, delete, list and detail views and their `some_data` strings: framework configuration without logic of their own.
- The schema migration and its set-null deletion policy: the database enforces it, no code here does.
- The clock: `datetime.date.today()` becomes the parameter `today`. Python's date range limits (a sum past year 9999 raises `OverflowError`) are not modelled; day numbers are unbounded.
- Persistence: `save()` is the map update in `SetDueBack`.
- `summary__icontains='the'`: its result depends on database collation and case folding, so it is the parameter `summaryMentionsThe`.
- Where `order_by('due_back')` puts rows without a due-back date depends on the database. The sort puts them last, but the listings' contracts constrain only dated rows.
- Form parsing: `catalog/forms.py` is not part of this model. A POST carries an already parsed date, and a submission that fails to parse is not modelled.
- Session values: any serialisable value can be stored in a Django session. The model stores integers only.
- `get_object_or_404` by primary key is modelled as map lookup; the source's ids are opaque keys, modelled as naturals.

## Findings

| source | as written | input that shows it | evidently intended | confidence | as-written member | corrected member |
|---|---|---|---|---|---|---|
| catalog/views.py:137 | `raise ValidationError(...)`, but `ValidationError` is never imported in the file, so the raise itself fails with `NameError` (lines 137 and 141) | `d = today - 1`, or `d = today + 29` | a form error "renewal in past" / "more than 4 weeks ahead", shown to the librarian | high; not executed | `Renewal.CleanDueBackAsWritten`, `Renewal.OutsideWindowEscapesFormValidation` | `Renewal.CleanDueBack` |

/**
 * The two loan listings: the copies on loan to the requesting user
 * (`LoanedBooksByUserListView.get_queryset`) and every copy on loan
 * (`LoanedBooksForLibrariansListView.get_queryset`), each ordered by
 * due-back date.
 *
 * Where rows without a due-back date go in the ordering depends on the
 * database; the listings here put them last, and their contracts promise only
 * that dated rows ascend, so no placement of undated rows is relied on.
 */
module Loans {
  import opened Catalog

  /** The order `order_by('due_back')` produces: ascending dates, undated rows after dated ones. */
  predicate DueLe(a: BookInstance, b: BookInstance) {
    if a.dueBack.None? then b.dueBack.None?
    else b.dueBack.None? || a.dueBack.value <= b.dueBack.value
  }

  predicate SortedByDue(s: seq<BookInstance>) {
    forall i, j :: 0 <= i < j < |s| ==> DueLe(s[i], s[j])
  }

  /** What both listings promise: among rows that have a due-back date, earlier dates come first. */
  predicate AscendingByDueBack(s: seq<BookInstance>) {
    forall i, j :: 0 <= i < j < |s| && s[i].dueBack.Some? && s[j].dueBack.Some? ==>
      s[i].dueBack.value <= s[j].dueBack.value
  }

  lemma SortedIsAscending(s: seq<BookInstance>)
    requires SortedByDue(s)
    ensures AscendingByDueBack(s)
  {
  }

  lemma DueLeTotal(a: BookInstance, b: BookInstance)
    ensures DueLe(a, b) || DueLe(b, a)
  {
  }

  lemma DueLeTransitive(a: BookInstance, b: BookInstance, c: BookInstance)
    requires DueLe(a, b) && DueLe(b, c)
    ensures DueLe(a, c)
  {
  }

  /** A row no later than every row of a sorted sequence may go in front of it. */
  lemma SortedPrepend(y: BookInstance, t: seq<BookInstance>)
    requires SortedByDue(t)
    requires forall k :: 0 <= k < |t| ==> DueLe(y, t[k])
    ensures SortedByDue([y] + t)
  {
    var s := [y] + t;
    forall i, j | 0 <= i < j < |s| ensures DueLe(s[i], s[j]) {
      if i == 0 {
        assert s[j] == t[j - 1];
      } else {
        assert s[i] == t[i - 1] && s[j] == t[j - 1];
      }
    }
  }

  /** Places `x` into a sorted sequence. */
  function Insert(x: BookInstance, s: seq<BookInstance>): (r: seq<BookInstance>)
    requires SortedByDue(s)
    ensures SortedByDue(r)
    ensures multiset(r) == multiset(s) + multiset{x}
  {
    if s == [] then [x]
    else if DueLe(x, s[0]) then
      assert forall k :: 0 <= k < |s| ==> DueLe(x, s[k]) by {
        forall k | 0 <= k < |s| ensures DueLe(x, s[k]) {
          if k > 0 { DueLeTransitive(x, s[0], s[k]); }
        }
      }
      SortedPrepend(x, s);
      [x] + s
    else
      assert s == [s[0]] + s[1..];
      var rest := Insert(x, s[1..]);
      InsertBehindHead(x, s, rest);
      [s[0]] + rest
  }

  /** The head of `s` is no later than anything inserted behind it. */
  lemma InsertBehindHead(x: BookInstance, s: seq<BookInstance>, rest: seq<BookInstance>)
    requires s != [] && SortedByDue(s) && !DueLe(x, s[0])
    requires SortedByDue(rest) && multiset(rest) == multiset(s[1..]) + multiset{x}
    ensures SortedByDue([s[0]] + rest)
  {
    forall k | 0 <= k < |rest| ensures DueLe(s[0], rest[k]) {
      assert rest[k] in multiset(rest);
      if rest[k] == x {
        DueLeTotal(x, s[0]);
      } else {
        assert rest[k] in multiset(s[1..]);
        var m :| 0 <= m < |s[1..]| && s[1..][m] == rest[k];
        assert s[m + 1] == rest[k];
      }
    }
    SortedPrepend(s[0], rest);
  }

  /** `order_by('due_back')`: a sorted rearrangement of the rows. */
  function SortByDue(s: seq<BookInstance>): (r: seq<BookInstance>)
    ensures SortedByDue(r)
    ensures multiset(r) == multiset(s)
  {
    if s == [] then []
    else
      assert s == [s[0]] + s[1..];
      Insert(s[0], SortByDue(s[1..]))
  }

  predicate BorrowedBy(user: UserId, b: BookInstance) {
    b.borrower == Some(user)
  }

  predicate OnLoan(b: BookInstance) {
    b.status == ON_LOAN
  }

  /**
   * `filter(borrower=user).filter(status__exact='o').order_by('due_back')`:
   * exactly the rows lent to `user` and on loan, each as often as in the
   * table, dated rows ascending.
   */
  function LoanedBooksByUser(rows: seq<BookInstance>, user: UserId): (r: seq<BookInstance>)
    ensures forall b :: b in r <==> b in rows && BorrowedBy(user, b) && OnLoan(b)
    ensures forall b :: multiset(r)[b] == if BorrowedBy(user, b) && OnLoan(b) then multiset(rows)[b] else 0
    ensures AscendingByDueBack(r)
  {
    var byBorrower := Filter(rows, b => BorrowedBy(user, b));
    var result := SortByDue(Filter(byBorrower, OnLoan));
    SortedIsAscending(result);
    result
  }

  /**
   * `filter(status__exact='o').order_by('due_back')`: exactly the rows on
   * loan, whoever borrowed them, each as often as in the table, dated rows
   * ascending.
   */
  function LoanedBooksForLibrarians(rows: seq<BookInstance>): (r: seq<BookInstance>)
    ensures forall b :: b in r <==> b in rows && OnLoan(b)
    ensures forall b :: multiset(r)[b] == if OnLoan(b) then multiset(rows)[b] else 0
    ensures AscendingByDueBack(r)
  {
    var result := SortByDue(Filter(rows, OnLoan));
    SortedIsAscending(result);
    result
  }

  /** A user's loans are among the loans the librarian sees, no more often than there. */
  lemma ByUserWithinLibrarianList(rows: seq<BookInstance>, user: UserId)
    ensures multiset(LoanedBooksByUser(rows, user)) <= multiset(LoanedBooksForLibrarians(rows))
    ensures forall b :: b in LoanedBooksByUser(rows, user) ==> b in LoanedBooksForLibrarians(rows)
  {
  }

  /**
   * The table `rows` is the store's content: every row is the record its id
   * names, every record appears, and no row appears twice.
   */
  predicate Enumerates(rows: seq<BookInstance>, store: map<InstanceId, BookInstance>) {
    && (forall b :: b in rows ==> b.id in store && store[b.id] == b)
    && (forall id :: id in store ==> store[id] in rows)
    && (forall b :: b in rows ==> multiset(rows)[b] <= 1)
  }

  /**
   * Listed from a table that enumerates the store, a user's loan list holds
   * each of that user's loaned records once, and no two entries share an id.
   */
  lemma ByUserListsEachLoanOnce(rows: seq<BookInstance>, store: map<InstanceId, BookInstance>, user: UserId)
    requires Enumerates(rows, store)
    ensures forall id :: id in store && BorrowedBy(user, store[id]) && OnLoan(store[id]) ==>
              multiset(LoanedBooksByUser(rows, user))[store[id]] == 1
    ensures forall i, j :: 0 <= i < j < |LoanedBooksByUser(rows, user)| ==>
              LoanedBooksByUser(rows, user)[i].id != LoanedBooksByUser(rows, user)[j].id
  {
    var r := LoanedBooksByUser(rows, user);
    forall i, j | 0 <= i < j < |r| ensures r[i].id != r[j].id {
      if r[i].id == r[j].id {
        assert r[i] == store[r[i].id] == r[j];
        MultisetAtLeastTwo(r, i, j);
        assert false;
      }
    }
  }

  /** Two positions holding the same element make its multiplicity at least two. */
  lemma {:induction false} MultisetAtLeastTwo<T>(s: seq<T>, i: nat, j: nat)
    requires i < j < |s| && s[i] == s[j]
    ensures multiset(s)[s[i]] >= 2
  {
    if i == 0 {
      assert s == [s[0]] + s[1..];
      assert s[j] in s[1..];
    } else {
      assert s == [s[0]] + s[1..];
      MultisetAtLeastTwo(s[1..], i - 1, j - 1);
    }
  }
}

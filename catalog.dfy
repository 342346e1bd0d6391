/**
 * The entities of the library catalog, as the views of catalog/views.py see
 * them, and the one query primitive every view uses: keeping the rows of a
 * table that satisfy a condition (the ORM's `filter`), whose length is the
 * ORM's `count`.
 *
 * Dates are day numbers (an `int` per calendar day), so that "today + 4 weeks"
 * is `today + 28`. Status codes are the one-letter codes the views compare
 * against: 'o' for on loan, 'a' for available.
 */
module Catalog {

  datatype Option<T> = None | Some(value: T)

  /** A calendar date as a day number. */
  type Day = int

  /** Primary keys and user identities, abstracted to naturals. */
  type InstanceId = nat
  type BookId = nat
  type AuthorId = nat
  type UserId = nat

  /** Status code of a copy that is on loan (`status__exact='o'`). */
  const ON_LOAN: char := 'o'
  /** Status code of a copy that is available (`status__exact='a'`). */
  const AVAILABLE: char := 'a'

  datatype Author = Author(firstName: string, lastName: string, dateOfBirth: Option<Day>, dateOfDeath: Option<Day>)

  datatype Genre = Genre(name: string)

  /** A catalog title; the author reference is cleared, never cascaded, when the author goes. */
  datatype Book = Book(title: string, summary: string, isbn: string, author: Option<AuthorId>, genres: set<string>)

  /** One loanable copy of a book. */
  datatype BookInstance = BookInstance(
    id: InstanceId,
    book: BookId,
    imprint: string,
    dueBack: Option<Day>,
    status: char,
    borrower: Option<UserId>)

  /**
   * The rows of `s` that satisfy `p`, in table order. Every row that
   * satisfies `p` keeps all its occurrences; every other row is dropped.
   */
  function Filter<T(!new)>(s: seq<T>, p: T -> bool): (r: seq<T>)
    ensures |r| <= |s|
    ensures forall x :: x in r <==> x in s && p(x)
    ensures forall x :: multiset(r)[x] == if p(x) then multiset(s)[x] else 0
  {
    if s == [] then []
    else
      assert s == [s[0]] + s[1..];
      if p(s[0]) then [s[0]] + Filter(s[1..], p) else Filter(s[1..], p)
  }

  /** The count of a filtered table equals the table's size exactly when no row is dropped. */
  lemma {:induction false} FilterKeepsAll<T(!new)>(s: seq<T>, p: T -> bool)
    ensures |Filter(s, p)| == |s| <==> forall x :: x in s ==> p(x)
  {
    if s != [] {
      assert s == [s[0]] + s[1..];
      FilterKeepsAll(s[1..], p);
    }
  }

  /** Filtering distributes over appending rows at the end of the table. */
  lemma {:induction false} FilterAppend<T(!new)>(s: seq<T>, t: seq<T>, p: T -> bool)
    ensures Filter(s + t, p) == Filter(s, p) + Filter(t, p)
  {
    if s == [] {
      assert s + t == t;
    } else {
      assert (s + t)[0] == s[0];
      assert (s + t)[1..] == s[1..] + t;
      FilterAppend(s[1..], t, p);
    }
  }

  /** The positions of the table whose row satisfies `p`. */
  function Positions<T>(s: seq<T>, p: T -> bool): set<int> {
    set i | 0 <= i < |s| && p(s[i])
  }

  /** A filtered count is the number of positions of the table whose row satisfies the condition. */
  lemma {:induction false} FilterCountsPositions<T(!new)>(s: seq<T>, p: T -> bool)
    ensures |Filter(s, p)| == |Positions(s, p)|
  {
    if s == [] {
      assert Positions(s, p) == {};
    } else {
      var front, last := s[..|s| - 1], s[|s| - 1];
      assert s == front + [last];
      FilterAppend(front, [last], p);
      assert Filter([last], p) == if p(last) then [last] else [];
      FilterCountsPositions(front, p);
      PositionsOfLast(front, last, p);
    }
  }

  /** The matching positions after appending a row are the old ones, plus the new last one if it matches. */
  lemma PositionsOfLast<T>(front: seq<T>, last: T, p: T -> bool)
    ensures |Positions(front + [last], p)| == |Positions(front, p)| + (if p(last) then 1 else 0)
  {
    var s := front + [last];
    var n := |front|;
    if p(last) {
      assert Positions(s, p) == Positions(front, p) + {n};
    } else {
      assert Positions(s, p) == Positions(front, p);
    }
  }
}

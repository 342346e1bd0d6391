/**
 * The home page (`index`): six counts over the catalog tables, and a visit
 * counter kept in the visitor's session.
 *
 * The session is a mutable map from keys to values that the view reads with
 * a default and then overwrites; it is the one piece of state the home page
 * changes.
 */
module Home {
  import opened Catalog

  /** The session key the home page counts visits under. */
  const NUM_VISITS_KEY: string := "num_visits"

  datatype Counts = Counts(
    numBooks: nat,
    numInstances: nat,
    numInstancesAvailable: nat,
    numAuthors: nat,
    numGenres: nat,
    numThe: nat)

  /** The values the home page hands to its template. */
  datatype HomeContext = HomeContext(counts: Counts, numVisits: int)

  predicate IsAvailable(b: BookInstance) {
    b.status == AVAILABLE
  }

  /**
   * The counts of the home page. `summaryMentionsThe` stands for the
   * database's case-insensitive test `summary__icontains='the'`. A filtered
   * count never exceeds the table it filters, and the available count reaches
   * the instance count exactly when every copy is available. Each filtered
   * count is the number of table positions whose row passes the filter.
   */
  function HomeCounts(
    books: seq<Book>, instances: seq<BookInstance>, authors: seq<Author>, genres: seq<Genre>,
    summaryMentionsThe: string -> bool): (c: Counts)
    ensures c.numInstancesAvailable == |Positions(instances, IsAvailable)|
    ensures c.numThe == |Positions(books, (b: Book) => summaryMentionsThe(b.summary))|
    ensures c.numInstancesAvailable <= c.numInstances == |instances|
    ensures c.numThe <= c.numBooks == |books|
    ensures c.numInstancesAvailable == c.numInstances <==> forall b :: b in instances ==> IsAvailable(b)
    ensures c.numAuthors == |authors| && c.numGenres == |genres|
  {
    var mentionsThe := (b: Book) => summaryMentionsThe(b.summary);
    FilterKeepsAll(instances, IsAvailable);
    FilterCountsPositions(instances, IsAvailable);
    FilterCountsPositions(books, mentionsThe);
    Counts(
      |books|,
      |instances|,
      |Filter(instances, IsAvailable)|,
      |authors|,
      |genres|,
      |Filter(books, mentionsThe)|)
  }

  /** The session store of one visitor. */
  class Session {
    var values: map<string, int>

    constructor (initial: map<string, int>)
      ensures values == initial
    {
      values := initial;
    }

    /** `session.get(key, default)`. */
    function Get(key: string, default: int): int
      reads this
    {
      if key in values then values[key] else default
    }

    /** `session[key] = value`: that key now holds `value`, every other key is as it was. */
    method Set(key: string, value: int)
      modifies this
      ensures values == old(values)[key := value]
      ensures forall d :: Get(key, d) == value
      ensures forall k, d :: k != key ==> Get(k, d) == old(Get(k, d))
    {
      values := values[key := value];
    }
  }

  /**
   * The home-page view. The context carries the counts and the number of
   * earlier visits (0 on the first); the session afterwards counts this visit
   * too, and no other session key changes.
   */
  method Index(
    session: Session,
    books: seq<Book>, instances: seq<BookInstance>, authors: seq<Author>, genres: seq<Genre>,
    summaryMentionsThe: string -> bool)
    returns (context: HomeContext)
    modifies session
    ensures context.counts == HomeCounts(books, instances, authors, genres, summaryMentionsThe)
    ensures context.numVisits == old(session.Get(NUM_VISITS_KEY, 0))
    ensures NUM_VISITS_KEY in session.values && session.values[NUM_VISITS_KEY] == context.numVisits + 1
    ensures forall k :: k != NUM_VISITS_KEY ==> (k in session.values <==> k in old(session.values))
    ensures forall k :: k != NUM_VISITS_KEY && k in session.values ==> session.values[k] == old(session.values)[k]
  {
    var counts := HomeCounts(books, instances, authors, genres, summaryMentionsThe);
    var numVisits := session.Get(NUM_VISITS_KEY, 0);
    session.Set(NUM_VISITS_KEY, numVisits + 1);
    context := HomeContext(counts, numVisits);
  }

  /**
   * Three home-page requests in a fresh session show 0, 1 and 2 earlier
   * visits and leave the counter at 3.
   */
  method ThreeVisitsInFreshSession(books: seq<Book>, instances: seq<BookInstance>, authors: seq<Author>, genres: seq<Genre>,
    summaryMentionsThe: string -> bool)
  {
    var session := new Session(map[]);
    var first := Index(session, books, instances, authors, genres, summaryMentionsThe);
    assert first.numVisits == 0;
    var second := Index(session, books, instances, authors, genres, summaryMentionsThe);
    assert second.numVisits == 1;
    var third := Index(session, books, instances, authors, genres, summaryMentionsThe);
    assert third.numVisits == 2;
    assert session.Get(NUM_VISITS_KEY, 0) == 3;
  }
}

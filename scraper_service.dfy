/**
 * The ingestion service: resolve each scraped record to a canonical Book
 * (by Douban id, then by ISBN, else a new Book) and record the run as a
 * raw list filed under a Booklist found or created by name.
 */
module ScraperService {
  import opened Wrappers
  import opened Models
  import opened Douban

  const DefaultBooklistName: string := "豆瓣"
  const BooklistDescription: string := "豆瓣图书榜单汇总"

  /** The counters of one run. */
  datatype Stats = Stats(total: nat, newBooks: nat, existingBooks: nat)

  /** What a run returns. */
  datatype Report = Report(
    rawBooklistId: nat, rawBooklistName: string, booklistId: nat, booklistName: string, stats: Stats)

  /** Python truthiness of an optional string: present and non-empty. */
  predicate Given(s: Option<string>) {
    s.Some? && s.value != ""
  }

  predicate DoubanIdStored(db: Database, doubanId: string) {
    exists b :: b in db.books && b.doubanId == Some(doubanId)
  }

  predicate IsbnStored(db: Database, isbn: Option<string>) {
    exists b :: b in db.books && b.isbn == isbn
  }

  // ---------------------------------------------------------------------------
  // find_or_create_book

  /** The lookups of the cascade: by Douban id when it is non-empty, then by ISBN when given. */
  function Lookup(db: Database, data: BookData): (r: Option<Book>)
    ensures r.Some? ==> r.value in db.books
  {
    var byDouban :=
      if data.doubanId != "" then First(db.books, (b: Book) => b.doubanId == Some(data.doubanId)) else None;
    if byDouban.Some? then byDouban
    else if Given(data.isbn) then First(db.books, (b: Book) => b.isbn == data.isbn)
    else None
  }

  /**
   * The unsaved Book built from a record. An empty Douban id or ISBN is
   * stored as null, so that it cannot collide under the unique constraints.
   */
  function NewBook(data: BookData): (b: Book)
    ensures b.id.None? && b.title == data.title && b.author == Some(data.author)
    ensures b.coverUrl == Some(data.coverUrl) && b.description == Some(data.quote.GetOr(""))
    ensures b.doubanId.Some? <==> data.doubanId != ""
    ensures b.doubanId.Some? ==> b.doubanId == Some(data.doubanId)
    ensures b.isbn.Some? <==> Given(data.isbn)
    ensures b.isbn.Some? ==> b.isbn == data.isbn
  {
    Book(
      id := None,
      isbn := if Given(data.isbn) then data.isbn else None,
      title := data.title,
      author := Some(data.author),
      coverUrl := Some(data.coverUrl),
      doubanId := if data.doubanId != "" then Some(data.doubanId) else None,
      description := Some(data.quote.GetOr("")))
  }

  /**
   * `find_or_create_book`: a stored Book with the record's non-empty Douban
   * id; else a stored Book with the record's non-empty ISBN; else a new,
   * unsaved Book. Stored Books are returned as they are.
   */
  function FindOrCreateBook(db: Database, data: BookData): (b: Book)
    ensures b in db.books || b == NewBook(data)
    ensures data.doubanId != "" && DoubanIdStored(db, data.doubanId) ==>
      b in db.books && b.doubanId == Some(data.doubanId)
    ensures (data.doubanId == "" || !DoubanIdStored(db, data.doubanId)) &&
            Given(data.isbn) && IsbnStored(db, data.isbn) ==>
      b in db.books && b.isbn == data.isbn
    ensures (data.doubanId == "" || !DoubanIdStored(db, data.doubanId)) &&
            (!Given(data.isbn) || !IsbnStored(db, data.isbn)) ==>
      b == NewBook(data)
  {
    Lookup(db, data).GetOr(NewBook(data))
  }

  /** Two stored Books with the same non-null Douban id are the same Book. */
  lemma SameDoubanIdSameBook(db: Database, x: Book, y: Book)
    requires BooksValid(db) && x in db.books && y in db.books
    requires x.doubanId.Some? && x.doubanId == y.doubanId
    ensures x == y
  {
    var i :| 0 <= i < |db.books| && db.books[i] == x;
    var j :| 0 <= j < |db.books| && db.books[j] == y;
    if i != j {
      assert db.books[i].doubanId != db.books[j].doubanId;
    }
  }

  /** Two stored Books with the same non-null ISBN are the same Book. */
  lemma SameIsbnSameBook(db: Database, x: Book, y: Book)
    requires BooksValid(db) && x in db.books && y in db.books
    requires x.isbn.Some? && x.isbn == y.isbn
    ensures x == y
  {
    var i :| 0 <= i < |db.books| && db.books[i] == x;
    var j :| 0 <= j < |db.books| && db.books[j] == y;
    if i != j {
      assert db.books[i].isbn != db.books[j].isbn;
    }
  }

  /**
   * A stored Book with the record's non-empty Douban id is the Book the
   * record resolves to, whatever the record's ISBN and title.
   */
  lemma ResolvesByDoubanId(db: Database, data: BookData, x: Book)
    requires Valid(db) && x in db.books
    requires data.doubanId != "" && x.doubanId == Some(data.doubanId)
    ensures FindOrCreateBook(db, data) == x
  {
    SameDoubanIdSameBook(db, FindOrCreateBook(db, data), x);
  }

  /**
   * Without a Douban-id match, a stored Book with the record's non-empty
   * ISBN is the Book the record resolves to.
   */
  lemma ResolvesByIsbn(db: Database, data: BookData, x: Book)
    requires Valid(db) && x in db.books
    requires data.doubanId == "" || !DoubanIdStored(db, data.doubanId)
    requires Given(data.isbn) && x.isbn == data.isbn
    ensures FindOrCreateBook(db, data) == x
  {
    SameIsbnSameBook(db, FindOrCreateBook(db, data), x);
  }

  /** In a valid store the result is new exactly when it has no id. */
  lemma NewExactlyWhenUnsaved(db: Database, data: BookData)
    requires Valid(db)
    ensures FindOrCreateBook(db, data).id.None? <==> FindOrCreateBook(db, data) !in db.books
  {
  }

  /** A new Book shares no non-null identifier with a stored Book. */
  lemma NewBookIsFresh(db: Database, data: BookData)
    requires FindOrCreateBook(db, data) !in db.books
    ensures var b := FindOrCreateBook(db, data);
            forall x :: x in db.books ==>
              (b.doubanId.Some? ==> x.doubanId != b.doubanId) && (b.isbn.Some? ==> x.isbn != b.isbn)
  {
  }

  // ---------------------------------------------------------------------------
  // The per-record loop of scrape_and_save_top250, as a function

  /** The store and the counters part-way through a run. */
  datatype Progress = Progress(db: Database, stats: Stats)

  /** The id the record's Book has once it is saved. */
  function ResolvedId(db: Database, data: BookData): nat
  {
    SaveBook(db, FindOrCreateBook(db, data)).1
  }

  /** The counters after one more record, new or existing. */
  function Count(stats: Stats, isNew: bool): Stats
  {
    if isNew then stats.(total := stats.total + 1, newBooks := stats.newBooks + 1)
    else stats.(total := stats.total + 1, existingBooks := stats.existingBooks + 1)
  }

  /** One record: resolve, count as new or existing, save the Book, add the item. */
  function IngestStep(p: Progress, rawId: nat, data: BookData): Progress
  {
    var b := FindOrCreateBook(p.db, data);
    var saved := SaveBook(p.db, b);
    Progress(InsertItem(saved.0, rawId, saved.1, data.rank), Count(p.stats, b.id.None?))
  }

  /** The records in order, starting from `db` and zero counters. */
  function Ingest(db: Database, rawId: nat, records: seq<BookData>): Progress
    decreases |records|
  {
    if records == [] then Progress(db, Stats(0, 0, 0))
    else IngestStep(Ingest(db, rawId, records[..|records| - 1]), rawId, records[|records| - 1])
  }

  /** Handling one more record is one more step. */
  lemma IngestSnoc(db: Database, rawId: nat, records: seq<BookData>, k: nat)
    requires k < |records|
    ensures Ingest(db, rawId, records[..k + 1]) == IngestStep(Ingest(db, rawId, records[..k]), rawId, records[k])
  {
    assert records[..k + 1][..k] == records[..k];
  }

  /** The store just before record `k` is handled. */
  function Before(db: Database, rawId: nat, records: seq<BookData>, k: nat): Database
    requires k <= |records|
  {
    Ingest(db, rawId, records[..k]).db
  }

  /** One step keeps every table but books and items, and only appends to those. */
  lemma StepShape(p: Progress, rawId: nat, data: BookData)
    ensures var q := IngestStep(p, rawId, data);
      && q.db.rawBooklists == p.db.rawBooklists && q.db.booklists == p.db.booklists
      && q.db.metaBooklists == p.db.metaBooklists && q.db.memberships == p.db.memberships
      && q.db.results == p.db.results
      && |q.db.books| >= |p.db.books| && q.db.books[..|p.db.books|] == p.db.books
      && q.db.items == p.db.items + [q.db.items[|p.db.items|]]
      && q.db.items[|p.db.items|].rawBooklistId == rawId
      && q.db.items[|p.db.items|].bookId == ResolvedId(p.db, data)
      && q.db.items[|p.db.items|].rank == data.rank
      && q.db.nextId > p.db.nextId
  {
  }

  /**
   * The counters: `total` is the number of records and the sum of new and
   * existing; one Book is added per new record and one item per record;
   * stored Books and items are kept, and the other tables are untouched.
   */
  lemma {:induction false} IngestCounts(db: Database, rawId: nat, records: seq<BookData>)
    ensures var p := Ingest(db, rawId, records);
      && p.stats.total == |records| == p.stats.newBooks + p.stats.existingBooks
      && |p.db.books| == |db.books| + p.stats.newBooks && p.db.books[..|db.books|] == db.books
      && |p.db.items| == |db.items| + |records| && p.db.items[..|db.items|] == db.items
      && p.db.rawBooklists == db.rawBooklists && p.db.booklists == db.booklists
      && p.db.metaBooklists == db.metaBooklists && p.db.memberships == db.memberships
      && p.db.results == db.results
    decreases |records|
  {
    if records != [] {
      var front := records[..|records| - 1];
      IngestCounts(db, rawId, front);
      var p := Ingest(db, rawId, front);
      StepShape(p, rawId, records[|records| - 1]);
      var q := Ingest(db, rawId, records);
      assert q.db.items[..|db.items|] == q.db.items[..|p.db.items|][..|db.items|];
      assert q.db.books[..|db.books|] == q.db.books[..|p.db.books|][..|db.books|];
    }
  }

  /**
   * Record `k` yields the item at position `k` of the run: it belongs to the
   * raw list, carries the record's rank and points at the record's Book.
   */
  lemma IngestItems(db: Database, rawId: nat, records: seq<BookData>, k: nat)
    requires k < |records|
    ensures var items := Ingest(db, rawId, records).db.items;
      && |db.items| + k < |items|
      && items[|db.items| + k].rawBooklistId == rawId
      && items[|db.items| + k].rank == records[k].rank
      && items[|db.items| + k].bookId == ResolvedId(Before(db, rawId, records, k), records[k])
  {
    var before := Before(db, rawId, records, k).items;
    var next := Before(db, rawId, records, k + 1).items;
    var all := Ingest(db, rawId, records).db.items;
    assert |before| == |db.items| + k by {
      IngestCounts(db, rawId, records[..k]);
    }
    assert |next| == |before| + 1 && next[|before|].rawBooklistId == rawId
        && next[|before|].rank == records[k].rank
        && next[|before|].bookId == ResolvedId(Before(db, rawId, records, k), records[k]) by {
      IngestSnoc(db, rawId, records, k);
      StepShape(Ingest(db, rawId, records[..k]), rawId, records[k]);
    }
    assert |next| <= |all| && all[..|next|] == next by {
      ItemsPersist(db, rawId, records, k + 1, |records|);
      assert records[..|records|] == records;
    }
    assert all[|before|] == next[|before|];
  }

  /** Items recorded before record `m` are still there, in place, before record `n >= m`. */
  lemma ItemsPersist(db: Database, rawId: nat, records: seq<BookData>, m: nat, n: nat)
    requires m <= n <= |records|
    ensures var before := Before(db, rawId, records, m).items;
            var after := Before(db, rawId, records, n).items;
            |before| <= |after| && after[..|before|] == before
  {
    var items := (k: nat) => if k <= |records| then Before(db, rawId, records, k).items else [];
    forall k | m <= k < n
      ensures |items(k)| <= |items(k + 1)| && items(k + 1)[..|items(k)|] == items(k)
    {
      IngestSnoc(db, rawId, records, k);
      StepShape(Ingest(db, rawId, records[..k]), rawId, records[k]);
    }
    PrefixChain(items, m, n);
  }

  /** Saving the resolved Book keeps a valid store valid, and the saved id names a stored Book. */
  lemma SaveResolvedValid(db: Database, data: BookData)
    requires Valid(db)
    ensures var (db1, bookId) := SaveBook(db, FindOrCreateBook(db, data));
            Valid(db1) && HasBook(db1, bookId) && db1.rawBooklists == db.rawBooklists
  {
    var b := FindOrCreateBook(db, data);
    if b.id.None? {
      assert b !in db.books;
      NewBookIsFresh(db, data);
    }
    SaveBookValid(db, b);
  }

  /** A step on a valid store, for a raw list that exists, keeps the store valid. */
  lemma StepValid(p: Progress, rawId: nat, data: BookData)
    requires Valid(p.db) && HasRawBooklist(p.db, rawId)
    ensures Valid(IngestStep(p, rawId, data).db) && HasRawBooklist(IngestStep(p, rawId, data).db, rawId)
  {
    var (db1, bookId) := SaveBook(p.db, FindOrCreateBook(p.db, data));
    SaveResolvedValid(p.db, data);
    InsertItemValid(db1, rawId, bookId, data.rank);
  }

  /** A run over a valid store, for a raw list that exists, keeps the store valid. */
  lemma {:induction false} IngestValid(db: Database, rawId: nat, records: seq<BookData>)
    requires Valid(db) && HasRawBooklist(db, rawId)
    ensures Valid(Ingest(db, rawId, records).db) && HasRawBooklist(Ingest(db, rawId, records).db, rawId)
    decreases |records|
  {
    if records != [] {
      IngestValid(db, rawId, records[..|records| - 1]);
      StepValid(Ingest(db, rawId, records[..|records| - 1]), rawId, records[|records| - 1]);
    }
  }

  /** Books stored before record `m` are still stored before record `n >= m`. */
  lemma BooksPersist(db: Database, rawId: nat, records: seq<BookData>, m: nat, n: nat)
    requires m <= n <= |records|
    ensures var before := Before(db, rawId, records, m).books;
            var after := Before(db, rawId, records, n).books;
            |before| <= |after| && after[..|before|] == before
  {
    var books := (k: nat) => if k <= |records| then Before(db, rawId, records, k).books else [];
    forall k | m <= k < n
      ensures |books(k)| <= |books(k + 1)| && books(k + 1)[..|books(k)|] == books(k)
    {
      BeforeKeepsBooks(db, rawId, records, k);
    }
    PrefixChain(books, m, n);
  }

  /** In a chain where each element extends the one before, every element extends all earlier ones. */
  lemma {:induction false} PrefixChain<T>(f: nat -> seq<T>, m: nat, n: nat)
    requires m <= n
    requires forall k :: m <= k < n ==> |f(k)| <= |f(k + 1)| && f(k + 1)[..|f(k)|] == f(k)
    ensures |f(m)| <= |f(n)| && f(n)[..|f(m)|] == f(m)
    decreases n - m
  {
    if m < n {
      PrefixChain(f, m, n - 1);
      PrefixTrans(f(m), f(n - 1), f(n));
    }
  }

  /** Handling record `k` only appends to the books. */
  lemma BeforeKeepsBooks(db: Database, rawId: nat, records: seq<BookData>, k: nat)
    requires k < |records|
    ensures var before := Before(db, rawId, records, k).books;
            var after := Before(db, rawId, records, k + 1).books;
            |before| <= |after| && after[..|before|] == before
  {
    IngestSnoc(db, rawId, records, k);
    StepKeepsBooks(Ingest(db, rawId, records[..k]), rawId, records[k]);
  }

  /** One step only appends to the books. */
  lemma StepKeepsBooks(p: Progress, rawId: nat, data: BookData)
    ensures var books := IngestStep(p, rawId, data).db.books;
            |p.db.books| <= |books| && books[..|p.db.books|] == p.db.books
  {
    StepShape(p, rawId, data);
  }

  /** Being a prefix is transitive. */
  lemma PrefixTrans<T>(a: seq<T>, b: seq<T>, c: seq<T>)
    requires |a| <= |b| && b[..|a|] == a
    requires |b| <= |c| && c[..|b|] == b
    ensures |a| <= |c| && c[..|a|] == a
  {
    assert c[..|a|] == c[..|b|][..|a|];
  }

  /**
   * Once a record with a non-empty Douban id and no ISBN is handled, a
   * stored Book carries that Douban id under the id the record resolved to.
   */
  lemma StoredAfterStep(p: Progress, rawId: nat, data: BookData)
    requires data.doubanId != "" && !Given(data.isbn)
    ensures exists x :: x in IngestStep(p, rawId, data).db.books &&
                        x.doubanId == Some(data.doubanId) && x.id == Some(ResolvedId(p.db, data))
  {
    var b := FindOrCreateBook(p.db, data);
    var books := IngestStep(p, rawId, data).db.books;
    if b.id.Some? {
      assert b in books;
    } else {
      var x := b.(id := Some(p.db.nextId));
      assert books == p.db.books + [x];
      assert books[|p.db.books|] == x;
    }
  }

  /**
   * Each Book is saved before the next record is resolved, so a Douban id
   * seen again later in the run resolves to the Book of its first record
   * and is counted as existing. (The earlier record must not have been
   * resolved by ISBN instead; the scraper's records carry no ISBN.)
   */
  lemma RepeatedDoubanIdReused(db: Database, rawId: nat, records: seq<BookData>, i: nat, j: nat)
    requires Valid(db) && HasRawBooklist(db, rawId)
    requires i < j < |records|
    requires records[i].doubanId != "" && records[j].doubanId == records[i].doubanId
    requires !Given(records[i].isbn)
    ensures FindOrCreateBook(Before(db, rawId, records, j), records[j]).id.Some?
    ensures ResolvedId(Before(db, rawId, records, j), records[j]) ==
            ResolvedId(Before(db, rawId, records, i), records[i])
  {
    var dbj := Before(db, rawId, records, j);
    DoubanIdKept(db, rawId, records, i, j);
    var x :| x in dbj.books && x.doubanId == Some(records[i].doubanId) &&
             x.id == Some(ResolvedId(Before(db, rawId, records, i), records[i]));
    assert Valid(dbj) by {
      IngestValid(db, rawId, records[..j]);
    }
    ResolvesByDoubanId(dbj, records[j], x);
  }

  /** After record `i` is handled, its Book stays stored, under its Douban id, before every later record. */
  lemma DoubanIdKept(db: Database, rawId: nat, records: seq<BookData>, i: nat, j: nat)
    requires i < j <= |records|
    requires records[i].doubanId != "" && !Given(records[i].isbn)
    ensures exists x :: x in Before(db, rawId, records, j).books &&
                        x.doubanId == Some(records[i].doubanId) &&
                        x.id == Some(ResolvedId(Before(db, rawId, records, i), records[i]))
  {
    StoredAtDoubanId(db, rawId, records, i);
    var x :| x in Before(db, rawId, records, i + 1).books && x.doubanId == Some(records[i].doubanId) &&
             x.id == Some(ResolvedId(Before(db, rawId, records, i), records[i]));
    BookKept(db, rawId, records, i + 1, j, x);
  }

  /** Handling record `i` leaves its Book stored under its Douban id. */
  lemma StoredAtDoubanId(db: Database, rawId: nat, records: seq<BookData>, i: nat)
    requires i < |records|
    requires records[i].doubanId != "" && !Given(records[i].isbn)
    ensures exists x :: x in Before(db, rawId, records, i + 1).books &&
                        x.doubanId == Some(records[i].doubanId) &&
                        x.id == Some(ResolvedId(Before(db, rawId, records, i), records[i]))
  {
    IngestSnoc(db, rawId, records, i);
    StoredAfterStep(Ingest(db, rawId, records[..i]), rawId, records[i]);
  }

  /** A Book stored before record `m` is still stored before record `n`. */
  lemma BookKept(db: Database, rawId: nat, records: seq<BookData>, m: nat, n: nat, x: Book)
    requires m <= n <= |records|
    requires x in Before(db, rawId, records, m).books
    ensures x in Before(db, rawId, records, n).books
  {
    var before := Before(db, rawId, records, m).books;
    var after := Before(db, rawId, records, n).books;
    BooksPersist(db, rawId, records, m, n);
    var k :| 0 <= k < |before| && before[k] == x;
    assert after[k] == x;
  }

  // ---------------------------------------------------------------------------
  // The whole run of scrape_and_save_top250, as a function

  /** The Booklist with this name, created (with the fixed description) only when none exists. */
  function EnsureBooklist(db: Database, name: string): (r: (Database, nat))
  {
    match First(db.booklists, (l: Booklist) => l.name == name)
    case Some(l) => (db, l.id)
    case None => InsertBooklist(db, name, Some(BooklistDescription))
  }

  /** The Booklist a name finds or creates is one with that name. */
  lemma EnsureBooklistNamed(db: Database, name: string)
    ensures var (db', id) := EnsureBooklist(db, name);
            exists l :: l in db'.booklists && l.id == id && l.name == name
    ensures First(db.booklists, (l: Booklist) => l.name == name).Some? ==>
            EnsureBooklist(db, name).0 == db
  {
    var (db', id) := EnsureBooklist(db, name);
    if First(db.booklists, (l: Booklist) => l.name == name).None? {
      assert db'.booklists[|db.booklists|] == Booklist(id, name, Some(BooklistDescription));
    }
  }

  /** The store and report after a run that saves the scraped `result`. */
  function SaveScrape(db: Database, booklistName: string, result: ScrapeResult): (Database, Report)
  {
    var (db1, booklistId) := EnsureBooklist(db, booklistName);
    var (db2, rawId) := InsertRawBooklist(db1, result.name, Some(result.sourceUrl), Some(booklistId));
    var p := Ingest(db2, rawId, result.books);
    (p.db, Report(rawId, result.name, booklistId, booklistName, p.stats))
  }

  /** What the Top 250 crawl returns for the pages `fetch` gives. */
  function Top250Result(fetch: nat -> seq<Row>): ScrapeResult
  {
    ScrapeResult(Top250Name, Top250Url, Top250Pages(fetch, PageCount))
  }

  /**
   * A run on a valid store leaves it valid, files the new raw list under
   * the reported Booklist, which carries the requested name, and counts
   * every record once, as new or existing.
   */
  lemma SaveScrapeFacts(db: Database, booklistName: string, result: ScrapeResult)
    requires Valid(db)
    ensures var (db', report) := SaveScrape(db, booklistName, result);
      && Valid(db')
      && RawBooklist(report.rawBooklistId, result.name, Some(result.sourceUrl), Some(report.booklistId))
           in db'.rawBooklists
      && (exists l :: l in db'.booklists && l.id == report.booklistId && l.name == booklistName)
      && report.stats.total == |result.books| == report.stats.newBooks + report.stats.existingBooks
      && |db'.items| == |db.items| + |result.books|
      && |db'.books| == |db.books| + report.stats.newBooks
  {
    var (db1, booklistId) := EnsureBooklist(db, booklistName);
    EnsureBooklistNamed(db, booklistName);
    if db1 != db {
      InsertBooklistValid(db, booklistName, Some(BooklistDescription));
    } else {
      var l :| l in db1.booklists && l.id == booklistId && l.name == booklistName;
    }
    assert HasBooklist(db1, booklistId);
    InsertRawBooklistValid(db1, result.name, Some(result.sourceUrl), Some(booklistId));
    var (db2, rawId) := InsertRawBooklist(db1, result.name, Some(result.sourceUrl), Some(booklistId));
    assert db2.rawBooklists[|db1.rawBooklists|] ==
      RawBooklist(rawId, result.name, Some(result.sourceUrl), Some(booklistId));
    IngestCounts(db2, rawId, result.books);
    IngestValid(db2, rawId, result.books);
  }

  /**
   * The Booklist's books are derived, never stale: after a run, the Book of
   * every new item is among the books of the reported Booklist.
   */
  lemma SaveScrapeAddsToBooklist(db: Database, booklistName: string, result: ScrapeResult, k: nat)
    requires k < |result.books|
    ensures var (db', report) := SaveScrape(db, booklistName, result);
            |db.items| + k < |db'.items| &&
            db'.items[|db.items| + k].bookId in BooklistBooks(db', report.booklistId)
  {
    var (db1, booklistId) := EnsureBooklist(db, booklistName);
    var (db2, rawId) := InsertRawBooklist(db1, result.name, Some(result.sourceUrl), Some(booklistId));
    var db' := SaveScrape(db, booklistName, result).0;
    assert db2.items == db.items;
    IngestItems(db2, rawId, result.books, k);
    IngestCounts(db2, rawId, result.books);
    var it := db'.items[|db.items| + k];
    var raw := RawBooklist(rawId, result.name, Some(result.sourceUrl), Some(booklistId));
    assert raw == db2.rawBooklists[|db1.rawBooklists|];
    assert raw in db'.rawBooklists;
    assert it in db'.items && Files(db', it.rawBooklistId, booklistId);
  }

  /** A run never removes a book from any Booklist. */
  lemma SaveScrapeKeepsBooklistBooks(db: Database, booklistName: string, result: ScrapeResult, booklistId: nat)
    ensures BooklistBooks(db, booklistId) <= BooklistBooks(SaveScrape(db, booklistName, result).0, booklistId)
  {
    SaveScrapeGrows(db, booklistName, result);
    BooklistBooksGrow(db, SaveScrape(db, booklistName, result).0, booklistId);
  }

  /** Appending BooklistItems and keeping every RawBooklist removes no book from a Booklist. */
  lemma BooklistBooksGrow(db: Database, db': Database, booklistId: nat)
    requires |db.items| <= |db'.items| && db'.items[..|db.items|] == db.items
    requires forall r :: r in db.rawBooklists ==> r in db'.rawBooklists
    ensures BooklistBooks(db, booklistId) <= BooklistBooks(db', booklistId)
  {
    forall id | id in BooklistBooks(db, booklistId) ensures id in BooklistBooks(db', booklistId) {
      var it :| it in db.items && Files(db, it.rawBooklistId, booklistId) && it.bookId == id;
      ItemKept(db, db', it, booklistId);
    }
  }

  /** One BooklistItem filed under a Booklist stays there. */
  lemma ItemKept(db: Database, db': Database, it: RawBooklistItem, booklistId: nat)
    requires |db.items| <= |db'.items| && db'.items[..|db.items|] == db.items
    requires forall r :: r in db.rawBooklists ==> r in db'.rawBooklists
    requires it in db.items && Files(db, it.rawBooklistId, booklistId)
    ensures it in db'.items && Files(db', it.rawBooklistId, booklistId)
  {
    var r :| r in db.rawBooklists && r.id == it.rawBooklistId && r.booklistId == Some(booklistId);
    assert r in db'.rawBooklists;
    var i :| 0 <= i < |db.items| && db.items[i] == it;
    assert db'.items[i] == it;
  }

  /** A run only appends BooklistItems and keeps every RawBooklist. */
  lemma SaveScrapeGrows(db: Database, booklistName: string, result: ScrapeResult)
    ensures var db' := SaveScrape(db, booklistName, result).0;
            |db.items| <= |db'.items| && db'.items[..|db.items|] == db.items &&
            forall r :: r in db.rawBooklists ==> r in db'.rawBooklists
  {
    var (db1, blId) := EnsureBooklist(db, booklistName);
    var (db2, rawId) := InsertRawBooklist(db1, result.name, Some(result.sourceUrl), Some(blId));
    IngestCounts(db2, rawId, result.books);
  }

  /** A second run under the same name reuses the Booklist of the first and creates none. */
  lemma RerunReusesBooklist(db: Database, name: string, first: ScrapeResult, second: ScrapeResult)
    ensures var (db1, r1) := SaveScrape(db, name, first);
            var (db2, r2) := SaveScrape(db1, name, second);
            r2.booklistId == r1.booklistId && db2.booklists == db1.booklists
  {
    var named := (l: Booklist) => l.name == name;
    var (dbA, id1) := EnsureBooklist(db, name);
    var (dbB, rawId) := InsertRawBooklist(dbA, first.name, Some(first.sourceUrl), Some(id1));
    IngestCounts(dbB, rawId, first.books);
    var db1 := SaveScrape(db, name, first).0;
    assert db1.booklists == dbA.booklists;
    var (dbC, id2) := EnsureBooklist(db1, name);
    if First(db.booklists, named).Some? {
      assert First(db1.booklists, named) == First(db.booklists, named);
    } else {
      var found := First(db1.booklists, named);
      assert dbA.booklists == db.booklists + [Booklist(id1, name, Some(BooklistDescription))];
      assert named(db1.booklists[|db.booklists|]) && db1.booklists[|db.booklists|] in db1.booklists;
      assert found.Some?;
      var i :| 0 <= i < |db1.booklists| && db1.booklists[i] == found.value &&
               forall k :: 0 <= k < i ==> !named(db1.booklists[k]);
      assert i == |db.booklists|;
    }
    var dbD := InsertRawBooklist(dbC, second.name, Some(second.sourceUrl), Some(id2));
    IngestCounts(dbD.0, dbD.1, second.books);
  }

  // ---------------------------------------------------------------------------
  // The session and the imperative run

  /** The database session: the store the run adds rows to and commits. */
  class Session {
    var db: Database

    constructor (db: Database)
      ensures this.db == db
    {
      this.db := db;
    }

    /** Adds and commits a Booklist; returns its new id. */
    method AddBooklist(name: string, description: Option<string>) returns (id: nat)
      modifies this
      ensures (db, id) == InsertBooklist(old(db), name, description)
    {
      id := db.nextId;
      db := InsertBooklist(db, name, description).0;
    }

    /** Adds and commits a raw list; returns its new id. */
    method AddRawBooklist(name: string, sourceUrl: Option<string>, booklistId: Option<nat>) returns (id: nat)
      modifies this
      ensures (db, id) == InsertRawBooklist(old(db), name, sourceUrl, booklistId)
    {
      id := db.nextId;
      db := InsertRawBooklist(db, name, sourceUrl, booklistId).0;
    }

    /** Adds and commits a Book; a new Book gets an id, a stored one keeps its id. */
    method AddBook(b: Book) returns (id: nat)
      modifies this
      ensures (db, id) == SaveBook(old(db), b)
    {
      var saved := SaveBook(db, b);
      db, id := saved.0, saved.1;
    }

    /** Adds a raw-list item. */
    method AddItem(rawBooklistId: nat, bookId: nat, rank: Option<int>)
      modifies this
      ensures db == InsertItem(old(db), rawBooklistId, bookId, rank)
    {
      db := InsertItem(db, rawBooklistId, bookId, rank);
    }
  }

  /**
   * The record loop of `scrape_and_save_top250`: for each record in order,
   * count it, resolve its Book, save the Book and add an item pointing at
   * it with the record's rank.
   */
  method SaveRecords(session: Session, rawId: nat, records: seq<BookData>) returns (stats: Stats)
    modifies session
    ensures Progress(session.db, stats) == Ingest(old(session.db), rawId, records)
  {
    ghost var db0 := session.db;
    stats := Stats(0, 0, 0);
    for k := 0 to |records|
      invariant Progress(session.db, stats) == Ingest(db0, rawId, records[..k])
    {
      var data := records[k];
      ghost var before := session.db;
      ghost var counted := Count(stats, FindOrCreateBook(session.db, data).id.None?);
      IngestSnoc(db0, rawId, records, k);
      stats := stats.(total := stats.total + 1);
      var book := FindOrCreateBook(session.db, data);
      if book.id.None? {
        stats := stats.(newBooks := stats.newBooks + 1);
      } else {
        stats := stats.(existingBooks := stats.existingBooks + 1);
      }
      assert stats == counted;
      var bookId := session.AddBook(book);
      session.AddItem(rawId, bookId, data.rank);
      assert session.db == IngestStep(Progress(before, stats), rawId, data).db;
    }
    assert records[..|records|] == records;
  }

  /**
   * `scrape_and_save_top250`: find or create the Booklist by name, crawl
   * the Top 250 pages, create the raw list under the Booklist, then for
   * each record resolve its Book, count it, save it and add an item. The
   * Booklist name defaults to "豆瓣", as in the source.
   */
  method ScrapeAndSaveTop250(session: Session, fetch: nat -> seq<Row>, booklistName: string := DefaultBooklistName)
    returns (report: Report)
    modifies session
    ensures (session.db, report) == SaveScrape(old(session.db), booklistName, Top250Result(fetch))
    ensures Valid(old(session.db)) ==> Valid(session.db)
    ensures report.stats.total == |Top250Result(fetch).books| ==
            report.stats.newBooks + report.stats.existingBooks
  {
    ghost var db0 := session.db;
    var found := First(session.db.booklists, (l: Booklist) => l.name == booklistName);
    var booklistId: nat;
    if found.None? {
      booklistId := session.AddBooklist(booklistName, Some(BooklistDescription));
    } else {
      booklistId := found.value.id;
    }
    var result := ScrapeTop250(fetch);
    var rawId := session.AddRawBooklist(result.name, Some(result.sourceUrl), Some(booklistId));
    ghost var db2 := session.db;
    var stats := SaveRecords(session, rawId, result.books);
    report := Report(rawId, result.name, booklistId, booklistName, stats);
    if Valid(db0) {
      SaveScrapeFacts(db0, booklistName, result);
    }
    IngestCounts(db2, rawId, result.books);
  }

  // ---------------------------------------------------------------------------
  // Empty identifiers as the source stores them

  /** The Book the source builds: Douban id and ISBN copied as they are, "" included. */
  function NewBookAsWritten(data: BookData): (b: Book)
    ensures b.id.None? && b.doubanId == Some(data.doubanId) && b.isbn == data.isbn
  {
    Book(None, data.isbn, data.title, Some(data.author), Some(data.coverUrl),
         Some(data.doubanId), Some(data.quote.GetOr("")))
  }

  function FindOrCreateBookAsWritten(db: Database, data: BookData): Book
  {
    Lookup(db, data).GetOr(NewBookAsWritten(data))
  }

  /**
   * As written, two records without a Douban id (an href with no
   * `/subject/<digits>`) become two Books whose douban_id is "", which the
   * unique constraint on `books.douban_id` rejects.
   */
  lemma AsWrittenIdlessBooksClash(first: BookData, second: BookData)
    requires first.doubanId == "" && second.doubanId == ""
    requires first.isbn.None? && second.isbn.None?
    ensures var db1 := SaveBook(Empty, FindOrCreateBookAsWritten(Empty, first)).0;
            var db2 := SaveBook(db1, FindOrCreateBookAsWritten(db1, second)).0;
            !UniqueDoubanIds(db2.books)
  {
    var db1 := SaveBook(Empty, FindOrCreateBookAsWritten(Empty, first)).0;
    var db2 := SaveBook(db1, FindOrCreateBookAsWritten(db1, second)).0;
    assert |db2.books| == 2 && db2.books[0].doubanId == Some("") == db2.books[1].doubanId;
  }

  /**
   * With empty ids stored as null, the same two records become two
   * distinct Books and the store stays valid.
   */
  lemma IdlessBooksStayDistinct(first: BookData, second: BookData)
    requires first.doubanId == "" && second.doubanId == ""
    requires first.isbn.None? && second.isbn.None?
    ensures var db1 := SaveBook(Empty, FindOrCreateBook(Empty, first)).0;
            var db2 := SaveBook(db1, FindOrCreateBook(db1, second)).0;
            |db2.books| == 2 && db2.books[0].id != db2.books[1].id && UniqueDoubanIds(db2.books)
  {
    var db1 := SaveBook(Empty, FindOrCreateBook(Empty, first)).0;
    assert |db1.books| == 1 && db1.books[0].doubanId.None?;
  }
}

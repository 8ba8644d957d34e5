/**
 * The store: the five entity tables and the MetaBooklist–Booklist
 * membership table, their constraints as invariants, and the two derived
 * views the docstrings of `app/models.py` describe (a Booklist's books, a
 * book's frequency across a MetaBooklist's Booklists).
 *
 * Each table is a sequence of rows in insertion order, which is also the
 * order in which a query's `.first()` finds them. Ids come from one
 * counter that only grows, so every inserted row gets a fresh id.
 */
module Models {
  import opened Wrappers

  /** A canonical book; `id` is None until the book is persisted. */
  datatype Book = Book(
    id: Option<nat>, isbn: Option<string>, title: string, author: Option<string>,
    coverUrl: Option<string>, doubanId: Option<string>, description: Option<string>)

  /** One fetch of one source list, optionally filed under a Booklist. */
  datatype RawBooklist = RawBooklist(id: nat, name: string, sourceUrl: Option<string>, booklistId: Option<nat>)

  /** One book of a raw list, with its rank in the source (may be null). */
  datatype RawBooklistItem = RawBooklistItem(id: nat, rawBooklistId: nat, bookId: nat, rank: Option<int>)

  /** The raw lists of one source or person, taken together. */
  datatype Booklist = Booklist(id: nat, name: string, description: Option<string>)

  /** A user-defined combination of Booklists. */
  datatype MetaBooklist = MetaBooklist(id: nat, name: string, description: Option<string>)

  /** A row of the membership table; the pair is its primary key. */
  datatype Membership = Membership(metaBooklistId: nat, booklistId: nat)

  /** One row of a MetaBooklist's computed ranking. */
  datatype MetaBooklistResult = MetaBooklistResult(
    id: nat, metaBooklistId: nat, bookId: nat, frequency: int, rank: int)

  datatype Database = Database(
    books: seq<Book>,
    rawBooklists: seq<RawBooklist>,
    items: seq<RawBooklistItem>,
    booklists: seq<Booklist>,
    metaBooklists: seq<MetaBooklist>,
    memberships: seq<Membership>,
    results: seq<MetaBooklistResult>,
    nextId: nat)

  /** The empty store. */
  const Empty: Database := Database([], [], [], [], [], [], [], 1)

  // ---------------------------------------------------------------------------
  // Generic table helpers

  /** No two rows of `rows` share a key. */
  predicate UniqueKeys<T>(rows: seq<T>, key: T -> int) {
    forall i, j :: 0 <= i < |rows| && 0 <= j < |rows| && i != j ==> key(rows[i]) != key(rows[j])
  }

  /** The rows that satisfy `keep`, in order (a DELETE keeps the others). */
  function Filter<T(!new)>(rows: seq<T>, keep: T -> bool): (r: seq<T>)
    ensures |r| <= |rows|
    ensures forall x :: x in r <==> x in rows && keep(x)
  {
    if rows == [] then []
    else Filter(rows[..|rows| - 1], keep) + (if keep(rows[|rows| - 1]) then [rows[|rows| - 1]] else [])
  }

  /** Removing rows keeps keys unique. */
  lemma {:induction false} FilterUniqueKeys<T(!new)>(rows: seq<T>, keep: T -> bool, key: T -> int)
    requires UniqueKeys(rows, key)
    ensures UniqueKeys(Filter(rows, keep), key)
  {
    if rows != [] {
      var front := rows[..|rows| - 1];
      var last := rows[|rows| - 1];
      assert UniqueKeys(front, key);
      FilterUniqueKeys(front, keep, key);
      var f := Filter(front, keep);
      if keep(last) {
        forall x | x in f ensures key(x) != key(last) {
          var i :| 0 <= i < |front| && front[i] == x;
          assert rows[i] == x && rows[|rows| - 1] == last;
        }
        var r := f + [last];
        forall i, j | 0 <= i < |r| && 0 <= j < |r| && i != j ensures key(r[i]) != key(r[j]) {
          if i < |f| && j == |f| { assert r[i] in f; }
          else if j < |f| && i == |f| { assert r[j] in f; }
        }
      }
    }
  }

  /** Appending a row whose key no row has keeps keys unique. */
  lemma UniqueKeysSnoc<T>(rows: seq<T>, x: T, key: T -> int)
    requires UniqueKeys(rows, key)
    requires forall i :: 0 <= i < |rows| ==> key(rows[i]) != key(x)
    ensures UniqueKeys(rows + [x], key)
  {
  }

  /** `.filter(p).first()`: the first row satisfying `p`, if any. */
  function First<T(!new)>(rows: seq<T>, p: T -> bool): (r: Option<T>)
    ensures r.Some? ==> p(r.value) && exists i :: 0 <= i < |rows| && rows[i] == r.value &&
                                                 forall k :: 0 <= k < i ==> !p(rows[k])
    ensures r.None? ==> forall x :: x in rows ==> !p(x)
  {
    if rows == [] then None
    else if p(rows[0]) then Some(rows[0])
    else
      var r := First(rows[1..], p);
      assert r.Some? ==> exists i :: 0 <= i < |rows| && rows[i] == r.value &&
                                     forall k :: 0 <= k < i ==> !p(rows[k]) by {
        if r.Some? {
          var i :| 0 <= i < |rows[1..]| && rows[1..][i] == r.value &&
                   forall k :: 0 <= k < i ==> !p(rows[1..][k]);
          assert rows[i + 1] == r.value;
          assert forall k :: 0 <= k < i + 1 ==> !p(rows[k]) by {
            forall k | 0 <= k < i + 1 ensures !p(rows[k]) {
              if k > 0 { assert rows[k] == rows[1..][k - 1]; }
            }
          }
        }
      }
      r
  }

  // ---------------------------------------------------------------------------
  // Constraints

  function BookKey(b: Book): int { if b.id.Some? then b.id.value else -1 }

  predicate HasBook(db: Database, id: nat) {
    exists b :: b in db.books && b.id == Some(id)
  }

  predicate HasRawBooklist(db: Database, id: nat) {
    exists r :: r in db.rawBooklists && r.id == id
  }

  predicate HasBooklist(db: Database, id: nat) {
    exists l :: l in db.booklists && l.id == id
  }

  predicate HasMetaBooklist(db: Database, id: nat) {
    exists m :: m in db.metaBooklists && m.id == id
  }

  /** `books.isbn` is unique: no two Books share a non-null isbn. */
  predicate UniqueIsbns(books: seq<Book>) {
    forall i, j :: 0 <= i < |books| && 0 <= j < |books| && i != j && books[i].isbn.Some? ==>
      books[i].isbn != books[j].isbn
  }

  /** `books.douban_id` is unique: no two Books share a non-null douban_id. */
  predicate UniqueDoubanIds(books: seq<Book>) {
    forall i, j :: 0 <= i < |books| && 0 <= j < |books| && i != j && books[i].doubanId.Some? ==>
      books[i].doubanId != books[j].doubanId
  }

  /** Every stored Book has been given an id below the counter, and ids are unique. */
  predicate BooksValid(db: Database) {
    && (forall b :: b in db.books ==> b.id.Some? && b.id.value < db.nextId)
    && UniqueKeys(db.books, BookKey)
    && UniqueIsbns(db.books)
    && UniqueDoubanIds(db.books)
  }

  /** A raw list's `booklist_id`, when set, names an existing Booklist. */
  predicate RawBooklistsValid(db: Database) {
    && (forall r :: r in db.rawBooklists ==> r.id < db.nextId)
    && UniqueKeys(db.rawBooklists, (r: RawBooklist) => r.id)
    && (forall r :: r in db.rawBooklists && r.booklistId.Some? ==> HasBooklist(db, r.booklistId.value))
  }

  /** Every item references an existing raw list and an existing Book. */
  predicate ItemsValid(db: Database) {
    && (forall it :: it in db.items ==> it.id < db.nextId)
    && UniqueKeys(db.items, (it: RawBooklistItem) => it.id)
    && (forall it :: it in db.items ==> HasRawBooklist(db, it.rawBooklistId) && HasBook(db, it.bookId))
  }

  predicate BooklistsValid(db: Database) {
    && (forall l :: l in db.booklists ==> l.id < db.nextId)
    && UniqueKeys(db.booklists, (l: Booklist) => l.id)
  }

  /**
   * MetaBooklists have fresh unique ids; a membership pair appears at most
   * once (composite primary key) and names existing rows on both sides;
   * result rows name an existing MetaBooklist and an existing Book.
   */
  predicate MetaValid(db: Database) {
    && (forall m :: m in db.metaBooklists ==> m.id < db.nextId)
    && UniqueKeys(db.metaBooklists, (m: MetaBooklist) => m.id)
    && (forall i, j :: 0 <= i < j < |db.memberships| ==> db.memberships[i] != db.memberships[j])
    && (forall p :: p in db.memberships ==>
          HasMetaBooklist(db, p.metaBooklistId) && HasBooklist(db, p.booklistId))
    && (forall r :: r in db.results ==> r.id < db.nextId)
    && UniqueKeys(db.results, (r: MetaBooklistResult) => r.id)
    && (forall r :: r in db.results ==> HasMetaBooklist(db, r.metaBooklistId) && HasBook(db, r.bookId))
  }

  /** All the constraints the schema declares. */
  predicate Valid(db: Database) {
    BooksValid(db) && RawBooklistsValid(db) && ItemsValid(db) && BooklistsValid(db) && MetaValid(db)
  }

  lemma EmptyValid()
    ensures Valid(Empty)
  {
  }

  // ---------------------------------------------------------------------------
  // Inserts (add + commit + refresh: the row gets the next fresh id)

  function InsertBooklist(db: Database, name: string, description: Option<string>): (r: (Database, nat))
  {
    (db.(booklists := db.booklists + [Booklist(db.nextId, name, description)], nextId := db.nextId + 1),
     db.nextId)
  }

  function InsertRawBooklist(db: Database, name: string, sourceUrl: Option<string>, booklistId: Option<nat>)
    : (r: (Database, nat))
  {
    (db.(rawBooklists := db.rawBooklists + [RawBooklist(db.nextId, name, sourceUrl, booklistId)],
         nextId := db.nextId + 1),
     db.nextId)
  }

  /** Persists a new Book (id None) under the next id; a stored Book is left as it is. */
  function SaveBook(db: Database, b: Book): (r: (Database, nat))
  {
    if b.id.Some? then (db, b.id.value)
    else (db.(books := db.books + [b.(id := Some(db.nextId))], nextId := db.nextId + 1), db.nextId)
  }

  function InsertItem(db: Database, rawBooklistId: nat, bookId: nat, rank: Option<int>): (r: Database)
  {
    db.(items := db.items + [RawBooklistItem(db.nextId, rawBooklistId, bookId, rank)],
        nextId := db.nextId + 1)
  }

  lemma InsertBooklistValid(db: Database, name: string, description: Option<string>)
    requires Valid(db)
    ensures Valid(InsertBooklist(db, name, description).0)
    ensures HasBooklist(InsertBooklist(db, name, description).0, InsertBooklist(db, name, description).1)
  {
    var db' := InsertBooklist(db, name, description).0;
    assert db'.booklists[|db.booklists|].id == db.nextId;
    forall r | r in db'.rawBooklists && r.booklistId.Some? ensures HasBooklist(db', r.booklistId.value) {
      var l :| l in db.booklists && l.id == r.booklistId.value;
      assert l in db'.booklists;
    }
    forall p | p in db'.memberships ensures HasBooklist(db', p.booklistId) {
      var l :| l in db.booklists && l.id == p.booklistId;
      assert l in db'.booklists;
    }
  }

  lemma InsertRawBooklistValid(db: Database, name: string, sourceUrl: Option<string>, booklistId: Option<nat>)
    requires Valid(db)
    requires booklistId.Some? ==> HasBooklist(db, booklistId.value)
    ensures Valid(InsertRawBooklist(db, name, sourceUrl, booklistId).0)
    ensures HasRawBooklist(InsertRawBooklist(db, name, sourceUrl, booklistId).0,
                           InsertRawBooklist(db, name, sourceUrl, booklistId).1)
  {
    var db' := InsertRawBooklist(db, name, sourceUrl, booklistId).0;
    assert db'.rawBooklists[|db.rawBooklists|].id == db.nextId;
    forall it | it in db'.items ensures HasRawBooklist(db', it.rawBooklistId) {
      var r :| r in db.rawBooklists && r.id == it.rawBooklistId;
      assert r in db'.rawBooklists;
    }
  }

  /**
   * Saving keeps the store valid when the Book is either stored already or
   * new (no id) and shares no non-null isbn or douban_id with a stored
   * Book; the returned id names a stored Book.
   */
  lemma SaveBookValid(db: Database, b: Book)
    requires Valid(db)
    requires b.id.Some? ==> b in db.books
    requires b.id.None? ==> forall x :: x in db.books ==>
      (b.doubanId.Some? ==> x.doubanId != b.doubanId) && (b.isbn.Some? ==> x.isbn != b.isbn)
    ensures Valid(SaveBook(db, b).0) && HasBook(SaveBook(db, b).0, SaveBook(db, b).1)
    ensures SaveBook(db, b).0.rawBooklists == db.rawBooklists
  {
    if b.id.None? {
      SaveNewBookValid(db, b);
      OthersValidWhenBooksGrow(db, SaveBook(db, b).0);
    }
  }

  /** A new, fresh Book saved under the next id keeps the Books table valid and keeps every id stored. */
  lemma SaveNewBookValid(db: Database, b: Book)
    requires BooksValid(db) && b.id.None?
    requires forall x :: x in db.books ==>
      (b.doubanId.Some? ==> x.doubanId != b.doubanId) && (b.isbn.Some? ==> x.isbn != b.isbn)
    ensures var db1 := SaveBook(db, b).0;
            BooksValid(db1) && HasBook(db1, db.nextId) &&
            forall id: nat :: HasBook(db, id) ==> HasBook(db1, id)
  {
    var saved := b.(id := Some(db.nextId));
    var db1 := SaveBook(db, b).0;
    assert db1.books == db.books + [saved];
    assert BooksValid(db1) by {
      UniqueKeysSnoc(db.books, saved, BookKey);
      assert forall i :: 0 <= i < |db.books| ==> db.books[i] in db.books;
    }
    assert HasBook(db1, db.nextId) by { assert saved in db1.books; }
    forall id: nat | HasBook(db, id) ensures HasBook(db1, id) {
      var x :| x in db.books && x.id == Some(id);
      assert x in db1.books;
    }
  }

  /** Adding Books (and advancing the counter) leaves the other tables valid. */
  lemma OthersValidWhenBooksGrow(db: Database, db1: Database)
    requires Valid(db) && BooksValid(db1) && db1.nextId >= db.nextId
    requires db1.rawBooklists == db.rawBooklists && db1.items == db.items && db1.booklists == db.booklists
    requires db1.metaBooklists == db.metaBooklists && db1.memberships == db.memberships
    requires db1.results == db.results
    requires forall id: nat :: HasBook(db, id) ==> HasBook(db1, id)
    ensures Valid(db1)
  {
    assert forall id :: HasBooklist(db, id) ==> HasBooklist(db1, id);
    assert forall id :: HasRawBooklist(db, id) ==> HasRawBooklist(db1, id);
    assert forall id :: HasMetaBooklist(db, id) ==> HasMetaBooklist(db1, id);
  }

  lemma InsertItemValid(db: Database, rawBooklistId: nat, bookId: nat, rank: Option<int>)
    requires Valid(db) && HasRawBooklist(db, rawBooklistId) && HasBook(db, bookId)
    ensures Valid(InsertItem(db, rawBooklistId, bookId, rank))
    ensures HasRawBooklist(InsertItem(db, rawBooklistId, bookId, rank), rawBooklistId)
  {
    var item := RawBooklistItem(db.nextId, rawBooklistId, bookId, rank);
    UniqueKeysSnoc(db.items, item, (it: RawBooklistItem) => it.id);
  }

  // ---------------------------------------------------------------------------
  // Cascade delete

  /**
   * Deleting a raw list deletes its items ("all, delete-orphan") and
   * nothing else: the Books they referenced stay.
   */
  function DeleteRawBooklist(db: Database, id: nat): (db': Database)
    ensures db'.books == db.books && db'.booklists == db.booklists
    ensures forall r :: r in db'.rawBooklists <==> r in db.rawBooklists && r.id != id
    ensures forall it :: it in db'.items <==> it in db.items && it.rawBooklistId != id
    ensures !HasRawBooklist(db', id)
  {
    db.(rawBooklists := Filter(db.rawBooklists, (r: RawBooklist) => r.id != id),
        items := Filter(db.items, (it: RawBooklistItem) => it.rawBooklistId != id))
  }

  /** The cascade leaves no item pointing at the deleted raw list. */
  lemma DeleteRawBooklistValid(db: Database, id: nat)
    requires Valid(db)
    ensures Valid(DeleteRawBooklist(db, id))
  {
    var db' := DeleteRawBooklist(db, id);
    FilterUniqueKeys(db.rawBooklists, (r: RawBooklist) => r.id != id, (r: RawBooklist) => r.id);
    FilterUniqueKeys(db.items, (it: RawBooklistItem) => it.rawBooklistId != id, (it: RawBooklistItem) => it.id);
    forall it | it in db'.items ensures HasRawBooklist(db', it.rawBooklistId) {
      var r :| r in db.rawBooklists && r.id == it.rawBooklistId;
      assert r in db'.rawBooklists;
    }
  }

  // ---------------------------------------------------------------------------
  // Derived views

  /** The raw list `rawId` is filed under Booklist `booklistId`. */
  predicate Files(db: Database, rawId: nat, booklistId: nat) {
    exists r :: r in db.rawBooklists && r.id == rawId && r.booklistId == Some(booklistId)
  }

  /** The items of all raw lists filed under a Booklist, in table order. */
  function BooklistItems(db: Database, booklistId: nat): (r: seq<RawBooklistItem>)
    ensures forall it :: it in r <==> it in db.items && Files(db, it.rawBooklistId, booklistId)
  {
    Filter(db.items, (it: RawBooklistItem) => Files(db, it.rawBooklistId, booklistId))
  }

  /** No Book is referenced twice in `items`. */
  predicate DistinctBooks(items: seq<RawBooklistItem>) {
    forall i, j :: 0 <= i < j < |items| ==> items[i].bookId != items[j].bookId
  }

  /** The distinct Books the items reference: never more than there are items. */
  function BookIdsOf(items: seq<RawBooklistItem>): (ids: set<nat>)
    ensures forall id :: id in ids <==> exists it :: it in items && it.bookId == id
    ensures |ids| <= |items|
  {
    if items == [] then {}
    else
      var front := items[..|items| - 1];
      var last := items[|items| - 1];
      assert forall it :: it in items <==> it in front || it == last;
      BookIdsOf(front) + {last.bookId}
  }

  /** Appending an item keeps the Books distinct exactly when its Book is new. */
  lemma DistinctBooksSnoc(items: seq<RawBooklistItem>)
    requires items != []
    ensures DistinctBooks(items) <==>
      DistinctBooks(items[..|items| - 1]) && items[|items| - 1].bookId !in BookIdsOf(items[..|items| - 1])
  {
    if DistinctBooks(items) {
      DistinctBooksShrink(items);
    }
    if DistinctBooks(items[..|items| - 1]) && items[|items| - 1].bookId !in BookIdsOf(items[..|items| - 1]) {
      var front := items[..|items| - 1];
      NotInBookIds(front, items[|items| - 1].bookId);
      assert forall i :: 0 <= i < |front| ==> items[i] == front[i];
      DistinctBooksGrow(items);
    }
  }

  lemma DistinctBooksShrink(items: seq<RawBooklistItem>)
    requires items != [] && DistinctBooks(items)
    ensures DistinctBooks(items[..|items| - 1]) && items[|items| - 1].bookId !in BookIdsOf(items[..|items| - 1])
  {
    var front := items[..|items| - 1];
    forall i, j | 0 <= i < j < |front| ensures front[i].bookId != front[j].bookId {
      assert front[i] == items[i] && front[j] == items[j];
    }
  }

  lemma DistinctBooksGrow(items: seq<RawBooklistItem>)
    requires items != [] && DistinctBooks(items[..|items| - 1])
    requires forall i :: 0 <= i < |items| - 1 ==> items[i].bookId != items[|items| - 1].bookId
    ensures DistinctBooks(items)
  {
    var front := items[..|items| - 1];
    forall i, j | 0 <= i < j < |items| ensures items[i].bookId != items[j].bookId {
      if j < |front| {
        assert items[i] == front[i] && items[j] == front[j];
      }
    }
  }

  /** An id outside `BookIdsOf(items)` is the Book of no item. */
  lemma NotInBookIds(items: seq<RawBooklistItem>, id: nat)
    requires id !in BookIdsOf(items)
    ensures forall i :: 0 <= i < |items| ==> items[i].bookId != id
  {
    forall i | 0 <= i < |items| ensures items[i].bookId != id {
      assert items[i] in items;
    }
  }

  /** There are exactly as many distinct Books as items when no Book repeats, and only then. */
  lemma {:induction false} BookIdsOfExact(items: seq<RawBooklistItem>)
    ensures |BookIdsOf(items)| == |items| <==> DistinctBooks(items)
  {
    if items != [] {
      var front := items[..|items| - 1];
      var last := items[|items| - 1];
      BookIdsOfExact(front);
      DistinctBooksSnoc(items);
      if last.bookId in BookIdsOf(front) {
        assert BookIdsOf(items) == BookIdsOf(front);
      } else {
        assert |BookIdsOf(items)| == |BookIdsOf(front)| + 1;
      }
    }
  }

  /**
   * A Booklist's books: the union of the books of its raw lists, each
   * book once however many raw lists or items mention it.
   */
  function BooklistBooks(db: Database, booklistId: nat): (ids: set<nat>)
    ensures forall id :: id in ids <==>
      exists it :: it in db.items && Files(db, it.rawBooklistId, booklistId) && it.bookId == id
    ensures |ids| <= |BooklistItems(db, booklistId)|
  {
    BookIdsOf(BooklistItems(db, booklistId))
  }

  /** In a valid store a Booklist's books are stored Books. */
  lemma BooklistBooksStored(db: Database, booklistId: nat, id: nat)
    requires Valid(db) && id in BooklistBooks(db, booklistId)
    ensures HasBook(db, id)
  {
  }

  /** The Booklists a MetaBooklist combines. */
  function MemberBooklists(db: Database, metaId: nat): (ls: set<nat>)
    ensures forall l :: l in ls <==> Membership(metaId, l) in db.memberships
  {
    set p | p in db.memberships && p.metaBooklistId == metaId :: p.booklistId
  }

  /** In how many of a MetaBooklist's Booklists a book appears. */
  function Frequency(db: Database, metaId: nat, bookId: nat): nat
  {
    |set l | l in MemberBooklists(db, metaId) && bookId in BooklistBooks(db, l)|
  }

  lemma {:induction false} SubsetCard<T>(a: set<T>, b: set<T>)
    requires a <= b
    ensures |a| <= |b|
    decreases |b|
  {
    if a != {} {
      var x :| x in a;
      SubsetCard(a - {x}, b - {x});
    }
  }

  /**
   * A book found in some member Booklist has frequency between 1 and the
   * number of member Booklists.
   */
  lemma FrequencyBounds(db: Database, metaId: nat, bookId: nat, l: nat)
    requires l in MemberBooklists(db, metaId) && bookId in BooklistBooks(db, l)
    ensures 1 <= Frequency(db, metaId, bookId) <= |MemberBooklists(db, metaId)|
  {
    var s := set l | l in MemberBooklists(db, metaId) && bookId in BooklistBooks(db, l);
    assert l in s;
    SubsetCard(s, MemberBooklists(db, metaId));
  }

  /** A book in none of the member Booklists has frequency 0. */
  lemma FrequencyZero(db: Database, metaId: nat, bookId: nat)
    requires forall l :: l in MemberBooklists(db, metaId) ==> bookId !in BooklistBooks(db, l)
    ensures Frequency(db, metaId, bookId) == 0
  {
    var s := set l | l in MemberBooklists(db, metaId) && bookId in BooklistBooks(db, l);
    assert s == {};
  }

  /**
   * What the MetaBooklistResult docstring describes: each result row of
   * `metaId` carries its book's frequency, and a lower rank never has a
   * lower frequency. No order among equal frequencies is implied.
   */
  predicate ResultsByFrequency(db: Database, metaId: nat) {
    && (forall r :: r in db.results && r.metaBooklistId == metaId ==>
          r.frequency == Frequency(db, metaId, r.bookId))
    && (forall r, s ::
          (r in db.results && s in db.results &&
           r.metaBooklistId == metaId && s.metaBooklistId == metaId && r.rank < s.rank) ==>
          r.frequency >= s.frequency)
  }
}

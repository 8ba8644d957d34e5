# Book-list ingestion, modelled in Dafny

This project models the ingestion path of the book-list service. The Douban
scraper turns the rows of a list page into book records with source ranks.
The ingestion service resolves each record to a canonical `Book` and records
the run. The resolution tries the Douban id first, then the ISBN, and
otherwise builds a new Book. The run is stored as a `RawBooklist` filed under
a `Booklist`, which is found or created by name. The store is the schema of
`app/models.py`: five entity tables and the MetaBooklist–Booklist membership
table, with their constraints as invariants.

Modules (one per source file, plus two helpers):

- `Wrappers` (`wrappers.dfy`): `Option`, Python's `None` versus a value.
- `Text` (`text.dfy`): Python's `str.strip()`, `str.split(sep)` with `sep.join`
  as its inverse, and the ASCII digit class.
- `Douban` (`douban.dfy`), for `app/scrapers/douban.py`:
  - Douban-id extraction.
  - Field extraction from one row, where a row is the elements its selectors
    pick, already reduced to strings.
  - Rank numbering over a page: one loop method, `ParseRows`, shared by both
    page parsers and proved against the function `NumberRows`.
  - The 10-page Top 250 crawl. Page fetching is a parameter
    `fetch: nat -> seq<Row>` from start offset to rows.
- `Models` (`models.dfy`), for `app/models.py`:
  - Row datatypes and the `Database` value. Each table is a sequence of rows
    in insertion order.
  - The `Valid` invariants: unique ids, unique non-null isbn and douban_id,
    required foreign keys, and the composite key of the membership table.
  - Inserts, and the cascade delete of a raw list.
  - Two derived views. A Booklist's books are the deduplicated union of its
    raw lists' items. A book's frequency is the number of a MetaBooklist's
    Booklists that contain it.
- `ScraperService` (`scraper_service.dfy`), for `app/services/scraper_service.py`:
  - `FindOrCreateBook`, the lookup cascade.
  - The pure specification of a run: `IngestStep`, `Ingest` and `SaveScrape`.
  - A `Session` class whose `db` field the run updates.
  - The imperative `SaveRecords` loop and `ScrapeAndSaveTop250`. Both are
    proved equal to the specification.

The pure specification functions carry no contract of their own. These are
`Models.InsertBooklist`, `Models.InsertRawBooklist`, `Models.SaveBook`,
`Models.InsertItem`, `ScraperService.IngestStep`, `ScraperService.Ingest`,
`ScraperService.SaveScrape`, `ScraperService.Count` and
`ScraperService.ResolvedId`. The lemmas listed below state what they do.

## Model

| member | source | states |
|---|---|---|
| `Text.Strip` | app/scrapers/douban.py:79 | the result is `s` minus an all-whitespace prefix and suffix (Python's whitespace set), and it neither starts nor ends with whitespace |
| `Text.StripIdempotent` | app/scrapers/douban.py:94 | stripping a stripped string changes nothing |
| `Text.Split` | app/scrapers/douban.py:94 | `split('/')` gives at least one piece and no piece contains the separator |
| `Text.JoinSplit` | app/scrapers/douban.py:94 | joining the pieces of a split with the separator gives back the original text |
| `Text.SplitJoin` | app/scrapers/douban.py:94 | splitting a join of separator-free pieces gives back exactly those pieces |
| `Text.SplitCons` | app/scrapers/douban.py:94 | a leading separator starts a new empty piece; any other leading character joins the first piece |
| `Douban.ExtractDoubanId` | app/scrapers/douban.py:181-184 | the id is all digits; it is "" exactly when no `/subject/` followed by a digit occurs; otherwise it is the maximal digit run after the leftmost such occurrence |
| `Douban.DigitRun` | app/scrapers/douban.py:183 | the greedy `\d+`: the longest all-digit prefix |
| `Douban.FirstMatch` | app/scrapers/douban.py:183 | `re.search` finds the leftmost match position, or reports that none exists |
| `Douban.Top250Info` | app/scrapers/douban.py:86-100 | without an info element, author, publisher and year are all "" |
| `Douban.Top250InfoOfFields` | app/scrapers/douban.py:93-100 | an info line `f0/f1/f2/…` of slash-free fields gives author `strip(f0)`, publisher `strip(f1)` or "" with fewer than 2 fields, year `strip(f2)` or "" with fewer than 3 |
| `Douban.ParseTop250Item` | app/scrapers/douban.py:72-124 | no title link gives no book and a raising row is reported as such. Otherwise the title is the stripped `title` attribute, or the link text when that is empty. The Douban id is extracted from the href and is all digits. Author, publisher and year come from the info line. Rating and cover URL are the rating text and the image `src`, or "" without them. The quote is its text, or "" without it. No rank or ISBN is set |
| `Douban.ParseBookItem` | app/scrapers/douban.py:144-179 | the title is the unstripped `title` attribute, or the link text when it is ""; the Douban id comes from the href; author is "" without an info element; rating and cover URL are the rating text and the image `src`, or "" without them; no publisher, year, quote, rank or ISBN |
| `Douban.BookItemAuthor` | app/scrapers/douban.py:155-162 | the author is the first `/`-separated field of the info line, stripped |
| `Douban.ParsedCount` | app/scrapers/douban.py:61-68 | the number of rows that produce a record is at most the number of rows |
| `Douban.NumberRows` | app/scrapers/douban.py:60-68 | the page's records number as many as the rows that parsed |
| `Douban.NumberRowsRanks` | app/scrapers/douban.py:60-68 | the ranks of a page's records are strictly increasing and lie in `offset+1 .. offset+len(rows)` |
| `Douban.NumberRowsOrigin` | app/scrapers/douban.py:60-65 | every output record is the record of row `rank - offset - 1`, that row parsed, and only the rank was added |
| `Douban.NumberRowsComplete` | app/scrapers/douban.py:60-68 | every row that parsed appears in the output with rank `offset + idx + 1`; dropped rows do not renumber the others |
| `Douban.ParseRows` | app/scrapers/douban.py:60-68 | the loop shared by both page parsers returns `NumberRows` of the rows' parses: at most one record per row, ranks strictly increasing within `offset+1 .. offset+len(rows)` |
| `Douban.ParseTop250Page` | app/scrapers/douban.py:55-70 | the loop returns `NumberRows` of the rows' parses with offset `start`: at most one record per row, ranks strictly increasing within `start+1 .. start+len(rows)` |
| `Douban.ParseBookList` | app/scrapers/douban.py:126-142 | the loop returns `NumberRows` of the rows' parses with offset 0: ranks strictly increasing within `1 .. len(rows)` |
| `Douban.ScrapeBooklist` | app/scrapers/douban.py:13-29 | the list name is the heading's text, or "未知书单" without a heading; the source URL is the given URL; the books are the numbered rows |
| `Douban.PageRanks` | app/scrapers/douban.py:38-44 | a page of at most 25 rows fetched at `start` ranks its records strictly increasing within `start+1 .. start+25` and yields at most 25 records |
| `Douban.ConcatRanks` | app/scrapers/douban.py:37-45 | the first `n` pages, each of at most 25 records and page `p` ranked within `25·p+1 .. 25·p+25`, concatenate into records with strictly increasing ranks within `1 .. 25·n` |
| `Douban.Top250PagesRanks` | app/scrapers/douban.py:36-45 | with at most 25 rows on each of the first `n` pages, the concatenated pages have strictly increasing ranks within `1 .. 25·n` and at most `25·n` records |
| `Douban.ScrapeTop250` | app/scrapers/douban.py:31-53 | visits the pages at `start = 25·p` for p = 0..9 in order and concatenates their records; with at most 25 rows on each of those pages, ranks are strictly increasing within 1..250; the name and URL are the Top 250 constants |
| `Models.Filter` | app/models.py:44 | the kept rows are exactly the rows that satisfy the condition, and no more rows than before |
| `Models.FilterUniqueKeys` | app/models.py:44 | deleting rows keeps primary keys unique |
| `Models.UniqueKeysSnoc` | app/models.py:21 | inserting a row under a key no row has keeps keys unique |
| `Models.First` | app/services/scraper_service.py:20 | `.filter(p).first()`: the first row satisfying `p`, with no earlier row satisfying it, or None exactly when no row does |
| `Models.EmptyValid` | app/models.py:13-110 | the empty store satisfies every constraint |
| `Models.InsertBooklistValid` | app/services/scraper_service.py:22-25 | adding a Booklist under the next id keeps the store valid, and the returned id names a stored Booklist |
| `Models.InsertRawBooklistValid` | app/models.py:36-39 | adding a raw list whose `booklist_id` names an existing Booklist keeps the store valid |
| `Models.SaveBookValid` | app/models.py:13-27 | saving a stored Book, or a new Book whose douban_id and isbn no stored Book has, keeps the store valid, and the saved id names a stored Book |
| `Models.InsertItemValid` | app/models.py:51-54 | adding an item that references an existing raw list and an existing Book keeps the store valid |
| `Models.DeleteRawBooklist` | app/models.py:44 | deleting a raw list removes it and exactly its items; Books and Booklists are unchanged |
| `Models.DeleteRawBooklistValid` | app/models.py:44-58 | the cascade delete keeps the store valid: no item is left pointing at the deleted raw list |
| `Models.BooklistItems` | app/models.py:62-72 | the items of a Booklist are exactly the items whose raw list is filed under it |
| `Models.BookIdsOf` | app/models.py:5 | the distinct books referenced by items, never more than the items |
| `Models.DistinctBooksSnoc` | app/models.py:5 | appending an item keeps books distinct exactly when its book is new |
| `Models.BookIdsOfExact` | app/models.py:5 | there are as many distinct books as items if and only if no book repeats |
| `Models.BooklistBooks` | app/models.py:62-72 | a book belongs to a Booklist exactly when some item of one of its raw lists references it; each book counts once |
| `Models.BooklistBooksStored` | app/models.py:53 | in a valid store every book of a Booklist is a stored Book |
| `Models.MemberBooklists` | app/models.py:77-95 | the Booklists of a MetaBooklist are exactly those paired with it in the membership table |
| `Models.FrequencyBounds` | app/models.py:98-106 | a book present in some member Booklist has frequency between 1 and the number of member Booklists |
| `Models.FrequencyZero` | app/models.py:98-106 | a book in no member Booklist has frequency 0 |
| `ScraperService.Lookup` | app/services/scraper_service.py:86-99 | a book the lookups find is a stored Book |
| `ScraperService.NewBook` | app/services/scraper_service.py:101-110 | the new Book is unsaved (no id) and copies title, author, cover URL and quote (as description, "" if absent); its douban_id and isbn are set exactly when the record's are non-empty |
| `ScraperService.FindOrCreateBook` | app/services/scraper_service.py:77-110 | the result is a stored Book or the new Book. If the non-empty Douban id is stored, the result is a stored Book with that id. Failing that, if a non-empty ISBN is stored, the result is a stored Book with that ISBN. Otherwise it is the new Book |
| `ScraperService.SameDoubanIdSameBook` | app/models.py:26 | in a valid store a non-null douban_id identifies one Book |
| `ScraperService.SameIsbnSameBook` | app/models.py:22 | in a valid store a non-null isbn identifies one Book |
| `ScraperService.ResolvesByDoubanId` | app/services/scraper_service.py:86-93 | a stored Book with the record's non-empty Douban id is the result, whatever the record's ISBN or title |
| `ScraperService.ResolvesByIsbn` | app/services/scraper_service.py:95-99 | when no stored Book has the record's Douban id, a stored Book with its non-empty ISBN is the result |
| `ScraperService.NewExactlyWhenUnsaved` | app/services/scraper_service.py:49-52 | in a valid store the result has no id exactly when it is not a stored Book, which is what the new/existing counter tests |
| `ScraperService.NewBookIsFresh` | app/services/scraper_service.py:101-110 | a new Book shares no non-null douban_id or isbn with a stored Book |
| `ScraperService.StepShape` | app/services/scraper_service.py:44-64 | one record appends one item to the raw list, with the record's rank and the resolved Book's id. Stored Books are kept, and the other tables are untouched |
| `ScraperService.IngestCounts` | app/services/scraper_service.py:42-56 | after the loop `total` equals the number of records and `new_books + existing_books`. One Book is added per new record and one item per record. Stored Books and items are kept, and the other tables are untouched |
| `ScraperService.IngestItems` | app/services/scraper_service.py:58-64 | record `k` yields item `k` of the run, in input order; the item is in the run's raw list, carries the record's rank and points at the Book the record resolved to |
| `ScraperService.SaveResolvedValid` | app/services/scraper_service.py:48-56 | saving the resolved Book keeps the store valid, including the unique isbn and douban_id, and the saved id names a stored Book |
| `ScraperService.StepValid` | app/services/scraper_service.py:44-64 | one record keeps a valid store valid |
| `ScraperService.IngestValid` | app/services/scraper_service.py:44-66 | the whole loop keeps a valid store valid |
| `ScraperService.BooksPersist` | app/services/scraper_service.py:53-56 | Books stored before a record are still stored, unchanged, before every later record |
| `ScraperService.ItemsPersist` | app/services/scraper_service.py:58-64 | items added before a record are still there, in place, before every later record |
| `ScraperService.DoubanIdKept` | app/services/scraper_service.py:53-56 | once a record with a non-empty Douban id and no ISBN is handled, a Book with that id, under the id the record resolved to, stays stored before every later record |
| `ScraperService.StoredAfterStep` | app/services/scraper_service.py:53-56 | once a record with a non-empty Douban id and no ISBN is handled, a stored Book carries that id under the id it resolved to |
| `ScraperService.RepeatedDoubanIdReused` | app/services/scraper_service.py:53-56 | a Douban id repeated later in the run resolves to the earlier record's Book and is counted as existing |
| `ScraperService.SaveScrapeFacts` | app/services/scraper_service.py:8-74 | a run keeps a valid store valid. It creates the raw list with the scrape's name and URL, filed under the reported Booklist, which has the requested name. It counts every record once, as new or existing |
| `ScraperService.SaveScrapeAddsToBooklist` | app/services/scraper_service.py:31-64 | after a run, the Book of every new item is among the reported Booklist's books |
| `ScraperService.SaveScrapeKeepsBooklistBooks` | app/services/scraper_service.py:31-64 | a run removes no book from any Booklist |
| `ScraperService.SaveScrapeGrows` | app/services/scraper_service.py:31-64 | a run only appends items and keeps every raw list |
| `ScraperService.BooklistBooksGrow` | app/models.py:62-72 | appending items and keeping every raw list removes no book from any Booklist |
| `ScraperService.EnsureBooklistNamed` | app/services/scraper_service.py:19-25 | the Booklist found or created has the requested name; when one exists the store is unchanged |
| `ScraperService.RerunReusesBooklist` | app/services/scraper_service.py:19-36 | a second run under the same name files its raw list under the same Booklist and creates no Booklist |
| `ScraperService.Session.constructor` | app/services/scraper_service.py:8 | a session over the given store |
| `ScraperService.Session.AddBooklist` | app/services/scraper_service.py:22-25 | add, commit and refresh: the Booklist is stored under the next id, which is returned |
| `ScraperService.Session.AddRawBooklist` | app/services/scraper_service.py:32-39 | the raw list is stored under the next id, which is returned |
| `ScraperService.Session.AddBook` | app/services/scraper_service.py:54-56 | a new Book is stored under the next id; a stored Book keeps its id and the store is unchanged |
| `ScraperService.Session.AddItem` | app/services/scraper_service.py:59-64 | the item is stored under the next id |
| `ScraperService.SaveRecords` | app/services/scraper_service.py:41-66 | the record loop leaves the session's store and the counters exactly as `Ingest` describes |
| `ScraperService.ScrapeAndSaveTop250` | app/services/scraper_service.py:8-74 | the Booklist name defaults to "豆瓣"; the store and report equal `SaveScrape` of the crawl's result: `total` equals the number of records and equals `new_books + existing_books`, and a valid store stays valid |
| `ScraperService.NewBookAsWritten` | app/services/scraper_service.py:101-110 | the source's new Book copies the Douban id as it is, "" included |
| `ScraperService.AsWrittenIdlessBooksClash` | app/services/scraper_service.py:102-110 | as written, two records without a Douban id make two Books with douban_id "" and break the unique constraint |
| `ScraperService.IdlessBooksStayDistinct` | app/models.py:26 | with empty ids stored as null, the same two records make two distinct Books and douban_id stays unique |

## Left out

- HTTP fetching, request headers and the randomised delay (`app/scrapers/base.py`). The crawl takes the rows of each page as the parameter `fetch`. A failed fetch, which raises, is not modelled.
- HTML selection with BeautifulSoup. Each row is given as the strings its selectors pick. `get_text(strip=True)` is taken as already applied to the texts the row carries.
- Progress output (`print`), `app/database.py`, `app/main.py` and the two scripts.
- Session mechanics: `commit`, `refresh`, rollback after a failed flush, and `created_at` timestamps. Ids come from one counter shared by all tables, so an insert gets a fresh id, not the per-table autoincrement value.
- `.first()` without `ORDER BY` (app/services/scraper_service.py:20, 91, 97) is modelled as the first matching row in insertion order (`Models.First`). SQL promises no order. For the Douban id and ISBN lookups this does not matter, because in a valid store at most one Book matches (`ScraperService.SameDoubanIdSameBook`, `ScraperService.SameIsbnSameBook`). `Booklist.name` is not unique, so with several Booklists of one name, which of them `EnsureBooklist` and `ScraperService.RerunReusesBooklist` pick rests on this assumption.
- Column length limits (`String(20)` and the like) are not modelled.
- Python's `\d` also matches non-ASCII decimal digits. The model's digit class is ASCII `0`–`9`.
- `find_or_create_book` reads `title`, `author` and `cover_url` with a default of "". Both parsers always set these keys, so the record type holds them as plain strings.
- `book_data.get("douban_id")` is always a string in the parsers' records, so it is modelled as a string. `isbn` is optional and never set by the parsers.
- Meta-list ranking: no code computes frequencies or result rows, and no tie-break is defined. The model has only the derived `Frequency` and the predicate `ResultsByFrequency`, which states what the result table's docstring describes.
- No code adds MetaBooklists, memberships or result rows, or deletes Booklists, so none of these operations is modelled.
- "Every Book has a title": the type `string` cannot be null. An empty title is allowed, as the column allows it.
- ScraperService.NewBook: stores an empty Douban id and an empty ISBN as null, where app/services/scraper_service.py:105-106 passes both on as they are. The Douban-id case is the Findings row. The ISBN case cannot arise from the scrapers, which set no ISBN. `ScraperService.NewBookAsWritten` copies both as written.
- ScraperService.RepeatedDoubanIdReused: requires the earlier record to carry no ISBN. If its ISBN matched a stored Book with another Douban id, that record would resolve by ISBN, and the repeat would not find it by Douban id. The scraper's records never carry an ISBN.
- ScraperService.SaveScrapeFacts: states the run's effects on a store that is already valid. On an invalid store only the equalities of `ScrapeAndSaveTop250` hold.

## Findings

| source | as written | input that shows it | evidently intended | confidence | as-written member | corrected member |
|---|---|---|---|---|---|---|
| app/services/scraper_service.py:106 | a new Book gets `douban_id=""` when the row's link has no `/subject/<digits>`, because `_extract_douban_id` returns "" then (app/scrapers/douban.py:184) | two Top 250 rows whose title links carry no Douban id, with no ISBN: the second becomes a second Book with `douban_id=""`, which the unique `douban_id` column (app/models.py:26) rejects | store null for a missing id, so each id-less record becomes its own Book and the unique constraint holds | medium, not executed | `ScraperService.AsWrittenIdlessBooksClash` | `ScraperService.IdlessBooksStayDistinct` |

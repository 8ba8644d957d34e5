/**
 * The Douban scraper: Douban-id extraction from a book link, field
 * extraction from one list row, and rank numbering over the rows of a page.
 *
 * HTML selection is not modelled: each row arrives as the elements its
 * selectors pick, already reduced to strings.
 */
module Douban {
  import opened Wrappers
  import opened Text

  const BaseUrl: string := "https://book.douban.com"
  const Top250Url: string := BaseUrl + "/top250"
  const Top250Name: string := "豆瓣图书 Top 250"
  const UnknownBooklistName: string := "未知书单"
  /** The Top 250 list spans 10 pages of 25 rows. */
  const PageCount: nat := 10
  const PageSize: nat := 25

  /**
   * The link element that carries a book's title: its `title` attribute,
   * its text (whitespace-stripped) and its `href`; a missing attribute is "".
   */
  datatype Anchor = Anchor(titleAttr: string, text: string, href: string)

  /**
   * One list row. Each field is the selected element (None when the
   * selector finds nothing): the title link, the info line's text, the
   * rating's text, the image's `src` ("" when the attribute is missing) and
   * the quote's text. `Unparseable` is a row on which the item parser raises.
   */
  datatype Row =
    | Row(anchor: Option<Anchor>, info: Option<string>, rating: Option<string>,
          image: Option<string>, quote: Option<string>)
    | Unparseable

  /**
   * The record a parser produces for one book. Keys that one of the two
   * parsers never sets are Options; `isbn` is never set by either parser
   * and `rank` is added by the page loop.
   */
  datatype BookData = BookData(
    title: string, author: string, publisher: Option<string>, pubYear: Option<string>,
    rating: string, coverUrl: string, doubanId: string, doubanUrl: string,
    quote: Option<string>, isbn: Option<string>, rank: Option<int>)

  /** What parsing one row gives: an exception, no book (no title link), or a record. */
  datatype ItemOutcome = Raised | NoBook | Parsed(data: BookData)

  /** A scraped list: its name, its source URL and its records in order. */
  datatype ScrapeResult = ScrapeResult(name: string, sourceUrl: string, books: seq<BookData>)

  // ---------------------------------------------------------------------------
  // Douban id extraction: re.search(r"/subject/(\d+)", url)

  const Marker: string := "/subject/"

  /** The pattern matches at position `i`: the marker followed by a digit. */
  predicate MatchAt(url: string, i: int) {
    0 <= i && i + |Marker| < |url| && url[i..i + |Marker|] == Marker &&
    IsDigit(url[i + |Marker|])
  }

  /** The greedy `\d+`: the longest all-digit prefix of `s`. */
  function DigitRun(s: string): (r: string)
    ensures |r| <= |s| && r == s[..|r|] && AllDigits(r)
    ensures |r| == |s| || !IsDigit(s[|r|])
  {
    if s != [] && IsDigit(s[0]) then
      var rest := DigitRun(s[1..]);
      assert s[1..][..|rest|] == s[1..|rest| + 1];
      [s[0]] + rest
    else ""
  }

  /** The leftmost match at or after `from`, if any. */
  function FirstMatch(url: string, from: nat): (r: Option<nat>)
    ensures r.Some? ==> from <= r.value && MatchAt(url, r.value) &&
                        forall k :: from <= k < r.value ==> !MatchAt(url, k)
    ensures r.None? ==> forall k :: from <= k ==> !MatchAt(url, k)
    decreases |url| - from
  {
    if from + |Marker| >= |url| then None
    else if MatchAt(url, from) then Some(from)
    else FirstMatch(url, from + 1)
  }

  /**
   * `_extract_douban_id`: the digits after the leftmost `/subject/` that is
   * followed by a digit, or "" when there is none.
   */
  function ExtractDoubanId(url: string): (id: string)
    ensures AllDigits(id)
    ensures id == "" <==> forall i :: !MatchAt(url, i)
    ensures id != "" ==>
      exists i :: MatchAt(url, i) && (forall k :: 0 <= k < i ==> !MatchAt(url, k)) &&
                  id == DigitRun(url[i + |Marker|..])
  {
    match FirstMatch(url, 0)
    case None => ""
    case Some(i) => DigitRun(url[i + |Marker|..])
  }

  // ---------------------------------------------------------------------------
  // Field extraction from one row

  /** Each piece of `s.split(sep)`, stripped. */
  function StrippedPieces(s: string, sep: char): seq<string>
  {
    var ps := Split(s, sep);
    seq(|ps|, k requires 0 <= k < |ps| => Strip(ps[k]))
  }

  /** Author, publisher and year as read from an info line. */
  datatype InfoFields = InfoFields(author: string, publisher: string, pubYear: string)

  /**
   * The info line "author / publisher / year / price" split on '/', each
   * piece stripped; a missing piece, or a missing line, reads as "".
   */
  function Top250Info(info: Option<string>): (r: InfoFields)
    ensures info.None? ==> r == InfoFields("", "", "")
  {
    var parts := if info.Some? then StrippedPieces(info.value, '/') else [];
    InfoFields(
      if |parts| >= 1 then parts[0] else "",
      if |parts| >= 2 then parts[1] else "",
      if |parts| >= 3 then parts[2] else "")
  }

  /**
   * `_parse_top250_item`: the title is the stripped `title` attribute, or
   * the link text when that is empty; the info line "author / publisher /
   * year / price" is split on '/' and each piece stripped; a row without a
   * title link gives no book.
   */
  function ParseTop250Item(row: Row): (out: ItemOutcome)
    ensures out == Raised <==> row.Unparseable?
    ensures out == NoBook <==> row.Row? && row.anchor.None?
    ensures out.Parsed? ==>
      var a := row.anchor.value;
      && out.data.title == (if Strip(a.titleAttr) != "" then Strip(a.titleAttr) else a.text)
      && out.data.doubanUrl == a.href
      && out.data.doubanId == ExtractDoubanId(a.href) && AllDigits(out.data.doubanId)
      && out.data.rating == row.rating.GetOr("") && out.data.coverUrl == row.image.GetOr("")
      && out.data.quote == Some(row.quote.GetOr(""))
      && out.data.isbn.None? && out.data.rank.None?
    ensures out.Parsed? ==>
      var info := Top250Info(row.info);
      out.data.author == info.author && out.data.publisher == Some(info.publisher) &&
      out.data.pubYear == Some(info.pubYear)
  {
    match row
    case Unparseable => Raised
    case Row(anchor, info, rating, image, quote) =>
      match anchor
      case None => NoBook
      case Some(a) =>
        var stripped := Strip(a.titleAttr);
        var title := if stripped != "" then stripped else a.text;
        var fields := Top250Info(info);
        Parsed(BookData(
          title := title,
          author := fields.author,
          publisher := Some(fields.publisher),
          pubYear := Some(fields.pubYear),
          rating := rating.GetOr(""),
          coverUrl := image.GetOr(""),
          doubanId := ExtractDoubanId(a.href),
          doubanUrl := a.href,
          quote := Some(quote.GetOr("")),
          isbn := None,
          rank := None))
  }

  /**
   * An info line made of slash-free fields yields its first three fields,
   * stripped, as author, publisher and year, with "" for missing ones.
   */
  lemma Top250InfoOfFields(fields: seq<string>)
    requires |fields| >= 1 && forall k :: 0 <= k < |fields| ==> '/' !in fields[k]
    ensures Top250Info(Some(Join(fields, '/'))) ==
      InfoFields(Strip(fields[0]),
                 if |fields| >= 2 then Strip(fields[1]) else "",
                 if |fields| >= 3 then Strip(fields[2]) else "")
  {
    SplitJoin(fields, '/');
  }

  /**
   * `_parse_book_item`: the title is the `title` attribute as it is, or the
   * link text when the attribute is empty; the author is the first
   * '/'-piece of the info line, stripped, or "" without an info line.
   */
  function ParseBookItem(row: Row): (out: ItemOutcome)
    ensures out == Raised <==> row.Unparseable?
    ensures out == NoBook <==> row.Row? && row.anchor.None?
    ensures out.Parsed? ==>
      var a := row.anchor.value;
      && out.data.title == (if a.titleAttr != "" then a.titleAttr else a.text)
      && out.data.doubanUrl == a.href
      && out.data.doubanId == ExtractDoubanId(a.href) && AllDigits(out.data.doubanId)
      && out.data.rating == row.rating.GetOr("") && out.data.coverUrl == row.image.GetOr("")
      && out.data.publisher.None? && out.data.pubYear.None? && out.data.quote.None?
      && out.data.isbn.None? && out.data.rank.None?
    ensures out.Parsed? && row.info.None? ==> out.data.author == ""
  {
    match row
    case Unparseable => Raised
    case Row(anchor, info, rating, image, _) =>
      match anchor
      case None => NoBook
      case Some(a) =>
        var author := if info.Some? then Strip(Split(info.value, '/')[0]) else "";
        Parsed(BookData(
          title := if a.titleAttr != "" then a.titleAttr else a.text,
          author := author,
          publisher := None,
          pubYear := None,
          rating := rating.GetOr(""),
          coverUrl := image.GetOr(""),
          doubanId := ExtractDoubanId(a.href),
          doubanUrl := a.href,
          quote := None,
          isbn := None,
          rank := None))
  }

  /** The author of a book-list row is the stripped first field of its info line. */
  lemma BookItemAuthor(row: Row, fields: seq<string>)
    requires row.Row? && row.anchor.Some?
    requires |fields| >= 1 && forall k :: 0 <= k < |fields| ==> '/' !in fields[k]
    requires row.info == Some(Join(fields, '/'))
    ensures ParseBookItem(row).Parsed? && ParseBookItem(row).data.author == Strip(fields[0])
  {
    SplitJoin(fields, '/');
  }

  // ---------------------------------------------------------------------------
  // Rank numbering over the rows of a page

  /** Ranks present and strictly increasing along the list. */
  predicate RanksIncreasing(books: seq<BookData>) {
    forall i, j :: 0 <= i < j < |books| ==>
      books[i].rank.Some? && books[j].rank.Some? && books[i].rank.value < books[j].rank.value
  }

  /** Every rank present and within `lo..hi`. */
  predicate RanksWithin(books: seq<BookData>, lo: int, hi: int) {
    forall k :: 0 <= k < |books| ==> books[k].rank.Some? && lo <= books[k].rank.value <= hi
  }

  /** How many rows parsed to a record. */
  function ParsedCount(outs: seq<ItemOutcome>): (n: nat)
    ensures n <= |outs|
  {
    if outs == [] then 0
    else ParsedCount(outs[..|outs| - 1]) + (if outs[|outs| - 1].Parsed? then 1 else 0)
  }

  /** The record a parsed row contributes, numbered `rank`, if any. */
  function Numbered(out: ItemOutcome, rank: int): seq<BookData> {
    match out
    case Parsed(d) => [d.(rank := Some(rank))]
    case _ => []
  }

  /**
   * The records of a page: the row at index `idx` that parsed gets rank
   * `offset + idx + 1`; rows that raised or gave no book are dropped and
   * the others keep their numbers.
   */
  function NumberRows(outs: seq<ItemOutcome>, offset: int): (books: seq<BookData>)
    ensures |books| == ParsedCount(outs)
    decreases |outs|
  {
    if outs == [] then []
    else
      var n := |outs| - 1;
      NumberRows(outs[..n], offset) + Numbered(outs[n], offset + n + 1)
  }

  /**
   * The ranks of a page's records are strictly increasing and lie within
   * `offset + 1 .. offset + |outs|`.
   */
  lemma {:induction false} NumberRowsRanks(outs: seq<ItemOutcome>, offset: int)
    ensures var books := NumberRows(outs, offset);
            RanksIncreasing(books) && RanksWithin(books, offset + 1, offset + |outs|)
    decreases |outs|
  {
    if outs != [] {
      var n := |outs| - 1;
      var front := NumberRows(outs[..n], offset);
      var last := Numbered(outs[n], offset + n + 1);
      assert RanksIncreasing(front) && RanksWithin(front, offset + 1, offset + n) by {
        NumberRowsRanks(outs[..n], offset);
      }
      NumberedRanks(outs[n], offset + n + 1);
      RanksConcat(front, last, offset + 1, offset + n, offset + |outs|);
      assert NumberRows(outs, offset) == front + last;
    }
  }

  /** The record of one row, if any, carries exactly the given rank. */
  lemma NumberedRanks(out: ItemOutcome, rank: int)
    ensures RanksIncreasing(Numbered(out, rank)) && RanksWithin(Numbered(out, rank), rank, rank)
  {
  }

  /** Numbering one more row appends that row's record, if any. */
  lemma NumberRowsSnoc(outs: seq<ItemOutcome>, offset: int, n: nat)
    requires n < |outs|
    ensures NumberRows(outs[..n + 1], offset) == NumberRows(outs[..n], offset) + Numbered(outs[n], offset + n + 1)
  {
    assert outs[..n + 1][..n] == outs[..n];
  }

  /** The loop step of the page parsers: a parsed row appends its record, ranked by position. */
  lemma NumberRowsStep(outs: seq<ItemOutcome>, offset: int, n: nat, books: seq<BookData>)
    requires n < |outs| && books == NumberRows(outs[..n], offset)
    ensures NumberRows(outs[..n + 1], offset) ==
      if outs[n].Parsed? then books + [outs[n].data.(rank := Some(offset + n + 1))] else books
  {
    NumberRowsSnoc(outs, offset, n);
  }

  /** Every numbered record is its row's record, with the row's rank. */
  lemma {:induction false} NumberRowsOrigin(outs: seq<ItemOutcome>, offset: int, k: nat)
    requires k < |NumberRows(outs, offset)|
    ensures var b := NumberRows(outs, offset)[k];
            b.rank.Some? &&
            var idx := b.rank.value - offset - 1;
            0 <= idx < |outs| && outs[idx].Parsed? && b == outs[idx].data.(rank := b.rank)
    decreases |outs|
  {
    var n := |outs| - 1;
    var front := NumberRows(outs[..n], offset);
    if k < |front| {
      NumberRowsOrigin(outs[..n], offset, k);
    }
  }

  /** Every row that parsed appears among the numbered records, with rank `offset + idx + 1`. */
  lemma {:induction false} NumberRowsComplete(outs: seq<ItemOutcome>, offset: int, idx: nat)
    requires idx < |outs| && outs[idx].Parsed?
    ensures exists k :: 0 <= k < |NumberRows(outs, offset)| &&
                        NumberRows(outs, offset)[k] == outs[idx].data.(rank := Some(offset + idx + 1))
    decreases |outs|
  {
    var n := |outs| - 1;
    var front := NumberRows(outs[..n], offset);
    var books := NumberRows(outs, offset);
    assert books == front + Numbered(outs[n], offset + n + 1);
    if idx < n {
      NumberRowsComplete(outs[..n], offset, idx);
      var k :| 0 <= k < |front| && front[k] == outs[..n][idx].data.(rank := Some(offset + idx + 1));
      assert books[k] == front[k];
    } else {
      assert books[|front|] == outs[idx].data.(rank := Some(offset + idx + 1));
    }
  }

  /** What each row parses to, in row order. */
  function Outcomes(rows: seq<Row>, parse: Row -> ItemOutcome): seq<ItemOutcome>
  {
    seq(|rows|, k requires 0 <= k < |rows| => parse(rows[k]))
  }

  /**
   * The loop `_parse_top250_page` and `_parse_book_list` share: each row is
   * parsed in turn; a row that raised or gave no book is dropped, and the
   * record of row `idx` gets rank `offset + idx + 1`.
   */
  method ParseRows(rows: seq<Row>, parse: Row -> ItemOutcome, offset: int) returns (books: seq<BookData>)
    ensures books == NumberRows(Outcomes(rows, parse), offset)
    ensures |books| <= |rows|
    ensures RanksIncreasing(books) && RanksWithin(books, offset + 1, offset + |rows|)
  {
    ghost var outs := Outcomes(rows, parse);
    books := [];
    for idx := 0 to |rows|
      invariant books == NumberRows(outs[..idx], offset)
    {
      var out := parse(rows[idx]);
      NumberRowsStep(outs, offset, idx, books);
      if out.Parsed? {
        books := books + [out.data.(rank := Some(offset + idx + 1))];
      }
    }
    assert outs[..|rows|] == outs;
    NumberRowsRanks(outs, offset);
  }

  /** `_parse_top250_page`: the rows of a page fetched at `start` are numbered from `start + 1`. */
  method ParseTop250Page(rows: seq<Row>, start: int) returns (books: seq<BookData>)
    ensures books == NumberRows(Outcomes(rows, ParseTop250Item), start)
    ensures |books| <= |rows|
    ensures RanksIncreasing(books) && RanksWithin(books, start + 1, start + |rows|)
  {
    books := ParseRows(rows, ParseTop250Item, start);
  }

  /** `_parse_book_list`: the rows of a list page are numbered from 1. */
  method ParseBookList(rows: seq<Row>) returns (books: seq<BookData>)
    ensures books == NumberRows(Outcomes(rows, ParseBookItem), 0)
    ensures |books| <= |rows|
    ensures RanksIncreasing(books) && RanksWithin(books, 1, |rows|)
  {
    books := ParseRows(rows, ParseBookItem, 0);
  }

  /**
   * `scrape_booklist`: the list's name is the page heading's text, or
   * "未知书单" without a heading. `rows` are the rows of the fetched page.
   */
  method ScrapeBooklist(url: string, heading: Option<string>, rows: seq<Row>)
    returns (result: ScrapeResult)
    ensures result.name == heading.GetOr(UnknownBooklistName) && result.sourceUrl == url
    ensures result.books == NumberRows(Outcomes(rows, ParseBookItem), 0)
  {
    var books := ParseBookList(rows);
    result := ScrapeResult(heading.GetOr(UnknownBooklistName), url, books);
  }

  // ---------------------------------------------------------------------------
  // The Top 250 crawl

  /** The rows of page `p` of the Top 250, fetched at `start = 25 * p`. */
  function PageRows(fetch: nat -> seq<Row>, p: nat): seq<Row>
  {
    fetch(p * PageSize)
  }

  /** Each of the first `n` pages holds at most 25 rows. */
  predicate PagesFit(fetch: nat -> seq<Row>, n: nat) {
    forall p: nat :: p < n ==> |PageRows(fetch, p)| <= PageSize
  }

  /** The records of page `p` of the Top 250. */
  function Top250Page(fetch: nat -> seq<Row>, p: nat): seq<BookData>
  {
    NumberRows(Outcomes(PageRows(fetch, p), ParseTop250Item), p * PageSize)
  }

  /** The records of the first `n` Top 250 pages, in page order. */
  function Top250Pages(fetch: nat -> seq<Row>, n: nat): seq<BookData>
  {
    Concat((p: nat) => Top250Page(fetch, p), n)
  }

  /** One more page appends that page's records. */
  lemma Top250PagesSnoc(fetch: nat -> seq<Row>, n: nat)
    ensures Top250Pages(fetch, n + 1) == Top250Pages(fetch, n) + Top250Page(fetch, n)
  {
  }

  /** The concatenation of `page(0)`, …, `page(n - 1)`. */
  function Concat(page: nat -> seq<BookData>, n: nat): seq<BookData>
  {
    if n == 0 then [] else Concat(page, n - 1) + page(n - 1)
  }

  /** Two rank-ordered lists, the second entirely above the first, concatenate in order. */
  lemma RanksConcat(a: seq<BookData>, b: seq<BookData>, lo: int, mid: int, hi: int)
    requires RanksIncreasing(a) && RanksWithin(a, lo, mid)
    requires RanksIncreasing(b) && RanksWithin(b, mid + 1, hi)
    requires lo <= mid + 1 && mid <= hi
    ensures RanksIncreasing(a + b) && RanksWithin(a + b, lo, hi)
  {
    forall i, j | 0 <= i < j < |a + b|
      ensures (a + b)[i].rank.Some? && (a + b)[j].rank.Some? &&
              (a + b)[i].rank.value < (a + b)[j].rank.value
    {
      if j < |a| {
      } else if i < |a| {
        assert (a + b)[j] == b[j - |a|];
      } else {
        assert (a + b)[i] == b[i - |a|] && (a + b)[j] == b[j - |a|];
      }
    }
  }

  /** Ranks within `lo..hi` are within `lo..hi2` for any `hi2 >= hi`. */
  lemma RanksWiden(books: seq<BookData>, lo: int, hi: int, hi2: int)
    requires RanksWithin(books, lo, hi) && hi <= hi2
    ensures RanksWithin(books, lo, hi2)
  {
  }

  /**
   * With at most 25 rows per page, the first `n` pages carry strictly
   * increasing ranks within `1 .. 25 * n`.
   */
  lemma Top250PagesRanks(fetch: nat -> seq<Row>, n: nat)
    requires PagesFit(fetch, n)
    ensures RanksIncreasing(Top250Pages(fetch, n)) && RanksWithin(Top250Pages(fetch, n), 1, n * PageSize)
    ensures |Top250Pages(fetch, n)| <= n * PageSize
  {
    var page := (p: nat) => Top250Page(fetch, p);
    forall p: nat | p < n
      ensures RanksIncreasing(page(p)) && RanksWithin(page(p), p * PageSize + 1, p * PageSize + PageSize)
      ensures |page(p)| <= PageSize
    {
      PageRanks(PageRows(fetch, p), p * PageSize, p * PageSize + PageSize);
    }
    ConcatRanks(page, n);
  }

  /** Pages of at most 25 records, page `p` ranked within `25 * p + 1 .. 25 * p + 25`, concatenate in rank order. */
  lemma {:induction false} ConcatRanks(page: nat -> seq<BookData>, n: nat)
    requires forall p: nat :: p < n ==>
      RanksIncreasing(page(p)) && RanksWithin(page(p), p * PageSize + 1, p * PageSize + PageSize)
    requires forall p: nat :: p < n ==> |page(p)| <= PageSize
    ensures RanksIncreasing(Concat(page, n)) && RanksWithin(Concat(page, n), 1, n * PageSize)
    ensures |Concat(page, n)| <= n * PageSize
  {
    if n > 0 {
      ConcatRanks(page, n - 1);
      RanksConcat(Concat(page, n - 1), page(n - 1), 1, (n - 1) * PageSize, n * PageSize);
    }
  }

  /** One Top 250 page of at most 25 rows, fetched at `start`, ranks its records within `start + 1 .. hi`. */
  lemma PageRanks(rows: seq<Row>, start: nat, hi: int)
    requires |rows| <= PageSize && start + PageSize <= hi
    ensures var page := NumberRows(Outcomes(rows, ParseTop250Item), start);
            RanksIncreasing(page) && RanksWithin(page, start + 1, hi) && |page| <= PageSize
  {
    var outs := Outcomes(rows, ParseTop250Item);
    NumberRowsRanks(outs, start);
    RanksWiden(NumberRows(outs, start), start + 1, start + |outs|, hi);
  }

  /**
   * `scrape_top250`: visits the 10 pages at `start = 0, 25, …, 225` in
   * order and concatenates their records. `fetch(start)` stands for the
   * rows of the page fetched at that offset.
   */
  method ScrapeTop250(fetch: nat -> seq<Row>) returns (result: ScrapeResult)
    ensures result.name == Top250Name && result.sourceUrl == Top250Url
    ensures result.books == Top250Pages(fetch, PageCount)
    ensures PagesFit(fetch, PageCount) ==>
      RanksIncreasing(result.books) && RanksWithin(result.books, 1, PageCount * PageSize)
  {
    var allBooks := [];
    for page := 0 to PageCount
      invariant allBooks == Top250Pages(fetch, page)
    {
      var start := page * PageSize;
      var books := ParseTop250Page(fetch(start), start);
      Top250PagesSnoc(fetch, page);
      allBooks := allBooks + books;
    }
    if PagesFit(fetch, PageCount) {
      Top250PagesRanks(fetch, PageCount);
    }
    result := ScrapeResult(Top250Name, Top250Url, allBooks);
  }
}

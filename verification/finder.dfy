/** The news finder: resolving a company to its listing code, reading the
    rows of each listing page, the date-window policy applied to each row,
    and the validation gate in front of the crawl.

    HTML is not modelled: a page is the sequence of `tr` rows the selector
    `table.type5 tbody tr` yields, each reduced to the parts the finder reads
    from it. The clock is the parameter `today`, and fetching page `n` of a
    listing for a code is the function parameter `fetch`. */
module Finder {
  import opened Wrappers
  import opened Text
  import opened Calendar
  import opened DateFormat
  import opened Sequences

  /** The site origin every relative article link is appended to. */
  const Origin: string := "https://finance.naver.com"

  /** The `<a>` inside a row's title cell; `href` may be missing. */
  datatype Anchor = Anchor(href: Option<string>)

  /** One listing row.
      - `marked`: the row carries class `relation_lst` or `hide_news`
      - `date`: text of the `.date` cell, if the cell exists
      - `info`: text of the `.info` cell (the publisher), if it exists
      - `title`: text of the `.title` cell, if it exists
      - `anchor`: the link inside the title cell, if there is one */
  datatype Row = Row(
    marked: bool,
    date: Option<string>,
    info: Option<string>,
    title: Option<string>,
    anchor: Option<Anchor>)

  type Page = seq<Row>

  /** One crawled article, with the four keys of the source's dictionaries. */
  datatype Record = Record(date: string, source: string, title: string, link: string)

  /** The `ValueError` `strptime` raises on a non-empty bound that is not a
      `YYYY.MM.DD` date; it escapes the crawl. */
  datatype CrawlError = MalformedDateFrom | MalformedDateTo

  /** A window bound as the crawl sees it: the empty string leaves the side
      open, otherwise the text is parsed each time a row reaches the check. */
  datatype Bound = Open | On(date: Date) | Malformed

  function BoundOf(s: string): (b: Bound)
    ensures b.Open? <==> s == ""
    ensures b.On? <==> s != "" && ParseDate(s).Some?
    ensures b.On? ==> Some(b.date) == ParseDate(s)
  {
    if s == "" then Open
    else match ParseDate(s)
      case Some(d) => On(d)
      case None => Malformed
  }

  /** `clean_title`: only surrounding whitespace is removed. */
  function CleanTitle(title: string): (r: string)
    ensures IsStripOf(r, title)
  {
    Strip(title)
  }

  predicate StartsWith(s: string, prefix: string) {
    |prefix| <= |s| && s[..|prefix|] == prefix
  }

  /** A well-formed row: its parsed stamp and the record it would produce. */
  datatype Parsed = Parsed(stamp: Stamp, record: Record)

  /** The per-row extraction: `None` for the soft errors (no date cell, no
      title cell, no link in the title cell, a stamp that `%Y.%m.%d %H:%M`
      rejects), otherwise the stamp and the record the row would become. */
  function ParseRow(row: Row): Option<Parsed>
  {
    if row.date.None? || row.title.None? || row.anchor.None? then None
    else
      var date := Strip(row.date.value);
      match ParseStamp(date)
      case None => None
      case Some(st) =>
        var source := if row.info.Some? then Strip(row.info.value) else "";
        var link := Origin + row.anchor.value.href.GetOr("");
        Some(Parsed(st, Record(date, source, CleanTitle(row.title.value), link)))
  }

  /** A row is well formed exactly when its date cell, title cell and link
      are present and its stamp parses; its record then carries the
      whitespace-trimmed date that parses to the row's stamp, the trimmed
      title, and the site origin followed by the link's `href`. */
  lemma ParseRowSpec(row: Row)
    ensures ParseRow(row).Some? <==>
      row.date.Some? && row.title.Some? && row.anchor.Some? && ParseStamp(Strip(row.date.value)).Some?
    ensures ParseRow(row).Some? ==>
      var p := ParseRow(row).value;
      && ParseStamp(p.record.date) == Some(p.stamp)
      && IsStripOf(p.record.date, row.date.value)
      && p.record.link == Origin + row.anchor.value.href.GetOr("")
      && IsStripOf(p.record.title, row.title.value)
      && (row.info.None? ==> p.record.source == "")
      && (row.info.Some? ==> IsStripOf(p.record.source, row.info.value))
  {
  }

  /** What the row loop does with one row. */
  datatype Verdict = Skip | Stop | Keep(record: Record) | Raise(error: CrawlError)

  /** The date-window policy, independent of the order the code checks it in:
      not after today, not before `lo`, not after `hi`, both bounds readable. */
  predicate InWindow(d: Date, today: Date, lo: Bound, hi: Bound) {
    && !Before(today, d)
    && !lo.Malformed? && !hi.Malformed?
    && (lo.On? ==> !Before(d, lo.date))
    && (hi.On? ==> !Before(hi.date, d))
  }

  /** One iteration of the row loop. Future rows are skipped before either
      bound is looked at; a row older than `lo` ends the page (`break`);
      a row newer than `hi` is skipped (`continue`). */
  function Classify(row: Row, today: Date, lo: Bound, hi: Bound): Verdict
  {
    match ParseRow(row)
    case None => Skip
    case Some(p) =>
      var d := p.stamp.date;
      if Before(today, d) then Skip
      else if lo.Malformed? then Raise(MalformedDateFrom)
      else if lo.On? && Before(d, lo.date) then Stop
      else if hi.Malformed? then Raise(MalformedDateTo)
      else if hi.On? && Before(hi.date, d) then Skip
      else Keep(p.record)
  }

  /** The verdicts in terms of the window: a malformed row is skipped; a
      well-formed row is kept exactly when its date is in the window, with
      the row's own record; it stops the page exactly when it is not in the
      future and older than `lo`; it raises exactly when it is not in the
      future and reaches a malformed bound, `lo` being checked first. */
  lemma ClassifySpec(row: Row, today: Date, lo: Bound, hi: Bound)
    ensures var v := Classify(row, today, lo, hi);
      && (ParseRow(row).None? ==> v == Skip)
      && (v.Keep? <==> ParseRow(row).Some? && InWindow(ParseRow(row).value.stamp.date, today, lo, hi))
      && (v.Keep? ==> v.record == ParseRow(row).value.record)
      && (v.Stop? <==>
            && ParseRow(row).Some?
            && !Before(today, ParseRow(row).value.stamp.date)
            && lo.On? && Before(ParseRow(row).value.stamp.date, lo.date))
      && (v.Raise? <==>
            && ParseRow(row).Some?
            && !Before(today, ParseRow(row).value.stamp.date)
            && (|| lo.Malformed?
                || (hi.Malformed? && !(lo.On? && Before(ParseRow(row).value.stamp.date, lo.date)))))
      && (v.Raise? ==> v.error == if lo.Malformed? then MalformedDateFrom else MalformedDateTo)
  {
    match ParseRow(row)
    case None =>
    case Some(p) =>
      var d := p.stamp.date;
      if Before(today, d) {
      } else if lo.Malformed? {
      } else if lo.On? && Before(d, lo.date) {
      } else if hi.Malformed? {
      } else if hi.On? && Before(hi.date, d) {
      } else {
        assert Classify(row, today, lo, hi) == Keep(p.record);
      }
  }

  /** How many rows are `relation_lst` or `hide_news` rows. */
  function MarkedCount(rows: seq<Row>): (n: nat)
    ensures n <= |rows|
    decreases |rows|
  {
    if rows == [] then 0 else (if rows[0].marked then 1 else 0) + MarkedCount(rows[1..])
  }

  /** The rows left after the `relation_lst` rows are removed and the
      `hide_news` rows are excluded by the selector. Every unmarked row
      survives: the result is an order-preserving selection with exactly
      `|rows| - MarkedCount(rows)` rows, none of them marked. */
  function Visible(rows: seq<Row>): (r: seq<Row>)
    ensures |r| == |rows| - MarkedCount(rows)
    ensures forall k :: 0 <= k < |r| ==> !r[k].marked
    ensures IsSubseq(r, rows)
    decreases |rows|
  {
    if rows == [] then []
    else if rows[0].marked then
      SubseqCons(Visible(rows[1..]), rows[0], rows[1..]);
      assert [rows[0]] + rows[1..] == rows;
      Visible(rows[1..])
    else
      assert ([rows[0]] + Visible(rows[1..]))[1..] == Visible(rows[1..]);
      [rows[0]] + Visible(rows[1..])
  }

  /** The record of every well-formed row, in order, ignoring the window:
      the most a crawl of these rows could return. */
  function Candidates(rows: seq<Row>): seq<Record>
    decreases |rows|
  {
    if rows == [] then []
    else match ParseRow(rows[0])
      case None => Candidates(rows[1..])
      case Some(p) => [p.record] + Candidates(rows[1..])
  }

  /** A returned record: its stamp parses, lies in the window, and its link
      is on the site. */
  predicate Admitted(rec: Record, today: Date, lo: Bound, hi: Bound) {
    && StartsWith(rec.link, Origin)
    && match ParseStamp(rec.date)
       case None => false
       case Some(st) => InWindow(st.date, today, lo, hi)
  }

  /** The control flow of the row loop (`for item in news_items`), given
      the verdict on each row: `continue` past `Skip`, `break` at `Stop`,
      append at `Keep`; a `Raise` discards everything. */
  function RunLoop(vs: seq<Verdict>): Result<seq<Record>, CrawlError>
    decreases |vs|
  {
    if vs == [] then Ok([])
    else
      match vs[0]
      case Skip => RunLoop(vs[1..])
      case Stop => Ok([])
      case Raise(e) => Err(e)
      case Keep(rec) =>
        match RunLoop(vs[1..])
        case Err(e) => Err(e)
        case Ok(tail) => Ok([rec] + tail)
  }

  /** The verdict on each row, under a fixed window. */
  function Classifier(today: Date, lo: Bound, hi: Bound): Row -> Verdict {
    row => Classify(row, today, lo, hi)
  }

  function Verdicts(rows: seq<Row>, today: Date, lo: Bound, hi: Bound): seq<Verdict> {
    Map(Classifier(today, lo, hi), rows)
  }

  lemma VerdictsCons(rows: seq<Row>, today: Date, lo: Bound, hi: Bound)
    requires rows != []
    ensures Verdicts(rows, today, lo, hi)[0] == Classify(rows[0], today, lo, hi)
    ensures Verdicts(rows, today, lo, hi)[1..] == Verdicts(rows[1..], today, lo, hi)
  {
    MapCons(Classifier(today, lo, hi), rows);
  }

  /** One page: every visible row is classified and the loop run over the
      verdicts. */
  function ScanRows(rows: seq<Row>, today: Date, lo: Bound, hi: Bound): (r: Result<seq<Record>, CrawlError>)
    ensures r.Ok? ==> |r.value| <= |rows|
    ensures r.Ok? ==> forall k :: 0 <= k < |r.value| ==> Admitted(r.value[k], today, lo, hi)
    ensures r.Ok? ==> IsSubseq(r.value, Candidates(rows))
  {
    ScanRowsSound(rows, today, lo, hi);
    RunLoop(Verdicts(rows, today, lo, hi))
  }

  lemma ScanRowsSound(rows: seq<Row>, today: Date, lo: Bound, hi: Bound)
    ensures var r := RunLoop(Verdicts(rows, today, lo, hi));
      && (r.Ok? ==> |r.value| <= |rows|)
      && (r.Ok? ==> forall k :: 0 <= k < |r.value| ==> Admitted(r.value[k], today, lo, hi))
      && (r.Ok? ==> IsSubseq(r.value, Candidates(rows)))
  {
    var vs := Verdicts(rows, today, lo, hi);
    var r := RunLoop(vs);
    ScanRowsSubseq(rows, today, lo, hi);
    RunLoopKeeps(vs);
    if r.Ok? {
      forall k | 0 <= k < |r.value|
        ensures Admitted(r.value[k], today, lo, hi)
      {
        var j :| 0 <= j < |vs| && vs[j] == Keep(r.value[k]);
        assert vs[j] == Classify(rows[j], today, lo, hi);
        AdmittedKeep(rows[j], today, lo, hi);
      }
    }
  }

  /** Every record the loop returns comes from a `Keep` verdict. */
  lemma {:induction false} RunLoopKeeps(vs: seq<Verdict>)
    ensures RunLoop(vs).Ok? ==>
      forall k :: 0 <= k < |RunLoop(vs).value| ==> exists j :: 0 <= j < |vs| && vs[j] == Keep(RunLoop(vs).value[k])
    decreases |vs|
  {
    if vs != [] {
      RunLoopKeeps(vs[1..]);
      var r := RunLoop(vs);
      if r.Ok? && vs[0].Keep? {
        var tail := RunLoop(vs[1..]).value;
        assert r.value == [vs[0].record] + tail;
        forall k | 0 <= k < |r.value|
          ensures exists j :: 0 <= j < |vs| && vs[j] == Keep(r.value[k])
        {
          if k == 0 {
            assert vs[0] == Keep(r.value[0]);
          } else {
            assert r.value[k] == tail[k - 1];
            var j :| 0 <= j < |vs[1..]| && vs[1..][j] == Keep(tail[k - 1]);
            assert vs[j + 1] == Keep(r.value[k]);
          }
        }
      } else if r.Ok? && vs[0].Skip? {
        forall k | 0 <= k < |r.value|
          ensures exists j :: 0 <= j < |vs| && vs[j] == Keep(r.value[k])
        {
          var j :| 0 <= j < |vs[1..]| && vs[1..][j] == Keep(r.value[k]);
          assert vs[j + 1] == Keep(r.value[k]);
        }
      }
    }
  }

  lemma {:induction false} ScanRowsSubseq(rows: seq<Row>, today: Date, lo: Bound, hi: Bound)
    ensures var r := RunLoop(Verdicts(rows, today, lo, hi));
      && (r.Ok? ==> |r.value| <= |rows|)
      && (r.Ok? ==> IsSubseq(r.value, Candidates(rows)))
    decreases |rows|
  {
    if rows != [] {
      VerdictsCons(rows, today, lo, hi);
      ScanRowsSubseq(rows[1..], today, lo, hi);
      var rest := RunLoop(Verdicts(rows[1..], today, lo, hi));
      match Classify(rows[0], today, lo, hi)
      case Skip =>
        SkipKeepsSubseq(rows, rest);
      case Stop =>
      case Raise(e) =>
      case Keep(rec) =>
        if rest.Ok? {
          ClassifySpec(rows[0], today, lo, hi);
          CandidatesCons(rows);
          SubseqKeepHead(rest.value, rec, Candidates(rows[1..]));
        }
    }
  }

  lemma CandidatesCons(rows: seq<Row>)
    requires rows != [] && ParseRow(rows[0]).Some?
    ensures Candidates(rows) == [ParseRow(rows[0]).value.record] + Candidates(rows[1..])
  {
  }

  lemma SkipKeepsSubseq(rows: seq<Row>, rest: Result<seq<Record>, CrawlError>)
    requires rows != []
    requires rest.Ok? ==> IsSubseq(rest.value, Candidates(rows[1..]))
    ensures rest.Ok? ==> IsSubseq(rest.value, Candidates(rows))
  {
    if rest.Ok? && ParseRow(rows[0]).Some? {
      SubseqCons(rest.value, ParseRow(rows[0]).value.record, Candidates(rows[1..]));
    }
  }

  lemma JoinKeepsSubseq(a: Result<seq<Record>, CrawlError>, ca: seq<Record>, b: Result<seq<Record>, CrawlError>, cb: seq<Record>)
    requires a.Ok? ==> IsSubseq(a.value, ca)
    requires b.Ok? ==> IsSubseq(b.value, cb)
    ensures Join(a, b).Ok? ==> IsSubseq(Join(a, b).value, ca + cb)
  {
    if a.Ok? && b.Ok? {
      SubseqConcat(a.value, ca, b.value, cb);
    }
  }

  lemma AdmittedKeep(row: Row, today: Date, lo: Bound, hi: Bound)
    requires Classify(row, today, lo, hi).Keep?
    ensures Admitted(Classify(row, today, lo, hi).record, today, lo, hi)
  {
    ClassifySpec(row, today, lo, hi);
    ParseRowSpec(row);
    var rec := Classify(row, today, lo, hi).record;
    assert rec.link[..|Origin|] == Origin;
  }

  /** Page results are concatenated in page order; the first error wins. */
  function Join(a: Result<seq<Record>, CrawlError>, b: Result<seq<Record>, CrawlError>): Result<seq<Record>, CrawlError> {
    match a
    case Err(e) => Err(e)
    case Ok(x) =>
      match b
      case Err(e) => Err(e)
      case Ok(y) => Ok(x + y)
  }

  /** All rows the crawl examines, page after page. */
  function AllRows(pages: seq<Page>): seq<Row>
    decreases |pages|
  {
    if pages == [] then [] else Visible(pages[0]) + AllRows(pages[1..])
  }

  function TotalRows(pages: seq<Page>): nat
    decreases |pages|
  {
    if pages == [] then 0 else |pages[0]| + TotalRows(pages[1..])
  }

  /** The result of scanning one page. */
  function PageScanner(today: Date, lo: Bound, hi: Bound): Page -> Result<seq<Record>, CrawlError> {
    page => ScanRows(Visible(page), today, lo, hi)
  }

  /** Page results joined in order. */
  function JoinAll(rs: seq<Result<seq<Record>, CrawlError>>): Result<seq<Record>, CrawlError>
    decreases |rs|
  {
    if rs == [] then Ok([]) else Join(rs[0], JoinAll(rs[1..]))
  }

  /** The page loop (`for page in range(1, max_pages + 1)`) over pages
      already fetched. A `Stop` verdict ends only the page it occurs on. */
  function CrawlPages(pages: seq<Page>, today: Date, lo: Bound, hi: Bound): (r: Result<seq<Record>, CrawlError>)
    ensures r.Ok? ==> |r.value| <= TotalRows(pages)
    ensures r.Ok? ==> forall k :: 0 <= k < |r.value| ==> Admitted(r.value[k], today, lo, hi)
    ensures r.Ok? ==> IsSubseq(r.value, Candidates(AllRows(pages)))
  {
    CrawlPagesSound(pages, today, lo, hi);
    JoinAll(Map(PageScanner(today, lo, hi), pages))
  }

  lemma {:induction false} CrawlPagesSound(pages: seq<Page>, today: Date, lo: Bound, hi: Bound)
    ensures var r := JoinAll(Map(PageScanner(today, lo, hi), pages));
      && (r.Ok? ==> |r.value| <= TotalRows(pages))
      && (r.Ok? ==> forall k :: 0 <= k < |r.value| ==> Admitted(r.value[k], today, lo, hi))
      && (r.Ok? ==> IsSubseq(r.value, Candidates(AllRows(pages))))
    decreases |pages|
  {
    if pages != [] {
      var f := PageScanner(today, lo, hi);
      MapCons(f, pages);
      CrawlPagesSound(pages[1..], today, lo, hi);
      var first := ScanRows(Visible(pages[0]), today, lo, hi);
      var rest := JoinAll(Map(f, pages[1..]));
      assert first == f(pages[0]);
      CandidatesAppend(Visible(pages[0]), AllRows(pages[1..]));
      JoinKeepsSubseq(first, Candidates(Visible(pages[0])), rest, Candidates(AllRows(pages[1..])));
    }
  }

  /** A crawl of a single page is exactly that page's row loop. */
  lemma CrawlOnePage(page: Page, today: Date, lo: Bound, hi: Bound)
    ensures CrawlPages([page], today, lo, hi) == ScanRows(Visible(page), today, lo, hi)
  {
    var f := PageScanner(today, lo, hi);
    assert Map(f, [page]) == [f(page)];
    JoinAllOne(f(page));
  }

  lemma JoinAllOne(x: Result<seq<Record>, CrawlError>)
    ensures JoinAll([x]) == x
  {
    assert [x][1..] == [];
    if x.Ok? { assert x.value + [] == x.value; }
  }

  lemma {:induction false} CandidatesAppend(a: seq<Row>, b: seq<Row>)
    ensures Candidates(a + b) == Candidates(a) + Candidates(b)
    decreases |a|
  {
    if a != [] {
      assert (a + b)[0] == a[0] && (a + b)[1..] == a[1..] + b;
      CandidatesAppend(a[1..], b);
    } else {
      assert a + b == b;
    }
  }

  /** Pages 1 to `max_pages` of the listing for `code`; none when
      `max_pages` is below 1, as with an empty `range`. */
  function FetchPages(fetch: (string, int) -> Page, code: string, maxPages: int): (pages: seq<Page>)
    ensures |pages| == if maxPages > 0 then maxPages else 0
    ensures forall k :: 0 <= k < |pages| ==> pages[k] == fetch(code, k + 1)
  {
    seq(if maxPages > 0 then maxPages else 0, k => fetch(code, k + 1))
  }

  /** The listing code to crawl: an explicit code wins; otherwise the
      company must be a key of the code table. `None` means the source
      returns `[]` without fetching. */
  function ResolveCode(code: Option<string>, company: Option<string>, companyCodes: map<string, string>): (r: Option<string>)
    ensures code.Some? ==> r == code
    ensures code.None? ==> (r.Some? <==> company.Some? && company.value in companyCodes)
    ensures code.None? && r.Some? ==> r.value == companyCodes[company.value]
  {
    if code.None? then
      if company.None? then None
      else if company.value !in companyCodes then None
      else Some(companyCodes[company.value])
    else code
  }

  /** `get_news_link`. */
  function GetNewsLink(
    code: Option<string>, company: Option<string>, companyCodes: map<string, string>,
    fetch: (string, int) -> Page, today: Date,
    dateFrom: string, dateTo: string, maxPages: int): (r: Result<seq<Record>, CrawlError>)
    ensures code.None? && company.None? ==> r == Ok([])
    ensures code.None? && company.Some? && company.value !in companyCodes ==> r == Ok([])
    ensures maxPages < 1 ==> r == Ok([])
    ensures r.Ok? ==> forall k :: 0 <= k < |r.value| ==> Admitted(r.value[k], today, BoundOf(dateFrom), BoundOf(dateTo))
    ensures r.Ok? && ResolveCode(code, company, companyCodes).Some? ==>
      IsSubseq(r.value, Candidates(AllRows(FetchPages(fetch, ResolveCode(code, company, companyCodes).value, maxPages))))
  {
    match ResolveCode(code, company, companyCodes)
    case None => Ok([])
    case Some(c) => CrawlPages(FetchPages(fetch, c, maxPages), today, BoundOf(dateFrom), BoundOf(dateTo))
  }

  /** `get_news_list`: both dates must pass `inspect_date_format`, then an
      all-digit input is passed as `code` and anything else as `company`. */
  function GetNewsList(
    company: string, dateFrom: string, dateTo: string, maxPages: int,
    companyCodes: map<string, string>, fetch: (string, int) -> Page, today: Date): (r: Result<seq<Record>, CrawlError>)
    ensures r.Ok?
    ensures !InspectDateFormat(dateFrom) || !InspectDateFormat(dateTo) ==> r == Ok([])
    ensures InspectDateFormat(dateFrom) && InspectDateFormat(dateTo) ==>
      r == GetNewsLink(
        if IsDigitString(company) then Some(company) else None,
        if IsDigitString(company) then None else Some(company),
        companyCodes, fetch, today, dateFrom, dateTo, maxPages)
  {
    if !(InspectDateFormat(dateFrom) && InspectDateFormat(dateTo)) then Ok([])
    else
      var code := if IsDigitString(company) then Some(company) else None;
      var name := if IsDigitString(company) then None else Some(company);
      GetNewsLinkNeverRaises(code, name, companyCodes, fetch, today, dateFrom, dateTo, maxPages);
      GetNewsLink(code, name, companyCodes, fetch, today, dateFrom, dateTo, maxPages)
  }

  // ---------------------------------------------------------------------
  // Properties of one page

  /** Reference semantics of the loop: the records of the `Keep` verdicts
      before the first `Stop` or `Raise`, in order; an error only when the
      first of those is a `Raise`. */
  function FirstHalt(vs: seq<Verdict>): (n: nat)
    ensures n <= |vs|
    ensures forall k :: 0 <= k < n ==> vs[k].Skip? || vs[k].Keep?
    ensures n < |vs| ==> vs[n].Stop? || vs[n].Raise?
    decreases |vs|
  {
    if vs == [] then 0
    else if vs[0].Stop? || vs[0].Raise? then 0
    else 1 + FirstHalt(vs[1..])
  }

  function KeptRecords(vs: seq<Verdict>): seq<Record>
    decreases |vs|
  {
    if vs == [] then []
    else (if vs[0].Keep? then [vs[0].record] else []) + KeptRecords(vs[1..])
  }

  lemma {:induction false} RunLoopReference(vs: seq<Verdict>)
    ensures var n := FirstHalt(vs);
      RunLoop(vs) ==
        if n < |vs| && vs[n].Raise? then Err(vs[n].error)
        else Ok(KeptRecords(vs[..n]))
    decreases |vs|
  {
    if vs != [] {
      RunLoopReference(vs[1..]);
      var n := FirstHalt(vs);
      if n > 0 {
        assert n == 1 + FirstHalt(vs[1..]);
        assert vs[..n][0] == vs[0];
        assert vs[..n][1..] == vs[1..][..n - 1];
        assert KeptRecords(vs[..n]) == (if vs[0].Keep? then [vs[0].record] else []) + KeptRecords(vs[1..][..n - 1]);
        assert n < |vs| ==> vs[n] == vs[1..][n - 1];
        if vs[0].Skip? {
          assert RunLoop(vs) == RunLoop(vs[1..]);
          assert KeptRecords(vs[..n]) == KeptRecords(vs[1..][..n - 1]);
        } else {
          assert vs[0].Keep?;
        }
      } else {
        assert vs[..n] == [];
      }
    }
  }

  /** Reference semantics of one page, in terms of its rows: the records
      kept before the first row that stops or raises. */
  lemma ScanRowsReference(rows: seq<Row>, today: Date, lo: Bound, hi: Bound)
    ensures var vs := Verdicts(rows, today, lo, hi);
      var n := FirstHalt(vs);
      ScanRows(rows, today, lo, hi) ==
        if n < |vs| && vs[n].Raise? then Err(vs[n].error) else Ok(KeptRecords(vs[..n]))
  {
    RunLoopReference(Verdicts(rows, today, lo, hi));
  }

  lemma {:induction false} RunLoopStop(vs: seq<Verdict>, i: nat, after: seq<Verdict>)
    requires i < |vs| && vs[i].Stop?
    ensures RunLoop(vs[..i + 1] + after) == RunLoop(vs[..i + 1])
    decreases i
  {
    var a, b := vs[..i + 1] + after, vs[..i + 1];
    assert a[0] == b[0] == vs[0];
    if i > 0 {
      RunLoopStop(vs[1..], i - 1, after);
      assert a[1..] == vs[1..][..i] + after;
      assert b[1..] == vs[1..][..i];
    }
  }

  /** Rows after the one that ends a page are never looked at. */
  lemma StopIgnoresRestOfPage(rows: seq<Row>, i: nat, after: seq<Row>, today: Date, lo: Bound, hi: Bound)
    requires i < |rows| && Classify(rows[i], today, lo, hi).Stop?
    ensures ScanRows(rows[..i + 1] + after, today, lo, hi) == ScanRows(rows[..i + 1], today, lo, hi)
  {
    var f := Classifier(today, lo, hi);
    var vs := Map(f, rows);
    MapAppend(f, rows[..i + 1], after);
    MapPrefix(f, rows, i + 1);
    RunLoopStop(vs, i, Map(f, after));
  }

  lemma {:induction false} RunLoopSkip(vs: seq<Verdict>, i: nat)
    requires i < |vs| && vs[i].Skip?
    ensures RunLoop(vs[..i] + vs[i + 1..]) == RunLoop(vs)
    decreases i
  {
    var a := vs[..i] + vs[i + 1..];
    if i == 0 {
      assert a == vs[1..];
    } else {
      RunLoopSkip(vs[1..], i - 1);
      assert a[0] == vs[0];
      assert a[1..] == vs[1..][..i - 1] + vs[1..][i..];
    }
  }

  /** A row the loop skips (a soft error, a future row, a row newer than
      `date_to`) has no influence: the page scans as if it were absent. */
  lemma SkippedRowIsInvisible(rows: seq<Row>, i: nat, today: Date, lo: Bound, hi: Bound)
    requires i < |rows| && Classify(rows[i], today, lo, hi).Skip?
    ensures ScanRows(rows[..i] + rows[i + 1..], today, lo, hi) == ScanRows(rows, today, lo, hi)
  {
    var f := Classifier(today, lo, hi);
    var vs := Map(f, rows);
    RunLoopSkip(vs, i);
    MapAppend(f, rows[..i], rows[i + 1..]);
    MapPrefix(f, rows, i);
    MapPrefix(f, rows, i + 1);
  }

  /** Soft row errors are skipped whatever the window, so a malformed row
      never stops a page nor raises, and is invisible to the scan. */
  lemma SoftErrorIsInvisible(rows: seq<Row>, i: nat, today: Date, lo: Bound, hi: Bound)
    requires i < |rows|
    requires || rows[i].date.None? || rows[i].title.None? || rows[i].anchor.None?
             || ParseStamp(Strip(rows[i].date.value)).None?
    ensures ScanRows(rows[..i] + rows[i + 1..], today, lo, hi) == ScanRows(rows, today, lo, hi)
  {
    SkippedRowIsInvisible(rows, i, today, lo, hi);
  }

  /** A row dated today is accepted by an open window; one dated after
      today is skipped, even when a bound is unreadable. */
  lemma TodayKeptFutureSkipped(row: Row, today: Date, lo: Bound, hi: Bound)
    requires ParseRow(row).Some?
    ensures ParseRow(row).value.stamp.date == today ==> Classify(row, today, Open, Open) == Keep(ParseRow(row).value.record)
    ensures Before(today, ParseRow(row).value.stamp.date) ==> Classify(row, today, lo, hi) == Skip
  {
    ClassifySpec(row, today, Open, Open);
    ClassifySpec(row, today, lo, hi);
    BeforeTrichotomy(today, today);
  }

  /** With readable bounds a page never raises. */
  lemma {:induction false} RunLoopNeverRaises(vs: seq<Verdict>)
    requires forall k :: 0 <= k < |vs| ==> !vs[k].Raise?
    ensures RunLoop(vs).Ok?
    decreases |vs|
  {
    if vs != [] {
      RunLoopNeverRaises(vs[1..]);
    }
  }

  // ---------------------------------------------------------------------
  // Properties of the crawl

  lemma ScanNeverRaises(rows: seq<Row>, today: Date, lo: Bound, hi: Bound)
    requires !lo.Malformed? && !hi.Malformed?
    ensures ScanRows(rows, today, lo, hi).Ok?
  {
    var vs := Verdicts(rows, today, lo, hi);
    forall k | 0 <= k < |vs|
      ensures !vs[k].Raise?
    {
      ClassifySpec(rows[k], today, lo, hi);
    }
    RunLoopNeverRaises(vs);
  }

  lemma {:induction false} JoinAllNeverRaises(rs: seq<Result<seq<Record>, CrawlError>>)
    requires forall k :: 0 <= k < |rs| ==> rs[k].Ok?
    ensures JoinAll(rs).Ok?
    decreases |rs|
  {
    if rs != [] {
      JoinAllNeverRaises(rs[1..]);
    }
  }

  lemma NeverRaisesWithValidBounds(pages: seq<Page>, today: Date, lo: Bound, hi: Bound)
    requires !lo.Malformed? && !hi.Malformed?
    ensures CrawlPages(pages, today, lo, hi).Ok?
  {
    var rs := Map(PageScanner(today, lo, hi), pages);
    forall k | 0 <= k < |rs|
      ensures rs[k].Ok?
    {
      ScanNeverRaises(Visible(pages[k]), today, lo, hi);
    }
    JoinAllNeverRaises(rs);
  }

  /** With readable (or empty) date strings `get_news_link` returns normally. */
  lemma GetNewsLinkNeverRaises(
    code: Option<string>, company: Option<string>, companyCodes: map<string, string>,
    fetch: (string, int) -> Page, today: Date, dateFrom: string, dateTo: string, maxPages: int)
    requires dateFrom == "" || InspectDateFormat(dateFrom)
    requires dateTo == "" || InspectDateFormat(dateTo)
    ensures GetNewsLink(code, company, companyCodes, fetch, today, dateFrom, dateTo, maxPages).Ok?
  {
    match ResolveCode(code, company, companyCodes)
    case None =>
    case Some(c) => NeverRaisesWithValidBounds(FetchPages(fetch, c, maxPages), today, BoundOf(dateFrom), BoundOf(dateTo));
  }

  /** Pages are independent: crawling `ps` then `qs` is crawling each and
      concatenating. In particular a `break` on one page never keeps a
      later page from being read. */
  lemma CrawlPagesAppend(ps: seq<Page>, qs: seq<Page>, today: Date, lo: Bound, hi: Bound)
    ensures CrawlPages(ps + qs, today, lo, hi) == Join(CrawlPages(ps, today, lo, hi), CrawlPages(qs, today, lo, hi))
  {
    var f := PageScanner(today, lo, hi);
    MapAppend(f, ps, qs);
    JoinAllAppend(Map(f, ps), Map(f, qs));
  }

  lemma {:induction false} JoinAllAppend(xs: seq<Result<seq<Record>, CrawlError>>, ys: seq<Result<seq<Record>, CrawlError>>)
    ensures JoinAll(xs + ys) == Join(JoinAll(xs), JoinAll(ys))
    decreases |xs|
  {
    if xs == [] {
      assert xs + ys == ys;
      if JoinAll(ys).Ok? {
        assert [] + JoinAll(ys).value == JoinAll(ys).value;
      }
    } else {
      assert (xs + ys)[0] == xs[0] && (xs + ys)[1..] == xs[1..] + ys;
      JoinAllAppend(xs[1..], ys);
      var a, b, c := xs[0], JoinAll(xs[1..]), JoinAll(ys);
      if a.Ok? && b.Ok? && c.Ok? {
        assert a.value + (b.value + c.value) == (a.value + b.value) + c.value;
      }
    }
  }

  /** A page whose first row is older than `date_from` contributes nothing,
      yet the pages after it are still crawled as usual. */
  lemma OldRowEndsOnlyItsPage(page: Page, later: seq<Page>, today: Date, lo: Bound, hi: Bound)
    requires page != [] && !page[0].marked
    requires Classify(page[0], today, lo, hi).Stop?
    ensures CrawlPages([page] + later, today, lo, hi) == CrawlPages(later, today, lo, hi)
  {
    StoppedPageIsEmpty(page, today, lo, hi);
    CrawlPagesAppend([page], later, today, lo, hi);
    var r := CrawlPages(later, today, lo, hi);
    if r.Ok? {
      assert [] + r.value == r.value;
    }
  }

  lemma StoppedPageIsEmpty(page: Page, today: Date, lo: Bound, hi: Bound)
    requires page != [] && !page[0].marked
    requires Classify(page[0], today, lo, hi).Stop?
    ensures CrawlPages([page], today, lo, hi) == Ok([])
  {
    var rows := Visible(page);
    assert rows[0] == page[0];
    VerdictsCons(rows, today, lo, hi);
    assert RunLoop(Verdicts(rows, today, lo, hi)) == Ok([]);
    var f := PageScanner(today, lo, hi);
    MapCons(f, [page]);
    assert Map(f, [page]) == [Ok([])];
    assert JoinAll([Ok([])]) == Join(Ok([]), JoinAll([]));
  }

  /** `date_from` later than `date_to` admits nothing. */
  lemma InvertedWindowIsEmpty(pages: seq<Page>, today: Date, from: Date, to: Date)
    requires Before(to, from)
    ensures CrawlPages(pages, today, On(from), On(to)) == Ok([])
  {
    NeverRaisesWithValidBounds(pages, today, On(from), On(to));
    forall rec: Record | true
      ensures !Admitted(rec, today, On(from), On(to))
    {
      if ParseStamp(rec.date).Some? {
        var d := ParseStamp(rec.date).value.date;
        if Before(from, d) {
          BeforeTransitive(to, from, d);
        }
      }
    }
  }

  /** An explicit code is used as given: the company and the code table are
      not consulted. */
  lemma CodeOverridesCompany(
    code: string, company1: Option<string>, codes1: map<string, string>,
    company2: Option<string>, codes2: map<string, string>,
    fetch: (string, int) -> Page, today: Date, dateFrom: string, dateTo: string, maxPages: int)
    ensures GetNewsLink(Some(code), company1, codes1, fetch, today, dateFrom, dateTo, maxPages)
         == GetNewsLink(Some(code), company2, codes2, fetch, today, dateFrom, dateTo, maxPages)
         == CrawlPages(FetchPages(fetch, code, maxPages), today, BoundOf(dateFrom), BoundOf(dateTo))
  {
  }

  /** Whichever way the code is resolved, `get_news_link` is the crawl of
      that code's pages: the rows it returns are exactly those the page
      loop keeps. */
  lemma ResolvedCodeIsCrawled(
    code: Option<string>, company: Option<string>, companyCodes: map<string, string>, c: string,
    fetch: (string, int) -> Page, today: Date, dateFrom: string, dateTo: string, maxPages: int)
    requires ResolveCode(code, company, companyCodes) == Some(c)
    ensures GetNewsLink(code, company, companyCodes, fetch, today, dateFrom, dateTo, maxPages)
         == CrawlPages(FetchPages(fetch, c, maxPages), today, BoundOf(dateFrom), BoundOf(dateTo))
  {
  }

  /** The company path: a name in the code table crawls the pages of its
      code. */
  lemma CompanyResolvesToCrawl(
    company: string, companyCodes: map<string, string>,
    fetch: (string, int) -> Page, today: Date, dateFrom: string, dateTo: string, maxPages: int)
    requires company in companyCodes
    ensures GetNewsLink(None, Some(company), companyCodes, fetch, today, dateFrom, dateTo, maxPages)
         == CrawlPages(FetchPages(fetch, companyCodes[company], maxPages), today, BoundOf(dateFrom), BoundOf(dateTo))
  {
    ResolvedCodeIsCrawled(None, Some(company), companyCodes, companyCodes[company],
      fetch, today, dateFrom, dateTo, maxPages);
  }

  /** Through `get_news_list`, an all-digit input is never looked up in the
      code table, and a non-digit name missing from it yields nothing. */
  lemma DispatchByDigits(
    company: string, codes1: map<string, string>, codes2: map<string, string>,
    fetch: (string, int) -> Page, today: Date, dateFrom: string, dateTo: string, maxPages: int)
    ensures IsDigitString(company) ==>
      GetNewsList(company, dateFrom, dateTo, maxPages, codes1, fetch, today)
      == GetNewsList(company, dateFrom, dateTo, maxPages, codes2, fetch, today)
    ensures !IsDigitString(company) && company !in codes1 ==>
      GetNewsList(company, dateFrom, dateTo, maxPages, codes1, fetch, today) == Ok([])
  {
  }
}

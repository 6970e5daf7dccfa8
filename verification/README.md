# stock_news_analyzer news finder and similarity filter in Dafny

This project models the two pieces of stock_news_analyzer that decide which news
articles reach the summariser. It also proves properties of both.

- **The finder** (`stock_news_analyzer/finder.py`). `get_news_link` resolves a
  company name or listing code. It then reads up to `max_pages` pages of the
  Naver Finance news listing. Every row goes through the same checks:
  - whether the row is well formed
  - the date window: not after today, not before `date_from`, not after `date_to`
  - link construction

  `inspect_date_format` and `get_news_list` add the validation gate and the
  digit-based dispatch in front of the crawl. `clean_title` trims titles.
- **The filter** (`stock_news_analyzer/filter.py`). `filter_similar_news` is a
  greedy fold. It keeps a record unless the language model judges its title
  similar to the title of a record already kept.

Modules, one file each:

| file | module | contents |
|---|---|---|
| wrappers.dfy | `Wrappers` | `Option`, `Result` |
| sequences.dfy | `Sequences` | `Map`, the subsequence relation `IsSubseq` and its lemmas |
| text.dfy | `Text` | Python's `isspace`, `strip()`, ASCII `lower()`, `isdigit()` |
| calendar.dfy | `Calendar` | `Date`, `Stamp`, calendar validity, date order |
| dateformat.dfy | `DateFormat` | `strptime` for `%Y.%m.%d` and `%Y.%m.%d %H:%M`; canonical rendering and round trips |
| finder.dfy | `Finder` | rows, verdicts, the row loop, the page loop, `get_news_link`, `get_news_list` |
| filter.dfy | `Filter` | the answer check, the greedy selection, the two loops of `filter_similar_news` |

How the external parts are represented:

- **Listing pages.** Each page is a sequence of abstract rows. A row holds:
  - the optional texts of its `.date`, `.info` and `.title` cells
  - the optional link in the title cell, whose `href` may itself be missing
  - one flag for the `relation_lst` / `hide_news` rows that the selectors remove
- **Fetching.** Reading page `n` for a code is a function parameter `fetch`.
- **The clock.** "Today" is the parameter `today`.
- **The code table.** `COMPANY_CODE` is a `map` parameter.
- **The language model.** It is a function `judge(title1, title2)` that returns
  the answer text.

The two `strptime` formats are modelled as the regular expressions CPython
compiles them to, followed by the calendar check `datetime` makes:

- `%m` is `1[0-2]|0[1-9]|[1-9]`.
- `%d` is `3[01]|[12]\d|0[1-9]|[1-9]| [1-9]`.
- `%H` is `2[0-3]|[0-1]\d|\d` and `%M` is `[0-5]\d|\d`.
- A space in the format matches a run of whitespace.
- Consequences: `2023.5.1` and `2023.05. 1` are accepted. `0000.01.01`,
  `2023.02.29` and any trailing text are rejected.

### Behaviour of the code worth noting

- **The stop on an old row is per page.** A row older than `date_from` executes
  a `break` (finder.py:109-114). That leaves only the row loop of the current
  page. The page loop at finder.py:60 then goes on to the next page.
  - `StopIgnoresRestOfPage` proves that rows after the stop are ignored.
  - `OldRowEndsOnlyItsPage` proves that later pages are still read.
- **No exact-match deduplication.** `get_news_link` never removes repeated
  links or titles. `clean_title` is only `strip()`.
- **No stop on an empty page.** The page loop requests every page up to
  `max_pages`, unless a malformed bound raises first. That exception leaves
  the page loop, so later pages are never requested. `CrawlPagesAppend`
  states this: the first error wins.
- **Bounds are parsed lazily.** `date_from` and `date_to` are parsed only
  when a row reaches the check (finder.py:110 and 117). A malformed non-empty
  bound therefore raises `ValueError` only if some row gets that far. The model
  returns `Err` in exactly those cases, and `Ok` otherwise.
  - `GetNewsList` states that `get_news_list` never raises (its `r.Ok?`
    clause), because its gate rejects such bounds first.
  - `GetNewsLinkNeverRaises` states that `get_news_link` returns normally
    whenever both bounds would pass that gate.

## Model

| member | source | states |
|---|---|---|
| Finder.CleanTitle | stock_news_analyzer/finder.py:13-14 | The cleaned title is the title with the whitespace runs at both ends removed, and nothing else changed: an infix of the title, flanked only by whitespace, that neither starts nor ends with whitespace. |
| Text.StripUnique | stock_news_analyzer/finder.py:13-14 | That trimmed form is unique: any string with those properties equals `Strip` of the title. |
| Text.StripIdempotent | stock_news_analyzer/finder.py:87-88 | Stripping text that is already stripped changes nothing. |
| Calendar.BeforeTrichotomy | stock_news_analyzer/finder.py:105 | For two dates exactly one holds: the first is earlier, they are equal, or the second is earlier. |
| Calendar.BeforeTransitive | stock_news_analyzer/finder.py:111 | The date order is transitive. |
| DateFormat.ParseDate | stock_news_analyzer/finder.py:134-141 | Every text accepted as `%Y.%m.%d` denotes a real calendar date, with year 1 to 9999 and a day within its month. |
| DateFormat.ParseStamp | stock_news_analyzer/finder.py:99-103 | Every text accepted as `%Y.%m.%d %H:%M` denotes a valid date and a valid time of day. |
| DateFormat.ParseFormatDate | stock_news_analyzer/finder.py:134-138 | Every valid date written as zero-padded `YYYY.MM.DD` is accepted and read back as the same date. |
| DateFormat.ParseFormatStamp | stock_news_analyzer/finder.py:99-100 | Every valid stamp written as zero-padded `YYYY.MM.DD HH:MM` is accepted and read back as the same stamp. |
| DateFormat.ParseDateIsRegexMatch | stock_news_analyzer/finder.py:134-138 | A text parses to a date exactly when it is four digits, a dot, a `%m` token, a dot and a `%d` token with nothing after, and those fields spell a real date. The result is that date. |
| DateFormat.EmptyIsNoDate | stock_news_analyzer/finder.py:134-141 | The empty string fails `inspect_date_format`. |
| DateFormat.ParseDateUnpadded | stock_news_analyzer/finder.py:134-138 | An unpadded month and day are accepted, and so is a day written with a leading space. |
| DateFormat.ParseDateLeapDay | stock_news_analyzer/finder.py:134-141 | 29 February is accepted in 2024 and rejected in 2023. |
| DateFormat.ParseDateRejects | stock_news_analyzer/finder.py:134-141 | Year 0 is rejected, and so is trailing text after the day. |
| Finder.BoundOf | stock_news_analyzer/finder.py:109-110 | The empty bound leaves its side of the window open; a bound that parses is that date; any other text is malformed. |
| Finder.ParseRowSpec | stock_news_analyzer/finder.py:76-103 | A row yields a record exactly when it has a date cell, a title cell and a link, and its trimmed date parses as a stamp. The record then holds the trimmed date, which parses back to the row's stamp; the trimmed title; the trimmed `.info` text or "" without one; and the link `https://finance.naver.com` followed by the `href`, or by "" without one. |
| Finder.ClassifySpec | stock_news_analyzer/finder.py:99-127 | A malformed row is skipped. A well-formed row is kept, as its own record, exactly when its date is in the window. It ends the page exactly when it is not in the future and is older than `date_from`. It raises exactly when it is not in the future and reaches a malformed bound, `date_from` checked first. |
| Finder.Visible | stock_news_analyzer/finder.py:66-70 | The selectors keep exactly the rows that are not `relation_lst` or `hide_news` rows, in page order. The result is a subsequence of the page, no row of it is marked, and its length is the number of rows minus the number of marked rows, so every unmarked row survives. |
| Finder.ScanRows | stock_news_analyzer/finder.py:75-127 | One page yields at most as many records as it has rows. Each record is in the date window and links into the site. The records form an order-preserving subsequence of the records of the page's well-formed rows. |
| Finder.RunLoopKeeps | stock_news_analyzer/finder.py:75-127 | Every record the row loop returns comes from a row whose verdict was to keep it. |
| Finder.RunLoopReference | stock_news_analyzer/finder.py:75-127 | The row loop returns the kept records that come before the first row that ends the page or raises, in order. It raises only when that first row is one that raises. |
| Finder.ScanRowsReference | stock_news_analyzer/finder.py:75-127 | The same reference semantics, stated for the verdicts on a page's rows. |
| Finder.StopIgnoresRestOfPage | stock_news_analyzer/finder.py:109-114 | Rows after the row that ends a page have no influence on that page's result. |
| Finder.SkippedRowIsInvisible | stock_news_analyzer/finder.py:116-120 | A skipped row (future-dated, newer than `date_to`, or malformed) has no influence: the page scans exactly as if it were absent. |
| Finder.SoftErrorIsInvisible | stock_news_analyzer/finder.py:76-103 | A row without a date cell, title cell or link, or with an unparseable stamp, neither stops nor raises, and the other rows are processed as if it were absent. |
| Finder.TodayKeptFutureSkipped | stock_news_analyzer/finder.py:105-107 | With an open window, a row dated today is kept. A row dated after today is skipped, whatever the bounds. |
| Finder.CrawlPages | stock_news_analyzer/finder.py:60-127 | The crawl returns at most as many records as there are rows. Each record is in the date window and links into the site. The records are a subsequence of the well-formed rows in page-then-row order. |
| Finder.CrawlOnePage | stock_news_analyzer/finder.py:60-127 | Crawling a single page gives exactly that page's row loop over its visible rows. With `CrawlPagesAppend` and `ScanRowsReference`, this fixes the exact result for any list of pages. |
| Finder.CrawlPagesAppend | stock_news_analyzer/finder.py:60 | Pages are independent: crawling one list of pages and then another gives the first result followed by the second, and the first error wins. |
| Finder.OldRowEndsOnlyItsPage | stock_news_analyzer/finder.py:109-114 | A page whose first row is older than `date_from` contributes nothing, and the pages after it are crawled as if it were not there. |
| Finder.InvertedWindowIsEmpty | stock_news_analyzer/finder.py:109-120 | When `date_from` is after `date_to`, the crawl returns nothing. |
| Finder.NeverRaisesWithValidBounds | stock_news_analyzer/finder.py:109-120 | With no malformed bound, the crawl always returns normally. |
| Finder.FetchPages | stock_news_analyzer/finder.py:60-62 | Pages 1 to `max_pages` of the code's listing are requested in order, and none when `max_pages` is below 1. |
| Finder.ResolveCode | stock_news_analyzer/finder.py:43-54 | A given code is used as is. Without a code, the company's entry in the code table is used, and nothing is crawled when the company is missing or unknown. |
| Finder.GetNewsLink | stock_news_analyzer/finder.py:22-131 | It returns `[]` with neither code nor company, with an unknown company and no code, or when `max_pages < 1`. Every returned record is in the window and links into the site. When a code is resolved, the result is an order-preserving subsequence of the fetched rows' own records. Each of those records carries the row's trimmed date and info, its trimmed title and the link `https://finance.naver.com` + `href`. |
| Finder.ResolvedCodeIsCrawled | stock_news_analyzer/finder.py:43-62 | Whenever a code is resolved, `get_news_link` returns exactly the crawl of that code's pages, from 1 to `max_pages`, under the given bounds. |
| Finder.CompanyResolvesToCrawl | stock_news_analyzer/finder.py:51-62 | On the company path, a name found in the code table returns exactly the crawl of the pages of its code. |
| Finder.CodeOverridesCompany | stock_news_analyzer/finder.py:51-54 | With a code given, the company and the code table do not affect the result. |
| Finder.GetNewsLinkNeverRaises | stock_news_analyzer/finder.py:151-163 | When both date strings are empty or pass `inspect_date_format`, `get_news_link` returns normally. |
| Finder.GetNewsList | stock_news_analyzer/finder.py:144-174 | It never raises. It returns `[]` unless both dates pass `inspect_date_format`. Otherwise it is `get_news_link`, with an all-digit input passed as the code and any other input as the company. |
| Finder.DispatchByDigits | stock_news_analyzer/finder.py:151-163 | An all-digit input is never looked up in the code table. A non-digit name missing from the table yields `[]`. |
| Filter.SimilarAnswerExact | stock_news_analyzer/filter.py:36 | An answer counts as "similar" exactly when, with surrounding whitespace removed, it is "유사". |
| Filter.Dedup | stock_news_analyzer/filter.py:29-41 | The output keeps input order as a subsequence of the input. No kept record is judged similar to a record kept before it, with the later record passed first. Every input record is kept or was judged similar to a kept record. The first record of a non-empty input is kept. |
| Filter.FilterFromSnoc | stock_news_analyzer/filter.py:32-40 | Filtering one more record is one more step of the outer loop: the record is appended unless it resembles a record kept so far. |
| Filter.DedupPrefix | stock_news_analyzer/filter.py:31-40 | What is kept from a prefix of the input is a prefix of the final output: kept records are never removed. |
| Filter.DroppedForEarlierKept | stock_news_analyzer/filter.py:33-40 | A record is dropped exactly when it was judged similar to a record kept before it, which stays in the output at the same position. Otherwise it is appended. |
| Filter.NoSimilarPairIsFixed | stock_news_analyzer/filter.py:29-41 | Input in which no record resembles an earlier one passes through unchanged. |
| Filter.FilterIdempotent | stock_news_analyzer/filter.py:29-41 | Filtering the output again changes nothing. |
| Filter.NeverSimilarKeepsAll | stock_news_analyzer/filter.py:29-41 | A model that never answers "유사" keeps every record. |
| Filter.AlwaysSimilarKeepsFirst | stock_news_analyzer/filter.py:29-41 | A model that always answers "유사" keeps only the first record. |
| Filter.FindSimilar | stock_news_analyzer/filter.py:33-38 | The inner loop reports a similar kept record exactly when one exists. It asks about at most every kept record, stops right after the first "similar" answer, and asks about all of them when there is none. |
| Filter.FilterSimilarNews | stock_news_analyzer/filter.py:29-41 | The two loops compute the greedy selection. They ask the model at most once per pair of input records, and exactly once per pair when nothing is dropped. |
| Filter.PairsClosedForm | stock_news_analyzer/filter.py:32-34 | The number of pairs bounding the calls is n(n-1)/2. |

## Left out

- HTTP transport, `aiohttp` and BeautifulSoup (finder.py:17-19, 59-70) are not modelled:
  - A page is the list of rows the selectors yield, and `fetch` is a pure function parameter.
  - Transport errors are not modelled, nor is the async scheduling.
  - The code fetches page by page. The model reads all pages up front, which gives the same result because `fetch` is pure.
- Markup details are not modelled. These include what `get_text(strip=True)` joins together, `isinstance(..., Tag)`, and how deeply `relation_lst` rows nest. A row only records which cells and link it has and their texts.
- The clock (`datetime.now()`) and logging are not modelled. `stock_news_analyzer/utils/company_code.py` is not part of this model; the table is a parameter.
- `create_similarity_chain` and the language-model call (filter.py:10-27) are not modelled. The model is a deterministic function of the two titles, while the real model may answer the same pair differently.
- Errors from the language model are not modelled. `similarity_chain.run` (filter.py:35) can raise, and that exception leaves `filter_similar_news`. In the model the judge always returns an answer.
- `analyzer.py`, `model.py`, `cli.py` and `main.py` are not modelled. They are summarisation, model construction and console plumbing.
- Only ASCII digits are modelled for `\d` in `strptime` and for `str.isdigit()` (finder.py:160):
  - `\d` also matches every other Unicode decimal digit (category Nd).
  - `str.isdigit()` accepts those too, and also characters whose Numeric_Type is Digit, such as '²', which `\d` does not match.
- `lower()` is modelled with the ASCII case mapping only. This does not affect `SimilarAnswerExact`: the answer word is Hangul, which has no case, and no other character lowers to it.
- Finder.ScanRows: it states that the records form a subsequence of the page's well-formed rows, not which ones are kept. `ScanRowsReference` and `ClassifySpec` give the exact selection.
- Finder.CrawlPages: its contract states only soundness: the bound, the window, and the subsequence of the well-formed rows' records. The exact selection is given by `CrawlOnePage`, `CrawlPagesAppend` and `ScanRowsReference` together.
- Finder.GetNewsLink: its contract states the `[]` cases and soundness only: the window, and the subsequence of the fetched rows' records. The exact result comes from `ResolvedCodeIsCrawled` (or `CompanyResolvesToCrawl` and `CodeOverridesCompany`) together with `CrawlOnePage`, `CrawlPagesAppend` and `ScanRowsReference`.

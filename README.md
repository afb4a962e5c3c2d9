# jobs_scraper — a verified model of `JobsScraper`

`JobsScraper` scrapes Indeed search results. Its constructor lays the caller's headers over
a set of default headers and starts an empty `_jobs` list. `scrape` walks the result pages at
offsets `0, 10, …, 10 * (pages - 1)`. For each one it builds `url + "&start=" + offset` and
passes it to `requests.get`, which appends the header map as extra query parameters.
`_transform_page` turns every job card on a page into one record with five fields: title,
company, summary, location and salary. The records are appended to `_jobs` in document
order. Finally `scrape` returns the collected records with exact duplicate rows dropped.

The model has three modules:

- `PyText` (`py_text.dfy`) gives the Python string behaviour the scraper relies on:
  - `str.strip()`, with Python's full `isspace` character set written out;
  - `str.replace('\n', '')`;
  - `str(n)` for the offset.
- `Tables` (`tables.dfy`) models pandas `DataFrame.drop_duplicates()` (keep the first
  occurrence, compare every column) on a sequence of rows.
- `Scraping` (`scraping.dfy`) models the core:
  - the class `JobsScraper`, with its `jobs` list as a `seq` field;
  - `TransformPage` and `Scrape` as methods with loops;
  - field resolution, the offset schedule and URL building as functions.

Fetching a page and parsing it are one step here: the parameter `fetch`. `fetch(u)` stands for
`requests.get(u, headers)` followed by parsing, for the scraper's fixed merged header map, and
gives the sequence of job cards on the page served. A card holds, for each of the
five fields, the raw text of its sub-element, or `None` when `find` returned no element.

Worth knowing about the source's behaviour:

- A present field is normalised by `strip()` first and newline removal second. So
  `"Build\npipelines"` becomes `"Buildpipelines"`: the words are joined, not separated by a
  space. Newlines at either end are removed by `strip()`.
- A missing location or salary gives `None`. A location or salary element that is present
  but blank gives `''`. A missing title, company or summary gives `''`.
- In these places the model follows the code rather than the docstring or a natural reading:
  - The header map is passed as the second positional argument of `requests.get`, which is
    `params`, not `headers` (jobs_scraper/scraping.py:31). `requests` URL-encodes it and appends
    it to the query string, so the URL sent is `url&start=N` followed by the header entries.
    Since the map is fixed for a scraper, the model keeps the built string as the page's key.
  - `pages` may be any integer. Zero or a negative value requests no page at all.
  - The step between pages is 10. The docstring's "15 results" per page
    (jobs_scraper/scraping.py:21) is not behaviour.

## Model

| member | source | states |
|---|---|---|
| `Scraping.MergeHeaders` | jobs_scraper/scraping.py:23-24 | The merged header map has exactly the keys of both maps. Every caller-supplied key maps to the caller's value. Every default key the caller did not supply keeps its default value. |
| `Scraping.JobsScraper.constructor` | jobs_scraper/scraping.py:23-27 | After construction the headers are the defaults updated with the caller's headers, url and pages are stored as given, and `jobs` is empty. |
| `Scraping.JobsScraper.ExtractPage` | jobs_scraper/scraping.py:29-34 | Line 31 builds `url + "&start=" + str(offset)` and passes it to `requests.get` (which adds the fixed header map as query parameters). The cards returned are those served for exactly that string. |
| `Scraping.PageUrlInjective` | jobs_scraper/scraping.py:31 | Two different offsets never give the same request URL. |
| `Scraping.PageUrlCarriesOffset` | jobs_scraper/scraping.py:31 | The request URL is the base URL, then `&start=`, then a string of decimal digits that reads back as the offset. |
| `PyText.DecimalString` | jobs_scraper/scraping.py:31 | `str(n)` of a non-negative offset is a non-empty string of decimal digits with no leading zero, unless the offset is 0. |
| `PyText.DecimalRoundTrip` | jobs_scraper/scraping.py:31 | Reading the decimal string of an offset back gives the offset. |
| `PyText.DecimalStringInjective` | jobs_scraper/scraping.py:31 | Different offsets are written as different strings. |
| `Scraping.OffsetsSchedule` | jobs_scraper/scraping.py:85 | `range(0, pages * 10, 10)` has exactly `pages` elements when `pages > 0` and none otherwise. Its k-th element is `10 * k`. |
| `Scraping.ScrapeRequests` | jobs_scraper/scraping.py:85-88 | `scrape` requests `pages` URLs (none when `pages <= 0`). The k-th is the URL for offset `10 * k`, and all of them are different. |
| `PyText.StripSpec` | jobs_scraper/scraping.py:43 | The result of `strip()` has no leading or trailing whitespace. It is an infix of the input, and everything cut off at both ends is whitespace. |
| `PyText.StripUnique` | jobs_scraper/scraping.py:43 | Any cut of whitespace from both ends that leaves a trimmed string is exactly `strip()`'s result. |
| `PyText.RemoveNewlines` | jobs_scraper/scraping.py:43 | After `replace('\n', '')` no newline is left. A string without newlines is unchanged. |
| `PyText.RemoveNewlinesCounts` | jobs_scraper/scraping.py:43 | Every character other than a newline keeps its number of occurrences. |
| `PyText.NormaliseIsClean` | jobs_scraper/scraping.py:43-59 | A normalised field text contains no newline and has no leading or trailing whitespace. |
| `PyText.NormaliseIdempotent` | jobs_scraper/scraping.py:43-59 | Normalising an already normalised text changes nothing. |
| `PyText.NormalisePadded` | jobs_scraper/scraping.py:43-59 | A clean text with whitespace (newlines included) on either side normalises to that clean text. |
| `Scraping.ToRecordColumn` | jobs_scraper/scraping.py:42-70 | Each column of a card's record is the normalised text of that card's own field when the element is present. When it is absent, the column is `''` for title, company and summary and `None` for location and salary. |
| `Scraping.FieldsIndependent` | jobs_scraper/scraping.py:42-61 | Removing one field's element from a card sets that column to its fallback and leaves the other four columns unchanged. |
| `Scraping.AbsentDiffersFromBlank` | jobs_scraper/scraping.py:54-61 | For a field whose element is present but blank, removing the element changes the column exactly when the field is location or salary: `None` differs from `''`. |
| `Scraping.RecordTextsClean` | jobs_scraper/scraping.py:42-61 | Every text column of a record has no newline and no leading or trailing whitespace. |
| `Scraping.Without` | jobs_scraper/scraping.py:42-61 | Removing one sub-element from a card makes that field absent and leaves the other four fields as they were. |
| `Scraping.Records` | jobs_scraper/scraping.py:40-72 | A page yields exactly one record per card. |
| `Scraping.RecordsAt` | jobs_scraper/scraping.py:40-72 | The k-th record of a page is the one built from its k-th card, so records follow document order. |
| `Scraping.AppendPage` | jobs_scraper/scraping.py:38-72 | After a page is transformed, `_jobs` is one record longer per card. Earlier entries are unchanged, the new entries are the cards' records in card order, and a page with no cards leaves `_jobs` unchanged. |
| `Scraping.JobsScraper.TransformPage` | jobs_scraper/scraping.py:36-72 | The loop over the cards leaves `jobs` equal to the old `jobs` followed by the page's records. |
| `Scraping.CollectedLength` | jobs_scraper/scraping.py:85-88 | The number of records collected equals the total number of cards found over all pages fetched. |
| `Scraping.JobsScraper.Scrape` | jobs_scraper/scraping.py:74-93 | `scrape` requests exactly the URLs of `range(0, pages * 10, 10)` in order. `jobs` becomes the old `jobs` followed by every page's records, without clearing or deduplicating. The returned table is `drop_duplicates()` of the whole of `jobs`. |
| `Tables.DropDuplicates` | jobs_scraper/scraping.py:91 | The table has no two equal rows, and each of its rows is a row of the input. |
| `Tables.DropDuplicatesKeepsEveryRow` | jobs_scraper/scraping.py:91 | Every record collected appears in the table. |
| `Tables.DropDuplicatesKeepsFirstOccurrenceOrder` | jobs_scraper/scraping.py:91 | Rows of the table appear in the order of their first occurrence in the input. |
| `Tables.DropDuplicatesUnique` | jobs_scraper/scraping.py:91 | Any table with no equal rows, holding exactly the input's rows in first-occurrence order, is the result of `drop_duplicates()`. |
| `Tables.DropDuplicatesOfDistinct` | jobs_scraper/scraping.py:91 | A table without duplicate rows is left unchanged. |
| `Tables.DropDuplicatesIdempotent` | jobs_scraper/scraping.py:91 | Dropping duplicates twice gives the same table as dropping them once. |
| `Tables.DropDuplicatesAbsorbsSeen` | jobs_scraper/scraping.py:85-93 | Appending rows that are all present already leaves the deduplicated table unchanged. |
| `Tables.RepeatedHasDuplicates` | jobs_scraper/scraping.py:72 | A list to which the same non-empty batch of records was appended twice has duplicate rows. |
| `Scraping.ScrapeTwice` | jobs_scraper/scraping.py:27 | Calling `scrape` twice on one object, with the same pages served both times, leaves every record twice in `jobs`, and `jobs` then has duplicates when any card was found. Both calls return the same table, and it has no duplicate rows. |
| `Scraping.ScrapeDuplicateCards` | jobs_scraper/scraping.py:36-93 | With `pages = 1` and one page that holds the same card twice, `jobs` holds both records and the table has one row. A card without a salary element gives that row a salary of `None`. |

## Left out

- HTTP transport: `requests.get` is network I/O and is replaced by the parameter `fetch`. The
  model does not model status codes, timeouts, or the exceptions the transport raises and
  `scrape` lets through.
- Scraping.MergeHeaders: compares header names exactly. The defaults come from
  `requests.utils.default_headers()`, a case-insensitive dictionary, so `update` with
  `user-agent` replaces `User-Agent` there. The contents of those defaults are an input.
- How the header map reaches the server: it is passed as `params`, so `requests` URL-encodes
  it and appends it to the query string after `&start=N`. The model does not build that full
  URL: `fetch` takes the string built at jobs_scraper/scraping.py:31 and stands for the request
  with the scraper's fixed header map.
- HTML parsing: BeautifulSoup's `find_all`/`find` tag and class selectors and `.text` are
  replaced by the card abstraction. The bare `except:` also catches exceptions other than a
  missing element (for example an interrupt). Those are not modelled.
- pandas mechanics:
  - the DataFrame's column layout and dtypes;
  - the empty frame built when nothing was collected;
  - the index labels that `drop_duplicates` keeps (the surviving rows keep their original
    labels).
  The table is a sequence of records.
- Non-integer `pages`: Python would raise in `range`. The model takes an `int`.
- Scraping.JobsScraper.Scrape: one `fetch` function serves all pages of one call, so the site
  is taken to answer each URL in one fixed way during a call. Different calls may use
  different `fetch` functions.

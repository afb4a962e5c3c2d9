/** The Indeed scraper `JobsScraper`: header configuration, the pagination schedule, the
    assembly of one five-field record per job card, and the deduplicated result table.
    Fetching and HTML parsing are one step given as a parameter `fetch`: it maps a request URL
    to the job cards found on the page served for it. */
module Scraping {
  import opened PyText
  import opened Tables

  datatype Option<T> = None | Some(value: T)

  /** The five fields looked up inside a job card. */
  datatype Field = Title | Company | Summary | Location | Salary

  /** A job card as the parser presents it: for each field, the raw `.text` of its
      sub-element, or `None` when `find` returned no such element. */
  datatype Card = Card(
    title: Option<string>,
    company: Option<string>,
    summary: Option<string>,
    location: Option<string>,
    salary: Option<string>)

  /** The raw text the card holds for field `f`. */
  function Raw(card: Card, f: Field): Option<string> {
    match f
    case Title => card.title
    case Company => card.company
    case Summary => card.summary
    case Location => card.location
    case Salary => card.salary
  }

  /** The same card with the sub-element for `f` missing. */
  function Without(card: Card, f: Field): (c: Card)
    ensures Raw(c, f) == None
    ensures forall g :: g != f ==> Raw(c, g) == Raw(card, g)
  {
    match f
    case Title => card.(title := None)
    case Company => card.(company := None)
    case Summary => card.(summary := None)
    case Location => card.(location := None)
    case Salary => card.(salary := None)
  }

  /** One collected row, with the columns in the order the source builds the dict. */
  datatype JobRecord = JobRecord(
    title: string,
    location: Option<string>,
    company: string,
    summary: string,
    salary: Option<string>)

  type Headers = map<string, string>

  /** The offset step between two result pages. */
  const PageStep: nat := 10

  /** `defaults.update(overrides)`: every caller header wins, every other default stays. */
  function MergeHeaders(defaults: Headers, overrides: Headers): (h: Headers)
    ensures h.Keys == defaults.Keys + overrides.Keys
    ensures forall k :: k in overrides ==> h[k] == overrides[k]
    ensures forall k :: k in defaults && k !in overrides ==> h[k] == defaults[k]
  {
    defaults + overrides
  }

  /** `"{}&start={}".format(url, offset)`. */
  function PageUrl(url: string, offset: nat): string {
    url + "&start=" + DecimalString(offset)
  }

  /** Two different offsets never produce the same request URL. */
  lemma PageUrlInjective(url: string, a: nat, b: nat)
    requires PageUrl(url, a) == PageUrl(url, b)
    ensures a == b
  {
    var prefix := url + "&start=";
    assert PageUrl(url, a)[|prefix|..] == DecimalString(a);
    assert PageUrl(url, b)[|prefix|..] == DecimalString(b);
    DecimalStringInjective(a, b);
  }

  /** The request URL ends in the offset written in decimal, which reads back as the offset. */
  lemma PageUrlCarriesOffset(url: string, offset: nat)
    ensures var u := PageUrl(url, offset);
            var d := u[|url| + 7..];
            u[..|url| + 7] == url + "&start=" &&
            (forall k :: 0 <= k < |d| ==> IsDigit(d[k])) &&
            ParseDecimal(d) == offset
  {
    var u := PageUrl(url, offset);
    assert u[|url| + 7..] == DecimalString(offset);
    DecimalRoundTrip(offset);
  }

  /** Python's `range(start, stop, step)` for a positive step and a non-negative start. */
  function Range(start: nat, stop: int, step: nat): seq<nat>
    requires step > 0
    decreases stop - start
  {
    if start >= stop then [] else [start] + Range(start + step, stop, step)
  }

  /** The offsets `scrape` visits: `range(0, pages * 10, 10)`. */
  function Offsets(pages: int): seq<nat> {
    Range(0, pages * PageStep, PageStep)
  }

  lemma {:induction false} RangeShape(start: nat, stop: int, step: nat, n: nat)
    requires step > 0
    requires if stop <= start then n == 0 else start + (n - 1) * step < stop <= start + n * step
    ensures |Range(start, stop, step)| == n
    ensures forall k :: 0 <= k < n ==> Range(start, stop, step)[k] == start + k * step
    decreases n
  {
    if n > 0 {
      RangeShape(start + step, stop, step, n - 1);
      var r := Range(start, stop, step);
      forall k | 0 <= k < n ensures r[k] == start + k * step {
        if k > 0 {
          assert r[k] == Range(start + step, stop, step)[k - 1];
        }
      }
    }
  }

  /** `scrape` visits exactly `pages` offsets when `pages` is positive and none otherwise, and
      the k-th one is `10 * k`: 0, 10, 20, ... in increasing order. */
  lemma OffsetsSchedule(pages: int)
    ensures |Offsets(pages)| == if pages > 0 then pages else 0
    ensures forall k :: 0 <= k < |Offsets(pages)| ==> Offsets(pages)[k] == PageStep * k
  {
    RangeShape(0, pages * PageStep, PageStep, if pages > 0 then pages else 0);
  }

  /** What a field resolves to when its sub-element is missing: `''` for title, company and
      summary, `None` for location and salary. */
  function Fallback(f: Field): Option<string> {
    if f == Location || f == Salary then None else Some("")
  }

  /** The column of a record that holds field `f`; a text column is reported as `Some`. */
  function Column(r: JobRecord, f: Field): Option<string> {
    match f
    case Title => Some(r.title)
    case Company => Some(r.company)
    case Summary => Some(r.summary)
    case Location => r.location
    case Salary => r.salary
  }

  /** One `try`/`except` block: the normalised text of a present field, else its fallback. */
  function Resolve(card: Card, f: Field): Option<string> {
    match Raw(card, f)
    case Some(text) => Some(Normalise(text))
    case None => Fallback(f)
  }

  /** The record built for one job card. */
  function ToRecord(card: Card): JobRecord
  {
    JobRecord(
      title := Resolve(card, Title).value,
      location := Resolve(card, Location),
      company := Resolve(card, Company).value,
      summary := Resolve(card, Summary).value,
      salary := Resolve(card, Salary))
  }

  /** Every column of a card's record is its own field resolved on its own: the normalised
      text when the card has the field, the field's fallback when it does not. */
  lemma ToRecordColumn(card: Card, f: Field)
    ensures Column(ToRecord(card), f) == if Raw(card, f).Some? then Some(Normalise(Raw(card, f).value)) else Fallback(f)
  {
    match f
    case Title =>
    case Company =>
    case Summary =>
    case Location =>
    case Salary =>
  }

  /** A missing field never changes the other four columns of the card's record. */
  lemma FieldsIndependent(card: Card, missing: Field, f: Field)
    requires f != missing
    ensures Column(ToRecord(Without(card, missing)), f) == Column(ToRecord(card), f)
    ensures Column(ToRecord(Without(card, missing)), missing) == Fallback(missing)
  {
    ToRecordColumn(card, f);
    ToRecordColumn(Without(card, missing), f);
    ToRecordColumn(Without(card, missing), missing);
  }

  /** A missing location or salary is `None`, which differs from the `''` a present but blank
      element yields; a missing title, company or summary is `''` like a blank one. */
  lemma AbsentDiffersFromBlank(card: Card, f: Field)
    requires Raw(card, f).Some? && Normalise(Raw(card, f).value) == ""
    ensures (f == Location || f == Salary) <==> Column(ToRecord(Without(card, f)), f) != Column(ToRecord(card), f)
  {
    ToRecordColumn(card, f);
    ToRecordColumn(Without(card, f), f);
  }

  /** Every text in a record is clean: no newline, no leading or trailing whitespace. */
  lemma RecordTextsClean(card: Card, f: Field)
    requires Column(ToRecord(card), f).Some?
    ensures '\n' !in Column(ToRecord(card), f).value
    ensures IsTrimmed(Column(ToRecord(card), f).value)
  {
    ToRecordColumn(card, f);
    if Raw(card, f).Some? {
      NormaliseIsClean(Raw(card, f).value);
    }
  }

  /** The records of a page's cards, one per card, in card order. */
  function Records(cards: seq<Card>): (rs: seq<JobRecord>)
    ensures |rs| == |cards|
  {
    if cards == [] then []
    else Records(cards[..|cards| - 1]) + [ToRecord(cards[|cards| - 1])]
  }

  lemma RecordsSnoc(cards: seq<Card>, card: Card)
    ensures Records(cards + [card]) == Records(cards) + [ToRecord(card)]
  {
    assert (cards + [card])[..|cards|] == cards;
  }

  /** The k-th record is the one built from the k-th card. */
  lemma {:induction false} RecordsAt(cards: seq<Card>)
    ensures forall k :: 0 <= k < |cards| ==> Records(cards)[k] == ToRecord(cards[k])
  {
    if cards != [] {
      var p := cards[..|cards| - 1];
      RecordsAt(p);
      forall k | 0 <= k < |cards| ensures Records(cards)[k] == ToRecord(cards[k]) {
        if k < |p| {
          assert cards[k] == p[k];
        }
      }
    }
  }

  /** What `_transform_page` leaves in `_jobs`: the old entries untouched, then one record per
      card in card order; a page without cards changes nothing. */
  lemma AppendPage(old_jobs: seq<JobRecord>, cards: seq<Card>)
    ensures var jobs := old_jobs + Records(cards);
            |jobs| == |old_jobs| + |cards| &&
            jobs[..|old_jobs|] == old_jobs &&
            (forall k :: 0 <= k < |cards| ==> jobs[|old_jobs| + k] == ToRecord(cards[k])) &&
            (cards == [] ==> jobs == old_jobs)
  {
    RecordsAt(cards);
    assert (old_jobs + Records(cards))[..|old_jobs|] == old_jobs;
  }

  /** The records gathered from the pages at `offsets`, page after page. */
  function Collected(fetch: string -> seq<Card>, url: string, offsets: seq<nat>): seq<JobRecord> {
    if offsets == [] then []
    else
      var last := offsets[|offsets| - 1];
      Collected(fetch, url, offsets[..|offsets| - 1]) + Records(fetch(PageUrl(url, last)))
  }

  lemma CollectedSnoc(fetch: string -> seq<Card>, url: string, offsets: seq<nat>, offset: nat)
    ensures Collected(fetch, url, offsets + [offset])
         == Collected(fetch, url, offsets) + Records(fetch(PageUrl(url, offset)))
  {
    assert (offsets + [offset])[..|offsets|] == offsets;
  }

  /** The number of cards served on the pages at `offsets`. */
  function CardCount(fetch: string -> seq<Card>, url: string, offsets: seq<nat>): nat {
    if offsets == [] then 0
    else
      var last := offsets[|offsets| - 1];
      CardCount(fetch, url, offsets[..|offsets| - 1]) + |fetch(PageUrl(url, last))|
  }

  /** One record is collected per card found, summed over all pages fetched. */
  lemma {:induction false} CollectedLength(fetch: string -> seq<Card>, url: string, offsets: seq<nat>)
    ensures |Collected(fetch, url, offsets)| == CardCount(fetch, url, offsets)
  {
    if offsets != [] {
      CollectedLength(fetch, url, offsets[..|offsets| - 1]);
    }
  }

  /** The request URLs for `offsets`, in order. */
  function Urls(url: string, offsets: seq<nat>): seq<string> {
    if offsets == [] then []
    else Urls(url, offsets[..|offsets| - 1]) + [PageUrl(url, offsets[|offsets| - 1])]
  }

  lemma UrlsSnoc(url: string, offsets: seq<nat>, offset: nat)
    ensures Urls(url, offsets + [offset]) == Urls(url, offsets) + [PageUrl(url, offset)]
  {
    assert (offsets + [offset])[..|offsets|] == offsets;
  }

  lemma {:induction false} UrlsAt(url: string, offsets: seq<nat>)
    ensures |Urls(url, offsets)| == |offsets|
    ensures forall k :: 0 <= k < |offsets| ==> Urls(url, offsets)[k] == PageUrl(url, offsets[k])
  {
    if offsets != [] {
      var p := offsets[..|offsets| - 1];
      UrlsAt(url, p);
      forall k | 0 <= k < |offsets| ensures Urls(url, offsets)[k] == PageUrl(url, offsets[k]) {
        if k < |p| {
          assert offsets[k] == p[k];
        }
      }
    }
  }

  /** `scrape` requests `pages` URLs (none when `pages <= 0`), all different, the k-th one for
      offset `10 * k`. */
  lemma ScrapeRequests(url: string, pages: int)
    ensures |Urls(url, Offsets(pages))| == if pages > 0 then pages else 0
    ensures forall k :: 0 <= k < |Urls(url, Offsets(pages))| ==>
              Urls(url, Offsets(pages))[k] == PageUrl(url, PageStep * k)
    ensures forall i, j :: 0 <= i < j < |Urls(url, Offsets(pages))| ==>
              Urls(url, Offsets(pages))[i] != Urls(url, Offsets(pages))[j]
  {
    OffsetsSchedule(pages);
    UrlsAt(url, Offsets(pages));
    var us := Urls(url, Offsets(pages));
    forall i, j | 0 <= i < j < |us| ensures us[i] != us[j] {
      if us[i] == us[j] {
        PageUrlInjective(url, PageStep * i, PageStep * j);
      }
    }
  }

  class JobsScraper {
    const headers: Headers
    const url: string
    const pages: int
    var jobs: seq<JobRecord>

    /** `__init__`: the default headers updated with the caller's, and no jobs yet. */
    constructor (defaults: Headers, headers: Headers, url: string, pages: int)
      ensures this.headers == MergeHeaders(defaults, headers)
      ensures this.url == url && this.pages == pages
      ensures jobs == []
    {
      this.headers := MergeHeaders(defaults, headers);
      this.url := url;
      this.pages := pages;
      this.jobs := [];
    }

    /** `_extract_page`: request the page at `offset` and parse it into job cards. */
    method ExtractPage(fetch: string -> seq<Card>, offset: nat) returns (cards: seq<Card>, requested: string)
      ensures requested == PageUrl(url, offset)
      ensures cards == fetch(requested)
    {
      requested := PageUrl(url, offset);
      cards := fetch(requested);
    }

    /** `_transform_page`: append one record per card to `jobs`, in card order. */
    method TransformPage(cards: seq<Card>)
      modifies this`jobs
      ensures jobs == old(jobs) + Records(cards)
    {
      for k := 0 to |cards|
        invariant jobs == old(jobs) + Records(cards[..k])
      {
        var job := ToRecord(cards[k]);
        assert cards[..k + 1] == cards[..k] + [cards[k]];
        RecordsSnoc(cards[..k], cards[k]);
        ConcatAssoc(old(jobs), Records(cards[..k]), [job]);
        jobs := jobs + [job];
      }
      assert cards[..|cards|] == cards;
    }

    /** `scrape`: fetch and transform the page at every offset of `range(0, pages * 10, 10)`,
        then return the collected records with exact duplicates dropped. `jobs` keeps every
        record, duplicates included, on top of whatever earlier calls collected. */
    method Scrape(fetch: string -> seq<Card>) returns (table: seq<JobRecord>, ghost requested: seq<string>)
      modifies this`jobs
      ensures requested == Urls(url, Offsets(pages))
      ensures jobs == old(jobs) + Collected(fetch, url, Offsets(pages))
      ensures table == DropDuplicates(jobs)
    {
      var stop := pages * PageStep;
      var i: nat := 0;
      ghost var visited: seq<nat> := [];
      requested := [];
      while i < stop
        invariant Offsets(pages) == visited + Range(i, stop, PageStep)
        invariant requested == Urls(url, visited)
        invariant jobs == old(jobs) + Collected(fetch, url, visited)
        decreases stop - i
      {
        var cards, u := ExtractPage(fetch, i);
        TransformPage(cards);
        CollectedSnoc(fetch, url, visited, i);
        ConcatAssoc(old(jobs), Collected(fetch, url, visited), Records(cards));
        UrlsSnoc(url, visited, i);
        assert Range(i, stop, PageStep) == [i] + Range(i + PageStep, stop, PageStep);
        ConcatAssoc(visited, [i], Range(i + PageStep, stop, PageStep));
        visited := visited + [i];
        requested := requested + [u];
        i := i + PageStep;
      }
      assert visited + [] == visited;
      table := DropDuplicates(jobs);
    }
  }

  /** Calling `scrape` twice on one scraper, with the site serving the same cards both times:
      `jobs` ends up holding every collected record twice, yet both calls return the same
      table, which has no duplicate rows. */
  method ScrapeTwice(defaults: Headers, headers: Headers, url: string, pages: int, fetch: string -> seq<Card>)
    returns (first: seq<JobRecord>, second: seq<JobRecord>, jobs: seq<JobRecord>)
    ensures var c := Collected(fetch, url, Offsets(pages));
            jobs == c + c &&
            (c != [] ==> !NoDuplicates(jobs))
    ensures second == first && NoDuplicates(second)
  {
    var scraper := new JobsScraper(defaults, headers, url, pages);
    ghost var u;
    first, u := scraper.Scrape(fetch);
    second, u := scraper.Scrape(fetch);
    jobs := scraper.jobs;
    ghost var c := Collected(fetch, url, Offsets(pages));
    assert jobs == [] + c + c;
    if c != [] {
      RepeatedHasDuplicates([], c);
    }
    assert [] + c == c;
    DropDuplicatesAbsorbsSeen(c, c);
  }

  /** One result page holding the same card twice: `scrape` with `pages = 1` requests only
      offset 0, keeps both records in `jobs`, and returns a single row. When the card has
      no salary element, that row's salary is `None` while its other columns are resolved
      as usual. */
  method ScrapeDuplicateCards(card: Card, url: string) returns (table: seq<JobRecord>, jobs: seq<JobRecord>)
    ensures jobs == [ToRecord(card), ToRecord(card)]
    ensures table == [ToRecord(card)]
    ensures card.salary == None ==> table[0].salary == None
  {
    var scraper := new JobsScraper(map[], map["User-Agent" := "agent"], url, 1);
    ghost var requested;
    table, requested := scraper.Scrape(u => [card, card]);
    jobs := scraper.jobs;
    assert Offsets(1) == [0];
    RecordsSnoc([card], card);
    assert Records([card, card]) == [ToRecord(card), ToRecord(card)];
    assert DropDuplicates([ToRecord(card)]) == [ToRecord(card)];
    ToRecordColumn(card, Salary);
  }
}

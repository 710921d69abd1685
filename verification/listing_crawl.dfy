/**
 * The listing crawl around `scrape_page` (hf_org_scraper.py): the text
 * checkpoint, the three-column CSV, the choice of start page and resume flag,
 * the page loop of `run`, and the `--reset` handling of `main`.
 *
 * Files are values: `None` is a file that does not exist, the checkpoint file
 * is its text, and the CSV is its list of lines, each a list of cells.
 */
module ListingCrawl {
  import opened Wrappers
  import opened Strings
  import opened Seqs
  import opened ListingFetch

  const StartPage: int := 0
  const EndPage: int := 6614
  const DelayBetweenPages: nat := 1
  const CsvHeader: seq<string> := ["organization_name", "organization_url", "page_number"]

  type Csv = seq<seq<string>>

  datatype Files = Files(checkpoint: Option<string>, csv: Option<Csv>)

  /** One CSV data row: an organisation and the page it was listed on. */
  datatype Row = Row(name: string, url: string, page: int)

  // ---------------------------------------------------------------------------
  // Checkpoint file
  // ---------------------------------------------------------------------------

  /** `save_checkpoint`: the file holds `str(page)`. */
  function CheckpointText(page: int): string {
    IntToString(page)
  }

  /** `get_last_checkpoint`: the stored page, or -1 when the file is missing or not an integer. */
  function LastCheckpoint(file: Option<string>): (c: int)
    // A missing file is the `exists()` test failing; unparsable text is the `except` branch.
    ensures file.None? ==> c == -1
    ensures file.Some? && ParseInt(file.value).None? ==> c == -1
  {
    match file
    case None => -1
    case Some(text) => ParseInt(text).GetOr(-1)
  }

  /** What `save_checkpoint` writes, `get_last_checkpoint` reads back. */
  lemma CheckpointRoundTrip(page: int)
    ensures LastCheckpoint(Some(CheckpointText(page))) == page
  {
    ParseIntOfIntToString(page);
  }

  // ---------------------------------------------------------------------------
  // CSV file
  // ---------------------------------------------------------------------------

  function CsvLine(row: Row): seq<string> {
    [row.name, row.url, IntToString(row.page)]
  }

  function CsvLines(rows: seq<Row>): Csv {
    seq(|rows|, i requires 0 <= i < |rows| => CsvLine(rows[i]))
  }

  lemma CsvLinesAppend(a: seq<Row>, b: seq<Row>)
    ensures CsvLines(a + b) == CsvLines(a) + CsvLines(b)
  {
  }

  /** The rows `append_to_csv` writes for one page: every organisation, tagged with the page. */
  function Tag(orgs: seq<Org>, page: int): seq<Row> {
    seq(|orgs|, i requires 0 <= i < |orgs| => Row(orgs[i].name, orgs[i].url, page))
  }

  /**
   * `init_csv`: truncate and write the header unless resuming onto an
   * existing file, which is then left as it is.
   */
  function InitCsv(csv: Option<Csv>, resume: bool): (r: Option<Csv>)
    // The two cases of `if not resume or not OUTPUT_CSV.exists()` (hf_org_scraper.py:82).
    ensures !resume || csv.None? ==> r == Some([CsvHeader])
    ensures resume && csv.Some? ==> r == csv
  {
    if !resume || csv.None? then Some([CsvHeader]) else csv
  }

  /** `append_to_csv`: opened in append mode, so a missing file is created without a header. */
  function AppendToCsv(csv: Option<Csv>, orgs: seq<Org>, page: int): Option<Csv> {
    Some(csv.GetOr([]) + CsvLines(Tag(orgs, page)))
  }

  // ---------------------------------------------------------------------------
  // Start page and resume flag
  // ---------------------------------------------------------------------------

  datatype StartPlan = StartPlan(start: int, resume: bool)

  /** The start of `run`: an explicit start page wins; otherwise resume after the checkpoint. */
  function PlanStart(startArg: Option<int>, checkpoint: Option<string>, csvExists: bool): (p: StartPlan)
    // No `--start` with a checkpoint, no `--start` without one, and an explicit start (hf_org_scraper.py:209-218).
    ensures startArg.None? && LastCheckpoint(checkpoint) >= 0 ==>
      p == StartPlan(LastCheckpoint(checkpoint) + 1, true)
    ensures startArg.None? && LastCheckpoint(checkpoint) < 0 ==> p == StartPlan(StartPage, false)
    ensures startArg.Some? ==> p == StartPlan(startArg.value, startArg.value > 0 && csvExists)
  {
    var last := LastCheckpoint(checkpoint);
    match startArg
    case None => if last >= 0 then StartPlan(last + 1, true) else StartPlan(StartPage, false)
    case Some(s) => StartPlan(s, s > 0 && csvExists)
  }

  /** A run without an explicit start resumes on the page after the one last saved. */
  lemma ResumeAfterSavedPage(page: int, csvExists: bool)
    requires page >= 0
    ensures PlanStart(None, Some(CheckpointText(page)), csvExists) == StartPlan(page + 1, true)
  {
    CheckpointRoundTrip(page);
  }

  // ---------------------------------------------------------------------------
  // The page loop
  // ---------------------------------------------------------------------------

  /** Index of the first failed page, or the number of pages when none failed. */
  function StopIndex(results: seq<Option<seq<Org>>>): (k: nat)
    ensures k <= |results|
    ensures forall i :: 0 <= i < k ==> results[i].Some?
    ensures k < |results| ==> results[k].None?
  {
    if |results| == 0 || results[0].None? then 0 else 1 + StopIndex(results[1..])
  }

  /**
   * What the loop did: the files it left, the rows it appended, the last page it
   * saved as checkpoint (None: it saved none) and the page it stopped on.
   */
  datatype Crawl = Crawl(files: Files, rows: seq<Row>, checkpoint: Option<int>, halted: Option<int>)

  /** One successful page: append its rows when there are any, then save the checkpoint. */
  function RecordPage(files: Files, orgs: seq<Org>, page: int): Files {
    var appended := if |orgs| > 0 then files.(csv := AppendToCsv(files.csv, orgs, page)) else files;
    appended.(checkpoint := Some(CheckpointText(page)))
  }

  /**
   * `for page_num in range(start_page, end_page + 1)`, where `results[k]` is what
   * `scrape_page` returned for page `page + k`. A None stops the loop.
   */
  function CrawlPages(page: int, results: seq<Option<seq<Org>>>, files: Files): (r: Crawl)
    decreases |results|
  {
    if |results| == 0 then
      Crawl(files, [], None, None)
    else if results[0].None? then
      Crawl(files, [], None, Some(page))
    else
      var orgs := results[0].value;
      var rest := CrawlPages(page + 1, results[1..], RecordPage(files, orgs, page));
      Crawl(rest.files, Tag(orgs, page) + rest.rows,
            if rest.checkpoint.Some? then rest.checkpoint else Some(page), rest.halted)
  }

  /** The rows of `rows` that belong to page `p`, in order. */
  function RowsOn(rows: seq<Row>, p: int): seq<Row> {
    if |rows| == 0 then []
    else (if rows[0].page == p then [rows[0]] else []) + RowsOn(rows[1..], p)
  }

  lemma {:induction false} RowsOnAppend(a: seq<Row>, b: seq<Row>, p: int)
    ensures RowsOn(a + b, p) == RowsOn(a, p) + RowsOn(b, p)
  {
    if |a| > 0 {
      assert (a + b)[0] == a[0];
      assert (a + b)[1..] == a[1..] + b;
      RowsOnAppend(a[1..], b, p);
    } else {
      assert a + b == b;
    }
  }

  lemma {:induction false} RowsOnNone(rows: seq<Row>, p: int)
    requires forall i :: 0 <= i < |rows| ==> rows[i].page != p
    ensures RowsOn(rows, p) == []
  {
    if |rows| > 0 {
      RowsOnNone(rows[1..], p);
    }
  }

  lemma {:induction false} RowsOnAll(rows: seq<Row>, p: int)
    requires forall i :: 0 <= i < |rows| ==> rows[i].page == p
    ensures RowsOn(rows, p) == rows
  {
    if |rows| > 0 {
      RowsOnAll(rows[1..], p);
    }
  }

  /**
   * The loop visits pages in ascending order and stops at the first None
   * without saving it. Every page before the stop is saved as checkpoint, so
   * the last saved page is the one just before the stop.
   */
  lemma {:induction false} CrawlStops(page: int, results: seq<Option<seq<Org>>>, files: Files)
    decreases |results|
    ensures var r := CrawlPages(page, results, files);
      var stop := StopIndex(results);
      && r.halted == (if stop < |results| then Some(page + stop) else None)
      && r.checkpoint == (if stop > 0 then Some(page + stop - 1) else None)
      && r.files.checkpoint == (if stop > 0 then Some(CheckpointText(page + stop - 1)) else files.checkpoint)
  {
    if |results| > 0 && results[0].Some? {
      CrawlStops(page + 1, results[1..], RecordPage(files, results[0].value, page));
    }
  }

  /** The rows of the loop lie on the pages before the stop, in ascending page order. */
  lemma {:induction false} CrawlRowPages(page: int, results: seq<Option<seq<Org>>>, files: Files)
    decreases |results|
    ensures PagesWithin(CrawlPages(page, results, files).rows, page, page + StopIndex(results))
  {
    if |results| > 0 && results[0].Some? {
      var orgs := results[0].value;
      var files' := RecordPage(files, orgs, page);
      CrawlRowPages(page + 1, results[1..], files');
      var rest := CrawlPages(page + 1, results[1..], files');
      assert StopIndex(results) == 1 + StopIndex(results[1..]);
      PagesAfter(Tag(orgs, page), rest.rows, page, page + StopIndex(results));
    }
  }

  /** Every row lies on a page in [lo, hi), and the pages ascend. */
  predicate PagesWithin(rows: seq<Row>, lo: int, hi: int) {
    && (forall i :: 0 <= i < |rows| ==> lo <= rows[i].page < hi)
    && (forall i, j :: 0 <= i < j < |rows| ==> rows[i].page <= rows[j].page)
  }

  lemma PagesAfter(head: seq<Row>, tail: seq<Row>, p: int, end: int)
    requires p < end
    requires forall i :: 0 <= i < |head| ==> head[i].page == p
    requires PagesWithin(tail, p + 1, end)
    ensures PagesWithin(head + tail, p, end)
  {
  }

  /**
   * For each page before the stop, the rows of that page are exactly the
   * organisations the page returned, each tagged with the page, in order. An
   * empty page contributes no rows.
   */
  lemma {:induction false} CrawlRows(page: int, results: seq<Option<seq<Org>>>, files: Files)
    decreases |results|
    ensures forall k :: 0 <= k < StopIndex(results) ==>
      RowsOn(CrawlPages(page, results, files).rows, page + k) == Tag(results[k].value, page + k)
  {
    if |results| > 0 && results[0].Some? {
      var orgs := results[0].value;
      var files' := RecordPage(files, orgs, page);
      CrawlRows(page + 1, results[1..], files');
      CrawlRowPages(page + 1, results[1..], files');
      var rest := CrawlPages(page + 1, results[1..], files');
      assert CrawlPages(page, results, files).rows == Tag(orgs, page) + rest.rows;
      forall k | 0 <= k < StopIndex(results)
        ensures RowsOn(Tag(orgs, page) + rest.rows, page + k) == Tag(results[k].value, page + k)
      {
        RowsOnAppend(Tag(orgs, page), rest.rows, page + k);
        if k == 0 {
          RowsOnFirstPage(orgs, page, rest.rows);
        } else {
          RowsOnNone(Tag(orgs, page), page + k);
          assert results[1..][k - 1] == results[k];
        }
      }
    }
  }

  lemma RowsOnFirstPage(orgs: seq<Org>, page: int, tail: seq<Row>)
    requires forall i :: 0 <= i < |tail| ==> tail[i].page > page
    ensures RowsOn(Tag(orgs, page), page) + RowsOn(tail, page) == Tag(orgs, page)
  {
    RowsOnAll(Tag(orgs, page), page);
    RowsOnNone(tail, page);
  }

  /**
   * The loop only appends to an existing CSV: its lines become the old lines
   * followed by one line per row.
   */
  lemma {:induction false} CrawlCsv(page: int, results: seq<Option<seq<Org>>>, files: Files)
    requires files.csv.Some?
    decreases |results|
    ensures CrawlPages(page, results, files).files.csv
      == Some(files.csv.value + CsvLines(CrawlPages(page, results, files).rows))
  {
    if |results| > 0 && results[0].Some? {
      var orgs := results[0].value;
      var files' := RecordPage(files, orgs, page);
      var rest := CrawlPages(page + 1, results[1..], files');
      assert files'.csv == Some(files.csv.value + CsvLines(Tag(orgs, page))) by {
        RecordPageCsv(files, orgs, page);
      }
      assert rest.files.csv == Some(files'.csv.value + CsvLines(rest.rows)) by {
        CrawlCsv(page + 1, results[1..], files');
      }
      assert CrawlPages(page, results, files).files == rest.files;
      assert CrawlPages(page, results, files).rows == Tag(orgs, page) + rest.rows;
      CsvLinesAfter(files.csv.value, Tag(orgs, page), rest.rows);
    } else {
      assert CsvLines([]) == [];
      assert files.csv.value + [] == files.csv.value;
    }
  }

  lemma RecordPageCsv(files: Files, orgs: seq<Org>, page: int)
    requires files.csv.Some?
    ensures RecordPage(files, orgs, page).csv == Some(files.csv.value + CsvLines(Tag(orgs, page)))
  {
    if |orgs| == 0 {
      assert CsvLines(Tag(orgs, page)) == [];
      assert files.csv.value + [] == files.csv.value;
    }
  }

  lemma CsvLinesAfter(prior: Csv, a: seq<Row>, b: seq<Row>)
    ensures (prior + CsvLines(a)) + CsvLines(b) == prior + CsvLines(a + b)
  {
    CsvLinesAppend(a, b);
  }

  /** A crawl that runs `a` and then, from where it ended, `b`. */
  function Then(first: Crawl, second: Crawl): Crawl {
    Crawl(second.files, first.rows + second.rows,
          if second.checkpoint.Some? then second.checkpoint else first.checkpoint, second.halted)
  }

  /**
   * Interrupting the loop after any run of successful pages and continuing
   * from the next page gives the same files, rows, checkpoint and stop as one
   * uninterrupted loop.
   */
  lemma {:induction false} CrawlSplit(page: int, a: seq<Option<seq<Org>>>, b: seq<Option<seq<Org>>>, files: Files)
    requires forall i :: 0 <= i < |a| ==> a[i].Some?
    decreases |a|
    ensures var first := CrawlPages(page, a, files);
      CrawlPages(page, a + b, files) == Then(first, CrawlPages(page + |a|, b, first.files))
  {
    if |a| == 0 {
      assert a + b == b;
    } else {
      var files' := RecordPage(files, a[0].value, page);
      var head := Tag(a[0].value, page);
      assert (a + b)[0] == a[0];
      assert (a + b)[1..] == a[1..] + b;
      CrawlSplit(page + 1, a[1..], b, files');
      var restA := CrawlPages(page + 1, a[1..], files');
      var second := CrawlPages(page + |a|, b, restA.files);
      var whole := CrawlPages(page + 1, a[1..] + b, files');
      assert whole == Then(restA, second);
      assert CrawlPages(page, a, files) == Crawl(restA.files, head + restA.rows,
        if restA.checkpoint.Some? then restA.checkpoint else Some(page), restA.halted);
      assert CrawlPages(page, a + b, files) == Crawl(whole.files, head + whole.rows,
        if whole.checkpoint.Some? then whole.checkpoint else Some(page), whole.halted);
      assert head + (restA.rows + second.rows) == (head + restA.rows) + second.rows;
    }
  }

  // ---------------------------------------------------------------------------
  // run() and main()
  // ---------------------------------------------------------------------------

  /** The number of pages in `range(start, end + 1)`. */
  function PageCount(start: int, end: int): nat {
    if end < start then 0 else end - start + 1
  }

  /** What a run decided and did, with every sleep it made in order. */
  datatype ListingRun = ListingRun(plan: StartPlan, crawl: Crawl, sleeps: seq<nat>)

  /** The page outcomes fit the run: one outcome sequence per page, long enough for every retry. */
  predicate OutcomesFit(outcomes: seq<seq<Attempt>>, count: nat) {
    |outcomes| >= count && forall k :: 0 <= k < |outcomes| ==> |outcomes[k]| >= MaxRetries
  }

  /** The result of `scrape_page` for each page of the run, in page order. */
  function PageResults(outcomes: seq<seq<Attempt>>, count: nat, clean: string -> string): (results: seq<Option<seq<Org>>>)
    requires OutcomesFit(outcomes, count)
    ensures |results| == count
  {
    seq(count, k requires 0 <= k < count => ScrapePage(outcomes[k], clean).orgs)
  }

  /** What `scrape_page` did for each page of the run, in page order. */
  function PageFetches(outcomes: seq<seq<Attempt>>, count: nat, clean: string -> string): (fetches: seq<PageFetch>)
    requires OutcomesFit(outcomes, count)
    ensures |fetches| == count
  {
    seq(count, k requires 0 <= k < count => ScrapePage(outcomes[k], clean))
  }

  /**
   * The sleeps of the page loop: each visited page's retry sleeps, then the
   * pause between pages after every page that succeeded. The failing page
   * ends the loop without a pause.
   */
  function RunSleeps(fetches: seq<PageFetch>): seq<nat> {
    if |fetches| == 0 then []
    else if fetches[0].orgs.None? then fetches[0].sleeps
    else fetches[0].sleeps + [DelayBetweenPages] + RunSleeps(fetches[1..])
  }

  /** One page sleeps at most three times, never longer than the rate-limit wait. */
  lemma PageSleepBound(outcomes: seq<Attempt>, clean: string -> string)
    requires |outcomes| >= MaxRetries
    ensures Total(ScrapePage(outcomes, clean).sleeps) <= MaxRetries * RateLimitWait
  {
    var f := ScrapePage(outcomes, clean);
    forall k | 0 <= k < |f.sleeps|
      ensures f.sleeps[k] <= RateLimitWait
    {
    }
    TotalBound(f.sleeps, RateLimitWait);
  }

  /** The loop sleeps at most 91 seconds per page it is given: three 30-second waits and a pause. */
  lemma {:induction false} RunSleepBound(outcomes: seq<seq<Attempt>>, clean: string -> string, fetches: seq<PageFetch>)
    requires |outcomes| >= |fetches|
    requires forall k :: 0 <= k < |fetches| ==> |outcomes[k]| >= MaxRetries && fetches[k] == ScrapePage(outcomes[k], clean)
    ensures Total(RunSleeps(fetches)) <= |fetches| * (MaxRetries * RateLimitWait + DelayBetweenPages)
  {
    if |fetches| > 0 {
      PageSleepBound(outcomes[0], clean);
      if fetches[0].orgs.Some? {
        assert forall k :: 0 <= k < |fetches| - 1 ==> outcomes[1..][k] == outcomes[k + 1] && fetches[1..][k] == fetches[k + 1];
        RunSleepBound(outcomes[1..], clean, fetches[1..]);
        TotalAppend(fetches[0].sleeps + [DelayBetweenPages], RunSleeps(fetches[1..]));
        TotalAppend(fetches[0].sleeps, [DelayBetweenPages]);
      }
    }
  }

  /** A run sleeps at most 91 seconds for each page in its range. */
  lemma ListingSleepBound(files: Files, startArg: Option<int>, endArg: Option<int>,
                          outcomes: seq<seq<Attempt>>, clean: string -> string)
    requires OutcomesFit(outcomes, PageCount(PlanStart(startArg, files.checkpoint, files.csv.Some?).start, endArg.GetOr(EndPage)))
    ensures var run := RunListing(files, startArg, endArg, outcomes, clean);
      Total(run.sleeps) <= PageCount(run.plan.start, endArg.GetOr(EndPage)) * (MaxRetries * RateLimitWait + DelayBetweenPages)
  {
    var plan := PlanStart(startArg, files.checkpoint, files.csv.Some?);
    var count := PageCount(plan.start, endArg.GetOr(EndPage));
    RunSleepBound(outcomes, clean, PageFetches(outcomes, count, clean));
  }

  /**
   * `run(start_page, end_page)`: plan the start, initialise the CSV, then crawl
   * from the start page to the end page. `outcomes[k]` is what the fetches of
   * page `start + k` return.
   */
  function RunListing(files: Files, startArg: Option<int>, endArg: Option<int>,
                      outcomes: seq<seq<Attempt>>, clean: string -> string): ListingRun
    requires OutcomesFit(outcomes, PageCount(PlanStart(startArg, files.checkpoint, files.csv.Some?).start, endArg.GetOr(EndPage)))
  {
    var plan := PlanStart(startArg, files.checkpoint, files.csv.Some?);
    var count := PageCount(plan.start, endArg.GetOr(EndPage));
    var init := files.(csv := InitCsv(files.csv, plan.resume));
    ListingRun(plan, CrawlPages(plan.start, PageResults(outcomes, count, clean), init),
               RunSleeps(PageFetches(outcomes, count, clean)))
  }

  datatype Args = Args(start: Option<int>, end: int, reset: bool)

  /** The files and start page `main` hands to `run`: `--reset` deletes both files and starts at 0. */
  function Prepare(args: Args, files: Files): (Files, Option<int>) {
    if args.reset then (Files(None, None), Some(0)) else (files, args.start)
  }

  /** `main`: apply `--reset`, then run. */
  function RunMain(args: Args, files: Files, outcomes: seq<seq<Attempt>>, clean: string -> string): ListingRun
    requires var (f, s) := Prepare(args, files);
      OutcomesFit(outcomes, PageCount(PlanStart(s, f.checkpoint, f.csv.Some?).start, args.end))
  {
    var (f, s) := Prepare(args, files);
    RunListing(f, s, Some(args.end), outcomes, clean)
  }

  /**
   * After `--reset` the run starts at page 0 with a fresh CSV: the header, then
   * one line per row. The checkpoint file exists exactly when some page was
   * saved, and holds the last page before the stop.
   */
  lemma ResetStartsFresh(args: Args, files: Files, outcomes: seq<seq<Attempt>>, clean: string -> string)
    requires args.reset
    requires OutcomesFit(outcomes, PageCount(0, args.end))
    ensures var run := RunMain(args, files, outcomes, clean);
      && run.plan == StartPlan(0, false)
      && run.crawl.files.csv == Some([CsvHeader] + CsvLines(run.crawl.rows))
      && (run.crawl.files.checkpoint.Some? <==> run.crawl.checkpoint.Some?)
  {
    var run := RunMain(args, files, outcomes, clean);
    var results := PageResults(outcomes, PageCount(0, args.end), clean);
    var init := Files(None, Some([CsvHeader]));
    CrawlCsv(0, results, init);
    CrawlStops(0, results, init);
  }

  /**
   * The saved state always matches the CSV: every row the loop appends belongs
   * to a page between its first page and the page the checkpoint file names,
   * and that file holds the last page the loop saved.
   */
  lemma CheckpointCoversRows(page: int, results: seq<Option<seq<Org>>>, files: Files)
    ensures var r := CrawlPages(page, results, files);
      && (r.checkpoint.Some? ==> r.files.checkpoint == Some(CheckpointText(r.checkpoint.value)))
      && (|r.rows| > 0 ==> r.checkpoint.Some?)
      && forall i :: 0 <= i < |r.rows| ==> page <= r.rows[i].page <= r.checkpoint.value
  {
    CrawlStops(page, results, files);
    CrawlRowPages(page, results, files);
  }

  /**
   * A loop that stopped on page `page + h` and a later loop started on that
   * page together do what one loop over the successful pages followed by the
   * later loop's pages does.
   */
  lemma CrawlResume(page: int, results1: seq<Option<seq<Org>>>, results2: seq<Option<seq<Org>>>, files: Files)
    requires StopIndex(results1) < |results1|
    ensures var h := StopIndex(results1);
      var first := CrawlPages(page, results1, files);
      Then(first, CrawlPages(page + h, results2, first.files)) == CrawlPages(page, results1[..h] + results2, files)
  {
    var h := StopIndex(results1);
    var a := results1[..h];
    var A := CrawlPages(page, a, files);
    var B := CrawlPages(page + h, results2, A.files);
    HaltedCrawl(page, results1, files);
    assert CrawlPages(page, a + results2, files) == Then(A, B) by {
      CrawlSplit(page, a, results2, files);
    }
  }

  /** A loop that stops ends as the loop over the pages before the stop, plus the stop. */
  lemma HaltedCrawl(page: int, results: seq<Option<seq<Org>>>, files: Files)
    requires StopIndex(results) < |results|
    ensures var h := StopIndex(results);
      var a := CrawlPages(page, results[..h], files);
      CrawlPages(page, results, files) == Crawl(a.files, a.rows, a.checkpoint, Some(page + h))
  {
    var h := StopIndex(results);
    var a := results[..h];
    var A := CrawlPages(page, a, files);
    assert CrawlPages(page, results, files) == Then(A, CrawlPages(page + h, results[h..], A.files)) by {
      assert results == a + results[h..];
      CrawlSplit(page, a, results[h..], files);
    }
    assert CrawlPages(page + h, results[h..], A.files) == Crawl(A.files, [], None, Some(page + h)) by {
      assert results[h..][0].None?;
    }
    assert A.rows + [] == A.rows;
  }

  /** With `--reset` the run starts on page 0 from no checkpoint and a CSV holding only the header. */
  lemma ResetRun(args: Args, files: Files, outcomes: seq<seq<Attempt>>, clean: string -> string)
    requires args.reset
    requires OutcomesFit(outcomes, PageCount(0, args.end))
    ensures RunMain(args, files, outcomes, clean).plan == StartPlan(0, false)
    ensures RunMain(args, files, outcomes, clean).crawl
      == CrawlPages(0, PageResults(outcomes, PageCount(0, args.end), clean), Files(None, Some([CsvHeader])))
  {
  }

  /** The results of the first `m` pages are a prefix of the results of the first `n`. */
  lemma PageResultsPrefix(outcomes: seq<seq<Attempt>>, n: nat, m: nat, clean: string -> string)
    requires m <= n && OutcomesFit(outcomes, n)
    ensures PageResults(outcomes, n, clean)[..m] == PageResults(outcomes, m, clean)
  {
  }

  /**
   * A run without a start page on files whose checkpoint names page `h - 1`
   * and whose CSV exists resumes on page `h` and keeps the CSV as it is.
   */
  lemma ResumeRun(files: Files, end: int, outcomes: seq<seq<Attempt>>, clean: string -> string, h: int)
    requires h > 0 && files.checkpoint == Some(CheckpointText(h - 1)) && files.csv.Some?
    requires OutcomesFit(outcomes, PageCount(h, end))
    ensures PlanStart(None, files.checkpoint, true) == StartPlan(h, true)
    ensures RunListing(files, None, Some(end), outcomes, clean).plan == StartPlan(h, true)
    ensures RunListing(files, None, Some(end), outcomes, clean).crawl
      == CrawlPages(h, PageResults(outcomes, PageCount(h, end), clean), files)
  {
    ResumeAfterSavedPage(h - 1, true);
    assert files.(csv := InitCsv(files.csv, true)) == files;
  }


  /**
   * Three pages from a fresh start: one organisation, none, one organisation.
   * The empty page adds no line but is still saved, so the CSV holds the header
   * and two lines and the checkpoint names page 2.
   */
  lemma ThreePageRun(acme: Org, beta: Org)
    ensures CrawlPages(0, [Some([acme]), Some([]), Some([beta])], Files(None, Some([CsvHeader])))
      == Crawl(Files(Some("2"), Some([CsvHeader, [acme.name, acme.url, "0"], [beta.name, beta.url, "2"]])),
               [Row(acme.name, acme.url, 0), Row(beta.name, beta.url, 2)], Some(2), None)
  {
    var results := [Some([acme]), Some([]), Some([beta])];
    var lineA := [acme.name, acme.url, "0"];
    var lineB := [beta.name, beta.url, "2"];
    var rowA := [Row(acme.name, acme.url, 0)];
    var rowB := [Row(beta.name, beta.url, 2)];
    assert CheckpointText(0) == "0" && CheckpointText(1) == "1" && CheckpointText(2) == "2";
    var f0 := Files(None, Some([CsvHeader]));
    var f1 := Files(Some("0"), Some([CsvHeader, lineA]));
    var f2 := Files(Some("1"), Some([CsvHeader, lineA]));
    var f3 := Files(Some("2"), Some([CsvHeader, lineA, lineB]));
    assert Tag([acme], 0) == rowA && CsvLines(rowA) == [lineA];
    assert Tag([beta], 2) == rowB && CsvLines(rowB) == [lineB];
    assert AppendToCsv(f0.csv, [acme], 0) == Some([CsvHeader] + [lineA]);
    assert [CsvHeader] + [lineA] == [CsvHeader, lineA];
    assert RecordPage(f0, [acme], 0) == f1;
    assert RecordPage(f1, [], 1) == f2;
    assert AppendToCsv(f2.csv, [beta], 2) == Some([CsvHeader, lineA] + [lineB]);
    assert [CsvHeader, lineA] + [lineB] == [CsvHeader, lineA, lineB];
    assert RecordPage(f2, [beta], 2) == f3;
    assert results[1..] == [Some([]), Some([beta])];
    assert results[1..][1..] == [Some([beta])];
    assert CrawlPages(3, [], f3) == Crawl(f3, [], None, None);
    assert CrawlPages(2, [Some([beta])], f2) == Crawl(f3, rowB, Some(2), None) by {
      assert [Some([beta])][1..] == [];
      assert rowB + [] == rowB;
    }
    assert CrawlPages(1, results[1..], f1) == Crawl(f3, rowB, Some(2), None) by {
      assert Tag([], 1) == [];
      assert [] + rowB == rowB;
    }
  }

}

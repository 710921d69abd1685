# Hugging Face organisation harvester, modelled in Dafny

This project models the decision logic of three crawlers that collect Hugging Face organisations.

- **Listing crawl** (`hf_org_scraper.py`). `scrape_page` fetches one page of the organisation listing. It makes up to three attempts, and a 429 answer costs a 30-second wait. It keeps the anchors whose href is a single-segment organisation path and whose text mentions followers. Each (name, url) pair is kept once. `run` chooses a start page from the text checkpoint or from the `--start` argument, and decides whether the CSV is truncated. It then walks the pages in ascending order, appends one CSV line per organisation and saves each successful page as the checkpoint. It stops at the first page that fails. `main --reset` deletes both files and starts at page 0.
- **Detail crawl** (`phase2_detail_scraper.py`). `make_request_with_retry` makes up to three requests on the delay schedule 30, 60 and 180 seconds. `extract_links_by_pattern` and `extract_organization_details` build an eleven-field record from a fetched page: links, location, description, counts, date, status and timestamp. The JSON checkpoint holds the last processed index and every entry written so far. At start-up its entries are restored into the table. `run_phase2_scraping` then processes, from that index on, every row whose status is not "success", and saves a checkpoint entry for each one.
- **Profile scraper** (`huggingface_scraper.py`). The answers of the extraction service are validated. `extract_social_media` sorts a profile's links into five named slots. `scrape_page` assembles one record per organisation and skips the organisations it cannot use.

Files:

- `wrappers.dfy`: `Option`.
- `strings.dfy`: the Python string operations the code relies on. These are `startswith`, `in`, `count`, `strip`, `lower`, `split`, `join`, `int()`/`str()` and the first `\d+` match.
- `seqs.dfy`: duplicate-free sequences, first-occurrence dedupe, sums of sleep durations and subsequences.
- `listing_fetch.dfy`, `listing_crawl.dfy`: the listing crawl.
- `detail_fetch.dfy`, `detail_crawl.dfy`: the detail crawl.
- `social_links.dfy`: the profile scraper.

Anything outside the program becomes an input. The network is a sequence of per-attempt outcomes. A parsed page is its anchors, or its element texts. Each file is a value. The clock is a parameter. Each sleep is recorded in a list of durations instead of being slept. The regular-expression clean-up of organisation names and `urljoin` are function parameters.

### Where the code and its own comments differ

The model follows the code in each case below.

- **A 429 consumes an attempt.** The comment at `hf_org_scraper.py:178` says a rate-limit answer is not counted as a failed attempt. The `continue` at `hf_org_scraper.py:179` moves to the next iteration of `for attempt in range(MAX_RETRIES)` (`hf_org_scraper.py:107`), so a 429 does use up an attempt, and three 429 answers end the page with `None`.
- **The rate-limit wait is 30 seconds.** The comment at `hf_org_scraper.py:175` and the log message at `hf_org_scraper.py:176` say "3 minutes". The wait is `RATE_LIMIT_WAIT = 30` (`hf_org_scraper.py:30`).
- **Not every retry waits.** The docstring at `phase2_detail_scraper.py:137` speaks of progressive retry delays. In `make_request_with_retry`:
  - a 429 waits the attempt's delay, the last attempt included;
  - an exception waits only before the last attempt;
  - any other non-200 status is retried at once.

  So three exceptions sleep 90 seconds in all, and three 404 answers sleep nothing.

Two further points about the code, which no comment contradicts:

- **Checkpoint write failures are swallowed.** The detail crawl logs them and carries on (`phase2_detail_scraper.py:102-103`). A write that fails after the file was truncated leaves an unreadable checkpoint, and the next start then begins again from index 0.
- **The detail crawl resumes at the index it saved.** It starts at `last_processed_index` itself, not one past it (`phase2_detail_scraper.py:315-320`). The row found there is skipped only if its restored status is "success".

## Model

| member | source | states |
|---|---|---|
| ListingFetch.OrgHrefShape | hf_org_scraper.py:126-132 | An href passes the filter exactly when it is "/" followed by one non-empty path segment that does not start with "#" and is not a reserved navigation path. |
| ListingFetch.ExtractOrgsSpec | hf_org_scraper.py:121-168 | The organisations of a fetched page are exactly those built from admitted anchors (org href and "follower" in the lower-cased text). There are no duplicate (name, url) pairs, and first-occurrence order is kept. |
| ListingFetch.ExtractedOrgsComeFromOrgLinks | hf_org_scraper.py:126-164 | Every returned organisation's url is the Hugging Face base followed by an href of the admitted shape. |
| Seqs.Dedupe | hf_org_scraper.py:166-168 | Duplicate removal keeps exactly the elements of its input, each once, in the order they first occur. |
| Strings.BeforeFirst | hf_org_scraper.py:146 | The part before the first bullet is a prefix of the text that holds no bullet, and the bullet follows it unless the text ends there. |
| Strings.Trim | hf_org_scraper.py:146 | The stripped text is an infix of the original with only white space cut from either side, and it neither starts nor ends with white space. |
| Strings.ParseIntOfIntToString | hf_org_scraper.py:70 | Parsing the decimal form of any integer, the sign included, gives that integer back. |
| Strings.FirstDigitRun | phase2_detail_scraper.py:263-264 | There is no match exactly when the text has no digit. Otherwise the match is the first maximal run of digits. |
| Strings.Join | phase2_detail_scraper.py:273-275 | Joining no parts gives the empty string, joining one part gives that part, and a join otherwise starts with its first part. |
| Strings.JoinLength | phase2_detail_scraper.py:273-275 | A join of one or more parts is as long as all the parts together plus one separator between each two of them. |
| Strings.JoinPart | phase2_detail_scraper.py:273-275 | Part k appears in the join unchanged, starting after every earlier part and its separator. |
| Strings.JoinSeparator | phase2_detail_scraper.py:273-275 | Between the end of part k and the start of part k + 1 lies exactly the separator. |
| Strings.JoinContainsAll | huggingface_scraper.py:207 | Every part occurs as a substring of the join. |
| ListingFetch.RetryFrom | hf_org_scraper.py:107-196 | From attempt k the loop fetches at least once and at most 3 - k times, and sleeps at most once per fetch. |
| ListingFetch.RetryFromResult | hf_org_scraper.py:107-196 | The loop gets a page exactly when a remaining attempt succeeds. The page comes from the first such attempt, which is the last fetch. Without a success every attempt is used. |
| ListingFetch.RetryFromSleeps | hf_org_scraper.py:173-194 | Each failed attempt except a final non-429 one is followed by one sleep: 30 s after a 429, 5 s after any other failure. |
| ListingFetch.ScrapePage | hf_org_scraper.py:95-196 | At most three fetches. The result is the organisations of the first successful fetch, or None when none of the three succeeds, and the sleeps match the failures that came before. |
| ListingFetch.ThreeRateLimitsGiveUp | hf_org_scraper.py:173-179 | Three 429 answers in a row end the page with None after three 30-second waits. |
| ListingFetch.ThreeFailuresSleepTwice | hf_org_scraper.py:180-194 | Three transient failures end the page with None after exactly two 5-second waits. |
| ListingCrawl.LastCheckpoint | hf_org_scraper.py:65-73 | A missing checkpoint file or one that does not hold an integer reads as -1. |
| ListingCrawl.CheckpointRoundTrip | hf_org_scraper.py:65-78 | Reading the checkpoint back gives the page that was saved. |
| ListingCrawl.InitCsv | hf_org_scraper.py:80-86 | The CSV is replaced by the three-column header exactly when not resuming or when it is absent. Otherwise it is left untouched. |
| ListingCrawl.PlanStart | hf_org_scraper.py:207-218 | With no start argument: checkpoint c >= 0 gives start c + 1 with resume on, otherwise START_PAGE with resume off. With a start argument s: resume is on exactly when s > 0 and the CSV exists. |
| ListingCrawl.ResumeAfterSavedPage | hf_org_scraper.py:207-213 | After page p was saved, a run without a start argument resumes at p + 1. |
| ListingCrawl.StopIndex | hf_org_scraper.py:230-246 | Every page before the stop index returned a list, and the page at the stop index returned None. |
| ListingCrawl.CrawlStops | hf_org_scraper.py:230-246 | The loop halts on the first page that failed, without saving it. The checkpoint names the page just before the stop, or stays unchanged when the first page failed. |
| ListingCrawl.CrawlRowPages | hf_org_scraper.py:230-236 | Every appended row belongs to a visited page before the stop, and row pages never decrease. |
| ListingCrawl.CrawlRows | hf_org_scraper.py:233-239 | For each page before the stop, that page's rows are its organisations in returned order, each tagged with the page number. An empty page adds no row. |
| ListingCrawl.CrawlCsv | hf_org_scraper.py:88-93 | The loop only appends: the CSV becomes its old lines followed by one line per row. |
| ListingCrawl.CheckpointCoversRows | hf_org_scraper.py:233-239 | The checkpoint file holds the last saved page, and every appended row lies between the first page and that page. |
| ListingCrawl.CrawlSplit | hf_org_scraper.py:230-249 | Interrupting after a run of successful pages and continuing from the next page gives the same files, rows, checkpoint and stop as one uninterrupted loop. |
| ListingCrawl.HaltedCrawl | hf_org_scraper.py:244-246 | A loop that stops ends in the same state as the loop over the pages before the stop, together with the stop page. |
| ListingCrawl.CrawlResume | hf_org_scraper.py:207-246 | A loop that stopped at page p, followed by a loop started at p, does the same as one loop over the successful pages and then the later pages. |
| ListingCrawl.PageSleepBound | hf_org_scraper.py:95-196 | One page sleeps at most 90 seconds in total. |
| ListingCrawl.RunSleepBound | hf_org_scraper.py:230-249 | The page loop sleeps at most 91 seconds per page: three rate-limit waits plus the pause between pages. |
| ListingCrawl.ListingSleepBound | hf_org_scraper.py:198-249 | A whole run sleeps at most 91 seconds for each page in its range. |
| ListingCrawl.ResumeRun | hf_org_scraper.py:207-224 | On files whose checkpoint names page h - 1 and whose CSV exists, a run without a start argument starts at h, resumes, and leaves the CSV as it is before looping. |
| ListingCrawl.ResetRun | hf_org_scraper.py:271-281 | With --reset the run starts at page 0 with resume off, from no checkpoint and a CSV holding only the header. |
| ListingCrawl.ResetStartsFresh | hf_org_scraper.py:271-281 | After --reset the CSV is the header followed by one line per appended row. The checkpoint file exists exactly when some page was saved. |
| ListingCrawl.ThreePageRun | hf_org_scraper.py:230-249 | Pages with one, zero and one organisation give the header and two lines, and leave the checkpoint at "2". |
| DetailFetch.RetryFrom | phase2_detail_scraper.py:142-161 | From attempt i the loop makes at least one and at most 3 - i requests. |
| DetailFetch.RetryFromSucceeds | phase2_detail_scraper.py:142-161 | A page is returned exactly when some remaining attempt answers 200, and the status is "success" exactly then. Otherwise the status is "failed_after_retries" after every remaining attempt was made. |
| DetailFetch.RetryFromFirstOk | phase2_detail_scraper.py:142-146 | The returned page is that of the last request made, the first one that answered 200. |
| DetailFetch.RetryFromSleeps | phase2_detail_scraper.py:147-159 | The sleeps are drawn from the remaining delay schedule, in order, each at most once. |
| DetailFetch.RetryFromSleepsExactly | phase2_detail_scraper.py:147-159 | The sleeps are, in attempt order, the delay of each attempt made whose reply is a 429, or an exception on an attempt before the last; no other attempt sleeps. |
| DetailFetch.RetryFromSleepRule | phase2_detail_scraper.py:143-159 | From attempt i on, each attempt made sleeps its own delay exactly when its reply is a 429, or an exception on an attempt before the last. |
| DetailFetch.RequestWithRetrySpec | phase2_detail_scraper.py:135-161 | One to three requests. The page and "success" come exactly when some attempt answers 200, and the page is that of the first 200; otherwise "failed_after_retries". The sleeps form a subsequence of 30, 60, 180. |
| DetailFetch.RequestWithRetrySleeps | phase2_detail_scraper.py:143-159 | Attempt k sleeps its delay exactly when its reply is a 429, or an exception on an attempt before the last, and the sleeps are exactly those delays in attempt order. |
| DetailFetch.ThreeExceptions | phase2_detail_scraper.py:154-159 | Three exceptions sleep 30 and then 60 seconds, and end with "failed_after_retries". |
| DetailFetch.ThreeRateLimits | phase2_detail_scraper.py:147-150 | Three 429 answers sleep 30, 60 and 180 seconds, the last attempt included. |
| DetailFetch.ThreeOtherErrors | phase2_detail_scraper.py:151-152 | Three answers with another error status make three requests without sleeping. |
| DetailFetch.RequestSleepBound | phase2_detail_scraper.py:38 | One request never sleeps more than the whole schedule, 270 seconds. |
| DetailFetch.LinksOf | phase2_detail_scraper.py:181 | Every link type gets a non-empty list. |
| DetailFetch.CollectMembers | phase2_detail_scraper.py:171-179 | The collected links are exactly the earlier ones plus every non-empty href, made absolute. |
| DetailFetch.LinksOfSpec | phase2_detail_scraper.py:163-183 | A link type whose matched anchors carry no non-empty href gets ["Null"]. Otherwise its links are exactly the non-empty hrefs, each with a relative href prefixed by the Hugging Face host. |
| DetailFetch.RepeatedRelativeHref | phase2_detail_scraper.py:174-179 | The duplicate test sees the raw href, so a relative href found twice is listed twice, and an absolute one once. |
| DetailFetch.CollectAbsolute | phase2_detail_scraper.py:171-179 | Without relative hrefs, collecting continues the first-occurrence dedupe of the non-empty hrefs. |
| DetailFetch.AbsoluteLinks | phase2_detail_scraper.py:163-183 | With absolute hrefs only, a link type lists each distinct non-empty href once, in the order first seen. |
| DetailFetch.FirstText | phase2_detail_scraper.py:185-191 | The text is that of the first selector that found an element, or "Null" when none did. |
| DetailFetch.CountStatsLastWins | phase2_detail_scraper.py:257-270 | Each count is the first digit run of the last element whose lower-cased text names it (member before model before dataset), or its previous value ("Null" at the start) when no element does. |
| DetailFetch.ExtractDetailsStatus | phase2_detail_scraper.py:202-300 | The status is "success" exactly when a request answered 200 and extraction raised nothing. Otherwise the nine content fields are "Null", and the status is "failed_after_retries" or "error: " followed by the message. The timestamp is the clock's. |
| DetailFetch.SuccessLinksNonEmpty | phase2_detail_scraper.py:272-284 | A successful record holds, for each link type, every link found (each occurs in the joined field), the field is "Null" when no matched anchor had a non-empty href, and the record is dated with today's date. |
| DetailCrawl.LoadCheckpoint | phase2_detail_scraper.py:79-90 | Loading gives the stored checkpoint, or index 0 with no entries when the file is missing or unreadable. |
| DetailCrawl.SaveCheckpoint | phase2_detail_scraper.py:92-103 | Saving always sets the index and appends exactly one entry in memory. A write that cannot open the file leaves the file as it was. |
| DetailCrawl.SaveThenLoad | phase2_detail_scraper.py:79-103 | After a successful write, the next start loads exactly the checkpoint held in memory. |
| DetailCrawl.TornWriteRestartsFromZero | phase2_detail_scraper.py:79-103 | A write that fails after truncating the file makes the next start begin at index 0 with no entries. |
| DetailCrawl.AddColumnsSpec | phase2_detail_scraper.py:122-124 | Existing columns keep their places. Afterwards each requested column is present, nothing else is added, and no column appears twice. |
| DetailCrawl.AddColumnsIdempotent | phase2_detail_scraper.py:122-124 | Adding the same columns a second time changes nothing. |
| DetailCrawl.Restored | phase2_detail_scraper.py:131-133 | An entry restores exactly its keys that are columns other than "index", with their values. |
| DetailCrawl.RestoreOne | phase2_detail_scraper.py:127-133 | Restoring one entry keeps the number of rows. A string index makes the start fail, because the comparison raises. |
| DetailCrawl.RestoreLastWins | phase2_detail_scraper.py:126-133 | Each cell holds the value of the last entry for its row that carries its column, or its original value when no entry does. |
| DetailCrawl.RestoreEntryRedoesUpdate | phase2_detail_scraper.py:359-360 | Restoring the entry the loop saved for a row writes the same eleven cells the loop wrote into it. |
| DetailCrawl.DetailCells | phase2_detail_scraper.py:336-337 | A record becomes exactly one cell per detail column, and the cell of each column holds the record's field of that name. |
| DetailCrawl.Process | phase2_detail_scraper.py:331-360 | Processing a row changes only that row and records it as processed. |
| DetailCrawl.RunFromProcesses | phase2_detail_scraper.py:320-333 | The loop processes exactly the rows from its start index whose status is not "success", each once, in ascending order. It never stops early. |
| DetailCrawl.RunFromRows | phase2_detail_scraper.py:325-337 | A processed row gets its record's cells, and every other row is left unchanged. |
| DetailCrawl.RunFromCheckpoint | phase2_detail_scraper.py:358-360 | The checkpoint in memory gains one entry per processed row, in processing order. |
| DetailCrawl.RunFromLastIndex | phase2_detail_scraper.py:92-95 | The checkpoint index ends at the last processed row, or is unchanged when no row was processed. |
| DetailCrawl.RunFromFile | phase2_detail_scraper.py:97-103 | When the write for the last processed row succeeds, a restart loads exactly the final checkpoint held in memory. |
| DetailCrawl.RunFromNothingPending | phase2_detail_scraper.py:320-328 | With every remaining row marked "success", the loop changes nothing. |
| DetailCrawl.RunPhase2Spec | phase2_detail_scraper.py:310-360 | A run starts at the loaded index itself and processes exactly the pending rows of the prepared table. Each processed row becomes the prepared row with its record's cells written over it; every other row stays as prepared. One checkpoint entry is appended per processed row. |
| DetailCrawl.ProcessedRowCells | phase2_detail_scraper.py:202-298 | A processed row's status cell is "success" exactly when some request answered 200 and extraction raised nothing. With no 200 it is "failed_after_retries", and when extraction raised it is "error: " and the message; in both cases the nine content cells are "Null". The timestamp cell is the clock's, and the checkpoint entry carries the row index. |
| DetailCrawl.RunPhase2RowStatus | phase2_detail_scraper.py:320-337 | After a run, a processed row is the prepared row with its record's cells written over it, so it counts as done exactly when one of its requests answered 200 and extraction raised nothing. |
| SocialLinks.OrgList | huggingface_scraper.py:74-86 | The listing is None exactly when the call raised. A dict answer whose "organizations" entry is a list gives exactly that list. Any other answer gives an empty list. |
| SocialLinks.Profile | huggingface_scraper.py:102-111 | The profile is None exactly when the call raised. A dict answer with a "company_name" or "social_links" key is returned unchanged. Any other answer gives the empty default profile. |
| SocialLinks.WithSlot | huggingface_scraper.py:142-151 | A classified link sets its own slot and leaves the other four as they were. |
| SocialLinks.FillSlotsRaises | huggingface_scraper.py:132-151 | The classifier raises exactly when one of the links raises: a non-string platform, or a non-string url examined for "x.com". |
| SocialLinks.FillSlotsLastWins | huggingface_scraper.py:132-151 | When nothing raises, each slot holds the url of the last link classified into it, or its previous value. |
| SocialLinks.ExtractSocialMediaSpec | huggingface_scraper.py:117-153 | All five slots are empty strings for a missing, empty or non-list argument. Otherwise, when nothing raises, each slot holds the url of the last link classified into it, or "". |
| SocialLinks.FilledSlotFromLink | huggingface_scraper.py:132-151 | A filled slot holds the truthy "url" value of one of the dict links. |
| SocialLinks.LinkedInFirst | huggingface_scraper.py:142-145 | A platform naming both LinkedIn and Twitter fills the LinkedIn slot, even with an x.com url. |
| SocialLinks.XUrlIsTwitter | huggingface_scraper.py:144-145 | The url is lower-cased before the "x.com" test: platform "x" with url "X.com/acme" fills the Twitter slot. |
| SocialLinks.NonStringUrlRaises | huggingface_scraper.py:144 | A non-string url on a platform other than LinkedIn or Twitter raises when it is lower-cased. |
| SocialLinks.LinkUrls | huggingface_scraper.py:196-207 | For a list of links, the comprehension raises exactly when some element is not a dict or has a truthy url that is not a string; otherwise it gives the non-empty string urls in order. Any other value gives no urls when it is an empty string or dict, and raises otherwise. |
| SocialLinks.UrlsOfSpec | huggingface_scraper.py:207 | The comprehension over the links raises exactly when one element raises, and otherwise yields the non-empty string urls in order. |
| SocialLinks.ScrapeOrgs | huggingface_scraper.py:179-220 | There is at most one record per listed organisation. |
| SocialLinks.ScrapeOrgsKeeps | huggingface_scraper.py:179-220 | When every entry is a dict, the loop returns exactly the records of the kept organisations, in listing order, the i-th built from the i-th profile answer. |
| SocialLinks.ScrapeOrgsAborts | huggingface_scraper.py:216-218 | The organisation loop fails only when some entry is not a dict, because its error handler calls `.get` on that entry. |
| SocialLinks.NonDictAborts | huggingface_scraper.py:179-218 | An organisation entry that is not a dict makes the loop fail, whatever the entries before it did. |
| SocialLinks.ScrapePageSpec | huggingface_scraper.py:159-220 | No records when the listing raised or is empty. Otherwise at most one record per organisation, and the page fails exactly when some entry is not a dict; when none fails, the records are those of the kept organisations in listing order. |
| SocialLinks.KeptRecordSpec | huggingface_scraper.py:196-208 | In a kept record: the organisation had a non-empty string link, and the Org URL is that link resolved. Company Name is the profile's company_name if present, else the listed name. All Social Links joins the truthy urls in order with a spaced vertical bar. Each filled slot holds one of the links' urls. |

## Left out

- HTTP through `requests.Session` and the Firecrawl client: each call is replaced by a given outcome, so time-outs, headers and sessions are not modelled.
- HTML parsing with BeautifulSoup and CSS selection: a page is given as its anchors (href, stripped text) or as element texts, and the regular expressions that select anchors and count elements (`phase2_detail_scraper.py:223-227`, `:260`) are not modelled.
- The regular-expression clean-up of organisation names (`hf_org_scraper.py:149-162`) is the parameter `clean`; only the split on the bullet and the strip are concrete. `urljoin` in the profile scraper is the parameter `resolve`.
- Character handling is ASCII: lower-casing maps only A–Z, digits are 0–9, and `int()` does not accept underscores or non-ASCII digits.
- `time.sleep` is recorded as a list of durations; the detail loop's one-second pause per row and the profile scraper's per-organisation pause are not recorded.
- `datetime.now` is the `Clock` parameter; logging, progress messages and tqdm are left out.
- pandas CSV and Excel I/O (`save_progress`, `save_to_excel`, reading the input CSV) and filesystem atomicity: tables are sequences of maps and files are values.
- Exceptions from the listing crawl's own file writes and from `extract_links_by_pattern` (which runs outside the `try`) are not modelled: those writes and that call are taken to succeed.
- JSON decoding of the detail checkpoint: the file is absent, unreadable or a checkpoint; a file that parses but lacks `last_processed_index` or `processed_organizations`, or holds a non-integer or negative index there, is not modelled.
- DetailCrawl.RestoreOne: an entry whose `index` is a negative integer is ignored, whereas pandas would add a row labelled with that index; entry values that are JSON lists, objects, booleans or floats are not modelled.
- JSON numbers in the profile scraper are integers; floats are left out.
- DetailFetch.Description: the fallback to the meta tag's `content` (`phase2_detail_scraper.py:242-245`) is modelled as written, but the code cannot reach it. The first selector is that meta tag itself, and a meta tag's stripped text is "", so a page with the tag gets the description "", and a page without it gets the stripped text of the first later selector that matches, or "Null". The model does not tie `page.meta` to the first selector's text, so it admits pages on which the fallback fires. Which elements the description and location selectors find is input.
- The start-up sequence of the detail crawl is stated over the loop: `RunPhase2` loads, prepares and loops, but a second run on the output of the first is not composed into one lemma.
- `main` of the detail and profile scrapers, `init_firecrawl`, the command-line parsing of the listing crawl beyond `--start`, `--end` and `--reset`, and the progress log every 100 pages.

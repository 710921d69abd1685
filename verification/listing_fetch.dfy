/**
 * One page of the organisation listing (hf_org_scraper.py, `scrape_page`):
 * the retry loop around the HTTP fetch and the filter that turns the page's
 * anchors into (name, url) pairs.
 *
 * The network is replaced by a sequence of per-attempt outcomes: element `k`
 * is what the `k`-th `session.get` + `raise_for_status` produced. HTML parsing
 * is replaced by the page's anchors as (href, text) pairs, text already
 * stripped. The regular-expression clean-up of the organisation name is the
 * parameter `clean`.
 */
module ListingFetch {
  import opened Wrappers
  import opened Strings
  import opened Seqs

  const HfBase: string := "https://huggingface.co"
  const MaxRetries: nat := 3
  /** Seconds slept after a failed attempt that is not the last one. */
  const RetryDelay: nat := 5
  /** Seconds slept after a 429 answer. */
  const RateLimitWait: nat := 30

  /** Site paths that look like an organisation link but are navigation. */
  const ReservedPaths: seq<string> := [
    "/models", "/datasets", "/spaces", "/docs", "/pricing",
    "/terms-of-service", "/privacy", "/users", "/login",
    "/join", "/settings", "/new", "/organizations"
  ]

  datatype Anchor = Anchor(href: string, text: string)

  datatype Org = Org(name: string, url: string)

  /** What one fetch of the listing page produced. */
  datatype Attempt =
    | Ok(anchors: seq<Anchor>)  // a successful status; the page's anchors that carry an href
    | Http429                   // HTTPError with status 429 Too Many Requests
    | HttpError                 // any other HTTPError
    | TransportError            // any other RequestException: connection, timeout, ...

  // ---------------------------------------------------------------------------
  // The href filter and the organisation built from an admitted anchor
  // ---------------------------------------------------------------------------

  predicate IsOrgHref(href: string) {
    && StartsWith(href, "/")
    && CountChar(href, '/') == 1
    && |href| > 1
    && !StartsWith(href, "/#")
    && href !in ReservedPaths
  }

  predicate MentionsFollower(text: string) {
    Contains(Lower(text), "follower")
  }

  predicate Admits(a: Anchor) {
    IsOrgHref(a.href) && MentionsFollower(a.text)
  }

  /** The name is the text before the first bullet, stripped, then cleaned. */
  function OrgName(text: string, clean: string -> string): string {
    clean(Trim(BeforeFirst(text, '•')))
  }

  function OrgOf(a: Anchor, clean: string -> string): Org {
    Org(OrgName(a.text, clean), HfBase + a.href)
  }

  /**
   * An href passes the filter exactly when it is `/` followed by a single,
   * non-empty path segment that does not start with `#` and is not a
   * reserved navigation path.
   */
  lemma OrgHrefShape(href: string)
    ensures IsOrgHref(href) <==>
      && |href| >= 2
      && href[0] == '/'
      && href[1] != '#'
      && '/' !in href[1..]
      && href !in ReservedPaths
  {
    if |href| >= 1 && href[0] == '/' {
      assert CountChar(href, '/') == 1 + CountChar(href[1..], '/');
      if |href| >= 2 {
        assert StartsWith(href, "/#") <==> href[1] == '#';
      }
    }
  }

  /** `o` is the organisation of some admitted anchor. */
  ghost predicate FromOrgLink(anchors: seq<Anchor>, clean: string -> string, o: Org) {
    exists a :: a in anchors && Admits(a) && o == OrgOf(a, clean)
  }

  /** The organisations of the admitted anchors, in anchor order, repeats included. */
  function Candidates(anchors: seq<Anchor>, clean: string -> string): seq<Org> {
    if |anchors| == 0 then []
    else
      var rest := Candidates(anchors[1..], clean);
      if Admits(anchors[0]) then [OrgOf(anchors[0], clean)] + rest else rest
  }

  lemma {:induction false} CandidatesMembers(anchors: seq<Anchor>, clean: string -> string)
    ensures forall o :: o in Candidates(anchors, clean) <==> FromOrgLink(anchors, clean, o)
  {
    if |anchors| > 0 {
      CandidatesMembers(anchors[1..], clean);
      assert forall a :: a in anchors <==> a == anchors[0] || a in anchors[1..];
    }
  }

  /** The inner loop of `scrape_page`: admitted anchors' organisations, each pair kept once. */
  function ExtractOrgs(anchors: seq<Anchor>, clean: string -> string): seq<Org> {
    Dedupe(Candidates(anchors, clean))
  }

  /**
   * The organisations on a fetched page are exactly those of the admitted
   * anchors, each (name, url) pair once, in the order of the anchor that first
   * yields it.
   */
  lemma ExtractOrgsSpec(anchors: seq<Anchor>, clean: string -> string)
    ensures forall o :: o in ExtractOrgs(anchors, clean) <==> FromOrgLink(anchors, clean, o)
    ensures NoDup(ExtractOrgs(anchors, clean))
    ensures ExtractOrgs(anchors, clean) == FirstOccurrences(Candidates(anchors, clean))
  {
    CandidatesMembers(anchors, clean);
  }

  /** Every returned organisation is an admitted anchor's: its url is the base plus the href. */
  lemma ExtractedOrgsComeFromOrgLinks(anchors: seq<Anchor>, clean: string -> string, o: Org)
    requires o in ExtractOrgs(anchors, clean)
    ensures exists href :: && o.url == HfBase + href
                           && |href| >= 2 && href[0] == '/' && href[1] != '#'
                           && '/' !in href[1..] && href !in ReservedPaths
  {
    ExtractOrgsSpec(anchors, clean);
    assert FromOrgLink(anchors, clean, o);
    var a :| a in anchors && Admits(a) && o == OrgOf(a, clean);
    OrgHrefShape(a.href);
  }

  // ---------------------------------------------------------------------------
  // The retry loop
  // ---------------------------------------------------------------------------

  /** The retry loop's trace: the anchors of the page it got, its sleeps and its fetch count. */
  datatype RetryTrace = RetryTrace(page: Option<seq<Anchor>>, sleeps: seq<nat>, fetches: nat)

  /** What `scrape_page` returned, with the sleeps it made and the number of fetches. */
  datatype PageFetch = PageFetch(orgs: Option<seq<Org>>, sleeps: seq<nat>, fetches: nat)

  /** Some attempt in [from, MaxRetries) succeeded. */
  predicate AnyOkFrom(outcomes: seq<Attempt>, from: nat)
    requires MaxRetries <= |outcomes|
  {
    exists i :: from <= i < MaxRetries && outcomes[i].Ok?
  }

  /** The sleep that follows a failed attempt, when one follows it. */
  function RetrySleep(o: Attempt): nat {
    if o.Http429? then RateLimitWait else RetryDelay
  }

  /**
   * The `for attempt in range(MAX_RETRIES)` loop from `attempt` on. A 429 sleeps
   * and continues to the next attempt, so it uses up one attempt. Any other
   * failure sleeps only when attempts remain, and gives up on the last one.
   */
  function RetryFrom(outcomes: seq<Attempt>, attempt: nat): (r: RetryTrace)
    requires attempt <= MaxRetries <= |outcomes|
    decreases MaxRetries - attempt
    ensures attempt + r.fetches <= MaxRetries
    ensures attempt < MaxRetries ==> r.fetches > 0
    ensures |r.sleeps| <= r.fetches
  {
    if attempt == MaxRetries then
      RetryTrace(None, [], 0)
    else if outcomes[attempt].Ok? then
      RetryTrace(Some(outcomes[attempt].anchors), [], 1)
    else if outcomes[attempt].Http429? || attempt < MaxRetries - 1 then
      var rest := RetryFrom(outcomes, attempt + 1);
      RetryTrace(rest.page, [RetrySleep(outcomes[attempt])] + rest.sleeps, rest.fetches + 1)
    else
      RetryTrace(None, [], 1)
  }

  /**
   * The loop gets a page exactly when some remaining attempt succeeds; the page
   * is that of the first such attempt, which is its last fetch. Without a
   * success it runs to the end of the attempt budget.
   */
  lemma {:induction false} RetryFromResult(outcomes: seq<Attempt>, attempt: nat)
    requires attempt <= MaxRetries <= |outcomes|
    decreases MaxRetries - attempt
    ensures var r := RetryFrom(outcomes, attempt);
      && (r.page.Some? <==> AnyOkFrom(outcomes, attempt))
      && (r.page.Some? ==>
            && outcomes[attempt + r.fetches - 1] == Ok(r.page.value)
            && forall j :: attempt <= j < attempt + r.fetches - 1 ==> !outcomes[j].Ok?)
      && (r.page.None? ==> attempt + r.fetches == MaxRetries)
  {
    if attempt < MaxRetries && !outcomes[attempt].Ok? {
      if outcomes[attempt].Http429? || attempt < MaxRetries - 1 {
        RetryFromResult(outcomes, attempt + 1);
        assert AnyOkFrom(outcomes, attempt) <==> AnyOkFrom(outcomes, attempt + 1);
      }
    }
  }

  /**
   * Every failed attempt but a final non-429 one is followed by a sleep: 30
   * seconds after a 429, RetryDelay after any other failure.
   */
  lemma {:induction false} RetryFromSleeps(outcomes: seq<Attempt>, attempt: nat)
    requires attempt <= MaxRetries <= |outcomes|
    decreases MaxRetries - attempt
    ensures var r := RetryFrom(outcomes, attempt);
      && (forall k :: 0 <= k < |r.sleeps| ==> r.sleeps[k] == RetrySleep(outcomes[attempt + k]))
      && (r.fetches > 0 ==>
            |r.sleeps| == (if outcomes[attempt + r.fetches - 1].Http429? then r.fetches else r.fetches - 1))
  {
    if attempt < MaxRetries && !outcomes[attempt].Ok? {
      if outcomes[attempt].Http429? || attempt < MaxRetries - 1 {
        RetryFromSleeps(outcomes, attempt + 1);
        var rest := RetryFrom(outcomes, attempt + 1);
        var r := RetryFrom(outcomes, attempt);
        assert r.sleeps == [RetrySleep(outcomes[attempt])] + rest.sleeps;
        if rest.fetches == 0 {
          assert attempt + 1 == MaxRetries;
        }
      }
    }
  }

  /**
   * `scrape_page`: at most MaxRetries fetches; the organisations of the first
   * successful fetch among them, or None when none of them succeeds.
   */
  function ScrapePage(outcomes: seq<Attempt>, clean: string -> string): (r: PageFetch)
    requires |outcomes| >= MaxRetries
    ensures 1 <= r.fetches <= MaxRetries
    ensures r.orgs.Some? <==> exists i :: 0 <= i < MaxRetries && outcomes[i].Ok?
    ensures r.orgs.Some? ==>
      && outcomes[r.fetches - 1].Ok?
      && r.orgs.value == ExtractOrgs(outcomes[r.fetches - 1].anchors, clean)
      && forall j :: 0 <= j < r.fetches - 1 ==> !outcomes[j].Ok?
    ensures r.orgs.None? ==> r.fetches == MaxRetries
    ensures |r.sleeps| <= r.fetches
    ensures forall k :: 0 <= k < |r.sleeps| ==> r.sleeps[k] == RetrySleep(outcomes[k])
    ensures |r.sleeps| == (if outcomes[r.fetches - 1].Http429? then r.fetches else r.fetches - 1)
  {
    RetryFromResult(outcomes, 0);
    RetryFromSleeps(outcomes, 0);
    var t := RetryFrom(outcomes, 0);
    PageFetch(if t.page.Some? then Some(ExtractOrgs(t.page.value, clean)) else None, t.sleeps, t.fetches)
  }

  /**
   * A 429 uses up an attempt: three 429 answers in a row end the page with
   * None after three 30-second waits, whatever a fourth fetch would have said.
   */
  lemma ThreeRateLimitsGiveUp(outcomes: seq<Attempt>, clean: string -> string)
    requires |outcomes| >= MaxRetries
    requires outcomes[0] == Http429 && outcomes[1] == Http429 && outcomes[2] == Http429
    ensures ScrapePage(outcomes, clean) == PageFetch(None, [RateLimitWait, RateLimitWait, RateLimitWait], 3)
  {
  }

  /** Three transient failures: None after exactly two sleeps of RetryDelay. */
  lemma ThreeFailuresSleepTwice(outcomes: seq<Attempt>, clean: string -> string)
    requires |outcomes| >= MaxRetries
    requires forall k :: 0 <= k < MaxRetries ==> outcomes[k].HttpError? || outcomes[k].TransportError?
    ensures ScrapePage(outcomes, clean) == PageFetch(None, [RetryDelay, RetryDelay], 3)
  {
    var r := ScrapePage(outcomes, clean);
    assert !outcomes[2].Http429?;
  }
}

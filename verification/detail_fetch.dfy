/**
 * One organisation page of the detail crawl (phase2_detail_scraper.py): the
 * request with progressive retry delays, link collection per link type, the
 * member/model/dataset counts, the text lookups and the details record.
 *
 * A fetched page is abstract: for each link type, the hrefs each pattern
 * matched; for each text selector, the stripped text of its first element or
 * None; the meta description's `content` attribute; and the texts of the
 * elements the count pattern matched. The regular expressions and CSS
 * selectors that produce these lists are not modelled.
 */
module DetailFetch {
  import opened Wrappers
  import opened Strings
  import opened Seqs

  const RetryDelays: seq<nat> := [30, 60, 180]
  const HfPrefix: string := "https://huggingface.co"
  const Null: string := "Null"
  const Success: string := "success"
  const FailedAfterRetries: string := "failed_after_retries"

  /**
   * A parsed organisation page. `github`, `website` and `social` hold, per
   * pattern of that link type, the `href` of every matching anchor (empty when
   * the anchor has none). `meta` is None when there is no description meta tag,
   * and Some(None) when it has no `content` attribute. `failure` is the message
   * of an exception raised while extracting the text fields, if any.
   */
  datatype Page = Page(
    github: seq<seq<string>>,
    website: seq<seq<string>>,
    social: seq<seq<string>>,
    descriptionTexts: seq<Option<string>>,
    meta: Option<Option<string>>,
    locationTexts: seq<Option<string>>,
    countTexts: seq<string>,
    failure: Option<string>)

  /** What one `session.get` did: an answer with its status code and page, or a RequestException. */
  datatype Reply = Response(status: int, page: Page) | RequestFailed

  /** The outcome of `make_request_with_retry`, with the sleeps it made and the number of requests. */
  datatype Fetch = Fetch(page: Option<Page>, status: string, sleeps: seq<nat>, requests: nat)

  // ---------------------------------------------------------------------------
  // make_request_with_retry
  // ---------------------------------------------------------------------------

  /** The sleep attempt `i` makes after `reply`: a 429 always waits, an exception only before the last attempt. */
  function SleepAfter(reply: Reply, i: nat): Option<nat>
    requires i < |RetryDelays|
  {
    match reply
    case Response(status, _) => if status == 429 then Some(RetryDelays[i]) else None
    case RequestFailed => if i < |RetryDelays| - 1 then Some(RetryDelays[i]) else None
  }

  function Sleeps(s: Option<nat>): seq<nat> {
    if s.Some? then [s.value] else []
  }

  /** Some attempt in [from, 3) answered 200. */
  predicate AnyOkFrom(replies: seq<Reply>, from: nat)
    requires |RetryDelays| <= |replies|
  {
    exists i :: from <= i < |RetryDelays| && replies[i].Response? && replies[i].status == 200
  }

  /** Attempts `i`, `i + 1`, … of the loop `for attempt, delay in enumerate(retry_delays)`. */
  function RetryFrom(replies: seq<Reply>, i: nat): (f: Fetch)
    requires |replies| >= |RetryDelays| && i <= |RetryDelays|
    ensures f.requests <= |RetryDelays| - i
    ensures i < |RetryDelays| ==> f.requests >= 1
    decreases |RetryDelays| - i
  {
    if i == |RetryDelays| then
      Fetch(None, FailedAfterRetries, [], 0)
    else if replies[i].Response? && replies[i].status == 200 then
      Fetch(Some(replies[i].page), Success, [], 1)
    else
      var rest := RetryFrom(replies, i + 1);
      Fetch(rest.page, rest.status, Sleeps(SleepAfter(replies[i], i)) + rest.sleeps, rest.requests + 1)
  }

  /**
   * `make_request_with_retry`: at most three requests; the page of the first
   * 200 and "success", or no page and "failed_after_retries".
   */
  function RequestWithRetry(replies: seq<Reply>): (f: Fetch)
    requires |replies| >= |RetryDelays|
  {
    RetryFrom(replies, 0)
  }

  /** The loop yields a page exactly when some remaining attempt answers 200, and says "success" exactly then. */
  lemma {:induction false} RetryFromSucceeds(replies: seq<Reply>, i: nat)
    requires |replies| >= |RetryDelays| && i <= |RetryDelays|
    decreases |RetryDelays| - i
    ensures RetryFrom(replies, i).page.Some? <==> AnyOkFrom(replies, i)
    ensures RetryFrom(replies, i).status == Success <==> RetryFrom(replies, i).page.Some?
    ensures RetryFrom(replies, i).page.None? ==>
      RetryFrom(replies, i).status == FailedAfterRetries && RetryFrom(replies, i).requests == |RetryDelays| - i
  {
    if i < |RetryDelays| && !(replies[i].Response? && replies[i].status == 200) {
      RetryFromSucceeds(replies, i + 1);
      assert AnyOkFrom(replies, i) <==> AnyOkFrom(replies, i + 1);
    }
  }

  /** The page comes from the last request made, the first one that answered 200. */
  lemma {:induction false} RetryFromFirstOk(replies: seq<Reply>, i: nat)
    requires |replies| >= |RetryDelays| && i <= |RetryDelays|
    requires RetryFrom(replies, i).page.Some?
    decreases |RetryDelays| - i
    ensures replies[i + RetryFrom(replies, i).requests - 1].Response?
    ensures replies[i + RetryFrom(replies, i).requests - 1].status == 200
    ensures RetryFrom(replies, i).page.value == replies[i + RetryFrom(replies, i).requests - 1].page
    ensures forall j :: i <= j < i + RetryFrom(replies, i).requests - 1 ==>
      !(replies[j].Response? && replies[j].status == 200)
  {
    if !(replies[i].Response? && replies[i].status == 200) {
      RetryFromFirstOk(replies, i + 1);
    }
  }

  /** The sleeps are taken from the remaining delay schedule, in order, each at most once. */
  lemma {:induction false} RetryFromSleeps(replies: seq<Reply>, i: nat)
    requires |replies| >= |RetryDelays| && i <= |RetryDelays|
    decreases |RetryDelays| - i
    ensures Subsequence(RetryFrom(replies, i).sleeps, RetryDelays[i..])
  {
    if i < |RetryDelays| && !(replies[i].Response? && replies[i].status == 200) {
      RetryFromSleeps(replies, i + 1);
      var rest := RetryFrom(replies, i + 1).sleeps;
      var here := Sleeps(SleepAfter(replies[i], i));
      assert RetryDelays[i..][1..] == RetryDelays[i + 1..];
      if here == [] {
        assert here + rest == rest;
      } else {
        assert (here + rest)[0] == RetryDelays[i..][0];
        assert (here + rest)[1..] == rest;
      }
    }
  }

  /** Whether attempt `k` sleeps after `reply`: after a 429, or after an exception that is not the last attempt. */
  predicate SleepsAt(reply: Reply, k: nat) {
    || (reply.Response? && reply.status == 429)
    || (reply.RequestFailed? && k < |RetryDelays| - 1)
  }

  /** The delays of the attempts in [from, to) that sleep, in attempt order. */
  function SleptDelays(replies: seq<Reply>, from: nat, to: nat): seq<nat>
    requires from <= to <= |RetryDelays| && to <= |replies|
    decreases |RetryDelays| - from
  {
    if from == to then []
    else (if SleepsAt(replies[from], from) then [RetryDelays[from]] else []) + SleptDelays(replies, from + 1, to)
  }

  /** A delay is slept exactly when the attempt it belongs to sleeps. */
  lemma {:induction false} SleptDelaysMembers(replies: seq<Reply>, from: nat, to: nat)
    requires from <= to <= |RetryDelays| && to <= |replies|
    decreases |RetryDelays| - from
    ensures forall k :: from <= k < to ==> (RetryDelays[k] in SleptDelays(replies, from, to) <==> SleepsAt(replies[k], k))
    ensures forall d :: d in SleptDelays(replies, from, to) ==> exists k :: from <= k < to && d == RetryDelays[k]
  {
    if from < to {
      SleptDelaysMembers(replies, from + 1, to);
    }
  }

  lemma SleptDelaysRule(replies: seq<Reply>, sleeps: seq<nat>, from: nat, to: nat)
    requires from <= to <= |RetryDelays| <= |replies|
    requires sleeps == SleptDelays(replies, from, to)
    ensures forall k :: from <= k < to ==> (RetryDelays[k] in sleeps <==> SleepsAt(replies[k], k))
  {
    SleptDelaysMembers(replies, from, to);
  }

  /** The sleeps are exactly the delays of the attempts made that sleep, in order. */
  lemma {:induction false} RetryFromSleepsExactly(replies: seq<Reply>, i: nat)
    requires |replies| >= |RetryDelays| && i <= |RetryDelays|
    decreases |RetryDelays| - i
    ensures RetryFrom(replies, i).sleeps == SleptDelays(replies, i, i + RetryFrom(replies, i).requests)
  {
    if i < |RetryDelays| && !(replies[i].Response? && replies[i].status == 200) {
      var rest := RetryFrom(replies, i + 1);
      RetryFromSleepsExactly(replies, i + 1);
      var here := if SleepsAt(replies[i], i) then [RetryDelays[i]] else [];
      assert Sleeps(SleepAfter(replies[i], i)) == here;
      assert RetryFrom(replies, i).sleeps == here + rest.sleeps;
      assert SleptDelays(replies, i, i + 1 + rest.requests) == here + SleptDelays(replies, i + 1, i + 1 + rest.requests);
    }
  }

  /** Attempt k sleeps its delay exactly when its reply calls for a sleep. */
  lemma RetryFromSleepRule(replies: seq<Reply>, i: nat)
    requires |replies| >= |RetryDelays| && i <= |RetryDelays|
    ensures forall k :: i <= k < i + RetryFrom(replies, i).requests ==>
      (RetryDelays[k] in RetryFrom(replies, i).sleeps <==> SleepsAt(replies[k], k))
  {
    var f := RetryFrom(replies, i);
    RetryFromSleepsExactly(replies, i);
    SleptDelaysRule(replies, f.sleeps, i, i + f.requests);
  }

  lemma RequestWithRetrySpec(replies: seq<Reply>)
    requires |replies| >= |RetryDelays|
    ensures 1 <= RequestWithRetry(replies).requests <= |RetryDelays|
    ensures RequestWithRetry(replies).page.Some? <==> AnyOkFrom(replies, 0)
    ensures RequestWithRetry(replies).status == Success <==> AnyOkFrom(replies, 0)
    ensures RequestWithRetry(replies).page.None? ==> RequestWithRetry(replies).status == FailedAfterRetries
    ensures RequestWithRetry(replies).page.Some? ==>
      var n := RequestWithRetry(replies).requests;
      replies[n - 1].Response? && replies[n - 1].status == 200 && RequestWithRetry(replies).page.value == replies[n - 1].page
    ensures Subsequence(RequestWithRetry(replies).sleeps, RetryDelays)
  {
    RetryFromSucceeds(replies, 0);
    RetryFromSleeps(replies, 0);
    if RequestWithRetry(replies).page.Some? {
      RetryFromFirstOk(replies, 0);
    }
  }

  /**
   * The sleep rule per attempt: attempt k sleeps its delay exactly when its
   * reply is a 429, or an exception before the last attempt, and the sleeps
   * are those delays in attempt order.
   */
  lemma RequestWithRetrySleeps(replies: seq<Reply>)
    requires |replies| >= |RetryDelays|
    ensures RequestWithRetry(replies).sleeps == SleptDelays(replies, 0, RequestWithRetry(replies).requests)
    ensures forall k :: 0 <= k < RequestWithRetry(replies).requests ==>
      (RetryDelays[k] in RequestWithRetry(replies).sleeps <==> SleepsAt(replies[k], k))
  {
    RetryFromSleepsExactly(replies, 0);
    RetryFromSleepRule(replies, 0);
  }

  /** Three exceptions: the first two attempts wait 30 and 60 seconds, the last does not wait. */
  lemma ThreeExceptions(replies: seq<Reply>)
    requires |replies| >= 3 && replies[0] == RequestFailed && replies[1] == RequestFailed && replies[2] == RequestFailed
    ensures RequestWithRetry(replies) == Fetch(None, FailedAfterRetries, [30, 60], 3)
  {
  }

  /** Three 429 answers: every attempt waits its delay, the last one included, 270 seconds in all. */
  lemma ThreeRateLimits(replies: seq<Reply>)
    requires |replies| >= 3
    requires forall i :: 0 <= i < 3 ==> replies[i].Response? && replies[i].status == 429
    ensures RequestWithRetry(replies) == Fetch(None, FailedAfterRetries, [30, 60, 180], 3)
  {
  }

  /** Other error statuses are retried at once: three 404 answers sleep nothing. */
  lemma ThreeOtherErrors(replies: seq<Reply>)
    requires |replies| >= 3
    requires forall i :: 0 <= i < 3 ==> replies[i].Response? && replies[i].status == 404
    ensures RequestWithRetry(replies) == Fetch(None, FailedAfterRetries, [], 3)
  {
  }

  /** The request never sleeps more than the whole schedule, 270 seconds. */
  lemma RequestSleepBound(replies: seq<Reply>)
    requires |replies| >= |RetryDelays|
    ensures Total(RequestWithRetry(replies).sleeps) <= 270
  {
    RequestWithRetrySpec(replies);
    SubsequenceTotal(RequestWithRetry(replies).sleeps, RetryDelays);
  }

  // ---------------------------------------------------------------------------
  // extract_links_by_pattern
  // ---------------------------------------------------------------------------

  /** Python's `href.startswith('/')`. */
  predicate Relative(href: string) {
    |href| > 0 && href[0] == '/'
  }

  /** A relative href becomes absolute on the Hugging Face host. */
  function Absolute(href: string): string {
    if Relative(href) then HfPrefix + href else href
  }

  function Flatten(xss: seq<seq<string>>): (r: seq<string>)
    ensures forall x :: x in r <==> exists i :: 0 <= i < |xss| && x in xss[i]
  {
    if |xss| == 0 then []
    else
      assert forall x :: x in xss[0] ==> 0 <= 0 < |xss| && x in xss[0];
      xss[0] + Flatten(xss[1..])
  }

  /**
   * The inner loops for one link type: skip empty hrefs and hrefs already in
   * the list, and store the rest made absolute. The membership test looks at
   * the href as found, while the list holds absolute urls.
   */
  function Collect(found: seq<string>, hrefs: seq<string>): seq<string>
    decreases |hrefs|
  {
    if |hrefs| == 0 then found
    else
      var h := hrefs[0];
      Collect(if h != [] && h !in found then found + [Absolute(h)] else found, hrefs[1..])
  }

  /** The list `extract_links_by_pattern` gives one link type: its links, or `['Null']` when none. */
  function LinksOf(matches: seq<seq<string>>): (r: seq<string>)
    ensures |r| > 0
  {
    var found := Collect([], Flatten(matches));
    if |found| == 0 then [Null] else found
  }

  /**
   * What the collection keeps: every non-empty href found, made absolute, and
   * nothing else.
   */
  lemma {:induction false} CollectMembers(found: seq<string>, hrefs: seq<string>)
    requires forall x :: x in found ==> !Relative(x)
    decreases |hrefs|
    ensures forall x :: x in Collect(found, hrefs) <==>
      x in found || exists h :: h in hrefs && h != [] && x == Absolute(h)
  {
    if |hrefs| > 0 {
      var h := hrefs[0];
      var next := if h != [] && h !in found then found + [Absolute(h)] else found;
      AbsoluteNotRelative(h);
      CollectMembers(next, hrefs[1..]);
      assert forall g :: g in hrefs <==> g == h || g in hrefs[1..];
    }
  }

  /** No absolute form starts with "/". */
  lemma AbsoluteNotRelative(h: string)
    ensures !Relative(Absolute(h))
  {
    if Relative(h) {
      assert Absolute(h)[0] == 'h';
    }
  }

  /**
   * Every link type gets a non-empty list: `['Null']` when no matched anchor
   * had an href, and otherwise exactly the absolute forms of the non-empty
   * hrefs.
   */
  lemma LinksOfSpec(matches: seq<seq<string>>)
    ensures (forall h :: h in Flatten(matches) ==> h == []) ==> LinksOf(matches) == [Null]
    ensures (exists h :: h in Flatten(matches) && h != []) ==>
      forall x :: x in LinksOf(matches) <==> exists h :: h in Flatten(matches) && h != [] && x == Absolute(h)
  {
    CollectMembers([], Flatten(matches));
    var found := Collect([], Flatten(matches));
    if exists h :: h in Flatten(matches) && h != [] {
      var h :| h in Flatten(matches) && h != [];
      assert Absolute(h) in found;
    } else if |found| > 0 {
      assert found[0] in found;
    }
  }

  /**
   * The duplicate test sees the raw href, so a relative href found twice is
   * stored twice, while an absolute one is stored once.
   */
  lemma RepeatedRelativeHref()
    ensures LinksOf([["/acme", "/acme"]]) == [HfPrefix + "/acme", HfPrefix + "/acme"]
    ensures LinksOf([["https://acme.ai", "https://acme.ai"]]) == ["https://acme.ai"]
  {
    assert Flatten([["/acme", "/acme"]]) == ["/acme", "/acme"];
    assert HfPrefix + "/acme" != "/acme";
    assert Flatten([["https://acme.ai", "https://acme.ai"]]) == ["https://acme.ai", "https://acme.ai"];
    assert "https://acme.ai"[0] == 'h';
  }

  function NonEmpty(hrefs: seq<string>): seq<string> {
    if |hrefs| == 0 then []
    else (if hrefs[0] != [] then [hrefs[0]] else []) + NonEmpty(hrefs[1..])
  }

  /**
   * Without relative hrefs the collection is the plain first-occurrence
   * dedupe of the non-empty hrefs: continuing from the dedupe of `prior`
   * gives the dedupe of `prior` followed by them.
   */
  lemma {:induction false} CollectAbsolute(prior: seq<string>, hrefs: seq<string>)
    requires forall k :: 0 <= k < |hrefs| ==> !Relative(hrefs[k])
    decreases |hrefs|
    ensures Collect(FirstOccurrences(prior), hrefs) == FirstOccurrences(prior + NonEmpty(hrefs))
  {
    if |hrefs| == 0 {
      assert prior + NonEmpty(hrefs) == prior;
    } else if hrefs[0] == [] {
      SkipEmptyHref(FirstOccurrences(prior), hrefs);
      CollectAbsolute(prior, hrefs[1..]);
    } else {
      KeepAbsoluteHref(prior, hrefs);
      NonEmptyHead(prior, hrefs);
      CollectAbsolute(prior + [hrefs[0]], hrefs[1..]);
    }
  }

  /** An empty href is passed over by the loop and by the list of non-empty hrefs. */
  lemma SkipEmptyHref(found: seq<string>, hrefs: seq<string>)
    requires |hrefs| > 0 && hrefs[0] == []
    ensures Collect(found, hrefs) == Collect(found, hrefs[1..])
    ensures NonEmpty(hrefs) == NonEmpty(hrefs[1..])
  {
  }

  /** A non-empty absolute href moves the loop one step along the first-occurrence list. */
  lemma KeepAbsoluteHref(prior: seq<string>, hrefs: seq<string>)
    requires |hrefs| > 0 && hrefs[0] != [] && !Relative(hrefs[0])
    ensures Collect(FirstOccurrences(prior), hrefs) == Collect(FirstOccurrences(prior + [hrefs[0]]), hrefs[1..])
  {
    var h := hrefs[0];
    var f := FirstOccurrences(prior);
    assert Collect(f, hrefs) == Collect(if h != [] && h !in f then f + [Absolute(h)] else f, hrefs[1..]);
    FirstOccurrencesStep(prior, h);
  }

  lemma NonEmptyHead(prior: seq<string>, hrefs: seq<string>)
    requires |hrefs| > 0 && hrefs[0] != []
    ensures prior + NonEmpty(hrefs) == prior + [hrefs[0]] + NonEmpty(hrefs[1..])
  {
    assert NonEmpty(hrefs) == [hrefs[0]] + NonEmpty(hrefs[1..]);
  }

  /** One step of the loop on an absolute href is one more step of the first-occurrence list. */
  lemma FirstOccurrencesStep(prior: seq<string>, h: string)
    requires h != [] && !Relative(h)
    ensures (if h != [] && h !in FirstOccurrences(prior) then FirstOccurrences(prior) + [Absolute(h)] else FirstOccurrences(prior))
      == FirstOccurrences(prior + [h])
  {
    assert (prior + [h])[..|prior|] == prior;
    assert h in Dedupe(prior) <==> h in prior;
  }

  /** With absolute hrefs only, a link type lists each distinct non-empty href once, in first-seen order. */
  lemma AbsoluteLinks(matches: seq<seq<string>>)
    requires forall h :: h in Flatten(matches) ==> !Relative(h)
    requires exists h :: h in Flatten(matches) && h != []
    ensures LinksOf(matches) == Dedupe(NonEmpty(Flatten(matches)))
    ensures NoDup(LinksOf(matches))
  {
    var hrefs := Flatten(matches);
    assert FirstOccurrences<string>([]) == [];
    CollectAbsolute([], hrefs);
    assert [] + NonEmpty(hrefs) == NonEmpty(hrefs);
    assert Dedupe(NonEmpty(hrefs)) == FirstOccurrences(NonEmpty(hrefs));
    CollectMembers([], hrefs);
    var h :| h in hrefs && h != [];
    assert Absolute(h) in Collect([], hrefs);
  }

  // ---------------------------------------------------------------------------
  // Text fields and counts
  // ---------------------------------------------------------------------------

  /** `extract_text_content`: the text of the first selector that found an element, else "Null". */
  function FirstText(texts: seq<Option<string>>): (r: string)
    ensures (forall i :: 0 <= i < |texts| ==> texts[i].None?) ==> r == Null
    ensures forall i :: 0 <= i < |texts| && texts[i].Some? && (forall j :: 0 <= j < i ==> texts[j].None?) ==>
      r == texts[i].value
  {
    if |texts| == 0 then Null
    else if texts[0].Some? then texts[0].value
    else FirstText(texts[1..])
  }

  /** The description: the selector text, or when that is "Null" the meta tag's content. */
  function Description(page: Page): string {
    var d := FirstText(page.descriptionTexts);
    if d != Null then d
    else match page.meta
      case None => Null
      case Some(content) => content.GetOr(Null)
  }

  datatype CountKind = Members | Models | Datasets

  /** Which count a lower-cased element text sets: member wins over model, model over dataset. */
  function KindOf(text: string): Option<CountKind> {
    if Contains(text, "member") then Some(Members)
    else if Contains(text, "model") then Some(Models)
    else if Contains(text, "dataset") then Some(Datasets)
    else None
  }

  datatype Stats = Stats(members: string, models: string, datasets: string)

  function SetCount(st: Stats, kind: CountKind, value: string): Stats {
    match kind
    case Members => st.(members := value)
    case Models => st.(models := value)
    case Datasets => st.(datasets := value)
  }

  function GetCount(st: Stats, kind: CountKind): string {
    match kind
    case Members => st.members
    case Models => st.models
    case Datasets => st.datasets
  }

  /** What one element contributes: its first digit run, to the count its text names. */
  function Reading(elementText: string): Option<(CountKind, string)> {
    var text := Lower(elementText);
    var numbers := FirstDigitRun(text);
    if numbers.None? then None
    else match KindOf(text)
      case None => None
      case Some(kind) => Some((kind, numbers.value))
  }

  /** The count loop of `extract_organization_details`, left to right from all "Null". */
  function CountStats(st: Stats, texts: seq<string>): Stats
    decreases |texts|
  {
    if |texts| == 0 then st
    else
      var reading := Reading(texts[0]);
      CountStats(if reading.Some? then SetCount(st, reading.value.0, reading.value.1) else st, texts[1..])
  }

  /** The reading of the last element that sets `kind`, looking from the end. */
  function LastReading(texts: seq<string>, kind: CountKind): Option<string>
    decreases |texts|
  {
    if |texts| == 0 then None
    else
      var last := Reading(texts[|texts| - 1]);
      if last.Some? && last.value.0 == kind then Some(last.value.1)
      else LastReading(texts[..|texts| - 1], kind)
  }

  lemma {:induction false} CountStatsAppend(st: Stats, texts: seq<string>, t: string)
    decreases |texts|
    ensures CountStats(st, texts + [t]) == CountStats(CountStats(st, texts), [t])
  {
    if |texts| > 0 {
      assert (texts + [t])[1..] == texts[1..] + [t];
      var reading := Reading(texts[0]);
      CountStatsAppend(if reading.Some? then SetCount(st, reading.value.0, reading.value.1) else st, texts[1..], t);
    }
  }

  /**
   * Later elements overwrite earlier ones: each count is the reading of the
   * last element that names it, or what it was before when none does.
   */
  lemma {:induction false} CountStatsLastWins(st: Stats, texts: seq<string>, kind: CountKind)
    decreases |texts|
    ensures GetCount(CountStats(st, texts), kind) == LastReading(texts, kind).GetOr(GetCount(st, kind))
  {
    if |texts| > 0 {
      var n := |texts| - 1;
      assert texts == texts[..n] + [texts[n]];
      CountStatsAppend(st, texts[..n], texts[n]);
      CountStatsLastWins(st, texts[..n], kind);
      assert [texts[n]][1..] == [];
    }
  }

  // ---------------------------------------------------------------------------
  // extract_organization_details
  // ---------------------------------------------------------------------------

  /** The eleven fields the detail crawl adds to each organisation row. */
  datatype Details = Details(
    githubLinks: string, websiteLinks: string, socialMediaLinks: string,
    location: string, description: string,
    memberCount: string, modelCount: string, datasetCount: string,
    lastUpdated: string, scrapeStatus: string, scrapeTimestamp: string)

  /** The clock readings the function takes: the date as YYYY-MM-DD and an ISO timestamp. */
  datatype Clock = Clock(today: string, timestamp: string)

  /** The record for a page that could not be used: every content field "Null". */
  function FailureDetails(status: string, clock: Clock): Details {
    Details(Null, Null, Null, Null, Null, Null, Null, Null, Null, status, clock.timestamp)
  }

  predicate AllContentNull(d: Details) {
    && d.githubLinks == Null && d.websiteLinks == Null && d.socialMediaLinks == Null
    && d.location == Null && d.description == Null
    && d.memberCount == Null && d.modelCount == Null && d.datasetCount == Null
    && d.lastUpdated == Null
  }

  /** The record for a fetched page. */
  function PageDetails(page: Page, clock: Clock): Details {
    match page.failure
    case Some(message) => FailureDetails("error: " + message, clock)
    case None =>
      var st := CountStats(Stats(Null, Null, Null), page.countTexts);
      Details(
        Join(LinksOf(page.github), ", "), Join(LinksOf(page.website), ", "), Join(LinksOf(page.social), ", "),
        FirstText(page.locationTexts), Description(page),
        st.members, st.models, st.datasets,
        clock.today, Success, clock.timestamp)
  }

  /** `extract_organization_details`: fetch with retries, then build the record. */
  function ExtractDetails(replies: seq<Reply>, clock: Clock): Details
    requires |replies| >= |RetryDelays|
  {
    var f := RequestWithRetry(replies);
    if f.page.None? then FailureDetails(f.status, clock) else PageDetails(f.page.value, clock)
  }

  /**
   * The status of the record: "success" exactly when a request answered 200
   * and extraction raised nothing; "failed_after_retries" with every content
   * field "Null" when no request answered 200; "error: " and the message with
   * every content field "Null" when extraction raised.
   */
  lemma ExtractDetailsStatus(replies: seq<Reply>, clock: Clock)
    requires |replies| >= |RetryDelays|
    ensures var d := ExtractDetails(replies, clock);
      var f := RequestWithRetry(replies);
      && d.scrapeTimestamp == clock.timestamp
      && (!AnyOkFrom(replies, 0) ==> d.scrapeStatus == FailedAfterRetries && AllContentNull(d))
      && (AnyOkFrom(replies, 0) && f.page.value.failure.Some? ==>
            d.scrapeStatus == "error: " + f.page.value.failure.value && AllContentNull(d))
      && (d.scrapeStatus == Success <==> AnyOkFrom(replies, 0) && f.page.value.failure.None?)
  {
    RequestWithRetrySpec(replies);
    var f := RequestWithRetry(replies);
    if f.page.Some? && f.page.value.failure.Some? {
      var msg := f.page.value.failure.value;
      assert ("error: " + msg)[0] == 'e' != Success[0];
    }
  }

  /**
   * A successful record holds, for each link type, every link found joined by
   * ", ", and "Null" when no matched anchor had a non-empty href.
   */
  lemma SuccessLinksNonEmpty(page: Page, clock: Clock)
    requires page.failure.None?
    ensures var d := PageDetails(page, clock);
      && StartsWith(d.githubLinks, LinksOf(page.github)[0])
      && StartsWith(d.websiteLinks, LinksOf(page.website)[0])
      && StartsWith(d.socialMediaLinks, LinksOf(page.social)[0])
      && d.lastUpdated == clock.today
    ensures var d := PageDetails(page, clock);
      && (forall x :: x in LinksOf(page.github) ==> Contains(d.githubLinks, x))
      && (forall x :: x in LinksOf(page.website) ==> Contains(d.websiteLinks, x))
      && (forall x :: x in LinksOf(page.social) ==> Contains(d.socialMediaLinks, x))
    ensures var d := PageDetails(page, clock);
      && ((forall h :: h in Flatten(page.github) ==> h == []) ==> d.githubLinks == Null)
      && ((forall h :: h in Flatten(page.website) ==> h == []) ==> d.websiteLinks == Null)
      && ((forall h :: h in Flatten(page.social) ==> h == []) ==> d.socialMediaLinks == Null)
  {
    JoinContainsAll(LinksOf(page.github), ", ");
    JoinContainsAll(LinksOf(page.website), ", ");
    JoinContainsAll(LinksOf(page.social), ", ");
    LinksOfSpec(page.github);
    LinksOfSpec(page.website);
    LinksOfSpec(page.social);
  }
}

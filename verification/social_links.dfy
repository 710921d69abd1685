/**
 * The profile-based scraper (huggingface_scraper.py): the listing and
 * profile extraction results, the classifier that sorts a profile's social
 * links into five named slots, and the assembly of one record per
 * organisation of a listing page.
 *
 * The extraction service answers with arbitrary JSON, so the values here are
 * JSON values and the model follows Python where a value of an unexpected
 * type makes a step raise. Numbers are integers.
 */
module SocialLinks {
  import opened Wrappers
  import opened Strings

  datatype Json = JNull | JBool(b: bool) | JNum(n: int) | JStr(s: string) | JList(items: seq<Json>) | JObj(fields: map<string, Json>)

  /** Python truthiness of a JSON value. */
  predicate Truthy(v: Json) {
    match v
    case JNull => false
    case JBool(b) => b
    case JNum(n) => n != 0
    case JStr(s) => |s| > 0
    case JList(items) => |items| > 0
    case JObj(fields) => |fields| > 0
  }

  /** `d.get(key, default)` on a dict. */
  function Get(fields: map<string, Json>, key: string, default: Json): Json {
    if key in fields then fields[key] else default
  }

  /** What one call of the extraction service did: returned a value, or raised. */
  datatype Extraction = Returned(result: Json) | Raised

  // ---------------------------------------------------------------------------
  // scrape_org_list_page and scrape_org_profile
  // ---------------------------------------------------------------------------

  /** A dict whose "organizations" entry is a list. */
  predicate HoldsOrgList(v: Json) {
    v.JObj? && "organizations" in v.fields && v.fields["organizations"].JList?
  }

  /** A dict with a "company_name" or a "social_links" key. */
  predicate IsProfile(v: Json) {
    v.JObj? && ("company_name" in v.fields || "social_links" in v.fields)
  }

  /**
   * `scrape_org_list_page`: the `organizations` list when the answer is a
   * dict holding a list there, `[]` for any other answer, None when the call
   * raised.
   */
  function OrgList(listing: Extraction): (r: Option<seq<Json>>)
    ensures listing.Raised? <==> r.None?
    ensures r.Some? && |r.value| > 0 ==>
      listing.result.JObj? && "organizations" in listing.result.fields
      && listing.result.fields["organizations"] == JList(r.value)
    ensures listing.Returned? && HoldsOrgList(listing.result) ==>
      r == Some(listing.result.fields["organizations"].items)
    ensures listing.Returned? && !HoldsOrgList(listing.result) ==> r == Some([])
  {
    match listing
    case Raised => None
    case Returned(result) =>
      if Truthy(result) && result.JObj? && "organizations" in result.fields && result.fields["organizations"].JList? then
        Some(result.fields["organizations"].items)
      else
        Some([])
  }

  const DefaultProfile: map<string, Json> := map["company_name" := JStr(""), "social_links" := JList([])]

  /**
   * `scrape_org_profile` once the url is built: the answer when it is a dict
   * with a `company_name` or `social_links` key, an empty profile for any
   * other answer, None when the call raised.
   */
  function Profile(extraction: Extraction): (r: Option<map<string, Json>>)
    ensures extraction.Raised? <==> r.None?
    ensures r.Some? ==> r.value == DefaultProfile || ("company_name" in r.value || "social_links" in r.value)
    ensures extraction.Returned? && IsProfile(extraction.result) ==> r == Some(extraction.result.fields)
    ensures extraction.Returned? && !IsProfile(extraction.result) ==> r == Some(DefaultProfile)
  {
    match extraction
    case Raised => None
    case Returned(result) =>
      if Truthy(result) && result.JObj? && ("company_name" in result.fields || "social_links" in result.fields) then
        Some(result.fields)
      else
        Some(DefaultProfile)
  }

  // ---------------------------------------------------------------------------
  // extract_social_media
  // ---------------------------------------------------------------------------

  datatype Slot = LinkedIn | Twitter | GitHub | Instagram | Facebook

  datatype Socials = Socials(linkedin: Json, twitter: Json, github: Json, instagram: Json, facebook: Json)

  const NoSocials: Socials := Socials(JStr(""), JStr(""), JStr(""), JStr(""), JStr(""))

  function SlotValue(socials: Socials, slot: Slot): Json {
    match slot
    case LinkedIn => socials.linkedin
    case Twitter => socials.twitter
    case GitHub => socials.github
    case Instagram => socials.instagram
    case Facebook => socials.facebook
  }

  function WithSlot(socials: Socials, slot: Slot, url: Json): (r: Socials)
    ensures SlotValue(r, slot) == url
    ensures forall other :: other != slot ==> SlotValue(r, other) == SlotValue(socials, other)
  {
    match slot
    case LinkedIn => socials.(linkedin := url)
    case Twitter => socials.(twitter := url)
    case GitHub => socials.(github := url)
    case Instagram => socials.(instagram := url)
    case Facebook => socials.(facebook := url)
  }

  /** What the `if`/`elif` chain does with one link: fill a slot, fill none, or raise. */
  datatype Verdict = Fills(slot: Slot) | NoSlot | Raises

  /**
   * The chain on the lower-cased platform and the url: LinkedIn before
   * Twitter before GitHub before Instagram before Facebook, and a url
   * containing "x.com" counts as Twitter. The url is lower-cased only when
   * the platform names neither LinkedIn nor Twitter, and that raises when
   * the url is not a string.
   */
  function Classify(platform: string, url: Json): Verdict {
    if Contains(platform, "linkedin") then Fills(LinkedIn)
    else if Contains(platform, "twitter") then Fills(Twitter)
    else if !url.JStr? then Raises
    else if Contains(Lower(url.s), "x.com") then Fills(Twitter)
    else if Contains(platform, "github") then Fills(GitHub)
    else if Contains(platform, "instagram") then Fills(Instagram)
    else if Contains(platform, "facebook") then Fills(Facebook)
    else NoSlot
  }

  /**
   * One iteration over a link: entries that are not dicts and entries with
   * no url are passed over; a platform that is not a string raises on
   * `.lower()`.
   */
  function LinkVerdict(link: Json): Verdict {
    if !link.JObj? then NoSlot
    else
      var platform := Get(link.fields, "platform", JStr(""));
      if !platform.JStr? then Raises
      else
        var url := Get(link.fields, "url", JStr(""));
        if !Truthy(url) then NoSlot else Classify(Lower(platform.s), url)
  }

  function FillSlots(socials: Socials, links: seq<Json>): Option<Socials>
    decreases |links|
  {
    if |links| == 0 then Some(socials)
    else match LinkVerdict(links[0])
      case Raises => None
      case NoSlot => FillSlots(socials, links[1..])
      case Fills(slot) => FillSlots(WithSlot(socials, slot, links[0].fields["url"]), links[1..])
  }

  /**
   * `extract_social_media`: all five slots empty unless the argument is a
   * non-empty list, otherwise the slots its links fill. None stands for an
   * exception.
   */
  function ExtractSocialMedia(socialLinks: Json): Option<Socials> {
    if !Truthy(socialLinks) || !socialLinks.JList? then Some(NoSocials)
    else FillSlots(NoSocials, socialLinks.items)
  }

  /** The url the last link that fills `slot` puts there, looking from the end. */
  function LastUrlFor(links: seq<Json>, slot: Slot): Option<Json>
    decreases |links|
  {
    if |links| == 0 then None
    else
      var last := links[|links| - 1];
      if LinkVerdict(last) == Fills(slot) then Some(last.fields["url"])
      else LastUrlFor(links[..|links| - 1], slot)
  }

  lemma {:induction false} FillSlotsAppend(socials: Socials, links: seq<Json>, link: Json)
    decreases |links|
    ensures FillSlots(socials, links + [link]) ==
      match FillSlots(socials, links)
      case None => None
      case Some(s) => FillSlots(s, [link])
  {
    if |links| == 0 {
      assert links + [link] == [link];
    } else {
      assert (links + [link])[1..] == links[1..] + [link];
      match LinkVerdict(links[0])
      case Raises =>
      case NoSlot => FillSlotsAppend(socials, links[1..], link);
      case Fills(slot) => FillSlotsAppend(WithSlot(socials, slot, links[0].fields["url"]), links[1..], link);
    }
  }

  /**
   * Later links overwrite earlier ones: when nothing raises, each slot holds
   * the url of the last link classified into it, or what it held before.
   */
  lemma {:induction false} FillSlotsLastWins(socials: Socials, links: seq<Json>, slot: Slot)
    requires FillSlots(socials, links).Some?
    decreases |links|
    ensures SlotValue(FillSlots(socials, links).value, slot) == LastUrlFor(links, slot).GetOr(SlotValue(socials, slot))
  {
    if |links| > 0 {
      var n := |links| - 1;
      assert links == links[..n] + [links[n]];
      FillSlotsAppend(socials, links[..n], links[n]);
      FillSlotsLastWins(socials, links[..n], slot);
      assert [links[n]][1..] == [];
    }
  }

  /** The classifier raises exactly when one of the links does. */
  lemma {:induction false} FillSlotsRaises(socials: Socials, links: seq<Json>)
    decreases |links|
    ensures FillSlots(socials, links).None? <==> exists i :: 0 <= i < |links| && LinkVerdict(links[i]) == Raises
  {
    if |links| > 0 {
      match LinkVerdict(links[0])
      case Raises =>
      case NoSlot => FillSlotsRaises(socials, links[1..]);
      case Fills(slot) => FillSlotsRaises(WithSlot(socials, slot, links[0].fields["url"]), links[1..]);
      assert forall i :: 1 <= i < |links| ==> links[i] == links[1..][i - 1];
    }
  }

  /**
   * The five slots are always there: empty strings for a missing, empty or
   * non-list argument, and otherwise, when nothing raises, each the url of
   * the last link classified into it or the empty string.
   */
  lemma ExtractSocialMediaSpec(socialLinks: Json, slot: Slot)
    ensures !Truthy(socialLinks) || !socialLinks.JList? ==> ExtractSocialMedia(socialLinks) == Some(NoSocials)
    ensures socialLinks.JList? && ExtractSocialMedia(socialLinks).Some? ==>
      SlotValue(ExtractSocialMedia(socialLinks).value, slot) == LastUrlFor(socialLinks.items, slot).GetOr(JStr(""))
  {
    if socialLinks.JList? && ExtractSocialMedia(socialLinks).Some? {
      if |socialLinks.items| > 0 {
        FillSlotsLastWins(NoSocials, socialLinks.items, slot);
      }
    }
  }

  /** A filled slot holds the url of some link: a truthy value of a dict's `url` key. */
  lemma {:induction false} FilledSlotFromLink(links: seq<Json>, slot: Slot)
    requires LastUrlFor(links, slot).Some?
    decreases |links|
    ensures exists i :: (0 <= i < |links| && links[i].JObj? && "url" in links[i].fields
      && links[i].fields["url"] == LastUrlFor(links, slot).value && Truthy(LastUrlFor(links, slot).value))
  {
    var n := |links| - 1;
    if LinkVerdict(links[n]) != Fills(slot) {
      FilledSlotFromLink(links[..n], slot);
      var i :| 0 <= i < n && links[..n][i].JObj? && "url" in links[..n][i].fields
        && links[..n][i].fields["url"] == LastUrlFor(links, slot).value;
      assert links[i] == links[..n][i];
    }
  }

  /** Platform names win over urls, and among platforms LinkedIn comes first. */
  lemma LinkedInFirst()
    ensures Classify("linkedin twitter", JStr("https://x.com/acme")) == Fills(LinkedIn)
  {
    assert StartsWith("linkedin twitter", "linkedin");
  }

  /**
   * A platform called "x" names neither LinkedIn nor Twitter, so the link
   * lands in the Twitter slot through its x.com url, whatever its case.
   */
  lemma XUrlIsTwitter()
    ensures Classify("x", JStr("X.com/acme")) == Fills(Twitter)
  {
    assert !Contains("x", "linkedin") by { LacksChar("x", "linkedin", 'l'); }
    assert !Contains("x", "twitter") by { LacksChar("x", "twitter", 'w'); }
    assert Lower("X.com/acme") == "x.com/acme";
    assert StartsWith("x.com/acme", "x.com");
  }

  /** Looking at the url raises when it is not a string. */
  lemma NonStringUrlRaises()
    ensures Classify("github", JNum(7)) == Raises
  {
    assert !Contains("github", "linkedin") by { LacksChar("github", "linkedin", 'l'); }
    assert !Contains("github", "twitter") by { LacksChar("github", "twitter", 'w'); }
  }

  /** Every character of a substring occurs in the string. */
  lemma {:induction false} ContainsChars(s: string, sub: string)
    requires Contains(s, sub)
    decreases |s|
    ensures forall c :: c in sub ==> c in s
  {
    if !StartsWith(s, sub) {
      ContainsChars(s[1..], sub);
    }
  }

  lemma LacksChar(s: string, sub: string, c: char)
    requires c in sub && c !in s
    ensures !Contains(s, sub)
  {
    if Contains(s, sub) {
      ContainsChars(s, sub);
    }
  }

  // ---------------------------------------------------------------------------
  // scrape_page
  // ---------------------------------------------------------------------------

  /** One row of the workbook. */
  datatype Record = Record(
    companyName: Json, orgUrl: string,
    linkedin: Json, twitter: Json, github: Json, instagram: Json, facebook: Json,
    allSocialLinks: string)

  /**
   * Iterating over `profile.get("social_links", [])` for the "All Social
   * Links" column: the truthy `url` values in order. None when that raises:
   * the value is not iterable, or yields an element that is not a dict, or a
   * url is not a string (which `" | ".join` refuses).
   */
  function LinkUrls(links: Json): (r: Option<seq<string>>)
    ensures r.Some? && |r.value| > 0 ==> links.JList?
    ensures links.JList? ==> (r.None? <==> exists k :: 0 <= k < |links.items| && UrlRaises(links.items[k]))
    ensures links.JList? && r.Some? ==> r.value == TruthyUrls(links.items)
    ensures !links.JList? ==> (r.Some? <==> (links.JStr? || links.JObj?) && !Truthy(links))
    ensures !links.JList? && r.Some? ==> r.value == []
  {
    match links
    case JList(items) => UrlsOfSpec(items); UrlsOf(items)
    case JStr(s) => if |s| == 0 then Some([]) else None
    case JObj(fields) => if |fields| == 0 then Some([]) else None
    case _ => None
  }

  function UrlsOf(items: seq<Json>): Option<seq<string>>
    decreases |items|
  {
    if |items| == 0 then Some([])
    else if !items[0].JObj? then None
    else
      var url := Get(items[0].fields, "url", JStr(""));
      if Truthy(url) && !url.JStr? then None
      else match UrlsOf(items[1..])
        case None => None
        case Some(rest) => Some((if Truthy(url) then [url.s] else []) + rest)
  }

  /** `link.get("url", "")` on a dict. */
  function UrlOf(item: Json): Json
    requires item.JObj?
  {
    Get(item.fields, "url", JStr(""))
  }

  /** An element on which the comprehension raises: not a dict, or a truthy url that is not a string. */
  predicate UrlRaises(item: Json) {
    !item.JObj? || (Truthy(UrlOf(item)) && !UrlOf(item).JStr?)
  }

  /** The url an element contributes: its url when that is a non-empty string, nothing otherwise. */
  function UrlKept(item: Json): seq<string> {
    if item.JObj? && UrlOf(item).JStr? && |UrlOf(item).s| > 0 then [UrlOf(item).s] else []
  }

  /** The non-empty string urls of the elements, in order; the list is read from its end. */
  function TruthyUrls(items: seq<Json>): seq<string>
    decreases |items|
  {
    if |items| == 0 then [] else TruthyUrls(items[..|items| - 1]) + UrlKept(items[|items| - 1])
  }

  lemma {:induction false} TruthyUrlsCons(items: seq<Json>)
    requires |items| > 0
    decreases |items|
    ensures TruthyUrls(items) == UrlKept(items[0]) + TruthyUrls(items[1..])
  {
    var n := |items| - 1;
    if n == 0 {
      assert items[1..] == [];
      assert items[..n] == [];
    } else {
      TruthyUrlsCons(items[..n]);
      assert items[..n][1..] == items[1..][..n - 1];
      assert items[..n][0] == items[0];
      assert items[1..][n - 1] == items[n];
    }
  }

  /**
   * The comprehension raises exactly when some element raises, and otherwise
   * yields the non-empty string urls in order.
   */
  lemma {:induction false} UrlsOfSpec(items: seq<Json>)
    decreases |items|
    ensures UrlsOf(items).None? <==> exists k :: 0 <= k < |items| && UrlRaises(items[k])
    ensures UrlsOf(items).Some? ==> UrlsOf(items).value == TruthyUrls(items)
  {
    if |items| > 0 && !UrlRaises(items[0]) {
      UrlsOfSpec(items[1..]);
      TruthyUrlsCons(items);
      assert forall k :: 1 <= k < |items| ==> items[k] == items[1..][k - 1];
      if exists k :: 0 <= k < |items[1..]| && UrlRaises(items[1..][k]) {
        var k :| 0 <= k < |items[1..]| && UrlRaises(items[1..][k]);
        assert UrlRaises(items[k + 1]);
      }
    } else if |items| > 0 {
      assert UrlRaises(items[0]);
    }
  }

  /** What happens to one organisation of the list. */
  datatype OrgOutcome = Keep(record: Record) | Skip | Abort

  /**
   * One iteration of the loop of `scrape_page`. An organisation without a
   * link, whose link is not a string, whose profile call raised, or whose
   * record raised while being built is skipped. An entry that is not a dict
   * aborts the page: the handler that logs the error calls `.get` on it again.
   * `resolve` is `urljoin` against the Hugging Face host.
   */
  function ScrapeOrg(org: Json, extraction: Extraction, resolve: string -> string): OrgOutcome {
    if !org.JObj? then Abort
    else
      var name := Get(org.fields, "name", JStr("Unknown"));
      var link := Get(org.fields, "link", JStr(""));
      if !Truthy(link) || !link.JStr? then Skip
      else match Profile(extraction)
        case None => Skip
        case Some(profile) =>
          var links := Get(profile, "social_links", JList([]));
          match (ExtractSocialMedia(links), LinkUrls(links))
          case (Some(socials), Some(urls)) =>
            Keep(Record(
              Get(profile, "company_name", name), resolve(link.s),
              socials.linkedin, socials.twitter, socials.github, socials.instagram, socials.facebook,
              Join(urls, " | ")))
          case _ => Skip
  }

  function ScrapeOrgs(orgs: seq<Json>, extractions: seq<Extraction>, resolve: string -> string): (r: Option<seq<Record>>)
    requires |extractions| >= |orgs|
    ensures r.Some? ==> |r.value| <= |orgs|
    decreases |orgs|
  {
    if |orgs| == 0 then Some([])
    else match ScrapeOrg(orgs[0], extractions[0], resolve)
      case Abort => None
      case Skip => ScrapeOrgs(orgs[1..], extractions[1..], resolve)
      case Keep(record) =>
        match ScrapeOrgs(orgs[1..], extractions[1..], resolve)
        case None => None
        case Some(rest) => Some([record] + rest)
  }

  /** The record an outcome contributes: its record when kept, nothing otherwise. */
  function KeptOf(outcome: OrgOutcome): seq<Record> {
    if outcome.Keep? then [outcome.record] else []
  }

  /**
   * The records of the kept organisations, in listing order, the i-th
   * organisation's profile coming from `extractions[i]`; the list is read
   * from its end.
   */
  function KeptRecords(orgs: seq<Json>, extractions: seq<Extraction>, resolve: string -> string): seq<Record>
    requires |extractions| >= |orgs|
    decreases |orgs|
  {
    if |orgs| == 0 then []
    else
      var n := |orgs| - 1;
      KeptRecords(orgs[..n], extractions, resolve) + KeptOf(ScrapeOrg(orgs[n], extractions[n], resolve))
  }

  lemma {:induction false} KeptRecordsCons(orgs: seq<Json>, extractions: seq<Extraction>, resolve: string -> string)
    requires |extractions| >= |orgs| > 0
    decreases |orgs|
    ensures KeptRecords(orgs, extractions, resolve) ==
      KeptOf(ScrapeOrg(orgs[0], extractions[0], resolve)) + KeptRecords(orgs[1..], extractions[1..], resolve)
  {
    var n := |orgs| - 1;
    if n == 0 {
      assert orgs[..n] == [];
      assert orgs[1..] == [];
    } else {
      KeptRecordsCons(orgs[..n], extractions, resolve);
      assert orgs[..n][1..] == orgs[1..][..n - 1];
      assert orgs[..n][0] == orgs[0];
      assert orgs[1..][n - 1] == orgs[n];
      assert extractions[1..][n - 1] == extractions[n];
    }
  }

  /**
   * When every entry is a dict, the loop returns the records of the kept
   * organisations, in listing order.
   */
  lemma {:induction false} ScrapeOrgsKeeps(orgs: seq<Json>, extractions: seq<Extraction>, resolve: string -> string)
    requires |extractions| >= |orgs|
    requires forall i :: 0 <= i < |orgs| ==> orgs[i].JObj?
    decreases |orgs|
    ensures ScrapeOrgs(orgs, extractions, resolve) == Some(KeptRecords(orgs, extractions, resolve))
  {
    if |orgs| > 0 {
      assert forall i :: 0 <= i < |orgs[1..]| ==> orgs[1..][i] == orgs[i + 1];
      ScrapeOrgsKeeps(orgs[1..], extractions[1..], resolve);
      KeptRecordsCons(orgs, extractions, resolve);
      var rest := KeptRecords(orgs[1..], extractions[1..], resolve);
      var outcome := ScrapeOrg(orgs[0], extractions[0], resolve);
      assert orgs[0].JObj?;
      if outcome.Keep? {
        assert ScrapeOrgs(orgs, extractions, resolve) == Some([outcome.record] + rest);
      } else {
        assert outcome.Skip?;
        assert KeptOf(outcome) + rest == rest;
        assert ScrapeOrgs(orgs, extractions, resolve) == Some(rest);
      }
    }
  }

  /** Whether the profile extractions cover every organisation the listing yields. */
  predicate CoversListing(listing: Extraction, extractions: seq<Extraction>) {
    OrgList(listing).Some? ==> |extractions| >= |OrgList(listing).value|
  }

  /**
   * `scrape_page`: no records when the listing call raised or found no
   * organisation, otherwise the records of the organisations in order. The
   * profile of the i-th organisation comes from `extractions[i]`. None when
   * an entry aborts the page.
   */
  function ScrapePage(listing: Extraction, extractions: seq<Extraction>, resolve: string -> string): (r: Option<seq<Record>>)
    requires CoversListing(listing, extractions)
  {
    match OrgList(listing)
    case None => Some([])
    case Some(orgs) => if |orgs| == 0 then Some([]) else ScrapeOrgs(orgs, extractions, resolve)
  }

  /**
   * At most one record per organisation, none when the listing raised or
   * was empty, and a page aborts only for an organisation entry that is not
   * a dict.
   */
  lemma ScrapePageSpec(listing: Extraction, extractions: seq<Extraction>, resolve: string -> string)
    requires CoversListing(listing, extractions)
    ensures OrgList(listing).None? || OrgList(listing) == Some([]) ==> ScrapePage(listing, extractions, resolve) == Some([])
    ensures ScrapePage(listing, extractions, resolve).Some? && OrgList(listing).Some? ==>
      |ScrapePage(listing, extractions, resolve).value| <= |OrgList(listing).value|
    ensures ScrapePage(listing, extractions, resolve).None? ==>
      exists i :: 0 <= i < |OrgList(listing).value| && !OrgList(listing).value[i].JObj?
    ensures OrgList(listing).Some? ==>
      (ScrapePage(listing, extractions, resolve).None? <==>
        exists i :: 0 <= i < |OrgList(listing).value| && !OrgList(listing).value[i].JObj?)
    ensures OrgList(listing).Some? && (forall i :: 0 <= i < |OrgList(listing).value| ==> OrgList(listing).value[i].JObj?) ==>
      ScrapePage(listing, extractions, resolve) == Some(KeptRecords(OrgList(listing).value, extractions, resolve))
  {
    if OrgList(listing).Some? && forall i :: 0 <= i < |OrgList(listing).value| ==> OrgList(listing).value[i].JObj? {
      ScrapeOrgsKeeps(OrgList(listing).value, extractions, resolve);
    }
    if ScrapePage(listing, extractions, resolve).None? {
      ScrapeOrgsAborts(OrgList(listing).value, extractions, resolve);
    }
    if OrgList(listing).Some? && exists i :: 0 <= i < |OrgList(listing).value| && !OrgList(listing).value[i].JObj? {
      var i :| 0 <= i < |OrgList(listing).value| && !OrgList(listing).value[i].JObj?;
      NonDictAborts(OrgList(listing).value, extractions, resolve, i);
    }
  }

  /** An organisation entry that is not a dict aborts the page, whatever the entries before it did. */
  lemma {:induction false} NonDictAborts(orgs: seq<Json>, extractions: seq<Extraction>, resolve: string -> string, i: nat)
    requires |extractions| >= |orgs|
    requires i < |orgs| && !orgs[i].JObj?
    decreases i
    ensures ScrapeOrgs(orgs, extractions, resolve).None?
  {
    if i > 0 && ScrapeOrg(orgs[0], extractions[0], resolve) != Abort {
      assert orgs[1..][i - 1] == orgs[i];
      NonDictAborts(orgs[1..], extractions[1..], resolve, i - 1);
    }
  }

  lemma {:induction false} ScrapeOrgsAborts(orgs: seq<Json>, extractions: seq<Extraction>, resolve: string -> string)
    requires |extractions| >= |orgs|
    requires ScrapeOrgs(orgs, extractions, resolve).None?
    decreases |orgs|
    ensures exists i :: 0 <= i < |orgs| && !orgs[i].JObj?
  {
    if ScrapeOrg(orgs[0], extractions[0], resolve) != Abort {
      ScrapeOrgsAborts(orgs[1..], extractions[1..], resolve);
      var i :| 0 <= i < |orgs[1..]| && !orgs[1..][i].JObj?;
      assert orgs[i + 1] == orgs[1..][i];
    }
  }

  /**
   * A kept record: "Company Name" is the profile's `company_name` when the
   * key is there and the listed name otherwise, "Org URL" is the resolved
   * link, the five columns are the classifier's slots, and "All Social
   * Links" joins every truthy url with " | " — so each filled slot that is a
   * string is among them.
   */
  lemma KeptRecordSpec(org: Json, extraction: Extraction, resolve: string -> string)
    requires ScrapeOrg(org, extraction, resolve).Keep?
    ensures var record := ScrapeOrg(org, extraction, resolve).record;
      var profile := Profile(extraction).value;
      var links := Get(profile, "social_links", JList([]));
      && org.JObj? && "link" in org.fields && org.fields["link"].JStr? && |org.fields["link"].s| > 0
      && record.orgUrl == resolve(org.fields["link"].s)
      && record.companyName == (if "company_name" in profile then profile["company_name"] else Get(org.fields, "name", JStr("Unknown")))
      && LinkUrls(links).Some?
      && record.allSocialLinks == Join(LinkUrls(links).value, " | ")
      && (forall slot :: SlotValue(ExtractSocialMedia(links).value, slot) != JStr("") ==>
            links.JList? && exists i :: (0 <= i < |links.items| && links.items[i].JObj? && "url" in links.items[i].fields
              && links.items[i].fields["url"] == SlotValue(ExtractSocialMedia(links).value, slot)))
  {
    var profile := Profile(extraction).value;
    var links := Get(profile, "social_links", JList([]));
    forall slot | SlotValue(ExtractSocialMedia(links).value, slot) != JStr("")
      ensures links.JList? && exists i :: (0 <= i < |links.items| && links.items[i].JObj? && "url" in links.items[i].fields
        && links.items[i].fields["url"] == SlotValue(ExtractSocialMedia(links).value, slot))
    {
      ExtractSocialMediaSpec(links, slot);
      FilledSlotFromLink(links.items, slot);
    }
  }
}

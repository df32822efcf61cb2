/**
 * The pipeline of `get_article_data`: for every configured site, scrape the
 * page, cut the batch at the site's cursor, drop old records, collect what is
 * left and move the cursor to the freshest surviving title; then save the
 * configuration once. Loading and saving the YAML file are replaced by the
 * configuration given in and the configuration handed out to be saved.
 */
module DataPipeline {
  import opened Records
  import opened Scraper
  import opened DataCleaner

  /** One entry of the website-info file. */
  datatype SiteConfig = SiteConfig(searchClasses: Selectors, lastArticleViewed: string)

  /** The website-info dictionary: its keys in iteration order and its entries. */
  datatype WebsiteInfo = WebsiteInfo(urls: seq<string>, sites: map<string, SiteConfig>)
  {
    /** What every Python dictionary satisfies: each key once, and exactly the keys it maps. */
    ghost predicate Valid()
    {
      (forall i, j :: 0 <= i < j < |urls| ==> urls[i] != urls[j]) &&
      (forall u :: u in sites <==> u in urls)
    }
  }

  /** Both cleaners on one site's batch: cursor trim first, then recency trim against today. */
  function CleanBatch(batch: seq<Article>, cursor: string, today: Day, parseDate: string -> Option<Day>)
    : (r: Result<seq<Article>, CleanerError>)
    ensures r.Ok? ==> forall a :: a in r.value ==> a in batch && a.title != cursor
  {
    var trimmed := CursorTrim(batch, cursor);
    var r := RemoveOld(trimmed, None, today, parseDate);
    if r.Ok? then KeepRecentMembers(trimmed, today - 1, parseDate); r else r
  }

  /** The cursor trim runs first: the recency trim keeps, in order, the recent records
      before the cursor's record, and only a bad date before that record raises. */
  lemma CleanBatchTrimsThenFilters(batch: seq<Article>, cursor: string, today: Day, parseDate: string -> Option<Day>)
    ensures var r := CleanBatch(batch, cursor, today, parseDate);
      (r.Ok? ==> IsSubsequence(r.value, CursorTrim(batch, cursor))) &&
      (r.Ok? ==> forall a :: a in r.value <==> a in CursorTrim(batch, cursor) && Recent(a, today - 1, parseDate)) &&
      (r.Err? <==> today == 1 || exists i :: 0 <= i < CursorIndex(batch, cursor) && parseDate(batch[i].date).None?)
  {
    var trimmed := CursorTrim(batch, cursor);
    assert forall i :: 0 <= i < |trimmed| ==> trimmed[i] == batch[i];
    if today > 1 && KeepRecent(trimmed, today - 1, parseDate).Ok? {
      KeepRecentMembers(trimmed, today - 1, parseDate);
    }
  }

  /** The cursor after a site's pass: the first surviving title, or unchanged if none survived. */
  function Advance(config: SiteConfig, cleaned: seq<Article>): (next: SiteConfig)
    ensures next.searchClasses == config.searchClasses
    ensures next.lastArticleViewed == if cleaned == [] then config.lastArticleViewed else cleaned[0].title
  {
    if cleaned == [] then config else config.(lastArticleViewed := cleaned[0].title)
  }

  /** A cursor that moves, moves to a title other than the one it held. */
  lemma AdvancedCursorIsNew(batch: seq<Article>, config: SiteConfig, today: Day, parseDate: string -> Option<Day>)
    requires CleanBatch(batch, config.lastArticleViewed, today, parseDate).Ok?
    ensures var cleaned := CleanBatch(batch, config.lastArticleViewed, today, parseDate).value;
      var next := Advance(config, cleaned);
      next.searchClasses == config.searchClasses &&
      (cleaned != [] <==> next.lastArticleViewed != config.lastArticleViewed)
  {
    var cleaned := CleanBatch(batch, config.lastArticleViewed, today, parseDate).value;
    if cleaned != [] {
      assert cleaned[0] in cleaned;
    }
  }

  /** One pass of the loop body over a site with the given entry: scrape, with the description
      handler comparing against `handled`, then clean against the day `today`. */
  function SiteBatch(url: string, config: SiteConfig, getSoup: string -> Option<Document>, handled: Message,
                     today: Day, parseDate: string -> Option<Day>): Result<seq<Article>, CleanerError>
  {
    CleanBatch(ScrapedArticles(url, config.searchClasses, getSoup, handled), config.lastArticleViewed, today, parseDate)
  }

  /** A site's cleaned batch holds only scraped records, none titled with the site's cursor,
      each with a cleaned title and a date without "T". */
  lemma SiteBatchFromScraped(url: string, config: SiteConfig, getSoup: string -> Option<Document>,
                             handled: Message, today: Day, parseDate: string -> Option<Day>)
    ensures var r := SiteBatch(url, config, getSoup, handled, today, parseDate);
      r.Ok? ==> forall a :: a in r.value ==>
        a in ScrapedArticles(url, config.searchClasses, getSoup, handled) &&
        a.title != config.lastArticleViewed &&
        NoBreakSpace !in a.title && HairSpace !in a.title && 'T' !in a.date
  {
  }

  /** How one site's entry is turned into its cleaned batch, or the exception raised on the way. */
  type SiteCleaner = (string, SiteConfig) -> Result<seq<Article>, CleanerError>

  /** The loop body of `get_article_data` as a site cleaner. `clock(url)` is the date
      `date.today()` gives when the loop cleans site `url`: the clock is read once per site. */
  function SiteStep(getSoup: string -> Option<Document>, handled: Message, clock: string -> Day,
                    parseDate: string -> Option<Day>): SiteCleaner
  {
    (url, config) => SiteBatch(url, config, getSoup, handled, clock(url), parseDate)
  }

  /** The result of site number k, computed from the configuration as loaded. */
  function SourceResult(info: WebsiteInfo, k: nat, step: SiteCleaner): Result<seq<Article>, CleanerError>
    requires info.Valid() && k < |info.urls|
  {
    step(info.urls[k], info.sites[info.urls[k]])
  }

  /** The state after the loop has run over the first n sites: the collected articles and
      the dictionary as updated so far, or the exception that ended the run. */
  function RunPrefix(info: WebsiteInfo, n: nat, step: SiteCleaner): (r: Result<(seq<Article>, map<string, SiteConfig>), CleanerError>)
    requires info.Valid() && n <= |info.urls|
    ensures r.Ok? ==> forall u :: u in info.urls ==> u in r.value.1
  {
    if n == 0 then Ok(([], info.sites))
    else
      match RunPrefix(info, n - 1, step)
      case Err(e) => Err(e)
      case Ok((collected, sites)) =>
        var url := info.urls[n - 1];
        var config := sites[url];
        match step(url, config)
        case Err(e) => Err(e)
        case Ok(cleaned) => Ok((collected + cleaned, sites[url := Advance(config, cleaned)]))
  }

  /** The whole run. */
  function Run(info: WebsiteInfo, step: SiteCleaner): Result<(seq<Article>, map<string, SiteConfig>), CleanerError>
    requires info.Valid()
  {
    RunPrefix(info, |info.urls|, step)
  }

  /** The articles of the first n sites, each cleaned against its loaded cursor, site after site. */
  function Collected(info: WebsiteInfo, n: nat, step: SiteCleaner): seq<Article>
    requires info.Valid() && n <= |info.urls|
    requires forall k :: 0 <= k < n ==> SourceResult(info, k, step).Ok?
  {
    if n == 0 then []
    else Collected(info, n - 1, step) + SourceResult(info, n - 1, step).value
  }

  /** The sites the loop has not reached yet keep their loaded entries. */
  lemma {:induction false} RunPrefixLeavesRest(info: WebsiteInfo, n: nat, step: SiteCleaner)
    requires info.Valid() && n <= |info.urls|
    requires RunPrefix(info, n, step).Ok?
    ensures forall k :: n <= k < |info.urls| ==>
      RunPrefix(info, n, step).value.1[info.urls[k]] == info.sites[info.urls[k]]
  {
    if n > 0 {
      RunPrefixLeavesRest(info, n - 1, step);
      forall k | n <= k < |info.urls|
        ensures RunPrefix(info, n, step).value.1[info.urls[k]] == info.sites[info.urls[k]]
      {
        assert info.urls[k] != info.urls[n - 1];
      }
    }
  }

  /** The loop only rewrites entries: the dictionary keeps exactly its keys. */
  lemma {:induction false} RunPrefixKeepsKeys(info: WebsiteInfo, n: nat, step: SiteCleaner)
    requires info.Valid() && n <= |info.urls|
    requires RunPrefix(info, n, step).Ok?
    ensures RunPrefix(info, n, step).value.1.Keys == info.sites.Keys
  {
    if n > 0 {
      RunPrefixKeepsKeys(info, n - 1, step);
    }
  }

  /** One step of the run, with the site's entry as loaded. */
  lemma RunPrefixExtends(info: WebsiteInfo, n: nat, step: SiteCleaner)
    requires info.Valid() && 0 < n <= |info.urls|
    requires RunPrefix(info, n - 1, step).Ok?
    ensures var (collected, sites) := RunPrefix(info, n - 1, step).value;
      var url := info.urls[n - 1];
      RunPrefix(info, n, step) ==
        match SourceResult(info, n - 1, step)
        case Err(e) => Err(e)
        case Ok(cleaned) => Ok((collected + cleaned, sites[url := Advance(info.sites[url], cleaned)]))
  {
    RunPrefixLeavesRest(info, n - 1, step);
  }

  /** The loop gets past the first n sites exactly when none of them raises. */
  lemma {:induction false} RunPrefixOk(info: WebsiteInfo, n: nat, step: SiteCleaner)
    requires info.Valid() && n <= |info.urls|
    ensures RunPrefix(info, n, step).Ok? <==>
      forall k :: 0 <= k < n ==> SourceResult(info, k, step).Ok?
  {
    if n > 0 {
      RunPrefixOk(info, n - 1, step);
      if RunPrefix(info, n - 1, step).Ok? {
        RunPrefixExtends(info, n, step);
      }
    }
  }

  /** What the loop has collected after the first n sites: each one's cleaned batch, in order. */
  lemma {:induction false} RunPrefixCollects(info: WebsiteInfo, n: nat, step: SiteCleaner)
    requires info.Valid() && n <= |info.urls|
    requires RunPrefix(info, n, step).Ok?
    ensures forall k :: 0 <= k < n ==> SourceResult(info, k, step).Ok?
    ensures RunPrefix(info, n, step).value.0 == Collected(info, n, step)
  {
    RunPrefixOk(info, n, step);
    if n > 0 {
      RunPrefixOk(info, n - 1, step);
      RunPrefixCollects(info, n - 1, step);
      RunPrefixExtends(info, n, step);
    }
  }

  /** After the first n sites, each of them has its cursor advanced from its loaded value. */
  lemma {:induction false} RunPrefixAdvancesCursors(info: WebsiteInfo, n: nat, step: SiteCleaner)
    requires info.Valid() && n <= |info.urls|
    requires RunPrefix(info, n, step).Ok?
    ensures forall k :: 0 <= k < n ==> SourceResult(info, k, step).Ok?
    ensures forall k :: 0 <= k < n ==>
      RunPrefix(info, n, step).value.1[info.urls[k]] ==
        Advance(info.sites[info.urls[k]], SourceResult(info, k, step).value)
  {
    RunPrefixOk(info, n, step);
    if n > 0 {
      RunPrefixOk(info, n - 1, step);
      RunPrefixAdvancesCursors(info, n - 1, step);
      RunPrefixExtends(info, n, step);
      var url := info.urls[n - 1];
      var updated := RunPrefix(info, n, step).value.1;
      var sites := RunPrefix(info, n - 1, step).value.1;
      forall k | 0 <= k < n - 1
        ensures updated[info.urls[k]] == sites[info.urls[k]]
      {
        assert info.urls[k] != url;
      }
    }
  }

  /** The run returns the concatenation, in iteration order, of each site's batch after
      cursor trim and then recency trim, each cleaned against the cursor it was loaded with. */
  lemma RunCollectsCleanedBatches(info: WebsiteInfo, step: SiteCleaner)
    requires info.Valid()
    requires Run(info, step).Ok?
    ensures forall k :: 0 <= k < |info.urls| ==> SourceResult(info, k, step).Ok?
    ensures Run(info, step).value.0 == Collected(info, |info.urls|, step)
  {
    RunPrefixCollects(info, |info.urls|, step);
  }

  /** The run fails exactly when cleaning some site's batch raises. */
  lemma RunFailsIffSomeSiteFails(info: WebsiteInfo, step: SiteCleaner)
    requires info.Valid()
    ensures Run(info, step).Err? <==>
      exists k :: 0 <= k < |info.urls| && SourceResult(info, k, step).Err?
  {
    RunPrefixOk(info, |info.urls|, step);
  }

  /** After a run, the dictionary has the same keys and selectors; each site's cursor is the
      first title of its cleaned batch when that is non-empty, and otherwise is unchanged. */
  lemma RunUpdatesOnlyCursors(info: WebsiteInfo, step: SiteCleaner)
    requires info.Valid()
    requires Run(info, step).Ok?
    ensures var sites := Run(info, step).value.1;
      sites.Keys == info.sites.Keys &&
      forall k :: 0 <= k < |info.urls| ==>
        SourceResult(info, k, step).Ok? &&
        (var url := info.urls[k];
         var cleaned := SourceResult(info, k, step).value;
         sites[url].searchClasses == info.sites[url].searchClasses &&
         sites[url].lastArticleViewed == (if cleaned == [] then info.sites[url].lastArticleViewed else cleaned[0].title))
  {
    RunPrefixKeepsKeys(info, |info.urls|, step);
    RunPrefixAdvancesCursors(info, |info.urls|, step);
  }

  /** A site cleaned by the pipeline's own step keeps none of the records titled with its
      cursor, so a non-empty batch moves the cursor to a different title. */
  lemma StepMovesCursorToNewTitle(url: string, config: SiteConfig, getSoup: string -> Option<Document>,
                                  handled: Message, clock: string -> Day, parseDate: string -> Option<Day>)
    requires SiteStep(getSoup, handled, clock, parseDate)(url, config).Ok?
    ensures var cleaned := SiteStep(getSoup, handled, clock, parseDate)(url, config).value;
      cleaned != [] ==> cleaned[0].title != config.lastArticleViewed
  {
    var batch := ScrapedArticles(url, config.searchClasses, getSoup, handled);
    AdvancedCursorIsNew(batch, config, clock(url), parseDate);
  }

  /** In the pipeline's own run, a site's cursor changes exactly when its cleaned batch is
      non-empty, and then to a title different from the one it held. */
  lemma RunMovesCursorsToNewTitles(info: WebsiteInfo, getSoup: string -> Option<Document>, handled: Message,
                                   clock: string -> Day, parseDate: string -> Option<Day>)
    requires info.Valid()
    requires Run(info, SiteStep(getSoup, handled, clock, parseDate)).Ok?
    ensures var step := SiteStep(getSoup, handled, clock, parseDate);
      var sites := Run(info, step).value.1;
      forall k :: 0 <= k < |info.urls| ==>
        SourceResult(info, k, step).Ok? &&
        (SourceResult(info, k, step).value != [] <==>
         sites[info.urls[k]].lastArticleViewed != info.sites[info.urls[k]].lastArticleViewed)
  {
    var step := SiteStep(getSoup, handled, clock, parseDate);
    forall k | 0 <= k < |info.urls| && SourceResult(info, k, step).Ok?
      ensures SourceResult(info, k, step).value != [] ==>
        SourceResult(info, k, step).value[0].title != info.sites[info.urls[k]].lastArticleViewed
    {
      StepMovesCursorToNewTitle(info.urls[k], info.sites[info.urls[k]], getSoup, handled, clock, parseDate);
    }
    CursorsMoveWithBatches(info, step);
  }

  /** For any step whose non-empty batches start with a title other than the site's
      cursor, a site's cursor changes exactly when its cleaned batch is non-empty. */
  lemma CursorsMoveWithBatches(info: WebsiteInfo, step: SiteCleaner)
    requires info.Valid()
    requires Run(info, step).Ok?
    requires forall k :: 0 <= k < |info.urls| && SourceResult(info, k, step).Ok? && SourceResult(info, k, step).value != [] ==>
      SourceResult(info, k, step).value[0].title != info.sites[info.urls[k]].lastArticleViewed
    ensures var sites := Run(info, step).value.1;
      forall k :: 0 <= k < |info.urls| ==>
        SourceResult(info, k, step).Ok? &&
        (SourceResult(info, k, step).value != [] <==>
         sites[info.urls[k]].lastArticleViewed != info.sites[info.urls[k]].lastArticleViewed)
  {
    RunUpdatesOnlyCursors(info, step);
  }

  /** `step` cleans every site as the pipeline's loop body does. */
  ghost predicate IsSiteStep(step: SiteCleaner, getSoup: string -> Option<Document>, handled: Message,
                             clock: string -> Day, parseDate: string -> Option<Day>)
  {
    forall url, config {:trigger SiteBatch(url, config, getSoup, handled, clock(url), parseDate)} ::
      step(url, config) == SiteBatch(url, config, getSoup, handled, clock(url), parseDate)
  }

  /** The loop body for one site: scrape its page, then run both cleaners on a fresh
      results list, with the day read for this site. The cleaned batch, or the exception
      the recency trim raised: what `step` gives for the site whenever `step` is the loop
      body. Stating it through `step` keeps the scraper's definition out of the loop's proof. */
  method CleanSite(url: string, config: SiteConfig, getSoup: string -> Option<Document>, handled: Message,
                   clock: string -> Day, parseDate: string -> Option<Day>, ghost step: SiteCleaner)
    returns (outcome: Result<seq<Article>, CleanerError>)
    ensures IsSiteStep(step, getSoup, handled, clock, parseDate) ==> outcome == step(url, config)
  {
    var scraped, _ := ScrapeWebsite(url, config.searchClasses, getSoup, handled);
    var scrapingResults := new ScrapingResults(scraped);
    scrapingResults.RemovePreviouslyViewedArticles(config.lastArticleViewed);
    var removed := scrapingResults.RemoveOldArticles(None, clock(url), parseDate);
    if removed.Fail? {
      assert Err(removed.error) == SiteBatch(url, config, getSoup, handled, clock(url), parseDate);
      return Err(removed.error);
    }
    outcome := Ok(scrapingResults.articles);
    assert outcome == SiteBatch(url, config, getSoup, handled, clock(url), parseDate);
  }

  /**
   * `get_article_data`, with `scrape_website` comparing against the message as written.
   * `clock(url)` is the day `date.today()` gives while site `url` is cleaned. `saved` is
   * what is handed to `save_website_info`: the updated dictionary once every site is
   * done, or None when an exception inside the loop skipped the save, in which case the
   * result is an empty list.
   */
  method GetArticleData(info: WebsiteInfo, getSoup: string -> Option<Document>, clock: string -> Day,
                        parseDate: string -> Option<Day>)
    returns (articles: seq<Article>, saved: Option<WebsiteInfo>)
    requires info.Valid()
    ensures var run := Run(info, SiteStep(getSoup, WrittenMessage, clock, parseDate));
      run.Ok? ==> articles == run.value.0 && saved == Some(WebsiteInfo(info.urls, run.value.1))
    ensures Run(info, SiteStep(getSoup, WrittenMessage, clock, parseDate)).Err? ==> articles == [] && saved == None
  {
    articles, saved := CleanSites(info, getSoup, WrittenMessage, clock, parseDate,
                                  SiteStep(getSoup, WrittenMessage, clock, parseDate));
  }

  /** The loop of `get_article_data` over the sites, in the order of the dictionary's keys. */
  method CleanSites(info: WebsiteInfo, getSoup: string -> Option<Document>, handled: Message,
                    clock: string -> Day, parseDate: string -> Option<Day>, ghost step: SiteCleaner)
    returns (articles: seq<Article>, saved: Option<WebsiteInfo>)
    requires info.Valid()
    requires IsSiteStep(step, getSoup, handled, clock, parseDate)
    ensures Run(info, step).Ok? ==> articles == Run(info, step).value.0 && saved == Some(WebsiteInfo(info.urls, Run(info, step).value.1))
    ensures Run(info, step).Err? ==> articles == [] && saved == None
  {
    var websiteInfo := info.sites;
    var articleInfo: seq<Article> := [];
    var n := 0;
    while n < |info.urls|
      invariant n <= |info.urls|
      invariant RunPrefix(info, n, step) == Ok((articleInfo, websiteInfo))
    {
      var url := info.urls[n];
      var config := websiteInfo[url];
      var outcome := CleanSite(url, config, getSoup, handled, clock, parseDate, step);
      if outcome.Err? {
        RunPrefixStops(info, n, step, articleInfo, websiteInfo);
        return [], None;
      }
      var cleaned := outcome.value;
      RunPrefixAdvances(info, n, step, articleInfo, websiteInfo, cleaned);
      articleInfo := articleInfo + cleaned;
      websiteInfo := websiteInfo[url := Advance(config, cleaned)];
      n := n + 1;
    }
    saved := Some(WebsiteInfo(info.urls, websiteInfo));
    articles := articleInfo;
  }
  /** One more site cleaned without an exception extends the run by its batch. */
  lemma RunPrefixAdvances(info: WebsiteInfo, n: nat, step: SiteCleaner, collected: seq<Article>,
                          sites: map<string, SiteConfig>, cleaned: seq<Article>)
    requires info.Valid() && n < |info.urls|
    requires RunPrefix(info, n, step) == Ok((collected, sites))
    requires step(info.urls[n], sites[info.urls[n]]) == Ok(cleaned)
    ensures RunPrefix(info, n + 1, step) ==
      Ok((collected + cleaned, sites[info.urls[n] := Advance(sites[info.urls[n]], cleaned)]))
  {
  }

  /** A site whose cleaning raises ends the whole run with an exception. */
  lemma RunPrefixStops(info: WebsiteInfo, n: nat, step: SiteCleaner, collected: seq<Article>,
                       sites: map<string, SiteConfig>)
    requires info.Valid() && n < |info.urls|
    requires RunPrefix(info, n, step) == Ok((collected, sites))
    requires step(info.urls[n], sites[info.urls[n]]).Err?
    ensures Run(info, step).Err?
  {
    FailurePersists(info, n + 1, step);
  }

  /** Once the loop has raised, the run has raised. */
  lemma {:induction false} FailurePersists(info: WebsiteInfo, n: nat, step: SiteCleaner)
    requires info.Valid() && n <= |info.urls|
    requires RunPrefix(info, n, step).Err?
    ensures Run(info, step).Err?
    decreases |info.urls| - n
  {
    if n < |info.urls| {
      FailurePersists(info, n + 1, step);
    }
  }
}

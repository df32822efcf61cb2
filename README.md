# Article recommender: the scraping and cleaning core in Dafny

The article recommender collects new articles from a list of publication pages
and mails their links to readers. This project models the part that turns
pages into article records:

- the page scraper (`Web_Scraper.py`): `clean_string`, `get_webpage_blocks`,
  the title, link, date and sub-description lookups, and `scrape_website`;
- the two cleaners (`Data_Cleaner.py`): `remove_previously_viewed_articles` cuts
  a site's batch at the last article already seen; `remove_old_articles` keeps
  the records dated yesterday or later. Both change the caller's list in place.
  They are methods of the class `DataCleaner.ScrapingResults`, specified by the
  functions `CursorTrim` and `RemoveOld`;
- the pipeline `get_article_data` (`Data_Pipeline.py`): for each configured site
  in dictionary order it scrapes, cleans, collects, and moves the site's cursor
  to the freshest surviving title. The updated configuration is saved once at
  the end. An exception raised inside the loop skips the save and the call
  answers `[]`;
- `format_html_element` (`Configure_Email.py`): the HTML anchor for one article.

Files:

- `records.dfy`: the article record, `Option`, `Result` and `Outcome`, and the
  day ordinal `Day`.
- `string_order.dfy`: Python's string order and `sorted` over strings.
- `scraper.dfy`: the scraper.
- `data_cleaner.dfy`: the cleaners.
- `data_pipeline.dfy`: the pipeline.
- `configure_email.dfy`: the anchor.

Modelling choices:

- The fetch and parse of a page, `get_soup`, is a parameter
  `getSoup: string -> Option<Document>`. `None` stands for the request
  exceptions `get_soup` catches.
- The text the description handler compares against is a parameter `handled` of
  the scraper. The pipeline runs it with `Scraper.WrittenMessage`, the text the
  program compares against; `Scraper.IntendedMessage` is the evidently intended
  one (see Findings).
- A parsed page is reduced to what the lookups read from each matched `<div>`
  (`Scraper.Block`).
- A Python dictionary of selectors is a sequence of (key, class) pairs in
  insertion order.
- `datetime.date.fromisoformat` is a parameter `parseDate` that gives a day
  ordinal, or `None` where Python raises `ValueError`. `date.today()` is a
  parameter `today` of the cleaners. In the pipeline it is a parameter
  `clock: string -> Day`: the day read while a given site is cleaned, because
  `remove_old_articles` reads the clock again for every site.
- Loading the website-info file is the `WebsiteInfo` value passed in. Saving it
  is the `saved` out-parameter of `GetArticleData`.

## Model

| member | source | states |
|---|---|---|
| `Scraper.Replace` | original_codebase/Web_Scraper/Web_Scraper.py:157 | one-character `str.replace`: same length, every occurrence of the old character replaced, every other character kept |
| `Scraper.CleanString` | original_codebase/Web_Scraper/Web_Scraper.py:155-157 | the result has the input's length. Each no-break space and hair space becomes a space and every other character is kept. Neither space is left |
| `Scraper.CleanStringIdempotent` | original_codebase/Web_Scraper/Web_Scraper.py:155-157 | cleaning a cleaned string changes nothing |
| `Scraper.ToMap` | original_codebase/Web_Scraper/Web_Scraper.py:93 | `search_classes[key]` is defined exactly for the dictionary's keys |
| `Scraper.ToMapLookup` | original_codebase/Web_Scraper/Web_Scraper.py:93 | in a dictionary without repeated keys, `search_classes[key]` is the class stored with that key |
| `Scraper.DistinctKeysTail` | original_codebase/Web_Scraper/Web_Scraper.py:90 | dropping the first entry keeps the keys distinct, and the first key is not among the rest |
| `Scraper.SameEntriesSameKeys` | original_codebase/Web_Scraper/Web_Scraper.py:90 | two dictionaries with the same entries have the same keys, counted with multiplicity |
| `Scraper.SortedKeysAreKeys` | original_codebase/Web_Scraper/Web_Scraper.py:90-93 | every key of the sorted key list can be looked up in the dictionary |
| `Scraper.GetWebpageBlocks` | original_codebase/Web_Scraper/Web_Scraper.py:88-95 | an empty selector dictionary matches no blocks |
| `Scraper.WebpageBlocksFollowSortedKeys` | original_codebase/Web_Scraper/Web_Scraper.py:88-95 | the blocks are the `find_all` matches of each key's class, concatenated in ascending key order. This holds for any sorted arrangement of the keys, so it does not depend on the sorting algorithm |
| `Scraper.KeyCounts` | original_codebase/Web_Scraper/Web_Scraper.py:90 | in a dictionary without repeated keys, each key occurs exactly once in its key list |
| `Scraper.WebpageBlocksOrderIndependent` | original_codebase/Web_Scraper/Web_Scraper.py:88-95 | two dictionaries with the same entries give the same blocks, whatever their insertion order |
| `Scraper.TextInjective` | original_codebase/Web_Scraper/Web_Scraper.py:144-148 | two exception messages have equal texts exactly when they are the same message, so comparing `str(e)` tells the messages apart |
| `Scraper.DatePart` | original_codebase/Web_Scraper/Web_Scraper.py:116 | `split("T")[0]` is the longest prefix without `T`; a longer stamp has a `T` right after it |
| `Scraper.ArticleTitle` | original_codebase/Web_Scraper/Web_Scraper.py:100 | a block's title exists exactly when it has an `a > h3` heading. It is the heading cleaned, of the same length and without no-break or hair spaces. A missing heading raises `AttributeError` |
| `Scraper.ArticleLink` | original_codebase/Web_Scraper/Web_Scraper.py:106 | a block's link exists exactly when its `<a>` has an `href`, and is that `href`. Otherwise the lookup raises |
| `Scraper.SubmissionDate` | original_codebase/Web_Scraper/Web_Scraper.py:116 | a block's date exists exactly when it has a `<time>` with a `datetime`. It is the stamp's date part, the part before the first `T`. Otherwise the lookup raises |
| `Scraper.SubDescription` | original_codebase/Web_Scraper/Web_Scraper.py:138-148 | a present description is returned cleaned. The call raises exactly when the heading is missing, or when the description is missing and its `get_text` message is not the one compared against. A description it answers without one is `""` |
| `Scraper.Collect` | original_codebase/Web_Scraper/Web_Scraper.py:98-102 | a list comprehension over the blocks succeeds exactly when every block's lookup does, and then holds each block's value in order. Otherwise it raises the exception of the first block that fails |
| `Scraper.GetArticleTitles` | original_codebase/Web_Scraper/Web_Scraper.py:97-102 | every title is cleaned: no no-break space or hair space is left |
| `Scraper.TitlesAreCleanedHeadings` | original_codebase/Web_Scraper/Web_Scraper.py:97-102 | `get_article_titles` succeeds exactly when every block has a heading, and then holds one title per block: the block's heading, cleaned |
| `Scraper.ArticleLinksAreHrefs` | original_codebase/Web_Scraper/Web_Scraper.py:105-106 | `get_article_links` succeeds exactly when every block has an `href`, and then lists those `href`s in block order |
| `Scraper.GetArticleSubmissionDates` | original_codebase/Web_Scraper/Web_Scraper.py:113-117 | no date contains `T` |
| `Scraper.DatesAreDateParts` | original_codebase/Web_Scraper/Web_Scraper.py:113-117 | `get_article_submission_dates` succeeds exactly when every block has a `datetime`, and then holds one date per block: the part of its stamp before the first `T` |
| `Scraper.RecordFields` | original_codebase/Web_Scraper/Web_Scraper.py:177-185 | a block without a heading raises on its title first. A record has a cleaned title, the block's `href` as link, a date without `T`, and `""` for a missing description when the handler swallows it |
| `Scraper.CompleteParts` | original_codebase/Web_Scraper/Web_Scraper.py:177-185 | a block gives a record exactly when its title, link, date and description lookups all succeed. The record is then made of those four values |
| `Scraper.RecordOfBlock` | original_codebase/Web_Scraper/Web_Scraper.py:169-185 | once the titles, links and dates lists exist, they are as long as the block list. Record i then depends only on block i's description and is made of the i-th title, link and date |
| `Scraper.PageArticles` | original_codebase/Web_Scraper/Web_Scraper.py:177-185 | when every block is complete there is one record per block, in block order. A single failing block leaves no records at all |
| `Scraper.AssembledSoFarPointwise` | original_codebase/Web_Scraper/Web_Scraper.py:177-185 | the records built so far are, position by position, the records of the first blocks |
| `Scraper.LookupFailureEmptiesPage` | original_codebase/Web_Scraper/Web_Scraper.py:169-185 | if titles, links or dates cannot all be looked up, the page gives no records |
| `Scraper.AssembleStep` | original_codebase/Web_Scraper/Web_Scraper.py:177-185 | one turn of the comprehension: the next block's description either raises, and the page gives no records, or completes the next record from the i-th title, link and date |
| `Scraper.AssembledPage` | original_codebase/Web_Scraper/Web_Scraper.py:177-185 | once every block is assembled, the records are the page's records |
| `Scraper.AssembleArticles` | original_codebase/Web_Scraper/Web_Scraper.py:168-185 | the comprehension run block by block returns the page's records, or none when any lookup raises. It follows the order in which titles, links, dates and descriptions are computed |
| `Scraper.ScrapedArticles` | original_codebase/Web_Scraper/Web_Scraper.py:159-228 | an empty selector dictionary or a page that cannot be fetched gives `[]`. Every scraped article has a cleaned title and a date without `T` |
| `Scraper.ScrapeWebsite` | original_codebase/Web_Scraper/Web_Scraper.py:159-228 | with the handler comparing against a given text: an empty selector dictionary gives `[]` without a fetch, and so does a page that cannot be fetched. Otherwise the result holds one record per block when every block is complete, and `[]` when any lookup raises |
| `Scraper.MissingDescriptionEmptiesPageAsWritten` | original_codebase/Web_Scraper/Web_Scraper.py:145 | as written, the compared text differs from Python's message, so one block without a description leaves the page with no records |
| `Scraper.MissingDescriptionKeepsPage` | original_codebase/Web_Scraper/Web_Scraper.py:139-148 | with the intended message, every block with a heading, link and date gives its record. A missing description becomes `""` |
| `StringOrder.LeTotal` | original_codebase/Web_Scraper/Web_Scraper.py:90 | Python's string order is total |
| `StringOrder.LeAntisymmetric` | original_codebase/Web_Scraper/Web_Scraper.py:90 | the order is antisymmetric |
| `StringOrder.LeTransitive` | original_codebase/Web_Scraper/Web_Scraper.py:90 | the order is transitive |
| `StringOrder.Insert` | original_codebase/Web_Scraper/Web_Scraper.py:90 | inserting into a sorted list keeps it sorted and adds exactly the one element |
| `StringOrder.Sort` | original_codebase/Web_Scraper/Web_Scraper.py:90 | `sorted(...)` gives a sorted permutation of the keys |
| `StringOrder.SortedUnique` | original_codebase/Web_Scraper/Web_Scraper.py:90 | two sorted permutations of the same keys are equal |
| `DataCleaner.CursorIndex` | original_codebase/Web_Scraper/Data_Cleaner.py:12-17 | the first position whose title is the cursor, or the length when no title is |
| `DataCleaner.CursorTrim` | original_codebase/Web_Scraper/Data_Cleaner.py:9-19 | the kept records are a prefix of the batch and none of them has the cursor's title. The record after the prefix has the cursor's title. A batch without that title is kept whole |
| `DataCleaner.CursorTrimIdempotent` | original_codebase/Web_Scraper/Data_Cleaner.py:9-19 | trimming twice at the same cursor is trimming once |
| `DataCleaner.IndexOfLastViewedArticle` | original_codebase/Web_Scraper/Data_Cleaner.py:12-17 | the loop with its `else` returns the first index whose title matches, or the length |
| `DataCleaner.CursorIndexUnique` | original_codebase/Web_Scraper/Data_Cleaner.py:12-17 | any index that is the first match is `CursorIndex` |
| `DataCleaner.KeepRecent` | original_codebase/Web_Scraper/Data_Cleaner.py:32-36 | the comprehension raises exactly when some record's date does not parse |
| `DataCleaner.KeepRecentExact` | original_codebase/Web_Scraper/Data_Cleaner.py:32-36 | the kept records are a subsequence of the batch. Each recent record is kept as often as it occurs and no other record is kept |
| `DataCleaner.KeepRecentMembers` | original_codebase/Web_Scraper/Data_Cleaner.py:32-36 | a record is kept exactly when it is in the batch and dated on or after the previous day |
| `DataCleaner.KeepRecentIdempotent` | original_codebase/Web_Scraper/Data_Cleaner.py:32-36 | filtering the kept records again keeps all of them |
| `DataCleaner.ReferenceDate` | original_codebase/Web_Scraper/Data_Cleaner.py:25-28 | without a non-empty `current_date` the reference is today. A supplied one is parsed: it is used when it parses and raises `ValueError` for it otherwise |
| `DataCleaner.RemoveOld` | original_codebase/Web_Scraper/Data_Cleaner.py:22-36 | against today, the call raises `OverflowError` exactly when today is 0001-01-01. When it passes, the new list is a subsequence of the old one |
| `DataCleaner.TodayIsTheReference` | original_codebase/Web_Scraper/Data_Cleaner.py:25-36 | without a supplied date the call keeps exactly what the comprehension keeps with yesterday as the cutoff. On 0001-01-01 it raises `OverflowError` |
| `DataCleaner.SuppliedDateOverridesToday` | original_codebase/Web_Scraper/Data_Cleaner.py:22-36 | a non-empty `current_date` replaces today. If it does not parse the call raises `ValueError`; otherwise the cutoff is the day before it |
| `DataCleaner.ScrapingResults.constructor` | original_codebase/Web_Scraper/Data_Pipeline.py:39-41 | the list holds the scraped records |
| `DataCleaner.ScrapingResults.RemovePreviouslyViewedArticles` | original_codebase/Web_Scraper/Data_Cleaner.py:9-19 | the list becomes its cursor trim |
| `DataCleaner.ScrapingResults.RemoveOldArticles` | original_codebase/Web_Scraper/Data_Cleaner.py:22-36 | the call passes exactly when the reference date and every record date parse and the reference is after 0001-01-01. The list then becomes its recent records; otherwise it is left unchanged and the error is reported |
| `DataPipeline.CleanBatch` | original_codebase/Web_Scraper/Data_Pipeline.py:42-47 | after both cleaners, every record left came from the batch and none has the cursor's title |
| `DataPipeline.CleanBatchTrimsThenFilters` | original_codebase/Web_Scraper/Data_Pipeline.py:42-47 | the cursor trim runs before the recency trim. The cleaned batch is a subsequence of the trimmed batch and holds exactly its recent records. The call raises exactly on 0001-01-01 or when a record before the cursor's record has a malformed date, so a bad date at or after that record never raises |
| `DataPipeline.Advance` | original_codebase/Web_Scraper/Data_Pipeline.py:49-50 | the selectors are kept. The cursor becomes the first cleaned title, and stays when the cleaned batch is empty |
| `DataPipeline.SiteBatchFromScraped` | original_codebase/Web_Scraper/Data_Pipeline.py:39-47 | a site's cleaned batch holds only records the scraper returned, none titled with the site's cursor, each with a cleaned title and a date without `T` |
| `DataPipeline.AdvancedCursorIsNew` | original_codebase/Web_Scraper/Data_Pipeline.py:49-50 | the selectors are kept. The cursor changes exactly when the cleaned batch is non-empty |
| `DataPipeline.RunPrefix` | original_codebase/Web_Scraper/Data_Pipeline.py:38-50 | the dictionary keeps every site while the loop runs |
| `DataPipeline.RunPrefixLeavesRest` | original_codebase/Web_Scraper/Data_Pipeline.py:38-50 | the sites the loop has not reached keep their loaded entries |
| `DataPipeline.RunPrefixKeepsKeys` | original_codebase/Web_Scraper/Data_Pipeline.py:38-50 | the loop only rewrites entries: the dictionary keeps exactly its keys |
| `DataPipeline.RunPrefixExtends` | original_codebase/Web_Scraper/Data_Pipeline.py:38-50 | one more site is cleaned with the entry it was loaded with |
| `DataPipeline.RunPrefixOk` | original_codebase/Web_Scraper/Data_Pipeline.py:38-50 | the loop gets past the first n sites exactly when none of them raises |
| `DataPipeline.RunPrefixCollects` | original_codebase/Web_Scraper/Data_Pipeline.py:38-48 | after n sites the collected list is their cleaned batches concatenated in order |
| `DataPipeline.RunPrefixAdvancesCursors` | original_codebase/Web_Scraper/Data_Pipeline.py:38-50 | after n sites each of them holds its loaded entry advanced by its own cleaned batch |
| `DataPipeline.RunCollectsCleanedBatches` | original_codebase/Web_Scraper/Data_Pipeline.py:38-55 | the returned list is every site's cleaned batch, in dictionary order, each cleaned against its loaded cursor |
| `DataPipeline.RunFailsIffSomeSiteFails` | original_codebase/Web_Scraper/Data_Pipeline.py:38-70 | the run raises exactly when cleaning some site raises |
| `DataPipeline.RunUpdatesOnlyCursors` | original_codebase/Web_Scraper/Data_Pipeline.py:38-54 | the saved dictionary has the same keys and selectors. Each cursor becomes the first surviving title, or stays when nothing survived |
| `DataPipeline.StepMovesCursorToNewTitle` | original_codebase/Web_Scraper/Data_Pipeline.py:39-50 | a cleaned non-empty batch starts with a title other than the site's cursor |
| `DataPipeline.RunMovesCursorsToNewTitles` | original_codebase/Web_Scraper/Data_Pipeline.py:38-54 | in the pipeline's own run, a site's cursor changes exactly when its cleaned batch is non-empty |
| `DataPipeline.CursorsMoveWithBatches` | original_codebase/Web_Scraper/Data_Pipeline.py:38-54 | for any site cleaner whose non-empty batches start with a new title, a site's cursor changes exactly when its batch is non-empty |
| `DataPipeline.CleanSite` | original_codebase/Web_Scraper/Data_Pipeline.py:39-47 | the loop body, with the day read for that site, gives the site's cleaned batch or the cleaner's exception, as the run's step does |
| `DataPipeline.CleanSites` | original_codebase/Web_Scraper/Data_Pipeline.py:37-55 | the loop returns the run's articles and saves the updated dictionary. If any site raises, it returns `[]` and saves nothing |
| `DataPipeline.GetArticleData` | original_codebase/Web_Scraper/Data_Pipeline.py:32-70 | `get_article_data`, with the handler message as written and the clock read once per site, returns the articles of the whole run and saves the updated configuration. If an exception arises in the loop, it returns `[]` without saving |
| `DataPipeline.RunPrefixAdvances` | original_codebase/Web_Scraper/Data_Pipeline.py:39-50 | a site cleaned without an exception appends its batch and advances its cursor |
| `DataPipeline.RunPrefixStops` | original_codebase/Web_Scraper/Data_Pipeline.py:56-70 | a site whose cleaning raises makes the whole run raise |
| `DataPipeline.FailurePersists` | original_codebase/Web_Scraper/Data_Pipeline.py:56-70 | once the loop has raised, the run has raised |
| `ConfigureEmail.FormatHtmlElement` | original_codebase/Email_Interface/Configure_Email.py:27-28 | the anchor is the opening tag, then the link, then `">`, then the title, then `</a>`, and has exactly their combined length |
| `ConfigureEmail.FindFrom` | original_codebase/Email_Interface/Configure_Email.py:28 | the first position of a character at or after a start, or none when it does not occur there |
| `ConfigureEmail.FindFromFirst` | original_codebase/Email_Interface/Configure_Email.py:28 | the search stops at the first occurrence |
| `ConfigureEmail.ParseHtmlElement` | original_codebase/Email_Interface/Configure_Email.py:27-28 | a string that parses is the anchor of the parsed link and title, and the link has no double quote |
| `ConfigureEmail.ParseFormatRoundTrip` | original_codebase/Email_Interface/Configure_Email.py:27-28 | the link and title of an article come back out of its anchor when the link has no double quote |
| `ConfigureEmail.FormatIsAmbiguousWithoutEscaping` | original_codebase/Email_Interface/Configure_Email.py:27-28 | because nothing is escaped, two articles whose link and title split the same text differently give the same anchor |
| `ConfigureEmail.FormatDeterminedByLinkAndTitle` | original_codebase/Email_Interface/Configure_Email.py:27-28 | for links without a double quote, two anchors are equal exactly when the links and the titles are |

## Left out

- `get_soup`: the HTTP request, the lxml parse, `prettify` and its four exception handlers are not modelled. They are the parameter `getSoup`, which either gives a page or gives nothing.
- Logging, `traceback.print_exc` and `print` are not modelled. They do not change any result.
- Loading and saving the website-info file (`Save_File_IO.py`) is not modelled: the YAML reading and writing, the choice of the test file, and the `sys.exit` calls on file errors. `SystemExit` is not caught by `get_article_data`.
- Errors from a malformed website-info file are not modelled: a missing `search_classes` or `last_article_viewed` key, or a null where a dictionary is expected. The model's configuration always has both entries.
- Records always carry all four fields. `article.get("title")` and `article.get("date")` on a record without them are therefore not modelled.
- `date.fromisoformat` and `date.today()` are the parameters `parseDate` and `today` (`clock` in the pipeline). The upper end of Python's date range is not modelled. Only the lower end matters here, because the day before 0001-01-01 raises `OverflowError` (`DateOverflow`).
- `Scraper.ArticleTitle`: a block without `<a>` raises `AttributeError` for `find`, and one with `<a>` but no `<h3>` raises it for `get_text`. The model reports the `get_text` message for both. `scrape_website` answers `[]` for every exception (Web_Scraper.py:188-228), so no result depends on the message.
- `Scraper.ArticleLink`: a block without `<a>` raises `TypeError`, and an `<a>` without `href` raises `KeyError('href')`. The model reports `KeyError('href')` for both. No result depends on which, for the same reason.
- `Scraper.SubmissionDate`: a block without `<time>` raises `TypeError`, and a `<time>` without `datetime` raises `KeyError('datetime')`. The model reports `TypeError` for both. No result depends on which, for the same reason.
- `Scraper.SubDescription`: a block without `<a>` and a block without `<h3>` raise different `AttributeError` messages, for `find` and for `find_next_sibling`. The model uses one message for both. Neither is the compared text, so both are raised again.
- A `search_classes` value that is `None` instead of an empty dictionary is not modelled.
- `Scraper.GetWebpageBlocks`: a selector sequence with a repeated key has no Python counterpart. The order-independence lemma assumes distinct keys.
- `get_article_sub_descriptions` (the list form, Web_Scraper.py:129-136) is not modelled. Nothing calls it.
- `DataPipeline.GetArticleData`: `clock` may give any day for any site. That days never go backwards while the loop runs is not modelled.
- `DataPipeline.Run` has no contract of its own. What it returns is stated by `DataPipeline.RunCollectsCleanedBatches`, `DataPipeline.RunFailsIffSomeSiteFails` and `DataPipeline.RunUpdatesOnlyCursors`.
- `ConfigureEmail.FormatHtmlElement` is not modelled for an article dictionary without `link` or `title`. Non-string values and the other functions of that file are not modelled either; they read credentials and the mailing list from files.
- `Email_Interface.py`, `Configure_Logger.py`, `__main__.py` and the crontab setup are not part of this model.

## Findings

| source | as written | input that shows it | evidently intended | confidence | as-written member | corrected member |
|---|---|---|---|---|---|---|
| original_codebase/Web_Scraper/Web_Scraper.py:145 | the handler compares `str(e)` with `'NoneType' object has not attribute 'get_text'`, but Python's message reads `has no attribute`. The comparison never matches: a block with a heading but no description `<div>` raises, and `scrape_website` answers `[]` for the whole page | a page whose one block has a heading, a link and a date but no description `<div>` | a missing description becomes `""` and the page keeps all its records | not executed | `Scraper.MissingDescriptionEmptiesPageAsWritten` | `Scraper.MissingDescriptionKeepsPage` |

/**
 * The page scraper: turns the content blocks of one publication page into
 * article records. The HTTP fetch and HTML parsing (`get_soup`) are a
 * parameter `getSoup` that yields a parsed document or nothing; a parsed
 * document is reduced to what BeautifulSoup's lookups return from it.
 */
module Scraper {
  import opened Records
  import StringOrder

  // ---------------------------------------------------------------------------
  // clean_string

  const NoBreakSpace: char := '\U{00A0}'
  const HairSpace: char := '\U{200A}'

  /** `s.replace(old, new)` for a one-character `old` and `new`. */
  function Replace(s: string, from: char, to: char): (r: string)
    ensures |r| == |s|
    ensures forall i :: 0 <= i < |s| ==> r[i] == (if s[i] == from then to else s[i])
  {
    if s == [] then [] else [if s[0] == from then to else s[0]] + Replace(s[1..], from, to)
  }

  /** Turns no-break spaces and hair spaces into ordinary spaces. */
  function CleanString(text: string): (r: string)
    ensures |r| == |text|
    ensures forall i :: 0 <= i < |text| ==>
      r[i] == (if text[i] == NoBreakSpace || text[i] == HairSpace then ' ' else text[i])
    ensures NoBreakSpace !in r && HairSpace !in r
  {
    Replace(Replace(text, NoBreakSpace, ' '), HairSpace, ' ')
  }

  lemma CleanStringIdempotent(text: string)
    ensures CleanString(CleanString(text)) == CleanString(text)
  {
    var once := CleanString(text);
    assert forall i :: 0 <= i < |once| ==> once[i] != NoBreakSpace && once[i] != HairSpace;
  }

  // ---------------------------------------------------------------------------
  // Documents, selectors and get_webpage_blocks

  /** What the scraper reads from one matched `<div>`: the text of its `a > h3` heading,
      the `href` of its `<a>`, the `datetime` of its `<time>` and the text of the
      `<div>` following the heading; None where that element or attribute is absent. */
  datatype Block = Block(heading: Option<string>, href: Option<string>,
                         datetime: Option<string>, description: Option<string>)

  /** A parsed page: for each class value, the `<div>` blocks carrying it, in document order. */
  datatype Document = Document(divsByClass: map<string, seq<Block>>)
  {
    /** `find_all("div", class_=cls)`: no match is an empty list. */
    function FindAll(cls: string): seq<Block>
    {
      if cls in divsByClass then divsByClass[cls] else []
    }
  }

  /** A `search_classes` dictionary: (selector name, class value) pairs in insertion order. */
  type Selectors = seq<(string, string)>

  /** `search_classes.keys()`, in insertion order. */
  function Keys(searchClasses: Selectors): (ks: seq<string>)
    ensures |ks| == |searchClasses|
    ensures forall i :: 0 <= i < |ks| ==> ks[i] == searchClasses[i].0
  {
    if searchClasses == [] then [] else [searchClasses[0].0] + Keys(searchClasses[1..])
  }

  /** A dictionary has no repeated key. */
  predicate DistinctKeys(searchClasses: Selectors)
  {
    forall i, j :: 0 <= i < j < |searchClasses| ==> searchClasses[i].0 != searchClasses[j].0
  }

  /** Without the first entry the keys stay distinct, and none of them is the first key. */
  lemma DistinctKeysTail(searchClasses: Selectors)
    requires searchClasses != [] && DistinctKeys(searchClasses)
    ensures DistinctKeys(searchClasses[1..])
    ensures searchClasses[0].0 !in Keys(searchClasses[1..])
  {
    var tail := searchClasses[1..];
    forall i, j | 0 <= i < j < |tail| ensures tail[i].0 != tail[j].0 {
      assert tail[i] == searchClasses[i + 1] && tail[j] == searchClasses[j + 1];
    }
  }

  /** The dictionary's lookup table (a later pair overrides an earlier one). */
  function ToMap(searchClasses: Selectors): (m: map<string, string>)
    ensures forall k :: k in m <==> k in Keys(searchClasses)
  {
    if searchClasses == [] then map[]
    else map[searchClasses[0].0 := searchClasses[0].1] + ToMap(searchClasses[1..])
  }

  /** In a dictionary without repeated keys, `search_classes[key]` is the class stored with that key. */
  lemma {:induction false} ToMapLookup(searchClasses: Selectors)
    requires DistinctKeys(searchClasses)
    ensures forall i :: 0 <= i < |searchClasses| ==>
      searchClasses[i].0 in ToMap(searchClasses) && ToMap(searchClasses)[searchClasses[i].0] == searchClasses[i].1
  {
    if searchClasses != [] {
      var tail := searchClasses[1..];
      DistinctKeysTail(searchClasses);
      ToMapLookup(tail);
      forall i | 1 <= i < |searchClasses|
        ensures ToMap(searchClasses)[searchClasses[i].0] == searchClasses[i].1
      {
        assert searchClasses[i] == tail[i - 1];
      }
    }
  }

  /** The blocks matched by each key's class value, concatenated in the order of `keys`. */
  function MatchesInOrder(soup: Document, classes: map<string, string>, keys: seq<string>): seq<Block>
    requires forall k :: k in keys ==> k in classes
  {
    if keys == [] then [] else soup.FindAll(classes[keys[0]]) + MatchesInOrder(soup, classes, keys[1..])
  }

  lemma SortedKeysAreKeys(searchClasses: Selectors, ks: seq<string>)
    requires multiset(ks) == multiset(Keys(searchClasses))
    ensures forall k :: k in ks ==> k in ToMap(searchClasses)
  {
    forall k | k in ks ensures k in ToMap(searchClasses) {
      assert k in multiset(ks);
      assert k in multiset(Keys(searchClasses));
    }
  }

  /** `get_webpage_blocks`: the matches of every selector, taken in sorted key order. */
  function GetWebpageBlocks(soup: Document, searchClasses: Selectors): (blocks: seq<Block>)
    ensures searchClasses == [] ==> blocks == []
  {
    var ks := StringOrder.Sort(Keys(searchClasses));
    SortedKeysAreKeys(searchClasses, ks);
    MatchesInOrder(soup, ToMap(searchClasses), ks)
  }

  /** The blocks are the matches concatenated in ascending key order, whichever
      algorithm puts the keys in that order. */
  lemma WebpageBlocksFollowSortedKeys(soup: Document, searchClasses: Selectors, ks: seq<string>)
    requires StringOrder.Sorted(ks)
    requires multiset(ks) == multiset(Keys(searchClasses))
    ensures forall k :: k in ks ==> k in ToMap(searchClasses)
    ensures GetWebpageBlocks(soup, searchClasses) == MatchesInOrder(soup, ToMap(searchClasses), ks)
  {
    SortedKeysAreKeys(searchClasses, ks);
    StringOrder.SortedUnique(ks, StringOrder.Sort(Keys(searchClasses)));
  }

  lemma {:induction false} DistinctMultiset(s: seq<string>)
    requires forall i, j :: 0 <= i < j < |s| ==> s[i] != s[j]
    ensures forall x :: multiset(s)[x] == if x in s then 1 else 0
  {
    if s != [] {
      DistinctMultiset(s[1..]);
      assert s == [s[0]] + s[1..];
      assert s[0] !in s[1..];
    }
  }

  /** Each key of a dictionary occurs once among its keys. */
  lemma KeyCounts(searchClasses: Selectors)
    requires DistinctKeys(searchClasses)
    ensures forall x :: multiset(Keys(searchClasses))[x] == if x in ToMap(searchClasses) then 1 else 0
  {
    var ks := Keys(searchClasses);
    forall i, j | 0 <= i < j < |ks| ensures ks[i] != ks[j] {
      assert ks[i] == searchClasses[i].0 && ks[j] == searchClasses[j].0;
    }
    DistinctMultiset(ks);
  }

  /** Two dictionaries with the same entries list the same keys, up to order. */
  lemma SameEntriesSameKeys(a: Selectors, b: Selectors)
    requires DistinctKeys(a) && DistinctKeys(b)
    requires ToMap(a) == ToMap(b)
    ensures multiset(Keys(a)) == multiset(Keys(b))
  {
    var ka, kb := multiset(Keys(a)), multiset(Keys(b));
    KeyCounts(a);
    KeyCounts(b);
    forall x ensures ka[x] == kb[x] {
      assert x in ToMap(a) <==> x in ToMap(b);
    }
    assert ka == kb;
  }

  /** Two dictionaries with the same entries give the same blocks, whatever their insertion order. */
  lemma WebpageBlocksOrderIndependent(soup: Document, a: Selectors, b: Selectors)
    requires DistinctKeys(a) && DistinctKeys(b)
    requires ToMap(a) == ToMap(b)
    ensures GetWebpageBlocks(soup, a) == GetWebpageBlocks(soup, b)
  {
    SameEntriesSameKeys(a, b);
    WebpageBlocksFollowSortedKeys(soup, b, StringOrder.Sort(Keys(a)));
  }

  // ---------------------------------------------------------------------------
  // Extraction from one block

  /** The exception messages that matter to the scraper, one constructor per distinct text. */
  datatype Message =
    | NoGetText         // `.get_text()` called on a lookup that found nothing
    | NoFindNextSibling // `.find_next_sibling` called on a missing heading
    | NotSubscriptable  // `["datetime"]` taken of a missing `<time>`
    | ComparedText      // the text `get_article_sub_description` compares against

  /** The text of each message, as `str(e)` gives it. */
  function Text(m: Message): string
  {
    match m
    case NoGetText => "'NoneType' object has no attribute 'get_text'"
    case NoFindNextSibling => "'NoneType' object has no attribute 'find_next_sibling'"
    case NotSubscriptable => "'NoneType' object is not subscriptable"
    case ComparedText => "'NoneType' object has not attribute 'get_text'"
  }

  /** Distinct messages have distinct texts, so comparing messages is comparing their texts. */
  lemma TextInjective(a: Message, b: Message)
    ensures Text(a) == Text(b) <==> a == b
  {
    if a != b {
      assert |Text(a)| != |Text(b)|;
    }
  }

  /** The exceptions a lookup on a block can raise. */
  datatype Fault = AttributeError(message: Message) | KeyError(key: string) | TypeError(message: Message)

  /** The message `get_article_sub_description` compares against, as written: it is
      not the text Python gives, so a missing description is never answered with "".
      The pipeline runs the scraper with this one, as the program does. */
  const WrittenMessage := ComparedText

  /** The message the handler evidently means: the one `.get_text()` raises when the
      description `<div>` is missing. */
  const IntendedMessage := NoGetText

  /** The part of a `datetime` attribute before the first "T": `split("T")[0]`. */
  function DatePart(datetime: string): (date: string)
    ensures |date| <= |datetime| && date == datetime[..|date|]
    ensures 'T' !in date
    ensures |date| < |datetime| ==> datetime[|date|] == 'T'
  {
    if datetime == [] || datetime[0] == 'T' then [] else [datetime[0]] + DatePart(datetime[1..])
  }

  /** `a > h3` text, cleaned; `.get_text()` on a missing heading raises. */
  function ArticleTitle(divBlock: Block): (r: Result<string, Fault>)
    ensures r.Ok? <==> divBlock.heading.Some?
    ensures r.Err? ==> r.error == AttributeError(NoGetText)
    ensures r.Ok? ==> r.value == CleanString(divBlock.heading.value)
    ensures r.Ok? ==> |r.value| == |divBlock.heading.value| && NoBreakSpace !in r.value && HairSpace !in r.value
  {
    match divBlock.heading
    case None => Err(AttributeError(NoGetText))
    case Some(text) => Ok(CleanString(text))
  }

  /** The `href` of the block's `<a>`; a missing attribute raises KeyError. */
  function ArticleLink(divBlock: Block): (r: Result<string, Fault>)
    ensures r.Ok? <==> divBlock.href.Some?
    ensures r.Err? ==> r.error == KeyError("href")
    ensures r.Ok? ==> Some(r.value) == divBlock.href
  {
    match divBlock.href
    case None => Err(KeyError("href"))
    case Some(link) => Ok(link)
  }

  /** The date part of the `<time>`'s `datetime`; a missing `<time>` cannot be subscripted. */
  function SubmissionDate(divBlock: Block): (r: Result<string, Fault>)
    ensures r.Ok? <==> divBlock.datetime.Some?
    ensures r.Err? ==> r.error == TypeError(NotSubscriptable)
    ensures r.Ok? ==> r.value == DatePart(divBlock.datetime.value)
    ensures r.Ok? ==> 'T' !in r.value && r.value <= divBlock.datetime.value
  {
    match divBlock.datetime
    case None => Err(TypeError(NotSubscriptable))
    case Some(stamp) => Ok(DatePart(stamp))
  }

  /** `get_article_sub_description` with the message its handler compares against as a
      parameter: an AttributeError whose text is `handled` gives "", any other is raised again. */
  function SubDescription(divBlock: Block, handled: Message): (r: Result<string, Fault>)
    ensures divBlock.heading.Some? && divBlock.description.Some? ==>
      r == Ok(CleanString(divBlock.description.value))
    ensures r.Err? <==>
      ((divBlock.heading.None? && handled != NoFindNextSibling) ||
       (divBlock.heading.Some? && divBlock.description.None? && handled != NoGetText))
    ensures r.Ok? && divBlock.description.None? ==> r.value == ""
  {
    if divBlock.heading.Some? && divBlock.description.Some? then
      Ok(CleanString(divBlock.description.value))
    else
      var raised := if divBlock.heading.None? then NoFindNextSibling else NoGetText;
      if raised == handled then Ok("") else Err(AttributeError(raised))
  }

  /** The comprehension over all blocks: a list of every block's value, or the first exception. */
  function Collect<T>(blocks: seq<Block>, extract: Block -> Result<T, Fault>): (r: Result<seq<T>, Fault>)
    ensures r.Ok? <==> forall i :: 0 <= i < |blocks| ==> extract(blocks[i]).Ok?
    ensures r.Ok? ==>
      (|r.value| == |blocks| &&
       forall i :: 0 <= i < |blocks| ==> r.value[i] == extract(blocks[i]).value)
    ensures r.Err? ==>
      (exists i :: 0 <= i < |blocks| && extract(blocks[i]) == Err(r.error) &&
         forall j :: 0 <= j < i ==> extract(blocks[j]).Ok?)
  {
    if blocks == [] then Ok([])
    else
      match extract(blocks[0])
      case Err(e) => Err(e)
      case Ok(x) =>
        match Collect(blocks[1..], extract)
        case Err(e) =>
          assert forall i :: 1 <= i < |blocks| ==> blocks[1..][i - 1] == blocks[i];
          Err(e)
        case Ok(xs) => Ok([x] + xs)
  }

  function GetArticleTitles(divBlocks: seq<Block>): (r: Result<seq<string>, Fault>)
    ensures r.Ok? ==> forall i :: 0 <= i < |r.value| ==> NoBreakSpace !in r.value[i] && HairSpace !in r.value[i]
  {
    Collect(divBlocks, ArticleTitle)
  }

  /** The titles are the blocks' headings cleaned, and the list exists exactly when every block has a heading. */
  lemma TitlesAreCleanedHeadings(divBlocks: seq<Block>)
    ensures var r := GetArticleTitles(divBlocks);
      (r.Ok? <==> forall i :: 0 <= i < |divBlocks| ==> divBlocks[i].heading.Some?) &&
      (r.Ok? ==>
         |r.value| == |divBlocks| &&
         forall i :: 0 <= i < |divBlocks| ==> r.value[i] == CleanString(divBlocks[i].heading.value))
  {
  }

  function GetArticleLinks(divBlocks: seq<Block>): Result<seq<string>, Fault>
  {
    Collect(divBlocks, ArticleLink)
  }

  /** The links are the blocks' `href`s, and the list exists exactly when every block has one. */
  lemma ArticleLinksAreHrefs(divBlocks: seq<Block>)
    ensures var r := GetArticleLinks(divBlocks);
      (r.Ok? <==> forall i :: 0 <= i < |divBlocks| ==> divBlocks[i].href.Some?) &&
      (r.Ok? ==> |r.value| == |divBlocks| && forall i :: 0 <= i < |divBlocks| ==> Some(r.value[i]) == divBlocks[i].href)
  {
  }

  function GetArticleSubmissionDates(divBlocks: seq<Block>): (r: Result<seq<string>, Fault>)
    ensures r.Ok? ==> forall i :: 0 <= i < |r.value| ==> 'T' !in r.value[i]
  {
    Collect(divBlocks, SubmissionDate)
  }

  /** The dates are the date parts of the blocks' stamps, and the list exists exactly when every block has one. */
  lemma DatesAreDateParts(divBlocks: seq<Block>)
    ensures var r := GetArticleSubmissionDates(divBlocks);
      (r.Ok? <==> forall i :: 0 <= i < |divBlocks| ==> divBlocks[i].datetime.Some?) &&
      (r.Ok? ==>
         |r.value| == |divBlocks| &&
         forall i :: 0 <= i < |divBlocks| ==> r.value[i] == DatePart(divBlocks[i].datetime.value))
  {
  }

  // ---------------------------------------------------------------------------
  // scrape_website

  /** The record of one block: title, link, date and description, raised in that order. */
  function AssembleRecord(divBlock: Block, handled: Message): Result<Article, Fault>
  {
    match ArticleTitle(divBlock)
    case Err(e) => Err(e)
    case Ok(title) =>
      match ArticleLink(divBlock)
      case Err(e) => Err(e)
      case Ok(link) =>
        match SubmissionDate(divBlock)
        case Err(e) => Err(e)
        case Ok(date) =>
          match SubDescription(divBlock, handled)
          case Err(e) => Err(e)
          case Ok(description) => Ok(Article(title, link, date, description))
  }

  /** A block without a heading raises on its title first. A record has a cleaned title,
      the block's `href` as its link, a date without "T", and "" for a missing description. */
  lemma RecordFields(divBlock: Block, handled: Message)
    ensures divBlock.heading.None? ==> AssembleRecord(divBlock, handled) == Err(AttributeError(NoGetText))
    ensures var r := AssembleRecord(divBlock, handled);
      r.Ok? ==>
        NoBreakSpace !in r.value.title && HairSpace !in r.value.title &&
        Some(r.value.link) == divBlock.href && 'T' !in r.value.date &&
        (divBlock.description.None? ==> r.value.description == "")
  {
  }

  /** A block the scraper turns into a record without raising. */
  predicate Complete(divBlock: Block, handled: Message)
  {
    AssembleRecord(divBlock, handled).Ok?
  }

  /** A block is complete exactly when each of its four lookups succeeds, and its record
      is then made of their values. */
  lemma CompleteParts(divBlock: Block, handled: Message)
    ensures Complete(divBlock, handled) <==>
      ArticleTitle(divBlock).Ok? && ArticleLink(divBlock).Ok? &&
      SubmissionDate(divBlock).Ok? && SubDescription(divBlock, handled).Ok?
    ensures Complete(divBlock, handled) ==>
      AssembleRecord(divBlock, handled).value ==
        Article(ArticleTitle(divBlock).value, ArticleLink(divBlock).value,
                SubmissionDate(divBlock).value, SubDescription(divBlock, handled).value)
  {
  }

  /** With every title, link and date looked up, block i is complete exactly when its
      description is, and its record is then made of the looked-up values. */
  lemma RecordOfBlock(divBlocks: seq<Block>, handled: Message, titles: seq<string>, links: seq<string>, dates: seq<string>,
                      i: nat)
    requires GetArticleTitles(divBlocks) == Ok(titles)
    requires GetArticleLinks(divBlocks) == Ok(links)
    requires GetArticleSubmissionDates(divBlocks) == Ok(dates)
    requires i < |divBlocks|
    ensures |titles| == |links| == |dates| == |divBlocks|
    ensures Complete(divBlocks[i], handled) <==> SubDescription(divBlocks[i], handled).Ok?
    ensures Complete(divBlocks[i], handled) ==>
      AssembleRecord(divBlocks[i], handled).value ==
        Article(titles[i], links[i], dates[i], SubDescription(divBlocks[i], handled).value)
  {
    CompleteParts(divBlocks[i], handled);
  }

  /** The records of a page, one per block in block order, or none at all when any block raises. */
  function PageArticles(divBlocks: seq<Block>, handled: Message): (articles: seq<Article>)
    ensures (forall i :: 0 <= i < |divBlocks| ==> Complete(divBlocks[i], handled)) ==>
      (|articles| == |divBlocks| &&
       forall i :: 0 <= i < |divBlocks| ==> articles[i] == AssembleRecord(divBlocks[i], handled).value)
    ensures (exists i :: 0 <= i < |divBlocks| && !Complete(divBlocks[i], handled)) ==> articles == []
  {
    match Collect(divBlocks, b => AssembleRecord(b, handled))
    case Ok(records) => records
    case Err(_) => []
  }

  /** What `scrape_website` returns when its description handler compares against `handled`. */
  function ScrapedArticles(website: string, searchClasses: Selectors,
                           getSoup: string -> Option<Document>, handled: Message): (articles: seq<Article>)
    ensures |searchClasses| == 0 || getSoup(website).None? ==> articles == []
    ensures forall a :: a in articles ==>
      NoBreakSpace !in a.title && HairSpace !in a.title && 'T' !in a.date
  {
    if |searchClasses| == 0 then []
    else
      match getSoup(website)
      case None => []
      case Some(soup) =>
        var blocks := GetWebpageBlocks(soup, searchClasses);
        var articles := PageArticles(blocks, handled);
        forall i | 0 <= i < |blocks| {
          RecordFields(blocks[i], handled);
        }
        assert forall a :: a in articles ==> exists i :: 0 <= i < |blocks| && a == AssembleRecord(blocks[i], handled).value;
        articles
  }

  /** As written, one block with a heading but no description `<div>` leaves the whole
      page without records: the message raised is not the one compared against. */
  lemma MissingDescriptionEmptiesPageAsWritten(divBlocks: seq<Block>, i: nat)
    requires i < |divBlocks|
    requires divBlocks[i].heading.Some? && divBlocks[i].description.None?
    ensures Text(WrittenMessage) != Text(NoGetText)
    ensures PageArticles(divBlocks, WrittenMessage) == []
  {
    TextInjective(WrittenMessage, NoGetText);
    CompleteParts(divBlocks[i], WrittenMessage);
  }

  /** With the intended message, every block that has a heading, a link and a date gives
      a record, whose description is "" where the description `<div>` is missing. */
  lemma MissingDescriptionKeepsPage(divBlocks: seq<Block>)
    requires forall i :: 0 <= i < |divBlocks| ==>
      divBlocks[i].heading.Some? && divBlocks[i].href.Some? && divBlocks[i].datetime.Some?
    ensures |PageArticles(divBlocks, IntendedMessage)| == |divBlocks|
    ensures forall i :: 0 <= i < |divBlocks| ==>
      PageArticles(divBlocks, IntendedMessage)[i] ==
        Article(CleanString(divBlocks[i].heading.value), divBlocks[i].href.value,
                DatePart(divBlocks[i].datetime.value),
                if divBlocks[i].description.None? then "" else CleanString(divBlocks[i].description.value))
  {
    forall i | 0 <= i < |divBlocks|
      ensures Complete(divBlocks[i], IntendedMessage)
      ensures AssembleRecord(divBlocks[i], IntendedMessage).value ==
        Article(CleanString(divBlocks[i].heading.value), divBlocks[i].href.value,
                DatePart(divBlocks[i].datetime.value),
                if divBlocks[i].description.None? then "" else CleanString(divBlocks[i].description.value))
    {
      CompleteParts(divBlocks[i], IntendedMessage);
    }
  }

  /** `records` are the records of the first |records| blocks, each complete. */
  ghost predicate AssembledSoFar(divBlocks: seq<Block>, records: seq<Article>, handled: Message)
    decreases |records|
  {
    |records| <= |divBlocks| &&
    (records == [] ||
     (AssembledSoFar(divBlocks, records[..|records| - 1], handled) &&
      Complete(divBlocks[|records| - 1], handled) &&
      records[|records| - 1] == AssembleRecord(divBlocks[|records| - 1], handled).value))
  }

  /** The records assembled so far, one block at a time, read pointwise. */
  lemma {:induction false} AssembledSoFarPointwise(divBlocks: seq<Block>, records: seq<Article>, handled: Message)
    requires AssembledSoFar(divBlocks, records, handled)
    ensures |records| <= |divBlocks|
    ensures forall j :: 0 <= j < |records| ==>
      Complete(divBlocks[j], handled) && records[j] == AssembleRecord(divBlocks[j], handled).value
    decreases |records|
  {
    if records != [] {
      var front := records[..|records| - 1];
      AssembledSoFarPointwise(divBlocks, front, handled);
      forall j | 0 <= j < |records| - 1 ensures records[j] == front[j] { }
    }
  }

  /** A failed lookup of titles, links or dates leaves the page without records. */
  lemma LookupFailureEmptiesPage(divBlocks: seq<Block>, handled: Message)
    requires GetArticleTitles(divBlocks).Err? || GetArticleLinks(divBlocks).Err? ||
             GetArticleSubmissionDates(divBlocks).Err?
    ensures PageArticles(divBlocks, handled) == []
  {
    var j :| 0 <= j < |divBlocks| &&
      (ArticleTitle(divBlocks[j]).Err? || ArticleLink(divBlocks[j]).Err? || SubmissionDate(divBlocks[j]).Err?);
    CompleteParts(divBlocks[j], handled);
  }

  /** Once every block is assembled, the records are the page's. */
  lemma AssembledPage(divBlocks: seq<Block>, records: seq<Article>, handled: Message)
    requires AssembledSoFar(divBlocks, records, handled) && |records| == |divBlocks|
    ensures records == PageArticles(divBlocks, handled)
  {
    AssembledSoFarPointwise(divBlocks, records, handled);
  }

  /** One turn of the comprehension: the next block's description either raises,
      leaving the page without records, or completes the next record. */
  lemma AssembleStep(divBlocks: seq<Block>, handled: Message, titles: seq<string>, links: seq<string>,
                     dates: seq<string>, records: seq<Article>)
    requires GetArticleTitles(divBlocks) == Ok(titles)
    requires GetArticleLinks(divBlocks) == Ok(links)
    requires GetArticleSubmissionDates(divBlocks) == Ok(dates)
    requires AssembledSoFar(divBlocks, records, handled) && |records| < |divBlocks|
    ensures |titles| == |links| == |dates| == |divBlocks|
    ensures var i := |records|;
      var description := SubDescription(divBlocks[i], handled);
      (description.Err? ==> PageArticles(divBlocks, handled) == []) &&
      (description.Ok? ==>
        AssembledSoFar(divBlocks, records + [Article(titles[i], links[i], dates[i], description.value)], handled))
  {
    var i := |records|;
    RecordOfBlock(divBlocks, handled, titles, links, dates, i);
    var description := SubDescription(divBlocks[i], handled);
    if description.Ok? {
      var next := records + [Article(titles[i], links[i], dates[i], description.value)];
      assert next[..i] == records;
    }
  }

  /**
   * The comprehension of `scrape_website`, lines 177-185. Titles are computed for
   * every block first; the link and date generators compute their whole lists at
   * their first `next()`; the description generator computes one block's
   * description per `next()`. An exception anywhere leaves no records.
   */
  method AssembleArticles(divBlocks: seq<Block>, handled: Message) returns (articles: seq<Article>)
    ensures articles == PageArticles(divBlocks, handled)
  {
    articles := [];
    var titles := GetArticleTitles(divBlocks);
    if titles.Err? {
      LookupFailureEmptiesPage(divBlocks, handled);
      return;
    }
    var links: Option<seq<string>> := None;  // generator not started yet
    var dates: Option<seq<string>> := None;  // generator not started yet
    var records: seq<Article> := [];
    var i := 0;
    while i < |titles.value|
      invariant i == |records| && AssembledSoFar(divBlocks, records, handled)
      invariant |titles.value| == |divBlocks|
      invariant i == 0 ==> links.None? && dates.None?
      invariant i > 0 ==> links.Some? && GetArticleLinks(divBlocks) == Ok(links.value)
      invariant i > 0 ==> dates.Some? && GetArticleSubmissionDates(divBlocks) == Ok(dates.value)
    {
      if links.None? {
        var all := GetArticleLinks(divBlocks);
        if all.Err? {
          LookupFailureEmptiesPage(divBlocks, handled);
          return;
        }
        links := Some(all.value);
      }
      if dates.None? {
        var all := GetArticleSubmissionDates(divBlocks);
        if all.Err? {
          LookupFailureEmptiesPage(divBlocks, handled);
          return;
        }
        dates := Some(all.value);
      }
      var description := SubDescription(divBlocks[i], handled);
      AssembleStep(divBlocks, handled, titles.value, links.value, dates.value, records);
      if description.Err? {
        return;
      }
      records := records + [Article(titles.value[i], links.value[i], dates.value[i], description.value)];
      i := i + 1;
    }
    AssembledPage(divBlocks, records, handled);
    articles := records;
  }

  /**
   * `scrape_website`: an empty selector dictionary raises before any fetch, a
   * page that cannot be fetched gives no records, and every exception is caught
   * and answered with an empty list. `requests` lists the addresses handed to
   * `getSoup`.
   */
  method ScrapeWebsite(website: string, searchClasses: Selectors, getSoup: string -> Option<Document>,
                       handled: Message)
    returns (articles: seq<Article>, requests: seq<string>)
    ensures requests == if |searchClasses| == 0 then [] else [website]
    ensures |searchClasses| == 0 || getSoup(website).None? ==> articles == []
    ensures |searchClasses| > 0 && getSoup(website).Some? ==>
      var blocks := GetWebpageBlocks(getSoup(website).value, searchClasses);
      if forall i :: 0 <= i < |blocks| ==> Complete(blocks[i], handled)
      then |articles| == |blocks| &&
        forall i :: 0 <= i < |blocks| ==> articles[i] == AssembleRecord(blocks[i], handled).value
      else articles == []
    ensures articles == ScrapedArticles(website, searchClasses, getSoup, handled)
  {
    articles, requests := [], [];
    if |searchClasses| == 0 {
      return;  // MissingSearchClassesError, caught
    }
    requests := [website];
    var soup := getSoup(website);
    if soup.None? {
      return;
    }
    var divBlocks := GetWebpageBlocks(soup.value, searchClasses);
    articles := AssembleArticles(divBlocks, handled);
  }
}

/**
 * The data cleaner: two filters over a batch of article records ordered
 * freshest first, each changing the caller's list in place. Dates are day
 * ordinals produced by `parseDate`, which stands for `datetime.date.fromisoformat`
 * (None where that raises ValueError).
 */
module DataCleaner {
  import opened Records

  // ---------------------------------------------------------------------------
  // Cursor trim: remove_previously_viewed_articles

  /** The position of the first record titled `cursor`, or the batch's length if none is. */
  function CursorIndex(batch: seq<Article>, cursor: string): (index: nat)
    ensures index <= |batch|
    ensures forall j :: 0 <= j < index ==> batch[j].title != cursor
    ensures index < |batch| ==> batch[index].title == cursor
  {
    if batch == [] || batch[0].title == cursor then 0 else 1 + CursorIndex(batch[1..], cursor)
  }

  /** The batch cut just before its first record titled `cursor`. */
  function CursorTrim(batch: seq<Article>, cursor: string): (kept: seq<Article>)
    ensures |kept| <= |batch| && kept == batch[..|kept|]
    ensures forall a :: a in kept ==> a.title != cursor
    ensures |kept| < |batch| ==> batch[|kept|].title == cursor
    ensures (forall a :: a in batch ==> a.title != cursor) ==> kept == batch
  {
    batch[..CursorIndex(batch, cursor)]
  }

  /** Trimming again at the same cursor changes nothing. */
  lemma CursorTrimIdempotent(batch: seq<Article>, cursor: string)
    ensures CursorTrim(CursorTrim(batch, cursor), cursor) == CursorTrim(batch, cursor)
  {
    var kept := CursorTrim(batch, cursor);
    assert forall a :: a in kept ==> a.title != cursor;
  }

  /** The index search of lines 12-17: a `for ... else` over the list. */
  method IndexOfLastViewedArticle(scrapingResults: seq<Article>, lastArticleViewed: string)
    returns (index: nat)
    ensures index <= |scrapingResults|
    ensures forall j :: 0 <= j < index ==> scrapingResults[j].title != lastArticleViewed
    ensures index < |scrapingResults| ==> scrapingResults[index].title == lastArticleViewed
    ensures index == CursorIndex(scrapingResults, lastArticleViewed)
  {
    index := 0;
    while index < |scrapingResults|
      invariant index <= |scrapingResults|
      invariant forall j :: 0 <= j < index ==> scrapingResults[j].title != lastArticleViewed
    {
      if scrapingResults[index].title == lastArticleViewed {
        return;
      }
      index := index + 1;
    }
  }

  /** The first index is unique: whoever finds it finds CursorIndex. */
  lemma CursorIndexUnique(batch: seq<Article>, cursor: string, index: nat)
    requires index <= |batch|
    requires forall j :: 0 <= j < index ==> batch[j].title != cursor
    requires index < |batch| ==> batch[index].title == cursor
    ensures index == CursorIndex(batch, cursor)
  {
  }

  // ---------------------------------------------------------------------------
  // Recency trim: remove_old_articles

  /** The errors `remove_old_articles` can raise. */
  datatype CleanerError =
    | InvalidIsoFormat(text: string)  // ValueError from fromisoformat
    | DateOverflow                    // OverflowError: no day before 0001-01-01

  /** A record dated on or after `previousDay`. */
  ghost predicate Recent(a: Article, previousDay: int, parseDate: string -> Option<Day>)
  {
    parseDate(a.date).Some? && parseDate(a.date).value >= previousDay
  }

  /** The comprehension of lines 32-36: the records dated on or after `previousDay`, in
      order, or the error of the first record whose date does not parse. */
  function KeepRecent(batch: seq<Article>, previousDay: int, parseDate: string -> Option<Day>)
    : (r: Result<seq<Article>, CleanerError>)
    ensures r.Err? <==> exists i :: 0 <= i < |batch| && parseDate(batch[i].date).None?
    ensures r.Err? ==> r.error.InvalidIsoFormat?
    decreases |batch|
  {
    if batch == [] then Ok([])
    else
      match parseDate(batch[0].date)
      case None => Err(InvalidIsoFormat(batch[0].date))
      case Some(day) =>
        var rest := KeepRecent(batch[1..], previousDay, parseDate);
        assert forall i :: 1 <= i < |batch| ==> batch[1..][i - 1] == batch[i];
        match rest
        case Err(e) => Err(e)
        case Ok(kept) => Ok(if day >= previousDay then [batch[0]] + kept else kept)
  }

  /** `sub` is `s` with some elements left out, the rest in their original order. */
  ghost predicate IsSubsequence<T>(sub: seq<T>, s: seq<T>)
    decreases |s|
  {
    sub == [] || (s != [] && ((sub[0] == s[0] && IsSubsequence(sub[1..], s[1..])) || IsSubsequence(sub, s[1..])))
  }

  /** The recency trim keeps exactly the recent records, each as often as the batch holds
      it, in their original order. */
  lemma {:induction false} KeepRecentExact(batch: seq<Article>, previousDay: int, parseDate: string -> Option<Day>)
    requires KeepRecent(batch, previousDay, parseDate).Ok?
    ensures var kept := KeepRecent(batch, previousDay, parseDate).value;
      IsSubsequence(kept, batch) &&
      forall a :: multiset(kept)[a] == if Recent(a, previousDay, parseDate) then multiset(batch)[a] else 0
    decreases |batch|
  {
    if batch != [] {
      var rest := batch[1..];
      KeepRecentExact(rest, previousDay, parseDate);
      var kept := KeepRecent(batch, previousDay, parseDate).value;
      var keptRest := KeepRecent(rest, previousDay, parseDate).value;
      assert batch == [batch[0]] + rest;
      if Recent(batch[0], previousDay, parseDate) {
        assert kept == [batch[0]] + keptRest;
        assert kept[1..] == keptRest;
      } else {
        assert kept == keptRest;
        assert IsSubsequence(kept, batch) by {
          if kept != [] {
            assert IsSubsequence(kept, batch[1..]);
          }
        }
      }
    }
  }

  /** A recent record is kept; a kept record is recent and was in the batch. */
  lemma KeepRecentMembers(batch: seq<Article>, previousDay: int, parseDate: string -> Option<Day>)
    requires KeepRecent(batch, previousDay, parseDate).Ok?
    ensures var kept := KeepRecent(batch, previousDay, parseDate).value;
      forall a :: a in kept <==> a in batch && Recent(a, previousDay, parseDate)
  {
    KeepRecentExact(batch, previousDay, parseDate);
    var kept := KeepRecent(batch, previousDay, parseDate).value;
    forall a ensures a in kept <==> a in batch && Recent(a, previousDay, parseDate) {
      assert a in kept <==> multiset(kept)[a] > 0;
      assert a in batch <==> multiset(batch)[a] > 0;
    }
  }

  /** Trimming the result again at the same cutoff keeps all of it. */
  lemma {:induction false} KeepRecentIdempotent(batch: seq<Article>, previousDay: int, parseDate: string -> Option<Day>)
    requires KeepRecent(batch, previousDay, parseDate).Ok?
    ensures var kept := KeepRecent(batch, previousDay, parseDate).value;
      KeepRecent(kept, previousDay, parseDate) == Ok(kept)
    decreases |batch|
  {
    if batch != [] {
      KeepRecentIdempotent(batch[1..], previousDay, parseDate);
      var kept := KeepRecent(batch, previousDay, parseDate).value;
      if Recent(batch[0], previousDay, parseDate) {
        assert kept[1..] == KeepRecent(batch[1..], previousDay, parseDate).value;
      }
    }
  }

  /** The reference date of lines 25-28: a non-empty `current_date` is parsed, otherwise today. */
  function ReferenceDate(currentDate: Option<string>, today: Day, parseDate: string -> Option<Day>)
    : (r: Result<Day, CleanerError>)
    ensures currentDate.None? || currentDate == Some("") ==> r == Ok(today)
    ensures currentDate.Some? && currentDate.value != "" ==>
      (r.Ok? <==> parseDate(currentDate.value).Some?) &&
      (r.Err? ==> r.error == InvalidIsoFormat(currentDate.value))
  {
    if currentDate.Some? && currentDate.value != "" then
      match parseDate(currentDate.value)
      case None => Err(InvalidIsoFormat(currentDate.value))
      case Some(day) => Ok(day)
    else Ok(today)
  }

  /** The whole of `remove_old_articles`: the new list, or the error it raises. */
  function RemoveOld(batch: seq<Article>, currentDate: Option<string>, today: Day,
                     parseDate: string -> Option<Day>): (r: Result<seq<Article>, CleanerError>)
    ensures currentDate.None? ==> (r == Err(DateOverflow) <==> today == 1)
    ensures r.Ok? ==> IsSubsequence(r.value, batch)
  {
    match ReferenceDate(currentDate, today, parseDate)
    case Err(e) => Err(e)
    case Ok(reference) =>
      if reference == 1 then Err(DateOverflow)
      else
        var kept := KeepRecent(batch, reference - 1, parseDate);
        if kept.Ok? then KeepRecentExact(batch, reference - 1, parseDate); kept else kept
  }

  /** A supplied date replaces today entirely. */
  lemma SuppliedDateOverridesToday(batch: seq<Article>, currentDate: string, today: Day, otherDay: Day,
                                   parseDate: string -> Option<Day>)
    requires currentDate != ""
    ensures RemoveOld(batch, Some(currentDate), today, parseDate)
         == RemoveOld(batch, Some(currentDate), otherDay, parseDate)
    ensures parseDate(currentDate).None? ==>
      RemoveOld(batch, Some(currentDate), today, parseDate) == Err(InvalidIsoFormat(currentDate))
    ensures parseDate(currentDate).Some? && parseDate(currentDate).value > 1 ==>
      RemoveOld(batch, Some(currentDate), today, parseDate)
        == KeepRecent(batch, parseDate(currentDate).value - 1, parseDate)
  {
  }

  /** Without a supplied date the cutoff is the day before today: the records dated
      yesterday or later are kept, and before 0001-01-02 the call overflows. */
  lemma TodayIsTheReference(batch: seq<Article>, today: Day, parseDate: string -> Option<Day>)
    ensures today > 1 ==> RemoveOld(batch, None, today, parseDate) == KeepRecent(batch, today - 1, parseDate)
    ensures today == 1 ==> RemoveOld(batch, None, today, parseDate) == Err(DateOverflow)
  {
  }

  // ---------------------------------------------------------------------------
  // The caller's list, changed in place

  /** A `scraping_results` list that the cleaners change in place. */
  class ScrapingResults {
    var articles: seq<Article>

    constructor (initial: seq<Article>)
      ensures articles == initial
    {
      articles := initial;
    }

    /** `remove_previously_viewed_articles`: `del scraping_results[index:]`. */
    method RemovePreviouslyViewedArticles(lastArticleViewed: string)
      modifies this
      ensures articles == CursorTrim(old(articles), lastArticleViewed)
    {
      var index := IndexOfLastViewedArticle(articles, lastArticleViewed);
      articles := articles[..index];
    }

    /**
     * `remove_old_articles`: builds the new list first and assigns it to the whole
     * slice only when every date parsed, so a failing call leaves the list as it was.
     */
    method RemoveOldArticles(currentDate: Option<string>, today: Day, parseDate: string -> Option<Day>)
      returns (outcome: Outcome<CleanerError>)
      modifies this
      ensures outcome.Pass? <==> RemoveOld(old(articles), currentDate, today, parseDate).Ok?
      ensures outcome.Fail? ==> RemoveOld(old(articles), currentDate, today, parseDate) == Err(outcome.error)
      ensures articles == match RemoveOld(old(articles), currentDate, today, parseDate)
                          case Ok(kept) => kept
                          case Err(_) => old(articles)
    {
      var reference: Day := today;
      if currentDate.Some? && currentDate.value != "" {
        var parsed := parseDate(currentDate.value);
        if parsed.None? {
          return Fail(InvalidIsoFormat(currentDate.value));
        }
        reference := parsed.value;
      }
      if reference == 1 {
        return Fail(DateOverflow);
      }
      var previousDay := reference - 1;
      ghost var batch := articles;
      var kept: seq<Article> := [];
      var i := 0;
      assert batch[i..] == batch;
      ghost var whole := KeepRecent(batch, previousDay, parseDate);
      if whole.Ok? {
        assert kept + whole.value == whole.value;
      }
      while i < |articles|
        invariant i <= |articles| && articles == batch
        invariant KeepRecent(batch, previousDay, parseDate) ==
          match KeepRecent(batch[i..], previousDay, parseDate)
          case Ok(rest) => Ok(kept + rest)
          case Err(e) => Err(e)
      {
        assert batch[i..][0] == batch[i] && batch[i..][1..] == batch[i + 1..];
        var day := parseDate(articles[i].date);
        if day.None? {
          return Fail(InvalidIsoFormat(articles[i].date));
        }
        if day.value >= previousDay {
          ghost var tail := KeepRecent(batch[i + 1..], previousDay, parseDate);
          if tail.Ok? {
            assert kept + ([batch[i]] + tail.value) == (kept + [batch[i]]) + tail.value;
          }
          kept := kept + [articles[i]];
        }
        i := i + 1;
      }
      assert batch[i..] == [];
      articles := kept;
      outcome := Pass;
    }
  }
}

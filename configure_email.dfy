/**
 * The piece of the e-mail configuration that is pure: turning a scraped
 * article into the HTML anchor that links to it in the mailed digest.
 * Credentials and the mailing list are read from YAML files and are not
 * part of this model.
 */
module ConfigureEmail {
  import opened Records

  const OpenTag: string := "<a href=\""
  const CloseAttribute: string := "\">"
  const CloseTag: string := "</a>"

  /** The anchor for an article: its link as the target, its title as the text. No escaping is done. */
  function FormatHtmlElement(article: Article): (r: string)
    ensures |r| == |OpenTag| + |article.link| + |CloseAttribute| + |article.title| + |CloseTag|
    ensures r[..|OpenTag|] == OpenTag
    ensures r[|OpenTag|..|OpenTag| + |article.link|] == article.link
    ensures r[|OpenTag| + |article.link|..|OpenTag| + |article.link| + |CloseAttribute|] == CloseAttribute
    ensures r[|r| - |CloseTag| - |article.title|..|r| - |CloseTag|] == article.title
    ensures r[|r| - |CloseTag|..] == CloseTag
  {
    OpenTag + article.link + CloseAttribute + article.title + CloseTag
  }

  /** The index of the first occurrence of `c` in `s` at or after `from`, if any. */
  function FindFrom(s: string, c: char, from: nat): (r: Option<nat>)
    requires from <= |s|
    ensures r.Some? ==> from <= r.value < |s| && s[r.value] == c && c !in s[from..r.value]
    ensures r.None? ==> c !in s[from..]
    decreases |s| - from
  {
    if from == |s| then None
    else if s[from] == c then Some(from)
    else
      var r := FindFrom(s, c, from + 1);
      assert s[from..] == [s[from]] + s[from + 1..];
      assert r.Some? ==> s[from..r.value] == [s[from]] + s[from + 1..r.value];
      r
  }

  /**
   * Reads an anchor back: the target runs up to the first double quote after
   * the opening tag, the text up to the closing tag. Returns the target and
   * the text, or None when the string is not such an anchor.
   */
  function ParseHtmlElement(s: string): (r: Option<(string, string)>)
    ensures r.Some? ==> s == OpenTag + r.value.0 + CloseAttribute + r.value.1 + CloseTag
    ensures r.Some? ==> '"' !in r.value.0
  {
    if |s| < |OpenTag| + |CloseAttribute| + |CloseTag| || s[..|OpenTag|] != OpenTag then None
    else
      match FindFrom(s, '"', |OpenTag|)
      case None => None
      case Some(k) =>
        if k + |CloseAttribute| + |CloseTag| > |s|
           || s[k..k + |CloseAttribute|] != CloseAttribute
           || s[|s| - |CloseTag|..] != CloseTag
        then None
        else
          var link := s[|OpenTag|..k];
          var title := s[k + |CloseAttribute|..|s| - |CloseTag|];
          assert s == s[..|OpenTag|] + s[|OpenTag|..k] + s[k..k + |CloseAttribute|]
                      + s[k + |CloseAttribute|..|s| - |CloseTag|] + s[|s| - |CloseTag|..];
          Some((link, title))
  }

  /** The search stops at the first occurrence. */
  lemma {:induction false} FindFromFirst(s: string, c: char, from: nat, k: nat)
    requires from <= k < |s| && s[k] == c
    requires forall i :: from <= i < k ==> s[i] != c
    ensures FindFrom(s, c, from) == Some(k)
    decreases k - from
  {
    if from < k {
      FindFromFirst(s, c, from + 1, k);
    }
  }

  /** A link without a double quote survives the round trip through its anchor, and so does the title. */
  lemma ParseFormatRoundTrip(article: Article)
    requires '"' !in article.link
    ensures ParseHtmlElement(FormatHtmlElement(article)) == Some((article.link, article.title))
  {
    var s := FormatHtmlElement(article);
    var k := |OpenTag| + |article.link|;
    assert s[k] == CloseAttribute[0];
    forall i | |OpenTag| <= i < k ensures s[i] != '"' {
      assert s[i] == s[|OpenTag|..k][i - |OpenTag|];
    }
    FindFromFirst(s, '"', |OpenTag|, k);
  }

  /**
   * Without escaping, different articles can give the same anchor: a target
   * that contains the attribute's closing quote reads like a shorter target
   * followed by a longer title.
   */
  lemma FormatIsAmbiguousWithoutEscaping(p: string, q: string, r: string, date: string, description: string)
    ensures p + CloseAttribute + q != p
    ensures FormatHtmlElement(Article(r, p + CloseAttribute + q, date, description))
         == FormatHtmlElement(Article(q + CloseAttribute + r, p, date, description))
  {
    assert |CloseAttribute| == 2;
    assert OpenTag + (p + CloseAttribute + q) + CloseAttribute + r + CloseTag
        == OpenTag + p + CloseAttribute + (q + CloseAttribute + r) + CloseTag;
  }

  /** Different anchors come from articles that differ in their link or their title. */
  lemma FormatDeterminedByLinkAndTitle(a: Article, b: Article)
    requires '"' !in a.link && '"' !in b.link
    ensures FormatHtmlElement(a) == FormatHtmlElement(b) <==> a.link == b.link && a.title == b.title
  {
    ParseFormatRoundTrip(a);
    ParseFormatRoundTrip(b);
  }
}

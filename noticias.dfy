/**
 * The news intent handler (client/modules/Noticias.py): its trigger words, its priority,
 * the article list built from the feed, and the two phrases it speaks. The feed is the
 * sequence of (title, link) items `feedparser` would return.
 */
module Noticias {
  import opened Wrappers
  import opened Text

  const PRIORITY: int := 3
  const URL := "http://news.ycombinator.com"
  const FEED_URL := "http://news.google.com.mx/?output=rss"

  const URL_MARKER := "&url="
  const SOURCE_SEPARATOR := " - "
  const HEADLINE_SEPARATOR := "... "
  const SEARCHING := "Buscando las noticias"
  const HEADLINES_INTRO := "Estos son los titulares del momento "
  const MAX_RESULTS := 3

  datatype FeedItem = FeedItem(title: string, link: string)

  datatype Article = Article(title: string, url: string)

  // ---------------------------------------------------------------- isValid

  /** `\b` followed by the word `w` (in any ASCII case) followed by `\b`, at position `i`. */
  predicate WordAt(text: string, w: string, i: nat)
  {
    && i + |w| <= |text|
    && Lower(text[i..i + |w|]) == w
    && (i == 0 || !IsWordChar(text[i - 1]))
    && (i + |w| == |text| || !IsWordChar(text[i + |w|]))
  }

  /** The pattern `\b(noticias|titulares)\b` matches at position `i`. */
  predicate MatchesAt(text: string, i: nat)
  {
    WordAt(text, "noticias", i) || WordAt(text, "titulares", i)
  }

  /** `re.search` tries the pattern at each start position from `k` on. */
  predicate SearchFrom(text: string, k: nat)
    decreases |text| - k
  {
    if k > |text| then false else MatchesAt(text, k) || SearchFrom(text, k + 1)
  }

  /** `isValid(text)`. */
  predicate IsValid(text: string)
  {
    SearchFrom(text, 0)
  }

  /** A search that succeeds found a match at some position from `k` on. */
  lemma {:induction false} SearchFromSound(text: string, k: nat) returns (i: nat)
    requires SearchFrom(text, k)
    ensures k <= i && MatchesAt(text, i)
    decreases |text| - k
  {
    if MatchesAt(text, k) {
      i := k;
    } else {
      i := SearchFromSound(text, k + 1);
    }
  }

  /** A match at or after `k` makes the search from `k` succeed. */
  lemma {:induction false} SearchFromComplete(text: string, k: nat, i: nat)
    requires k <= i && MatchesAt(text, i)
    ensures SearchFrom(text, k)
    decreases i - k
  {
    if k < i {
      SearchFromComplete(text, k + 1, i);
      SearchFromStep(text, k, i);
    } else {
      SearchFromHere(text, i);
    }
  }

  lemma SearchFromHere(text: string, i: nat)
    requires MatchesAt(text, i)
    ensures SearchFrom(text, i)
  {
  }

  lemma SearchFromStep(text: string, k: nat, i: nat)
    requires k < i && MatchesAt(text, i) && SearchFrom(text, k + 1)
    ensures SearchFrom(text, k)
  {
  }

  /** The handler accepts a text exactly when one of its two words stands in it as a whole word. */
  lemma IsValidMeansWholeWord(text: string)
    ensures IsValid(text) <==> exists i: nat :: MatchesAt(text, i)
  {
    if IsValid(text) {
      var i := SearchFromSound(text, 0);
    }
    if exists i: nat :: MatchesAt(text, i) {
      var i: nat :| MatchesAt(text, i);
      SearchFromComplete(text, 0, i);
    }
  }

  /** A trigger word, in any ASCII case, between non-word characters (or the string ends) is accepted. */
  lemma WordBetweenSeparatorsAccepted(p: string, w: string, s: string)
    requires Lower(w) == "noticias" || Lower(w) == "titulares"
    requires p == [] || !IsWordChar(p[|p| - 1])
    requires s == [] || !IsWordChar(s[0])
    ensures IsValid(p + w + s)
  {
    var t := p + w + s;
    assert t[|p|..|p| + |w|] == w;
    assert |p| > 0 ==> t[|p| - 1] == p[|p| - 1];
    assert |s| > 0 ==> t[|p| + |w|] == s[0];
    assert MatchesAt(t, |p|);
    IsValidMeansWholeWord(t);
  }

  /** Every accepted text contains one of the two words once lower-cased. */
  lemma AcceptedContainsWord(text: string)
    requires IsValid(text)
    ensures Contains(Lower(text), "noticias") || Contains(Lower(text), "titulares")
  {
    IsValidMeansWholeWord(text);
    var i: nat :| MatchesAt(text, i);
    if WordAt(text, "noticias", i) {
      WordAtContains(text, "noticias", i);
    } else {
      WordAtContains(text, "titulares", i);
    }
  }

  lemma WordAtContains(text: string, w: string, i: nat)
    requires WordAt(text, w, i)
    ensures Contains(Lower(text), w)
  {
    LowerSlice(text, i, i + |w|);
    assert OccursAt(Lower(text), w, i);
  }

  /** A word glued to other letters is not a match: "xnoticias" is rejected. */
  lemma GluedWordRejected()
    ensures !IsValid("xnoticias")
  {
    IsValidMeansWholeWord("xnoticias");
    forall i: nat
      ensures !MatchesAt("xnoticias", i)
    {
      NoMatchInGluedWord(i);
    }
  }

  lemma NoMatchInGluedWord(i: nat)
    ensures !MatchesAt("xnoticias", i)
  {
    if i == 0 {
      assert Lower("xnoticias"[0..8]) == "xnoticia";
      assert Lower("xnoticias"[0..9]) == "xnoticias";
    }
  }

  /** The word is matched in any ASCII case: "Las NOTICIAS" is accepted. */
  lemma UpperCaseWordAccepted()
    ensures IsValid("Las NOTICIAS")
  {
    var text := "Las NOTICIAS";
    assert text[4..12] == "NOTICIAS";
    assert Lower("NOTICIAS") == "noticias";
    assert MatchesAt(text, 4);
    IsValidMeansWholeWord(text);
  }

  // ---------------------------------------------------------------- getTopArticles

  /** Python truthiness of `maxResults`: neither None nor 0. */
  predicate Truthy(maxResults: Option<int>)
  {
    maxResults.Some? && maxResults.value != 0
  }

  function Min(a: nat, b: nat): nat { if a <= b then a else b }

  /**
   * How many feed items the loop reaches before it stops: all of them without a limit;
   * otherwise it stops right after the item that makes the count exceed the limit, so
   * `maxResults + 1` items, and a single item when the limit is negative.
   */
  function Reached(n: nat, maxResults: Option<int>): (r: nat)
    ensures r <= n
  {
    if !Truthy(maxResults) then n
    else if maxResults.value < 0 then Min(n, 1)
    else Min(n, maxResults.value + 1)
  }

  /** `link.split("&url=")[1]`. */
  function UrlOf(link: string): string
    requires Contains(link, URL_MARKER)
  {
    Split(link, URL_MARKER)[1]
  }

  /** The URL cut from a link never contains "&url=" itself. */
  lemma UrlOfHasNoMarker(link: string)
    requires Contains(link, URL_MARKER)
    ensures !Contains(UrlOf(link), URL_MARKER)
  {
    SplitPiecesFree(link, URL_MARKER);
  }

  /** The URL is what follows the first "&url=", up to the next "&url=" or the end. */
  lemma UrlOfIsSecondPiece(link: string)
    requires Contains(link, URL_MARKER)
    ensures var i := IndexOf(link, URL_MARKER).value;
      var rest := link[i + |URL_MARKER|..];
      UrlOf(link) == if Contains(rest, URL_MARKER) then rest[..IndexOf(rest, URL_MARKER).value] else rest
  {
    var i := IndexOf(link, URL_MARKER).value;
    var rest := link[i + |URL_MARKER|..];
    assert Split(link, URL_MARKER) == [link[..i]] + Split(rest, URL_MARKER);
    assert UrlOf(link) == Split(rest, URL_MARKER)[0];
    if Contains(rest, URL_MARKER) {
      var j := IndexOf(rest, URL_MARKER).value;
      assert Split(rest, URL_MARKER) == [rest[..j]] + Split(rest[j + |URL_MARKER|..], URL_MARKER);
    }
  }

  /** `articles` are the first feed items in order, each with the URL cut out of its link. */
  predicate ArticlesOf(items: seq<FeedItem>, articles: seq<Article>)
  {
    && |articles| <= |items|
    && forall j :: 0 <= j < |articles| ==>
      Contains(items[j].link, URL_MARKER) && articles[j] == Article(items[j].title, UrlOf(items[j].link))
  }

  lemma ArticlesOfSnoc(items: seq<FeedItem>, articles: seq<Article>)
    requires ArticlesOf(items, articles) && |articles| < |items|
    requires Contains(items[|articles|].link, URL_MARKER)
    ensures var item := items[|articles|];
      ArticlesOf(items, articles + [Article(item.title, UrlOf(item.link))])
  {
  }

  /** `getTopArticles(maxResults)` over the feed's items; a link without "&url=" raises IndexError. */
  method GetTopArticles(items: seq<FeedItem>, maxResults: Option<int>) returns (r: Result<seq<Article>, Exception>)
    ensures r.Err? <==> exists k :: 0 <= k < Reached(|items|, maxResults) && !Contains(items[k].link, URL_MARKER)
    ensures r.Err? ==> r.error == IndexError
    ensures r.Ok? ==> |r.value| == Reached(|items|, maxResults) && ArticlesOf(items, r.value)
  {
    var count := 0;
    var articles: seq<Article> := [];
    var k := 0;
    while k < |items|
      invariant k <= |items| && count == k && |articles| == k
      invariant Truthy(maxResults) ==> k == 0 || k <= maxResults.value
      invariant ArticlesOf(items, articles)
    {
      var pieces := Split(items[k].link, URL_MARKER);
      if |pieces| < 2 {
        return Err(IndexError);
      }
      ArticlesOfSnoc(items, articles);
      articles := articles + [Article(items[k].title, pieces[1])];
      count := count + 1;
      if Truthy(maxResults) && count > maxResults.value {
        return Ok(articles);
      }
      k := k + 1;
    }
    return Ok(articles);
  }

  // ---------------------------------------------------------------- handle

  /** `" ".join(title.split(" - ")[:-1])`: the title without its trailing " - source". */
  function SpokenTitle(title: string): string
  {
    var pieces := Split(title, SOURCE_SEPARATOR);
    Join(pieces[..|pieces| - 1], " ")
  }

  /** A title without " - " is spoken as the empty string. */
  lemma TitleWithoutSourceIsDropped(title: string)
    requires !Contains(title, SOURCE_SEPARATOR)
    ensures SpokenTitle(title) == ""
  {
  }

  /** "headline - source": the source is dropped and the headline kept, when the headline neither contains " - " nor ends in " -". */
  lemma SourceStripped(headline: string, source: string)
    requires !Contains(headline + " -", SOURCE_SEPARATOR) && !Contains(source, SOURCE_SEPARATOR)
    ensures SpokenTitle(headline + SOURCE_SEPARATOR + source) == headline
  {
    assert SOURCE_SEPARATOR[..|SOURCE_SEPARATOR| - 1] == " -";
    SplitAfterFirst(headline, SOURCE_SEPARATOR, source);
    assert Split(headline + SOURCE_SEPARATOR + source, SOURCE_SEPARATOR) == [headline, source];
  }

  /** One numbered item, `str(number) + ")" + title`. */
  function Item(number: nat, title: string): string
  {
    NatToString(number) + ")" + title
  }

  /** The numbered items, counted from 1. */
  function Numbered(titles: seq<string>): (r: seq<string>)
    ensures |r| == |titles|
    ensures forall i :: 0 <= i < |titles| ==> r[i] == Item(i + 1, titles[i])
  {
    seq(|titles|, i requires 0 <= i < |titles| => Item(i + 1, titles[i]))
  }

  /** `"... ".join(...)` of the numbered titles. */
  function Headlines(titles: seq<string>): string
  {
    Join(Numbered(titles), HEADLINE_SEPARATOR)
  }

  /** Appending a title appends "... " and that title numbered with its position from 1. */
  lemma HeadlinesSnoc(titles: seq<string>, t: string)
    ensures Headlines(titles + [t]) ==
      if titles == [] then Item(1, t) else Headlines(titles) + HEADLINE_SEPARATOR + Item(|titles| + 1, t)
  {
    NumberedSnoc(titles, t);
    if titles != [] {
      JoinSnoc(Numbered(titles), Item(|titles| + 1, t), HEADLINE_SEPARATOR);
    }
  }

  lemma NumberedSnoc(titles: seq<string>, t: string)
    ensures Numbered(titles + [t]) == Numbered(titles) + [Item(|titles| + 1, t)]
  {
    var last := Item(|titles| + 1, t);
    var before := Numbered(titles);
    var n := Numbered(titles + [t]);
    assert |n| == |before + [last]|;
    forall i | 0 <= i < |n|
      ensures n[i] == (before + [last])[i]
    {
      if i < |titles| {
        assert (titles + [t])[i] == titles[i];
      } else {
        assert (titles + [t])[i] == t;
      }
    }
  }

  /** Three headlines read "1)a... 2)b... 3)c". */
  lemma ThreeHeadlines(a: string, b: string, c: string)
    ensures Headlines([a, b, c]) == "1)" + a + "... 2)" + b + "... 3)" + c
  {
    var one := Headlines([a]);
    OneHeadline(a);
    var two := Headlines([a, b]);
    assert [a, b] == [a] + [b];
    HeadlineAppended([a], b, one, "2)");
    assert [a, b, c] == [a, b] + [c];
    HeadlineAppended([a, b], c, two, "3)");
  }

  lemma OneHeadline(a: string)
    ensures Headlines([a]) == "1)" + a
  {
    HeadlinesSnoc([], a);
    assert [a] == [] + [a];
    SmallItem(1, a);
  }

  lemma HeadlineAppended(titles: seq<string>, t: string, before: string, number: string)
    requires 1 <= |titles| <= 8 && before == Headlines(titles)
    requires number == [DigitChar(|titles| + 1), ')']
    ensures Headlines(titles + [t]) == before + "... " + number + t
  {
    HeadlinesSnoc(titles, t);
    SmallItem(|titles| + 1, t);
  }

  lemma SmallItem(n: nat, t: string)
    requires 1 <= n <= 9
    ensures Item(n, t) == [DigitChar(n), ')'] + t
  {
  }

  /** Each title after `encode('ascii', 'ignore')`. */
  function AsciiTitles(titles: seq<string>): (r: seq<string>)
    ensures |r| == |titles| && forall i :: 0 <= i < |titles| ==> r[i] == DropNonAscii(titles[i])
  {
    seq(|titles|, i requires 0 <= i < |titles| => DropNonAscii(titles[i]))
  }

  lemma DropNonAsciiItem(number: nat, t: string)
    ensures DropNonAscii(Item(number, t)) == Item(number, DropNonAscii(t))
  {
    var prefix := NatToString(number) + ")";
    assert IsAscii(prefix);
    assert Item(number, t) == prefix + t;
    DropNonAsciiConcat(prefix, t);
    DropNonAsciiOnAscii(prefix);
  }

  /**
   * The numbers and separators are ASCII, so encoding the joined headlines drops exactly
   * what encoding each title on its own would drop.
   */
  lemma {:induction false} DropNonAsciiPerTitle(titles: seq<string>)
    ensures DropNonAscii(Headlines(titles)) == Headlines(AsciiTitles(titles))
    decreases |titles|
  {
    if titles == [] {
      assert Headlines(titles) == "" && Headlines(AsciiTitles(titles)) == "";
    } else {
      var init, t := titles[..|titles| - 1], titles[|titles| - 1];
      assert titles == init + [t];
      var asciiInit := AsciiTitles(init);
      assert AsciiTitles(titles) == asciiInit + [DropNonAscii(t)];
      HeadlinesSnoc(init, t);
      HeadlinesSnoc(asciiInit, DropNonAscii(t));
      DropNonAsciiItem(|init| + 1, t);
      if init != [] {
        DropNonAsciiPerTitle(init);
        DropNonAsciiAroundSeparator(Headlines(init), Item(|init| + 1, t));
      }
    }
  }

  lemma DropNonAsciiAroundSeparator(before: string, after: string)
    ensures DropNonAscii(before + HEADLINE_SEPARATOR + after) ==
      DropNonAscii(before) + HEADLINE_SEPARATOR + DropNonAscii(after)
  {
    DropNonAsciiConcat(before + HEADLINE_SEPARATOR, after);
    DropNonAsciiConcat(before, HEADLINE_SEPARATOR);
    DropNonAsciiOnAscii(HEADLINE_SEPARATOR);
  }

  /** Headlines whose titles are all ASCII are read out whole. */
  lemma AsciiTitlesSpokenWhole(titles: seq<string>)
    requires forall i :: 0 <= i < |titles| ==> IsAscii(titles[i])
    ensures DropNonAscii(Headlines(titles)) == Headlines(titles)
  {
    DropNonAsciiPerTitle(titles);
    forall i | 0 <= i < |titles|
      ensures AsciiTitles(titles)[i] == titles[i]
    {
      DropNonAsciiOnAscii(titles[i]);
    }
    assert AsciiTitles(titles) == titles;
  }

  /** The titles of the feed items, in order. */
  function TitlesOf(items: seq<FeedItem>): (r: seq<string>)
    ensures |r| == |items| && forall i :: 0 <= i < |items| ==> r[i] == items[i].title
  {
    seq(|items|, i requires 0 <= i < |items| => items[i].title)
  }

  /** `[" ".join(x.title.split(" - ")[:-1]) for x in articles]`. */
  function SpokenTitles(titles: seq<string>): (r: seq<string>)
    ensures |r| == |titles| && forall i :: 0 <= i < |titles| ==> r[i] == SpokenTitle(titles[i])
  {
    seq(|titles|, i requires 0 <= i < |titles| => SpokenTitle(titles[i]))
  }

  /**
   * `handle(text, mic, profile)`: what it passes to `mic.say`, in order, and the exception
   * that escapes when `getTopArticles` fails after the first phrase was spoken.
   */
  method Handle(text: string, profile: map<string, string>, items: seq<FeedItem>)
    returns (said: seq<string>, raised: Option<Exception>)
    ensures |said| >= 1 && said[0] == SEARCHING
    ensures var n := Reached(|items|, Some(MAX_RESULTS));
      raised.Some? <==> exists k :: 0 <= k < n && !Contains(items[k].link, URL_MARKER)
    ensures raised.Some? ==> said == [SEARCHING] && raised.value == IndexError
    ensures raised.None? ==>
      said == [SEARCHING, HEADLINES_INTRO + DropNonAscii(Headlines(SpokenTitles(TitlesOf(items[..Reached(|items|, Some(MAX_RESULTS))]))))]
  {
    said := [SEARCHING];
    var articles := GetTopArticles(items, Some(MAX_RESULTS));
    if articles.Err? {
      return said, Some(articles.error);
    }
    var n := Reached(|items|, Some(MAX_RESULTS));
    var articleTitles := seq(|articles.value|, i requires 0 <= i < |articles.value| => articles.value[i].title);
    assert articleTitles == TitlesOf(items[..n]);
    var titles := SpokenTitles(articleTitles);
    said := said + [HEADLINES_INTRO + DropNonAscii(Headlines(titles))];
    raised := None;
  }

  /** At most four articles are read out: the limit of 3 is checked after each append. */
  lemma AtMostFourArticles(n: nat)
    ensures Reached(n, Some(MAX_RESULTS)) == Min(n, 4)
  {
  }
}

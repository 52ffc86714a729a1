/**
 * The news-article page: the sentiment colour of a score in [0, 4]
 * (`decimal_to_rbg`) and the HTML document `create_news_article` assembles from
 * one row of the predictions table. The row is an input; parsing the "[[x]]"
 * score text as a float and printing the mean score are parameters.
 */
module NewsArticle {
  import opened Wrappers
  import opened Strings
  import opened StrPlus
  import TfidfTopWords

  // ---------------------------------------------------------------------------
  // decimal_to_rbg

  /** Python's `int(x)` on a float: truncation toward zero. */
  function Trunc(x: real): (t: int)
    ensures x >= 0.0 ==> t as real <= x < t as real + 1.0
    ensures x < 0.0 ==> t as real - 1.0 < x <= t as real
  {
    if x >= 0.0 then x.Floor else -((-x).Floor)
  }

  function Red(decimal: real): int { Trunc((4.0 - decimal) * 255.0 / 4.0) }
  function Green(decimal: real): int { Trunc(decimal * 255.0 / 4.0) }
  const Blue: int := 120
  /** The fixed blue level as the f-string prints it. */
  const BlueText: string := "120"

  lemma BlueTextIsBlue()
    ensures IntToString(Blue) == BlueText
  {
    assert NatToString(12) == "12" by { assert NatToString(1) == "1"; }
  }

  /** `decimal_to_rbg(decimal)`: red falls and green rises with the score, blue is fixed. */
  function DecimalToRgb(decimal: real): string
  {
    "rgb(" + IntToString(Red(decimal)) + ", " + IntToString(Green(decimal)) + ", " + BlueText + ")"
  }

  lemma RgbShapeOf(red: string, green: string)
    ensures StartsWith("rgb(" + red + ", " + green + ", " + BlueText + ")", "rgb(")
    ensures EndsWith("rgb(" + red + ", " + green + ", " + BlueText + ")", ", 120)")
  {
    var css := "rgb(" + red + ", " + green + ", " + BlueText + ")";
    assert css[..4] == "rgb(";
    assert css[|css| - 6..] == ", 120)";
  }

  /** The colour is written as `rgb(r, g, 120)`. */
  lemma RgbShape(decimal: real)
    ensures StartsWith(DecimalToRgb(decimal), "rgb(") && EndsWith(DecimalToRgb(decimal), ", 120)")
  {
    RgbShapeOf(IntToString(Red(decimal)), IntToString(Green(decimal)));
  }

  lemma {:induction false} TruncMonotone(x: real, y: real)
    requires 0.0 <= x <= y
    ensures Trunc(x) <= Trunc(y)
  {
    assert Trunc(x) as real <= x <= y < Trunc(y) as real + 1.0;
  }

  /** On [0, 4] both varying components are valid colour levels. */
  lemma ColorInRange(decimal: real)
    requires 0.0 <= decimal <= 4.0
    ensures 0 <= Red(decimal) <= 255 && 0 <= Green(decimal) <= 255
  {
    TruncMonotone((4.0 - decimal) * 255.0 / 4.0, 255.0);
    TruncMonotone(decimal * 255.0 / 4.0, 255.0);
  }

  /** On [0, 4] red never increases and green never decreases as the score grows. */
  lemma ColorMonotone(d1: real, d2: real)
    requires 0.0 <= d1 <= d2 <= 4.0
    ensures Red(d2) <= Red(d1) && Green(d1) <= Green(d2)
  {
    TruncMonotone((4.0 - d2) * 255.0 / 4.0, (4.0 - d1) * 255.0 / 4.0);
    TruncMonotone(d1 * 255.0 / 4.0, d2 * 255.0 / 4.0);
  }

  /** Red and green split 255 between them, losing at most one level to truncation. */
  lemma ColorBalance(decimal: real)
    requires 0.0 <= decimal <= 4.0
    ensures 254 <= Red(decimal) + Green(decimal) <= 255
  {
    var a := decimal * 255.0 / 4.0;
    assert (4.0 - decimal) * 255.0 / 4.0 == 255.0 - a;
  }

  lemma LevelTexts()
    ensures IntToString(255) == "255" && IntToString(0) == "0"
  {
    assert NatToString(25) == "25" by { assert NatToString(2) == "2"; }
  }

  lemma EndLevels()
    ensures Red(0.0) == 255 && Green(0.0) == 0 && Red(4.0) == 0 && Green(4.0) == 255
  {
    assert (4.0 - 0.0) * 255.0 / 4.0 == 255.0;
    assert 4.0 * 255.0 / 4.0 == 255.0;
  }

  lemma RgbText(decimal: real, red: string, green: string)
    requires IntToString(Red(decimal)) == red && IntToString(Green(decimal)) == green
    ensures DecimalToRgb(decimal) == "rgb(" + red + ", " + green + ", 120)"
  {
  }

  /** The ends of the scale: 0 is pure red, 4 pure green. */
  lemma ColorEnds()
    ensures DecimalToRgb(0.0) == "rgb(255, 0, 120)"
    ensures DecimalToRgb(4.0) == "rgb(0, 255, 120)"
  {
    EndLevels();
    LevelTexts();
    RgbText(0.0, "255", "0");
    RgbText(4.0, "0", "255");
  }

  // ---------------------------------------------------------------------------
  // re.search(r"\[\[(.*)\]\]", sentence).group(1)

  predicate OpenAt(s: string, i: int) {
    0 <= i && i + 2 <= |s| && s[i] == '[' && s[i + 1] == '['
  }

  predicate CloseAt(s: string, j: int) {
    0 <= j && j + 2 <= |s| && s[j] == ']' && s[j + 1] == ']'
  }

  /** "[[" at `i` and "]]" at `j` with no line break between them (`.` stops at '\n'). */
  predicate MatchAt(s: string, i: int, j: int) {
    OpenAt(s, i) && i + 2 <= j && CloseAt(s, j) && forall k :: i + 2 <= k < j ==> s[k] != '\n'
  }

  /** The first line break at or after `k`, or the end of `s`. */
  function LineEnd(s: string, k: nat): (e: nat)
    requires k <= |s|
    ensures k <= e <= |s|
    ensures forall m :: k <= m < e ==> s[m] != '\n'
    ensures e < |s| ==> s[e] == '\n'
    decreases |s| - k
  {
    if k == |s| || s[k] == '\n' then k else LineEnd(s, k + 1)
  }

  /** The last "]]" that fits in `s[lo..hi]`. */
  function LastClose(s: string, lo: nat, hi: nat): (j: Option<nat>)
    requires hi <= |s|
    ensures j.Some? ==> lo <= j.value && j.value + 2 <= hi && CloseAt(s, j.value)
    ensures j.Some? ==> forall k :: j.value < k && k + 2 <= hi ==> !CloseAt(s, k)
    ensures j.None? ==> forall k :: lo <= k && k + 2 <= hi ==> !CloseAt(s, k)
    decreases hi
  {
    if hi < lo + 2 then None
    else if CloseAt(s, hi - 2) then Some(hi - 2)
    else LastClose(s, lo, hi - 1)
  }

  /** The regex search from `i` on: the leftmost "[[", then the greediest "]]" on its line. */
  function SearchFrom(s: string, i: nat): (m: Option<(nat, nat)>)
    ensures m.Some? ==> i <= m.value.0 && MatchAt(s, m.value.0, m.value.1)
    ensures m.Some? ==> forall a, b :: i <= a < m.value.0 ==> !MatchAt(s, a, b)
    ensures m.Some? ==> forall b :: MatchAt(s, m.value.0, b) ==> b <= m.value.1
    ensures m.None? ==> forall a, b :: i <= a ==> !MatchAt(s, a, b)
    decreases |s| - i
  {
    if i + 2 > |s| then None
    else
      var close := LastClose(s, i + 2, LineEnd(s, i + 2));
      if OpenAt(s, i) && close.Some? then
        NoMatchPastLine(s, i);
        Some((i, close.value))
      else
        NoMatchPastLine(s, i);
        SearchFrom(s, i + 1)
  }

  /** A match starting at `i` ends before the line break that follows its "[[". */
  lemma NoMatchPastLine(s: string, i: nat)
    requires i + 2 <= |s|
    ensures forall b :: MatchAt(s, i, b) ==> b + 2 <= LineEnd(s, i + 2)
  {
  }

  /** `group(1)` of the search, or None when the search finds nothing. */
  function MarkerGroup(sentence: string): (g: Option<string>)
    ensures g.None? <==> forall a, b :: !MatchAt(sentence, a, b)
    ensures g.Some? ==> exists a, b :: MatchAt(sentence, a, b) && g.value == sentence[a + 2..b]
  {
    match SearchFrom(sentence, 0)
    case None => None
    case Some((a, b)) => Some(sentence[a + 2..b])
  }

  /** The group holds no line break: the score text lies on one line. */
  lemma MarkerGroupOneLine(sentence: string)
    requires MarkerGroup(sentence).Some?
    ensures '\n' !in MarkerGroup(sentence).value
  {
    var a, b :| MatchAt(sentence, a, b) && MarkerGroup(sentence).value == sentence[a + 2..b];
  }

  // ---------------------------------------------------------------------------
  // create_news_article

  /** The columns of a `news_api_w_preds` row the page uses. */
  datatype NewsRow = NewsRow(
    source: string,          // column 1
    author: string,          // column 2
    title: string,           // column 3
    published: string,       // column 6, as printed
    articleNumber: int,      // column 8
    meanPred: Option<real>,  // column 9, None when NULL
    textWithPreds: string,   // column 10: sentences, each with its "[[score]]"
    topWords: seq<Option<string>>)   // columns 11 onward, None when NULL

  datatype ArticleError =
    | NoScore(sentence: string)        // the search found nothing: `None.group` raises
    | NotANumber(scoreText: string)    // the score is unusable: `float(...)` raises, or `int()` raises on inf or nan
    | NoMeanScore                      // `decimal_to_rbg(None)` raises TypeError
    | UnknownSource(source: string)    // `banners[source]` raises KeyError
    | NullTopWord                      // `', '.join` of a None cell raises TypeError

  /** The banner image of each known source. */
  const Banners: map<string, string> := map[
      "fox-news" := "https://s1.qwant.com/thumbr/0x380/9/6/9484111a9e2eb4cbb8ede5d0bc606c378ed898aeb7f1bd2dd64a13b79b7d16/1200px-Fox_News_Channel_logo.svg.png?u=https%3A%2F%2Fupload.wikimedia.org%2Fwikipedia%2Fcommons%2Fthumb%2F6%2F67%2FFox_News_Channel_logo.svg%2F1200px-Fox_News_Channel_logo.svg.png&q=0&b=1&p=0&a=0",
      "abc-news" := "https://s1.qwant.com/thumbr/700x0/3/e/0247f90b2a3859f30c2f2aa3bf8c0a4a3bb5fb50a4356a0fabc82cb6a014b6/latest.jpg?u=https%3A%2F%2Fvignette4.wikia.nocookie.net%2Flogopedia%2Fimages%2Fe%2Fe1%2FABC_News.jpg%2Frevision%2Flatest%3Fcb%3D20151013161111&q=0&b=1&p=0&a=0",
      "cnn" := "https://s2.qwant.com/thumbr/700x0/f/e/fb9962b40abff59c434b2e63eb63d72021cb7912e6f784bd2388fd21ff67c4/cnn-logo-1-1.png?u=https%3A%2F%2Flogodownload.org%2Fwp-content%2Fuploads%2F2014%2F11%2Fcnn-logo-1-1.png&q=0&b=1&p=0&a=0",
      "al-jazeera-english" := "https://s2.qwant.com/thumbr/0x380/6/e/8509f372409f486f2279183019365bd9b0599d3b4c01dd6829861561e0e77e/JAZEERA-LOGO.jpg?u=http%3A%2F%2Fwww.wired.com%2Fwp-content%2Fuploads%2Fimages_blogs%2Fbusiness%2F2011%2F01%2FJAZEERA-LOGO.jpg&q=0&b=1&p=0&a=0"
  ]

  const Style: string :=
    "\n"
    + "<style>\n"
    + "\n"
    + "    t {\n"
    + "        font-size: large;\n"
    + "        line-height: ;\n"
    + "        padding:10px;\n"
    + "        width:auto;\n"
    + "    }\n"
    + "\n"
    + "    div {\n"
    + "        padding:10px;\n"
    + "        border-radius:10px;\n"
    + "        margin:10px;\n"
    + "    }\n"
    + "\n"
    + "    article {\n"
    + "        border-radius:10px;\n"
    + "    }\n"
    + "\n"
    + "    html {\n"
    + "        margin:0 450px;\n"
    + "        text-align: center;\n"
    + "        font-family: system-ui, -apple-system, BlinkMacSystemFont, 'Segoe UI', Roboto, Oxygen, Ubuntu, Cantarell, 'Open Sans', 'Helvetica Neue', sans-serif;\n"
    + "    }\n"
    + "</style>\n"

  /** The page's fixed parts: the banner table and the style sheet. */
  datatype Layout = Layout(banners: map<string, string>, style: string)

  /** The layout `create_news_article` uses. */
  const SiteLayout: Layout := Layout(Banners, Style)

  /** One sentence as a coloured block; the split removed its ". ", so a "." is put back. */
  function SentenceDiv(sentence: string, pred: real): string
  {
    "<div style=\"background-color:" + DecimalToRgb(pred) + ";\"><t>" + sentence + ".</t></div>"
  }

  /** The block for one sentence, or why it cannot be made. */
  function PieceDiv(sentence: string, parseFloat: string -> Option<real>): Result<string, ArticleError>
  {
    match MarkerGroup(sentence)
    case None => Failure(NoScore(sentence))
    case Some(g) =>
      match parseFloat(g)
      case None => Failure(NotANumber(g))
      case Some(x) => Success(SentenceDiv(sentence, x))
  }

  /**
   * A sentence fails exactly when it has no "[[...]]" on one line, or its
   * score text is not a number; otherwise its block is coloured by the score.
   */
  lemma PieceDivOutcome(sentence: string, parseFloat: string -> Option<real>)
    ensures PieceDiv(sentence, parseFloat).Failure? <==>
      (forall a, b :: !MatchAt(sentence, a, b)) || parseFloat(MarkerGroup(sentence).value).None?
    ensures PieceDiv(sentence, parseFloat).Failure? ==>
      PieceDiv(sentence, parseFloat).error == if MarkerGroup(sentence).None? then NoScore(sentence) else NotANumber(MarkerGroup(sentence).value)
    ensures PieceDiv(sentence, parseFloat).Success? ==>
      PieceDiv(sentence, parseFloat).value == SentenceDiv(sentence, parseFloat(MarkerGroup(sentence).value).value)
  {
  }

  /** `f` applied to each item in order; the first item that fails decides the error. */
  function MapResults<E>(items: seq<string>, f: string -> Result<string, E>): (r: Result<seq<string>, E>)
    ensures r.Success? <==> forall k :: 0 <= k < |items| ==> f(items[k]).Success?
    ensures r.Success? ==> |r.value| == |items|
    ensures r.Success? ==> forall k :: 0 <= k < |items| ==> r.value[k] == f(items[k]).value
    ensures r.Failure? ==> exists k :: 0 <= k < |items| && f(items[k]) == Failure(r.error)
    decreases |items|
  {
    if items == [] then Success([])
    else
      var front := items[..|items| - 1];
      var last := items[|items| - 1];
      assert forall k :: 0 <= k < |front| ==> front[k] == items[k];
      match MapResults(front, f)
      case Failure(e) => Failure(e)
      case Success(done) =>
        match f(last)
        case Failure(e) => Failure(e)
        case Success(x) => Success(done + [x])
  }

  /** The error `MapResults` reports is that of the first item that fails. */
  lemma {:induction false} MapResultsFirstError<E>(items: seq<string>, f: string -> Result<string, E>, k: nat)
    requires k < |items| && f(items[k]).Failure?
    requires forall m :: 0 <= m < k ==> f(items[m]).Success?
    ensures MapResults(items, f) == Failure(f(items[k]).error)
    decreases |items|
  {
    var front := items[..|items| - 1];
    if k < |items| - 1 {
      assert front[k] == items[k];
      assert forall m :: 0 <= m < k ==> front[m] == items[m];
      MapResultsFirstError(front, f, k);
    } else {
      assert forall m :: 0 <= m < |front| ==> front[m] == items[m];
    }
  }

  function SentenceBlock(parseFloat: string -> Option<real>): string -> Result<string, ArticleError>
  {
    sentence => PieceDiv(sentence, parseFloat)
  }

  function Title(row: NewsRow): string { "<h1>" + row.title + "</h1>" }
  function Published(row: NewsRow): string { "<p>Published: " + row.published + "</p>" }
  function Author(row: NewsRow): string { "<p>Written by: " + row.author + "</p>" }
  function Banner(layout: Layout, source: string): string
    requires source in layout.banners
  {
    "<img src='" + layout.banners[source] + "' style='height:100px;'>"
  }
  function MeanScore(row: NewsRow, formatReal: real -> string): string
    requires row.meanPred.Some?
  {
    "<b style='background-color:" + DecimalToRgb(row.meanPred.value) + ";padding:0px;'>" + formatReal(row.meanPred.value) + "</b>"
  }

  /** The TF-IDF cells the page shows: `article_data[11:15]`. */
  function ShownCells(row: NewsRow): seq<Option<string>>
  {
    row.topWords[..if |row.topWords| < 4 then |row.topWords| else 4]
  }

  /** The words of the cells, or None when one of them is NULL. */
  function PresentWords(cells: seq<Option<string>>): (r: Option<seq<string>>)
    ensures r.Some? <==> forall k :: 0 <= k < |cells| ==> cells[k].Some?
    ensures r.Some? ==> |r.value| == |cells| && forall k :: 0 <= k < |cells| ==> r.value[k] == cells[k].value
  {
    if cells == [] then Some([])
    else if cells[0].None? then None
    else match PresentWords(cells[1..])
      case None => None
      case Some(rest) => Some([cells[0].value] + rest)
  }

  /** The cells the page prints are all present, so none of the f-strings or the join raises. */
  predicate Printable(row: NewsRow) {
    row.meanPred.Some? && PresentWords(ShownCells(row)).Some?
  }

  function TopWords(row: NewsRow): string
    requires PresentWords(ShownCells(row)).Some?
  {
    "<p>TF-IDF: <b>" + Join(PresentWords(ShownCells(row)).value, ", ") + "</b></p>"
  }
  function PrevLink(row: NewsRow): string
  {
    "<a href=/article/" + IntToString(row.articleNumber - 1) + ">Prev Article</a>"
  }
  function NextLink(row: NewsRow): string
  {
    "<a href=/article/" + IntToString(row.articleNumber + 1) + ">Next Article</a>"
  }
  /** Links to the neighbouring article numbers. */
  function Navigation(row: NewsRow): string
  {
    PrevLink(row) + " | " + NextLink(row)
  }

  /** The article element and the end of the page. */
  function Body(blocks: seq<string>): string
  {
    "<article>\n" + Concat(blocks) + "\n" + "</article>\n" + "</html>"
  }

  /** Everything before the navigation links. */
  function Masthead(row: NewsRow, formatReal: real -> string, layout: Layout): string
    requires row.source in layout.banners && Printable(row)
  {
    "<!DOCTYPE html>\n" + "<html>\n" + Banner(layout, row.source) + "\n" + Title(row) + "\n"
      + "<p>Source: " + row.source + "</p>\n" + Published(row) + "\n" + Author(row) + "\n"
      + TopWords(row) + "\n" + "Sentiment overall [0-4]: <br>" + MeanScore(row, formatReal) + "<br><br>\n"
  }

  /** Everything before the article body. */
  function Header(row: NewsRow, formatReal: real -> string, layout: Layout): string
    requires row.source in layout.banners && Printable(row)
  {
    Masthead(row, formatReal, layout) + Navigation(row) + layout.style
  }

  /** The sentences of the text: `re.split(r"\. ", text)`. */
  function ArticleSentences(row: NewsRow): seq<string>
  {
    SplitAtMarks(row.textWithPreds, {'.'})
  }

  /** What `create_news_article` returns for a row, or the error it raises. */
  function Article(row: NewsRow, parseFloat: string -> Option<real>, formatReal: real -> string, layout: Layout)
    : Result<string, ArticleError>
  {
    match MapResults(ArticleSentences(row), SentenceBlock(parseFloat))
    case Failure(e) => Failure(e)
    case Success(html) =>
      if row.meanPred.None? then Failure(NoMeanScore)
      else if row.source !in layout.banners then Failure(UnknownSource(row.source))
      else if PresentWords(ShownCells(row)).None? then Failure(NullTopWord)
      else Success(Header(row, formatReal, layout) + "<article>\n" + Concat(html) + "\n" + "</article>\n" + "</html>")
  }

  /** The loop of `create_news_article` that turns each sentence into a coloured block. */
  method HtmlSentences(sentences: seq<string>, parseFloat: string -> Option<real>)
    returns (r: Result<seq<string>, ArticleError>)
    ensures r == MapResults(sentences, SentenceBlock(parseFloat))
  {
    var htmlSentences: seq<string> := [];
    for i := 0 to |sentences|
      invariant MapResults(sentences[..i], SentenceBlock(parseFloat)) == Success(htmlSentences)
    {
      var sentence := sentences[i];
      var group := MarkerGroup(sentence);
      if group.None? {
        r := Failure(NoScore(sentence));
        MapResultsStops(sentences, i, SentenceBlock(parseFloat));
        return;
      }
      var pred := parseFloat(group.value);
      if pred.None? {
        r := Failure(NotANumber(group.value));
        MapResultsStops(sentences, i, SentenceBlock(parseFloat));
        return;
      }
      var htmlText := SentenceDiv(sentence, pred.value);
      MapResultsSnoc(sentences, i, SentenceBlock(parseFloat));
      htmlSentences := htmlSentences + [htmlText];
    }
    assert sentences[..|sentences|] == sentences;
    r := Success(htmlSentences);
  }

  /** One more item that succeeds adds its value at the end. */
  lemma MapResultsSnoc<E>(items: seq<string>, i: nat, f: string -> Result<string, E>)
    requires i < |items| && MapResults(items[..i], f).Success? && f(items[i]).Success?
    ensures MapResults(items[..i + 1], f) == Success(MapResults(items[..i], f).value + [f(items[i]).value])
  {
    assert items[..i + 1][..i] == items[..i];
  }

  /** The first item that fails decides the outcome of the whole list. */
  lemma MapResultsStops<E>(items: seq<string>, i: nat, f: string -> Result<string, E>)
    requires i < |items| && MapResults(items[..i], f).Success? && f(items[i]).Failure?
    ensures MapResults(items, f) == Failure(f(items[i]).error)
  {
    assert items[..i + 1][..i] == items[..i];
    FailureStays(items, i + 1, f);
  }

  /** `create_news_article(id, conn)` once the row is fetched. */
  method CreateNewsArticle(row: NewsRow, parseFloat: string -> Option<real>, formatReal: real -> string,
                           layout: Layout := SiteLayout)
    returns (r: Result<string, ArticleError>)
    ensures r == Article(row, parseFloat, formatReal, layout)
  {
    var blocks := HtmlSentences(ArticleSentences(row), parseFloat);
    if blocks.Failure? {
      r := Failure(blocks.error);
      return;
    }
    var htmlSentences := blocks.value;
    var title := Title(row);
    var date := Published(row);
    var author := Author(row);
    if row.meanPred.None? {
      r := Failure(NoMeanScore);
      return;
    }
    var meanPred := MeanScore(row, formatReal);
    var source := row.source;
    if source !in layout.banners {
      r := Failure(UnknownSource(source));
      return;
    }
    var banner := Banner(layout, source);
    if PresentWords(ShownCells(row)).None? {
      r := Failure(NullTopWord);
      return;
    }
    var tfidf := TopWords(row);
    var document := "<!DOCTYPE html>\n";
    document := document + "<html>\n";
    document := document + banner + "\n";
    document := document + title + "\n";
    document := document + "<p>Source: " + source + "</p>\n";
    document := document + date + "\n";
    document := document + author + "\n";
    document := document + tfidf + "\n";
    document := document + "Sentiment overall [0-4]: <br>" + meanPred + "<br><br>\n";
    assert document == Masthead(row, formatReal, layout);
    document := document + Navigation(row);
    document := document + layout.style;
    assert document == Header(row, formatReal, layout);
    document := document + "<article>\n";
    document := document + Concat(htmlSentences) + "\n";
    document := document + "</article>\n";
    document := document + "</html>";
    r := Success(document);
  }

  /** Once a prefix of the items fails, the whole list fails with the same error. */
  lemma {:induction false} FailureStays<E>(items: seq<string>, k: nat, f: string -> Result<string, E>)
    requires k <= |items|
    requires MapResults(items[..k], f).Failure?
    ensures MapResults(items, f) == MapResults(items[..k], f)
    decreases |items| - k
  {
    if k < |items| {
      var longer := items[..k + 1];
      assert longer[..|longer| - 1] == items[..k];
      FailureStays(items, k + 1, f);
    } else {
      assert items[..k] == items;
    }
  }

  /** The sentence blocks of a row, when every sentence has a score. */
  function Blocks(row: NewsRow, parseFloat: string -> Option<real>): Result<seq<string>, ArticleError>
  {
    MapResults(ArticleSentences(row), SentenceBlock(parseFloat))
  }

  /** `part` occurs in `s` starting at `i`. */
  predicate OccursAt(s: string, part: string, i: int) {
    0 <= i <= |s| - |part| && s[i..i + |part|] == part
  }

  ghost predicate Contains(s: string, part: string) {
    exists i :: OccursAt(s, part, i)
  }

  /**
   * A page is made only when every sentence has a block, the mean score and
   * the shown TF-IDF cells are present, and the source has a banner.
   */
  lemma ArticleSucceeds(row: NewsRow, parseFloat: string -> Option<real>, formatReal: real -> string, layout: Layout)
    requires Article(row, parseFloat, formatReal, layout).Success?
    ensures Blocks(row, parseFloat).Success? && row.source in layout.banners && Printable(row)
  {
  }

  /** A page is its header followed by its body. */
  lemma ArticleParts(row: NewsRow, parseFloat: string -> Option<real>, formatReal: real -> string, layout: Layout)
    requires Article(row, parseFloat, formatReal, layout).Success?
    ensures Blocks(row, parseFloat).Success? && row.source in layout.banners && Printable(row)
    ensures Article(row, parseFloat, formatReal, layout).value
         == Header(row, formatReal, layout) + Body(Blocks(row, parseFloat).value)
  {
    ArticleSucceeds(row, parseFloat, formatReal, layout);
    var html := Blocks(row, parseFloat).value;
    var header := Header(row, formatReal, layout);
    assert Article(row, parseFloat, formatReal, layout).value
        == header + "<article>\n" + Concat(html) + "\n" + "</article>\n" + "</html>";
    Regroup(header, "<article>\n", Concat(html), "\n", "</article>\n", "</html>");
  }

  lemma Regroup(h: string, a: string, c: string, n: string, e: string, t: string)
    ensures h + a + c + n + e + t == h + (a + c + n + e + t)
  {
  }

  /** The masthead, with its pieces left abstract, opens with the doctype. */
  lemma MastheadOpens(banner: string, title: string, source: string, published: string, author: string,
                      topWords: string, meanScore: string)
    ensures StartsWith("<!DOCTYPE html>\n" + "<html>\n" + banner + "\n" + title + "\n"
      + "<p>Source: " + source + "</p>\n" + published + "\n" + author + "\n"
      + topWords + "\n" + "Sentiment overall [0-4]: <br>" + meanScore + "<br><br>\n", "<!DOCTYPE html>\n")
  {
  }

  /** A prefix of the front is a prefix of the whole. */
  lemma StartsWithAppend(a: string, b: string, head: string)
    requires StartsWith(a, head)
    ensures StartsWith(a + b, head)
  {
    assert (a + b)[..|head|] == a[..|head|];
  }

  lemma EndsWithAppend(a: string, b: string)
    ensures EndsWith(a + b, b)
  {
    assert (a + b)[|a + b| - |b|..] == b;
  }

  /** Where the two links lie in a page, with the pieces left abstract. */
  lemma PrevLinkAt(top: string, prev: string, next: string, style: string, body: string)
    ensures OccursAt(top + (prev + " | " + next) + style + body, prev, |top|)
  {
    var doc := top + (prev + " | " + next) + style + body;
    assert doc[|top|..|top| + |prev|] == prev;
  }

  lemma NextLinkAt(top: string, prev: string, next: string, style: string, body: string)
    ensures OccursAt(top + (prev + " | " + next) + style + body, next, |top| + |prev| + 3)
  {
    var doc := top + (prev + " | " + next) + style + body;
    assert doc[|top| + |prev| + 3..|top| + |prev| + 3 + |next|] == next;
  }

  /** A page opens with the HTML doctype. */
  lemma ArticleOpens(row: NewsRow, parseFloat: string -> Option<real>, formatReal: real -> string, layout: Layout)
    requires Article(row, parseFloat, formatReal, layout).Success?
    ensures StartsWith(Article(row, parseFloat, formatReal, layout).value, "<!DOCTYPE html>\n")
  {
    ArticleParts(row, parseFloat, formatReal, layout);
    MastheadOpens(Banner(layout, row.source), Title(row), row.source, Published(row), Author(row), TopWords(row),
                  MeanScore(row, formatReal));
    StartsWithAppend(Masthead(row, formatReal, layout), Navigation(row), "<!DOCTYPE html>\n");
    StartsWithAppend(Masthead(row, formatReal, layout) + Navigation(row), layout.style, "<!DOCTYPE html>\n");
    StartsWithAppend(Header(row, formatReal, layout), Body(Blocks(row, parseFloat).value), "<!DOCTYPE html>\n");
  }

  /** A page ends with its article element, holding the sentence blocks in order. */
  lemma ArticleEndsWithBody(row: NewsRow, parseFloat: string -> Option<real>, formatReal: real -> string, layout: Layout)
    requires Article(row, parseFloat, formatReal, layout).Success?
    ensures EndsWith(Article(row, parseFloat, formatReal, layout).value, Body(Blocks(row, parseFloat).value))
  {
    ArticleParts(row, parseFloat, formatReal, layout);
    EndsWithAppend(Header(row, formatReal, layout), Body(Blocks(row, parseFloat).value));
  }

  /** A page closes the html element. */
  lemma ArticleCloses(row: NewsRow, parseFloat: string -> Option<real>, formatReal: real -> string, layout: Layout)
    requires Article(row, parseFloat, formatReal, layout).Success?
    ensures EndsWith(Article(row, parseFloat, formatReal, layout).value, "</html>")
  {
    var body := Body(Blocks(row, parseFloat).value);
    ArticleEndsWithBody(row, parseFloat, formatReal, layout);
    BodyCloses(Concat(Blocks(row, parseFloat).value));
    EndsWithTrans(Article(row, parseFloat, formatReal, layout).value, body, "</html>");
  }

  lemma BodyCloses(blocks: string)
    ensures EndsWith("<article>\n" + blocks + "\n" + "</article>\n" + "</html>", "</html>")
  {
    var body := "<article>\n" + blocks + "\n" + "</article>\n" + "</html>";
    assert body[|body| - 7..] == "</html>";
  }

  lemma EndsWithTrans(a: string, b: string, c: string)
    requires EndsWith(a, b) && EndsWith(b, c)
    ensures EndsWith(a, c)
  {
    assert a[|a| - |c|..] == b[|b| - |c|..];
  }

  /** A page links to the previous article number. */
  lemma ArticleLinksPrev(row: NewsRow, parseFloat: string -> Option<real>, formatReal: real -> string, layout: Layout)
    requires Article(row, parseFloat, formatReal, layout).Success?
    ensures Contains(Article(row, parseFloat, formatReal, layout).value, PrevLink(row))
  {
    ArticleParts(row, parseFloat, formatReal, layout);
    PrevLinkAt(Masthead(row, formatReal, layout), PrevLink(row), NextLink(row), layout.style,
               Body(Blocks(row, parseFloat).value));
  }

  /** A page links to the next article number. */
  lemma ArticleLinksNext(row: NewsRow, parseFloat: string -> Option<real>, formatReal: real -> string, layout: Layout)
    requires Article(row, parseFloat, formatReal, layout).Success?
    ensures Contains(Article(row, parseFloat, formatReal, layout).value, NextLink(row))
  {
    ArticleParts(row, parseFloat, formatReal, layout);
    NextLinkAt(Masthead(row, formatReal, layout), PrevLink(row), NextLink(row), layout.style,
               Body(Blocks(row, parseFloat).value));
  }

  /** One block per sentence: one more than the ". " separators of the text. */
  lemma ArticleBlockCount(row: NewsRow, parseFloat: string -> Option<real>)
    requires Blocks(row, parseFloat).Success?
    ensures |Blocks(row, parseFloat).value| == SeparatorCount(row.textWithPreds, {'.'}) + 1
    ensures forall k :: 0 <= k < |ArticleSentences(row)| ==>
      Blocks(row, parseFloat).value[k]
        == SentenceDiv(ArticleSentences(row)[k], parseFloat(MarkerGroup(ArticleSentences(row)[k]).value).value)
  {
    SplitPieceCount(row.textWithPreds, {'.'});
    var sentences := ArticleSentences(row);
    forall k | 0 <= k < |sentences|
      ensures Blocks(row, parseFloat).value[k] == SentenceDiv(sentences[k], parseFloat(MarkerGroup(sentences[k]).value).value)
    {
      assert SentenceBlock(parseFloat)(sentences[k]).Success?;
      PieceDivOutcome(sentences[k], parseFloat);
    }
  }

  /** The blocks fail exactly when some sentence fails. */
  lemma BlocksFailure(row: NewsRow, parseFloat: string -> Option<real>)
    ensures Blocks(row, parseFloat).Failure? <==>
      exists k :: 0 <= k < |ArticleSentences(row)| && PieceDiv(ArticleSentences(row)[k], parseFloat).Failure?
  {
    var sentences := ArticleSentences(row);
    var f := SentenceBlock(parseFloat);
    forall k | 0 <= k < |sentences| ensures f(sentences[k]) == PieceDiv(sentences[k], parseFloat) {
    }
  }

  /**
   * The page fails exactly when a sentence has no usable score, the mean score
   * is NULL, the source has no banner or a shown TF-IDF cell is NULL; after
   * the sentences, the errors come in the order the page is built: the mean
   * score, then the banner, then the TF-IDF line.
   */
  lemma ArticleFailure(row: NewsRow, parseFloat: string -> Option<real>, formatReal: real -> string, layout: Layout)
    ensures Article(row, parseFloat, formatReal, layout).Failure? <==>
      (exists k :: 0 <= k < |ArticleSentences(row)| && PieceDiv(ArticleSentences(row)[k], parseFloat).Failure?)
      || !Printable(row) || row.source !in layout.banners
    ensures Article(row, parseFloat, formatReal, layout) == Failure(NoMeanScore) <==>
      Blocks(row, parseFloat).Success? && row.meanPred.None?
    ensures Article(row, parseFloat, formatReal, layout) == Failure(UnknownSource(row.source)) <==>
      Blocks(row, parseFloat).Success? && row.meanPred.Some? && row.source !in layout.banners
    ensures Article(row, parseFloat, formatReal, layout) == Failure(NullTopWord) <==>
      Blocks(row, parseFloat).Success? && row.meanPred.Some? && row.source in layout.banners
      && exists k :: 0 <= k < |ShownCells(row)| && ShownCells(row)[k].None?
  {
    BlocksFailure(row, parseFloat);
    if Blocks(row, parseFloat).Failure? {
      var sentences := ArticleSentences(row);
      var k :| 0 <= k < |sentences| && SentenceBlock(parseFloat)(sentences[k]) == Failure(Blocks(row, parseFloat).error);
      assert PieceDiv(sentences[k], parseFloat) == Failure(Blocks(row, parseFloat).error);
    }
  }

  /**
   * A row whose TF-IDF cells are the `hottest_word_1` to `hottest_word_5`
   * padding of a document with fewer than four top words holds a NULL among
   * the shown cells, so once the sentences, the mean score and the banner
   * pass, the page fails on the join.
   */
  lemma FewTopWordsFail(row: NewsRow, parseFloat: string -> Option<real>, formatReal: real -> string, layout: Layout,
                        tops: seq<seq<string>>, d: nat)
    requires d < |tops| && |tops[d]| < 4
    requires |row.topWords| == 5 && forall k :: 0 <= k < 5 ==> row.topWords[k] == TfidfTopWords.Pad(tops, k)[d]
    requires Blocks(row, parseFloat).Success? && row.meanPred.Some? && row.source in layout.banners
    ensures Article(row, parseFloat, formatReal, layout) == Failure(NullTopWord)
  {
    var k := |tops[d]|;
    assert ShownCells(row)[k] == TfidfTopWords.Pad(tops, k)[d];
    ArticleFailure(row, parseFloat, formatReal, layout);
  }

  /** The site knows exactly four sources; "reuters", for one, has no banner. */
  lemma KnownSources()
    ensures Banners.Keys == {"fox-news", "abc-news", "cnn", "al-jazeera-english"}
    ensures "reuters" !in Banners
  {
  }

  /** A failing sentence is reported before any later one and before any NULL cell or unknown source. */
  lemma ArticleFirstError(row: NewsRow, parseFloat: string -> Option<real>, formatReal: real -> string, layout: Layout, k: nat)
    requires k < |ArticleSentences(row)| && PieceDiv(ArticleSentences(row)[k], parseFloat).Failure?
    requires forall m :: 0 <= m < k ==> PieceDiv(ArticleSentences(row)[m], parseFloat).Success?
    ensures Article(row, parseFloat, formatReal, layout) == Failure(PieceDiv(ArticleSentences(row)[k], parseFloat).error)
  {
    var sentences := ArticleSentences(row);
    var f := SentenceBlock(parseFloat);
    assert forall m :: 0 <= m <= k ==> f(sentences[m]) == PieceDiv(sentences[m], parseFloat);
    MapResultsFirstError(sentences, f, k);
  }
}

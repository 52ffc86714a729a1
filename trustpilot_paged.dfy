/**
 * The class client of src/etl/trustpilot/TrustPilotApi.py: `reviews` walks a
 * range of pages, `_fetch_reviews` requests one page and raises on a failed
 * response, `_clean_reviews` turns a page into records. Every exception
 * escapes to the caller. The cached HTTP session is the function `get`.
 */
module TrustPilotPagedApi {
  import opened Wrappers
  import opened Strings
  import opened TrustPilotRecords

  /** `f"{sort}"`: an absent sort prints as "None". */
  function SortText(sort: Option<string>): (r: string)
    ensures sort.Some? ==> r == sort.value
    ensures sort.None? ==> r == "None"
  {
    match sort
    case None => "None"
    case Some(s) => s
  }

  /** The date text that is sent: "" when the date is absent or falsy. */
  function DateText(date: Option<string>): (r: string)
    ensures r != "" <==> date.Some? && date.value != ""
    ensures r != "" ==> r == date.value
  {
    match date
    case None => ""
    case Some(d) => d
  }

  /** The stars text that is sent: "" when the stars are absent or 0, else `str(stars)`. */
  function StarsText(stars: Option<int>): (r: string)
    ensures r != "" <==> stars.Some? && stars.value != 0
    ensures r != "" ==> r == IntToString(stars.value)
  {
    match stars
    case None => ""
    case Some(k) => if k == 0 then "" else IntToString(k)
  }

  /** An element of the list `reviews` returns: a cleaned record, or a whole raw page. */
  datatype Item = Cleaned(record: Record) | RawPage(raw: Value)

  function AsItems(records: seq<Record>): (items: seq<Item>)
    ensures |items| == |records|
    ensures forall i :: 0 <= i < |items| ==> items[i] == Cleaned(records[i])
  {
    seq(|records|, i requires 0 <= i < |records| => Cleaned(records[i]))
  }

  /** What one iteration of the page loop adds to the list, or the exception it raises. */
  function PageItems(get: string -> Response, url: string, clean: bool): Result<seq<Item>, PyError>
  {
    match FetchOutcome(get(url))
    case Failure(e) => Failure(e)
    case Success(raw) =>
      if clean then
        match CleanPage(raw)
        case Failure(e) => Failure(e)
        case Success(records) => Success(AsItems(records))
      else Success([RawPage(raw)])
  }

  /** The list `reviews` builds over the pages at `urls`, or the first exception. */
  function Gathered(get: string -> Response, urls: seq<string>, clean: bool): (r: Result<seq<Item>, PyError>)
    ensures urls == [] ==> r == Success([])
    decreases |urls|
  {
    if urls == [] then Success([])
    else
      var n := |urls| - 1;
      match Gathered(get, urls[..n], clean)
      case Failure(e) => Failure(e)
      case Success(prev) =>
        match PageItems(get, urls[n], clean)
        case Failure(e) => Failure(e)
        case Success(items) => Success(prev + items)
  }

  /** The run succeeds exactly when every page's iteration does. */
  lemma {:induction false} GatheredSucceeds(get: string -> Response, urls: seq<string>, clean: bool)
    ensures Gathered(get, urls, clean).Success? <==> forall i :: 0 <= i < |urls| ==> PageItems(get, urls[i], clean).Success?
    decreases |urls|
  {
    if urls != [] {
      var n := |urls| - 1;
      assert forall i :: 0 <= i < n ==> urls[..n][i] == urls[i];
      GatheredSucceeds(get, urls[..n], clean);
    }
  }

  /** Page `i` is the first whose iteration raises. */
  predicate FirstFailingPage(get: string -> Response, urls: seq<string>, clean: bool, i: int)
    requires 0 <= i < |urls|
  {
    PageItems(get, urls[i], clean).Failure?
    && forall j :: 0 <= j < i ==> PageItems(get, urls[j], clean).Success?
  }

  /** When the run over the first `i` pages succeeded, every one of those pages did. */
  lemma PagesBeforeSucceed(get: string -> Response, urls: seq<string>, clean: bool, i: int)
    requires 0 <= i <= |urls| && Gathered(get, urls[..i], clean).Success?
    ensures forall j :: 0 <= j < i ==> PageItems(get, urls[j], clean).Success?
  {
    GatheredSucceeds(get, urls[..i], clean);
    assert forall j :: 0 <= j < i ==> urls[..i][j] == urls[j];
  }

  /** The first page that raises decides the exception of the whole run. */
  lemma {:induction false} GatheredStops(get: string -> Response, urls: seq<string>, clean: bool, i: int)
    requires 0 <= i < |urls| && FirstFailingPage(get, urls, clean, i)
    ensures Gathered(get, urls, clean) == Failure(PageItems(get, urls[i], clean).error)
    decreases |urls|
  {
    var n := |urls| - 1;
    assert forall j :: 0 <= j < n ==> urls[..n][j] == urls[j];
    if i == n {
      GatheredSucceeds(get, urls[..n], clean);
    } else {
      GatheredStops(get, urls[..n], clean, i);
    }
  }

  /** One more page extends a successful run by that page's items. */
  lemma GatheredSnoc(get: string -> Response, urls: seq<string>, url: string, clean: bool)
    requires Gathered(get, urls, clean).Success? && PageItems(get, url, clean).Success?
    ensures Gathered(get, urls + [url], clean)
      == Success(Gathered(get, urls, clean).value + PageItems(get, url, clean).value)
  {
    assert (urls + [url])[..|urls|] == urls;
  }

  lemma AppendAssoc(a: seq<Item>, b: seq<Item>, c: seq<Item>)
    ensures (a + b) + c == a + (b + c)
  {
  }

  /** A successful run is the run without its last page followed by that page's items. */
  lemma GatheredLast(get: string -> Response, v: seq<string>, clean: bool)
    requires v != [] && Gathered(get, v, clean).Success?
    ensures Gathered(get, v[..|v| - 1], clean).Success? && PageItems(get, v[|v| - 1], clean).Success?
    ensures Gathered(get, v, clean).value
      == Gathered(get, v[..|v| - 1], clean).value + PageItems(get, v[|v| - 1], clean).value
  {
  }

  /** The run over `u + v` is the run over `u` followed by the run over `v`: pages are added in order. */
  lemma {:induction false} GatheredAppend(get: string -> Response, u: seq<string>, v: seq<string>, clean: bool)
    requires Gathered(get, u, clean).Success? && Gathered(get, v, clean).Success?
    ensures Gathered(get, u + v, clean) == Success(Gathered(get, u, clean).value + Gathered(get, v, clean).value)
    decreases |v|
  {
    if v == [] {
      assert u + v == u;
      assert Gathered(get, u, clean).value + [] == Gathered(get, u, clean).value;
    } else {
      var n := |v| - 1;
      GatheredLast(get, v, clean);
      GatheredAppend(get, u, v[..n], clean);
      assert u + v == (u + v[..n]) + [v[n]];
      GatheredSnoc(get, u + v[..n], v[n], clean);
      AppendAssoc(Gathered(get, u, clean).value, Gathered(get, v[..n], clean).value,
                  PageItems(get, v[n], clean).value);
    }
  }

  /** Without cleaning, the run returns one raw response per page, in page order. */
  lemma {:induction false} GatheredRaw(get: string -> Response, urls: seq<string>)
    requires Gathered(get, urls, false).Success?
    ensures |Gathered(get, urls, false).value| == |urls|
    ensures forall i :: 0 <= i < |urls| ==> Gathered(get, urls, false).value[i] == RawPage(get(urls[i]).body)
    decreases |urls|
  {
    if urls != [] {
      var n := |urls| - 1;
      assert forall i :: 0 <= i < n ==> urls[..n][i] == urls[i];
      GatheredRaw(get, urls[..n]);
    }
  }

  /** With cleaning, every element is a cleaned record. */
  lemma {:induction false} GatheredClean(get: string -> Response, urls: seq<string>)
    requires Gathered(get, urls, true).Success?
    ensures forall i :: 0 <= i < |Gathered(get, urls, true).value| ==> Gathered(get, urls, true).value[i].Cleaned?
    decreases |urls|
  {
    if urls != [] {
      var n := |urls| - 1;
      assert forall i :: 0 <= i < n ==> urls[..n][i] == urls[i];
      GatheredClean(get, urls[..n]);
    }
  }

  class TrustPilotApi {
    const baseUrl: string

    constructor()
      ensures baseUrl == BaseUrl
    {
      baseUrl := BaseUrl;
    }

    /** Reviews over pages `startPage`, ..., `startPage + numPages - 1`. */
    method Reviews(site: string, numPages: int, startPage: int, cleanReviews: bool,
                   sort: Option<string>, date: Option<string>, stars: Option<int>,
                   get: string -> Response)
      returns (r: Result<seq<Item>, PyError>)
      ensures r == Gathered(get, PageUrls(baseUrl, site, startPage, numPages,
                                          SortText(sort), DateText(date), StarsText(stars)), cleanReviews)
    {
      ghost var urls := PageUrls(baseUrl, site, startPage, numPages, SortText(sort), DateText(date), StarsText(stars));
      var reviews: seq<Item> := [];
      var page := startPage;
      while page < startPage + numPages
        invariant startPage <= page && page - startPage <= |urls|
        invariant Gathered(get, urls[..page - startPage], cleanReviews) == Success(reviews)
      {
        ghost var i := page - startPage;
        assert urls[..i + 1] == urls[..i] + [urls[i]];
        var items := PageReviews(site, page, cleanReviews, sort, date, stars, get);
        if items.Failure? {
          PagesBeforeSucceed(get, urls, cleanReviews, i);
          GatheredStops(get, urls, cleanReviews, i);
          return Failure(items.error);
        }
        GatheredSnoc(get, urls[..i], urls[i], cleanReviews);
        reviews := reviews + items.value;
        page := page + 1;
      }
      assert urls[..page - startPage] == urls;
      r := Success(reviews);
    }

    /** The body of the page loop: one page fetched and, with `cleanReviews`, cleaned. */
    method PageReviews(site: string, page: int, cleanReviews: bool,
                       sort: Option<string>, date: Option<string>, stars: Option<int>,
                       get: string -> Response)
      returns (r: Result<seq<Item>, PyError>)
      ensures r == PageItems(get, TargetUrl(baseUrl, site, SortText(sort), page, DateText(date), StarsText(stars)), cleanReviews)
    {
      var raw := FetchReviews(site, page, sort, date, stars, get);
      if raw.Failure? {
        return Failure(raw.error);
      }
      if cleanReviews {
        var cleaned := CleanReviews(raw.value);
        if cleaned.Failure? {
          return Failure(cleaned.error);
        }
        r := Success(AsItems(cleaned.value));
      } else {
        r := Success([RawPage(raw.value)]);
      }
    }

    /** One page of raw reviews; a failed response raises `HTTPError`. */
    method FetchReviews(site: string, page: int, sort: Option<string>, date: Option<string>,
                        stars: Option<int>, get: string -> Response)
      returns (r: Result<Value, PyError>)
      ensures r == FetchOutcome(get(TargetUrl(baseUrl, site, SortText(sort), page, DateText(date), StarsText(stars))))
    {
      ghost var prefix := baseUrl + site + ".json?";
      ghost var params := ["sort=" + SortText(sort)];
      var targetUrl := baseUrl + site + ".json?sort=" + SortText(sort);
      FirstParam(baseUrl, site, SortText(sort));
      ghost var steps := params;
      if page > 1 {
        AppendParam(prefix, targetUrl, params, "&page=", "page=", IntToString(page));
        targetUrl := targetUrl + "&page=" + IntToString(page);
        params := params + ["page=" + IntToString(page)];
      }
      steps := WithParam(steps, page > 1, "page=" + IntToString(page));
      assert params == steps;
      if date.Some? && date.value != "" {
        AppendParam(prefix, targetUrl, params, "&date=", "date=", date.value);
        targetUrl := targetUrl + "&date=" + date.value;
        params := params + ["date=" + date.value];
      }
      steps := WithParam(steps, DateText(date) != "", "date=" + DateText(date));
      assert params == steps;
      if stars.Some? && stars.value != 0 {
        AppendParam(prefix, targetUrl, params, "&stars=", "stars=", IntToString(stars.value));
        targetUrl := targetUrl + "&stars=" + IntToString(stars.value);
        params := params + ["stars=" + IntToString(stars.value)];
      }
      steps := WithParam(steps, StarsText(stars) != "", "stars=" + StarsText(stars));
      assert params == steps == QueryParams(SortText(sort), page, DateText(date), StarsText(stars));
      assert targetUrl == TargetUrl(baseUrl, site, SortText(sort), page, DateText(date), StarsText(stars));
      var resp := get(targetUrl);
      if !resp.ok {
        r := Failure(HttpError(resp.status));
      } else {
        r := Success(resp.body);
      }
    }

    /** The records of one raw page; the first malformed review raises. */
    method CleanReviews(rawReviews: Value) returns (r: Result<seq<Record>, PyError>)
      ensures r == CleanPage(rawReviews)
    {
      var reviews := ReviewsOf(rawReviews);
      if reviews.Failure? {
        return Failure(reviews.error);
      }
      var rs := reviews.value;
      var extracted: seq<Record> := [];
      var i := 0;
      while i < |rs|
        invariant 0 <= i <= |rs| && |extracted| == i
        invariant forall j :: 0 <= j < i ==> WellFormed(rs[j]) && extracted[j] == CleanReview(rs[j]).value
      {
        var review := CleanReview(rs[i]);
        if review.Failure? {
          CleanAllStops(rs, i);
          return Failure(review.error);
        }
        extracted := extracted + [review.value];
        i := i + 1;
      }
      assert extracted == CleanAll(rs).value;
      r := Success(extracted);
    }
  }
}

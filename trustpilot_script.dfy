/**
 * The script client of src/etl/trustpilot/trustpilot.py: `get_review_data`
 * requests one page and answers None (after a warning) when the response
 * failed; `extract_reviews_data` cleans a page and, on any exception, keeps
 * what it cleaned before; `get_reviews` concatenates the pages. Nothing
 * escapes to the caller but the request itself. The HTTP call is the
 * function `get`; the printed warning and exception are left out.
 */
module TrustPilotScript {
  import opened Wrappers
  import opened Strings
  import opened TrustPilotRecords
  import TrustPilotPagedApi

  /** What `get_review_data` returns for a response: its JSON, or None (`Null`) when it failed. */
  function ReviewData(resp: Response): (r: Value)
    ensures resp.ok ==> r == resp.body
    ensures !resp.ok ==> r == Null
  {
    if resp.ok then resp.body else Null
  }

  /** The list `get_reviews` builds over the pages at `urls`. */
  function Collected(get: string -> Response, urls: seq<string>): seq<Record>
    decreases |urls|
  {
    if urls == [] then []
    else
      var n := |urls| - 1;
      Collected(get, urls[..n]) + ExtractPage(ReviewData(get(urls[n])))
  }

  /** A page whose response failed adds nothing. */
  lemma CollectedSkipsFailedPage(get: string -> Response, urls: seq<string>, url: string)
    requires !get(url).ok
    ensures Collected(get, urls + [url]) == Collected(get, urls)
  {
    assert (urls + [url])[..|urls|] == urls;
    assert ExtractPage(Null) == [];
  }

  /** A page contributes at most one record per raw review, and exactly one each when all are well formed. */
  lemma ExtractPageBound(raw: Value)
    requires ReviewsOf(raw).Success?
    ensures |ExtractPage(raw)| <= |ReviewsOf(raw).value|
    ensures |ExtractPage(raw)| == |ReviewsOf(raw).value|
      <==> forall i :: 0 <= i < |ReviewsOf(raw).value| ==> WellFormed(ReviewsOf(raw).value[i])
  {
    var rs := ReviewsOf(raw).value;
    var e := Extracted(rs);
    if |e| < |rs| {
      assert !WellFormed(rs[|e|]);
    }
  }

  /**
   * Wherever the multi-page client succeeds with cleaning, this script
   * returns the same records in the same order.
   */
  lemma {:induction false} CollectedAgreesWithPaged(get: string -> Response, urls: seq<string>)
    requires TrustPilotPagedApi.Gathered(get, urls, true).Success?
    ensures TrustPilotPagedApi.AsItems(Collected(get, urls)) == TrustPilotPagedApi.Gathered(get, urls, true).value
    decreases |urls|
  {
    if urls == [] {
    } else {
      var n := |urls| - 1;
      TrustPilotPagedApi.GatheredLast(get, urls, true);
      CollectedAgreesWithPaged(get, urls[..n]);
      var raw := get(urls[n]).body;
      assert get(urls[n]).ok && CleanPage(raw).Success?;
      ExtractPageAgrees(raw);
      AsItemsAppend(Collected(get, urls[..n]), ExtractPage(raw));
    }
  }

  lemma AsItemsAppend(a: seq<Record>, b: seq<Record>)
    ensures TrustPilotPagedApi.AsItems(a + b) == TrustPilotPagedApi.AsItems(a) + TrustPilotPagedApi.AsItems(b)
  {
  }

  /** The raw page, or None when the response failed. */
  method GetReviewData(site: string, page: int, sort: string, date: string, stars: string,
                       get: string -> Response)
    returns (r: Value)
    ensures r == ReviewData(get(TargetUrl(BaseUrl, site, sort, page, date, stars)))
  {
    ghost var prefix := BaseUrl + site + ".json?";
    ghost var params := ["sort=" + sort];
    var targetUrl := BaseUrl + site + ".json?sort=" + sort;
    FirstParam(BaseUrl, site, sort);
    ghost var steps := params;
    if page > 1 {
      AppendParam(prefix, targetUrl, params, "&page=", "page=", IntToString(page));
      targetUrl := targetUrl + "&page=" + IntToString(page);
      params := params + ["page=" + IntToString(page)];
    }
    steps := WithParam(steps, page > 1, "page=" + IntToString(page));
    assert params == steps;
    if date != "" {
      AppendParam(prefix, targetUrl, params, "&date=", "date=", date);
      targetUrl := targetUrl + "&date=" + date;
      params := params + ["date=" + date];
    }
    steps := WithParam(steps, date != "", "date=" + date);
    assert params == steps;
    if stars != "" {
      AppendParam(prefix, targetUrl, params, "&stars=", "stars=", stars);
      targetUrl := targetUrl + "&stars=" + stars;
      params := params + ["stars=" + stars];
    }
    steps := WithParam(steps, stars != "", "stars=" + stars);
    assert params == steps == QueryParams(sort, page, date, stars);
    assert targetUrl == TargetUrl(BaseUrl, site, sort, page, date, stars);
    var resp := get(targetUrl);
    if !resp.ok {
      r := Null;
    } else {
      r := resp.body;
    }
  }

  /** The records of one page up to the first exception; a page that cannot be read gives none. */
  method ExtractReviewsData(rawReviews: Value) returns (extracted: seq<Record>)
    ensures extracted == ExtractPage(rawReviews)
  {
    extracted := [];
    var reviews := ReviewsOf(rawReviews);
    if reviews.Failure? {
      return;
    }
    var rs := reviews.value;
    var i := 0;
    while i < |rs|
      invariant 0 <= i <= |rs| && |extracted| == i
      invariant forall j :: 0 <= j < i ==> WellFormed(rs[j]) && extracted[j] == CleanReview(rs[j]).value
    {
      var review := CleanReview(rs[i]);
      if review.Failure? {
        break;
      }
      extracted := extracted + [review.value];
      i := i + 1;
    }
    ExtractedUnique(rs, extracted);
  }

  /** Reviews over pages `startPage`, ..., `startPage + numPages - 1`, with the default options. */
  method GetReviews(site: string, numPages: int, startPage: int, get: string -> Response)
    returns (reviews: seq<Record>)
    ensures reviews == Collected(get, PageUrls(BaseUrl, site, startPage, numPages, "recency", "", ""))
  {
    ghost var urls := PageUrls(BaseUrl, site, startPage, numPages, "recency", "", "");
    reviews := [];
    var page := startPage;
    while page < startPage + numPages
      invariant startPage <= page && page - startPage <= |urls|
      invariant Collected(get, urls[..page - startPage]) == reviews
    {
      ghost var i := page - startPage;
      assert urls[..i + 1][..i] == urls[..i];
      var rawReview := GetReviewData(site, page, "recency", "", "", get);
      var cleanReviews := ExtractReviewsData(rawReview);
      reviews := reviews + cleanReviews;
      page := page + 1;
    }
    assert urls[..page - startPage] == urls;
  }
}

/**
 * The single-page client of src/etl/trustpilot/trustpilot_api.py:
 * `get_reviews` requests one page with string options (defaults "recency",
 * "", "") and raises on a failed response; `get_clean_reviews` requests the
 * page and cleans it, letting every exception escape. The cached HTTP
 * session is the function `get`.
 */
module TrustPilotSinglePageApi {
  import opened Wrappers
  import opened Strings
  import opened TrustPilotRecords
  import TrustPilotPagedApi

  /** The records of the page a response carries, or the exception raised on the way. */
  function CleanResponse(resp: Response): (r: Result<seq<Record>, PyError>)
    ensures !resp.ok ==> r == Failure(HttpError(resp.status))
    ensures resp.ok ==> r == CleanPage(resp.body)
  {
    match FetchOutcome(resp)
    case Failure(e) => Failure(e)
    case Success(raw) => CleanPage(raw)
  }

  /**
   * One page cleaned by this client is one page cleaned by the multi-page
   * client: the same records, or the same exception.
   */
  lemma CleanResponseMatchesPaged(get: string -> Response, url: string)
    ensures CleanResponse(get(url)).Success? <==> TrustPilotPagedApi.PageItems(get, url, true).Success?
    ensures CleanResponse(get(url)).Success? ==>
      TrustPilotPagedApi.PageItems(get, url, true).value == TrustPilotPagedApi.AsItems(CleanResponse(get(url)).value)
    ensures CleanResponse(get(url)).Failure? ==>
      TrustPilotPagedApi.PageItems(get, url, true).error == CleanResponse(get(url)).error
  {
  }

  class TrustPilotApi {
    const baseUrl: string

    constructor()
      ensures baseUrl == BaseUrl
    {
      baseUrl := BaseUrl;
    }

    /** The raw page; a failed response raises `HTTPError`. */
    method GetReviews(site: string, page: int, sort: string, date: string, stars: string,
                      get: string -> Response)
      returns (r: Result<Value, PyError>)
      ensures r == FetchOutcome(get(TargetUrl(baseUrl, site, sort, page, date, stars)))
    {
      ghost var prefix := baseUrl + site + ".json?";
      ghost var params := ["sort=" + sort];
      var targetUrl := baseUrl + site + ".json?sort=" + sort;
      FirstParam(baseUrl, site, sort);
      ghost var steps := params;
      if page > 1 {
        AppendParam(prefix, targetUrl, params, "&page=", "page=", IntToString(page));
        targetUrl := targetUrl + "&page=" + IntToString(page);
        params := params + ["page=" + IntToString(page)];
      }
      steps := WithParam(steps, page > 1, "page=" + IntToString(page));
      assert params == steps;
      if date != "" {
        AppendParam(prefix, targetUrl, params, "&date=", "date=", date);
        targetUrl := targetUrl + "&date=" + date;
        params := params + ["date=" + date];
      }
      steps := WithParam(steps, date != "", "date=" + date);
      assert params == steps;
      if stars != "" {
        AppendParam(prefix, targetUrl, params, "&stars=", "stars=", stars);
        targetUrl := targetUrl + "&stars=" + stars;
        params := params + ["stars=" + stars];
      }
      steps := WithParam(steps, stars != "", "stars=" + stars);
      assert params == steps == QueryParams(sort, page, date, stars);
      assert targetUrl == TargetUrl(baseUrl, site, sort, page, date, stars);
      var resp := get(targetUrl);
      if !resp.ok {
        r := Failure(HttpError(resp.status));
      } else {
        r := Success(resp.body);
      }
    }

    /** The records of one page; a failed response or a malformed review raises. */
    method GetCleanReviews(site: string, page: int, sort: string, date: string, stars: string,
                           get: string -> Response)
      returns (r: Result<seq<Record>, PyError>)
      ensures r == CleanResponse(get(TargetUrl(baseUrl, site, sort, page, date, stars)))
    {
      var rawReviewsJson := GetReviews(site, page, sort, date, stars, get);
      if rawReviewsJson.Failure? {
        return Failure(rawReviewsJson.error);
      }
      var reviews := ReviewsOf(rawReviewsJson.value);
      if reviews.Failure? {
        return Failure(reviews.error);
      }
      var rs := reviews.value;
      var extracted: seq<Record> := [];
      var i := 0;
      while i < |rs|
        invariant 0 <= i <= |rs| && |extracted| == i
        invariant forall j :: 0 <= j < i ==> WellFormed(rs[j]) && extracted[j] == CleanReview(rs[j]).value
      {
        var review := CleanReview(rs[i]);
        if review.Failure? {
          CleanAllStops(rs, i);
          return Failure(review.error);
        }
        extracted := extracted + [review.value];
        i := i + 1;
      }
      assert extracted == CleanAll(rs).value;
      r := Success(extracted);
    }
  }
}

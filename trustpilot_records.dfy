/**
 * What the three TrustPilot clients share: the decoded JSON of a response,
 * Python's lookups on it (`d[key]`, `for x in d`, truthiness), the cleaning
 * of one raw review into a four-field record, the two ways a page of reviews
 * is cleaned (an exception either escapes or keeps what was cleaned so far),
 * and the shape of the request URL.
 */
module TrustPilotRecords {
  import opened Wrappers
  import opened Strings

  /** A decoded JSON document, as `resp.json()` returns it (numbers are integers here). */
  datatype Value =
    | Null
    | Bool(b: bool)
    | Num(n: int)
    | Str(s: string)
    | Arr(items: seq<Value>)
    | Obj(entries: map<string, Value>)

  /** The exceptions the clients can raise. */
  datatype PyError = KeyError(key: string) | TypeError | HttpError(status: int)

  /** The part of a `requests` response the clients read. */
  datatype Response = Response(ok: bool, status: int, body: Value)

  /** Python's `bool(v)`. */
  predicate Truthy(v: Value) {
    match v
    case Null => false
    case Bool(b) => b
    case Num(n) => n != 0
    case Str(s) => s != ""
    case Arr(xs) => xs != []
    case Obj(m) => |m| != 0
  }

  /** `v[key]`: a dict without the key raises `KeyError`, anything else `TypeError`. */
  function Get(v: Value, key: string): (r: Result<Value, PyError>)
    ensures r.Success? <==> v.Obj? && key in v.entries
    ensures r.Failure? ==> r.error == (if v.Obj? then KeyError(key) else TypeError)
  {
    match v
    case Obj(m) => if key in m then Success(m[key]) else Failure(KeyError(key))
    case _ => Failure(TypeError)
  }

  /**
   * The items `for review in v` hands to a body that indexes each one with a
   * string key. Iterating a string or a dict yields strings, on which that
   * indexing raises `TypeError` at the first item; so a non-empty string or
   * dict fails here with the same error, and an empty one yields nothing.
   */
  function Elements(v: Value): (r: Result<seq<Value>, PyError>)
    ensures r.Success? <==> v.Arr? || v == Str("") || v == Obj(map[])
    ensures r.Failure? ==> r.error == TypeError
  {
    match v
    case Arr(xs) => Success(xs)
    case Str(s) => if s == "" then Success([]) else Failure(TypeError)
    case Obj(m) => if |m| == 0 then Success([]) else Failure(TypeError)
    case _ => Failure(TypeError)
  }

  /** `v if v else default`. */
  function OrElse(v: Value, default: Value): (r: Value)
    ensures Truthy(v) ==> r == v
    ensures !Truthy(v) ==> r == default
  {
    if Truthy(v) then v else default
  }

  /** A cleaned review: the dict with keys text, rating, title and creation_date. */
  datatype Record = Record(text: Value, rating: Value, title: Value, creationDate: Value)

  /** A raw review on which every lookup of the cleaning succeeds. */
  predicate WellFormed(review: Value) {
    review.Obj? && "text" in review.entries && "rating" in review.entries
    && "title" in review.entries && "dates" in review.entries
    && review.entries["dates"].Obj? && "publishedDate" in review.entries["dates"].entries
  }

  /**
   * The cleaning of one raw review. The lookups happen in the order text,
   * rating, title, dates, publishedDate; the first that fails raises.
   */
  function CleanReview(review: Value): (r: Result<Record, PyError>)
    ensures r.Success? <==> WellFormed(review)
    ensures r.Success? ==>
      var e := review.entries;
      r.value == Record(OrElse(e["text"], Str("")), OrElse(e["rating"], Null),
                        OrElse(e["title"], Str("")), OrElse(e["dates"].entries["publishedDate"], Null))
    ensures r.Failure? ==> r.error == TypeError || r.error.KeyError?
  {
    match Get(review, "text")
    case Failure(e) => Failure(e)
    case Success(text) =>
      match Get(review, "rating")
      case Failure(e) => Failure(e)
      case Success(rating) =>
        match Get(review, "title")
        case Failure(e) => Failure(e)
        case Success(title) =>
          match Get(review, "dates")
          case Failure(e) => Failure(e)
          case Success(dates) =>
            match Get(dates, "publishedDate")
            case Failure(e) => Failure(e)
            case Success(published) =>
              Success(Record(OrElse(text, Str("")), OrElse(rating, Null),
                             OrElse(title, Str("")), OrElse(published, Null)))
  }

  /** A record is normalised when every falsy field holds its default ("" for strings, None otherwise). */
  predicate Normalised(rec: Record) {
    (Truthy(rec.text) || rec.text == Str(""))
    && (Truthy(rec.rating) || rec.rating == Null)
    && (Truthy(rec.title) || rec.title == Str(""))
    && (Truthy(rec.creationDate) || rec.creationDate == Null)
  }

  /** Cleaning never leaves a falsy value other than the field's default. */
  lemma CleanReviewNormalises(review: Value)
    requires WellFormed(review)
    ensures CleanReview(review).Success? && Normalised(CleanReview(review).value)
  {
  }

  /**
   * Cleaning every review of a page, where the first malformed review raises
   * (`_clean_reviews`, `get_clean_reviews`).
   */
  function CleanAll(reviews: seq<Value>): (r: Result<seq<Record>, PyError>)
    ensures r.Success? <==> forall i :: 0 <= i < |reviews| ==> WellFormed(reviews[i])
    ensures r.Success? ==> |r.value| == |reviews|
    ensures r.Success? ==> forall i :: 0 <= i < |reviews| ==> r.value[i] == CleanReview(reviews[i]).value
    ensures r.Failure? ==>
      exists i :: 0 <= i < |reviews| && FirstMalformed(reviews, i) && r.error == CleanReview(reviews[i]).error
    decreases |reviews|
  {
    if reviews == [] then Success([])
    else
      var n := |reviews| - 1;
      assert forall i :: 0 <= i < n ==> reviews[..n][i] == reviews[i];
      match CleanAll(reviews[..n])
      case Failure(e) => Failure(e)
      case Success(prev) =>
        match CleanReview(reviews[n])
        case Failure(e) => Failure(e)
        case Success(rec) => Success(prev + [rec])
  }

  /** Review `i` is the first malformed one. */
  predicate FirstMalformed(reviews: seq<Value>, i: int)
    requires 0 <= i < |reviews|
  {
    !WellFormed(reviews[i]) && forall j :: 0 <= j < i ==> WellFormed(reviews[j])
  }

  /** The raising cleaning raises on the first malformed review and on no other. */
  lemma CleanAllStops(reviews: seq<Value>, i: int)
    requires 0 <= i < |reviews| && FirstMalformed(reviews, i)
    ensures CleanAll(reviews) == Failure(CleanReview(reviews[i]).error)
  {
    var k :| 0 <= k < |reviews| && FirstMalformed(reviews, k)
      && CleanAll(reviews).error == CleanReview(reviews[k]).error;
    assert forall j :: 0 <= j < |reviews| && FirstMalformed(reviews, j) ==> j == i;
  }

  /**
   * Cleaning every review of a page, where an exception ends the loop and the
   * records cleaned before it are kept (`extract_reviews_data`).
   */
  function Extracted(reviews: seq<Value>): (r: seq<Record>)
    ensures |r| <= |reviews|
    ensures forall i :: 0 <= i < |r| ==> WellFormed(reviews[i]) && r[i] == CleanReview(reviews[i]).value
    ensures |r| < |reviews| ==> !WellFormed(reviews[|r|])
    decreases |reviews|
  {
    if reviews == [] then []
    else
      var n := |reviews| - 1;
      assert forall i :: 0 <= i < n ==> reviews[..n][i] == reviews[i];
      var prev := Extracted(reviews[..n]);
      if |prev| == n && WellFormed(reviews[n]) then prev + [CleanReview(reviews[n]).value]
      else prev
  }

  /**
   * The contract of `Extracted` pins it down: any list of records with those
   * three properties is the one `extract_reviews_data` returns.
   */
  lemma ExtractedUnique(reviews: seq<Value>, out: seq<Record>)
    requires |out| <= |reviews|
    requires forall i :: 0 <= i < |out| ==> WellFormed(reviews[i]) && out[i] == CleanReview(reviews[i]).value
    requires |out| < |reviews| ==> !WellFormed(reviews[|out|])
    ensures out == Extracted(reviews)
  {
    var e := Extracted(reviews);
    if |out| != |e| {
      assert false;
    }
  }

  /**
   * Where the raising cleaning succeeds, the keeping one returns the same
   * records; where it raises, the keeping one stops at the review it raised on.
   */
  lemma ExtractedAgrees(reviews: seq<Value>)
    ensures CleanAll(reviews).Success? ==> CleanAll(reviews).value == Extracted(reviews)
    ensures CleanAll(reviews).Failure? ==>
      |Extracted(reviews)| < |reviews| && FirstMalformed(reviews, |Extracted(reviews)|)
  {
    var r := CleanAll(reviews);
    var e := Extracted(reviews);
    if r.Success? {
      ExtractedUnique(reviews, r.value);
    } else {
      assert exists i :: 0 <= i < |reviews| && !WellFormed(reviews[i]);
    }
  }

  /** `raw["pageProps"]["reviews"]`, ready to be iterated. */
  function ReviewsOf(raw: Value): (r: Result<seq<Value>, PyError>)
    ensures r.Success? ==>
      raw.Obj? && "pageProps" in raw.entries && raw.entries["pageProps"].Obj?
      && "reviews" in raw.entries["pageProps"].entries
  {
    match Get(raw, "pageProps")
    case Failure(e) => Failure(e)
    case Success(props) =>
      match Get(props, "reviews")
      case Failure(e) => Failure(e)
      case Success(reviews) => Elements(reviews)
  }

  /** The records of one page, raising on the first failure. */
  function CleanPage(raw: Value): (r: Result<seq<Record>, PyError>)
    ensures r.Success? <==> ReviewsOf(raw).Success? && CleanAll(ReviewsOf(raw).value).Success?
  {
    match ReviewsOf(raw)
    case Failure(e) => Failure(e)
    case Success(reviews) => CleanAll(reviews)
  }

  /** The records of one page, keeping what was cleaned before any failure. */
  function ExtractPage(raw: Value): (r: seq<Record>)
    ensures ReviewsOf(raw).Failure? ==> r == []
  {
    match ReviewsOf(raw)
    case Failure(_) => []
    case Success(reviews) => Extracted(reviews)
  }

  /** On a page the raising cleaning accepts, both cleanings agree. */
  lemma ExtractPageAgrees(raw: Value)
    requires CleanPage(raw).Success?
    ensures ExtractPage(raw) == CleanPage(raw).value
  {
    ExtractedAgrees(ReviewsOf(raw).value);
  }

  /** `resp.json()` for a successful response, `HTTPError` otherwise. */
  function FetchOutcome(resp: Response): (r: Result<Value, PyError>)
    ensures r.Success? <==> resp.ok
    ensures r.Success? ==> r.value == resp.body
    ensures r.Failure? ==> r.error == HttpError(resp.status)
  {
    if resp.ok then Success(resp.body) else Failure(HttpError(resp.status))
  }

  /** The endpoint every client requests reviews from. */
  const BaseUrl: string := "https://www.trustpilot.com/_next/data/businessunitprofile-consumersite-7193/review/"

  /**
   * The query parameters in the order the clients append them: the sort
   * always, the page only past the first, the date and the stars only when
   * given (an empty text stands for not given).
   */
  function QueryParams(sort: string, page: int, date: string, stars: string): (ps: seq<string>)
    ensures ps != [] && ps[0] == "sort=" + sort
  {
    WithParam(WithParam(WithParam(["sort=" + sort],
      page > 1, "page=" + IntToString(page)),
      date != "", "date=" + date),
      stars != "", "stars=" + stars)
  }

  /** The page is sent exactly past the first page, the date and the stars exactly when given. */
  lemma QueryParamsNames(sort: string, page: int, date: string, stars: string)
    ensures HasParam(QueryParams(sort, page, date, stars), "page=") <==> page > 1
    ensures HasParam(QueryParams(sort, page, date, stars), "date=") <==> date != ""
    ensures HasParam(QueryParams(sort, page, date, stars), "stars=") <==> stars != ""
  {
    ParamNames(sort, page, date, stars, QueryParams(sort, page, date, stars));
  }

  /** One conditional `target_url += ...` step, on the parameter list. */
  function WithParam(ps: seq<string>, given: bool, param: string): seq<string>
  {
    if given then ps + [param] else ps
  }

  /** Some parameter starts with `name`. */
  predicate HasParam(ps: seq<string>, name: string) {
    exists k :: 0 <= k < |ps| && StartsWith(ps[k], name)
  }

  lemma ParamNames(sort: string, page: int, date: string, stars: string, ps: seq<string>)
    requires ps == WithParam(WithParam(WithParam(["sort=" + sort],
                     page > 1, "page=" + IntToString(page)),
                     date != "", "date=" + date),
                     stars != "", "stars=" + stars)
    ensures HasParam(ps, "page=") <==> page > 1
    ensures HasParam(ps, "date=") <==> date != ""
    ensures HasParam(ps, "stars=") <==> stars != ""
  {
    var p := if page > 1 then ["page=" + IntToString(page)] else [];
    var d := if date != "" then ["date=" + date] else [];
    var t := if stars != "" then ["stars=" + stars] else [];
    assert ps == ["sort=" + sort] + p + d + t;
    HasParamAppend(["sort=" + sort] + p + d, t, "page=");
    HasParamAppend(["sort=" + sort] + p, d, "page=");
    HasParamAppend(["sort=" + sort], p, "page=");
    HasParamAppend(["sort=" + sort] + p + d, t, "date=");
    HasParamAppend(["sort=" + sort] + p, d, "date=");
    HasParamAppend(["sort=" + sort], p, "date=");
    HasParamAppend(["sort=" + sort] + p + d, t, "stars=");
    HasParamAppend(["sort=" + sort] + p, d, "stars=");
    HasParamAppend(["sort=" + sort], p, "stars=");
    var pv := IntToString(page);
    StartsWithOwn("page=", pv);
    StartsWithOwn("date=", date);
    StartsWithOwn("stars=", stars);
    StartsWithMismatch("sort=", sort, "page=", 0);
    StartsWithMismatch("sort=", sort, "date=", 0);
    StartsWithMismatch("sort=", sort, "stars=", 1);
    StartsWithMismatch("page=", pv, "date=", 0);
    StartsWithMismatch("page=", pv, "stars=", 0);
    StartsWithMismatch("date=", date, "page=", 0);
    StartsWithMismatch("date=", date, "stars=", 0);
    StartsWithMismatch("stars=", stars, "page=", 0);
    StartsWithMismatch("stars=", stars, "date=", 0);
  }

  lemma HasParamAppend(a: seq<string>, b: seq<string>, name: string)
    ensures HasParam(a + b, name) <==> HasParam(a, name) || HasParam(b, name)
  {
    if HasParam(a + b, name) {
      var k :| 0 <= k < |a + b| && StartsWith((a + b)[k], name);
      if k >= |a| {
        assert StartsWith(b[k - |a|], name);
      } else {
        assert StartsWith(a[k], name);
      }
    }
    if HasParam(a, name) {
      var k :| 0 <= k < |a| && StartsWith(a[k], name);
      assert (a + b)[k] == a[k];
    }
    if HasParam(b, name) {
      var k :| 0 <= k < |b| && StartsWith(b[k], name);
      assert (a + b)[|a| + k] == b[k];
    }
  }

  lemma StartsWithOwn(name: string, v: string)
    ensures HasParam([name + v], name)
  {
    assert (name + v)[..|name|] == name;
    assert StartsWith([name + v][0], name);
  }

  lemma StartsWithMismatch(head: string, v: string, name: string, i: nat)
    requires i < |head| && i < |name| && head[i] != name[i]
    ensures !HasParam([head + v], name)
  {
    assert (head + v)[i] == head[i];
    assert forall k :: 0 <= k < |[head + v]| ==> [head + v][k] == head + v;
  }

  /** The URL a client requests: `base + site + ".json?"` and the parameters joined by '&'. */
  function TargetUrl(base: string, site: string, sort: string, page: int, date: string, stars: string): string
  {
    base + site + ".json?" + Join(QueryParams(sort, page, date, stars), "&")
  }

  /** Splitting the query at '&' gives back the parameters, when the given texts hold no '&'. */
  lemma QueryRoundTrip(sort: string, page: int, date: string, stars: string)
    requires '&' !in sort && '&' !in date && '&' !in stars
    ensures SplitOn(Join(QueryParams(sort, page, date, stars), "&"), '&') == QueryParams(sort, page, date, stars)
  {
    var ps := QueryParams(sort, page, date, stars);
    forall k | 0 <= k < |ps|
      ensures '&' !in ps[k]
    {
      var v := IntToString(page);
      assert forall i :: 0 <= i < |v| ==> v[i] != '&';
    }
    SplitOfJoin(ps, '&');
  }

  /**
   * Different pages past the first are different requests (so a cache keyed
   * on the URL never answers one page with another).
   */
  lemma TargetUrlPagesDistinct(base: string, site: string, sort: string, p: int, q: int, date: string, stars: string)
    requires '&' !in sort && '&' !in date && '&' !in stars
    requires p != q && (p > 1 || q > 1)
    ensures TargetUrl(base, site, sort, p, date, stars) != TargetUrl(base, site, sort, q, date, stars)
  {
    var prefix := base + site + ".json?";
    var a := Join(QueryParams(sort, p, date, stars), "&");
    var b := Join(QueryParams(sort, q, date, stars), "&");
    if prefix + a == prefix + b {
      assert a == (prefix + a)[|prefix|..] == (prefix + b)[|prefix|..] == b;
      QueryRoundTrip(sort, p, date, stars);
      QueryRoundTrip(sort, q, date, stars);
      ParamsPageDistinct(sort, p, q, date, stars);
      assert false;
    }
  }

  lemma ParamsPageDistinct(sort: string, p: int, q: int, date: string, stars: string)
    requires p != q && (p > 1 || q > 1)
    ensures QueryParams(sort, p, date, stars) != QueryParams(sort, q, date, stars)
  {
    var ps := QueryParams(sort, p, date, stars);
    var qs := QueryParams(sort, q, date, stars);
    if ps == qs {
      if p > 1 && q > 1 {
        assert ps[1] == "page=" + IntToString(p) && qs[1] == "page=" + IntToString(q);
        assert IntToString(p) == ps[1][5..] == qs[1][5..] == IntToString(q);
        IntToStringInjective(p, q);
      }
      QueryParamsNames(sort, p, date, stars);
      QueryParamsNames(sort, q, date, stars);
      assert false;
    }
  }

  /** With the default arguments only the sort is sent. */
  lemma TargetUrlDefaults(base: string, site: string)
    ensures TargetUrl(base, site, "recency", 1, "", "") == base + site + ".json?sort=recency"
  {
  }

  /** The URLs of pages `start`, ..., `start + num - 1`, as `range(start, start + num)` visits them. */
  function PageUrls(base: string, site: string, start: int, num: int, sort: string, date: string, stars: string): (urls: seq<string>)
    ensures |urls| == if num > 0 then num else 0
    ensures forall i :: 0 <= i < |urls| ==> urls[i] == TargetUrl(base, site, sort, start + i, date, stars)
  {
    seq(if num > 0 then num else 0, i => TargetUrl(base, site, sort, start + i, date, stars))
  }

  /** Starting at page 1 or later, every page of a run is requested at a different URL. */
  lemma PageUrlsDistinct(base: string, site: string, start: int, num: int, sort: string, date: string, stars: string)
    requires start >= 1
    requires '&' !in sort && '&' !in date && '&' !in stars
    ensures var urls := PageUrls(base, site, start, num, sort, date, stars);
      forall i, j :: 0 <= i < j < |urls| ==> urls[i] != urls[j]
  {
    var urls := PageUrls(base, site, start, num, sort, date, stars);
    forall i, j | 0 <= i < j < |urls|
      ensures urls[i] != urls[j]
    {
      PageUrlPair(base, site, start, sort, date, stars, urls, i, j);
    }
  }

  lemma PageUrlPair(base: string, site: string, start: int, sort: string, date: string, stars: string,
                    urls: seq<string>, i: int, j: int)
    requires start >= 1
    requires '&' !in sort && '&' !in date && '&' !in stars
    requires 0 <= i < j < |urls|
    requires urls[i] == TargetUrl(base, site, sort, start + i, date, stars)
    requires urls[j] == TargetUrl(base, site, sort, start + j, date, stars)
    ensures urls[i] != urls[j]
  {
    var p, q := start + i, start + j;
    assert p != q && q > 1;
    TargetUrlPagesDistinct(base, site, sort, p, q, date, stars);
  }

  /** The URL up to its first parameter is the prefix and a one-parameter query. */
  lemma FirstParam(base: string, site: string, sort: string)
    ensures base + site + ".json?sort=" + sort == (base + site + ".json?") + Join(["sort=" + sort], "&")
  {
    assert ".json?sort=" == ".json?" + "sort=";
  }

  /**
   * Building the URL by appending `key + value`, where `key` is "&" and a
   * parameter name, keeps it equal to the joined form with one more parameter.
   */
  lemma AppendParam(prefix: string, url: string, ps: seq<string>, key: string, name: string, value: string)
    requires ps != [] && url == prefix + Join(ps, "&")
    requires key == "&" + name
    ensures url + key + value == prefix + Join(ps + [name + value], "&")
  {
    JoinSnoc(ps, name + value, "&");
    assert url + key + value == prefix + (Join(ps, "&") + "&" + (name + value));
  }
}

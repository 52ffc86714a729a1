# Sentiment-analysis text and record transforms, in Dafny

This project models the sequential text and record transforms of a
sentiment-analysis repository, and proves what they promise. It covers:

- the Amazon-reviews chunk pipeline: column selection, undersampling of
  positive/negative (and optionally neutral) reviews, null-text filling,
  word-cap truncation, empty-row removal, file naming, and the stateful
  `AmazonReviewsExtractor` with its chunk counter;
- the three TrustPilot clients. These build the request URL from
  conditional query parameters, fetch pages through an abstract HTTP
  function, and turn each review into a record whose missing text, title,
  rating and date take fixed defaults;
- the text utilities: `StrPlus` (letter and alphanumeric filtering, space
  collapsing, sentence splitting), `ready_text_for_pred`, `review_to_words`,
  `words_in_corpus`, the two `clean_data` variants, `Tokenizer.decode` and its
  vocabulary save/load;
- the TF-IDF top-n keyword selection over an abstract totally ordered score
  type, with its five-column padding;
- the sentiment colour of `decimal_to_rbg` and the HTML document built by
  `create_news_article` from one database row;
- `TextPredictor.predict`, with the model and tokenizer as abstract functions.

One Dafny module corresponds to each source file:

| module | source file |
|---|---|
| `ReviewChunks` | shared row, chunk and frame model of `src/etl/amazon_reviews/amazon_reviews_transform.py` |
| `AmazonTransform` | `src/etl/amazon_reviews/amazon_reviews_transform.py` |
| `AmazonExtractor` | `src/etl/amazon_reviews/AmazonReviewsExtractor.py` |
| `TrustPilotRecords` | shared JSON values, the record cleaning and the URL |
| `TrustPilotPagedApi` | `src/etl/trustpilot/TrustPilotApi.py` |
| `TrustPilotSinglePageApi` | `src/etl/trustpilot/trustpilot_api.py` |
| `TrustPilotScript` | `src/etl/trustpilot/trustpilot.py` |
| `Tokenizer` | `src/models/tokenizer.py` |
| `StrPlus` | `src/text_transform/StrPlus.py` |
| `Preprocess` | `src/predictions/preprocess.py` |
| `TfidfFunctions` | `src/models/tfidf_functions.py` |
| `TfidfTopWords` | `src/models/tf_idf/tfidf_functions.py` |
| `NewsArticle` | `src/visualization/create_news_article.py` |
| `TextPredictor` | `src/predictions/TextPredictor.py` |
| `Strings`, `Wrappers` | Python's `str.split`, `str.join`, `str.strip`, `str.lower`, `str(int)`; `Option` and `Result` |

Python exceptions are modelled as the `Failure` case of a `Result`; the
exception is the error value (`KeyError`, `TypeError`, `HTTPError`, an
unbound local, and so on). Where the source draws rows at random, the model
takes the draw as a parameter and constrains it by a predicate: any set of
distinct rows of the right size from the right class. The methods choose
such a draw nondeterministically.

## Model

| member | source | states |
|---|---|---|
| `ReviewChunks.OfClass` | src/etl/amazon_reviews/amazon_reviews_transform.py:116 | `df.query("overall == …")`: exactly the rows whose rating is in the class, never more rows than the input |
| `ReviewChunks.CountInCons` | src/etl/amazon_reviews/amazon_reviews_transform.py:104-108 | the class count and the class rows of a chunk split over its first row |
| `ReviewChunks.CountUnion` | src/etl/amazon_reviews/amazon_reviews_transform.py:106-108 | counts of disjoint rating classes add up (`value_counts[5] + value_counts[4]`) |
| `ReviewChunks.ClassCounts` | src/etl/amazon_reviews/amazon_reviews_transform.py:106-108 | the counts of ratings 5 and 4 sum to the positive count, those of 2 and 1 to the negative count |
| `ReviewChunks.CountInLength` | src/etl/amazon_reviews/amazon_reviews_transform.py:104 | a class count equals the number of rows of that class |
| `ReviewChunks.DropLabels` | src/etl/amazon_reviews/amazon_reviews_transform.py:133-136 | `df.drop(index=…)`: keeps exactly the rows whose index label is not dropped |
| `ReviewChunks.Unchosen` | src/etl/amazon_reviews/amazon_reviews_transform.py:115-136 | removing the drawn rows leaves the row count minus the number drawn |
| `ReviewChunks.DropLabelsAgree` | src/etl/amazon_reviews/amazon_reviews_transform.py:133-136 | dropping two label sets that agree on the chunk's rows gives the same frame |
| `ReviewChunks.DropChosen` | src/etl/amazon_reviews/amazon_reviews_transform.py:115-136 | with unique labels, dropping the labels of the drawn rows removes exactly the drawn rows |
| `ReviewChunks.UnchosenCountInside` | src/etl/amazon_reviews/amazon_reviews_transform.py:111-136 | drawing k rows of one class lowers the count of any enclosing class by exactly k |
| `ReviewChunks.UnchosenKeepsOthers` | src/etl/amazon_reviews/amazon_reviews_transform.py:111-136 | drawing rows of one class leaves the rows of every disjoint class untouched and in order |
| `ReviewChunks.DropLabelsCount` | src/etl/amazon_reviews/amazon_reviews_transform.py:133-136 | dropping labels never raises a class count |
| `ReviewChunks.FirstOf` | src/etl/amazon_reviews/amazon_reviews_transform.py:115-130 | whenever k rows of a class exist, a draw of k distinct rows of that class exists |
| `ReviewChunks.FirstAbsent` | src/etl/amazon_reviews/amazon_reviews_transform.py:106-108 | finds a rating whose `value_counts` lookup raises `KeyError`, or none exactly when all occur |
| `ReviewChunks.FirstMissing` | src/etl/amazon_reviews/amazon_reviews_transform.py:83 | finds a requested column absent from the frame, or none exactly when all are present |
| `ReviewChunks.PosNegDrawExists` | src/etl/amazon_reviews/amazon_reviews_transform.py:111-130 | the random choice of the larger class's surplus always has a valid outcome |
| `ReviewChunks.Undersampled` | src/etl/amazon_reviews/amazon_reviews_transform.py:111-136 | the balanced rows are rows of the input |
| `ReviewChunks.UndersampledEqualizes` | src/etl/amazon_reviews/amazon_reviews_transform.py:104-136 | after undersampling, ratings {4,5} and {1,2} are equally frequent |
| `ReviewChunks.UndersampledKeeps` | src/etl/amazon_reviews/amazon_reviews_transform.py:111-136 | exactly the gap's worth of rows is removed, all from the larger class; the smaller class and the neutral rows are kept in order |
| `ReviewChunks.Filled` | src/etl/amazon_reviews/amazon_reviews_transform.py:146-150 | `fillna("")`: a null text becomes "", a present one is kept; the label, the rating, every other column's cell and the row count are unchanged |
| `ReviewChunks.Cut` | src/etl/amazon_reviews/amazon_reviews_transform.py:160-162 | every text is replaced by its word cut; the label, the rating, every other column's cell and the row count are unchanged |
| `ReviewChunks.NonEmpty` | src/etl/amazon_reviews/amazon_reviews_transform.py:173-175 | keeps exactly the rows whose text is not "" |
| `ReviewChunks.Frame.constructor` | src/etl/amazon_reviews/amazon_reviews_transform.py:141-175 | a frame holds the chunk's columns and rows |
| `ReviewChunks.Frame.FillEmptyReviews` | src/etl/amazon_reviews/amazon_reviews_transform.py:141-152 | assigns the filled text column in place; a frame without `reviewText` raises `KeyError` and is left unchanged |
| `ReviewChunks.Frame.CutReviews` | src/etl/amazon_reviews/amazon_reviews_transform.py:155-164 | assigns the cut text column in place; a missing column raises `KeyError`, a null text raises `AttributeError`, and then nothing changes |
| `ReviewChunks.CutTextShape` | src/etl/amazon_reviews/amazon_reviews_transform.py:160 | the cut text's words are the original's first `max_words` words (Python slice semantics), joined by single spaces; it is "" exactly when that slice is empty |
| `ReviewChunks.CutTextIdempotent` | src/etl/amazon_reviews/amazon_reviews_transform.py:160 | for a non-negative cap, cutting twice to the same cap equals cutting once |
| `ReviewChunks.CutTextPrefix` | src/etl/amazon_reviews/amazon_reviews_transform.py:160 | the cut keeps a prefix of the words, and all of them when there are at most `max_words` |
| `AmazonTransform.ExtractFeatures` | src/etl/amazon_reviews/amazon_reviews_transform.py:82-83 | `df.loc[:, features]` succeeds exactly when every feature is a column; it then has exactly those columns and the same rows, and otherwise raises `KeyError` for an absent one (the extractor's `_transform_chunk` uses the same selection) |
| `AmazonTransform.BalanceNegPosFails` | src/etl/amazon_reviews/amazon_reviews_transform.py:104-136 | `balance_neg_pos_of_reviews` fails exactly when the rating column is absent, a rating among 1, 2, 4, 5 never occurs, or the positive and negative counts are equal (the unbound `index`) |
| `AmazonTransform.BalanceNegPosEqualizes` | src/etl/amazon_reviews/amazon_reviews_transform.py:104-136 | on success the columns are unchanged and the positive and negative counts are equal |
| `AmazonTransform.BalanceNegPosRemoves` | src/etl/amazon_reviews/amazon_reviews_transform.py:111-136 | exactly `|count_pos - count_neg| > 0` rows are removed, all from the larger class; the other class and rating 3 are kept in order |
| `AmazonTransform.TransformChunk` | src/etl/amazon_reviews/amazon_reviews_transform.py:61-79 | `transform_chunk` is the composition of features, balancing, filling, cutting and removal, for some valid random draw |
| `AmazonTransform.TransformedRows` | src/etl/amazon_reviews/amazon_reviews_transform.py:61-79 | each surviving row comes from an input row with the same index and rating, its text is that row's cut text, non-empty, single-spaced and at most `max_words` words |
| `AmazonTransform.TransformedNoEmpty` | src/etl/amazon_reviews/amazon_reviews_transform.py:71-75 | because the cut runs before the removal, no text is ""; at most the input count minus the balancing gap survives |
| `AmazonTransform.PathParts` | src/etl/amazon_reviews/amazon_reviews_transform.py:198-200 | `pathlib.Path(...).parts` has no empty part |
| `AmazonTransform.Segments` | src/etl/amazon_reviews/amazon_reviews_transform.py:198 | the path's components after dropping empty and "." components |
| `AmazonTransform.FileStem` | src/etl/amazon_reviews/amazon_reviews_transform.py:200 | the last path part up to its first "." (no "." in it, and a "." follows when shorter); a path without parts raises `IndexError` |
| `AmazonTransform.SaveDatapathFirst` | src/etl/amazon_reviews/amazon_reviews_transform.py:196-205 | with a `datapath` the target does not depend on `outpath` |
| `AmazonTransform.SaveTargetsDistinct` | src/etl/amazon_reviews/amazon_reviews_transform.py:196-202 | the target is `../../data/transformed/<stem>_partition_rows_<first>_<last>.csv`, and chunks with different first or last index labels get different files |
| `AmazonExtractor.NeutralExcess` | src/etl/amazon_reviews/AmazonReviewsExtractor.py:255-263 | the corrected, whole-number count of neutral rows above a quarter of the non-neutral count (rounded up), never more than the neutral rows |
| `AmazonExtractor.BalancePosNeg` | src/etl/amazon_reviews/AmazonReviewsExtractor.py:227-252 | the positive/negative step of `_balance_reviews` is the undersampling of the transform module |
| `AmazonExtractor.BalanceReviewsFails` | src/etl/amazon_reviews/AmazonReviewsExtractor.py:221-274 | `_balance_reviews` fails exactly on a missing rating or text column (the assert), an absent rating among 4, 5, 1, 2, equal positive and negative counts, or, with neutral balancing, no rating 3 left |
| `AmazonExtractor.BalanceReviewsBalances` | src/etl/amazon_reviews/AmazonReviewsExtractor.py:227-274 | the corrected method leaves equal positive and negative counts, and with neutral balancing at most a quarter of the non-neutral count of neutral rows (rounded up) |
| `AmazonExtractor.UniqueAfterDrop` | src/etl/amazon_reviews/AmazonReviewsExtractor.py:249-252 | dropping rows keeps index labels unique |
| `AmazonExtractor.NeutralDrop` | src/etl/amazon_reviews/AmazonReviewsExtractor.py:254-274 | the neutral draw keeps the positive and negative counts and leaves at most a quarter of the non-neutral count of neutral rows (rounded up) |
| `AmazonExtractor.BalanceReviewsAsWrittenRaises` | src/etl/amazon_reviews/AmazonReviewsExtractor.py:254-269 | as written, the neutral step raises `TypeError` exactly when the neutral count exceeds the non-neutral count over 4, since the float `rows_to_drop` reaches `choice(size=...)`; in particular whenever the corrected step would drop rows; otherwise it agrees with the corrected method |
| `AmazonExtractor.BalanceReviewsWholeSizeUnbalances` | src/etl/amazon_reviews/AmazonReviewsExtractor.py:265-274 | with the sample size taken as a whole number, the code as written drops the neutral rows from the unbalanced `df`, so the positive and negative counts differ again |
| `AmazonExtractor.SavePath` | src/etl/amazon_reviews/AmazonReviewsExtractor.py:290 | the path starts with `"{outdir}/amazon_reviews_chunk_"` |
| `AmazonExtractor.SavePathInjective` | src/etl/amazon_reviews/AmazonReviewsExtractor.py:290 | different chunk numbers give different save paths |
| `AmazonExtractor.SaveCallAsWrittenLosesChunk` | src/etl/amazon_reviews/AmazonReviewsExtractor.py:295-297 | as written, without a `save_method` the call is `df.to_csv()` with no target, so no file is written |
| `AmazonExtractor.SaveCallFor` | src/etl/amazon_reviews/AmazonReviewsExtractor.py:290-297 | `save_method(df, path)` is called exactly when a save method is set |
| `AmazonExtractor.SaveCallTargets` | src/etl/amazon_reviews/AmazonReviewsExtractor.py:290-297 | the corrected save always has a target, and different chunk numbers write different targets |
| `AmazonExtractor.TransformChunkRows` | src/etl/amazon_reviews/AmazonReviewsExtractor.py:176-193 | each surviving row is an input row with its null text filled by "" |
| `AmazonExtractor.TransformChunkShape` | src/etl/amazon_reviews/AmazonReviewsExtractor.py:176-193 | success implies no `maximum_words` (that branch always raises); the columns are the `features` when given; with `drop_empty_reviews` no text is "" |
| `AmazonExtractor.AmazonReviewsExtractor.constructor` | src/etl/amazon_reviews/AmazonReviewsExtractor.py:116-131 | the options are stored, `_loaded_chunks` starts at 0 and nothing is saved |
| `AmazonExtractor.AmazonReviewsExtractor.TransformChunk` | src/etl/amazon_reviews/AmazonReviewsExtractor.py:171-201 | `_transform_chunk`, with the corrected `_balance_reviews` of the Findings table, equals the specification for some valid pair of random draws |
| `AmazonExtractor.AmazonReviewsExtractor.SaveChunk` | src/etl/amazon_reviews/AmazonReviewsExtractor.py:279-297 | records one save of the chunk under the current counter, with the corrected call, and changes nothing else |
| `AmazonExtractor.AmazonReviewsExtractor.Next` | src/etl/amazon_reviews/AmazonReviewsExtractor.py:134-145 | the counter rises by exactly one first; an exhausted reader raises `StopIteration`; without `outdir` the chunk transformed with the corrected balance is returned; with `outdir` the untransformed chunk is saved with the corrected `_save_chunk` call and `None` returned |
| `AmazonExtractor.AmazonReviewsExtractor.Transform` | src/etl/amazon_reviews/AmazonReviewsExtractor.py:147-155 | always raises `NotImplementedError` |
| `AmazonExtractor.AmazonReviewsExtractor.ExtractNChunks` | src/etl/amazon_reviews/AmazonReviewsExtractor.py:158-165 | always raises `NotImplementedError` |
| `AmazonExtractor.AmazonReviewsExtractor.SavesDistinct` | src/etl/amazon_reviews/AmazonReviewsExtractor.py:138-145 | with the corrected `_save_chunk` call, every save so far has a target and no two saves share a target |
| `TrustPilotRecords.Get` | src/etl/trustpilot/TrustPilotApi.py:120 | `value[key]` succeeds exactly on an object holding the key; otherwise `KeyError` on an object and `TypeError` on anything else |
| `TrustPilotRecords.Elements` | src/etl/trustpilot/TrustPilotApi.py:122 | `for review in reviews` iterates a list; empty strings and objects give no elements; anything else raises `TypeError` |
| `TrustPilotRecords.OrElse` | src/etl/trustpilot/TrustPilotApi.py:125-128 | `x if x else default`: a truthy value is kept, a falsy one replaced by the default |
| `TrustPilotRecords.CleanReview` | src/etl/trustpilot/TrustPilotApi.py:123-129 | succeeds exactly on a well-formed review, giving text and title defaulted to "" and rating and creation date defaulted to None; otherwise `KeyError` or `TypeError` |
| `TrustPilotRecords.CleanReviewNormalises` | src/etl/trustpilot/TrustPilotApi.py:125-128 | every cleaned record has a truthy or "" text and title and a truthy or None rating and date |
| `TrustPilotRecords.CleanAll` | src/etl/trustpilot/TrustPilotApi.py:118-132 | succeeds exactly when every review is well formed, with one record per review in order; otherwise fails with the first malformed review's error |
| `TrustPilotRecords.CleanAllStops` | src/etl/trustpilot/TrustPilotApi.py:122-130 | the error raised is that of the first malformed review |
| `TrustPilotRecords.Extracted` | src/etl/trustpilot/trustpilot.py:67-90 | the records of the longest well-formed prefix, in order; the review after it (if any) is malformed |
| `TrustPilotRecords.ExtractedUnique` | src/etl/trustpilot/trustpilot.py:67-90 | any list with those three properties is the extracted list |
| `TrustPilotRecords.ExtractedAgrees` | src/etl/trustpilot/trustpilot.py:67-90 | the catching extraction equals the raising one when the latter succeeds; otherwise it stops exactly at the first malformed review |
| `TrustPilotRecords.ReviewsOf` | src/etl/trustpilot/TrustPilotApi.py:120 | `raw["pageProps"]["reviews"]` succeeds only on an object with `pageProps` holding `reviews` |
| `TrustPilotRecords.CleanPage` | src/etl/trustpilot/TrustPilotApi.py:107-132 | `_clean_reviews` succeeds exactly when the review list is found and every review in it is well formed |
| `TrustPilotRecords.ExtractPage` | src/etl/trustpilot/trustpilot.py:62-90 | a page without a review list (including `None`) yields [] |
| `TrustPilotRecords.ExtractPageAgrees` | src/etl/trustpilot/trustpilot.py:62-90 | wherever `_clean_reviews` succeeds, `extract_reviews_data` returns the same records |
| `TrustPilotRecords.FetchOutcome` | src/etl/trustpilot/TrustPilotApi.py:100-104 | a response is returned as its JSON exactly when it is ok, and otherwise raises `HTTPError` with its status |
| `TrustPilotRecords.QueryParams` | src/etl/trustpilot/TrustPilotApi.py:87 | the query always starts with `sort=<sort>` |
| `TrustPilotRecords.QueryParamsNames` | src/etl/trustpilot/TrustPilotApi.py:87-96 | `page=` appears exactly when page > 1, `date=` exactly when a date is given, `stars=` exactly when stars are given |
| `TrustPilotRecords.ParamNames` | src/etl/trustpilot/TrustPilotApi.py:89-96 | the same three if-and-only-ifs for the conditionally extended parameter list |
| `TrustPilotRecords.HasParamAppend` | src/etl/trustpilot/TrustPilotApi.py:89-96 | a parameter occurs in an extended query exactly when it occurs in one of the parts |
| `TrustPilotRecords.QueryRoundTrip` | src/etl/trustpilot/TrustPilotApi.py:87-96 | splitting the query on `&` gives back the parameters, when no value contains `&` |
| `TrustPilotRecords.TargetUrlPagesDistinct` | src/etl/trustpilot/TrustPilotApi.py:87-96 | two different page numbers, not both at most 1, give different URLs |
| `TrustPilotRecords.ParamsPageDistinct` | src/etl/trustpilot/TrustPilotApi.py:89-90 | the same for the parameter lists |
| `TrustPilotRecords.TargetUrlDefaults` | src/etl/trustpilot/trustpilot_api.py:21-25 | with page 1, sort "recency" and empty date and stars the URL is exactly base + site + `.json?sort=recency` |
| `TrustPilotRecords.PageUrls` | src/etl/trustpilot/TrustPilotApi.py:35 | pages `start_page` to `start_page+num_pages-1` in increasing order (none when `num_pages` ≤ 0), each with its URL |
| `TrustPilotRecords.PageUrlsDistinct` | src/etl/trustpilot/TrustPilotApi.py:35 | from a start page of at least 1, no page URL is requested twice |
| `TrustPilotRecords.AppendParam` | src/etl/trustpilot/TrustPilotApi.py:89-96 | appending `&name=value` to the URL adds one parameter to its query |
| `TrustPilotPagedApi.SortText` | src/etl/trustpilot/TrustPilotApi.py:87 | the f-string prints a missing sort as `None` and a given one verbatim |
| `TrustPilotPagedApi.DateText` | src/etl/trustpilot/TrustPilotApi.py:92-93 | the date is printed exactly when it is given and non-empty |
| `TrustPilotPagedApi.StarsText` | src/etl/trustpilot/TrustPilotApi.py:95-96 | stars are printed, as the decimal of the number, exactly when given and not 0 |
| `TrustPilotPagedApi.AsItems` | src/etl/trustpilot/TrustPilotApi.py:37-45 | one cleaned item per record, in order |
| `TrustPilotPagedApi.Gathered` | src/etl/trustpilot/TrustPilotApi.py:33-58 | no pages gives [] |
| `TrustPilotPagedApi.GatheredSucceeds` | src/etl/trustpilot/TrustPilotApi.py:35-56 | `reviews` succeeds exactly when every page fetches (and, when cleaning, cleans) |
| `TrustPilotPagedApi.PagesBeforeSucceed` | src/etl/trustpilot/TrustPilotApi.py:35-56 | a successful run over the first pages means each of them succeeded |
| `TrustPilotPagedApi.GatheredStops` | src/etl/trustpilot/TrustPilotApi.py:35-56 | the exception raised is that of the first failing page |
| `TrustPilotPagedApi.GatheredSnoc` | src/etl/trustpilot/TrustPilotApi.py:37-56 | one more page adds its items at the end |
| `TrustPilotPagedApi.GatheredAppend` | src/etl/trustpilot/TrustPilotApi.py:33-58 | the result over two page ranges is the concatenation of the results over each |
| `TrustPilotPagedApi.GatheredRaw` | src/etl/trustpilot/TrustPilotApi.py:47-56 | without cleaning, exactly one raw response body per page, in page order |
| `TrustPilotPagedApi.GatheredClean` | src/etl/trustpilot/TrustPilotApi.py:36-45 | with cleaning, every item is a cleaned record |
| `TrustPilotPagedApi.TrustPilotApi.constructor` | src/etl/trustpilot/TrustPilotApi.py:14-16 | the base URL is the fixed TrustPilot data endpoint |
| `TrustPilotPagedApi.TrustPilotApi.Reviews` | src/etl/trustpilot/TrustPilotApi.py:18-58 | the page loop equals the page-ordered concatenation of each page's items, stopping at the first exception |
| `TrustPilotPagedApi.TrustPilotApi.PageReviews` | src/etl/trustpilot/TrustPilotApi.py:36-56 | one pass of the page loop: the page is fetched and, when cleaning, cleaned; its items or the first exception |
| `TrustPilotPagedApi.TrustPilotApi.FetchReviews` | src/etl/trustpilot/TrustPilotApi.py:61-104 | the URL built with `+=` is the specified URL, and the result is that response's JSON or `HTTPError` |
| `TrustPilotPagedApi.TrustPilotApi.CleanReviews` | src/etl/trustpilot/TrustPilotApi.py:107-132 | the append loop equals the page-cleaning specification |
| `TrustPilotSinglePageApi.CleanResponse` | src/etl/trustpilot/trustpilot_api.py:58-62 | a failed response raises `HTTPError` with its status; an ok one is cleaned |
| `TrustPilotSinglePageApi.CleanResponseMatchesPaged` | src/etl/trustpilot/trustpilot_api.py:80-100 | `get_clean_reviews` gives the same records, and fails on the same pages, as one page of the class client |
| `TrustPilotSinglePageApi.TrustPilotApi.constructor` | src/etl/trustpilot/trustpilot_api.py:14-16 | the base URL is the fixed TrustPilot data endpoint |
| `TrustPilotSinglePageApi.TrustPilotApi.GetReviews` | src/etl/trustpilot/trustpilot_api.py:19-62 | the URL built with `+=` is the specified URL, and the result is that response's JSON or `HTTPError` |
| `TrustPilotSinglePageApi.TrustPilotApi.GetCleanReviews` | src/etl/trustpilot/trustpilot_api.py:65-102 | fetch then the append loop: one defaulted record per review of the page, in order |
| `TrustPilotScript.ReviewData` | src/etl/trustpilot/trustpilot.py:53-59 | a failed response yields `None` instead of raising, an ok one its JSON |
| `TrustPilotScript.CollectedSkipsFailedPage` | src/etl/trustpilot/trustpilot.py:12-21 | a failed page adds no reviews |
| `TrustPilotScript.ExtractPageBound` | src/etl/trustpilot/trustpilot.py:69-86 | at most one record per input review, with equality exactly when no review is malformed |
| `TrustPilotScript.CollectedAgreesWithPaged` | src/etl/trustpilot/trustpilot.py:6-23 | wherever the class client succeeds with cleaning, the script returns the same records |
| `TrustPilotScript.AsItemsAppend` | src/etl/trustpilot/trustpilot.py:21 | concatenating records and then wrapping them equals wrapping each part |
| `TrustPilotScript.GetReviewData` | src/etl/trustpilot/trustpilot.py:26-59 | the URL built with `+=` from the fixed base URL is the specified URL, and the result is its JSON or `None` |
| `TrustPilotScript.ExtractReviewsData` | src/etl/trustpilot/trustpilot.py:62-90 | the loop inside `try` returns the records gathered before the first exception |
| `TrustPilotScript.GetReviews` | src/etl/trustpilot/trustpilot.py:6-23 | the concatenation over pages `start_page` to `start_page+num_pages-1`, sorted by "recency", of each page's extracted records |
| `Tokenizer.Lookup` | src/models/tokenizer.py:47-50 | `vocabulary[token]`: ids in range give their word, negative ids from the end; every other id gives "" |
| `Tokenizer.IndexOf` | src/models/tokenizer.py:23-29 | the first position of a word in the vocabulary, present exactly when the word is |
| `Tokenizer.DecodeOfEncode` | src/models/tokenizer.py:47-50 | the id of a vocabulary word decodes back to that word |
| `Tokenizer.EncodeOfDecode` | src/models/tokenizer.py:47-50 | in a vocabulary without duplicates, decoding an in-range id and looking the word up gives back the id |
| `Tokenizer.NegativeIdWraps` | src/models/tokenizer.py:47-48 | a negative id decodes like the id `|vocab|` above it |
| `Tokenizer.DecodedWordKnown` | src/models/tokenizer.py:36-50 | a decoded word is a vocabulary word or ""; when "" is not a word, "" means an out-of-range id |
| `Tokenizer.JoinOfSplit` | src/models/tokenizer.py:73-82 | joining the lines of a file's content gives the content back |
| `Tokenizer.Tokenizer.constructor` | src/models/tokenizer.py:8-29 | `max_tokens`, `sequence_length` and the vocabulary are stored unchanged |
| `Tokenizer.Tokenizer.Decode` | src/models/tokenizer.py:32-54 | the same number of rows, each of the same length, each id decoded by `Lookup`; the vocabulary is not changed |
| `Tokenizer.Tokenizer.SaveVocabulary` | src/models/tokenizer.py:73-75 | the file content is the vocabulary joined by newlines, and reading it back gives the vocabulary exactly when it is non-empty and no entry contains a newline |
| `Tokenizer.Tokenizer.LoadVocabulary` | src/models/tokenizer.py:78-82 | the vocabulary is the content's lines, and saving it again gives the same content |
| `StrPlus.ReplaceOthers` | src/text_transform/StrPlus.py:18-25 | with a one-character replacement the length is kept, kept characters stay, all others become the replacement |
| `StrPlus.Letters` | src/text_transform/StrPlus.py:13-18 | `letters` with a one-character `repl`: the length is kept, ASCII letters stay, every other character becomes `repl` (any `repl`: `StrPlus.LettersChar`, `StrPlus.LettersAppend`) |
| `StrPlus.Alphanumeric` | src/text_transform/StrPlus.py:20-25 | `alphanumeric` with a one-character `repl`: the same, also keeping digits (any `repl`: `StrPlus.AlphanumericChar`, `StrPlus.AlphanumericAppend`) |
| `StrPlus.ReplaceOthersIdempotent` | src/text_transform/StrPlus.py:18-25 | replacing twice equals replacing once |
| `StrPlus.LettersIdempotent` | src/text_transform/StrPlus.py:18 | `letters(r)` is idempotent |
| `StrPlus.AlphanumericIdempotent` | src/text_transform/StrPlus.py:25 | `alphanumeric(r)` is idempotent |
| `StrPlus.ReplaceOthersChar` | src/text_transform/StrPlus.py:18-25 | for any replacement, a kept character stays and any other character becomes the whole replacement (possibly empty or longer than one character) |
| `StrPlus.ReplaceOthersAppend` | src/text_transform/StrPlus.py:18-25 | for any replacement, the substitution distributes over concatenation; with `ReplaceOthersChar` this fixes the result on every input |
| `StrPlus.LettersChar` | src/text_transform/StrPlus.py:18 | `letters(repl)` on one character, for any literal `repl` |
| `StrPlus.AlphanumericChar` | src/text_transform/StrPlus.py:25 | `alphanumeric(repl)` on one character, for any literal `repl` |
| `StrPlus.LettersAppend` | src/text_transform/StrPlus.py:18 | `letters(repl)` distributes over concatenation, for any literal `repl` |
| `StrPlus.AlphanumericAppend` | src/text_transform/StrPlus.py:25 | `alphanumeric(repl)` distributes over concatenation, for any literal `repl` |
| `StrPlus.OneSpace` | src/text_transform/StrPlus.py:27-28 | `one_space` never lengthens, keeps emptiness, and keeps the first and last characters |
| `StrPlus.OneSpaceNoDouble` | src/text_transform/StrPlus.py:28 | the result has no two consecutive spaces |
| `StrPlus.OneSpaceKeepsText` | src/text_transform/StrPlus.py:28 | the non-space characters are unchanged and in order |
| `StrPlus.OneSpaceChars` | src/text_transform/StrPlus.py:28 | no character is introduced |
| `StrPlus.OneSpaceFixes` | src/text_transform/StrPlus.py:28 | a text without double spaces is unchanged |
| `StrPlus.OneSpaceIdempotent` | src/text_transform/StrPlus.py:28 | `one_space` is idempotent |
| `StrPlus.WordsOfOneSpace` | src/text_transform/StrPlus.py:28 | collapsing spaces keeps the words |
| `StrPlus.SplitAtMarks` | src/text_transform/StrPlus.py:46-51 | `re.split("[…] ")` gives at least one piece |
| `StrPlus.SplitAtMarksKeep` | src/text_transform/StrPlus.py:48-51 | the capturing split gives at least one piece |
| `StrPlus.FirstPieceStart` | src/text_transform/StrPlus.py:46-51 | the first piece is empty or starts the text |
| `StrPlus.PiecesHaveNoSeparator` | src/text_transform/StrPlus.py:46-51 | no piece contains a separator (a selected mark followed by a space) |
| `StrPlus.SplitKeepConcat` | src/text_transform/StrPlus.py:48-51 | with `keep_punctuation`, concatenating the pieces gives the input back |
| `StrPlus.SplitKeepLength` | src/text_transform/StrPlus.py:48-51 | with `keep_punctuation`, there are twice as many pieces minus one |
| `StrPlus.SplitKeepInterleaves` | src/text_transform/StrPlus.py:48-51 | the kept split alternates the plain pieces with the two-character separators |
| `StrPlus.SplitPieceCount` | src/text_transform/StrPlus.py:46-51 | the number of pieces is the separator count plus one |
| `StrPlus.SplitWithoutSeparator` | src/text_transform/StrPlus.py:46-51 | a text without a separator is a single piece |
| `StrPlus.SentencesDefaults` | src/text_transform/StrPlus.py:30-51 | the defaults split after `?`, `!` or `.` followed by a space |
| `StrPlus.SentencesFailsOnlyWithoutMarks` | src/text_transform/StrPlus.py:39-46 | `sentences` raises exactly when no mark and no symbol is selected (the pattern `[] ` is rejected) |
| `Preprocess.LetterRunLen` | src/predictions/preprocess.py:4 | the length of the leading ASCII-letter run |
| `Preprocess.LetterRuns` | src/predictions/preprocess.py:4 | the maximal ASCII-letter runs, each a non-empty run of letters |
| `Preprocess.WordsOfLetters` | src/predictions/preprocess.py:4 | the words of `letters` are the letter runs |
| `Preprocess.ReadyTextShape` | src/predictions/preprocess.py:4 | the output has only a-z and spaces, no leading, trailing or double space, and is single-spaced |
| `Preprocess.ReadyTextIsJoinedRuns` | src/predictions/preprocess.py:4 | the output is the lowercased letter runs in order, joined by single spaces |
| `Preprocess.LetterRunsEmpty` | src/predictions/preprocess.py:4 | there are no runs exactly when there is no ASCII letter |
| `Preprocess.ReadyTextEmpty` | src/predictions/preprocess.py:4 | the output is "" exactly when the input has no ASCII letter |
| `Preprocess.ReadyTextIdempotent` | src/predictions/preprocess.py:4 | preparing a prepared text changes nothing |
| `Preprocess.LowerTextFixed` | src/predictions/preprocess.py:4 | lowercase letters and spaces pass letter filtering and lowering unchanged |
| `TfidfFunctions.RemoveStopwords` | src/models/tfidf_functions.py:35 | keeps exactly the non-stopwords, each kept word a word of the input |
| `TfidfFunctions.RemoveStopwordsAppend` | src/models/tfidf_functions.py:35 | the filter goes word by word: on a concatenation it gives the filtered parts concatenated, so order is kept |
| `TfidfFunctions.NoStopwordsKeepsAll` | src/models/tfidf_functions.py:35 | an empty stopword set keeps every word |
| `TfidfFunctions.ReviewToWordsIsFilteredRuns` | src/models/tfidf_functions.py:23-40 | the output is the lowercased letter runs of the extracted text, stopwords removed, joined by single spaces |
| `TfidfFunctions.KeptWordsShape` | src/models/tfidf_functions.py:26-35 | every kept word is a lowercase word |
| `TfidfFunctions.ReviewToWordsNoStopword` | src/models/tfidf_functions.py:32-38 | no output word is a stopword |
| `TfidfFunctions.ReviewToWordsSingleSpaced` | src/models/tfidf_functions.py:26-38 | the output has single inner spaces and no leading or trailing space |
| `TfidfFunctions.ReviewToWordsLowerText` | src/models/tfidf_functions.py:26-38 | the output has only a-z and spaces |
| `TfidfFunctions.ReviewToWordsWithoutStops` | src/models/tfidf_functions.py:23-38 | with no stopwords, `review_to_words` equals `ready_text_for_pred` of the extracted text |
| `TfidfFunctions.DropIncomplete` | src/models/tfidf_functions.py:54 | `dropna()`: keeps exactly the rows with no missing value |
| `TfidfFunctions.CleanData` | src/models/tfidf_functions.py:43-59 | fails exactly without a `reviewText` column; otherwise adds the `preprocessed` column with one entry per complete row, in order |
| `TfidfFunctions.CleanDataWellFormed` | src/models/tfidf_functions.py:54-58 | the cleaned table is well formed and has no missing value |
| `TfidfFunctions.WordsInCorpus` | src/models/tfidf_functions.py:63-77 | the loop's message carries the number of distinct `split(' ')` tokens over all texts |
| `TfidfFunctions.CorpusTokensOrderFree` | src/models/tfidf_functions.py:71-75 | the count does not depend on the order or repetition of the texts |
| `TfidfFunctions.CorpusTokensCoverEachText` | src/models/tfidf_functions.py:71-75 | the count is at least the distinct-token count of any single text |
| `TfidfFunctions.CorpusCountsEmptyToken` | src/models/tfidf_functions.py:73 | an empty text contributes the empty token |
| `TfidfTopWords.PositiveFrom` | src/models/tf_idf/tfidf_functions.py:111 | `row[row>0]`: exactly the columns with a positive score, in column order |
| `TfidfTopWords.FirstMax` | src/models/tf_idf/tfidf_functions.py:112 | the largest score, with ties going to the earliest column |
| `TfidfTopWords.Without` | src/models/tf_idf/tfidf_functions.py:112 | removing one candidate keeps the others in order |
| `TfidfTopWords.WithoutLength` | src/models/tf_idf/tfidf_functions.py:112 | removing a present candidate removes exactly one |
| `TfidfTopWords.FirstMaxBeforeRest` | src/models/tf_idf/tfidf_functions.py:112 | the chosen column comes before every other candidate |
| `TfidfTopWords.SelectionStep` | src/models/tf_idf/tfidf_functions.py:112 | choosing the first maximum and then the top of the rest keeps the order and left-out properties |
| `TfidfTopWords.TopN` | src/models/tf_idf/tfidf_functions.py:112 | `nlargest(n)`: min(n, candidates) columns, ordered by score with ties by column, and every left-out candidate scores no higher |
| `TfidfTopWords.GetTopWordsLabels` | src/models/tf_idf/tfidf_functions.py:104-116 | `get_top_words` returns the labels of the top columns, in the same order |
| `TfidfTopWords.TopColumnsPositive` | src/models/tf_idf/tfidf_functions.py:111-115 | at most n columns, all positive; all positive ones when fewer than n are |
| `TfidfTopWords.TopColumnsOrdered` | src/models/tf_idf/tfidf_functions.py:112 | non-increasing scores, ties broken by column order (`keep='first'`) |
| `TfidfTopWords.TopColumnsLeftOut` | src/models/tf_idf/tfidf_functions.py:111-112 | any positive column left out scores no higher than each returned column, and comes after it on a tie |
| `TfidfTopWords.BeforeScores` | src/models/tf_idf/tfidf_functions.py:112 | the selection order never places a lower score first |
| `TfidfTopWords.Pad` | src/models/tf_idf/tfidf_functions.py:138-142 | column k holds each row's k-th word, or None when the row has fewer |
| `TfidfTopWords.HottestWordTable` | src/models/tf_idf/tfidf_functions.py:137-142 | exactly five columns `hottest_word_1` to `hottest_word_5`, each padded |
| `TfidfTopWords.HottestWordRoundTrip` | src/models/tf_idf/tfidf_functions.py:137-142 | reading a row back from the table gives its top words, when there are at most five |
| `TfidfTopWords.HottestWordKeepsFirstFive` | src/models/tf_idf/tfidf_functions.py:137-142 | with more than five words, the table keeps the first five |
| `TfidfTopWords.CleanData.constructor` | src/models/tf_idf/tfidf_functions.py:12-13 | stores the series |
| `TfidfTopWords.CleanData.Clean` | src/models/tf_idf/tfidf_functions.py:48-63 | `self.df` becomes its non-null entries in order, and one cleaned string per entry is returned |
| `TfidfTopWords.NonMissing` | src/models/tf_idf/tfidf_functions.py:60 | `dropna()`: exactly the present entries |
| `TfidfTopWords.NonMissingOfPresent` | src/models/tf_idf/tfidf_functions.py:60 | a series without nulls is unchanged |
| `TfidfTopWords.NonMissingIdempotent` | src/models/tf_idf/tfidf_functions.py:60 | `dropna` twice equals once |
| `TfidfTopWords.TfIdf.constructor` | src/models/tf_idf/tfidf_functions.py:73-76 | stores the series and `n_range` |
| `TfidfTopWords.TfIdf.HottestWord` | src/models/tf_idf/tfidf_functions.py:118-144 | `self.df` becomes its non-missing texts (the `clean_data()` inside `tf_idf_model()`), and the table holds the padded top words of each fitted row, one row per remaining text |
| `NewsArticle.Trunc` | src/visualization/create_news_article.py:17-18 | Python's `int()` truncates toward zero |
| `NewsArticle.BlueTextIsBlue` | src/visualization/create_news_article.py:19-22 | blue is always printed as 120 |
| `NewsArticle.RgbShape` | src/visualization/create_news_article.py:16-22 | the colour reads `rgb(` … `, 120)` |
| `NewsArticle.TruncMonotone` | src/visualization/create_news_article.py:17-18 | truncation is monotone on non-negative values |
| `NewsArticle.ColorInRange` | src/visualization/create_news_article.py:17-18 | for scores in [0, 4], red and green lie in [0, 255] |
| `NewsArticle.ColorMonotone` | src/visualization/create_news_article.py:17-18 | on [0, 4] red never increases and green never decreases with the score |
| `NewsArticle.ColorBalance` | src/visualization/create_news_article.py:17-18 | on [0, 4] red plus green is 254 or 255 |
| `NewsArticle.EndLevels` | src/visualization/create_news_article.py:17-18 | score 0 is full red, score 4 full green |
| `NewsArticle.RgbText` | src/visualization/create_news_article.py:22 | the colour string is `rgb(r, g, 120)` with r and g printed |
| `NewsArticle.ColorEnds` | src/visualization/create_news_article.py:16-22 | score 0 gives `rgb(255, 0, 120)` and score 4 `rgb(0, 255, 120)` |
| `NewsArticle.LineEnd` | src/visualization/create_news_article.py:35 | the next newline (`.` does not match it) |
| `NewsArticle.LastClose` | src/visualization/create_news_article.py:35 | the last `]]` before a bound, the greedy end of `(.*)` |
| `NewsArticle.SearchFrom` | src/visualization/create_news_article.py:35 | `re.search(r"\[\[(.*)\]\]")`: the leftmost match, with its longest extent |
| `NewsArticle.NoMatchPastLine` | src/visualization/create_news_article.py:35 | a match never crosses a newline |
| `NewsArticle.MarkerGroup` | src/visualization/create_news_article.py:35 | the search result is None exactly when no `[[…]]` matches; otherwise group 1 of a match |
| `NewsArticle.MarkerGroupOneLine` | src/visualization/create_news_article.py:35 | group 1 holds no newline |
| `NewsArticle.PieceDivOutcome` | src/visualization/create_news_article.py:34-40 | a sentence fails exactly without a `[[x]]` marker or with an unparsable x, and otherwise becomes its coloured div |
| `NewsArticle.MapResults` | src/visualization/create_news_article.py:34-40 | succeeds exactly when every sentence does, with one block per sentence in order; otherwise one sentence's error |
| `NewsArticle.MapResultsFirstError` | src/visualization/create_news_article.py:34-40 | the error is that of the first failing sentence |
| `NewsArticle.HtmlSentences` | src/visualization/create_news_article.py:33-40 | the append loop equals the sentence mapping |
| `NewsArticle.MapResultsSnoc` | src/visualization/create_news_article.py:34-40 | one more successful sentence appends its block |
| `NewsArticle.MapResultsStops` | src/visualization/create_news_article.py:34-40 | the loop stops at the first failure with its error |
| `NewsArticle.FailureStays` | src/visualization/create_news_article.py:34-40 | once a prefix fails, the whole mapping fails the same way |
| `NewsArticle.PresentWords` | src/visualization/create_news_article.py:57 | the TF-IDF cells give their words exactly when none is NULL, one word per cell in order |
| `NewsArticle.CreateNewsArticle` | src/visualization/create_news_article.py:25-102 | the document built with `+=` equals the specified article, including the `TypeError` of a NULL mean score or TF-IDF cell |
| `NewsArticle.ArticleSucceeds` | src/visualization/create_news_article.py:34-57 | success means every sentence succeeded, the mean score and the four shown TF-IDF cells are present, and the source has a banner |
| `NewsArticle.ArticleParts` | src/visualization/create_news_article.py:59-100 | the document is the header followed by the body of sentence blocks |
| `NewsArticle.ArticleOpens` | src/visualization/create_news_article.py:59 | the document starts with `<!DOCTYPE html>\n` |
| `NewsArticle.ArticleEndsWithBody` | src/visualization/create_news_article.py:97-100 | the document ends with the article body |
| `NewsArticle.ArticleCloses` | src/visualization/create_news_article.py:100 | the document ends with `</html>` |
| `NewsArticle.ArticleLinksPrev` | src/visualization/create_news_article.py:68 | the document links to article number − 1 |
| `NewsArticle.ArticleLinksNext` | src/visualization/create_news_article.py:68 | the document links to article number + 1 |
| `NewsArticle.ArticleBlockCount` | src/visualization/create_news_article.py:30-40 | one div per `". "`-split piece, in order, each coloured by its score |
| `NewsArticle.BlocksFailure` | src/visualization/create_news_article.py:34-40 | the sentence loop fails exactly when some sentence fails |
| `NewsArticle.ArticleFailure` | src/visualization/create_news_article.py:34-57 | the call fails exactly when a sentence fails, the mean score or a shown TF-IDF cell is NULL, or the source has no banner; after the sentences, a NULL mean score raises first, then the banner `KeyError`, then the join's `TypeError` |
| `NewsArticle.FewTopWordsFail` | src/visualization/create_news_article.py:57 | a row whose TF-IDF columns are `hottest_word`'s padding for a document with fewer than four top words fails on the join once everything before it passes |
| `NewsArticle.KnownSources` | src/visualization/create_news_article.py:9-14 | banners exist for fox-news, abc-news, cnn and al-jazeera-english only; "reuters" has none |
| `NewsArticle.ArticleFirstError` | src/visualization/create_news_article.py:34-40 | the call fails with the first failing sentence's error, before any NULL cell or unknown source |
| `TextPredictor.TextPredictor.Predict` | src/predictions/TextPredictor.py:16-37 | with `split_sentences`, the texts are the default sentence split and sentiment i is `model(tokenizer(text[i]))`; without it, the text unchanged and one model call |
| `TextPredictor.PredictSentenceCount` | src/predictions/TextPredictor.py:21-30 | one sentiment per sentence, the separator count plus one, no sentence holding a separator; a text without separators gets one call |
| `TextPredictor.SplitAgreesOnOneSentence` | src/predictions/TextPredictor.py:21-37 | on a text without separators both modes make the same single prediction |
| `Strings.Words` | src/etl/amazon_reviews/amazon_reviews_transform.py:160 | `str.split()`: non-empty runs of non-whitespace |
| `Strings.JoinWords` | src/etl/amazon_reviews/amazon_reviews_transform.py:160 | joining words with single spaces gives a single-spaced text whose words are those words |
| `Strings.SingleSpacedIsJoin` | src/etl/amazon_reviews/amazon_reviews_transform.py:160 | a single-spaced text is its words joined by spaces |
| `Strings.WordsOfStrip` | src/predictions/preprocess.py:4 | `strip()` keeps the words |
| `Strings.StripShape` | src/predictions/preprocess.py:4 | `strip()` gives a slice with no whitespace at either end |
| `Strings.WordsOfLower` | src/models/tfidf_functions.py:29 | `lower().split()` equals lowering each word of `split()` |
| `Strings.SplitOnCount` | src/models/tokenizer.py:80 | `split("\n")` gives one more piece than there are newlines |
| `Strings.SplitJoinRoundTrip` | src/models/tokenizer.py:73-82 | splitting a join gives the parts back exactly when they are non-empty in number and free of the separator |
| `Strings.IntToString` | src/etl/trustpilot/TrustPilotApi.py:90 | `str(page)`: a non-empty run of digits, with an optional minus |
| `Strings.IntToStringInjective` | src/etl/trustpilot/TrustPilotApi.py:90 | different numbers print differently |

## Left out

- HTTP, caching and JSON decoding are not modelled. `session.get` and `requests.get` become a function parameter `get` from URL to response, and `resp.json()` is taken to succeed. JSON numbers are integers.
- The printed warning in `get_review_data` and the printed exception in `extract_reviews_data` are not modelled.
- Iterating over a non-empty string or dictionary of reviews is modelled as a `TypeError` at once. The source would iterate and then fail on the first element's lookup; the outcome (an exception, or the records so far) is the same.
- `trustpilot.py` looks up the rating twice (lines 74 and 76); the model does it once, with the same outcome.
- The `Literal` type hints of `TrustPilotApi.reviews` are not enforced; any sort, date or stars value is accepted.
- `TrustPilotRecords.QueryRoundTrip`, `TrustPilotRecords.TargetUrlPagesDistinct` and `TrustPilotRecords.PageUrlsDistinct` require values without `&`, because a value holding `&` would read as two parameters.
- The database query of `create_news_article` is not modelled: its row is an input `NewsRow`. Parsing the `[[x]]` score as a float and printing the mean score are function parameters.
- `NewsArticle.Article`: the mean score and the TF-IDF cells may be NULL. The source, author, title, date, article number and text are taken as non-NULL. A NULL title, author or date prints as "None", which the string cells can hold. A NULL text, article number or missing row (`fetchone()` returning None) raises `TypeError`, which the model does not represent.
- `decimal_to_rbg` works over exact reals with truncation toward zero, not 64-bit floats. A score of `inf` or `nan` parses as a float in the source and then makes `int()` raise `OverflowError` or `ValueError`; the model has no such values, so these scores are reported only as `NotANumber`, through the float parser returning nothing.
- The banner table and page style are a `Layout` parameter, defaulting to the source's values.
- HTML text extraction (BeautifulSoup `get_text`) and the NLTK stopword list are parameters of `review_to_words`.
- Reading and writing files (`read_csv`, `to_csv`, vocabulary files) are not modelled; only paths and content strings are.
- The TF-IDF fit (`tf_idf_model`) is sklearn and is not modelled. Its dense scores (one row per non-missing text, as `fit_transform` returns) and feature names are inputs, and scores are an abstract type with a strict total order.
- `Tokenizer` keeps what `get_vocabulary()` returns. Keras's reserved tokens, standardisation and integer encoding are not modelled, and `from_vocab_file` is not modelled (it calls `__init__` on the class and fails).
- `StrPlus.Letters`: the replacement must contain no backslash, because `re.sub` would read it as a template escape.
- `StrPlus.Alphanumeric`: likewise, the replacement must contain no backslash, because `re.sub` would read it as a template escape; `StrPlus.LettersIdempotent` and `StrPlus.AlphanumericIdempotent` keep the same restriction.
- `StrPlus.Sentences`: the extra symbols must not contain `]`, `\`, `^` or `-`, which would change the character class's meaning.
- `TextPredictor`'s import of the `StrPlus` module (not the class) is taken as the intended class.
- The random generators (`np.random.seed`, `RandomState(0)`) are not modelled. A draw is any set of distinct rows of the right size from the right class, and index labels are assumed unique.
- `AmazonExtractor.NeutralExcess`: as written, `rows_to_drop` is the float `num_neutral - non_neutral/4`, and with numpy's `RandomState.choice` a float `size` raises `TypeError`. `BalanceReviewsAsWritten` models that error; `NeutralExcess` is the corrected whole-number size (rounded up so that the quarter bound holds). The claim that numpy rejects the float rests on numpy's documented behaviour, not on a run.
- `AmazonExtractor.AmazonReviewsExtractor.TransformChunk`, `AmazonExtractor.AmazonReviewsExtractor.Next` and `AmazonExtractor.AmazonReviewsExtractor.SavesDistinct` follow the corrected `_balance_reviews` and `_save_chunk` of the Findings table, not the code as written. As written, neutral balancing raises `TypeError` once there are neutral rows to drop, and a save without `save_method` writes no file.
- The `maximum_words` branch of `_transform_chunk` (lines 187-190) always raises, because it applies over columns and uses `x.split` without calling it. The model returns that error.
- `extract_transform_amazon_reviews` is not modelled: it iterates over an int (line 55) and passes arguments in the wrong order (line 57).
- `convert_column_to_dt`, `convert_dtypes` and the `convert_dates` option are pandas dtype conversions and are not modelled.
- `AmazonTransform.PathParts` follows POSIX `pathlib`: empty and `.` components are dropped. A leading `//` is not distinguished.
- Column names are fixed (`overall`, `reviewText`): the extractor's configurable rating and text column names take their defaults.

## Findings

| source | as written | input that shows it | evidently intended | confidence | as-written member | corrected member |
|---|---|---|---|---|---|---|
| src/etl/amazon_reviews/AmazonReviewsExtractor.py:260-269 | `rows_to_drop = num_neutral - num_non_neutral / 4` uses true division, so the `size` passed to `RandomState.choice` is a float, which numpy rejects with `TypeError` | `balance_neutral_reviews=True`, ratings [5, 4, 4, 2, 1, 3, 3, 3]: balancing leaves 2 positive, 2 negative and 3 neutral rows; 3 > 4/4, so `choice(size=2.0)` is called | a whole number of rows, enough to bring the neutral rows down to a quarter of the others | medium (not executed; rests on numpy refusing a float sample size) | `AmazonExtractor.BalanceReviewsAsWrittenRaises` | `AmazonExtractor.BalanceReviewsBalances` |
| src/etl/amazon_reviews/AmazonReviewsExtractor.py:265-274 | the neutral step draws from and drops rows of the unbalanced `df`, discarding the positive/negative balancing; this shows once the sample size of the previous row is a whole number | the same chunk with a whole sample size: 2 neutral rows are dropped from `df`, which still has 3 positive and 2 negative rows | drop the neutral rows from `df_balanced` | high that line 271 drops from `df` (not executed) | `AmazonExtractor.BalanceReviewsWholeSizeUnbalances` | `AmazonExtractor.BalanceReviewsBalances` |
| src/etl/amazon_reviews/AmazonReviewsExtractor.py:295-297 | without `save_method`, `.csv` is appended to `save_path`, but `df.to_csv()` is called with no path, so the chunk is returned as text and no file is written | `outdir="out"`, no `save_method` | `df.to_csv(save_path)` | high (not executed) | `AmazonExtractor.SaveCallAsWrittenLosesChunk` | `AmazonExtractor.SaveCallTargets` |

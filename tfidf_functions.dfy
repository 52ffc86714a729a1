/**
 * The review cleaning of the TF-IDF scripts: `review_to_words` (letters only,
 * lower-cased, split on whitespace, stopwords removed, joined by spaces),
 * `clean_data` (drop incomplete rows, add the cleaned text as a column) and
 * `words_in_corpus` (the number of distinct space-separated tokens).
 * HTML text extraction and the stopword list are parameters.
 */
module TfidfFunctions {
  import opened Wrappers
  import opened Strings
  import opened StrPlus
  import opened Preprocess

  /** `[w for w in words if not w in stops]`. */
  function RemoveStopwords(words: seq<string>, stops: set<string>): (kept: seq<string>)
    ensures |kept| <= |words|
    ensures forall i :: 0 <= i < |kept| ==> kept[i] !in stops && kept[i] in words
    ensures forall w :: w in words && w !in stops ==> w in kept
  {
    if words == [] then []
    else (if words[0] in stops then [] else [words[0]]) + RemoveStopwords(words[1..], stops)
  }

  /** The filter works word by word: filtering a concatenation concatenates the filtered parts, in order. */
  lemma {:induction false} RemoveStopwordsAppend(a: seq<string>, b: seq<string>, stops: set<string>)
    ensures RemoveStopwords(a + b, stops) == RemoveStopwords(a, stops) + RemoveStopwords(b, stops)
  {
    if a != [] {
      assert (a + b)[1..] == a[1..] + b;
      RemoveStopwordsAppend(a[1..], b, stops);
    } else {
      assert a + b == b;
    }
  }

  /**
   * `review_to_words(raw_review)`: `getText` is the HTML text extraction and
   * `stops` the stopword set.
   */
  function ReviewToWords(rawReview: string, getText: string -> string, stops: set<string>): string
  {
    Join(RemoveStopwords(Words(Lower(Letters(getText(rawReview), " "))), stops), " ")
  }

  lemma AllWordsRemoveStopwords(words: seq<string>, stops: set<string>)
    requires AllWords(words)
    ensures AllWords(RemoveStopwords(words, stops))
  {
    var kept := RemoveStopwords(words, stops);
    forall i | 0 <= i < |kept| ensures IsWord(kept[i]) {
      assert kept[i] in words;
    }
  }

  lemma {:induction false} LowerTextOfJoin(ws: seq<string>)
    requires forall k :: 0 <= k < |ws| ==> LowerText(ws[k])
    ensures LowerText(Join(ws, " "))
  {
    if |ws| > 1 {
      LowerTextOfJoin(ws[1..]);
    }
  }

  /**
   * The result is the lower-cased ASCII-letter runs of the extracted text, in
   * order, with the stopwords removed, joined by single spaces.
   */
  lemma ReviewToWordsIsFilteredRuns(rawReview: string, getText: string -> string, stops: set<string>)
    ensures ReviewToWords(rawReview, getText, stops) == Join(RemoveStopwords(LowerAll(LetterRuns(getText(rawReview))), stops), " ")
  {
    var text := getText(rawReview);
    WordsOfLetters(text);
    WordsOfLower(Letters(text, " "));
  }

  /** The words kept from the review: its lower-cased letter runs, stopwords removed. */
  function KeptWords(rawReview: string, getText: string -> string, stops: set<string>): seq<string>
  {
    RemoveStopwords(LowerAll(LetterRuns(getText(rawReview))), stops)
  }

  lemma KeptWordsShape(rawReview: string, getText: string -> string, stops: set<string>)
    ensures AllWords(KeptWords(rawReview, getText, stops))
    ensures forall k :: 0 <= k < |KeptWords(rawReview, getText, stops)| ==> LowerText(KeptWords(rawReview, getText, stops)[k])
  {
    var runs := LowerAll(LetterRuns(getText(rawReview)));
    var kept := RemoveStopwords(runs, stops);
    LowerRunsAreWords(LetterRuns(getText(rawReview)));
    AllWordsRemoveStopwords(runs, stops);
    forall k | 0 <= k < |kept| ensures LowerText(kept[k]) {
      var j :| 0 <= j < |runs| && runs[j] == kept[k];
      assert IsLetterRun(LetterRuns(getText(rawReview))[j]);
    }
  }

  /** No word of the result is a stopword. */
  lemma ReviewToWordsNoStopword(rawReview: string, getText: string -> string, stops: set<string>)
    ensures forall w :: w in Words(ReviewToWords(rawReview, getText, stops)) ==> w !in stops
  {
    ReviewToWordsIsFilteredRuns(rawReview, getText, stops);
    KeptWordsShape(rawReview, getText, stops);
    JoinWords(KeptWords(rawReview, getText, stops));
  }

  /** The words of the result are single-spaced, with no leading or trailing space. */
  lemma ReviewToWordsSingleSpaced(rawReview: string, getText: string -> string, stops: set<string>)
    ensures SingleSpaced(ReviewToWords(rawReview, getText, stops))
  {
    ReviewToWordsIsFilteredRuns(rawReview, getText, stops);
    KeptWordsShape(rawReview, getText, stops);
    JoinWords(KeptWords(rawReview, getText, stops));
  }

  /** Only lower-case letters and spaces occur in the result. */
  lemma ReviewToWordsLowerText(rawReview: string, getText: string -> string, stops: set<string>)
    ensures LowerText(ReviewToWords(rawReview, getText, stops))
  {
    ReviewToWordsIsFilteredRuns(rawReview, getText, stops);
    KeptWordsShape(rawReview, getText, stops);
    LowerTextOfJoin(KeptWords(rawReview, getText, stops));
  }

  /** With no stopwords, `review_to_words` is `ready_text_for_pred` of the extracted text. */
  lemma ReviewToWordsWithoutStops(rawReview: string, getText: string -> string)
    ensures ReviewToWords(rawReview, getText, {}) == ReadyTextForPred(getText(rawReview))
  {
    var runs := LowerAll(LetterRuns(getText(rawReview)));
    ReviewToWordsIsFilteredRuns(rawReview, getText, {});
    NoStopwordsKeepsAll(runs);
    ReadyTextIsJoinedRuns(getText(rawReview));
  }

  lemma {:induction false} NoStopwordsKeepsAll(words: seq<string>)
    ensures RemoveStopwords(words, {}) == words
  {
    if words != [] {
      NoStopwordsKeepsAll(words[1..]);
    }
  }

  // ---------------------------------------------------------------------------
  // clean_data: pd.read_csv, dropna, reset_index, then a "preprocessed" column

  /** A CSV table after `read_csv`: named columns, each row a cell per column, `None` for a missing cell. */
  datatype Table = Table(columns: seq<string>, rows: seq<map<string, Option<string>>>)

  predicate WellFormed(t: Table) {
    forall r :: 0 <= r < |t.rows| ==> t.rows[r].Keys == set c | c in t.columns
  }

  predicate Complete(row: map<string, Option<string>>) {
    forall c :: c in row ==> row[c].Some?
  }

  /** `DataFrame.dropna()` followed by `reset_index(drop=True)`: the complete rows, in order. */
  function DropIncomplete(rows: seq<map<string, Option<string>>>): (kept: seq<map<string, Option<string>>>)
    ensures |kept| <= |rows|
    ensures forall i :: 0 <= i < |kept| ==> Complete(kept[i]) && kept[i] in rows
    ensures forall row :: row in rows && Complete(row) ==> row in kept
  {
    if rows == [] then []
    else (if Complete(rows[0]) then [rows[0]] else []) + DropIncomplete(rows[1..])
  }

  datatype CleanError = KeyError(column: string)

  const ReviewTextColumn: string := "reviewText"
  const PreprocessedColumn: string := "preprocessed"

  /** The columns after `df['preprocessed'] = ...`: a new column goes last, an existing one keeps its place. */
  function WithColumn(columns: seq<string>, name: string): seq<string>
  {
    if name in columns then columns else columns + [name]
  }

  /**
   * `clean_data(filepath)` after reading the file: incomplete rows are dropped and
   * every remaining row gets its review text cleaned into the "preprocessed"
   * column; a table without a "reviewText" column fails with `KeyError`.
   */
  function CleanData(table: Table, getText: string -> string, stops: set<string>): (r: Result<Table, CleanError>)
    requires WellFormed(table)
    ensures r.Failure? <==> ReviewTextColumn !in table.columns
    ensures r.Success? ==> r.value.columns == WithColumn(table.columns, PreprocessedColumn)
    ensures r.Success? ==> |r.value.rows| == |DropIncomplete(table.rows)|
    ensures r.Success? ==> forall i :: 0 <= i < |r.value.rows| ==>
      var src := DropIncomplete(table.rows)[i];
      ReviewTextColumn in src &&
      r.value.rows[i] == src[PreprocessedColumn := Some(ReviewToWords(src[ReviewTextColumn].value, getText, stops))]
  {
    if ReviewTextColumn !in table.columns then Failure(KeyError(ReviewTextColumn))
    else
      var kept := DropIncomplete(table.rows);
      assert forall i :: 0 <= i < |kept| ==> ReviewTextColumn in kept[i] by {
        forall i | 0 <= i < |kept| ensures ReviewTextColumn in kept[i] {
          var j :| 0 <= j < |table.rows| && table.rows[j] == kept[i];
        }
      }
      Success(Table(WithColumn(table.columns, PreprocessedColumn),
        seq(|kept|, i requires 0 <= i < |kept| =>
          kept[i][PreprocessedColumn := Some(ReviewToWords(kept[i][ReviewTextColumn].value, getText, stops))])))
  }

  /** The cleaned table is again well formed and has no missing cell. */
  lemma CleanDataWellFormed(table: Table, getText: string -> string, stops: set<string>)
    requires WellFormed(table)
    requires CleanData(table, getText, stops).Success?
    ensures WellFormed(CleanData(table, getText, stops).value)
    ensures forall i :: 0 <= i < |CleanData(table, getText, stops).value.rows| ==> Complete(CleanData(table, getText, stops).value.rows[i])
  {
    var out := CleanData(table, getText, stops).value;
    var kept := DropIncomplete(table.rows);
    forall i | 0 <= i < |out.rows|
      ensures out.rows[i].Keys == set c | c in out.columns
      ensures Complete(out.rows[i])
    {
      var j :| 0 <= j < |table.rows| && table.rows[j] == kept[i];
      assert kept[i].Keys == set c | c in table.columns;
    }
  }

  // ---------------------------------------------------------------------------
  // words_in_corpus

  /** Every token `t.split(' ')` yields, over all texts (the empty token included). */
  function CorpusTokens(texts: seq<string>): set<string>
  {
    set t, w | t in texts && w in SplitOn(t, ' ') :: w
  }

  function CorpusMessage(n: nat): string
  {
    "number of words in the corpus " + NatToString(n)
  }

  /** `words_in_corpus(clean_text)`: the union of each text's tokens, then its size in a message. */
  method WordsInCorpus(cleanText: seq<string>) returns (msg: string)
    ensures msg == CorpusMessage(|CorpusTokens(cleanText)|)
  {
    var wordsSet: set<string> := {};
    for i := 0 to |cleanText|
      invariant wordsSet == CorpusTokens(cleanText[..i])
    {
      var words := SplitOn(cleanText[i], ' ');
      wordsSet := wordsSet + (set w | w in words);
      assert cleanText[..i + 1] == cleanText[..i] + [cleanText[i]];
    }
    assert cleanText[..|cleanText|] == cleanText;
    msg := CorpusMessage(|wordsSet|);
  }

  /** The count does not depend on the order (or repetition) of the texts. */
  lemma CorpusTokensOrderFree(a: seq<string>, b: seq<string>)
    requires forall t :: t in a <==> t in b
    ensures |CorpusTokens(a)| == |CorpusTokens(b)|
  {
    assert CorpusTokens(a) == CorpusTokens(b);
  }

  /** The count is at least the number of distinct tokens of any one text. */
  lemma CorpusTokensCoverEachText(texts: seq<string>, i: nat)
    requires i < |texts|
    ensures (set w | w in SplitOn(texts[i], ' ')) <= CorpusTokens(texts)
    ensures |set w | w in SplitOn(texts[i], ' ')| <= |CorpusTokens(texts)|
  {
    var own := set w | w in SplitOn(texts[i], ' ');
    assert own <= CorpusTokens(texts);
    SubsetCardinality(own, CorpusTokens(texts));
  }

  lemma {:induction false} SubsetCardinality<T>(a: set<T>, b: set<T>)
    requires a <= b
    ensures |a| <= |b|
    decreases |b|
  {
    if a != {} {
      var x :| x in a;
      SubsetCardinality(a - {x}, b - {x});
    }
  }

  /** The empty token counts: an empty text contributes the token "". */
  lemma CorpusCountsEmptyToken(texts: seq<string>, i: nat)
    requires i < |texts| && texts[i] == ""
    ensures "" in CorpusTokens(texts)
  {
    assert SplitOn(texts[i], ' ') == [""];
    assert "" in SplitOn(texts[i], ' ');
  }
}

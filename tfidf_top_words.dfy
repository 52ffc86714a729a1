/**
 * The "hottest words" classes: `CleanData` cleans a series of review texts in
 * place, and `TfIdf` picks each document's top TF-IDF words and spreads them
 * over five columns. Scores are an abstract type with a strict total order
 * `lt` and a zero; the TF-IDF fit itself is an input.
 */
module TfidfTopWords {
  import opened Wrappers
  import opened Strings
  import opened TfidfFunctions

  /** `lt` is a strict total order: irreflexive, transitive and total. */
  ghost predicate StrictTotalOrder<S(!new)>(lt: (S, S) -> bool) {
    (forall a :: !lt(a, a))
    && (forall a, b, c {:trigger lt(a, b), lt(b, c), lt(a, c)} :: lt(a, b) && lt(b, c) ==> lt(a, c))
    && (forall a, b :: a != b ==> lt(a, b) || lt(b, a))
  }

  /**
   * Column `i` comes before column `j` in `nlargest` order: a higher score, or
   * the same score and an earlier column (`keep='first'`).
   */
  predicate Before<S>(row: seq<S>, lt: (S, S) -> bool, i: nat, j: nat)
    requires i < |row| && j < |row|
  {
    lt(row[j], row[i]) || (!lt(row[i], row[j]) && i < j)
  }

  predicate Increasing(xs: seq<nat>) {
    forall a, b :: 0 <= a < b < |xs| ==> xs[a] < xs[b]
  }

  predicate InRange<S>(row: seq<S>, xs: seq<nat>) {
    forall k :: 0 <= k < |xs| ==> xs[k] < |row|
  }

  /** `row[row > 0]`: the columns with a positive score, in column order. */
  function PositiveFrom<S>(row: seq<S>, lt: (S, S) -> bool, zero: S, from: nat): (cols: seq<nat>)
    ensures Increasing(cols) && InRange(row, cols)
    ensures forall k :: k in cols <==> from <= k < |row| && lt(zero, row[k])
    decreases |row| - from
  {
    if from >= |row| then []
    else
      var rest := PositiveFrom(row, lt, zero, from + 1);
      if lt(zero, row[from]) then IncreasingCons(from, rest); [from] + rest else rest
  }

  lemma IncreasingCons(x: nat, xs: seq<nat>)
    requires Increasing(xs) && forall k :: k in xs ==> x < k
    ensures Increasing([x] + xs)
  {
    forall a, b | 0 <= a < b < |[x] + xs| ensures ([x] + xs)[a] < ([x] + xs)[b] {
      assert ([x] + xs)[b] == xs[b - 1] && xs[b - 1] in xs;
      if a > 0 { assert ([x] + xs)[a] == xs[a - 1]; }
    }
  }

  /** The first column of `cands` in `Before` order. */
  function FirstMax<S(!new)>(row: seq<S>, lt: (S, S) -> bool, cands: seq<nat>): (m: nat)
    requires StrictTotalOrder(lt)
    requires cands != [] && InRange(row, cands) && Increasing(cands)
    ensures m in cands
    ensures forall k :: 0 <= k < |cands| && cands[k] != m ==> Before(row, lt, m, cands[k])
  {
    if |cands| == 1 then cands[0]
    else
      var rest := FirstMax(row, lt, cands[1..]);
      assert cands[0] != rest;
      if Before(row, lt, cands[0], rest) then cands[0] else rest
  }

  /** `cands` without `m`. */
  function Without(cands: seq<nat>, m: nat): (r: seq<nat>)
    ensures forall k :: k in r <==> k in cands && k != m
    ensures Increasing(cands) ==> Increasing(r)
  {
    if cands == [] then []
    else if cands[0] == m then Without(cands[1..], m)
    else
      var rest := Without(cands[1..], m);
      assert Increasing(cands) ==> forall k :: k in rest ==> cands[0] < k;
      if Increasing(cands) then IncreasingCons(cands[0], rest); [cands[0]] + rest
      else [cands[0]] + rest
  }

  lemma {:induction false} WithoutAbsent(cands: seq<nat>, m: nat)
    requires m !in cands
    ensures Without(cands, m) == cands
  {
    if cands != [] {
      WithoutAbsent(cands[1..], m);
    }
  }

  lemma WithoutLength(cands: seq<nat>, m: nat)
    requires Increasing(cands) && m in cands
    ensures |Without(cands, m)| == |cands| - 1
  {
    var i :| 0 <= i < |cands| && cands[i] == m;
    WithoutPrefix(cands, m, i);
  }

  lemma {:induction false} WithoutPrefix(cands: seq<nat>, m: nat, i: nat)
    requires Increasing(cands) && i < |cands| && cands[i] == m
    ensures |Without(cands, m)| == |cands| - 1
  {
    if i == 0 {
      assert m !in cands[1..];
      WithoutAbsent(cands[1..], m);
    } else {
      WithoutPrefix(cands[1..], m, i - 1);
    }
  }

  /** `Without(cands, m)`, with the facts `TopN` needs to recurse. */
  function WithoutInRange<S>(row: seq<S>, cands: seq<nat>, m: nat): (rest: seq<nat>)
    requires InRange(row, cands) && Increasing(cands) && m in cands
    ensures rest == Without(cands, m)
    ensures InRange(row, rest) && Increasing(rest) && |rest| == |cands| - 1
  {
    var rest := Without(cands, m);
    WithoutLength(cands, m);
    assert InRange(row, rest) by {
      forall k | 0 <= k < |rest| ensures rest[k] < |row| {
        assert rest[k] in cands;
      }
    }
    rest
  }

  /** The first maximum comes before every other candidate. */
  lemma FirstMaxBeforeRest<S(!new)>(row: seq<S>, lt: (S, S) -> bool, cands: seq<nat>)
    requires StrictTotalOrder(lt)
    requires cands != [] && InRange(row, cands) && Increasing(cands)
    ensures var m := FirstMax(row, lt, cands);
      m < |row| && forall c :: c in Without(cands, m) ==> c < |row| && Before(row, lt, m, c)
  {
    var m := FirstMax(row, lt, cands);
    forall c | c in Without(cands, m) ensures c < |row| && Before(row, lt, m, c) {
      var k :| 0 <= k < |cands| && cands[k] == c;
    }
  }

  /** `top` is in `Before` order. */
  predicate Ordered<S>(row: seq<S>, lt: (S, S) -> bool, top: seq<nat>) {
    InRange(row, top) && forall a, b :: 0 <= a < b < |top| ==> Before(row, lt, top[a], top[b])
  }

  /** Every column of `top` comes before column `c`. */
  predicate AllBefore<S>(row: seq<S>, lt: (S, S) -> bool, top: seq<nat>, c: nat) {
    c < |row| && InRange(row, top) && forall a :: 0 <= a < |top| ==> Before(row, lt, top[a], c)
  }

  lemma OrderedCons<S>(row: seq<S>, lt: (S, S) -> bool, m: nat, tail: seq<nat>)
    requires Ordered(row, lt, tail) && m < |row|
    requires forall x :: x in tail ==> x < |row| && Before(row, lt, m, x)
    ensures Ordered(row, lt, [m] + tail)
  {
    var top := [m] + tail;
    forall a, b | 0 <= a < b < |top| ensures Before(row, lt, top[a], top[b]) {
      assert top[b] == tail[b - 1] && tail[b - 1] in tail;
      if a > 0 { assert top[a] == tail[a - 1]; }
    }
  }

  lemma AllBeforeCons<S>(row: seq<S>, lt: (S, S) -> bool, m: nat, tail: seq<nat>, c: nat)
    requires AllBefore(row, lt, tail, c) && m < |row| && Before(row, lt, m, c)
    ensures AllBefore(row, lt, [m] + tail, c)
  {
    var top := [m] + tail;
    forall a | 0 <= a < |top| ensures top[a] < |row| && Before(row, lt, top[a], c) {
      if a > 0 { assert top[a] == tail[a - 1]; }
    }
  }

  /** Every candidate that `top` leaves out comes after all of `top`. */
  predicate LeftOutAfter<S>(row: seq<S>, lt: (S, S) -> bool, cands: seq<nat>, top: seq<nat>) {
    forall c :: c in cands && c !in top ==> AllBefore(row, lt, top, c)
  }

  /** One selection step: the first maximum followed by a selection from the rest. */
  lemma SelectionStep<S>(row: seq<S>, lt: (S, S) -> bool, cands: seq<nat>, m: nat, rest: seq<nat>, tail: seq<nat>)
    requires m < |row| && m in cands
    requires forall c :: c in rest <==> c in cands && c != m
    requires forall c :: c in rest ==> c < |row| && Before(row, lt, m, c)
    requires forall x :: x in tail ==> x in rest
    requires Ordered(row, lt, tail) && LeftOutAfter(row, lt, rest, tail)
    ensures forall x :: x in [m] + tail ==> x in cands
    ensures Ordered(row, lt, [m] + tail) && LeftOutAfter(row, lt, cands, [m] + tail)
  {
    OrderedCons(row, lt, m, tail);
    forall c | c in cands && c !in [m] + tail ensures AllBefore(row, lt, [m] + tail, c) {
      AllBeforeCons(row, lt, m, tail, c);
    }
  }

  /**
   * `nlargest(n)` over the candidate columns: repeatedly the first remaining
   * maximum. The result has `min(n, |cands|)` candidates in `Before` order, and
   * every candidate left out comes after all of them.
   */
  function TopN<S(!new)>(row: seq<S>, lt: (S, S) -> bool, cands: seq<nat>, n: nat): (top: seq<nat>)
    requires StrictTotalOrder(lt)
    requires InRange(row, cands) && Increasing(cands)
    ensures |top| == if n < |cands| then n else |cands|
    ensures forall x :: x in top ==> x in cands
    ensures Ordered(row, lt, top) && LeftOutAfter(row, lt, cands, top)
    decreases n
  {
    if n == 0 || cands == [] then
      assert LeftOutAfter(row, lt, cands, []) by {
        forall c | c in cands ensures c < |row| {
          var k :| 0 <= k < |cands| && cands[k] == c;
        }
      }
      []
    else
      var m := FirstMax(row, lt, cands);
      var rest := WithoutInRange(row, cands, m);
      var tail := TopN(row, lt, rest, n - 1);
      FirstMaxBeforeRest(row, lt, cands);
      SelectionStep(row, lt, cands, m, rest, tail);
      [m] + tail
  }

  /**
   * `get_top_words(row, n)`: the labels of the `n` largest positive scores,
   * highest first, ties in column order; `n <= 0` gives no labels.
   */
  function GetTopWords<S(!new)>(row: seq<S>, labels: seq<string>, lt: (S, S) -> bool, zero: S, n: int := 5): seq<string>
    requires StrictTotalOrder(lt) && |labels| == |row|
  {
    var top := TopN(row, lt, PositiveFrom(row, lt, zero, 0), if n <= 0 then 0 else n);
    seq(|top|, a requires 0 <= a < |top| => labels[top[a]])
  }

  /** The columns `get_top_words` picks. */
  function TopColumns<S(!new)>(row: seq<S>, lt: (S, S) -> bool, zero: S, n: int): seq<nat>
    requires StrictTotalOrder(lt)
  {
    TopN(row, lt, PositiveFrom(row, lt, zero, 0), if n <= 0 then 0 else n)
  }

  /** The number of columns with a positive score. */
  function PositiveCount<S>(row: seq<S>, lt: (S, S) -> bool, zero: S): nat
  {
    |PositiveFrom(row, lt, zero, 0)|
  }

  /** `get_top_words` returns the labels of `TopColumns`, in that order. */
  lemma GetTopWordsLabels<S(!new)>(row: seq<S>, labels: seq<string>, lt: (S, S) -> bool, zero: S, n: int)
    requires StrictTotalOrder(lt) && |labels| == |row|
    ensures var top := TopColumns(row, lt, zero, n);
      |GetTopWords(row, labels, lt, zero, n)| == |top|
      && forall a :: 0 <= a < |top| ==> top[a] < |row| && GetTopWords(row, labels, lt, zero, n)[a] == labels[top[a]]
  {
    var top := TopColumns(row, lt, zero, n);
    forall a | 0 <= a < |top| ensures top[a] < |row| {
      assert top[a] in PositiveFrom(row, lt, zero, 0);
    }
  }

  /**
   * At most `n` columns are picked, and all positive columns when fewer than
   * `n` are positive; every picked column has a positive score.
   */
  lemma TopColumnsPositive<S(!new)>(row: seq<S>, lt: (S, S) -> bool, zero: S, n: int)
    requires StrictTotalOrder(lt)
    ensures var top := TopColumns(row, lt, zero, n);
      |top| == (if n <= 0 then 0 else if n < PositiveCount(row, lt, zero) then n else PositiveCount(row, lt, zero))
      && forall a :: 0 <= a < |top| ==> top[a] < |row| && lt(zero, row[top[a]])
  {
    var top := TopColumns(row, lt, zero, n);
    forall a | 0 <= a < |top| ensures top[a] < |row| && lt(zero, row[top[a]]) {
      assert top[a] in PositiveFrom(row, lt, zero, 0);
    }
  }

  lemma Asymmetric<S(!new)>(lt: (S, S) -> bool, x: S, y: S)
    requires StrictTotalOrder(lt) && lt(x, y)
    ensures !lt(y, x)
  {
    assert !lt(x, x);
  }

  /** What `Before` says about the scores: no lower, and an earlier column when equal. */
  lemma BeforeScores<S(!new)>(row: seq<S>, lt: (S, S) -> bool, i: nat, j: nat)
    requires StrictTotalOrder(lt) && i < |row| && j < |row| && Before(row, lt, i, j)
    ensures !lt(row[i], row[j]) && (row[i] == row[j] ==> i < j)
  {
    if lt(row[j], row[i]) {
      Asymmetric(lt, row[j], row[i]);
    }
  }

  /** The picked columns come highest score first, ties in column order. */
  lemma TopColumnsOrdered<S(!new)>(row: seq<S>, lt: (S, S) -> bool, zero: S, n: int)
    requires StrictTotalOrder(lt)
    ensures var top := TopColumns(row, lt, zero, n);
      forall a, b :: 0 <= a < b < |top| ==>
        (top[a] < |row| && top[b] < |row|
         && !lt(row[top[a]], row[top[b]]) && (row[top[a]] == row[top[b]] ==> top[a] < top[b]))
  {
    var top := TopColumns(row, lt, zero, n);
    TopColumnsPositive(row, lt, zero, n);
    assert Ordered(row, lt, top);
    forall a, b | 0 <= a < b < |top|
      ensures !lt(row[top[a]], row[top[b]]) && (row[top[a]] == row[top[b]] ==> top[a] < top[b])
    {
      BeforeScores(row, lt, top[a], top[b]);
    }
  }

  /**
   * No positive column that was left out beats a picked one: its score is no
   * higher, and when equal the picked column comes first.
   */
  lemma TopColumnsLeftOut<S(!new)>(row: seq<S>, lt: (S, S) -> bool, zero: S, n: int)
    requires StrictTotalOrder(lt)
    ensures var top := TopColumns(row, lt, zero, n);
      forall c, a :: 0 <= c < |row| && lt(zero, row[c]) && c !in top && 0 <= a < |top| ==>
        top[a] < |row| && !lt(row[top[a]], row[c]) && (row[top[a]] == row[c] ==> top[a] < c)
  {
    var top := TopColumns(row, lt, zero, n);
    TopColumnsPositive(row, lt, zero, n);
    assert LeftOutAfter(row, lt, PositiveFrom(row, lt, zero, 0), top);
    forall c, a | 0 <= c < |row| && lt(zero, row[c]) && c !in top && 0 <= a < |top|
      ensures !lt(row[top[a]], row[c]) && (row[top[a]] == row[c] ==> top[a] < c)
    {
      assert c in PositiveFrom(row, lt, zero, 0);
      assert AllBefore(row, lt, top, c);
      BeforeScores(row, lt, top[a], c);
    }
  }

  // ---------------------------------------------------------------------------
  // hottest_word

  datatype Column = Column(name: string, values: seq<Option<string>>)

  const TopWordColumns: nat := 5

  function ColumnName(k: nat): string
    requires k < TopWordColumns
  {
    "hottest_word_" + [DigitChar(k + 1)]
  }

  /** `top_words.apply(lambda x: x[k] if len(x) > k else None)`. */
  function Pad(tops: seq<seq<string>>, k: nat): (values: seq<Option<string>>)
    ensures |values| == |tops|
    ensures forall r :: 0 <= r < |tops| ==> values[r] == if k < |tops[r]| then Some(tops[r][k]) else None
  {
    seq(|tops|, r requires 0 <= r < |tops| => if k < |tops[r]| then Some(tops[r][k]) else None)
  }

  /** The table `hottest_word` builds: five columns, column `k` holding each document's `k`-th top word. */
  function HottestWordTable(tops: seq<seq<string>>): (table: seq<Column>)
    ensures |table| == TopWordColumns
    ensures forall k :: 0 <= k < TopWordColumns ==> table[k] == Column(ColumnName(k), Pad(tops, k))
  {
    seq(TopWordColumns, k requires 0 <= k < TopWordColumns => Column(ColumnName(k), Pad(tops, k)))
  }

  /** The words of document `r` read back from the table, left to right, up to the first empty cell. */
  function ReadRow(table: seq<Column>, r: nat, k: nat): seq<string>
    requires forall j :: 0 <= j < |table| ==> r < |table[j].values|
    decreases |table| - k
  {
    if k >= |table| || table[k].values[r].None? then []
    else [table[k].values[r].value] + ReadRow(table, r, k + 1)
  }

  /**
   * The padding loses nothing for documents with at most five top words: the
   * row read back from the table is the document's word list.
   */
  lemma {:induction false} HottestWordRoundTrip(tops: seq<seq<string>>, r: nat, k: nat)
    requires r < |tops| && |tops[r]| <= TopWordColumns && k <= |tops[r]|
    ensures ReadRow(HottestWordTable(tops), r, k) == tops[r][k..]
    decreases TopWordColumns - k
  {
    var table := HottestWordTable(tops);
    if k < |tops[r]| {
      HottestWordRoundTrip(tops, r, k + 1);
      assert tops[r][k..] == [tops[r][k]] + tops[r][k + 1..];
    } else if k < TopWordColumns {
      assert table[k].values[r].None?;
    }
  }

  /** A document with more than five top words keeps its first five. */
  lemma HottestWordKeepsFirstFive(tops: seq<seq<string>>, r: nat)
    requires r < |tops| && |tops[r]| > TopWordColumns
    ensures forall k :: 0 <= k < TopWordColumns ==> HottestWordTable(tops)[k].values[r] == Some(tops[r][k])
  {
  }

  // ---------------------------------------------------------------------------
  // The classes

  class CleanData {
    /** The series of raw review texts; `None` is a missing value. */
    var df: seq<Option<string>>

    constructor (df: seq<Option<string>>)
      ensures this.df == df
    {
      this.df := df;
    }

    /**
     * `clean_data()`: `self.df` becomes the non-missing texts, re-indexed, and the
     * result is one cleaned string per remaining text, in order.
     */
    method Clean(getText: string -> string, stops: set<string>) returns (cleanText: seq<string>)
      modifies this
      ensures df == NonMissing(old(df))
      ensures |cleanText| == |df|
      ensures forall i :: 0 <= i < |df| ==> df[i].Some? && cleanText[i] == ReviewToWords(df[i].value, getText, stops)
    {
      var kept := NonMissing(df);
      df := kept;
      cleanText := seq(|kept|, i requires 0 <= i < |kept| => ReviewToWords(kept[i].value, getText, stops));
    }
  }

  /** `Series.dropna()` then `reset_index(drop=True)`. */
  function NonMissing(xs: seq<Option<string>>): (r: seq<Option<string>>)
    ensures |r| <= |xs|
    ensures forall i :: 0 <= i < |r| ==> r[i].Some? && r[i] in xs
    ensures forall x :: x in xs && x.Some? ==> x in r
  {
    if xs == [] then []
    else (if xs[0].Some? then [xs[0]] else []) + NonMissing(xs[1..])
  }

  lemma {:induction false} NonMissingOfPresent(xs: seq<Option<string>>)
    requires forall i :: 0 <= i < |xs| ==> xs[i].Some?
    ensures NonMissing(xs) == xs
  {
    if xs != [] {
      NonMissingOfPresent(xs[1..]);
    }
  }

  /** Cleaning the series a second time removes nothing more. */
  lemma NonMissingIdempotent(xs: seq<Option<string>>)
    ensures NonMissing(NonMissing(xs)) == NonMissing(xs)
  {
    NonMissingOfPresent(NonMissing(xs));
  }

  class TfIdf {
    var df: seq<Option<string>>
    const nRange: int

    constructor (df: seq<Option<string>>, nRange: int)
      ensures this.df == df && this.nRange == nRange
    {
      this.df := df;
      this.nRange := nRange;
    }

    /**
     * `hottest_word()`, given what `tf_idf_model()` returns: a dense score
     * matrix with one row per cleaned document and the feature names as
     * column labels. Fitting on `clean_data()` rebinds `self.df` to its
     * non-missing texts, so the table has one row per such text.
     */
    method HottestWord<S(!new)>(dense: seq<seq<S>>, featureNames: seq<string>, lt: (S, S) -> bool, zero: S)
      returns (table: seq<Column>)
      modifies this
      requires StrictTotalOrder(lt)
      requires |dense| == |NonMissing(df)|
      requires forall d :: 0 <= d < |dense| ==> |dense[d]| == |featureNames|
      ensures df == NonMissing(old(df))
      ensures table == HottestWordTable(seq(|dense|, d requires 0 <= d < |dense| => GetTopWords(dense[d], featureNames, lt, zero)))
      ensures forall k :: 0 <= k < |table| ==> |table[k].values| == |df|
    {
      df := NonMissing(df);
      var topWords := seq(|dense|, d requires 0 <= d < |dense| => GetTopWords(dense[d], featureNames, lt, zero));
      table := [];
      table := table + [Column(ColumnName(0), Pad(topWords, 0))];
      table := table + [Column(ColumnName(1), Pad(topWords, 1))];
      table := table + [Column(ColumnName(2), Pad(topWords, 2))];
      table := table + [Column(ColumnName(3), Pad(topWords, 3))];
      table := table + [Column(ColumnName(4), Pad(topWords, 4))];
    }
  }
}

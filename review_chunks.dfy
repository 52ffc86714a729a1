/**
 * A chunk of the Amazon reviews file, as both review pipelines see it: the
 * column names and the rows, each row with its index label, its star rating
 * (column "overall"), its text (column "reviewText", `None` when null) and
 * the cells of its other columns ("asin", "summary", ...).
 * The row filters, the selection of rows to drop by undersampling, and the
 * text transformations shared by `amazon_reviews_transform` and
 * `AmazonReviewsExtractor` are defined here once.
 */
module ReviewChunks {
  import opened Wrappers
  import opened Strings

  /** One row: its label, its rating, its text, and its other cells by column name (`None` when null). */
  datatype Row = Row(index: int, rating: int, text: Option<string>, others: map<string, Option<string>>)

  /**
   * A frame: `columns` names the cells of each row that are in the frame, so
   * selecting columns changes `columns` and leaves the rows' cells as they are.
   */
  datatype Chunk = Chunk(columns: seq<string>, rows: seq<Row>)

  /** What the pipelines raise, by the failing step. */
  datatype ChunkError =
    | MissingColumn(name: string)     // KeyError: a column that is not in the frame
    | MissingRating(rating: int)      // KeyError: `value_counts()[r]` for a rating that does not occur
    | UnboundIndex                    // UnboundLocalError: equal counts leave `index` unassigned
    | NullText                        // AttributeError: `x.split()` on a null text
    | EmptyFrame                      // IndexError: `df.index[0]` of a frame without rows
    | NoFileName                      // IndexError: `path.parts[-1]` of a path without parts
    | ColumnsMissing                  // AssertionError: the rating or the text column is absent
    | SeriesHasNoSplit                // AttributeError: `x.split` on a whole column
    | FloatSampleSize                 // TypeError: `choice(size=...)` given a float
    | StopIteration                   // the reader has no chunk left
    | NotImplemented                  // NotImplementedError

  const RatingColumn: string := "overall"
  const TextColumn: string := "reviewText"
  const DateColumn: string := "unixReviewTime"

  const Positive: set<int> := {4, 5}
  const Negative: set<int> := {1, 2}
  const Neutral: set<int> := {3}

  // ---------------------------------------------------------------------------
  // Counting by rating

  /** `df.query(...)`: the rows whose rating is in `cls`, in order. */
  function OfClass(rows: seq<Row>, cls: set<int>): (r: seq<Row>)
    ensures |r| <= |rows|
    ensures forall x :: x in r <==> x in rows && x.rating in cls
  {
    if rows == [] then []
    else (if rows[0].rating in cls then [rows[0]] else []) + OfClass(rows[1..], cls)
  }

  /** The number of rows whose rating is in `cls`; `value_counts()[r]` is `CountIn(rows, {r})`. */
  function CountIn(rows: seq<Row>, cls: set<int>): (n: nat)
    ensures n <= |rows|
  {
    if rows == [] then 0 else (if rows[0].rating in cls then 1 else 0) + CountIn(rows[1..], cls)
  }

  lemma CountInCons(x: Row, rest: seq<Row>, cls: set<int>)
    ensures CountIn([x] + rest, cls) == (if x.rating in cls then 1 else 0) + CountIn(rest, cls)
    ensures OfClass([x] + rest, cls) == (if x.rating in cls then [x] else []) + OfClass(rest, cls)
  {
    assert ([x] + rest)[1..] == rest;
  }

  /** Counts over two disjoint rating sets add up. */
  lemma {:induction false} CountUnion(rows: seq<Row>, a: set<int>, b: set<int>)
    requires a * b == {}
    ensures CountIn(rows, a) + CountIn(rows, b) == CountIn(rows, a + b)
  {
    if rows != [] {
      CountUnion(rows[1..], a, b);
      var x := rows[0].rating;
      assert x !in a * b;
      assert x in a + b <==> x in a || x in b;
    }
  }

  /** The larger of the positive and the negative class, and by how much it is larger. */
  function Larger(rows: seq<Row>): set<int>
  {
    if CountIn(rows, Positive) > CountIn(rows, Negative) then Positive else Negative
  }

  function Gap(rows: seq<Row>): nat
  {
    if CountIn(rows, Positive) > CountIn(rows, Negative) then CountIn(rows, Positive) - CountIn(rows, Negative)
    else CountIn(rows, Negative) - CountIn(rows, Positive)
  }

  // ---------------------------------------------------------------------------
  // Choosing rows: `choice(a=<labels of a class>, size=k, replace=False)`

  /** The number of marked positions. */
  function CountTrue(mask: seq<bool>): (n: nat)
    ensures n <= |mask|
  {
    if mask == [] then 0 else (if mask[0] then 1 else 0) + CountTrue(mask[1..])
  }

  /** `mask` marks only rows of `cls`: a choice of distinct rows from that class. */
  predicate Marks(rows: seq<Row>, mask: seq<bool>, cls: set<int>) {
    |mask| == |rows| && forall i :: 0 <= i < |rows| && mask[i] ==> rows[i].rating in cls
  }

  /** A choice of exactly `k` distinct rows of class `cls`, as `replace=False` draws. */
  predicate Draw(rows: seq<Row>, mask: seq<bool>, cls: set<int>, k: nat) {
    Marks(rows, mask, cls) && CountTrue(mask) == k
  }

  /** The labels of the chosen rows: the `index` array handed to `drop`. */
  function ChosenLabels(rows: seq<Row>, mask: seq<bool>): set<int>
  {
    set i | 0 <= i < |rows| && i < |mask| && mask[i] :: rows[i].index
  }

  /** `df.drop(index=labels)`: every row whose index is among `labels` goes. */
  function DropLabels(rows: seq<Row>, labels: set<int>): (r: seq<Row>)
    ensures |r| <= |rows|
    ensures forall x :: x in r <==> x in rows && x.index !in labels
  {
    if rows == [] then []
    else (if rows[0].index in labels then [] else [rows[0]]) + DropLabels(rows[1..], labels)
  }

  /** The rows not chosen, in order. */
  function Unchosen(rows: seq<Row>, mask: seq<bool>): (r: seq<Row>)
    requires |mask| == |rows|
    ensures |r| == |rows| - CountTrue(mask)
  {
    if rows == [] then []
    else (if mask[0] then [] else [rows[0]]) + Unchosen(rows[1..], mask[1..])
  }

  /** Index labels are unique, as the reader's running row numbers are. */
  predicate UniqueLabels(rows: seq<Row>) {
    forall i, j :: 0 <= i < j < |rows| ==> rows[i].index != rows[j].index
  }

  /** Dropping by index depends only on which of the rows' own labels are named. */
  lemma {:induction false} DropLabelsAgree(rows: seq<Row>, a: set<int>, b: set<int>)
    requires forall i :: 0 <= i < |rows| ==> (rows[i].index in a <==> rows[i].index in b)
    ensures DropLabels(rows, a) == DropLabels(rows, b)
  {
    if rows != [] {
      assert rows[0].index in a <==> rows[0].index in b;
      assert forall i :: 0 <= i < |rows[1..]| ==> rows[1..][i] == rows[i + 1];
      DropLabelsAgree(rows[1..], a, b);
    }
  }

  /** With unique labels, dropping the chosen rows' labels removes exactly the chosen rows. */
  lemma {:induction false} DropChosen(rows: seq<Row>, mask: seq<bool>)
    requires |mask| == |rows| && UniqueLabels(rows)
    ensures DropLabels(rows, ChosenLabels(rows, mask)) == Unchosen(rows, mask)
  {
    if rows != [] {
      var labels, rest := ChosenLabels(rows, mask), ChosenLabels(rows[1..], mask[1..]);
      assert UniqueLabels(rows[1..]) by {
        forall i, j | 0 <= i < j < |rows[1..]| ensures rows[1..][i].index != rows[1..][j].index {
          assert rows[1..][i] == rows[i + 1] && rows[1..][j] == rows[j + 1];
        }
      }
      forall i | 0 <= i < |rows[1..]| ensures rows[1..][i].index in labels <==> rows[1..][i].index in rest {
        assert rows[1..][i] == rows[i + 1];
        if rows[1..][i].index in labels {
          var j :| 0 <= j < |rows| && mask[j] && rows[j].index == rows[i + 1].index;
          assert j == i + 1;
          assert mask[1..][i];
        }
        if rows[1..][i].index in rest {
          var j :| 0 <= j < |rows[1..]| && mask[1..][j] && rows[1..][j].index == rows[1..][i].index;
          assert rows[j + 1].index in labels;
        }
      }
      DropLabelsAgree(rows[1..], labels, rest);
      DropChosen(rows[1..], mask[1..]);
      if mask[0] {
        assert rows[0].index in labels;
      } else {
        assert rows[0].index !in labels by {
          if rows[0].index in labels {
            var j :| 0 <= j < |rows| && mask[j] && rows[j].index == rows[0].index;
          }
        }
      }
    }
  }

  /** Removing chosen rows of `cls` lowers the count of any superset of `cls` by the number chosen. */
  lemma {:induction false} UnchosenCountInside(rows: seq<Row>, mask: seq<bool>, cls: set<int>, c: set<int>)
    requires Marks(rows, mask, cls) && cls <= c
    ensures CountIn(Unchosen(rows, mask), c) + CountTrue(mask) == CountIn(rows, c)
  {
    if rows != [] {
      assert Marks(rows[1..], mask[1..], cls) by {
        forall i | 0 <= i < |rows[1..]| && mask[1..][i] ensures rows[1..][i].rating in cls {
          assert rows[1..][i] == rows[i + 1];
        }
      }
      UnchosenCountInside(rows[1..], mask[1..], cls, c);
      if mask[0] {
        assert Unchosen(rows, mask) == Unchosen(rows[1..], mask[1..]);
        assert rows[0].rating in c;
      } else {
        assert Unchosen(rows, mask) == [rows[0]] + Unchosen(rows[1..], mask[1..]);
        CountInCons(rows[0], Unchosen(rows[1..], mask[1..]), c);
      }
    }
  }

  /** Removing chosen rows of `cls` keeps the rows of any class disjoint from it, in order. */
  lemma {:induction false} UnchosenKeepsOthers(rows: seq<Row>, mask: seq<bool>, cls: set<int>, c: set<int>)
    requires Marks(rows, mask, cls) && cls * c == {}
    ensures OfClass(Unchosen(rows, mask), c) == OfClass(rows, c)
  {
    if rows != [] {
      assert Marks(rows[1..], mask[1..], cls) by {
        forall i | 0 <= i < |rows[1..]| && mask[1..][i] ensures rows[1..][i].rating in cls {
          assert rows[1..][i] == rows[i + 1];
        }
      }
      UnchosenKeepsOthers(rows[1..], mask[1..], cls, c);
      if mask[0] {
        assert Unchosen(rows, mask) == Unchosen(rows[1..], mask[1..]);
        assert rows[0].rating in cls && rows[0].rating !in cls * c;
      } else {
        assert Unchosen(rows, mask) == [rows[0]] + Unchosen(rows[1..], mask[1..]);
        CountInCons(rows[0], Unchosen(rows[1..], mask[1..]), c);
      }
    }
  }

  /** Dropping rows never raises the count of a class. */
  lemma {:induction false} DropLabelsCount(rows: seq<Row>, labels: set<int>, c: set<int>)
    ensures CountIn(DropLabels(rows, labels), c) <= CountIn(rows, c)
  {
    if rows != [] {
      DropLabelsCount(rows[1..], labels, c);
      if rows[0].index in labels {
        assert DropLabels(rows, labels) == DropLabels(rows[1..], labels);
      } else {
        assert DropLabels(rows, labels) == [rows[0]] + DropLabels(rows[1..], labels);
        CountInCons(rows[0], DropLabels(rows[1..], labels), c);
      }
    }
  }

  /** The first `k` rows of `cls`: a witness that a draw of `k` rows exists. */
  function FirstOf(rows: seq<Row>, cls: set<int>, k: nat): (mask: seq<bool>)
    requires k <= CountIn(rows, cls)
    ensures Draw(rows, mask, cls, k)
  {
    if rows == [] then []
    else if k > 0 && rows[0].rating in cls then
      var rest := FirstOf(rows[1..], cls, k - 1);
      assert forall i :: 1 <= i < |rows| ==> rows[i] == rows[1..][i - 1];
      [true] + rest
    else
      var rest := FirstOf(rows[1..], cls, k);
      assert forall i :: 1 <= i < |rows| ==> rows[i] == rows[1..][i - 1];
      [false] + rest
  }

  /** The number of rows of a class is the length of the class's rows. */
  lemma {:induction false} CountInLength(rows: seq<Row>, cls: set<int>)
    ensures CountIn(rows, cls) == |OfClass(rows, cls)|
  {
    if rows != [] {
      CountInLength(rows[1..], cls);
    }
  }

  /** `value_counts()[5] + value_counts()[4]` and `value_counts()[2] + value_counts()[1]` are the class counts. */
  lemma ClassCounts(rows: seq<Row>)
    ensures CountIn(rows, {5}) + CountIn(rows, {4}) == CountIn(rows, Positive)
    ensures CountIn(rows, {2}) + CountIn(rows, {1}) == CountIn(rows, Negative)
  {
    CountUnion(rows, {5}, {4});
    assert {5} + {4} == Positive;
    CountUnion(rows, {2}, {1});
    assert {2} + {1} == Negative;
  }

  /** Rating `k` occurs, so `value_counts()[k]` does not raise. */
  predicate Occurs(rows: seq<Row>, k: int) {
    CountIn(rows, {k}) > 0
  }

  /** The first of `order` whose `value_counts()` lookup raises KeyError. */
  function FirstAbsent(rows: seq<Row>, order: seq<int>): (r: Option<int>)
    ensures r.None? <==> forall k :: k in order ==> Occurs(rows, k)
    ensures r.Some? ==> r.value in order && !Occurs(rows, r.value)
  {
    if order == [] then None
    else if !Occurs(rows, order[0]) then Some(order[0])
    else FirstAbsent(rows, order[1..])
  }

  /** The first of `names` that is not a column: `.loc[:, names]` raises KeyError for it. */
  function FirstMissing(names: seq<string>, columns: seq<string>): (r: Option<string>)
    ensures r.None? <==> forall f :: f in names ==> f in columns
    ensures r.Some? ==> r.value in names && r.value !in columns
  {
    if names == [] then None
    else if names[0] !in columns then Some(names[0])
    else FirstMissing(names[1..], columns)
  }

  // ---------------------------------------------------------------------------
  // Undersampling the larger of the positive and the negative class

  /** The class with fewer rows (negative on a tie). */
  function Smaller(rows: seq<Row>): set<int>
  {
    if CountIn(rows, Positive) > CountIn(rows, Negative) then Negative else Positive
  }

  /** The draw `np.random.choice(a=<larger class>, size=|pos - neg|, replace=False)` may return. */
  predicate PosNegDraw(rows: seq<Row>, mask: seq<bool>) {
    Draw(rows, mask, Larger(rows), Gap(rows))
  }

  /** The larger class always has at least `Gap` rows, so a draw exists. */
  lemma PosNegDrawExists(rows: seq<Row>) returns (mask: seq<bool>)
    ensures PosNegDraw(rows, mask)
  {
    mask := FirstOf(rows, Larger(rows), Gap(rows));
  }

  /** `df.drop(index=<drawn labels>)`. */
  function Undersampled(rows: seq<Row>, mask: seq<bool>): (r: seq<Row>)
    ensures forall x :: x in r ==> x in rows
  {
    DropLabels(rows, ChosenLabels(rows, mask))
  }

  /** After undersampling, the positive and the negative class have as many rows. */
  lemma UndersampledEqualizes(rows: seq<Row>, mask: seq<bool>)
    requires PosNegDraw(rows, mask) && UniqueLabels(rows)
    ensures CountIn(Undersampled(rows, mask), Positive) == CountIn(Undersampled(rows, mask), Negative)
  {
    DropChosen(rows, mask);
    var big, small := Larger(rows), Smaller(rows);
    assert big * small == {};
    UnchosenCountInside(rows, mask, big, big);
    UnchosenKeepsOthers(rows, mask, big, small);
    CountInLength(Unchosen(rows, mask), small);
    CountInLength(rows, small);
  }

  /**
   * Undersampling removes exactly `Gap` rows, all of the larger class: the neutral rows
   * and the smaller class are kept whole and in order.
   */
  lemma UndersampledKeeps(rows: seq<Row>, mask: seq<bool>)
    requires PosNegDraw(rows, mask) && UniqueLabels(rows)
    ensures |Undersampled(rows, mask)| == |rows| - Gap(rows)
    ensures CountIn(Undersampled(rows, mask), Larger(rows)) == CountIn(rows, Larger(rows)) - Gap(rows)
    ensures OfClass(Undersampled(rows, mask), Smaller(rows)) == OfClass(rows, Smaller(rows))
    ensures OfClass(Undersampled(rows, mask), Neutral) == OfClass(rows, Neutral)
  {
    DropChosen(rows, mask);
    var big := Larger(rows);
    assert big * Smaller(rows) == {};
    assert big * Neutral == {};
    UnchosenCountInside(rows, mask, big, big);
    UnchosenKeepsOthers(rows, mask, big, Smaller(rows));
    UnchosenKeepsOthers(rows, mask, big, Neutral);
  }

  // ---------------------------------------------------------------------------
  // Texts

  /** `.fillna("")` on one cell. */
  function TextOrEmpty(text: Option<string>): string
  {
    if text.None? then "" else text.value
  }

  /** The rows after `df[text] = df[text].fillna("")`. */
  function Filled(rows: seq<Row>): (r: seq<Row>)
    ensures |r| == |rows|
    ensures forall i :: 0 <= i < |rows| ==> r[i] == rows[i].(text := Some(TextOrEmpty(rows[i].text)))
    ensures forall i :: 0 <= i < |rows| ==> r[i].index == rows[i].index && r[i].rating == rows[i].rating && r[i].others == rows[i].others
  {
    seq(|rows|, i requires 0 <= i < |rows| => rows[i].(text := Some(TextOrEmpty(rows[i].text))))
  }

  /** Every text is present (not null). */
  predicate AllTexts(rows: seq<Row>) {
    forall i :: 0 <= i < |rows| ==> rows[i].text.Some?
  }

  /** Python's `ws[:m]`: a negative `m` counts from the end. */
  function SliceTo<T>(ws: seq<T>, m: int): seq<T>
  {
    if m >= 0 then ws[..if m < |ws| then m else |ws|]
    else ws[..if |ws| + m > 0 then |ws| + m else 0]
  }

  /** `" ".join(x.split()[:max_words])`. */
  function CutText(s: string, maxWords: int): string
  {
    Join(SliceTo(Words(s), maxWords), " ")
  }

  /** The rows after `df[text] = df[text].apply(cut_review_text)`. */
  function Cut(rows: seq<Row>, maxWords: int): (r: seq<Row>)
    requires AllTexts(rows)
    ensures |r| == |rows|
    ensures forall i :: 0 <= i < |rows| ==> r[i] == rows[i].(text := Some(CutText(rows[i].text.value, maxWords)))
    ensures forall i :: 0 <= i < |rows| ==> r[i].index == rows[i].index && r[i].rating == rows[i].rating && r[i].others == rows[i].others
  {
    seq(|rows|, i requires 0 <= i < |rows| => rows[i].(text := Some(CutText(rows[i].text.value, maxWords))))
  }

  /** `df.loc[df[text] != "", :]`: the rows whose text is not the empty string, in order. */
  function NonEmpty(rows: seq<Row>): (r: seq<Row>)
    ensures |r| <= |rows|
    ensures forall x :: x in r <==> x in rows && x.text != Some("")
  {
    if rows == [] then []
    else (if rows[0].text == Some("") then [] else [rows[0]]) + NonEmpty(rows[1..])
  }

  // ---------------------------------------------------------------------------
  // A data frame whose text column is reassigned in place

  class Frame {
    var columns: seq<string>
    var rows: seq<Row>

    constructor (chunk: Chunk)
      ensures columns == chunk.columns && rows == chunk.rows
    {
      columns := chunk.columns;
      rows := chunk.rows;
    }

    function Value(): Chunk
      reads this
    {
      Chunk(columns, rows)
    }

    /** `df[text] = df[text].fillna("")`; a frame without the text column raises KeyError and is left as it is. */
    method FillEmptyReviews() returns (err: Option<ChunkError>)
      modifies this
      ensures err.Some? <==> TextColumn !in old(columns)
      ensures err.Some? ==> err.value == MissingColumn(TextColumn) && rows == old(rows)
      ensures err.None? ==> rows == Filled(old(rows)) && AllTexts(rows)
      ensures columns == old(columns)
    {
      if TextColumn !in columns {
        return Some(MissingColumn(TextColumn));
      }
      rows := Filled(rows);
      err := None;
    }

    /**
     * `df[text] = df[text].apply(lambda x: " ".join(x.split()[:max_words]))`; the
     * frame is left as it is when the column is missing or a text is null.
     */
    method CutReviews(maxWords: int) returns (err: Option<ChunkError>)
      modifies this
      ensures err.Some? <==> TextColumn !in old(columns) || !AllTexts(old(rows))
      ensures err.Some? ==> rows == old(rows)
      ensures err.Some? ==> err.value == (if TextColumn !in old(columns) then MissingColumn(TextColumn) else NullText)
      ensures err.None? ==> rows == Cut(old(rows), maxWords)
      ensures columns == old(columns)
    {
      if TextColumn !in columns {
        return Some(MissingColumn(TextColumn));
      }
      if !AllTexts(rows) {
        return Some(NullText);
      }
      rows := Cut(rows, maxWords);
      err := None;
    }
  }

  // ---------------------------------------------------------------------------
  // Facts about the text steps

  /** The cut text is the original's first words, joined by single spaces; never more than `max_words` of them. */
  lemma CutTextShape(s: string, maxWords: int)
    ensures Words(CutText(s, maxWords)) == SliceTo(Words(s), maxWords)
    ensures SingleSpaced(CutText(s, maxWords))
    ensures maxWords >= 0 ==> |Words(CutText(s, maxWords))| <= maxWords
    ensures CutText(s, maxWords) == "" <==> SliceTo(Words(s), maxWords) == []
  {
    var ws := SliceTo(Words(s), maxWords);
    assert AllWords(ws) by {
      forall i | 0 <= i < |ws| ensures IsWord(ws[i]) {
        assert ws[i] == Words(s)[i];
      }
    }
    JoinWords(ws);
  }

  /** Cutting again with the same non-negative cap changes nothing. */
  lemma CutTextIdempotent(s: string, maxWords: int)
    requires maxWords >= 0
    ensures CutText(CutText(s, maxWords), maxWords) == CutText(s, maxWords)
  {
    CutTextShape(s, maxWords);
    var ws := SliceTo(Words(s), maxWords);
    assert SliceTo(ws, maxWords) == ws;
  }

  /** A non-negative cap keeps a prefix of at most that many words. */
  lemma CutTextPrefix(s: string, maxWords: int)
    requires maxWords >= 0
    ensures Words(CutText(s, maxWords)) <= Words(s)
    ensures |Words(s)| <= maxWords ==> Words(CutText(s, maxWords)) == Words(s)
  {
    CutTextShape(s, maxWords);
  }
}

/**
 * The chunk transforms of `amazon_reviews_transform`: keep the requested
 * columns, undersample the larger of the positive (4-5) and the negative
 * (1-2) class, replace null texts by "", cut each text to `max_words`
 * words, drop the rows left with an empty text, and pick the csv path a
 * transformed chunk is written to.
 */
module AmazonTransform {
  import opened Wrappers
  import opened Strings
  import opened ReviewChunks

  /** `df.loc[:, features]`: the frame restricted to `features`, KeyError when one is missing. */
  function ExtractFeatures(df: Chunk, features: seq<string>): (r: Result<Chunk, ChunkError>)
    ensures r.Success? <==> forall f :: f in features ==> f in df.columns
    ensures r.Success? ==> r.value.columns == features && r.value.rows == df.rows
    ensures r.Failure? ==> r.error.MissingColumn? && r.error.name in features && r.error.name !in df.columns
  {
    match FirstMissing(features, df.columns)
    case None => Success(Chunk(features, df.rows))
    case Some(f) => Failure(MissingColumn(f))
  }

  /**
   * `balance_neg_pos_of_reviews`: the counts are looked up for ratings 5, 4, 2
   * and 1 in that order, and the rows the draw `mask` marks are dropped by label.
   * Equal counts leave `index` unbound.
   */
  function BalanceNegPos(df: Chunk, mask: seq<bool>): Result<Chunk, ChunkError>
  {
    if RatingColumn !in df.columns then Failure(MissingColumn(RatingColumn))
    else match FirstAbsent(df.rows, [5, 4, 2, 1])
      case Some(k) => Failure(MissingRating(k))
      case None =>
        var pos := CountIn(df.rows, {5}) + CountIn(df.rows, {4});
        var neg := CountIn(df.rows, {2}) + CountIn(df.rows, {1});
        if pos == neg then Failure(UnboundIndex)
        else Success(Chunk(df.columns, Undersampled(df.rows, mask)))
  }

  /** The balance fails exactly when the rating column or one of the ratings 1, 2, 4, 5 is missing, or the classes tie. */
  lemma BalanceNegPosFails(df: Chunk, mask: seq<bool>)
    ensures BalanceNegPos(df, mask).Failure? <==>
      RatingColumn !in df.columns
      || (exists k :: k in [5, 4, 2, 1] && !Occurs(df.rows, k))
      || CountIn(df.rows, Positive) == CountIn(df.rows, Negative)
  {
    ClassCounts(df.rows);
  }

  /** A successful balance leaves as many positive rows as negative ones, and the columns as they were. */
  lemma BalanceNegPosEqualizes(df: Chunk, mask: seq<bool>)
    requires PosNegDraw(df.rows, mask) && UniqueLabels(df.rows)
    requires BalanceNegPos(df, mask).Success?
    ensures BalanceNegPos(df, mask).value.columns == df.columns
    ensures CountIn(BalanceNegPos(df, mask).value.rows, Positive) == CountIn(BalanceNegPos(df, mask).value.rows, Negative)
  {
    UndersampledEqualizes(df.rows, mask);
  }

  /**
   * A successful balance removes exactly |pos - neg| rows, all of the larger class;
   * the neutral rows and the smaller class are kept whole and in order.
   */
  lemma BalanceNegPosRemoves(df: Chunk, mask: seq<bool>)
    requires PosNegDraw(df.rows, mask) && UniqueLabels(df.rows)
    requires BalanceNegPos(df, mask).Success?
    ensures |BalanceNegPos(df, mask).value.rows| == |df.rows| - Gap(df.rows)
    ensures Gap(df.rows) > 0
    ensures CountIn(BalanceNegPos(df, mask).value.rows, Larger(df.rows)) == CountIn(df.rows, Larger(df.rows)) - Gap(df.rows)
    ensures OfClass(BalanceNegPos(df, mask).value.rows, Smaller(df.rows)) == OfClass(df.rows, Smaller(df.rows))
    ensures OfClass(BalanceNegPos(df, mask).value.rows, Neutral) == OfClass(df.rows, Neutral)
  {
    ClassCounts(df.rows);
    UndersampledKeeps(df.rows, mask);
  }

  /**
   * `transform_chunk`: the features (when the list is non-empty), the balance,
   * the fill, the cut, the removal of empty texts and the date column, with
   * the first failing step's error.
   */
  function Transformed(df: Chunk, features: seq<string>, maxWords: int, mask: seq<bool>): Result<Chunk, ChunkError>
  {
    var extracted := if |features| > 0 then ExtractFeatures(df, features) else Success(df);
    if extracted.Failure? then Failure(extracted.error)
    else
      var balanced := BalanceNegPos(extracted.value, mask);
      if balanced.Failure? then balanced
      else
        var b := balanced.value;
        if TextColumn !in b.columns then Failure(MissingColumn(TextColumn))
        else if DateColumn !in b.columns then Failure(MissingColumn(DateColumn))
        else Success(Chunk(b.columns, NonEmpty(Cut(Filled(b.rows), maxWords))))
  }

  /**
   * `transform_chunk` as the source runs it: the chunk is rebound step by step and
   * its text column is reassigned in place; the undersampling draw is any the
   * generator may produce.
   */
  method TransformChunk(df: Chunk, features: seq<string>, maxWords: int) returns (r: Result<Chunk, ChunkError>)
    ensures exists mask :: PosNegDraw(df.rows, mask) && r == Transformed(df, features, maxWords, mask)
  {
    ghost var someDraw := PosNegDrawExists(df.rows);
    var mask :| PosNegDraw(df.rows, mask);
    assert PosNegDraw(df.rows, mask);
    var chunk := df;
    if |features| > 0 {
      var extracted := ExtractFeatures(chunk, features);
      if extracted.Failure? {
        return Failure(extracted.error);
      }
      chunk := extracted.value;
    }
    var balanced := BalanceNegPos(chunk, mask);
    if balanced.Failure? {
      return balanced;
    }
    var frame := new Frame(balanced.value);
    var err := frame.FillEmptyReviews();
    if err.Some? {
      return Failure(err.value);
    }
    // the column is there and every text is filled, so the cut cannot fail
    err := frame.CutReviews(maxWords);
    frame.rows := NonEmpty(frame.rows);
    if DateColumn !in frame.columns {
      return Failure(MissingColumn(DateColumn));
    }
    r := Success(frame.Value());
  }

  /**
   * Every row `transform_chunk` returns is a row of the input with its text
   * cut: the label and the rating are kept, and the text is non-empty and
   * single-spaced, with at most `max_words` words when `max_words` is not negative.
   */
  lemma TransformedRows(df: Chunk, features: seq<string>, maxWords: int, mask: seq<bool>, x: Row)
    requires Transformed(df, features, maxWords, mask).Success?
    requires x in Transformed(df, features, maxWords, mask).value.rows
    ensures exists o :: (o in df.rows && o.index == x.index && o.rating == x.rating &&
      x.text == Some(CutText(TextOrEmpty(o.text), maxWords)))
    ensures x.text.Some? && x.text.value != "" && SingleSpaced(x.text.value)
    ensures maxWords >= 0 ==> |Words(x.text.value)| <= maxWords
  {
    var extracted := if |features| > 0 then ExtractFeatures(df, features) else Success(df);
    var b := BalanceNegPos(extracted.value, mask).value;
    var filled := Filled(b.rows);
    assert x in Cut(filled, maxWords);
    var i :| 0 <= i < |filled| && Cut(filled, maxWords)[i] == x;
    var o := b.rows[i];
    assert o in df.rows;
    CutTextShape(TextOrEmpty(o.text), maxWords);
  }

  /** No text left is empty, and at most the rows the balance kept are left. */
  lemma TransformedNoEmpty(df: Chunk, features: seq<string>, maxWords: int, mask: seq<bool>)
    requires PosNegDraw(df.rows, mask) && UniqueLabels(df.rows)
    requires Transformed(df, features, maxWords, mask).Success?
    ensures forall x :: x in Transformed(df, features, maxWords, mask).value.rows ==> x.text != Some("")
    ensures |Transformed(df, features, maxWords, mask).value.rows| <= |df.rows| - Gap(df.rows)
  {
    var extracted := if |features| > 0 then ExtractFeatures(df, features) else Success(df);
    assert extracted.Success? && extracted.value.rows == df.rows;
    var b := BalanceNegPos(extracted.value, mask).value;
    assert b.rows == Undersampled(df.rows, mask);
    UndersampledKeeps(df.rows, mask);
    var cut := Cut(Filled(b.rows), maxWords);
    assert Transformed(df, features, maxWords, mask).value.rows == NonEmpty(cut);
    assert |cut| == |b.rows|;
  }

  // ---------------------------------------------------------------------------
  // save_chunk

  /** The parts of a POSIX path: the root "/" when absolute, then the non-empty segments other than ".". */
  function PathParts(path: string): (parts: seq<string>)
    ensures forall i :: 0 <= i < |parts| ==> parts[i] != ""
  {
    var segments := Segments(SplitOn(path, '/'));
    if |path| > 0 && path[0] == '/' then ["/"] + segments else segments
  }

  function Segments(pieces: seq<string>): (r: seq<string>)
    ensures forall i :: 0 <= i < |r| ==> r[i] != "" && r[i] != "."
  {
    if pieces == [] then []
    else (if pieces[0] == "" || pieces[0] == "." then [] else [pieces[0]]) + Segments(pieces[1..])
  }

  /** `path.parts[-1].split(".")[0]`: the last part up to its first ".", IndexError for a path without parts. */
  function FileStem(datapath: string): (r: Result<string, ChunkError>)
    ensures r.Failure? <==> PathParts(datapath) == []
    ensures r.Failure? ==> r.error == NoFileName
    ensures r.Success? ==> var last := PathParts(datapath)[|PathParts(datapath)| - 1];
      '.' !in r.value && r.value <= last && (|r.value| < |last| ==> last[|r.value|] == '.')
  {
    var parts := PathParts(datapath);
    if parts == [] then Failure(NoFileName)
    else
      var last := parts[|parts| - 1];
      SplitOnHead(last, '.');
      Success(SplitOn(last, '.')[0])
  }

  const TransformedDir: string := "../../data/transformed/"
  const BackupDir: string := "backup/data_rows_"

  /** `_{first index}_{last index}` of a chunk with at least one row. */
  function RowRange(rows: seq<Row>): string
    requires rows != []
  {
    IntToString(rows[0].index) + "_" + IntToString(rows[|rows| - 1].index)
  }

  /**
   * The path `save_chunk` writes to. A non-empty `datapath` wins; then a
   * non-empty `outpath`; otherwise the backup name (which has no extension).
   * An empty string stands for both `None` and "", which Python treats alike.
   */
  function SaveChunkTarget(df: Chunk, datapath: string, outpath: string): Result<string, ChunkError>
  {
    if datapath != "" then
      match FileStem(datapath)
      case Failure(e) => Failure(e)
      case Success(stem) =>
        if df.rows == [] then Failure(EmptyFrame)
        else Success(TransformedDir + stem + "_partition_rows_" + RowRange(df.rows) + ".csv")
    else if outpath != "" then Success(outpath)
    else if df.rows == [] then Failure(EmptyFrame)
    else Success(BackupDir + RowRange(df.rows))
  }

  /** A non-empty `datapath` decides the target whatever `outpath` is. */
  lemma SaveDatapathFirst(df: Chunk, datapath: string, outpath: string, other: string)
    requires datapath != ""
    ensures SaveChunkTarget(df, datapath, outpath) == SaveChunkTarget(df, datapath, other)
  {
  }

  /**
   * With a data path, the file lies in the transformed-data directory, is named
   * after the data file's stem and ends in ".csv"; chunks with different first
   * or last labels get different files.
   */
  lemma SaveTargetsDistinct(df: Chunk, other: Chunk, datapath: string, outpath: string)
    requires datapath != ""
    requires SaveChunkTarget(df, datapath, outpath).Success? && SaveChunkTarget(other, datapath, outpath).Success?
    requires df.rows[0].index != other.rows[0].index || df.rows[|df.rows| - 1].index != other.rows[|other.rows| - 1].index
    ensures StartsWith(SaveChunkTarget(df, datapath, outpath).value, TransformedDir + FileStem(datapath).value + "_partition_rows_")
    ensures EndsWith(SaveChunkTarget(df, datapath, outpath).value, ".csv")
    ensures SaveChunkTarget(df, datapath, outpath).value != SaveChunkTarget(other, datapath, outpath).value
  {
    var prefix := TransformedDir + FileStem(datapath).value + "_partition_rows_";
    var r1, r2 := RowRange(df.rows), RowRange(other.rows);
    var t1, t2 := SaveChunkTarget(df, datapath, outpath).value, SaveChunkTarget(other, datapath, outpath).value;
    assert t1 == prefix + r1 + ".csv" && t2 == prefix + r2 + ".csv";
    assert t1[..|prefix|] == prefix;
    assert t1[|t1| - 4..] == ".csv";
    if t1 == t2 {
      assert r1 == t1[|prefix|..|t1| - 4] == r2;
      var a1, a2 := IntToString(df.rows[0].index), IntToString(other.rows[0].index);
      assert '_' !in a1 && '_' !in a2;
      SplitAtFirst(a1, IntToString(df.rows[|df.rows| - 1].index), a2, IntToString(other.rows[|other.rows| - 1].index), '_');
      IntToStringInjective(df.rows[0].index, other.rows[0].index);
      IntToStringInjective(df.rows[|df.rows| - 1].index, other.rows[|other.rows| - 1].index);
    }
  }
}

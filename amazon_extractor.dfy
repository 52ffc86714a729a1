/**
 * `AmazonReviewsExtractor`: a JSON-lines reader that hands out the reviews
 * file chunk by chunk, counting the chunks it has loaded. Each chunk is
 * either transformed and returned (features, class balancing, null texts
 * filled, empty texts dropped) or, when an output directory is configured,
 * saved untransformed under a name carrying the counter.
 */
module AmazonExtractor {
  import opened Wrappers
  import opened Strings
  import opened ReviewChunks
  import AmazonTransform

  // ---------------------------------------------------------------------------
  // _balance_reviews

  /**
   * The whole number of rows to drop so that the neutral count no longer
   * exceeds the non-neutral count over 4, rounded up (the corrected size).
   */
  function NeutralExcess(rows: seq<Row>): (k: nat)
    ensures k <= CountIn(rows, Neutral)
  {
    var n := CountIn(rows, Neutral);
    var m := |rows| - n;
    if 4 * n > m then assert (m + 3) / 4 <= n; n - (m + 3) / 4 else 0
  }

  /** The draw `choice(a=<rating-3 labels>, size=rows_to_drop, replace=False)` may return. */
  predicate NeutralDraw(rows: seq<Row>, mask: seq<bool>) {
    Draw(rows, mask, Neutral, NeutralExcess(rows))
  }

  /** The positive/negative step shared by both versions of `_balance_reviews`: the assertion, the lookups for 4, 5, 1, 2, the tie. */
  function BalancePosNeg(df: Chunk, posMask: seq<bool>): (r: Result<seq<Row>, ChunkError>)
    ensures r.Success? ==> r.value == Undersampled(df.rows, posMask)
  {
    if RatingColumn !in df.columns || TextColumn !in df.columns then Failure(ColumnsMissing)
    else match FirstAbsent(df.rows, [4, 5, 1, 2])
      case Some(k) => Failure(MissingRating(k))
      case None =>
        if CountIn(df.rows, Positive) == CountIn(df.rows, Negative) then Failure(UnboundIndex)
        else Success(Undersampled(df.rows, posMask))
  }

  /**
   * `_balance_reviews` with the neutral rows dropped from the balanced frame,
   * as evidently intended: after the positive/negative step, and when
   * `balance_neutral_reviews` is set, the rating-3 count is looked up
   * (KeyError when there are none) and brought down to the non-neutral
   * count over 4, rounded up.
   */
  function BalanceReviews(df: Chunk, balanceNeutral: bool, posMask: seq<bool>, neutralMask: seq<bool>): Result<Chunk, ChunkError>
  {
    match BalancePosNeg(df, posMask)
    case Failure(e) => Failure(e)
    case Success(balanced) =>
      if !balanceNeutral then Success(Chunk(df.columns, balanced))
      else if CountIn(balanced, Neutral) == 0 then Failure(MissingRating(3))
      else if NeutralExcess(balanced) == 0 then Success(Chunk(df.columns, balanced))
      else Success(Chunk(df.columns, Undersampled(balanced, neutralMask)))
  }

  /**
   * `_balance_reviews` as written: once the neutral count exceeds the
   * non-neutral count over 4, `rows_to_drop` is a float (true division) and
   * `choice` rejects it as a sample size with TypeError.
   */
  function BalanceReviewsAsWritten(df: Chunk, balanceNeutral: bool, posMask: seq<bool>, neutralMask: seq<bool>): Result<Chunk, ChunkError>
  {
    match BalancePosNeg(df, posMask)
    case Failure(e) => Failure(e)
    case Success(balanced) =>
      var n := CountIn(balanced, Neutral);
      if !balanceNeutral then Success(Chunk(df.columns, balanced))
      else if n == 0 then Failure(MissingRating(3))
      else if 4 * n > |balanced| - n then Failure(FloatSampleSize)
      else Success(Chunk(df.columns, balanced))
  }

  /**
   * As written, the neutral step never drops a row: it raises exactly when
   * there is something to drop, and otherwise agrees with the corrected step.
   */
  lemma BalanceReviewsAsWrittenRaises(df: Chunk, balanceNeutral: bool, posMask: seq<bool>, neutralMask: seq<bool>)
    requires BalancePosNeg(df, posMask).Success?
    ensures var balanced := BalancePosNeg(df, posMask).value;
      BalanceReviewsAsWritten(df, balanceNeutral, posMask, neutralMask) == Failure(FloatSampleSize) <==>
        balanceNeutral && CountIn(balanced, Neutral) > 0 && 4 * CountIn(balanced, Neutral) > |balanced| - CountIn(balanced, Neutral)
    ensures balanceNeutral && NeutralExcess(BalancePosNeg(df, posMask).value) > 0 ==>
      BalanceReviewsAsWritten(df, balanceNeutral, posMask, neutralMask) == Failure(FloatSampleSize)
    ensures BalanceReviewsAsWritten(df, balanceNeutral, posMask, neutralMask) != Failure(FloatSampleSize) ==>
      BalanceReviewsAsWritten(df, balanceNeutral, posMask, neutralMask) == BalanceReviews(df, balanceNeutral, posMask, neutralMask)
  {
    var balanced := BalancePosNeg(df, posMask).value;
    var n := CountIn(balanced, Neutral);
    CountInLength(balanced, Neutral);
    if balanceNeutral && n > 0 && 4 * n <= |balanced| - n {
      assert NeutralExcess(balanced) == 0;
    }
  }

  /**
   * `_balance_reviews` as written, with the sample size taken as a whole
   * number: the neutral rows are then dropped from the unbalanced input `df`.
   */
  function BalanceReviewsWholeSize(df: Chunk, balanceNeutral: bool, posMask: seq<bool>, neutralMask: seq<bool>): Result<Chunk, ChunkError>
  {
    match BalancePosNeg(df, posMask)
    case Failure(e) => Failure(e)
    case Success(balanced) =>
      if !balanceNeutral then Success(Chunk(df.columns, balanced))
      else if CountIn(balanced, Neutral) == 0 then Failure(MissingRating(3))
      else if NeutralExcess(balanced) == 0 then Success(Chunk(df.columns, balanced))
      else Success(Chunk(df.columns, Undersampled(df.rows, neutralMask)))
  }

  /** `_balance_reviews` fails exactly when a column is missing, one of the ratings 1, 2, 4, 5 (or 3 for the neutral step) is absent, or the classes tie. */
  lemma BalanceReviewsFails(df: Chunk, balanceNeutral: bool, posMask: seq<bool>, neutralMask: seq<bool>)
    ensures BalanceReviews(df, balanceNeutral, posMask, neutralMask).Failure? <==>
      RatingColumn !in df.columns || TextColumn !in df.columns
      || (exists k :: k in [4, 5, 1, 2] && !Occurs(df.rows, k))
      || CountIn(df.rows, Positive) == CountIn(df.rows, Negative)
      || (balanceNeutral && CountIn(Undersampled(df.rows, posMask), Neutral) == 0)
  {
  }

  /**
   * The corrected balance leaves as many positive as negative rows; with the
   * neutral step, at most a quarter of the other rows (rounded up) are neutral.
   */
  lemma BalanceReviewsBalances(df: Chunk, balanceNeutral: bool, posMask: seq<bool>, neutralMask: seq<bool>)
    requires UniqueLabels(df.rows) && PosNegDraw(df.rows, posMask)
    requires NeutralDraw(Undersampled(df.rows, posMask), neutralMask)
    requires BalanceReviews(df, balanceNeutral, posMask, neutralMask).Success?
    ensures var out := BalanceReviews(df, balanceNeutral, posMask, neutralMask).value.rows;
      CountIn(out, Positive) == CountIn(out, Negative)
    ensures var out := BalanceReviews(df, balanceNeutral, posMask, neutralMask).value.rows;
      balanceNeutral ==> 4 * CountIn(out, Neutral) <= |out| - CountIn(out, Neutral) + 3
  {
    var balanced := Undersampled(df.rows, posMask);
    UndersampledEqualizes(df.rows, posMask);
    if balanceNeutral && NeutralExcess(balanced) > 0 {
      UniqueAfterDrop(df.rows, ChosenLabels(df.rows, posMask));
      NeutralDrop(balanced, neutralMask);
    }
  }

  /** Dropping rows keeps the labels unique. */
  lemma {:induction false} UniqueAfterDrop(rows: seq<Row>, labels: set<int>)
    requires UniqueLabels(rows)
    ensures UniqueLabels(DropLabels(rows, labels))
  {
    if rows != [] {
      UniqueTail(rows);
      UniqueAfterDrop(rows[1..], labels);
      var rest := DropLabels(rows[1..], labels);
      if rows[0].index !in labels {
        assert DropLabels(rows, labels) == [rows[0]] + rest;
        UniqueCons(rows[0], rest);
      } else {
        assert DropLabels(rows, labels) == rest;
      }
    }
  }

  lemma UniqueTail(rows: seq<Row>)
    requires rows != [] && UniqueLabels(rows)
    ensures UniqueLabels(rows[1..])
    ensures forall x :: x in rows[1..] ==> x.index != rows[0].index
  {
    forall i, j | 0 <= i < j < |rows[1..]| ensures rows[1..][i].index != rows[1..][j].index {
      assert rows[1..][i] == rows[i + 1] && rows[1..][j] == rows[j + 1];
    }
    forall x | x in rows[1..] ensures x.index != rows[0].index {
      var k :| 0 <= k < |rows[1..]| && rows[1..][k] == x;
      assert rows[k + 1] == x;
    }
  }

  lemma UniqueCons(x: Row, rest: seq<Row>)
    requires UniqueLabels(rest) && forall y :: y in rest ==> y.index != x.index
    ensures UniqueLabels([x] + rest)
  {
    var s := [x] + rest;
    forall i, j | 0 <= i < j < |s| ensures s[i].index != s[j].index {
      assert s[j] == rest[j - 1];
      if i > 0 {
        assert s[i] == rest[i - 1];
      } else {
        assert rest[j - 1] in rest;
      }
    }
  }

  /** The neutral drop removes only rating-3 rows, down to a quarter of the others rounded up. */
  lemma NeutralDrop(rows: seq<Row>, mask: seq<bool>)
    requires UniqueLabels(rows) && NeutralDraw(rows, mask) && NeutralExcess(rows) > 0
    ensures CountIn(Undersampled(rows, mask), Positive) == CountIn(rows, Positive)
    ensures CountIn(Undersampled(rows, mask), Negative) == CountIn(rows, Negative)
    ensures var out := Undersampled(rows, mask);
      4 * CountIn(out, Neutral) <= |out| - CountIn(out, Neutral) + 3
  {
    DropChosen(rows, mask);
    UnchosenCountInside(rows, mask, Neutral, Neutral);
    assert Neutral * Positive == {} && Neutral * Negative == {};
    UnchosenKeepsOthers(rows, mask, Neutral, Positive);
    UnchosenKeepsOthers(rows, mask, Neutral, Negative);
    CountInLength(rows, Positive);
    CountInLength(rows, Negative);
    CountInLength(Undersampled(rows, mask), Positive);
    CountInLength(Undersampled(rows, mask), Negative);
  }

  /**
   * With a whole sample size, whenever the neutral step drops rows it undoes
   * the positive/negative balance: the result keeps every positive and
   * negative row of the input, whose counts differ (equal counts fail earlier).
   */
  lemma BalanceReviewsWholeSizeUnbalances(df: Chunk, posMask: seq<bool>, neutralMask: seq<bool>)
    requires UniqueLabels(df.rows) && PosNegDraw(df.rows, posMask)
    requires Draw(df.rows, neutralMask, Neutral, NeutralExcess(Undersampled(df.rows, posMask)))
    requires BalanceReviewsWholeSize(df, true, posMask, neutralMask).Success?
    requires NeutralExcess(Undersampled(df.rows, posMask)) > 0
    ensures var out := BalanceReviewsWholeSize(df, true, posMask, neutralMask).value.rows;
      CountIn(out, Positive) != CountIn(out, Negative)
  {
    var out := Undersampled(df.rows, neutralMask);
    DropChosen(df.rows, neutralMask);
    assert Neutral * Positive == {} && Neutral * Negative == {};
    UnchosenKeepsOthers(df.rows, neutralMask, Neutral, Positive);
    UnchosenKeepsOthers(df.rows, neutralMask, Neutral, Negative);
    CountInLength(df.rows, Positive);
    CountInLength(df.rows, Negative);
    CountInLength(out, Positive);
    CountInLength(out, Negative);
  }

  // ---------------------------------------------------------------------------
  // _save_chunk

  /** What `_save_chunk` hands the chunk to. */
  datatype SaveCall =
    | SaveMethodCall(path: string)        // `save_method(df, save_path)`
    | ToCsv(target: Option<string>)       // `df.to_csv(...)`; `None` writes no file

  /** `f"{outdir}/amazon_reviews_chunk_{n}"`. */
  function SavePath(outdir: string, n: nat): (p: string)
    ensures StartsWith(p, outdir + "/amazon_reviews_chunk_")
  {
    outdir + "/amazon_reviews_chunk_" + NatToString(n)
  }

  /** Different counters give different save paths. */
  lemma SavePathInjective(outdir: string, n: nat, m: nat)
    requires SavePath(outdir, n) == SavePath(outdir, m)
    ensures n == m
  {
    var prefix := outdir + "/amazon_reviews_chunk_";
    assert SavePath(outdir, n)[|prefix|..] == NatToString(n);
    assert SavePath(outdir, m)[|prefix|..] == NatToString(m);
    NatToStringInjective(n, m);
  }

  /** `_save_chunk` as written: without a save method, `df.to_csv()` gets no path. */
  function SaveCallAsWritten(outdir: string, n: nat, hasSaveMethod: bool): SaveCall
  {
    if hasSaveMethod then SaveMethodCall(SavePath(outdir, n)) else ToCsv(None)
  }

  /** As written, a chunk saved without a save method is written nowhere: the ".csv" path is built and dropped. */
  lemma SaveCallAsWrittenLosesChunk(outdir: string, n: nat)
    ensures SaveCallAsWritten(outdir, n, false).ToCsv?
    ensures SaveCallAsWritten(outdir, n, false).target.None?
  {
  }

  /** `_save_chunk` as evidently intended: the csv goes to the path with ".csv" appended. */
  function SaveCallFor(outdir: string, n: nat, hasSaveMethod: bool): (c: SaveCall)
    ensures hasSaveMethod <==> c.SaveMethodCall?
  {
    if hasSaveMethod then SaveMethodCall(SavePath(outdir, n)) else ToCsv(Some(SavePath(outdir, n) + ".csv"))
  }

  /** The target a save call writes to, if any. */
  function Target(c: SaveCall): Option<string>
  {
    match c
    case SaveMethodCall(p) => Some(p)
    case ToCsv(p) => p
  }

  /** Every save writes somewhere, and different counters never write to the same target. */
  lemma SaveCallTargets(outdir: string, n: nat, m: nat, hasSaveMethod: bool)
    ensures Target(SaveCallFor(outdir, n, hasSaveMethod)).Some?
    ensures n != m ==> Target(SaveCallFor(outdir, n, hasSaveMethod)) != Target(SaveCallFor(outdir, m, hasSaveMethod))
  {
    if n != m && Target(SaveCallFor(outdir, n, hasSaveMethod)) == Target(SaveCallFor(outdir, m, hasSaveMethod)) {
      var p, q := SavePath(outdir, n), SavePath(outdir, m);
      if !hasSaveMethod {
        assert p + ".csv" == q + ".csv";
        assert p == (p + ".csv")[..|p|];
        assert |p| == |q|;
        assert q == (q + ".csv")[..|q|];
      }
      SavePathInjective(outdir, n, m);
    }
  }

  // ---------------------------------------------------------------------------
  // _transform_chunk

  /** The extractor's options that `_transform_chunk` reads. */
  datatype Options = Options(
    features: seq<string>,       // [] when None
    maximumWords: int,           // 0 when None
    dropEmptyReviews: bool,
    balancePosNeg: bool,
    balanceNeutral: bool)

  /** The draws the extractor's generator may make for one chunk. */
  predicate ExtractorDraws(rows: seq<Row>, posMask: seq<bool>, neutralMask: seq<bool>) {
    PosNegDraw(rows, posMask) && NeutralDraw(Undersampled(rows, posMask), neutralMask)
  }

  /**
   * `_transform_chunk`: the features when given, the (corrected) balance when
   * enabled, the fill; a truthy `maximum_words` reaches the branch that
   * applies `x.split` to whole columns and raises; then the empty texts go.
   */
  function TransformChunkSpec(df: Chunk, opts: Options, posMask: seq<bool>, neutralMask: seq<bool>): Result<Chunk, ChunkError>
  {
    var extracted := if |opts.features| > 0 then AmazonTransform.ExtractFeatures(df, opts.features) else Success(df);
    if extracted.Failure? then extracted
    else
      var balanced := if opts.balancePosNeg then BalanceReviews(extracted.value, opts.balanceNeutral, posMask, neutralMask)
        else extracted;
      if balanced.Failure? then balanced
      else if TextColumn !in balanced.value.columns then Failure(MissingColumn(TextColumn))
      else if opts.maximumWords != 0 then Failure(SeriesHasNoSplit)
      else
        var filled := Filled(balanced.value.rows);
        Success(Chunk(balanced.value.columns, if opts.dropEmptyReviews then NonEmpty(filled) else filled))
  }

  /** Every returned row is an input row with its null text filled. */
  lemma TransformChunkRows(df: Chunk, opts: Options, posMask: seq<bool>, neutralMask: seq<bool>, x: Row)
    requires TransformChunkSpec(df, opts, posMask, neutralMask).Success?
    requires x in TransformChunkSpec(df, opts, posMask, neutralMask).value.rows
    ensures exists o :: (o in df.rows && x == o.(text := Some(TextOrEmpty(o.text))))
  {
    var extracted := if |opts.features| > 0 then Chunk(opts.features, df.rows) else df;
    var balanced := if opts.balancePosNeg then BalanceReviews(extracted, opts.balanceNeutral, posMask, neutralMask).value
      else extracted;
    assert forall y :: y in balanced.rows ==> y in df.rows;
    var filled := Filled(balanced.rows);
    assert x in filled;
    var i :| 0 <= i < |filled| && filled[i] == x;
    assert balanced.rows[i] in df.rows;
  }

  /**
   * A successful `_transform_chunk` had no `maximum_words`, keeps exactly the
   * requested features, and with `drop_empty_reviews` leaves no empty text.
   */
  lemma TransformChunkShape(df: Chunk, opts: Options, posMask: seq<bool>, neutralMask: seq<bool>)
    requires TransformChunkSpec(df, opts, posMask, neutralMask).Success?
    ensures opts.maximumWords == 0
    ensures |opts.features| > 0 ==> TransformChunkSpec(df, opts, posMask, neutralMask).value.columns == opts.features
    ensures opts.dropEmptyReviews ==> forall x :: x in TransformChunkSpec(df, opts, posMask, neutralMask).value.rows ==> x.text != Some("")
  {
  }

  // ---------------------------------------------------------------------------
  // The extractor

  /** A save issued by `__next__`: the chunk, and the call it was handed to. */
  datatype SaveRecord = SaveRecord(n: nat, chunk: Chunk, call: SaveCall)

  class AmazonReviewsExtractor {
    const opts: Options
    const outdir: string          // "" when None
    const hasSaveMethod: bool
    /** `_loaded_chunks`. */
    var loadedChunks: nat
    /** The chunks the underlying reader has still to yield. */
    var pending: seq<Chunk>
    /** The saves issued so far, oldest first. */
    var saved: seq<SaveRecord>

    /** Saves carry strictly increasing counters, none beyond the current one, each with its own call. */
    predicate Valid()
      reads this
    {
      (forall i, j :: 0 <= i < j < |saved| ==> saved[i].n < saved[j].n)
      && (forall i :: 0 <= i < |saved| ==> 1 <= saved[i].n <= loadedChunks)
      && (forall i :: 0 <= i < |saved| ==> saved[i].call == SaveCallFor(outdir, saved[i].n, hasSaveMethod))
    }

    constructor (chunks: seq<Chunk>, opts: Options, outdir: string, hasSaveMethod: bool)
      ensures this.opts == opts && this.outdir == outdir && this.hasSaveMethod == hasSaveMethod
      ensures loadedChunks == 0 && pending == chunks && saved == []
      ensures Valid()
    {
      this.opts := opts;
      this.outdir := outdir;
      this.hasSaveMethod := hasSaveMethod;
      loadedChunks := 0;
      pending := chunks;
      saved := [];
    }

    /** `_transform_chunk` with this extractor's options; the draws are any its generator may make. */
    method TransformChunk(df: Chunk) returns (r: Result<Chunk, ChunkError>)
      ensures exists posMask, neutralMask ::
        ExtractorDraws(df.rows, posMask, neutralMask) && r == TransformChunkSpec(df, opts, posMask, neutralMask)
    {
      ghost var somePos := PosNegDrawExists(df.rows);
      var posMask :| PosNegDraw(df.rows, posMask);
      ghost var someNeutral := FirstOf(Undersampled(df.rows, posMask), Neutral, NeutralExcess(Undersampled(df.rows, posMask)));
      assert NeutralDraw(Undersampled(df.rows, posMask), someNeutral);
      var neutralMask :| NeutralDraw(Undersampled(df.rows, posMask), neutralMask);
      assert ExtractorDraws(df.rows, posMask, neutralMask);
      var chunk := df;
      if |opts.features| > 0 {
        var missing := FirstMissing(opts.features, chunk.columns);
        if missing.Some? {
          return Failure(MissingColumn(missing.value));
        }
        chunk := Chunk(opts.features, chunk.rows);
      }
      if opts.balancePosNeg {
        var balanced := BalanceReviews(chunk, opts.balanceNeutral, posMask, neutralMask);
        if balanced.Failure? {
          return balanced;
        }
        chunk := balanced.value;
      }
      var frame := new Frame(chunk);
      var err := frame.FillEmptyReviews();
      if err.Some? {
        return Failure(err.value);
      }
      if opts.maximumWords != 0 {
        return Failure(SeriesHasNoSplit);
      }
      if opts.dropEmptyReviews {
        frame.rows := NonEmpty(frame.rows);
      }
      r := Success(frame.Value());
    }

    /** `_save_chunk` as evidently intended: the save is recorded under the current counter. */
    method SaveChunk(df: Chunk)
      requires Valid() && loadedChunks >= 1
      requires saved == [] || saved[|saved| - 1].n < loadedChunks
      modifies this
      ensures saved == old(saved) + [SaveRecord(loadedChunks, df, SaveCallFor(outdir, loadedChunks, hasSaveMethod))]
      ensures loadedChunks == old(loadedChunks) && pending == old(pending)
      ensures Valid()
    {
      saved := saved + [SaveRecord(loadedChunks, df, SaveCallFor(outdir, loadedChunks, hasSaveMethod))];
    }

    /**
     * `__next__`: the counter goes up by one before the reader is asked for a
     * chunk, so it also counts the attempt that finds the reader exhausted.
     * Without an output directory the transformed chunk is returned; with one,
     * the untransformed chunk is saved and nothing is returned.
     */
    method Next() returns (r: Result<Option<Chunk>, ChunkError>)
      requires Valid()
      modifies this
      ensures Valid()
      ensures loadedChunks == old(loadedChunks) + 1
      ensures old(pending) == [] ==> r == Failure(StopIteration) && pending == [] && saved == old(saved)
      ensures old(pending) != [] && outdir == "" ==>
        pending == old(pending)[1..] && saved == old(saved) &&
        exists posMask, neutralMask ::
          (ExtractorDraws(old(pending)[0].rows, posMask, neutralMask) &&
          r == (match TransformChunkSpec(old(pending)[0], opts, posMask, neutralMask)
                case Success(c) => Success(Some(c))
                case Failure(e) => Failure(e)))
      ensures old(pending) != [] && outdir != "" ==>
        pending == old(pending)[1..] && r == Success(None) &&
        saved == old(saved) + [SaveRecord(loadedChunks, old(pending)[0], SaveCallFor(outdir, loadedChunks, hasSaveMethod))]
    {
      loadedChunks := loadedChunks + 1;
      if pending == [] {
        return Failure(StopIteration);
      }
      var df := pending[0];
      pending := pending[1..];
      if outdir == "" {
        var t := TransformChunk(df);
        r := match t
          case Success(c) => Success(Some(c))
          case Failure(e) => Failure(e);
      } else {
        SaveChunk(df);
        r := Success(None);
      }
    }

    /** `transform` is not implemented. */
    method Transform(df: Chunk) returns (r: Result<Chunk, ChunkError>)
      ensures r == Failure(NotImplemented)
    {
      r := Failure(NotImplemented);
    }

    /** `extract_n_chunks` raises before its loop. */
    method ExtractNChunks(numChunks: int) returns (r: Result<seq<Chunk>, ChunkError>)
      ensures r == Failure(NotImplemented)
    {
      r := Failure(NotImplemented);
    }

    /** No two saves of one extractor write to the same target, and every save writes somewhere. */
    lemma SavesDistinct()
      requires Valid()
      ensures forall i :: 0 <= i < |saved| ==> Target(saved[i].call).Some?
      ensures forall i, j :: 0 <= i < j < |saved| ==> Target(saved[i].call) != Target(saved[j].call)
    {
      forall i | 0 <= i < |saved| ensures Target(saved[i].call).Some? {
        SaveCallTargets(outdir, saved[i].n, saved[i].n, hasSaveMethod);
      }
      forall i, j | 0 <= i < j < |saved| ensures Target(saved[i].call) != Target(saved[j].call) {
        SaveCallTargets(outdir, saved[i].n, saved[j].n, hasSaveMethod);
      }
    }
  }
}

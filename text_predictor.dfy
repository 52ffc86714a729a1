/**
 * `TextPredictor`: a sentiment model and a tokenizer, applied either to every
 * sentence of a text (split by `sentences()` with its defaults) or to the
 * whole text. The model and the tokenizer are opaque callables here.
 */
module TextPredictor {
  import opened Wrappers
  import opened Strings
  import opened StrPlus

  /** The dictionary `predict` returns: per-sentence or whole-text. */
  datatype Prediction<R> =
    | PerSentence(texts: seq<string>, sentiments: seq<R>)
    | WholeText(text: string, sentiment: R)

  /** The predictor's fields are set once, by the constructor, and never changed. */
  datatype TextPredictor<!T, R> = TextPredictor(model: T -> R, tokenizer: string -> T, splitSentences: bool := true)
  {
    /** `predict(text)`. */
    function Predict(text: string): (p: Prediction<R>)
      ensures p.PerSentence? <==> splitSentences
      ensures p.PerSentence? ==>
        p.texts == SplitAtMarks(text, DefaultMarks()) &&
        |p.sentiments| == |p.texts| &&
        forall i :: 0 <= i < |p.texts| ==> p.sentiments[i] == model(tokenizer(p.texts[i]))
      ensures p.WholeText? ==> p.text == text && p.sentiment == model(tokenizer(text))
    {
      if splitSentences then
        SentencesDefaults(text);
        var sentences := Sentences(text).value;
        PerSentence(sentences, seq(|sentences|, i requires 0 <= i < |sentences| => model(tokenizer(sentences[i]))))
      else
        WholeText(text, model(tokenizer(text)))
    }
  }

  /**
   * Split predictions cover the whole text: one sentence more than there are
   * "?", "!" or "." marks followed by a space, no sentence holds such a
   * separator, and text without one is scored as a single sentence.
   */
  lemma PredictSentenceCount<T, R>(p: TextPredictor<T, R>, text: string)
    requires p.splitSentences
    ensures |p.Predict(text).texts| == SeparatorCount(text, DefaultMarks()) + 1
    ensures forall i :: 0 <= i < |p.Predict(text).texts| ==> NoSeparator(p.Predict(text).texts[i], DefaultMarks())
    ensures NoSeparator(text, DefaultMarks()) ==> p.Predict(text).sentiments == [p.model(p.tokenizer(text))]
  {
    SplitPieceCount(text, DefaultMarks());
    PiecesHaveNoSeparator(text, DefaultMarks());
    if NoSeparator(text, DefaultMarks()) {
      SplitWithoutSeparator(text, DefaultMarks());
    }
  }

  /** Without a sentence separator, both modes give the same single score. */
  lemma SplitAgreesOnOneSentence<T, R>(model: T -> R, tokenizer: string -> T, text: string)
    requires NoSeparator(text, DefaultMarks())
    ensures TextPredictor(model, tokenizer, true).Predict(text).sentiments
         == [TextPredictor(model, tokenizer, false).Predict(text).sentiment]
  {
    PredictSentenceCount(TextPredictor(model, tokenizer, true), text);
  }
}

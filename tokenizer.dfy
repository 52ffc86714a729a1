/**
 * The `Tokenizer` wrapper around a text-vectorisation layer: its size limits,
 * the vocabulary the layer reports, `decode` (token ids back to words, with
 * Python's list indexing and "" for an id out of range), and saving and
 * loading the vocabulary as newline-separated text.
 */
module Tokenizer {
  import opened Wrappers
  import opened Strings

  /**
   * `vocabulary[token]` on a Python list: non-negative ids index from the
   * front, negative ids from the back, and an id out of range (an
   * `IndexError`) decodes to "".
   */
  function Lookup(vocabulary: seq<string>, token: int): (word: string)
    ensures 0 <= token < |vocabulary| ==> word == vocabulary[token]
    ensures -|vocabulary| <= token < 0 ==> word == vocabulary[|vocabulary| + token]
    ensures !(-|vocabulary| <= token < |vocabulary|) ==> word == ""
  {
    if 0 <= token < |vocabulary| then vocabulary[token]
    else if -|vocabulary| <= token < 0 then vocabulary[|vocabulary| + token]
    else ""
  }

  /** The id the vocabulary gives a word: the position of its first occurrence. */
  function IndexOf(vocabulary: seq<string>, word: string): (id: Option<nat>)
    ensures id.Some? <==> word in vocabulary
    ensures id.Some? ==> id.value < |vocabulary| && vocabulary[id.value] == word
    ensures id.Some? ==> forall k :: 0 <= k < id.value ==> vocabulary[k] != word
  {
    if vocabulary == [] then None
    else if vocabulary[0] == word then Some(0)
    else match IndexOf(vocabulary[1..], word)
      case None => None
      case Some(k) => Some(k + 1)
  }

  /** Decoding the id of a word in the vocabulary gives the word back. */
  lemma DecodeOfEncode(vocabulary: seq<string>, word: string)
    requires word in vocabulary
    ensures Lookup(vocabulary, IndexOf(vocabulary, word).value) == word
  {
  }

  /** With distinct entries, encoding the word at an id gives the id back. */
  lemma EncodeOfDecode(vocabulary: seq<string>, token: nat)
    requires token < |vocabulary|
    requires forall a, b :: 0 <= a < b < |vocabulary| ==> vocabulary[a] != vocabulary[b]
    ensures IndexOf(vocabulary, Lookup(vocabulary, token)) == Some(token)
  {
  }

  /** A negative id names the same word as the non-negative id `|vocabulary|` above it. */
  lemma NegativeIdWraps(vocabulary: seq<string>, token: int)
    requires 0 <= token < |vocabulary|
    ensures Lookup(vocabulary, token - |vocabulary|) == Lookup(vocabulary, token)
  {
  }

  /** Every decoded word is a vocabulary entry or the empty string. */
  lemma DecodedWordKnown(vocabulary: seq<string>, token: int)
    ensures Lookup(vocabulary, token) in vocabulary || Lookup(vocabulary, token) == ""
    ensures Lookup(vocabulary, token) == "" && "" !in vocabulary ==> !(-|vocabulary| <= token < |vocabulary|)
  {
  }

  /** Loading content and saving it again writes the same content back. */
  lemma {:induction false} JoinOfSplit(content: string, c: char)
    ensures Join(SplitOn(content, c), [c]) == content
    decreases |content|
  {
    if content != [] {
      var rest := SplitOn(content[1..], c);
      JoinOfSplit(content[1..], c);
      if content[0] == c {
        assert SplitOn(content, c) == [""] + rest;
        assert ([""] + rest)[1..] == rest;
      } else if |rest| == 1 {
        assert SplitOn(content, c) == [[content[0]] + rest[0]];
      } else {
        assert SplitOn(content, c) == [[content[0]] + rest[0]] + rest[1..];
        assert ([[content[0]] + rest[0]] + rest[1..])[1..] == rest[1..];
      }
    }
  }

  class Tokenizer {
    /** The largest vocabulary the layer keeps. */
    const maxTokens: int
    /** The number of ids the layer outputs per text. */
    const sequenceLength: int
    /** What the layer's `get_vocabulary()` returns. */
    var vocabulary: seq<string>

    constructor (maxTokens: int := 15000, sequenceLength: int := 100, vocabulary: seq<string> := [])
      ensures this.maxTokens == maxTokens && this.sequenceLength == sequenceLength
      ensures this.vocabulary == vocabulary
    {
      this.maxTokens := maxTokens;
      this.sequenceLength := sequenceLength;
      this.vocabulary := vocabulary;
    }

    /**
     * `decode(tokens_iterable)`: every id of every sequence replaced by its word;
     * the shape of the input is kept and the tokenizer is not changed.
     */
    method Decode(tokensIterable: seq<seq<int>>) returns (decoded: seq<seq<string>>)
      ensures |decoded| == |tokensIterable|
      ensures forall i :: 0 <= i < |decoded| ==> |decoded[i]| == |tokensIterable[i]|
      ensures forall i, j :: 0 <= i < |decoded| && 0 <= j < |decoded[i]| ==>
        decoded[i][j] == Lookup(vocabulary, tokensIterable[i][j])
    {
      var vocab := vocabulary;
      decoded := [];
      for i := 0 to |tokensIterable|
        invariant |decoded| == i
        invariant forall k :: 0 <= k < i ==> |decoded[k]| == |tokensIterable[k]|
        invariant forall k, j :: 0 <= k < i && 0 <= j < |decoded[k]| ==>
          decoded[k][j] == Lookup(vocab, tokensIterable[k][j])
      {
        var tokens := tokensIterable[i];
        var tmpDecoded: seq<string> := [];
        for j := 0 to |tokens|
          invariant |tmpDecoded| == j
          invariant forall m :: 0 <= m < j ==> tmpDecoded[m] == Lookup(vocab, tokens[m])
        {
          var token := tokens[j];
          if -|vocab| <= token < |vocab| {
            var index := if token < 0 then |vocab| + token else token;
            tmpDecoded := tmpDecoded + [vocab[index]];
          } else {
            tmpDecoded := tmpDecoded + [""];
          }
        }
        decoded := decoded + [tmpDecoded];
      }
    }

    /** `save_vocabulary`: the text written is the vocabulary joined by newlines. */
    method SaveVocabulary() returns (content: string)
      ensures content == Join(vocabulary, "\n")
      ensures SplitOn(content, '\n') == vocabulary <==>
        vocabulary != [] && forall i :: 0 <= i < |vocabulary| ==> '\n' !in vocabulary[i]
    {
      content := Join(vocabulary, "\n");
      SplitJoinRoundTrip(vocabulary, '\n');
    }

    /** `load_vocabulary`: the text read, split on newlines, becomes the vocabulary. */
    method LoadVocabulary(content: string)
      modifies this
      ensures vocabulary == SplitOn(content, '\n')
      ensures Join(vocabulary, "\n") == content
    {
      vocabulary := SplitOn(content, '\n');
      JoinOfSplit(content, '\n');
    }
  }
}

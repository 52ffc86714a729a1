/**
 * `ready_text_for_pred`: the text normalisation applied before a prediction.
 * Non-letters become spaces, the text is lower-cased and stripped, and runs of
 * spaces collapse to one. The main theorem states what comes out: the runs of
 * ASCII letters of the input, lower-cased, joined by single spaces.
 */
module Preprocess {
  import opened Strings
  import opened StrPlus

  /** `ready_text_for_pred(text)`. */
  function ReadyTextForPred(text: string): string
  {
    OneSpace(Strip(Lower(Letters(text, " "))))
  }

  predicate IsLetterRun(w: string) {
    w != [] && forall i :: 0 <= i < |w| ==> IsAsciiLetter(w[i])
  }

  /** Number of leading ASCII letters. */
  function LetterRunLen(s: string): (n: nat)
    ensures n <= |s|
    ensures forall i :: 0 <= i < n ==> IsAsciiLetter(s[i])
    ensures n < |s| ==> !IsAsciiLetter(s[n])
  {
    if s != [] && IsAsciiLetter(s[0]) then 1 + LetterRunLen(s[1..]) else 0
  }

  /** The maximal runs of ASCII letters of `s`, left to right: the reference definition. */
  function LetterRuns(s: string): (runs: seq<string>)
    ensures forall k :: 0 <= k < |runs| ==> IsLetterRun(runs[k])
    decreases |s|
  {
    if s == [] then []
    else if !IsAsciiLetter(s[0]) then LetterRuns(s[1..])
    else
      var n := LetterRunLen(s);
      [s[..n]] + LetterRuns(s[n..])
  }

  predicate LowerOrSpace(c: char) {
    'a' <= c <= 'z' || c == ' '
  }

  lemma LettersOfRun(w: string)
    requires forall i :: 0 <= i < |w| ==> IsAsciiLetter(w[i])
    ensures Letters(w, " ") == w
  {
  }

  /** Replacing non-letters by spaces and splitting on whitespace finds exactly the letter runs. */
  lemma {:induction false} WordsOfLetters(t: string)
    ensures Words(Letters(t, " ")) == LetterRuns(t)
    decreases |t|
  {
    if t == [] {
    } else if !IsAsciiLetter(t[0]) {
      assert t == [t[0]] + t[1..];
      LettersAppend([t[0]], t[1..], " ");
      assert Letters([t[0]], " ") == " ";
      WordsSkipSpaces(" ", Letters(t[1..], " "));
      WordsOfLetters(t[1..]);
    } else {
      var n := LetterRunLen(t);
      var w, rest := t[..n], t[n..];
      assert t == w + rest;
      LettersAppend(w, rest, " ");
      LettersOfRun(w);
      WordsAfterWord(w, Letters(rest, " "));
      WordsOfLetters(rest);
    }
  }

  predicate LowerText(s: string) {
    forall i :: 0 <= i < |s| ==> LowerOrSpace(s[i])
  }

  predicate Trimmed(s: string) {
    s != [] ==> s[0] != ' ' && s[|s| - 1] != ' '
  }

  lemma LowerLettersText(t: string)
    ensures LowerText(Lower(Letters(t, " ")))
  {
  }

  lemma StripLowerText(x: string)
    requires LowerText(x)
    ensures LowerText(Strip(x)) && Trimmed(Strip(x))
  {
    StripShape(x);
  }

  lemma OneSpaceLowerText(y: string)
    requires LowerText(y) && Trimmed(y)
    ensures LowerText(OneSpace(y)) && Trimmed(OneSpace(y)) && NoDoubleSpace(OneSpace(y))
  {
    var r := OneSpace(y);
    OneSpaceChars(y);
    OneSpaceNoDouble(y);
    forall i | 0 <= i < |r| ensures LowerOrSpace(r[i]) {
      assert r[i] in r;
      var j :| 0 <= j < |y| && y[j] == r[i];
    }
  }

  lemma SingleSpacedOfLowerText(r: string)
    requires LowerText(r) && Trimmed(r) && NoDoubleSpace(r)
    ensures SingleSpaced(r)
  {
    forall i | 0 <= i < |r| && IsSpace(r[i])
      ensures r[i] == ' ' && 0 < i < |r| - 1 && !IsSpace(r[i - 1]) && !IsSpace(r[i + 1])
    {
      assert LowerOrSpace(r[i]);
      if i > 0 { assert LowerOrSpace(r[i - 1]); }
      if i < |r| - 1 { assert LowerOrSpace(r[i + 1]); }
    }
  }

  /** The result has no leading, trailing or doubled whitespace, and only lower-case letters and spaces. */
  lemma ReadyTextShape(t: string)
    ensures SingleSpaced(ReadyTextForPred(t))
    ensures LowerText(ReadyTextForPred(t)) && Trimmed(ReadyTextForPred(t)) && NoDoubleSpace(ReadyTextForPred(t))
  {
    var x := Lower(Letters(t, " "));
    LowerLettersText(t);
    StripLowerText(x);
    OneSpaceLowerText(Strip(x));
    SingleSpacedOfLowerText(ReadyTextForPred(t));
  }

  /** `ready_text_for_pred(t)` is the letter runs of `t`, lower-cased, joined by single spaces. */
  lemma ReadyTextIsJoinedRuns(t: string)
    ensures ReadyTextForPred(t) == Join(LowerAll(LetterRuns(t)), " ")
  {
    var x := Lower(Letters(t, " "));
    var y := Strip(x);
    WordsOfLetters(t);
    WordsOfLower(Letters(t, " "));
    WordsOfStrip(x);
    WordsOfOneSpace(y);
    ReadyTextShape(t);
    SingleSpacedIsJoin(ReadyTextForPred(t));
  }

  lemma {:induction false} LetterRunsEmpty(t: string)
    ensures LetterRuns(t) == [] <==> forall i :: 0 <= i < |t| ==> !IsAsciiLetter(t[i])
    decreases |t|
  {
    if t != [] && !IsAsciiLetter(t[0]) {
      LetterRunsEmpty(t[1..]);
      assert forall i :: 1 <= i < |t| ==> t[i] == t[1..][i - 1];
    }
  }

  lemma LowerRunsAreWords(runs: seq<string>)
    requires forall k :: 0 <= k < |runs| ==> IsLetterRun(runs[k])
    ensures AllWords(LowerAll(runs))
  {
    forall k | 0 <= k < |runs| ensures IsWord(LowerAll(runs)[k]) {
      var w := runs[k];
      assert IsLetterRun(w);
      assert forall i :: 0 <= i < |w| ==> !IsSpace(Lower(w)[i]);
    }
  }

  /** The result is empty exactly when the input has no ASCII letter. */
  lemma ReadyTextEmpty(t: string)
    ensures ReadyTextForPred(t) == [] <==> forall i :: 0 <= i < |t| ==> !IsAsciiLetter(t[i])
  {
    ReadyTextIsJoinedRuns(t);
    var runs := LowerAll(LetterRuns(t));
    LowerRunsAreWords(LetterRuns(t));
    JoinWords(runs);
    LetterRunsEmpty(t);
  }

  /** Lower-case letters and spaces pass through `letters` and `lower` unchanged. */
  lemma LowerTextFixed(r: string)
    requires LowerText(r)
    ensures Lower(Letters(r, " ")) == r
  {
    assert Letters(r, " ") == r;
    assert Lower(r) == r;
  }

  /** Normalising normalised text changes nothing. */
  lemma ReadyTextIdempotent(t: string)
    ensures ReadyTextForPred(ReadyTextForPred(t)) == ReadyTextForPred(t)
  {
    var r := ReadyTextForPred(t);
    ReadyTextShape(t);
    LowerTextFixed(r);
    assert Strip(r) == r by {
      assert LeadingSpaces(r) == 0 && TrailingSpaces(r) == 0;
    }
    OneSpaceFixes(r);
  }
}

/**
 * The `StrPlus` string helpers: keep only ASCII letters (or letters and digits),
 * collapse runs of spaces, and split text into sentences at a punctuation mark
 * followed by a space. Each is one regular-expression substitution or split;
 * here each is the scan that the regular expression performs.
 */
module StrPlus {
  import opened Wrappers
  import opened Strings

  predicate IsAsciiLetter(c: char) {
    'a' <= c <= 'z' || 'A' <= c <= 'Z'
  }

  predicate IsAsciiAlnum(c: char) {
    IsAsciiLetter(c) || '0' <= c <= '9'
  }

  /** A replacement string that `re.sub` uses literally (no backslash templates). */
  predicate LiteralReplacement(repl: string) {
    '\\' !in repl
  }

  /** `re.sub(r"[^...]", repl, s)`: every character outside the class `keep` becomes `repl`. */
  function ReplaceOthers(s: string, keep: char -> bool, repl: string): (r: string)
    ensures |repl| == 1 ==> |r| == |s|
    ensures |repl| == 1 ==> forall i :: 0 <= i < |s| ==> r[i] == if keep(s[i]) then s[i] else repl[0]
  {
    if s == [] then []
    else (if keep(s[0]) then [s[0]] else repl) + ReplaceOthers(s[1..], keep, repl)
  }

  /** `StrPlus.letters(repl)`: `re.sub(r"[^a-zA-Z]", repl, s)`. */
  function Letters(s: string, repl: string := " "): (r: string)
    requires LiteralReplacement(repl)
    ensures |repl| == 1 ==> |r| == |s|
    ensures |repl| == 1 ==> forall i :: 0 <= i < |s| ==> r[i] == if IsAsciiLetter(s[i]) then s[i] else repl[0]
  {
    ReplaceOthers(s, IsAsciiLetter, repl)
  }

  /** `StrPlus.alphanumeric(repl)`: `re.sub(r"[^a-zA-Z0-9]", repl, s)`. */
  function Alphanumeric(s: string, repl: string := " "): (r: string)
    requires LiteralReplacement(repl)
    ensures |repl| == 1 ==> |r| == |s|
    ensures |repl| == 1 ==> forall i :: 0 <= i < |s| ==> r[i] == if IsAsciiAlnum(s[i]) then s[i] else repl[0]
  {
    ReplaceOthers(s, IsAsciiAlnum, repl)
  }

  /** With a one-character replacement, replacing the characters outside a class twice is replacing them once. */
  lemma ReplaceOthersIdempotent(s: string, keep: char -> bool, repl: string)
    requires |repl| == 1
    ensures ReplaceOthers(ReplaceOthers(s, keep, repl), keep, repl) == ReplaceOthers(s, keep, repl)
  {
    var once := ReplaceOthers(s, keep, repl);
    var twice := ReplaceOthers(once, keep, repl);
    assert |twice| == |once|;
    forall i | 0 <= i < |once| ensures twice[i] == once[i] {
      if keep(s[i]) { assert once[i] == s[i]; } else { assert once[i] == repl[0]; }
    }
  }

  lemma LettersIdempotent(s: string, repl: string)
    requires LiteralReplacement(repl) && |repl| == 1
    ensures Letters(Letters(s, repl), repl) == Letters(s, repl)
  {
    ReplaceOthersIdempotent(s, IsAsciiLetter, repl);
  }

  lemma AlphanumericIdempotent(s: string, repl: string)
    requires LiteralReplacement(repl) && |repl| == 1
    ensures Alphanumeric(Alphanumeric(s, repl), repl) == Alphanumeric(s, repl)
  {
    ReplaceOthersIdempotent(s, IsAsciiAlnum, repl);
  }

  /** For any replacement, one character outside the class becomes the whole replacement, one inside stays. */
  lemma ReplaceOthersChar(c: char, keep: char -> bool, repl: string)
    ensures ReplaceOthers([c], keep, repl) == if keep(c) then [c] else repl
  {
    assert [c][1..] == [];
    assert (if keep(c) then [c] else repl) + [] == (if keep(c) then [c] else repl);
  }

  /** For any replacement, the substitution works character by character: it distributes over concatenation. */
  lemma {:induction false} ReplaceOthersAppend(a: string, b: string, keep: char -> bool, repl: string)
    ensures ReplaceOthers(a + b, keep, repl) == ReplaceOthers(a, keep, repl) + ReplaceOthers(b, keep, repl)
  {
    if a == [] {
      assert a + b == b;
    } else {
      var head := if keep(a[0]) then [a[0]] else repl;
      assert (a + b)[0] == a[0];
      assert (a + b)[1..] == a[1..] + b;
      ReplaceOthersAppend(a[1..], b, keep, repl);
      assert head + (ReplaceOthers(a[1..], keep, repl) + ReplaceOthers(b, keep, repl))
          == (head + ReplaceOthers(a[1..], keep, repl)) + ReplaceOthers(b, keep, repl);
    }
  }

  lemma LettersChar(c: char, repl: string)
    requires LiteralReplacement(repl)
    ensures Letters([c], repl) == if IsAsciiLetter(c) then [c] else repl
  {
    ReplaceOthersChar(c, IsAsciiLetter, repl);
  }

  lemma AlphanumericChar(c: char, repl: string)
    requires LiteralReplacement(repl)
    ensures Alphanumeric([c], repl) == if IsAsciiAlnum(c) then [c] else repl
  {
    ReplaceOthersChar(c, IsAsciiAlnum, repl);
  }

  lemma LettersAppend(a: string, b: string, repl: string)
    requires LiteralReplacement(repl)
    ensures Letters(a + b, repl) == Letters(a, repl) + Letters(b, repl)
  {
    ReplaceOthersAppend(a, b, IsAsciiLetter, repl);
  }

  lemma AlphanumericAppend(a: string, b: string, repl: string)
    requires LiteralReplacement(repl)
    ensures Alphanumeric(a + b, repl) == Alphanumeric(a, repl) + Alphanumeric(b, repl)
  {
    ReplaceOthersAppend(a, b, IsAsciiAlnum, repl);
  }

  // ---------------------------------------------------------------------------
  // one_space: re.sub(r" +", " ", s)

  /** Number of leading ' ' characters. */
  function SpaceRun(s: string): (n: nat)
    ensures n <= |s|
    ensures forall i :: 0 <= i < n ==> s[i] == ' '
    ensures n < |s| ==> s[n] != ' '
  {
    if s != [] && s[0] == ' ' then 1 + SpaceRun(s[1..]) else 0
  }

  /** `StrPlus.one_space()`: each maximal run of ' ' becomes one ' '. */
  function OneSpace(s: string): (r: string)
    ensures |r| <= |s|
    ensures r == [] <==> s == []
    ensures s != [] ==> r[0] == s[0] && r[|r| - 1] == s[|s| - 1]
    decreases |s|
  {
    if s == [] then []
    else if s[0] == ' ' then " " + OneSpace(s[SpaceRun(s)..])
    else [s[0]] + OneSpace(s[1..])
  }

  ghost predicate NoDoubleSpace(s: string) {
    forall i, j :: 0 <= i < j < |s| && j == i + 1 ==> !(s[i] == ' ' && s[j] == ' ')
  }

  /** `s` with every ' ' removed. */
  function RemoveSpaces(s: string): string
  {
    if s == [] then [] else (if s[0] == ' ' then [] else [s[0]]) + RemoveSpaces(s[1..])
  }

  /** After `one_space` no two spaces are adjacent. */
  lemma {:induction false} OneSpaceNoDouble(s: string)
    ensures NoDoubleSpace(OneSpace(s))
    decreases |s|
  {
    if s != [] {
      if s[0] == ' ' {
        OneSpaceNoDouble(s[SpaceRun(s)..]);
      } else {
        OneSpaceNoDouble(s[1..]);
      }
    }
  }

  lemma {:induction false} RemoveSpacesSkip(s: string, n: nat)
    requires n <= |s| && forall i :: 0 <= i < n ==> s[i] == ' '
    ensures RemoveSpaces(s) == RemoveSpaces(s[n..])
  {
    if n > 0 {
      RemoveSpacesSkip(s[1..], n - 1);
      assert s[1..][n - 1..] == s[n..];
    }
  }

  /** `one_space` keeps every non-space character, unchanged and in order. */
  lemma {:induction false} OneSpaceKeepsText(s: string)
    ensures RemoveSpaces(OneSpace(s)) == RemoveSpaces(s)
    decreases |s|
  {
    if s != [] {
      if s[0] == ' ' {
        var n := SpaceRun(s);
        OneSpaceKeepsText(s[n..]);
        RemoveSpacesSkip(s, n);
        assert (" " + OneSpace(s[n..]))[1..] == OneSpace(s[n..]);
      } else {
        OneSpaceKeepsText(s[1..]);
        assert ([s[0]] + OneSpace(s[1..]))[1..] == OneSpace(s[1..]);
      }
    }
  }

  /** `one_space` introduces no character that was not already in the text. */
  lemma {:induction false} OneSpaceChars(s: string)
    ensures forall c :: c in OneSpace(s) ==> c in s
    decreases |s|
  {
    if s != [] {
      if s[0] == ' ' {
        var n := SpaceRun(s);
        OneSpaceChars(s[n..]);
        assert forall c :: c in s[n..] ==> c in s;
      } else {
        OneSpaceChars(s[1..]);
        assert forall c :: c in s[1..] ==> c in s;
      }
    }
  }

  /** Text without double spaces is left alone by `one_space`. */
  lemma {:induction false} OneSpaceFixes(s: string)
    requires NoDoubleSpace(s)
    ensures OneSpace(s) == s
    decreases |s|
  {
    if s != [] {
      var t := s[1..];
      assert NoDoubleSpace(t) by {
        forall i, j | 0 <= i < j < |t| && j == i + 1 ensures !(t[i] == ' ' && t[j] == ' ') {
          assert t[i] == s[i + 1] && t[j] == s[j + 1];
        }
      }
      OneSpaceFixes(t);
      if s[0] == ' ' {
        assert SpaceRun(s) == 1 by {
          if |s| > 1 {
            assert t[0] == s[1] && s[1] != ' ';
            assert SpaceRun(t) == 0;
          }
        }
        assert OneSpace(s) == " " + OneSpace(t);
      } else {
        assert OneSpace(s) == [s[0]] + OneSpace(t);
      }
      assert s == [s[0]] + t;
    }
  }

  lemma OneSpaceIdempotent(s: string)
    ensures OneSpace(OneSpace(s)) == OneSpace(s)
  {
    OneSpaceNoDouble(s);
    OneSpaceFixes(OneSpace(s));
  }

  /** A character other than ' ' passes through `one_space` unchanged. */
  lemma OneSpaceCons(c: char, r: string)
    requires c != ' '
    ensures OneSpace([c] + r) == [c] + OneSpace(r)
  {
    assert ([c] + r)[1..] == r;
  }

  lemma {:induction false} OneSpaceOfWord(w: string, r: string)
    requires NoSpace(w)
    ensures OneSpace(w + r) == w + OneSpace(r)
  {
    if w == [] {
      assert w + r == r;
    } else {
      assert w + r == [w[0]] + (w[1..] + r);
      OneSpaceCons(w[0], w[1..] + r);
      OneSpaceOfWord(w[1..], r);
      assert w == [w[0]] + w[1..];
    }
  }

  /** `one_space` does not change the words `split()` finds. */
  lemma {:induction false} WordsOfOneSpace(s: string)
    ensures Words(OneSpace(s)) == Words(s)
    decreases |s|
  {
    if s == [] {
    } else if s[0] == ' ' {
      var n := SpaceRun(s);
      assert s == s[..n] + s[n..];
      WordsSkipSpaces(s[..n], s[n..]);
      WordsSkipSpaces(" ", OneSpace(s[n..]));
      WordsOfOneSpace(s[n..]);
    } else if IsSpace(s[0]) {
      assert ([s[0]] + OneSpace(s[1..]))[1..] == OneSpace(s[1..]);
      WordsOfOneSpace(s[1..]);
    } else {
      var n := WordLen(s);
      var w, r := s[..n], s[n..];
      assert s == w + r;
      OneSpaceOfWord(w, r);
      WordsAfterWord(w, r);
      WordsAfterWord(w, OneSpace(r));
      WordsOfOneSpace(r);
    }
  }

  // ---------------------------------------------------------------------------
  // sentences: re.split(r"[<marks>] ", s), optionally keeping the separators

  datatype RegexError = UnterminatedCharacterSet

  /** Characters that would change the meaning of the class `[...]` if they appeared in `symbols`. */
  predicate PlainSymbols(symbols: Option<string>) {
    symbols.Some? ==> forall i :: 0 <= i < |symbols.value| ==> symbols.value[i] !in {']', '\\', '^', '-'}
  }

  /** The characters between the brackets of the pattern `sentences` builds, in the order it adds them. */
  function ClassChars(qstnMark: bool, exclMark: bool, period: bool, comma: bool, symbols: Option<string>): string
  {
    (if qstnMark then "?" else "") + (if exclMark then "!" else "") + (if period then "." else "")
    + (if comma then "," else "") + (if symbols.Some? then symbols.value else "")
  }

  /** A separator: one of the marks followed by a space. */
  predicate SeparatorAt(s: string, i: int, marks: set<char>) {
    0 <= i < |s| - 1 && s[i] in marks && s[i + 1] == ' '
  }

  predicate NoSeparator(s: string, marks: set<char>) {
    forall i :: 0 <= i < |s| - 1 ==> !SeparatorAt(s, i, marks)
  }

  /** `re.split(r"[marks] ", s)`: the leftmost non-overlapping separators cut `s` into pieces. */
  function SplitAtMarks(s: string, marks: set<char>): (parts: seq<string>)
    ensures |parts| >= 1
    decreases |s|
  {
    if SeparatorAt(s, 0, marks) then [""] + SplitAtMarks(s[2..], marks)
    else if s == [] then [""]
    else
      var rest := SplitAtMarks(s[1..], marks);
      [[s[0]] + rest[0]] + rest[1..]
  }

  /** `re.split(r"([marks] )", s)`: the same pieces with the separators between them. */
  function SplitAtMarksKeep(s: string, marks: set<char>): (parts: seq<string>)
    ensures |parts| >= 1
    decreases |s|
  {
    if SeparatorAt(s, 0, marks) then ["", s[..2]] + SplitAtMarksKeep(s[2..], marks)
    else if s == [] then [""]
    else
      var rest := SplitAtMarksKeep(s[1..], marks);
      [[s[0]] + rest[0]] + rest[1..]
  }

  /**
   * `StrPlus.sentences(...)`: the pattern is `[` + the selected marks + `]` followed by a
   * space; with nothing selected the pattern is `[] `, which `re` rejects.
   */
  function Sentences(s: string, qstnMark: bool := true, exclMark: bool := true, period: bool := true,
                     comma: bool := false, keepPunctuation: bool := false, symbols: Option<string> := None)
    : (r: Result<seq<string>, RegexError>)
    requires PlainSymbols(symbols)
  {
    var chars := ClassChars(qstnMark, exclMark, period, comma, symbols);
    var marks := set i | 0 <= i < |chars| :: chars[i];
    if chars == [] then Failure(UnterminatedCharacterSet)
    else if keepPunctuation then Success(SplitAtMarksKeep(s, marks))
    else Success(SplitAtMarks(s, marks))
  }

  /** The marks `sentences` uses with its default arguments. */
  function DefaultMarks(): set<char> { {'?', '!', '.'} }

  // ---------------------------------------------------------------------------
  // Facts about the split

  lemma FirstPieceStart(s: string, marks: set<char>)
    ensures SplitAtMarks(s, marks)[0] == [] || (s != [] && !SeparatorAt(s, 0, marks) && SplitAtMarks(s, marks)[0][0] == s[0])
  {
  }

  /** No piece returned by the split contains a separator. */
  lemma {:induction false} PiecesHaveNoSeparator(s: string, marks: set<char>)
    ensures forall k :: 0 <= k < |SplitAtMarks(s, marks)| ==> NoSeparator(SplitAtMarks(s, marks)[k], marks)
    decreases |s|
  {
    var parts := SplitAtMarks(s, marks);
    if SeparatorAt(s, 0, marks) {
      PiecesHaveNoSeparator(s[2..], marks);
      assert parts[1..] == SplitAtMarks(s[2..], marks);
    } else if s != [] {
      var rest := SplitAtMarks(s[1..], marks);
      PiecesHaveNoSeparator(s[1..], marks);
      FirstPieceStart(s[1..], marks);
      var first := [s[0]] + rest[0];
      forall i | 0 <= i < |first| - 1 ensures !SeparatorAt(first, i, marks) {
        if i == 0 {
          assert first[1] == rest[0][0];
          assert rest[0][0] == s[1];
        } else {
          assert !SeparatorAt(rest[0], i - 1, marks);
        }
      }
      assert parts[1..] == rest[1..];
    }
  }

  /** With the separators kept, joining the pieces gives back the text. */
  lemma {:induction false} SplitKeepConcat(s: string, marks: set<char>)
    ensures Concat(SplitAtMarksKeep(s, marks)) == s
    decreases |s|
  {
    if SeparatorAt(s, 0, marks) {
      SplitKeepConcat(s[2..], marks);
      var rest := SplitAtMarksKeep(s[2..], marks);
      assert (["", s[..2]] + rest)[1..] == [s[..2]] + rest;
      assert ([s[..2]] + rest)[1..] == rest;
      assert s == s[..2] + s[2..];
    } else if s != [] {
      SplitKeepConcat(s[1..], marks);
      var rest := SplitAtMarksKeep(s[1..], marks);
      assert Concat(rest) == rest[0] + Concat(rest[1..]);
      assert ([[s[0]] + rest[0]] + rest[1..])[1..] == rest[1..];
      assert s == [s[0]] + s[1..];
    }
  }

  /** Keeping the separators puts one between each pair of neighbouring pieces. */
  lemma {:induction false} SplitKeepLength(s: string, marks: set<char>)
    ensures |SplitAtMarksKeep(s, marks)| == 2 * |SplitAtMarks(s, marks)| - 1
    decreases |s|
  {
    if SeparatorAt(s, 0, marks) {
      SplitKeepLength(s[2..], marks);
    } else if s != [] {
      SplitKeepLength(s[1..], marks);
    }
  }

  /** The even positions of the kept split are the plain pieces. */
  lemma {:induction false} SplitKeepPieces(s: string, marks: set<char>)
    ensures |SplitAtMarksKeep(s, marks)| == 2 * |SplitAtMarks(s, marks)| - 1
    ensures forall k :: 0 <= k < |SplitAtMarks(s, marks)| ==> SplitAtMarksKeep(s, marks)[2 * k] == SplitAtMarks(s, marks)[k]
    decreases |s|
  {
    SplitKeepLength(s, marks);
    var keep, plain := SplitAtMarksKeep(s, marks), SplitAtMarks(s, marks);
    if SeparatorAt(s, 0, marks) {
      SplitKeepPieces(s[2..], marks);
      var keepRest, plainRest := SplitAtMarksKeep(s[2..], marks), SplitAtMarks(s[2..], marks);
      forall k | 1 <= k < |plain| ensures keep[2 * k] == plain[k] {
        assert keep[2 * k] == keepRest[2 * (k - 1)];
        assert plain[k] == plainRest[k - 1];
      }
    } else if s != [] {
      SplitKeepPieces(s[1..], marks);
      var keepRest, plainRest := SplitAtMarksKeep(s[1..], marks), SplitAtMarks(s[1..], marks);
      forall k | 1 <= k < |plain| ensures keep[2 * k] == plain[k] {
        assert keep[2 * k] == keepRest[2 * k];
        assert plain[k] == plainRest[k];
      }
    }
  }

  /** The odd positions of the kept split are separators: a mark and a space. */
  lemma {:induction false} SplitKeepSeparators(s: string, marks: set<char>)
    ensures |SplitAtMarksKeep(s, marks)| == 2 * |SplitAtMarks(s, marks)| - 1
    ensures forall k :: 0 <= k < |SplitAtMarks(s, marks)| - 1 ==>
      |SplitAtMarksKeep(s, marks)[2 * k + 1]| == 2 && SeparatorAt(SplitAtMarksKeep(s, marks)[2 * k + 1], 0, marks)
    decreases |s|
  {
    SplitKeepLength(s, marks);
    var keep, plain := SplitAtMarksKeep(s, marks), SplitAtMarks(s, marks);
    if SeparatorAt(s, 0, marks) {
      SplitKeepSeparators(s[2..], marks);
      var keepRest := SplitAtMarksKeep(s[2..], marks);
      assert keep[1] == s[..2];
      forall k | 1 <= k < |plain| - 1 ensures |keep[2 * k + 1]| == 2 && SeparatorAt(keep[2 * k + 1], 0, marks) {
        assert keep[2 * k + 1] == keepRest[2 * (k - 1) + 1];
      }
    } else if s != [] {
      SplitKeepSeparators(s[1..], marks);
      var keepRest := SplitAtMarksKeep(s[1..], marks);
      forall k | 0 <= k < |plain| - 1 ensures |keep[2 * k + 1]| == 2 && SeparatorAt(keep[2 * k + 1], 0, marks) {
        assert keep[2 * k + 1] == keepRest[2 * k + 1];
      }
    }
  }

  /**
   * With the separators kept, the pieces sit at the even positions and the separators,
   * each a mark followed by a space, at the odd positions.
   */
  lemma SplitKeepInterleaves(s: string, marks: set<char>)
    ensures |SplitAtMarksKeep(s, marks)| == 2 * |SplitAtMarks(s, marks)| - 1
    ensures forall k :: 0 <= k < |SplitAtMarks(s, marks)| ==> SplitAtMarksKeep(s, marks)[2 * k] == SplitAtMarks(s, marks)[k]
    ensures forall k :: 0 <= k < |SplitAtMarks(s, marks)| - 1 ==>
      |SplitAtMarksKeep(s, marks)[2 * k + 1]| == 2 && SeparatorAt(SplitAtMarksKeep(s, marks)[2 * k + 1], 0, marks)
  {
    SplitKeepPieces(s, marks);
    SplitKeepSeparators(s, marks);
  }

  /** The number of separators `re.split` finds: leftmost first, never overlapping. */
  function SeparatorCount(s: string, marks: set<char>): nat
    decreases |s|
  {
    if SeparatorAt(s, 0, marks) then 1 + SeparatorCount(s[2..], marks)
    else if s == [] then 0
    else SeparatorCount(s[1..], marks)
  }

  /** The split returns one more piece than there are separators. */
  lemma {:induction false} SplitPieceCount(s: string, marks: set<char>)
    ensures |SplitAtMarks(s, marks)| == SeparatorCount(s, marks) + 1
    decreases |s|
  {
    if SeparatorAt(s, 0, marks) {
      SplitPieceCount(s[2..], marks);
    } else if s != [] {
      SplitPieceCount(s[1..], marks);
    }
  }

  /** Text with no separator comes back as one piece, itself. */
  lemma {:induction false} SplitWithoutSeparator(s: string, marks: set<char>)
    requires NoSeparator(s, marks)
    ensures SplitAtMarks(s, marks) == [s]
    decreases |s|
  {
    if s != [] {
      assert !SeparatorAt(s, 0, marks);
      assert NoSeparator(s[1..], marks) by {
        forall i | 0 <= i < |s[1..]| - 1 ensures !SeparatorAt(s[1..], i, marks) {
          assert !SeparatorAt(s, i + 1, marks);
        }
      }
      SplitWithoutSeparator(s[1..], marks);
      assert s == [s[0]] + s[1..];
    }
  }

  /** With the default arguments `sentences` splits after '?', '!' or '.' followed by a space. */
  lemma SentencesDefaults(s: string)
    ensures Sentences(s) == Success(SplitAtMarks(s, DefaultMarks()))
  {
    var chars := ClassChars(true, true, true, false, None);
    assert chars == "?!.";
    assert (set i | 0 <= i < |chars| :: chars[i]) == DefaultMarks() by {
      assert chars[0] == '?' && chars[1] == '!' && chars[2] == '.';
    }
  }

  /** With no mark selected and no symbols, `sentences` fails; otherwise it succeeds. */
  lemma SentencesFailsOnlyWithoutMarks(s: string, qstnMark: bool, exclMark: bool, period: bool,
                                       comma: bool, keepPunctuation: bool, symbols: Option<string>)
    requires PlainSymbols(symbols)
    ensures Sentences(s, qstnMark, exclMark, period, comma, keepPunctuation, symbols).Failure?
        <==> !qstnMark && !exclMark && !period && !comma && (symbols.None? || symbols.value == "")
  {
  }
}

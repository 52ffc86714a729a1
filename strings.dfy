/**
 * Python string operations the text transforms are built from:
 * `str.isspace`, `str.split()` (no argument), `str.split(c)`, `sep.join(parts)`,
 * `str(int)`, and the facts that tie splitting and joining together.
 */
module Strings {

  /** Python's `str.isspace()` on one character: the separators of `str.split()`. */
  predicate IsSpace(c: char) {
    var n := c as int;
    (9 <= n <= 13) || (28 <= n <= 32) || n == 0x85 || n == 0xA0 || n == 0x1680
    || (0x2000 <= n <= 0x200A) || n == 0x2028 || n == 0x2029 || n == 0x202F
    || n == 0x205F || n == 0x3000
  }

  predicate NoSpace(s: string) {
    forall i :: 0 <= i < |s| ==> !IsSpace(s[i])
  }

  predicate AllSpace(s: string) {
    forall i :: 0 <= i < |s| ==> IsSpace(s[i])
  }

  /** What `str.split()` can return as one element: a non-empty run without whitespace. */
  predicate IsWord(w: string) {
    w != [] && NoSpace(w)
  }

  predicate AllWords(ws: seq<string>) {
    forall i :: 0 <= i < |ws| ==> IsWord(ws[i])
  }

  /**
   * The only whitespace in `s` is single ' ' characters strictly between
   * non-whitespace characters: no leading, trailing or doubled space.
   */
  predicate SingleSpaced(s: string) {
    forall i :: 0 <= i < |s| && IsSpace(s[i]) ==>
      s[i] == ' ' && 0 < i < |s| - 1 && !IsSpace(s[i - 1]) && !IsSpace(s[i + 1])
  }

  /** `sep.join(parts)`. */
  function Join(parts: seq<string>, sep: string): string
  {
    if |parts| == 0 then ""
    else if |parts| == 1 then parts[0]
    else parts[0] + sep + Join(parts[1..], sep)
  }

  /** Appending a part to a non-empty join adds one separator and the part. */
  lemma {:induction false} JoinSnoc(parts: seq<string>, x: string, sep: string)
    requires parts != []
    ensures Join(parts + [x], sep) == Join(parts, sep) + sep + x
  {
    if |parts| == 1 {
      assert (parts + [x])[1..] == [x];
    } else {
      assert (parts + [x])[1..] == parts[1..] + [x];
      JoinSnoc(parts[1..], x, sep);
    }
  }

  /** `"".join(parts)`. */
  function Concat(parts: seq<string>): string
  {
    if parts == [] then "" else parts[0] + Concat(parts[1..])
  }

  /** Length of the leading run of non-whitespace characters. */
  function WordLen(s: string): (n: nat)
    ensures n <= |s|
    ensures NoSpace(s[..n])
    ensures n < |s| ==> IsSpace(s[n])
  {
    if s == [] || IsSpace(s[0]) then 0 else 1 + WordLen(s[1..])
  }

  /** Python's `s.split()`: the maximal runs of non-whitespace characters, in order. */
  function Words(s: string): (ws: seq<string>)
    ensures AllWords(ws)
    decreases |s|
  {
    if s == [] then []
    else if IsSpace(s[0]) then Words(s[1..])
    else
      var n := WordLen(s);
      [s[..n]] + Words(s[n..])
  }

  /** Python's `s.split(c)` for a one-character separator `c`. */
  function SplitOn(s: string, c: char): (parts: seq<string>)
    ensures |parts| >= 1
  {
    if s == [] then [""]
    else
      var rest := SplitOn(s[1..], c);
      if s[0] == c then [""] + rest else [[s[0]] + rest[0]] + rest[1..]
  }

  /** Number of occurrences of `c` in `s`. */
  function Count(s: string, c: char): nat
  {
    if s == [] then 0 else (if s[0] == c then 1 else 0) + Count(s[1..], c)
  }

  function DigitChar(d: nat): char
    requires d < 10
  {
    "0123456789"[d]
  }

  /** `str(n)` for a non-negative integer. */
  function NatToString(n: nat): (r: string)
    ensures r != []
    ensures forall i :: 0 <= i < |r| ==> '0' <= r[i] <= '9'
  {
    if n < 10 then [DigitChar(n)] else NatToString(n / 10) + [DigitChar(n % 10)]
  }

  /** `str(i)` for any integer. */
  function IntToString(i: int): (r: string)
    ensures r != []
    ensures forall k :: 0 <= k < |r| ==> r[k] == '-' || '0' <= r[k] <= '9'
  {
    if i < 0 then "-" + NatToString(-i) else NatToString(i)
  }

  lemma DigitCharInjective(a: nat, b: nat)
    requires a < 10 && b < 10 && DigitChar(a) == DigitChar(b)
    ensures a == b
  {
  }

  /** Different numbers print differently. */
  lemma {:induction false} NatToStringInjective(n: nat, m: nat)
    requires NatToString(n) == NatToString(m)
    ensures n == m
  {
    var s := NatToString(n);
    if n < 10 && m < 10 {
      DigitCharInjective(n, m);
    } else if n >= 10 && m >= 10 {
      assert s[..|s| - 1] == NatToString(n / 10) && s[..|s| - 1] == NatToString(m / 10);
      assert s[|s| - 1] == DigitChar(n % 10) && s[|s| - 1] == DigitChar(m % 10);
      NatToStringInjective(n / 10, m / 10);
      DigitCharInjective(n % 10, m % 10);
    } else {
      NatToStringSingle(n);
      NatToStringSingle(m);
      assert false;
    }
  }

  lemma NatToStringSingle(n: nat)
    ensures |NatToString(n)| == 1 <==> n < 10
  {
  }

  lemma IntToStringSign(i: int)
    ensures IntToString(i)[0] == '-' <==> i < 0
  {
  }

  /** Different integers print differently. */
  lemma IntToStringInjective(i: int, j: int)
    requires IntToString(i) == IntToString(j)
    ensures i == j
  {
    var s := IntToString(i);
    if i < 0 && j < 0 {
      assert s[1..] == NatToString(-i) && s[1..] == NatToString(-j);
      NatToStringInjective(-i, -j);
    } else if i >= 0 && j >= 0 {
      NatToStringInjective(i, j);
    } else {
      IntToStringSign(i);
      IntToStringSign(j);
      assert false;
    }
  }

  /** A string cut at the first occurrence of `c` is cut in only one way. */
  lemma SplitAtFirst(a: string, b: string, x: string, y: string, c: char)
    requires c !in a && c !in x && a + [c] + b == x + [c] + y
    ensures a == x && b == y
  {
    var s := a + [c] + b;
    if |a| == |x| {
      assert a == s[..|a|] == x;
      assert b == s[|a| + 1..] == y;
    } else {
      SeparatorAfter(a, b, c);
      SeparatorAfter(x, y, c);
      assert false;
    }
  }

  lemma SeparatorAfter(a: string, b: string, c: char)
    ensures (a + [c] + b)[|a|] == c
    ensures forall k :: 0 <= k < |a| ==> (a + [c] + b)[k] == a[k]
  {
  }

  predicate StartsWith(s: string, prefix: string) {
    |prefix| <= |s| && s[..|prefix|] == prefix
  }

  predicate EndsWith(s: string, suffix: string) {
    |suffix| <= |s| && s[|s| - |suffix|..] == suffix
  }

  /** Number of leading whitespace characters. */
  function LeadingSpaces(s: string): (k: nat)
    ensures k <= |s| && AllSpace(s[..k])
    ensures k < |s| ==> !IsSpace(s[k])
  {
    if s != [] && IsSpace(s[0]) then 1 + LeadingSpaces(s[1..]) else 0
  }

  /** Number of trailing whitespace characters. */
  function TrailingSpaces(s: string): (k: nat)
    ensures k <= |s|
    ensures forall i :: |s| - k <= i < |s| ==> IsSpace(s[i])
    ensures k < |s| ==> !IsSpace(s[|s| - 1 - k])
    decreases |s|
  {
    if s != [] && IsSpace(s[|s| - 1]) then
      var t := s[..|s| - 1];
      var j := TrailingSpaces(t);
      assert forall i :: |s| - 1 - j <= i < |s| - 1 ==> t[i] == s[i];
      1 + j
    else 0
  }

  /** Python's `s.strip()`: `s` without its leading and trailing whitespace. */
  function Strip(s: string): string
  {
    var t := s[LeadingSpaces(s)..];
    t[..|t| - TrailingSpaces(t)]
  }

  /** Python's `str.lower()` on one character, for the ASCII letters it is applied to here. */
  function LowerChar(c: char): char
  {
    if 'A' <= c <= 'Z' then (c as int + 32) as char else c
  }

  /** `s.lower()` for text whose only letters are ASCII letters. */
  function Lower(s: string): (r: string)
    ensures |r| == |s|
    ensures forall i :: 0 <= i < |s| ==> r[i] == LowerChar(s[i])
  {
    seq(|s|, i requires 0 <= i < |s| => LowerChar(s[i]))
  }

  /** `[w.lower() for w in ws]`. */
  function LowerAll(ws: seq<string>): (r: seq<string>)
    ensures |r| == |ws|
    ensures forall i :: 0 <= i < |ws| ==> r[i] == Lower(ws[i])
  {
    seq(|ws|, i requires 0 <= i < |ws| => Lower(ws[i]))
  }

  // ---------------------------------------------------------------------------
  // Facts about Words

  /** A word followed by nothing or by whitespace is the first element of `split()`. */
  lemma {:induction false} WordsAfterWord(a: string, b: string)
    requires IsWord(a)
    requires b == [] || IsSpace(b[0])
    ensures Words(a + b) == [a] + Words(b)
  {
    WordLenOfWord(a, b);
    assert (a + b)[..|a|] == a;
    assert (a + b)[|a|..] == b;
  }

  lemma {:induction false} WordLenOfWord(a: string, b: string)
    requires NoSpace(a)
    requires b == [] || IsSpace(b[0])
    ensures WordLen(a + b) == |a|
  {
    if a != [] {
      assert (a + b)[1..] == a[1..] + b;
      WordLenOfWord(a[1..], b);
    } else {
      assert a + b == b;
    }
  }

  /** Leading whitespace does not change `split()`. */
  lemma {:induction false} WordsSkipSpaces(sp: string, b: string)
    requires AllSpace(sp)
    ensures Words(sp + b) == Words(b)
  {
    if sp != [] {
      assert (sp + b)[1..] == sp[1..] + b;
      WordsSkipSpaces(sp[1..], b);
    } else {
      assert sp + b == b;
    }
  }

  /** Trailing whitespace does not change `split()`. */
  lemma {:induction false} WordsDropTrailingSpaces(a: string, tw: string)
    requires AllSpace(tw)
    ensures Words(a + tw) == Words(a)
    decreases |a|
  {
    if a == [] {
      assert a + tw == tw + [];
      WordsSkipSpaces(tw, []);
    } else if IsSpace(a[0]) {
      assert (a + tw)[1..] == a[1..] + tw;
      WordsDropTrailingSpaces(a[1..], tw);
    } else {
      var n := WordLen(a);
      var w, r := a[..n], a[n..];
      assert a == w + r;
      assert a + tw == w + (r + tw);
      WordsAfterWord(w, r);
      WordsAfterWord(w, r + tw);
      WordsDropTrailingSpaces(r, tw);
    }
  }

  /** `split()` of a string with no whitespace at all. */
  lemma WordsOfWord(w: string)
    requires IsWord(w)
    ensures Words(w) == [w]
  {
    WordsAfterWord(w, []);
    assert w + [] == w;
  }

  // ---------------------------------------------------------------------------
  // Joining words with single spaces and splitting them again

  /** A word, a space and a non-empty single-spaced string make a single-spaced string. */
  lemma SingleSpacedCons(w: string, rest: string)
    requires IsWord(w) && rest != [] && SingleSpaced(rest)
    ensures SingleSpaced(w + (" " + rest))
  {
    var s := w + (" " + rest);
    assert !IsSpace(rest[0]);
    assert forall i :: 0 <= i < |w| ==> s[i] == w[i];
    forall i | 0 <= i < |s| && IsSpace(s[i])
      ensures s[i] == ' ' && 0 < i < |s| - 1 && !IsSpace(s[i - 1]) && !IsSpace(s[i + 1])
    {
      if i == |w| {
        assert s[i - 1] == w[|w| - 1];
        assert s[i + 1] == rest[0];
      } else if i > |w| {
        var j := i - |w| - 1;
        assert s[i] == rest[j];
        assert 0 < j < |rest| - 1;
        assert s[i - 1] == rest[j - 1];
        assert s[i + 1] == rest[j + 1];
      }
    }
  }

  /** The tail of a single-spaced string after its first word and space. */
  lemma SingleSpacedTail(s: string, n: nat)
    requires SingleSpaced(s) && n < |s| && IsSpace(s[n])
    ensures SingleSpaced(s[n + 1..]) && s[n + 1..] != []
  {
    var rest := s[n + 1..];
    forall j | 0 <= j < |rest| && IsSpace(rest[j])
      ensures rest[j] == ' ' && 0 < j < |rest| - 1 && !IsSpace(rest[j - 1]) && !IsSpace(rest[j + 1])
    {
      assert rest[j] == s[n + 1 + j];
      assert rest[j + 1] == s[n + 2 + j];
      assert !IsSpace(s[n + 1]);
    }
  }

  /** `" ".join(ws)` of words is single-spaced, and `split()` gives the words back. */
  lemma {:induction false} JoinWords(ws: seq<string>)
    requires AllWords(ws)
    ensures SingleSpaced(Join(ws, " "))
    ensures Words(Join(ws, " ")) == ws
    ensures Join(ws, " ") == [] <==> ws == []
  {
    if |ws| == 1 {
      WordsOfWord(ws[0]);
    } else if |ws| > 1 {
      var w, rest := ws[0], Join(ws[1..], " ");
      JoinWords(ws[1..]);
      assert Join(ws, " ") == w + (" " + rest);
      WordsAfterWord(w, " " + rest);
      assert (" " + rest)[1..] == rest;
      SingleSpacedCons(w, rest);
    }
  }

  lemma JoinCons(w: string, ws: seq<string>)
    requires ws != []
    ensures Join([w] + ws, " ") == w + (" " + Join(ws, " "))
  {
    assert ([w] + ws)[1..] == ws;
  }

  /** A single-spaced string is `" ".join` of its `split()`. */
  lemma {:induction false} SingleSpacedIsJoin(s: string)
    requires SingleSpaced(s)
    ensures s == Join(Words(s), " ")
    decreases |s|
  {
    if s != [] {
      var n := WordLen(s);
      if n == |s| {
        assert s[..n] == s;
        WordsOfWord(s);
      } else {
        assert !IsSpace(s[0]);
        var w, rest := s[..n], s[n + 1..];
        SingleSpacedTail(s, n);
        SingleSpacedIsJoin(rest);
        assert s == w + (" " + rest);
        WordsAfterWord(w, " " + rest);
        WordsSkipSpaces(" ", rest);
        JoinCons(w, Words(rest));
      }
    }
  }

  // ---------------------------------------------------------------------------
  // Splitting on one character and joining with it again

  lemma {:induction false} SplitOnCount(s: string, c: char)
    ensures |SplitOn(s, c)| == Count(s, c) + 1
  {
    if s != [] { SplitOnCount(s[1..], c); }
  }

  lemma {:induction false} CountAppend(a: string, b: string, c: char)
    ensures Count(a + b, c) == Count(a, c) + Count(b, c)
  {
    if a == [] {
      assert a + b == b;
    } else {
      assert (a + b)[1..] == a[1..] + b;
      CountAppend(a[1..], b, c);
    }
  }

  lemma {:induction false} CountZero(s: string, c: char)
    ensures Count(s, c) == 0 <==> c !in s
  {
    if s != [] {
      CountZero(s[1..], c);
      assert c in s <==> s[0] == c || c in s[1..];
    }
  }

  /** The first piece of `s.split(c)` is the text before the first `c` (all of `s` when there is none). */
  lemma {:induction false} SplitOnHead(s: string, c: char)
    ensures c !in SplitOn(s, c)[0]
    ensures SplitOn(s, c)[0] <= s
    ensures |SplitOn(s, c)[0]| < |s| ==> s[|SplitOn(s, c)[0]|] == c
  {
    if s != [] && s[0] != c {
      SplitOnHead(s[1..], c);
      var head := SplitOn(s[1..], c)[0];
      assert SplitOn(s, c)[0] == [s[0]] + head;
      assert s == [s[0]] + s[1..];
    }
  }

  lemma {:induction false} SplitOnPrefix(a: string, b: string, c: char)
    requires c !in a
    ensures SplitOn(a + [c] + b, c) == [a] + SplitOn(b, c)
    ensures SplitOn(a, c) == [a]
  {
    if a == [] {
      assert a + [c] + b == [c] + b;
      assert ([c] + b)[1..] == b;
    } else {
      assert (a + [c] + b)[1..] == a[1..] + [c] + b;
      SplitOnPrefix(a[1..], b, c);
      assert [a[0]] + a[1..] == a;
    }
  }

  /** `s.split(c)` undoes `c.join(parts)` exactly when there is a part and no part contains `c`. */
  lemma {:induction false} SplitJoinRoundTrip(parts: seq<string>, c: char)
    ensures SplitOn(Join(parts, [c]), c) == parts <==> (parts != [] && forall i :: 0 <= i < |parts| ==> c !in parts[i])
  {
    if parts != [] && forall i :: 0 <= i < |parts| ==> c !in parts[i] {
      SplitOfJoin(parts, c);
    } else if parts != [] {
      var i :| 0 <= i < |parts| && c in parts[i];
      CountZero(parts[i], c);
      CountOfJoin(parts, c, i);
      SplitOnCount(Join(parts, [c]), c);
    }
  }

  lemma {:induction false} SplitOfJoin(parts: seq<string>, c: char)
    requires parts != []
    requires forall i :: 0 <= i < |parts| ==> c !in parts[i]
    ensures SplitOn(Join(parts, [c]), c) == parts
  {
    if |parts| == 1 {
      SplitOnPrefix(parts[0], [], c);
    } else {
      SplitOfJoin(parts[1..], c);
      SplitOnPrefix(parts[0], Join(parts[1..], [c]), c);
    }
  }

  /** Joining adds one separator between neighbours, so a separator inside a part adds to the count. */
  lemma {:induction false} CountOfJoin(parts: seq<string>, c: char, k: nat)
    requires k < |parts| && Count(parts[k], c) > 0
    ensures Count(Join(parts, [c]), c) >= |parts|
  {
    if |parts| > 1 {
      CountAppend(parts[0] + [c], Join(parts[1..], [c]), c);
      CountAppend(parts[0], [c], c);
      assert Count([c], c) == 1;
      if k == 0 {
        CountOfJoinLower(parts[1..], c);
      } else {
        CountOfJoin(parts[1..], c, k - 1);
      }
    }
  }

  lemma {:induction false} CountOfJoinLower(parts: seq<string>, c: char)
    requires parts != []
    ensures Count(Join(parts, [c]), c) >= |parts| - 1
  {
    if |parts| > 1 {
      CountAppend(parts[0] + [c], Join(parts[1..], [c]), c);
      CountAppend(parts[0], [c], c);
      assert Count([c], c) == 1;
      CountOfJoinLower(parts[1..], c);
    }
  }

  // ---------------------------------------------------------------------------
  // Stripping and lowering keep the words

  /** `s.strip().split() == s.split()`. */
  lemma {:induction false} WordsOfStrip(s: string)
    ensures Words(Strip(s)) == Words(s)
  {
    var head, tail := StripPieces(s);
    WordsSkipSpaces(head, Strip(s) + tail);
    WordsDropTrailingSpaces(Strip(s), tail);
  }

  /** `s` is its stripped text between a whitespace prefix and a whitespace suffix. */
  lemma StripPieces(s: string) returns (head: string, tail: string)
    ensures AllSpace(head) && AllSpace(tail)
    ensures s == head + (Strip(s) + tail)
  {
    var a := LeadingSpaces(s);
    var t := s[a..];
    var b := TrailingSpaces(t);
    head, tail := s[..a], t[|t| - b..];
    assert AllSpace(tail) by {
      forall i | 0 <= i < |tail| ensures IsSpace(tail[i]) {
        assert tail[i] == t[|t| - b + i];
      }
    }
    assert t == Strip(s) + tail;
    assert s == head + t;
  }

  /** `s.strip()` is empty or starts and ends with non-whitespace, and is a slice of `s`. */
  lemma StripShape(s: string)
    ensures exists i, j :: 0 <= i <= j <= |s| && Strip(s) == s[i..j]
    ensures Strip(s) != [] ==> !IsSpace(Strip(s)[0]) && !IsSpace(Strip(s)[|Strip(s)| - 1])
  {
    var a := LeadingSpaces(s);
    var t := s[a..];
    var b := TrailingSpaces(t);
    assert Strip(s) == s[a..a + |t| - b];
    if Strip(s) != [] {
      assert Strip(s)[0] == t[0];
      if b < |t| { assert Strip(s)[|Strip(s)| - 1] == t[|t| - 1 - b]; }
    }
  }

  lemma LowerAppend(a: string, b: string)
    ensures Lower(a + b) == Lower(a) + Lower(b)
  {
  }

  /** Lowering a character never turns whitespace into a letter or back. */
  lemma LowerCharKeepsSpace(c: char)
    ensures IsSpace(LowerChar(c)) <==> IsSpace(c)
  {
  }

  /** Lowering text that starts with whitespace keeps that whitespace in front. */
  lemma LowerSpaceStep(s: string)
    requires s != [] && IsSpace(s[0])
    ensures Words(Lower(s)) == Words(Lower(s[1..]))
  {
    var l := Lower(s);
    LowerCharKeepsSpace(s[0]);
    assert IsSpace(l[0]);
    assert l[1..] == Lower(s[1..]);
  }

  /** Lowering a word followed by whitespace (or nothing) lowers the first element of `split()`. */
  lemma LowerWordStep(w: string, r: string)
    requires IsWord(w)
    requires r == [] || IsSpace(r[0])
    ensures Words(Lower(w + r)) == [Lower(w)] + Words(Lower(r))
  {
    LowerAppend(w, r);
    assert IsWord(Lower(w)) by {
      forall i | 0 <= i < |w| ensures !IsSpace(Lower(w)[i]) {
        LowerCharKeepsSpace(w[i]);
      }
    }
    if r != [] {
      LowerCharKeepsSpace(r[0]);
    }
    WordsAfterWord(Lower(w), Lower(r));
  }

  /** `s.lower().split() == [w.lower() for w in s.split()]`. */
  lemma {:induction false} WordsOfLower(s: string)
    ensures Words(Lower(s)) == LowerAll(Words(s))
    decreases |s|
  {
    if s == [] {
    } else if IsSpace(s[0]) {
      LowerSpaceStep(s);
      WordsOfLower(s[1..]);
    } else {
      var n := WordLen(s);
      var w, r := s[..n], s[n..];
      assert s == w + r;
      WordsAfterWord(w, r);
      LowerWordStep(w, r);
      WordsOfLower(r);
      assert LowerAll([w] + Words(r)) == [Lower(w)] + LowerAll(Words(r));
    }
  }
}

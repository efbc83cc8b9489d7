/**
  The two Python string operations the turn-taking logic relies on:
  `str.strip()` and `str.split()` with no arguments. Both use Python's
  notion of whitespace (`str.isspace()`), which is the fixed character
  set given by IsSpace.
 */
module Text {

  /** Python's `str.isspace()` for one character: the ASCII controls
      TAB..CR and FS..US, space, NEL, NO-BREAK SPACE, and the Unicode
      space separators and line/paragraph separators. */
  predicate IsSpace(c: char) {
    || ('\t' <= c <= '\r')
    || ('\U{1C}' <= c <= '\U{1F}')
    || c == ' '
    || c == '\U{85}'
    || c == '\U{A0}'
    || c == '\U{1680}'
    || ('\U{2000}' <= c <= '\U{200A}')
    || c == '\U{2028}'
    || c == '\U{2029}'
    || c == '\U{202F}'
    || c == '\U{205F}'
    || c == '\U{3000}'
  }

  /** Every character is whitespace (the empty string included). */
  predicate IsBlank(s: string) {
    forall i | 0 <= i < |s| :: IsSpace(s[i])
  }

  /** No character is whitespace. */
  predicate HasNoSpace(s: string) {
    forall i | 0 <= i < |s| :: !IsSpace(s[i])
  }

  /** `s.lstrip()`: what is left after removing leading whitespace
      (LStripIsSuffix shows it is a suffix of `s`). */
  function LStrip(s: string): (r: string)
    ensures |r| <= |s|
    ensures r == [] || !IsSpace(r[0])
    ensures r == [] <==> IsBlank(s)
  {
    if s != [] && IsSpace(s[0]) then LStrip(s[1..]) else s
  }

  /** `s.rstrip()`: what is left after removing trailing whitespace
      (RStripIsPrefix shows it is a prefix of `s`). */
  function RStrip(s: string): (r: string)
    ensures |r| <= |s|
    ensures r == [] || !IsSpace(r[|r| - 1])
    ensures r == [] <==> IsBlank(s)
  {
    if s != [] && IsSpace(s[|s| - 1]) then RStrip(s[..|s| - 1]) else s
  }

  /** Only whitespace precedes the result of `s.lstrip()`. */
  lemma {:induction false} LStripIsSuffix(s: string)
    ensures var r := LStrip(s);
      r == s[|s| - |r|..] && IsBlank(s[..|s| - |r|])
  {
    if s != [] && IsSpace(s[0]) {
      LStripIsSuffix(s[1..]);
      var r := LStrip(s);
      assert s[1..][|s| - 1 - |r|..] == s[|s| - |r|..];
      assert s[..|s| - |r|] == [s[0]] + s[1..][..|s| - 1 - |r|];
    }
  }

  /** Only whitespace follows the result of `s.rstrip()`. */
  lemma {:induction false} RStripIsPrefix(s: string)
    ensures var r := RStrip(s);
      r == s[..|r|] && IsBlank(s[|r|..])
  {
    if s != [] && IsSpace(s[|s| - 1]) {
      var init := s[..|s| - 1];
      RStripIsPrefix(init);
      var r := RStrip(s);
      assert init[..|r|] == s[..|r|];
      assert s[|r|..] == init[|r|..] + [s[|s| - 1]];
    }
  }

  /** `s.strip()`: empty exactly when `s` is blank, and otherwise
      starting and ending with a non-whitespace character (StripParts
      shows it is `s` less a blank head and a blank tail). */
  function Strip(s: string): (r: string)
    ensures r == [] <==> IsBlank(s)
    ensures r == [] || (!IsSpace(r[0]) && !IsSpace(r[|r| - 1]))
  {
    var t := LStrip(s);
    RStripIsPrefix(t);
    RStrip(t)
  }

  /** `s` is its stripped text with only whitespace before and after it. */
  lemma StripParts(s: string) returns (head: string, tail: string)
    ensures s == head + Strip(s) + tail
    ensures IsBlank(head) && IsBlank(tail)
  {
    var t := LStrip(s);
    var r := RStrip(t);
    LStripIsSuffix(s);
    RStripIsPrefix(t);
    head := s[..|s| - |t|];
    tail := t[|r|..];
    Cut(s, |s| - |t|);
    Cut(t, |r|);
    assert s == head + (r + tail);
    assert Strip(s) == r;
  }

  /** A string is its prefix of length `k` followed by the rest. */
  lemma Cut(s: string, k: nat)
    requires k <= |s|
    ensures s == s[..k] + s[k..]
  {
  }

  /** The longest prefix of `s` holding no whitespace. */
  function TakeWord(s: string): (w: string)
    ensures |w| <= |s| && w == s[..|w|]
    ensures HasNoSpace(w)
    ensures |w| == |s| || IsSpace(s[|w|])
    ensures s != [] && !IsSpace(s[0]) ==> w != []
  {
    if s != [] && !IsSpace(s[0]) then [s[0]] + TakeWord(s[1..]) else []
  }

  /** A word as `str.split()` yields it: non-empty, without whitespace. */
  predicate IsWord(w: string) {
    w != [] && HasNoSpace(w)
  }

  /** `s.split()`: the words of `s`, taken from left to right
      (SplitCountsWords shows there are `WordCount(s)` of them). */
  function Split(s: string): (words: seq<string>)
    ensures words == [] <==> IsBlank(s)
    ensures forall w | w in words :: IsWord(w)
    decreases |s|
  {
    var t := LStrip(s);
    if t == [] then []
    else
      var w := TakeWord(t);
      [w] + Split(t[|w|..])
  }

  /** True when position `i` ends a run of non-whitespace characters. */
  predicate EndsRun(s: string, i: int)
    requires 0 <= i < |s|
  {
    !IsSpace(s[i]) && (i + 1 == |s| || IsSpace(s[i + 1]))
  }

  /** The number of words of `s`: the number of positions at which a run
      of non-whitespace characters ends. */
  function WordCount(s: string): nat {
    if s == [] then 0
    else (if EndsRun(s, 0) then 1 else 0) + WordCount(s[1..])
  }

  /** Leading whitespace contributes no run. */
  lemma {:induction false} WordCountOfLStrip(s: string)
    ensures WordCount(LStrip(s)) == WordCount(s)
  {
    if s != [] && IsSpace(s[0]) {
      WordCountOfLStrip(s[1..]);
    }
  }

  /** A string that starts a word has one run more than what follows the
      word. */
  lemma {:induction false} WordCountOfWord(s: string)
    requires s != [] && !IsSpace(s[0])
    ensures WordCount(s) == 1 + WordCount(s[|TakeWord(s)|..])
  {
    if |s| > 1 && !IsSpace(s[1]) {
      WordCountOfWord(s[1..]);
      assert s[1..][|TakeWord(s[1..])|..] == s[|TakeWord(s)|..];
    }
  }

  /** `len(s.split())` counts exactly the maximal runs of non-whitespace. */
  lemma {:induction false} SplitCountsWords(s: string)
    ensures |Split(s)| == WordCount(s)
    decreases |s|
  {
    var t := LStrip(s);
    WordCountOfLStrip(s);
    if t != [] {
      var w := TakeWord(t);
      WordCountOfWord(t);
      SplitCountsWords(t[|w|..]);
    }
  }

  /** Appending whitespace creates no run and ends none. */
  lemma {:induction false} WordCountOfTrailingSpace(a: string, b: string)
    requires IsBlank(b)
    ensures WordCount(a + b) == WordCount(a)
    decreases |a|, |b|
  {
    if a == [] {
      if b != [] {
        WordCountOfTrailingSpace(a, b[1..]);
        assert (a + b)[1..] == a + b[1..];
      }
    } else {
      WordCountOfTrailingSpace(a[1..], b);
      assert (a + b)[1..] == a[1..] + b;
    }
  }

  /** Prepending whitespace creates no run. */
  lemma {:induction false} WordCountOfLeadingSpace(a: string, b: string)
    requires IsBlank(a)
    ensures WordCount(a + b) == WordCount(b)
    decreases |a|
  {
    if a == [] {
      assert a + b == b;
    } else {
      WordCountOfLeadingSpace(a[1..], b);
      assert (a + b)[1..] == a[1..] + b;
    }
  }

  /** Whitespace on either side adds no word. */
  lemma WordCountOfPadded(head: string, r: string, tail: string)
    requires IsBlank(head) && IsBlank(tail)
    ensures WordCount(head + r + tail) == WordCount(r)
  {
    assert head + r + tail == head + (r + tail);
    WordCountOfLeadingSpace(head, r + tail);
    WordCountOfTrailingSpace(r, tail);
  }

  /** Stripping a string does not change how many words it has. */
  lemma WordCountOfStrip(s: string)
    ensures WordCount(Strip(s)) == WordCount(s)
  {
    var head, tail := StripParts(s);
    WordCountOfPadded(head, Strip(s), tail);
  }

  /** A string has no words exactly when it is blank. */
  lemma {:induction false} WordCountZeroIffBlank(s: string)
    ensures WordCount(s) == 0 <==> IsBlank(s)
  {
    if s != [] {
      WordCountZeroIffBlank(s[1..]);
      if IsSpace(s[0]) {
        assert IsBlank(s) <==> IsBlank(s[1..]);
      } else if !EndsRun(s, 0) {
        assert !IsBlank(s[1..]) by {
          assert !IsSpace(s[1..][0]);
        }
      }
    }
  }

  /** Text that ends with whitespace shares no word with what follows it:
      the words of the concatenation are the words of each part. */
  lemma {:induction false} WordCountOfJoin(a: string, b: string)
    requires a != [] && IsSpace(a[|a| - 1])
    ensures WordCount(a + b) == WordCount(a) + WordCount(b)
    decreases |a|
  {
    assert (a + b)[1..] == a[1..] + b;
    if |a| > 1 {
      WordCountOfJoin(a[1..], b);
    }
  }

  /** One run of non-whitespace followed only by whitespace is one word. */
  lemma WordCountOfOneWord(w: string, tail: string)
    requires IsWord(w) && IsBlank(tail)
    ensures WordCount(w + tail) == 1
  {
    var s := w + tail;
    var t := TakeWord(s);
    if |w| < |s| {
      assert IsSpace(s[|w|]);
    }
    WordCountOfWord(s);
    assert s[|t|..] == tail;
    WordCountZeroIffBlank(tail);
  }
}

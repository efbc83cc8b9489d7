/**
  The speech chunker of `StreamingTTS`, as pure functions: each streamed
  token is appended to a text buffer, and the buffer is released for
  speech as soon as it holds `SPEAK_AFTER_WORDS` words or ends with a
  phrase boundary. A released buffer is spoken (stripped) unless it is
  blank, and the buffer starts over empty either way.
 */
module Chunker {
  import opened Text

  /** `SPEAK_AFTER_WORDS`: a buffer with this many words is released. */
  const SpeakAfterWords: nat := 3

  /** The suffixes that release the buffer early: the Devanagari danda,
      full stop, question mark, exclamation mark, comma and newline. */
  const Boundaries: seq<string> := ["।", ".", "?", "!", ",", "\n"]

  /** The same boundaries as characters (each boundary is one character). */
  const BoundaryMarks: set<char> := {'।', '.', '?', '!', ',', '\n'}

  /** Python's `s.endswith(p)`. */
  predicate EndsWith(s: string, p: string) {
    |p| <= |s| && s[|s| - |p|..] == p
  }

  /** `any(s.endswith(p) for p in [...])` over the boundary list. */
  predicate EndsWithBoundary(s: string) {
    || EndsWith(s, Boundaries[0])
    || EndsWith(s, Boundaries[1])
    || EndsWith(s, Boundaries[2])
    || EndsWith(s, Boundaries[3])
    || EndsWith(s, Boundaries[4])
    || EndsWith(s, Boundaries[5])
  }

  /** Ending with a boundary string is the same as having a boundary
      character as the last character. */
  lemma BoundaryIsLastMark(s: string)
    ensures EndsWithBoundary(s) <==> s != [] && s[|s| - 1] in BoundaryMarks
  {
    if s != [] {
      assert s[|s| - 1..] == [s[|s| - 1]];
    }
  }

  /** The readiness test of the worker loop. */
  predicate ReadyToSpeak(buffer: string) {
    WordCount(buffer) >= SpeakAfterWords || EndsWithBoundary(buffer)
  }


  /** `text = buffer.strip(); if text: speak(text)`: the utterance a
      released buffer yields, or none when the buffer is blank. */
  function Speech(buffer: string): (u: seq<string>)
    ensures |u| <= 1
    ensures u == [] <==> IsBlank(buffer)
    ensures forall x | x in u :: !IsBlank(x) && WordCount(x) == WordCount(buffer)
  {
    var text := Strip(buffer);
    WordCountOfStrip(buffer);
    if text != [] then [text] else []
  }

  /** Whether one pass of the worker loop on `token` releases the buffer:
      exactly when the extended buffer has at least `SpeakAfterWords`
      words or its last character is a boundary mark. */
  function Releases(buffer: string, token: string): (release: bool)
    ensures var b := buffer + token;
      release <==> WordCount(b) >= SpeakAfterWords || (b != [] && b[|b| - 1] in BoundaryMarks)
  {
    BoundaryIsLastMark(buffer + token);
    ReadyToSpeak(buffer + token)
  }

  /** The buffer after one pass of the worker loop on `token`: never ready
      to be spoken, empty after a release, and the whole extended buffer
      otherwise. */
  function Kept(buffer: string, token: string): (rest: string)
    ensures !ReadyToSpeak(rest)
    ensures Releases(buffer, token) ==> rest == []
    ensures !Releases(buffer, token) ==> |rest| == |buffer| + |token|
  {
    EmptyNotReady();
    if Releases(buffer, token) then "" else buffer + token
  }

  /** The buffers one pass of the worker loop resets: none, or the
      extended buffer, which was ready (PassKeepsText shows that no text
      is lost). */
  function ReleasedBy(buffer: string, token: string): (parts: seq<string>)
    ensures |parts| <= 1
    ensures parts != [] <==> Releases(buffer, token)
    ensures forall x | x in parts :: ReadyToSpeak(x)
  {
    if Releases(buffer, token) then [buffer + token] else []
  }

  /** The texts one pass of the worker loop hands to the speaker: the
      stripped extended buffer when it is released and not blank, and
      nothing otherwise. */
  function SpokenBy(buffer: string, token: string): (u: seq<string>)
    ensures u == SpeechOf(ReleasedBy(buffer, token))
  {
    if Releases(buffer, token) then
      assert [buffer + token][..0] == [];
      Speech(buffer + token)
    else []
  }

  /** The buffers one pass resets, followed by the buffer it keeps, are
      exactly the old buffer followed by the token. */
  lemma PassKeepsText(buffer: string, token: string)
    ensures Concat(ReleasedBy(buffer, token)) + Kept(buffer, token) == buffer + token
  {
    var b := buffer + token;
    if Releases(buffer, token) {
      assert Concat([b]) == Concat([]) + b;
    }
  }

  /** The concatenation of `parts`, in order (`"".join(parts)`). */
  function Concat(parts: seq<string>): string {
    if parts == [] then "" else Concat(parts[..|parts| - 1]) + parts[|parts| - 1]
  }

  /** The utterances spoken for a sequence of released buffers, in order:
      the stripped text of each non-blank one. */
  function SpeechOf(released: seq<string>): (spoken: seq<string>)
    ensures forall x | x in spoken :: !IsBlank(x)
    ensures |spoken| <= |released|
  {
    if released == [] then []
    else SpeechOf(released[..|released| - 1]) + Speech(released[|released| - 1])
  }

  /** The buffer after the worker loop has run over `tokens`, in FIFO
      order, starting from `buffer`. */
  function FeedBuffer(buffer: string, tokens: seq<string>): string {
    if tokens == [] then buffer
    else Kept(FeedBuffer(buffer, tokens[..|tokens| - 1]), tokens[|tokens| - 1])
  }

  /** The buffers the worker loop resets while it runs over `tokens`
      starting from `buffer`, in order. */
  function FeedReleased(buffer: string, tokens: seq<string>): seq<string> {
    if tokens == [] then []
    else
      var init := tokens[..|tokens| - 1];
      FeedReleased(buffer, init) + ReleasedBy(FeedBuffer(buffer, init), tokens[|tokens| - 1])
  }

  /** Running the worker loop over one more token is one more pass. */
  lemma FeedSnoc(buffer: string, tokens: seq<string>, token: string)
    ensures FeedBuffer(buffer, tokens + [token]) == Kept(FeedBuffer(buffer, tokens), token)
    ensures FeedReleased(buffer, tokens + [token])
         == FeedReleased(buffer, tokens) + ReleasedBy(FeedBuffer(buffer, tokens), token)
  {
    assert (tokens + [token])[..|tokens|] == tokens;
  }

  /** The empty buffer is not ready. */
  lemma EmptyNotReady()
    ensures !ReadyToSpeak("")
  {
    BoundaryIsLastMark("");
  }

  /** Concatenation takes one more part at the end. */
  lemma ConcatSnoc(parts: seq<string>, p: string)
    ensures Concat(parts + [p]) == Concat(parts) + p
  {
    assert (parts + [p])[..|parts|] == parts;
  }

  /** Concatenation distributes over appending part sequences. */
  lemma {:induction false} ConcatAppend(a: seq<string>, b: seq<string>)
    ensures Concat(a + b) == Concat(a) + Concat(b)
    decreases |b|
  {
    if b == [] {
      assert a + b == a;
    } else {
      var init := b[..|b| - 1];
      ConcatAppend(a, init);
      assert (a + b)[..|a + b| - 1] == a + init;
    }
  }

  /** One step of the conservation argument, on plain strings. */
  lemma ConservedStep(buffer: string, before: string, token: string, released: seq<string>,
                      kept: string, step: seq<string>, rest: string)
    requires buffer + before == Concat(released) + kept
    requires kept + token == Concat(step) + rest
    ensures buffer + (before + token) == Concat(released + step) + rest
  {
    ConcatAppend(released, step);
    calc {
      buffer + (before + token);
      (buffer + before) + token;
      (Concat(released) + kept) + token;
      Concat(released) + (kept + token);
      Concat(released) + (Concat(step) + rest);
      Concat(released + step) + rest;
    }
  }

  /** Dropping the last element of `a + b`, for a non-empty `b`. */
  lemma SplitLast<T>(a: seq<T>, b: seq<T>)
    requires b != []
    ensures (a + b)[..|a + b| - 1] == a + b[..|b| - 1]
    ensures (a + b)[|a + b| - 1] == b[|b| - 1]
  {
  }

  /** A prefix one element longer is the prefix followed by that element. */
  lemma TakeOneMore<T>(s: seq<T>, i: nat)
    requires i < |s|
    ensures s[..i + 1] == s[..i] + [s[i]]
  {
  }

  /** Sequence concatenation is associative. */
  lemma Associative<T>(x: seq<T>, y: seq<T>, z: seq<T>)
    ensures (x + y) + z == x + (y + z)
  {
  }

  /** The speech of two runs of released buffers is the speech of each,
      in order. */
  lemma {:induction false} SpeechOfAppend(a: seq<string>, b: seq<string>)
    ensures SpeechOf(a + b) == SpeechOf(a) + SpeechOf(b)
    decreases |b|
  {
    if b == [] {
      assert a + b == a;
    } else {
      var init, last := b[..|b| - 1], b[|b| - 1];
      SpeechOfAppend(a, init);
      SplitLast(a, b);
      Associative(SpeechOf(a), SpeechOf(init), Speech(last));
    }
  }

  /** Over a whole token stream, every token's text ends up, in order,
      either in a buffer the worker reset or in the current buffer. */
  lemma {:induction false} FeedConserves(buffer: string, tokens: seq<string>)
    ensures buffer + Concat(tokens) == Concat(FeedReleased(buffer, tokens)) + FeedBuffer(buffer, tokens)
  {
    if tokens == [] {
      assert buffer + Concat(tokens) == Concat([]) + buffer;
    } else {
      var init, last := tokens[..|tokens| - 1], tokens[|tokens| - 1];
      FeedConserves(buffer, init);
      var kept := FeedBuffer(buffer, init);
      PassKeepsText(kept, last);
      ConservedStep(buffer, Concat(init), last, FeedReleased(buffer, init), kept,
                    ReleasedBy(kept, last), Kept(kept, last));
    }
  }

  /** Every buffer the worker reset was ready, and the buffer it keeps after
      at least one token (or after none, from a buffer that was not ready)
      is not. */
  lemma {:induction false} FeedReleasesReady(buffer: string, tokens: seq<string>)
    ensures forall x | x in FeedReleased(buffer, tokens) :: ReadyToSpeak(x)
    ensures tokens != [] || !ReadyToSpeak(buffer) ==> !ReadyToSpeak(FeedBuffer(buffer, tokens))
  {
    if tokens != [] {
      var init := tokens[..|tokens| - 1];
      FeedReleasesReady(buffer, init);
    }
  }
}

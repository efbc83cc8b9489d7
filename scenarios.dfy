/**
  The chunker model run over token streams one pass at a time: what a
  pass that holds and a pass that releases do to the whole stream so far,
  and a reply that ends inside a word.
 */
module Scenarios {
  import opened Text
  import opened Chunker

  /** One more token that leaves the extended buffer with too few words
      and without a boundary mark at its end is held with the rest. */
  lemma HeldAfter(buffer: string, done: seq<string>, token: string)
    requires var b := FeedBuffer(buffer, done) + token;
      WordCount(b) < SpeakAfterWords && b != [] && b[|b| - 1] !in BoundaryMarks
    ensures FeedBuffer(buffer, done + [token]) == FeedBuffer(buffer, done) + token
    ensures FeedReleased(buffer, done + [token]) == FeedReleased(buffer, done)
  {
    FeedSnoc(buffer, done, token);
  }

  /** One more token that gives the extended buffer enough words releases
      all of it. */
  lemma ReleasedAfter(buffer: string, done: seq<string>, token: string)
    requires WordCount(FeedBuffer(buffer, done) + token) >= SpeakAfterWords
    ensures FeedBuffer(buffer, done + [token]) == ""
    ensures FeedReleased(buffer, done + [token]) == FeedReleased(buffer, done) + [FeedBuffer(buffer, done) + token]
  {
    FeedSnoc(buffer, done, token);
  }

  /** A stream that ends inside a word releases nothing: a word streamed
      in two pieces (such as "आं" then "शिक") is still entirely in the
      buffer when the stream ends, so only a flush speaks it. */
  lemma WordInPieces(first: string, second: string)
    requires IsWord(first) && IsWord(second)
    requires first[|first| - 1] !in BoundaryMarks && second[|second| - 1] !in BoundaryMarks
    ensures FeedReleased("", [first, second]) == []
    ensures FeedBuffer("", [first, second]) == first + second
  {
    FirstPieceHeld(first);
    WordOfPieces(first, second);
    assert (first + second)[|first + second| - 1] == second[|second| - 1];
    HeldAfter("", [first], second);
    assert [first] + [second] == [first, second];
  }

  /** The first piece of a word is held. */
  lemma FirstPieceHeld(first: string)
    requires IsWord(first) && first[|first| - 1] !in BoundaryMarks
    ensures FeedReleased("", [first]) == [] && FeedBuffer("", [first]) == first
  {
    WordCountOfOneWord(first, "");
    assert first + "" == first;
    assert [] + [first] == [first] && "" + first == first;
    HeldAfter("", [], first);
  }

  /** Two pieces without whitespace join into one word. */
  lemma WordOfPieces(first: string, second: string)
    requires IsWord(first) && IsWord(second)
    ensures WordCount(first + second) == 1
  {
    var w := first + second;
    assert IsWord(w) by {
      forall i | 0 <= i < |w|
        ensures !IsSpace(w[i])
      {
        if i < |first| { assert w[i] == first[i]; } else { assert w[i] == second[i - |first|]; }
      }
    }
    WordCountOfOneWord(w, "");
    assert w + "" == w;
  }

  /** A reply streamed as "आं" then "शिक" is held whole until the flush. */
  lemma PartialReplyExample()
    ensures FeedReleased("", ["आं", "शिक"]) == []
    ensures FeedBuffer("", ["आं", "शिक"]) == "आंशिक"
  {
    WordInPieces("आं", "शिक");
  }
}

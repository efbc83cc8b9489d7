/**
  The utterance filter of the main loop: a finalized transcript is
  stripped; an empty one is skipped silently, one with fewer than
  `MIN_WORDS` words is reported as ignored, and any other goes on to
  response generation.
 */
module Screening {
  import opened Text

  /** `MIN_WORDS`: transcripts with fewer words are treated as noise. */
  const MinWords: nat := 2

  /** What the main loop does with one finalized transcript. */
  datatype Verdict =
    | Silent                  // nothing left after stripping: skipped without a message
    | Ignored(query: string)  // too few words: "(ignored: ...)" and the loop goes on
    | Accepted(query: string) // handed to response generation

  /** The filter applied to the recognizer's `text` field. A transcript
      is accepted exactly when it has at least `MinWords` words (stripping
      does not change the count), skipped silently exactly when it is
      blank, and otherwise ignored; the query passed on is the stripped,
      non-empty transcript. */
  function Screen(text: string): (v: Verdict)
    ensures v.Silent? <==> IsBlank(text)
    ensures v.Accepted? <==> WordCount(text) >= MinWords
    ensures v.Ignored? <==> 0 < WordCount(text) < MinWords
    ensures !v.Silent? ==> v.query == Strip(text) && !IsBlank(v.query)
  {
    var query := Strip(text);
    WordCountOfStrip(text);
    WordCountZeroIffBlank(text);
    if query == [] then Silent
    else if WordCount(query) < MinWords then Ignored(query)
    else Accepted(query)
  }
}

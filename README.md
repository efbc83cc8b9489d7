# Turn-taking and speech chunking of an offline Hindi voice assistant

The assistant (`start.py`) is a loop with four steps:

- It listens to the microphone.
- It turns each finalized utterance into text.
- It streams a reply from a local language model.
- It speaks that reply phrase by phrase with a speech synthesizer.

Two pieces of bookkeeping keep this working, and this project models and verifies both.

- **The microphone gate `is_speaking`.**
  - While the gate is raised, captured audio frames are dropped, so the assistant never transcribes its own voice.
  - When the gate is lowered, frames join the `audio_queue` FIFO.
  - Speaking a phrase raises the gate.
  - Only the end-of-turn beep (`play_beep`) lowers it again, and so does a failed reply.
  - At the end of a turn, `flush` discards every frame still queued. These are the frames captured while the gate was down, after the previous beep and before the first phrase of the reply raised it.
- **The streaming chunker of `StreamingTTS`.**
  - Each streamed token is appended to a text buffer.
  - The buffer is released as soon as it holds `SPEAK_AFTER_WORDS` (3) words, or ends with one of `।`, `.`, `?`, `!`, `,` or a newline.
  - A released buffer is spoken stripped, unless it is blank.
  - Either way, the buffer then starts over empty.
  - `flush` speaks whatever is left, unless it is blank.
- **The utterance filter.** A transcript with fewer than `MIN_WORDS` (2) words goes no further.

The model is one sequential state machine, the class `VoiceTurn.Assistant`.

- Its fields are the gate, the frame queue and the buffer.
- Three ghost sequences record what the real program cannot observe:
  - `spoken`: every text handed to the synthesizer;
  - `fed`: every token handed to the chunker;
  - `released`: every buffer the chunker reset.
- Its methods are the capture callback, taking a frame in the main loop (`TakeFrame`), the beep, one pass of the worker loop (`Consume`), `flush`, the token loop of the reply (`Stream`), a whole reply (`Respond`) and the handling of one transcript.

Its invariant `Valid` has two parts:

- Between tokens the buffer is never ready to be spoken.
- No streamed text is lost or reordered: the tokens fed so far, joined, equal the reset buffers joined, followed by the current buffer.

A call of the synthesizer is the ghost step `Say`. It may only happen while the gate is raised, and only with text that is not blank. So the verifier checks two things at every speaking point: the gate is up, and the utterance is not empty.

The pure parts are functions:

- `Text` holds Python's `str.strip()` and `str.split()`, over Python's whitespace set.
- `Chunker` holds the readiness test and the effect of one worker pass. It also holds the fold of passes over a token stream (`FeedBuffer`, `FeedReleased`), which specifies `Stream`.
- `Screening` holds the utterance filter.
- `Scenarios` states what the chunker does on particular token streams, one pass at a time.

### Two behaviours of `start.py` worth knowing

- **A failed reply is not flushed.** Only a reply whose stream ends normally reaches `tts.flush()` (start.py:115). When the stream raises, the `except` at start.py:118-120 only lowers the gate. So after a failure:
  - the partial text stays in the buffer, unspoken;
  - no beep is played;
  - the frame queue is not drained.

  For example, a reply that fails after streaming "आं", "शिक" leaves "आंशिक" unspoken in the buffer (`PartialReplyExample`). The text is then prepended to the next reply. `Respond` models both endings.
- **A ready but blank buffer is reset.** The worker resets the buffer whenever it is ready, even when it is blank and nothing is spoken (start.py:70 is inside the readiness branch). `Kept` is empty after every release.

## Model

| member | source | states |
|---|---|---|
| Text.Strip | start.py:60 | `str.strip()`: empty exactly when the input is blank, and otherwise starting and ending with a non-whitespace character |
| Text.StripParts | start.py:60 | the input is its stripped text with only whitespace before and after it |
| Text.IsSpace | start.py:57 | a plain definition: Python's `str.isspace()` for one character |
| Text.WordCount | start.py:57-58 | a plain definition: the number of positions where a run of non-whitespace ends (SplitCountsWords ties it to `len(split())`) |
| Text.Split | start.py:57 | `str.split()`: empty exactly when the input is blank; every element is a non-empty run without whitespace |
| Text.SplitCountsWords | start.py:57-58 | `len(buffer.split())` is the number of maximal runs of non-whitespace (`WordCount`) |
| Text.WordCountOfStrip | start.py:155-157 | stripping a transcript does not change its word count |
| Text.WordCountZeroIffBlank | start.py:155-157 | a text has no words exactly when it is blank |
| Text.WordCountOfJoin | start.py:56-57 | appending to a buffer that ends in whitespace adds exactly the appended text's words |
| Chunker.EndsWith | start.py:59 | a plain definition: Python's `s.endswith(p)` |
| Chunker.EndsWithBoundary | start.py:59 | a plain definition: `any(buffer.endswith(p) for p in [...])` over the six boundary strings |
| Chunker.ReadyToSpeak | start.py:57-59 | a plain definition: the readiness test of the worker loop |
| Chunker.FeedBuffer | start.py:52-70 | a plain definition: the buffer after the worker loop has taken every token of a stream in FIFO order |
| Chunker.FeedReleased | start.py:52-70 | a plain definition: the buffers the worker loop reset while taking every token of a stream, in order |
| Chunker.BoundaryIsLastMark | start.py:59 | ending with one of the six boundary strings is the same as having a boundary character last |
| Chunker.Speech | start.py:60-61 | a released buffer yields at most one utterance; none exactly when the buffer is blank; the utterance is not blank and has the buffer's word count |
| Chunker.Releases | start.py:56-59 | a pass releases the buffer exactly when the extended buffer has at least `SPEAK_AFTER_WORDS` words or ends with a boundary mark |
| Chunker.Kept | start.py:56-70 | the buffer after a pass is never ready; it is empty after a release, even a blank one, and otherwise as long as the extended buffer (PassKeepsText shows it is that buffer) |
| Chunker.ReleasedBy | start.py:56-70 | a pass resets at most one buffer; it resets one exactly when it releases, and that buffer was ready |
| Chunker.SpokenBy | start.py:60-67 | what a pass speaks is the speech of the buffer it resets |
| Chunker.PassKeepsText | start.py:56-70 | the buffer a pass resets, followed by the buffer it keeps, is the old buffer followed by the token |
| Chunker.SpeechOf | start.py:60-61 | no text spoken for a run of released buffers is blank, and there are at most as many texts as buffers |
| Chunker.FeedSnoc | start.py:52-56 | running the worker over one more token is one more pass, in FIFO order |
| Chunker.FeedConserves | start.py:52-70 | over a whole stream, the tokens joined equal the reset buffers joined, in order, followed by the final buffer |
| Chunker.FeedReleasesReady | start.py:56-70 | every buffer reset while running over a stream was ready, and the final buffer is not |
| Screening.Screen | start.py:155-161 | a transcript is accepted exactly when it has at least `MIN_WORDS` words; it is skipped silently exactly when it is blank and ignored otherwise; the query passed on is the stripped, non-blank transcript |
| VoiceTurn.PassConserves | start.py:56-70 | one worker pass keeps every streamed token accounted for, in order |
| VoiceTurn.ResetConserves | start.py:77-86 | resetting a non-blank buffer in `flush` keeps every streamed token accounted for |
| VoiceTurn.Assistant.constructor | start.py:23-24 | the initial state has the gate lowered, no frames queued and an empty buffer, and satisfies the invariant |
| VoiceTurn.Assistant.Say | start.py:63-67 | each synthesizer call appends its text to `spoken`, and is allowed only with the gate raised and non-blank text |
| VoiceTurn.Assistant.AudioCallback | start.py:26-31 | while the gate is raised the queue is unchanged; otherwise exactly the frame is appended at the back |
| VoiceTurn.Assistant.TakeFrame | start.py:152 | the main loop takes the oldest frame, and the rest of the queue keeps its order |
| VoiceTurn.Assistant.PlayBeep | start.py:34-39 | the beep speaks the prompt "बोलिए" with the gate raised and leaves the gate lowered |
| VoiceTurn.Assistant.Consume | start.py:53-70 | one worker pass: the new buffer, the reset buffers, the spoken texts and the gate are those of `Kept`, `ReleasedBy` and `SpokenBy`; the buffer is never left ready |
| VoiceTurn.Assistant.Flush | start.py:75-93 | a non-blank buffer is spoken stripped and reset, and a blank one is kept; the queue ends empty and the gate lowered after the beep; the invariant is kept |
| VoiceTurn.Assistant.Stream | start.py:107-113 | the tokens reach the worker in order: the buffer, reset buffers and spoken texts are those of the fold over the stream; the gate is raised exactly when it was already raised or something was spoken; the invariant is kept |
| VoiceTurn.Assistant.Respond | start.py:105-120 | a reply streams every token and then flushes; a failed one only lowers the gate, leaving the buffer and queue as streaming left them |
| VoiceTurn.Assistant.HandleTranscript | start.py:155-162 | only a transcript with at least `MIN_WORDS` words starts a reply; any other changes nothing |
| Scenarios.HeldAfter | start.py:56-59 | a token that leaves the buffer with too few words and no boundary mark last is held, and nothing more is released |
| Scenarios.ReleasedAfter | start.py:56-70 | a token that brings the buffer to `SPEAK_AFTER_WORDS` words releases all of it and empties the buffer |
| Scenarios.WordInPieces | start.py:56-59 | a word streamed in two pieces releases nothing, and the whole word stays in the buffer |
| Scenarios.PartialReplyExample | start.py:56-59 | the stream "आं", "शिक" releases nothing and leaves "आंशिक" in the buffer |

## Left out

- Audio input is not modelled: the device stream, its configuration and the status printing in the callback (start.py:29-30, 142-150). A frame is an opaque byte sequence.
- The speech recognizer is not modelled: model loading, `AcceptWaveform` and the JSON result (start.py:125-131, 153-154). `HandleTranscript` takes the finalized text as a parameter.
- The language model client is not modelled (start.py:106). A reply is the sequence of tokens it yields, plus a flag saying whether it then failed.
- The synthesizer subprocess is not modelled: its voice settings, its 10-second timeout and its exception handlers (start.py:64-69, 80-85). Each call is the ghost step `Say`. A failing call changes no state, as in the source, where the gate is raised before the call.
- Sleeps, clocks and latency printing are not modelled (start.py:38, 102, 110, 116). The settle delay after the beep is not represented.
- The worker thread is not modelled. This covers the token queue, the `None` sentinel and `close`, and the shutdown on `KeyboardInterrupt` (start.py:44-55, 95-96, 164-167). Tokens are handed to the worker one call at a time, in FIFO order.
- Races are not modelled: between the worker and `flush` on the buffer, and between the capture callback and the main loop on the queue and the gate. The model is sequential and assumes the worker has drained its queue before `flush` runs.
- The startup announcement (start.py:137) is not modelled. It is spoken without raising the gate, before the audio stream is opened, so no frame can be captured during it.
- The failure of `get_nowait` inside the drain loop (start.py:89-92) is not modelled, because it cannot happen in the sequential model once the queue is known to be non-empty.
- VoiceTurn.Assistant.TakeFrame: returns `None` on an empty queue, where `audio_queue.get()` blocks until a frame arrives.
- VoiceTurn.Assistant.HandleTranscript: for an accepted transcript it states only the tokens fed and the lowered gate. The full effect on the buffer, the spoken texts and the queue is the contract of `Respond`, which it calls.
- VoiceTurn.Assistant.Consume: requires and ensures only that the buffer is settled. That the streamed text is conserved across a pass is `PassConserves`, which `Stream` applies around each call.

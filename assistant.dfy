/**
  The turn-taking state of the assistant as one sequential state machine:
  the microphone gate `is_speaking`, the captured-frame queue
  `audio_queue`, the text buffer of `StreamingTTS`, and, as ghost state,
  every text handed to the speech synthesizer, every token handed to the
  chunker and every buffer the chunker released.

  Speaking is not performed here: each call of the synthesizer is the
  ghost step `Say`, which may only happen while the gate is raised.
 */
module VoiceTurn {
  import opened Text
  import opened Chunker
  import opened Screening

  /** One block of raw PCM audio, as delivered by the capture callback. */
  type Frame = seq<bv8>

  datatype Option<T> = None | Some(value: T)

  /** No text is lost or reordered: the tokens fed so far are exactly the
      buffers the worker reset, in order, followed by the current buffer. */
  ghost predicate Conserved(fed: seq<string>, released: seq<string>, buffer: string) {
    Concat(fed) == Concat(released) + buffer
  }

  /** One pass of the worker loop (the state change of `Consume`) keeps
      the tokens accounted for. */
  lemma PassConserves(fed: seq<string>, released: seq<string>, buffer: string, token: string)
    requires Conserved(fed, released, buffer)
    ensures Conserved(fed + [token], released + ReleasedBy(buffer, token), Kept(buffer, token))
  {
    ConcatSnoc(fed, token);
    PassKeepsText(buffer, token);
    ConservedStep([], Concat(fed), token, released, buffer, ReleasedBy(buffer, token), Kept(buffer, token));
  }

  /** Resetting the whole buffer (the state change of `Flush` on a buffer
      that is not blank) keeps the tokens accounted for. */
  lemma ResetConserves(fed: seq<string>, released: seq<string>, buffer: string)
    requires Conserved(fed, released, buffer)
    ensures Conserved(fed, released + [buffer], "")
  {
    ConcatSnoc(released, buffer);
  }

  /** The "speak now" prompt of the end-of-turn beep (Hindi "bolie"). */
  const BeepPrompt: string := "बोलिए"

  class Assistant {
    /** `is_speaking`: while raised, captured frames are dropped. */
    var isSpeaking: bool
    /** `audio_queue`: captured frames waiting for the recognizer, oldest first. */
    var audioQueue: seq<Frame>
    /** `StreamingTTS.buffer`: streamed text not yet spoken. */
    var buffer: string

    /** Every text handed to the synthesizer, in order. */
    ghost var spoken: seq<string>
    /** Every token handed to the chunker, in order. */
    ghost var fed: seq<string>
    /** Every buffer the chunker released and reset, in order. */
    ghost var released: seq<string>

    /** Between tokens the worker never holds a buffer that is ready to be
        spoken. */
    ghost predicate Settled()
      reads this
    {
      !ReadyToSpeak(buffer)
    }

    /** The buffer is settled, and no text handed to the worker has been
        lost or reordered. */
    ghost predicate Valid()
      reads this
    {
      Settled() && Conserved(fed, released, buffer)
    }

    /** The initial state: gate lowered, no frames, empty buffer. */
    constructor ()
      ensures Valid()
      ensures !isSpeaking && audioQueue == [] && buffer == ""
      ensures spoken == [] && fed == [] && released == []
    {
      isSpeaking := false;
      audioQueue := [];
      buffer := "";
      spoken := [];
      fed := [];
      released := [];
      new;
      EmptyNotReady();
    }

    /** One call of the synthesizer with `text`. It is only allowed while
        the gate is raised, so the assistant never records its own voice,
        and only with text that is not blank. */
    ghost method Say(text: string)
      requires isSpeaking && !IsBlank(text)
      modifies this`spoken
      ensures spoken == old(spoken) + [text]
    {
      spoken := spoken + [text];
    }

    /** `audio_callback`: a frame captured while the gate is raised is
        dropped; otherwise it joins the back of the queue. */
    method AudioCallback(frame: Frame)
      requires Valid()
      modifies this`audioQueue
      ensures Valid()
      ensures audioQueue == if isSpeaking then old(audioQueue) else old(audioQueue) + [frame]
    {
      if isSpeaking {
        return;
      }
      audioQueue := audioQueue + [frame];
    }

    /** `audio_queue.get()` in the main loop: the oldest frame, or `None`
        when there is none yet (where the source blocks until a frame is
        captured). */
    method TakeFrame() returns (f: Option<Frame>)
      requires Valid()
      modifies this`audioQueue
      ensures Valid()
      ensures old(audioQueue) == [] ==> f == None && audioQueue == []
      ensures old(audioQueue) != [] ==>
        f == Some(old(audioQueue)[0]) && audioQueue == old(audioQueue)[1..]
    {
      if audioQueue == [] {
        return None;
      }
      f := Some(audioQueue[0]);
      audioQueue := audioQueue[1..];
    }

    /** `play_beep`: raise the gate, speak the prompt, lower the gate. */
    method PlayBeep()
      requires Valid()
      modifies this`isSpeaking, this`spoken
      ensures Valid()
      ensures !isSpeaking && spoken == old(spoken) + [BeepPrompt]
    {
      isSpeaking := true;
      assert !IsSpace(BeepPrompt[0]);
      Say(BeepPrompt);
      isSpeaking := false;
    }

    /** One pass of the `_worker` loop on `token`: the token is appended to
        the buffer; if the buffer is then ready it is spoken (stripped,
        unless blank, raising the gate first) and reset to empty. */
    method Consume(token: string)
      requires Settled()
      modifies this`buffer, this`isSpeaking, this`spoken, this`fed, this`released
      ensures Settled()
      ensures fed == old(fed) + [token]
      ensures buffer == Kept(old(buffer), token)
      ensures released == old(released) + ReleasedBy(old(buffer), token)
      ensures spoken == old(spoken) + SpokenBy(old(buffer), token)
      ensures isSpeaking == (old(isSpeaking) || SpokenBy(old(buffer), token) != [])
    {
      ghost var release := Releases(buffer, token);
      fed := fed + [token];
      buffer := buffer + token;
      var words := Split(buffer);
      SplitCountsWords(buffer);
      assert release <==> |words| >= SpeakAfterWords || EndsWithBoundary(buffer);
      if |words| >= SpeakAfterWords || EndsWithBoundary(buffer) {
        var text := Strip(buffer);
        if text != [] {
          isSpeaking := true;
          Say(text);
        }
        released := released + [buffer];
        buffer := "";
        EmptyNotReady();
      }
    }

    /** `flush`: speak what is left in the buffer unless it is blank (a
        blank buffer is kept as it is), discard every queued frame, then
        play the beep, which leaves the gate lowered. */
    method Flush()
      requires Valid()
      modifies this`buffer, this`isSpeaking, this`spoken, this`released, this`audioQueue
      ensures Valid()
      ensures buffer == (if IsBlank(old(buffer)) then old(buffer) else "")
      ensures released == old(released) + (if IsBlank(old(buffer)) then [] else [old(buffer)])
      ensures spoken == old(spoken) + Speech(old(buffer)) + [BeepPrompt]
      ensures audioQueue == [] && !isSpeaking
    {
      var text := Strip(buffer);
      if text != [] {
        EmptyNotReady();
        ResetConserves(fed, released, buffer);
        isSpeaking := true;
        Say(text);
        released := released + [buffer];
        buffer := "";
      }
      while audioQueue != []
        modifies this`audioQueue
        decreases |audioQueue|
      {
        audioQueue := audioQueue[1..];
      }
      PlayBeep();
    }

    /** The `for chunk in stream` loop of `get_response_streaming`: every
        token of the stream goes through the worker loop, in order. */
    method Stream(tokens: seq<string>)
      requires Valid()
      modifies this`buffer, this`isSpeaking, this`spoken, this`fed, this`released
      ensures Valid()
      ensures fed == old(fed) + tokens
      ensures buffer == FeedBuffer(old(buffer), tokens)
      ensures released == old(released) + FeedReleased(old(buffer), tokens)
      ensures spoken == old(spoken) + SpeechOf(FeedReleased(old(buffer), tokens))
      ensures isSpeaking == (old(isSpeaking) || SpeechOf(FeedReleased(old(buffer), tokens)) != [])
    {
      var i := 0;
      while i < |tokens|
        invariant 0 <= i <= |tokens|
        invariant Valid()
        invariant fed == old(fed) + tokens[..i]
        invariant buffer == FeedBuffer(old(buffer), tokens[..i])
        invariant released == old(released) + FeedReleased(old(buffer), tokens[..i])
        invariant spoken == old(spoken) + SpeechOf(FeedReleased(old(buffer), tokens[..i]))
        invariant isSpeaking == (old(isSpeaking) || SpeechOf(FeedReleased(old(buffer), tokens[..i])) != [])
      {
        ghost var done := tokens[..i];
        ghost var parts := ReleasedBy(buffer, tokens[i]);
        PassConserves(fed, released, buffer, tokens[i]);
        Consume(tokens[i]);
        TakeOneMore(tokens, i);
        FeedSnoc(old(buffer), done, tokens[i]);
        SpeechOfAppend(FeedReleased(old(buffer), done), parts);
        Associative(old(spoken), SpeechOf(FeedReleased(old(buffer), done)), SpeechOf(parts));
        Associative(old(released), FeedReleased(old(buffer), done), parts);
        Associative(old(fed), done, [tokens[i]]);
        i := i + 1;
      }
      assert tokens[..i] == tokens;
    }

    /** `get_response_streaming` for a generator that yields `tokens` and
        then either ends (`failed` false) or raises (`failed` true). At the
        end of the stream the buffer is flushed, while on a failure the
        gate is only lowered and the buffer keeps its unspoken text. */
    method Respond(tokens: seq<string>, failed: bool)
      requires Valid()
      modifies this`buffer, this`isSpeaking, this`spoken, this`fed, this`released, this`audioQueue
      ensures Valid()
      ensures fed == old(fed) + tokens && !isSpeaking
      ensures var parts, rest := FeedReleased(old(buffer), tokens), FeedBuffer(old(buffer), tokens);
        && (failed ==>
             && buffer == rest
             && released == old(released) + parts
             && spoken == old(spoken) + SpeechOf(parts)
             && audioQueue == old(audioQueue))
        && (!failed ==>
             && buffer == (if IsBlank(rest) then rest else "")
             && released == old(released) + parts + (if IsBlank(rest) then [] else [rest])
             && spoken == old(spoken) + SpeechOf(parts) + Speech(rest) + [BeepPrompt]
             && audioQueue == [])
    {
      Stream(tokens);
      if failed {
        isSpeaking := false;
      } else {
        Flush();
      }
    }

    /** One finalized transcript in the main loop: it is screened, and only
        an accepted query starts a response (from `tokens`, ending as
        `failed` says); any other transcript changes nothing. */
    method HandleTranscript(text: string, tokens: seq<string>, failed: bool) returns (v: Verdict)
      requires Valid()
      modifies this`buffer, this`isSpeaking, this`spoken, this`fed, this`released, this`audioQueue
      ensures Valid()
      ensures v == Screen(text)
      ensures v.Accepted? <==> WordCount(text) >= MinWords
      ensures !v.Accepted? ==> unchanged(this)
      ensures v.Accepted? ==> fed == old(fed) + tokens && !isSpeaking
    {
      v := Screen(text);
      if v.Accepted? {
        Respond(tokens, failed);
      }
    }
  }
}

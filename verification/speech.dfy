/**
 * The caller-side control of the speech engine (tts_engine.py:16-219): the
 * flags is_speaking, is_paused and should_stop, the selected rate and voice.
 * Audio synthesis and playback run on a background thread that is not part
 * of this model.
 */
module Speech {
  import opened Config
  import Text

  datatype PlaybackState = Stopped | Paused | Playing

  /** Voice identifiers, in the order the voice menu lists them (tts_engine.py:34-41). */
  const VOICES: seq<string> := [
    "en-US-AriaNeural", "en-US-GuyNeural", "en-US-JennyNeural",
    "en-GB-SoniaNeural", "en-GB-RyanNeural", "en-AU-NatashaNeural"]

  const DEFAULT_VOICE := "en-US-AriaNeural"

  /** max(TTS_MIN_RATE, min(TTS_MAX_RATE, rate)) */
  function ClampRate(rate: int): (r: int)
    ensures TTS_MIN_RATE <= r <= TTS_MAX_RATE
    ensures TTS_MIN_RATE <= rate <= TTS_MAX_RATE ==> r == rate
    ensures rate < TTS_MIN_RATE ==> r == TTS_MIN_RATE
    ensures rate > TTS_MAX_RATE ==> r == TTS_MAX_RATE
  {
    var capped := if rate < TTS_MAX_RATE then rate else TTS_MAX_RATE;
    if capped > TTS_MIN_RATE then capped else TTS_MIN_RATE
  }

  /** Clamping twice is clamping once. */
  lemma ClampRateIdempotent(rate: int)
    ensures ClampRate(ClampRate(rate)) == ClampRate(rate)
  {
  }

  /** The text speak hands to the audio thread: Python's text[start:] when start > 0. */
  function SpokenText(text: string, start: int): (t: string)
    ensures start <= 0 ==> t == text
    ensures 0 < start < |text| ==> text == text[..start] + t
    ensures start >= |text| ==> t == ""
  {
    if start > 0 then (if start < |text| then text[start..] else "") else text
  }

  class SpeechEngine {
    var isSpeaking: bool
    var isPaused: bool
    var shouldStop: bool
    var currentRate: int
    var currentVoice: string

    constructor ()
      ensures !isSpeaking && !isPaused && !shouldStop
      ensures currentRate == TTS_DEFAULT_RATE && currentVoice == DEFAULT_VOICE
      ensures GetState() == Stopped
    {
      isSpeaking, isPaused, shouldStop := false, false, false;
      currentRate := TTS_DEFAULT_RATE;
      currentVoice := DEFAULT_VOICE;
    }

    /** The state the reader window shows: stopped, paused or playing. */
    function GetState(): (s: PlaybackState)
      reads this
      ensures s == Stopped <==> !isSpeaking
      ensures s == Paused <==> isSpeaking && isPaused
      ensures s == Playing <==> isSpeaking && !isPaused
    {
      if !isSpeaking then Stopped
      else if isPaused then Paused
      else Playing
    }

    /** Selects a voice by its menu index; an index outside the menu is ignored. */
    method SetVoice(index: int)
      modifies this`currentVoice
      ensures 0 <= index < |VOICES| ==> currentVoice == VOICES[index]
      ensures !(0 <= index < |VOICES|) ==> currentVoice == old(currentVoice)
    {
      if 0 <= index < |VOICES| {
        currentVoice := VOICES[index];
      }
    }

    /** Stores the rate clamped into [TTS_MIN_RATE, TTS_MAX_RATE]. */
    method SetRate(rate: int)
      modifies this`currentRate
      ensures currentRate == ClampRate(rate)
    {
      var r := if TTS_MAX_RATE < rate then TTS_MAX_RATE else rate;
      r := if TTS_MIN_RATE > r then TTS_MIN_RATE else r;
      currentRate := r;
    }

    /** Pauses playing speech; reports whether it did. */
    method Pause() returns (ok: bool)
      modifies this`isPaused
      ensures ok == (old(GetState()) == Playing)
      ensures ok ==> isPaused && GetState() == Paused
      ensures !ok ==> isPaused == old(isPaused)
    {
      if isSpeaking && !isPaused {
        isPaused := true;
        return true;
      }
      return false;
    }

    /** Resumes paused speech; reports whether it did. */
    method Resume() returns (ok: bool)
      modifies this`isPaused
      ensures ok == (old(GetState()) == Paused)
      ensures ok ==> !isPaused && GetState() == Playing
      ensures !ok ==> isPaused == old(isPaused)
    {
      if isSpeaking && isPaused {
        isPaused := false;
        return true;
      }
      return false;
    }

    /** Resume when the pause flag is set, pause otherwise. */
    method TogglePause() returns (ok: bool)
      modifies this`isPaused
      ensures old(isPaused) ==> ok == (old(GetState()) == Paused) && (ok ==> GetState() == Playing)
      ensures !old(isPaused) ==> ok == (old(GetState()) == Playing) && (ok ==> GetState() == Paused)
      ensures !ok ==> isPaused == old(isPaused)
    {
      if isPaused {
        ok := Resume();
      } else {
        ok := Pause();
      }
    }

    /** Stops speech completely; the audio thread is told to stop and is waited for. */
    method Stop()
      modifies this`shouldStop, this`isPaused, this`isSpeaking
      ensures shouldStop && !isPaused && !isSpeaking
      ensures GetState() == Stopped
    {
      shouldStop := true;
      isPaused := false;
      isSpeaking := false;
    }

    /**
     * Stops whatever is playing, then starts speaking text from startFromIndex
     * unless what is left of it is blank.
     */
    method Speak(text: string, startFromIndex: int)
      modifies this`shouldStop, this`isPaused, this`isSpeaking
      ensures !isPaused
      ensures Text.IsBlank(SpokenText(text, startFromIndex)) ==> shouldStop && !isSpeaking && GetState() == Stopped
      ensures !Text.IsBlank(SpokenText(text, startFromIndex)) ==> !shouldStop && isSpeaking && GetState() == Playing
    {
      Stop();
      var t := text;
      if startFromIndex > 0 {
        t := if startFromIndex < |t| then t[startFromIndex..] else "";
      }
      Text.StripSpec(t);
      if Text.Strip(t) == "" {
        return;
      }
      shouldStop := false;
      isPaused := false;
      isSpeaking := true;
    }
  }
}

/**
 * The decision and return logic of client/mic.py. Capturing audio and calibrating the
 * recogniser happen in a foreign library; here their results are arguments: the energy
 * threshold the recogniser holds after the listen, and what one listen yielded (the transcript the
 * speech-to-text engine returned, or a wait timeout). The speaker records what it is
 * asked to say and play.
 */
module Microphone {
  import opened Wrappers
  import opened Text
  import Stt

  /** The text-to-speech engine instance the mic speaks through. */
  class Speaker {
    var spoken: seq<string>
    var played: seq<string>

    constructor ()
      ensures spoken == [] && played == []
    {
      spoken := [];
      played := [];
    }

    /** `speaker.say(phrase)`. */
    method Say(phrase: string)
      modifies this
      ensures spoken == old(spoken) + [phrase] && played == old(played)
    {
      spoken := spoken + [phrase];
    }

    /** `speaker.play(filename)`. */
    method Play(filename: string)
      modifies this
      ensures played == old(played) + [filename] && spoken == old(spoken)
    {
      played := played + [filename];
    }
  }

  /** The outcome of `r.listen(...)` followed by `stt_engine.transcribe(audio)`. */
  datatype Capture = Heard(transcript: string) | TimedOut

  /** `fraseInterpretada`: the UTF-8 bytes of the transcript, or "" after a wait timeout. */
  function InterpretedPhrase(capture: Capture): (phrase: string)
    ensures IsByteString(phrase)
    ensures capture.TimedOut? ==> phrase == ""
    ensures capture.Heard? && IsAscii(capture.transcript) ==> phrase == capture.transcript
  {
    match capture
    case Heard(t) => (if IsAscii(t) then Utf8EncodeAscii(t); Utf8Encode(t) else Utf8Encode(t))
    case TimedOut => ""
  }

  /** `if options: return options[0]`: the first byte of the transcript, as a one-byte string. */
  function FirstOption(options: string): (r: Option<string>)
    ensures r.None? <==> options == ""
    ensures r.Some? ==> r.value == options[..1]
  {
    if |options| > 0 then Some([options[0]]) else None
  }

  /** After a timeout the keyword is reported only when it is itself empty. */
  lemma TimeoutFindsOnlyEmptyKeyword(persona: string)
    ensures Contains(InterpretedPhrase(TimedOut), persona) <==> persona == ""
  {
    if persona == "" {
      assert OccursAt("", persona, 0);
    }
  }

  /** An ASCII keyword spoken anywhere in the transcript is found in the encoded phrase. */
  lemma SpokenKeywordFound(persona: string, transcript: string)
    requires IsAscii(persona) && Contains(transcript, persona)
    ensures Contains(InterpretedPhrase(Heard(transcript)), persona)
  {
    Utf8KeepsAsciiNeedle(transcript, persona);
  }

  /** The first option of a heard transcript is the first byte of its encoding, so never of a timeout. */
  lemma ActiveListenResult(capture: Capture)
    ensures capture.TimedOut? ==> FirstOption(InterpretedPhrase(capture)).None?
    ensures capture.Heard? && capture.transcript != [] ==>
      FirstOption(InterpretedPhrase(capture)) == Some(EncodeChar(capture.transcript[0])[..1])
  {
    if capture.Heard? && capture.transcript != [] {
      var t := capture.transcript;
      var e := EncodeChar(t[0]);
      assert Utf8Encode(t) == e + Utf8Encode(t[1..]);
      assert Utf8Encode(t)[..1] == e[..1];
    }
  }

  class Mic {
    const speaker: Speaker
    const sttEngine: Stt.Instance
    /** `alteration.clean`, which client/mic.py imports from a module that is not part of this model. */
    const clean: string -> string
    /** The directory `jasperpath.data` resolves sound files in. */
    const dataDir: string

    constructor (speaker: Speaker, sttEngine: Stt.Instance, clean: string -> string, dataDir: string)
      ensures this.speaker == speaker && this.sttEngine == sttEngine
      ensures this.clean == clean && this.dataDir == dataDir
    {
      this.speaker := speaker;
      this.sttEngine := sttEngine;
      this.clean := clean;
      this.dataDir := dataDir;
    }

    /** `jasperpath.data('audio', 'beep_hi.wav')`. */
    function BeepHi(): string
    {
      dataDir + "/audio/beep_hi.wav"
    }

    /**
     * `passiveListen(PERSONA)`: after calibrating and one listen, report the energy
     * threshold the recogniser holds at that point (`heldThreshold`: calibration and the
     * listen itself may both change it) and whether PERSONA occurs in what was heard.
     */
    method PassiveListen(persona: string, capture: Capture, heldThreshold: real)
      returns (threshold: real, keyword: Option<string>)
      ensures threshold == heldThreshold
      ensures keyword.Some? <==> Contains(InterpretedPhrase(capture), persona)
      ensures keyword.Some? ==> keyword.value == persona
    {
      var phrase: string;
      match capture {
        case Heard(t) =>
          phrase := Utf8Encode(t);
        case TimedOut =>
          phrase := "";
      }
      if Contains(phrase, persona) {
        return heldThreshold, Some(persona);
      }
      return heldThreshold, None;
    }

    /**
     * `activeListenToAllOptions(threshold)`: play the high beep once, listen, and return
     * the encoded transcript, or "" on a timeout. The threshold goes to the recogniser,
     * which is not modelled.
     */
    method ActiveListenToAllOptions(threshold: real, listenTime: int, music: bool, capture: Capture)
      returns (options: string)
      modifies speaker
      ensures speaker.played == old(speaker.played) + [BeepHi()]
      ensures speaker.spoken == old(speaker.spoken)
      ensures options == InterpretedPhrase(capture)
    {
      speaker.Play(BeepHi());
      match capture {
        case Heard(t) =>
          return Utf8Encode(t);
        case TimedOut =>
          return "";
      }
    }

    /** `activeListen(THRESHOLD)`: the first character of the options string, or None when it is empty. */
    method ActiveListen(threshold: real, listenTime: int, music: bool, capture: Capture)
      returns (first: Option<string>)
      modifies speaker
      ensures speaker.played == old(speaker.played) + [BeepHi()]
      ensures speaker.spoken == old(speaker.spoken)
      ensures first == FirstOption(InterpretedPhrase(capture))
    {
      var options := ActiveListenToAllOptions(threshold, listenTime, music, capture);
      if |options| > 0 {
        return Some([options[0]]);
      }
      return None;
    }

    /** `say(phrase)`: exactly one `speaker.say`, on the cleaned phrase; `OPTIONS` is not used. */
    method Say(phrase: string, options: string)
      modifies speaker
      ensures speaker.spoken == old(speaker.spoken) + [clean(phrase)]
      ensures speaker.played == old(speaker.played)
    {
      var cleaned := clean(phrase);
      speaker.Say(cleaned);
    }
  }
}

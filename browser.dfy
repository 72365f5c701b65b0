/** The browser surface both pages talk to, reduced to values: recognition
    results as the page reads them, synthesis voices and utterances, and the
    requests the page makes of the recognizer and the synthesizer. */
module Browser {

  datatype Option<+T> = None | Some(value: T)

  /** One recognition result: the transcript of its first alternative and
      whether the recognizer has finalized it. */
  datatype Segment = Segment(transcript: string, isFinal: bool)

  /** A synthesis voice as `getVoices()` lists it. */
  datatype Voice = Voice(name: string, lang: string)

  /** What the page hands to `speak`; `voice` is None when the platform's
      default voice stays in effect. Rate and pitch are not modelled. */
  datatype Utterance = Utterance(text: string, voice: Option<Voice>)

  /** A request issued to the recognizer or the synthesizer. */
  datatype Call =
    | RecognitionStart
    | RecognitionStop
    | Speak(utterance: Utterance)
    | Cancel
}

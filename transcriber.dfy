/** The single-panel transcriber page of Task-1: a microphone toggle, a
    status line and a transcript area with copy and clear buttons. Each
    handler is one atomic transition; requests to the recognizer are returned
    as calls. The page is modelled for a browser that has a recognizer. */
module Transcriber {
  import opened Browser
  import opened Transcript

  const TapToSpeak: string := "Tap to Speak"

  class TranscriptPanel {
    var isRecording: bool
    var status: string
    var transcript: string

    constructor (initialStatus: string)
      ensures !isRecording && status == initialStatus && transcript == ""
    {
      isRecording := false;
      status := initialStatus;
      transcript := "";
    }

    /** The microphone button: exactly one request, stop while recording and
        start otherwise. The flag itself changes only when the recognizer
        calls back. */
    method ToggleRecording() returns (calls: seq<Call>)
      ensures |calls| == 1
      ensures calls[0] == RecognitionStop <==> isRecording
      ensures calls[0] == RecognitionStart <==> !isRecording
    {
      if isRecording {
        calls := [RecognitionStop];
      } else {
        calls := [RecognitionStart];
      }
    }

    method OnStart()
      modifies this
      ensures isRecording && status == Listening && transcript == old(transcript)
    {
      isRecording := true;
      status := Listening;
    }

    method OnEnd()
      modifies this
      ensures !isRecording && status == TapToSpeak && transcript == old(transcript)
    {
      isRecording := false;
      status := TapToSpeak;
    }

    method OnError(error: string)
      modifies this
      ensures !isRecording && status == "Error: " + error && transcript == old(transcript)
    {
      status := "Error: " + error;
      isRecording := false;
    }

    /** A result event: each final segment from `resultIndex` on is appended
        to the transcript in place, in order, with the separator rule; interim
        text is gathered for the status line. */
    method OnResult(results: seq<Segment>, resultIndex: nat)
      modifies this
      ensures isRecording == old(isRecording)
      ensures transcript == FoldAppend(old(transcript), Window(results, resultIndex))
      ensures status == StatusWhileRecording(Texts(Window(results, resultIndex), false), isRecording, old(status))
    {
      var interim := "";
      var i := resultIndex;
      while i < |results|
        invariant resultIndex > |results| ==> i == resultIndex && interim == "" && transcript == old(transcript)
        invariant resultIndex <= |results| ==> resultIndex <= i <= |results|
        invariant resultIndex <= |results| ==> transcript == FoldAppend(old(transcript), results[resultIndex..i])
        invariant resultIndex <= |results| ==> interim == Texts(results[resultIndex..i], false)
        invariant isRecording == old(isRecording) && status == old(status)
      {
        FoldAppendStep(old(transcript), results, resultIndex, i);
        assert results[resultIndex..i + 1][..i - resultIndex] == results[resultIndex..i];
        var text := results[i].transcript;
        if results[i].isFinal {
          if |transcript| > 0 && transcript[|transcript| - 1] != ' ' {
            transcript := transcript + " ";
          }
          transcript := transcript + text;
        } else {
          interim := interim + text;
        }
        i := i + 1;
      }
      assert resultIndex <= |results| ==> results[resultIndex..i] == results[resultIndex..];
      if interim != "" {
        status := interim + "...";
      } else if isRecording {
        status := Listening;
      }
    }

    /** The clear button: the transcript becomes empty, so the next final
        segment is appended with no leading space. */
    method ClearClick()
      modifies this
      ensures transcript == "" && isRecording == old(isRecording) && status == old(status)
    {
      transcript := "";
    }

    /** The copy button: the text handed to the clipboard, nothing when the
        transcript is empty. */
    method CopyClick() returns (written: Option<string>)
      ensures written == None <==> transcript == ""
      ensures written.Some? ==> written.value == transcript
    {
      if transcript == "" {
        return None;
      }
      written := Some(transcript);
    }
  }
}

/** The two-panel page: the speech-to-text panel ("SpeakIT"), the
    text-to-speech panel ("HearIT") and the navigation between them and the
    landing page. Each handler is one atomic transition; requests to the
    recognizer and the synthesizer are returned as calls, and the
    synthesizer's `speaking` flag is read as a parameter. */
module SpeakIt {
  import opened Browser
  import opened Transcript
  import opened Voices

  const Idle: string := "Tap directly on the microphone to start listening"
  const NotSupported: string := "Browser not supported. Please use Chrome/Edge."

  /** The speech-to-text panel: the recording flag, the status line and the
      output text area. */
  class Scribe {
    const hasRecognizer: bool
    var isRecording: bool
    var status: string
    var output: string

    /** Page load: without a recognizer the status says so and the callbacks
        are never installed. */
    constructor (hasRecognizer: bool, initialStatus: string)
      ensures this.hasRecognizer == hasRecognizer && !isRecording && output == ""
      ensures status == if hasRecognizer then initialStatus else NotSupported
    {
      this.hasRecognizer := hasRecognizer;
      isRecording := false;
      output := "";
      status := if hasRecognizer then initialStatus else NotSupported;
    }

    method OnStart()
      requires hasRecognizer
      modifies this
      ensures isRecording && status == Listening && output == old(output)
    {
      isRecording := true;
      status := Listening;
    }

    method OnEnd()
      requires hasRecognizer
      modifies this
      ensures !isRecording && status == Idle && output == old(output)
    {
      isRecording := false;
      status := Idle;
    }

    method OnError(error: string)
      requires hasRecognizer
      modifies this
      ensures !isRecording && status == "Error: " + error && output == old(output)
    {
      status := "Error: " + error;
      isRecording := false;
    }

    /** A result event: the status shows the event's interim text, and its
        final text, if any, is appended once with the separator rule. */
    method OnResult(results: seq<Segment>, resultIndex: nat)
      requires hasRecognizer
      modifies this
      ensures isRecording == old(isRecording)
      ensures status == StatusFor(Texts(Window(results, resultIndex), false))
      ensures output == AfterEvent(old(output), Texts(Window(results, resultIndex), true))
    {
      var final, interim := Partition(results, resultIndex);
      if interim != "" {
        status := interim + "...";
      } else {
        status := Listening;
      }
      if final != "" {
        var current := output;
        var prefix := if current != "" && current[|current| - 1] != ' ' then " " else "";
        output := current + prefix + final;
      }
    }

    /** The microphone button: stop while recording, start otherwise, and
        nothing at all without a recognizer. The flag itself changes only
        when the recognizer calls back. */
    method MicClick() returns (calls: seq<Call>)
      ensures |calls| <= 1
      ensures calls == [] <==> !hasRecognizer
      ensures RecognitionStop in calls <==> hasRecognizer && isRecording
      ensures RecognitionStart in calls <==> hasRecognizer && !isRecording
    {
      if !hasRecognizer {
        return [];
      }
      if isRecording {
        calls := StopRecording();
      } else {
        calls := [RecognitionStart];
      }
    }

    /** Asks the recognizer to stop whenever there is one, recording or not. */
    method StopRecording() returns (calls: seq<Call>)
      ensures calls == if hasRecognizer then [RecognitionStop] else []
    {
      calls := [];
      if hasRecognizer {
        calls := [RecognitionStop];
      }
    }

    /** The clear button of the output area. */
    method ClearText()
      modifies this
      ensures output == "" && isRecording == old(isRecording) && status == old(status)
    {
      output := "";
    }
  }

  /** The text-to-speech panel: the offered voices and the voice menu. */
  class VoiceBox {
    var voices: seq<Voice>
    var options: seq<VoiceOption>

    /** Page load, which populates the menu from the catalog at hand. */
    constructor (all: seq<Voice>)
      ensures voices == Catalog(all) && options == OptionList(all)
    {
      voices := [];
      options := [];
      new;
      PopulateVoices(all);
    }

    /** Rebuilds the offered voices and the menu from the platform's current
        catalog; also run whenever the platform reports a changed list. */
    method PopulateVoices(all: seq<Voice>)
      modifies this
      ensures voices == Catalog(all) && options == OptionList(all)
    {
      voices := RegionVoices(all);
      options := [Placeholder];
      if |voices| == 0 && |all| > 0 {
        options := options + [NoRegionAdvisory];
        voices := all;
      }
      var i := 0;
      while i < |voices|
        invariant 0 <= i <= |voices| && voices == Catalog(all)
        invariant options == [Placeholder] + (if Fallback(all) then [NoRegionAdvisory] else []) + Entries(voices[..i])
      {
        assert Entries(voices[..i + 1]) == Entries(voices[..i]) + [EntryFor(voices[i])];
        options := options + [EntryFor(voices[i])];
        i := i + 1;
      }
      assert voices[..i] == voices;
    }

    /** The speak button: refused while the synthesizer is speaking or when
        the text is empty; otherwise one utterance of the text, with the
        first offered voice named by the selected menu entry. */
    method SpeakClick(speaking: bool, text: string, selected: VoiceOption) returns (calls: seq<Call>)
      ensures calls == [] <==> speaking || text == ""
      ensures calls != [] ==> calls == [Call.Speak(Utterance(text, Chosen(voices, DataName(selected))))]
    {
      if speaking {
        return [];
      }
      calls := [];
      if text != "" {
        var voice := ChooseVoice(voices, DataName(selected));
        calls := [Call.Speak(Utterance(text, voice))];
      }
    }

    /** The stop button: cancels only while speaking. */
    method StopClick(speaking: bool) returns (calls: seq<Call>)
      ensures calls == if speaking then [Cancel] else []
    {
      calls := [];
      if speaking {
        calls := [Cancel];
      }
    }
  }

  /** The screen that is showing. */
  datatype Screen = LandingPage | VoiceScribeSection | VoiceBoxSection

  /** Which parts of the page are visible, and the mode title. */
  class Navigator {
    var landingShown: bool
    var mainShown: bool
    var scribeShown: bool
    var voiceBoxShown: bool
    var title: string

    /** Exactly one screen shows: the landing page with both sections
        hidden, or the main area with exactly one section. */
    ghost predicate Valid()
      reads this
    {
      && landingShown != mainShown
      && (landingShown ==> !scribeShown && !voiceBoxShown)
      && (mainShown ==> scribeShown != voiceBoxShown)
    }

    ghost function Showing(): Screen
      reads this
      requires Valid()
    {
      if landingShown then LandingPage
      else if scribeShown then VoiceScribeSection
      else VoiceBoxSection
    }

    /** Page load shows the landing page. */
    constructor ()
      ensures Valid() && Showing() == LandingPage && title == ""
    {
      landingShown, mainShown, scribeShown, voiceBoxShown := true, false, false, false;
      title := "";
    }

    /** Opens the speech-to-text section for mode "voice-scribe" and the
        text-to-speech section for any other mode. */
    method StartApp(mode: string)
      modifies this
      ensures Valid()
      ensures Showing() == if mode == "voice-scribe" then VoiceScribeSection else VoiceBoxSection
      ensures !landingShown && mainShown
      ensures scribeShown <==> mode == "voice-scribe"
      ensures voiceBoxShown <==> mode != "voice-scribe"
      ensures title == if mode == "voice-scribe" then "SpeakIT" else "HearIT"
    {
      landingShown := false;
      mainShown := true;
      if mode == "voice-scribe" {
        title := "SpeakIT";
        scribeShown := true;
        voiceBoxShown := false;
      } else {
        title := "HearIT";
        voiceBoxShown := true;
        scribeShown := false;
      }
    }

    /** Back to the landing page: first asks the recognizer to stop and
        cancels speech in progress, then shows the landing page with both
        sections hidden. The end state does not depend on the start state,
        so a second call changes nothing on the page. */
    method GoBackToMenu(scribe: Scribe, speaking: bool) returns (calls: seq<Call>)
      modifies this
      ensures Valid() && Showing() == LandingPage
      ensures landingShown && !mainShown && !scribeShown && !voiceBoxShown && title == old(title)
      ensures calls == (if scribe.hasRecognizer then [RecognitionStop] else []) + (if speaking then [Cancel] else [])
    {
      calls := scribe.StopRecording();
      if speaking {
        calls := calls + [Cancel];
      }
      mainShown := false;
      landingShown := true;
      scribeShown := false;
      voiceBoxShown := false;
    }
  }

  /** A session as a client sees it: open the speech-to-text section, start
      listening, see interim then final text, go back twice. */
  method ListeningSession()
  {
    var nav := new Navigator();
    nav.StartApp("voice-scribe");
    assert nav.Showing() == VoiceScribeSection && nav.title == "SpeakIT";

    var scribe := new Scribe(true, Idle);
    var calls := scribe.MicClick();
    assert calls == [RecognitionStart];
    scribe.OnStart();

    var interim := [Segment("hell", false)];
    assert interim[..0] == [];
    scribe.OnResult(interim, 0);
    assert scribe.status == "hell..." && scribe.output == "";

    var final := [Segment("hello world", true)];
    assert final[..0] == [];
    scribe.OnResult(final, 0);
    assert scribe.output == "hello world" && scribe.status == Listening;

    calls := nav.GoBackToMenu(scribe, false);
    assert calls == [RecognitionStop] && nav.Showing() == LandingPage;
    calls := nav.GoBackToMenu(scribe, false);
    assert calls == [RecognitionStop] && nav.Showing() == LandingPage;
    scribe.OnEnd();
    assert !scribe.isRecording && scribe.output == "hello world";
  }
}

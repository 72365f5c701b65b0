# Speech scribe and voice box, modelled in Dafny

The repository is two browser pages over the platform's speech recognizer and
speech synthesizer:

- `script.js` is a two-panel page. "SpeakIT" is the speech-to-text panel: a
  microphone toggle, a status line and an output text area. "HearIT" is the
  text-to-speech panel: a voice menu filtered to four regions, and speak and
  stop buttons. A landing page switches between them.
- `Task-1/script.js` is a single transcriber page: a microphone toggle, a
  status line, and a transcript area with copy and clear buttons.

This project models the rules inside that glue:

- which results of a recognition event are read;
- how those results split into final and interim text;
- how final text is appended to the transcript, and what the status line shows;
- the recording flag and the requests the microphone button makes;
- the voice filter with its fallback, the voice menu, and voice lookup by name;
- the navigation between the landing page and the two panels.

Modules:

- `Browser` (browser.dfy) is the platform surface as values. It has
  recognition segments (the first alternative's transcript and its final
  flag), voices, utterances, and the requests a handler makes:
  `RecognitionStart`, `RecognitionStop`, `Speak`, `Cancel`.
- `Transcript` (transcript.dfy) holds the pure text rules shared by both
  pages. It also holds the `onresult` partition loop of `script.js`.
- `Voices` (voices.dfy) holds the catalog filter, the fallback, the option
  list and the first-match voice lookup (a loop, as in the source).
- `SpeakIt` (speakit.dfy) holds the classes of `script.js`. `Scribe` is the
  speech-to-text panel, `VoiceBox` is the voice menu, and `Navigator` holds
  the visibility of the landing page and the two sections. The method
  `ListeningSession` is a client scenario whose assertions the verifier
  proves. It opens the scribe, starts
  listening, receives interim text "hell" and then final text "hello world",
  and goes back twice.
- `Transcriber` (transcriber.dfy) holds the class of `Task-1/script.js`.

Each platform callback and each click is one atomic transition. A handler
returns the requests it makes to the recognizer or the synthesizer as a
`seq<Call>`. The synthesizer's `speaking` flag, the text typed into the
voice box and the selected menu entry are parameters of the handlers that
read them. The recording flag changes only in the recognizer's callbacks,
never when the page asks it to start or stop.

The two pages append final text differently:

- `script.js` concatenates all final segments of one event with no
  separator. It then appends the result once, and only when it is non-empty
  (`AfterEvent`).
- `Task-1/script.js` appends each final segment on its own (`FoldAppend`).
  An empty final segment still receives the separator.

The lemmas `PagesAgreeWithoutFinals` and `PagesAgreeOnSingleFinal` give two
cases where the two rules agree. `PagesDifferOnTwoFinals` and
`PagesDifferOnEmptyFinal` give inputs where they differ.

Points of the code worth knowing:

- The separator rule looks only at the buffer's last character, never at the
  text's first. Appending `" world"` to `"hello "` therefore keeps both
  spaces, so a doubled space can appear (`DoubledSpaceKept`). Spaces are
  single under the conditions of `FoldJoinsWithSingleSpaces`.
- The status line shows all interim text of the event, concatenated in
  order.
- In `Task-1/script.js` the status is reset to "Listening..." only while
  recording. Otherwise it is left as it was.

## Model

| member | source | states |
|---|---|---|
| `Transcript.Window` | script.js:83 | the results read are exactly those from `resultIndex` to the end, none when the index is past the end |
| `Transcript.Partition` | script.js:80-89 | the loop yields the concatenated final texts and the concatenated interim texts of the results from `resultIndex` on, in order, with no separator |
| `Transcript.TextsAppend` | script.js:83-89 | concatenation follows result order: the text of two result runs is the text of the first followed by that of the second |
| `Transcript.TextsOfOnly` | script.js:84-88 | the final text depends only on the final segments, and the interim text only on the interim ones |
| `Transcript.PartitionKeepsEveryCharacter` | script.js:83-89 | the final and interim strings together hold exactly the characters of all the transcripts, as multisets |
| `Transcript.OnlyWindowIsRead` | script.js:83 | results before `resultIndex` are never read: lists that agree from `resultIndex` on give the same texts |
| `Transcript.StatusFor` | script.js:92-100 | status is the interim text followed by "..." when there is interim text, otherwise exactly "Listening..." |
| `Transcript.StatusWhileRecording` | Task-1/script.js:73-84 | with interim text, or while recording, the status is the same as in script.js; with neither, the status is left unchanged |
| `Transcript.AppendFinal` | script.js:102-105 | the new buffer is the old buffer, then one space exactly when the old buffer is non-empty and does not end in a space, then the text; the old buffer is a prefix; an empty buffer gets the text alone |
| `Transcript.AfterEvent` | script.js:102-107 | the old output is always a prefix of the new one; the output is unchanged exactly when the event has no final text, and otherwise gets the append rule |
| `Transcript.FoldAppend` | Task-1/script.js:57-65 | the append rule is applied to each final segment in turn, and the old transcript stays a prefix of the new one |
| `Transcript.FoldAppendStep` | Task-1/script.js:57-65 | reading one more result in the loop applies one more step of the append rule to the transcript so far |
| `Transcript.FoldAppendConcat` | Task-1/script.js:57-65 | the fold is a left fold: processing two runs of results in one event equals processing them one after the other |
| `Transcript.FoldIgnoresInterims` | Task-1/script.js:57-70 | interim segments never change the transcript: the fold over all results equals the fold over the final ones |
| `Transcript.FoldJoinsWithSingleSpaces` | Task-1/script.js:59-64 | starting from an empty transcript, final segments of which all but the last are non-empty and do not end in a space are joined with exactly one space between neighbours |
| `Transcript.ClearedTranscriptStartsWithNextFinal` | Task-1/script.js:108-111 | after a clear, the next final segment is appended with no leading space: the transcript starts with it |
| `Transcript.PagesAgreeWithoutFinals` | Task-1/script.js:57-70 | an event with no final segment leaves the text unchanged on both pages |
| `Transcript.PagesAgreeOnSingleFinal` | Task-1/script.js:57-65 | with exactly one non-empty final segment, the two pages produce the same text |
| `Transcript.PagesDifferOnTwoFinals` | script.js:83-89 | two final segments "a" and "b" in one event give "ab" in script.js and "a b" in Task-1 |
| `Transcript.PagesDifferOnEmptyFinal` | Task-1/script.js:59-64 | an empty final segment makes Task-1 append the space, while script.js leaves the text alone |
| `Transcript.DoubledSpaceKept` | script.js:104 | only the buffer's last character is checked: "hello " followed by " world" keeps both spaces |
| `Voices.ReplaceFirst` | script.js:151 | only the first underscore of the tag becomes a dash; every other character is kept, and the length is unchanged |
| `Voices.RegionVoices` | script.js:149-158 | a voice is kept exactly when it is in the catalog and its normalized tag contains en-US, en-IN, hi-IN or ja-JP |
| `Voices.RegionVoicesConcat` | script.js:149-158 | the filter keeps catalog order: filtering a concatenation concatenates the filtered parts |
| `Voices.RegionVoicesIdentity` | script.js:149-158 | the filter returns the catalog unchanged exactly when every voice in it is a region voice |
| `Voices.Catalog` | script.js:163-173 | the offered voices are the region voices; when a non-empty catalog has none of them, they are the whole catalog; an empty catalog gives none |
| `Voices.OptionList` | script.js:160-181 | the menu is the placeholder, then the advisory exactly in the fallback case, then one entry per offered voice in order |
| `Voices.FirstNamed` | script.js:198-204 | the chosen index is that of the first voice whose name equals the selected name; no voice is chosen when none matches or no name is selected |
| `Voices.ChooseVoice` | script.js:199-204 | the scan that stops at the first match picks exactly the voice `FirstNamed` designates |
| `Voices.SelectingAnEntry` | script.js:198-204 | selecting a voice's menu entry picks a voice of that name no later in the list, and that very voice when names are distinct |
| `Voices.UnderscoreTagsMatch` | script.js:151-157 | tags written "en_US" and "hi_IN" pass the region filter |
| `Voices.BritishEnglishIsNotARegionVoice` | script.js:151-157 | a tag "en_GB" does not pass the region filter |
| `Voices.BritishOnlyCatalogFallsBack` | script.js:163-173 | a catalog of only non-region voices is offered whole, behind the advisory entry |
| `SpeakIt.Scribe.constructor` | script.js:55-120 | on load nothing is recording and the output is empty; without a recognizer the status says the browser is not supported |
| `SpeakIt.Scribe.OnStart` | script.js:65-70 | `onstart` sets the recording flag and shows "Listening..." |
| `SpeakIt.Scribe.OnEnd` | script.js:72-77 | `onend` clears the recording flag and shows the tap-to-start text |
| `SpeakIt.Scribe.OnError` | script.js:110-115 | `onerror` clears the recording flag and shows "Error: " followed by the error code |
| `SpeakIt.Scribe.OnResult` | script.js:79-108 | the status follows `StatusFor` on the event's interim text, and the output follows `AfterEvent` on its final text; the recording flag is unchanged |
| `SpeakIt.Scribe.MicClick` | script.js:122-129 | without a recognizer no request is made; otherwise a stop request is made exactly when recording, and a start request exactly when not |
| `SpeakIt.Scribe.StopRecording` | script.js:131-133 | a stop request is made whenever a recognizer exists, whether or not it is recording |
| `SpeakIt.Scribe.ClearText` | script.js:236-241 | clearing empties the output and changes nothing else |
| `SpeakIt.VoiceBox.constructor` | script.js:144-184 | on load the offered voices and the menu are those of the catalog at hand |
| `SpeakIt.VoiceBox.PopulateVoices` | script.js:146-182 | the offered voices become `Catalog(all)` and the menu becomes `OptionList(all)` |
| `SpeakIt.VoiceBox.SpeakClick` | script.js:189-219 | no request is made while speaking or when the text is empty; otherwise exactly one utterance of the text, carrying the first offered voice named by the selected entry, or none |
| `SpeakIt.VoiceBox.StopClick` | script.js:221-225 | a cancel request is made only while speaking |
| `SpeakIt.Navigator.constructor` | script.js:3-9 | the page starts on the landing page |
| `SpeakIt.Navigator.StartApp` | script.js:12-32 | mode "voice-scribe" shows the scribe section and hides the voice box, and any other mode does the reverse; the landing page is hidden, and exactly one screen shows |
| `SpeakIt.Navigator.GoBackToMenu` | script.js:34-48 | a stop request goes out if there is a recognizer, and a cancel request if speech is in progress; the page then ends on the landing page with both sections hidden whatever the start state, so a repeat changes nothing |
| `Transcriber.TranscriptPanel.constructor` | Task-1/script.js:18-23 | on load nothing is recording and the transcript is empty |
| `Transcriber.TranscriptPanel.ToggleRecording` | Task-1/script.js:27-33 | exactly one request: stop exactly when recording, start exactly when not |
| `Transcriber.TranscriptPanel.OnStart` | Task-1/script.js:35-39 | `onstart` sets the recording flag and shows "Listening..." |
| `Transcriber.TranscriptPanel.OnEnd` | Task-1/script.js:41-45 | `onend` clears the recording flag and shows "Tap to Speak" |
| `Transcriber.TranscriptPanel.OnError` | Task-1/script.js:47-52 | `onerror` clears the recording flag and shows "Error: " followed by the error code |
| `Transcriber.TranscriptPanel.OnResult` | Task-1/script.js:54-85 | the loop appends in place; the transcript becomes `FoldAppend` over the results from `resultIndex` on, the status follows `StatusWhileRecording`, and the recording flag is unchanged |
| `Transcriber.TranscriptPanel.ClearClick` | Task-1/script.js:108-112 | clearing empties the transcript and changes nothing else |
| `Transcriber.TranscriptPanel.CopyClick` | Task-1/script.js:87-91 | nothing is copied when the transcript is empty; otherwise the whole transcript is copied |

## Left out

- The recognizer and synthesizer objects are not modelled. They appear only as the callbacks the page handles and the requests it makes.
- The order and timing of callbacks are not modelled. Each callback is one atomic transition, taken in the order it arrives.
- Styling is not modelled: colours, font weight, CSS classes, opacity, pointer events and scrolling. Visibility is kept as the booleans of `Navigator`.
- Clipboard writes are not modelled: `copyText` in script.js (script.js:228-234), and the clipboard promise with its "Copied!" swap in Task-1. They are I/O. `CopyClick` returns the text it would hand over.
- `alert` and `console` logging are not modelled. The utterance's `onend`/`onerror` handlers only log.
- SpeakIt.VoiceBox.SpeakClick: the utterance carries no rate or pitch. Those slider values are passed to the platform unchanged.
- SpeakIt.VoiceBox.SpeakClick: a selection is always one of the menu's entries. The case where no option is selected at all, which would throw in the source, is not modelled.
- Only the first alternative of each recognition result is modelled, as the source reads it.
- The `onvoiceschanged` subscription is not modelled. Its effect is a further call of `PopulateVoices` with the new catalog.
- `clearText` on the voice box's input area is not a state change here. That text is a parameter of `SpeakClick`.
- The markup is not modelled. Every element is taken to exist, so the `if (statusText)` and `if (el)` guards always pass. The landing page is taken to be visible at load.
- In Task-1, a browser without a recognizer is not modelled. The page shows an alert, disables the button and installs no handler, so nothing is left to model.
- In script.js the recognizer callbacks require a recognizer, because they are installed only when one exists.

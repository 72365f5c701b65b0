/** The text rules of both speech-to-text pages: which results of an event are
    read, how they split into final and interim text, how final text is
    appended to the transcript, and what the status line shows. */
module Transcript {
  import opened Browser

  /** The steady status text while the recognizer listens. */
  const Listening: string := "Listening..."

  /** The results an event asks the page to read: those from `resultIndex` to
      the end, none when the index is past the end. */
  function Window(results: seq<Segment>, resultIndex: nat): (w: seq<Segment>)
    ensures |w| == if resultIndex <= |results| then |results| - resultIndex else 0
    ensures forall k :: 0 <= k < |w| ==> w[k] == results[resultIndex + k]
  {
    if resultIndex <= |results| then results[resultIndex..] else []
  }

  /** The transcripts of the segments whose final flag is `final`,
      concatenated in order with no separator. */
  function Texts(segs: seq<Segment>, final: bool): string
  {
    if segs == [] then ""
    else
      var last := segs[|segs| - 1];
      Texts(segs[..|segs| - 1], final) + (if last.isFinal == final then last.transcript else "")
  }

  /** The segments whose final flag is `final`, in order. */
  function Only(segs: seq<Segment>, final: bool): (r: seq<Segment>)
    ensures |r| <= |segs|
    ensures forall s :: s in r ==> s in segs && s.isFinal == final
  {
    if segs == [] then []
    else
      var last := segs[|segs| - 1];
      Only(segs[..|segs| - 1], final) + (if last.isFinal == final then [last] else [])
  }

  /** The transcripts of all of `segs`, concatenated in order. */
  function AllText(segs: seq<Segment>): string
  {
    if segs == [] then "" else AllText(segs[..|segs| - 1]) + segs[|segs| - 1].transcript
  }

  /** The loop of script.js's `onresult`: walks the results from
      `resultIndex` to the end and accumulates final and interim text
      separately. */
  method Partition(results: seq<Segment>, resultIndex: nat) returns (final: string, interim: string)
    ensures final == Texts(Window(results, resultIndex), true)
    ensures interim == Texts(Window(results, resultIndex), false)
  {
    final, interim := "", "";
    var i := resultIndex;
    while i < |results|
      invariant resultIndex > |results| ==> i == resultIndex && final == "" && interim == ""
      invariant resultIndex <= |results| ==> resultIndex <= i <= |results|
      invariant resultIndex <= |results| ==> final == Texts(results[resultIndex..i], true)
      invariant resultIndex <= |results| ==> interim == Texts(results[resultIndex..i], false)
    {
      assert results[resultIndex..i + 1][..i - resultIndex] == results[resultIndex..i];
      if results[i].isFinal {
        final := final + results[i].transcript;
      } else {
        interim := interim + results[i].transcript;
      }
      i := i + 1;
    }
    assert resultIndex <= |results| ==> results[resultIndex..i] == results[resultIndex..];
  }

  lemma {:induction false} TextsAppend(a: seq<Segment>, b: seq<Segment>, final: bool)
    ensures Texts(a + b, final) == Texts(a, final) + Texts(b, final)
    decreases |b|
  {
    if b == [] {
      assert a + b == a;
    } else {
      var init := b[..|b| - 1];
      assert (a + b)[..|a + b| - 1] == a + init;
      TextsAppend(a, init, final);
    }
  }

  /** Reading final text from a result list is the same as reading it from
      its final segments alone. */
  lemma {:induction false} TextsOfOnly(segs: seq<Segment>, final: bool)
    ensures Texts(segs, final) == Texts(Only(segs, final), final)
    decreases |segs|
  {
    if segs != [] {
      var init, last := segs[..|segs| - 1], segs[|segs| - 1];
      TextsOfOnly(init, final);
      if last.isFinal == final {
        TextsAppend(Only(init, final), [last], final);
        assert [last][..0] == [];
      } else {
        assert Only(init, final) + [] == Only(init, final);
      }
    }
  }

  /** The partition loses and duplicates nothing: the final and interim
      strings together hold exactly the characters of all the transcripts. */
  lemma {:induction false} PartitionKeepsEveryCharacter(segs: seq<Segment>)
    ensures multiset(Texts(segs, true)) + multiset(Texts(segs, false)) == multiset(AllText(segs))
    decreases |segs|
  {
    if segs != [] {
      PartitionKeepsEveryCharacter(segs[..|segs| - 1]);
    }
  }

  /** Results before `resultIndex` are never read: two result lists that
      agree from `resultIndex` on give the same final and interim text. */
  lemma OnlyWindowIsRead(a: seq<Segment>, b: seq<Segment>, resultIndex: nat, final: bool)
    requires resultIndex <= |a| && |a| == |b|
    requires forall k :: resultIndex <= k < |a| ==> a[k] == b[k]
    ensures Texts(Window(a, resultIndex), final) == Texts(Window(b, resultIndex), final)
  {
    assert Window(a, resultIndex) == Window(b, resultIndex);
  }

  /** script.js's status line after a result event: the interim text followed
      by an ellipsis, or the steady listening text when there is none. */
  function StatusFor(interim: string): (status: string)
    ensures |status| >= 3 && status[|status| - 3..] == "..."
    ensures interim != "" ==> |status| == |interim| + 3 && status[..|interim|] == interim
    ensures interim == "" ==> status == Listening
  {
    if interim != "" then interim + "..." else Listening
  }

  /** Task-1's status line after a result event: as in script.js, except
      that with no interim text it is reset only while recording and is
      otherwise left as it was. */
  function StatusWhileRecording(interim: string, isRecording: bool, current: string): (status: string)
    ensures interim != "" || isRecording ==> status == StatusFor(interim)
    ensures interim == "" && !isRecording ==> status == current
  {
    if interim != "" then interim + "..."
    else if isRecording then Listening
    else current
  }

  /** A separating space goes before appended text exactly when the buffer is
      non-empty and does not already end in a space. */
  predicate NeedsSeparator(buf: string)
  {
    buf != [] && buf[|buf| - 1] != ' '
  }

  /** The append rule shared by both pages. The result is the buffer, then at
      most one space, then the text; segments never run together. */
  function AppendFinal(buf: string, text: string): (r: string)
    ensures |r| == |buf| + |text| + (if NeedsSeparator(buf) then 1 else 0)
    ensures r[..|buf|] == buf && r[|r| - |text|..] == text
    ensures NeedsSeparator(buf) ==> r[|buf|] == ' '
    ensures buf == [] ==> r == text
    ensures buf != [] ==> r[|buf| - 1] == ' ' || (|r| > |buf| && r[|buf|] == ' ')
  {
    if NeedsSeparator(buf) then buf + " " + text else buf + text
  }

  /** script.js's effect of one result event on the output text, given the
      event's concatenated final text: appended once, and only when there is
      some. */
  function AfterEvent(buf: string, final: string): (r: string)
    ensures |buf| <= |r| && r[..|buf|] == buf
    ensures r == buf <==> final == ""
    ensures final != "" ==> r == AppendFinal(buf, final)
  {
    if final != "" then AppendFinal(buf, final) else buf
  }

  /** Task-1's effect of one segment on the transcript. */
  function Step(buf: string, seg: Segment): string
  {
    if seg.isFinal then AppendFinal(buf, seg.transcript) else buf
  }

  /** Task-1's effect of one result event on the transcript: the append rule
      applied to each segment in turn, left to right. The old transcript is
      always a prefix of the new one. */
  function FoldAppend(buf: string, segs: seq<Segment>): (r: string)
    ensures |buf| <= |r| && r[..|buf|] == buf
    decreases |segs|
  {
    if segs == [] then buf
    else Step(FoldAppend(buf, segs[..|segs| - 1]), segs[|segs| - 1])
  }

  /** One more result read by Task-1's loop is one more step of the fold. */
  lemma FoldAppendStep(buf: string, results: seq<Segment>, from: nat, i: nat)
    requires from <= i < |results|
    ensures FoldAppend(buf, results[from..i + 1]) == Step(FoldAppend(buf, results[from..i]), results[i])
  {
    var run := results[from..i + 1];
    assert run[..|run| - 1] == results[from..i] && run[|run| - 1] == results[i];
  }

  lemma {:induction false} FoldAppendConcat(buf: string, a: seq<Segment>, b: seq<Segment>)
    ensures FoldAppend(buf, a + b) == FoldAppend(FoldAppend(buf, a), b)
    decreases |b|
  {
    if b == [] {
      assert a + b == a;
    } else {
      assert (a + b)[..|a + b| - 1] == a + b[..|b| - 1];
      FoldAppendConcat(buf, a, b[..|b| - 1]);
    }
  }

  /** Interim segments never change the transcript: folding over a result
      list equals folding over its final segments alone. */
  lemma {:induction false} FoldIgnoresInterims(buf: string, segs: seq<Segment>)
    ensures FoldAppend(buf, segs) == FoldAppend(buf, Only(segs, true))
    decreases |segs|
  {
    if segs != [] {
      var init, last := segs[..|segs| - 1], segs[|segs| - 1];
      FoldIgnoresInterims(buf, init);
      var finals := Only(init, true);
      if last.isFinal {
        assert (finals + [last])[..|finals|] == finals;
      } else {
        assert finals + [] == finals;
      }
    }
  }

  /** A transcript text that can be joined without surprises: non-empty and
      not ending in a space. */
  predicate Plain(text: string)
  {
    text != [] && text[|text| - 1] != ' '
  }

  /** Texts joined with exactly one space between neighbours. */
  function Join(texts: seq<string>): (r: string)
    ensures |texts| > 0 && Plain(texts[|texts| - 1]) ==> Plain(r)
  {
    if texts == [] then ""
    else if |texts| == 1 then texts[0]
    else Join(texts[..|texts| - 1]) + " " + texts[|texts| - 1]
  }

  function Transcripts(segs: seq<Segment>): (r: seq<string>)
    ensures |r| == |segs| && forall k :: 0 <= k < |segs| ==> r[k] == segs[k].transcript
  {
    seq(|segs|, k requires 0 <= k < |segs| => segs[k].transcript)
  }

  /** Appending final segments one by one to a cleared transcript joins them
      with single spaces, provided no segment but the last is empty or ends
      in a space. */
  lemma {:induction false} FoldJoinsWithSingleSpaces(segs: seq<Segment>)
    requires forall k :: 0 <= k < |segs| ==> segs[k].isFinal
    requires forall k :: 0 <= k < |segs| - 1 ==> Plain(segs[k].transcript)
    ensures FoldAppend("", segs) == Join(Transcripts(segs))
    decreases |segs|
  {
    if segs != [] {
      var init := segs[..|segs| - 1];
      FoldJoinsWithSingleSpaces(init);
      assert Transcripts(segs)[..|segs| - 1] == Transcripts(init);
      if |segs| > 1 {
        assert Plain(Join(Transcripts(init)));
      }
    }
  }

  /** After a clear, the next final segment is appended with no leading
      space: the transcript starts with it. */
  lemma ClearedTranscriptStartsWithNextFinal(text: string, rest: seq<Segment>)
    ensures |text| <= |FoldAppend("", [Segment(text, true)] + rest)|
    ensures FoldAppend("", [Segment(text, true)] + rest)[..|text|] == text
  {
    FoldAppendConcat("", [Segment(text, true)], rest);
    assert [Segment(text, true)][..0] == [];
  }

  /** The two pages agree on an event with no final segment: neither changes
      the transcript. */
  lemma PagesAgreeWithoutFinals(buf: string, segs: seq<Segment>)
    requires Only(segs, true) == []
    ensures FoldAppend(buf, segs) == buf
    ensures AfterEvent(buf, Texts(segs, true)) == buf
  {
    FoldIgnoresInterims(buf, segs);
    TextsOfOnly(segs, true);
  }

  /** The two pages agree on an event with exactly one final segment whose
      text is non-empty. */
  lemma PagesAgreeOnSingleFinal(buf: string, segs: seq<Segment>)
    requires |Only(segs, true)| == 1 && Only(segs, true)[0].transcript != ""
    ensures FoldAppend(buf, segs) == AfterEvent(buf, Texts(segs, true))
    ensures FoldAppend(buf, segs) == AppendFinal(buf, Only(segs, true)[0].transcript)
  {
    var finals := Only(segs, true);
    FoldIgnoresInterims(buf, segs);
    TextsOfOnly(segs, true);
    assert finals[..0] == [];
  }

  /** With two final segments in one event the pages differ: script.js runs
      them together, Task-1 separates them. */
  lemma PagesDifferOnTwoFinals()
    ensures FoldAppend("", [Segment("a", true), Segment("b", true)]) == "a b"
    ensures AfterEvent("", Texts([Segment("a", true), Segment("b", true)], true)) == "ab"
  {
    var segs := [Segment("a", true), Segment("b", true)];
    assert segs[..1] == [Segment("a", true)];
    assert segs[..1][..0] == [];
    assert FoldAppend("", segs[..1]) == "a";
    assert Texts(segs[..1], true) == "a";
  }

  /** An empty final segment differs too: Task-1 still appends the space,
      script.js leaves the text alone. */
  lemma PagesDifferOnEmptyFinal()
    ensures FoldAppend("x", [Segment("", true)]) == "x "
    ensures AfterEvent("x", Texts([Segment("", true)], true)) == "x"
  {
    assert [Segment("", true)][..0] == [];
  }

  /** Only the buffer's last character is checked, never the text's first:
      a buffer ending in a space followed by text starting with one keeps
      both spaces. */
  lemma DoubledSpaceKept()
    ensures AppendFinal("hello ", " world") == "hello  world"
  {
  }
}

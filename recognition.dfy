/** The recogniser's `onresult` handler: how one result event becomes `currentTranscript`. */
module Recognition {

  /** `event.results[i]`: its first alternative's transcript and whether it is final. */
  datatype SpeechResult = SpeechResult(transcript: string, isFinal: bool)

  /** The concatenation, in order, of the transcripts of the results whose finality is `final`. */
  function Segments(rs: seq<SpeechResult>, final: bool): string {
    if rs == [] then ""
    else
      var last := rs[|rs| - 1];
      Segments(rs[..|rs| - 1], final) + (if last.isFinal == final then last.transcript else "")
  }

  /** The results the handler reads: those from `resultIndex` on (none when it is past the end). */
  function FromIndex(resultIndex: nat, results: seq<SpeechResult>): seq<SpeechResult> {
    if resultIndex <= |results| then results[resultIndex..] else []
  }

  /**
   * The new `currentTranscript`: the final text of the event if it is non-empty, otherwise its
   * interim text (`finalTranscript || interimTranscript`).
   */
  function EventTranscript(resultIndex: nat, results: seq<SpeechResult>): string {
    var rs := FromIndex(resultIndex, results);
    if Segments(rs, true) != "" then Segments(rs, true) else Segments(rs, false)
  }

  /** The loop of `onresult`: it accumulates the final and the interim transcripts separately. */
  method CollectTranscript(resultIndex: nat, results: seq<SpeechResult>) returns (transcript: string)
    ensures transcript == EventTranscript(resultIndex, results)
  {
    var interimTranscript := "";
    var finalTranscript := "";
    var i := resultIndex;
    while i < |results|
      invariant resultIndex < |results| ==> resultIndex <= i <= |results|
      invariant resultIndex < |results| ==>
        && finalTranscript == Segments(results[resultIndex..i], true)
        && interimTranscript == Segments(results[resultIndex..i], false)
      invariant resultIndex >= |results| ==> i == resultIndex && finalTranscript == "" && interimTranscript == ""
    {
      assert results[resultIndex..i + 1][..i - resultIndex] == results[resultIndex..i];
      var transcript := results[i].transcript;
      if results[i].isFinal {
        finalTranscript := finalTranscript + transcript;
      } else {
        interimTranscript := interimTranscript + transcript;
      }
      i := i + 1;
    }
    assert resultIndex < |results| ==> results[resultIndex..i] == FromIndex(resultIndex, results);
    transcript := if finalTranscript != "" then finalTranscript else interimTranscript;
  }

  /** Segments of consecutive batches of one event concatenate, in order. */
  lemma {:induction false} SegmentsAppend(a: seq<SpeechResult>, b: seq<SpeechResult>, final: bool)
    ensures Segments(a + b, final) == Segments(a, final) + Segments(b, final)
    decreases |b|
  {
    if b == [] {
      assert a + b == a;
    } else {
      var b' := b[..|b| - 1];
      assert (a + b)[..|a + b| - 1] == a + b';
      SegmentsAppend(a, b', final);
    }
  }

  /** The final text is empty exactly when every final result carries an empty transcript. */
  lemma {:induction false} SegmentsEmpty(rs: seq<SpeechResult>, final: bool)
    ensures Segments(rs, final) == "" <==>
      forall i :: 0 <= i < |rs| && rs[i].isFinal == final ==> rs[i].transcript == ""
  {
    if rs != [] {
      var init := rs[..|rs| - 1];
      SegmentsEmpty(init, final);
      assert forall i :: 0 <= i < |init| ==> init[i] == rs[i];
    }
  }

  /**
   * The event decides the transcript by itself: whatever the old value, a final text replaces it, and
   * interim text is used only when no final text was recognised.
   */
  lemma EventTranscriptCases(resultIndex: nat, results: seq<SpeechResult>)
    ensures var rs := FromIndex(resultIndex, results);
      && (Segments(rs, true) != "" ==> EventTranscript(resultIndex, results) == Segments(rs, true))
      && ((forall i :: 0 <= i < |rs| && rs[i].isFinal ==> rs[i].transcript == "") ==>
            EventTranscript(resultIndex, results) == Segments(rs, false))
  {
    SegmentsEmpty(FromIndex(resultIndex, results), true);
  }

  /** A result index past the end reads nothing and yields the empty transcript. */
  lemma PastTheEnd(resultIndex: nat, results: seq<SpeechResult>)
    requires resultIndex >= |results|
    ensures EventTranscript(resultIndex, results) == ""
  {
  }

  /** One final result: the transcript is its text (script.test.js "final transcripts"). */
  lemma OneFinalResult(t: string)
    ensures EventTranscript(0, [SpeechResult(t, true)]) == t
  {
    var rs := [SpeechResult(t, true)];
    assert FromIndex(0, rs) == rs;
    assert rs[..0] == [];
    assert Segments(rs, true) == t;
    assert Segments(rs, false) == "";
  }

  /** One interim result: the transcript is its text too (script.test.js "interim transcripts"). */
  lemma OneInterimResult(t: string)
    ensures EventTranscript(0, [SpeechResult(t, false)]) == t
  {
    var rs := [SpeechResult(t, false)];
    assert FromIndex(0, rs) == rs;
    assert rs[..0] == [];
    assert Segments(rs, false) == t;
    assert Segments(rs, true) == "";
  }

  /**
   * Each event replaces the transcript with the text of its results from `resultIndex` on, so a
   * later event of a continuous session drops the final text reported before its `resultIndex`.
   */
  lemma LaterEventDropsEarlierFinal(a: string, b: string)
    ensures EventTranscript(0, [SpeechResult(a, true)]) == a
    ensures EventTranscript(1, [SpeechResult(a, true), SpeechResult(b, true)]) == b
  {
    OneFinalResult(a);
    assert [SpeechResult(a, true), SpeechResult(b, true)][1..] == [SpeechResult(b, true)];
    OneFinalResult(b);
  }
}

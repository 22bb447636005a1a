/** `generateScoreReport`, shared by both controllers: the transcript and the word count. */
module ScoreReport {
  import opened Text
  import opened Conversation
  import opened Highlight
  import opened Coverage

  /** The score report: the transcript paragraphs and the two numbers of the word-count line. */
  datatype Report = Report(transcript: seq<Paragraph>, used: nat, total: nat)

  /** The report a history scores against the required words. */
  function ScoreOf(h: seq<Entry>, words: seq<string>): Report {
    Report(TranscriptParagraphs(h, words), UsedCount(h, words), |words|)
  }

  /**
   * The body of `generateScoreReport`: the paragraph loop, the count of used words, and the user
   * text that goes on to the feedback request.
   */
  method GenerateScoreReport(h: seq<Entry>, words: seq<string>) returns (r: Report, userMessages: string)
    ensures r == ScoreOf(h, words)
    ensures userMessages == UserMessages(h)
  {
    var transcript := RenderTranscript(h, words);
    userMessages := Join(UserTexts(h), " ");
    var usedWords := UsedWords(words, userMessages);
    r := Report(transcript, |usedWords|, |words|);
  }

  /**
   * What the report shows: one paragraph per entry, a used count no larger than the total that
   * LLM entries do not change, and LLM texts shown unaltered.
   */
  lemma ReportFacts(h: seq<Entry>, words: seq<string>, more: string)
    ensures var r := ScoreOf(h, words);
      && |r.transcript| == |h|
      && r.used <= r.total
      && ScoreOf(h + [Entry(LLM, more)], words).used == r.used
      && ScoreOf(h + [Entry(User, more)], words).used >= r.used
      && forall i :: 0 <= i < |h| && h[i].speaker == LLM ==> r.transcript[i].html == Label(LLM) + h[i].text
  {
    UsedCountBound(h, words);
    UsedCountIgnoresLLM(h, more, words);
    UsedCountMonotone(h, more, words);
  }

  /**
   * The count and the highlighting can disagree: the count matches against the user texts joined
   * with spaces, while each entry is highlighted on its own. A word spanning the join of two turns
   * ("b c" across "ab" and "cd") is counted, yet neither paragraph marks it.
   */
  lemma CountedButUnmarked()
    ensures UsedCount([Entry(User, "ab"), Entry(User, "cd")], ["b c"]) == 1
    ensures Highlighted("ab", ["b c"]) == "ab" && Highlighted("cd", ["b c"]) == "cd"
  {
    MessagesOfTwo("ab", "cd");
    var joined := "ab" + " " + "cd";
    FoldEqRefl("b c");
    assert joined[1..][..3] == "b c";
    ContainsFoldAt(joined, "b c", 1);
    UsedWordsBound(["b c"], joined);
    assert !ContainsFold("ab", "b c") by {
      assert "ab"[1..] == "b" && "b"[1..] == "";
    }
    assert !ContainsFold("cd", "b c") by {
      assert "cd"[1..] == "d" && "d"[1..] == "";
    }
    HighlightedUntouched("ab", ["b c"]);
    HighlightedUntouched("cd", ["b c"]);
  }
}

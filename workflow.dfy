/**
 * A whole practice session driven through the public/script.js controller: the words and the
 * description are entered, the chatbot greets, the user answers once with a final recognition
 * result, and the conversation is ended (the end-to-end workflow of script.test.js).
 */
module Workflow {
  import opened Wrappers
  import opened Text
  import opened Conversation
  import opened Setup
  import opened Recognition
  import opened Coverage
  import opened ScoreReport
  import opened Request
  import opened Voices
  import opened TurnController

  /** The landing page is submitted and the conversation page opened with every capability present. */
  method Begin(wordsField: string, descriptionField: string) returns (s: Session)
    requires !IsBlank(wordsField) && !IsBlank(descriptionField)
    ensures fresh(s) && s.Valid() && s.hasRecognizer
    ensures s.requiredWords == ParseWords(wordsField) && s.examDescription == Trim(descriptionField)
    ensures s.history == [] && s.isLLMSpeaking && !s.isUserSpeaking && s.status == SpeakingStatus
    ensures s.calls == [Call([], Opening, s.examDescription, s.requiredWords)] && s.utterances == []
  {
    s := new Session();
    var accepted := s.GoToStartPage(wordsField, descriptionField);
    s.GoToConversationPage(true, true, true);
  }

  /** The greeting arrives and is spoken; when it ends, listening starts. */
  method Greeted(s: Session, greeting: string, voices: seq<Voice>)
    requires s.Valid() && s.hasRecognizer && s.isLLMSpeaking && !s.isUserSpeaking
    modifies s
    ensures s.Valid() && s.isUserSpeaking && !s.isLLMSpeaking
    ensures s.history == old(s.history) + [Entry(LLM, greeting)]
    ensures s.utterances == old(s.utterances) + [Utterance(greeting, ChooseVoice(voices))]
    ensures s.calls == old(s.calls) && s.requiredWords == old(s.requiredWords)
    ensures s.examDescription == old(s.examDescription)
  {
    SettleReply(greeting);
    s.OnLLMResponse(Delivered(Reply(greeting)), voices);
    s.OnSpeechEnd();
  }

  /** The user's line arrives as one final recognition result. */
  method Heard(s: Session, line: string)
    modifies s`currentTranscript, s`status
    ensures s.currentTranscript == line
  {
    OneFinalResult(line);
    s.OnResult(0, [SpeechResult(line, true)]);
  }

  /** The user's line is recognised as one final result and the message ended. */
  method Answered(s: Session, line: string)
    requires s.Valid() && s.isUserSpeaking && !s.isLLMSpeaking && !IsBlank(line)
    modifies s
    ensures s.Valid() && !s.isUserSpeaking && s.isLLMSpeaking
    ensures s.history == old(s.history) + [Entry(User, line)]
    ensures s.calls == old(s.calls) + [Call(s.history, Message(line), s.examDescription, s.requiredWords)]
    ensures s.utterances == old(s.utterances) && s.requiredWords == old(s.requiredWords)
    ensures s.examDescription == old(s.examDescription)
  {
    Heard(s, line);
    s.EndMessage();
  }

  /** Ending after one exchange sends the user's line alone for feedback. */
  method Ended(s: Session, greeting: string, line: string)
    requires s.history == [Entry(LLM, greeting), Entry(User, line)]
    modifies s
    ensures s.report == Some(ScoreOf(s.history, s.requiredWords))
    ensures s.calls == old(s.calls) + [Call(s.history, FeedbackOn(line), s.examDescription, s.requiredWords)]
    ensures s.history == old(s.history) && s.utterances == old(s.utterances)
    ensures s.requiredWords == old(s.requiredWords) && s.examDescription == old(s.examDescription)
    ensures s.isLLMSpeaking == old(s.isLLMSpeaking) && s.isUserSpeaking == old(s.isUserSpeaking)
  {
    s.EndConversation();
    MessagesAfterGreeting(greeting, line);
  }

  /**
   * After one exchange the history holds the greeting and the user's line, the report scores that
   * history against the parsed words, and three requests were sent: the opening one, the user's
   * message, and the feedback request over the user's line alone.
   */
  method CompleteWorkflow(wordsField: string, descriptionField: string, greeting: string, line: string,
                          voices: seq<Voice>) returns (s: Session)
    requires !IsBlank(wordsField) && !IsBlank(descriptionField) && !IsBlank(line)
    ensures s.requiredWords == ParseWords(wordsField) && s.examDescription == Trim(descriptionField)
    ensures s.history == [Entry(LLM, greeting), Entry(User, line)]
    ensures s.report == Some(ScoreOf(s.history, s.requiredWords))
    ensures s.calls == [
      Call([], Opening, s.examDescription, s.requiredWords),
      Call(s.history, Message(line), s.examDescription, s.requiredWords),
      Call(s.history, FeedbackOn(line), s.examDescription, s.requiredWords)]
    ensures s.utterances == [Utterance(greeting, ChooseVoice(voices))]
    ensures s.isLLMSpeaking && !s.isUserSpeaking
  {
    s := Begin(wordsField, descriptionField);
    Greeted(s, greeting, voices);
    Answered(s, line);
    Ended(s, greeting, line);
  }

  /** The words field of script.test.js: the three greetings, one per line. */
  const WordsInput := "你好\n谢谢\n再见"

  lemma GreetingWordsPlain()
    ensures PlainWord("你好") && PlainWord("谢谢") && PlainWord("再见")
    ensures "你好" + "\n" + "谢谢" + "\n" + "再见" == WordsInput
  {
  }

  /** That field parses to the three greetings, and it is not blank. */
  lemma WordsInputParses()
    ensures ParseWords(WordsInput) == Greetings && !IsBlank(WordsInput)
  {
    GreetingWordsPlain();
    ParseThreeLines("你好", "谢谢", "再见");
  }

  lemma TeacherLineNotBlank()
    ensures !IsBlank(TeacherLine)
  {
    NotBlankAt(TeacherLine, 0);
  }

  /**
   * With those words and the answer "你好，老师！谢谢你。" the workflow may run, and its report
   * says "2 out of 3" over a transcript of two paragraphs.
   */
  lemma TeacherWorkflowScore(greeting: string)
    ensures !IsBlank(WordsInput) && !IsBlank(TeacherLine)
    ensures var r := ScoreOf([Entry(LLM, greeting), Entry(User, TeacherLine)], ParseWords(WordsInput));
      r.used == 2 && r.total == 3 && |r.transcript| == 2
  {
    WordsInputParses();
    TeacherLineNotBlank();
    ScenarioTwoOfThree(greeting);
    ReportFacts([Entry(LLM, greeting), Entry(User, TeacherLine)], Greetings, "");
  }
}

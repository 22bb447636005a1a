/**
 * The session controller of index.js, the earlier copy of the one in public/script.js. Its chatbot
 * is the stub of StubAgent: every call is answered by a timer of the same delay, so the answers
 * arrive in the order of the calls, and none of them fails.
 */
module StubController {
  import opened Wrappers
  import opened Text
  import opened Conversation
  import opened Setup
  import opened Recognition
  import opened ScoreReport
  import opened StubAgent

  /** The status the `.catch` of `llmSpeak` would show; the stub never lets that branch run. */
  const StubErrorStatus := "Error communicating with chatbot."

  /** One pending call of the stub: its arguments, answered when its timer fires. */
  datatype StubCall = StubCall(prompt: StubPrompt, isFirstMessage: bool, isFeedback: bool)

  /** The status texts the handlers of index.js can show. */
  predicate KnownStatus(s: string) {
    || s == "" || s == SpeakingStatus || s == ListeningStatus || s == NoSpeechStatus
    || StartsWith(s, "You: ") || StartsWith(s, "Error: ")
  }

  /**
   * The error status of `llmSpeak` is none of them. No modelled method sets it: the `.catch` that
   * would is reached only by a throw from the `.then` handler, which the model does not have.
   */
  lemma ErrorStatusUnknown()
    ensures !KnownStatus(StubErrorStatus)
  {
    assert StubErrorStatus[..7][5] == ' ' && "Error: "[5] == ':';
    assert StubErrorStatus[..5][0] == 'E' && "You: "[0] == 'Y';
    assert |StubErrorStatus| != |SpeakingStatus| && |StubErrorStatus| != |ListeningStatus|;
    assert |StubErrorStatus| != |NoSpeechStatus|;
  }

  class StubSession {
    var requiredWords: seq<string>
    var examDescription: string
    var history: seq<Entry>
    var hasRecognizer: bool
    var isLLMSpeaking: bool
    var isUserSpeaking: bool
    var currentTranscript: string
    var status: string
    /** The calls whose timers have not fired yet, oldest first. */
    var pending: seq<StubCall>
    /** Every text handed to speech synthesis, oldest first. */
    var spoken: seq<string>
    var report: Option<Report>
    var feedback: Option<string>

    /** The user is never marked as speaking without a recogniser, and the status is a known one. */
    predicate Valid()
      reads this`isUserSpeaking, this`hasRecognizer, this`status
    {
      (isUserSpeaking ==> hasRecognizer) && KnownStatus(status)
    }

    predicate Exclusive()
      reads this`isLLMSpeaking, this`isUserSpeaking
    {
      !(isLLMSpeaking && isUserSpeaking)
    }

    constructor ()
      ensures requiredWords == [] && examDescription == "" && history == []
      ensures !hasRecognizer && !isLLMSpeaking && !isUserSpeaking && currentTranscript == ""
      ensures status == "" && pending == [] && spoken == [] && report == None && feedback == None
      ensures Valid() && Exclusive()
    {
      requiredWords := [];
      examDescription := "";
      history := [];
      hasRecognizer := false;
      isLLMSpeaking := false;
      isUserSpeaking := false;
      currentTranscript := "";
      status := "";
      pending := [];
      spoken := [];
      report := None;
      feedback := None;
    }

    /**
     * `goToStartPage` of index.js: the trimmed description is stored before the check, so a
     * rejected submission still overwrites it, while the words change only when both are filled.
     */
    method GoToStartPage(wordsField: string, descriptionField: string) returns (accepted: bool)
      modifies this`requiredWords, this`examDescription
      ensures examDescription == Trim(descriptionField)
      ensures accepted <==> !IsBlank(wordsField) && !IsBlank(descriptionField)
      ensures accepted ==> requiredWords == ParseWords(wordsField) && WellFormedWords(requiredWords)
      ensures !accepted ==> requiredWords == old(requiredWords)
    {
      var wordsInput := Trim(wordsField);
      examDescription := Trim(descriptionField);
      if wordsInput == "" || examDescription == "" {
        return false;
      }
      requiredWords := NonBlankLines(Split(wordsInput, '\n'));
      ParseWordsMembers(wordsField);
      accepted := true;
    }

    /** `goToConversationPage`, as in public/script.js. */
    method GoToConversationPage(audioSupported: bool, permissionGranted: bool, recognitionSupported: bool)
      requires Valid()
      modifies this`hasRecognizer, this`history, this`isLLMSpeaking, this`status, this`pending
      ensures Valid()
      ensures !(audioSupported && permissionGranted) ==>
        && hasRecognizer == old(hasRecognizer) && history == old(history)
        && isLLMSpeaking == old(isLLMSpeaking) && status == old(status) && pending == old(pending)
      ensures audioSupported && permissionGranted ==>
        && hasRecognizer == (old(hasRecognizer) || recognitionSupported)
        && history == [] && isLLMSpeaking && status == SpeakingStatus
        && pending == old(pending) + [StubCall(StartPrompt(examDescription, requiredWords), true, false)]
    {
      if audioSupported && permissionGranted {
        if recognitionSupported {
          hasRecognizer := true;
        }
        StartConversation();
      }
    }

    /** The recogniser's `onresult`, as in public/script.js. */
    method OnResult(resultIndex: nat, results: seq<SpeechResult>)
      requires Valid()
      modifies this`currentTranscript, this`status
      ensures Valid()
      ensures currentTranscript == EventTranscript(resultIndex, results)
      ensures status == HeardStatus(currentTranscript)
    {
      currentTranscript := CollectTranscript(resultIndex, results);
      status := HeardStatus(currentTranscript);
      assert status[..5] == "You: ";
    }

    /** The recogniser's `onerror`, as in public/script.js. */
    method OnError(error: string)
      requires Valid()
      modifies this`status
      ensures Valid()
      ensures status == RecognitionErrorStatus(error)
    {
      status := RecognitionErrorStatus(error);
      assert status[..7] == "Error: ";
    }

    /**
     * `startConversation` of index.js: the history is emptied and the first call sent with
     * `isFirstMessage`, its prompt built from the description and the words.
     */
    method StartConversation()
      requires Valid()
      modifies this`history, this`isLLMSpeaking, this`status, this`pending
      ensures Valid()
      ensures history == [] && isLLMSpeaking && status == SpeakingStatus
      ensures pending == old(pending) + [StubCall(StartPrompt(examDescription, requiredWords), true, false)]
    {
      history := [];
      LLMSpeak(StartPrompt(examDescription, requiredWords), true);
    }

    /** `llmSpeak(prompt, isFirstMessage)`: the chatbot is marked as speaking and its timer set. */
    method LLMSpeak(prompt: StubPrompt, isFirstMessage: bool)
      requires Valid()
      modifies this`isLLMSpeaking, this`status, this`pending
      ensures Valid()
      ensures isLLMSpeaking && status == SpeakingStatus
      ensures pending == old(pending) + [StubCall(prompt, isFirstMessage, false)]
    {
      isLLMSpeaking := true;
      status := SpeakingStatus;
      pending := pending + [StubCall(prompt, isFirstMessage, false)];
    }

    /**
     * The oldest timer fires and its promise resolves with the stub's reply. A feedback call fills
     * the feedback box; any other call appends exactly one LLM entry and speaks it. The status is
     * never the chatbot error status.
     */
    method OnTimer()
      requires Valid() && pending != []
      modifies this`pending, this`history, this`spoken, this`feedback
      ensures Valid() && status != StubErrorStatus
      ensures pending == old(pending[1..])
      ensures var c := old(pending[0]);
        var reply := StubReply(PromptString(c.prompt), c.isFirstMessage, c.isFeedback);
        if c.isFeedback then
          feedback == Some(reply) && history == old(history) && spoken == old(spoken)
        else
          feedback == old(feedback)
          && history == old(history) + [Entry(LLM, reply)] && spoken == old(spoken) + [reply]
    {
      ErrorStatusUnknown();
      var c := pending[0];
      pending := pending[1..];
      var reply := StubReply(PromptString(c.prompt), c.isFirstMessage, c.isFeedback);
      if c.isFeedback {
        feedback := Some(reply);
      } else {
        history := history + [Entry(LLM, reply)];
        spoken := spoken + [reply];
      }
    }

    /** `utterance.onend`, as in public/script.js. */
    method OnSpeechEnd()
      requires Valid()
      modifies this`isLLMSpeaking, this`isUserSpeaking, this`currentTranscript, this`status
      ensures Valid() && !isLLMSpeaking && Exclusive()
      ensures old(hasRecognizer && !isUserSpeaking) ==>
        isUserSpeaking && currentTranscript == "" && status == ListeningStatus
      ensures !old(hasRecognizer && !isUserSpeaking) ==>
        isUserSpeaking == old(isUserSpeaking) && currentTranscript == old(currentTranscript) && status == old(status)
    {
      isLLMSpeaking := false;
      StartListening();
    }

    /** `startListening`, as in public/script.js. */
    method StartListening()
      requires Valid()
      modifies this`isUserSpeaking, this`currentTranscript, this`status
      ensures Valid()
      ensures old(hasRecognizer && !isUserSpeaking) ==>
        isUserSpeaking && currentTranscript == "" && status == ListeningStatus
      ensures !old(hasRecognizer && !isUserSpeaking) ==>
        isUserSpeaking == old(isUserSpeaking) && currentTranscript == old(currentTranscript) && status == old(status)
    {
      if hasRecognizer && !isUserSpeaking {
        isUserSpeaking := true;
        currentTranscript := "";
        status := ListeningStatus;
      }
    }

    /**
     * `endMessage` of index.js: as in public/script.js, but the message is sent with
     * `isFirstMessage` false.
     */
    method EndMessage()
      requires Valid()
      modifies this`isUserSpeaking, this`history, this`isLLMSpeaking, this`status, this`pending
      ensures Valid()
      ensures !old(isUserSpeaking) ==>
        && isUserSpeaking == old(isUserSpeaking) && history == old(history)
        && isLLMSpeaking == old(isLLMSpeaking) && status == old(status) && pending == old(pending)
      ensures old(isUserSpeaking) && !IsBlank(currentTranscript) ==>
        && !isUserSpeaking && isLLMSpeaking && status == SpeakingStatus
        && history == old(history) + [Entry(User, currentTranscript)]
        && pending == old(pending) + [StubCall(UserReply(currentTranscript), false, false)]
      ensures old(isUserSpeaking) && IsBlank(currentTranscript) ==>
        && !isUserSpeaking && isLLMSpeaking == old(isLLMSpeaking) && status == NoSpeechStatus
        && history == old(history) && pending == old(pending)
      ensures old(Exclusive()) ==> Exclusive()
    {
      if isUserSpeaking && hasRecognizer {
        isUserSpeaking := false;
        if !IsBlank(currentTranscript) {
          history := history + [Entry(User, currentTranscript)];
          LLMSpeak(UserReply(currentTranscript), false);
        } else {
          status := NoSpeechStatus;
        }
      }
    }

    /**
     * `endConversation` of index.js: the same report as public/script.js, and a feedback call
     * with `isFeedback` set.
     */
    method EndConversation()
      modifies this`report, this`pending
      ensures report == Some(ScoreOf(history, requiredWords))
      ensures pending == old(pending) + [StubCall(FeedbackRequest(UserMessages(history)), false, true)]
    {
      var r, userMessages := GenerateScoreReport(history, requiredWords);
      report := Some(r);
      pending := pending + [StubCall(FeedbackRequest(userMessages), false, true)];
    }
  }
}

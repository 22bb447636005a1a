/**
 * The session controller of public/script.js: the global state of a practice session and the
 * handlers that change it in place. Browser callbacks (the recogniser's events, the end of an
 * utterance, the settling of a chatbot request) are separate event methods, called in whatever
 * order the environment delivers them.
 */
module TurnController {
  import opened Wrappers
  import opened Text
  import opened Conversation
  import opened Setup
  import opened Recognition
  import opened Highlight
  import opened Coverage
  import opened Request
  import opened Voices
  import opened ScoreReport

  const ChatbotErrorStatus := "Error communicating with chatbot. Please reload the page and try again."

  /** One `synthesis.speak` call: the text and the voice set on the utterance, if any. */
  datatype Utterance = Utterance(text: string, voice: Option<Voice>)

  class Session {
    var requiredWords: seq<string>
    var examDescription: string
    var history: seq<Entry>
    /** Whether `recognition` holds a recogniser. */
    var hasRecognizer: bool
    var isLLMSpeaking: bool
    var isUserSpeaking: bool
    var currentTranscript: string
    /** The text of the status line. */
    var status: string
    /** Every call of `callLLMAPI`, oldest first; `Body` gives the request each one posts. */
    var calls: seq<Call>
    /** Every utterance handed to speech synthesis, oldest first. */
    var utterances: seq<Utterance>
    /** The score report, once the conversation has ended. */
    var report: Option<Report>
    /** The text of the grammar-feedback box, once it has been filled. */
    var feedback: Option<string>

    /** The chatbot and the user are not both marked as speaking. */
    predicate Exclusive()
      reads this`isLLMSpeaking, this`isUserSpeaking
    {
      !(isLLMSpeaking && isUserSpeaking)
    }

    /** What every handler keeps: the user is never marked as speaking without a recogniser. */
    predicate Valid()
      reads this`isUserSpeaking, this`hasRecognizer
    {
      isUserSpeaking ==> hasRecognizer
    }

    /** The initial values of the globals. */
    constructor ()
      ensures requiredWords == [] && examDescription == "" && history == []
      ensures !hasRecognizer && !isLLMSpeaking && !isUserSpeaking && currentTranscript == ""
      ensures status == "" && calls == [] && utterances == [] && report == None && feedback == None
      ensures Valid() && Exclusive()
    {
      requiredWords := [];
      examDescription := "";
      history := [];
      hasRecognizer := false;
      isLLMSpeaking := false;
      isUserSpeaking := false;
      currentTranscript := "";
      status := "";
      calls := [];
      utterances := [];
      report := None;
      feedback := None;
    }

    /**
     * `goToStartPage`: both fields must be non-blank after trimming; then the words are parsed and
     * the trimmed description stored, and otherwise neither changes.
     */
    method GoToStartPage(wordsField: string, descriptionField: string) returns (accepted: bool)
      requires Valid()
      modifies this`requiredWords, this`examDescription
      ensures Valid()
      ensures accepted <==> !IsBlank(wordsField) && !IsBlank(descriptionField)
      ensures accepted ==> requiredWords == ParseWords(wordsField) && examDescription == Trim(descriptionField)
      ensures accepted ==> WellFormedWords(requiredWords)
      ensures !accepted ==> requiredWords == old(requiredWords) && examDescription == old(examDescription)
    {
      var wordsInput := Trim(wordsField);
      var examDescInput := Trim(descriptionField);
      if wordsInput == "" || examDescInput == "" {
        return false;
      }
      requiredWords := NonBlankLines(Split(wordsInput, '\n'));
      examDescription := examDescInput;
      ParseWordsMembers(wordsField);
      accepted := true;
    }

    /**
     * `goToConversationPage`: with audio capture available and permitted, set up recognition and
     * start the conversation; otherwise nothing changes.
     */
    method GoToConversationPage(audioSupported: bool, permissionGranted: bool, recognitionSupported: bool)
      requires Valid()
      modifies this`hasRecognizer, this`history, this`isLLMSpeaking, this`status, this`calls
      ensures Valid()
      ensures !(audioSupported && permissionGranted) ==>
        && hasRecognizer == old(hasRecognizer) && history == old(history)
        && isLLMSpeaking == old(isLLMSpeaking) && status == old(status) && calls == old(calls)
      ensures audioSupported && permissionGranted ==>
        && hasRecognizer == (old(hasRecognizer) || recognitionSupported)
        && history == [] && isLLMSpeaking && status == SpeakingStatus
        && calls == old(calls) + [Call([], Opening, examDescription, requiredWords)]
    {
      if audioSupported && permissionGranted {
        InitializeSpeechRecognition(recognitionSupported);
        StartConversation();
      }
    }

    /** `initializeSpeechRecognition`: a recogniser is created only where the browser has one. */
    method InitializeSpeechRecognition(supported: bool)
      requires Valid()
      modifies this`hasRecognizer
      ensures Valid()
      ensures hasRecognizer == (old(hasRecognizer) || supported)
    {
      if supported {
        hasRecognizer := true;
      }
    }

    /**
     * `recognition.onresult`: the transcript is replaced by the event's text (its final segments
     * from `resultIndex` on, or its interim ones when those are empty) and shown on the status line.
     */
    method OnResult(resultIndex: nat, results: seq<SpeechResult>)
      modifies this`currentTranscript, this`status
      ensures currentTranscript == EventTranscript(resultIndex, results)
      ensures status == HeardStatus(currentTranscript)
    {
      currentTranscript := CollectTranscript(resultIndex, results);
      status := HeardStatus(currentTranscript);
    }

    /** `recognition.onerror`: only the status line changes; the speaking flags stay as they were. */
    method OnError(error: string)
      modifies this`status
      ensures status == RecognitionErrorStatus(error)
    {
      status := RecognitionErrorStatus(error);
    }

    /**
     * `startConversation`: the history is emptied and the greeting request sent. It leaves the two
     * flags exclusive exactly when the user was not speaking.
     */
    method StartConversation()
      modifies this`history, this`isLLMSpeaking, this`status, this`calls
      ensures history == [] && isLLMSpeaking && status == SpeakingStatus
      ensures calls == old(calls) + [Call([], Opening, examDescription, requiredWords)]
      ensures Exclusive() <==> !isUserSpeaking
    {
      history := [];
      LLMSpeak(Opening);
    }

    /** The request part of `callLLMAPI(prompt)`: it is built from the state at the moment of the call. */
    method CallLLMAPI(prompt: Prompt)
      modifies this`calls
      ensures calls == old(calls) + [Call(history, prompt, examDescription, requiredWords)]
    {
      calls := calls + [Call(history, prompt, examDescription, requiredWords)];
    }

    /** `llmSpeak`: the chatbot is marked as speaking and the request sent. */
    method LLMSpeak(prompt: Prompt)
      modifies this`isLLMSpeaking, this`status, this`calls
      ensures isLLMSpeaking && status == SpeakingStatus
      ensures calls == old(calls) + [Call(history, prompt, examDescription, requiredWords)]
    {
      isLLMSpeaking := true;
      status := SpeakingStatus;
      CallLLMAPI(prompt);
    }

    /**
     * The settling of a turn request started by `llmSpeak`: a reply text is appended to the
     * history as exactly one LLM entry and spoken; a failure appends nothing, clears the chatbot's
     * flag and shows the error status.
     */
    method OnLLMResponse(d: Delivery, voices: seq<Voice>)
      modifies this`history, this`utterances, this`status, this`isLLMSpeaking
      ensures Settle(d).Ok? ==>
        && history == old(history) + [Entry(LLM, Settle(d).value)]
        && utterances == old(utterances) + [Utterance(Settle(d).value, ChooseVoice(voices))]
        && status == old(status) && isLLMSpeaking == old(isLLMSpeaking)
      ensures Settle(d).Err? ==>
        && history == old(history) && utterances == old(utterances)
        && status == ChatbotErrorStatus && !isLLMSpeaking
      ensures old(Exclusive()) ==> Exclusive()
    {
      match Settle(d)
      case Ok(response) =>
        history := history + [Entry(LLM, response)];
        SpeakText(response, voices);
      case Err(_) =>
        status := ChatbotErrorStatus;
        isLLMSpeaking := false;
    }

    /** `speakText`: the utterance takes the voice the find chain picks, if it picks one. */
    method SpeakText(text: string, voices: seq<Voice>)
      modifies this`utterances
      ensures utterances == old(utterances) + [Utterance(text, ChooseVoice(voices))]
      ensures ChooseVoice(voices).Some? ==> IsChinese(ChooseVoice(voices).value)
    {
      ChooseVoiceSpec(voices);
      utterances := utterances + [Utterance(text, ChooseVoice(voices))];
    }

    /**
     * `utterance.onend`: the chatbot's flag is cleared before listening starts, so afterwards the
     * two flags are never both set.
     */
    method OnSpeechEnd()
      requires Valid()
      modifies this`isLLMSpeaking, this`isUserSpeaking, this`currentTranscript, this`status
      ensures Valid() && !isLLMSpeaking && Exclusive()
      ensures old(hasRecognizer && !isUserSpeaking) ==>
        isUserSpeaking && currentTranscript == "" && status == ListeningStatus
      ensures !old(hasRecognizer && !isUserSpeaking) ==>
        isUserSpeaking == old(isUserSpeaking) && currentTranscript == old(currentTranscript) && status == old(status)
    {
      isLLMSpeaking := false;
      StartListening();
    }

    /**
     * `startListening`: with a recogniser and the user not already speaking, listening starts with
     * an empty transcript; otherwise nothing changes.
     */
    method StartListening()
      requires Valid()
      modifies this`isUserSpeaking, this`currentTranscript, this`status
      ensures Valid()
      ensures old(hasRecognizer && !isUserSpeaking) ==>
        isUserSpeaking && currentTranscript == "" && status == ListeningStatus
      ensures !old(hasRecognizer && !isUserSpeaking) ==>
        isUserSpeaking == old(isUserSpeaking) && currentTranscript == old(currentTranscript) && status == old(status)
    {
      if hasRecognizer && !isUserSpeaking {
        isUserSpeaking := true;
        currentTranscript := "";
        status := ListeningStatus;
      }
    }

    /**
     * `endMessage`: only while the user speaks. A non-blank transcript becomes exactly one User
     * entry and is sent as the prompt, so the chatbot speaks next; a blank one leaves the history
     * alone, shows the no-speech status and does not listen again.
     */
    method EndMessage()
      requires Valid()
      modifies this`isUserSpeaking, this`history, this`isLLMSpeaking, this`status, this`calls
      ensures Valid()
      ensures !old(isUserSpeaking) ==>
        && isUserSpeaking == old(isUserSpeaking) && history == old(history)
        && isLLMSpeaking == old(isLLMSpeaking) && status == old(status) && calls == old(calls)
      ensures old(isUserSpeaking) && !IsBlank(currentTranscript) ==>
        && !isUserSpeaking && isLLMSpeaking && status == SpeakingStatus
        && history == old(history) + [Entry(User, currentTranscript)]
        && calls == old(calls) + [Call(history, Message(currentTranscript), examDescription, requiredWords)]
      ensures old(isUserSpeaking) && IsBlank(currentTranscript) ==>
        && !isUserSpeaking && isLLMSpeaking == old(isLLMSpeaking) && status == NoSpeechStatus
        && history == old(history) && calls == old(calls)
      ensures old(Exclusive()) ==> Exclusive()
    {
      if isUserSpeaking && hasRecognizer {
        isUserSpeaking := false;
        if !IsBlank(currentTranscript) {
          history := history + [Entry(User, currentTranscript)];
          LLMSpeak(Message(currentTranscript));
        } else {
          status := NoSpeechStatus;
        }
      }
    }

    /**
     * `endConversation` and `generateScoreReport`: the report shows one paragraph per entry and
     * the used and total word counts, and the user texts are sent for grammar feedback. The
     * speaking flags are left as they are.
     */
    method EndConversation()
      modifies this`report, this`calls
      ensures report == Some(ScoreOf(history, requiredWords))
      ensures calls == old(calls) + [Call(history, FeedbackOn(UserMessages(history)), examDescription, requiredWords)]
    {
      var r, userMessages := GenerateScoreReport(history, requiredWords);
      report := Some(r);
      CallLLMAPI(FeedbackOn(userMessages));
    }

    /** The settling of the feedback request: its text, or the fixed apology; nothing else changes. */
    method OnFeedbackResponse(d: Delivery)
      modifies this`feedback
      ensures Settle(d).Ok? ==> feedback == Some(Settle(d).value)
      ensures Settle(d).Err? ==> feedback == Some(FeedbackUnavailable)
    {
      match Settle(d)
      case Ok(text) => feedback := Some(text);
      case Err(_) => feedback := Some(FeedbackUnavailable);
    }
  }
}

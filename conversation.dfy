/** The conversation history the controllers share, and the fixed status texts they show. */
module Conversation {
  import opened Text

  /** The two speakers of a history entry ('User' and 'LLM' in the source). */
  datatype Speaker = User | LLM

  /** One `{speaker, text}` record of `conversationHistory`. */
  datatype Entry = Entry(speaker: Speaker, text: string)

  function SpeakerName(s: Speaker): string {
    match s
    case User => "User"
    case LLM => "LLM"
  }

  const SpeakingStatus := "Chatbot is speaking..."
  const ListeningStatus := "Your turn to speak..."
  const NoSpeechStatus := "No speech detected. Please try again."
  const FeedbackUnavailable := "Unable to generate feedback at this time."

  /** The status line while the recogniser reports text. */
  function HeardStatus(transcript: string): string {
    "You: " + transcript
  }

  /** The status line after a recogniser error. */
  function RecognitionErrorStatus(error: string): string {
    "Error: " + error
  }

  /**
   * The texts of the User entries, in history order
   * (`conversationHistory.filter(e => e.speaker === 'User').map(e => e.text)`).
   */
  function UserTexts(h: seq<Entry>): (r: seq<string>)
    ensures |r| <= |h|
    ensures forall t :: t in r ==> Entry(User, t) in h
  {
    if h == [] then []
    else
      var e := h[|h| - 1];
      UserTexts(h[..|h| - 1]) + (if e.speaker == User then [e.text] else [])
  }

  /** The User texts joined with single spaces: the text that is scored and sent for feedback. */
  function UserMessages(h: seq<Entry>): string {
    Join(UserTexts(h), " ")
  }

  /**
   * An LLM entry leaves the joined user text as it was; a User entry appends its text, after a
   * single space unless it is the first.
   */
  lemma UserMessagesSnoc(h: seq<Entry>, e: Entry)
    ensures e.speaker != User ==> UserMessages(h + [e]) == UserMessages(h)
    ensures e.speaker == User && UserTexts(h) == [] ==> UserMessages(h + [e]) == e.text
    ensures e.speaker == User && UserTexts(h) != [] ==> UserMessages(h + [e]) == UserMessages(h) + " " + e.text
  {
    UserTextsSnoc(h, e);
    if e.speaker == User {
      JoinSnoc(UserTexts(h), e.text, " ");
    } else {
      assert UserTexts(h) + [] == UserTexts(h);
    }
  }

  /** Every User entry's text occurs in the joined user text. */
  lemma UserMessagesMentions(h: seq<Entry>, i: nat)
    requires i < |h| && h[i].speaker == User
    ensures Occurs(h[i].text, UserMessages(h))
  {
    UserTextsComplete(h, i);
    JoinHasParts(UserTexts(h), " ");
  }

  /** An LLM entry adds nothing to the user texts; a User entry adds exactly its text at the end. */
  lemma UserTextsSnoc(h: seq<Entry>, e: Entry)
    ensures UserTexts(h + [e]) == UserTexts(h) + (if e.speaker == User then [e.text] else [])
  {
    assert (h + [e])[..|h|] == h;
  }

  /** Every User entry contributes its text: the user texts are the User entries, in order. */
  lemma {:induction false} UserTextsComplete(h: seq<Entry>, i: nat)
    requires i < |h| && h[i].speaker == User
    ensures h[i].text in UserTexts(h)
  {
    if i < |h| - 1 {
      assert h[..|h| - 1][i] == h[i];
      UserTextsComplete(h[..|h| - 1], i);
    }
  }
}

/**
 * The chatbot of index.js: a stub `callLLMAPI(prompt, isFirstMessage, isFeedback)` that resolves,
 * after a fixed delay, with one of three fixed replies, and the two prompts that file builds.
 */
module StubAgent {
  import opened Text

  const FeedbackReply := "Your Chinese pronunciation and grammar show good progress. Consider working on your tone accuracy, especially with third tone changes. Also, try to use more complex sentence structures with 把 and 被 constructions to sound more natural."
  const OpeningReply := "你好！很高兴见到你。今天我们来练习中文对话。你可以先介绍一下自己吗？"
  const ContinueReply := "很好！请继续说。"

  /** The reply the stub resolves with; the prompt is not looked at. */
  function StubReply(prompt: string, isFirstMessage: bool, isFeedback: bool): string {
    if isFeedback then FeedbackReply
    else if isFirstMessage then OpeningReply
    else ContinueReply
  }

  /**
   * The reply depends on the flags alone, `isFeedback` taking precedence over `isFirstMessage`,
   * and the three replies are distinct, so each reply tells which branch was taken.
   */
  lemma StubReplyChoice(prompt: string, other: string, isFirstMessage: bool, isFeedback: bool)
    ensures StubReply(prompt, isFirstMessage, isFeedback) == StubReply(other, isFirstMessage, isFeedback)
    ensures StubReply(prompt, isFirstMessage, true) == StubReply(prompt, !isFirstMessage, true)
    ensures (StubReply(prompt, isFirstMessage, isFeedback) == FeedbackReply) <==> isFeedback
    ensures (StubReply(prompt, isFirstMessage, isFeedback) == OpeningReply) <==> !isFeedback && isFirstMessage
  {
    assert |FeedbackReply| != |OpeningReply| && |FeedbackReply| != |ContinueReply|;
    assert |OpeningReply| != |ContinueReply|;
  }

  /** The prompts index.js hands to the stub. */
  datatype StubPrompt =
    | StartPrompt(description: string, words: seq<string>)
    | UserReply(text: string)
    | FeedbackRequest(userText: string)

  const StartHead := "You are a Chinese language teacher helping a student practice Chinese conversation. The exam description is: \""
  const StartMiddle := "\". The student needs to use these words and grammar structures: "
  const StartTail := ". Start the conversation naturally in Chinese and encourage the student to use the required vocabulary."
  const StubFeedbackHead := "As a Chinese language teacher, analyze this student's Chinese conversation and provide constructive grammar feedback in English. Focus on grammar mistakes, sentence structure, and areas for improvement:\n\n"

  /** The prompt as a string: the opening template of `startConversation`, the message, or the feedback template. */
  function PromptString(p: StubPrompt): string {
    match p
    case StartPrompt(d, ws) => StartHead + d + StartMiddle + Join(ws, ", ") + StartTail
    case UserReply(t) => t
    case FeedbackRequest(u) => StubFeedbackHead + u
  }

  /** A reply prompt is the message itself; the feedback prompt is the fixed instructions, then the user text in full. */
  lemma PromptStringParts(t: string, u: string)
    ensures PromptString(UserReply(t)) == t
    ensures PromptString(FeedbackRequest(u))[..|StubFeedbackHead|] == StubFeedbackHead
    ensures PromptString(FeedbackRequest(u))[|StubFeedbackHead|..] == u
    ensures Occurs(u, PromptString(FeedbackRequest(u)))
  {
    OccursIn(u, StubFeedbackHead, "");
    assert StubFeedbackHead + u + "" == PromptString(FeedbackRequest(u));
  }

  /** The opening prompt quotes the exam description and names every required word. */
  lemma StartPromptMentions(description: string, words: seq<string>)
    ensures Occurs(description, PromptString(StartPrompt(description, words)))
    ensures forall i :: 0 <= i < |words| ==> Occurs(words[i], PromptString(StartPrompt(description, words)))
  {
    TemplateMentions(StartHead, StartMiddle, StartTail, description, words);
  }
}

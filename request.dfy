/**
 * The chatbot request that `callLLMAPI` posts (its `contents` list and system instruction) and the
 * reading of the reply payload.
 */
module Request {
  import opened Wrappers
  import opened Text
  import opened Conversation

  /** The `role` of a turn of `contents`. */
  datatype Role = UserRole | ModelRole

  /** One `{role, parts: [{text}]}` turn of `contents`. */
  datatype Turn = Turn(role: Role, text: string)

  /** The body of the request: `contents` and the text of `systemInstruction.parts[0]`. */
  datatype Request = Request(contents: seq<Turn>, systemInstruction: string)

  /** The fixed first turn of every request. */
  const GreetingPrompt := "[A new user has just opened the chat. Please greet them and start the conversation]"
  const GreetingTurn := Turn(UserRole, GreetingPrompt)

  /** A User entry is sent as a `user` turn, every other entry as a `model` turn. */
  function RoleOf(s: Speaker): Role {
    if s == User then UserRole else ModelRole
  }

  function HistoryTurn(e: Entry): Turn {
    Turn(RoleOf(e.speaker), e.text)
  }

  /** The history as turns, one per entry and in order. */
  function HistoryTurns(h: seq<Entry>): seq<Turn> {
    if h == [] then [] else HistoryTurns(h[..|h| - 1]) + [HistoryTurn(h[|h| - 1])]
  }

  /**
   * The `contents` of a request: with no prompt (`prompt === undefined`) only the greeting turn;
   * with a prompt the greeting, the history and a final `user` turn holding the prompt.
   */
  function Contents(h: seq<Entry>, prompt: Option<string>): seq<Turn> {
    match prompt
    case None => [GreetingTurn]
    case Some(p) => [GreetingTurn] + HistoryTurns(h) + [Turn(UserRole, p)]
  }

  /** The history turns correspond index by index to the entries. */
  lemma {:induction false} HistoryTurnsShape(h: seq<Entry>)
    ensures |HistoryTurns(h)| == |h|
    ensures forall i :: 0 <= i < |h| ==> HistoryTurns(h)[i] == HistoryTurn(h[i])
  {
    if h != [] {
      var init := h[..|h| - 1];
      HistoryTurnsShape(init);
      assert forall i :: 0 <= i < |init| ==> init[i] == h[i];
    }
  }

  /** Index by index, the history turns behind a first turn and before a last one. */
  lemma WrappedTurns(first: Turn, h: seq<Entry>, last: Turn)
    ensures var c := [first] + HistoryTurns(h) + [last];
      && |c| == |h| + 2 && c[0] == first && c[|h| + 1] == last
      && forall i :: 0 <= i < |h| ==> c[i + 1] == HistoryTurn(h[i])
  {
    HistoryTurnsShape(h);
    var c := [first] + HistoryTurns(h) + [last];
    forall i | 0 <= i < |h| ensures c[i + 1] == HistoryTurn(h[i]) {
      assert c[i + 1] == HistoryTurns(h)[i];
    }
  }

  /**
   * The shape of `contents`: the greeting comes first; without a prompt it is the only turn; with
   * one there are |h| + 2 turns, turn i + 1 carrying entry i with its role, and the prompt last.
   */
  lemma ContentsShape(h: seq<Entry>, prompt: Option<string>)
    ensures var c := Contents(h, prompt);
      && |c| > 0 && c[0] == GreetingTurn
      && (prompt.None? ==> |c| == 1)
      && (prompt.Some? ==>
            && |c| == |h| + 2
            && c[|h| + 1] == Turn(UserRole, prompt.value)
            && forall i :: 0 <= i < |h| ==>
                 c[i + 1].text == h[i].text && (c[i + 1].role == UserRole <==> h[i].speaker == User))
  {
    if prompt.Some? {
      WrappedTurns(GreetingTurn, h, Turn(UserRole, prompt.value));
    }
  }

  /**
   * After `endMessage` the history already ends with the User entry being sent, so the message
   * appears twice, as the last two `user` turns.
   */
  lemma ContentsRepeatLastMessage(h: seq<Entry>, message: string)
    ensures var c := Contents(h + [Entry(User, message)], Some(message));
      && |c| == |h| + 3
      && c[|h| + 1] == c[|h| + 2] == Turn(UserRole, message)
  {
    HistoryTurnsShape(h + [Entry(User, message)]);
  }

  /** The `contents.push` loop of `callLLMAPI`. */
  method BuildContents(h: seq<Entry>, prompt: Option<string>) returns (contents: seq<Turn>)
    ensures contents == Contents(h, prompt)
  {
    contents := [GreetingTurn];
    if prompt.Some? {
      var i := 0;
      while i < |h|
        invariant i <= |h|
        invariant contents == [GreetingTurn] + HistoryTurns(h[..i])
      {
        assert h[..i + 1][..i] == h[..i];
        contents := contents + [Turn(if h[i].speaker == User then UserRole else ModelRole, h[i].text)];
        i := i + 1;
      }
      assert h[..i] == h;
      contents := contents + [Turn(UserRole, prompt.value)];
    }
  }

  const InstructionHead := "You are a Chinese language teacher helping a student practice Chinese conversation. The conversation description is as follows: \""
  const InstructionMiddle := "\". The student needs to use these words and grammar structures: "
  const InstructionTail := ". Converse naturally in Chinese, always following the description of the conversation. While conversing, subtly encourage the student to use the required vocabulary, but try not to explicit mention the vocabulary words or the conversation topic. Keep your responses between 1-3 sentences. Please format your response in plaintext and do not use any markdown formatting."

  /** `SYSTEM_INSTRUCTION`: the description in quotes and the words joined with ", ". */
  function SystemInstruction(description: string, words: seq<string>): string {
    InstructionHead + description + InstructionMiddle + Join(words, ", ") + InstructionTail
  }

  /** The system instruction quotes the description and names every required word verbatim. */
  lemma SystemInstructionMentions(description: string, words: seq<string>)
    ensures Occurs(description, SystemInstruction(description, words))
    ensures forall i :: 0 <= i < |words| ==> Occurs(words[i], SystemInstruction(description, words))
  {
    TemplateMentions(InstructionHead, InstructionMiddle, InstructionTail, description, words);
  }

  const FeedbackHead := "As a Chinese language teacher, analyze the following dialogue, which represents a student's responses in a conversation. Provide constructive grammar feedback in English in a short paragraph. Focus on grammar mistakes, sentence structure, and areas for improvement. Please format your response in plaintext and do not use any markdown formatting. Address your response to the student. \n\n"

  /** The prompt of the grammar-feedback request: fixed instructions, a blank line, the user text. */
  function FeedbackPrompt(userText: string): string {
    FeedbackHead + userText
  }

  /** The feedback prompt holds the fixed instructions, then the user text unchanged and in full. */
  lemma FeedbackPromptParts(u: string)
    ensures |FeedbackPrompt(u)| == |FeedbackHead| + |u|
    ensures FeedbackPrompt(u)[..|FeedbackHead|] == FeedbackHead
    ensures FeedbackPrompt(u)[|FeedbackHead|..] == u
    ensures Occurs(u, FeedbackPrompt(u))
  {
    OccursIn(u, FeedbackHead, "");
    assert FeedbackHead + u + "" == FeedbackPrompt(u);
  }

  /**
   * The prompt a caller hands to `callLLMAPI`: none for the opening request, the user's message,
   * or the feedback prompt over the user texts.
   */
  datatype Prompt = Opening | Message(text: string) | FeedbackOn(userText: string)

  function PromptText(p: Prompt): Option<string> {
    match p
    case Opening => None
    case Message(t) => Some(t)
    case FeedbackOn(u) => Some(FeedbackPrompt(u))
  }

  /** What one `callLLMAPI(prompt)` reads: the prompt and the globals at the moment of the call. */
  datatype Call = Call(history: seq<Entry>, prompt: Prompt, description: string, words: seq<string>)

  /** The body that call posts. */
  function Body(c: Call): Request {
    Request(Contents(c.history, PromptText(c.prompt)), SystemInstruction(c.description, c.words))
  }

  /** The posted instruction names the description and every word of the call. */
  lemma BodyInstruction(c: Call)
    ensures Occurs(c.description, Body(c).systemInstruction)
    ensures forall i :: 0 <= i < |c.words| ==> Occurs(c.words[i], Body(c).systemInstruction)
  {
    SystemInstructionMentions(c.description, c.words);
  }

  /**
   * The posted contents: the opening call sends only the greeting turn, any other call the
   * greeting, one turn per history entry and its prompt as the last `user` turn, the feedback
   * prompt holding the user text in full.
   */
  lemma BodyShape(c: Call)
    ensures c.prompt.Opening? ==> Body(c).contents == [GreetingTurn]
    ensures c.prompt.Message? ==>
      |Body(c).contents| == |c.history| + 2 && Body(c).contents[|c.history| + 1] == Turn(UserRole, c.prompt.text)
    ensures c.prompt.FeedbackOn? ==>
      && |Body(c).contents| == |c.history| + 2
      && Body(c).contents[|c.history| + 1] == Turn(UserRole, FeedbackPrompt(c.prompt.userText))
      && Occurs(c.prompt.userText, Body(c).contents[|c.history| + 1].text)
    ensures !c.prompt.Opening? ==>
      && |Body(c).contents| == |c.history| + 2
      && Body(c).contents[0] == GreetingTurn
      && forall i :: 0 <= i < |c.history| ==>
           Body(c).contents[i + 1].text == c.history[i].text
           && (Body(c).contents[i + 1].role == UserRole <==> c.history[i].speaker == User)
  {
    BodyContents(c.history, c.prompt);
  }

  lemma BodyContents(h: seq<Entry>, p: Prompt)
    ensures p.Opening? ==> Contents(h, PromptText(p)) == [GreetingTurn]
    ensures p.Message? ==> |Contents(h, PromptText(p))| == |h| + 2 && Contents(h, PromptText(p))[|h| + 1] == Turn(UserRole, p.text)
    ensures p.FeedbackOn? ==>
      && |Contents(h, PromptText(p))| == |h| + 2
      && Contents(h, PromptText(p))[|h| + 1] == Turn(UserRole, FeedbackPrompt(p.userText))
      && Occurs(p.userText, FeedbackPrompt(p.userText))
    ensures !p.Opening? ==>
      && |Contents(h, PromptText(p))| == |h| + 2
      && Contents(h, PromptText(p))[0] == GreetingTurn
      && forall i :: 0 <= i < |h| ==>
           Contents(h, PromptText(p))[i + 1].text == h[i].text
           && (Contents(h, PromptText(p))[i + 1].role == UserRole <==> h[i].speaker == User)
  {
    ContentsShape(h, PromptText(p));
    if p.FeedbackOn? {
      FeedbackPromptParts(p.userText);
    }
  }

  /* The parsed reply body; a field the reply may lack is an Option, a list a sequence. */
  datatype Part = Part(text: string)
  datatype Content = Content(parts: Option<seq<Part>>)
  datatype Candidate = Candidate(content: Option<Content>)
  datatype Payload = Payload(candidates: Option<seq<Candidate>>)

  /** What reaches `callLLMAPI` from the network: a parsed body, or a failed fetch or parse. */
  datatype Delivery = Delivered(payload: Payload) | Undelivered

  /** Why the promise of `callLLMAPI` rejects. */
  datatype Failure = FetchFailed | NoText

  /** `data.candidates[0].content.parts[0].text`, or no text where a step of the path is missing. */
  function ExtractText(p: Payload): Option<string> {
    if p.candidates.None? || |p.candidates.value| == 0 then None
    else
      var c := p.candidates.value[0];
      if c.content.None? || c.content.value.parts.None? || |c.content.value.parts.value| == 0 then None
      else Some(c.content.value.parts.value[0].text)
  }

  /** How the promise of `callLLMAPI` settles. */
  function Settle(d: Delivery): Result<string, Failure> {
    match d
    case Undelivered => Err(FetchFailed)
    case Delivered(p) =>
      match ExtractText(p)
      case None => Err(NoText)
      case Some(t) => Ok(t)
  }

  /** The payload of a reply carrying `text` as its one candidate with one part. */
  function Reply(text: string): Payload {
    Payload(Some([Candidate(Some(Content(Some([Part(text)]))))]))
  }

  /**
   * Extraction reads exactly the first part of the first candidate: a reply with that path gives
   * its text whatever parts and candidates follow, and a text is only ever found on that path.
   */
  lemma ExtractTextFirst(p: Payload)
    ensures forall t, ps, cs :: ExtractText(Payload(Some([Candidate(Some(Content(Some([Part(t)] + ps))))] + cs))) == Some(t)
    ensures ExtractText(p).Some? ==>
      && p.candidates.Some? && |p.candidates.value| > 0
      && p.candidates.value[0].content.Some?
      && p.candidates.value[0].content.value.parts.Some?
      && |p.candidates.value[0].content.value.parts.value| > 0
      && ExtractText(p).value == p.candidates.value[0].content.value.parts.value[0].text
  {
  }

  /**
   * Only a failed fetch rejects with FetchFailed. The promise resolves with `t` exactly when a
   * body was delivered whose first candidate has content whose first part is `t`, whatever parts
   * and candidates follow.
   */
  lemma SettleOkIff(d: Delivery, t: string)
    ensures Settle(d) == Err(FetchFailed) <==> d.Undelivered?
    ensures Settle(d) == Ok(t) <==>
      exists ps: seq<Part>, cs: seq<Candidate> ::
        d == Delivered(Payload(Some([Candidate(Some(Content(Some([Part(t)] + ps))))] + cs)))
  {
    ExtractTextFirst(Payload(None));
    if Settle(d) == Ok(t) {
      var cands := d.payload.candidates.value;
      var parts := cands[0].content.value.parts.value;
      assert [parts[0]] + parts[1..] == parts;
      assert [cands[0]] + cands[1..] == cands;
      assert d == Delivered(Payload(Some([Candidate(Some(Content(Some([Part(t)] + parts[1..]))))] + cands[1..])));
    }
  }

  /** Sending a text back as a reply delivers it. */
  lemma SettleReply(text: string)
    ensures Settle(Delivered(Reply(text))) == Ok(text)
  {
  }

  /** A reply with no candidates, or a first candidate without content, rejects. */
  lemma SettleMissing(rest: seq<Candidate>)
    ensures Settle(Delivered(Payload(None))) == Err(NoText)
    ensures Settle(Delivered(Payload(Some([])))) == Err(NoText)
    ensures Settle(Delivered(Payload(Some([Candidate(None)] + rest)))) == Err(NoText)
  {
  }
}

# LanguageBot in Dafny

LanguageBot is a browser page for practising spoken Chinese. A student types the words and
grammar structures to practise and a description of the conversation. A chatbot then talks with
them: its replies are spoken aloud by the browser, and the student's answers are taken in by
speech recognition. When the conversation ends, the student gets a score report. The report has
the transcript with the required words highlighted in the student's turns, a count of how many
required words were used, and grammar feedback written by the chatbot.

This project models the session controller of `public/script.js`, which talks to a Gemini model
through a proxy. It also models the earlier copy in `index.js`, whose chatbot is a stub that
answers after a fixed delay with one of three fixed texts. Each copy's global variables become
the fields of a class (`TurnController.Session` and `StubController.StubSession`). Each handler
becomes a method that updates those fields in place. The browser's asynchronous callbacks are
separate event methods that a caller invokes in any order:
- the recogniser's `onresult` and `onerror`;
- the end of an utterance;
- the settling of a chatbot request.

The pure parts are datatypes and functions, each with lemmas:
- trimming, splitting and joining strings (module `Text`);
- parsing the word list (`Setup`);
- assembling a recognition event's transcript (`Recognition`);
- the `<mark>` highlighting (`Highlight`);
- the word count (`Coverage`);
- the score report (`ScoreReport`);
- the request body and the reading of the reply (`Request`);
- the choice of a voice (`Voices`);
- the stub chatbot (`StubAgent`).

A request is recorded as a `Call`: the history, the prompt, the description and the words at the
moment `callLLMAPI` runs. `Request.Body` gives the JSON body that call posts. `Workflow` drives
one whole session through `Session`, as the end-to-end test in `script.test.js` does.

Notes on the code's behaviour, which the model follows:
- No handler checks whether its event is still current. A chatbot reply or the end of an
  utterance is applied whenever it arrives. No request is retried.
- Each `onresult` event replaces `currentTranscript` with the text of its results from
  `resultIndex` on. In a continuous session, final text reported by an earlier event is dropped
  by a later one (`Recognition.LaterEventDropsEarlierFinal`).
- Ending a message whose transcript is blank shows "No speech detected. Please try again." but
  does not start listening again.
- An interim transcript counts: `endMessage` sends whatever `currentTranscript` holds, final or
  not.
- Used words are counted once per entry of the word list. A word listed twice counts twice, in
  the used count and in the total (`Coverage.UsedWordsMultiplicity`,
  `Coverage.ScenarioRepeatedWord`).
- `endMessage` has already appended the User entry when it sends the same text as the prompt. So
  the request carries the message twice, as the last two `user` turns
  (`Request.ContentsRepeatLastMessage`).
- The grammar-feedback request is built like any other. It carries the greeting turn, the whole
  history and the conversation's system instruction, and the feedback prompt comes last.
- Starting a conversation while the user is marked as speaking leaves both flags set
  (`TurnController.Session.StartConversation` states exactly when the flags are exclusive).
- A recognition error changes only the status line. The user stays marked as speaking.
- `endConversation` stops the recogniser and cancels speech, but resets neither speaking flag.
- `script.test.js` expects a request body holding only the prompt and a `gemini-2.5-flash` URL.
  The code sends the greeting, the history and a system instruction, to a
  `gemini-2.5-flash-lite` URL. The model follows the code's body; the URL is not modelled.
- The word count and the highlighting can disagree. The count matches each word against the
  user texts joined with spaces, while each turn is highlighted on its own, so a word spanning
  two turns is counted but not marked (`ScoreReport.CountedButUnmarked`). The replaces also run
  one word after another, so the markers of an earlier word can split a later word's match.
- In `index.js` the description is stored trimmed before the fields are checked. A rejected
  submission therefore still overwrites it (`StubController.StubSession.GoToStartPage`).

## Model

| member | source | states |
|---|---|---|
| Text.TrimStartSpec | public/script.js:22-23 | the leading trim keeps a suffix of the input, every dropped character is white space, and the result does not start with white space |
| Text.TrimEndSpec | public/script.js:22-23 | the trailing trim keeps a prefix of the input, every dropped character is white space, and the result does not end with white space |
| Text.BlankIff | public/script.js:26 | a field is rejected as empty exactly when every character of it is white space |
| Text.TrimIdempotent | public/script.js:22-23 | trimming twice is trimming once, and a non-empty trimmed string has no white space at either end |
| Text.TrimUnchanged | public/script.js:22-23 | a non-empty string with no white space at either end is its own trim |
| Text.SplitPieces | public/script.js:32 | splitting on a line break gives at least one line, and no line holds the line break |
| Text.JoinSplit | public/script.js:32 | joining the split lines with the line break gives back the input, so the split loses no character |
| Text.JoinHasParts | public/script.js:273 | every word occurs verbatim in the word list joined with ", " |
| Text.TemplateMentions | public/script.js:273 | a template that splices in a description and a joined word list contains the description and every word |
| Text.FoldIdempotent | public/script.js:240 | folding a folded character changes nothing, and lower-case letters fold to themselves |
| Text.FoldEqSymmetric | public/script.js:240 | a case-insensitive match of two strings holds in either direction |
| Text.FoldEqTransitive | public/script.js:240 | two strings that both match a third case-insensitively match each other |
| Text.FoldEqIff | public/script.js:240 | two strings match case-insensitively exactly when they have the same length and agree position by position once folded |
| Text.OccursContainsFold | public/script.js:239-242 | a word that occurs verbatim also matches case-insensitively |
| Conversation.UserTexts | public/script.js:238 | the user texts are no more than the entries, and each one is the text of a User entry of the history |
| Conversation.UserTextsSnoc | public/script.js:238 | an LLM entry adds no user text, and a User entry adds exactly its text at the end |
| Conversation.UserTextsComplete | public/script.js:238 | the text of every User entry is among the user texts |
| Conversation.UserMessagesSnoc | public/script.js:238 | an LLM entry leaves the joined user text unchanged; a User entry appends its text, after one space unless it is the first |
| Conversation.UserMessagesMentions | public/script.js:238 | the text of every User entry occurs in the joined user text |
| Conversation.UserMessages | public/script.js:238 | specified by UserMessagesSnoc and UserMessagesMentions: the User texts, in order, joined with single spaces |
| Setup.NonBlankLinesMembers | public/script.js:32 | a line is kept exactly when it is one of the input lines and is not blank |
| Setup.NonBlankLinesAppend | public/script.js:32 | filtering distributes over concatenation, so the kept lines stay in input order |
| Setup.ParseWordsMembers | public/script.js:22-32 | the words are exactly the non-blank lines of the trimmed input; none is blank and none holds a line break |
| Setup.ParseWords | public/script.js:22-32 | specified by ParseWordsMembers and NonBlankLinesAppend: the non-blank lines of the trimmed input, in order |
| Setup.ParseDropsBlankLines | script.test.js:448-455 | empty and space-only lines between three words are dropped, leaving exactly the three words |
| Setup.ParseKeepsInnerSpaces | public/script.js:32 | only the whole input is trimmed: the spaces inside a kept line stay part of the word |
| Setup.ParseThreeLines | script.test.js:437-446 | three words on three lines parse to exactly those words, and the input is not blank |
| Recognition.CollectTranscript | public/script.js:81-93 | the loop yields the final text of the results from `resultIndex` on, or their interim text when the final text is empty |
| Recognition.SegmentsAppend | public/script.js:84-91 | the accumulated text of two runs of results is the concatenation of their texts |
| Recognition.SegmentsEmpty | public/script.js:84-93 | the final (or interim) text is empty exactly when every final (or interim) result has an empty transcript |
| Recognition.EventTranscriptCases | public/script.js:93 | non-empty final text wins; with no final text, the interim text is used |
| Recognition.PastTheEnd | public/script.js:84 | an event whose `resultIndex` is at or past the end yields the empty transcript |
| Recognition.EventTranscript | public/script.js:84-93 | specified by EventTranscriptCases, SegmentsEmpty and PastTheEnd: the event's final text, or its interim text when there is no final text |
| Recognition.LaterEventDropsEarlierFinal | public/script.js:84-93 | each event replaces the transcript: a later event whose `resultIndex` is past an earlier final result keeps only the newer text |
| Recognition.OneFinalResult | script.test.js:503-517 | one final result gives its transcript |
| Recognition.OneInterimResult | script.test.js:519-532 | one interim result gives its transcript |
| Highlight.StripMatchSpans | public/script.js:228-229 | the replacement only inserts markers: deleting them gives back the text |
| Highlight.MarkedAreMatches | public/script.js:228-229 | every marked piece equals the word up to case |
| Highlight.RenderLength | public/script.js:229 | each match adds exactly the 13 characters of `<mark></mark>`, and the text is unchanged when nothing is marked |
| Highlight.RenderShowsMark | public/script.js:229 | when anything is marked, the output contains `<mark>` |
| Highlight.MarksIffContains | public/script.js:228-229 | a non-empty word is marked at least once exactly when it matches the text case-insensitively |
| Highlight.MarkAllUnchangedIff | public/script.js:228-229 | the text comes back unchanged exactly when the word does not match it, and a match shows `<mark>` |
| Highlight.HighlightText | public/script.js:223-231 | the per-word loop yields the text with every required word highlighted in list order |
| Highlight.HighlightStep | public/script.js:227-230 | each step marks one word in the previous step's output and inserts nothing but markers |
| Highlight.HighlightedUntouched | public/script.js:223-231 | a text that matches none of the words is shown unchanged |
| Highlight.RenderTranscript | public/script.js:219-235 | the paragraph loop yields exactly the transcript paragraphs |
| Highlight.TranscriptShape | public/script.js:221-233 | a paragraph has the user class exactly for a User entry; LLM text is shown as is and User text highlighted |
| Highlight.UsedWordIsMarked | public/script.js:226-230 | for one text and a one-word list, a non-empty word that matches the text is marked in it |
| Highlight.MatchSpans | public/script.js:228-229 | specified by StripMatchSpans, MarkedAreMatches and MatchSpansGlobal: only markers are inserted, every marked piece is the word up to case, and matches are taken leftmost and without overlap, so no unmarked character starts a match of the rest of the text |
| Highlight.PlainSpansStartNoMatch | public/script.js:228 | from every character left plain, the remaining text does not start with the word |
| Highlight.MatchSpansGlobal | public/script.js:228 | the `g` flag: at the position of every character left plain the word does not match, so no match is skipped |
| Highlight.MarkAll | public/script.js:229 | specified by MarkAllUnchangedIff and RenderLength: the text is unchanged exactly when the word does not match, and each match adds 13 characters |
| Highlight.Highlighted | public/script.js:227-230 | specified by HighlightStep and HighlightedUntouched: each word's replace runs on the previous output, and a text matching no word is unchanged |
| Coverage.UsedWordsMembers | public/script.js:239-242 | a word is counted exactly when it is required and matches the user text case-insensitively |
| Coverage.UsedWordsBound | public/script.js:239-243 | the used words are never more than the required words, and all of them when each matches |
| Coverage.UsedWordsMonotone | public/script.js:239-242 | a text in which every word matching another text also matches uses at least as many words |
| Coverage.UsedWordsAppend | public/script.js:239-242 | filtering distributes over concatenation of the word list, so list order and duplicates are kept |
| Coverage.UsedWordsOne | public/script.js:239-242 | a single word is kept exactly when it matches the user text |
| Coverage.UsedWordsMultiplicity | public/script.js:239-242 | a matching word is kept as many times as it is listed, a word that does not match never |
| Coverage.UsedWords | public/script.js:239-242 | specified by UsedWordsAppend, UsedWordsOne and UsedWordsMultiplicity: the required words that match the user text, in list order, each as often as listed |
| Coverage.UsedCount | public/script.js:238-243 | specified by UsedWordsMultiplicity, UsedCountBound, UsedCountIgnoresLLM and UsedCountMonotone: the number of list entries that match the joined User text, at most the total, unaffected by LLM turns, never lowered by a User turn |
| Coverage.UsedCountBound | public/script.js:243 | the used count never exceeds the total |
| Coverage.UsedCountIgnoresLLM | public/script.js:238-242 | an LLM entry never changes the used count |
| Coverage.UsedCountMonotone | public/script.js:238-242 | a further User entry never lowers the used count |
| Coverage.ScenarioAllThree | script.test.js:747-758 | the turns "你好，谢谢" and "再见" use all three words |
| Coverage.ScenarioTwoOfThree | script.test.js:894-911 | after a greeting, "你好，老师！谢谢你。" uses two of the three words |
| Coverage.ScenarioOneOfThree | script.test.js:760-770 | a single "你好" uses one of the three words |
| Coverage.ScenarioRepeatedWord | public/script.js:239-243 | "你好" against the list 你好, 你好, 谢谢 uses two of three: the repeated word counts twice |
| ScoreReport.GenerateScoreReport | public/script.js:213-246 | the report holds the transcript paragraphs, the used count and the total, and the user text joined with spaces goes on to feedback |
| ScoreReport.ScoreOf | public/script.js:213-243 | specified by ReportFacts and TranscriptShape: one paragraph per entry, used at most total, monotone in User turns |
| ScoreReport.CountedButUnmarked | public/script.js:219-243 | a word spanning the space between two user turns is counted once, yet neither turn's paragraph marks it |
| ScoreReport.ReportFacts | public/script.js:219-243 | one paragraph per entry; used at most total; an LLM entry keeps the count and a User entry never lowers it; LLM text shown as is |
| Request.HistoryTurnsShape | public/script.js:277-284 | the history turns match the entries index by index, in order |
| Request.ContentsShape | public/script.js:265-293 | the greeting turn comes first; without a prompt it is alone; with one, entry i becomes turn i+1 with its text and role, and the prompt is the last `user` turn |
| Request.ContentsRepeatLastMessage | public/script.js:275-292 | after `endMessage` the message is sent twice, as the last two `user` turns |
| Request.BuildContents | public/script.js:265-293 | the push loop yields exactly the contents list |
| Request.SystemInstructionMentions | public/script.js:273 | the system instruction quotes the description and names every required word |
| Request.SettleOkIff | public/script.js:295-312 | only a failed fetch rejects with the fetch failure; the promise resolves with a text exactly when the reply's first candidate has content whose first part is that text |
| Request.ExtractText | public/script.js:312 | specified by ExtractTextFirst and SettleOkIff: the text of the first part of the first candidate, whatever follows |
| Request.Contents | public/script.js:265-293 | specified by ContentsShape: the greeting turn, the history turn by turn, then the prompt when there is one |
| Request.SystemInstruction | public/script.js:273 | specified by SystemInstructionMentions: the instruction quotes the description and names every word |
| Request.FeedbackPromptParts | public/script.js:251 | the feedback prompt is the fixed instructions followed by the user text, unchanged and in full |
| Request.FeedbackPrompt | public/script.js:251 | specified by FeedbackPromptParts: the instructions, then the user text |
| Request.BodyInstruction | public/script.js:273-307 | the posted system instruction names the call's description and every one of its words |
| Request.BodyShape | public/script.js:265-301 | the opening call sends only the greeting turn; any other call sends two more turns than the history has: the greeting first, turn i+1 carrying history entry i's text with the `user` role exactly for a User entry, and its prompt as the last `user` turn, the feedback prompt holding the user text in full |
| Request.Body | public/script.js:264-307 | specified by BodyInstruction and BodyShape: the contents and the system instruction built from the globals of the call |
| Request.ExtractTextFirst | public/script.js:312 | only the first part of the first candidate is read, whatever follows it |
| Request.SettleReply | script.test.js:839-843 | a reply with one candidate and one part resolves with its text |
| Request.SettleMissing | public/script.js:312 | no candidates, an empty list or a first candidate without content rejects |
| Voices.FindFirst | public/script.js:143-146 | the result is the first wanted voice, and none means no voice is wanted |
| Voices.ChooseVoice | public/script.js:142-150 | specified by ChooseVoiceSpec: the first preferred voice, else the first Chinese voice, else none |
| Voices.ChooseVoiceSpec | public/script.js:142-150 | no voice is set exactly when no voice is Chinese; otherwise the first preferred voice, or failing that the first Chinese one |
| Voices.PreferredWins | public/script.js:143-146 | a preferred voice wins over an earlier plain Chinese voice |
| Voices.FirstChineseFallback | public/script.js:146 | without a preferred voice the first Chinese voice is used, and a non-Chinese voice never is |
| TurnController.Session.constructor | public/script.js:2-9 | the globals start empty, with no recogniser and neither party speaking |
| TurnController.Session.GoToStartPage | public/script.js:20-40 | a submission is accepted exactly when both fields are non-blank; then the words are parsed and the description trimmed, otherwise both are unchanged |
| TurnController.Session.GoToConversationPage | public/script.js:43-62 | with audio and permission the recogniser is set up and the opening request sent; otherwise nothing changes |
| TurnController.Session.InitializeSpeechRecognition | public/script.js:65-78 | a recogniser exists afterwards exactly when one existed before or the browser offers one |
| TurnController.Session.OnResult | public/script.js:80-95 | the transcript is the event's transcript and the status shows it |
| TurnController.Session.OnError | public/script.js:98-101 | only the status changes, to the error text |
| TurnController.Session.StartConversation | public/script.js:105-109 | the history is emptied and the opening request sent; the flags are exclusive exactly when the user is not speaking |
| TurnController.Session.CallLLMAPI | public/script.js:264-293 | one request is recorded, built from the current history, description and words |
| TurnController.Session.LLMSpeak | public/script.js:112-118 | the chatbot is marked as speaking, the status says so, and one request is sent |
| TurnController.Session.OnLLMResponse | public/script.js:118-130 | a reply is appended as exactly one LLM entry and spoken; a failure appends nothing, clears the flag and shows the error; exclusivity is kept |
| TurnController.Session.SpeakText | public/script.js:134-158 | exactly one utterance is spoken, with the chosen voice, which is Chinese |
| TurnController.Session.OnSpeechEnd | public/script.js:152-156 | the chatbot's flag is cleared, listening starts if it can, and the flags end exclusive |
| TurnController.Session.StartListening | public/script.js:162-169 | with a recogniser and the user not speaking, listening starts with an empty transcript; otherwise nothing changes |
| TurnController.Session.EndMessage | public/script.js:173-188 | only while the user speaks: a non-blank transcript becomes one User entry and is sent; a blank one shows the no-speech status; exclusivity is kept |
| TurnController.Session.EndConversation | public/script.js:191-199 | the report is the score of the history, and the user texts are sent for feedback |
| TurnController.Session.OnFeedbackResponse | public/script.js:253-260 | the feedback box shows the reply text, or the fixed apology on failure |
| StubAgent.StubReplyChoice | index.js:262-272 | the reply ignores the prompt, `isFeedback` takes precedence, and each reply tells which flag chose it |
| StubAgent.StubReply | index.js:262-272 | specified by StubReplyChoice: the reply depends on the two flags only, feedback first |
| StubAgent.StartPromptMentions | index.js:99 | the opening prompt quotes the description and names every required word |
| StubAgent.PromptStringParts | index.js:224 | a reply prompt is the message itself; the feedback prompt is the fixed instructions followed by the user text in full |
| StubAgent.PromptString | index.js:99 | specified by StartPromptMentions and PromptStringParts: the opening template, the message, or the feedback template |
| StubController.ErrorStatusUnknown | index.js:117-122 | the chatbot error status is none of the statuses the stub session can show |
| StubController.StubSession.constructor | index.js:2-9 | the globals start empty, with no recogniser and no pending call |
| StubController.StubSession.GoToStartPage | index.js:19-36 | the description is stored trimmed either way; the words are parsed exactly when both fields are non-blank |
| StubController.StubSession.GoToConversationPage | index.js:39-56 | with audio and permission the opening call is queued; otherwise nothing changes |
| StubController.StubSession.OnResult | index.js:71-86 | the transcript is the event's transcript and the status shows it |
| StubController.StubSession.OnError | index.js:88-91 | only the status changes, to the error text |
| StubController.StubSession.StartConversation | index.js:95-102 | the history is emptied and the opening prompt queued as the first message |
| StubController.StubSession.LLMSpeak | index.js:104-110 | the chatbot is marked as speaking and one call is queued |
| StubController.StubSession.OnTimer | index.js:262-272 | the oldest call is answered: feedback fills the feedback box, any other reply is appended as one LLM entry and spoken; the error status never appears |
| StubController.StubSession.OnSpeechEnd | index.js:130-134 | the chatbot's flag is cleared and listening starts if it can |
| StubController.StubSession.StartListening | index.js:139-146 | with a recogniser and the user not speaking, listening starts with an empty transcript |
| StubController.StubSession.EndMessage | index.js:148-163 | a non-blank transcript becomes one User entry and is queued as a later message; a blank one shows the no-speech status |
| StubController.StubSession.EndConversation | index.js:165-173 | the report is the score of the history, and a feedback call over the user texts is queued |
| Workflow.Begin | script.test.js:876-889 | after the landing page and the conversation page, the words are parsed, the description trimmed, and the opening request is the only one |
| Workflow.Greeted | public/script.js:118-156 | the greeting is appended and spoken, and listening starts |
| Workflow.Answered | public/script.js:173-182 | the user's line is appended as one User entry and sent |
| Workflow.Ended | public/script.js:191-246 | after one exchange, the feedback request carries the user's line alone |
| Workflow.CompleteWorkflow | script.test.js:875-915 | after one exchange the history holds the greeting and the line, the report scores it, and exactly three requests were sent |
| Workflow.WordsInputParses | script.test.js:877-883 | the words field of the end-to-end test parses to the three greetings |
| Workflow.TeacherWorkflowScore | script.test.js:906-911 | the end-to-end report says two out of three over two paragraphs |

## Left out

- The page and the DOM: `showPage`, the icons, the labels, `alert`, and the HTML text of the
  report. The report is modelled as its paragraphs and counts. The sentence "You used N out of M …"
  is not built as text.
- `getUserMedia` is two booleans (audio support and permission). Its promise is not modelled.
- `fetch`, JSON encoding and decoding, the proxy URL and the model name. A request is its `Call`
  record and `Body`. A reply is a `Delivery`: either a parsed body or a failed fetch or parse.
- `console.log` and `console.error`, `printReport` and `window.onload`.
- The stub's one-second delay. Its timers all have the same delay, so they fire in call order, as
  a queue.
- The utterance's rate, pitch, volume and `lang`, and the recogniser's `lang`, `continuous` and
  `interimResults`. `recognition.start`, `recognition.stop` and `synthesis.cancel` have no effect
  on the modelled state.
- Speech synthesis and speech recognition themselves. Their events are the inputs of
  `OnSpeechEnd`, `OnResult` and `OnError`.
- Text.Fold: only ASCII letters are folded. JavaScript's case-insensitive matching also folds
  other scripts; Chinese characters have no case.
- Highlight.MatchSpans: a required word is matched as literal text. The source builds a
  `RegExp` from it, so a word holding a regular-expression metacharacter would behave differently.
  (An empty word, which the parsed list never holds, is matched before every character and at
  the end, as an empty regular expression is.)
- Strings are sequences of characters, not of UTF-16 code units.
- Request.ExtractText: a part always has a text. The source resolves with `undefined` when the
  first part has no `text` field.
- index.js `speakText` sets no voice, so `StubController.StubSession` records only the spoken
  texts.
- TurnController.Session.OnLLMResponse and TurnController.Session.OnFeedbackResponse are not
  tied to a recorded request in `calls`: the model lets a reply arrive that was never requested,
  or twice. Every property stated about them holds for any such order.
- StubController.StubSession.OnTimer: the `.catch` branch of `llmSpeak` in index.js runs only
  if the `.then` handler throws, because the stub itself never rejects. Speech synthesis, where
  such a throw could come from, is not part of this model, so the model has no failure event. No
  modelled method sets the chatbot error status, and `ErrorStatusUnknown` states that it differs
  from every status the stub session shows.

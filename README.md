# chainsocket agents in Dafny

This project models the sequential logic of three chainsocket plugins and proves properties of it.

- **The self-ask agent** (`plugins/self-ask`). It answers a question by letting a language model
  reason step by step. Whenever the model's last line is a `Follow up:` question, the agent asks
  the `google_search` tool, feeds the tool's answer back to the model and loops. Once the model
  stops asking, the agent forces a conclusion if needed and returns the text after the last colon
  of the final line.
- **The conversation agent** (`plugins/conversation-agent`). It keeps a transcript in the host
  variable `memory`. Each turn reads the transcript, asks the model with the transcript in the
  system prompt, appends the exchange and writes the transcript back.
- **The search tool's answer selection** (`plugins/google-search`). From the parsed search
  response it picks the answer-box answer, else the answer-box snippet, else the first
  highlighted word, else the first organic result's snippet. A missing answer makes the final
  `unwrap` panic.

Layout:

- `wrappers.dfy`: `Option` and `Result`.
- `strings.dfy`: substring containment. It also holds Rust's `split(c)` with its last piece, and
  the round trip `Join(Split(s, c), c) == s`.
- `self_ask_text.dfy`: `get_last_line`, `extract_answer` and `extract_question`, with their
  properties.
- `self_ask.dfy`: the controller `call`, written two ways:
  - a functional run (`Start`, `Iterate`, `Conclude`, `Loop`, `Run`);
  - the imperative method `Call`. Its `while` loop updates the request record in place, one
    `Pass` per iteration. `Call` is proved to perform exactly `Run`.

  Lemmas about `Run` state what every run does.
- `conversation_agent.dfy`: the `Agent` class. Its `memory` field is the host variable, and its
  `Turn` method is proved to perform `TurnSpec`. Lemmas cover one turn and many turns.
- `google_search.dfy`: a JSON datatype and the selection chain as written. A reference definition
  states the selection as a priority list of paths. Lemmas relate the two.

The language model and the tool are oracles:
- Each is a finite script of replies. The k-th request receives the k-th reply, which is either
  an output or an error.
- The host's answers during a conversation turn are given as a `Host` value. It holds three
  things: whether the read fails, the model's reply, and whether the write fails.

## Model

| member | source | states |
|---|---|---|
| Strings.SplitLast | plugins/self-ask/src/lib.rs:140 | The last piece of `split(c)` is the suffix after the last `c`, or the whole string if there is none, and it holds no `c` |
| Strings.JoinSplit | plugins/self-ask/src/lib.rs:140 | Joining the pieces of `split(c)` with `c` gives back the string |
| Strings.SplitPiecesFree | plugins/self-ask/src/lib.rs:140 | No piece of `split(c)` contains `c` |
| Strings.SplitWithoutSeparator | plugins/self-ask/src/lib.rs:137-141 | A string without `c` splits into itself alone |
| Strings.LastPieceOfAppend | plugins/self-ask/src/lib.rs:140 | The last piece of `a + c + b`, with `b` free of `c`, is `b` |
| SelfAskText.LastLineIsFinalLine | plugins/self-ask/src/lib.rs:184-190 | Text without `'\n'` is returned unchanged. Otherwise the result is what follows the last line break once one final `'\n'` is dropped. The result never holds `'\n'` |
| SelfAskText.LastLineOfAppend | plugins/self-ask/src/lib.rs:184-190 | The last line of `before + "\n" + line`, for a non-empty line without a break, is `line` |
| SelfAskText.LastLineIgnoresFinalNewline | plugins/self-ask/src/lib.rs:184-190 | A single trailing line break is ignored: `"a\nb\n"` gives `"b"` |
| SelfAskText.LastLineIsPiece | plugins/self-ask/src/lib.rs:184-190 | The last line is a contiguous piece of the text |
| SelfAskText.AfterLastColonIsSuffix | plugins/self-ask/src/lib.rs:137-141 | The text after the last colon is a colon-free suffix of the line. The whole line is kept when it has no colon |
| SelfAskText.StripLeadingSpaceIsPiece | plugins/self-ask/src/lib.rs:143-147 | Dropping one leading space keeps a piece of the text and adds no character |
| SelfAskText.TrimmedIsCleanPiece | plugins/self-ask/src/lib.rs:130-147 | The shared trimming yields a piece of the input with no `':'` and no `'\n'` |
| SelfAskText.TrimmedOfLastLine | plugins/self-ask/src/lib.rs:130-135 | Only the last line matters: text ending in a line break and a non-empty line trims like that line |
| SelfAskText.TrimmedOfLine | plugins/self-ask/src/lib.rs:137-147 | On one line, everything up to the last colon is dropped, then one leading space |
| SelfAskText.ExtractAnswerIsCleanPiece | plugins/self-ask/src/lib.rs:130-156 | The answer has no `':'` and no `'\n'` and is a contiguous piece of the input |
| SelfAskText.ExtractAnswerKeepsCleanText | plugins/self-ask/src/lib.rs:130-156 | Identity on text with no `':'` or `'\n'`, no leading space and no final `'.'` |
| SelfAskText.ExtractAnswerOfFinalLine | plugins/self-ask/src/lib.rs:130-156 | `"So the final answer is: Paris."` gives `"Paris"` |
| SelfAskText.ExtractQuestionSucceedsExactly | plugins/self-ask/src/lib.rs:158-182 | Fails exactly when the last line lacks `"Follow up:"` or the trimmed text does not end in `'?'`, and the failure carries the text. On success the question ends in `'?'`, holds no `':'` or `'\n'`, and is a piece of the text |
| SelfAskText.ExtractQuestionOfLine | plugins/self-ask/src/lib.rs:158-182 | A follow-up line yields what follows its last colon, minus one leading space |
| SelfAskText.ExtractQuestionOfFollowUp | plugins/self-ask/src/lib.rs:158-182 | `"Follow up: How old was X?"` gives `"How old was X?"` |
| SelfAskText.ExtractQuestionRejectsPlainLine | plugins/self-ask/src/lib.rs:165 | Any text whose last line lacks `"Follow up:"` makes `extract_question` fail, and the failure carries the text |
| SelfAskText.QuestionIsAlsoAnswer | plugins/self-ask/src/lib.rs:130-182 | Whenever `extract_question` succeeds, `extract_answer` returns the same string |
| SelfAsk.Call | plugins/self-ask/src/lib.rs:58-128 | The imperative controller performs exactly the run `Run`: the same outcome, the same model requests and the same tool requests, in order |
| SelfAsk.Pass | plugins/self-ask/src/lib.rs:87-114 | One pass of the `while` body, updating the request in place, performs `Iterate` |
| SelfAsk.IterateConsumesOneReply | plugins/self-ask/src/lib.rs:96-113 | Every pass that continues the loop consumes exactly one model reply |
| SelfAsk.RunStartsWithInitialRequest | plugins/self-ask/src/lib.rs:67-81 | The first model request has the configured model name, the few-shot template as system prompt, the framed question as input and stop `["\nIntermediate answer:"]` |
| SelfAsk.FollowUpRound | plugins/self-ask/src/lib.rs:87-113 | A pass appends `ret_text` to the system prompt and asks `"google_search"` the extracted question. On a tool answer, the input becomes `"\nIntermediate answer: " + ans + "."`, stop becomes `["\nIntermediate answer:"]`, and the reply replaces `ret_text`. On a tool failure, the system prompt gets the marker and the rendered reply, stop becomes `["\nFollow up:", "So the final answer is:"]`, and `ret_text` and the input prompt are kept. A malformed question stops the run |
| SelfAsk.IterateExtendsLogs | plugins/self-ask/src/lib.rs:87-114 | A pass only adds requests to the logs |
| SelfAsk.LoopExtendsLogs | plugins/self-ask/src/lib.rs:87-124 | The rest of a run only adds requests to the logs |
| SelfAsk.IteratePromptsGrow | plugins/self-ask/src/lib.rs:89-112 | A pass only appends to the system prompt, so each request's prompt extends the previous one's |
| SelfAsk.ConcludePromptsGrow | plugins/self-ask/src/lib.rs:116-124 | The forced conclusion only appends to the system prompt |
| SelfAsk.LoopPromptsGrow | plugins/self-ask/src/lib.rs:87-124 | From any point of the loop on, every sent system prompt is a prefix of every later one |
| SelfAsk.RunPromptsGrow | plugins/self-ask/src/lib.rs:84-118 | In a whole run, every sent system prompt, and the template itself, is a prefix of every later one |
| SelfAsk.IterateAsksWellFormedQuestion | plugins/self-ask/src/lib.rs:89-93 | A pass only sends the tool `"google_search"` requests carrying a well-formed question |
| SelfAsk.LoopAsksWellFormedQuestions | plugins/self-ask/src/lib.rs:87-114 | The same holds for every pass from a given point on |
| SelfAsk.RunAsksWellFormedQuestions | plugins/self-ask/src/lib.rs:45-49 | Every tool request of a run names `"google_search"` and carries a one-line question ending in `'?'` with no colon |
| SelfAsk.IterateFitsReplies | plugins/self-ask/src/lib.rs:96-113 | A pass either keeps every reply so far a success, or stops with an outcome that fits the replies |
| SelfAsk.ConcludeFitsReplies | plugins/self-ask/src/lib.rs:116-127 | Leaving the loop gives an outcome that fits the replies |
| SelfAsk.LoopFitsReplies | plugins/self-ask/src/lib.rs:87-127 | The outcome from any point of the loop fits the replies |
| SelfAsk.RunFitsReplies | plugins/self-ask/src/lib.rs:81-127 | A run fails with a model error exactly when the last model call failed with that error, and every earlier call succeeded. An answer is `extract_answer` of the latest reply and holds no `':'` or `'\n'`. A tool failure is never an outcome |
| SelfAsk.ConclusionForced | plugins/self-ask/src/lib.rs:116-127 | After the loop, a `ret_text` holding `"So the final answer is:"` is answered at once with no further call. Otherwise exactly one more model request is sent: the current request with that marker appended to its system prompt and stop `["\n"]`. No tool is asked, and the answer is `extract_answer` of that call's reply, or the call's error |
| SelfAsk.IterateNeverForces | plugins/self-ask/src/lib.rs:87-114 | A loop pass never sends a request with stop `["\n"]` and never ends in an answer |
| SelfAsk.ConcludeFitsConclusion | plugins/self-ask/src/lib.rs:116-127 | Leaving the loop: a forced request follows an inconclusive reply and ends in the final-answer marker. An unforced answer comes from a reply holding that marker |
| SelfAsk.LoopFitsConclusion | plugins/self-ask/src/lib.rs:87-127 | The same holds for the rest of a run from any loop head |
| SelfAsk.RunFitsConclusion | plugins/self-ask/src/lib.rs:116-127 | In every run, a request with stop `["\n"]` can only be the last one. It is sent only after a reply that neither ends in a follow-up question nor holds the final-answer marker, and its system prompt ends in that marker. An answer reached without it comes from a reply that holds the marker and asks nothing |
| SelfAsk.LoopSpinsOnToolFailure | plugins/self-ask/src/lib.rs:104-113 | While the tool keeps failing, the loop never leaves its follow-up state |
| SelfAsk.RunNeverAnswersWhileToolFails | plugins/self-ask/src/lib.rs:87-113 | Once the first reply asks a well-formed follow-up, a tool that always fails means no answer for any script length: there is no iteration cap |
| SelfAsk.OneFollowUpRun | plugins/self-ask/src/lib.rs:58-128 | A run with one follow-up that the tool answers, then a concluding reply, gives two model requests (exactly as listed), one tool request with the question, and `extract_answer` of the last reply |
| SelfAsk.ForcedConclusionRun | plugins/self-ask/src/lib.rs:58-128 | A first reply that neither asks nor concludes forces one more call. That call keeps the input prompt, appends the final-answer marker to the system prompt and stops at `"\n"`. No tool is asked, and the answer comes from that call's reply |
| SelfAsk.ToolFailureRun | plugins/self-ask/src/lib.rs:104-113 | After a tool failure the model is asked again with the failure stops and the marker appended. The same question goes to the tool again |
| SelfAsk.FirstReplyAsksQuestion | plugins/self-ask/src/lib.rs:158-182 | Example: the reply `"Are follow up questions needed here: Yes.\nFollow up: How old was Ali?"` asks `"How old was Ali?"` |
| SelfAsk.FinalReplyConcludes | plugins/self-ask/src/lib.rs:116-156 | Example: the reply `"So the final answer is: Muhammad Ali"` holds the final-answer marker, asks nothing and yields `"Muhammad Ali"` |
| SelfAsk.WorkedExample | plugins/self-ask/src/lib.rs:58-128 | The worked example answers `"Muhammad Ali"` |
| ConversationAgent.Agent.constructor | plugins/conversation-agent/src/lib.rs:48-49 | The agent holds the configured prompt, the model name and the host's memory |
| ConversationAgent.Agent.Turn | plugins/conversation-agent/src/lib.rs:46-86 | The turn method, which builds the transcript piece by piece, performs `TurnSpec`: the same result, the same request and the same new memory |
| ConversationAgent.HistorySeed | plugins/conversation-agent/src/lib.rs:58-61 | An absent or unreadable `memory` gives the fixed preamble. Stored non-UTF-8 bytes are an error. Stored text is the history |
| ConversationAgent.TurnRequest | plugins/conversation-agent/src/lib.rs:63-70 | The request is sent exactly when the history is readable. It has the configured model name, system prompt `prompt + " " + history + "."`, the input unchanged and no stop sequences |
| ConversationAgent.TurnRecords | plugins/conversation-agent/src/lib.rs:74-85 | A turn succeeds exactly when the history is readable, the model answers and the write succeeds. It then returns the output unchanged and stores `history + "Human: " + input + "\n" + "Assistant: " + output`, of which the history is a prefix. Otherwise memory is unchanged |
| ConversationAgent.TurnErrors | plugins/conversation-agent/src/lib.rs:58-83 | Each failure reports its own error: bad UTF-8 with nothing sent, the model's error, or the store error |
| ConversationAgent.ExchangeRecovers | plugins/conversation-agent/src/lib.rs:77-82 | The stored transcript can be taken apart again: the history is its prefix, and the output follows the fixed 19-character framing and the input |
| ConversationAgent.HelloRoundTrip | plugins/conversation-agent/src/lib.rs:58-85 | From empty memory, input `"hello"` and reply `"hi there"` return `"hi there"` and store the preamble followed by `"Human: hello\nAssistant: hi there"` |
| ConversationAgent.SuccessfulTurn | plugins/conversation-agent/src/lib.rs:77-83 | A successful turn on stored text appends one exchange to it |
| ConversationAgent.ReplayAppends | plugins/conversation-agent/src/lib.rs:58-83 | Memory is append-only: successful turns from stored text leave that text followed by every exchange in order |
| ConversationAgent.EmptyActsAsSeed | plugins/conversation-agent/src/lib.rs:58-61 | Starting from empty memory is the same as starting from the preamble |
| ConversationAgent.ReplayFromEmpty | plugins/conversation-agent/src/lib.rs:58-83 | From empty memory, a conversation is stored as the preamble followed by its exchanges |
| ConversationAgent.TwoTurnsFromEmpty | plugins/conversation-agent/src/lib.rs:77-83 | Two turns store the preamble, then `"Human: a\nAssistant: b"`, then `"Human: c\nAssistant: d"`, with no separator after an assistant output |
| GoogleSearch.Get | plugins/google-search/src/lib.rs:62 | `get(key)` finds something exactly on an object that has the key |
| GoogleSearch.GetAt | plugins/google-search/src/lib.rs:68 | `get(i)` finds something exactly on an array longer than `i` |
| GoogleSearch.AsStr | plugins/google-search/src/lib.rs:63 | `as_str` yields text exactly for a string |
| GoogleSearch.Search | plugins/google-search/src/lib.rs:60-82 | `call` returns an answer exactly when the selection yields one, and then returns that text. Otherwise the `unwrap` panics |
| GoogleSearch.SelectionFollowsPriority | plugins/google-search/src/lib.rs:60-80 | The chain as written is the priority list: answer, snippet, first highlighted word, first organic snippet. The first present source decides, read with `as_str` |
| GoogleSearch.FirstPresentDecides | plugins/google-search/src/lib.rs:60-80 | The priority list yields an answer exactly when some source is present as a string and every earlier source is absent. The answer is that string |
| GoogleSearch.AnswerDecides | plugins/google-search/src/lib.rs:62-63 | A present `answer_box.answer` alone decides the result |
| GoogleSearch.SnippetThenHighlight | plugins/google-search/src/lib.rs:64-71 | Without an answer, the snippet decides. Without that too, the first highlighted word decides |
| GoogleSearch.OrganicOnlyAsLastResort | plugins/google-search/src/lib.rs:72-77 | When any answer-box source is present, removing the organic results changes nothing |
| GoogleSearch.OrganicFallback | plugins/google-search/src/lib.rs:72-80 | With no answer-box source, the first organic result's snippet decides. Missing results, an empty list or a missing snippet give nothing |
| GoogleSearch.NonStringBlocks | plugins/google-search/src/lib.rs:62-82 | A present `answer_box.answer` that is not a string is not skipped: whatever the later sources hold, the selection fails and `unwrap` panics |
| GoogleSearch.EmptyOrganicPanics | plugins/google-search/src/lib.rs:72-82 | With no answer-box source present and an empty `organic_results` array, there is no answer and `unwrap` panics |
| GoogleSearch.OrganicSnippetAnswers | plugins/google-search/src/lib.rs:72-82 | Example: `{"organic_results": [{"snippet": "74"}]}` answers `"74"` |

## Left out

- **Host calls.** The LLM and tool host calls, `config::get` (and its panics on missing keys),
  `var::get`/`set_var!` and the `info!` logging are not modelled as code. The model and tool
  replies are finite scripts; configuration values are parameters; host memory is a field.
- **The `name` configuration key.** It is used only in log lines.
- **Script exhaustion.** The source loops with no iteration cap. `ScriptExhausted` is the model's
  outcome for a run that asks for more replies than its script holds. It makes `Run` terminate
  and is not a bound the program has.
- **Rendering of the reply.** The exact text of the `{:#?}` rendering appended on a tool failure
  (plugins/self-ask/src/lib.rs:112) is an opaque function `render` of the reply.
- **The few-shot template.** The text of `get_prompt` is a parameter `template`.
- **`lines()` and carriage returns.** Rust's `lines()` also strips a `'\r'` before each line
  break; the model splits on `'\n'` only.
- **`extract_question` panics.** The panic becomes an error result that carries the generated
  text, and the run then ends with `MalformedReasoning`.
- **Memory bytes.** Stored bytes are either valid UTF-8 text or not, and the decoder is not
  modelled. A failing read of `memory` is a flag.
- **Parsing in google-search.** The HTTP request, UTF-8 decoding and serde parsing
  (plugins/google-search/src/lib.rs:35-58) are left out. The selection starts from a parsed
  value.
- **JSON numbers.** Numbers are integers; floating point is left out, since only strings matter
  to the selection.
- **Outside the core.** plugins/openai/src/lib.rs, an HTTP wrapper, and chainsocket.py, the
  host, are not part of this model.
- **The transcript separator.** plugins/conversation-agent/src/lib.rs:77-83 writes no separator
  after the assistant's output, so consecutive exchanges run together (`TwoTurnsFromEmpty`).

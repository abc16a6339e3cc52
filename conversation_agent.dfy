/** The conversation agent (plugins/conversation-agent/src/lib.rs): one turn
    reads the persisted `memory` transcript, asks the model with the transcript
    folded into the system prompt, appends the exchange to the transcript and
    writes it back. */
module ConversationAgent {
  import opened Wrappers

  /** The history used when no transcript is stored yet (or it cannot be read). */
  const DefaultHistory: string := "\nHere is the history of the chat with the human you are assisting\n"

  /** What the host holds under `memory`: bytes that decode as UTF-8 text, or bytes that do not. */
  datatype Stored = Text(text: string) | Invalid(bytes: seq<bv8>)

  /** The request handed to the model plugin. */
  datatype LlmReq = LlmReq(name: string, systemprompt: string, inputprompt: string, stop: seq<string>)

  /** What the host answers during one turn: whether reading `memory` fails,
      the model's reply (its output or an error message), and whether writing
      `memory` back fails. */
  datatype Host = Host(readFails: bool, reply: Result<string, string>, writeFails: bool)

  datatype TurnError = InvalidUtf8 | LlmFailed(message: string) | StoreFailed

  /** Everything one turn produces: the caller's result, the model request sent (if any), and the new memory. */
  datatype TurnOutcome = TurnOutcome(result: Result<string, TurnError>, sent: Option<LlmReq>, memory: Option<Stored>)

  /** The history read from memory: the stored text when it is there and
      decodes, an error when it is there and does not, the default otherwise. */
  function ReadHistory(memory: Option<Stored>, readFails: bool): Result<string, TurnError>
  {
    if readFails then Ok(DefaultHistory)
    else match memory
      case Some(Text(text)) => Ok(text)
      case Some(Invalid(_)) => Err(InvalidUtf8)
      case None => Ok(DefaultHistory)
  }

  function SystemPrompt(prompt: string, history: string): string
  {
    prompt + " " + history + "."
  }

  /** One human/assistant exchange as the transcript records it; nothing follows the output. */
  function Exchange(input: string, output: string): string
  {
    "Human: " + input + "\n" + "Assistant: " + output
  }

  /** The transcript built piece by piece is the history followed by the exchange. */
  lemma ExchangeAppended(history: string, input: string, output: string)
    ensures history + "Human: " + input + "\n" + "Assistant: " + output == history + Exchange(input, output)
  {
  }

  /** One turn of `call`, as a function of the memory before it. */
  function TurnSpec(prompt: string, llmName: string, memory: Option<Stored>, input: string, host: Host): TurnOutcome
  {
    match ReadHistory(memory, host.readFails)
    case Err(e) => TurnOutcome(Err(e), None, memory)
    case Ok(history) =>
      var req := LlmReq(llmName, SystemPrompt(prompt, history), input, []);
      match host.reply
      case Err(message) => TurnOutcome(Err(LlmFailed(message)), Some(req), memory)
      case Ok(output) =>
        if host.writeFails then TurnOutcome(Err(StoreFailed), Some(req), memory)
        else TurnOutcome(Ok(output), Some(req), Some(Text(history + Exchange(input, output))))
  }

  /** The agent plugin with its configuration and the host's `memory` variable. */
  class Agent {
    const prompt: string
    const llmName: string
    var memory: Option<Stored>

    constructor(prompt: string, llmName: string, memory: Option<Stored>)
      ensures this.prompt == prompt && this.llmName == llmName && this.memory == memory
    {
      this.prompt := prompt;
      this.llmName := llmName;
      this.memory := memory;
    }

    /** `call`: read the history, ask the model, append the exchange to the
        transcript piece by piece and store it; the turn it performs is `TurnSpec`. */
    method Turn(input: string, host: Host) returns (result: Result<string, TurnError>, sent: Option<LlmReq>)
      modifies this
      ensures TurnSpec(prompt, llmName, old(memory), input, host) == TurnOutcome(result, sent, memory)
    {
      var history: string;
      if !host.readFails && memory.Some? && memory.value.Text? {
        history := memory.value.text;
      } else if !host.readFails && memory.Some? {
        return Err(InvalidUtf8), None;
      } else {
        history := DefaultHistory;
      }
      var req := LlmReq(llmName, prompt + " " + history + ".", input, []);
      sent := Some(req);
      if host.reply.Err? {
        return Err(LlmFailed(host.reply.error)), sent;
      }
      var output := host.reply.value;
      var transcript := history;
      transcript := transcript + "Human: ";
      transcript := transcript + input;
      transcript := transcript + "\n";
      transcript := transcript + "Assistant: ";
      transcript := transcript + output;
      if host.writeFails {
        return Err(StoreFailed), sent;
      }
      ExchangeAppended(history, input, output);
      memory := Some(Text(transcript));
      result := Ok(output);
    }
  }

  // ---------------------------------------------------------------------------
  // Properties of one turn

  /** With nothing stored, or when the read fails, the history is the default
      seed; stored bytes that are not UTF-8 are an error, not a default. */
  lemma HistorySeed(memory: Option<Stored>, readFails: bool)
    ensures ReadHistory(memory, readFails).Ok? <==> readFails || !(memory.Some? && memory.value.Invalid?)
    ensures (readFails || memory.None?) ==> ReadHistory(memory, readFails) == Ok(DefaultHistory)
    ensures !readFails && memory.Some? && memory.value.Text? ==> ReadHistory(memory, readFails) == Ok(memory.value.text)
  {
  }

  /** The model request carries the configured prompt and the history as
      `prompt + " " + history + "."`, the caller's input unchanged, no stop
      sequences and the configured model name; it is sent exactly when the
      history could be read. */
  lemma TurnRequest(prompt: string, llmName: string, memory: Option<Stored>, input: string, host: Host)
    ensures var out := TurnSpec(prompt, llmName, memory, input, host);
      && (out.sent.Some? <==> ReadHistory(memory, host.readFails).Ok?)
      && (out.sent.Some? ==>
            var history := ReadHistory(memory, host.readFails).value;
            && out.sent.value.name == llmName
            && out.sent.value.systemprompt == prompt + " " + history + "."
            && out.sent.value.inputprompt == input
            && out.sent.value.stop == [])
  {
  }

  /** A turn succeeds exactly when the history is readable, the model answers
      and the write succeeds; it then returns the model's output unchanged and
      stores the old history followed by the exchange. Otherwise memory is left
      as it was. */
  lemma TurnRecords(prompt: string, llmName: string, memory: Option<Stored>, input: string, host: Host)
    ensures var out := TurnSpec(prompt, llmName, memory, input, host);
      && (out.result.Ok? <==> ReadHistory(memory, host.readFails).Ok? && host.reply.Ok? && !host.writeFails)
      && (out.result.Ok? ==>
            var history := ReadHistory(memory, host.readFails).value;
            && out.result.value == host.reply.value
            && out.memory == Some(Text(history + "Human: " + input + "\n" + "Assistant: " + host.reply.value))
            && history <= out.memory.value.text)
      && (out.result.Err? ==> out.memory == memory)
  {
    var out := TurnSpec(prompt, llmName, memory, input, host);
    if out.result.Ok? {
      var history := ReadHistory(memory, host.readFails).value;
      ExchangeAppended(history, input, host.reply.value);
      assert out.memory.value.text[..|history|] == history;
    }
  }

  /** The three error cases, each with the error it reports. */
  lemma TurnErrors(prompt: string, llmName: string, memory: Option<Stored>, input: string, host: Host)
    ensures var out := TurnSpec(prompt, llmName, memory, input, host);
      && (ReadHistory(memory, host.readFails).Err? ==> out.result == Err(InvalidUtf8) && out.sent.None?)
      && (ReadHistory(memory, host.readFails).Ok? && host.reply.Err? ==>
            out.result == Err(LlmFailed(host.reply.error)))
      && (ReadHistory(memory, host.readFails).Ok? && host.reply.Ok? && host.writeFails ==>
            out.result == Err(StoreFailed))
  {
  }

  /** The transcript can be taken apart again: the history is its prefix and
      the output its suffix after the fixed-length human/assistant framing. */
  lemma ExchangeRecovers(history: string, input: string, output: string)
    ensures var t := history + Exchange(input, output);
      && t[..|history|] == history
      && t[|history| + |input| + 19..] == output
      && |t| == |history| + |input| + |output| + 19
  {
    var t := history + Exchange(input, output);
    assert |"Human: "| == 7 && |"Assistant: "| == 11;
    assert t == history + "Human: " + input + "\n" + "Assistant: " + output;
    assert t[|history| + |input| + 19..] == output;
  }

  /** From empty memory, one turn with input "hello" and model reply "hi there"
      returns "hi there" and stores the seed followed by the exchange. */
  lemma HelloRoundTrip(prompt: string, llmName: string)
    ensures var out := TurnSpec(prompt, llmName, None, "hello", Host(false, Ok("hi there"), false));
      && out.result == Ok("hi there")
      && out.memory == Some(Text(DefaultHistory + "Human: hello\nAssistant: hi there"))
  {
    assert Exchange("hello", "hi there") == "Human: hello\nAssistant: hi there";
  }

  // ---------------------------------------------------------------------------
  // Many turns

  /** The memory after successive turns whose hosts all succeed. */
  function Replay(prompt: string, llmName: string, memory: Option<Stored>, turns: seq<(string, string)>): Option<Stored>
  {
    if turns == [] then memory
    else
      var before := Replay(prompt, llmName, memory, turns[..|turns| - 1]);
      var last := turns[|turns| - 1];
      TurnSpec(prompt, llmName, before, last.0, Host(false, Ok(last.1), false)).memory
  }

  /** The exchanges of a conversation, back to back with nothing between them. */
  function Exchanges(turns: seq<(string, string)>): string
  {
    if turns == [] then ""
    else Exchanges(turns[..|turns| - 1]) + Exchange(turns[|turns| - 1].0, turns[|turns| - 1].1)
  }

  /** A successful turn on a stored text appends one exchange to it. */
  lemma SuccessfulTurn(prompt: string, llmName: string, history: string, input: string, output: string)
    ensures TurnSpec(prompt, llmName, Some(Text(history)), input, Host(false, Ok(output), false)).memory ==
            Some(Text(history + Exchange(input, output)))
  {
  }

  /** Memory is append-only: successful turns starting from a stored text
      leave that text followed by every exchange in order. */
  lemma {:induction false} ReplayAppends(prompt: string, llmName: string, start: string, turns: seq<(string, string)>)
    ensures Replay(prompt, llmName, Some(Text(start)), turns) == Some(Text(start + Exchanges(turns)))
  {
    if turns == [] {
      assert start + "" == start;
    } else {
      var init := turns[..|turns| - 1];
      var last := turns[|turns| - 1];
      var before := Replay(prompt, llmName, Some(Text(start)), init);
      assert Replay(prompt, llmName, Some(Text(start)), turns) ==
             TurnSpec(prompt, llmName, before, last.0, Host(false, Ok(last.1), false)).memory;
      ReplayAppends(prompt, llmName, start, init);
      SuccessfulTurn(prompt, llmName, start + Exchanges(init), last.0, last.1);
      assert Exchanges(turns) == Exchanges(init) + Exchange(last.0, last.1);
      assert start + Exchanges(init) + Exchange(last.0, last.1) == start + Exchanges(turns);
    }
  }

  /** Starting from empty memory is starting from the default seed. */
  lemma {:induction false} EmptyActsAsSeed(prompt: string, llmName: string, turns: seq<(string, string)>)
    requires turns != []
    ensures Replay(prompt, llmName, None, turns) == Replay(prompt, llmName, Some(Text(DefaultHistory)), turns)
  {
    var init := turns[..|turns| - 1];
    if init != [] {
      EmptyActsAsSeed(prompt, llmName, init);
    }
  }

  /** From empty memory, a conversation is stored as the default seed followed by its exchanges. */
  lemma ReplayFromEmpty(prompt: string, llmName: string, turns: seq<(string, string)>)
    requires turns != []
    ensures Replay(prompt, llmName, None, turns) == Some(Text(DefaultHistory + Exchanges(turns)))
  {
    EmptyActsAsSeed(prompt, llmName, turns);
    ReplayAppends(prompt, llmName, DefaultHistory, turns);
  }

  lemma TwoExchanges(x: (string, string), y: (string, string))
    ensures Exchanges([x, y]) == Exchange(x.0, x.1) + Exchange(y.0, y.1)
  {
    assert [x, y][..1] == [x];
    assert [x][..0] == [];
    assert Exchanges([x]) == "" + Exchange(x.0, x.1) == Exchange(x.0, x.1);
  }

  /** Two turns from empty memory: no separator follows an assistant output. */
  lemma TwoTurnsFromEmpty(prompt: string, llmName: string)
    ensures Replay(prompt, llmName, None, [("a", "b"), ("c", "d")]) ==
            Some(Text(DefaultHistory + "Human: a\nAssistant: b" + "Human: c\nAssistant: d"))
  {
    ReplayFromEmpty(prompt, llmName, [("a", "b"), ("c", "d")]);
    TwoExchanges(("a", "b"), ("c", "d"));
    assert Exchange("a", "b") == "Human: a\nAssistant: b";
    assert Exchange("c", "d") == "Human: c\nAssistant: d";
    assert DefaultHistory + ("Human: a\nAssistant: b" + "Human: c\nAssistant: d") ==
           DefaultHistory + "Human: a\nAssistant: b" + "Human: c\nAssistant: d";
  }
}

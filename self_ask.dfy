/** The self-ask agent's `call`: a loop that keeps asking the search tool
    while the model's latest output ends in a follow-up question, feeds each
    answer back to the model, forces a conclusion when the model gave none,
    and returns the cleaned final answer.

    The model (LLM) and the tool are oracles. A run is driven by two finite
    reply scripts: the k-th LLM request receives `llm[k]`, the k-th tool
    request `tool[k]`. Lemmas quantify over every script, so they hold
    whatever the oracles answer. A request for which the script holds no reply
    ends the run with `ScriptExhausted`: the source has no iteration cap, and
    that outcome marks where the model stops following it. */
module SelfAsk {
  import opened Wrappers
  import opened Strings
  import opened SelfAskText

  const Intermediate: string := "\nIntermediate answer:"
  const FinalAnswerMarker: string := "So the final answer is:"
  const QuestionCue: string := "Are follow up questions needed here:"
  const ToolName: string := "google_search"

  /** `LLMReq`: the request sent to the model. */
  datatype LlmReq = LlmReq(name: string, systemprompt: string, inputprompt: string, stop: seq<string>)

  /** `ToolReq`: the request sent to the tool. */
  datatype ToolReq = ToolReq(name: string, input: string)

  /** Why a run ends without an answer. `LlmFailed` is a model call that
      failed (propagated by `?`); `MalformedReasoning` is the panic of
      `extract_question`; `ScriptExhausted` is a request the script does not answer. */
  datatype Failure = LlmFailed(message: string) | MalformedReasoning(generated: string) | ScriptExhausted

  datatype Outcome = Answered(answer: string) | Failed(failure: Failure)

  /** The oracles: the two reply scripts (`Err` is a failed call) and the
      Debug rendering `{:#?}` of a model reply, whose exact text is not modelled. */
  datatype Oracles = Oracles(llm: seq<Result<string, string>>, tool: seq<Result<string, string>>, render: string -> string)

  /** What a run shows to the outside: how it ended, and every request it sent, in order. */
  datatype Trace = Trace(outcome: Outcome, llmLog: seq<LlmReq>, toolLog: seq<ToolReq>)

  /** The state at the head of the loop: the request record `req`, the latest
      generated text `ret_text`, and the requests sent so far. The next model
      reply is `llm[|llmLog|]`, the next tool reply `tool[|toolLog|]`. */
  datatype Session = Session(req: LlmReq, retText: string, llmLog: seq<LlmReq>, toolLog: seq<ToolReq>)

  datatype Step = Continue(next: Session) | Stop(trace: Trace)

  /** The reply to the k-th model request. */
  function LlmReply(o: Oracles, k: nat): Result<string, Failure>
  {
    if k < |o.llm| then
      match o.llm[k]
      case Ok(output) => Ok(output)
      case Err(message) => Err(LlmFailed(message))
    else Err(ScriptExhausted)
  }

  function InitialQuery(input: string): string
  {
    "Question: " + input + "\n" + QuestionCue
  }

  // ---------------------------------------------------------------------------
  // The run, step by step

  /** Up to the loop: the first model call, then the question appended to the system prompt. */
  function Start(llmName: string, template: string, input: string, o: Oracles): Step
  {
    var query := InitialQuery(input);
    var req := LlmReq(llmName, template, query, [Intermediate]);
    match LlmReply(o, 0)
    case Err(f) => Stop(Trace(Failed(f), [req], []))
    case Ok(output) => Continue(Session(req.(systemprompt := template + query), output, [req], []))
  }

  /** One pass through the body of the loop. */
  function Iterate(s: Session, o: Oracles): Step
  {
    var req := s.req.(systemprompt := s.req.systemprompt + s.retText);
    match ExtractQuestion(s.retText)
    case Err(generated) => Stop(Trace(Failed(MalformedReasoning(generated)), s.llmLog, s.toolLog))
    case Ok(question) =>
      var toolLog := s.toolLog + [ToolReq(ToolName, question)];
      if |s.toolLog| >= |o.tool| then Stop(Trace(Failed(ScriptExhausted), s.llmLog, toolLog))
      else match o.tool[|s.toolLog|]
        case Ok(answer) =>
          var req := req.(inputprompt := Intermediate + " " + answer + ".", stop := [Intermediate]);
          var llmLog := s.llmLog + [req];
          (match LlmReply(o, |s.llmLog|)
           case Err(f) => Stop(Trace(Failed(f), llmLog, toolLog))
           case Ok(output) => Continue(Session(req, output, llmLog, toolLog)))
        case Err(_) =>
          var req := req.(systemprompt := req.systemprompt + Intermediate,
                          stop := ["\n" + FollowUpMarker, FinalAnswerMarker]);
          var llmLog := s.llmLog + [req];
          match LlmReply(o, |s.llmLog|)
          case Err(f) => Stop(Trace(Failed(f), llmLog, toolLog))
          case Ok(output) =>
            Continue(Session(req.(systemprompt := req.systemprompt + o.render(output)), s.retText, llmLog, toolLog))
  }

  /** After the loop: force a conclusion if the final-answer marker is missing, then extract the answer. */
  function Conclude(s: Session, o: Oracles): Trace
  {
    if Contains(s.retText, FinalAnswerMarker) then
      Trace(Answered(ExtractAnswer(s.retText)), s.llmLog, s.toolLog)
    else
      var req := s.req.(systemprompt := s.req.systemprompt + FinalAnswerMarker, stop := ["\n"]);
      var llmLog := s.llmLog + [req];
      match LlmReply(o, |s.llmLog|)
      case Err(f) => Trace(Failed(f), llmLog, s.toolLog)
      case Ok(output) => Trace(Answered(ExtractAnswer(output)), llmLog, s.toolLog)
  }

  /** Every pass that continues the loop consumed exactly one scripted model reply. */
  lemma IterateConsumesOneReply(s: Session, o: Oracles)
    requires Iterate(s, o).Continue?
    ensures |Iterate(s, o).next.llmLog| == |s.llmLog| + 1 <= |o.llm|
  {
  }

  /** The `while` loop at the head of which `s` stands, and what follows it. */
  function Loop(s: Session, o: Oracles): Trace
    requires |s.llmLog| <= |o.llm|
    decreases |o.llm| - |s.llmLog|
  {
    if Contains(LastLine(s.retText), FollowUpMarker) then
      match Iterate(s, o)
      case Stop(t) => t
      case Continue(next) =>
        IterateConsumesOneReply(s, o);
        Loop(next, o)
    else Conclude(s, o)
  }

  /** Where a pass of the loop stops, so does the run from there. */
  lemma LoopStops(s: Session, o: Oracles, t: Trace)
    requires |s.llmLog| <= |o.llm| && Contains(LastLine(s.retText), FollowUpMarker) && Iterate(s, o) == Stop(t)
    ensures Loop(s, o) == t
  {
  }

  /** The branches of one pass, each on its own. */
  lemma IterateMalformed(s: Session, o: Oracles)
    requires ExtractQuestion(s.retText).Err?
    ensures Iterate(s, o) == Stop(Trace(Failed(MalformedReasoning(ExtractQuestion(s.retText).error)), s.llmLog, s.toolLog))
  {
  }

  lemma IterateToolExhausted(s: Session, o: Oracles, q: string)
    requires ExtractQuestion(s.retText) == Ok(q) && |s.toolLog| >= |o.tool|
    ensures Iterate(s, o) == Stop(Trace(Failed(ScriptExhausted), s.llmLog, s.toolLog + [ToolReq(ToolName, q)]))
  {
  }

  lemma IterateToolAnswered(s: Session, o: Oracles, q: string, req: LlmReq)
    requires ExtractQuestion(s.retText) == Ok(q) && |s.toolLog| < |o.tool| && o.tool[|s.toolLog|].Ok?
    requires req == s.req.(systemprompt := s.req.systemprompt + s.retText,
                           inputprompt := Intermediate + " " + o.tool[|s.toolLog|].value + ".", stop := [Intermediate])
    ensures var toolLog := s.toolLog + [ToolReq(ToolName, q)];
      Iterate(s, o) ==
        match LlmReply(o, |s.llmLog|)
        case Err(f) => Stop(Trace(Failed(f), s.llmLog + [req], toolLog))
        case Ok(output) => Continue(Session(req, output, s.llmLog + [req], toolLog))
  {
  }

  lemma IterateToolFailed(s: Session, o: Oracles, q: string, req: LlmReq)
    requires ExtractQuestion(s.retText) == Ok(q) && |s.toolLog| < |o.tool| && o.tool[|s.toolLog|].Err?
    requires req == s.req.(systemprompt := s.req.systemprompt + s.retText + Intermediate,
                           stop := ["\n" + FollowUpMarker, FinalAnswerMarker])
    ensures var toolLog := s.toolLog + [ToolReq(ToolName, q)];
      Iterate(s, o) ==
        match LlmReply(o, |s.llmLog|)
        case Err(f) => Stop(Trace(Failed(f), s.llmLog + [req], toolLog))
        case Ok(output) => Continue(Session(req.(systemprompt := req.systemprompt + o.render(output)), s.retText,
                                            s.llmLog + [req], toolLog))
  {
  }

  /** Where a pass of the loop continues, the run goes on from the next session. */
  lemma LoopContinues(s: Session, o: Oracles)
    requires |s.llmLog| <= |o.llm| && Contains(LastLine(s.retText), FollowUpMarker) && Iterate(s, o).Continue?
    ensures |Iterate(s, o).next.llmLog| <= |o.llm|
    ensures Loop(s, o) == Loop(Iterate(s, o).next, o)
  {
    IterateConsumesOneReply(s, o);
  }

  /** A whole run of `call` on `input`. */
  function Run(llmName: string, template: string, input: string, o: Oracles): Trace
  {
    match Start(llmName, template, input, o)
    case Stop(t) => t
    case Continue(s) => Loop(s, o)
  }

  // ---------------------------------------------------------------------------
  // The controller as the source writes it

  /** One pass through the body of the `while` loop: the request record is
      updated in place, the tool asked the extracted question, and the model
      called again; the pass it performs is `Iterate`. */
  method Pass(s: Session, o: Oracles) returns (step: Step)
    ensures step == Iterate(s, o)
  {
    var req := s.req.(systemprompt := s.req.systemprompt + s.retText);
    var retText := s.retText;
    var llmLog := s.llmLog;
    var toolLog := s.toolLog;
    var question := ExtractQuestion(retText);
    if question.Err? {
      IterateMalformed(s, o);
      return Stop(Trace(Failed(MalformedReasoning(question.error)), llmLog, toolLog));
    }
    toolLog := toolLog + [ToolReq(ToolName, question.value)];
    if |toolLog| > |o.tool| {
      IterateToolExhausted(s, o, question.value);
      return Stop(Trace(Failed(ScriptExhausted), llmLog, toolLog));
    }
    var answer := o.tool[|toolLog| - 1];
    if answer.Ok? {
      req := req.(inputprompt := Intermediate + " " + answer.value + ".", stop := [Intermediate]);
      IterateToolAnswered(s, o, question.value, req);
      llmLog := llmLog + [req];
      var rep := LlmReply(o, |llmLog| - 1);
      if rep.Err? {
        return Stop(Trace(Failed(rep.error), llmLog, toolLog));
      }
      retText := rep.value;
    } else {
      req := req.(systemprompt := req.systemprompt + Intermediate,
                  stop := ["\n" + FollowUpMarker, FinalAnswerMarker]);
      IterateToolFailed(s, o, question.value, req);
      llmLog := llmLog + [req];
      var rep := LlmReply(o, |llmLog| - 1);
      if rep.Err? {
        return Stop(Trace(Failed(rep.error), llmLog, toolLog));
      }
      req := req.(systemprompt := req.systemprompt + o.render(rep.value));
    }
    return Continue(Session(req, retText, llmLog, toolLog));
  }

  /** `call`: the request record is updated in place and the latest text
      reassigned in a `while` loop; the run it performs is `Run`. */
  method Call(llmName: string, template: string, input: string, o: Oracles) returns (t: Trace)
    ensures t == Run(llmName, template, input, o)
  {
    var query := InitialQuery(input);
    var req := LlmReq(llmName, template, query, [Intermediate]);
    var llmLog := [req];
    var toolLog: seq<ToolReq> := [];
    var rep := LlmReply(o, 0);
    if rep.Err? {
      return Trace(Failed(rep.error), llmLog, toolLog);
    }
    req := req.(systemprompt := req.systemprompt + query);
    var retText := rep.value;
    assert Start(llmName, template, input, o) == Continue(Session(req, retText, llmLog, toolLog));

    while Contains(LastLine(retText), FollowUpMarker)
      invariant |llmLog| <= |o.llm|
      invariant Loop(Session(req, retText, llmLog, toolLog), o) == Run(llmName, template, input, o)
      decreases |o.llm| - |llmLog|
    {
      var s := Session(req, retText, llmLog, toolLog);
      var step := Pass(s, o);
      match step
      case Stop(stopped) =>
        LoopStops(s, o, stopped);
        return stopped;
      case Continue(next) =>
        LoopContinues(s, o);
        req, retText, llmLog, toolLog := next.req, next.retText, next.llmLog, next.toolLog;
    }
    assert Loop(Session(req, retText, llmLog, toolLog), o) == Conclude(Session(req, retText, llmLog, toolLog), o);

    if !Contains(retText, FinalAnswerMarker) {
      req := req.(systemprompt := req.systemprompt + FinalAnswerMarker, stop := ["\n"]);
      llmLog := llmLog + [req];
      rep := LlmReply(o, |llmLog| - 1);
      if rep.Err? {
        return Trace(Failed(rep.error), llmLog, toolLog);
      }
      retText := rep.value;
    }
    t := Trace(Answered(ExtractAnswer(retText)), llmLog, toolLog);
  }

  lemma InitialQueryText(input: string)
    ensures InitialQuery(input) == "Question: " + input + "\n" + "Are follow up questions needed here:"
  {
  }

  // ---------------------------------------------------------------------------
  // One pass through the loop

  /** One pass through the loop appends `ret_text` to the system prompt and asks
      the tool named "google_search" the extracted question. A tool answer
      becomes the next input prompt (it is not appended to the system prompt)
      and the model's reply replaces `ret_text`; a tool failure appends the bare
      intermediate-answer marker and the rendered model reply to the system
      prompt and leaves `ret_text` and the input prompt as they were. */
  lemma FollowUpRound(s: Session, o: Oracles)
    requires Contains(LastLine(s.retText), FollowUpMarker)
    ensures ExtractQuestion(s.retText).Err? ==>
      Iterate(s, o) == Stop(Trace(Failed(MalformedReasoning(s.retText)), s.llmLog, s.toolLog))
    ensures Iterate(s, o).Continue? ==>
      var n := Iterate(s, o).next;
      && ExtractQuestion(s.retText).Ok?
      && n.toolLog == s.toolLog + [ToolReq(ToolName, ExtractQuestion(s.retText).value)]
      && |s.toolLog| < |o.tool|
      && n.llmLog == s.llmLog + [Last(n.llmLog)]
      && |s.llmLog| < |o.llm| && o.llm[|s.llmLog|].Ok?
      && n.req.name == s.req.name
    ensures Iterate(s, o).Continue? && o.tool[|s.toolLog|].Ok? ==>
      var n := Iterate(s, o).next;
      && n.req.systemprompt == s.req.systemprompt + s.retText
      && n.req.inputprompt == Intermediate + " " + o.tool[|s.toolLog|].value + "."
      && n.req.stop == [Intermediate]
      && Last(n.llmLog) == n.req
      && o.llm[|s.llmLog|] == Ok(n.retText)
    ensures Iterate(s, o).Continue? && o.tool[|s.toolLog|].Err? ==>
      var n := Iterate(s, o).next;
      && Last(n.llmLog).systemprompt == s.req.systemprompt + s.retText + Intermediate
      && n.req.systemprompt == Last(n.llmLog).systemprompt + o.render(o.llm[|s.llmLog|].value)
      && n.req.stop == Last(n.llmLog).stop == ["\n" + FollowUpMarker, FinalAnswerMarker]
      && n.req.inputprompt == Last(n.llmLog).inputprompt == s.req.inputprompt
      && n.retText == s.retText
  {
  }

  // ---------------------------------------------------------------------------
  // Properties of a whole run

  /** One pass only adds requests to the logs. */
  lemma IterateExtendsLogs(s: Session, o: Oracles)
    ensures match Iterate(s, o)
      case Stop(t) => s.llmLog <= t.llmLog && s.toolLog <= t.toolLog
      case Continue(next) => s.llmLog <= next.llmLog && s.toolLog <= next.toolLog
  {
    var req := s.req.(systemprompt := s.req.systemprompt + s.retText);
    AppendExtends(s.llmLog, []);
    assert s.llmLog + [] == s.llmLog;
    match ExtractQuestion(s.retText)
    case Err(_) =>
      IterateMalformed(s, o);
      AppendExtends(s.toolLog, []);
      assert s.toolLog + [] == s.toolLog;
    case Ok(q) =>
      AppendExtends(s.toolLog, [ToolReq(ToolName, q)]);
      if |s.toolLog| >= |o.tool| {
        IterateToolExhausted(s, o, q);
      } else if o.tool[|s.toolLog|].Ok? {
        var req := req.(inputprompt := Intermediate + " " + o.tool[|s.toolLog|].value + ".", stop := [Intermediate]);
        IterateToolAnswered(s, o, q, req);
        AppendExtends(s.llmLog, [req]);
      } else {
        var req := req.(systemprompt := req.systemprompt + Intermediate,
                        stop := ["\n" + FollowUpMarker, FinalAnswerMarker]);
        IterateToolFailed(s, o, q, req);
        AppendExtends(s.llmLog, [req]);
      }
  }

  /** Requests are only ever added to the logs. */
  lemma {:induction false} LoopExtendsLogs(s: Session, o: Oracles)
    requires |s.llmLog| <= |o.llm|
    ensures s.llmLog <= Loop(s, o).llmLog && s.toolLog <= Loop(s, o).toolLog
    decreases |o.llm| - |s.llmLog|
  {
    if Contains(LastLine(s.retText), FollowUpMarker) {
      IterateExtendsLogs(s, o);
      match Iterate(s, o)
      case Stop(t) =>
      case Continue(next) =>
        IterateConsumesOneReply(s, o);
        LoopExtendsLogs(next, o);
        PrefixTransitive(s.llmLog, next.llmLog, Loop(next, o).llmLog);
        PrefixTransitive(s.toolLog, next.toolLog, Loop(next, o).toolLog);
    } else {
      var t := Conclude(s, o);
      AppendExtends(s.toolLog, []);
      assert s.toolLog + [] == s.toolLog;
      if Contains(s.retText, FinalAnswerMarker) {
        AppendExtends(s.llmLog, []);
        assert s.llmLog + [] == s.llmLog;
      } else {
        AppendExtends(s.llmLog, [Last(t.llmLog)]);
      }
    }
  }

  /** The first model request carries the few-shot template as system prompt,
      the framed question as input prompt and stops at the intermediate-answer marker. */
  lemma RunStartsWithInitialRequest(llmName: string, template: string, input: string, o: Oracles)
    ensures var t := Run(llmName, template, input, o);
      |t.llmLog| >= 1 &&
      t.llmLog[0] == LlmReq(llmName, template, "Question: " + input + "\n" + "Are follow up questions needed here:",
                            ["\nIntermediate answer:"])
  {
    InitialQueryText(input);
    match Start(llmName, template, input, o)
    case Stop(t) =>
    case Continue(s) => LoopExtendsLogs(s, o);
  }

  /** Every system prompt sent is a prefix of every later one. */
  ghost predicate PromptsGrow(log: seq<LlmReq>)
  {
    forall a, b | 0 <= a <= b < |log| :: log[a].systemprompt <= log[b].systemprompt
  }

  /** The session's own system prompt extends the last one sent. */
  ghost predicate SessionGrows(s: Session)
  {
    PromptsGrow(s.llmLog) && |s.llmLog| > 0 && Last(s.llmLog).systemprompt <= s.req.systemprompt
  }

  lemma PrefixTransitive<T>(a: seq<T>, b: seq<T>, c: seq<T>)
    requires a <= b && b <= c
    ensures a <= c
  {
    assert c[..|a|] == c[..|b|][..|a|];
  }

  lemma SendingKeepsGrowth(log: seq<LlmReq>, r: LlmReq)
    requires PromptsGrow(log) && |log| > 0 && Last(log).systemprompt <= r.systemprompt
    ensures PromptsGrow(log + [r])
  {
    var log' := log + [r];
    forall a, b | 0 <= a <= b < |log'|
      ensures log'[a].systemprompt <= log'[b].systemprompt
    {
      if b == |log| && a < |log| {
        PrefixTransitive(log[a].systemprompt, Last(log).systemprompt, r.systemprompt);
      }
    }
  }

  lemma AppendExtends<T>(a: seq<T>, b: seq<T>)
    ensures a <= a + b
  {
    assert (a + b)[..|a|] == a;
  }

  /** One pass of the loop keeps the system prompts growing. */
  lemma IteratePromptsGrow(s: Session, o: Oracles)
    requires SessionGrows(s)
    ensures match Iterate(s, o)
      case Stop(t) => PromptsGrow(t.llmLog)
      case Continue(next) => SessionGrows(next)
  {
    var req := s.req.(systemprompt := s.req.systemprompt + s.retText);
    var sys := s.req.systemprompt;
    AppendExtends(sys, s.retText);
    PrefixTransitive(Last(s.llmLog).systemprompt, sys, sys + s.retText);
    match ExtractQuestion(s.retText)
    case Err(_) =>
      IterateMalformed(s, o);
    case Ok(q) =>
      var toolLog := s.toolLog + [ToolReq(ToolName, q)];
      if |s.toolLog| >= |o.tool| {
        IterateToolExhausted(s, o, q);
      } else if o.tool[|s.toolLog|].Ok? {
        var req := req.(inputprompt := Intermediate + " " + o.tool[|s.toolLog|].value + ".", stop := [Intermediate]);
        IterateToolAnswered(s, o, q, req);
        SendingKeepsGrowth(s.llmLog, req);
      } else {
        var req := req.(systemprompt := req.systemprompt + Intermediate,
                        stop := ["\n" + FollowUpMarker, FinalAnswerMarker]);
        AppendExtends(sys + s.retText, Intermediate);
        PrefixTransitive(Last(s.llmLog).systemprompt, sys + s.retText, sys + s.retText + Intermediate);
        IterateToolFailed(s, o, q, req);
        SendingKeepsGrowth(s.llmLog, req);
        match LlmReply(o, |s.llmLog|)
        case Err(_) =>
        case Ok(output) =>
          AppendExtends(req.systemprompt, o.render(output));
      }
  }

  /** The forced conclusion keeps the system prompts growing. */
  lemma ConcludePromptsGrow(s: Session, o: Oracles)
    requires SessionGrows(s)
    ensures PromptsGrow(Conclude(s, o).llmLog)
  {
    var sys := s.req.systemprompt;
    if !Contains(s.retText, FinalAnswerMarker) {
      AppendExtends(sys, FinalAnswerMarker);
      PrefixTransitive(Last(s.llmLog).systemprompt, sys, sys + FinalAnswerMarker);
      SendingKeepsGrowth(s.llmLog, s.req.(systemprompt := sys + FinalAnswerMarker, stop := ["\n"]));
    }
  }

  lemma {:induction false} LoopPromptsGrow(s: Session, o: Oracles)
    requires |s.llmLog| <= |o.llm| && SessionGrows(s)
    ensures PromptsGrow(Loop(s, o).llmLog)
    decreases |o.llm| - |s.llmLog|
  {
    if Contains(LastLine(s.retText), FollowUpMarker) {
      IteratePromptsGrow(s, o);
      match Iterate(s, o)
      case Stop(t) =>
      case Continue(next) =>
        IterateConsumesOneReply(s, o);
        LoopPromptsGrow(next, o);
    } else {
      ConcludePromptsGrow(s, o);
    }
  }

  /** The system prompt is only ever extended: every earlier request's system
      prompt, and the few-shot template itself, is a prefix of every later one. */
  lemma RunPromptsGrow(llmName: string, template: string, input: string, o: Oracles)
    ensures var t := Run(llmName, template, input, o);
      PromptsGrow(t.llmLog) &&
      forall k | 0 <= k < |t.llmLog| :: template <= t.llmLog[k].systemprompt
  {
    var t := Run(llmName, template, input, o);
    match Start(llmName, template, input, o)
    case Stop(_) =>
      AppendExtends(template, "");
      assert template + "" == template;
    case Continue(s) =>
      AppendExtends(template, InitialQuery(input));
      LoopPromptsGrow(s, o);
      RunStartsWithInitialRequest(llmName, template, input, o);
      forall k | 0 <= k < |t.llmLog|
        ensures template <= t.llmLog[k].systemprompt
      {
        assert t.llmLog[0].systemprompt == template;
      }
  }

  /** Every tool request the run sends names "google_search" and carries a well-formed question. */
  ghost predicate ToolRequestsWellFormed(log: seq<ToolReq>)
  {
    forall k | 0 <= k < |log| :: log[k].name == ToolName && IsQuestion(log[k].input)
  }

  /** One pass of the loop adds only well-formed tool requests. */
  lemma IterateAsksWellFormedQuestion(s: Session, o: Oracles)
    requires ToolRequestsWellFormed(s.toolLog)
    ensures match Iterate(s, o)
      case Stop(t) => ToolRequestsWellFormed(t.toolLog)
      case Continue(next) => ToolRequestsWellFormed(next.toolLog)
  {
    var req := s.req.(systemprompt := s.req.systemprompt + s.retText);
    match ExtractQuestion(s.retText)
    case Err(_) =>
      IterateMalformed(s, o);
    case Ok(q) =>
      ExtractQuestionSucceedsExactly(s.retText);
      var toolLog := s.toolLog + [ToolReq(ToolName, q)];
      assert ToolRequestsWellFormed(toolLog);
      if |s.toolLog| >= |o.tool| {
        IterateToolExhausted(s, o, q);
      } else if o.tool[|s.toolLog|].Ok? {
        IterateToolAnswered(s, o, q, req.(inputprompt := Intermediate + " " + o.tool[|s.toolLog|].value + ".",
                                          stop := [Intermediate]));
      } else {
        IterateToolFailed(s, o, q, req.(systemprompt := req.systemprompt + Intermediate,
                                        stop := ["\n" + FollowUpMarker, FinalAnswerMarker]));
      }
  }

  lemma {:induction false} LoopAsksWellFormedQuestions(s: Session, o: Oracles)
    requires |s.llmLog| <= |o.llm| && ToolRequestsWellFormed(s.toolLog)
    ensures ToolRequestsWellFormed(Loop(s, o).toolLog)
    decreases |o.llm| - |s.llmLog|
  {
    if Contains(LastLine(s.retText), FollowUpMarker) {
      IterateAsksWellFormedQuestion(s, o);
      match Iterate(s, o)
      case Stop(t) =>
      case Continue(next) =>
        IterateConsumesOneReply(s, o);
        LoopAsksWellFormedQuestions(next, o);
    }
  }

  /** Every tool request of a run goes to "google_search" with a single-line
      question that ends in '?' and holds no colon. */
  lemma RunAsksWellFormedQuestions(llmName: string, template: string, input: string, o: Oracles)
    ensures ToolRequestsWellFormed(Run(llmName, template, input, o).toolLog)
  {
    match Start(llmName, template, input, o)
    case Stop(_) =>
    case Continue(s) => LoopAsksWellFormedQuestions(s, o);
  }

  /** At the head of the loop every model call so far has succeeded, and
      `ret_text` is the latest model reply unless it still ends in a follow-up line. */
  ghost predicate RepliesConsistent(s: Session, o: Oracles)
  {
    && 1 <= |s.llmLog| <= |o.llm|
    && (forall k | 0 <= k < |s.llmLog| :: o.llm[k].Ok?)
    && (Contains(LastLine(s.retText), FollowUpMarker) || o.llm[|s.llmLog| - 1] == Ok(s.retText))
  }

  /** What a run's outcome says about the replies it consumed. */
  ghost predicate OutcomeFitsReplies(t: Trace, o: Oracles)
  {
    && |t.llmLog| >= 1
    && (forall k | 0 <= k < |t.llmLog| - 1 :: k < |o.llm| && o.llm[k].Ok?)
    && (forall m :: t.outcome == Failed(LlmFailed(m)) <==>
                    |t.llmLog| <= |o.llm| && o.llm[|t.llmLog| - 1] == Err(m))
    && (t.outcome.Answered? ==>
          |t.llmLog| <= |o.llm| && o.llm[|t.llmLog| - 1].Ok? &&
          t.outcome.answer == ExtractAnswer(o.llm[|t.llmLog| - 1].value))
  }

  /** Stopping before the next model call, for a reason other than the model, fits the replies. */
  lemma EarlyStopFits(s: Session, o: Oracles, t: Trace)
    requires RepliesConsistent(s, o) && t.llmLog == s.llmLog && t.outcome.Failed?
    requires !t.outcome.failure.LlmFailed?
    ensures OutcomeFitsReplies(t, o)
  {
  }

  /** The next model call either stops the run with an outcome that fits the
      replies, or succeeds and leaves every reply so far a success. */
  lemma NextReplyFits(s: Session, o: Oracles, req: LlmReq, toolLog: seq<ToolReq>)
    requires RepliesConsistent(s, o)
    ensures LlmReply(o, |s.llmLog|).Err? ==>
      OutcomeFitsReplies(Trace(Failed(LlmReply(o, |s.llmLog|).error), s.llmLog + [req], toolLog), o)
    ensures LlmReply(o, |s.llmLog|).Ok? ==>
      && |s.llmLog| < |o.llm|
      && (forall k | 0 <= k < |s.llmLog| + 1 :: o.llm[k].Ok?)
      && o.llm[|s.llmLog|] == Ok(LlmReply(o, |s.llmLog|).value)
  {
  }

  /** One pass of the loop keeps the replies consistent, or stops with an outcome that fits them. */
  lemma IterateFitsReplies(s: Session, o: Oracles)
    requires RepliesConsistent(s, o) && Contains(LastLine(s.retText), FollowUpMarker)
    ensures match Iterate(s, o)
      case Stop(t) => OutcomeFitsReplies(t, o)
      case Continue(next) => RepliesConsistent(next, o)
  {
    var req := s.req.(systemprompt := s.req.systemprompt + s.retText);
    match ExtractQuestion(s.retText)
    case Err(_) =>
      IterateMalformed(s, o);
      EarlyStopFits(s, o, Iterate(s, o).trace);
    case Ok(q) =>
      var toolLog := s.toolLog + [ToolReq(ToolName, q)];
      if |s.toolLog| >= |o.tool| {
        IterateToolExhausted(s, o, q);
        EarlyStopFits(s, o, Iterate(s, o).trace);
      } else if o.tool[|s.toolLog|].Ok? {
        var req := req.(inputprompt := Intermediate + " " + o.tool[|s.toolLog|].value + ".", stop := [Intermediate]);
        IterateToolAnswered(s, o, q, req);
        NextReplyFits(s, o, req, toolLog);
      } else {
        var req := req.(systemprompt := req.systemprompt + Intermediate,
                        stop := ["\n" + FollowUpMarker, FinalAnswerMarker]);
        IterateToolFailed(s, o, q, req);
        NextReplyFits(s, o, req, toolLog);
      }
  }

  /** Once the loop is left, the outcome fits the replies. */
  lemma ConcludeFitsReplies(s: Session, o: Oracles)
    requires RepliesConsistent(s, o) && !Contains(LastLine(s.retText), FollowUpMarker)
    ensures OutcomeFitsReplies(Conclude(s, o), o)
  {
  }

  lemma {:induction false} LoopFitsReplies(s: Session, o: Oracles)
    requires RepliesConsistent(s, o)
    ensures OutcomeFitsReplies(Loop(s, o), o)
    decreases |o.llm| - |s.llmLog|
  {
    if Contains(LastLine(s.retText), FollowUpMarker) {
      IterateFitsReplies(s, o);
      match Iterate(s, o)
      case Stop(t) =>
      case Continue(next) =>
        IterateConsumesOneReply(s, o);
        LoopFitsReplies(next, o);
    } else {
      ConcludeFitsReplies(s, o);
    }
  }

  /** A run answers only with the cleaned text of the latest model reply, which
      holds no colon and no line break; a model failure ends the run at once
      and is its outcome, and no model call before the last one failed. A tool
      failure is never an outcome. */
  lemma RunFitsReplies(llmName: string, template: string, input: string, o: Oracles)
    ensures OutcomeFitsReplies(Run(llmName, template, input, o), o)
    ensures var t := Run(llmName, template, input, o);
      t.outcome.Answered? ==> ':' !in t.outcome.answer && '\n' !in t.outcome.answer
  {
    var t := Run(llmName, template, input, o);
    match Start(llmName, template, input, o)
    case Stop(_) =>
    case Continue(s) => LoopFitsReplies(s, o);
    if t.outcome.Answered? {
      ExtractAnswerIsCleanPiece(o.llm[|t.llmLog| - 1].value);
    }
  }

  // ---------------------------------------------------------------------------
  // The forced conclusion

  /** After the loop: a `ret_text` holding the final-answer marker is answered
      at once; otherwise exactly one more model call is made, with the marker
      appended to the system prompt and stop `["\n"]`, and its reply is the
      one answered. */
  lemma ConclusionForced(s: Session, o: Oracles)
    ensures Contains(s.retText, FinalAnswerMarker) ==>
      Conclude(s, o) == Trace(Answered(ExtractAnswer(s.retText)), s.llmLog, s.toolLog)
    ensures !Contains(s.retText, FinalAnswerMarker) ==>
      var t := Conclude(s, o);
      && t.llmLog == s.llmLog + [s.req.(systemprompt := s.req.systemprompt + FinalAnswerMarker, stop := ["\n"])]
      && t.toolLog == s.toolLog
      && t.outcome == match LlmReply(o, |s.llmLog|)
                      case Err(f) => Failed(f)
                      case Ok(output) => Answered(ExtractAnswer(output))
  {
  }

  /** The forced call is the only request that stops at a line break. */
  predicate Forced(r: LlmReq)
  {
    r.stop == ["\n"]
  }

  /** A reply that neither ends in a follow-up question nor gives the final answer. */
  predicate Inconclusive(reply: string)
  {
    !Contains(LastLine(reply), FollowUpMarker) && !Contains(reply, FinalAnswerMarker)
  }

  ghost predicate NoneForced(log: seq<LlmReq>)
  {
    forall k | 0 <= k < |log| :: !Forced(log[k])
  }

  /** How a run's last request and answer relate to the conclusion: only the
      last request can be forced; a forced request follows an inconclusive
      reply and ends in the final-answer marker; an answer without a forced
      call comes from a reply that holds the marker and asks nothing. */
  ghost predicate ConclusionFits(t: Trace, o: Oracles)
  {
    && |t.llmLog| >= 1
    && (forall k | 0 <= k < |t.llmLog| - 1 :: !Forced(t.llmLog[k]))
    && (Forced(Last(t.llmLog)) ==>
          && 2 <= |t.llmLog| <= |o.llm| + 1
          && o.llm[|t.llmLog| - 2].Ok? && Inconclusive(o.llm[|t.llmLog| - 2].value)
          && var sys := Last(t.llmLog).systemprompt;
             |sys| >= |FinalAnswerMarker| && sys[|sys| - |FinalAnswerMarker|..] == FinalAnswerMarker)
    && (t.outcome.Answered? && !Forced(Last(t.llmLog)) ==>
          && |t.llmLog| <= |o.llm| && o.llm[|t.llmLog| - 1].Ok?
          && Contains(o.llm[|t.llmLog| - 1].value, FinalAnswerMarker)
          && !Contains(LastLine(o.llm[|t.llmLog| - 1].value), FollowUpMarker))
  }

  /** A pass of the loop sends no forced request and never answers. */
  lemma IterateNeverForces(s: Session, o: Oracles)
    requires NoneForced(s.llmLog)
    ensures match Iterate(s, o)
      case Stop(t) => NoneForced(t.llmLog) && !t.outcome.Answered?
      case Continue(next) => NoneForced(next.llmLog)
  {
    var req := s.req.(systemprompt := s.req.systemprompt + s.retText);
    match ExtractQuestion(s.retText)
    case Err(_) =>
      IterateMalformed(s, o);
    case Ok(q) =>
      if |s.toolLog| >= |o.tool| {
        IterateToolExhausted(s, o, q);
      } else if o.tool[|s.toolLog|].Ok? {
        var req := req.(inputprompt := Intermediate + " " + o.tool[|s.toolLog|].value + ".", stop := [Intermediate]);
        assert Intermediate != "\n";
        IterateToolAnswered(s, o, q, req);
        assert NoneForced(s.llmLog + [req]);
      } else {
        var req := req.(systemprompt := req.systemprompt + Intermediate,
                        stop := ["\n" + FollowUpMarker, FinalAnswerMarker]);
        IterateToolFailed(s, o, q, req);
        assert NoneForced(s.llmLog + [req]);
      }
  }

  /** Leaving the loop with no forced request sent so far fits the conclusion. */
  lemma ConcludeFitsConclusion(s: Session, o: Oracles)
    requires RepliesConsistent(s, o) && NoneForced(s.llmLog) && !Contains(LastLine(s.retText), FollowUpMarker)
    ensures ConclusionFits(Conclude(s, o), o)
  {
    ConclusionForced(s, o);
    var t := Conclude(s, o);
    if !Contains(s.retText, FinalAnswerMarker) {
      var sys := s.req.systemprompt + FinalAnswerMarker;
      assert sys[|sys| - |FinalAnswerMarker|..] == FinalAnswerMarker;
      assert t.llmLog[..|s.llmLog|] == s.llmLog;
    } else {
      assert Intermediate != "\n";
    }
  }

  lemma {:induction false} LoopFitsConclusion(s: Session, o: Oracles)
    requires RepliesConsistent(s, o) && NoneForced(s.llmLog)
    ensures ConclusionFits(Loop(s, o), o)
    decreases |o.llm| - |s.llmLog|
  {
    if Contains(LastLine(s.retText), FollowUpMarker) {
      IterateFitsReplies(s, o);
      IterateNeverForces(s, o);
      match Iterate(s, o)
      case Stop(t) =>
      case Continue(next) =>
        IterateConsumesOneReply(s, o);
        LoopFitsConclusion(next, o);
    } else {
      ConcludeFitsConclusion(s, o);
    }
  }

  /** A forced call, with stop `["\n"]`, is only ever the last request of a
      run, and it is sent only after a reply that neither asks a follow-up
      question nor gives the final answer, with that marker appended to the
      system prompt. An answer reached without it comes from a reply that
      holds the final-answer marker. */
  lemma RunFitsConclusion(llmName: string, template: string, input: string, o: Oracles)
    ensures ConclusionFits(Run(llmName, template, input, o), o)
  {
    assert Intermediate != "\n";
    match Start(llmName, template, input, o)
    case Stop(_) =>
    case Continue(s) => LoopFitsConclusion(s, o);
  }

  // ---------------------------------------------------------------------------
  // No bound on the loop

  /** Every tool call fails and every model call succeeds. */
  ghost predicate ToolAlwaysFails(o: Oracles)
  {
    (forall k | 0 <= k < |o.tool| :: o.tool[k].Err?) && (forall k | 0 <= k < |o.llm| :: o.llm[k].Ok?)
  }

  lemma {:induction false} LoopSpinsOnToolFailure(s: Session, o: Oracles)
    requires |s.llmLog| <= |o.llm| && ToolAlwaysFails(o)
    requires Contains(LastLine(s.retText), FollowUpMarker) && ExtractQuestion(s.retText).Ok?
    ensures Loop(s, o).outcome == Failed(ScriptExhausted)
    decreases |o.llm| - |s.llmLog|
  {
    match Iterate(s, o)
    case Stop(t) =>
    case Continue(next) =>
      IterateConsumesOneReply(s, o);
      FollowUpRound(s, o);
      LoopSpinsOnToolFailure(next, o);
  }

  /** A tool that keeps failing leaves `ret_text` unchanged, so the loop never
      exits: once the first reply ends in a well-formed follow-up question, no
      reply script, however long, yields an answer. The source has no iteration cap. */
  lemma RunNeverAnswersWhileToolFails(llmName: string, template: string, input: string, o: Oracles)
    requires ToolAlwaysFails(o) && |o.llm| > 0
    requires Contains(LastLine(o.llm[0].value), FollowUpMarker) && ExtractQuestion(o.llm[0].value).Ok?
    ensures Run(llmName, template, input, o).outcome == Failed(ScriptExhausted)
  {
    match Start(llmName, template, input, o)
    case Stop(_) =>
    case Continue(s) => LoopSpinsOnToolFailure(s, o);
  }

  // ---------------------------------------------------------------------------
  // Two runs worked through

  /** One follow-up round that the tool answers: the model asks question `q`
      in `first`, the tool answers `a`, and the model's `last` reply holds the
      final-answer marker and no further follow-up. Two model calls, one tool
      call with `q`, and the answer extracted from `last`. */
  lemma OneFollowUpRun(llmName: string, template: string, input: string, render: string -> string,
                       first: string, q: string, a: string, last: string)
    requires Contains(LastLine(first), FollowUpMarker) && ExtractQuestion(first) == Ok(q)
    requires !Contains(LastLine(last), FollowUpMarker) && Contains(last, FinalAnswerMarker)
    ensures var o := Oracles([Ok(first), Ok(last)], [Ok(a)], render);
      var query := InitialQuery(input);
      Run(llmName, template, input, o) ==
        Trace(Answered(ExtractAnswer(last)),
              [LlmReq(llmName, template, query, [Intermediate]),
               LlmReq(llmName, template + query + first, Intermediate + " " + a + ".", [Intermediate])],
              [ToolReq(ToolName, q)])
  {
    var o := Oracles([Ok(first), Ok(last)], [Ok(a)], render);
    var query := InitialQuery(input);
    var req0 := LlmReq(llmName, template, query, [Intermediate]);
    var req1 := LlmReq(llmName, template + query + first, Intermediate + " " + a + ".", [Intermediate]);
    var s1 := Session(req0.(systemprompt := template + query), first, [req0], []);
    var s2 := Session(req1, last, [req0, req1], [ToolReq(ToolName, q)]);
    assert Start(llmName, template, input, o) == Continue(s1);
    assert Iterate(s1, o) == Continue(s2);
    assert Loop(s2, o) == Conclude(s2, o);
  }

  /** A first reply that neither asks a follow-up question nor gives the final
      answer forces one more model call: the final-answer marker is appended to
      the system prompt, the input prompt is kept, the stop sequence becomes
      "\n", no tool is asked, and the answer is extracted from that reply. */
  lemma ForcedConclusionRun(llmName: string, template: string, input: string, render: string -> string,
                            first: string, last: string)
    requires Inconclusive(first)
    ensures var o := Oracles([Ok(first), Ok(last)], [], render);
      var query := InitialQuery(input);
      Run(llmName, template, input, o) ==
        Trace(Answered(ExtractAnswer(last)),
              [LlmReq(llmName, template, query, [Intermediate]),
               LlmReq(llmName, template + query + FinalAnswerMarker, query, ["\n"])],
              [])
  {
    var o := Oracles([Ok(first), Ok(last)], [], render);
    var query := InitialQuery(input);
    var req0 := LlmReq(llmName, template, query, [Intermediate]);
    var s1 := Session(req0.(systemprompt := template + query), first, [req0], []);
    assert Start(llmName, template, input, o) == Continue(s1);
    assert Loop(s1, o) == Conclude(s1, o);
  }

  /** The same first reply with a failing tool: the run does not stop. It calls
      the model again with the stop sequences "\nFollow up:" and
      "So the final answer is:", appends the rendered reply to the system
      prompt, keeps the old text and asks the same question again; with a
      one-reply tool script it then runs out of script. */
  lemma ToolFailureRun(llmName: string, template: string, input: string, render: string -> string,
                       first: string, q: string, other: string, e: string)
    requires Contains(LastLine(first), FollowUpMarker) && ExtractQuestion(first) == Ok(q)
    ensures var o := Oracles([Ok(first), Ok(other)], [Err(e)], render);
      var t := Run(llmName, template, input, o);
      && t.outcome == Failed(ScriptExhausted)
      && |t.llmLog| == 2
      && t.llmLog[1].stop == ["\n" + FollowUpMarker, FinalAnswerMarker]
      && t.llmLog[1].systemprompt == template + InitialQuery(input) + first + Intermediate
      && t.toolLog == [ToolReq(ToolName, q), ToolReq(ToolName, q)]
  {
    var o := Oracles([Ok(first), Ok(other)], [Err(e)], render);
    var query := InitialQuery(input);
    var req0 := LlmReq(llmName, template, query, [Intermediate]);
    var req1 := LlmReq(llmName, template + query + first + Intermediate, query,
                       ["\n" + FollowUpMarker, FinalAnswerMarker]);
    var s1 := Session(req0.(systemprompt := template + query), first, [req0], []);
    var s2 := Session(req1.(systemprompt := req1.systemprompt + render(other)), first, [req0, req1],
                      [ToolReq(ToolName, q)]);
    assert Start(llmName, template, input, o) == Continue(s1);
    assert Iterate(s1, o) == Continue(s2);
    assert Loop(s2, o) == Iterate(s2, o).trace;
  }

  const Question: string := "How old was Ali?"
  const FollowUpLine: string := FollowUpMarker + " " + Question
  const FirstReply: string := QuestionCue + " Yes." + "\n" + FollowUpLine
  const FinalReply: string := FinalAnswerMarker + " Muhammad Ali"

  /** The first reply's last line asks `Question`. */
  lemma FirstReplyAsksQuestion()
    ensures Contains(LastLine(FirstReply), FollowUpMarker)
    ensures ExtractQuestion(FirstReply) == Ok(Question)
  {
    assert FollowUpMarker == "Follow up" + [':'];
    assert '\n' !in " " + Question && ':' !in " " + Question;
    assert '\n' !in FollowUpMarker;
    assert FollowUpLine == "Follow up" + [':'] + (" " + Question);
    assert FollowUpLine[..|FollowUpMarker|] == FollowUpMarker;
    assert OccursAt(FollowUpLine, FollowUpMarker, 0);
    LastLineOfAppend(QuestionCue + " Yes.", FollowUpLine);
    TrimmedOfLine("Follow up", " " + Question);
  }

  lemma FinalReplyChars()
    ensures '\n' !in FinalReply && 'F' !in FinalReply
  {
  }

  /** The final reply concludes with the answer "Muhammad Ali". */
  lemma FinalReplyConcludes()
    ensures !Contains(LastLine(FinalReply), FollowUpMarker)
    ensures Contains(FinalReply, FinalAnswerMarker)
    ensures ExtractAnswer(FinalReply) == "Muhammad Ali"
  {
    assert FinalReply == "So the final answer is" + [':'] + " Muhammad Ali";
    FinalReplyChars();
    LastLineIsFinalLine(FinalReply);
    NotContainedWithoutHead(FinalReply, FollowUpMarker);
    assert OccursAt(FinalReply, FinalAnswerMarker, 0) by {
      assert FinalReply[..|FinalAnswerMarker|] == FinalAnswerMarker;
    }
    assert ExtractAnswer(FinalReply) == "Muhammad Ali" by {
      assert ':' !in " Muhammad Ali";
      TrimmedOfLine("So the final answer is", " Muhammad Ali");
    }
  }

  /** The worked example: "How old was Ali?", the tool says "74", the answer is "Muhammad Ali". */
  lemma WorkedExample(llmName: string, template: string, input: string, render: string -> string)
    ensures var o := Oracles([Ok(FirstReply), Ok(FinalReply)], [Ok("74")], render);
      Run(llmName, template, input, o).outcome == Answered("Muhammad Ali")
  {
    FirstReplyAsksQuestion();
    FinalReplyConcludes();
    OneFollowUpRun(llmName, template, input, render, FirstReply, Question, "74", FinalReply);
  }
}

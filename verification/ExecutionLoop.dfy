/** One execution of an agent: alternate model calls and tool calls until the model answers,
    a limit is reached, or something fails. */
module ExecutionLoop {
  import opened Options
  import opened ToolProtocol
  import opened History
  import TokenBudget

  // ---- the world outside the loop, for one run ----

  datatype Control = Continue | Halt

  /** A tool's answer. `result` is its JSON text, None if it cannot be encoded; `storedError`
      is the error as quoted for storage; `saved` says whether the result row was saved. */
  datatype Execution = Execution(
    error: Option<string>, control: Control, message: string, result: Option<string>,
    storedError: string, saved: bool)

  datatype Response = Response(content: string, reasoning: string, toolCalls: seq<ToolCall>, inputTokens: int)

  datatype Reply = CallFailed | Replied(resp: Response)

  /** Calls are numbered from 1; call 0 is the tool-free synthesis call. */
  datatype Environment = Environment(
    cancelled: nat -> bool,
    reply: nat -> Reply,
    execute: (nat, nat) -> Execution,
    assistantSaved: nat -> bool)

  datatype Config = Config(
    agentID: string, isExecutive: bool, systemPrompt: string,
    maxIterations: int, maxToolCalls: int, maxTokens: int,
    window: int, maxPerResult: int)

  datatype Request = Request(messages: seq<Message>, maxTokens: int, tools: seq<string>)

  /** A response (None models a nil pointer) and whether an error was returned. */
  datatype Return = Return(resp: Option<Response>, failed: bool)

  const ERROR := Return(None, true)

  // ---- one round of tool calls ----

  datatype Round = Round(resp: Response, execs: seq<Execution>, perResult: int, assistantSaved: bool) {
    ghost predicate Valid() {
      |execs| == |resp.toolCalls| && resp.toolCalls != []
    }
  }

  function CallMessage(resp: Response): Message {
    Message(Assistant, resp.content, resp.reasoning, "", resp.toolCalls, "")
  }

  function Truncated(text: string, perResult: int): string {
    if perResult > 0 && |text| > perResult then text[..perResult] else text
  }

  /** The result cannot be encoded: the whole execution fails. */
  predicate Unencodable(e: Execution) {
    e.error.None? && e.control == Continue && e.result.None?
  }

  function ResultText(c: ToolCall, e: Execution, perResult: int): string {
    if e.error.Some? then "{\"error\": \"" + e.error.value + "\"}"
    else if e.control == Halt then
      if e.message == "" then "{\"status\": \"halted\", \"tool\": \"" + c.name + "\"}" else e.message
    else if e.result.Some? then Truncated(e.result.value, perResult) else ""
  }

  function ResultMessage(c: ToolCall, e: Execution, perResult: int): Message {
    Message(Tool, ResultText(c, e, perResult), "", c.name, [], c.id)
  }

  function ResultMessages(r: Round, n: nat): (ms: seq<Message>)
    requires n <= |r.execs| && n <= |r.resp.toolCalls|
    ensures |ms| == n
  {
    seq(n, i requires 0 <= i < n => ResultMessage(r.resp.toolCalls[i], r.execs[i], r.perResult))
  }

  /** The round as the model sees it: the call and one result per call, in call order. */
  function RoundMessages(r: Round): seq<Message>
    requires |r.execs| == |r.resp.toolCalls|
  {
    [CallMessage(r.resp)] + ResultMessages(r, |r.execs|)
  }

  function CallRow(agentID: string, resp: Response): Stored {
    Stored("assistant", agentID, resp.content, resp.reasoning,
           if resp.toolCalls == [] then NoCalls else Calls(resp.toolCalls), "")
  }

  function ResultRow(agentID: string, c: ToolCall, e: Execution, perResult: int): Stored {
    Stored("tool", agentID, if e.error.Some? then e.storedError else ResultText(c, e, perResult), "",
           NameOnly(c.name), c.id)
  }

  /** The rows of the first `n` results whose save succeeded. */
  function ResultRows(agentID: string, r: Round, n: nat): seq<Stored>
    requires n <= |r.execs| && n <= |r.resp.toolCalls|
  {
    if n == 0 then []
    else
      var before := ResultRows(agentID, r, n - 1);
      if r.execs[n - 1].saved
      then before + [ResultRow(agentID, r.resp.toolCalls[n - 1], r.execs[n - 1], r.perResult)]
      else before
  }

  function CallRows(agentID: string, r: Round): seq<Stored> {
    if r.assistantSaved then [CallRow(agentID, r.resp)] else []
  }

  function RoundRows(agentID: string, r: Round, n: nat): seq<Stored>
    requires n <= |r.execs| && n <= |r.resp.toolCalls|
  {
    CallRows(agentID, r) + ResultRows(agentID, r, n)
  }

  /** The position of the first result that cannot be encoded, or the number of results. */
  function FirstUnencodable(execs: seq<Execution>): (n: nat)
    ensures n <= |execs|
    ensures n < |execs| ==> Unencodable(execs[n])
    ensures forall i :: 0 <= i < n ==> !Unencodable(execs[i])
  {
    if execs == [] || Unencodable(execs[0]) then 0 else 1 + FirstUnencodable(execs[1..])
  }

  // ---- the whole run ----

  datatype Trace = Trace(ret: Return, sent: seq<Request>, rounds: seq<Round>, rows: seq<Stored>,
                        completions: seq<string>)

  const SYNTHESIS_PROMPT := Message(User,
    "You have reached your tool call limit. Based solely on the information you have gathered so far, " +
    "provide the best possible response. Do not call any more tools.", "", "", [], "")
  const NOTHING_TO_ADD := "I completed the task but had nothing to add."

  function Executions(env: Environment, call: nat, n: nat): (execs: seq<Execution>)
    ensures |execs| == n
  {
    seq(n, i requires 0 <= i < n => env.execute(call, i))
  }

  function Completion(isTask: bool, resp: Response): seq<string> {
    if isTask then [resp.content] else []
  }

  function Synthesis(env: Environment, isTask: bool, messages: seq<Message>): Trace {
    var request := Request(messages + [SYNTHESIS_PROMPT], 0, []);
    match env.reply(0)
    case CallFailed => Trace(ERROR, [request], [], [], [])
    case Replied(resp) =>
      var answer := if resp.content == "" then resp.(content := NOTHING_TO_ADD) else resp;
      Trace(Return(Some(answer), false), [request], [], [], Completion(isTask, resp))
  }

  function RoundOf(cfg: Config, env: Environment, call: nat, resp: Response): Round {
    Round(resp, Executions(env, call, |resp.toolCalls|),
          BudgetAfter(cfg, resp).perResult, env.assistantSaved(call))
  }

  function BudgetAfter(cfg: Config, resp: Response): TokenBudget.Budget {
    TokenBudget.IterationBudget(cfg.window, TokenBudget.SafetyMargin(cfg.window), resp.inputTokens,
                                |resp.toolCalls|, cfg.maxTokens, cfg.maxPerResult)
  }

  function NextMaxTokens(cfg: Config, resp: Response): int {
    BudgetAfter(cfg, resp).maxTokens
  }

  /** The run from the point where `done` calls were made and `used` tool calls processed. */
  function Loop(cfg: Config, env: Environment, isTask: bool, tools: seq<string>,
                done: nat, used: nat, maxTokens: int, messages: seq<Message>): Trace
    decreases cfg.maxIterations - done, 1
  {
    if env.cancelled(done) then Trace(ERROR, [], [], [], [])
    else if done + 1 > cfg.maxIterations then Synthesis(env, isTask, messages)
    else
      var request := Request(messages, maxTokens, tools);
      match env.reply(done + 1)
      case CallFailed => Trace(ERROR, [request], [], [], [])
      case Replied(resp) =>
        var rest := AfterReply(cfg, env, isTask, tools, done + 1, used, messages, resp);
        rest.(sent := [request] + rest.sent)
  }

  /** The run from the response to call number `call` on. */
  function AfterReply(cfg: Config, env: Environment, isTask: bool, tools: seq<string>,
                      call: nat, used: nat, messages: seq<Message>, resp: Response): Trace
    decreases cfg.maxIterations - call, 2
  {
    if resp.toolCalls == [] then Trace(Return(Some(resp), false), [], [], [], Completion(isTask, resp))
    else if used + |resp.toolCalls| > cfg.maxToolCalls then Synthesis(env, isTask, messages)
    else
      var r := RoundOf(cfg, env, call, resp);
      var n := FirstUnencodable(r.execs);
      if n < |r.execs| then Trace(ERROR, [], [], RoundRows(cfg.agentID, r, n), [])
      else
        var rest := Loop(cfg, env, isTask, tools, call, used + |resp.toolCalls|,
                         NextMaxTokens(cfg, resp), messages + RoundMessages(r));
        rest.(rounds := [r] + rest.rounds, rows := RoundRows(cfg.agentID, r, n) + rest.rows)
  }

  /** What a run starts from: the system prompt, the history and the new user message. */
  function Base(cfg: Config, rows: Option<seq<Stored>>, activity: string, message: string): seq<Message> {
    var history := match rows
                   case None => []
                   case Some(log) =>
                     var view := if cfg.isExecutive then FullView(log, cfg.agentID) else log;
                     HistoryOf(view, cfg.agentID, DEFAULT_HISTORY_TURNS);
    [Message(System, cfg.systemPrompt + activity, "", "", [], "")] + history + [Message(User, message, "", "", [], "")]
  }

  class Agent {
    const cfg: Config
    var tools: seq<string>
    var log: seq<Stored>
    var outbox: seq<string>
    ghost var requests: seq<Request>

    constructor (cfg: Config, tools: seq<string>)
      ensures this.cfg == cfg && this.tools == tools && log == [] && outbox == [] && requests == []
    {
      this.cfg, this.tools, log, outbox, requests := cfg, tools, [], [], [];
    }

    method PrepareExecution(historyRead: bool, activity: string, message: string) returns (messages: seq<Message>)
      ensures messages == Base(cfg, if historyRead then Some(log) else None, activity, message)
    {
      var history: seq<Message> := [];
      if historyRead {
        if cfg.isExecutive {
          history := GetFullHistory(log, cfg.agentID);
        } else {
          history := GetHistory(log, cfg.agentID, DEFAULT_HISTORY_TURNS);
        }
      }
      messages := [Message(System, cfg.systemPrompt + activity, "", "", [], "")];
      messages := messages + history;
      messages := messages + [Message(User, message, "", "", [], "")];
    }

    method RunExecutionLoop(env: Environment, hasChannel: bool, isTask: bool, historyRead: bool,
                            activity: string, message: string)
      returns (ret: Return, ghost trace: Trace)
      modifies this
      ensures !hasChannel ==> ret == ERROR && unchanged(this)
      ensures hasChannel ==>
        var base := Base(cfg, if historyRead then Some(old(log)) else None, activity, message);
        && trace == Loop(cfg, env, isTask, old(tools), 0, 0, cfg.maxTokens, base)
        && ret == trace.ret && requests == old(requests) + trace.sent
        && log == old(log) + trace.rows && outbox == old(outbox) + trace.completions
        && tools == old(tools)
    {
      trace := Trace(ERROR, [], [], [], []);
      if !hasChannel {
        return ERROR, trace;
      }
      var messages := PrepareExecution(historyRead, activity, message);
      trace := Loop(cfg, env, isTask, tools, 0, 0, cfg.maxTokens, messages);
      var used: nat, calls: nat, maxTokens, finished := 0, 0, cfg.maxTokens, false;
      ghost var rest := trace;
      ret := ERROR;
      while !finished
        invariant tools == old(tools)
        invariant !finished ==> rest == Loop(cfg, env, isTask, tools, calls, used, maxTokens, messages)
        invariant finished ==> rest == Trace(ret, [], [], [], [])
        invariant trace.ret == rest.ret
        invariant old(requests) + trace.sent == requests + rest.sent
        invariant old(log) + trace.rows == log + rest.rows
        invariant old(outbox) + trace.completions == outbox + rest.completions
        decreases !finished, cfg.maxIterations - calls
      {
        finished, ret, used, maxTokens, messages := Iterate(env, isTask, calls, used, maxTokens, messages);
        rest := if finished then Trace(ret, [], [], [], [])
                else Loop(cfg, env, isTask, tools, calls + 1, used, maxTokens, messages);
        calls := calls + 1;
      }
    }

    /** One pass of the loop: either the run ends here, or it goes on with one round more. */
    method Iterate(env: Environment, isTask: bool, calls: nat, used: nat, maxTokens: int, messages: seq<Message>)
      returns (finished: bool, ret: Return, used': nat, maxTokens': int, messages': seq<Message>)
      modifies this
      ensures tools == old(tools)
      ensures !finished ==> calls < cfg.maxIterations
      ensures var t := Loop(cfg, env, isTask, tools, calls, used, maxTokens, messages);
              var rest := if finished then Trace(ret, [], [], [], [])
                          else Loop(cfg, env, isTask, tools, calls + 1, used', maxTokens', messages');
              && t.ret == rest.ret
              && old(requests) + t.sent == requests + rest.sent
              && old(log) + t.rows == log + rest.rows
              && old(outbox) + t.completions == outbox + rest.completions
    {
      hide AfterReply, Synthesis;
      finished, ret, used', maxTokens', messages' := true, ERROR, used, maxTokens, messages;
      if env.cancelled(calls) {
        return;
      }
      if calls + 1 > cfg.maxIterations {
        ret := SynthesizeFromContext(env, isTask, messages);
        return;
      }
      requests := requests + [Request(messages, maxTokens, tools)];
      var reply := env.reply(calls + 1);
      if reply.CallFailed? {
        return;
      }
      finished, ret, used', maxTokens', messages' := HandleReply(env, isTask, calls + 1, used, messages, reply.resp);
    }

    /** The part of a pass after the model replied. */
    method HandleReply(env: Environment, isTask: bool, call: nat, used: nat, messages: seq<Message>, resp: Response)
      returns (finished: bool, ret: Return, used': nat, maxTokens': int, messages': seq<Message>)
      modifies this
      ensures tools == old(tools)
      ensures var t := AfterReply(cfg, env, isTask, tools, call, used, messages, resp);
              var rest := if finished then Trace(ret, [], [], [], [])
                          else Loop(cfg, env, isTask, tools, call, used', maxTokens', messages');
              && t.ret == rest.ret
              && old(requests) + t.sent == requests + rest.sent
              && old(log) + t.rows == log + rest.rows
              && old(outbox) + t.completions == outbox + rest.completions
    {
      finished, ret, used', maxTokens', messages' := true, ERROR, used, 0, messages;
      if |resp.toolCalls| == 0 {
        FinaliseTurn(isTask, resp);
        ret := Return(Some(resp), false);
        return;
      }
      used' := used + |resp.toolCalls|;
      if used' > cfg.maxToolCalls {
        ret := SynthesizeFromContext(env, isTask, messages);
        return;
      }
      var budget := TokenBudget.IterationBudget(cfg.window, TokenBudget.SafetyMargin(cfg.window), resp.inputTokens,
                                                |resp.toolCalls|, cfg.maxTokens, cfg.maxPerResult);
      maxTokens' := budget.maxTokens;
      var halt, failed;
      messages', halt, failed := ProcessToolCalls(env, call, resp, budget.perResult, messages);
      if failed {
        return;
      }
      if halt {
        // never reached: processing reports no halt, so no run returns without a response
        assert false;
      }
      finished := false;
    }

    /** Runs every call of a response in order. Nothing ever asks for a halt. */
    method ProcessToolCalls(env: Environment, call: nat, resp: Response, perResult: int, messages: seq<Message>)
      returns (updated: seq<Message>, halt: bool, failed: bool)
      modifies this`log
      ensures !halt
      ensures var r := Round(resp, Executions(env, call, |resp.toolCalls|), perResult, env.assistantSaved(call));
              var n := FirstUnencodable(r.execs);
              && (failed <==> n < |r.execs|)
              && (!failed ==> updated == messages + RoundMessages(r))
              && log == old(log) + RoundRows(cfg.agentID, r, n)
    {
      hide ResultMessage, ResultRow, CallRow, CallMessage, FirstUnencodable;
      ghost var r := Round(resp, Executions(env, call, |resp.toolCalls|), perResult, env.assistantSaved(call));
      if env.assistantSaved(call) {
        log := log + [CallRow(cfg.agentID, resp)];
      }
      updated := messages + [CallMessage(resp)];
      halt, failed := false, false;
      for i := 0 to |resp.toolCalls|
        invariant i <= FirstUnencodable(r.execs)
        invariant updated == messages + ([CallMessage(resp)] + ResultMessages(r, i))
        invariant log == old(log) + (CallRows(cfg.agentID, r) + ResultRows(cfg.agentID, r, i))
      {
        var c := resp.toolCalls[i];
        var e := env.execute(call, i);
        assert r.execs[i] == e;
        if Unencodable(e) {
          assert i == FirstUnencodable(r.execs);
          failed := true;
          return;
        }
        StoreResult(c, e, perResult);
        updated := updated + [ResultMessage(c, e, perResult)];
      }
    }

    method StoreResult(c: ToolCall, e: Execution, perResult: int)
      modifies this`log
      ensures log == if e.saved then old(log) + [ResultRow(cfg.agentID, c, e, perResult)] else old(log)
    {
      if e.saved {
        log := log + [ResultRow(cfg.agentID, c, e, perResult)];
      }
    }

    method FinaliseTurn(isTask: bool, resp: Response)
      modifies this`outbox
      ensures outbox == old(outbox) + Completion(isTask, resp)
    {
      if isTask {
        outbox := outbox + [resp.content];
      }
    }

    /** A last call without tools; the tool list is put back whatever happens. */
    method SynthesizeFromContext(env: Environment, isTask: bool, messages: seq<Message>) returns (ret: Return)
      modifies this`outbox, this`tools, this`requests
      ensures var t := Synthesis(env, isTask, messages);
              && ret == t.ret && requests == old(requests) + t.sent && t.rows == []
              && outbox == old(outbox) + t.completions && tools == old(tools)
    {
      var synthMessages := messages + [SYNTHESIS_PROMPT];
      var savedTools := tools;
      tools := [];
      requests := requests + [Request(synthMessages, 0, tools)];
      var reply := env.reply(0);
      if reply.CallFailed? {
        tools := savedTools;
        return ERROR;
      }
      var resp := reply.resp;
      FinaliseTurn(isTask, resp);
      if resp.content == "" {
        resp := resp.(content := NOTHING_TO_ADD);
      }
      tools := savedTools;
      return Return(Some(resp), false);
    }
  }
}

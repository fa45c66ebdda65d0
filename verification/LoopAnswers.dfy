/** How an execution ends: which reply is the answer, what was sent and run to get it, and when
    there is none. */
module LoopAnswers {
  import opened Options
  import opened ToolProtocol
  import opened History
  import TokenBudget
  import opened ExecutionLoop
  import opened LoopGuarantees

  // ---- the rounds of a run ----

  /** The limits after a reply: its own input tokens and calls, the agent's window, margin and
      ceilings. */
  function NextBudget(cfg: Config, resp: Response): TokenBudget.Budget {
    var margin := TokenBudget.SafetyMargin(cfg.window);
    TokenBudget.IterationBudget(cfg.window, margin, resp.inputTokens, |resp.toolCalls|, cfg.maxTokens, cfg.maxPerResult)
  }

  /** The call ran, and its result has no JSON text. */
  predicate LacksResult(e: Execution) {
    Ran(e) && e.result.None?
  }

  /** Round `i` of a run that starts after call `done`: what the model replied to call
      `done + 1 + i`, each of its calls executed once, in order, under that reply's budget. */
  ghost predicate IsRound(cfg: Config, env: Environment, done: nat, rounds: seq<Round>, i: nat)
    requires i < |rounds|
  {
    var call, r := done + 1 + i, rounds[i];
    && env.reply(call) == Replied(r.resp) && r.resp.toolCalls != []
    && |r.execs| == |r.resp.toolCalls|
    && (forall j :: 0 <= j < |r.execs| ==> r.execs[j] == env.execute(call, j) && !LacksResult(r.execs[j]))
    && r.perResult == NextBudget(cfg, r.resp).perResult && r.assistantSaved == env.assistantSaved(call)
    && !env.cancelled(call - 1) && call <= cfg.maxIterations
  }

  ghost predicate AreRounds(cfg: Config, env: Environment, done: nat, rounds: seq<Round>) {
    forall i :: 0 <= i < |rounds| ==> IsRound(cfg, env, done, rounds, i)
  }

  /** The model asks for more calls than are left. */
  ghost predicate AsksTooMuch(cfg: Config, env: Environment, k: nat, used: nat) {
    && env.reply(k).Replied? && env.reply(k).resp.toolCalls != []
    && used + |env.reply(k).resp.toolCalls| > cfg.maxToolCalls
  }

  /** The run is to be synthesized at call `k`: no iteration is left, or the model asks for more
      calls than are left. */
  ghost predicate OutOfRoom(cfg: Config, env: Environment, k: nat, used: nat) {
    k > cfg.maxIterations || AsksTooMuch(cfg, env, k, used)
  }

  /** Nothing is returned at call `k`: the run was cancelled, the model call or the synthesis
      call failed, or a result could not be encoded. */
  ghost predicate Broken(cfg: Config, env: Environment, k: nat, used: nat)
    requires k > 0
  {
    || env.cancelled(k - 1)
    || (if OutOfRoom(cfg, env, k, used) then env.reply(0).CallFailed?
        else env.reply(k).CallFailed? || exists j :: 0 <= j < |env.reply(k).resp.toolCalls| && LacksResult(env.execute(k, j)))
  }

  /** The answer of a synthesis: the reply to the tool-free call, or a fixed text for no text. */
  function SynthesizedAnswer(resp: Response): Response {
    if resp.content == "" then resp.(content := "I completed the task but had nothing to add.") else resp
  }

  /** How the run ends at call `k` with `used` tool calls made. */
  ghost predicate EndsAt(cfg: Config, env: Environment, isTask: bool, k: nat, used: nat, ret: Return,
                         completions: seq<string>)
    requires k > 0
  {
    && (ret.failed <==> Broken(cfg, env, k, used))
    && (ret.failed ==> ret.resp == None && completions == [])
    && (!ret.failed && OutOfRoom(cfg, env, k, used) ==>
          && env.reply(0).Replied? && ret.resp == Some(SynthesizedAnswer(env.reply(0).resp))
          && completions == (if isTask then [env.reply(0).resp.content] else []))
    && (!ret.failed && !OutOfRoom(cfg, env, k, used) ==>
          && env.reply(k).Replied? && env.reply(k).resp.toolCalls == []
          && ret.resp == Some(env.reply(k).resp)
          && completions == (if isTask then [env.reply(k).resp.content] else []))
  }

  /** The first round, from what the model and the tools did. */
  lemma {:induction false} FirstIsRound(cfg: Config, env: Environment, isTask: bool, tools: seq<string>,
                                        done: nat, used: nat, maxTokens: int, messages: seq<Message>)
    requires Loop(cfg, env, isTask, tools, done, used, maxTokens, messages).rounds != []
    ensures env.reply(done + 1).Replied?
    ensures var r := RoundOf(cfg, env, done + 1, env.reply(done + 1).resp);
            r.resp == env.reply(done + 1).resp && IsRound(cfg, env, done, [r], 0)
  {
    hide NextMaxTokens, RoundMessages, RoundRows;
    FirstRound(cfg, env, isTask, tools, done, used, maxTokens, messages);
    var resp := env.reply(done + 1).resp;
    var r := RoundOf(cfg, env, done + 1, resp);
    assert AfterReply(cfg, env, isTask, tools, done + 1, used, messages, resp).rounds != [];
    assert FirstUnencodable(r.execs) == |r.execs|;
  }

  lemma {:induction false} RoundsShift(cfg: Config, env: Environment, done: nat, r: Round, rounds: seq<Round>)
    requires IsRound(cfg, env, done, [r], 0) && AreRounds(cfg, env, done + 1, rounds)
    ensures AreRounds(cfg, env, done, [r] + rounds)
    ensures CallsIn([r] + rounds) == |r.resp.toolCalls| + CallsIn(rounds)
  {
    var all := [r] + rounds;
    forall i | 0 <= i < |all| ensures IsRound(cfg, env, done, all, i) {
      assert i > 0 ==> IsRound(cfg, env, done + 1, rounds, i - 1);
    }
    MoreCalls(r, rounds);
  }

  /** With `k` the number of the call after its rounds, the run ends at call `k`. */
  ghost predicate Ends(cfg: Config, env: Environment, isTask: bool, done: nat, used: nat, t: Trace) {
    && AreRounds(cfg, env, done, t.rounds)
    && EndsAt(cfg, env, isTask, done + |t.rounds| + 1, used + CallsIn(t.rounds), t.ret, t.completions)
  }

  lemma EndsLater(cfg: Config, env: Environment, isTask: bool, done: nat, used: nat, t: Trace, r: Round, rest: Trace)
    requires IsRound(cfg, env, done, [r], 0) && Ends(cfg, env, isTask, done + 1, used + |r.resp.toolCalls|, rest)
    requires t.rounds == [r] + rest.rounds && t.ret == rest.ret && t.completions == rest.completions
    ensures Ends(cfg, env, isTask, done, used, t)
  {
    hide EndsAt, AreRounds, IsRound, CallsIn;
    RoundsShift(cfg, env, done, r, rest.rounds);
  }

  // ---- what is sent ----

  /** The output limit of request `i`: the configured one first, then the budget that the reply
      before leaves. */
  function MaxTokensAt(cfg: Config, maxTokens: int, rounds: seq<Round>, i: nat): int
    requires i <= |rounds|
  {
    if i == 0 then maxTokens else NextBudget(cfg, rounds[i - 1].resp).maxTokens
  }

  /** Request `i` has the starting list and the first `i` rounds, and all tools. */
  ghost predicate IsRequest(cfg: Config, tools: seq<string>, maxTokens: int, messages: seq<Message>,
                            rounds: seq<Round>, request: Request, i: nat)
    requires ValidRounds(rounds) && i <= |rounds|
  {
    request == Request(messages + AllRounds(rounds[..i]), MaxTokensAt(cfg, maxTokens, rounds, i), tools)
  }

  /** The synthesis request has all rounds, the prompt, no limit and no tools. */
  ghost predicate IsSynthesis(messages: seq<Message>, rounds: seq<Round>, request: Request)
    requires ValidRounds(rounds)
  {
    request == Request(messages + AllRounds(rounds) + [SYNTHESIS_PROMPT], 0, [])
  }

  /** The ordinary requests: one for each round, and one for the reply that ends the run, unless
      it is cancelled before or no iteration is left. */
  ghost function Ordinary(cfg: Config, env: Environment, done: nat, rounds: seq<Round>): nat {
    |rounds| + if env.cancelled(done + |rounds|) || done + |rounds| + 1 > cfg.maxIterations then 0 else 1
  }

  ghost predicate Sends(cfg: Config, env: Environment, tools: seq<string>, done: nat, used: nat, maxTokens: int,
                        messages: seq<Message>, sent: seq<Request>, rounds: seq<Round>) {
    var k, n := done + |rounds| + 1, Ordinary(cfg, env, done, rounds);
    && ValidRounds(rounds)
    && |sent| == n + (if !env.cancelled(k - 1) && OutOfRoom(cfg, env, k, used + CallsIn(rounds)) then 1 else 0)
    && (forall i :: 0 <= i < n ==> IsRequest(cfg, tools, maxTokens, messages, rounds, sent[i], i))
    && (|sent| > n ==> IsSynthesis(messages, rounds, sent[n]))
  }

  lemma SendsLater(cfg: Config, env: Environment, tools: seq<string>, done: nat, used: nat, maxTokens: int,
                   messages: seq<Message>, r: Round, sent: seq<Request>, rounds: seq<Round>)
    requires r.Valid()
    requires Sends(cfg, env, tools, done + 1, used + |r.resp.toolCalls|, NextMaxTokens(cfg, r.resp),
                   messages + RoundMessages(r), sent, rounds)
    ensures Sends(cfg, env, tools, done, used, maxTokens, messages,
                  [Request(messages, maxTokens, tools)] + sent, [r] + rounds)
  {
    hide OutOfRoom;
    var all, allSent, longer := [r] + rounds, [Request(messages, maxTokens, tools)] + sent, messages + RoundMessages(r);
    var n := Ordinary(cfg, env, done, all);
    assert all[1..] == rounds;
    assert messages + AllRounds(all[..0]) == messages;
    Assoc(messages, RoundMessages(r), AllRounds(rounds));
    hide AllRounds;
    forall i | 0 < i < n ensures IsRequest(cfg, tools, maxTokens, messages, all, allSent[i], i) {
      assert IsRequest(cfg, tools, NextMaxTokens(cfg, r.resp), longer, rounds, sent[i - 1], i - 1);
      RequestLater(cfg, tools, maxTokens, messages, r, rounds, sent[i - 1], i);
    }
  }

  lemma RequestLater(cfg: Config, tools: seq<string>, maxTokens: int, messages: seq<Message>, r: Round,
                     rounds: seq<Round>, request: Request, i: nat)
    requires r.Valid() && ValidRounds(rounds) && 0 < i <= |rounds| + 1
    requires IsRequest(cfg, tools, NextMaxTokens(cfg, r.resp), messages + RoundMessages(r), rounds, request, i - 1)
    ensures ValidRounds([r] + rounds) && IsRequest(cfg, tools, maxTokens, messages, [r] + rounds, request, i)
  {
    var front := ([r] + rounds)[..i];
    assert front[0] == r && front[1..] == rounds[..i - 1];
    Assoc(messages, RoundMessages(r), AllRounds(rounds[..i - 1]));
  }

  // ---- whole runs ----

  /** How every run ends, and all it sends. It returns the reply to the call after its rounds, or
      a synthesis exactly if it is out of room there, or nothing exactly if something breaks
      there; a task reports the content of that very reply. Nothing sent earlier is ever changed
      or dropped from what is sent later. */
  lemma {:induction false} RunEnds(cfg: Config, env: Environment, isTask: bool, tools: seq<string>,
                                   done: nat, used: nat, maxTokens: int, messages: seq<Message>)
    ensures var t := Loop(cfg, env, isTask, tools, done, used, maxTokens, messages);
            && Ends(cfg, env, isTask, done, used, t)
            && Sends(cfg, env, tools, done, used, maxTokens, messages, t.sent, t.rounds)
    decreases cfg.maxIterations - done
  {
    hide Ends, Sends, Loop, NextMaxTokens, RoundMessages, RoundRows, IsRound;
    var t := Loop(cfg, env, isTask, tools, done, used, maxTokens, messages);
    if t.rounds == [] {
      EndsAtOnce(cfg, env, isTask, tools, done, used, maxTokens, messages);
      SendsAtOnce(cfg, env, isTask, tools, done, used, maxTokens, messages);
    } else {
      FirstRound(cfg, env, isTask, tools, done, used, maxTokens, messages);
      FirstIsRound(cfg, env, isTask, tools, done, used, maxTokens, messages);
      var resp := env.reply(done + 1).resp;
      var r := RoundOf(cfg, env, done + 1, resp);
      var rest := Loop(cfg, env, isTask, tools, done + 1, used + |resp.toolCalls|, NextMaxTokens(cfg, resp),
                       messages + RoundMessages(r));
      RunEnds(cfg, env, isTask, tools, done + 1, used + |resp.toolCalls|, NextMaxTokens(cfg, resp),
              messages + RoundMessages(r));
      EndsLater(cfg, env, isTask, done, used, t, r, rest);
      SendsLater(cfg, env, tools, done, used, maxTokens, messages, r, rest.sent, rest.rounds);
    }
  }

  lemma {:induction false} EndsAtOnce(cfg: Config, env: Environment, isTask: bool, tools: seq<string>,
                                      done: nat, used: nat, maxTokens: int, messages: seq<Message>)
    requires Loop(cfg, env, isTask, tools, done, used, maxTokens, messages).rounds == []
    ensures Ends(cfg, env, isTask, done, used, Loop(cfg, env, isTask, tools, done, used, maxTokens, messages))
  {
  }

  lemma {:induction false} SendsAtOnce(cfg: Config, env: Environment, isTask: bool, tools: seq<string>,
                                       done: nat, used: nat, maxTokens: int, messages: seq<Message>)
    requires Loop(cfg, env, isTask, tools, done, used, maxTokens, messages).rounds == []
    ensures Sends(cfg, env, tools, done, used, maxTokens, messages,
                  Loop(cfg, env, isTask, tools, done, used, maxTokens, messages).sent, [])
  {
    var none: seq<Round> := [];
    assert none[..0] == none && messages + AllRounds(none) == messages;
  }

  // ---- what a round shows ----

  /** A round shows the reply, and for each call, under its ID and tool name, what came of it: the
      error, the halt text, or the result, whole if it fits the budget and its front if not. */
  lemma RoundShown(r: Round, i: nat)
    requires r.Valid() && i < |r.execs| && !LacksResult(r.execs[i])
    ensures |RoundMessages(r)| == |r.execs| + 1
    ensures RoundMessages(r)[0] == Message(Assistant, r.resp.content, r.resp.reasoning, "", r.resp.toolCalls, "")
    ensures var c, e, m := r.resp.toolCalls[i], r.execs[i], RoundMessages(r)[i + 1];
            && m == Message(Tool, m.content, "", c.name, [], c.id)
            && (e.error.Some? ==> m.content == "{\"error\": \"" + e.error.value + "\"}")
            && (e.error.None? && e.control == Halt && e.message != "" ==> m.content == e.message)
            && (e.error.None? && e.control == Halt && e.message == "" ==>
                  m.content == "{\"status\": \"halted\", \"tool\": \"" + c.name + "\"}")
            && (Ran(e) ==> && m.content <= e.result.value
                           && (m.content == e.result.value <==> r.perResult <= 0 || |e.result.value| <= r.perResult)
                           && (m.content != e.result.value ==> |m.content| == r.perResult))
  {
  }

  /** A later turn shows a stored result as the run saw it, if it is at most 500 characters long
      and no error; of an error it shows the stored quote. */
  lemma ResultRemembered(agentID: string, c: ToolCall, e: Execution, perResult: int)
    ensures e.error.None? && |ResultText(c, e, perResult)| <= 500 ==>
              ToMessage(ResultRow(agentID, c, e, perResult), agentID) == Some(ResultMessage(c, e, perResult))
    ensures e.error.Some? && |e.storedError| <= 500 ==>
              ToMessage(ResultRow(agentID, c, e, perResult), agentID) ==
              Some(Message(Tool, e.storedError, "", c.name, [], c.id))
  {
  }

  /** The rows of the round that breaks off at call `k`: the call and the results before the
      first that cannot be encoded. A run that does not break there leaves none. */
  function BrokenRows(cfg: Config, env: Environment, k: nat, used: nat): seq<Stored>
    requires k > 0
  {
    if env.cancelled(k - 1) || k > cfg.maxIterations || env.reply(k).CallFailed? then []
    else
      var resp := env.reply(k).resp;
      if resp.toolCalls == [] || used + |resp.toolCalls| > cfg.maxToolCalls then []
      else
        var r := RoundOf(cfg, env, k, resp);
        RoundRows(cfg.agentID, r, FirstUnencodable(r.execs))
  }

  /** What a run stores: the rows of its rounds, and of the one it breaks off in, if any. */
  lemma {:induction false} RowsExact(cfg: Config, env: Environment, isTask: bool, tools: seq<string>,
                                     done: nat, used: nat, maxTokens: int, messages: seq<Message>)
    ensures var t := Loop(cfg, env, isTask, tools, done, used, maxTokens, messages);
            && ValidRounds(t.rounds)
            && t.rows == AllRows(cfg.agentID, t.rounds)
                         + BrokenRows(cfg, env, done + |t.rounds| + 1, used + CallsIn(t.rounds))
    decreases cfg.maxIterations - done
  {
    hide Loop, NextMaxTokens, RoundMessages, RoundRows, AllRows, CallsIn, BrokenRows;
    var t := Loop(cfg, env, isTask, tools, done, used, maxTokens, messages);
    if t.rounds == [] {
      RowsAtOnce(cfg, env, isTask, tools, done, used, maxTokens, messages);
    } else {
      FirstRound(cfg, env, isTask, tools, done, used, maxTokens, messages);
      var resp := env.reply(done + 1).resp;
      var r := RoundOf(cfg, env, done + 1, resp);
      var rest := Loop(cfg, env, isTask, tools, done + 1, used + |resp.toolCalls|, NextMaxTokens(cfg, resp),
                       messages + RoundMessages(r));
      RowsExact(cfg, env, isTask, tools, done + 1, used + |resp.toolCalls|, NextMaxTokens(cfg, resp),
                messages + RoundMessages(r));
      FirstRows(cfg.agentID, r, rest.rounds);
      MoreCalls(r, rest.rounds);
      Assoc(RoundRows(cfg.agentID, r, |r.execs|), AllRows(cfg.agentID, rest.rounds),
            BrokenRows(cfg, env, done + |t.rounds| + 1, used + CallsIn(t.rounds)));
    }
  }

  lemma MoreCalls(r: Round, rounds: seq<Round>)
    ensures CallsIn([r] + rounds) == |r.resp.toolCalls| + CallsIn(rounds)
  {
    assert ([r] + rounds)[1..] == rounds;
  }

  lemma {:induction false} RowsAtOnce(cfg: Config, env: Environment, isTask: bool, tools: seq<string>,
                                      done: nat, used: nat, maxTokens: int, messages: seq<Message>)
    requires Loop(cfg, env, isTask, tools, done, used, maxTokens, messages).rounds == []
    ensures Loop(cfg, env, isTask, tools, done, used, maxTokens, messages).rows ==
            AllRows(cfg.agentID, []) + BrokenRows(cfg, env, done + 1, used + CallsIn([]))
  {
  }

  /** All of them are the agent's own. */
  lemma {:induction false} RowsOwn(cfg: Config, env: Environment, isTask: bool, tools: seq<string>,
                                   done: nat, used: nat, maxTokens: int, messages: seq<Message>, row: Stored)
    requires row in Loop(cfg, env, isTask, tools, done, used, maxTokens, messages).rows
    ensures row.agentID == cfg.agentID
  {
    hide Loop, RoundRows;
    RowsExact(cfg, env, isTask, tools, done, used, maxTokens, messages);
    var t := Loop(cfg, env, isTask, tools, done, used, maxTokens, messages);
    var k := done + |t.rounds| + 1;
    if row in AllRows(cfg.agentID, t.rounds) {
      AllRowsOwn(cfg.agentID, t.rounds, row);
    } else {
      var r := RoundOf(cfg, env, k, env.reply(k).resp);
      RoundRowsOwn(cfg.agentID, r, FirstUnencodable(r.execs), row);
    }
  }

  lemma {:induction false} AllRowsOwn(agentID: string, rounds: seq<Round>, row: Stored)
    requires ValidRounds(rounds) && row in AllRows(agentID, rounds)
    ensures row.agentID == agentID
  {
    if row in RoundRows(agentID, rounds[0], |rounds[0].execs|) {
      RoundRowsOwn(agentID, rounds[0], |rounds[0].execs|, row);
    } else {
      AllRowsOwn(agentID, rounds[1..], row);
    }
  }

  lemma {:induction false} RoundRowsOwn(agentID: string, r: Round, n: nat, row: Stored)
    requires n <= |r.execs| && n <= |r.resp.toolCalls| && row in RoundRows(agentID, r, n)
    ensures row.agentID == agentID
  {
    if n > 0 {
      if row in RoundRows(agentID, r, n - 1) {
        RoundRowsOwn(agentID, r, n - 1, row);
      }
    }
  }

  // ---- what a run starts from ----

  /** First the system prompt, last the new message as it is, and the history in between. */
  lemma BaseParts(cfg: Config, rows: Option<seq<Stored>>, activity: string, message: string)
    ensures var base := Base(cfg, rows, activity, message); var n := |base| - 1;
            && n >= 1
            && base[0] == Message(System, cfg.systemPrompt + activity, "", "", [], "")
            && base[n] == Message(User, message, "", "", [], "")
            && (rows.None? ==> base[1..n] == [])
            && (rows.Some? && !cfg.isExecutive ==> base[1..n] == HistoryOf(rows.value, cfg.agentID, 10))
            && (rows.Some? && cfg.isExecutive ==>
                  base[1..n] == HistoryOf(FullView(rows.value, cfg.agentID), cfg.agentID, 10))
  {
  }
}

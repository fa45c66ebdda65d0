/** What every execution guarantees, whatever the model, the tools and the store do. */
module LoopGuarantees {
  import opened Options
  import opened ToolProtocol
  import opened History
  import TokenBudget
  import opened ExecutionLoop

  // ---- the lists sent to the model ----

  ghost predicate NamedCalls(resp: Response) {
    forall c :: c in resp.toolCalls ==> c.id != ""
  }

  /** The model gives every tool call an ID. */
  ghost predicate NamesCalls(env: Environment) {
    forall k: nat :: env.reply(k).Replied? ==> NamedCalls(env.reply(k).resp)
  }

  /** A round answers its calls exactly when all of them have IDs. */
  lemma {:induction false} RoundCovered(r: Round)
    requires r.Valid()
    ensures Covers(CallMessage(r.resp), ResultMessages(r, |r.execs|)) <==> NamedCalls(r.resp)
  {
    var calls, results := r.resp.toolCalls, ResultMessages(r, |r.execs|);
    if NamedCalls(r.resp) {
      forall id | id in CallIDs(calls) ensures id in AnsweredIDs(results) {
        var c :| c in calls && c.id == id;
        var i :| 0 <= i < |calls| && calls[i] == c;
        assert results[i] in results && results[i].toolCallID == id;
      }
    } else {
      var c :| c in calls && c.id == "";
      assert "" in CallIDs(calls);
    }
  }

  /** Adding a round to a well-formed list keeps it well formed exactly when all the round's
      calls have IDs, on the error, halt and ordinary result alike. */
  lemma {:induction false} RoundKeepsShape(messages: seq<Message>, r: Round)
    requires WellFormed(messages) && r.Valid()
    ensures WellFormed(messages + RoundMessages(r)) <==> NamedCalls(r.resp)
  {
    RoundCovered(r);
    WellFormedBlock(CallMessage(r.resp), ResultMessages(r, |r.execs|));
    WellFormedConcat(messages, RoundMessages(r));
  }

  lemma PlainKeepsShape(messages: seq<Message>, m: Message)
    requires WellFormed(messages) && m.role != Tool && !CallsTools(m)
    ensures WellFormed(messages + [m])
  {
    WellFormedPlain(m);
    WellFormedConcat(messages, [m]);
  }

  /** A run starts from a well-formed list, whatever is in the store. */
  lemma {:induction false} BaseWellFormed(cfg: Config, rows: Option<seq<Stored>>, activity: string, message: string)
    ensures WellFormed(Base(cfg, rows, activity, message))
  {
    var head := [Message(System, cfg.systemPrompt + activity, "", "", [], "")];
    var history: seq<Message> := [];
    if rows.Some? {
      var view := if cfg.isExecutive then FullView(rows.value, cfg.agentID) else rows.value;
      HistoryWellFormed(view, cfg.agentID, DEFAULT_HISTORY_TURNS);
      NoToolFirst(Convert(Window(view, DEFAULT_HISTORY_TURNS), cfg.agentID));
      history := HistoryOf(view, cfg.agentID, DEFAULT_HISTORY_TURNS);
    }
    WellFormedPlain(head[0]);
    WellFormedConcat(head, history);
    PlainKeepsShape(head + history, Message(User, message, "", "", [], ""));
  }

  ghost predicate AllWellFormed(sent: seq<Request>) {
    forall i :: 0 <= i < |sent| ==> WellFormed(sent[i].messages)
  }

  lemma {:induction false} SynthesisSends(env: Environment, isTask: bool, messages: seq<Message>)
    requires WellFormed(messages)
    ensures AllWellFormed(Synthesis(env, isTask, messages).sent)
  {
    PlainKeepsShape(messages, SYNTHESIS_PROMPT);
  }

  /** Every list sent to the model, the synthesis call included, is well formed. */
  lemma {:induction false} SentWellFormed(cfg: Config, env: Environment, isTask: bool, tools: seq<string>,
                                          done: nat, used: nat, maxTokens: int, messages: seq<Message>)
    requires WellFormed(messages) && NamesCalls(env)
    ensures AllWellFormed(Loop(cfg, env, isTask, tools, done, used, maxTokens, messages).sent)
    decreases cfg.maxIterations - done, 1
  {
    if !env.cancelled(done) {
      if done + 1 > cfg.maxIterations {
        SynthesisSends(env, isTask, messages);
      } else if env.reply(done + 1).Replied? {
        LaterSentWellFormed(cfg, env, isTask, tools, done + 1, used, messages, env.reply(done + 1).resp);
      }
    }
  }

  lemma {:induction false} AfterReplySent(cfg: Config, env: Environment, isTask: bool, tools: seq<string>,
                                          call: nat, used: nat, messages: seq<Message>, resp: Response)
    requires resp.toolCalls != [] && used + |resp.toolCalls| <= cfg.maxToolCalls
    ensures var sent := AfterReply(cfg, env, isTask, tools, call, used, messages, resp).sent;
            || sent == []
            || sent == Loop(cfg, env, isTask, tools, call, used + |resp.toolCalls|, NextMaxTokens(cfg, resp),
                            messages + RoundMessages(RoundOf(cfg, env, call, resp))).sent
  {
  }

  lemma {:induction false} LaterSentWellFormed(cfg: Config, env: Environment, isTask: bool, tools: seq<string>,
                                               call: nat, used: nat, messages: seq<Message>, resp: Response)
    requires WellFormed(messages) && NamesCalls(env) && NamedCalls(resp)
    ensures AllWellFormed(AfterReply(cfg, env, isTask, tools, call, used, messages, resp).sent)
    decreases cfg.maxIterations - call, 2
  {
    hide Loop, RoundMessages, NextMaxTokens, Synthesis;
    if resp.toolCalls != [] {
      if used + |resp.toolCalls| > cfg.maxToolCalls {
        SynthesisSends(env, isTask, messages);
      } else {
        var r := RoundOf(cfg, env, call, resp);
        RoundKeepsShape(messages, r);
        AfterReplySent(cfg, env, isTask, tools, call, used, messages, resp);
        hide AfterReply, RoundOf, WellFormed;
        SentWellFormed(cfg, env, isTask, tools, call, used + |resp.toolCalls|,
                       NextMaxTokens(cfg, resp), messages + RoundMessages(r));
      }
    }
  }

  /** Of a whole run: every list sent is well formed, for any stored log, any tool behaviour,
      any store failures, and any model that gives its calls IDs. */
  lemma RunSendsWellFormed(cfg: Config, env: Environment, isTask: bool, tools: seq<string>,
                           rows: Option<seq<Stored>>, activity: string, message: string)
    requires NamesCalls(env)
    ensures AllWellFormed(Loop(cfg, env, isTask, tools, 0, 0, cfg.maxTokens, Base(cfg, rows, activity, message)).sent)
  {
    BaseWellFormed(cfg, rows, activity, message);
    SentWellFormed(cfg, env, isTask, tools, 0, 0, cfg.maxTokens, Base(cfg, rows, activity, message));
  }

  // ---- limits and results ----

  function CallsIn(rounds: seq<Round>): nat {
    if rounds == [] then 0 else |rounds[0].resp.toolCalls| + CallsIn(rounds[1..])
  }

  /** At most `maxIterations` ordinary calls plus one synthesis call are made, and at most
      `maxToolCalls` tool calls are processed. */
  lemma {:induction false} RunBounded(cfg: Config, env: Environment, isTask: bool, tools: seq<string>,
                                      done: nat, used: nat, maxTokens: int, messages: seq<Message>)
    ensures var t := Loop(cfg, env, isTask, tools, done, used, maxTokens, messages);
            && |t.sent| <= (if done < cfg.maxIterations then cfg.maxIterations - done else 0) + 1
            && |t.rounds| <= (if done < cfg.maxIterations then cfg.maxIterations - done else 0)
            && (t.rounds != [] ==> used + CallsIn(t.rounds) <= cfg.maxToolCalls)
    decreases cfg.maxIterations - done
  {
    if !env.cancelled(done) && done + 1 <= cfg.maxIterations && env.reply(done + 1).Replied? {
      var resp := env.reply(done + 1).resp;
      if resp.toolCalls != [] && used + |resp.toolCalls| <= cfg.maxToolCalls {
        var r := RoundOf(cfg, env, done + 1, resp);
        if FirstUnencodable(r.execs) == |r.execs| {
          RunBounded(cfg, env, isTask, tools, done + 1, used + |resp.toolCalls|,
                     NextMaxTokens(cfg, resp), messages + RoundMessages(r));
        }
      }
    }
  }

  /** A run returns an error or a response, never neither and never both; and a workflow
      task is reported complete exactly when a response is returned, once. */
  lemma {:induction false} RunReturns(cfg: Config, env: Environment, isTask: bool, tools: seq<string>,
                                      done: nat, used: nat, maxTokens: int, messages: seq<Message>)
    ensures var t := Loop(cfg, env, isTask, tools, done, used, maxTokens, messages);
            && (t.ret.failed <==> t.ret.resp.None?)
            && |t.completions| == (if isTask && !t.ret.failed then 1 else 0)
    decreases cfg.maxIterations - done
  {
    if !env.cancelled(done) && done + 1 <= cfg.maxIterations && env.reply(done + 1).Replied? {
      var resp := env.reply(done + 1).resp;
      if resp.toolCalls != [] && used + |resp.toolCalls| <= cfg.maxToolCalls {
        var r := RoundOf(cfg, env, done + 1, resp);
        if FirstUnencodable(r.execs) == |r.execs| {
          RunReturns(cfg, env, isTask, tools, done + 1, used + |resp.toolCalls|,
                     NextMaxTokens(cfg, resp), messages + RoundMessages(r));
        }
      }
    }
  }

  function AllRounds(rounds: seq<Round>): seq<Message>
    requires forall i :: 0 <= i < |rounds| ==> |rounds[i].execs| == |rounds[i].resp.toolCalls|
  {
    if rounds == [] then [] else RoundMessages(rounds[0]) + AllRounds(rounds[1..])
  }

  ghost predicate ValidRounds(rounds: seq<Round>) {
    forall i :: 0 <= i < |rounds| ==> rounds[i].Valid()
  }

  /** A run with rounds is its first round followed by the run from there. */
  lemma {:induction false} FirstRound(cfg: Config, env: Environment, isTask: bool, tools: seq<string>,
                                      done: nat, used: nat, maxTokens: int, messages: seq<Message>)
    requires Loop(cfg, env, isTask, tools, done, used, maxTokens, messages).rounds != []
    ensures done < cfg.maxIterations && env.reply(done + 1).Replied? && env.reply(done + 1).resp.toolCalls != []
    ensures var t := Loop(cfg, env, isTask, tools, done, used, maxTokens, messages);
            var resp := env.reply(done + 1).resp;
            var r := RoundOf(cfg, env, done + 1, resp);
            var rest := Loop(cfg, env, isTask, tools, done + 1, used + |resp.toolCalls|,
                             NextMaxTokens(cfg, resp), messages + RoundMessages(r));
            && t.sent == [Request(messages, maxTokens, tools)] + rest.sent
            && t.rounds == [r] + rest.rounds && t.ret == rest.ret && t.completions == rest.completions
            && t.rows == RoundRows(cfg.agentID, r, |r.execs|) + rest.rows
  {
    var resp := env.reply(done + 1).resp;
    var t := AfterReply(cfg, env, isTask, tools, done + 1, used, messages, resp);
    assert t.rounds != [];
  }

  // ---- the room a round takes ----

  /** The call ran: no error and no halt, so its result is subject to the budget. */
  predicate Ran(e: Execution) {
    e.error.None? && e.control == Continue
  }

  /** The result is subject to the budget, or short enough as it is. */
  predicate WithinBudget(r: Round, i: nat)
    requires i < |r.execs| && i < |r.resp.toolCalls|
  {
    Ran(r.execs[i]) || |ResultText(r.resp.toolCalls[i], r.execs[i], 0)| <= r.perResult
  }

  /** The length of the first `n` result texts of a round, as the model sees them. */
  function TextLength(r: Round, n: nat): nat
    requires n <= |r.execs| && n <= |r.resp.toolCalls|
  {
    if n == 0 then 0
    else TextLength(r, n - 1) + |ResultText(r.resp.toolCalls[n - 1], r.execs[n - 1], r.perResult)|
  }

  lemma {:induction false} TextsWithin(r: Round, n: nat)
    requires n <= |r.execs| == |r.resp.toolCalls| && r.perResult > 0
    requires forall i :: 0 <= i < n ==> WithinBudget(r, i)
    ensures TextLength(r, n) <= n * r.perResult
  {
    if n > 0 {
      TextsWithin(r, n - 1);
      OthersEscape(r.resp.toolCalls[n - 1], r.execs[n - 1], r.perResult);
      assert WithinBudget(r, n - 1);
      assert n * r.perResult == (n - 1) * r.perResult + r.perResult;
    }
  }

  /** With a positive result budget a round fits: the input, the next output, all its result
      texts and the margin stay within the window, unless an error or halt text is too long. */
  lemma {:induction false} RoundTextsFit(cfg: Config, env: Environment, call: nat, resp: Response)
    requires cfg.window >= 0 && resp.toolCalls != []
    requires var r := RoundOf(cfg, env, call, resp);
             r.perResult > 0 && forall i :: 0 <= i < |r.execs| ==> WithinBudget(r, i)
    ensures resp.inputTokens + NextMaxTokens(cfg, resp)
            + TextLength(RoundOf(cfg, env, call, resp), |resp.toolCalls|)
            + TokenBudget.SafetyMargin(cfg.window) <= cfg.window
  {
    var r, n, margin := RoundOf(cfg, env, call, resp), |resp.toolCalls|, TokenBudget.SafetyMargin(cfg.window);
    TextsWithin(r, n);
    TokenBudget.RoundFits(cfg.window, margin, resp.inputTokens, n, cfg.maxTokens, cfg.maxPerResult);
    TokenBudget.NoResultBudget(cfg.window, margin, resp.inputTokens, n, cfg.maxTokens, cfg.maxPerResult);
  }

  /** Only results of calls that ran are cut. An error or halt text is the same under every
      budget, so it stays within one exactly if it is that short itself. */
  lemma OthersEscape(c: ToolCall, e: Execution, perResult: int)
    requires perResult > 0
    ensures |ResultText(c, e, perResult)| <= perResult <==> Ran(e) || |ResultText(c, e, 0)| <= perResult
    ensures e.error.Some? ==> |ResultText(c, e, perResult)| > |e.error.value|
    ensures !Ran(e) ==> ResultText(c, e, perResult) == ResultText(c, e, 0)
  {
  }

  // ---- what later turns see of it ----

  /** The call row and, for each call, an answering result row were saved. */
  ghost predicate FullySaved(r: Round)
    requires |r.execs| == |r.resp.toolCalls|
  {
    r.assistantSaved && CallIDs(r.resp.toolCalls) <= SavedIDs(r, |r.execs|)
  }

  /** The call IDs that the first `n` saved results answer. */
  ghost function SavedIDs(r: Round, n: nat): set<string>
    requires n <= |r.execs| == |r.resp.toolCalls|
  {
    set i | 0 <= i < n && r.execs[i].saved && r.resp.toolCalls[i].id != "" :: r.resp.toolCalls[i].id
  }

  lemma AnsweredAppend(ms: seq<Message>, m: Message)
    ensures AnsweredIDs(ms + [m]) == AnsweredIDs(ms) + if m.toolCallID != "" then {m.toolCallID} else {}
  {
  }

  lemma SavedAppend(r: Round, n: nat)
    requires n < |r.execs| == |r.resp.toolCalls|
    ensures var id := r.resp.toolCalls[n].id;
            SavedIDs(r, n + 1) == SavedIDs(r, n) + if r.execs[n].saved && id != "" then {id} else {}
  {
  }

  lemma ConvertAppend(rows: seq<Stored>, row: Stored, self: string) returns (m: Message)
    requires row.role == "tool"
    ensures Convert(rows + [row], self) == Convert(rows, self) + [m]
    ensures m.role == Tool && m.toolCallID == row.toolCallID
  {
    m := ToMessage(row, self).value;
    assert (rows + [row])[..|rows|] == rows;
  }

  lemma {:induction false} ConvertedResults(agentID: string, r: Round, n: nat)
    requires n <= |r.execs| == |r.resp.toolCalls|
    ensures forall m :: m in Convert(ResultRows(agentID, r, n), agentID) ==> m.role == Tool
    ensures AnsweredIDs(Convert(ResultRows(agentID, r, n), agentID)) == SavedIDs(r, n)
  {
    hide Convert, AnsweredIDs, SavedIDs, ResultRows;
    if n == 0 {
      NoResults(agentID, r);
    } else {
      ConvertedResults(agentID, r, n - 1);
      ConvertedResult(agentID, r, n - 1);
    }
  }

  lemma NoResults(agentID: string, r: Round)
    requires |r.execs| == |r.resp.toolCalls|
    ensures Convert(ResultRows(agentID, r, 0), agentID) == []
    ensures AnsweredIDs(Convert(ResultRows(agentID, r, 0), agentID)) == SavedIDs(r, 0)
  {
    assert SavedIDs(r, 0) == {} && AnsweredIDs([]) == {};
  }

  lemma ConvertedResult(agentID: string, r: Round, n: nat)
    requires n < |r.execs| == |r.resp.toolCalls|
    requires forall m :: m in Convert(ResultRows(agentID, r, n), agentID) ==> m.role == Tool
    requires AnsweredIDs(Convert(ResultRows(agentID, r, n), agentID)) == SavedIDs(r, n)
    ensures forall m :: m in Convert(ResultRows(agentID, r, n + 1), agentID) ==> m.role == Tool
    ensures AnsweredIDs(Convert(ResultRows(agentID, r, n + 1), agentID)) == SavedIDs(r, n + 1)
  {
    hide Convert, AnsweredIDs, SavedIDs, ResultText;
    var before := ResultRows(agentID, r, n);
    SavedAppend(r, n);
    if r.execs[n].saved {
      var m := ConvertAppend(before, ResultRow(agentID, r.resp.toolCalls[n], r.execs[n], r.perResult), agentID);
      AnsweredAppend(Convert(before, agentID), m);
    }
  }

  lemma {:induction false} ConvertedRound(agentID: string, r: Round)
    requires r.Valid()
    ensures Convert(RoundRows(agentID, r, |r.execs|), agentID) ==
            Convert(CallRows(agentID, r), agentID) + Convert(ResultRows(agentID, r, |r.execs|), agentID)
    ensures Convert(CallRows(agentID, r), agentID) == if r.assistantSaved then [CallMessage(r.resp)] else []
  {
    ConvertConcat(CallRows(agentID, r), ResultRows(agentID, r, |r.execs|), agentID);
    var row := CallRow(agentID, r.resp);
    assert Convert([row][..0], agentID) == [];
    assert Convert([row], agentID) == [] + [CallMessage(r.resp)];
  }

  /** If the call row of a round was saved, later history shows either the whole stored
      round, when each call has a saved answer, or nothing of it at all. */
  lemma {:induction false} RoundSurvives(agentID: string, r: Round, a: seq<Message>, b: seq<Message>)
    requires r.Valid() && r.assistantSaved && (b != [] ==> b[0].role != Tool)
    ensures var block := Convert(RoundRows(agentID, r, |r.execs|), agentID);
            Sanitize(a + block + b) == Sanitize(a) + (if FullySaved(r) then block else []) + Sanitize(b)
  {
    var results := Convert(ResultRows(agentID, r, |r.execs|), agentID);
    ConvertedRound(agentID, r);
    ConvertedResults(agentID, r, |r.execs|);
    assert forall i :: 0 <= i < |results| ==> results[i] in results;
    ContiguousBlock(a, CallMessage(r.resp), results, b);
  }

  /** Results whose call row was not saved vanish, when they follow an ordinary message. */
  lemma {:induction false} ResultsAloneVanish(agentID: string, r: Round, a: seq<Message>, x: Message, b: seq<Message>)
    requires r.Valid() && !r.assistantSaved && x.role != Tool && !CallsTools(x)
    requires b != [] ==> b[0].role != Tool
    ensures Sanitize(a + ([x] + Convert(RoundRows(agentID, r, |r.execs|), agentID)) + b) ==
            Sanitize(a) + [x] + Sanitize(b)
  {
    var results := Convert(ResultRows(agentID, r, |r.execs|), agentID);
    ConvertedRound(agentID, r);
    ConvertedResults(agentID, r, |r.execs|);
    assert Convert(RoundRows(agentID, r, |r.execs|), agentID) == results;
    assert forall i :: 0 <= i < |results| ==> results[i] in results;
    SanitizeConcat(a + ([x] + results), b);
    SanitizeConcat(a, [x] + results);
    LeadWithOrphans(x, results);
  }

  /** But right after a complete block they are taken for further results of that block. */
  lemma {:induction false} ResultsAloneJoinBlock(call: Message, results: seq<Message>, orphans: seq<Message>)
    requires CallsTools(call) && Covers(call, results)
    requires forall i :: 0 <= i < |results| ==> results[i].role == Tool
    requires forall i :: 0 <= i < |orphans| ==> orphans[i].role == Tool
    ensures Sanitize([call] + (results + orphans)) == [call] + (results + orphans)
  {
    assert AnsweredIDs(results) <= AnsweredIDs(results + orphans);
    SanitizeBlock(call, results + orphans);
  }

  /** Every save succeeded. */
  ghost predicate AllSaved(r: Round) {
    r.assistantSaved && forall i :: 0 <= i < |r.execs| ==> r.execs[i].saved
  }

  function AllRows(agentID: string, rounds: seq<Round>): seq<Stored>
    requires forall i :: 0 <= i < |rounds| ==> |rounds[i].execs| == |rounds[i].resp.toolCalls|
  {
    if rounds == [] then []
    else RoundRows(agentID, rounds[0], |rounds[0].execs|) + AllRows(agentID, rounds[1..])
  }

  lemma {:induction false} SavedRoundStays(agentID: string, log: seq<Stored>, r: Round)
    requires WellFormed(Convert(log, agentID)) && r.Valid() && AllSaved(r) && NamedCalls(r.resp)
    ensures WellFormed(Convert(log + RoundRows(agentID, r, |r.execs|), agentID))
  {
    hide ToMessage, ResultText, WellFormed;
    var rows := RoundRows(agentID, r, |r.execs|);
    var results := Convert(ResultRows(agentID, r, |r.execs|), agentID);
    ConvertConcat(log, rows, agentID);
    ConvertedRound(agentID, r);
    ConvertedResults(agentID, r, |r.execs|);
    assert forall i :: 0 <= i < |results| ==> results[i] in results;
    forall id | id in CallIDs(r.resp.toolCalls) ensures id in SavedIDs(r, |r.execs|) {
      var c :| c in r.resp.toolCalls && c.id == id;
      var i :| 0 <= i < |r.resp.toolCalls| && r.resp.toolCalls[i] == c;
      assert r.execs[i].saved;
    }
    WellFormedBlock(CallMessage(r.resp), results);
    WellFormedConcat(Convert(log, agentID), [CallMessage(r.resp)] + results);
  }

  /** If the log converted cleanly and every row of the rounds was saved, the longer log
      still converts cleanly: the next turn's history loses none of it. */
  lemma {:induction false} SavedRoundsStay(agentID: string, log: seq<Stored>, rounds: seq<Round>)
    requires WellFormed(Convert(log, agentID)) && ValidRounds(rounds)
    requires forall i :: 0 <= i < |rounds| ==> AllSaved(rounds[i]) && NamedCalls(rounds[i].resp)
    ensures WellFormed(Convert(log + AllRows(agentID, rounds), agentID))
    decreases |rounds|
  {
    if rounds == [] {
      assert log + [] == log;
    } else {
      var rows, tail := RoundRows(agentID, rounds[0], |rounds[0].execs|), rounds[1..];
      SavedRoundStays(agentID, log, rounds[0]);
      forall i | 0 <= i < |tail| ensures tail[i].Valid() && AllSaved(tail[i]) && NamedCalls(tail[i].resp) {
        assert tail[i] == rounds[i + 1];
      }
      SavedRoundsStay(agentID, log + rows, tail);
      Assoc(log, rows, AllRows(agentID, tail));
    }
  }

  lemma {:induction false} WellFormedSuffix(a: seq<Message>, b: seq<Message>)
    requires WellFormed(a + b) && (b != [] ==> b[0].role != Tool)
    ensures WellFormed(b)
  {
    SanitizeConcat(a, b);
    WellFormedKept(a + b);
    SanitizeShrinks(a);
    SanitizeShrinks(b);
    SanitizeFixpoint(b);
    assert (a + b)[|a|..] == b && (Sanitize(a) + Sanitize(b))[|a|..] == Sanitize(b);
  }

  lemma {:induction false} SanitizeShrinks(ms: seq<Message>)
    ensures |Sanitize(ms)| <= |ms|
    decreases |ms|
  {
    if ms != [] {
      SanitizeShrinks(ms[PieceLength(ms)..]);
    }
  }

  /** From a log that converts cleanly, history is the last turns verbatim: nothing is dropped. */
  lemma {:induction false} CleanHistory(agentID: string, log: seq<Stored>, maxTurns: nat)
    requires WellFormed(Convert(log, agentID))
    ensures HistoryOf(log, agentID, maxTurns) == Convert(Window(log, maxTurns), agentID)
  {
    hide WellFormed, Sanitize, Convert, Window;
    var cut := WindowIsSuffix(log, maxTurns);
    assert log[..cut] + log[cut..] == log;
    ConvertConcat(log[..cut], log[cut..], agentID);
    var window := Convert(log[cut..], agentID);
    if 0 < cut < |log| {
      FirstConverted(log[cut..], agentID);
      WellFormedSuffix(Convert(log[..cut], agentID), window);
    } else if cut == 0 {
      assert log[0..] == log;
    } else {
      NoneConverted(agentID);
    }
    WellFormedKept(window);
  }

  lemma NoneConverted(agentID: string)
    ensures Convert([], agentID) == [] && WellFormed([])
  {
  }

  lemma {:induction false} FirstConverted(rows: seq<Stored>, self: string)
    requires rows != [] && IsUser(rows[0])
    ensures Convert(rows, self) != [] && Convert(rows, self)[0].role == User
  {
    if |rows| > 1 {
      FirstConverted(rows[..|rows| - 1], self);
    } else {
      assert Convert(rows[..0], self) == [];
    }
  }

  /** The rows a run stores are those of its rounds; only a run that fails in the middle of a
      round stores more, a part of that round. */
  lemma {:induction false} RunRows(cfg: Config, env: Environment, isTask: bool, tools: seq<string>,
                                   done: nat, used: nat, maxTokens: int, messages: seq<Message>)
    returns (part: seq<Stored>)
    ensures var t := Loop(cfg, env, isTask, tools, done, used, maxTokens, messages);
            && ValidRounds(t.rounds)
            && t.rows == AllRows(cfg.agentID, t.rounds) + part && (!t.ret.failed ==> part == [])
    decreases cfg.maxIterations - done
  {
    var t := Loop(cfg, env, isTask, tools, done, used, maxTokens, messages);
    hide Loop, NextMaxTokens, RoundRows, RoundMessages;
    if t.rounds == [] {
      RowsAlone(cfg, env, isTask, tools, done, used, maxTokens, messages);
      part := t.rows;
      assert [] + part == part;
    } else {
      FirstRound(cfg, env, isTask, tools, done, used, maxTokens, messages);
      var resp := env.reply(done + 1).resp;
      var r := RoundOf(cfg, env, done + 1, resp);
      hide AllRows, ValidRounds;
      var rest := Loop(cfg, env, isTask, tools, done + 1, used + |resp.toolCalls|,
                       NextMaxTokens(cfg, resp), messages + RoundMessages(r));
      part := RunRows(cfg, env, isTask, tools, done + 1, used + |resp.toolCalls|,
                      NextMaxTokens(cfg, resp), messages + RoundMessages(r));
      FirstRows(cfg.agentID, r, rest.rounds);
      Assoc(RoundRows(cfg.agentID, r, |r.execs|), AllRows(cfg.agentID, rest.rounds), part);
    }
  }

  lemma RowsAlone(cfg: Config, env: Environment, isTask: bool, tools: seq<string>,
                  done: nat, used: nat, maxTokens: int, messages: seq<Message>)
    requires Loop(cfg, env, isTask, tools, done, used, maxTokens, messages).rounds == []
    ensures var t := Loop(cfg, env, isTask, tools, done, used, maxTokens, messages);
            !t.ret.failed ==> t.rows == []
  {
  }

  lemma FirstRows(agentID: string, r: Round, rounds: seq<Round>)
    requires r.Valid() && ValidRounds(rounds)
    ensures ValidRounds([r] + rounds)
    ensures AllRows(agentID, [r] + rounds) == RoundRows(agentID, r, |r.execs|) + AllRows(agentID, rounds)
  {
    assert ([r] + rounds)[1..] == rounds;
  }

  /** Round trip: when a run answers and all its saves succeed, the history of the next turn
      is the last turns of the log, this run's tool calls and results included, with nothing
      dropped by the sanitizer. */
  lemma {:induction false} NextTurnRemembers(cfg: Config, env: Environment, isTask: bool, tools: seq<string>,
                                             maxTokens: int, messages: seq<Message>, log: seq<Stored>,
                                             later: seq<Stored>)
    requires WellFormed(Convert(log, cfg.agentID))
    requires later != [] ==> IsUser(later[0])
    requires WellFormed(Convert(later, cfg.agentID))
    requires var t := Loop(cfg, env, isTask, tools, 0, 0, maxTokens, messages);
             && !t.ret.failed
             && forall i :: 0 <= i < |t.rounds| ==> AllSaved(t.rounds[i]) && NamedCalls(t.rounds[i].resp)
    ensures var all := log + Loop(cfg, env, isTask, tools, 0, 0, maxTokens, messages).rows + later;
            HistoryOf(all, cfg.agentID, DEFAULT_HISTORY_TURNS) ==
            Convert(Window(all, DEFAULT_HISTORY_TURNS), cfg.agentID)
  {
    var t := Loop(cfg, env, isTask, tools, 0, 0, maxTokens, messages);
    var part := RunRows(cfg, env, isTask, tools, 0, 0, maxTokens, messages);
    assert t.rows == AllRows(cfg.agentID, t.rounds);
    SavedRoundsStay(cfg.agentID, log, t.rounds);
    ConvertConcat(log + t.rows, later, cfg.agentID);
    if later != [] {
      FirstConverted(later, cfg.agentID);
    }
    WellFormedConcat(Convert(log + t.rows, cfg.agentID), Convert(later, cfg.agentID));
    CleanHistory(cfg.agentID, log + t.rows + later, DEFAULT_HISTORY_TURNS);
  }
}

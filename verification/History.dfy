/** Rebuilding the conversation a model sees from the stored message log. */
module History {
  import opened Options
  import opened ToolProtocol

  const DEFAULT_HISTORY_TURNS := 10
  const TOOL_RESULT_HISTORY_MAX_BYTES := 500

  /** The tool_calls column: nothing, the calls of an assistant turn, the tool's name on a
      result, or text that does not parse. */
  datatype CallsColumn = NoCalls | Calls(calls: seq<ToolCall>) | NameOnly(toolName: string) | Garbled

  datatype Stored = Stored(
    role: string,
    agentID: string,
    content: string,
    reasoning: string,
    callsColumn: CallsColumn,
    toolCallID: string)

  function Decimal(n: nat): string {
    if n < 10 then ["0123456789"[n]] else Decimal(n / 10) + ["0123456789"[n % 10]]
  }

  function TruncateToolContent(toolName: string, content: string): string {
    if |content| <= TOOL_RESULT_HISTORY_MAX_BYTES then content
    else "[" + toolName + ": full result was " + Decimal(|content|) + " chars, truncated for context]\n"
         + content[..TOOL_RESULT_HISTORY_MAX_BYTES] + "..."
  }

  /** None when the row is malformed: an unknown role, or calls that do not parse. A name
      list read as calls gives one call with no fields set. */
  function ToMessage(m: Stored, self: string): Option<Message> {
    if m.role == "user" then Some(Message(User, m.content, "", "", [], ""))
    else if m.role == "assistant" then
      if m.callsColumn.Garbled? then None
      else
        var calls := match m.callsColumn
                     case NoCalls => []
                     case Calls(calls) => calls
                     case NameOnly(_) => [ToolCall("", "", "")];
        Some(Message(Assistant, m.content, m.reasoning, if m.agentID != self then m.agentID else "", calls, ""))
    else if m.role == "tool" then
      var toolName := if m.callsColumn.NameOnly? then m.callsColumn.toolName else "";
      Some(Message(Tool, TruncateToolContent(toolName, m.content), "", toolName, [], m.toolCallID))
    else if m.role == "notification" then
      Some(Message(User, "[System notification sent to user: " + m.content + "]", "", "", [], ""))
    else None
  }

  /** The rows that convert, in order; malformed rows are skipped. */
  function Convert(rows: seq<Stored>, self: string): seq<Message> {
    if rows == [] then []
    else
      var before := Convert(rows[..|rows| - 1], self);
      match ToMessage(rows[|rows| - 1], self)
      case Some(m) => before + [m]
      case None => before
  }

  // ---- turns ----

  predicate IsUser(m: Stored) {
    m.role == "user"
  }

  /** The turns closed so far, and the open one. */
  datatype Split = Split(turns: seq<seq<Stored>>, current: seq<Stored>)

  function SplitTurns(rows: seq<Stored>): Split {
    if rows == [] then Split([], [])
    else
      var before := SplitTurns(rows[..|rows| - 1]);
      var m := rows[|rows| - 1];
      if IsUser(m) && before.current != [] then Split(before.turns + [before.current], [m])
      else Split(before.turns, before.current + [m])
  }

  function Turns(rows: seq<Stored>): seq<seq<Stored>> {
    var s := SplitTurns(rows);
    if s.current != [] then s.turns + [s.current] else s.turns
  }

  function Flatten(turns: seq<seq<Stored>>): seq<Stored> {
    if turns == [] then [] else Flatten(turns[..|turns| - 1]) + turns[|turns| - 1]
  }

  function LastTurns(turns: seq<seq<Stored>>, maxTurns: nat): seq<seq<Stored>> {
    if |turns| > maxTurns then turns[|turns| - maxTurns..] else turns
  }

  /** The rows of the last `maxTurns` turns. */
  function Window(rows: seq<Stored>, maxTurns: nat): seq<Stored> {
    Flatten(LastTurns(Turns(rows), maxTurns))
  }

  function HistoryOf(rows: seq<Stored>, self: string, maxTurns: nat): seq<Message> {
    Sanitize(Convert(Window(rows, maxTurns), self))
  }

  method GetHistory(rows: seq<Stored>, self: string, maxTurns: nat) returns (history: seq<Message>)
    ensures history == HistoryOf(rows, self, maxTurns)
  {
    var turns := GroupTurns(rows);
    if |turns| > maxTurns {
      turns := turns[|turns| - maxTurns..];
    }
    var out := ConvertTurns(turns, self);
    history := SanitizeToolCallSequence(out);
  }

  method ConvertTurns(turns: seq<seq<Stored>>, self: string) returns (out: seq<Message>)
    ensures out == Convert(Flatten(turns), self)
  {
    out := [];
    for t := 0 to |turns|
      invariant out == Convert(Flatten(turns[..t]), self)
    {
      FlattenNext(turns, t);
      out := ConvertTurn(out, Flatten(turns[..t]), turns[t], self);
    }
    assert turns[..|turns|] == turns;
  }

  lemma FlattenNext(turns: seq<seq<Stored>>, t: nat)
    requires t < |turns|
    ensures Flatten(turns[..t + 1]) == Flatten(turns[..t]) + turns[t]
  {
    assert turns[..t + 1][..t] == turns[..t];
  }

  method GroupTurns(rows: seq<Stored>) returns (turns: seq<seq<Stored>>)
    ensures turns == Turns(rows)
  {
    turns := [];
    var current: seq<Stored> := [];
    for i := 0 to |rows|
      invariant Split(turns, current) == SplitTurns(rows[..i])
    {
      assert rows[..i + 1][..i] == rows[..i];
      if IsUser(rows[i]) && |current| > 0 {
        turns := turns + [current];
        current := [];
      }
      current := current + [rows[i]];
    }
    assert rows[..|rows|] == rows;
    if |current| > 0 {
      turns := turns + [current];
    }
  }

  method ConvertTurn(out: seq<Message>, ghost before: seq<Stored>, turn: seq<Stored>, self: string)
    returns (out': seq<Message>)
    requires out == Convert(before, self)
    ensures out' == Convert(before + turn, self)
  {
    out' := out;
    assert before + turn[..0] == before;
    for i := 0 to |turn|
      invariant out' == Convert(before + turn[..i], self)
    {
      assert (before + turn[..i + 1])[..|before| + i] == before + turn[..i];
      var m := ToMessage(turn[i], self);
      if m.Some? {
        out' := out' + [m.value];
      }
    }
    assert turn[..|turn|] == turn;
  }

  // ---- what windowing keeps ----

  /** A turn: at most its first row is a user message. */
  ghost predicate IsTurn(turn: seq<Stored>) {
    turn != [] && forall i :: 1 <= i < |turn| ==> !IsUser(turn[i])
  }

  ghost predicate StartsWithUser(turn: seq<Stored>) {
    turn != [] && IsUser(turn[0])
  }

  lemma {:induction false} FlattenConcat(a: seq<seq<Stored>>, b: seq<seq<Stored>>)
    ensures Flatten(a + b) == Flatten(a) + Flatten(b)
  {
    if b == [] {
      assert a + b == a;
    } else {
      var n := |b| - 1;
      assert (a + b)[..|a| + n] == a + b[..n];
      FlattenConcat(a, b[..n]);
    }
  }

  /** Every turn but the first starts with a user message, and none has another. */
  ghost predicate GoodTurns(turns: seq<seq<Stored>>) {
    && (forall t :: 0 <= t < |turns| ==> IsTurn(turns[t]))
    && (forall t :: 1 <= t < |turns| ==> StartsWithUser(turns[t]))
  }

  lemma AppendTurn(turns: seq<seq<Stored>>, turn: seq<Stored>)
    requires GoodTurns(turns) && IsTurn(turn) && (turns != [] ==> StartsWithUser(turn))
    ensures GoodTurns(turns + [turn]) && Flatten(turns + [turn]) == Flatten(turns) + turn
  {
    assert (turns + [turn])[..|turns|] == turns;
  }

  lemma {:induction false} SplitPartition(rows: seq<Stored>)
    ensures var s := SplitTurns(rows);
            && Flatten(s.turns) + s.current == rows && GoodTurns(s.turns)
            && (rows != [] ==> IsTurn(s.current))
            && (s.turns != [] ==> StartsWithUser(s.current))
  {
    if rows != [] {
      var n := |rows| - 1;
      SplitPartition(rows[..n]);
      var before := SplitTurns(rows[..n]);
      assert rows == rows[..n] + [rows[n]];
      if IsUser(rows[n]) && before.current != [] {
        AppendTurn(before.turns, before.current);
      }
    }
  }

  /** The turns, put back together, are the whole log. */
  lemma {:induction false} TurnsPartition(rows: seq<Stored>)
    ensures Flatten(Turns(rows)) == rows && GoodTurns(Turns(rows))
  {
    SplitPartition(rows);
    var s := SplitTurns(rows);
    if s.current != [] {
      AppendTurn(s.turns, s.current);
    }
  }

  function Users(rows: seq<Stored>): nat {
    if rows == [] then 0 else Users(rows[..|rows| - 1]) + if IsUser(rows[|rows| - 1]) then 1 else 0
  }

  lemma {:induction false} UsersConcat(a: seq<Stored>, b: seq<Stored>)
    ensures Users(a + b) == Users(a) + Users(b)
  {
    if b == [] {
      assert a + b == a;
    } else {
      var n := |b| - 1;
      assert (a + b)[..|a| + n] == a + b[..n];
      UsersConcat(a, b[..n]);
    }
  }

  lemma {:induction false} UsersInTurn(turn: seq<Stored>)
    requires IsTurn(turn)
    ensures Users(turn) == if IsUser(turn[0]) then 1 else 0
  {
    var n := |turn| - 1;
    if n == 0 {
      assert turn[..0] == [];
    } else {
      UsersInTurn(turn[..n]);
    }
  }

  lemma {:induction false} UsersInTurns(turns: seq<seq<Stored>>)
    requires forall t :: 0 <= t < |turns| ==> IsTurn(turns[t])
    ensures Users(Flatten(turns)) <= |turns|
    ensures (forall t :: 0 <= t < |turns| ==> StartsWithUser(turns[t])) ==> Users(Flatten(turns)) == |turns|
  {
    if turns != [] {
      var n := |turns| - 1;
      UsersInTurns(turns[..n]);
      UsersConcat(Flatten(turns[..n]), turns[n]);
      UsersInTurn(turns[n]);
    }
  }

  lemma {:induction false} FlattenFirst(turns: seq<seq<Stored>>)
    requires turns != [] && turns[0] != []
    ensures Flatten(turns) != [] && Flatten(turns)[0] == turns[0][0]
  {
    assert turns == [turns[0]] + turns[1..];
    FlattenConcat([turns[0]], turns[1..]);
    assert Flatten([turns[0]]) == [] + turns[0];
  }

  /** Cutting off whole turns leaves turns that each start with their one user message. */
  lemma {:induction false} CutTurns(turns: seq<seq<Stored>>, at: nat)
    requires GoodTurns(turns) && 0 < at <= |turns|
    ensures Flatten(turns) == Flatten(turns[..at]) + Flatten(turns[at..])
    ensures Users(Flatten(turns[at..])) == |turns| - at
    ensures at < |turns| ==> StartsWithUser(Flatten(turns[at..]))
  {
    var last := turns[at..];
    assert turns == turns[..at] + last;
    FlattenConcat(turns[..at], last);
    forall t | 0 <= t < |last| ensures IsTurn(last[t]) && StartsWithUser(last[t]) {
      assert last[t] == turns[at + t];
    }
    UsersInTurns(last);
    if last != [] {
      FlattenFirst(last);
    }
  }

  /** The window is a suffix of the log with at most `maxTurns` user messages. If anything is
      cut off, it has exactly that many and starts with one of them. */
  lemma {:induction false} WindowIsSuffix(rows: seq<Stored>, maxTurns: nat) returns (cut: nat)
    ensures cut <= |rows| && Window(rows, maxTurns) == rows[cut..]
    ensures Users(Window(rows, maxTurns)) <= maxTurns
    ensures cut > 0 ==> Users(Window(rows, maxTurns)) == maxTurns
    ensures 0 < cut < |rows| ==> IsUser(rows[cut])
    ensures maxTurns > 0 && rows != [] ==> cut < |rows|
  {
    var turns := Turns(rows);
    TurnsPartition(rows);
    if |turns| > maxTurns {
      var at := |turns| - maxTurns;
      CutTurns(turns, at);
      cut := |Flatten(turns[..at])|;
    } else {
      cut := 0;
      UsersInTurns(turns);
    }
  }

  /** A stretch of rows without a user message after its first row, such as a tool-calling
      turn with its results, is kept whole or dropped whole. */
  lemma {:induction false} WindowKeepsStretches(rows: seq<Stored>, maxTurns: nat, i: nat, j: nat) returns (cut: nat)
    requires i < j <= |rows| && forall k :: i < k < j ==> !IsUser(rows[k])
    ensures cut <= |rows| && Window(rows, maxTurns) == rows[cut..]
    ensures cut <= i || j <= cut
  {
    cut := WindowIsSuffix(rows, maxTurns);
  }

  // ---- whatever is stored ----

  /** History handed to the model is well formed for every stored log. */
  lemma HistoryWellFormed(rows: seq<Stored>, self: string, maxTurns: nat)
    ensures WellFormed(HistoryOf(rows, self, maxTurns))
  {
    SanitizeWellFormed(Convert(Window(rows, maxTurns), self));
  }

  lemma {:induction false} ConvertConcat(a: seq<Stored>, b: seq<Stored>, self: string)
    ensures Convert(a + b, self) == Convert(a, self) + Convert(b, self)
  {
    if b == [] {
      assert a + b == a;
    } else {
      var n := |b| - 1;
      assert (a + b)[..|a| + n] == a + b[..n];
      ConvertConcat(a, b[..n], self);
    }
  }

  // ---- the executive's view ----

  /** Tool results of other agents are left out; their other messages stay. */
  predicate InFullView(m: Stored, self: string) {
    m.role in {"user", "notification", "assistant"} || (m.role == "tool" && m.agentID == self)
  }

  function FullView(rows: seq<Stored>, self: string): seq<Stored> {
    if rows == [] then []
    else
      var before := FullView(rows[..|rows| - 1], self);
      if InFullView(rows[|rows| - 1], self) then before + [rows[|rows| - 1]] else before
  }

  method GetFullHistory(rows: seq<Stored>, self: string) returns (history: seq<Message>)
    ensures history == HistoryOf(FullView(rows, self), self, DEFAULT_HISTORY_TURNS)
  {
    var filtered: seq<Stored> := [];
    for i := 0 to |rows|
      invariant filtered == FullView(rows[..i], self)
    {
      assert rows[..i + 1][..i] == rows[..i];
      var m := rows[i];
      if m.role == "user" || m.role == "notification" {
        filtered := filtered + [m];
      } else if m.role == "assistant" {
        filtered := filtered + [m];
      } else if m.role == "tool" {
        if m.agentID == self {
          filtered := filtered + [m];
        }
      }
    }
    assert rows[..|rows|] == rows;
    history := GetHistory(filtered, self, DEFAULT_HISTORY_TURNS);
  }

  ghost predicate Answered(ms: seq<Message>, c: ToolCall) {
    exists r :: r in ms && r.role == Tool && r.toolCallID == c.id
  }

  /** A call that survives sanitizing has its answers in the input. */
  lemma {:induction false} SurvivorsAnswered(ms: seq<Message>, m: Message, c: ToolCall)
    requires m in Sanitize(ms) && CallsTools(m) && c in m.toolCalls
    ensures Answered(ms, c) && c.id != ""
    decreases |ms|
  {
    var n := PieceLength(ms);
    if m in Sanitize(ms[n..]) {
      SurvivorsAnswered(ms[n..], m, c);
      var r :| r in ms[n..] && r.role == Tool && r.toolCallID == c.id;
      assert r in ms;
    } else {
      assert m in ms[..n];
      if CallsTools(ms[0]) {
        var k :| 0 <= k < n && ms[k] == m;
        if k > 0 {
          PieceTools(ms, k);
        }
        assert c.id in CallIDs(m.toolCalls);
        var r :| r in ms[1..n] && r.toolCallID != "" && r.toolCallID == c.id;
        var j :| 0 <= j < n - 1 && ms[1..n][j] == r;
        PieceTools(ms, j + 1);
      }
    }
  }

  lemma {:induction false} ConvertedRow(rows: seq<Stored>, self: string, m: Message) returns (row: Stored)
    requires m in Convert(rows, self)
    ensures row in rows && ToMessage(row, self) == Some(m)
  {
    var n := |rows| - 1;
    if m in Convert(rows[..n], self) {
      row := ConvertedRow(rows[..n], self, m);
    } else {
      row := rows[n];
    }
  }

  lemma {:induction false} FullViewRows(rows: seq<Stored>, self: string, m: Stored)
    requires m in FullView(rows, self)
    ensures m in rows && InFullView(m, self)
  {
    var n := |rows| - 1;
    if m in FullView(rows[..n], self) {
      FullViewRows(rows[..n], self, m);
    }
  }

  lemma {:induction false} SanitizedFrom(ms: seq<Message>, m: Message)
    requires m in Sanitize(ms)
    ensures m in ms
    decreases |ms|
  {
    var n := PieceLength(ms);
    if m in Sanitize(ms[n..]) {
      SanitizedFrom(ms[n..], m);
    } else {
      assert m in ms[..n];
    }
  }

  /** The executive never sees another agent's tool traffic: no tool-calling message of
      another agent survives, provided no tool result of its own answers the foreign calls. */
  lemma {:induction false} ForeignCallsStripped(rows: seq<Stored>, self: string, m: Message)
    requires forall a, r, c :: a in rows && r in rows && a.role == "assistant" && a.agentID != self
               && a.callsColumn.Calls? && c in a.callsColumn.calls && r.role == "tool" && r.agentID == self
               ==> r.toolCallID != c.id
    requires m in HistoryOf(FullView(rows, self), self, DEFAULT_HISTORY_TURNS) && m.name != ""
    ensures !CallsTools(m)
  {
    hide FullView, Convert, Sanitize, Window;
    if !CallsTools(m) {
      return;
    }
    var view := FullView(rows, self);
    var cut := WindowIsSuffix(view, DEFAULT_HISTORY_TURNS);
    var window := view[cut..];
    var ms := Convert(window, self);
    SanitizedFrom(ms, m);
    var a := ConvertedRow(window, self, m);
    FullViewRows(rows, self, a);
    var c := m.toolCalls[0];
    SurvivorsAnswered(ms, m, c);
    var r :| r in ms && r.role == Tool && r.toolCallID == c.id;
    var row := ConvertedRow(window, self, r);
    FullViewRows(rows, self, row);
    assert false;
  }

  /** A block of the executive with other messages stored between the call and its results is
      lost: the call vanishes, whatever comes between. Its results vanish too, unless the last
      message in between is a call, of another agent, that they answer. */
  lemma {:induction false} InterleavedBlockLost(a: seq<Message>, call: Message, between: seq<Message>,
                                                results: seq<Message>, b: seq<Message>)
    requires CallsTools(call) && between != [] && between[0].role != Tool
    requires forall i :: 0 <= i < |results| ==> results[i].role == Tool
    requires b != [] ==> b[0].role != Tool
    ensures Sanitize(a + [call] + (between + results) + b) ==
            Sanitize(a) + Sanitize(between + results) + Sanitize(b)
    ensures var n := |between| - 1;
            between[n].role != Tool ==>
              Sanitize(between + results) == Sanitize(between[..n]) + SanitizedTail(between[n], results)
  {
    SanitizeConcat(a + [call] + (between + results), b);
    SanitizeConcat(a + [call], between + results);
    SanitizeConcat(a, [call]);
    CallAloneDropped(call);
    assert Sanitize(a) + [] == Sanitize(a);
    if between[|between| - 1].role != Tool {
      TailSanitized(between, results);
    }
  }

  /** What is left of a message and the tool results after it. */
  function SanitizedTail(last: Message, results: seq<Message>): seq<Message> {
    if !CallsTools(last) then [last] else if Covers(last, results) then [last] + results else []
  }

  lemma {:induction false} TailSanitized(between: seq<Message>, results: seq<Message>)
    requires between != [] && between[|between| - 1].role != Tool
    requires forall i :: 0 <= i < |results| ==> results[i].role == Tool
    ensures Sanitize(between + results) ==
            Sanitize(between[..|between| - 1]) + SanitizedTail(between[|between| - 1], results)
  {
    var front, last := between[..|between| - 1], between[|between| - 1];
    assert between + results == front + ([last] + results);
    SanitizeConcat(front, [last] + results);
    if CallsTools(last) {
      SanitizeBlock(last, results);
    } else {
      LeadWithOrphans(last, results);
    }
  }

  lemma {:induction false} CallAloneDropped(call: Message)
    requires CallsTools(call)
    ensures Sanitize([call]) == []
  {
    NothingCovers(call);
    assert [call] + [] == [call];
    SanitizeBlock(call, []);
  }

  lemma {:induction false} LeadWithOrphans(x: Message, results: seq<Message>)
    requires x.role != Tool && !CallsTools(x)
    requires forall i :: 0 <= i < |results| ==> results[i].role == Tool
    ensures Sanitize([x] + results) == [x]
  {
    var ms := [x] + results;
    assert ms[1..] == results && ms[..1] == [x];
    OrphansDropped(results);
  }

  lemma NothingCovers(call: Message)
    requires CallsTools(call)
    ensures !Covers(call, [])
  {
    assert call.toolCalls[0].id in CallIDs(call.toolCalls);
  }

  lemma {:induction false} OrphansDropped(results: seq<Message>)
    requires forall i :: 0 <= i < |results| ==> results[i].role == Tool
    ensures Sanitize(results) == []
  {
    if results != [] {
      OrphansDropped(results[1..]);
    }
  }
}

/** What a history shows of the stored log, row by row. */
module HistoryContents {
  import opened Options
  import opened ToolProtocol
  import opened History

  // ---- one row ----

  /** The text of a notification as the model reads it. */
  function Framed(text: string): string {
    "[System notification sent to user: " + text + "]"
  }

  predicate TellsUser(row: Stored) {
    row.role == "user" || row.role == "notification"
  }

  /** The row is an assistant's and calls no tools. */
  predicate PlainReply(row: Stored) {
    row.role == "assistant" && (row.callsColumn == NoCalls || row.callsColumn == Calls([]))
  }

  /** Rows that the sanitizer has no business with. */
  predicate PlainRow(row: Stored) {
    TellsUser(row) || PlainReply(row)
  }

  /** The name an assistant's message bears: none for the agent's own. */
  predicate BearsName(row: Stored, m: Message, self: string) {
    m.name == if row.agentID == self then "" else row.agentID
  }

  function Header(toolName: string, length: nat): string {
    "[" + toolName + ": full result was " + Decimal(length) + " chars, truncated for context]\n"
  }

  /** The abridged form of a long result. */
  function Abridged(toolName: string, content: string): string
    requires |content| > 500
  {
    Header(toolName, |content|) + content[..500] + "..."
  }

  function StoredToolName(row: Stored): string {
    if row.callsColumn.NameOnly? then row.callsColumn.toolName else ""
  }

  /** The message shows the row: a user's text unchanged, a notification in its frame, an
      assistant's content, reasoning and calls under its name, a result for its call and tool,
      whole if it is short and abridged if not. */
  predicate ShowsRow(row: Stored, m: Message, self: string) {
    && (row.role == "user" ==> m == Message(User, row.content, "", "", [], ""))
    && (row.role == "notification" ==> m == Message(User, Framed(row.content), "", "", [], ""))
    && (row.role == "assistant" ==>
          && m.role == Assistant && m.content == row.content && m.reasoning == row.reasoning && m.toolCallID == ""
          && BearsName(row, m, self)
          && (row.callsColumn.NoCalls? ==> m.toolCalls == [])
          && (row.callsColumn.Calls? ==> m.toolCalls == row.callsColumn.calls))
    && (row.role == "tool" ==>
          && m.role == Tool && m.toolCallID == row.toolCallID && m.name == StoredToolName(row)
          && m.reasoning == "" && m.toolCalls == []
          && m.content == if |row.content| <= 500 then row.content else Abridged(StoredToolName(row), row.content))
    && row.role in {"user", "notification", "assistant", "tool"}
  }

  lemma ConvertedShows(row: Stored, self: string)
    ensures ToMessage(row, self).Some? ==> ShowsRow(row, ToMessage(row, self).value, self)
    ensures PlainRow(row) ==> ToMessage(row, self).Some? && Plain(ToMessage(row, self).value)
  {
  }

  // ---- a whole history ----

  lemma Parts<T>(s: seq<T>, n: nat)
    requires n <= |s|
    ensures s[..n] + s[n..] == s
    ensures n + 1 == |s| ==> s[..n] + [s[n]] == s
  {
  }

  /** Neither a tool call nor a result. */
  predicate Plain(m: Message) {
    m.role != Tool && !CallsTools(m)
  }

  /** Message `i` shows row `picks[i]`; rows are shown in order, and no plain row is left out. */
  ghost predicate Shows(rows: seq<Stored>, ms: seq<Message>, self: string, picks: seq<nat>) {
    && |picks| == |ms|
    && (forall i :: 0 <= i < |picks| ==> picks[i] < |rows| && ShowsRow(rows[picks[i]], ms[i], self))
    && (forall i, j :: 0 <= i < j < |picks| ==> picks[i] < picks[j])
    && (forall k :: 0 <= k < |rows| && PlainRow(rows[k]) ==> k in picks)
  }

  /** Every plain row shows as a plain message. */
  ghost predicate PlainShown(rows: seq<Stored>, ms: seq<Message>, picks: seq<nat>) {
    forall i :: 0 <= i < |picks| && i < |ms| && picks[i] < |rows| && PlainRow(rows[picks[i]]) ==> Plain(ms[i])
  }

  lemma OneRowMore(rows: seq<Stored>, ms: seq<Message>, self: string, picks: seq<nat>, row: Stored, m: Message)
    requires Shows(rows, ms, self, picks) && PlainShown(rows, ms, picks)
    requires ShowsRow(row, m, self) && (PlainRow(row) ==> Plain(m))
    ensures Shows(rows + [row], ms + [m], self, picks + [|rows|])
    ensures PlainShown(rows + [row], ms + [m], picks + [|rows|])
  {
    hide ShowsRow, PlainRow, Plain;
    var all := picks + [|rows|];
    forall k | 0 <= k < |rows| + 1 && PlainRow((rows + [row])[k]) ensures k in all {
      if k == |rows| {
        assert all[|picks|] == k;
      }
    }
  }

  lemma OneRowLess(rows: seq<Stored>, ms: seq<Message>, self: string, picks: seq<nat>, row: Stored)
    requires Shows(rows, ms, self, picks) && PlainShown(rows, ms, picks) && !PlainRow(row)
    ensures Shows(rows + [row], ms, self, picks) && PlainShown(rows + [row], ms, picks)
  {
    hide ShowsRow, PlainRow, Plain;
  }

  lemma {:induction false} ConvertShows(rows: seq<Stored>, self: string) returns (picks: seq<nat>)
    ensures Shows(rows, Convert(rows, self), self, picks) && PlainShown(rows, Convert(rows, self), picks)
  {
    picks := [];
    if rows != [] {
      var n := |rows| - 1;
      picks := ConvertShows(rows[..n], self);
      ConvertedShows(rows[n], self);
      ConvertLast(rows, self);
      hide *;
      Parts(rows, n);
      if ToMessage(rows[n], self).Some? {
        OneRowMore(rows[..n], Convert(rows[..n], self), self, picks, rows[n], ToMessage(rows[n], self).value);
        picks := picks + [|rows[..n]|];
      } else {
        OneRowLess(rows[..n], Convert(rows[..n], self), self, picks, rows[n]);
      }
    }
  }

  lemma ConvertLast(rows: seq<Stored>, self: string)
    requires rows != []
    ensures var n := |rows| - 1;
            Convert(rows, self) == if ToMessage(rows[n], self).Some?
                                   then Convert(rows[..n], self) + [ToMessage(rows[n], self).value]
                                   else Convert(rows[..n], self)
  {
  }

  ghost predicate NonePlain(ms: seq<Message>) {
    forall k :: 0 <= k < |ms| ==> !Plain(ms[k])
  }

  /** A piece that is dropped has no plain message. */
  lemma DroppedPiece(ms: seq<Message>)
    requires ms != [] && !PieceOk(ms)
    ensures NonePlain(ms[..PieceLength(ms)])
  {
    forall k | 0 < k < PieceLength(ms) ensures !Plain(ms[k]) {
      PieceTools(ms, k);
    }
  }

  /** All plain messages are among those picked. */
  ghost predicate PicksPlain(ms: seq<Message>, picks: seq<nat>) {
    forall k :: 0 <= k < |ms| && Plain(ms[k]) ==> k in picks
  }

  lemma OnePieceMore(front: seq<Message>, kept: bool, sub: seq<Message>, rest: seq<Message>, picks: seq<nat>)
    returns (all: seq<nat>)
    requires Embeds(sub, rest, picks) && PicksPlain(rest, picks)
    requires kept || NonePlain(front)
    ensures Embeds((if kept then front else []) + sub, front + rest, all) && PicksPlain(front + rest, all)
  {
    hide Embeds, Plain;
    all := EmbedsAfter(front, kept, sub, rest, picks);
    forall k | 0 <= k < |front + rest| && Plain((front + rest)[k]) ensures k in all {
      if k >= |front| {
        assert Plain(rest[k - |front|]);
        assert |front| + (k - |front|) in all;
      }
    }
  }

  /** The sanitizer keeps every plain message. */
  lemma {:induction false} SanitizeKeepsPlain(ms: seq<Message>) returns (picks: seq<nat>)
    ensures Embeds(Sanitize(ms), ms, picks) && PicksPlain(ms, picks)
    decreases |ms|
  {
    picks := [];
    if ms != [] {
      var n := PieceLength(ms);
      var rest := SanitizeKeepsPlain(ms[n..]);
      hide *;
      if !PieceOk(ms) {
        DroppedPiece(ms);
      }
      picks := OnePieceMore(ms[..n], PieceOk(ms), Sanitize(ms[n..]), ms[n..], rest);
      FrontAndRest(ms);
    }
  }

  lemma FrontAndRest(ms: seq<Message>)
    requires ms != []
    ensures var n := PieceLength(ms);
            ms[..n] + ms[n..] == ms && Sanitize(ms) == (if PieceOk(ms) then ms[..n] else []) + Sanitize(ms[n..])
  {
    hide *;
    SanitizeStep(ms, PieceLength(ms));
    Parts(ms, PieceLength(ms));
  }

  /** Showing is preserved by dropping messages that are not plain. */
  lemma ShowsFewer(rows: seq<Stored>, ms: seq<Message>, self: string, picks: seq<nat>,
                   out: seq<Message>, kept: seq<nat>) returns (all: seq<nat>)
    requires Shows(rows, ms, self, picks) && Embeds(out, ms, kept)
    requires PlainShown(rows, ms, picks) && PicksPlain(ms, kept)
    ensures Shows(rows, out, self, all)
  {
    hide ShowsRow, PlainRow, Plain;
    all := seq(|kept|, i requires 0 <= i < |kept| => picks[kept[i]]);
    forall k | 0 <= k < |rows| && PlainRow(rows[k]) ensures k in all {
      var i :| 0 <= i < |picks| && picks[i] == k;
      var j :| 0 <= j < |kept| && kept[j] == i;
      assert all[j] == k;
    }
  }

  /** What a history shows: rows of the window, in order, each as `ShowsRow` says, and all of
      the plain ones: no user text, notification or plain reply is ever lost. */
  lemma {:induction false} HistoryShows(rows: seq<Stored>, self: string, maxTurns: nat) returns (picks: seq<nat>)
    ensures Shows(Window(rows, maxTurns), HistoryOf(rows, self, maxTurns), self, picks)
  {
    var window := Window(rows, maxTurns);
    var ms := Convert(window, self);
    var converted := ConvertShows(window, self);
    var kept := SanitizeKeepsPlain(ms);
    hide Convert, Sanitize, Shows, Embeds, PlainShown, PicksPlain;
    picks := ShowsFewer(window, ms, self, converted, Sanitize(ms), kept);
  }

  // ---- the executive's view ----

  /** These rows are picked, and only these: all but the tool results of other agents and rows of
      unknown roles. */
  ghost predicate PicksView(rows: seq<Stored>, self: string, picks: seq<nat>) {
    forall k :: 0 <= k < |rows| ==>
      (k in picks <==> rows[k].role in {"user", "notification", "assistant"}
                       || (rows[k].role == "tool" && rows[k].agentID == self))
  }

  lemma OneViewMore(view: seq<Stored>, rows: seq<Stored>, self: string, picks: seq<nat>, row: Stored)
    requires Embeds(view, rows, picks) && PicksView(rows, self, picks)
    ensures InFullView(row, self) ==>
              Embeds(view + [row], rows + [row], picks + [|rows|]) && PicksView(rows + [row], self, picks + [|rows|])
    ensures !InFullView(row, self) ==> Embeds(view, rows + [row], picks) && PicksView(rows + [row], self, picks)
  {
  }

  /** The executive's view has, in order, all rows of the log but the tool results of other
      agents and the rows of unknown roles. */
  lemma {:induction false} FullViewExact(rows: seq<Stored>, self: string) returns (picks: seq<nat>)
    ensures Embeds(FullView(rows, self), rows, picks) && PicksView(rows, self, picks)
  {
    picks := [];
    if rows != [] {
      var n := |rows| - 1;
      picks := FullViewExact(rows[..n], self);
      hide Embeds, PicksView, InFullView;
      OneViewMore(FullView(rows[..n], self), rows[..n], self, picks, rows[n]);
      Parts(rows, n);
      if InFullView(rows[n], self) {
        picks := picks + [|rows[..n]|];
      }
    }
  }

  // ---- numbers in a header ----

  function DigitValue(c: char): int {
    c as int - '0' as int
  }

  function Value(digits: string): int {
    if digits == "" then 0 else 10 * Value(digits[..|digits| - 1]) + DigitValue(digits[|digits| - 1])
  }

  /** The header gives the full length in decimal. */
  lemma {:induction false} DecimalValue(n: nat)
    ensures Value(Decimal(n)) == n && Decimal(n) != ""
  {
    if n >= 10 {
      DecimalValue(n / 10);
      LastDigit(Decimal(n / 10), n % 10);
    } else {
      LastDigit("", n);
    }
  }

  lemma LastDigit(front: string, d: nat)
    requires d < 10
    ensures Value(front + ["0123456789"[d]]) == 10 * Value(front) + d
  {
    assert (front + ["0123456789"[d]])[..|front|] == front;
  }

  lemma {:induction false} DecimalDigits(n: nat)
    ensures Decimal(n) != "" && (n > 0 ==> Decimal(n)[0] != '0')
    ensures forall i :: 0 <= i < |Decimal(n)| ==> '0' <= Decimal(n)[i] <= '9'
  {
    if n >= 10 {
      DecimalDigits(n / 10);
    }
  }

  // ---- when a result is shown unchanged ----

  /** Where position `i` falls in text of length `n` that is repeated. */
  function Phase(i: nat, n: nat): (k: nat)
    requires n > 0
    ensures k < n
  {
    if i < n then i else Phase(i - n, n)
  }

  /** The text is its own header over and over, cut off 500 characters after the first, and
      three dots. */
  predicate RepeatsHeader(toolName: string, content: string) {
    var h := Header(toolName, |content|);
    && |content| == |h| + 503 && content[|h| + 500..] == "..."
    && forall i :: 0 <= i < |h| + 500 ==> content[i] == h[Phase(i, |h|)]
  }

  lemma Shifted(h: string, content: string, i: nat)
    requires |content| == |h| + 503 && |h| <= i < |h| + 500 && content == h + content[..500] + "..."
    ensures content[i] == content[i - |h|]
  {
    assert (h + content[..500])[i] == content[..500][i - |h|];
  }

  lemma {:induction false} Periodic(h: string, content: string, i: nat)
    requires h != "" && |content| == |h| + 503 && i < |h| + 500
    requires content == h + content[..500] + "..."
    ensures content[i] == h[Phase(i, |h|)]
  {
    if i >= |h| {
      Shifted(h, content, i);
      Periodic(h, content, i - |h|);
    }
  }

  /** A result is shown unchanged exactly if it is at most 500 characters long, or repeats the
      header of its own length. */
  lemma {:induction false} UnchangedExactly(toolName: string, content: string)
    ensures TruncateToolContent(toolName, content) == content <==> |content| <= 500 || RepeatsHeader(toolName, content)
  {
    if |content| > 500 {
      var h := Header(toolName, |content|);
      hide Header, Decimal;
      assert TruncateToolContent(toolName, content) == Abridged(toolName, content);
      assert h != "";
      if Abridged(toolName, content) == content {
        forall i | 0 <= i < |h| + 500 ensures content[i] == h[Phase(i, |h|)] {
          Periodic(h, content, i);
        }
      }
      if RepeatsHeader(toolName, content) {
        RepeatedIsAbridged(h, content);
      }
    }
  }

  lemma RepeatedIsAbridged(h: string, content: string)
    requires h != "" && |content| == |h| + 503 && content[|h| + 500..] == "..."
    requires forall i :: 0 <= i < |h| + 500 ==> content[i] == h[Phase(i, |h|)]
    ensures content == h + content[..500] + "..."
  {
    var n := |h|;
    forall i | 0 <= i < 500 ensures content[n + i] == content[i] {
      assert Phase(n + i, n) == Phase(i, n);
    }
    assert forall i :: 0 <= i < n ==> Phase(i, n) == i;
    assert content[..n] == h && content[n..n + 500] == content[..500];
    assert content == content[..n] + content[n..n + 500] + content[n + 500..];
  }

  /** Such a long result exists: one of 556 characters without a tool name. */
  lemma SelfDescribing() returns (content: string)
    ensures |content| == 556 && TruncateToolContent("", content) == content
  {
    var h := Header("", 556);
    assert Decimal(556) == Decimal(55) + "6" && Decimal(55) == "55";
    assert |h| == 53;
    var front := seq(553, i requires 0 <= i < 553 => h[Phase(i, 53)]);
    content := front + "...";
    assert content[553..] == "...";
    assert RepeatsHeader("", content);
    UnchangedExactly("", content);
  }
}

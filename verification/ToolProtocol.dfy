/** The shape of message lists a model accepts, and the sanitizer that enforces it on history
    loaded from a possibly damaged store. */
module ToolProtocol {

  datatype Role = System | User | Assistant | Tool

  datatype ToolCall = ToolCall(id: string, name: string, arguments: string)

  datatype Message = Message(
    role: Role,
    content: string,
    reasoning: string,
    name: string,
    toolCalls: seq<ToolCall>,
    toolCallID: string)

  predicate CallsTools(m: Message) {
    m.role == Assistant && m.toolCalls != []
  }

  function CallIDs(calls: seq<ToolCall>): set<string> {
    set c | c in calls :: c.id
  }

  /** The call IDs answered by a run of tool messages; an empty ID answers nothing. */
  function AnsweredIDs(results: seq<Message>): set<string> {
    set r | r in results && r.toolCallID != "" :: r.toolCallID
  }

  predicate Covers(call: Message, results: seq<Message>) {
    CallIDs(call.toolCalls) <= AnsweredIDs(results)
  }

  /** Length of the run of tool messages at the front. */
  function ToolRun(ms: seq<Message>): (n: nat)
    ensures n <= |ms|
    ensures forall i :: 0 <= i < n ==> ms[i].role == Tool
    ensures n < |ms| ==> ms[n].role != Tool
  {
    if ms == [] || ms[0].role != Tool then 0 else 1 + ToolRun(ms[1..])
  }

  /** The piece at the front: a tool-calling message with all tool messages after it, or
      any other single message. */
  function PieceLength(ms: seq<Message>): (n: nat)
    requires ms != []
    ensures 1 <= n <= |ms|
  {
    if CallsTools(ms[0]) then ToolRun(ms[1..]) + 1 else 1
  }

  predicate PieceOk(ms: seq<Message>)
    requires ms != []
  {
    if CallsTools(ms[0]) then Covers(ms[0], ms[1..PieceLength(ms)]) else ms[0].role != Tool
  }

  /** Every tool-calling message is followed at once by tool messages answering all its
      calls, and no other tool message exists. */
  predicate WellFormed(ms: seq<Message>)
    decreases |ms|
  {
    ms == [] || (PieceOk(ms) && WellFormed(ms[PieceLength(ms)..]))
  }

  /** What the sanitizer keeps. */
  function Sanitize(ms: seq<Message>): (out: seq<Message>)
    decreases |ms|
  {
    if ms == [] then []
    else
      var n := PieceLength(ms);
      if PieceOk(ms) then ms[..n] + Sanitize(ms[n..]) else Sanitize(ms[n..])
  }

  lemma {:induction false} RunIsMaximal(ms: seq<Message>, n: nat)
    requires n <= |ms| && forall i :: 0 <= i < n ==> ms[i].role == Tool
    requires n < |ms| ==> ms[n].role != Tool
    ensures ToolRun(ms) == n
  {
    if n > 0 {
      RunIsMaximal(ms[1..], n - 1);
    }
  }

  /** A tool-calling message and `results`, followed by anything but a tool message, is one piece. */
  lemma {:induction false} BlockPiece(call: Message, results: seq<Message>, rest: seq<Message>)
    requires CallsTools(call) && forall i :: 0 <= i < |results| ==> results[i].role == Tool
    requires rest != [] ==> rest[0].role != Tool
    ensures var ms := [call] + results + rest;
            && PieceLength(ms) == |results| + 1 && (PieceOk(ms) <==> Covers(call, results))
            && ms[..|results| + 1] == [call] + results && ms[|results| + 1..] == rest
  {
    var ms := [call] + results + rest;
    assert ms[1..] == results + rest;
    RunIsMaximal(ms[1..], |results|);
    assert ms[1..|results| + 1] == results;
  }

  /** Appending anything but a tool message leaves the first piece as it is. */
  lemma {:induction false} PieceStable(a: seq<Message>, b: seq<Message>)
    requires a != [] && (b != [] ==> b[0].role != Tool)
    ensures PieceLength(a + b) == PieceLength(a) && (PieceOk(a + b) <==> PieceOk(a))
    ensures (a + b)[..PieceLength(a)] == a[..PieceLength(a)]
    ensures (a + b)[PieceLength(a)..] == a[PieceLength(a)..] + b
  {
    if CallsTools(a[0]) {
      var n := ToolRun(a[1..]);
      Pieces(a, b, 1);
      RunIsMaximal((a + b)[1..], n);
      Pieces(a, b, n + 1);
    }
    Pieces(a, b, PieceLength(a));
  }

  lemma Pieces<T>(a: seq<T>, b: seq<T>, k: nat)
    requires 1 <= k <= |a|
    ensures (a + b)[..k] == a[..k] && (a + b)[k..] == a[k..] + b && (a + b)[1..k] == a[1..k]
  {
  }

  // ---- well-formedness read position by position ----

  /** The tool messages right after position `i`. */
  function ResultsAfter(ms: seq<Message>, i: nat): seq<Message>
    requires i < |ms|
  {
    ms[i + 1..i + 1 + ToolRun(ms[i + 1..])]
  }

  /** Back from position `i` there are only tool messages up to a tool-calling message. */
  ghost predicate FollowsCall(ms: seq<Message>, i: nat)
    requires i < |ms|
  {
    exists j :: 0 <= j < i && CallsTools(ms[j]) && OnlyTools(ms, j + 1, i + 1)
  }

  ghost predicate OnlyTools(ms: seq<Message>, from: nat, to: nat)
    requires from <= to <= |ms|
  {
    forall k :: from <= k < to ==> ms[k].role == Tool
  }

  ghost predicate RightAt(ms: seq<Message>, i: nat)
    requires i < |ms|
  {
    && (CallsTools(ms[i]) ==> Covers(ms[i], ResultsAfter(ms, i)))
    && (ms[i].role == Tool ==> FollowsCall(ms, i))
  }

  lemma PieceTools(ms: seq<Message>, k: nat)
    requires ms != [] && 1 <= k < PieceLength(ms)
    ensures CallsTools(ms[0]) && ms[k].role == Tool
  {
    assert ms[1..][k - 1] == ms[k];
  }

  /** After the first piece comes no further tool message, if the piece is a call's. */
  lemma PieceEnds(ms: seq<Message>)
    requires ms != [] && CallsTools(ms[0]) && PieceLength(ms) < |ms|
    ensures ms[PieceLength(ms)].role != Tool
  {
    assert ms[PieceLength(ms)] == ms[1..][PieceLength(ms) - 1];
  }

  lemma FollowsCallLater(ms: seq<Message>, n: nat, i: nat)
    requires n <= i < |ms| && FollowsCall(ms[n..], i - n)
    ensures FollowsCall(ms, i)
  {
    var rest := ms[n..];
    var j :| 0 <= j < i - n && CallsTools(rest[j]) && OnlyTools(rest, j + 1, i - n + 1);
    assert CallsTools(ms[j + n]);
    forall k | j + n + 1 <= k < i + 1 ensures ms[k].role == Tool {
      assert ms[k] == rest[k - n];
    }
    assert OnlyTools(ms, j + n + 1, i + 1);
  }

  lemma FollowsCallInRest(ms: seq<Message>, i: nat)
    requires ms != [] && PieceLength(ms) <= i < |ms| && FollowsCall(ms, i)
    ensures FollowsCall(ms[PieceLength(ms)..], i - PieceLength(ms))
  {
    var n, rest := PieceLength(ms), ms[PieceLength(ms)..];
    var j :| 0 <= j < i && CallsTools(ms[j]) && OnlyTools(ms, j + 1, i + 1);
    if j == 0 {
      PieceEnds(ms);
    }
    assert j >= n && CallsTools(rest[j - n]) && OnlyTools(rest, j - n + 1, i - n + 1);
  }

  lemma RightAtLater(ms: seq<Message>, i: nat)
    requires ms != [] && PieceLength(ms) <= i < |ms|
    ensures RightAt(ms, i) <==> RightAt(ms[PieceLength(ms)..], i - PieceLength(ms))
  {
    var n := PieceLength(ms);
    assert ms[i + 1..] == ms[n..][i - n + 1..];
    assert ResultsAfter(ms, i) == ResultsAfter(ms[n..], i - n);
    if FollowsCall(ms, i) {
      FollowsCallInRest(ms, i);
    }
    if FollowsCall(ms[n..], i - n) {
      FollowsCallLater(ms, n, i);
    }
  }

  lemma RightInPiece(ms: seq<Message>)
    requires ms != []
    ensures PieceOk(ms) <==> forall i :: 0 <= i < PieceLength(ms) ==> RightAt(ms, i)
  {
    var n := PieceLength(ms);
    assert n > 1 ==> CallsTools(ms[0]);
    if CallsTools(ms[0]) {
      assert ResultsAfter(ms, 0) == ms[1..n];
      forall i | 1 <= i < n ensures RightAt(ms, i) {
        forall k | 1 <= k < i + 1 ensures ms[k].role == Tool {
          PieceTools(ms, k);
        }
        assert OnlyTools(ms, 0 + 1, i + 1) && ms[i].role == Tool;
      }
    }
    assert RightAt(ms, 0) <==> PieceOk(ms);
  }

  /** What being well formed means: every call is covered by the tool messages right after it,
      and every tool message follows a call with only tool messages in between. */
  lemma {:induction false} WellFormedMeans(ms: seq<Message>)
    ensures WellFormed(ms) <==> forall i :: 0 <= i < |ms| ==> RightAt(ms, i)
    decreases |ms|
  {
    if ms != [] {
      var n := PieceLength(ms);
      var rest := ms[n..];
      WellFormedMeans(rest);
      RightInPiece(ms);
      forall i | n <= i < |ms| ensures RightAt(ms, i) <==> RightAt(rest, i - n) {
        RightAtLater(ms, i);
      }
      assert forall i :: 0 <= i < |rest| ==> (RightAt(rest, i) <==> RightAt(ms, i + n));
    }
  }

  // ---- the loop ----

  lemma SanitizeStep(ms: seq<Message>, n: nat)
    requires ms != [] && n == PieceLength(ms)
    ensures Sanitize(ms) == (if PieceOk(ms) then ms[..n] else []) + Sanitize(ms[n..])
  {
    hide PieceOk, PieceLength;
  }

  lemma Assoc<T>(a: seq<T>, b: seq<T>, c: seq<T>)
    ensures a + (b + c) == (a + b) + c
  {
  }

  /** One round of the loop, on whatever the front piece `msgs[i..j]` is. */
  lemma Advance(msgs: seq<Message>, out: seq<Message>, i: nat, j: nat)
    requires i < j <= |msgs| && PieceLength(msgs[i..]) == j - i
    ensures out + Sanitize(msgs[i..]) == (out + if PieceOk(msgs[i..]) then msgs[i..j] else []) + Sanitize(msgs[j..])
  {
    var ms := msgs[i..];
    assert ms[..j - i] == msgs[i..j] && ms[j - i..] == msgs[j..];
    SanitizeStep(ms, j - i);
    Assoc(out, if PieceOk(ms) then msgs[i..j] else [], Sanitize(msgs[j..]));
  }

  ghost predicate KeptSoFar(msgs: seq<Message>, out: seq<Message>, i: int) {
    0 <= i <= |msgs| && out + Sanitize(msgs[i..]) == Sanitize(msgs)
  }

  lemma AdvanceOne(msgs: seq<Message>, out: seq<Message>, i: nat)
    requires i < |msgs| && !CallsTools(msgs[i])
    requires KeptSoFar(msgs, out, i)
    ensures msgs[i].role == Tool ==> KeptSoFar(msgs, out, i + 1)
    ensures msgs[i].role != Tool ==> KeptSoFar(msgs, out + [msgs[i]], i + 1)
  {
    Advance(msgs, out, i, i + 1);
    assert msgs[i..i + 1] == [msgs[i]];
    assert out + [] == out;
  }

  /** `msgs[i..j]` is a call and all the tool messages that follow it. */
  ghost predicate IsBlock(msgs: seq<Message>, i: int, j: int) {
    && 0 <= i < j <= |msgs| && CallsTools(msgs[i])
    && (forall k :: i < k < j ==> msgs[k].role == Tool)
    && (j < |msgs| ==> msgs[j].role != Tool)
  }

  lemma BlockAt(msgs: seq<Message>, i: nat, j: nat)
    requires IsBlock(msgs, i, j)
    ensures PieceLength(msgs[i..]) == j - i
    ensures PieceOk(msgs[i..]) <==> Covers(msgs[i], msgs[i + 1..j])
  {
    var results := msgs[i + 1..j];
    assert msgs[i..] == [msgs[i]] + results + msgs[j..];
    BlockPiece(msgs[i], results, msgs[j..]);
  }

  lemma AdvanceBlock(msgs: seq<Message>, out: seq<Message>, i: nat, j: nat)
    requires IsBlock(msgs, i, j) && KeptSoFar(msgs, out, i)
    ensures !Covers(msgs[i], msgs[i + 1..j]) ==> KeptSoFar(msgs, out, j)
    ensures Covers(msgs[i], msgs[i + 1..j]) ==> KeptSoFar(msgs, out + msgs[i..j], j)
  {
    BlockAt(msgs, i, j);
    Advance(msgs, out, i, j);
    assert out + [] == out;
  }

  lemma AllKept(msgs: seq<Message>, out: seq<Message>)
    requires KeptSoFar(msgs, out, |msgs|)
    ensures out == Sanitize(msgs)
  {
    assert msgs[|msgs|..] == [];
  }

  /** The last message kept so far is not one whose results are still to come. */
  ghost predicate EndsSettled(out: seq<Message>) {
    out != [] ==> !CallsTools(out[|out| - 1])
  }

  lemma BlockEndsSettled(msgs: seq<Message>, out: seq<Message>, i: nat, j: nat)
    requires IsBlock(msgs, i, j) && Covers(msgs[i], msgs[i + 1..j])
    ensures EndsSettled(out + msgs[i..j])
  {
    CoveredHasResult(msgs[i], msgs[i + 1..j]);
    var all := out + msgs[i..j];
    assert all[|all| - 1] == msgs[j - 1];
  }

  method SanitizeToolCallSequence(msgs: seq<Message>) returns (out: seq<Message>)
    ensures out == Sanitize(msgs)
  {
    out := [];
    var i := 0;
    assert msgs[0..] == msgs && [] + Sanitize(msgs) == Sanitize(msgs);
    assert KeptSoFar(msgs, out, i);
    hide KeptSoFar, Sanitize;
    while i < |msgs|
      invariant KeptSoFar(msgs, out, i) && EndsSettled(out)
    {
      if msgs[i].role != Assistant || |msgs[i].toolCalls| == 0 {
        out := PassThrough(msgs, out, i);
        i := i + 1;
      } else {
        out, i := TakeBlock(msgs, out, i);
      }
    }
    AllKept(msgs, out);
  }

  /** Any message but a call: kept, unless it is an orphaned tool result. */
  method PassThrough(msgs: seq<Message>, out: seq<Message>, i: nat) returns (out': seq<Message>)
    requires i < |msgs| && !CallsTools(msgs[i]) && KeptSoFar(msgs, out, i) && EndsSettled(out)
    ensures KeptSoFar(msgs, out', i + 1) && EndsSettled(out')
  {
    AdvanceOne(msgs, out, i);
    if msgs[i].role == Tool {
      if |out| == 0 || out[|out| - 1].role != Assistant || |out[|out| - 1].toolCalls| == 0 {
        return out;
      }
      // never reached: a kept call is followed in `out` by its results
      assert false;
    }
    out' := out + [msgs[i]];
  }

  /** A call and the tool results after it: kept if every call is answered. */
  method TakeBlock(msgs: seq<Message>, out: seq<Message>, i: nat) returns (out': seq<Message>, j: nat)
    requires i < |msgs| && CallsTools(msgs[i]) && KeptSoFar(msgs, out, i) && EndsSettled(out)
    ensures i < j && KeptSoFar(msgs, out', j) && EndsSettled(out')
  {
    var toolResults: seq<Message>;
    toolResults, j := FollowingResults(msgs, i + 1);
    AdvanceBlock(msgs, out, i, j);
    out' := out;
    var allFound := AllFound(msgs[i], toolResults);
    if allFound {
      BlockEndsSettled(msgs, out, i, j);
      assert [msgs[i]] + toolResults == msgs[i..j];
      out' := out + ([msgs[i]] + toolResults);
    }
  }

  /** The look-ahead: all tool messages from position `from` on, up to the next other one. */
  method FollowingResults(msgs: seq<Message>, from: nat) returns (results: seq<Message>, j: nat)
    requires from <= |msgs|
    ensures from <= j <= |msgs| && results == msgs[from..j]
    ensures forall k :: from <= k < j ==> msgs[k].role == Tool
    ensures j < |msgs| ==> msgs[j].role != Tool
  {
    results := [];
    j := from;
    while j < |msgs| && msgs[j].role == Tool
      invariant from <= j <= |msgs| && results == msgs[from..j]
      invariant forall k :: from <= k < j ==> msgs[k].role == Tool
    {
      results := results + [msgs[j]];
      j := j + 1;
    }
  }

  method AllFound(call: Message, results: seq<Message>) returns (all: bool)
    ensures all <==> Covers(call, results)
  {
    var found: set<string> := {};
    for i := 0 to |results|
      invariant found == AnsweredIDs(results[..i])
    {
      if results[i].toolCallID != "" {
        found := found + {results[i].toolCallID};
      }
      assert results[..i + 1] == results[..i] + [results[i]];
    }
    assert results[..|results|] == results;
    for i := 0 to |call.toolCalls|
      invariant forall k :: 0 <= k < i ==> call.toolCalls[k].id in found
    {
      if call.toolCalls[i].id !in found {
        assert call.toolCalls[i].id in CallIDs(call.toolCalls);
        return false;
      }
    }
    return true;
  }

  lemma CoveredHasResult(m: Message, results: seq<Message>)
    requires CallsTools(m) && Covers(m, results)
    ensures results != []
  {
    assert m.toolCalls[0].id in CallIDs(m.toolCalls);
  }

  // ---- its meaning ----

  lemma {:induction false} NoToolFirst(ms: seq<Message>)
    ensures Sanitize(ms) != [] ==> Sanitize(ms)[0].role != Tool
    decreases |ms|
  {
    if ms != [] {
      NoToolFirst(ms[PieceLength(ms)..]);
    }
  }

  /** Whatever was loaded, the result is well formed. */
  lemma {:induction false} SanitizeWellFormed(ms: seq<Message>)
    ensures WellFormed(Sanitize(ms))
    decreases |ms|
  {
    if ms != [] {
      var n := PieceLength(ms);
      SanitizeWellFormed(ms[n..]);
      NoToolFirst(ms[n..]);
      if PieceOk(ms) {
        PieceAlone(ms);
        PieceStable(ms[..n], Sanitize(ms[n..]));
      }
    }
  }

  /** A piece cut off from what follows is the same piece. */
  lemma {:induction false} PieceAlone(ms: seq<Message>)
    requires ms != []
    ensures PieceLength(ms[..PieceLength(ms)]) == PieceLength(ms)
    ensures PieceOk(ms[..PieceLength(ms)]) <==> PieceOk(ms)
    ensures var piece := ms[..PieceLength(ms)]; piece[PieceLength(ms)..] == []
  {
    var n := PieceLength(ms);
    if CallsTools(ms[0]) {
      assert ms[..n][1..] == ms[1..n];
      RunIsMaximal(ms[1..n], n - 1);
      assert ms[..n][1..n] == ms[1..n];
    }
  }

  lemma {:induction false} WellFormedKept(ms: seq<Message>)
    requires WellFormed(ms)
    ensures Sanitize(ms) == ms
    decreases |ms|
  {
    if ms != [] {
      WellFormedKept(ms[PieceLength(ms)..]);
    }
  }

  /** The sanitizer changes exactly the lists that are not well formed. */
  lemma {:induction false} SanitizeFixpoint(ms: seq<Message>)
    ensures Sanitize(ms) == ms <==> WellFormed(ms)
  {
    SanitizeWellFormed(ms);
    if WellFormed(ms) {
      WellFormedKept(ms);
    }
  }

  /** Sanitizing twice is sanitizing once. */
  lemma SanitizeIdempotent(ms: seq<Message>)
    ensures Sanitize(Sanitize(ms)) == Sanitize(ms)
  {
    SanitizeWellFormed(ms);
    WellFormedKept(Sanitize(ms));
  }

  /** `picks` are the increasing positions at which `sub` sits in `ms`. */
  ghost predicate Embeds<T>(sub: seq<T>, ms: seq<T>, picks: seq<nat>) {
    && |picks| == |sub|
    && (forall i :: 0 <= i < |picks| ==> picks[i] < |ms| && sub[i] == ms[picks[i]])
    && (forall i, j :: 0 <= i < j < |picks| ==> picks[i] < picks[j])
  }

  /** The positions of `sub` in `front + ms`, behind those of `front` if that is kept. */
  function After(front: nat, kept: bool, picks: seq<nat>): seq<nat> {
    (if kept then seq(front, i => i) else []) + seq(|picks|, i requires 0 <= i < |picks| => front + picks[i])
  }

  lemma EmbedsAfter<T>(front: seq<T>, kept: bool, sub: seq<T>, ms: seq<T>, picks: seq<nat>) returns (all: seq<nat>)
    requires Embeds(sub, ms, picks)
    ensures Embeds((if kept then front else []) + sub, front + ms, all)
    ensures kept ==> forall k :: 0 <= k < |front| ==> k in all
    ensures forall p :: p in picks ==> |front| + p in all
  {
    all := After(|front|, kept, picks);
    forall k | kept && 0 <= k < |front| ensures k in all {
      assert all[k] == k;
    }
    forall p | p in picks ensures |front| + p in all {
      PickedAfter(|front|, kept, picks, p);
    }
  }

  lemma PickedAfter(front: nat, kept: bool, picks: seq<nat>, p: nat)
    requires p in picks
    ensures front + p in After(front, kept, picks)
  {
    var i :| 0 <= i < |picks| && picks[i] == p;
    assert After(front, kept, picks)[(if kept then front else 0) + i] == front + p;
  }

  /** Nothing is invented, altered or reordered. */
  lemma {:induction false} SanitizeSubsequence(ms: seq<Message>) returns (picks: seq<nat>)
    ensures Embeds(Sanitize(ms), ms, picks)
    decreases |ms|
  {
    picks := [];
    if ms != [] {
      var n := PieceLength(ms);
      var rest := SanitizeSubsequence(ms[n..]);
      picks := EmbedsAfter(ms[..n], PieceOk(ms), Sanitize(ms[n..]), ms[n..], rest);
      assert ms[..n] + ms[n..] == ms;
      assert [] + Sanitize(ms[n..]) == Sanitize(ms[n..]);
    }
  }

  /** Sanitizing works piece by piece, cut anywhere but before a tool message. */
  lemma {:induction false} SanitizeConcat(a: seq<Message>, b: seq<Message>)
    requires b != [] ==> b[0].role != Tool
    ensures Sanitize(a + b) == Sanitize(a) + Sanitize(b)
    decreases |a|
  {
    if a == [] {
      assert a + b == b;
    } else {
      PieceStable(a, b);
      SanitizeConcat(a[PieceLength(a)..], b);
    }
  }

  lemma {:induction false} SanitizeBlock(call: Message, results: seq<Message>)
    requires CallsTools(call) && forall i :: 0 <= i < |results| ==> results[i].role == Tool
    ensures Sanitize([call] + results) == if Covers(call, results) then [call] + results else []
  {
    var ms := [call] + results + [];
    assert ms == [call] + results;
    BlockPiece(call, results, []);
    assert Sanitize(ms[|results| + 1..]) == [];
  }

  /** A block that is stored contiguously survives verbatim when all its calls are answered
      and is dropped as a whole otherwise, whatever surrounds it. */
  lemma {:induction false} ContiguousBlock(a: seq<Message>, call: Message, results: seq<Message>, b: seq<Message>)
    requires CallsTools(call) && forall i :: 0 <= i < |results| ==> results[i].role == Tool
    requires b != [] ==> b[0].role != Tool
    ensures Sanitize(a + ([call] + results) + b) ==
            Sanitize(a) + (if Covers(call, results) then [call] + results else []) + Sanitize(b)
  {
    SanitizeConcat(a + ([call] + results), b);
    SanitizeConcat(a, [call] + results);
    SanitizeBlock(call, results);
  }

  /** Appending to a well-formed list: only the appended part matters. */
  lemma {:induction false} WellFormedConcat(a: seq<Message>, b: seq<Message>)
    requires WellFormed(a) && (b != [] ==> b[0].role != Tool)
    ensures WellFormed(a + b) <==> WellFormed(b)
    decreases |a|
  {
    if a == [] {
      assert a + b == b;
    } else {
      PieceStable(a, b);
      WellFormedConcat(a[PieceLength(a)..], b);
    }
  }

  lemma {:induction false} WellFormedBlock(call: Message, results: seq<Message>)
    requires CallsTools(call) && forall i :: 0 <= i < |results| ==> results[i].role == Tool
    ensures WellFormed([call] + results) <==> Covers(call, results)
  {
    SanitizeFixpoint([call] + results);
    SanitizeBlock(call, results);
  }

  lemma WellFormedPlain(m: Message)
    requires m.role != Tool && !CallsTools(m)
    ensures WellFormed([m])
  {
    assert [m][1..] == [];
  }
}

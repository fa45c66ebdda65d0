/** Cutting a time-ordered message log into sessions at idle gaps. */
module SessionGrouping {

  const SESSION_GAP := 1_800_000_000_000   // half an hour, in nanoseconds

  datatype Msg = Msg(time: int, agentID: string, role: string)

  datatype Session = Session(start: int, end: int, messages: seq<Msg>, agents: seq<string>)

  /** The closed sessions and the one still open. */
  datatype Grouping = Grouping(closed: seq<Session>, cur: Session)

  function Fresh(m: Msg): Session {
    Session(m.time, m.time, [m], if m.agentID != "" then [m.agentID] else [])
  }

  function Extended(s: Session, m: Msg): Session {
    Session(s.start, m.time, s.messages + [m],
            if m.agentID != "" && m.agentID !in s.agents then s.agents + [m.agentID] else s.agents)
  }

  /** A message joins the open session unless it comes a gap or more after its end. */
  function Next(g: Grouping, m: Msg): Grouping {
    if m.time - g.cur.end >= SESSION_GAP then Grouping(g.closed + [g.cur], Fresh(m))
    else Grouping(g.closed, Extended(g.cur, m))
  }

  function Fold(msgs: seq<Msg>): Grouping
    requires msgs != []
  {
    if |msgs| == 1 then Grouping([], Fresh(msgs[0]))
    else Next(Fold(msgs[..|msgs| - 1]), msgs[|msgs| - 1])
  }

  function Group(msgs: seq<Msg>): seq<Session> {
    if msgs == [] then [] else Fold(msgs).closed + [Fold(msgs).cur]
  }

  method GroupIntoSessions(msgs: seq<Msg>) returns (sessions: seq<Session>)
    ensures sessions == Group(msgs)
  {
    if |msgs| == 0 {
      return [];
    }
    sessions := [];
    var cur := Session(msgs[0].time, msgs[0].time, [msgs[0]], []);
    var agentSeen: map<string, bool> := map[];
    if msgs[0].agentID != "" {
      cur := cur.(agents := [msgs[0].agentID]);
      agentSeen := agentSeen[msgs[0].agentID := true];
    }
    for i := 1 to |msgs|
      invariant Fold(msgs[..i]) == Grouping(sessions, cur)
      invariant forall a :: a in agentSeen <==> a in cur.agents
    {
      assert msgs[..i + 1][..i] == msgs[..i];
      var m := msgs[i];
      if m.time - cur.end >= SESSION_GAP {
        sessions := sessions + [cur];
        cur := Session(m.time, m.time, [m], []);
        agentSeen := map[];
        if m.agentID != "" {
          agentSeen := agentSeen[m.agentID := true];
          cur := cur.(agents := [m.agentID]);
        }
      } else {
        cur := cur.(end := m.time, messages := cur.messages + [m]);
        if m.agentID != "" && m.agentID !in agentSeen {
          agentSeen := agentSeen[m.agentID := true];
          cur := cur.(agents := cur.agents + [m.agentID]);
        }
      }
    }
    assert msgs[..|msgs|] == msgs;
    sessions := sessions + [cur];
  }

  // ---- each session ----

  ghost predicate CloseAt(msgs: seq<Msg>, i: int)
    requires 0 < i < |msgs|
  {
    msgs[i].time - msgs[i - 1].time < SESSION_GAP
  }

  /** A non-empty run whose consecutive messages are less than the gap apart. */
  ghost predicate Tight(run: seq<Msg>) {
    run != [] && forall i :: 0 < i < |run| ==> CloseAt(run, i)
  }

  lemma TightAppend(run: seq<Msg>, m: Msg)
    requires run != []
    ensures Tight(run + [m]) <==> Tight(run) && m.time - run[|run| - 1].time < SESSION_GAP
  {
    var all := run + [m];
    if Tight(all) {
      forall i | 0 < i < |run| ensures CloseAt(run, i) {
        assert CloseAt(all, i);
      }
      assert CloseAt(all, |run|);
    }
    if Tight(run) && m.time - run[|run| - 1].time < SESSION_GAP {
      forall i | 0 < i < |all| ensures CloseAt(all, i) {
        assert i < |run| ==> CloseAt(run, i);
      }
    }
  }

  /** The distinct non-empty agent IDs of a run, in order of first appearance. */
  function AgentsOf(msgs: seq<Msg>): (agents: seq<string>)
    ensures forall a :: a in agents <==> a != "" && exists i :: 0 <= i < |msgs| && msgs[i].agentID == a
    ensures forall i, j :: 0 <= i < j < |agents| ==> agents[i] != agents[j]
  {
    if msgs == [] then []
    else
      var n := |msgs| - 1;
      var before := AgentsOf(msgs[..n]);
      assert forall i :: 0 <= i < n ==> msgs[..n][i] == msgs[i];
      var a := msgs[n].agentID;
      if a != "" && a !in before then before + [a] else before
  }

  /** A tight run with its first and last time and its agents. */
  ghost predicate Faithful(s: Session) {
    && Tight(s.messages) && s.agents == AgentsOf(s.messages)
    && s.start == s.messages[0].time && s.end == s.messages[|s.messages| - 1].time
  }

  lemma FreshFaithful(m: Msg)
    ensures Faithful(Fresh(m))
  {
    assert [m][..0] == [];
    assert AgentsOf([m]) == if m.agentID != "" then [] + [m.agentID] else [];
  }

  lemma ExtendedFaithful(s: Session, m: Msg)
    requires Faithful(s) && m.time - s.end < SESSION_GAP
    ensures Faithful(Extended(s, m))
  {
    TightAppend(s.messages, m);
    assert (s.messages + [m])[..|s.messages|] == s.messages;
  }

  lemma {:induction false} FoldFaithful(msgs: seq<Msg>)
    requires msgs != []
    ensures Faithful(Fold(msgs).cur) && forall i :: 0 <= i < |Fold(msgs).closed| ==> Faithful(Fold(msgs).closed[i])
    ensures Fold(msgs).cur.end == msgs[|msgs| - 1].time
  {
    var n := |msgs| - 1;
    FreshFaithful(msgs[n]);
    if n > 0 {
      FoldFaithful(msgs[..n]);
      var before := Fold(msgs[..n]);
      if msgs[n].time - before.cur.end < SESSION_GAP {
        ExtendedFaithful(before.cur, msgs[n]);
      }
    }
  }

  // ---- the partition ----

  function Join(runs: seq<seq<Msg>>): seq<Msg> {
    if runs == [] then [] else Join(runs[..|runs| - 1]) + runs[|runs| - 1]
  }

  lemma JoinStep(runs: seq<seq<Msg>>, run: seq<Msg>)
    ensures Join(runs + [run]) == Join(runs) + run
  {
    assert (runs + [run])[..|runs|] == runs;
  }

  ghost predicate ApartAt(runs: seq<seq<Msg>>, i: int)
    requires 0 < i < |runs|
  {
    && runs[i] != [] && runs[i - 1] != []
    && runs[i][0].time - runs[i - 1][|runs[i - 1]| - 1].time >= SESSION_GAP
  }

  /** A partition of the log into contiguous non-empty runs, tight inside and at least a gap
      apart at every boundary. */
  ghost predicate IsCut(runs: seq<seq<Msg>>, msgs: seq<Msg>) {
    && Join(runs) == msgs
    && (forall i :: 0 <= i < |runs| ==> Tight(runs[i]))
    && (forall i :: 0 < i < |runs| ==> ApartAt(runs, i))
  }

  /** The run starts a gap after the last of `runs` ends, if there is one. */
  ghost predicate Follows(run: seq<Msg>, runs: seq<seq<Msg>>)
    requires run != [] && forall i :: 0 <= i < |runs| ==> runs[i] != []
  {
    runs != [] ==> run[0].time - runs[|runs| - 1][|runs[|runs| - 1]| - 1].time >= SESSION_GAP
  }

  lemma CutWithout(runs: seq<seq<Msg>>, run: seq<Msg>, msgs: seq<Msg>)
    requires IsCut(runs + [run], msgs)
    ensures IsCut(runs, Join(runs)) && Tight(run) && (forall i :: 0 <= i < |runs| ==> Tight(runs[i]))
    ensures Follows(run, runs)
  {
    CutTight(runs, run, msgs);
    CutApart(runs, run, msgs);
    if runs != [] {
      ApartFollows(runs, run);
    }
    hide Join, Tight, ApartAt, Follows;
  }

  lemma ApartFollows(runs: seq<seq<Msg>>, run: seq<Msg>)
    requires runs != [] && run != [] && ApartAt(runs + [run], |runs|) && forall i :: 0 <= i < |runs| ==> runs[i] != []
    ensures Follows(run, runs)
  {
  }

  lemma CutTight(runs: seq<seq<Msg>>, run: seq<Msg>, msgs: seq<Msg>)
    requires IsCut(runs + [run], msgs)
    ensures Tight(run) && forall i :: 0 <= i < |runs| ==> Tight(runs[i])
  {
    hide Join, Tight;
    var all := runs + [run];
    assert Tight(all[|runs|]);
    forall i | 0 <= i < |runs| ensures Tight(runs[i]) {
      assert Tight(all[i]);
    }
  }

  lemma CutApart(runs: seq<seq<Msg>>, run: seq<Msg>, msgs: seq<Msg>)
    requires IsCut(runs + [run], msgs)
    ensures forall i :: 0 < i < |runs| ==> ApartAt(runs, i)
    ensures runs != [] ==> ApartAt(runs + [run], |runs|)
  {
    hide Join, Tight;
    forall i | 0 < i < |runs| ensures ApartAt(runs, i) {
      ApartBefore(runs, run, i);
    }
  }

  lemma ApartBefore(runs: seq<seq<Msg>>, run: seq<Msg>, i: nat)
    requires 0 < i < |runs| && ApartAt(runs + [run], i)
    ensures ApartAt(runs, i)
  {
  }

  lemma NotEmptyRun(run: seq<Msg>)
    ensures Tight(run) ==> run != []
  {
  }

  lemma CutWith(runs: seq<seq<Msg>>, run: seq<Msg>, before: seq<Msg>)
    requires IsCut(runs, before) && Tight(run) && forall i :: 0 <= i < |runs| ==> runs[i] != []
    requires Follows(run, runs)
    ensures IsCut(runs + [run], before + run)
  {
    hide Tight, Join;
    NotEmptyRun(run);
    JoinStep(runs, run);
    var all := runs + [run];
    forall i | 0 < i < |all| ensures ApartAt(all, i) {
      assert i < |runs| ==> ApartAt(runs, i);
    }
  }

  /** A cut is a cut of what comes before its last run, and a tight last run a gap later. */
  lemma CutLast(runs: seq<seq<Msg>>, run: seq<Msg>, before: seq<Msg>)
    ensures IsCut(runs + [run], before + run) && before == Join(runs) <==>
            IsCut(runs, before) && Tight(run)
            && (runs != [] ==> run[0].time - runs[|runs| - 1][|runs[|runs| - 1]| - 1].time >= SESSION_GAP)
  {
    if IsCut(runs + [run], before + run) && before == Join(runs) {
      CutWithout(runs, run, before + run);
    }
    if IsCut(runs, before) && Tight(run)
       && (runs != [] ==> run[0].time - runs[|runs| - 1][|runs[|runs| - 1]| - 1].time >= SESSION_GAP) {
      assert forall i :: 0 <= i < |runs| ==> Tight(runs[i]);
      CutWith(runs, run, before);
    }
  }

  function Runs(sessions: seq<Session>): (runs: seq<seq<Msg>>)
    ensures |runs| == |sessions|
  {
    seq(|sessions|, i requires 0 <= i < |sessions| => sessions[i].messages)
  }

  lemma RunsStep(sessions: seq<Session>, s: Session)
    ensures Runs(sessions + [s]) == Runs(sessions) + [s.messages]
  {
  }

  lemma CutNonEmpty(cut: seq<seq<Msg>>, msgs: seq<Msg>)
    requires cut != []
    ensures IsCut(cut, msgs) ==> msgs != []
  {
    if IsCut(cut, msgs) {
      assert Tight(cut[|cut| - 1]);
    }
  }

  /** There is exactly one such partition, and the sessions are it. */
  lemma {:induction false} CutExact(msgs: seq<Msg>, cut: seq<seq<Msg>>)
    ensures IsCut(cut, msgs) <==> cut == Runs(Group(msgs))
  {
    if msgs == [] {
      if cut != [] {
        CutNonEmpty(cut, msgs);
      }
    } else {
      var g := Fold(msgs);
      RunsStep(g.closed, g.cur);
      FoldIsCut(msgs);
      if IsCut(cut, msgs) {
        var k := |cut| - 1;
        assert cut == cut[..k] + [cut[k]];
        JoinStep(cut[..k], cut[k]);
        CutUnique(msgs, cut[..k], cut[k]);
      }
    }
  }

  /** The cut after one more message, from the cut before it. */
  lemma NextIsCut(g: Grouping, before: seq<Msg>, m: Msg)
    requires before == Join(Runs(g.closed)) + g.cur.messages
    requires IsCut(Runs(g.closed) + [g.cur.messages], before) && Faithful(g.cur)
    ensures var g' := Next(g, m);
            && IsCut(Runs(g'.closed) + [g'.cur.messages], before + [m])
            && before + [m] == Join(Runs(g'.closed)) + g'.cur.messages
  {
    var runs := Runs(g.closed);
    CutLast(runs, g.cur.messages, Join(runs));
    if m.time - g.cur.end >= SESSION_GAP {
      RunsStep(g.closed, g.cur);
      JoinStep(runs, g.cur.messages);
      CutLast(runs + [g.cur.messages], [m], before);
    } else {
      TightAppend(g.cur.messages, m);
      CutLast(runs, g.cur.messages + [m], Join(runs));
      assert Join(runs) + (g.cur.messages + [m]) == before + [m];
    }
  }

  lemma {:induction false} FoldIsCut(msgs: seq<Msg>)
    requires msgs != []
    ensures var g := Fold(msgs);
            IsCut(Runs(g.closed) + [g.cur.messages], msgs)
            && msgs == Join(Runs(g.closed)) + g.cur.messages
  {
    var n := |msgs| - 1;
    assert msgs == msgs[..n] + [msgs[n]];
    if n == 0 {
      assert Runs(Fold(msgs).closed) == [];
      CutLast([], [msgs[0]], []);
      assert [] + [msgs[0]] == msgs;
    } else {
      FoldIsCut(msgs[..n]);
      FoldFaithful(msgs[..n]);
      NextIsCut(Fold(msgs[..n]), msgs[..n], msgs[n]);
    }
  }

  lemma {:induction false} CutUnique(msgs: seq<Msg>, runs: seq<seq<Msg>>, run: seq<Msg>)
    requires msgs != [] && IsCut(runs + [run], msgs) && msgs == Join(runs) + run
    ensures runs == Runs(Fold(msgs).closed) && run == Fold(msgs).cur.messages
    decreases |msgs|
  {
    CutLast(runs, run, Join(runs));
    var n := |msgs| - 1;
    if n == 0 {
      OneMessage(msgs, runs, run);
    } else {
      FoldFaithful(msgs[..n]);
      FoldLast(msgs);
      hide Fold, Join, IsCut, Faithful, Runs;
      if |run| == 1 {
        LastRunAlone(msgs, runs, run);
        var k := |runs| - 1;
        CutUnique(msgs[..n], runs[..k], runs[k]);
        RunsStep(Fold(msgs[..n]).closed, Fold(msgs[..n]).cur);
      } else {
        LastRunLonger(msgs, runs, run);
        CutUnique(msgs[..n], runs, run[..|run| - 1]);
      }
    }
  }

  lemma FoldLast(msgs: seq<Msg>)
    requires |msgs| > 1
    ensures Fold(msgs) == Next(Fold(msgs[..|msgs| - 1]), msgs[|msgs| - 1])
  {
  }

  /** What comes before the last message, and that message. */
  lemma WithoutLast(a: seq<Msg>, b: seq<Msg>)
    requires b != []
    ensures (a + b)[..|a + b| - 1] == a + b[..|b| - 1] && b == b[..|b| - 1] + [b[|b| - 1]]
    ensures (a + b)[|a + b| - 1] == b[|b| - 1]
  {
  }

  /** A last run of one message opened a session; the runs before it cut the rest. */
  lemma LastRunAlone(msgs: seq<Msg>, runs: seq<seq<Msg>>, run: seq<Msg>)
    requires |msgs| > 1 && |run| == 1 && IsCut(runs + [run], msgs) && msgs == Join(runs) + run
    ensures var n, k := |msgs| - 1, |runs| - 1;
            && k >= 0 && runs == runs[..k] + [runs[k]] && IsCut(runs, msgs[..n]) && run == [msgs[n]]
            && msgs[..n] == Join(runs[..k]) + runs[k]
            && msgs[n].time - msgs[n - 1].time >= SESSION_GAP
  {
    hide Join, Tight, IsCut;
    var n, k := |msgs| - 1, |runs| - 1;
    CutLast(runs, run, Join(runs));
    WithoutLast(Join(runs), run);
    assert Join(runs) + [] == Join(runs);
    NotEmpty(runs, run);
    JoinStep(runs[..k], runs[k]);
    LastOfJoin(runs);
  }

  lemma NotEmpty(runs: seq<seq<Msg>>, run: seq<Msg>)
    requires |Join(runs) + run| > |run|
    ensures |runs| > 0 && runs == runs[..|runs| - 1] + [runs[|runs| - 1]]
  {
  }

  lemma LastOfJoin(runs: seq<seq<Msg>>)
    requires runs != [] && IsCut(runs, Join(runs))
    ensures var run := runs[|runs| - 1];
            Join(runs) != [] && run != [] && Join(runs)[|Join(runs)| - 1] == run[|run| - 1]
  {
    assert Tight(runs[|runs| - 1]);
    WithoutLast(Join(runs[..|runs| - 1]), runs[|runs| - 1]);
  }

  /** A longer last run was extended; without its last message it still cuts the rest. */
  lemma LastRunLonger(msgs: seq<Msg>, runs: seq<seq<Msg>>, run: seq<Msg>)
    requires |run| > 1 && IsCut(runs + [run], msgs) && msgs == Join(runs) + run
    ensures var n, shorter := |msgs| - 1, run[..|run| - 1];
            && run == shorter + [msgs[n]] && msgs[..n] == Join(runs) + shorter
            && IsCut(runs + [shorter], msgs[..n])
            && msgs[n].time - msgs[n - 1].time < SESSION_GAP
  {
    var n, shorter := |msgs| - 1, run[..|run| - 1];
    CutLast(runs, run, Join(runs));
    WithoutLast(Join(runs), run);
    WithoutLast(Join(runs), shorter);
    TightAppend(shorter, msgs[n]);
    CutLast(runs, shorter, Join(runs));
    assert msgs[n - 1] == msgs[..n][n - 1];
  }

  lemma OneMessage(msgs: seq<Msg>, runs: seq<seq<Msg>>, run: seq<Msg>)
    requires |msgs| == 1 && IsCut(runs, Join(runs)) && run != [] && msgs == Join(runs) + run
    ensures runs == [] && run == msgs
  {
    if runs != [] {
      CutNonEmpty(runs, Join(runs));
    }
  }

  // ---- which instants the sessions cover ----

  ghost predicate Ordered(msgs: seq<Msg>) {
    forall i, j :: 0 <= i <= j < |msgs| ==> msgs[i].time <= msgs[j].time
  }

  predicate Spans(s: Session, x: int) {
    s.start <= x <= s.end
  }

  ghost predicate Covers(sessions: seq<Session>, x: int) {
    exists s :: s in sessions && Spans(s, x)
  }

  ghost predicate Near(a: Msg, b: Msg, x: int) {
    a.time <= x <= b.time && b.time - a.time < SESSION_GAP
  }

  /** The instant lies between two messages less than a gap apart. */
  ghost predicate Between(msgs: seq<Msg>, x: int) {
    exists a, b :: a in msgs && b in msgs && Near(a, b, x)
  }

  lemma BetweenFrom(msgs: seq<Msg>, a: Msg, b: Msg, x: int)
    requires a in msgs && b in msgs && Near(a, b, x)
    ensures Between(msgs, x)
  {
  }

  /** The last message of an ordered list is the latest. */
  lemma LastIsLatest(before: seq<Msg>, m: Msg, a: Msg)
    requires Ordered(before + [m]) && a in before
    ensures a.time <= before[|before| - 1].time <= m.time
  {
    var all, n := before + [m], |before|;
    var i :| 0 <= i < n && before[i] == a;
    assert all[i] == a && all[n - 1] == before[n - 1] && all[n] == m;
  }

  lemma BetweenAfter(before: seq<Msg>, m: Msg, x: int)
    requires Ordered(before + [m]) && before != []
    ensures Between(before + [m], x) <==>
              Between(before, x) || x == m.time || Near(before[|before| - 1], m, x)
  {
    var all, last := before + [m], before[|before| - 1];
    if Between(before, x) {
      var a, b :| a in before && b in before && Near(a, b, x);
      BetweenFrom(all, a, b, x);
    }
    if x == m.time {
      BetweenFrom(all, m, m, x);
    }
    if Near(last, m, x) {
      BetweenFrom(all, last, m, x);
    }
    if Between(all, x) {
      var a, b :| a in all && b in all && Near(a, b, x);
      if a in before {
        LastIsLatest(before, m, a);
        if b in before {
          BetweenFrom(before, a, b, x);
        } else if x <= last.time {
          BetweenFrom(before, a, last, x);
        }
      } else if b in before {
        LastIsLatest(before, m, b);
      }
    }
  }

  lemma OrderedPrefix(msgs: seq<Msg>, n: nat)
    requires Ordered(msgs) && n <= |msgs|
    ensures Ordered(msgs[..n])
  {
  }

  lemma CoversAppend(closed: seq<Session>, s: Session, x: int)
    ensures Covers(closed + [s], x) <==> Covers(closed, x) || Spans(s, x)
  {
    if Covers(closed, x) {
      var c :| c in closed && Spans(c, x);
      assert c in closed + [s];
    }
    assert s in closed + [s];
  }

  ghost predicate Forward(g: Grouping) {
    g.cur.start <= g.cur.end && forall s :: s in g.closed ==> s.start <= s.end
  }

  lemma NextCovers(g: Grouping, m: Msg, x: int)
    requires Forward(g) && g.cur.end <= m.time
    ensures Forward(Next(g, m))
    ensures Covers(Next(g, m).closed, x) || Spans(Next(g, m).cur, x) <==>
              || Covers(g.closed, x) || Spans(g.cur, x) || x == m.time
              || (m.time - g.cur.end < SESSION_GAP && g.cur.end <= x <= m.time)
  {
    CoversAppend(g.closed, g.cur, x);
  }

  /** The sessions cover exactly the instants that lie between two messages less than a gap
      apart: in particular every message. */
  lemma {:induction false} FoldCovers(msgs: seq<Msg>, x: int)
    requires msgs != [] && Ordered(msgs)
    ensures Covers(Fold(msgs).closed, x) || Spans(Fold(msgs).cur, x) <==> Between(msgs, x)
    ensures Forward(Fold(msgs))
  {
    hide Fold, Covers, Between, Forward, Faithful, Spans;
    var n := |msgs| - 1;
    var m := msgs[n];
    if n == 0 {
      assert msgs == [m];
      OneCovers(m, x);
    } else {
      OrderedPrefix(msgs, n);
      FoldCovers(msgs[..n], x);
      FoldFaithful(msgs[..n]);
      FoldLast(msgs);
      assert msgs == msgs[..n] + [m] && msgs[n - 1].time <= m.time;
      CoversNext(Fold(msgs[..n]), msgs[..n], m, x);
    }
  }

  lemma CoversNext(g: Grouping, before: seq<Msg>, m: Msg, x: int)
    requires before != [] && Ordered(before + [m]) && before[|before| - 1].time <= m.time
    requires Forward(g) && g.cur.end == before[|before| - 1].time
    requires Covers(g.closed, x) || Spans(g.cur, x) <==> Between(before, x)
    ensures Covers(Next(g, m).closed, x) || Spans(Next(g, m).cur, x) <==> Between(before + [m], x)
    ensures Forward(Next(g, m))
  {
    hide Covers, Between, Forward, Next;
    BetweenAfter(before, m, x);
    NextCovers(g, m, x);
  }

  lemma OneCovers(m: Msg, x: int)
    ensures Covers(Fold([m]).closed, x) || Spans(Fold([m]).cur, x) <==> Between([m], x)
    ensures Forward(Fold([m]))
  {
    if x == m.time {
      BetweenFrom([m], m, m, x);
    }
  }

  lemma GroupCovers(msgs: seq<Msg>, x: int)
    requires Ordered(msgs)
    ensures Covers(Group(msgs), x) <==> Between(msgs, x)
  {
    if msgs != [] {
      var g := Fold(msgs);
      FoldCovers(msgs, x);
      assert forall s :: s in g.closed + [g.cur] <==> s in g.closed || s == g.cur;
    }
  }

  /** The first `k` sessions are the sessions of a prefix of the log, and what follows that
      prefix comes at least a gap later. */
  lemma {:induction false} ClosedPrefix(msgs: seq<Msg>, k: nat) returns (n: nat)
    requires msgs != [] && 0 < k <= |Fold(msgs).closed|
    ensures 0 < n < |msgs| && Group(msgs[..n]) == Fold(msgs).closed[..k]
    ensures msgs[n].time - msgs[n - 1].time >= SESSION_GAP
    decreases |msgs|
  {
    var m := |msgs| - 1;
    ClosedLast(msgs);
    hide Fold, Group;
    if k <= |Fold(msgs[..m]).closed| {
      n := ClosedPrefix(msgs[..m], k);
      assert msgs[..m][..n] == msgs[..n];
    } else {
      n := m;
    }
  }

  /** The last message closes no session, or all that were found before it, a gap ago. */
  lemma ClosedLast(msgs: seq<Msg>)
    requires msgs != [] && Fold(msgs).closed != []
    ensures var m := |msgs| - 1;
            && m > 0
            && (Fold(msgs).closed == Fold(msgs[..m]).closed
                || (Fold(msgs).closed == Fold(msgs[..m]).closed + [Fold(msgs[..m]).cur]
                    && Fold(msgs).closed == Group(msgs[..m])
                    && msgs[m].time - msgs[m - 1].time >= SESSION_GAP))
  {
    FoldFaithful(msgs[..|msgs| - 1]);
  }

  lemma {:induction false} GroupPrefix(msgs: seq<Msg>, k: nat) returns (n: nat)
    requires 0 < k <= |Group(msgs)|
    ensures 0 < n <= |msgs| && Group(msgs[..n]) == Group(msgs)[..k]
    ensures n < |msgs| ==> msgs[n].time - msgs[n - 1].time >= SESSION_GAP
  {
    if k == |Group(msgs)| {
      n := |msgs|;
      assert msgs[..n] == msgs && Group(msgs)[..k] == Group(msgs);
    } else {
      n := ClosedPrefix(msgs, k);
      assert Group(msgs)[..k] == Fold(msgs).closed[..k];
    }
  }

  /** Sessions that follow one another at least a gap apart. */
  ghost predicate AllApart(sessions: seq<Session>) {
    forall i, j :: 0 <= i < j < |sessions| ==> sessions[j].start - sessions[i].end >= SESSION_GAP
  }

  lemma NextApart(g: Grouping, m: Msg)
    requires AllApart(g.closed + [g.cur]) && g.cur.start <= g.cur.end <= m.time
    ensures AllApart(Next(g, m).closed + [Next(g, m).cur])
  {
    var before, after := g.closed + [g.cur], Next(g, m).closed + [Next(g, m).cur];
    var n := |g.closed|;
    forall i, j | 0 <= i < j < |after| ensures after[j].start - after[i].end >= SESSION_GAP {
      assert after[i].end == before[i].end;
      assert i < n ==> before[n].start - before[i].end >= SESSION_GAP;
      assert j <= n ==> after[j].start == before[j].start;
    }
  }

  lemma {:induction false} SessionsApart(msgs: seq<Msg>)
    requires Ordered(msgs)
    ensures AllApart(Group(msgs))
  {
    if |msgs| > 1 {
      var n := |msgs| - 1;
      OrderedPrefix(msgs, n);
      SessionsApart(msgs[..n]);
      FoldCovers(msgs[..n], 0);
      FoldFaithful(msgs[..n]);
      assert msgs[n - 1].time <= msgs[n].time;
      NextApart(Fold(msgs[..n]), msgs[n]);
    }
  }
}

/** Whole runs of the summarizer: any mix of arriving messages, passing time, and detection
    runs that succeed, fail, or stop at any session. */
module WatermarkRuns {
  import opened SessionGrouping
  import opened SessionWatermark

  // ---- episodes ----

  /** Episodes keyed by their start that overlap in at most one instant. */
  ghost predicate Tidy(episodes: map<EpisodeID, Episode>) {
    && (forall id :: id in episodes ==> episodes[id].start == id.start && id.start <= episodes[id].end)
    && (forall i, j :: i in episodes && j in episodes && i.start < j.start ==> episodes[i].end <= j.start)
  }

  ghost predicate EndBy(episodes: map<EpisodeID, Episode>, t: int) {
    forall id :: id in episodes ==> episodes[id].end <= t
  }

  ghost predicate Remembered(episodes: map<EpisodeID, Episode>, x: int) {
    exists id :: id in episodes && episodes[id].start <= x <= episodes[id].end
  }

  lemma UpsertTidy(episodes: map<EpisodeID, Episode>, e: Episode)
    requires Tidy(episodes) && EndBy(episodes, e.start) && e.start <= e.end
    ensures Tidy(Upsert(episodes, e)) && EndBy(Upsert(episodes, e), e.end)
  {
  }

  lemma UpsertRemembers(episodes: map<EpisodeID, Episode>, e: Episode, x: int)
    requires Tidy(episodes) && EndBy(episodes, e.start) && e.start <= e.end
    ensures Remembered(Upsert(episodes, e), x) <==> Remembered(episodes, x) || e.start <= x <= e.end
  {
    var after, id := Upsert(episodes, e), SessionID(e.start);
    assert after[id].start == e.start && after[id].end == e.end;
    if Remembered(episodes, x) {
      var i :| i in episodes && episodes[i].start <= x <= episodes[i].end;
      assert i in after && after[i].start <= x <= after[i].end;
    }
    if Remembered(after, x) {
      var i :| i in after && after[i].start <= x <= after[i].end;
      assert i == id || (i in episodes && after[i] == episodes[i]);
    }
  }

  /** Sessions that run forward and follow one another. */
  ghost predicate Ascending(sessions: seq<Session>) {
    && (forall i :: 0 <= i < |sessions| ==> sessions[i].start <= sessions[i].end)
    && (forall i, j :: 0 <= i < j < |sessions| ==> sessions[i].end < sessions[j].start)
  }

  lemma {:induction false} StoreAllTidy(episodes: map<EpisodeID, Episode>, sessions: seq<Session>)
    requires Tidy(episodes) && Ascending(sessions)
    requires sessions != [] ==> EndBy(episodes, sessions[0].start)
    ensures Tidy(StoreAll(episodes, sessions))
    ensures sessions != [] ==> EndBy(StoreAll(episodes, sessions), sessions[|sessions| - 1].end)
    ensures sessions != [] ==> Watermark(StoreAll(episodes, sessions)) == sessions[|sessions| - 1].end
  {
    if sessions != [] {
      var n := |sessions| - 1;
      var e := EpisodeOf(sessions[n]);
      StoreAllTidy(episodes, sessions[..n]);
      BeforeLast(episodes, sessions);
      UpsertTidy(StoreAll(episodes, sessions[..n]), e);
      StoredEnd(StoreAll(episodes, sessions[..n]), e);
    }
  }

  /** When the last session is stored, every stored episode ends by its start. */
  lemma BeforeLast(episodes: map<EpisodeID, Episode>, sessions: seq<Session>)
    requires sessions != [] && Ascending(sessions) && EndBy(episodes, sessions[0].start)
    requires var before := sessions[..|sessions| - 1];
             before != [] ==> EndBy(StoreAll(episodes, before), before[|before| - 1].end)
    ensures EndBy(StoreAll(episodes, sessions[..|sessions| - 1]), sessions[|sessions| - 1].start)
  {
  }

  lemma {:induction false} StoreAllRemembers(episodes: map<EpisodeID, Episode>, sessions: seq<Session>, x: int)
    requires Tidy(episodes) && Ascending(sessions)
    requires sessions != [] ==> EndBy(episodes, sessions[0].start)
    ensures Remembered(StoreAll(episodes, sessions), x) <==> Remembered(episodes, x) || Covers(sessions, x)
  {
    if sessions != [] {
      var n := |sessions| - 1;
      var s := sessions[n];
      StoreAllTidy(episodes, sessions[..n]);
      StoreAllRemembers(episodes, sessions[..n], x);
      BeforeLast(episodes, sessions);
      UpsertRemembers(StoreAll(episodes, sessions[..n]), EpisodeOf(s), x);
      CoversLast(sessions, x);
    }
  }

  lemma CoversLast(sessions: seq<Session>, x: int)
    requires sessions != []
    ensures Covers(sessions, x) <==>
              Covers(sessions[..|sessions| - 1], x) || Spans(sessions[|sessions| - 1], x)
  {
    var n := |sessions| - 1;
    assert sessions == sessions[..n] + [sessions[n]];
    CoversAppend(sessions[..n], sessions[n], x);
  }

  lemma StoredEnd(episodes: map<EpisodeID, Episode>, e: Episode)
    requires EndBy(Upsert(episodes, e), e.end)
    ensures Watermark(Upsert(episodes, e)) == e.end
  {
    var after := Upsert(episodes, e);
    assert SessionID(e.start) in after.Keys && after[SessionID(e.start)].end == e.end;
    assert IsWatermark(after, e.end);
  }

  lemma {:induction false} GroupAscending(msgs: seq<Msg>)
    requires Ordered(msgs)
    ensures Ascending(Group(msgs))
  {
    if msgs != [] {
      FoldCovers(msgs, 0);
      var sessions := Group(msgs);
      forall i | 0 <= i < |sessions| ensures sessions[i].start <= sessions[i].end {
        assert i < |Fold(msgs).closed| ==> sessions[i] == Fold(msgs).closed[i];
      }
      SessionsApart(msgs);
    }
  }

  // ---- the window ----

  /** Two user or assistant messages, no later than `w` and less than a gap apart, have the
      instant between them. */
  ghost predicate Active(log: seq<Msg>, w: int, x: int) {
    exists a, b :: a in log && b in log && Relevant(a) && Relevant(b) && b.time <= w && Near(a, b, x)
  }

  lemma ActiveFrom(log: seq<Msg>, w: int, a: Msg, b: Msg, x: int)
    requires a in log && b in log && Relevant(a) && Relevant(b) && b.time <= w && Near(a, b, x)
    ensures Active(log, w, x)
  {
  }

  ghost predicate HasMessageAt(log: seq<Msg>, w: int) {
    exists m :: m in log && Relevant(m) && m.time == w
  }

  /** What a window adds: being active up to its last message is being active up to the old
      watermark or between two messages of the window. */
  lemma ActiveSplit(log: seq<Msg>, w: int, w': int, msgs: seq<Msg>, x: int)
    requires w <= w' && (HasMessageAt(log, w) || forall m :: m in log && Relevant(m) ==> m.time > w)
    requires forall m :: m in msgs <==> m in log && Relevant(m) && w <= m.time <= w'
    ensures Active(log, w', x) <==> Active(log, w, x) || Between(msgs, x)
  {
    if Active(log, w, x) {
      var a, b :| a in log && b in log && Relevant(a) && Relevant(b) && b.time <= w && Near(a, b, x);
      ActiveFrom(log, w', a, b, x);
    }
    if Between(msgs, x) {
      var a, b :| a in msgs && b in msgs && Near(a, b, x);
      ActiveFrom(log, w', a, b, x);
    }
    if Active(log, w', x) {
      var a, b :| a in log && b in log && Relevant(a) && Relevant(b) && b.time <= w' && Near(a, b, x);
      if b.time <= w {
        ActiveFrom(log, w, a, b, x);
      } else if a.time >= w {
        BetweenFrom(msgs, a, b, x);
      } else {
        var m :| m in log && Relevant(m) && m.time == w;
        if x <= w {
          ActiveFrom(log, w, a, m, x);
        } else {
          BetweenFrom(msgs, m, b, x);
        }
      }
    }
  }

  /** The messages of the first `k` sessions of a window are those up to the end of the k-th. */
  lemma {:induction false} StoredPart(log: seq<Msg>, from: int, to: int, k: nat) returns (part: seq<Msg>)
    requires 0 < k <= |Group(Select(log, from, to))|
    ensures part != [] && Ordered(part)
    ensures Group(part) == Group(Select(log, from, to))[..k]
    ensures var end := Group(Select(log, from, to))[k - 1].end;
            from <= end < to && HasMessageAt(log, end)
            && forall m :: m in part <==> m in log && Relevant(m) && from <= m.time <= end
  {
    var msgs := Select(log, from, to);
    SelectExact(log, from, to);
    var n := GroupPrefix(msgs, k);
    part := msgs[..n];
    OrderedPrefix(msgs, n);
    FoldFaithful(part);
    var end := part[n - 1].time;
    assert Group(part)[k - 1] == Fold(part).cur;
    assert part[n - 1] in msgs;
    assert forall i :: n <= i < |msgs| ==> msgs[n].time <= msgs[i].time;
    forall m ensures m in part <==> m in log && Relevant(m) && from <= m.time <= end {
      if m in part {
        var i :| 0 <= i < n && part[i] == m;
        assert m in msgs && part[i].time <= part[n - 1].time;
      }
      if m in log && Relevant(m) && from <= m.time <= end {
        assert m in msgs;
        var i :| 0 <= i < |msgs| && msgs[i] == m;
        assert part[i] == m;
      }
    }
  }

  // ---- runs ----

  datatype State = State(mem: Memory, now: int)

  datatype Action = Arrive(m: Msg) | Wait(until: int) | Summarize(f: Faults)

  ghost function Step(s: State, a: Action): State {
    match a
    case Arrive(m) => s.(mem := s.mem.(log := s.mem.log + [m]))
    case Wait(until) => s.(now := until)
    case Summarize(f) => s.(mem := s.mem.(episodes := Detect(s.mem, s.now, f)))
  }

  ghost function Run(start: int, acts: seq<Action>): State {
    if acts == [] then State(Memory([], map[]), start)
    else Step(Run(start, acts[..|acts| - 1]), acts[|acts| - 1])
  }

  lemma RunStep(start: int, acts: seq<Action>, a: Action)
    ensures Run(start, acts + [a]) == Step(Run(start, acts), a)
  {
    assert (acts + [a])[..|acts|] == acts;
  }

  /** The run stored at least one session. */
  ghost predicate Advances(mem: Memory, now: int, f: Faults) {
    && !f.watermarkRead && !f.lastMessageRead && NewBefore(mem, now - SESSION_GAP) && !f.messagesRead
    && Min(f.stopAt, |Found(mem, now)|) > 0
  }

  /** The sessions of the window still to summarize. */
  ghost function Found(mem: Memory, now: int): seq<Session> {
    Group(Select(mem.log, Watermark(mem.episodes), now - SESSION_GAP))
  }

  lemma Idle(mem: Memory, now: int, f: Faults)
    requires !Advances(mem, now, f)
    ensures Detect(mem, now, f) == mem.episodes
  {
    assert Found(mem, now)[..0] == [];
  }

  lemma FoundAscending(mem: Memory, now: int)
    ensures Ascending(Found(mem, now))
    ensures Found(mem, now) != [] ==> Watermark(mem.episodes) <= Found(mem, now)[0].start
  {
    SelectExact(mem.log, Watermark(mem.episodes), now - SESSION_GAP);
    GroupAscending(Select(mem.log, Watermark(mem.episodes), now - SESSION_GAP));
    if Found(mem, now) != [] {
      FirstSessionStart(mem.log, Watermark(mem.episodes), now - SESSION_GAP);
    }
  }

  /** What a run that advances does: the first sessions of the window are stored, and the
      watermark moves to the end of the last of them. */
  lemma Advanced(mem: Memory, now: int, f: Faults, x: int)
    requires Tidy(mem.episodes) && Advances(mem, now, f)
    ensures var k := Min(f.stopAt, |Found(mem, now)|);
            && Detect(mem, now, f) == StoreAll(mem.episodes, Found(mem, now)[..k])
            && Tidy(Detect(mem, now, f))
            && Watermark(Detect(mem, now, f)) == Found(mem, now)[k - 1].end
            && (Remembered(Detect(mem, now, f), x) <==> Remembered(mem.episodes, x) || Covers(Found(mem, now)[..k], x))
  {
    DetectStores(mem, now, f);
    StoreFront(mem, now, Min(f.stopAt, |Found(mem, now)|), x);
  }

  lemma DetectStores(mem: Memory, now: int, f: Faults)
    requires Advances(mem, now, f)
    ensures Detect(mem, now, f) == StoreAll(mem.episodes, Found(mem, now)[..Min(f.stopAt, |Found(mem, now)|)])
  {
  }

  lemma StoreFront(mem: Memory, now: int, k: nat, x: int)
    requires Tidy(mem.episodes) && 0 < k <= |Found(mem, now)|
    ensures var stored := StoreAll(mem.episodes, Found(mem, now)[..k]);
            && Tidy(stored) && Watermark(stored) == Found(mem, now)[k - 1].end
            && (Remembered(stored, x) <==> Remembered(mem.episodes, x) || Covers(Found(mem, now)[..k], x))
  {
    FoundAscending(mem, now);
    hide Found, StoreAll;
    var front := Found(mem, now)[..k];
    assert Ascending(front) && front[0] == Found(mem, now)[0] && front[k - 1] == Found(mem, now)[k - 1];
    StoreAllTidy(mem.episodes, front);
    StoreAllRemembers(mem.episodes, front, x);
  }

  lemma FirstSessionStart(log: seq<Msg>, from: int, to: int)
    requires Group(Select(log, from, to)) != []
    ensures from <= Group(Select(log, from, to))[0].start
  {
    var msgs := Select(log, from, to);
    SelectExact(log, from, to);
    FirstStart(msgs);
    assert msgs[0] in msgs;
  }

  lemma {:induction false} FirstStart(msgs: seq<Msg>)
    requires msgs != []
    ensures Group(msgs)[0].start == msgs[0].time
  {
    if |msgs| > 1 {
      FirstStart(msgs[..|msgs| - 1]);
    }
  }

  // ---- every run ----

  lemma {:induction false} RunTidy(start: int, acts: seq<Action>)
    ensures Tidy(Run(start, acts).mem.episodes)
  {
    if acts != [] {
      var n := |acts| - 1;
      RunTidy(start, acts[..n]);
      match acts[n]
      case Arrive(_) =>
      case Wait(_) =>
      case Summarize(f) => StepTidy(Run(start, acts[..n]), f);
    }
  }

  lemma StepTidy(s: State, f: Faults)
    requires Tidy(s.mem.episodes)
    ensures Tidy(Step(s, Summarize(f)).mem.episodes)
  {
    if Advances(s.mem, s.now, f) {
      Advanced(s.mem, s.now, f, 0);
    } else {
      Idle(s.mem, s.now, f);
    }
  }

  /** Two stored episodes never share more than one instant. */
  lemma EpisodesApart(start: int, acts: seq<Action>, i: EpisodeID, j: EpisodeID, x: int, y: int)
    requires var eps := Run(start, acts).mem.episodes;
             && i in eps && j in eps && i != j
             && eps[i].start <= x <= eps[i].end && eps[j].start <= x <= eps[j].end
             && eps[i].start <= y <= eps[i].end && eps[j].start <= y <= eps[j].end
    ensures x == y
  {
    RunTidy(start, acts);
    assert i.start != j.start;
  }

  /** The watermark never falls, and a run that stores two sessions moves it forward. A run
      that stores only the first may leave it: the boundary message, read again, can be a
      session of its own. */
  lemma WatermarkMoves(start: int, acts: seq<Action>, f: Faults)
    ensures Moves(Run(start, acts), Run(start, acts + [Summarize(f)]), f)
  {
    hide *;
    RunStep(start, acts, Summarize(f));
    RunTidy(start, acts);
    StepMoves(Run(start, acts), f);
  }

  ghost predicate Moves(before: State, after: State, f: Faults) {
    var w, w' := Watermark(before.mem.episodes), Watermark(after.mem.episodes);
    && w' >= w
    && (Advances(before.mem, before.now, f) && f.stopAt >= 2 && |Found(before.mem, before.now)| >= 2 ==> w' > w)
  }

  lemma StepMoves(s: State, f: Faults)
    requires Tidy(s.mem.episodes)
    ensures Moves(s, Step(s, Summarize(f)), f)
  {
    hide Detect, Found, Tidy;
    if Advances(s.mem, s.now, f) {
      Advanced(s.mem, s.now, f, 0);
      FoundAscending(s.mem, s.now);
      EndsAscend(Found(s.mem, s.now), Min(f.stopAt, |Found(s.mem, s.now)|));
    } else {
      Idle(s.mem, s.now, f);
    }
  }

  lemma EndsAscend(sessions: seq<Session>, k: nat)
    requires Ascending(sessions) && 0 < k <= |sessions|
    ensures sessions[0].start <= sessions[k - 1].end && (k > 1 ==> sessions[0].start < sessions[k - 1].end)
  {
    assert k > 1 ==> sessions[0].end < sessions[k - 1].start;
  }

  // ---- which messages are lost ----

  lemma NothingBeforeFirst(sessions: seq<Session>, x: int)
    requires Ascending(sessions) && sessions != [] && x < sessions[0].start
    ensures !Covers(sessions, x)
  {
    forall c | c in sessions ensures !Spans(c, x) {
      var i :| 0 <= i < |sessions| && sessions[i] == c;
    }
  }

  /** Nothing ever changes before the watermark: an instant there that is not in an episode
      never will be. */
  lemma {:induction false} PastIsFrozen(mem: Memory, now: int, f: Faults, x: int)
    requires Tidy(mem.episodes) && x < Watermark(mem.episodes)
    ensures Remembered(Detect(mem, now, f), x) <==> Remembered(mem.episodes, x)
  {
    if Advances(mem, now, f) {
      Advanced(mem, now, f, x);
      FoundAscending(mem, now);
      var stored := Found(mem, now)[..Min(f.stopAt, |Found(mem, now)|)];
      assert Ascending(stored) && stored[0] == Found(mem, now)[0];
      NothingBeforeFirst(stored, x);
    } else {
      Idle(mem, now, f);
    }
  }

  /** The message is in an episode, or it is still ahead. */
  ghost predicate Safe(s: State, m: Msg) {
    m.time >= Watermark(s.mem.episodes) || Remembered(s.mem.episodes, m.time)
  }

  lemma SummarizeSafe(s: State, f: Faults, m: Msg)
    requires Tidy(s.mem.episodes) && m in s.mem.log && Relevant(m)
    ensures Safe(Step(s, Summarize(f)), m) <==> Safe(s, m)
  {
    hide Detect, Advances, Found, Remembered, Tidy;
    if m.time < Watermark(s.mem.episodes) {
      StepMoves(s, f);
      PastIsFrozen(s.mem, s.now, f, m.time);
    } else if Advances(s.mem, s.now, f) {
      if m.time <= Watermark(Detect(s.mem, s.now, f)) {
        AheadIsStored(s.mem, s.now, f, m);
      }
    } else {
      Idle(s.mem, s.now, f);
    }
  }

  /** A message ahead of the watermark that a run passes is in an episode afterwards. */
  lemma AheadIsStored(mem: Memory, now: int, f: Faults, m: Msg)
    requires Tidy(mem.episodes) && Advances(mem, now, f)
    requires m in mem.log && Relevant(m) && Watermark(mem.episodes) <= m.time <= Watermark(Detect(mem, now, f))
    ensures Remembered(Detect(mem, now, f), m.time)
  {
    var k := Min(f.stopAt, |Found(mem, now)|);
    Advanced(mem, now, f, m.time);
    var part := StoredPart(mem.log, Watermark(mem.episodes), now - SESSION_GAP, k);
    BetweenFrom(part, m, m, m.time);
    GroupCovers(part, m.time);
  }

  lemma {:induction false} StaysSafe(start: int, acts: seq<Action>, more: seq<Action>, m: Msg)
    requires m in Run(start, acts).mem.log && Relevant(m)
    ensures m in Run(start, acts + more).mem.log
    ensures Safe(Run(start, acts + more), m) <==> Safe(Run(start, acts), m)
  {
    if more == [] {
      assert acts + more == acts;
    } else {
      var n := |more| - 1;
      StaysSafe(start, acts, more[..n], m);
      assert acts + more == (acts + more[..n]) + [more[n]];
      RunStep(start, acts + more[..n], more[n]);
      RunTidy(start, acts + more[..n]);
      match more[n]
      case Arrive(_) =>
      case Wait(_) =>
      case Summarize(f) => SummarizeSafe(Run(start, acts + more[..n]), f, m);
    }
  }

  /** Which messages are lost: in every run, whatever failed and whatever arrived when, a user
      or assistant message up to the watermark lies in an episode exactly when it was not
      behind the watermark on arrival, or was within an episode already. */
  lemma MessageFate(start: int, acts: seq<Action>, m: Msg, more: seq<Action>)
    requires var mem := Run(start, acts + [Arrive(m)] + more).mem;
             Relevant(m) && mem.episodes.Keys != {} && m.time <= Watermark(mem.episodes)
    ensures Remembered(Run(start, acts + [Arrive(m)] + more).mem.episodes, m.time) <==>
              || m.time >= Watermark(Run(start, acts).mem.episodes)
              || Remembered(Run(start, acts).mem.episodes, m.time)
  {
    RunStep(start, acts, Arrive(m));
    StaysSafe(start, acts + [Arrive(m)], more, m);
    RunTidy(start, acts + [Arrive(m)] + more);
    AtWatermark(Run(start, acts + [Arrive(m)] + more).mem.episodes);
  }

  /** A message stored at 5 is summarized half an hour later. */
  const QUIET_RUN := [Arrive(Msg(5, "", "user")), Wait(6 + SESSION_GAP), Summarize(Faults(false, false, false, 1))]

  const QUIET_EPISODE := Episode(5, 5, [Msg(5, "", "user")])

  /** A message stamped 3 that arrives then is lost, whatever follows. */
  lemma LateMessageLost(more: seq<Action>)
    ensures !Remembered(Run(0, QUIET_RUN + [Arrive(Msg(3, "", "user"))] + more).mem.episodes, 3)
  {
    var late := Msg(3, "", "user");
    AfterQuietRun();
    hide *;
    RunStep(0, QUIET_RUN, Arrive(late));
    LateIsUnsafe(Run(0, QUIET_RUN), late);
    StaysSafe(0, QUIET_RUN + [Arrive(late)], more, late);
    SafeIfRemembered(Run(0, QUIET_RUN + [Arrive(late)] + more), late);
  }

  lemma LateIsUnsafe(s: State, m: Msg)
    requires s.mem.episodes == map[SessionID(5) := QUIET_EPISODE] && m == Msg(3, "", "user")
    ensures m in Step(s, Arrive(m)).mem.log && Relevant(m) && !Safe(Step(s, Arrive(m)), m)
  {
    OneEpisode(QUIET_EPISODE);
  }

  lemma SafeIfRemembered(s: State, m: Msg)
    ensures Remembered(s.mem.episodes, m.time) ==> Safe(s, m)
  {
  }

  lemma OneEpisode(e: Episode)
    ensures Watermark(map[SessionID(e.start) := e]) == e.end
  {
    assert SessionID(e.start) in (map[SessionID(e.start) := e]).Keys;
    assert IsWatermark(map[SessionID(e.start) := e], e.end);
  }

  lemma AfterQuietRun()
    ensures Run(0, QUIET_RUN).mem.episodes == map[SessionID(5) := QUIET_EPISODE]
  {
    var m := Msg(5, "", "user");
    assert QUIET_RUN[..2] == [Arrive(m), Wait(6 + SESSION_GAP)] && QUIET_RUN[..2][..1] == [Arrive(m)];
    assert [Arrive(m)][..0] == [];
    assert Run(0, [Arrive(m)]).mem == Memory([m], map[]);
    assert Run(0, QUIET_RUN[..2]) == State(Memory([m], map[]), 6 + SESSION_GAP);
    OneSession(m, 6 + SESSION_GAP);
  }

  lemma OneSession(m: Msg, now: int)
    requires Relevant(m) && 0 < m.time < now - SESSION_GAP
    ensures Detect(Memory([m], map[]), now, Faults(false, false, false, 1)) ==
            map[SessionID(m.time) := Episode(m.time, m.time, [m])]
  {
    var mem := Memory([m], map[]);
    assert [m][..0] == [] && Select([m], 0, now - SESSION_GAP) == [m];
    assert Found(mem, now) == [Fresh(m)];
    assert m in mem.log && NewBefore(mem, now - SESSION_GAP);
    DetectStores(mem, now, Faults(false, false, false, 1));
    assert [Fresh(m)][..1] == [Fresh(m)] && [Fresh(m)][..0] == [];
  }

  lemma AtWatermark(episodes: map<EpisodeID, Episode>)
    requires Tidy(episodes) && episodes.Keys != {}
    ensures Remembered(episodes, Watermark(episodes))
  {
    var k :| k in episodes.Keys && episodes[k].end == Watermark(episodes);
    assert k in episodes && episodes[k].start <= Watermark(episodes) <= episodes[k].end;
  }

  // ---- what the episodes hold ----

  /** No message arrives at or behind the watermark. */
  ghost predicate OnTime(start: int, acts: seq<Action>) {
    forall i :: 0 <= i < |acts| && acts[i].Arrive? ==> acts[i].m.time > Watermark(Run(start, acts[..i]).mem.episodes)
  }

  lemma OnTimePrefix(start: int, acts: seq<Action>, n: nat)
    requires OnTime(start, acts) && n <= |acts|
    ensures OnTime(start, acts[..n])
  {
    forall i | 0 <= i < n && acts[i].Arrive?
      ensures acts[..n][i].m.time > Watermark(Run(start, acts[..n][..i]).mem.episodes) {
      assert acts[..n][..i] == acts[..i];
    }
  }

  ghost predicate Inv(s: State) {
    var w := Watermark(s.mem.episodes);
    && Tidy(s.mem.episodes)
    && (HasMessageAt(s.mem.log, w) || forall m :: m in s.mem.log && Relevant(m) ==> m.time > w)
  }

  /** Everything remembered is exactly what was active up to the watermark. */
  ghost predicate ExactAt(s: State, x: int) {
    Remembered(s.mem.episodes, x) <==> Active(s.mem.log, Watermark(s.mem.episodes), x)
  }

  lemma {:induction false} SummarizeKeeps(s: State, f: Faults, x: int)
    requires Inv(s) && ExactAt(s, x)
    ensures Inv(Step(s, Summarize(f))) && ExactAt(Step(s, Summarize(f)), x)
  {
    if Advances(s.mem, s.now, f) {
      var w, cutoff := Watermark(s.mem.episodes), s.now - SESSION_GAP;
      var k := Min(f.stopAt, |Found(s.mem, s.now)|);
      Advanced(s.mem, s.now, f, x);
      var part := StoredPart(s.mem.log, w, cutoff, k);
      ActiveSplit(s.mem.log, w, Found(s.mem, s.now)[k - 1].end, part, x);
      GroupCovers(part, x);
    } else {
      Idle(s.mem, s.now, f);
    }
  }

  lemma {:induction false} ArriveKeeps(s: State, m: Msg, x: int)
    requires Inv(s) && ExactAt(s, x) && m.time > Watermark(s.mem.episodes)
    ensures Inv(Step(s, Arrive(m))) && ExactAt(Step(s, Arrive(m)), x)
  {
    var log, w := s.mem.log, Watermark(s.mem.episodes);
    var after := log + [m];
    assert forall y :: y in after <==> y in log || y == m;
    if HasMessageAt(log, w) {
      var y :| y in log && Relevant(y) && y.time == w;
      assert y in after;
    }
    if Active(log, w, x) {
      var a, b :| a in log && b in log && Relevant(a) && Relevant(b) && b.time <= w && Near(a, b, x);
      ActiveFrom(after, w, a, b, x);
    }
    if Active(after, w, x) {
      var a, b :| a in after && b in after && Relevant(a) && Relevant(b) && b.time <= w && Near(a, b, x);
      assert b in log && a in log;
      ActiveFrom(log, w, a, b, x);
    }
  }

  /** As long as messages arrive on time, an instant lies in a stored episode exactly when two
      user or assistant messages no later than the watermark, less than a gap apart, have it
      between them. */
  lemma {:induction false} EpisodesExact(start: int, acts: seq<Action>, x: int)
    requires OnTime(start, acts)
    ensures Inv(Run(start, acts)) && ExactAt(Run(start, acts), x)
  {
    if acts != [] {
      var n := |acts| - 1;
      OnTimePrefix(start, acts, n);
      EpisodesExact(start, acts[..n], x);
      var s := Run(start, acts[..n]);
      match acts[n]
      case Arrive(m) => ArriveKeeps(s, m, x);
      case Wait(until) =>
      case Summarize(f) => SummarizeKeeps(s, f, x);
    }
  }

  /** Messages are stamped after 1970 and at most a gap before they are saved; time does not
      run backwards. */
  predicate Prompt(now: int, a: Action) {
    match a
    case Arrive(m) => m.time > 0 && m.time >= now - SESSION_GAP
    case Wait(until) => until >= now
    case Summarize(_) => true
  }

  lemma {:induction false} PromptIsOnTime(start: int, acts: seq<Action>)
    requires forall i :: 0 <= i < |acts| ==> Prompt(Run(start, acts[..i]).now, acts[i])
    ensures OnTime(start, acts)
  {
    forall i | 0 <= i < |acts| && acts[i].Arrive?
      ensures acts[i].m.time > Watermark(Run(start, acts[..i]).mem.episodes) {
      BehindCutoff(start, acts, i);
    }
  }

  lemma {:induction false} BehindCutoff(start: int, acts: seq<Action>, n: nat)
    requires forall i :: 0 <= i < |acts| ==> Prompt(Run(start, acts[..i]).now, acts[i])
    requires n <= |acts|
    ensures var s := Run(start, acts[..n]);
            s.mem.episodes.Keys != {} ==> Watermark(s.mem.episodes) < s.now - SESSION_GAP
  {
    if n > 0 {
      assert acts[..n] == acts[..n - 1] + [acts[n - 1]];
      RunStep(start, acts[..n - 1], acts[n - 1]);
      RunTidy(start, acts[..n - 1]);
      BehindCutoff(start, acts, n - 1);
      assert Prompt(Run(start, acts[..n - 1]).now, acts[n - 1]);
      match acts[n - 1]
      case Arrive(_) =>
      case Wait(_) =>
      case Summarize(f) => StaysBehind(Run(start, acts[..n - 1]), f);
    }
  }

  lemma StaysBehind(s: State, f: Faults)
    requires Tidy(s.mem.episodes)
    requires s.mem.episodes.Keys != {} ==> Watermark(s.mem.episodes) < s.now - SESSION_GAP
    ensures var episodes := Detect(s.mem, s.now, f);
            episodes.Keys != {} ==> Watermark(episodes) < s.now - SESSION_GAP
  {
    if Advances(s.mem, s.now, f) {
      Advanced(s.mem, s.now, f, 0);
      var k := Min(f.stopAt, |Found(s.mem, s.now)|);
      var part := StoredPart(s.mem.log, Watermark(s.mem.episodes), s.now - SESSION_GAP, k);
    } else {
      Idle(s.mem, s.now, f);
    }
  }

  // ---- runs that succeed ----

  /** A found window always gives at least one session. */
  lemma FoundWindowNotEmpty(mem: Memory, cutoff: int)
    requires NewBefore(mem, cutoff)
    ensures Group(Select(mem.log, Watermark(mem.episodes), cutoff)) != []
  {
    var w := Watermark(mem.episodes);
    var m :| m in mem.log && Relevant(m) && w < m.time < cutoff;
    SelectExact(mem.log, w, cutoff);
    assert m in Select(mem.log, w, cutoff);
  }

  ghost predicate Succeeds(mem: Memory, cutoff: int, f: Faults) {
    && !f.watermarkRead && !f.lastMessageRead && !f.messagesRead
    && f.stopAt >= |Group(Select(mem.log, Watermark(mem.episodes), cutoff))|
  }

  /** The last session of a window ends with its newest message. */
  lemma WholeWindow(log: seq<Msg>, from: int, to: int)
    requires Group(Select(log, from, to)) != []
    ensures var sessions := Group(Select(log, from, to));
            forall m :: m in log && InWindow(m, from, to) ==> m.time <= sessions[|sessions| - 1].end
  {
    var msgs := Select(log, from, to);
    SelectExact(log, from, to);
    FoldFaithful(msgs);
    forall m | m in log && InWindow(m, from, to) ensures m.time <= msgs[|msgs| - 1].time {
      assert m in msgs;
      var i :| 0 <= i < |msgs| && msgs[i] == m;
    }
  }

  /** A successful run that found something moves the watermark to the end of the window's
      last session, which is the time of a message. */
  lemma CatchesUp(mem: Memory, now: int, f: Faults)
    requires Tidy(mem.episodes) && NewBefore(mem, now - SESSION_GAP) && Succeeds(mem, now - SESSION_GAP, f)
    ensures Found(mem, now) != []
    ensures Watermark(Detect(mem, now, f)) == Found(mem, now)[|Found(mem, now)| - 1].end < now - SESSION_GAP
    ensures Watermark(mem.episodes) <= Watermark(Detect(mem, now, f))
    ensures HasMessageAt(mem.log, Watermark(Detect(mem, now, f)))
  {
    FoundWindowNotEmpty(mem, now - SESSION_GAP);
    Advanced(mem, now, f, 0);
    var part := StoredPart(mem.log, Watermark(mem.episodes), now - SESSION_GAP, |Found(mem, now)|);
  }

  lemma NothingNewLeft(mem: Memory, now: int, f: Faults)
    requires Tidy(mem.episodes) && Succeeds(mem, now - SESSION_GAP, f)
    ensures !NewBefore(mem.(episodes := Detect(mem, now, f)), now - SESSION_GAP)
  {
    var cutoff, w := now - SESSION_GAP, Watermark(mem.episodes);
    if NewBefore(mem, cutoff) {
      CatchesUp(mem, now, f);
      WholeWindow(mem.log, w, cutoff);
      forall m | m in mem.log && Relevant(m) && m.time < cutoff ensures m.time <= Watermark(Detect(mem, now, f)) {
        assert m.time >= w ==> InWindow(m, w, cutoff);
      }
    } else {
      Idle(mem, now, f);
    }
  }

  /** Nothing before the earlier state's cutoff is newer than the watermark, and if anything
      was, the watermark is now the time of a message before that cutoff. */
  ghost predicate CaughtUp(before: State, after: State) {
    var cutoff, w := before.now - SESSION_GAP, Watermark(after.mem.episodes);
    && !NewBefore(after.mem, cutoff)
    && (NewBefore(before.mem, cutoff) ==> HasMessageAt(before.mem.log, w) && w < cutoff)
  }

  lemma StepCatchesUp(s: State, f: Faults)
    requires Tidy(s.mem.episodes) && Succeeds(s.mem, s.now - SESSION_GAP, f)
    ensures CaughtUp(s, Step(s, Summarize(f))) && Step(s, Summarize(f)).now == s.now
  {
    NothingNewLeft(s.mem, s.now, f);
    if NewBefore(s.mem, s.now - SESSION_GAP) {
      CatchesUp(s.mem, s.now, f);
    }
  }

  lemma CaughtUpIsIdle(before: State, s: State, g: Faults)
    requires CaughtUp(before, s) && s.now == before.now
    ensures Step(s, Summarize(g)) == s
  {
    Idle(s.mem, s.now, g);
  }

  /** A fully successful run catches up, and running again at once does nothing, whatever
      fails in it. */
  lemma SuccessCatchesUp(start: int, acts: seq<Action>, f: Faults, g: Faults)
    requires Succeeds(Run(start, acts).mem, Run(start, acts).now - SESSION_GAP, f)
    ensures CaughtUp(Run(start, acts), Run(start, acts + [Summarize(f)]))
    ensures Run(start, acts + [Summarize(f)] + [Summarize(g)]) == Run(start, acts + [Summarize(f)])
  {
    hide *;
    RunStep(start, acts, Summarize(f));
    RunStep(start, acts + [Summarize(f)], Summarize(g));
    RunTidy(start, acts);
    StepCatchesUp(Run(start, acts), f);
    CaughtUpIsIdle(Run(start, acts), Run(start, acts + [Summarize(f)]), g);
  }
}

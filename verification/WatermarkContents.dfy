/** Which messages the stored summaries were made from: what each run reads, and what becomes
    of a message in every continuation. */
module WatermarkContents {
  import opened SessionGrouping
  import opened SessionWatermark
  import opened WatermarkRuns

  /** A stored summary was made from the message. */
  ghost predicate Held(episodes: map<EpisodeID, Episode>, m: Msg) {
    exists id :: id in episodes && m in episodes[id].source
  }

  ghost predicate InSessions(sessions: seq<Session>, m: Msg) {
    exists i :: 0 <= i < |sessions| && m in sessions[i].messages
  }

  /** The sessions a run stores. */
  ghost function StoredBy(mem: Memory, now: int, f: Faults): seq<Session> {
    if Advances(mem, now, f) then Found(mem, now)[..Min(f.stopAt, |Found(mem, now)|)] else []
  }

  /** The run summarizes the message: it is in one of the sessions stored. */
  ghost predicate Reads(mem: Memory, now: int, f: Faults, m: Msg) {
    InSessions(StoredBy(mem, now, f), m)
  }

  // ---- one run ----

  lemma {:induction false} InJoin(runs: seq<seq<Msg>>, m: Msg)
    ensures m in Join(runs) <==> exists i :: 0 <= i < |runs| && m in runs[i]
  {
    if runs != [] {
      var n := |runs| - 1;
      InJoin(runs[..n], m);
      if i :| 0 <= i < |runs| && m in runs[i] {
        assert i < n ==> m in runs[..n][i];
      }
      if i :| 0 <= i < n && m in runs[..n][i] {
        assert m in runs[i];
      }
    }
  }

  /** The sessions of a list of messages hold exactly those messages. */
  lemma GroupHolds(msgs: seq<Msg>, m: Msg)
    ensures InSessions(Group(msgs), m) <==> m in msgs
  {
    var runs := Runs(Group(msgs));
    CutExact(msgs, runs);
    InJoin(runs, m);
    if i :| 0 <= i < |runs| && m in runs[i] {
      assert m in Group(msgs)[i].messages;
    }
    if i :| 0 <= i < |Group(msgs)| && m in Group(msgs)[i].messages {
      assert m in runs[i];
    }
  }

  /** A run that advances reads exactly the messages from the old watermark, inclusive, to the
      new one. A run that does not reads nothing. */
  lemma ReadExact(mem: Memory, now: int, f: Faults, m: Msg)
    requires Tidy(mem.episodes)
    ensures Reads(mem, now, f, m) <==>
              && Advances(mem, now, f) && m in mem.log && Relevant(m)
              && Watermark(mem.episodes) <= m.time <= Watermark(Detect(mem, now, f))
  {
    if Advances(mem, now, f) {
      hide Detect, IsWatermark, Tidy, StoreAll, Group, Select, InSessions;
      var k := Min(f.stopAt, |Found(mem, now)|);
      Advanced(mem, now, f, 0);
      var part := StoredPart(mem.log, Watermark(mem.episodes), now - SESSION_GAP, k);
      GroupHolds(part, m);
    }
  }

  // ---- what stays stored ----

  /** Every message a summary was made from is stored, and within the episode's times. */
  ghost predicate Sound(mem: Memory) {
    forall id, m :: id in mem.episodes && m in mem.episodes[id].source ==> SoundAt(mem, id, m)
  }

  ghost predicate SoundAt(mem: Memory, id: EpisodeID, m: Msg)
    requires id in mem.episodes
  {
    m in mem.log && Relevant(m) && mem.episodes[id].start <= m.time <= mem.episodes[id].end
  }

  ghost predicate IsStart(sessions: seq<Session>, id: EpisodeID) {
    exists i :: 0 <= i < |sessions| && sessions[i].start == id.start
  }

  /** Storing sessions leaves the episodes at other starts alone. */
  lemma {:induction false} StoreAllKeeps(episodes: map<EpisodeID, Episode>, sessions: seq<Session>, id: EpisodeID)
    requires !IsStart(sessions, id)
    ensures id in StoreAll(episodes, sessions) <==> id in episodes
    ensures id in episodes ==> StoreAll(episodes, sessions)[id] == episodes[id]
  {
    if sessions != [] {
      var n := |sessions| - 1;
      assert sessions[n].start != id.start;
      StoreAllKeeps(episodes, sessions[..n], id);
    }
  }

  /** Each session stored becomes the episode at its start. */
  lemma {:induction false} StoreAllStores(episodes: map<EpisodeID, Episode>, sessions: seq<Session>, i: nat)
    requires Ascending(sessions) && Tidy(episodes) && i < |sessions|
    ensures var after := StoreAll(episodes, sessions); var id := SessionID(sessions[i].start);
            && id in after && after[id].source == sessions[i].messages && after[id].end == sessions[i].end
  {
    var n := |sessions| - 1;
    if i < n {
      StoreAllStores(episodes, sessions[..n], i);
      assert sessions[i].start <= sessions[i].end < sessions[n].start;
    }
  }

  lemma StoredAscending(mem: Memory, now: int, f: Faults)
    requires Tidy(mem.episodes)
    ensures var sessions := StoredBy(mem, now, f);
            && Ascending(sessions) && Detect(mem, now, f) == StoreAll(mem.episodes, sessions)
            && forall i :: 0 <= i < |sessions| ==> Watermark(mem.episodes) <= sessions[i].start
  {
    if Advances(mem, now, f) {
      FoundAscending(mem, now);
      DetectStores(mem, now, f);
      var sessions := StoredBy(mem, now, f);
      forall i | 0 <= i < |sessions| ensures Watermark(mem.episodes) <= sessions[i].start {
        assert i > 0 ==> Found(mem, now)[0].end < Found(mem, now)[i].start;
      }
    } else {
      Idle(mem, now, f);
    }
  }

  /** What a run reads is held afterwards. */
  lemma ReadIsHeld(mem: Memory, now: int, f: Faults, m: Msg)
    requires Tidy(mem.episodes) && Reads(mem, now, f, m)
    ensures Held(Detect(mem, now, f), m)
  {
    var sessions := StoredBy(mem, now, f);
    StoredAscending(mem, now, f);
    var i :| 0 <= i < |sessions| && m in sessions[i].messages;
    StoreAllStores(mem.episodes, sessions, i);
    assert m in Detect(mem, now, f)[SessionID(sessions[i].start)].source;
  }

  /** An episode that is stored anew starts and ends at the watermark, and the run reads
      everything it was made from again. */
  lemma OverwrittenIsRead(mem: Memory, now: int, f: Faults, id: EpisodeID, m: Msg)
    requires Tidy(mem.episodes) && Sound(mem) && id in mem.episodes && m in mem.episodes[id].source
    requires IsStart(StoredBy(mem, now, f), id)
    ensures Reads(mem, now, f, m)
  {
    StoredAscending(mem, now, f);
    assert SoundAt(mem, id, m);
    Advanced(mem, now, f, 0);
    FoundAscending(mem, now);
    EndsAscend(Found(mem, now), Min(f.stopAt, |Found(mem, now)|));
    ReadExact(mem, now, f, m);
  }

  /** After a run the summaries hold what they held before and what the run read. */
  lemma HeldAfter(mem: Memory, now: int, f: Faults, m: Msg)
    requires Tidy(mem.episodes) && Sound(mem)
    ensures Held(Detect(mem, now, f), m) <==> Held(mem.episodes, m) || Reads(mem, now, f, m)
  {
    var sessions, after := StoredBy(mem, now, f), Detect(mem, now, f);
    StoredAscending(mem, now, f);
    if Held(mem.episodes, m) {
      var id :| id in mem.episodes && m in mem.episodes[id].source;
      if IsStart(sessions, id) {
        OverwrittenIsRead(mem, now, f, id, m);
      } else {
        StoreAllKeeps(mem.episodes, sessions, id);
        assert m in after[id].source;
      }
    }
    if Reads(mem, now, f, m) {
      ReadIsHeld(mem, now, f, m);
    }
    if Held(after, m) {
      var id :| id in after && m in after[id].source;
      HeldFrom(mem, now, f, id, m);
    }
  }

  lemma HeldFrom(mem: Memory, now: int, f: Faults, id: EpisodeID, m: Msg)
    requires Tidy(mem.episodes) && id in Detect(mem, now, f) && m in Detect(mem, now, f)[id].source
    ensures if IsStart(StoredBy(mem, now, f), id)
            then exists i :: 0 <= i < |StoredBy(mem, now, f)| && StoredBy(mem, now, f)[i].start == id.start
                             && m in StoredBy(mem, now, f)[i].messages
                             && Detect(mem, now, f)[id].end == StoredBy(mem, now, f)[i].end
            else id in mem.episodes && Detect(mem, now, f)[id] == mem.episodes[id]
    ensures Held(mem.episodes, m) || Reads(mem, now, f, m)
  {
    var sessions := StoredBy(mem, now, f);
    StoredAscending(mem, now, f);
    if IsStart(sessions, id) {
      var i :| 0 <= i < |sessions| && sessions[i].start == id.start;
      StoreAllStores(mem.episodes, sessions, i);
      assert id == SessionID(sessions[i].start) && m in sessions[i].messages;
    } else {
      StoreAllKeeps(mem.episodes, sessions, id);
    }
  }

  ghost predicate Within(s: Session) {
    s.start <= s.end && forall m :: m in s.messages ==> s.start <= m.time <= s.end
  }

  lemma {:induction false} FoldWithin(msgs: seq<Msg>)
    requires msgs != [] && Ordered(msgs)
    ensures Within(Fold(msgs).cur) && forall i :: 0 <= i < |Fold(msgs).closed| ==> Within(Fold(msgs).closed[i])
  {
    var n := |msgs| - 1;
    if n > 0 {
      OrderedPrefix(msgs, n);
      FoldWithin(msgs[..n]);
      FoldFaithful(msgs[..n]);
      FoldLast(msgs);
      assert msgs[n - 1].time <= msgs[n].time;
    }
  }

  lemma StoredWithin(mem: Memory, now: int, f: Faults, i: nat)
    requires i < |StoredBy(mem, now, f)|
    ensures Within(StoredBy(mem, now, f)[i])
  {
    var msgs := Select(mem.log, Watermark(mem.episodes), now - SESSION_GAP);
    SelectExact(mem.log, Watermark(mem.episodes), now - SESSION_GAP);
    assert StoredBy(mem, now, f)[i] == Group(msgs)[i];
    FoldWithin(msgs);
  }

  lemma SoundAfter(mem: Memory, now: int, f: Faults)
    requires Tidy(mem.episodes) && Sound(mem)
    ensures Sound(mem.(episodes := Detect(mem, now, f)))
  {
    var mem' := mem.(episodes := Detect(mem, now, f));
    StepTidy(State(mem, now), f);
    forall id, m | id in mem'.episodes && m in mem'.episodes[id].source ensures SoundAt(mem', id, m) {
      HeldFrom(mem, now, f, id, m);
      if IsStart(StoredBy(mem, now, f), id) {
        var i :| 0 <= i < |StoredBy(mem, now, f)| && StoredBy(mem, now, f)[i].start == id.start
                 && m in StoredBy(mem, now, f)[i].messages
                 && mem'.episodes[id].end == StoredBy(mem, now, f)[i].end;
        StoredWithin(mem, now, f, i);
        ReadExact(mem, now, f, m);
      } else {
        assert SoundAt(mem, id, m);
      }
    }
  }

  // ---- every run ----

  lemma {:induction false} RunSound(start: int, acts: seq<Action>)
    ensures Sound(Run(start, acts).mem)
  {
    if acts != [] {
      var n := |acts| - 1;
      var s := Run(start, acts[..n]);
      RunSound(start, acts[..n]);
      RunTidy(start, acts[..n]);
      match acts[n]
      case Arrive(x) =>
        forall id, m | id in s.mem.episodes && m in s.mem.episodes[id].source
          ensures SoundAt(Run(start, acts).mem, id, m) {
          assert SoundAt(s.mem, id, m);
        }
      case Wait(_) =>
      case Summarize(f) => SoundAfter(s.mem, s.now, f);
    }
  }

  lemma {:induction false} WatermarkGrows(start: int, acts: seq<Action>, more: seq<Action>)
    ensures Watermark(Run(start, acts + more).mem.episodes) >= Watermark(Run(start, acts).mem.episodes)
  {
    if more == [] {
      assert acts + more == acts;
    } else {
      var n := |more| - 1;
      WatermarkGrows(start, acts, more[..n]);
      assert acts + more == (acts + more[..n]) + [more[n]];
      RunStep(start, acts + more[..n], more[n]);
      RunTidy(start, acts + more[..n]);
      match more[n]
      case Arrive(_) =>
      case Wait(_) =>
      case Summarize(f) => StepMoves(Run(start, acts + more[..n]), f);
    }
  }

  /** A message behind the watermark is never read again: no later run, whatever fails in it,
      summarizes it. */
  lemma LateNeverRead(start: int, acts: seq<Action>, m: Msg, more: seq<Action>, f: Faults)
    requires m.time < Watermark(Run(start, acts).mem.episodes)
    ensures var s := Run(start, acts + more); !Reads(s.mem, s.now, f, m)
  {
    WatermarkGrows(start, acts, more);
    RunTidy(start, acts + more);
    ReadExact(Run(start, acts + more).mem, Run(start, acts + more).now, f, m);
  }

  /** The message is held, or still to be read by a run that moves the watermark on from `w`. */
  ghost predicate Ahead(s: State, w: int, m: Msg) {
    Held(s.mem.episodes, m) || m.time > Watermark(s.mem.episodes) || Watermark(s.mem.episodes) == w
  }

  lemma SummarizeAhead(s: State, f: Faults, w: int, m: Msg)
    requires Tidy(s.mem.episodes) && Sound(s.mem) && m in s.mem.log && Relevant(m) && w <= m.time
    requires Ahead(s, w, m)
    ensures Ahead(Step(s, Summarize(f)), w, m)
  {
    StepMoves(s, f);
    HeldAfter(s.mem, s.now, f, m);
    ReadExact(s.mem, s.now, f, m);
    if !Advances(s.mem, s.now, f) {
      Idle(s.mem, s.now, f);
    }
  }

  lemma {:induction false} StaysAhead(start: int, acts: seq<Action>, more: seq<Action>, w: int, m: Msg)
    requires m in Run(start, acts).mem.log && Relevant(m) && w <= m.time && Ahead(Run(start, acts), w, m)
    ensures m in Run(start, acts + more).mem.log && Ahead(Run(start, acts + more), w, m)
  {
    if more == [] {
      assert acts + more == acts;
    } else {
      var n := |more| - 1;
      var before := acts + more[..n];
      StaysAhead(start, acts, more[..n], w, m);
      assert acts + more == before + [more[n]];
      RunStep(start, before, more[n]);
      RunTidy(start, before);
      RunSound(start, before);
      match more[n]
      case Arrive(_) =>
      case Wait(_) =>
      case Summarize(f) => SummarizeAhead(Run(start, before), f, w, m);
    }
  }

  lemma {:induction false} HeldUnchanged(start: int, acts: seq<Action>, more: seq<Action>, m: Msg)
    requires m.time < Watermark(Run(start, acts).mem.episodes)
    ensures Held(Run(start, acts + more).mem.episodes, m) <==> Held(Run(start, acts).mem.episodes, m)
  {
    if more == [] {
      assert acts + more == acts;
    } else {
      var n := |more| - 1;
      var before := acts + more[..n];
      HeldUnchanged(start, acts, more[..n], m);
      assert acts + more == before + [more[n]];
      RunStep(start, before, more[n]);
      match more[n]
      case Arrive(_) =>
      case Wait(_) =>
      case Summarize(f) =>
        RunTidy(start, before);
        RunSound(start, before);
        HeldAfter(Run(start, before).mem, Run(start, before).now, f, m);
        LateNeverRead(start, acts, m, more[..n], f);
    }
  }

  /** Which messages end up in a summary, in every run, whatever failed and whatever arrived
      when. One that arrives behind the watermark never does, unless an equal message had.
      One that does not is in a summary as soon as the watermark has moved on to its time. */
  lemma MessageSummarized(start: int, acts: seq<Action>, m: Msg, more: seq<Action>)
    requires Relevant(m)
    ensures var w, w' := Watermark(Run(start, acts).mem.episodes),
                         Watermark(Run(start, acts + [Arrive(m)] + more).mem.episodes);
            && (m.time < w ==>
                  (Held(Run(start, acts + [Arrive(m)] + more).mem.episodes, m) <==>
                     Held(Run(start, acts).mem.episodes, m)))
            && (w <= m.time <= w' && w < w' ==> Held(Run(start, acts + [Arrive(m)] + more).mem.episodes, m))
  {
    var arrived := acts + [Arrive(m)];
    var w := Watermark(Run(start, acts).mem.episodes);
    RunStep(start, acts, Arrive(m));
    if m.time < w {
      HeldUnchanged(start, arrived, more, m);
    } else {
      StaysAhead(start, arrived, more, w, m);
    }
  }

  // ---- a message that an episode spans and no summary holds ----

  const BEFORE := Msg(1, "", "user")
  const AFTER := Msg(5, "", "user")
  const LATE := Msg(3, "", "user")

  /** Messages stamped 1 and 5 are summarized half an hour later. */
  const BUSY_RUN := [Arrive(BEFORE), Arrive(AFTER), Wait(6 + SESSION_GAP), Summarize(Faults(false, false, false, 1))]
  const BUSY_EPISODE := Episode(1, 5, [BEFORE, AFTER])

  lemma TwoMessages()
    ensures Select([BEFORE, AFTER], 0, 6) == [BEFORE, AFTER]
    ensures Group([BEFORE, AFTER]) == [Session(1, 5, [BEFORE, AFTER], [])]
  {
    var msgs := [BEFORE, AFTER];
    assert msgs[..1] == [BEFORE] && [BEFORE][..0] == [];
    assert Select([BEFORE], 0, 6) == [BEFORE];
    assert Fold([BEFORE]) == Grouping([], Fresh(BEFORE));
  }

  lemma BusyDetect()
    ensures Detect(Memory([BEFORE, AFTER], map[]), 6 + SESSION_GAP, Faults(false, false, false, 1)) ==
            map[SessionID(1) := BUSY_EPISODE]
  {
    var mem, f := Memory([BEFORE, AFTER], map[]), Faults(false, false, false, 1);
    TwoMessages();
    assert AFTER in mem.log && NewBefore(mem, 6);
    var sessions := [Session(1, 5, [BEFORE, AFTER], [])];
    assert Found(mem, 6 + SESSION_GAP) == sessions;
    DetectStores(mem, 6 + SESSION_GAP, f);
    assert sessions[..1] == sessions && sessions[..0] == [];
  }

  lemma AfterBusyRun()
    ensures Run(0, BUSY_RUN).mem.episodes == map[SessionID(1) := BUSY_EPISODE]
  {
    assert BUSY_RUN[..3][..2] == [Arrive(BEFORE), Arrive(AFTER)] && BUSY_RUN[..3][..2][..1] == [Arrive(BEFORE)];
    assert [Arrive(BEFORE)][..0] == [];
    assert Run(0, [Arrive(BEFORE)]).mem == Memory([BEFORE], map[]);
    assert [BEFORE] + [AFTER] == [BEFORE, AFTER];
    assert Run(0, BUSY_RUN[..3][..2]).mem == Memory([BEFORE, AFTER], map[]);
    assert Run(0, BUSY_RUN[..3]) == State(Memory([BEFORE, AFTER], map[]), 6 + SESSION_GAP);
    BusyDetect();
  }

  /** A message stamped 3 that arrives then: the episode spans it for ever, and no summary ever
      holds it. */
  lemma SpannedButLost(more: seq<Action>)
    ensures var episodes := Run(0, BUSY_RUN + [Arrive(LATE)] + more).mem.episodes;
            Remembered(episodes, LATE.time) && !Held(episodes, LATE)
  {
    AfterBusyRun();
    OneEpisode(BUSY_EPISODE);
    MessageSummarized(0, BUSY_RUN, LATE, more);
    NotInBusyEpisode(Run(0, BUSY_RUN).mem.episodes);
    hide *;
    RunStep(0, BUSY_RUN, Arrive(LATE));
    SpannedIsSafe(Run(0, BUSY_RUN), Run(0, BUSY_RUN + [Arrive(LATE)]));
    StaysSafe(0, BUSY_RUN + [Arrive(LATE)], more, LATE);
    WatermarkGrows(0, BUSY_RUN + [Arrive(LATE)], more);
    SafeBehind(Run(0, BUSY_RUN + [Arrive(LATE)] + more), LATE);
  }

  lemma NotInBusyEpisode(episodes: map<EpisodeID, Episode>)
    requires episodes == map[SessionID(1) := BUSY_EPISODE]
    ensures !Held(episodes, LATE)
  {
  }

  lemma SpannedIsSafe(s: State, s': State)
    requires s.mem.episodes == map[SessionID(1) := BUSY_EPISODE] && s' == Step(s, Arrive(LATE))
    ensures LATE in s'.mem.log && Relevant(LATE) && Safe(s', LATE) && Watermark(s'.mem.episodes) == 5
  {
    OneEpisode(BUSY_EPISODE);
    assert SessionID(1) in s'.mem.episodes && s'.mem.episodes[SessionID(1)].start <= LATE.time;
  }

  lemma SafeBehind(s: State, m: Msg)
    requires Safe(s, m) && m.time < Watermark(s.mem.episodes)
    ensures Remembered(s.mem.episodes, m.time)
  {
  }
}

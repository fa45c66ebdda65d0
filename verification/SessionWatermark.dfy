/** The incremental summarizer: it consumes the message log up to a watermark held in the
    stored session episodes, and may stop at any session. */
module SessionWatermark {
  import opened Options
  import opened SessionGrouping

  /** The ID of a session episode, made from its start time. */
  datatype EpisodeID = SessionID(start: int)

  /** An episode and the messages its stored summary was made from. */
  datatype Episode = Episode(start: int, end: int, source: seq<Msg>)

  /** The stored messages of all conversations and the session episodes by ID. */
  datatype Memory = Memory(log: seq<Msg>, episodes: map<EpisodeID, Episode>)

  predicate Relevant(m: Msg) {
    m.role == "user" || m.role == "assistant"
  }

  // ---- queries ----

  ghost predicate IsWatermark(episodes: map<EpisodeID, Episode>, w: int) {
    && (episodes.Keys == {} ==> w == 0)
    && (episodes.Keys != {} ==> exists k :: k in episodes.Keys && episodes[k].end == w)
    && (forall k :: k in episodes ==> episodes[k].end <= w)
  }

  /** The latest end of a stored episode, or the epoch if there is none. */
  ghost function Watermark(episodes: map<EpisodeID, Episode>): (w: int)
    ensures IsWatermark(episodes, w)
  {
    WatermarkExists(episodes);
    var w :| IsWatermark(episodes, w);
    w
  }

  lemma {:induction false} WatermarkExists(episodes: map<EpisodeID, Episode>)
    ensures exists w :: IsWatermark(episodes, w)
    decreases |episodes|
  {
    if episodes.Keys == {} {
      assert IsWatermark(episodes, 0);
    } else {
      var k :| k in episodes.Keys;
      var rest := episodes - {k};
      assert rest.Keys == episodes.Keys - {k};
      assert |rest| == |rest.Keys| && |episodes| == |episodes.Keys|;
      WatermarkExists(rest);
      var w :| IsWatermark(rest, w);
      var e := episodes[k].end;
      assert forall j :: j in episodes.Keys ==> j == k || (j in rest.Keys && rest[j] == episodes[j]);
      if rest.Keys == {} || w < e {
        assert IsWatermark(episodes, e);
      } else {
        var j :| j in rest.Keys && rest[j].end == w;
        assert j in episodes.Keys && episodes[j].end == w;
        assert IsWatermark(episodes, w);
      }
    }
  }

  lemma WatermarkUnique(episodes: map<EpisodeID, Episode>, w: int)
    requires IsWatermark(episodes, w)
    ensures w == Watermark(episodes)
  {
  }

  /** Insertion before the first later message, as ordering by time does. */
  function InsertByTime(sorted: seq<Msg>, m: Msg): seq<Msg> {
    if sorted == [] || sorted[|sorted| - 1].time <= m.time then sorted + [m]
    else InsertByTime(sorted[..|sorted| - 1], m) + [sorted[|sorted| - 1]]
  }

  predicate InWindow(m: Msg, from: int, to: int) {
    Relevant(m) && from <= m.time < to
  }

  /** The user and assistant messages with from <= time < to, in time order. */
  function Select(log: seq<Msg>, from: int, to: int): seq<Msg> {
    if log == [] then []
    else
      var rest := Select(log[..|log| - 1], from, to);
      if InWindow(log[|log| - 1], from, to) then InsertByTime(rest, log[|log| - 1]) else rest
  }

  lemma {:induction false} InsertOrdered(sorted: seq<Msg>, m: Msg)
    requires Ordered(sorted)
    ensures Ordered(InsertByTime(sorted, m))
    ensures forall x :: x in InsertByTime(sorted, m) <==> x in sorted || x == m
  {
    if sorted != [] && sorted[|sorted| - 1].time > m.time {
      var n := |sorted| - 1;
      var last, rest := sorted[n], InsertByTime(sorted[..n], m);
      OrderedPrefix(sorted, n);
      InsertOrdered(sorted[..n], m);
      assert sorted == sorted[..n] + [last];
      forall i, j | 0 <= i <= j < |rest + [last]| ensures (rest + [last])[i].time <= (rest + [last])[j].time {
        if i < |rest| && j == |rest| {
          assert rest[i] in sorted[..n] || rest[i] == m;
          if rest[i] in sorted[..n] {
            LastIsLatest(sorted[..n], last, rest[i]);
          }
        }
      }
    }
  }

  lemma {:induction false} SelectExact(log: seq<Msg>, from: int, to: int)
    ensures Ordered(Select(log, from, to))
    ensures forall x :: x in Select(log, from, to) <==>
              x in log && (x.role == "user" || x.role == "assistant") && from <= x.time < to
  {
    if log != [] {
      var n := |log| - 1;
      SelectExact(log[..n], from, to);
      assert log == log[..n] + [log[n]];
      if InWindow(log[n], from, to) {
        InsertOrdered(Select(log[..n], from, to), log[n]);
      }
    }
  }

  /** A latest user or assistant message before `before`, if there is any. */
  ghost predicate IsLastBefore(log: seq<Msg>, before: int, last: Option<Msg>) {
    match last
    case None => forall m :: m in log && Relevant(m) ==> m.time >= before
    case Some(m) => m in log && Relevant(m) && m.time < before
                    && forall x :: x in log && Relevant(x) && x.time < before ==> x.time <= m.time
  }

  ghost predicate NewBefore(mem: Memory, cutoff: int) {
    exists m :: m in mem.log && Relevant(m) && Watermark(mem.episodes) < m.time < cutoff
  }

  // ---- one detection run ----

  /** Inserted, or, under an ID that is there already, updated except for its start. */
  function Upsert(episodes: map<EpisodeID, Episode>, e: Episode): map<EpisodeID, Episode> {
    var id := SessionID(e.start);
    if id in episodes then episodes[id := episodes[id].(end := e.end, source := e.source)] else episodes[id := e]
  }

  function EpisodeOf(s: Session): Episode {
    Episode(s.start, s.end, s.messages)
  }

  function StoreAll(episodes: map<EpisodeID, Episode>, sessions: seq<Session>): map<EpisodeID, Episode> {
    if sessions == [] then episodes
    else
      var last := sessions[|sessions| - 1];
      Upsert(StoreAll(episodes, sessions[..|sessions| - 1]), EpisodeOf(last))
  }

  /** What fails in a run: a read, or the model call or save of session number `stopAt`. */
  datatype Faults = Faults(watermarkRead: bool, lastMessageRead: bool, messagesRead: bool, stopAt: nat)

  function Min(a: nat, b: nat): nat {
    if a < b then a else b
  }

  /** The episodes after the sessions of a window were stored, up to the first failure. */
  function Summarized(mem: Memory, from: int, to: int, f: Faults): map<EpisodeID, Episode> {
    if f.messagesRead then mem.episodes
    else
      var sessions := Group(Select(mem.log, from, to));
      StoreAll(mem.episodes, sessions[..Min(f.stopAt, |sessions|)])
  }

  /** The episodes after a run at time `now`. */
  ghost function Detect(mem: Memory, now: int, f: Faults): map<EpisodeID, Episode> {
    var cutoff := now - SESSION_GAP;
    if f.watermarkRead || f.lastMessageRead || !NewBefore(mem, cutoff) then mem.episodes
    else Summarized(mem, Watermark(mem.episodes), cutoff, f)
  }

  class Summarizer {
    var log: seq<Msg>
    var episodes: map<EpisodeID, Episode>

    constructor ()
      ensures Contents() == Memory([], map[])
    {
      log, episodes := [], map[];
    }

    function Contents(): Memory
      reads this
    {
      Memory(log, episodes)
    }

    method SaveMessage(m: Msg)
      modifies this`log
      ensures log == old(log) + [m]
    {
      log := log + [m];
    }

    method SaveEpisode(e: Episode)
      modifies this`episodes
      ensures episodes == Upsert(old(episodes), e)
    {
      var id := SessionID(e.start);
      if id in episodes {
        episodes := episodes[id := episodes[id].(end := e.end, source := e.source)];
      } else {
        episodes := episodes[id := e];
      }
    }

    method LastSessionEpisodeEndedAt() returns (w: int)
      ensures w == Watermark(episodes)
    {
      w := 0;
      var any := false;
      var left := episodes.Keys;
      while left != {}
        invariant left <= episodes.Keys && (any <==> left != episodes.Keys)
        invariant !any ==> w == 0
        invariant any ==> exists k :: k in episodes.Keys && episodes[k].end == w
        invariant any ==> forall k :: k in episodes.Keys - left ==> episodes[k].end <= w
        decreases |left|
      {
        var k :| k in left;
        left := left - {k};
        if !any || episodes[k].end > w {
          w := episodes[k].end;
        }
        any := true;
      }
      assert IsWatermark(episodes, w) by {
        assert episodes.Keys - left == episodes.Keys;
      }
      WatermarkUnique(episodes, w);
    }

    method LastMessageBefore(before: int) returns (last: Option<Msg>)
      ensures IsLastBefore(log, before, last)
    {
      last := None;
      for i := 0 to |log|
        invariant IsLastBefore(log[..i], before, last)
      {
        assert log[..i + 1] == log[..i] + [log[i]];
        if Relevant(log[i]) && log[i].time < before && (last.None? || log[i].time > last.value.time) {
          last := Some(log[i]);
        }
      }
      assert log[..|log|] == log;
    }

    method GetMessagesBetween(from: int, to: int) returns (msgs: seq<Msg>)
      ensures msgs == Select(log, from, to)
    {
      msgs := [];
      for i := 0 to |log|
        invariant msgs == Select(log[..i], from, to)
      {
        assert log[..i + 1][..i] == log[..i];
        if InWindow(log[i], from, to) {
          msgs := InsertByTime(msgs, log[i]);
        }
      }
      assert log[..|log|] == log;
    }

    /** The window still to summarize: from the watermark, inclusive, to a gap ago. */
    method DetectUnprocessedWindow(now: int, f: Faults) returns (window: Option<(int, int)>)
      ensures !f.watermarkRead && !f.lastMessageRead ==>
                window == if NewBefore(Contents(), now - SESSION_GAP)
                          then Some((Watermark(episodes), now - SESSION_GAP)) else None
      ensures f.watermarkRead || f.lastMessageRead ==> window == None
    {
      if f.watermarkRead {
        return None;
      }
      var lastProcessed := LastSessionEpisodeEndedAt();
      var cutoff := now - SESSION_GAP;
      if f.lastMessageRead {
        return None;
      }
      var last := LastMessageBefore(cutoff);
      if last.None? {
        return None;
      }
      if last.value.time <= lastProcessed {
        return None;
      }
      return Some((lastProcessed, cutoff));
    }

    method DetectAndSummarizeSessions(now: int, f: Faults)
      modifies this`episodes
      ensures episodes == Detect(old(Contents()), now, f)
    {
      var window := DetectUnprocessedWindow(now, f);
      if window.None? {
        return;
      }
      SummarizeSessions(window.value.0, window.value.1, f);
    }

    method SummarizeSessions(from: int, to: int, f: Faults)
      modifies this`episodes
      ensures episodes == Summarized(old(Contents()), from, to, f)
    {
      if f.messagesRead {
        return;
      }
      var msgs := GetMessagesBetween(from, to);
      if |msgs| == 0 {
        return;
      }
      var sessions := GroupIntoSessions(msgs);
      for i := 0 to |sessions|
        invariant i <= f.stopAt
        invariant episodes == StoreAll(old(episodes), sessions[..i])
      {
        assert sessions[..i + 1][..i] == sessions[..i];
        if i == f.stopAt {
          return;
        }
        SaveEpisode(EpisodeOf(sessions[i]));
      }
      assert sessions[..|sessions|] == sessions;
    }
  }
}

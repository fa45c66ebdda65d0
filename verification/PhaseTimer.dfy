/** The phases of a timed request: a stack of running phases beside the list of phase records,
    and the summary that adds up similar phases. */
module PhaseTimer {
  import opened Options

  /** A phase; the end is 0 while it runs. */
  datatype Phase = Phase(name: string, start: int, end: int, duration: int, level: nat)

  // ---- running phases ----

  predicate Runs(phases: seq<Phase>, i: int, name: string)
    requires 0 <= i < |phases|
  {
    phases[i].name == name && phases[i].end == 0
  }

  /** Every entry of the stack has a running record of its own, in the same order. */
  ghost predicate Matched(stack: seq<string>, phases: seq<Phase>, at: seq<nat>) {
    && |at| == |stack|
    && (forall k :: 0 <= k < |at| ==> at[k] < |phases| && Runs(phases, at[k], stack[k]))
    && (forall j, k :: 0 <= j < k < |at| ==> at[j] < at[k])
  }

  /** No record runs without being on the stack. */
  ghost predicate NoStray(phases: seq<Phase>, at: seq<nat>) {
    forall i :: 0 <= i < |phases| && phases[i].end == 0 ==> i in at
  }

  /** The last running record of that name, or -1. */
  function Newest(phases: seq<Phase>, name: string): (i: int)
    ensures -1 <= i < |phases| && (i >= 0 ==> Runs(phases, i, name))
    ensures forall j :: i < j < |phases| ==> !Runs(phases, j, name)
  {
    if phases == [] then -1
    else
      var n := |phases| - 1;
      if Runs(phases, n, name) then n
      else
        var i := Newest(phases[..n], name);
        assert forall j :: 0 <= j < n ==> Runs(phases[..n], j, name) == Runs(phases, j, name);
        i
  }

  /** The last entry of that name, or -1. */
  function Topmost(stack: seq<string>, name: string): (k: int)
    ensures -1 <= k < |stack| && (k >= 0 ==> stack[k] == name)
    ensures forall j :: k < j < |stack| ==> stack[j] != name
  {
    if stack == [] then -1
    else if stack[|stack| - 1] == name then |stack| - 1
    else Topmost(stack[..|stack| - 1], name)
  }

  /** A phase on the stack has a running record; the newest is the one its topmost entry
      opened, unless a later one strays. */
  lemma NewestIsOwn(stack: seq<string>, phases: seq<Phase>, at: seq<nat>, name: string)
    requires Matched(stack, phases, at) && name in stack
    ensures var k, i := Topmost(stack, name), Newest(phases, name);
            && k >= 0 && at[k] <= i && (i == at[k] <==> i in at)
    ensures NoStray(phases, at) ==> Newest(phases, name) == at[Topmost(stack, name)]
  {
    var k, i := Topmost(stack, name), Newest(phases, name);
    assert Runs(phases, at[k], name);
    if i in at {
      var j :| 0 <= j < |at| && at[j] == i;
      assert Runs(phases, at[j], stack[j]) && stack[j] == name;
    }
  }

  /** The records after the newest running one of a name is closed. */
  function Closed(phases: seq<Phase>, name: string, level: nat, now: int): seq<Phase>
    requires Newest(phases, name) >= 0
  {
    var i := Newest(phases, name);
    phases[i := phases[i].(end := now, duration := now - phases[i].start, level := level)]
  }

  lemma ClosedMatched(stack: seq<string>, phases: seq<Phase>, at: seq<nat>, name: string, now: int)
    requires Matched(stack, phases, at) && name in stack && now != 0
    ensures var k := Topmost(stack, name);
            k >= 0 && Newest(phases, name) >= 0 && Matched(stack[..k], Closed(phases, name, k, now), at[..k])
  {
    NewestIsOwn(stack, phases, at, name);
    var k := Topmost(stack, name);
    var phases' := Closed(phases, name, k, now);
    forall j | 0 <= j < k ensures at[..k][j] < |phases'| && Runs(phases', at[..k][j], stack[..k][j]) {
      assert at[j] < at[k];
    }
  }

  lemma TopLeavesNone(stack: seq<string>, phases: seq<Phase>, at: seq<nat>, name: string, now: int)
    requires Matched(stack, phases, at) && now != 0 && NoStray(phases, at)
    requires stack != [] && stack[|stack| - 1] == name
    ensures Newest(phases, name) == at[|at| - 1]
    ensures NoStray(Closed(phases, name, |stack| - 1, now), at[..|at| - 1])
  {
    NewestIsOwn(stack, phases, at, name);
    var k := |stack| - 1;
    var phases' := Closed(phases, name, k, now);
    forall j | 0 <= j < |phases'| && phases'[j].end == 0 ensures j in at[..k] {
      assert phases[j].end == 0 && j != at[k];
      var l :| 0 <= l < |at| && at[l] == j;
      assert at[..k][l] == j;
    }
  }

  lemma DroppedStray(stack: seq<string>, phases: seq<Phase>, at: seq<nat>, name: string, now: int)
    requires Matched(stack, phases, at) && NoStray(phases, at)
    requires name in stack && Topmost(stack, name) < |stack| - 1
    ensures var k := Topmost(stack, name);
            k >= 0 && Newest(phases, name) >= 0 && !NoStray(Closed(phases, name, k, now), at[..k])
  {
    NewestIsOwn(stack, phases, at, name);
    var k := Topmost(stack, name);
    var j := at[k + 1];
    assert at[k] < j && Runs(phases, j, stack[k + 1]);
    assert Closed(phases, name, k, now)[j].end == 0;
    assert forall l :: 0 <= l < k ==> at[l] < j;
  }

  /** If nothing strays, ending a phase leaves nothing straying exactly if it was on top. */
  lemma ClosedStray(stack: seq<string>, phases: seq<Phase>, at: seq<nat>, name: string, now: int)
    requires Matched(stack, phases, at) && name in stack && now != 0 && NoStray(phases, at)
    ensures var k := Topmost(stack, name);
            k >= 0 && Newest(phases, name) >= 0
            && (NoStray(Closed(phases, name, k, now), at[..k]) <==> k == |stack| - 1)
  {
    if Topmost(stack, name) == |stack| - 1 {
      TopLeavesNone(stack, phases, at, name, now);
    } else {
      DroppedStray(stack, phases, at, name, now);
    }
  }

  lemma RecordStray(stack: seq<string>, phases: seq<Phase>, at: seq<nat>, p: Phase)
    requires Matched(stack, phases, at)
    ensures Matched(stack, phases + [p], at)
    ensures NoStray(phases, at) ==> (NoStray(phases + [p], at) <==> p.end != 0)
  {
    assert forall i :: 0 <= i < |phases| ==> (phases + [p])[i] == phases[i];
    assert (phases + [p])[|phases|] == p;
    assert |phases| !in at;
    forall k | 0 <= k < |at| ensures Runs(phases + [p], at[k], stack[k]) {
      assert Runs(phases, at[k], stack[k]);
    }
  }

  class RequestTiming {
    var phases: seq<Phase>
    var stack: seq<string>
    ghost var at: seq<nat>

    constructor ()
      ensures Valid() && phases == [] && stack == [] && at == []
    {
      phases, stack, at := [], [], [];
    }

    ghost predicate Valid()
      reads this
    {
      Matched(stack, phases, at)
    }

    method StartPhase(name: string, now: int)
      requires Valid()
      modifies this
      ensures Valid() && stack == old(stack) + [name]
      ensures phases == old(phases) + [Phase(name, now, 0, 0, |old(stack)|)] && at == old(at) + [|old(phases)|]
      ensures NoStray(old(phases), old(at)) ==> NoStray(phases, at)
    {
      stack := stack + [name];
      at := at + [|phases|];
      phases := phases + [Phase(name, now, 0, 0, |stack| - 1)];
      assert old(NoStray(phases, at)) ==> forall i :: 0 <= i < |phases| - 1 && phases[i].end == 0 ==> i in old(at);
    }

    method RecordPhase(name: string, start: int, end: int)
      requires Valid()
      modifies this`phases
      ensures Valid() && phases == old(phases) + [Phase(name, start, end, end - start, |stack|)]
      ensures NoStray(old(phases), at) ==> (NoStray(phases, at) <==> end != 0)
    {
      ghost var before := phases;
      phases := phases + [Phase(name, start, end, end - start, |stack|)];
      RecordStray(stack, before, at, phases[|before|]);
    }

    /** Ending a phase that is on the stack closes its newest running record. If nothing
        strays, that is the record the phase opened, so the duration is its own; and nothing
        strays afterwards exactly if the phase was on top. Entries above it are dropped. */
    method EndPhase(name: string, now: int) returns (duration: int)
      requires Valid() && now != 0
      modifies this
      ensures Valid()
      ensures name !in old(stack) ==> duration == 0 && stack == old(stack) && phases == old(phases) && at == old(at)
      ensures name in old(stack) ==>
                var k, i := Topmost(old(stack), name), Newest(old(phases), name);
                && k >= 0 && i >= 0 && stack == old(stack)[..k] && at == old(at)[..k]
                && phases == Closed(old(phases), name, k, now) && duration == now - old(phases)[i].start
                && phases == old(phases)[i := Phase(name, old(phases)[i].start, now, duration, k)]
                && (NoStray(old(phases), old(at)) ==> i == old(at)[k])
                && (NoStray(old(phases), old(at)) ==> (NoStray(phases, at) <==> k == |old(stack)| - 1))
    {
      var stackIdx := -1;
      var i := |stack| - 1;
      while i >= 0
        invariant -1 <= i < |stack| && stackIdx == -1
        invariant forall j :: i < j < |stack| ==> stack[j] != name
      {
        if stack[i] == name {
          stackIdx := i;
          break;
        }
        i := i - 1;
      }
      if stackIdx == -1 {
        return 0;
      }
      assert stackIdx == Topmost(stack, name);
      NewestIsOwn(stack, phases, at, name);
      ClosedMatched(stack, phases, at, name, now);
      if NoStray(phases, at) {
        ClosedStray(stack, phases, at, name, now);
      }
      stack, at := stack[..stackIdx], at[..stackIdx];
      i := |phases| - 1;
      while i >= 0
        invariant -1 <= i < |phases|
        invariant forall j :: i < j < |phases| ==> !Runs(phases, j, name)
      {
        if phases[i].name == name && phases[i].end == 0 {
          assert Runs(phases, i, name) && Newest(phases, name) == i;
          duration := now - phases[i].start;
          phases := phases[i := phases[i].(end := now, duration := duration, level := stackIdx)];
          return;
        }
        i := i - 1;
      }
      // a phase on the stack always has a running record
      assert false;
      return 0;
    }
  }

  lemma NewestStep(phases: seq<Phase>, p: Phase, name: string)
    ensures Newest(phases + [p], name) == if p.name == name && p.end == 0 then |phases| else Newest(phases, name)
  {
    assert (phases + [p])[..|phases|] == phases && (phases + [p])[|phases|] == p;
  }

  /** A wrong duration: the "llm" phase that starts at 1 ends at 10, but the one that was
      dropped from the stack at 6 had started at 5. */
  method StrayMisleads() returns (duration: int)
    ensures duration == 10 - 5
  {
    hide Matched, NoStray, Newest;
    var timing := new RequestTiming();
    timing.StartPhase("llm", 1);
    timing.StartPhase("tool", 2);
    ghost var two := timing.phases;
    assert two == [two[0]] + [two[1]];
    NewestStep([two[0]], two[1], "tool");
    timing.StartPhase("llm", 5);
    NewestStep(two, timing.phases[2], "tool");
    assert timing.stack[..2] == ["llm", "tool"];
    var _ := timing.EndPhase("tool", 6);
    assert timing.stack == ["llm"];
    ghost var three := timing.phases;
    assert three == three[..2] + [three[2]];
    NewestStep(three[..2], three[2], "llm");
    duration := timing.EndPhase("llm", 10);
  }

  // ---- the summary ----

  function Total(phases: seq<Phase>): int {
    if phases == [] then 0 else Total(phases[..|phases| - 1]) + phases[|phases| - 1].duration
  }

  /** The phases of a category, and with None those of no category, in order. */
  function Of(phases: seq<Phase>, category: string -> Option<string>, c: Option<string>): seq<Phase> {
    if phases == [] then []
    else
      var before, p := Of(phases[..|phases| - 1], category, c), phases[|phases| - 1];
      if category(p.name) == c then before + [p] else before
  }

  lemma TotalStep(phases: seq<Phase>, p: Phase)
    ensures Total(phases + [p]) == Total(phases) + p.duration
  {
    assert (phases + [p])[..|phases|] == phases;
  }

  lemma OfStep(phases: seq<Phase>, p: Phase, category: string -> Option<string>, c: Option<string>)
    ensures Of(phases + [p], category, c) ==
            if category(p.name) == c then Of(phases, category, c) + [p] else Of(phases, category, c)
    ensures Total(Of(phases + [p], category, c)) ==
            Total(Of(phases, category, c)) + if category(p.name) == c then p.duration else 0
  {
    assert (phases + [p])[..|phases|] == phases;
    TotalStep(Of(phases, category, c), p);
  }

  /** The sum stands for the phases: their total duration, from the first one's start to the
      latest end. */
  ghost predicate SumsUp(sum: Phase, name: string, phases: seq<Phase>) {
    && phases != [] && sum.name == name && sum.duration == Total(phases)
    && sum.start == phases[0].start && sum.level == phases[0].level
    && (forall p :: p in phases ==> p.end <= sum.end) && exists p :: p in phases && p.end == sum.end
  }

  function Updated(sum: Phase, p: Phase): Phase {
    sum.(duration := sum.duration + p.duration, end := if sum.end < p.end then p.end else sum.end)
  }

  lemma SumsUpMore(sum: Phase, name: string, phases: seq<Phase>, p: Phase)
    requires SumsUp(sum, name, phases)
    ensures SumsUp(Updated(sum, p), name, phases + [p])
  {
    assert (phases + [p])[..|phases|] == phases;
    var q :| q in phases && q.end == sum.end;
    assert q in phases + [p] && p in phases + [p];
  }

  lemma SumsUpOne(p: Phase, name: string)
    ensures SumsUp(p.(name := name), name, [p])
  {
    assert [p][..0] == [] && p in [p];
  }

  /** The sums by category after some of the phases. */
  ghost predicate SumsOf(sums: map<string, Phase>, phases: seq<Phase>, category: string -> Option<string>) {
    && (forall c :: c in sums <==> Of(phases, category, Some(c)) != [])
    && (forall c :: c in sums ==> SumsUp(sums[c], c, Of(phases, category, Some(c))))
  }

  /** The sums after one more phase. */
  function More(sums: map<string, Phase>, p: Phase, c: Option<string>): map<string, Phase> {
    if c.None? then sums
    else if c.value in sums then sums[c.value := Updated(sums[c.value], p)]
    else sums[c.value := p.(name := c.value)]
  }

  lemma SumsOfMore(sums: map<string, Phase>, phases: seq<Phase>, category: string -> Option<string>, p: Phase)
    requires SumsOf(sums, phases, category)
    ensures SumsOf(More(sums, p, category(p.name)), phases + [p], category)
  {
    var sums' := More(sums, p, category(p.name));
    forall c ensures c in sums' <==> Of(phases + [p], category, Some(c)) != [] {
      OfStep(phases, p, category, Some(c));
    }
    forall c | c in sums' ensures SumsUp(sums'[c], c, Of(phases + [p], category, Some(c))) {
      OfStep(phases, p, category, Some(c));
      if category(p.name) == Some(c) {
        if c in sums {
          SumsUpMore(sums[c], c, Of(phases, category, Some(c)), p);
        } else {
          assert Of(phases, category, Some(c)) + [p] == [p];
          SumsUpOne(p, c);
        }
      }
    }
  }

  ghost predicate Distinct(cs: seq<string>) {
    forall i, j :: 0 <= i < j < |cs| ==> cs[i] != cs[j]
  }

  /** Phases of no category as they are, in order, then one record for each of the categories. */
  ghost predicate Lists(result: seq<Phase>, phases: seq<Phase>, category: string -> Option<string>, cs: seq<string>) {
    var plain := Of(phases, category, None);
    && Distinct(cs) && |result| == |plain| + |cs| && result[..|plain|] == plain
    && forall i :: 0 <= i < |cs| ==> SumsUp(result[|plain| + i], cs[i], Of(phases, category, Some(cs[i])))
  }

  /** The summary: every category that occurs is listed, in any order. */
  ghost predicate IsSummary(result: seq<Phase>, phases: seq<Phase>, category: string -> Option<string>,
                            cs: seq<string>) {
    Lists(result, phases, category, cs) && forall c :: Of(phases, category, Some(c)) != [] ==> c in cs
  }

  lemma ListsMore(result: seq<Phase>, phases: seq<Phase>, category: string -> Option<string>, cs: seq<string>,
                  sum: Phase, c: string)
    requires Lists(result, phases, category, cs) && c !in cs && SumsUp(sum, c, Of(phases, category, Some(c)))
    ensures Lists(result + [sum], phases, category, cs + [c])
  {
    var plain := Of(phases, category, None);
    forall i | 0 <= i < |cs + [c]|
      ensures SumsUp((result + [sum])[|plain| + i], (cs + [c])[i], Of(phases, category, Some((cs + [c])[i]))) {
      assert i < |cs| ==> (result + [sum])[|plain| + i] == result[|plain| + i];
    }
  }

  method AggregatePhases(phases: seq<Phase>, category: string -> Option<string>) returns (result: seq<Phase>)
    ensures exists cs :: IsSummary(result, phases, category, cs)
  {
    result := [];
    var sums: map<string, Phase> := map[];
    for n := 0 to |phases|
      invariant result == Of(phases[..n], category, None)
      invariant SumsOf(sums, phases[..n], category)
    {
      var p := phases[n];
      assert phases[..n + 1] == phases[..n] + [p];
      SumsOfMore(sums, phases[..n], category, p);
      OfStep(phases[..n], p, category, None);
      var c := category(p.name);
      if c.None? {
        result := result + [p];
      } else if c.value in sums {
        sums := sums[c.value := Updated(sums[c.value], p)];
      } else {
        sums := sums[c.value := p.(name := c.value)];
      }
    }
    assert phases[..|phases|] == phases;
    ghost var cs: seq<string> := [];
    var left := sums.Keys;
    while left != {}
      invariant left <= sums.Keys
      invariant forall c :: c in cs <==> c in sums.Keys - left
      invariant Lists(result, phases, category, cs)
      decreases |left|
    {
      var c :| c in left;
      ListsMore(result, phases, category, cs, sums[c], c);
      left, cs := left - {c}, cs + [c];
      result := result + [sums[c]];
    }
    assert IsSummary(result, phases, category, cs);
  }

  function TotalOf(phases: seq<Phase>, category: string -> Option<string>, cs: seq<string>): int {
    if cs == [] then 0
    else TotalOf(phases, category, cs[..|cs| - 1]) + Total(Of(phases, category, Some(cs[|cs| - 1])))
  }

  lemma {:induction false} TotalOfMore(phases: seq<Phase>, p: Phase, category: string -> Option<string>,
                                       cs: seq<string>)
    requires Distinct(cs)
    ensures TotalOf(phases + [p], category, cs) ==
            TotalOf(phases, category, cs)
            + if category(p.name).Some? && category(p.name).value in cs then p.duration else 0
  {
    if cs != [] {
      var n := |cs| - 1;
      TotalOfMore(phases, p, category, cs[..n]);
      OfStep(phases, p, category, Some(cs[n]));
      assert forall c :: c in cs <==> c in cs[..n] || c == cs[n];
    }
  }

  lemma {:induction false} Partition(phases: seq<Phase>, category: string -> Option<string>, cs: seq<string>)
    requires Distinct(cs)
    requires forall p :: p in phases && category(p.name).Some? ==> category(p.name).value in cs
    ensures Total(Of(phases, category, None)) + TotalOf(phases, category, cs) == Total(phases)
  {
    if phases == [] {
      NothingOf(category, cs);
    } else {
      var before, p := phases[..|phases| - 1], phases[|phases| - 1];
      assert phases == before + [p];
      hide Total, TotalOf, Of;
      Partition(before, category, cs);
      PartitionStep(before, p, category, cs);
    }
  }

  lemma PartitionStep(phases: seq<Phase>, p: Phase, category: string -> Option<string>, cs: seq<string>)
    requires Distinct(cs) && (category(p.name).Some? ==> category(p.name).value in cs)
    ensures Total(Of(phases + [p], category, None)) + TotalOf(phases + [p], category, cs) - Total(phases + [p]) ==
            Total(Of(phases, category, None)) + TotalOf(phases, category, cs) - Total(phases)
  {
    TotalOfMore(phases, p, category, cs);
    OfStep(phases, p, category, None);
    TotalStep(phases, p);
  }

  lemma {:induction false} NothingOf(category: string -> Option<string>, cs: seq<string>)
    ensures TotalOf([], category, cs) == 0
  {
    if cs != [] {
      NothingOf(category, cs[..|cs| - 1]);
    }
  }

  lemma {:induction false} CategoryOccurs(phases: seq<Phase>, category: string -> Option<string>, p: Phase)
    requires p in phases
    ensures p in Of(phases, category, category(p.name))
  {
    if p != phases[|phases| - 1] {
      CategoryOccurs(phases[..|phases| - 1], category, p);
    }
  }

  lemma {:induction false} ListedTotal(result: seq<Phase>, phases: seq<Phase>, category: string -> Option<string>,
                                       cs: seq<string>)
    requires Lists(result, phases, category, cs)
    ensures Total(result) == Total(Of(phases, category, None)) + TotalOf(phases, category, cs)
    decreases |cs|
  {
    var plain, n := Of(phases, category, None), |cs| - 1;
    if cs == [] {
      assert result == plain;
    } else {
      var before, last := result[..|plain| + n], result[|plain| + n];
      ListsFewer(result, phases, category, cs);
      assert SumsUp(last, cs[n], Of(phases, category, Some(cs[n])));
      assert result == before + [last];
      hide Lists, Total, Of;
      TotalStep(before, last);
      ListedTotal(before, phases, category, cs[..n]);
    }
  }

  lemma ListsFewer(result: seq<Phase>, phases: seq<Phase>, category: string -> Option<string>, cs: seq<string>)
    requires Lists(result, phases, category, cs) && cs != []
    ensures Lists(result[..|result| - 1], phases, category, cs[..|cs| - 1])
  {
    var plain, n, before := Of(phases, category, None), |cs| - 1, result[..|result| - 1];
    assert before[..|plain|] == plain;
    forall i | 0 <= i < n ensures SumsUp(before[|plain| + i], cs[..n][i], Of(phases, category, Some(cs[..n][i]))) {
      assert before[|plain| + i] == result[|plain| + i];
    }
  }

  /** No time is lost or counted twice in the summary. */
  lemma SummaryConserves(result: seq<Phase>, phases: seq<Phase>, category: string -> Option<string>, cs: seq<string>)
    requires IsSummary(result, phases, category, cs)
    ensures Total(result) == Total(phases)
  {
    forall p | p in phases && category(p.name).Some? ensures category(p.name).value in cs {
      CategoryOccurs(phases, category, p);
    }
    Partition(phases, category, cs);
    ListedTotal(result, phases, category, cs);
  }
}

/** Token limits for the next model call, and text truncation to a token limit. */
module TokenBudget {

  /** Integer division that truncates toward zero. */
  function TruncDiv(a: int, b: int): int
    requires b > 0
  {
    if a >= 0 then a / b else -((-a) / b)
  }

  function SafetyMargin(contextWindow: int): (margin: int)
    ensures contextWindow >= 0 ==> 0 <= margin <= contextWindow
  {
    TruncDiv(contextWindow * 10, 100)
  }

  function OutputBudget(window: int, input: int, margin: int, configuredMax: int): int {
    var available := window - input - margin;
    var floored := if available <= 0 then margin else available;
    if 0 < configuredMax < floored then configuredMax else floored
  }

  function InputHeadroom(window: int, input: int, output: int, margin: int): int {
    var headroom := window - input - output - margin;
    if headroom < 0 then 0 else headroom
  }

  function PerResult(headroom: int, calls: int, configuredMax: int): int {
    if calls <= 0 then headroom
    else
      var per := TruncDiv(headroom, calls);
      if 0 < configuredMax < per then configuredMax else per
  }

  datatype Budget = Budget(maxTokens: int, perResult: int)

  function IterationBudget(window: int, margin: int, input: int, calls: int, maxTokens: int,
                           maxPerResult: int): Budget {
    var output := OutputBudget(window, input, margin, maxTokens);
    Budget(output, PerResult(InputHeadroom(window, input, output, margin), calls, maxPerResult))
  }

  lemma {:induction false} ShareFits(total: int, calls: int)
    requires total >= 0 && calls > 0
    ensures 0 <= calls * (total / calls) <= total
  {
  }

  lemma {:induction false} ScaleDown(calls: int, small: int, big: int)
    requires calls > 0 && small <= big
    ensures calls * small <= calls * big
  {
  }

  /** The budgets of one round fit the context window exactly when the input plus the
      margin leave room; the floor used otherwise always overflows, unless it is zero. */
  lemma {:induction false} RoundFits(window: int, margin: int, input: int, calls: int, maxTokens: int,
                                     maxPerResult: int)
    requires calls > 0 && margin >= 0
    ensures var b := IterationBudget(window, margin, input, calls, maxTokens, maxPerResult);
            && b.maxTokens >= 0 && b.perResult >= 0
            && (margin > 0 ==> b.maxTokens > 0)
            && (input + b.maxTokens + calls * b.perResult + margin <= window <==>
                  input + margin < window || (margin == 0 && input == window))
  {
    var output := OutputBudget(window, input, margin, maxTokens);
    var headroom := InputHeadroom(window, input, output, margin);
    ShareFits(headroom, calls);
    var per := PerResult(headroom, calls, maxPerResult);
    ScaleDown(calls, per, headroom / calls);
    ScaleDown(calls, 0, per);
  }

  lemma {:induction false} ZeroShare(total: int, calls: int)
    requires total >= 0 && calls > 0
    ensures total / calls == 0 <==> total < calls
  {
    if total >= calls {
      ScaleDown(calls, 1, total / calls);
    }
  }

  /** When the result budget is zero, which the loop reads as "no limit": without an output
      ceiling, and with one when what it leaves does not give every call a token. */
  lemma {:induction false} NoResultBudget(window: int, margin: int, input: int, calls: int, maxTokens: int,
                                          maxPerResult: int)
    requires calls > 0 && margin >= 0
    ensures IterationBudget(window, margin, input, calls, maxTokens, maxPerResult).perResult == 0 <==>
              maxTokens <= 0 || window - input - margin < maxTokens + calls
  {
    var output := OutputBudget(window, input, margin, maxTokens);
    ZeroShare(InputHeadroom(window, input, output, margin), calls);
  }

  /** The margin is a tenth of the window, rounded down. */
  lemma MarginIsTenth(window: nat)
    ensures 10 * SafetyMargin(window) <= window < 10 * SafetyMargin(window) + 10
  {
  }

  /** With room left, the output limit is the largest that fits the window and the ceiling, and
      the result limit the largest share of what then remains that its own ceiling allows. */
  lemma {:induction false} LimitsLargest(window: int, margin: int, input: int, calls: int, maxTokens: int,
                                         maxPerResult: int, output: int, per: int)
    requires calls > 0 && margin >= 0 && input + margin < window
    ensures var b := IterationBudget(window, margin, input, calls, maxTokens, maxPerResult);
            && (output <= b.maxTokens <==> input + output + margin <= window && (maxTokens > 0 ==> output <= maxTokens))
            && (per <= b.perResult <==>
                  input + b.maxTokens + calls * per + margin <= window && (maxPerResult > 0 ==> per <= maxPerResult))
  {
    var room := InputHeadroom(window, input, OutputBudget(window, input, margin, maxTokens), margin);
    LargestShare(room, calls, per);
  }

  lemma {:induction false} LargestShare(total: int, calls: int, per: int)
    requires total >= 0 && calls > 0
    ensures per <= total / calls <==> calls * per <= total
  {
    ShareFits(total, calls);
    if per <= total / calls {
      ScaleDown(calls, per, total / calls);
    } else {
      ScaleDown(calls, total / calls + 1, per);
      assert total < calls * (total / calls + 1);
    }
  }

  /** Without room, the output limit is the margin, or the ceiling if that is less. */
  lemma LimitWithoutRoom(window: int, margin: int, input: int, calls: int, maxTokens: int, maxPerResult: int)
    requires margin >= 0 && input + margin >= window
    ensures var limit := IterationBudget(window, margin, input, calls, maxTokens, maxPerResult).maxTokens;
            limit <= margin && (maxTokens > 0 ==> limit <= maxTokens) && (limit == margin || limit == maxTokens)
  {
  }

  // ---- estimating and truncating text ----

  predicate IsStructural(c: char) {
    c in {'{', '}', '[', ']', '\"', ':', ','}
  }

  function Structural(s: string): (n: nat)
    ensures n <= |s|
  {
    if s == "" then 0 else Structural(s[..|s| - 1]) + if IsStructural(s[|s| - 1]) then 1 else 0
  }

  function Estimate(s: string): nat {
    if s == "" then 0
    else
      var base := |s| / 4;
      var discounted := if Structural(s) > |s| / 4 then base * 9 / 10 else base;
      if discounted == 0 then 1 else discounted
  }

  /** A quarter of the length, rounded down, for ordinary text; nine tenths of that, rounded
      down, if more than a quarter of the length, rounded down, is structural. Only the empty
      text is free. */
  lemma EstimateExact(s: string)
    ensures Estimate(s) == 0 <==> s == ""
    ensures |s| >= 4 && Structural(s) <= |s| / 4 ==> 4 * Estimate(s) <= |s| < 4 * Estimate(s) + 4
    ensures |s| >= 8 && Structural(s) > |s| / 4 ==> 10 * Estimate(s) <= 9 * (|s| / 4) < 10 * Estimate(s) + 10
    ensures 0 < |s| < 4 || (|s| < 8 && Structural(s) > |s| / 4) ==> Estimate(s) <= 1
  {
  }

  /** Structural characters are counted one by one. */
  lemma {:induction false} StructuralCounts(a: string, b: string)
    ensures Structural(a + b) == Structural(a) + Structural(b)
    ensures forall c :: Structural([c]) == if c in "{}[]\":," then 1 else 0
  {
    forall c ensures Structural([c]) == if c in "{}[]\":," then 1 else 0 {
      assert [c][..0] == "";
    }
    if b == "" {
      assert a + b == a;
    } else {
      var n := |b| - 1;
      assert (a + b)[..|a| + n] == a + b[..n];
      StructuralCounts(a, b[..n]);
    }
  }

  method EstimateTokens(s: string) returns (tokens: nat)
    ensures tokens == Estimate(s)
  {
    if s == "" {
      return 0;
    }
    var estimate := |s| / 4;
    var structural := 0;
    for i := 0 to |s|
      invariant structural == Structural(s[..i])
    {
      assert s[..i + 1][..i] == s[..i];
      if IsStructural(s[i]) {
        structural := structural + 1;
      }
    }
    assert s[..|s|] == s;
    if structural > |s| / 4 {
      estimate := estimate * 9 / 10;
    }
    return if estimate == 0 then 1 else estimate;
  }

  /** Any text of at most four characters per token is estimated within the limit. */
  lemma {:induction false} ShortEnough(s: string, tokens: nat)
    requires |s| <= 4 * tokens
    ensures Estimate(s) <= tokens
  {
  }

  predicate IsBoundary(s: string, i: int)
    requires 0 <= i < |s|
  {
    s[i] == ' ' || s[i] == '\n'
  }

  /** The last word boundary at or before position `i`, or 0 if there is none after 0. */
  function LastBoundary(s: string, i: nat): (b: nat)
    requires i < |s|
    ensures b <= i && (b > 0 ==> IsBoundary(s, b))
    ensures forall k :: b < k <= i ==> !IsBoundary(s, k)
  {
    if i == 0 || IsBoundary(s, i) then i else LastBoundary(s, i - 1)
  }

  function CutPosition(s: string, target: nat): nat
    requires target < |s|
  {
    if LastBoundary(s, target) == 0 then target else LastBoundary(s, target)
  }

  /** Truncation keeps a text within the limit untouched, and only such a text. Any other is
      cut at the last word boundary before the character target, or at the target if there
      is none, which always brings it within the limit. */
  method TruncateToTokens(s: string, maxTokens: nat) returns (t: string)
    ensures t <= s && Estimate(t) <= maxTokens
    ensures t == s <==> Estimate(s) <= maxTokens
    ensures t != s ==> 4 * maxTokens < |s| && |t| == CutPosition(s, 4 * maxTokens)
  {
    var estimate := EstimateTokens(s);
    if estimate <= maxTokens {
      return s;
    }
    var target := maxTokens * 4;
    if target >= |s| {
      ShortEnough(s, maxTokens);
      return s;
    }
    var cut := target;
    while cut > 0 && s[cut] != ' ' && s[cut] != '\n'
      invariant 0 <= cut <= target && LastBoundary(s, cut) == LastBoundary(s, target)
    {
      cut := cut - 1;
    }
    if cut == 0 {
      cut := target;
    }
    ShortEnough(s[..cut], maxTokens);
    return s[..cut];
  }

  /** Truncating an already truncated text changes nothing. */
  method TruncateTwice(s: string, maxTokens: nat) returns (once: string, twice: string)
    ensures once <= s && Estimate(once) <= maxTokens && twice == once
  {
    once := TruncateToTokens(s, maxTokens);
    twice := TruncateToTokens(once, maxTokens);
  }
}

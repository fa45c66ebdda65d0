/** How the store finds the dependents of a task: a SQL LIKE over the JSON text of each
    dependency list, followed by an exact filter on the decoded list. */
module DependencyText {
  import opened TaskGraph

  // ---- JSON text of a list of strings ----

  predicate PlainChar(c: char) {
    && ' ' <= c && c != '\"' && c != '\\'
    && c != '<' && c != '>' && c != '&' && c != '\U{2028}' && c != '\U{2029}'
  }

  /** The encoder copies every character of the identifier unchanged. */
  predicate Plain(id: TaskID) {
    forall i :: 0 <= i < |id.text| ==> PlainChar(id.text[i])
  }

  function HexDigit(n: nat): char
    requires n < 16
  {
    "0123456789abcdef"[n]
  }

  function EscapeChar(c: char): string {
    if PlainChar(c) then [c]
    else if c == '\"' then "\\\""
    else if c == '\\' then "\\\\"
    else if c == '\n' then "\\n"
    else if c == '\r' then "\\r"
    else if c == '\t' then "\\t"
    else if c as int == 8 then "\\b"
    else if c as int == 12 then "\\f"
    else if c == '\U{2028}' then "\\u2028"
    else if c == '\U{2029}' then "\\u2029"
    else "\\u00" + [HexDigit(c as int / 16), HexDigit(c as int % 16)]
  }

  function Escape(s: string): string {
    if s == "" then "" else EscapeChar(s[0]) + Escape(s[1..])
  }

  function Quote(id: TaskID): string {
    "\"" + Escape(id.text) + "\""
  }

  function EncodeItems(ids: seq<TaskID>): string {
    if ids == [] then ""
    else if |ids| == 1 then Quote(ids[0])
    else Quote(ids[0]) + "," + EncodeItems(ids[1..])
  }

  function EncodeList(ids: seq<TaskID>): string {
    "[" + EncodeItems(ids) + "]"
  }

  // ---- SQL LIKE: ASCII case-insensitive, '%' any run, '_' any one character ----

  function Fold(c: char): char {
    if 'A' <= c <= 'Z' then (c as int + 32) as char else c
  }

  predicate Like(p: string, t: string)
    decreases |p|, |t|
  {
    if p == "" then t == ""
    else if p[0] == '%' then Like(p[1..], t) || (t != "" && Like(p, t[1..]))
    else t != "" && (p[0] == '_' || Fold(p[0]) == Fold(t[0])) && Like(p[1..], t[1..])
  }

  predicate LikeContains(t: string, id: TaskID) {
    Like("%" + id.text + "%", t)
  }

  /** The prefilter finds a row with this dependency list when it looks for the ID. */
  predicate Shows(deps: seq<TaskID>, id: TaskID) {
    LikeContains(EncodeList(deps), id)
  }

  lemma {:induction false} PercentMatchesAll(t: string)
    ensures Like("%", t)
    decreases |t|
  {
    if t != "" {
      PercentMatchesAll(t[1..]);
    }
  }

  /** A text matches itself as a pattern, wildcards included, followed by anything. */
  lemma {:induction false} LikePrefix(p: string, rest: string)
    ensures Like(p + "%", p + rest)
  {
    if p == "" {
      assert p + "%" == "%" && p + rest == rest;
      PercentMatchesAll(rest);
    } else {
      LikePrefix(p[1..], rest);
      assert (p + "%")[1..] == p[1..] + "%";
      assert (p + rest)[1..] == p[1..] + rest;
      if p[0] == '%' {
        assert Like(p[1..] + "%", p[1..] + rest);
        assert Like((p + "%"), (p + rest)[1..]);
      }
    }
  }

  lemma {:induction false} LikeInfix(before: string, p: string, rest: string)
    ensures Like("%" + p + "%", before + p + rest)
    decreases |before|
  {
    var pattern := "%" + p + "%";
    assert pattern[1..] == p + "%";
    if before == "" {
      assert before + p + rest == p + rest;
      LikePrefix(p, rest);
    } else {
      LikeInfix(before[1..], p, rest);
      assert (before + p + rest)[1..] == before[1..] + p + rest;
    }
  }

  lemma {:induction false} PlainEscape(s: string)
    requires forall i :: 0 <= i < |s| ==> PlainChar(s[i])
    ensures Escape(s) == s
  {
    if s != "" {
      PlainEscape(s[1..]);
    }
  }

  lemma {:induction false} QuotedInList(ids: seq<TaskID>, id: TaskID) returns (before: string, after: string)
    requires id in ids
    ensures EncodeItems(ids) == before + Quote(id) + after
  {
    var head := if |ids| == 1 then "" else "," + EncodeItems(ids[1..]);
    assert EncodeItems(ids) == Quote(ids[0]) + head;
    if ids[0] == id {
      before, after := "", head;
      assert before + Quote(id) == Quote(id);
    } else {
      var b, a := QuotedInList(ids[1..], id);
      before, after := Quote(ids[0]) + "," + b, a;
      Reassociate(Quote(ids[0]), ",", b, Quote(id), a);
    }
  }

  lemma Reassociate(x: string, y: string, b: string, m: string, a: string)
    ensures x + (y + (b + m + a)) == (x + y + b) + m + a
    ensures (x + y) + (b + m + a) == (x + y + b) + m + a
  {
  }

  lemma Regroup(open: string, b: string, m: string, a: string, close: string)
    ensures open + (b + m + a) + close == (open + b) + m + (a + close)
  {
  }

  lemma {:induction false} LikeLonger(p: string, t: string, rest: string)
    requires Like(p + "%", t)
    ensures Like(p + "%", t + rest)
    decreases |p|, |t|
  {
    if p == "" {
      assert p + "%" == "%";
      PercentMatchesAll(t + rest);
    } else {
      assert (p + "%")[1..] == p[1..] + "%";
      assert t != "" ==> (t + rest)[1..] == t[1..] + rest;
      if Like(p[1..] + "%", t) && p[0] == '%' {
        LikeLonger(p[1..], t, rest);
      } else if p[0] == '%' {
        LikeLonger(p, t[1..], rest);
      } else {
        LikeLonger(p[1..], t[1..], rest);
      }
    }
  }

  lemma {:induction false} LikeLater(before: string, p: string, t: string)
    requires Like("%" + p, t)
    ensures Like("%" + p, before + t)
  {
    if before == "" {
      assert before + t == t;
    } else {
      LikeLater(before[1..], p, t);
      assert (before + t)[1..] == before[1..] + t;
    }
  }

  /** What an ID matches it also matches with text around it. */
  lemma LikeAround(before: string, t: string, after: string, id: TaskID)
    requires LikeContains(t, id)
    ensures LikeContains(before + t + after, id)
  {
    assert "%" + id.text + "%" == "%" + (id.text + "%");
    LikeLater(before, id.text + "%", t);
    LikeLonger("%" + id.text, before + t, after);
  }

  /** The ID, as a pattern, matches its own JSON text. */
  predicate ShowsItself(id: TaskID) {
    LikeContains(Quote(id), id)
  }

  lemma PlainShowsItself(id: TaskID)
    requires Plain(id)
    ensures ShowsItself(id)
  {
    PlainEscape(id.text);
    LikeInfix("\"", id.text, "\"");
  }

  /** The prefilter never loses a dependent of a task whose ID shows itself. */
  lemma {:induction false} PrefilterKeeps(ids: seq<TaskID>, id: TaskID)
    requires ShowsItself(id) && id in ids
    ensures Shows(ids, id)
  {
    var b, a := QuotedInList(ids, id);
    Regroup("[", b, Quote(id), a, "]");
    LikeAround("[" + b, Quote(id), a + "]", id);
  }

  // ---- identifiers the prefilter always loses ----

  /** Characters JSON text never contains: the encoder always writes them as escapes. */
  predicate Hidden(c: char) {
    !PlainChar(c) && c != '\"' && c != '\\'
  }

  /** Which characters these are: those that their own escape does not contain. */
  lemma HiddenMeans(c: char)
    ensures Hidden(c) <==> c !in EscapeChar(c)
    ensures Hidden(c) <==> c < ' ' || c in {'<', '>', '&', '\U{2028}', '\U{2029}'}
  {
    if c as int < 256 {
      HexPrinted(c as int / 16);
      HexPrinted(c as int % 16);
    }
  }

  lemma HexPrinted(n: nat)
    requires n < 16
    ensures '0' <= HexDigit(n) <= 'f'
  {
    assert HexDigit(n) == if n < 10 then ('0' as int + n) as char else ('a' as int + n - 10) as char;
  }

  predicate NothingHidden(t: string) {
    forall i :: 0 <= i < |t| ==> !Hidden(t[i])
  }

  lemma {:induction false} EscapeShowsAll(s: string)
    ensures NothingHidden(Escape(s))
  {
    if s != "" {
      EscapeShowsAll(s[1..]);
      EscapeCharShown(s[0]);
    }
  }

  lemma HexShown(n: nat)
    requires n < 16
    ensures !Hidden(HexDigit(n))
  {
    assert HexDigit(n) == if n < 10 then ('0' as int + n) as char else ('a' as int + n - 10) as char;
  }

  lemma EscapeCharShown(c: char)
    ensures NothingHidden(EscapeChar(c))
  {
    hide HexDigit;
    if c as int < 256 {
      HexShown(c as int / 16);
      HexShown(c as int % 16);
    }
  }

  lemma {:induction false} EncodeShowsAll(ids: seq<TaskID>)
    ensures NothingHidden(EncodeItems(ids))
  {
    if ids != [] {
      EscapeShowsAll(ids[0].text);
      EncodeShowsAll(ids[1..]);
    }
  }

  lemma {:induction false} HiddenNeverMatches(p: string, t: string, i: nat)
    requires NothingHidden(t) && i < |p| && Hidden(p[i])
    ensures !Like(p, t)
    decreases |p|, |t|
  {
    if p[0] == '%' {
      HiddenNeverMatches(p[1..], t, i - 1);
      if t != "" {
        HiddenNeverMatches(p, t[1..], i);
      }
    } else if t != "" && i > 0 {
      HiddenNeverMatches(p[1..], t[1..], i - 1);
    }
  }

  /** Which IDs the prefilter is safe for. An ID that shows itself, so any that the encoder
      leaves alone, is found wherever it is listed. One with a character that JSON hides is
      found nowhere. Without quotes and backslashes there is no third kind. */
  lemma {:induction false} PrefilterExact(id: TaskID)
    ensures Plain(id) ==> ShowsItself(id)
    ensures ShowsItself(id) ==> forall ids :: id in ids ==> Shows(ids, id)
    ensures !NothingHidden(id.text) ==> forall ids :: !Shows(ids, id)
    ensures '\"' !in id.text && '\\' !in id.text ==> (Plain(id) <==> NothingHidden(id.text))
  {
    if Plain(id) {
      PlainShowsItself(id);
    }
    if ShowsItself(id) {
      forall ids | id in ids ensures Shows(ids, id) {
        PrefilterKeeps(ids, id);
      }
    }
    if !NothingHidden(id.text) {
      var i :| 0 <= i < |id.text| && Hidden(id.text[i]);
      forall ids ensures !Shows(ids, id) {
        HiddenNeverFound(ids, id, i);
      }
    }
    assert forall i :: 0 <= i < |id.text| ==> id.text[i] in id.text;
  }

  /** The prefilter shows every dependency of this list. */
  predicate Findable(deps: seq<TaskID>) {
    forall d :: d in deps ==> Shows(deps, d)
  }

  lemma HiddenNeverFound(ids: seq<TaskID>, id: TaskID, i: nat)
    requires i < |id.text| && Hidden(id.text[i])
    ensures !Shows(ids, id)
  {
    EncodeShowsAll(ids);
    var p := "%" + id.text + "%";
    assert p[i + 1] == id.text[i];
    HiddenNeverMatches(p, EncodeList(ids), i + 1);
  }

  /** A concrete loss: nothing is ever found to depend on a task called "a<b". Both callers of
      submission draw UUIDs, so it takes another one to bring such an ID into the store. */
  lemma AngleBracketLost(ids: seq<TaskID>)
    ensures !Shows(ids, TaskID("a<b"))
  {
    HiddenNeverFound(ids, TaskID("a<b"), 1);
  }

  // ---- what LIKE means without '%' ----

  /** Equal up to the case of ASCII letters; '_' stands for any character. */
  predicate SameChar(p: char, c: char) {
    p == '_' || p == c || ('A' <= p <= 'Z' && c as int == p as int + 32) || ('A' <= c <= 'Z' && p as int == c as int + 32)
  }

  ghost predicate MatchesAt(p: string, t: string, k: int) {
    0 <= k && k + |p| <= |t| && forall i :: 0 <= i < |p| ==> SameChar(p[i], t[k + i])
  }

  lemma {:induction false} PrefixMatch(p: string, t: string)
    requires '%' !in p
    ensures Like(p + "%", t) <==> MatchesAt(p, t, 0)
  {
    if p == "" {
      assert p + "%" == "%";
      PercentMatchesAll(t);
    } else if t != "" {
      assert (p + "%")[1..] == p[1..] + "%";
      PrefixMatch(p[1..], t[1..]);
      assert MatchesAt(p, t, 0) <==> SameChar(p[0], t[0]) && MatchesAt(p[1..], t[1..], 0) by {
        assert forall i :: 0 <= i < |p| - 1 ==> p[1..][i] == p[i + 1];
        if MatchesAt(p, t, 0) {
          forall i | 0 <= i < |p| - 1 ensures SameChar(p[1..][i], t[1..][i]) {
            assert SameChar(p[i + 1], t[0 + (i + 1)]);
          }
        }
        if SameChar(p[0], t[0]) && MatchesAt(p[1..], t[1..], 0) {
          forall i | 0 <= i < |p| ensures SameChar(p[i], t[0 + i]) {
            assert i > 0 ==> SameChar(p[1..][i - 1], t[1..][0 + (i - 1)]);
          }
        }
      }
    }
  }

  /** The prefilter is a search: an ID without '%' is shown exactly if it occurs in the list's
      JSON text, letter case aside, with '_' standing for any character. */
  lemma {:induction false} LikeIsSearch(t: string, id: TaskID)
    requires '%' !in id.text
    ensures LikeContains(t, id) <==> exists k :: MatchesAt(id.text, t, k)
    decreases |t|
  {
    var p := "%" + id.text + "%";
    assert p[1..] == id.text + "%";
    PrefixMatch(id.text, t);
    if t != "" {
      LikeIsSearch(t[1..], id);
      if k :| MatchesAt(id.text, t[1..], k) {
        MatchesLater(id.text, t, k + 1);
      }
      if k :| MatchesAt(id.text, t, k) && k > 0 {
        MatchesLater(id.text, t, k);
      }
    }
  }

  lemma MatchesLater(p: string, t: string, k: int)
    requires t != "" && k > 0
    ensures MatchesAt(p, t, k) <==> MatchesAt(p, t[1..], k - 1)
  {
    if MatchesAt(p, t, k) {
      forall i | 0 <= i < |p| ensures SameChar(p[i], t[1..][k - 1 + i]) {
        assert SameChar(p[i], t[k + i]);
      }
    }
    if MatchesAt(p, t[1..], k - 1) {
      forall i | 0 <= i < |p| ensures SameChar(p[i], t[k + i]) {
        assert SameChar(p[i], t[1..][k - 1 + i]);
      }
    }
  }
}

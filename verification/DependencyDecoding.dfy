/** Reading a stored dependency list back: decoding JSON text undoes the encoder. */
module DependencyDecoding {
  import opened Options
  import opened TaskGraph
  import opened DependencyText

  // ---- the decoder ----

  function HexValue(c: char): Option<int> {
    if '0' <= c <= '9' then Some(c as int - '0' as int)
    else if 'a' <= c <= 'f' then Some(c as int - 'a' as int + 10)
    else if 'A' <= c <= 'F' then Some(c as int - 'A' as int + 10)
    else None
  }

  /** The character written with four hex digits; a surrogate is none. */
  function HexChar(digits: string): Option<char>
    requires |digits| == 4
  {
    var a, b, c, d := HexValue(digits[0]), HexValue(digits[1]), HexValue(digits[2]), HexValue(digits[3]);
    if a.None? || b.None? || c.None? || d.None? then None
    else
      var n := ((a.value * 16 + b.value) * 16 + c.value) * 16 + d.value;
      if 0 <= n < 0xD800 || 0xE000 <= n < 0x1_0000 then Some(n as char) else None
  }

  /** What a two-character escape stands for. */
  function ShortEscape(c: char): Option<char> {
    if c == '\"' then Some('\"')
    else if c == '\\' then Some('\\')
    else if c == '/' then Some('/')
    else if c == 'n' then Some('\n')
    else if c == 'r' then Some('\r')
    else if c == 't' then Some('\t')
    else if c == 'b' then Some(8 as char)
    else if c == 'f' then Some(12 as char)
    else None
  }

  /** One character at the front of string text, and how much of the text it takes. */
  function OneChar(t: string): Option<(char, nat)>
    requires t != ""
    ensures OneChar(t).Some? ==> 0 < OneChar(t).value.1 <= |t|
  {
    if t[0] == '\"' || t[0] < ' ' then None
    else if t[0] != '\\' then Some((t[0], 1))
    else if |t| < 2 then None
    else if t[1] != 'u' then
      match ShortEscape(t[1])
      case Some(c) => Some((c, 2))
      case None => None
    else if |t| < 6 then None
    else
      match HexChar(t[2..6])
      case Some(c) => Some((c, 6))
      case None => None
  }

  datatype Text = Text(read: string, rest: string)

  /** The text of a string up to its closing quote, and what follows the quote. */
  function ReadString(t: string): (r: Option<Text>)
    ensures r.Some? ==> |r.value.rest| < |t|
  {
    if t == "" then None
    else if t[0] == '\"' then Some(Text("", t[1..]))
    else
      match OneChar(t)
      case None => None
      case Some(c) =>
        match ReadString(t[c.1..])
        case None => None
        case Some(more) => Some(Text([c.0] + more.read, more.rest))
  }

  /** One or more strings, separated by commas and closed by a bracket. */
  function ReadItems(t: string): Option<seq<TaskID>>
    decreases |t|
  {
    if t == "" || t[0] != '\"' then None
    else
      match ReadString(t[1..])
      case None => None
      case Some(item) =>
        if item.rest == "]" then Some([TaskID(item.read)])
        else if item.rest == "" || item.rest[0] != ',' then None
        else
          match ReadItems(item.rest[1..])
          case None => None
          case Some(ids) => Some([TaskID(item.read)] + ids)
  }

  function DecodeList(t: string): Option<seq<TaskID>> {
    if t == "[]" then Some([])
    else if t == "" || t[0] != '[' then None
    else ReadItems(t[1..])
  }

  // ---- it undoes the encoder ----

  lemma HexBack(n: nat)
    requires n < 16
    ensures HexValue(HexDigit(n)) == Some(n)
  {
    assert HexDigit(n) == if n < 10 then ('0' as int + n) as char else ('a' as int + n - 10) as char;
  }

  lemma EscapeTaken(c: char, t: string)
    ensures EscapeChar(c) != "" && EscapeChar(c)[0] != '\"'
    ensures OneChar(EscapeChar(c) + t) == Some((c, |EscapeChar(c)|))
  {
    var all := EscapeChar(c) + t;
    if !PlainChar(c) && |EscapeChar(c)| == 6 {
      assert all[2..6] == EscapeChar(c)[2..6];
      if c != '\U{2028}' && c != '\U{2029}' {
        HexBack(c as int / 16);
        HexBack(c as int % 16);
      }
    }
  }

  /** An escaped text is read back, whatever follows its closing quote. */
  lemma {:induction false} EscapedBack(s: string, rest: string)
    ensures ReadString(Escape(s) + "\"" + rest) == Some(Text(s, rest))
  {
    hide EscapeChar, OneChar;
    if s == "" {
      var t := Escape(s) + "\"" + rest;
      assert t == "\"" + rest && t[0] == '\"' && t[1..] == rest;
    } else {
      assert s == [s[0]] + s[1..];
      var tail := Escape(s[1..]) + "\"" + rest;
      assert Escape(s) + "\"" + rest == EscapeChar(s[0]) + tail;
      EscapeTaken(s[0], tail);
      EscapedBack(s[1..], rest);
      OneMore(s[0], tail, Text(s[1..], rest));
    }
  }

  lemma OneMore(c: char, tail: string, more: Text)
    requires ReadString(tail) == Some(more)
    ensures ReadString(EscapeChar(c) + tail) == Some(Text([c] + more.read, more.rest))
  {
    EscapeTaken(c, tail);
    hide EscapeChar, OneChar;
    assert (EscapeChar(c) + tail)[|EscapeChar(c)|..] == tail;
  }

  /** What follows the first item of a list. */
  function AfterFirst(ids: seq<TaskID>): string
    requires ids != []
  {
    if |ids| == 1 then "]" else "," + (EncodeItems(ids[1..]) + "]")
  }

  lemma Flatten(open: string, text: string, close: string, comma: string, more: string, end: string)
    ensures ((open + text + close) + comma + more) + end == open + (text + close + (comma + (more + end)))
    ensures (open + text + close) + end == open + (text + close + end)
  {
  }

  lemma FirstItem(ids: seq<TaskID>)
    requires ids != []
    ensures EncodeItems(ids) + "]" == "\"" + (Escape(ids[0].text) + "\"" + AfterFirst(ids))
  {
    hide Escape;
    Flatten("\"", Escape(ids[0].text), "\"", ",", EncodeItems(ids[1..]), "]");
  }

  lemma ReadFirst(text: string, s: string, rest: string, more: string)
    requires ReadString(text) == Some(Text(s, rest))
    ensures rest == "]" ==> ReadItems("\"" + text) == Some([TaskID(s)])
    ensures rest == "," + more && ReadItems(more).Some? ==>
              ReadItems("\"" + text) == Some([TaskID(s)] + ReadItems(more).value)
  {
    assert ("\"" + text)[1..] == text;
    assert rest == "," + more ==> rest[0] == ',' && rest[1..] == more;
    hide ReadString;
  }

  lemma {:induction false} ItemsBack(ids: seq<TaskID>)
    requires ids != []
    ensures ReadItems(EncodeItems(ids) + "]") == Some(ids)
  {
    hide EncodeItems, Escape, ReadString, ReadItems;
    var text := Escape(ids[0].text) + "\"" + AfterFirst(ids);
    FirstItem(ids);
    EscapedBack(ids[0].text, AfterFirst(ids));
    if |ids| > 1 {
      ItemsBack(ids[1..]);
      assert ids == [ids[0]] + ids[1..];
    } else {
      assert ids == [TaskID(ids[0].text)];
    }
    ReadFirst(text, ids[0].text, AfterFirst(ids), EncodeItems(ids[1..]) + "]");
  }

  /** Round trip: the list read back is the list that was stored, for any IDs. */
  lemma DecodeEncode(ids: seq<TaskID>)
    ensures DecodeList(EncodeList(ids)) == Some(ids)
  {
    var t := EncodeList(ids);
    if ids != [] {
      assert t[1..] == EncodeItems(ids) + "]";
      assert |EncodeItems(ids)| > 0;
      ItemsBack(ids);
    }
  }

  /** So different lists have different texts. */
  lemma EncodeInjective(a: seq<TaskID>, b: seq<TaskID>)
    ensures EncodeList(a) == EncodeList(b) <==> a == b
  {
    DecodeEncode(a);
    DecodeEncode(b);
  }
}

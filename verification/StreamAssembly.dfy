/** Assembling one response from a stream of chunks that carry fragments of text and of
    tool calls. */
module StreamAssembly {
  import opened Options
  import opened ToolProtocol

  datatype Chunk = Chunk(content: string, fragments: seq<ToolCall>, done: bool, error: Option<string>,
                         inputTokens: int, outputTokens: int)

  datatype Assembled = Assembled(content: string, calls: seq<ToolCall>, inputTokens: int, outputTokens: int,
                                 error: Option<string>)

  /** One callback: the new token and all text so far. */
  datatype Token = Token(token: string, accumulated: string)

  // ---- what is read ----

  /** The chunks read before an error: up to and including the first that says it is done. */
  function Consumed(chunks: seq<Chunk>): (read: seq<Chunk>)
    ensures read <= chunks
    ensures forall i :: 0 <= i < |read| ==> read[i].error.None?
    ensures forall i :: 0 <= i < |read| - 1 ==> !read[i].done
    ensures read == chunks || chunks[|read|].error.Some? || (read != [] && read[|read| - 1].done)
  {
    if chunks == [] || chunks[0].error.Some? then []
    else if chunks[0].done then [chunks[0]]
    else [chunks[0]] + Consumed(chunks[1..])
  }

  predicate Ended(read: seq<Chunk>) {
    read != [] && read[|read| - 1].done
  }

  function Text(read: seq<Chunk>): string {
    if read == [] then "" else Text(read[..|read| - 1]) + read[|read| - 1].content
  }

  function Fragments(read: seq<Chunk>): seq<ToolCall> {
    if read == [] then [] else Fragments(read[..|read| - 1]) + read[|read| - 1].fragments
  }

  function Tokens(read: seq<Chunk>): seq<Token> {
    if read == [] then []
    else
      var before := Tokens(read[..|read| - 1]);
      var last := read[|read| - 1];
      if last.content != "" then before + [Token(last.content, Text(read))] else before
  }

  // ---- what is made of it ----

  /** The distinct IDs of the fragments, in order of first appearance. */
  function Order(fragments: seq<ToolCall>): (order: seq<string>)
    ensures forall id :: id in order <==> exists i :: 0 <= i < |fragments| && fragments[i].id == id
  {
    if fragments == [] then []
    else
      var n := |fragments| - 1;
      var before := Order(fragments[..n]);
      assert forall i :: 0 <= i < n ==> fragments[..n][i] == fragments[i];
      if fragments[n].id in before then before else before + [fragments[n].id]
  }

  /** The name on the first fragment with this ID. */
  function NameOf(fragments: seq<ToolCall>, id: string): string {
    if fragments == [] then ""
    else if fragments[0].id == id then fragments[0].name
    else NameOf(fragments[1..], id)
  }

  /** The argument text of all fragments with this ID, joined. */
  function ArgumentsOf(fragments: seq<ToolCall>, id: string): string {
    if fragments == [] then ""
    else
      var n := |fragments| - 1;
      ArgumentsOf(fragments[..n], id) + if fragments[n].id == id then fragments[n].arguments else ""
  }

  function CallOf(fragments: seq<ToolCall>, id: string): ToolCall {
    ToolCall(id, NameOf(fragments, id), ArgumentsOf(fragments, id))
  }

  /** One call per ID. */
  function CallsOf(fragments: seq<ToolCall>): (calls: seq<ToolCall>)
    ensures |calls| == |Order(fragments)|
  {
    var order := Order(fragments);
    seq(|order|, i requires 0 <= i < |order| => CallOf(fragments, order[i]))
  }

  function Assemble(chunks: seq<Chunk>): Assembled {
    var read := Consumed(chunks);
    if !Ended(read) && |read| < |chunks| then Assembled("", [], 0, 0, chunks[|read|].error)
    else if Ended(read) then
      Assembled(Text(read), CallsOf(Fragments(read)), read[|read| - 1].inputTokens, read[|read| - 1].outputTokens, None)
    else Assembled(Text(read), CallsOf(Fragments(read)), 0, 0, None)
  }

  /** None of the first `n` chunks ends the stream or reports an error. */
  ghost predicate OpenUpTo(chunks: seq<Chunk>, n: int)
    requires 0 <= n <= |chunks|
  {
    forall i :: 0 <= i < n ==> !chunks[i].done && chunks[i].error.None?
  }

  ghost predicate Open(chunks: seq<Chunk>) {
    OpenUpTo(chunks, |chunks|)
  }

  /** Chunk `i` is the first that is done, and there was no error up to it. */
  ghost predicate FirstDone(chunks: seq<Chunk>, i: int)
    requires 0 <= i < |chunks|
  {
    OpenUpTo(chunks, i) && chunks[i].done && chunks[i].error.None?
  }

  /** Chunk `i` is an error, and nothing before it ended the stream. */
  ghost predicate FirstError(chunks: seq<Chunk>, i: int)
    requires 0 <= i < |chunks|
  {
    OpenUpTo(chunks, i) && chunks[i].error.Some?
  }

  lemma {:induction false} ConsumedOpen(chunks: seq<Chunk>, i: nat)
    requires i <= |chunks| && OpenUpTo(chunks, i)
    ensures Consumed(chunks) == chunks[..i] + Consumed(chunks[i..])
  {
    hide Consumed;
    if i == 0 {
      assert chunks[0..] == chunks;
    } else {
      ConsumedOpen(chunks, i - 1);
      ConsumedStep(chunks[i - 1..]);
      assert chunks[i - 1..][1..] == chunks[i..] && chunks[..i] == chunks[..i - 1] + [chunks[i - 1]];
      Assoc(chunks[..i - 1], [chunks[i - 1]], Consumed(chunks[i..]));
    }
  }

  /** How a stream ends: with a first done chunk, with a first error, or not at all. */
  lemma StreamEnds(chunks: seq<Chunk>) returns (i: nat)
    ensures i <= |chunks| && OpenUpTo(chunks, i)
    ensures i < |chunks| ==> FirstDone(chunks, i) || FirstError(chunks, i)
    ensures forall j :: 0 <= j < |chunks| && (FirstDone(chunks, j) || FirstError(chunks, j)) ==> j == i
    ensures Open(chunks) <==> i == |chunks|
  {
    i := 0;
    while i < |chunks| && !chunks[i].done && chunks[i].error.None?
      invariant i <= |chunks| && OpenUpTo(chunks, i)
    {
      i := i + 1;
    }
  }

  /** What is assembled of a stream that ends at chunk `i`, or nowhere. */
  lemma AssembledAt(chunks: seq<Chunk>, i: nat)
    requires i <= |chunks| && OpenUpTo(chunks, i)
    ensures i == |chunks| ==>
              Consumed(chunks) == chunks
              && Assemble(chunks) == Assembled(Text(chunks), CallsOf(Fragments(chunks)), 0, 0, None)
    ensures i < |chunks| && chunks[i].error.Some? ==>
              Consumed(chunks) == chunks[..i] && Assemble(chunks) == Assembled("", [], 0, 0, chunks[i].error)
    ensures i < |chunks| && chunks[i].error.None? && chunks[i].done ==>
              var read := chunks[..i + 1];
              Consumed(chunks) == read
              && Assemble(chunks) == Assembled(Text(read), CallsOf(Fragments(read)),
                                               chunks[i].inputTokens, chunks[i].outputTokens, None)
  {
    hide Text, Fragments, CallsOf;
    ConsumedOpen(chunks, i);
    if i == |chunks| {
      assert Consumed(chunks) == chunks;
    } else if chunks[i].error.Some? {
      assert Consumed(chunks) == chunks[..i];
    } else if chunks[i].done {
      assert Consumed(chunks) == chunks[..i + 1];
    }
  }

  /** Usage and error as the chunks give them: the usage of the first done chunk, or none; an
      error exactly if one comes before any done chunk, and then nothing else. */
  ghost predicate ReadOff(chunks: seq<Chunk>, a: Assembled) {
    && (forall i :: 0 <= i < |chunks| && FirstDone(chunks, i) ==>
          a.error.None? && a.inputTokens == chunks[i].inputTokens && a.outputTokens == chunks[i].outputTokens)
    && (Open(chunks) ==> a.error.None? && a.inputTokens == 0 && a.outputTokens == 0)
    && (forall i :: 0 <= i < |chunks| && FirstError(chunks, i) ==> a == Assembled("", [], 0, 0, chunks[i].error))
    && (a.error.Some? <==> exists i :: 0 <= i < |chunks| && FirstError(chunks, i))
  }

  lemma UsageExact(chunks: seq<Chunk>)
    ensures ReadOff(chunks, Assemble(chunks))
  {
    var i := StreamEnds(chunks);
    AssembledAt(chunks, i);
    hide Assemble;
  }

  /** The text, law by law: nothing for no chunks, each chunk before the end adds its content,
      and what follows the end or an error adds nothing at all. */
  lemma {:induction false} TextLaws(chunks: seq<Chunk>, c: Chunk, more: seq<Chunk>)
    ensures Assemble([]).content == ""
    ensures Open(chunks) && c.error.None? ==>
              && Assemble(chunks + [c]).content == Assemble(chunks).content + c.content
              && Assemble(chunks + [c]).calls == CallsOf(Fragments(chunks) + c.fragments)
    ensures !Open(chunks) ==> Assemble(chunks + more) == Assemble(chunks)
  {
    AssembledAt([], 0);
    var i := StreamEnds(chunks);
    AssembledAt(chunks, i);
    if i == |chunks| {
      if c.error.None? {
        AssembleOneMore(chunks, c);
      }
    } else {
      AssembledAt(chunks + more, i);
      assert (chunks + more)[..i + 1] == chunks[..i + 1];
    }
  }

  lemma AssembleOneMore(chunks: seq<Chunk>, c: Chunk)
    requires Open(chunks) && c.error.None?
    ensures Assemble(chunks + [c]).content == Text(chunks) + c.content
    ensures Assemble(chunks + [c]).calls == CallsOf(Fragments(chunks) + c.fragments)
  {
    var all := chunks + [c];
    AssembledAt(all, if c.done then |chunks| else |all|);
    assert all[..|chunks| + 1] == all;
    Extend(all, |chunks|);
    assert all[..|chunks|] == chunks;
  }

  /** The callbacks: each brings the content of a chunk that has some, after all before it, and
      the last has the whole text. */
  lemma {:induction false} TokensRun(read: seq<Chunk>)
    ensures Runs(Tokens(read), Text(read))
  {
    if read != [] {
      var n := |read| - 1;
      TokensRun(read[..n]);
      OneTokenMore(Tokens(read[..n]), Text(read[..n]), read[n].content);
      hide Runs;
    }
  }

  /** The callbacks lead up to the text, one stretch after the other. */
  ghost predicate Runs(ts: seq<Token>, text: string) {
    (forall i :: 0 <= i < |ts| ==> RunsOn(ts, i)) && text == Before(ts, |ts|)
  }

  ghost predicate RunsOn(ts: seq<Token>, i: nat)
    requires i < |ts|
  {
    ts[i].token != "" && ts[i].accumulated == Before(ts, i) + ts[i].token
  }

  /** All text before callback `i`. */
  function Before(ts: seq<Token>, i: nat): string
    requires i <= |ts|
  {
    if i == 0 then "" else ts[i - 1].accumulated
  }

  lemma OneTokenMore(ts: seq<Token>, text: string, more: string)
    requires Runs(ts, text)
    ensures more == "" ==> Runs(ts, text + more)
    ensures more != "" ==> Runs(ts + [Token(more, text + more)], text + more)
  {
    assert text + "" == text;
    if more != "" {
      var all := ts + [Token(more, text + more)];
      forall i | 0 <= i < |all| ensures RunsOn(all, i) {
        assert i < |ts| ==> RunsOn(ts, i);
      }
    }
  }

  // ---- the loop ----

  datatype Builder = Builder(name: string, arguments: string)

  ghost predicate Builds(builders: map<string, Builder>, order: seq<string>, fragments: seq<ToolCall>) {
    && order == Order(fragments)
    && (forall id :: id in builders <==> id in order)
    && (forall id :: id in builders ==> builders[id] == Builder(NameOf(fragments, id), ArgumentsOf(fragments, id)))
  }

  method CollectToolCalls(chunks: seq<Chunk>) returns (a: Assembled, tokens: seq<Token>)
    ensures a == Assemble(chunks)
    ensures tokens == Tokens(Consumed(chunks))
    ensures ReadOff(chunks, a)
  {
    hide ReadOff, Assemble, Consumed, CallsOf, Builds, Text, Tokens, Fragments;
    UsageExact(chunks);
    NothingRead();
    var content := "";
    tokens := [];
    var builders: map<string, Builder> := map[];
    var order: seq<string> := [];
    var inputTokens, outputTokens := 0, 0;
    var i := 0;
    var done := false;
    assert chunks[..0] == [];
    while i < |chunks| && !done
      invariant 0 <= i <= |chunks| && (done ==> i > 0) && OpenUpTo(chunks, if done then i - 1 else i)
      invariant content == Text(chunks[..i]) && tokens == Tokens(chunks[..i])
      invariant Builds(builders, order, Fragments(chunks[..i]))
      invariant done ==> chunks[i - 1].done && chunks[i - 1].error.None?
      invariant done ==> inputTokens == chunks[i - 1].inputTokens && outputTokens == chunks[i - 1].outputTokens
      invariant !done ==> inputTokens == 0 && outputTokens == 0
    {
      var chunk := chunks[i];
      if chunk.error.Some? {
        AssembledAt(chunks, i);
        return Assembled("", [], 0, 0, chunk.error), tokens;
      }
      content, tokens := AddText(chunks, i, content, tokens);
      builders, order := AddFragments(builders, order, Fragments(chunks[..i]), chunk.fragments);
      Extend(chunks, i);
      if chunk.done {
        inputTokens, outputTokens := chunk.inputTokens, chunk.outputTokens;
        done := true;
      }
      i := i + 1;
    }
    AssembledAt(chunks, if done then i - 1 else i);
    assert i == |chunks| ==> chunks[..i] == chunks;
    var calls := FinishCalls(builders, order, Fragments(chunks[..i]));
    a := Assembled(content, calls, inputTokens, outputTokens, None);
  }

  lemma Extend(chunks: seq<Chunk>, i: nat)
    requires i < |chunks|
    ensures Text(chunks[..i + 1]) == Text(chunks[..i]) + chunks[i].content
    ensures Fragments(chunks[..i + 1]) == Fragments(chunks[..i]) + chunks[i].fragments
    ensures Tokens(chunks[..i + 1]) == if chunks[i].content == "" then Tokens(chunks[..i])
                                       else Tokens(chunks[..i]) + [Token(chunks[i].content, Text(chunks[..i + 1]))]
    ensures Ended(chunks[..i + 1]) <==> chunks[i].done
  {
    assert chunks[..i + 1][..i] == chunks[..i];
  }

  lemma NothingRead()
    ensures Text([]) == "" && Tokens([]) == [] && Fragments([]) == [] && Builds(map[], [], [])
  {
  }

  method AddText(chunks: seq<Chunk>, i: nat, content: string, tokens: seq<Token>)
    returns (content': string, tokens': seq<Token>)
    requires i < |chunks| && content == Text(chunks[..i]) && tokens == Tokens(chunks[..i])
    ensures content' == Text(chunks[..i + 1]) && tokens' == Tokens(chunks[..i + 1])
  {
    Extend(chunks, i);
    content', tokens' := content, tokens;
    if chunks[i].content != "" {
      content' := content + chunks[i].content;
      tokens' := tokens + [Token(chunks[i].content, content')];
    }
  }

  lemma ConsumedStep(chunks: seq<Chunk>)
    requires chunks != [] && chunks[0].error.None?
    ensures Consumed(chunks) == if chunks[0].done then [chunks[0]] else [chunks[0]] + Consumed(chunks[1..])
  {
  }

  method AddFragments(builders: map<string, Builder>, order: seq<string>, ghost before: seq<ToolCall>,
                      fragments: seq<ToolCall>)
    returns (builders': map<string, Builder>, order': seq<string>)
    requires Builds(builders, order, before)
    ensures Builds(builders', order', before + fragments)
  {
    hide Builds;
    builders', order' := builders, order;
    Appended(before, fragments, 0);
    for i := 0 to |fragments|
      invariant Builds(builders', order', before + fragments[..i])
    {
      builders', order' := AddFragment(builders', order', before + fragments[..i], fragments[i]);
      Appended(before, fragments, i);
    }
    Appended(before, fragments, |fragments|);
  }

  lemma Appended(before: seq<ToolCall>, fragments: seq<ToolCall>, i: nat)
    requires i <= |fragments|
    ensures i == 0 ==> before + fragments[..0] == before
    ensures i < |fragments| ==> before + fragments[..i] + [fragments[i]] == before + fragments[..i + 1]
    ensures i == |fragments| ==> fragments[..i] == fragments
  {
  }

  method AddFragment(builders: map<string, Builder>, order: seq<string>, ghost before: seq<ToolCall>, f: ToolCall)
    returns (builders': map<string, Builder>, order': seq<string>)
    requires Builds(builders, order, before)
    ensures Builds(builders', order', before + [f])
  {
    BuildNext(builders, order, before, f);
    hide Builds;
    builders', order' := builders, order;
    if f.id !in builders' {
      builders' := builders'[f.id := Builder(f.name, "")];
      order' := order' + [f.id];
    }
    var b := builders'[f.id];
    builders' := builders'[f.id := b.(arguments := b.arguments + f.arguments)];
    assert f.id !in builders ==> builders' == builders[f.id := Builder(f.name, "" + f.arguments)];
  }

  /** Name and arguments of every ID after one more fragment. */
  lemma {:induction false} FragmentAfter(before: seq<ToolCall>, f: ToolCall, id: string)
    ensures NameOf(before + [f], id) ==
            if id in Order(before) then NameOf(before, id) else if id == f.id then f.name else ""
    ensures ArgumentsOf(before + [f], id) == ArgumentsOf(before, id) + if id == f.id then f.arguments else ""
    ensures id !in Order(before) ==> ArgumentsOf(before, id) == ""
  {
    NameConcat(before, [f], id);
    assert (before + [f])[..|before|] == before;
    if id !in Order(before) {
      NoArguments(before, id);
    }
  }

  /** The builders after one more fragment. */
  lemma {:induction false} BuildNext(builders: map<string, Builder>, order: seq<string>, before: seq<ToolCall>,
                                     f: ToolCall)
    requires Builds(builders, order, before)
    ensures f.id in builders ==>
      Builds(builders[f.id := builders[f.id].(arguments := builders[f.id].arguments + f.arguments)], order,
             before + [f])
    ensures f.id !in builders ==>
      Builds(builders[f.id := Builder(f.name, "" + f.arguments)], order + [f.id], before + [f])
  {
    hide NameOf, ArgumentsOf, Order;
    OrderStep(before, f);
    forall id ensures NameOf(before + [f], id) ==
                if id in Order(before) then NameOf(before, id) else if id == f.id then f.name else ""
              ensures ArgumentsOf(before + [f], id) == ArgumentsOf(before, id) + if id == f.id then f.arguments else ""
              ensures id !in Order(before) ==> ArgumentsOf(before, id) == "" {
      FragmentAfter(before, f, id);
    }
  }

  lemma {:induction false} NoArguments(fragments: seq<ToolCall>, id: string)
    requires id !in Order(fragments)
    ensures ArgumentsOf(fragments, id) == ""
  {
    if fragments != [] {
      NoArguments(fragments[..|fragments| - 1], id);
    }
  }

  method FinishCalls(builders: map<string, Builder>, order: seq<string>, ghost fragments: seq<ToolCall>)
    returns (calls: seq<ToolCall>)
    requires Builds(builders, order, fragments)
    ensures calls == CallsOf(fragments)
  {
    calls := [];
    for i := 0 to |order|
      invariant |calls| == i && forall k :: 0 <= k < i ==> calls[k] == CallOf(fragments, order[k])
    {
      var b := builders[order[i]];
      calls := calls + [ToolCall(order[i], b.name, b.arguments)];
    }
  }

  // ---- its meaning ----

  /** The assembled calls have distinct IDs. */
  lemma {:induction false} OrderDistinct(fragments: seq<ToolCall>)
    ensures forall i, j :: 0 <= i < j < |Order(fragments)| ==> Order(fragments)[i] != Order(fragments)[j]
  {
    if fragments != [] {
      OrderDistinct(fragments[..|fragments| - 1]);
    }
  }

  /** More fragments never reorder or remove a call; a new ID comes last. */
  lemma {:induction false} OrderGrows(a: seq<ToolCall>, b: seq<ToolCall>)
    ensures Order(a) <= Order(a + b)
  {
    if b == [] {
      assert a + b == a;
    } else {
      var n := |b| - 1;
      OrderGrows(a, b[..n]);
      assert (a + b)[..|a| + n] == a + b[..n];
    }
  }

  lemma {:induction false} ArgumentsConcat(a: seq<ToolCall>, b: seq<ToolCall>, id: string)
    ensures ArgumentsOf(a + b, id) == ArgumentsOf(a, id) + ArgumentsOf(b, id)
  {
    if b == [] {
      assert a + b == a;
    } else {
      var n := |b| - 1;
      assert (a + b)[..|a| + n] == a + b[..n];
      ArgumentsConcat(a, b[..n], id);
    }
  }

  lemma {:induction false} OrderStep(a: seq<ToolCall>, f: ToolCall)
    ensures Order(a + [f]) == if f.id in Order(a) then Order(a) else Order(a) + [f.id]
  {
    assert (a + [f])[..|a|] == a;
  }

  lemma {:induction false} OrderDependsOnIDs(a: seq<ToolCall>, b: seq<ToolCall>, rest: seq<ToolCall>)
    requires Order(a) == Order(b)
    ensures Order(a + rest) == Order(b + rest)
  {
    if rest == [] {
      assert a + rest == a && b + rest == b;
    } else {
      var n := |rest| - 1;
      OrderDependsOnIDs(a, b, rest[..n]);
      assert rest == rest[..n] + [rest[n]];
      Assoc(a, rest[..n], [rest[n]]);
      Assoc(b, rest[..n], [rest[n]]);
      OrderStep(a + rest[..n], rest[n]);
      OrderStep(b + rest[..n], rest[n]);
    }
  }

  lemma OrderTail(a: seq<ToolCall>, id: string)
    requires a != []
    ensures id in Order(a) <==> a[0].id == id || id in Order(a[1..])
  {
    if id in Order(a) {
      var i :| 0 <= i < |a| && a[i].id == id;
      assert i > 0 ==> a[1..][i - 1].id == id;
    }
    if id in Order(a[1..]) {
      var i :| 0 <= i < |a[1..]| && a[1..][i].id == id;
      assert a[i + 1].id == id;
    }
  }

  lemma {:induction false} NameConcat(a: seq<ToolCall>, b: seq<ToolCall>, id: string)
    ensures NameOf(a + b, id) == if id in Order(a) then NameOf(a, id) else NameOf(b, id)
  {
    if a == [] {
      assert a + b == b;
    } else {
      assert (a + b)[1..] == a[1..] + b;
      NameConcat(a[1..], b, id);
      OrderTail(a, id);
    }
  }

  lemma {:induction false} SplitOne(before: seq<ToolCall>, f: ToolCall, head: string, tail: string, name: string,
                                    id: string)
    requires f.arguments == head + tail
    ensures var one := before + [f];
            var two := before + [ToolCall(f.id, f.name, head)] + [ToolCall(f.id, name, tail)];
            && Order(one) == Order(two) && ArgumentsOf(one, id) == ArgumentsOf(two, id)
            && (id in Order(one) ==> NameOf(one, id) == NameOf(two, id))
  {
    var p, q := ToolCall(f.id, f.name, head), ToolCall(f.id, name, tail);
    OrderStep(before, f);
    OrderStep(before, p);
    OrderStep(before + [p], q);
    FragmentAfter(before, f, id);
    FragmentAfter(before, p, id);
    FragmentAfter(before + [p], q, id);
    Assoc(ArgumentsOf(before, id), head, tail);
  }

  /** How the provider cuts a call's arguments into fragments does not matter: splitting one
      fragment into two consecutive pieces with its ID leaves every assembled call the same,
      whatever name the second piece carries. */
  lemma {:induction false} SplitInvariant(before: seq<ToolCall>, f: ToolCall, head: string, tail: string,
                                          name: string, after: seq<ToolCall>)
    requires f.arguments == head + tail
    ensures CallsOf(before + [f] + after) ==
            CallsOf(before + [ToolCall(f.id, f.name, head)] + [ToolCall(f.id, name, tail)] + after)
  {
    var one := before + [f];
    var two := before + [ToolCall(f.id, f.name, head)] + [ToolCall(f.id, name, tail)];
    SplitOne(before, f, head, tail, name, f.id);
    OrderDependsOnIDs(one, two, after);
    forall id ensures CallOf(one + after, id) == CallOf(two + after, id) {
      SplitOne(before, f, head, tail, name, id);
      ArgumentsConcat(one, after, id);
      ArgumentsConcat(two, after, id);
      NameConcat(one, after, id);
      NameConcat(two, after, id);
    }
  }
}

/** Reassembling a streamed chat completion: content deltas and tool calls built by index. */
module StreamAssembly {
  import opened Options
  import opened Sorting

  /** An attribute of a streamed object: not there at all, `None`, or text. */
  datatype Attr = Missing | Null | Text(value: string)

  datatype Function = Function(name: Attr, arguments: Attr)

  /** One entry of `delta.tool_calls`. */
  datatype Fragment = Fragment(index: Option<int>, id: Attr, kind: Attr, function': Option<Function>)

  /** A tool call being built; the id and the type may be `None`. */
  datatype Call = Call(id: Option<string>, kind: Option<string>, name: string, arguments: string)

  datatype Choice = Choice(content: Option<string>, fragments: seq<Fragment>, finish: Option<string>)

  /** A chunk, with the first of its choices if it has any. */
  datatype Chunk = Chunk(id: string, model: string, choice: Option<Choice>)

  datatype Response = Response(id: string, model: string, content: Option<string>, finish: Option<string>,
      calls: seq<Call>)

  // ---- what the stream means: every index on its own ----

  function IndexOf(f: Fragment): int { if f.index.Some? then f.index.value else 0 }

  /** The fragments of one index, in order. */
  function Of(fs: seq<Fragment>, i: int): seq<Fragment> {
    if fs == [] then []
    else Of(fs[..|fs| - 1], i) + if IndexOf(fs[|fs| - 1]) == i then [fs[|fs| - 1]] else []
  }

  lemma {:induction false} OfNonEmpty(fs: seq<Fragment>, i: int)
    ensures Of(fs, i) != [] <==> exists f :: f in fs && IndexOf(f) == i
  {
    if fs != [] {
      OfNonEmpty(fs[..|fs| - 1], i);
      assert forall f :: f in fs <==> f in fs[..|fs| - 1] || f == fs[|fs| - 1];
    }
  }

  function Filled(a: Attr): bool { a.Text? && a.value != "" }

  function NameOf(f: Fragment): Attr { if f.function'.Some? then f.function'.value.name else Null }

  /** The characters a fragment adds to the arguments. */
  function ArgumentsOf(f: Fragment): string {
    if f.function'.Some? && f.function'.value.arguments.Text? then f.function'.value.arguments.value else ""
  }

  function Joined(texts: seq<string>): string {
    if texts == [] then "" else Joined(texts[..|texts| - 1]) + texts[|texts| - 1]
  }

  function ArgumentTexts(p: seq<Fragment>): (r: seq<string>) {
    seq(|p|, j requires 0 <= j < |p| => ArgumentsOf(p[j]))
  }

  /** The last non-empty of some attributes, or what the first fragment started with. */
  function LastFilled(attrs: seq<Attr>, start: Option<string>): Option<string> {
    if attrs == [] then start
    else if Filled(attrs[|attrs| - 1]) then Some(attrs[|attrs| - 1].value)
    else LastFilled(attrs[..|attrs| - 1], start)
  }

  function Start(a: Attr, default: string): Option<string> {
    match a case Missing => Some(default) case Null => None case Text(t) => Some(t)
  }

  function Ids(p: seq<Fragment>): seq<Attr> { seq(|p|, j requires 0 <= j < |p| => p[j].id) }

  function Kinds(p: seq<Fragment>): seq<Attr> { seq(|p|, j requires 0 <= j < |p| => p[j].kind) }

  function Names(p: seq<Fragment>): seq<Attr> { seq(|p|, j requires 0 <= j < |p| => NameOf(p[j])) }

  /** The tool call that the fragments of one index spell. */
  function CallOf(p: seq<Fragment>): Call
    requires p != []
  {
    var name := LastFilled(Names(p), Some(""));
    Call(LastFilled(Ids(p), Start(p[0].id, "")), LastFilled(Kinds(p), Start(p[0].kind, "function")),
         if name.Some? then name.value else "", Joined(ArgumentTexts(p)))
  }

  /** The indices in the order they first appear: the keys of the dictionary. */
  function FirstSeen(fs: seq<Fragment>): seq<int> {
    if fs == [] then []
    else
      var seen, i := FirstSeen(fs[..|fs| - 1]), IndexOf(fs[|fs| - 1]);
      if i in seen then seen else seen + [i]
  }

  const BY_INDEX := (a: int, b: int) => a <= b

  function Indices(fs: seq<Fragment>): seq<int> { SortBy(FirstSeen(fs), BY_INDEX) }

  ghost predicate Ascending(xs: seq<int>) { forall i, j :: 0 <= i < j < |xs| ==> xs[i] < xs[j] }

  lemma {:induction false} FirstSeenIs(fs: seq<Fragment>)
    ensures forall i :: i in FirstSeen(fs) <==> Of(fs, i) != []
    ensures Distinct(FirstSeen(fs))
  {
    if fs != [] {
      FirstSeenIs(fs[..|fs| - 1]);
    }
  }

  lemma SortedSame(xs: seq<int>)
    ensures forall i :: i in SortBy(xs, BY_INDEX) <==> i in xs
  {
    var ys := SortBy(xs, BY_INDEX);
    forall i ensures i in ys <==> i in xs { SameElements(ys, xs, i); }
  }

  lemma IndexOrder()
    ensures TotalPreorder(BY_INDEX)
  {
  }

  lemma SortedDistinct(xs: seq<int>)
    requires Distinct(xs)
    ensures Ascending(SortBy(xs, BY_INDEX))
  {
    var ys := SortBy(xs, BY_INDEX);
    IndexOrder();
    SortByIsSorted(xs, BY_INDEX);
    DistinctPermuted(xs, ys);
    forall j, k | 0 <= j < k < |ys| ensures ys[j] < ys[k] {
      assert BY_INDEX(ys[j], ys[k]);
    }
  }

  /** The keys come out in strictly increasing order, and they are the indices that occur. */
  lemma IndicesAscend(fs: seq<Fragment>)
    ensures Ascending(Indices(fs))
    ensures forall i :: i in Indices(fs) <==> Of(fs, i) != []
  {
    FirstSeenIs(fs);
    SortedDistinct(FirstSeen(fs));
    SortedSame(FirstSeen(fs));
  }

  /** The final list of tool calls. */
  function Assembled(fs: seq<Fragment>): (r: seq<Call>)
  {
    IndicesAscend(fs);
    var keys := Indices(fs);
    seq(|keys|, k requires 0 <= k < |keys| => CallOf(Of(fs, keys[k])))
  }

  // ---- the dictionary the loop keeps ----

  /** Each call in the dictionary is what its fragments so far spell. */
  function Built(fs: seq<Fragment>): (r: map<int, Call>)
    ensures r.Keys == set i | i in FirstSeen(fs)
  {
    FirstSeenIs(fs);
    map i | i in FirstSeen(fs) :: CallOf(Of(fs, i))
  }

  ghost predicate Tracks(order: seq<int>, calls: map<int, Call>, fs: seq<Fragment>) {
    order == FirstSeen(fs) && calls == Built(fs)
  }

  function Fresh(f: Fragment): Call { Call(Start(f.id, ""), Start(f.kind, "function"), "", "") }

  /** The dictionary entry after one more fragment. */
  function Extended(c: Call, f: Fragment): Call {
    Call(if Filled(f.id) then Some(f.id.value) else c.id,
         if Filled(f.kind) then Some(f.kind.value) else c.kind,
         if Filled(NameOf(f)) then NameOf(f).value else c.name,
         c.arguments + ArgumentsOf(f))
  }

  lemma LastFilledMore(attrs: seq<Attr>, a: Attr, start: Option<string>)
    ensures LastFilled(attrs + [a], start) == if Filled(a) then Some(a.value) else LastFilled(attrs, start)
  {
    assert (attrs + [a])[..|attrs|] == attrs;
  }

  lemma CallOfMore(p: seq<Fragment>, f: Fragment)
    ensures CallOf(p + [f]) == Extended(if p == [] then Fresh(f) else CallOf(p), f)
  {
    var q := p + [f];
    var first := q[0];
    assert Ids(q) == Ids(p) + [f.id];
    assert Kinds(q) == Kinds(p) + [f.kind];
    assert Names(q) == Names(p) + [NameOf(f)];
    assert ArgumentTexts(q) == ArgumentTexts(p) + [ArgumentsOf(f)];
    LastFilledMore(Ids(p), f.id, Start(first.id, ""));
    LastFilledMore(Kinds(p), f.kind, Start(first.kind, "function"));
    LastFilledMore(Names(p), NameOf(f), Some(""));
    NameIsText(Names(p));
    JoinedMore(ArgumentTexts(p), ArgumentsOf(f));
    if p == [] {
      assert Ids(p) == [] && Kinds(p) == [] && Names(p) == [] && ArgumentTexts(p) == [];
    }
  }

  lemma JoinedMore(texts: seq<string>, t: string)
    ensures Joined(texts + [t]) == Joined(texts) + t
  {
    assert (texts + [t])[..|texts|] == texts;
  }

  lemma {:induction false} NameIsText(attrs: seq<Attr>)
    ensures LastFilled(attrs, Some("")).Some?
  {
    if attrs != [] { NameIsText(attrs[..|attrs| - 1]); }
  }

  lemma OfMore(fs: seq<Fragment>, f: Fragment, i: int)
    ensures Of(fs + [f], i) == Of(fs, i) + if IndexOf(f) == i then [f] else []
  {
    assert (fs + [f])[..|fs|] == fs;
  }

  /** The dictionary after one more fragment. */
  function Taken(calls: map<int, Call>, f: Fragment): map<int, Call> {
    calls[IndexOf(f) := Extended(if IndexOf(f) in calls then calls[IndexOf(f)] else Fresh(f), f)]
  }

  lemma FirstSeenMore(fs: seq<Fragment>, f: Fragment)
    ensures FirstSeen(fs + [f]) == if IndexOf(f) in Built(fs) then FirstSeen(fs) else FirstSeen(fs) + [IndexOf(f)]
  {
    assert (fs + [f])[..|fs|] == fs;
  }

  lemma BuiltAt(fs: seq<Fragment>, f: Fragment, i: int)
    requires i in Built(fs + [f])
    ensures i in Taken(Built(fs), f) && Taken(Built(fs), f)[i] == Built(fs + [f])[i]
  {
    FirstSeenMore(fs, f);
    OfMore(fs, f, i);
    if i == IndexOf(f) {
      FirstSeenIs(fs);
      CallOfMore(Of(fs, i), f);
    } else {
      assert Of(fs, i) + [] == Of(fs, i);
    }
  }

  lemma BuiltMore(fs: seq<Fragment>, f: Fragment)
    ensures Built(fs + [f]) == Taken(Built(fs), f)
  {
    var more, taken := Built(fs + [f]), Taken(Built(fs), f);
    FirstSeenMore(fs, f);
    assert more.Keys == taken.Keys;
    forall i | i in more ensures more[i] == taken[i] { BuiltAt(fs, f, i); }
    SameMap(more, taken);
  }

  lemma TracksMore(order: seq<int>, calls: map<int, Call>, fs: seq<Fragment>, f: Fragment)
    requires Tracks(order, calls, fs)
    ensures Tracks(if IndexOf(f) in calls then order else order + [IndexOf(f)], Taken(calls, f), fs + [f])
  {
    FirstSeenMore(fs, f);
    BuiltMore(fs, f);
  }

  lemma PrefixMore(before: seq<Fragment>, fs: seq<Fragment>, j: nat)
    requires j < |fs|
    ensures before + fs[..j + 1] == before + fs[..j] + [fs[j]]
  {
  }

  // ---- the loop ----

  function FragmentsOf(chunks: seq<Chunk>): seq<Fragment> {
    if chunks == [] then []
    else
      var last := chunks[|chunks| - 1];
      FragmentsOf(chunks[..|chunks| - 1]) + if last.choice.Some? then last.choice.value.fragments else []
  }

  function Yielded(chunk: Chunk): Response
    requires chunk.choice.Some?
  {
    Response(chunk.id, chunk.model, chunk.choice.value.content, chunk.choice.value.finish, [])
  }

  /** What is yielded while streaming: one response for each chunk with a choice, no tool calls. */
  function Yields(chunks: seq<Chunk>): seq<Response> {
    if chunks == [] then []
    else
      var last := chunks[|chunks| - 1];
      Yields(chunks[..|chunks| - 1])
      + if last.choice.Some? then [Yielded(last)] else []
  }

  function TextOf(content: Option<string>): string { if content.Some? then content.value else "" }

  /** The contents a consumer of the yielded responses would put together. */
  function Contents(rs: seq<Response>): string {
    if rs == [] then "" else Contents(rs[..|rs| - 1]) + TextOf(rs[|rs| - 1].content)
  }

  /** The last finish reason that is not empty. */
  function LastFinish(rs: seq<Response>): Option<string> {
    if rs == [] then None
    else if TextOf(rs[|rs| - 1].finish) != "" then rs[|rs| - 1].finish
    else LastFinish(rs[..|rs| - 1])
  }

  /** One tool-call delta: the dictionary entry it makes or changes. */
  method TakeFragment(order: seq<int>, calls: map<int, Call>, f: Fragment)
    returns (order': seq<int>, calls': map<int, Call>)
    ensures order' == if IndexOf(f) in calls then order else order + [IndexOf(f)]
    ensures calls' == Taken(calls, f)
  {
    order' := order;
    var idx := IndexOf(f);
    var call := Fresh(f);
    if idx in calls {
      call := calls[idx];
    } else {
      order' := order + [idx];
    }
    if Filled(f.id) {
      call := call.(id := Some(f.id.value));
    }
    if Filled(f.kind) {
      call := call.(kind := Some(f.kind.value));
    }
    if f.function'.Some? {
      if Filled(f.function'.value.name) {
        call := call.(name := f.function'.value.name.value);
      }
      if Filled(f.function'.value.arguments) {
        call := call.(arguments := call.arguments + f.function'.value.arguments.value);
      }
    }
    assert call.arguments + "" == call.arguments;
    calls' := calls[idx := call];
  }

  /** The inner loop of `_chat_completions_stream`, over one delta's tool calls. */
  method TakeFragments(order: seq<int>, calls: map<int, Call>, fragments: seq<Fragment>, ghost before: seq<Fragment>)
    returns (order': seq<int>, calls': map<int, Call>)
    requires Tracks(order, calls, before)
    ensures Tracks(order', calls', before + fragments)
  {
    order', calls' := order, calls;
    ghost var taken := before;
    for j := 0 to |fragments|
      invariant taken == before + fragments[..j]
      invariant Tracks(order', calls', taken)
    {
      TracksMore(order', calls', taken, fragments[j]);
      PrefixMore(before, fragments, j);
      order', calls' := TakeFragment(order', calls', fragments[j]);
      taken := taken + [fragments[j]];
    }
    assert taken == before + fragments;
  }

  lemma YieldedMore(rs: seq<Response>, r: Response)
    ensures Contents(rs + [r]) == Contents(rs) + TextOf(r.content)
    ensures LastFinish(rs + [r]) == if TextOf(r.finish) != "" then r.finish else LastFinish(rs)
  {
    assert (rs + [r])[..|rs|] == rs;
  }

  /** The contents of the chunks' choices, put together. */
  function Said(chunks: seq<Chunk>): string {
    if chunks == [] then ""
    else
      var choice := chunks[|chunks| - 1].choice;
      Said(chunks[..|chunks| - 1])
      + if choice.Some? && choice.value.content.Some? then choice.value.content.value else ""
  }

  ghost predicate Finishes(chunk: Chunk) {
    chunk.choice.Some? && chunk.choice.value.finish.Some? && chunk.choice.value.finish.value != ""
  }

  /** The finish reason of the last chunk that has one, if any has. */
  ghost predicate IsLastFinish(chunks: seq<Chunk>, finish: Option<string>) {
    match finish
    case None => forall n :: 0 <= n < |chunks| ==> !Finishes(chunks[n])
    case Some(_) =>
      exists n :: 0 <= n < |chunks| && Finishes(chunks[n]) && chunks[n].choice.value.finish == finish
                  && forall m :: n < m < |chunks| ==> !Finishes(chunks[m])
  }

  lemma {:induction false} YieldsSay(chunks: seq<Chunk>)
    ensures Contents(Yields(chunks)) == Said(chunks)
  {
    if chunks != [] {
      var last := chunks[|chunks| - 1];
      YieldsSay(chunks[..|chunks| - 1]);
      if last.choice.Some? { YieldedMore(Yields(chunks[..|chunks| - 1]), Yielded(last)); }
      assert Yields(chunks[..|chunks| - 1]) + [] == Yields(chunks[..|chunks| - 1]);
    }
  }

  lemma {:induction false} YieldsFinish(chunks: seq<Chunk>)
    ensures IsLastFinish(chunks, LastFinish(Yields(chunks)))
  {
    if chunks != [] {
      var before, last := chunks[..|chunks| - 1], chunks[|chunks| - 1];
      YieldsFinish(before);
      if last.choice.Some? { YieldedMore(Yields(before), Yielded(last)); }
      assert Yields(before) + [] == Yields(before);
      FinishMore(before, last, LastFinish(Yields(before)));
      assert before + [last] == chunks;
    }
  }

  lemma FinishMore(chunks: seq<Chunk>, chunk: Chunk, finish: Option<string>)
    requires IsLastFinish(chunks, finish)
    ensures IsLastFinish(chunks + [chunk], if Finishes(chunk) then chunk.choice.value.finish else finish)
  {
    var more := chunks + [chunk];
    assert more[|chunks|] == chunk;
    assert forall n :: 0 <= n < |chunks| ==> more[n] == chunks[n];
    if !Finishes(chunk) && finish.Some? {
      var n :| 0 <= n < |chunks| && Finishes(chunks[n]) && chunks[n].choice.value.finish == finish
               && forall m :: n < m < |chunks| ==> !Finishes(chunks[m]);
      assert Finishes(more[n]);
    }
  }

  /** The content and the finish reason after one choice more. */
  method TakeDelta(content: string, finish: Option<string>, choice: Choice)
    returns (content': string, finish': Option<string>)
    ensures content' == content + TextOf(choice.content)
    ensures finish' == if TextOf(choice.finish) != "" then choice.finish else finish
  {
    content', finish' := content, finish;
    if choice.content.Some? && choice.content.value != "" {
      content' := content + choice.content.value;
    }
    if choice.finish.Some? && choice.finish.value != "" {
      finish' := choice.finish;
    }
    assert content + "" == content;
  }

  /** What the loop over the chunks keeps. */
  datatype Progress = Progress(id: string, model: string, content: string, finish: Option<string>, order: seq<int>,
      calls: map<int, Call>)

  ghost predicate Read(chunks: seq<Chunk>, model: string, yielded: seq<Response>, p: Progress) {
    && Tracks(p.order, p.calls, FragmentsOf(chunks))
    && yielded == Yields(chunks) && p.content == Contents(yielded) && p.finish == LastFinish(yielded)
    && p.id == (if chunks == [] then "" else chunks[|chunks| - 1].id)
    && p.model == (if chunks == [] then model else chunks[|chunks| - 1].model)
  }

  /** One chunk more. */
  method ReadChunk(chunk: Chunk, p: Progress, yielded: seq<Response>, ghost chunks: seq<Chunk>, ghost model: string)
    returns (p': Progress, yielded': seq<Response>)
    requires Read(chunks, model, yielded, p)
    ensures Read(chunks + [chunk], model, yielded', p')
  {
    p', yielded' := p.(id := chunk.id, model := chunk.model), yielded;
    assert (chunks + [chunk])[..|chunks|] == chunks;
    assert FragmentsOf(chunks) + [] == FragmentsOf(chunks) && Yields(chunks) + [] == Yields(chunks);
    if chunk.choice.Some? {
      var choice := chunk.choice.value;
      var content, finish := TakeDelta(p.content, p.finish, choice);
      var order, calls := TakeFragments(p.order, p.calls, choice.fragments, FragmentsOf(chunks));
      var response := Response(chunk.id, chunk.model, choice.content, choice.finish, []);
      YieldedMore(yielded, response);
      yielded' := yielded + [response];
      p' := Progress(chunk.id, chunk.model, content, finish, order, calls);
    }
  }

  method ReadChunks(model: string, chunks: seq<Chunk>) returns (p: Progress, yielded: seq<Response>)
    ensures Read(chunks, model, yielded, p)
  {
    p, yielded := Progress("", model, "", None, [], map[]), [];
    ghost var done: seq<Chunk> := [];
    for n := 0 to |chunks|
      invariant done == chunks[..n] && Read(done, model, yielded, p)
    {
      p, yielded := ReadChunk(chunks[n], p, yielded, done, model);
      done := done + [chunks[n]];
    }
    assert done == chunks;
  }

  /** `_chat_completions_stream`: the responses it yields, and the one it ends with. */
  method ChatCompletionsStream(model: string, chunks: seq<Chunk>) returns (yielded: seq<Response>, final: Response)
    ensures yielded == Yields(chunks)
    ensures final.calls == Assembled(FragmentsOf(chunks))
    ensures final.content == Some(Contents(yielded)) == Some(Said(chunks))
    ensures final.finish == LastFinish(yielded) && IsLastFinish(chunks, final.finish)
    ensures chunks != [] ==> final.id == chunks[|chunks| - 1].id && final.model == chunks[|chunks| - 1].model
    ensures chunks == [] ==> final == Response("", model, Some(""), None, [])
  {
    var p: Progress;
    p, yielded := ReadChunks(model, chunks);
    var list := InOrder(p.order, p.calls, FragmentsOf(chunks));
    YieldsSay(chunks);
    YieldsFinish(chunks);
    final := Response(p.id, p.model, Some(p.content), p.finish, list);
  }

  /** The dictionary's values in the order of its sorted keys. */
  method InOrder(order: seq<int>, calls: map<int, Call>, ghost fs: seq<Fragment>) returns (list: seq<Call>)
    requires Tracks(order, calls, fs)
    ensures list == Assembled(fs)
  {
    IndicesAscend(fs);
    SortedSame(order);
    list := ValuesOf(calls, SortBy(order, BY_INDEX));
  }

  method ValuesOf(calls: map<int, Call>, keys: seq<int>) returns (list: seq<Call>)
    requires forall k :: k in keys ==> k in calls
    ensures |list| == |keys|
    ensures forall k :: 0 <= k < |keys| ==> keys[k] in calls && list[k] == calls[keys[k]]
  {
    list := [];
    for k := 0 to |keys|
      invariant |list| == k
      invariant forall j :: 0 <= j < k ==> keys[j] in calls && list[j] == calls[keys[j]]
    {
      var key := keys[k];
      assert key in keys;
      list := list + [calls[key]];
    }
  }

  // ---- how the fragments arrive does not matter ----

  lemma AscendingTail(xs: seq<int>)
    requires xs != [] && Ascending(xs)
    ensures Ascending(xs[1..])
    ensures forall i :: i in xs[1..] <==> i in xs && i != xs[0]
  {
    assert xs == [xs[0]] + xs[1..];
  }

  lemma {:induction false} AscendingUnique(xs: seq<int>, ys: seq<int>)
    requires Ascending(xs) && Ascending(ys)
    requires forall i :: i in xs <==> i in ys
    ensures xs == ys
  {
    assert |ys| > 0 ==> ys[0] in ys;
    if xs != [] {
      assert xs[0] in xs;
      assert xs[0] in ys;
      assert ys[0] in xs && xs[0] == ys[0];
      AscendingTail(xs);
      AscendingTail(ys);
      AscendingUnique(xs[1..], ys[1..]);
    }
  }

  /** Only the order within each index counts: two streams that give every index the same
      fragments in the same order give the same final list. */
  lemma InterleavingIsIrrelevant(fs: seq<Fragment>, gs: seq<Fragment>)
    requires forall i :: Of(fs, i) == Of(gs, i)
    ensures Assembled(fs) == Assembled(gs)
  {
    IndicesAscend(fs);
    IndicesAscend(gs);
    AscendingUnique(Indices(fs), Indices(gs));
  }

  lemma {:induction false} OfConcat(fs: seq<Fragment>, gs: seq<Fragment>, i: int)
    ensures Of(fs + gs, i) == Of(fs, i) + Of(gs, i)
  {
    if gs == [] {
      assert fs + gs == fs;
    } else {
      assert (fs + gs)[..|fs + gs| - 1] == fs + gs[..|gs| - 1];
      OfConcat(fs, gs[..|gs| - 1], i);
    }
  }

  lemma OfPair(f: Fragment, g: Fragment, i: int)
    requires IndexOf(f) != IndexOf(g)
    ensures Of([f, g], i) == Of([g, f], i)
  {
    assert [f, g] == [] + [f] + [g] && [g, f] == [] + [g] + [f];
    OfMore([] + [f], g, i);
    OfMore([] + [g], f, i);
    OfMore([], f, i);
    OfMore([], g, i);
  }

  /** Swapping neighbouring fragments of different indices changes nothing. */
  lemma SwapNeighbours(fs: seq<Fragment>, f: Fragment, g: Fragment, gs: seq<Fragment>)
    requires IndexOf(f) != IndexOf(g)
    ensures Assembled(fs + [f, g] + gs) == Assembled(fs + [g, f] + gs)
  {
    forall i ensures Of(fs + [f, g] + gs, i) == Of(fs + [g, f] + gs, i) {
      OfConcat(fs + [f, g], gs, i);
      OfConcat(fs + [g, f], gs, i);
      OfConcat(fs, [f, g], i);
      OfConcat(fs, [g, f], i);
      OfPair(f, g, i);
    }
    InterleavingIsIrrelevant(fs + [f, g] + gs, fs + [g, f] + gs);
  }

  // ---- a tool call survives being cut up ----

  /** Every non-empty occurrence of the attribute is `text`, and it occurs unless it is empty. */
  ghost predicate Says(attrs: seq<Attr>, text: string) {
    && (forall j :: 0 <= j < |attrs| && Filled(attrs[j]) ==> attrs[j].value == text)
    && (text != "" ==> exists j :: 0 <= j < |attrs| && Filled(attrs[j]))
  }

  /** `p` is a way of cutting up `c`: its id, type and name are each sent at least once and
      its arguments are split over the fragments. */
  ghost predicate Cuts(p: seq<Fragment>, c: Call) {
    && p != [] && c.id.Some? && c.kind.Some? && c.id.value != "" && c.kind.value != ""
    && Says(Ids(p), c.id.value) && Says(Kinds(p), c.kind.value) && Says(Names(p), c.name)
    && Joined(ArgumentTexts(p)) == c.arguments
  }

  lemma {:induction false} SaysIsLast(attrs: seq<Attr>, text: string, start: Option<string>)
    requires Says(attrs, text) && (text == "" ==> start == Some(""))
    ensures LastFilled(attrs, start) == Some(text)
  {
    assert attrs != [] && Filled(attrs[|attrs| - 1]) ==> attrs[|attrs| - 1].value == text;
    if attrs != [] && !Filled(attrs[|attrs| - 1]) {
      var rest := attrs[..|attrs| - 1];
      assert forall j :: 0 <= j < |rest| ==> rest[j] == attrs[j];
      if text != "" {
        var j :| 0 <= j < |attrs| && Filled(attrs[j]);
        assert Filled(rest[j]);
      }
      SaysIsLast(rest, text, start);
    }
  }

  lemma CutsSpell(p: seq<Fragment>, c: Call)
    requires Cuts(p, c)
    ensures CallOf(p) == c
  {
    SaysIsLast(Ids(p), c.id.value, Start(p[0].id, ""));
    SaysIsLast(Kinds(p), c.kind.value, Start(p[0].kind, "function"));
    SaysIsLast(Names(p), c.name, Some(""));
  }

  /** Fragments of every index below `n`, and of no other, give the keys `0..n`. */
  lemma AllIndices(fs: seq<Fragment>, n: nat)
    requires forall f :: f in fs ==> 0 <= IndexOf(f) < n
    requires forall i :: 0 <= i < n ==> Of(fs, i) != []
    ensures Indices(fs) == seq(n, i => i)
  {
    IndicesAscend(fs);
    var keys := seq(n, i => i);
    forall i ensures i in Indices(fs) <==> i in keys {
      OfNonEmpty(fs, i);
      if 0 <= i < n { assert keys[i] == i; }
    }
    AscendingUnique(Indices(fs), keys);
  }

  /** However the calls are cut up and interleaved, they come back whole and in index order. */
  lemma CallsSurvive(fs: seq<Fragment>, calls: seq<Call>)
    requires forall f :: f in fs ==> 0 <= IndexOf(f) < |calls|
    requires forall i :: 0 <= i < |calls| ==> Cuts(Of(fs, i), calls[i])
    ensures Assembled(fs) == calls
  {
    AllIndices(fs, |calls|);
    forall i | 0 <= i < |calls| ensures Assembled(fs)[i] == calls[i] {
      IndicesAscend(fs);
      CutsSpell(Of(fs, i), calls[i]);
    }
  }
}

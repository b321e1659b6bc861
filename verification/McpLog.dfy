/** The MCP calls that a run logs, and their figures by model. */
module McpLog {
  import opened Options
  import opened Sorting

  /** What calls used: tokens and dollars. */
  datatype Spent = Spent(input: int, output: int, total: int, cost: real)

  /** The `usage` of a record, with zero for figures that are not there. */
  datatype Reported = Reported(model: Option<string>, spent: Spent)

  /** A record of the log: its status in lower case, the model named at each place, and the
      figures at the top level with zero for those that are not there. */
  datatype Record = Record(status: string, model: Option<string>, modelName: Option<string>,
                           usage: Option<Reported>, configModel: Option<string>, spent: Spent)

  /** A line of `mcp_calls.jsonl`. Text that is no JSON is passed over; JSON that is no object, or
      has a token figure that `int` refuses, raises. */
  datatype Line = Good(record: Record) | Garbled | Unusable

  datatype Usage = Usage(calls: int, errors: int, input: int, output: int, total: int, cost: real)

  const NOTHING := Usage(0, 0, 0, 0, 0, 0.0)

  function Plus(a: Usage, b: Usage): Usage {
    Usage(a.calls + b.calls, a.errors + b.errors, a.input + b.input, a.output + b.output, a.total + b.total,
          a.cost + b.cost)
  }

  predicate Succeeded(r: Record) { r.status in ["ok", "success"] }

  /** `_extract_model`: the first place with a name that is not empty. */
  function ModelOf(r: Record): (model: string)
    ensures model != ""
  {
    if r.model.Some? && r.model.value != "" then r.model.value
    else if r.modelName.Some? && r.modelName.value != "" then r.modelName.value
    else if r.usage.Some? && r.usage.value.model.Some? && r.usage.value.model.value != "" then r.usage.value.model.value
    else if r.configModel.Some? && r.configModel.value != "" then r.configModel.value
    else "unknown"
  }

  /** A record's model, whether the call succeeded, and what it used by `usage` and the top
      level together. */
  datatype Call = Call(model: string, ok: bool, spent: Spent)

  function CallOf(r: Record): Call {
    var reported := if r.usage.Some? then r.usage.value.spent else Spent(0, 0, 0, 0.0);
    Call(ModelOf(r), Succeeded(r), Spent(reported.input + r.spent.input, reported.output + r.spent.output,
                                         reported.total + r.spent.total, reported.cost + r.spent.cost))
  }

  function UsageOf(c: Call): Usage {
    Usage(1, if c.ok then 0 else 1, c.spent.input, c.spent.output, c.spent.total, c.spent.cost)
  }

  function CallsOf(lines: seq<Line>): seq<Call> {
    if lines == [] then []
    else CallsOf(lines[..|lines| - 1]) + if lines[|lines| - 1].Good? then [CallOf(lines[|lines| - 1].record)] else []
  }

  // ---- what the figures mean ----

  type Test = Call -> bool

  const ALL: Test := (c: Call) => true

  function By(model: string): Test { (c: Call) => c.model == model }

  function ByAny(models: seq<string>): Test { (c: Call) => c.model in models }

  function Sum(log: seq<Call>, p: Test): Usage {
    if log == [] then NOTHING
    else
      var before, c := Sum(log[..|log| - 1], p), log[|log| - 1];
      if p(c) then Plus(before, UsageOf(c)) else before
  }

  function Models(log: seq<Call>): set<string> { set c | c in log :: c.model }

  function StatsOf(log: seq<Call>): map<string, Usage> { map m | m in Models(log) :: Sum(log, By(m)) }

  // ---- one call more ----

  function StatsAfter(stats: map<string, Usage>, c: Call): map<string, Usage> {
    stats[c.model := Plus(if c.model in stats then stats[c.model] else NOTHING, UsageOf(c))]
  }

  lemma SumMore(log: seq<Call>, c: Call, p: Test)
    ensures Sum(log + [c], p) == if p(c) then Plus(Sum(log, p), UsageOf(c)) else Sum(log, p)
  {
    assert (log + [c])[..|log|] == log;
  }

  lemma {:induction false} SumNone(log: seq<Call>, p: Test)
    requires forall c :: c in log ==> !p(c)
    ensures Sum(log, p) == NOTHING
  {
    if log != [] {
      assert log[|log| - 1] in log;
      SumNone(log[..|log| - 1], p);
    }
  }

  lemma StatsMoreAt(log: seq<Call>, c: Call, m: string)
    requires m in Models(log + [c])
    ensures m in StatsAfter(StatsOf(log), c) && Sum(log + [c], By(m)) == StatsAfter(StatsOf(log), c)[m]
  {
    ModelsMore(log, c);
    SumMore(log, c, By(m));
    if m !in Models(log) { SumNone(log, By(m)); }
  }

  lemma ModelsMore(log: seq<Call>, c: Call)
    ensures Models(log + [c]) == Models(log) + {c.model}
  {
    assert forall x :: x in log + [c] <==> x in log || x == c;
  }

  lemma StatsMore(log: seq<Call>, c: Call)
    ensures StatsOf(log + [c]) == StatsAfter(StatsOf(log), c)
  {
    ModelsMore(log, c);
    forall m | m in StatsOf(log + [c]) ensures StatsOf(log + [c])[m] == StatsAfter(StatsOf(log), c)[m] {
      StatsMoreAt(log, c, m);
    }
    SameMap(StatsOf(log + [c]), StatsAfter(StatsOf(log), c));
  }

  lemma CallsMore(lines: seq<Line>, n: nat)
    requires n < |lines|
    ensures CallsOf(lines[..n + 1])
         == if lines[n].Good? then CallsOf(lines[..n]) + [CallOf(lines[n].record)] else CallsOf(lines[..n])
    ensures Unusable in lines[..n + 1] <==> Unusable in lines[..n] || lines[n].Unusable?
    ensures Unusable in lines[..n + 1] ==> Unusable in lines
  {
    assert lines[..n + 1][..n] == lines[..n];
    assert lines[..n + 1] == lines[..n] + [lines[n]];
  }

  // ---- the models add up ----

  function SumOver(models: seq<string>, log: seq<Call>): Usage {
    if models == [] then NOTHING else Plus(SumOver(models[..|models| - 1], log), Sum(log, By(models[|models| - 1])))
  }

  lemma {:induction false} SumSplits(log: seq<Call>, p: Test, a: Test, b: Test)
    requires forall c :: (p(c) <==> a(c) || b(c)) && !(a(c) && b(c))
    ensures Sum(log, p) == Plus(Sum(log, a), Sum(log, b))
  {
    if log != [] { SumSplits(log[..|log| - 1], p, a, b); }
  }

  lemma {:induction false} SumWithin(log: seq<Call>, p: Test, q: Test)
    requires forall c :: c in log ==> p(c) == q(c)
    ensures Sum(log, p) == Sum(log, q)
  {
    if log != [] {
      assert log[|log| - 1] in log;
      SumWithin(log[..|log| - 1], p, q);
    }
  }

  lemma LastModelSplits(log: seq<Call>, models: seq<string>, m: string)
    requires Distinct(models + [m])
    ensures Sum(log, ByAny(models + [m])) == Plus(Sum(log, ByAny(models)), Sum(log, By(m)))
  {
    forall i | 0 <= i < |models| ensures models[i] != m {
      assert (models + [m])[i] == models[i] && (models + [m])[|models|] == m;
    }
    SumSplits(log, ByAny(models + [m]), ByAny(models), By(m));
  }

  lemma FrontDistinct(models: seq<string>, front: seq<string>, m: string)
    requires Distinct(models) && models != [] && front == models[..|models| - 1] && m == models[|models| - 1]
    ensures Distinct(front) && models == front + [m]
  {
    forall i, j | 0 <= i < j < |front| ensures front[i] != front[j] { assert models[i] != models[j]; }
  }

  lemma {:induction false} SumOverIs(models: seq<string>, log: seq<Call>)
    requires Distinct(models)
    ensures SumOver(models, log) == Sum(log, ByAny(models))
  {
    if models == [] {
      SumNone(log, ByAny(models));
    } else {
      var front, m := models[..|models| - 1], models[|models| - 1];
      FrontDistinct(models, front, m);
      SumOverIs(front, log);
      LastModelSplits(log, front, m);
    }
  }

  /** However the models are listed, their figures add up to those of the whole log. */
  lemma ModelsAddUp(models: seq<string>, log: seq<Call>)
    requires Distinct(models) && forall m :: m in models <==> m in Models(log)
    ensures SumOver(models, log) == Sum(log, ALL)
  {
    SumOverIs(models, log);
    SumWithin(log, ByAny(models), ALL);
  }

  /** The figures that `summarize` sums over the models, listed in some order. */
  method Totals(models: seq<string>, stats: map<string, Usage>, ghost log: seq<Call>) returns (all: Usage)
    requires Distinct(models) && (forall m :: m in models <==> m in Models(log)) && stats == StatsOf(log)
    ensures all == Sum(log, ALL)
  {
    all := NOTHING;
    for i := 0 to |models|
      invariant all == SumOver(models[..i], log)
    {
      assert models[i] in models;
      assert models[..i + 1][..i] == models[..i];
      all := Plus(all, stats[models[i]]);
    }
    assert models[..|models|] == models;
    ModelsAddUp(models, log);
  }

  // ---- the counts ----

  lemma {:induction false} SumCounts(log: seq<Call>)
    ensures Sum(log, ALL).calls == |log| && 0 <= Sum(log, ALL).errors <= |log|
  {
    if log != [] { SumCounts(log[..|log| - 1]); }
  }

  // ---- the order of the calls ----

  lemma PlusAssociates(a: Usage, b: Usage, c: Usage)
    ensures Plus(Plus(a, b), c) == Plus(a, Plus(b, c)) == Plus(Plus(a, c), b) && Plus(a, NOTHING) == a
  {
  }

  lemma AppendLast<T>(a: seq<T>, b: seq<T>)
    requires b != []
    ensures a + b == a + b[..|b| - 1] + [b[|b| - 1]]
  {
  }

  lemma {:induction false} SumConcat(a: seq<Call>, b: seq<Call>, p: Test)
    ensures Sum(a + b, p) == Plus(Sum(a, p), Sum(b, p))
  {
    PlusAssociates(Sum(a, p), NOTHING, NOTHING);
    if b == [] {
      assert a + b == a;
    } else {
      var front, c := b[..|b| - 1], b[|b| - 1];
      SumConcat(a, front, p);
      AppendLast(a, b);
      SumMore(a + front, c, p);
      PlusAssociates(Sum(a, p), Sum(front, p), UsageOf(c));
    }
  }

  lemma SumWithout(log: seq<Call>, k: nat, p: Test)
    requires k < |log|
    ensures var rest := Sum(Without(log, k), p);
            Sum(log, p) == if p(log[k]) then Plus(rest, UsageOf(log[k])) else rest
  {
    Parts(log, k);
    SumConcat(log[..k] + [log[k]], log[k + 1..], p);
    SumMore(log[..k], log[k], p);
    SumConcat(log[..k], log[k + 1..], p);
    PlusAssociates(Sum(log[..k], p), UsageOf(log[k]), Sum(log[k + 1..], p));
  }

  lemma {:induction false} SumPermuted(a: seq<Call>, b: seq<Call>, p: Test)
    requires multiset(a) == multiset(b)
    ensures Sum(a, p) == Sum(b, p)
  {
    if a == [] {
      assert |b| == |multiset(b)| == 0;
    } else {
      var k := LastTwin(a, b);
      SumPermuted(a[..|a| - 1], Without(b, k), p);
      SumWithout(b, k, p);
    }
  }

  lemma StatsPermuted(a: seq<Call>, b: seq<Call>)
    requires multiset(a) == multiset(b)
    ensures StatsOf(a) == StatsOf(b) && Models(a) == Models(b) && |a| == |b|
  {
    assert |multiset(a)| == |a| && |multiset(b)| == |b|;
    forall c ensures c in a <==> c in b { SameElements(a, b, c); }
    assert Models(a) == Models(b);
    forall m | m in Models(a) ensures StatsOf(a)[m] == StatsOf(b)[m] { SumPermuted(a, b, By(m)); }
    SameMap(StatsOf(a), StatsOf(b));
  }
}

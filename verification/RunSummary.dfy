/** Summarising flow runs: one pass over the end events of every run directory. */
module RunSummary {
  import opened Options
  import opened Sorting
  import opened PyText
  import McpLog

  datatype Category = Timeout | Tool | Validation | RateLimit | Unknown

  /** An `end` record with a step name. The status is in lower case and empty if it is no text;
      the tokens are the lower-case texts that describe an error; `extra` is folded in. */
  datatype End = End(step: string, status: string, latency: Option<real>, isMcp: bool, model: Option<string>,
      tokens: seq<string>)

  /** A line of `runs.jsonl`. Other records, and text that is no JSON, are passed over; JSON that
      is no object raises. */
  datatype Line = Ends(e: End) | Other | NotObject

  datatype StepMetrics = StepMetrics(runs: int, successes: int, failures: int, latency: real,
                                     mcpCalls: int, mcpErrors: int, models: set<string>, errors: map<Category, int>)

  predicate Succeeded(e: End) { e.status in ["ok", "success", "succeeded", "completed"] }

  predicate Contains(token: string, keyword: string) {
    StartsWith(token, keyword) || (token != "" && Contains(token[1..], keyword))
  }

  predicate Mentions(tokens: seq<string>, keywords: seq<string>) {
    exists t, k :: t in tokens && k in keywords && Contains(t, k)
  }

  /** `_classify_error`: the first class with a keyword in some token. */
  function Classify(e: End): Category {
    if Mentions(e.tokens, ["timeout", "deadline"]) then Timeout
    else if Mentions(e.tokens, ["tool", "tools"]) then Tool
    else if Mentions(e.tokens, ["validation", "schema", "invalid"]) then Validation
    else if Mentions(e.tokens, ["rate limit", "ratelimit", "throttle", "429"]) then RateLimit
    else Unknown
  }

  // ---- what the figures mean ----

  type Test = End -> bool

  function Count(es: seq<End>, p: Test): nat {
    if es == [] then 0 else Count(es[..|es| - 1], p) + if p(es[|es| - 1]) then 1 else 0
  }

  function LatencyOf(e: End): real { if e.latency.Some? then e.latency.value else 0.0 }

  function Latency(es: seq<End>, p: Test): real {
    if es == [] then 0.0 else Latency(es[..|es| - 1], p) + if p(es[|es| - 1]) then LatencyOf(es[|es| - 1]) else 0.0
  }

  function At(step: string, p: Test): Test { (e: End) => e.step == step && p(e) }

  const ALL: Test := (e: End) => true
  const GOOD: Test := (e: End) => Succeeded(e)
  const FAILED: Test := (e: End) => !Succeeded(e)
  const MCP: Test := (e: End) => e.isMcp
  const MCP_FAILED: Test := (e: End) => e.isMcp && e.status != "ok"
  const TIMED: Test := (e: End) => e.latency.Some?

  function Also(p: Test, c: Category): Test { (e: End) => p(e) && Classify(e) == c }

  const CATEGORIES := {Timeout, Tool, Validation, RateLimit, Unknown}

  lemma AllCategories(c: Category)
    ensures c in CATEGORIES
  {
    match c case Timeout => case Tool => case Validation => case RateLimit => case Unknown =>
  }

  predicate Named(e: End) { e.model.Some? && e.model.value != "" }

  function Steps(es: seq<End>): set<string> { set e | e in es :: e.step }

  /** How many of some failures fall in each category, where any do. */
  function Errors(es: seq<End>, p: Test): map<Category, int> {
    map c | c in CATEGORIES && Count(es, Also(p, c)) > 0 :: Count(es, Also(p, c))
  }

  /** The figures of one step, each counted over all events. */
  function MetricsAt(es: seq<End>, step: string): StepMetrics {
    StepMetrics(Count(es, At(step, ALL)), Count(es, At(step, GOOD)), Count(es, At(step, FAILED)),
                Latency(es, At(step, ALL)), Count(es, At(step, MCP)), Count(es, At(step, MCP_FAILED)),
                set e | e in es && e.step == step && Named(e) :: e.model.value, Errors(es, At(step, FAILED)))
  }

  function StatsOf(es: seq<End>): map<string, StepMetrics> {
    map s | s in Steps(es) :: MetricsAt(es, s)
  }

  function EndsOf(lines: seq<Line>): seq<End> {
    if lines == [] then []
    else EndsOf(lines[..|lines| - 1]) + if lines[|lines| - 1].Ends? then [lines[|lines| - 1].e] else []
  }

  // ---- one event more ----

  const NOTHING := StepMetrics(0, 0, 0, 0.0, 0, 0, {}, map[])

  function Bumped(errors: map<Category, int>, c: Category): map<Category, int> {
    errors[c := (if c in errors then errors[c] else 0) + 1]
  }

  lemma CountMore(es: seq<End>, e: End, p: Test)
    ensures Count(es + [e], p) == Count(es, p) + if p(e) then 1 else 0
    ensures Latency(es + [e], p) == Latency(es, p) + if p(e) then LatencyOf(e) else 0.0
  {
    assert (es + [e])[..|es|] == es;
  }

  lemma ErrorsMoreAt(es: seq<End>, e: End, p: Test, c: Category)
    ensures Count(es + [e], Also(p, c)) == Count(es, Also(p, c)) + if p(e) && Classify(e) == c then 1 else 0
  {
    CountMore(es, e, Also(p, c));
  }

  lemma ErrorsMore(es: seq<End>, e: End, p: Test)
    ensures Errors(es + [e], p) == if p(e) then Bumped(Errors(es, p), Classify(e)) else Errors(es, p)
  {
    forall c ensures Count(es + [e], Also(p, c)) == Count(es, Also(p, c)) + if p(e) && Classify(e) == c then 1 else 0 {
      ErrorsMoreAt(es, e, p, c);
    }
    ErrorsBumped(es, es + [e], p, p(e), Classify(e));
  }

  lemma ErrorsAt(es: seq<End>, p: Test, c: Category)
    ensures c in Errors(es, p) <==> Count(es, Also(p, c)) > 0
    ensures c in Errors(es, p) ==> Errors(es, p)[c] == Count(es, Also(p, c))
  {
    AllCategories(c);
  }

  lemma ErrorsBumped(es: seq<End>, more: seq<End>, p: Test, failed: bool, kind: Category)
    requires forall c :: Count(more, Also(p, c)) == Count(es, Also(p, c)) + if failed && kind == c then 1 else 0
    ensures Errors(more, p) == if failed then Bumped(Errors(es, p), kind) else Errors(es, p)
  {
    forall c
      ensures c in Errors(more, p) <==> c in Errors(es, p) || (failed && c == kind)
      ensures c in Errors(more, p) ==>
                Errors(more, p)[c] == (if c in Errors(es, p) then Errors(es, p)[c] else 0)
                                      + if failed && c == kind then 1 else 0
    {
      ErrorsAt(es, p, c);
      ErrorsAt(more, p, c);
    }
    BumpedIs(Errors(es, p), Errors(more, p), failed, kind);
  }

  lemma BumpedIs(errors: map<Category, int>, more: map<Category, int>, failed: bool, kind: Category)
    requires forall c :: c in more <==> c in errors || (failed && c == kind)
    requires forall c :: c in more ==>
               more[c] == (if c in errors then errors[c] else 0) + if failed && c == kind then 1 else 0
    ensures more == if failed then Bumped(errors, kind) else errors
  {
    SameMap(more, if failed then Bumped(errors, kind) else errors);
  }

  /** A step's figures after one of its events. */
  function Updated(m: StepMetrics, e: End): StepMetrics {
    StepMetrics(m.runs + 1, m.successes + if Succeeded(e) then 1 else 0, m.failures + if Succeeded(e) then 0 else 1,
                m.latency + LatencyOf(e), m.mcpCalls + if e.isMcp then 1 else 0,
                m.mcpErrors + if e.isMcp && e.status != "ok" then 1 else 0,
                m.models + if Named(e) then {e.model.value} else {},
                if Succeeded(e) then m.errors else Bumped(m.errors, Classify(e)))
  }

  lemma MetricsMore(es: seq<End>, e: End, step: string)
    ensures MetricsAt(es + [e], step) == if e.step == step then Updated(MetricsAt(es, step), e) else MetricsAt(es, step)
  {
    CountMore(es, e, At(step, ALL));
    CountMore(es, e, At(step, GOOD));
    CountMore(es, e, At(step, FAILED));
    CountMore(es, e, At(step, MCP));
    CountMore(es, e, At(step, MCP_FAILED));
    ErrorsMore(es, e, At(step, FAILED));
    ModelsMore(es, e, step);
  }

  lemma ModelsMore(es: seq<End>, e: End, step: string)
    ensures MetricsAt(es + [e], step).models
         == MetricsAt(es, step).models + if e.step == step && Named(e) then {e.model.value} else {}
  {
    assert forall x :: x in es + [e] <==> x in es || x == e;
  }

  lemma {:induction false} CountNone(es: seq<End>, p: Test)
    requires forall e :: e in es ==> !p(e)
    ensures Count(es, p) == 0 && Latency(es, p) == 0.0
  {
    if es != [] {
      assert es[|es| - 1] in es;
      CountNone(es[..|es| - 1], p);
    }
  }

  lemma MetricsNone(es: seq<End>, step: string)
    requires step !in Steps(es)
    ensures MetricsAt(es, step) == NOTHING
  {
    assert forall e :: e in es ==> e.step != step;
    CountNone(es, At(step, ALL));
    CountNone(es, At(step, GOOD));
    CountNone(es, At(step, FAILED));
    CountNone(es, At(step, MCP));
    CountNone(es, At(step, MCP_FAILED));
    forall c ensures Count(es, Also(At(step, FAILED), c)) == 0 { CountNone(es, Also(At(step, FAILED), c)); }
  }

  /** The dictionary after one more event. */
  function StatsAfter(stats: map<string, StepMetrics>, e: End): map<string, StepMetrics> {
    stats[e.step := Updated(if e.step in stats then stats[e.step] else NOTHING, e)]
  }

  lemma StatsMore(es: seq<End>, e: End)
    ensures StatsOf(es + [e]) == StatsAfter(StatsOf(es), e)
  {
    StepsMore(es, e);
    forall s | s in StatsOf(es + [e]) ensures StatsOf(es + [e])[s] == StatsAfter(StatsOf(es), e)[s] {
      StatsMoreAt(es, e, s);
    }
    SameMap(StatsOf(es + [e]), StatsAfter(StatsOf(es), e));
  }

  lemma StatsMoreAt(es: seq<End>, e: End, s: string)
    requires s in StatsOf(es + [e])
    ensures s in StatsAfter(StatsOf(es), e) && StatsOf(es + [e])[s] == StatsAfter(StatsOf(es), e)[s]
  {
    StepsMore(es, e);
    MetricsMore(es, e, s);
    if s !in Steps(es) { MetricsNone(es, s); }
  }

  lemma StepsMore(es: seq<End>, e: End)
    ensures Steps(es + [e]) == Steps(es) + {e.step}
  {
    assert forall x :: x in es + [e] <==> x in es || x == e;
  }

  method UpdateStep(m: StepMetrics, e: End) returns (r: StepMetrics)
    ensures r == Updated(m, e)
  {
    r := m.(runs := m.runs + 1);
    if e.latency.Some? {
      r := r.(latency := r.latency + e.latency.value);
    }
    if Named(e) {
      r := r.(models := r.models + {e.model.value});
    }
    if e.isMcp {
      r := r.(mcpCalls := r.mcpCalls + 1);
      if e.status != "ok" {
        r := r.(mcpErrors := r.mcpErrors + 1);
      }
    }
    if Succeeded(e) {
      r := r.(successes := r.successes + 1);
    } else {
      r := r.(failures := r.failures + 1, errors := Bumped(r.errors, Classify(e)));
    }
    assert m.models + {} == m.models;
  }

  /** What the accumulators hold. */
  datatype Metrics = Metrics(stepStats: map<string, StepMetrics>, errors: map<Category, int>, latency: real,
      completed: int)

  /** What they mean: figures over all events met so far. */
  function MetricsOf(es: seq<End>): Metrics {
    Metrics(StatsOf(es), Errors(es, FAILED), Latency(es, ALL), Count(es, TIMED))
  }

  function MetricsAfter(m: Metrics, e: End): Metrics {
    Metrics(StatsAfter(m.stepStats, e), if Succeeded(e) then m.errors else Bumped(m.errors, Classify(e)),
            m.latency + LatencyOf(e), m.completed + if e.latency.Some? then 1 else 0)
  }

  lemma MetricsOfMore(es: seq<End>, e: End)
    ensures MetricsOf(es + [e]) == MetricsAfter(MetricsOf(es), e)
  {
    StatsMore(es, e);
    ErrorsMore(es, e, FAILED);
    CountMore(es, e, ALL);
    CountMore(es, e, TIMED);
  }

  class RunMetrics {
    var succeeded: int
    var stepStats: map<string, StepMetrics>
    var errors: map<Category, int>
    var latency: real
    var completed: int
    var mcpCalls: int
    var mcpErrors: int
    var modelStats: map<string, McpLog.Usage>

    ghost predicate Reflects(es: seq<End>)
      reads this
    {
      Metrics(stepStats, errors, latency, completed) == MetricsOf(es)
    }

    ghost predicate Logged(log: seq<McpLog.Call>)
      reads this
    {
      mcpCalls == |log| && mcpErrors == LogErrors(log) && modelStats == McpLog.StatsOf(log)
    }

    /** The figures over some run directories. */
    ghost predicate Holds(kept: seq<RunDir>)
      reads this
    {
      Reflects(EventsOf(kept)) && Logged(LogOf(kept)) && succeeded == Successes(kept)
    }

    constructor ()
      ensures Holds([])
    {
      succeeded, stepStats, errors, latency, completed := 0, map[], map[], 0.0, 0;
      mcpCalls, mcpErrors, modelStats := 0, 0, map[];
      new;
      assert StatsOf([]) == map[] && Errors([], FAILED) == map[];
      assert McpLog.StatsOf([]) == map[];
    }

    method Take(e: End, ghost es: seq<End>)
      requires Reflects(es)
      modifies this`stepStats, this`errors, this`latency, this`completed
      ensures Reflects(es + [e])
    {
      MetricsOfMore(es, e);
      AddEvent(e);
    }

    /** One `end` record. */
    method AddEvent(e: End)
      modifies this`stepStats, this`errors, this`latency, this`completed
      ensures Metrics(stepStats, errors, latency, completed)
           == MetricsAfter(old(Metrics(stepStats, errors, latency, completed)), e)
    {
      var m := UpdateStep(if e.step in stepStats then stepStats[e.step] else NOTHING, e);
      if e.latency.Some? {
        latency := latency + e.latency.value;
        completed := completed + 1;
      }
      if !Succeeded(e) {
        errors := Bumped(errors, Classify(e));
      }
      stepStats := stepStats[e.step := m];
    }

    /** The first lines of a run are counted on top of earlier events. */
    ghost predicate Took(es: seq<End>, ends: seq<End>, failed: bool)
      reads this
    {
      Reflects(es + ends) && (failed <==> Count(ends, FAILED) > 0)
    }

    /** A line that is an end event, when `ends` came before it in its file. */
    method TakeEnd(e: End, failed: bool, ghost es: seq<End>, ghost ends: seq<End>) returns (failed': bool)
      requires Took(es, ends, failed)
      modifies this`stepStats, this`errors, this`latency, this`completed
      ensures Took(es, ends + [e], failed')
    {
      Take(e, es + ends);
      Associate(es, ends, e);
      CountMore(ends, e, FAILED);
      failed' := failed || !Succeeded(e);
    }

    /** `_accumulate_metrics`: adds one run's events and says whether any failed, or raises. */
    method AccumulateMetrics(lines: seq<Line>, ghost es: seq<End>) returns (failed: Option<bool>)
      requires Reflects(es)
      modifies this`stepStats, this`errors, this`latency, this`completed
      ensures failed.None? <==> NotObject in lines
      ensures failed.Some? ==> Reflects(es + EndsOf(lines)) && (failed.value <==> Count(EndsOf(lines), FAILED) > 0)
    {
      var runFailed := false;
      ghost var ends: seq<End> := [];
      assert es + ends == es;
      for n := 0 to |lines|
        invariant ends == EndsOf(lines[..n]) && Took(es, ends, runFailed)
        invariant NotObject !in lines[..n]
      {
        EndsMore(lines, n);
        if lines[n].NotObject? {
          return None;
        }
        if lines[n].Ends? {
          runFailed := TakeEnd(lines[n].e, runFailed, es, ends);
          ends := ends + [lines[n].e];
        }
      }
      assert lines[..|lines|] == lines;
      failed := Some(runFailed);
    }

    /** A record of the MCP log. */
    method RecordCall(r: McpLog.Record, ghost log: seq<McpLog.Call>)
      requires Logged(log)
      modifies this`mcpCalls, this`mcpErrors, this`modelStats
      ensures Logged(log + [McpLog.CallOf(r)])
    {
      ghost var c := McpLog.CallOf(r);
      McpLog.SumMore(log, c, McpLog.ALL);
      McpLog.StatsMore(log, c);
      mcpCalls := mcpCalls + 1;
      if !McpLog.Succeeded(r) {
        mcpErrors := mcpErrors + 1;
      }
      modelStats := McpLog.StatsAfter(modelStats, McpLog.CallOf(r));
    }

    /** `_aggregate_mcp_logs`: adds one run's calls, or raises. */
    method AggregateMcpLogs(lines: seq<McpLog.Line>, ghost log: seq<McpLog.Call>) returns (ok: bool)
      requires Logged(log)
      modifies this`mcpCalls, this`mcpErrors, this`modelStats
      ensures !ok <==> McpLog.Unusable in lines
      ensures ok ==> Logged(log + McpLog.CallsOf(lines))
    {
      ghost var calls: seq<McpLog.Call> := [];
      assert log + calls == log;
      for n := 0 to |lines|
        invariant calls == McpLog.CallsOf(lines[..n]) && Logged(log + calls)
        invariant McpLog.Unusable !in lines[..n]
      {
        McpLog.CallsMore(lines, n);
        if lines[n].Unusable? {
          return false;
        }
        if lines[n].Good? {
          RecordCall(lines[n].record, log + calls);
          Associate(log, calls, McpLog.CallOf(lines[n].record));
          calls := calls + [McpLog.CallOf(lines[n].record)];
        }
      }
      assert lines[..|lines|] == lines;
      ok := true;
    }

    /** One run directory that has a summary, or an exception. */
    method TakeRun(d: RunDir, ghost kept: seq<RunDir>) returns (ok: bool)
      requires d.summary.Some? && Holds(kept)
      modifies this
      ensures !ok <==> Raises(d)
      ensures ok ==> Holds(kept + [d])
    {
      KeptMore(kept, d);
      var failed := AccumulateMetrics(d.lines, EventsOf(kept));
      if failed.None? {
        return false;
      }
      if d.summary.value || !failed.value {
        succeeded := succeeded + 1;
      }
      ok := AggregateMcpLogs(d.mcp, LogOf(kept));
    }
  }

  lemma Associate<T>(es: seq<T>, seen: seq<T>, e: T)
    ensures es + seen + [e] == es + (seen + [e])
  {
  }

  lemma EndsMore(lines: seq<Line>, n: nat)
    requires n < |lines|
    ensures EndsOf(lines[..n + 1]) == if lines[n].Ends? then EndsOf(lines[..n]) + [lines[n].e] else EndsOf(lines[..n])
    ensures NotObject in lines[..n + 1] <==> NotObject in lines[..n] || lines[n].NotObject?
    ensures NotObject in lines[..n + 1] ==> NotObject in lines
  {
    assert lines[..n + 1][..n] == lines[..n];
    assert lines[..n + 1] == lines[..n] + [lines[n]];
  }

  // ---- what every summary satisfies ----

  function ErrorCount(errors: map<Category, int>, c: Category): int { if c in errors then errors[c] else 0 }

  function ErrorSum(errors: map<Category, int>): int {
    ErrorCount(errors, Timeout) + ErrorCount(errors, Tool) + ErrorCount(errors, Validation)
    + ErrorCount(errors, RateLimit) + ErrorCount(errors, Unknown)
  }

  lemma {:induction false} CountSplits(es: seq<End>, p: Test, a: Test, b: Test)
    requires forall e :: (p(e) <==> a(e) || b(e)) && !(a(e) && b(e))
    ensures Count(es, p) == Count(es, a) + Count(es, b)
  {
    if es != [] { CountSplits(es[..|es| - 1], p, a, b); }
  }

  lemma {:induction false} FailuresFallInCategories(es: seq<End>, p: Test)
    requires forall e :: p(e) ==> !Succeeded(e)
    ensures Count(es, p) == Count(es, Also(p, Timeout)) + Count(es, Also(p, Tool)) + Count(es, Also(p, Validation))
                          + Count(es, Also(p, RateLimit)) + Count(es, Also(p, Unknown))
  {
    if es != [] { FailuresFallInCategories(es[..|es| - 1], p); }
  }

  lemma ErrorSumIs(es: seq<End>, p: Test)
    requires forall e :: p(e) ==> !Succeeded(e)
    ensures Count(es, p) == ErrorSum(Errors(es, p))
    ensures forall c :: ErrorCount(Errors(es, p), c) == Count(es, Also(p, c))
  {
    FailuresFallInCategories(es, p);
    forall c ensures ErrorCount(Errors(es, p), c) == Count(es, Also(p, c)) { AllCategories(c); }
  }

  /** Runs are successes plus failures, and failures are the sum over the error categories. */
  lemma StepAddsUp(es: seq<End>, step: string)
    ensures var m := MetricsAt(es, step);
            && m.runs == m.successes + m.failures && m.failures == ErrorSum(m.errors)
            && 0 <= m.mcpErrors <= m.mcpCalls <= m.runs
  {
    CountSplits(es, At(step, ALL), At(step, GOOD), At(step, FAILED));
    ErrorSumIs(es, At(step, FAILED));
    CountFewer(es, At(step, MCP_FAILED), At(step, MCP));
    CountFewer(es, At(step, MCP), At(step, ALL));
  }

  lemma {:induction false} CountFewer(es: seq<End>, p: Test, q: Test)
    requires forall e :: p(e) ==> q(e)
    ensures Count(es, p) <= Count(es, q)
  {
    if es != [] { CountFewer(es[..|es| - 1], p, q); }
  }

  function AtAny(steps: seq<string>, p: Test): Test { (e: End) => e.step in steps && p(e) }

  function SumOver(steps: seq<string>, figure: string -> int): int {
    if steps == [] then 0 else figure(steps[0]) + SumOver(steps[1..], figure)
  }

  lemma {:induction false} StepsAddUp(es: seq<End>, steps: seq<string>, p: Test)
    requires Distinct(steps)
    ensures SumOver(steps, s => Count(es, At(s, p))) == Count(es, AtAny(steps, p))
  {
    if steps == [] {
      CountNone(es, AtAny(steps, p));
    } else {
      StepsAddUp(es, steps[1..], p);
      FirstStepSplits(es, steps, steps[0], steps[1..], p);
    }
  }

  lemma FirstStepSplits(es: seq<End>, steps: seq<string>, s: string, more: seq<string>, p: Test)
    requires Distinct(steps) && steps == [s] + more
    ensures Count(es, AtAny(steps, p)) == Count(es, At(s, p)) + Count(es, AtAny(more, p))
  {
    assert steps[0] == s;
    forall i | 0 <= i < |more| ensures more[i] != s { assert more[i] == steps[i + 1]; }
    CountSplits(es, AtAny(steps, p), At(s, p), AtAny(more, p));
  }

  lemma {:induction false} CountWithin(es: seq<End>, p: Test, q: Test)
    requires forall e :: e in es ==> p(e) == q(e)
    ensures Count(es, p) == Count(es, q)
  {
    if es != [] {
      assert es[|es| - 1] in es;
      CountWithin(es[..|es| - 1], p, q);
    }
  }

  /** Summed over the steps in any listing, failures and each category give the overall totals. */
  lemma TotalsAreSumsOverSteps(es: seq<End>, steps: seq<string>, c: Category)
    requires Distinct(steps) && forall s :: s in steps <==> s in Steps(es)
    ensures SumOver(steps, s => Count(es, At(s, FAILED))) == Count(es, FAILED) == ErrorSum(Errors(es, FAILED))
    ensures SumOver(steps, s => Count(es, At(s, Also(FAILED, c)))) == ErrorCount(Errors(es, FAILED), c)
  {
    StepsAddUp(es, steps, FAILED);
    StepsAddUp(es, steps, Also(FAILED, c));
    CountWithin(es, AtAny(steps, FAILED), FAILED);
    CountWithin(es, AtAny(steps, Also(FAILED, c)), Also(FAILED, c));
    ErrorSumIs(es, FAILED);
  }

  // ---- the order of runs and events does not matter ----

  lemma {:induction false} CountConcat(es: seq<End>, fs: seq<End>, p: Test)
    ensures Count(es + fs, p) == Count(es, p) + Count(fs, p)
    ensures Latency(es + fs, p) == Latency(es, p) + Latency(fs, p)
  {
    if fs == [] {
      assert es + fs == es;
    } else {
      assert es + fs == es + fs[..|fs| - 1] + [fs[|fs| - 1]];
      CountConcat(es, fs[..|fs| - 1], p);
      CountMore(es + fs[..|fs| - 1], fs[|fs| - 1], p);
    }
  }

  lemma CountAround(es: seq<End>, rest: seq<End>, a: seq<End>, e: End, b: seq<End>, p: Test)
    requires es == a + [e] + b && rest == a + b
    ensures Count(es, p) == Count(rest, p) + if p(e) then 1 else 0
    ensures Latency(es, p) == Latency(rest, p) + if p(e) then LatencyOf(e) else 0.0
  {
    CountConcat(a + [e], b, p);
    CountMore(a, e, p);
    CountConcat(a, b, p);
  }

  lemma CountWithout(es: seq<End>, k: nat, p: Test)
    requires k < |es|
    ensures Count(es, p) == Count(Without(es, k), p) + if p(es[k]) then 1 else 0
    ensures Latency(es, p) == Latency(Without(es, k), p) + if p(es[k]) then LatencyOf(es[k]) else 0.0
  {
    Parts(es, k);
    CountAround(es, Without(es, k), es[..k], es[k], es[k + 1..], p);
  }

  lemma {:induction false} CountPermuted(es: seq<End>, fs: seq<End>, p: Test)
    requires multiset(es) == multiset(fs)
    ensures Count(es, p) == Count(fs, p) && Latency(es, p) == Latency(fs, p)
  {
    if es == [] {
      assert |fs| == |multiset(fs)| == 0;
    } else {
      var k := LastTwin(es, fs);
      CountPermuted(es[..|es| - 1], Without(fs, k), p);
      CountWithout(fs, k, p);
    }
  }

  /** The figures of every step and the error categories depend on the events alone, not on the
      order they are met in. */
  lemma OrderIsIrrelevant(es: seq<End>, fs: seq<End>)
    requires multiset(es) == multiset(fs)
    ensures StatsOf(es) == StatsOf(fs) && Errors(es, FAILED) == Errors(fs, FAILED)
  {
    forall e ensures e in es <==> e in fs { SameElements(es, fs, e); }
    forall p: Test ensures Count(es, p) == Count(fs, p) && Latency(es, p) == Latency(fs, p) {
      CountPermuted(es, fs, p);
    }
    assert Steps(es) == Steps(fs);
    forall s ensures MetricsAt(es, s) == MetricsAt(fs, s) { SameMetrics(es, fs, s); }
  }

  lemma SameMetrics(es: seq<End>, fs: seq<End>, s: string)
    requires forall e :: e in es <==> e in fs
    requires forall p: Test :: Count(es, p) == Count(fs, p) && Latency(es, p) == Latency(fs, p)
    ensures MetricsAt(es, s) == MetricsAt(fs, s)
  {
    assert Errors(es, At(s, FAILED)) == Errors(fs, At(s, FAILED));
  }

  // ---- the summary ----

  /** A run directory: whether its `summary.json` reports success, if there is one; its events;
      and the lines of its MCP log. */
  datatype RunDir = RunDir(summary: Option<bool>, lines: seq<Line>, mcp: seq<McpLog.Line>)

  predicate Raises(d: RunDir) { NotObject in d.lines || McpLog.Unusable in d.mcp }

  datatype StepEntry = StepEntry(name: string, runs: int, successes: int, errors: int, errorTypes: map<Category, int>,
                                 successRate: real, avgLatency: real, mcp: Option<(int, int)>, models: seq<string>)

  datatype ModelEntry = ModelEntry(name: string, usage: McpLog.Usage)

  datatype Summary = Summary(runs: int, successes: int, successRate: real, avgLatency: real,
                             errorTotal: int, errorTypes: map<Category, int>, mcpCalls: int, mcpErrors: int,
                             spent: McpLog.Spent, steps: seq<StepEntry>, models: seq<ModelEntry>)

  /** Directories without a readable summary are left out altogether. */
  function Kept(dirs: seq<RunDir>): seq<RunDir> {
    if dirs == [] then []
    else Kept(dirs[..|dirs| - 1]) + if dirs[|dirs| - 1].summary.Some? then [dirs[|dirs| - 1]] else []
  }

  function EventsOf(dirs: seq<RunDir>): seq<End> {
    if dirs == [] then [] else EventsOf(dirs[..|dirs| - 1]) + EndsOf(dirs[|dirs| - 1].lines)
  }

  /** A run counts as a success if its summary says so or none of its steps failed. */
  predicate RunSucceeded(d: RunDir) { d.summary == Some(true) || Count(EndsOf(d.lines), FAILED) == 0 }

  function Successes(dirs: seq<RunDir>): nat {
    if dirs == [] then 0 else Successes(dirs[..|dirs| - 1]) + if RunSucceeded(dirs[|dirs| - 1]) then 1 else 0
  }

  function LogErrors(log: seq<McpLog.Call>): int { McpLog.Sum(log, McpLog.ALL).errors }

  function LogOf(dirs: seq<RunDir>): seq<McpLog.Call> {
    if dirs == [] then [] else LogOf(dirs[..|dirs| - 1]) + McpLog.CallsOf(dirs[|dirs| - 1].mcp)
  }

  /** The MCP log's figures, each replaced on its own by the steps' when it is zero. */
  function McpCalls(dirs: seq<RunDir>): int { if LogOf(dirs) == [] then Count(EventsOf(dirs), MCP) else |LogOf(dirs)| }

  function McpErrors(dirs: seq<RunDir>): int {
    if LogErrors(LogOf(dirs)) == 0 then Count(EventsOf(dirs), MCP_FAILED) else LogErrors(LogOf(dirs))
  }

  /** The two figures may come from different places: there are more errors than calls exactly
      when the log has calls and no errors while the steps have more errors than that. */
  lemma ErrorsExceedCallsIff(dirs: seq<RunDir>)
    ensures McpErrors(dirs) > McpCalls(dirs)
       <==> LogOf(dirs) != [] && LogErrors(LogOf(dirs)) == 0 && Count(EventsOf(dirs), MCP_FAILED) > |LogOf(dirs)|
  {
    McpLog.SumCounts(LogOf(dirs));
    CountFewer(EventsOf(dirs), MCP_FAILED, MCP);
  }

  lemma OneDirectory(d: RunDir)
    ensures EventsOf([d]) == EndsOf(d.lines) && LogOf([d]) == McpLog.CallsOf(d.mcp)
  {
    assert [d][..0] == [];
  }

  lemma TwoEvents(e: End, p: Test)
    requires p(e)
    ensures Count(EndsOf([Ends(e), Ends(e)]), p) == 2
  {
    EndsMore([Ends(e), Ends(e)], 0);
    EndsMore([Ends(e), Ends(e)], 1);
    assert [Ends(e), Ends(e)][..2] == [Ends(e), Ends(e)] && [] + [e] == [e];
    CountMore([], e, p);
    CountMore([e], e, p);
  }

  lemma OneCall(r: McpLog.Record)
    ensures McpLog.CallsOf([McpLog.Good(r)]) == [McpLog.CallOf(r)]
    ensures McpLog.Succeeded(r) ==> LogErrors([McpLog.CallOf(r)]) == 0
  {
    assert [McpLog.Good(r)][..1] == [McpLog.Good(r)] && [McpLog.Good(r)][..0] == [];
    McpLog.SumMore([], McpLog.CallOf(r), McpLog.ALL);
    assert [] + [McpLog.CallOf(r)] == [McpLog.CallOf(r)];
  }

  /** Two failed MCP steps and one logged call that was fine: two errors in one call. */
  lemma TwoErrorsInOneCall(e: End, r: McpLog.Record)
    requires e.isMcp && e.status == "error" && r.status == "ok"
    ensures var dirs := [RunDir(Some(false), [Ends(e), Ends(e)], [McpLog.Good(r)])];
            McpErrors(dirs) == 2 && McpCalls(dirs) == 1
  {
    OneDirectory(RunDir(Some(false), [Ends(e), Ends(e)], [McpLog.Good(r)]));
    TwoEvents(e, MCP_FAILED);
    OneCall(r);
  }

  function Ratio(n: real, d: int): real { if d == 0 then 0.0 else n / d as real }

  const TEXT_ORDER := (a: string, b: string) => Le(a, b)

  lemma TextOrderIsTotal()
    ensures TotalPreorder(TEXT_ORDER)
  {
    forall a, b ensures TEXT_ORDER(a, b) || TEXT_ORDER(b, a) { LeTotal(a, b); }
    forall a, b, c | TEXT_ORDER(a, b) && TEXT_ORDER(b, c) ensures TEXT_ORDER(a, c) { LeTransitive(a, b, c); }
  }

  ghost predicate ListsInOrder(names: seq<string>, of: set<string>) {
    Distinct(names) && SortedBy(names, TEXT_ORDER) && forall k :: k in names <==> k in of
  }

  /** `sorted` of a set or of a dictionary's keys. */
  method SortedNames(names: set<string>) returns (r: seq<string>)
    ensures ListsInOrder(r, names)
  {
    var list: seq<string> := [];
    var left := names;
    while left != {}
      invariant left <= names && Distinct(list)
      invariant forall k :: k in list <==> k in names && k !in left
      decreases |left|
    {
      var k :| k in left;
      list := list + [k];
      left := left - {k};
    }
    r := SortBy(list, TEXT_ORDER);
    TextOrderIsTotal();
    SortByIsSorted(list, TEXT_ORDER);
    DistinctPermuted(list, r);
    forall k ensures k in r <==> k in list { SameElements(r, list, k); }
  }

  /** An entry reports the figures of a step. */
  ghost predicate Reports(entry: StepEntry, m: StepMetrics) {
    && entry.runs == m.runs && entry.successes == m.successes
    && entry.errors == m.failures && entry.errorTypes == m.errors
    && entry.successRate == Ratio(m.successes as real, m.runs) && entry.avgLatency == Ratio(m.latency, m.runs)
    && entry.mcp == (if m.mcpCalls != 0 || m.mcpErrors != 0 then Some((m.mcpCalls, m.mcpErrors)) else None)
    && ListsInOrder(entry.models, m.models)
  }

  /** The entries are those of all steps that occur, in the order of their names. */
  ghost predicate ReportsAll(steps: seq<StepEntry>, es: seq<End>, names: seq<string>) {
    && |steps| == |names|
    && forall i :: 0 <= i < |names| ==> steps[i].name == names[i] && Reports(steps[i], MetricsAt(es, names[i]))
  }

  lemma {:induction false} SumOverMore(steps: seq<string>, s: string, figure: string -> int)
    ensures SumOver(steps + [s], figure) == SumOver(steps, figure) + figure(s)
  {
    if steps == [] {
      assert (steps + [s])[1..] == [];
    } else {
      assert (steps + [s])[1..] == steps[1..] + [s];
      SumOverMore(steps[1..], s, figure);
    }
  }

  lemma SumOfSteps(es: seq<End>, names: seq<string>, p: Test)
    requires ListsInOrder(names, Steps(es))
    ensures SumOver(names, s => Count(es, At(s, p))) == Count(es, p)
  {
    StepsAddUp(es, names, p);
    CountWithin(es, AtAny(names, p), p);
  }

  method ReportStep(name: string, m: StepMetrics) returns (entry: StepEntry)
    ensures entry.name == name && Reports(entry, m)
  {
    var models := SortedNames(m.models);
    entry := StepEntry(name, m.runs, m.successes, m.failures, m.errors,
                       Ratio(m.successes as real, m.runs), Ratio(m.latency, m.runs),
                       if m.mcpCalls != 0 || m.mcpErrors != 0 then Some((m.mcpCalls, m.mcpErrors)) else None, models);
  }

  ghost function StepSum(names: seq<string>, es: seq<End>, p: Test): int {
    SumOver(names, s => Count(es, At(s, p)))
  }

  lemma StepSumMore(names: seq<string>, i: nat, es: seq<End>, p: Test)
    requires i < |names|
    ensures StepSum(names[..i + 1], es, p) == StepSum(names[..i], es, p) + Count(es, At(names[i], p))
  {
    SumOverMore(names[..i], names[i], s => Count(es, At(s, p)));
    assert names[..i] + [names[i]] == names[..i + 1];
  }

  lemma StepSumAll(names: seq<string>, es: seq<End>, p: Test)
    requires ListsInOrder(names, Steps(es))
    ensures StepSum(names[..|names|], es, p) == Count(es, p)
  {
    assert names[..|names|] == names;
    SumOfSteps(es, names, p);
  }

  /** The sums over the dictionary of steps that `summarize` takes. */
  method SumSteps(stats: map<string, StepMetrics>, names: seq<string>, ghost es: seq<End>)
    returns (failures: int, calls: int, errors: int)
    requires stats == StatsOf(es) && ListsInOrder(names, Steps(es))
    ensures failures == Count(es, FAILED) && calls == Count(es, MCP) && errors == Count(es, MCP_FAILED)
  {
    failures, calls, errors := 0, 0, 0;
    for i := 0 to |names|
      invariant failures == StepSum(names[..i], es, FAILED)
      invariant calls == StepSum(names[..i], es, MCP)
      invariant errors == StepSum(names[..i], es, MCP_FAILED)
    {
      var name := names[i];
      assert name in names;
      StepSumMore(names, i, es, FAILED);
      StepSumMore(names, i, es, MCP);
      StepSumMore(names, i, es, MCP_FAILED);
      var m := stats[name];
      failures, calls, errors := failures + m.failures, calls + m.mcpCalls, errors + m.mcpErrors;
    }
    StepSumAll(names, es, FAILED);
    StepSumAll(names, es, MCP);
    StepSumAll(names, es, MCP_FAILED);
  }

  lemma DirsMore(dirs: seq<RunDir>, n: nat)
    requires n < |dirs|
    ensures Kept(dirs[..n + 1]) == if dirs[n].summary.Some? then Kept(dirs[..n]) + [dirs[n]] else Kept(dirs[..n])
  {
    assert dirs[..n + 1][..n] == dirs[..n];
  }

  lemma KeptMore(kept: seq<RunDir>, d: RunDir)
    ensures EventsOf(kept + [d]) == EventsOf(kept) + EndsOf(d.lines)
    ensures LogOf(kept + [d]) == LogOf(kept) + McpLog.CallsOf(d.mcp)
    ensures Successes(kept + [d]) == Successes(kept) + if RunSucceeded(d) then 1 else 0
  {
    assert (kept + [d])[..|kept|] == kept;
  }

  /** The loop of `summarize` over the run directories. */
  method TakeRuns(dirs: seq<RunDir>) returns (metrics: RunMetrics, runs: int, ok: bool)
    ensures fresh(metrics)
    ensures !ok <==> exists d :: d in Kept(dirs) && Raises(d)
    ensures ok ==> metrics.Holds(Kept(dirs)) && runs == |Kept(dirs)|
  {
    metrics := new RunMetrics();
    runs := 0;
    ghost var kept: seq<RunDir> := [];
    for n := 0 to |dirs|
      invariant fresh(metrics) && metrics.Holds(kept) && runs == |kept|
      invariant kept == Kept(dirs[..n]) && forall d :: d in kept ==> !Raises(d)
    {
      DirsMore(dirs, n);
      if dirs[n].summary.Some? {
        runs := runs + 1;
        ok := metrics.TakeRun(dirs[n], kept);
        kept := kept + [dirs[n]];
        if !ok {
          KeptAmong(dirs, n + 1, dirs[n]);
          return;
        }
      }
    }
    assert dirs[..|dirs|] == dirs;
    ok := true;
  }

  lemma {:induction false} KeptAmong(dirs: seq<RunDir>, n: nat, d: RunDir)
    requires n <= |dirs| && d in Kept(dirs[..n])
    ensures d in Kept(dirs)
    decreases |dirs| - n
  {
    if n < |dirs| {
      DirsMore(dirs, n);
      KeptAmong(dirs, n + 1, d);
    } else {
      assert dirs[..n] == dirs;
    }
  }

  method ReportSteps(stats: map<string, StepMetrics>, names: seq<string>) returns (steps: seq<StepEntry>)
    requires forall s :: s in names ==> s in stats
    ensures |steps| == |names|
    ensures forall k :: 0 <= k < |names| ==>
              names[k] in stats && steps[k].name == names[k] && Reports(steps[k], stats[names[k]])
  {
    steps := [];
    for i := 0 to |names|
      invariant |steps| == i
      invariant forall k :: 0 <= k < i ==>
                  names[k] in stats && steps[k].name == names[k] && Reports(steps[k], stats[names[k]])
    {
      assert names[i] in names;
      var entry := ReportStep(names[i], stats[names[i]]);
      steps := steps + [entry];
    }
  }

  method ReportModels(stats: map<string, McpLog.Usage>, models: seq<string>) returns (entries: seq<ModelEntry>)
    requires forall m :: m in models ==> m in stats
    ensures |entries| == |models|
    ensures forall k :: 0 <= k < |models| ==>
              models[k] in stats && entries[k] == ModelEntry(models[k], stats[models[k]])
  {
    entries := [];
    for i := 0 to |models|
      invariant |entries| == i
      invariant forall k :: 0 <= k < i ==>
                  models[k] in stats && entries[k] == ModelEntry(models[k], stats[models[k]])
    {
      assert models[i] in models;
      entries := entries + [ModelEntry(models[i], stats[models[i]])];
    }
  }

  /** The entries are those of all models that the log names, in order, each with the sum over
      its calls. */
  ghost predicate ReportsModels(entries: seq<ModelEntry>, log: seq<McpLog.Call>, models: seq<string>) {
    && |entries| == |models|
    && forall k :: 0 <= k < |models| ==> entries[k] == ModelEntry(models[k], McpLog.Sum(log, McpLog.By(models[k])))
  }

  /** What the summary says about the log itself. */
  ghost predicate ReportsLog(s: Summary, log: seq<McpLog.Call>) {
    && s.spent == SpentBy(McpLog.Sum(log, McpLog.ALL))
    && exists models :: ListsInOrder(models, McpLog.Models(log)) && ReportsModels(s.models, log, models)
  }

  function SpentBy(u: McpLog.Usage): McpLog.Spent { McpLog.Spent(u.input, u.output, u.total, u.cost) }

  /** What `summarize` promises about the runs it is given. */
  ghost predicate Summarizes(s: Summary, dirs: seq<RunDir>) {
    var kept := Kept(dirs);
    var es := EventsOf(kept);
    && s.runs == |kept| && s.successes == Successes(kept) && s.successRate == Ratio(s.successes as real, s.runs)
    && s.avgLatency == Ratio(Latency(es, ALL), Count(es, TIMED))
    && s.errorTotal == Count(es, FAILED) && s.errorTypes == Errors(es, FAILED)
    && s.mcpCalls == McpCalls(kept) && s.mcpErrors == McpErrors(kept) && ReportsLog(s, LogOf(kept))
    && exists names :: ListsInOrder(names, Steps(es)) && ReportsAll(s.steps, es, names)
  }

  /** The entries and totals of the models in the log. */
  method SummarizeLog(stats: map<string, McpLog.Usage>, ghost log: seq<McpLog.Call>)
    returns (spent: McpLog.Spent, entries: seq<ModelEntry>)
    requires stats == McpLog.StatsOf(log)
    ensures spent == SpentBy(McpLog.Sum(log, McpLog.ALL))
    ensures exists models :: ListsInOrder(models, McpLog.Models(log)) && ReportsModels(entries, log, models)
  {
    var models := SortedNames(stats.Keys);
    entries := ReportModels(stats, models);
    var all := McpLog.Totals(models, stats, log);
    spent := SpentBy(all);
    assert ListsInOrder(models, McpLog.Models(log)) && ReportsModels(entries, log, models);
  }

  /** `summarize`: it raises exactly when a line of a directory with a summary makes it. */
  method Summarize(dirs: seq<RunDir>) returns (r: Option<Summary>)
    ensures r.None? <==> exists d :: d in Kept(dirs) && Raises(d)
    ensures r.Some? ==> Summarizes(r.value, dirs)
  {
    var metrics, runs, ok := TakeRuns(dirs);
    if !ok {
      return None;
    }
    ghost var es := EventsOf(Kept(dirs));
    var names := SortedNames(metrics.stepStats.Keys);
    var steps := ReportSteps(metrics.stepStats, names);
    var failures, stepCalls, stepErrors := SumSteps(metrics.stepStats, names, es);
    var calls, errors := metrics.mcpCalls, metrics.mcpErrors;
    if calls == 0 {
      calls := stepCalls;
    }
    if errors == 0 {
      errors := stepErrors;
    }
    var spent, models := SummarizeLog(metrics.modelStats, LogOf(Kept(dirs)));
    r := Some(Summary(runs, metrics.succeeded, Ratio(metrics.succeeded as real, runs),
                      Ratio(metrics.latency, metrics.completed), failures, metrics.errors, calls, errors,
                      spent, steps, models));
    assert ListsInOrder(names, Steps(es)) && ReportsAll(steps, es, names);
  }

  // ---- consequences for every summary ----

  lemma {:induction false} CountSome(es: seq<End>, p: Test, e: End)
    requires e in es && p(e)
    ensures Count(es, p) > 0
  {
    if e != es[|es| - 1] {
      assert es == es[..|es| - 1] + [es[|es| - 1]];
      CountSome(es[..|es| - 1], p, e);
    }
  }

  /** Every entry of a summary has runs, all of them successes or errors, and its errors are the
      sum over its categories. */
  lemma EntriesAddUp(s: Summary, dirs: seq<RunDir>, i: nat)
    requires Summarizes(s, dirs) && i < |s.steps|
    ensures var entry := s.steps[i];
            entry.runs > 0 && entry.runs == entry.successes + entry.errors && entry.successes >= 0 && entry.errors >= 0
            && entry.errors == ErrorSum(entry.errorTypes)
            && (entry.mcp.Some? ==> 0 <= entry.mcp.value.1 <= entry.mcp.value.0 <= entry.runs)
  {
    var es := EventsOf(Kept(dirs));
    var names :| ListsInOrder(names, Steps(es)) && ReportsAll(s.steps, es, names);
    assert names[i] in names;
    StepHasRuns(es, names[i]);
    StepAddsUp(es, names[i]);
  }

  /** The models of an entry are distinct names, in order and not empty. */
  lemma ModelsAreNames(s: Summary, dirs: seq<RunDir>, i: nat)
    requires Summarizes(s, dirs) && i < |s.steps|
    ensures var models := s.steps[i].models;
            Distinct(models) && SortedBy(models, TEXT_ORDER) && "" !in models
  {
    var es := EventsOf(Kept(dirs));
    var names :| ListsInOrder(names, Steps(es)) && ReportsAll(s.steps, es, names);
    assert Reports(s.steps[i], MetricsAt(es, names[i]));
  }

  lemma StepHasRuns(es: seq<End>, step: string)
    requires step in Steps(es)
    ensures MetricsAt(es, step).runs > 0 && MetricsAt(es, step).successes >= 0 && MetricsAt(es, step).failures >= 0
  {
    var e :| e in es && e.step == step;
    CountSome(es, At(step, ALL), e);
  }

  function EntryErrors(steps: seq<StepEntry>): int {
    if steps == [] then 0 else steps[0].errors + EntryErrors(steps[1..])
  }

  lemma {:induction false} EntryErrorsIs(steps: seq<StepEntry>, es: seq<End>, names: seq<string>)
    requires ReportsAll(steps, es, names)
    ensures EntryErrors(steps) == SumOver(names, s => Count(es, At(s, FAILED)))
    decreases |steps|
  {
    if steps != [] { EntryErrorsIs(steps[1..], es, names[1..]); }
  }

  /** The errors of the steps sum to the total, and so do the categories. */
  lemma SummaryAddsUp(s: Summary, dirs: seq<RunDir>)
    requires Summarizes(s, dirs)
    ensures EntryErrors(s.steps) == s.errorTotal == ErrorSum(s.errorTypes)
  {
    var es := EventsOf(Kept(dirs));
    var names :| ListsInOrder(names, Steps(es)) && ReportsAll(s.steps, es, names);
    EntryErrorsIs(s.steps, es, names);
    SumOfSteps(es, names, FAILED);
    ErrorSumIs(es, FAILED);
  }

  function EntryUsage(entries: seq<ModelEntry>): McpLog.Usage {
    if entries == [] then McpLog.NOTHING
    else McpLog.Plus(EntryUsage(entries[..|entries| - 1]), entries[|entries| - 1].usage)
  }

  lemma {:induction false} EntryUsageIs(entries: seq<ModelEntry>, log: seq<McpLog.Call>, models: seq<string>)
    requires ReportsModels(entries, log, models)
    ensures EntryUsage(entries) == McpLog.SumOver(models, log)
    decreases |entries|
  {
    if entries != [] { EntryUsageIs(entries[..|entries| - 1], log, models[..|models| - 1]); }
  }

  /** The tokens and the cost of the models sum to the totals; so do the calls and errors, where
      the log has any. */
  lemma ModelsAddUp(s: Summary, dirs: seq<RunDir>)
    requires Summarizes(s, dirs)
    ensures var all := EntryUsage(s.models);
            && s.spent == SpentBy(all)
            && (all.calls != 0 ==> s.mcpCalls == all.calls) && (all.errors != 0 ==> s.mcpErrors == all.errors)
  {
    var log := LogOf(Kept(dirs));
    var models :| ListsInOrder(models, McpLog.Models(log)) && ReportsModels(s.models, log, models);
    EntryUsageIs(s.models, log, models);
    McpLog.ModelsAddUp(models, log);
    McpLog.SumCounts(log);
  }

  /** Times the count it gives the figure; without a count it is zero. */
  ghost predicate IsRate(rate: real, figure: real, count: int) {
    if count == 0 then rate == 0.0 else rate * count as real == figure
  }

  lemma RatioIsRate(n: real, d: int)
    ensures IsRate(Ratio(n, d), n, d)
  {
  }

  lemma EntryRates(entry: StepEntry, m: StepMetrics)
    requires Reports(entry, m)
    ensures IsRate(entry.successRate, entry.successes as real, entry.runs)
    ensures IsRate(entry.avgLatency, m.latency, entry.runs)
  {
    RatioIsRate(m.successes as real, m.runs);
    RatioIsRate(m.latency, m.runs);
  }

  lemma StepRates(s: Summary, dirs: seq<RunDir>, i: nat)
    requires Summarizes(s, dirs) && i < |s.steps|
    ensures var entry := s.steps[i];
            && IsRate(entry.successRate, entry.successes as real, entry.runs)
            && IsRate(entry.avgLatency, MetricsAt(EventsOf(Kept(dirs)), entry.name).latency, entry.runs)
  {
    var es := EventsOf(Kept(dirs));
    var names :| ListsInOrder(names, Steps(es)) && ReportsAll(s.steps, es, names);
    EntryRates(s.steps[i], MetricsAt(es, names[i]));
  }

  /** The success rates are successes over runs, the latencies means: over all timed events, and for a
      step over its runs. */
  lemma RatesAreRates(s: Summary, dirs: seq<RunDir>)
    requires Summarizes(s, dirs)
    ensures var es := EventsOf(Kept(dirs));
            && IsRate(s.successRate, s.successes as real, s.runs)
            && IsRate(s.avgLatency, Latency(es, ALL), Count(es, TIMED))
            && forall i :: 0 <= i < |s.steps| ==>
                 && IsRate(s.steps[i].successRate, s.steps[i].successes as real, s.steps[i].runs)
                 && IsRate(s.steps[i].avgLatency, Latency(es, At(s.steps[i].name, ALL)), s.steps[i].runs)
  {
    var es := EventsOf(Kept(dirs));
    RatioIsRate(s.successes as real, s.runs);
    RatioIsRate(Latency(es, ALL), Count(es, TIMED));
    forall i | 0 <= i < |s.steps|
      ensures IsRate(s.steps[i].successRate, s.steps[i].successes as real, s.steps[i].runs)
      ensures IsRate(s.steps[i].avgLatency, Latency(es, At(s.steps[i].name, ALL)), s.steps[i].runs)
    {
      StepRates(s, dirs, i);
    }
  }

  // ---- the order of the run directories ----

  lemma KeptOne(dirs: seq<RunDir>, d: RunDir)
    ensures Kept(dirs + [d]) == Kept(dirs) + if d.summary.Some? then [d] else []
  {
    assert (dirs + [d])[..|dirs|] == dirs;
  }

  /** What the summary takes from its runs, up to their order. */
  datatype Gathered = Gathered(kept: multiset<RunDir>, events: multiset<End>, log: multiset<McpLog.Call>,
      successes: int)

  ghost function Gather(dirs: seq<RunDir>): Gathered {
    Gathered(multiset(Kept(dirs)), multiset(EventsOf(dirs)), multiset(LogOf(dirs)), Successes(dirs))
  }

  ghost function Added(g: Gathered, d: RunDir): Gathered {
    Gathered(g.kept + (if d.summary.Some? then multiset{d} else multiset{}), g.events + multiset(EndsOf(d.lines)),
             g.log + multiset(McpLog.CallsOf(d.mcp)), g.successes + if RunSucceeded(d) then 1 else 0)
  }

  lemma GatherMore(dirs: seq<RunDir>, d: RunDir)
    ensures Gather(dirs + [d]) == Added(Gather(dirs), d)
  {
    KeptOne(dirs, d);
    KeptMore(dirs, d);
  }

  lemma AddedSwaps(g: Gathered, d: RunDir, e: RunDir)
    ensures Added(Added(g, d), e) == Added(Added(g, e), d)
  {
    UnionSwaps(g.kept, if d.summary.Some? then multiset{d} else multiset{},
               if e.summary.Some? then multiset{e} else multiset{});
    UnionSwaps(g.events, multiset(EndsOf(d.lines)), multiset(EndsOf(e.lines)));
    UnionSwaps(g.log, multiset(McpLog.CallsOf(d.mcp)), multiset(McpLog.CallsOf(e.mcp)));
  }

  lemma UnionSwaps<T>(m: multiset<T>, a: multiset<T>, b: multiset<T>)
    ensures m + a + b == m + b + a
  {
  }

  lemma {:induction false} GatherAround(a: seq<RunDir>, d: RunDir, b: seq<RunDir>)
    ensures Gather(a + [d] + b) == Added(Gather(a + b), d)
  {
    if b == [] {
      assert a + [d] + b == a + [d] && a + b == a;
      GatherMore(a, d);
    } else {
      var init, last := b[..|b| - 1], b[|b| - 1];
      GatherAround(a, d, init);
      SplitLast(b);
      AppendLast(a, init, last);
      AppendLast(a + [d], init, last);
      GatherMore(a + [d] + init, last);
      GatherMore(a + init, last);
      AddedSwaps(Gather(a + init), d, last);
    }
  }

  lemma {:induction false} GatherPermuted(a: seq<RunDir>, b: seq<RunDir>)
    requires multiset(a) == multiset(b)
    ensures Gather(a) == Gather(b)
  {
    if a == [] {
      assert |b| == |multiset(b)| == 0;
    } else {
      var k := LastTwin(a, b);
      GatherPermuted(a[..|a| - 1], Without(b, k));
      SplitLast(a);
      GatherMore(a[..|a| - 1], a[|a| - 1]);
      Parts(b, k);
      GatherAround(b[..k], b[k], b[k + 1..]);
    }
  }

  lemma AppendLast<T>(a: seq<T>, b: seq<T>, x: T)
    ensures a + (b + [x]) == a + b + [x]
  {
  }

  lemma SplitLast<T>(a: seq<T>)
    requires a != []
    ensures a == a[..|a| - 1] + [a[|a| - 1]]
  {
  }

  /** A summary of some run directories is one of the same directories in any other order. */
  lemma RunOrderIsIrrelevant(s: Summary, a: seq<RunDir>, b: seq<RunDir>)
    requires multiset(a) == multiset(b) && Summarizes(s, a)
    ensures Summarizes(s, b)
  {
    GatherPermuted(a, b);
    SameRuns(s, a, b);
  }

  lemma SameRuns(s: Summary, a: seq<RunDir>, b: seq<RunDir>)
    requires multiset(Kept(a)) == multiset(Kept(b)) && Summarizes(s, a)
    ensures Summarizes(s, b)
  {
    var k, l := Kept(a), Kept(b);
    var es, fs := EventsOf(k), EventsOf(l);
    GatherPermuted(k, l);
    assert |multiset(k)| == |k| && |multiset(l)| == |l|;
    McpLog.StatsPermuted(LogOf(k), LogOf(l));
    McpLog.SumPermuted(LogOf(k), LogOf(l), McpLog.ALL);
    SameLog(s, LogOf(k), LogOf(l));
    CountPermuted(es, fs, ALL);
    CountPermuted(es, fs, TIMED);
    CountPermuted(es, fs, FAILED);
    CountPermuted(es, fs, MCP);
    CountPermuted(es, fs, MCP_FAILED);
    OrderIsIrrelevant(es, fs);
    var names :| ListsInOrder(names, Steps(es)) && ReportsAll(s.steps, es, names);
    SameReports(s.steps, es, fs, names);
    McpPermuted(k, l);
  }

  lemma SameLog(s: Summary, a: seq<McpLog.Call>, b: seq<McpLog.Call>)
    requires multiset(a) == multiset(b) && ReportsLog(s, a)
    ensures ReportsLog(s, b)
  {
    McpLog.StatsPermuted(a, b);
    McpLog.SumPermuted(a, b, McpLog.ALL);
    var models :| ListsInOrder(models, McpLog.Models(a)) && ReportsModels(s.models, a, models);
    forall m ensures McpLog.Sum(a, McpLog.By(m)) == McpLog.Sum(b, McpLog.By(m)) {
      McpLog.SumPermuted(a, b, McpLog.By(m));
    }
    assert ListsInOrder(models, McpLog.Models(b)) && ReportsModels(s.models, b, models);
  }

  lemma McpPermuted(k: seq<RunDir>, l: seq<RunDir>)
    requires LogErrors(LogOf(k)) == LogErrors(LogOf(l)) && |LogOf(k)| == |LogOf(l)|
    requires Count(EventsOf(k), MCP) == Count(EventsOf(l), MCP)
    requires Count(EventsOf(k), MCP_FAILED) == Count(EventsOf(l), MCP_FAILED)
    ensures McpCalls(k) == McpCalls(l) && McpErrors(k) == McpErrors(l)
  {
  }

  lemma SameReports(steps: seq<StepEntry>, es: seq<End>, fs: seq<End>, names: seq<string>)
    requires ReportsAll(steps, es, names) && ListsInOrder(names, Steps(es)) && StatsOf(es) == StatsOf(fs)
    ensures ReportsAll(steps, fs, names) && ListsInOrder(names, Steps(fs))
  {
    assert StatsOf(es).Keys == Steps(es) && StatsOf(fs).Keys == Steps(fs);
    forall i | 0 <= i < |names| ensures Reports(steps[i], MetricsAt(fs, names[i])) {
      assert names[i] in names;
      assert StatsOf(es)[names[i]] == MetricsAt(es, names[i]) && StatsOf(fs)[names[i]] == MetricsAt(fs, names[i]);
    }
  }

  // ---- there is one summary ----

  lemma ListsInOrderUnique(a: seq<string>, b: seq<string>, of: set<string>)
    requires ListsInOrder(a, of) && ListsInOrder(b, of)
    ensures a == b
  {
    DistinctSameElements(a, b);
    forall x, y | x in a && y in a && TEXT_ORDER(x, y) && TEXT_ORDER(y, x) ensures x == y { LeAntisymmetric(x, y); }
    OneOrder(a, b, TEXT_ORDER);
  }

  lemma ReportsUnique(x: StepEntry, y: StepEntry, m: StepMetrics)
    requires x.name == y.name && Reports(x, m) && Reports(y, m)
    ensures x == y
  {
    ListsInOrderUnique(x.models, y.models, m.models);
  }

  lemma LogUnique(s: Summary, t: Summary, log: seq<McpLog.Call>)
    requires ReportsLog(s, log) && ReportsLog(t, log)
    ensures s.spent == t.spent && s.models == t.models
  {
    var names :| ListsInOrder(names, McpLog.Models(log)) && ReportsModels(s.models, log, names);
    var others :| ListsInOrder(others, McpLog.Models(log)) && ReportsModels(t.models, log, others);
    ListsInOrderUnique(names, others, McpLog.Models(log));
  }

  /** The summary of some run directories is determined, whatever order they are met in. */
  lemma OneSummary(s: Summary, t: Summary, a: seq<RunDir>, b: seq<RunDir>)
    requires multiset(a) == multiset(b) && Summarizes(s, a) && Summarizes(t, b)
    ensures s == t
  {
    RunOrderIsIrrelevant(s, a, b);
    SummaryUnique(s, t, b);
  }

  lemma SummaryUnique(s: Summary, t: Summary, dirs: seq<RunDir>)
    requires Summarizes(s, dirs) && Summarizes(t, dirs)
    ensures s == t
  {
    var es := EventsOf(Kept(dirs));
    var names :| ListsInOrder(names, Steps(es)) && ReportsAll(s.steps, es, names);
    var others :| ListsInOrder(others, Steps(es)) && ReportsAll(t.steps, es, others);
    ListsInOrderUnique(names, others, Steps(es));
    LogUnique(s, t, LogOf(Kept(dirs)));
    forall i | 0 <= i < |names| ensures s.steps[i] == t.steps[i] {
      ReportsUnique(s.steps[i], t.steps[i], MetricsAt(es, names[i]));
    }
  }
}

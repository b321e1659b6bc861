/** The governance gate: a policy checked against a run summary. */
module Gate {
  import opened Options
  import opened PyText
  import opened RunSummary

  /** A step of a summary; what it may lack is optional, and a missing list of models is empty. */
  datatype Step = Step(name: string, runs: int, successes: int, avgLatency: Option<real>, models: seq<string>,
                       model: Option<string>, mcpCalls: Option<int>, mcpErrors: Option<int>)

  /** What is read of a summary that satisfies the schema. */
  datatype Input = Input(runs: int, successRate: real, avgLatency: real, mcpCalls: int, mcpErrors: int,
                         steps: seq<Step>)

  datatype StepPolicy = StepPolicy(maxErrorRate: Option<real>, maxLatency: Option<real>, maxMcpErrorRate: Option<real>)

  datatype Policy = Policy(
    minRuns: Option<int>, minSuccessRate: Option<real>, maxLatency: Option<real>, required: seq<string>,
    perStep: map<string, StepPolicy>, default: StepPolicy,
    denylist: seq<string>, allowlist: seq<string>, maxMcpErrorRate: Option<real>)

  datatype Violation =
    | FewRuns | LowSuccessRate | Slow | MissingSteps(names: seq<string>) | McpErrorRate
    | StepErrorRate(step: string) | StepSlow(step: string) | ModelDenied(step: string, model: string)
    | ModelNotAllowed(step: string, model: string) | StepMcpErrorRate(step: string)

  /** Glob matching of a model name. */
  type Glob = (string, string) -> bool

  /** `_ratio`. */
  function Rate(n: Option<int>, d: Option<int>): Option<real> {
    if d.None? || d.value == 0 || n.None? then None else Some(n.value as real / d.value as real)
  }

  /** The model of a step: the first of its list, or else the one it names; an empty name is none. */
  function ModelOf(e: Step): Option<string> {
    var model := if e.models != [] then Some(e.models[0]) else e.model;
    if model == Some("") then None else model
  }

  predicate Above(x: Option<real>, max: Option<real>) { x.Some? && max.Some? && x.value > max.value }

  function PolicyFor(p: Policy, name: string): StepPolicy { if name in p.perStep then p.perStep[name] else p.default }

  predicate MatchesAny(model: string, patterns: seq<string>, glob: Glob) { exists x :: x in patterns && glob(model, x) }

  function McpRate(e: Step): Option<real> { Rate(e.mcpErrors, e.mcpCalls) }

  function Names(steps: seq<Step>): set<string> { set e | e in steps :: e.name }

  // ---- the conditions, each named once ----

  predicate TooFewRuns(s: Input, p: Policy) { p.minRuns.Some? && s.runs < p.minRuns.value }

  predicate TooFewSuccesses(s: Input, p: Policy) {
    p.minSuccessRate.Some? && s.successRate < p.minSuccessRate.value
  }

  predicate TooSlow(s: Input, p: Policy) { Above(Some(s.avgLatency), p.maxLatency) }

  predicate TooManyMcpErrors(s: Input, p: Policy) {
    Above(Rate(Some(s.mcpErrors), Some(s.mcpCalls)), p.maxMcpErrorRate)
  }

  function FailureRate(e: Step): Option<real> { Rate(Some(e.runs - e.successes), Some(e.runs)) }

  predicate StepFailsTooOften(e: Step, p: Policy) {
    Above(FailureRate(e), PolicyFor(p, e.name).maxErrorRate)
  }

  predicate StepTooSlow(e: Step, p: Policy) { Above(e.avgLatency, PolicyFor(p, e.name).maxLatency) }

  predicate StepMcpTooBad(e: Step, p: Policy) { Above(McpRate(e), PolicyFor(p, e.name).maxMcpErrorRate) }

  predicate Denied(e: Step, p: Policy, glob: Glob) {
    ModelOf(e).Some? && MatchesAny(ModelOf(e).value, p.denylist, glob)
  }

  predicate NotAllowed(e: Step, p: Policy, glob: Glob) {
    ModelOf(e).Some? && p.allowlist != [] && !MatchesAny(ModelOf(e).value, p.allowlist, glob)
  }

  predicate StepPasses(e: Step, p: Policy, glob: Glob) {
    && !StepFailsTooOften(e, p) && !StepTooSlow(e, p) && !StepMcpTooBad(e, p)
    && !Denied(e, p, glob) && !NotAllowed(e, p, glob)
  }

  /** What it takes to pass. */
  predicate Passes(s: Input, p: Policy, glob: Glob) {
    && !TooFewRuns(s, p) && !TooFewSuccesses(s, p) && !TooSlow(s, p) && !TooManyMcpErrors(s, p)
    && (forall name :: name in p.required ==> name in Names(s.steps))
    && (forall i :: 0 <= i < |s.steps| ==> StepPasses(s.steps[i], p, glob))
  }

  method AnyMatch(model: string, patterns: seq<string>, glob: Glob) returns (found: bool)
    ensures found == MatchesAny(model, patterns, glob)
  {
    for i := 0 to |patterns|
      invariant forall j :: 0 <= j < i ==> !glob(model, patterns[j])
    {
      if glob(model, patterns[i]) {
        return true;
      }
    }
    found := false;
  }

  /** The violations of a single step. */
  predicate StepViolated(v: Violation, e: Step, p: Policy, glob: Glob) {
    match v
    case StepErrorRate(name) => name == e.name && StepFailsTooOften(e, p)
    case StepSlow(name) => name == e.name && StepTooSlow(e, p)
    case ModelDenied(name, model) => name == e.name && Denied(e, p, glob) && Some(model) == ModelOf(e)
    case ModelNotAllowed(name, model) => name == e.name && NotAllowed(e, p, glob) && Some(model) == ModelOf(e)
    case StepMcpErrorRate(name) => name == e.name && StepMcpTooBad(e, p)
    case _ => false
  }

  function Missing(required: seq<string>, steps: seq<Step>): seq<string> {
    if required == [] then []
    else Missing(required[..|required| - 1], steps)
         + if required[|required| - 1] in Names(steps) then [] else [required[|required| - 1]]
  }

  predicate OverallViolated(v: Violation, s: Input, p: Policy) {
    match v
    case FewRuns => TooFewRuns(s, p)
    case LowSuccessRate => TooFewSuccesses(s, p)
    case Slow => TooSlow(s, p)
    case MissingSteps(names) => names != [] && names == Missing(p.required, s.steps)
    case _ => false
  }

  /** What `evaluate` may complain about. */
  predicate Violated(v: Violation, s: Input, p: Policy, glob: Glob) {
    || OverallViolated(v, s, p)
    || (v.McpErrorRate? && TooManyMcpErrors(s, p))
    || exists i :: 0 <= i < |s.steps| && StepViolated(v, s.steps[i], p, glob)
  }

  method CheckModel(e: Step, p: Policy, glob: Glob) returns (errors: seq<Violation>)
    ensures forall v :: v in errors <==> (v.ModelDenied? || v.ModelNotAllowed?) && StepViolated(v, e, p, glob)
  {
    errors := [];
    var named := ModelOf(e);
    if named.Some? {
      var model := named.value;
      var denied := AnyMatch(model, p.denylist, glob);
      if denied {
        errors := [ModelDenied(e.name, model)];
      }
      if p.allowlist != [] {
        var allowed := AnyMatch(model, p.allowlist, glob);
        if !allowed {
          errors := errors + [ModelNotAllowed(e.name, model)];
        }
      }
    }
  }

  method CheckStep(e: Step, p: Policy, glob: Glob) returns (errors: seq<Violation>)
    ensures forall v :: v in errors <==> StepViolated(v, e, p, glob)
  {
    errors := [];
    if StepFailsTooOften(e, p) {
      errors := [StepErrorRate(e.name)];
    }
    if StepTooSlow(e, p) {
      errors := errors + [StepSlow(e.name)];
    }
    var modelErrors := CheckModel(e, p, glob);
    errors := errors + modelErrors;
    if StepMcpTooBad(e, p) {
      errors := errors + [StepMcpErrorRate(e.name)];
    }
  }

  method MissingFrom(required: seq<string>, steps: seq<Step>) returns (missing: seq<string>)
    ensures missing == Missing(required, steps)
  {
    var present := Names(steps);
    missing := [];
    for i := 0 to |required|
      invariant missing == Missing(required[..i], steps)
    {
      assert required[..i + 1][..i] == required[..i];
      if required[i] !in present {
        missing := missing + [required[i]];
      }
    }
    assert required[..|required|] == required;
  }

  method CheckOverall(s: Input, p: Policy) returns (errors: seq<Violation>)
    ensures forall v :: v in errors <==> OverallViolated(v, s, p)
  {
    errors := [];
    if TooFewRuns(s, p) {
      errors := [FewRuns];
    }
    if TooFewSuccesses(s, p) {
      errors := errors + [LowSuccessRate];
    }
    if TooSlow(s, p) {
      errors := errors + [Slow];
    }
    var missing := MissingFrom(p.required, s.steps);
    if missing != [] {
      errors := errors + [MissingSteps(missing)];
    }
  }

  /** `evaluate`: it reports exactly the violations there are. */
  method Evaluate(s: Input, p: Policy, glob: Glob) returns (errors: seq<Violation>)
    ensures forall v :: v in errors <==> Violated(v, s, p, glob)
    ensures errors == [] <==> Passes(s, p, glob)
  {
    errors := CheckOverall(s, p);
    ghost var overall := errors;
    for i := 0 to |s.steps|
      invariant forall v :: v in errors <==>
                  v in overall || exists j :: 0 <= j < i && StepViolated(v, s.steps[j], p, glob)
    {
      var stepErrors := CheckStep(s.steps[i], p, glob);
      errors := errors + stepErrors;
    }
    if TooManyMcpErrors(s, p) {
      errors := errors + [McpErrorRate];
    }
    PassesIffNothingViolated(s, p, glob);
    assert errors != [] ==> errors[0] in errors;
  }

  lemma {:induction false} MissingIs(required: seq<string>, steps: seq<Step>)
    ensures Missing(required, steps) == [] <==> forall name :: name in required ==> name in Names(steps)
  {
    if required != [] {
      MissingIs(required[..|required| - 1], steps);
      assert required == required[..|required| - 1] + [required[|required| - 1]];
    }
  }

  lemma StepPassesIffNoneViolated(e: Step, p: Policy, glob: Glob)
    ensures StepPasses(e, p, glob) <==> forall v :: !StepViolated(v, e, p, glob)
  {
    assert StepFailsTooOften(e, p) ==> StepViolated(StepErrorRate(e.name), e, p, glob);
    assert StepTooSlow(e, p) ==> StepViolated(StepSlow(e.name), e, p, glob);
    assert StepMcpTooBad(e, p) ==> StepViolated(StepMcpErrorRate(e.name), e, p, glob);
    if ModelOf(e).Some? {
      assert Denied(e, p, glob) ==> StepViolated(ModelDenied(e.name, ModelOf(e).value), e, p, glob);
      assert NotAllowed(e, p, glob) ==> StepViolated(ModelNotAllowed(e.name, ModelOf(e).value), e, p, glob);
    }
  }

  /** A summary passes a policy exactly when nothing is violated. */
  lemma PassesIffNothingViolated(s: Input, p: Policy, glob: Glob)
    ensures Passes(s, p, glob) <==> forall v :: !Violated(v, s, p, glob)
  {
    MissingIs(p.required, s.steps);
    var missing := Missing(p.required, s.steps);
    assert missing != [] ==> Violated(MissingSteps(missing), s, p, glob);
    assert TooFewRuns(s, p) ==> Violated(FewRuns, s, p, glob);
    assert TooFewSuccesses(s, p) ==> Violated(LowSuccessRate, s, p, glob);
    assert TooSlow(s, p) ==> Violated(Slow, s, p, glob);
    assert TooManyMcpErrors(s, p) ==> Violated(McpErrorRate, s, p, glob);
    forall i | 0 <= i < |s.steps|
      ensures !StepPasses(s.steps[i], p, glob) ==> exists v :: Violated(v, s, p, glob)
      ensures StepPasses(s.steps[i], p, glob) ==> forall v :: !StepViolated(v, s.steps[i], p, glob)
    {
      StepPassesIffNoneViolated(s.steps[i], p, glob);
      if !StepPasses(s.steps[i], p, glob) {
        var v :| StepViolated(v, s.steps[i], p, glob);
        assert Violated(v, s, p, glob);
      }
    }
  }

  // ---- in plain figures ----

  /** The part does not exceed the share of the whole. */
  predicate AtMostShare(part: int, whole: int, max: Option<real>) {
    whole > 0 && max.Some? ==> part as real <= max.value * whole as real
  }

  lemma RateWithin(part: int, whole: int, max: Option<real>)
    requires whole >= 0
    ensures !Above(Rate(Some(part), Some(whole)), max) <==> AtMostShare(part, whole, max)
  {
    if whole > 0 && max.Some? {
      var rate := part as real / whole as real;
      assert rate * whole as real == part as real;
      if rate <= max.value { MulMonotone(rate, max.value, whole as real); }
      if rate > max.value { MulStrict(max.value, rate, whole as real); }
    }
  }

  lemma MulMonotone(a: real, b: real, c: real)
    requires a <= b && c > 0.0
    ensures a * c <= b * c
  {
  }

  lemma MulStrict(a: real, b: real, c: real)
    requires a < b && c > 0.0
    ensures a * c < b * c
  {
  }

  /** The figures of a step keep to the policy for its name, and to the policy for all others if there
      is none. */
  predicate StepWithin(e: Step, p: StepPolicy) {
    && AtMostShare(e.runs - e.successes, e.runs, p.maxErrorRate)
    && (e.avgLatency.Some? && p.maxLatency.Some? ==> e.avgLatency.value <= p.maxLatency.value)
    && (e.mcpErrors.Some? && e.mcpCalls.Some? ==>
          AtMostShare(e.mcpErrors.value, e.mcpCalls.value, p.maxMcpErrorRate))
  }

  /** The model a step is held to: it is on no denied pattern, and on an allowed one if any are given. */
  predicate ModelWithin(e: Step, p: Policy, glob: Glob) {
    var model := if e.models != [] then e.models[0] else if e.model.Some? then e.model.value else "";
    model != "" ==>
      && (forall x :: x in p.denylist ==> !glob(model, x))
      && (p.allowlist != [] ==> exists x :: x in p.allowlist && glob(model, x))
  }

  /** Counts are not negative, as the schema demands. */
  predicate Counts(s: Input) {
    s.mcpCalls >= 0 &&
    forall i :: 0 <= i < |s.steps| ==>
      s.steps[i].runs >= 0 && (s.steps[i].mcpCalls.Some? ==> s.steps[i].mcpCalls.value >= 0)
  }

  lemma StepPassesIff(e: Step, p: Policy, glob: Glob)
    requires e.runs >= 0 && (e.mcpCalls.Some? ==> e.mcpCalls.value >= 0)
    ensures StepPasses(e, p, glob) <==>
              StepWithin(e, if e.name in p.perStep then p.perStep[e.name] else p.default) && ModelWithin(e, p, glob)
  {
    RateWithin(e.runs - e.successes, e.runs, PolicyFor(p, e.name).maxErrorRate);
    if e.mcpCalls.Some? && e.mcpErrors.Some? {
      RateWithin(e.mcpErrors.value, e.mcpCalls.value, PolicyFor(p, e.name).maxMcpErrorRate);
    }
  }

  /** Passing in plain figures: bounds are met when reached, a missing bound or figure is no failure,
      and every required step is there by name. */
  lemma PassesIffWithin(s: Input, p: Policy, glob: Glob)
    requires Counts(s)
    ensures Passes(s, p, glob) <==>
              && (p.minRuns.Some? ==> s.runs >= p.minRuns.value)
              && (p.minSuccessRate.Some? ==> s.successRate >= p.minSuccessRate.value)
              && (p.maxLatency.Some? ==> s.avgLatency <= p.maxLatency.value)
              && AtMostShare(s.mcpErrors, s.mcpCalls, p.maxMcpErrorRate)
              && (forall name :: name in p.required ==> exists i :: 0 <= i < |s.steps| && s.steps[i].name == name)
              && forall i :: 0 <= i < |s.steps| ==>
                   var e := s.steps[i];
                   && StepWithin(e, if e.name in p.perStep then p.perStep[e.name] else p.default)
                   && ModelWithin(e, p, glob)
  {
    RateWithin(s.mcpErrors, s.mcpCalls, p.maxMcpErrorRate);
    forall name ensures name in Names(s.steps) <==> exists i :: 0 <= i < |s.steps| && s.steps[i].name == name {
      if name in Names(s.steps) { var e :| e in s.steps && e.name == name; }
    }
    forall i | 0 <= i < |s.steps| { StepPassesIff(s.steps[i], p, glob); }
  }

  // ---- on summaries that the summariser made ----

  function StepOf(e: StepEntry): Step {
    Step(e.name, e.runs, e.successes, Some(e.avgLatency), e.models, None,
         if e.mcp.Some? then Some(e.mcp.value.0) else None, if e.mcp.Some? then Some(e.mcp.value.1) else None)
  }

  function InputOf(s: Summary): Input {
    Input(s.runs, s.successRate, s.avgLatency, s.mcpCalls, s.mcpErrors,
          seq(|s.steps|, i requires 0 <= i < |s.steps| => StepOf(s.steps[i])))
  }

  /** On a produced summary, the error rate the gate compares is failures over runs, defined for
      every step and never above one. */
  lemma GateSeesFailureRate(s: Summary, dirs: seq<RunDir>, i: nat)
    requires Summarizes(s, dirs) && i < |s.steps|
    ensures var e, step := s.steps[i], InputOf(s).steps[i];
            && e.runs > 0 && FailureRate(step) == Some(e.errors as real / e.runs as real)
            && 0.0 <= e.errors as real / e.runs as real <= 1.0
            && (McpRate(step).Some? ==> McpRate(step).value <= 1.0)
  {
    EntriesAddUp(s, dirs, i);
    var e := s.steps[i];
    Fraction(e.errors, e.runs);
    if e.mcp.Some? && e.mcp.value.0 != 0 { Fraction(e.mcp.value.1, e.mcp.value.0); }
  }

  /** On a produced summary, the only model of a step that is checked is the least by name. */
  lemma LeastModelIsChecked(s: Summary, dirs: seq<RunDir>, i: nat, model: string)
    requires Summarizes(s, dirs) && i < |s.steps|
    ensures ModelOf(InputOf(s).steps[i]) == Some(model)
       <==> model in s.steps[i].models && forall other :: other in s.steps[i].models ==> Le(model, other)
  {
    ModelsAreNames(s, dirs, i);
    var models := s.steps[i].models;
    if models != [] {
      assert models[0] in models;
      forall other | other in models ensures Le(models[0], other) {
        var k :| 0 <= k < |models| && models[k] == other;
        if k == 0 { LeTotal(other, other); } else { assert TEXT_ORDER(models[0], models[k]); }
      }
      if model in models && forall other :: other in models ==> Le(model, other) { LeAntisymmetric(model, models[0]); }
    }
  }

  /** A denied model that comes second in the list is not noticed. */
  lemma SecondModelIsUnseen(e: Step, p: Policy)
    requires e.models == ["gpt-4", "gpt-5"] && p.denylist == ["gpt-5"] && p.allowlist == []
    ensures MatchesAny("gpt-5", p.denylist, (model, pattern) => model == pattern)
    ensures !Denied(e, p, (model, pattern) => model == pattern)
    ensures !NotAllowed(e, p, (model, pattern) => model == pattern)
  {
    assert "gpt-5" in p.denylist;
    assert "gpt-4"[4] != "gpt-5"[4];
  }

  lemma Fraction(n: int, d: int)
    requires 0 <= n <= d && d > 0
    ensures 0.0 <= n as real / d as real <= 1.0
  {
    assert d as real / d as real == 1.0;
  }

  // ---- looser policies ----

  /** The second bound, if any, is at least the first, which is then there. */
  predicate LooserMax(a: Option<real>, b: Option<real>) { b.Some? ==> a.Some? && a.value <= b.value }

  ghost predicate LooserStep(a: StepPolicy, b: StepPolicy) {
    && LooserMax(a.maxErrorRate, b.maxErrorRate)
    && LooserMax(a.maxLatency, b.maxLatency)
    && LooserMax(a.maxMcpErrorRate, b.maxMcpErrorRate)
  }

  /** `q` asks no more than `p`, point by point. */
  ghost predicate Looser(p: Policy, q: Policy, glob: Glob) {
    && (q.minRuns.Some? ==> p.minRuns.Some? && q.minRuns.value <= p.minRuns.value)
    && (q.minSuccessRate.Some? ==> p.minSuccessRate.Some? && q.minSuccessRate.value <= p.minSuccessRate.value)
    && LooserMax(p.maxLatency, q.maxLatency) && LooserMax(p.maxMcpErrorRate, q.maxMcpErrorRate)
    && (forall name :: name in q.required ==> name in p.required)
    && (forall name :: LooserStep(PolicyFor(p, name), PolicyFor(q, name)))
    && (forall model :: MatchesAny(model, q.denylist, glob) ==> MatchesAny(model, p.denylist, glob))
    && (q.allowlist != [] ==>
          && p.allowlist != []
          && forall model :: MatchesAny(model, p.allowlist, glob) ==> MatchesAny(model, q.allowlist, glob))
  }

  lemma {:induction false} MissingAre(required: seq<string>, steps: seq<Step>, name: string)
    ensures name in Missing(required, steps) <==> name in required && name !in Names(steps)
  {
    if required != [] {
      MissingAre(required[..|required| - 1], steps, name);
      assert required == required[..|required| - 1] + [required[|required| - 1]];
    }
  }

  lemma LooserStepReportsLess(v: Violation, e: Step, p: Policy, q: Policy, glob: Glob)
    requires Looser(p, q, glob) && StepViolated(v, e, q, glob)
    ensures StepViolated(v, e, p, glob)
  {
    assert LooserStep(PolicyFor(p, e.name), PolicyFor(q, e.name));
  }

  /** Whatever a looser policy finds wrong, the stricter one does; of the missing steps it may
      find fewer. */
  lemma LooserReportsLess(s: Input, p: Policy, q: Policy, glob: Glob)
    requires Looser(p, q, glob)
    ensures forall v :: Violated(v, s, q, glob) && !v.MissingSteps? ==> Violated(v, s, p, glob)
    ensures forall name :: name in Missing(q.required, s.steps) ==> name in Missing(p.required, s.steps)
  {
    forall v | Violated(v, s, q, glob) && !v.MissingSteps? ensures Violated(v, s, p, glob) {
      if i: int :| 0 <= i < |s.steps| && StepViolated(v, s.steps[i], q, glob) {
        LooserStepReportsLess(v, s.steps[i], p, q, glob);
      }
    }
    forall name | name in Missing(q.required, s.steps) ensures name in Missing(p.required, s.steps) {
      MissingAre(q.required, s.steps, name);
      MissingAre(p.required, s.steps, name);
    }
  }

  /** What passes a policy passes every looser one. */
  lemma LooserPasses(s: Input, p: Policy, q: Policy, glob: Glob)
    requires Passes(s, p, glob) && Looser(p, q, glob)
    ensures Passes(s, q, glob)
  {
    LooserReportsLess(s, p, q, glob);
    PassesIffNothingViolated(s, p, glob);
    PassesIffNothingViolated(s, q, glob);
    MissingIs(q.required, s.steps);
    assert Missing(q.required, s.steps) == [];
  }
}

/** `CircuitBreaker` and the retry loop of `AsyncMCPClient.invoke`. */
module CircuitBreaker {
  import opened Options

  datatype CircuitState = Closed | Open | HalfOpen

  datatype Config = Config(failureThreshold: int, successThreshold: int, timeout: real, halfOpenMax: int)

  datatype Breaker = Breaker(
    state: CircuitState,
    failureCount: int,
    successCount: int,
    lastFailure: Option<real>,
    halfOpenCalls: int)

  const INITIAL := Breaker(Closed, 0, 0, None, 0)

  datatype Attempted = Attempted(allowed: bool, breaker: Breaker)

  function Attempt(c: Config, b: Breaker, now: real): Attempted {
    match b.state
    case Closed => Attempted(true, b)
    case Open =>
      if b.lastFailure.Some? && now - b.lastFailure.value >= c.timeout
      then Attempted(true, b.(state := HalfOpen, halfOpenCalls := 0))
      else Attempted(false, b)
    case HalfOpen =>
      if b.halfOpenCalls < c.halfOpenMax
      then Attempted(true, b.(halfOpenCalls := b.halfOpenCalls + 1))
      else Attempted(false, b)
  }

  function Succeed(c: Config, b: Breaker): Breaker {
    match b.state
    case HalfOpen =>
      if b.successCount + 1 >= c.successThreshold
      then b.(state := Closed, failureCount := 0, successCount := 0)
      else b.(successCount := b.successCount + 1)
    case Closed => b.(failureCount := 0)
    case Open => b
  }

  function Fail(c: Config, b: Breaker, now: real): Breaker {
    var b' := b.(lastFailure := Some(now));
    match b.state
    case HalfOpen => b'.(state := Open, successCount := 0)
    case Closed =>
      b'.(failureCount := b.failureCount + 1,
          state := if b.failureCount + 1 >= c.failureThreshold then Open else Closed)
    case Open => b'
  }

  function Reset(b: Breaker): Breaker {
    b.(state := Closed, failureCount := 0, successCount := 0)
  }

  class CircuitBreaker {
    const config: Config
    var state: CircuitState
    var failureCount: int
    var successCount: int
    var lastFailure: Option<real>
    var halfOpenCalls: int

    ghost function View(): Breaker
      reads this
    {
      Breaker(state, failureCount, successCount, lastFailure, halfOpenCalls)
    }

    constructor (config: Config)
      ensures this.config == config && View() == INITIAL
    {
      this.config := config;
      state := Closed;
      failureCount := 0;
      successCount := 0;
      lastFailure := None;
      halfOpenCalls := 0;
    }

    method CanAttempt(now: real) returns (allowed: bool)
      modifies this
      ensures Attempted(allowed, View()) == Attempt(config, old(View()), now)
    {
      if state.Closed? {
        return true;
      }
      if state.Open? {
        if lastFailure.Some? {
          var elapsed := now - lastFailure.value;
          if elapsed >= config.timeout {
            state := HalfOpen;
            halfOpenCalls := 0;
            return true;
          }
        }
        return false;
      }
      if halfOpenCalls < config.halfOpenMax {
        halfOpenCalls := halfOpenCalls + 1;
        return true;
      }
      return false;
    }

    method RecordSuccess()
      modifies this
      ensures View() == Succeed(config, old(View()))
    {
      if state.HalfOpen? {
        successCount := successCount + 1;
        if successCount >= config.successThreshold {
          state := Closed;
          failureCount := 0;
          successCount := 0;
        }
      } else if state.Closed? {
        failureCount := 0;
      }
    }

    method RecordFailure(now: real)
      modifies this
      ensures View() == Fail(config, old(View()), now)
    {
      lastFailure := Some(now);
      if state.HalfOpen? {
        state := Open;
        successCount := 0;
      } else if state.Closed? {
        failureCount := failureCount + 1;
        if failureCount >= config.failureThreshold {
          state := Open;
        }
      }
    }

    method ResetCircuit()
      modifies this
      ensures View() == Reset(old(View()))
    {
      state := Closed;
      failureCount := 0;
      successCount := 0;
    }
  }

  // ---- traces: calls of any number of concurrent invokes, in any order ----

  datatype Event = TryAt(now: real) | Success | Failure(now: real) | ManualReset

  function Step(c: Config, b: Breaker, e: Event): Breaker {
    match e
    case TryAt(now) => Attempt(c, b, now).breaker
    case Success => Succeed(c, b)
    case Failure(now) => Fail(c, b, now)
    case ManualReset => Reset(b)
  }

  predicate Admits(c: Config, b: Breaker, e: Event) {
    e.TryAt? && Attempt(c, b, e.now).allowed
  }

  /** The breaker after the first `n` events. */
  function At(c: Config, es: seq<Event>, n: nat): Breaker
    requires n <= |es|
  {
    if n == 0 then INITIAL else Step(c, At(c, es, n - 1), es[n - 1])
  }

  predicate Timed(e: Event) { e.TryAt? || e.Failure? }

  /** Clock readings never go back. */
  ghost predicate Ordered(es: seq<Event>) {
    forall i, j :: 0 <= i < j < |es| && Timed(es[i]) && Timed(es[j]) ==> es[i].now <= es[j].now
  }

  function Max(a: int, b: int): int { if a >= b then a else b }

  /** Failures recorded while closed since the last success, reset or closing. */
  function TrailingFailures(c: Config, es: seq<Event>, n: nat): nat
    requires n <= |es|
  {
    if n == 0 || !At(c, es, n - 1).state.Closed? then 0
    else match es[n - 1]
         case TryAt(_) => TrailingFailures(c, es, n - 1)
         case Failure(_) => TrailingFailures(c, es, n - 1) + 1
         case Success => 0
         case ManualReset => 0
  }

  /** While closed, the failure counter is the length of the trailing run of failures, and
      it is below the threshold; successes are only counted while half open. */
  lemma {:induction false} CountersMeanWhatTheySay(c: Config, es: seq<Event>, n: nat)
    requires n <= |es|
    ensures var b := At(c, es, n);
            && (b.state.Closed? ==> b.failureCount == TrailingFailures(c, es, n) < Max(c.failureThreshold, 1))
            && (!b.state.HalfOpen? ==> b.successCount == 0)
            && 0 <= b.successCount < Max(c.successThreshold, 1)
            && (b.state.Open? ==> b.lastFailure.Some?)
  {
    if n > 0 {
      CountersMeanWhatTheySay(c, es, n - 1);
    }
  }

  /** A closed breaker opens exactly at the failure that completes a run of
      `failure_threshold` failures. */
  lemma OpensExactlyAtThreshold(c: Config, es: seq<Event>, n: nat)
    requires n < |es| && At(c, es, n).state.Closed?
    ensures At(c, es, n + 1).state.Open? <==>
              es[n].Failure? && TrailingFailures(c, es, n) + 1 >= c.failureThreshold
    ensures !At(c, es, n + 1).state.HalfOpen?
  {
    CountersMeanWhatTheySay(c, es, n);
  }

  /** The breaker remembers the latest failure. */
  lemma {:induction false} LastFailureIsLatest(c: Config, es: seq<Event>, n: nat, i: nat)
    requires n <= |es| && Ordered(es) && i < n && es[i].Failure?
    ensures At(c, es, n).lastFailure.Some? && es[i].now <= At(c, es, n).lastFailure.value
    ensures exists j :: i <= j < n && es[j].Failure? && es[j].now == At(c, es, n).lastFailure.value
  {
    if i < n - 1 {
      LastFailureIsLatest(c, es, n - 1, i);
      var j :| i <= j < n - 1 && es[j].Failure? && es[j].now == At(c, es, n - 1).lastFailure.value;
      if es[n - 1].Failure? {
        assert es[i].now <= es[n - 1].now;
      }
    }
  }

  /** An open breaker admits nothing within the timeout of any recorded failure. */
  lemma OpenWaitsOutTheTimeout(c: Config, es: seq<Event>, n: nat, i: nat)
    requires n < |es| && Ordered(es) && i < n && es[i].Failure?
    requires At(c, es, n).state.Open? && Admits(c, At(c, es, n), es[n])
    ensures es[n].now - es[i].now >= c.timeout
  {
    LastFailureIsLatest(c, es, n, i);
  }

  /** Admissions among the events `lo..hi`. */
  function Admissions(c: Config, es: seq<Event>, lo: nat, hi: nat): nat
    requires lo <= hi <= |es|
    decreases hi
  {
    if lo == hi then 0
    else Admissions(c, es, lo, hi - 1) + (if Admits(c, At(c, es, hi - 1), es[hi - 1]) then 1 else 0)
  }

  /** A half-open episode: it starts with the attempt that leaves OPEN. */
  ghost predicate Episode(c: Config, es: seq<Event>, lo: nat, hi: nat) {
    && lo < hi <= |es|
    && At(c, es, lo).state.Open?
    && forall i :: lo < i <= hi ==> At(c, es, i).state.HalfOpen?
  }

  lemma {:induction false} EpisodeCounts(c: Config, es: seq<Event>, lo: nat, hi: nat)
    requires Episode(c, es, lo, hi)
    ensures Admissions(c, es, lo, hi) == 1 + At(c, es, hi).halfOpenCalls
    ensures 0 <= At(c, es, hi).halfOpenCalls <= Max(c.halfOpenMax, 0)
    decreases hi
  {
    if hi == lo + 1 {
      assert Admissions(c, es, lo, lo) == 0;
      assert At(c, es, hi) == Step(c, At(c, es, lo), es[lo]);
    } else {
      EpisodeCounts(c, es, lo, hi - 1);
      assert At(c, es, hi) == Step(c, At(c, es, hi - 1), es[hi - 1]);
    }
  }

  /** Each half-open episode admits at most `half_open_max_calls + 1` attempts: the one that
      ends OPEN is not counted against the budget. The event that ends the episode cannot
      add one. */
  lemma EpisodeBudget(c: Config, es: seq<Event>, lo: nat, hi: nat)
    requires Episode(c, es, lo, hi)
    ensures Admissions(c, es, lo, hi) <= Max(c.halfOpenMax, 0) + 1
    ensures hi < |es| && !At(c, es, hi + 1).state.HalfOpen? ==>
              Admissions(c, es, lo, hi + 1) <= Max(c.halfOpenMax, 0) + 1
  {
    EpisodeCounts(c, es, lo, hi);
    if hi < |es| {
      assert At(c, es, hi + 1) == Step(c, At(c, es, hi), es[hi]);
    }
  }

  // ---- exactly what is admitted, and exactly when the state changes ----

  /** The time of the last failure among the first `n` events. */
  function LatestFailure(es: seq<Event>, n: nat): Option<real>
    requires n <= |es|
  {
    if n == 0 then None else if es[n - 1].Failure? then Some(es[n - 1].now) else LatestFailure(es, n - 1)
  }

  lemma {:induction false} LastFailureIs(c: Config, es: seq<Event>, n: nat)
    requires n <= |es|
    ensures At(c, es, n).lastFailure == LatestFailure(es, n)
  {
    if n > 0 { LastFailureIs(c, es, n - 1); }
  }

  /** Every half-open state lies in an episode. */
  lemma {:induction false} EpisodeOf(c: Config, es: seq<Event>, n: nat) returns (lo: nat)
    requires n <= |es| && At(c, es, n).state.HalfOpen?
    ensures Episode(c, es, lo, n)
  {
    if At(c, es, n - 1).state.HalfOpen? {
      lo := EpisodeOf(c, es, n - 1);
    } else {
      lo := n - 1;
    }
  }

  /** An attempt is admitted exactly when the breaker is closed, or open with the timeout passed
      since the latest failure, or half open with fewer admissions in the episode so far than the
      budget and the one that began it. */
  lemma AdmittedIff(c: Config, es: seq<Event>, n: nat)
    requires n < |es| && es[n].TryAt?
    ensures var last := LatestFailure(es, n);
            Admits(c, At(c, es, n), es[n]) <==>
              match At(c, es, n).state
              case Closed => true
              case Open => last.Some? && es[n].now - last.value >= c.timeout
              case HalfOpen => exists lo :: Episode(c, es, lo, n) && Admissions(c, es, lo, n) < c.halfOpenMax + 1
    ensures At(c, es, n).state.Closed? ==> At(c, es, n + 1) == At(c, es, n)
  {
    LastFailureIs(c, es, n);
    if At(c, es, n).state.HalfOpen? {
      var lo := EpisodeOf(c, es, n);
      forall lo | Episode(c, es, lo, n) ensures Admissions(c, es, lo, n) == 1 + At(c, es, n).halfOpenCalls {
        EpisodeCounts(c, es, lo, n);
      }
    }
  }

  /** Successes recorded among the events `lo..hi`. */
  function Successes(es: seq<Event>, lo: nat, hi: nat): nat
    requires lo <= hi <= |es|
    decreases hi
  {
    if lo == hi then 0 else Successes(es, lo, hi - 1) + if es[hi - 1].Success? then 1 else 0
  }

  lemma {:induction false} EpisodeSuccesses(c: Config, es: seq<Event>, lo: nat, hi: nat)
    requires Episode(c, es, lo, hi)
    ensures At(c, es, hi).successCount == Successes(es, lo, hi)
    decreases hi
  {
    if hi == lo + 1 {
      CountersMeanWhatTheySay(c, es, lo);
      assert At(c, es, hi) == Step(c, At(c, es, lo), es[lo]) && Successes(es, lo, lo) == 0;
    } else {
      EpisodeSuccesses(c, es, lo, hi - 1);
      assert At(c, es, hi) == Step(c, At(c, es, hi - 1), es[hi - 1]);
    }
  }

  /** An open breaker turns half open exactly at an admitted attempt and closes exactly at a reset. */
  lemma LeavesOpenIff(c: Config, es: seq<Event>, n: nat)
    requires n < |es| && At(c, es, n).state.Open?
    ensures At(c, es, n + 1).state.HalfOpen? <==> Admits(c, At(c, es, n), es[n])
    ensures At(c, es, n + 1).state.Closed? <==> es[n].ManualReset?
  {
  }

  /** An episode ends exactly at a failure, which opens the breaker again, or at a reset or the
      success that makes the episode's successes as many as the threshold, which close it. */
  lemma EpisodeEndsIff(c: Config, es: seq<Event>, lo: nat, n: nat)
    requires Episode(c, es, lo, n) && n < |es|
    ensures At(c, es, n + 1).state.Open? <==> es[n].Failure?
    ensures At(c, es, n + 1).state.Closed? <==>
              es[n].ManualReset? || (es[n].Success? && Successes(es, lo, n) + 1 >= c.successThreshold)
  {
    EpisodeSuccesses(c, es, lo, n);
  }

  // ---- recovery in sequential use ----

  /** One invoke after another, each succeeding at its first attempt if it is let through. */
  function Recover(c: Config, b: Breaker, nows: seq<real>): Breaker {
    if nows == [] then b
    else
      var b' := Recover(c, b, nows[..|nows| - 1]);
      var a := Attempt(c, b', nows[|nows| - 1]);
      if a.allowed then Succeed(c, a.breaker) else a.breaker
  }

  /** Open, with nothing counted and the timeout passed at the first of the coming calls. */
  predicate Due(c: Config, b: Breaker, nows: seq<real>) {
    && b.state.Open? && b.successCount == 0 && b.lastFailure.Some?
    && (nows != [] ==> nows[0] - b.lastFailure.value >= c.timeout)
  }

  lemma {:induction false} RecoverProgress(c: Config, b: Breaker, nows: seq<real>)
    requires Due(c, b, nows) && nows != []
    ensures var n := |nows|;
            var budget, need := Max(c.halfOpenMax, 0) + 1, Max(c.successThreshold, 1);
            var r := Recover(c, b, nows);
            if need <= budget && n >= need then r.state.Closed?
            else
              && r.state.HalfOpen?
              && r.successCount == (if n <= budget then n else budget)
              && r.halfOpenCalls == (if n <= budget then n - 1 else budget - 1)
  {
    var init := nows[..|nows| - 1];
    if init != [] {
      assert init[0] == nows[0];
      RecoverProgress(c, b, init);
    } else {
      assert Recover(c, b, init) == b;
    }
  }

  /** After the timeout, successful invokes one after another close the breaker if and only
      if the success threshold fits in the half-open budget, and then as soon as there have
      been that many. Otherwise it stays half open, however many follow. */
  lemma ClosesIffThresholdFits(c: Config, b: Breaker, nows: seq<real>)
    requires Due(c, b, nows) && nows != []
    ensures Recover(c, b, nows).state.Closed? <==>
              Max(c.successThreshold, 1) <= Max(c.halfOpenMax, 0) + 1 && |nows| >= Max(c.successThreshold, 1)
  {
    RecoverProgress(c, b, nows);
  }

  /** Once the budget is spent on too high a threshold, every later attempt is refused. */
  lemma WedgedWhenThresholdTooHigh(c: Config, b: Breaker, nows: seq<real>, now: real)
    requires Due(c, b, nows) && Max(c.successThreshold, 1) > Max(c.halfOpenMax, 0) + 1
    requires |nows| >= Max(c.halfOpenMax, 0) + 1
    ensures !Attempt(c, Recover(c, b, nows), now).allowed
    ensures Attempt(c, Recover(c, b, nows), now).breaker == Recover(c, b, nows)
  {
    RecoverProgress(c, b, nows);
  }

  // ---- a spent budget ----

  predicate Spent(c: Config, b: Breaker) { b.state.HalfOpen? && b.halfOpenCalls >= c.halfOpenMax }

  /** Half open with its budget spent, a breaker refuses every attempt and stays as it is until a
      success, a failure or a reset is recorded. */
  lemma {:induction false} SpentUntilRecorded(c: Config, es: seq<Event>, lo: nat, hi: nat)
    requires lo <= hi <= |es| && Spent(c, At(c, es, lo))
    requires forall i :: lo <= i < hi ==> es[i].TryAt?
    ensures At(c, es, hi) == At(c, es, lo)
    ensures forall i :: lo <= i < hi ==> !Admits(c, At(c, es, i), es[i])
  {
    if lo < hi { SpentUntilRecorded(c, es, lo, hi - 1); }
  }

  /** The default configuration. */
  const DEFAULT := Config(5, 2, 60.0, 1)

  lemma FiveFailures(c: Config, es: seq<Event>)
    requires c.failureThreshold == 5 && |es| >= 5 && forall i :: 0 <= i < 5 ==> es[i] == Failure(0.0)
    ensures At(c, es, 5) == Breaker(Open, 5, 0, Some(0.0), 0)
  {
    assert At(c, es, 1) == Breaker(Closed, 1, 0, Some(0.0), 0);
    assert At(c, es, 2) == Breaker(Closed, 2, 0, Some(0.0), 0);
    assert At(c, es, 3) == Breaker(Closed, 3, 0, Some(0.0), 0);
    assert At(c, es, 4) == Breaker(Closed, 4, 0, Some(0.0), 0);
  }

  /** The default threshold fits the budget, yet an admitted call that is cancelled uses budget up:
      it records nothing, and after one later success the budget is spent with a success missing. */
  lemma CancelledCallWedges()
    ensures var f := Failure(0.0);
            var es := [f, f, f, f, f, TryAt(60.0), TryAt(61.0), Success];
            && Admits(DEFAULT, At(DEFAULT, es, 5), es[5]) && Admits(DEFAULT, At(DEFAULT, es, 6), es[6])
            && At(DEFAULT, es, 8) == Breaker(HalfOpen, 5, 1, Some(0.0), 1)
            && Spent(DEFAULT, At(DEFAULT, es, 8))
  {
    var f := Failure(0.0);
    var es := [f, f, f, f, f, TryAt(60.0), TryAt(61.0), Success];
    FiveFailures(DEFAULT, es);
    assert At(DEFAULT, es, 6) == Breaker(HalfOpen, 5, 0, Some(0.0), 0);
    assert At(DEFAULT, es, 7) == Breaker(HalfOpen, 5, 0, Some(0.0), 1);
  }

  /** With a threshold of three and a budget of two, two successes are not enough and no third
      attempt is admitted. */
  lemma ThreeOfTwo()
    ensures var c := Config(5, 3, 60.0, 1);
            var b := Recover(c, Breaker(Open, 5, 0, Some(0.0), 0), [60.0, 61.0]);
            b == Breaker(HalfOpen, 5, 2, Some(0.0), 1) && !Attempt(c, b, 62.0).allowed
  {
    var c, b := Config(5, 3, 60.0, 1), Breaker(Open, 5, 0, Some(0.0), 0);
    assert [60.0, 61.0][..1] == [60.0] && [60.0][..0] == [];
    assert Recover(c, b, []) == b;
    assert Recover(c, b, [60.0]) == Breaker(HalfOpen, 5, 1, Some(0.0), 0);
  }

  // ---- the retry loop ----

  /** A cancelled attempt ends the invoke; `CancelledError` is no `Exception`, so nothing is recorded. */
  datatype Reply = Ok | TimedOut | Errored | Cut

  datatype InvokeResult = Returned | CircuitOpen | TimeoutError | ClientError | Cancelled

  /** Attempt numbers count from 1; `reply(i)` is the outcome of attempt `i` and `at(i)` the
      clock reading if it fails. */
  datatype World = World(reply: nat -> Reply, at: nat -> real)

  /** The breaker after attempts `1..n` all failed. */
  function Failed(c: Config, b: Breaker, w: World, n: nat): Breaker {
    if n == 0 then b else Fail(c, Failed(c, b, w, n - 1), w.at(n))
  }

  predicate Ends(r: Reply) { r.Ok? || r.Cut? }

  /** The first attempt among the first `n` that succeeds or is cancelled, or 0. */
  function FirstEnd(w: World, n: nat): (k: nat)
    ensures k <= n && (k > 0 ==> Ends(w.reply(k)))
    ensures forall i: nat :: 1 <= i <= n && (k == 0 || i < k) ==> !Ends(w.reply(i))
  {
    if n == 0 then 0
    else if FirstEnd(w, n - 1) > 0 then FirstEnd(w, n - 1)
    else if Ends(w.reply(n)) then n else 0
  }

  /** How up to `n` attempts end, let through by the breaker `b`: at the first success or cancellation,
      or when they run out; the failures before it and the success are recorded. */
  ghost predicate Ended(c: Config, b: Breaker, w: World, n: nat, r: InvokeResult, attempts: nat, after: Breaker) {
    var k := FirstEnd(w, n);
    if k > 0 && w.reply(k).Cut? then r.Cancelled? && attempts == k && after == Failed(c, b, w, k - 1)
    else if k > 0 then r.Returned? && attempts == k && after == Succeed(c, Failed(c, b, w, k - 1))
    else
      && r == (if n > 0 && w.reply(n).TimedOut? then TimeoutError else ClientError) && attempts == n
      && after == Failed(c, b, w, n)
  }

  class AsyncMCPClient {
    const breaker: CircuitBreaker
    const maxAttempts: int

    constructor (breaker: CircuitBreaker, maxAttempts: int)
      ensures this.breaker == breaker && this.maxAttempts == maxAttempts
    {
      this.breaker := breaker;
      this.maxAttempts := maxAttempts;
    }

    /** `invoke`: one admission check, then attempts until one succeeds or they run out.
        Every failure is recorded, and the breaker is not consulted again. */
    method Invoke(now: real, w: World) returns (r: InvokeResult, attempts: nat)
      modifies breaker
      ensures var a := Attempt(breaker.config, old(breaker.View()), now);
              if !a.allowed then r.CircuitOpen? && attempts == 0 && breaker.View() == a.breaker
              else Ended(breaker.config, a.breaker, w, Max(maxAttempts, 0), r, attempts, breaker.View())
    {
      var allowed := breaker.CanAttempt(now);
      if !allowed {
        return CircuitOpen, 0;
      }
      r, attempts := Attempts(w, breaker.View());
    }

    /** The attempts of an invoke that is let through. */
    method Attempts(w: World, ghost admitted: Breaker) returns (r: InvokeResult, attempts: nat)
      requires breaker.View() == admitted
      modifies breaker
      ensures Ended(breaker.config, admitted, w, Max(maxAttempts, 0), r, attempts, breaker.View())
    {
      attempts := 0;
      while attempts < maxAttempts
        invariant attempts <= Max(maxAttempts, 0)
        invariant FirstEnd(w, attempts) == 0
        invariant breaker.View() == Failed(breaker.config, admitted, w, attempts)
        invariant attempts > 0 ==> attempts < maxAttempts
      {
        attempts := attempts + 1;
        EndMore(breaker.config, admitted, w, attempts, Max(maxAttempts, 0));
        match w.reply(attempts) {
          case Ok =>
            breaker.RecordSuccess();
            return Returned, attempts;
          case Cut =>
            return Cancelled, attempts;
          case TimedOut =>
            breaker.RecordFailure(w.at(attempts));
            if attempts >= maxAttempts {
              return TimeoutError, attempts;
            }
          case Errored =>
            breaker.RecordFailure(w.at(attempts));
            if attempts >= maxAttempts {
              return ClientError, attempts;
            }
        }
      }
      r := ClientError;
    }
  }

  /** What the `k`-th attempt means for the end, if none before it was one. */
  lemma EndMore(c: Config, b: Breaker, w: World, k: nat, n: nat)
    requires 1 <= k <= n && FirstEnd(w, k - 1) == 0
    ensures w.reply(k).Ok? ==> Ended(c, b, w, n, Returned, k, Succeed(c, Failed(c, b, w, k - 1)))
    ensures w.reply(k).Cut? ==> Ended(c, b, w, n, Cancelled, k, Failed(c, b, w, k - 1))
    ensures !Ends(w.reply(k)) ==>
              FirstEnd(w, k) == 0 && Failed(c, b, w, k) == Fail(c, Failed(c, b, w, k - 1), w.at(k))
    ensures !Ends(w.reply(k)) && k == n ==>
              Ended(c, b, w, n, if w.reply(k).TimedOut? then TimeoutError else ClientError, k, Failed(c, b, w, k))
  {
    if Ends(w.reply(k)) { FirstEndStays(w, k, n); }
  }

  /** An invoke of a new client whose first attempt succeeds, in any configuration. */
  method FirstInvoke(config: Config, maxAttempts: int, now: real, w: World) returns (r: InvokeResult, attempts: nat)
    requires maxAttempts >= 1
    ensures w.reply(1).Ok? ==> r.Returned? && attempts == 1
    ensures !r.CircuitOpen? && attempts >= 1
  {
    var breaker := new CircuitBreaker(config);
    var client := new AsyncMCPClient(breaker, maxAttempts);
    r, attempts := client.Invoke(now, w);
    if w.reply(1).Ok? { FirstEndStays(w, 1, maxAttempts); }
  }

  lemma {:induction false} FirstEndStays(w: World, k: nat, n: nat)
    requires k <= n && FirstEnd(w, k) == k > 0
    ensures FirstEnd(w, n) == k
  {
    if k < n { FirstEndStays(w, k, n - 1); }
  }

  /** The failures of one invoke add up: from a closed breaker, `n` failed attempts open it
      exactly when they complete the run the threshold asks for. */
  lemma {:induction false} FailedRunOpens(c: Config, b: Breaker, w: World, n: nat)
    requires b.state.Closed? && 0 <= b.failureCount < Max(c.failureThreshold, 1)
    ensures Failed(c, b, w, n).state.Open? <==> n > 0 && b.failureCount + n >= c.failureThreshold
    ensures Failed(c, b, w, n).state.Closed? ==> Failed(c, b, w, n).failureCount == b.failureCount + n
    ensures !Failed(c, b, w, n).state.HalfOpen?
  {
    if n > 0 {
      FailedRunOpens(c, b, w, n - 1);
    }
  }

  lemma {:induction false} FailedStaysOpen(c: Config, b: Breaker, w: World, n: nat)
    requires b.state.HalfOpen? && n > 0
    ensures Failed(c, b, w, n).state.Open? && Failed(c, b, w, n).lastFailure == Some(w.at(n))
  {
    if n > 1 {
      FailedStaysOpen(c, b, w, n - 1);
    }
  }

  /** An invoke admitted while half open that fails once reopens the breaker for good: its
      own later success is returned to the caller but leaves the breaker open. */
  lemma RetrySuccessDoesNotClose(c: Config, b: Breaker, w: World, k: nat)
    requires b.state.HalfOpen? && k >= 2 && FirstEnd(w, k) == k && w.reply(k).Ok?
    ensures var after := Succeed(c, Failed(c, b, w, k - 1));
            after.state.Open? && after.lastFailure == Some(w.at(k - 1))
  {
    FailedStaysOpen(c, b, w, k - 1);
  }
}

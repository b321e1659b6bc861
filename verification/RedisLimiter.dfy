/** `RedisRateLimiter` over many callers: sorted sets and counters share one space of Redis keys. */
module RedisLimiter {
  import opened SlidingWindow

  /** What Redis holds under a key. */
  datatype Value = ZSet(entries: map<string, real>, expireAt: real) | Counter(n: nat, expireAt: real)

  type Db = map<string, Value>

  function SetKey(key: string): string { "rate_limit:" + key }

  function SeqKey(key: string): string { SetKey(key) + ":seq" }

  /** An expired value is gone. */
  function Touched(db: Db, k: string, now: real): Db {
    if k in db && now >= db[k].expireAt then db - {k} else db
  }

  /** `WrongType`: a command met a value of another kind, and the script ends there. */
  datatype Outcome = Admitted | Refused | WrongType

  datatype Evaluated = Evaluated(outcome: Outcome, db: Db)

  /** The trim; a set that loses its last member is deleted. */
  function Trimmed(db: Db, k: string, now: real): Db
    requires k in db ==> db[k].ZSet?
  {
    if k !in db then db
    else
      var kept := Trim(db[k].entries, now);
      if kept == map[] then db - {k} else db[k := ZSet(kept, db[k].expireAt)]
  }

  /** The script, with the effects it has before an error. */
  function Eval(fmt: real -> string, qps: int, db: Db, key: string, now: real): Evaluated {
    var live := Touched(Touched(db, SetKey(key), now), SeqKey(key), now);
    if SetKey(key) in live && live[SetKey(key)].Counter? then Evaluated(WrongType, live)
    else
      var kept := Trimmed(live, SetKey(key), now);
      var entries := if SetKey(key) in kept then kept[SetKey(key)].entries else map[];
      if |entries| >= qps then Evaluated(Refused, kept)
      else if SeqKey(key) in kept && kept[SeqKey(key)].ZSet? then Evaluated(WrongType, kept)
      else
        var n := (if SeqKey(key) in kept then kept[SeqKey(key)].n else 0) + 1;
        var set' := ZSet(entries[Member(fmt, now, n) := now], now + 2.0);
        Evaluated(Admitted, kept[SetKey(key) := set'][SeqKey(key) := Counter(n, now + 2.0)])
  }

  /** Whether the script runs, and whether its answer arrives. */
  datatype Fate = Answered | NotRun | ReplyLost

  /** The script's commands one by one. */
  method RunScript(fmt: real -> string, qps: int, db: Db, key: string, now: real) returns (outcome: Outcome, after: Db)
    ensures Evaluated(outcome, after) == Eval(fmt, qps, db, key, now)
  {
    var live := Touched(Touched(db, SetKey(key), now), SeqKey(key), now);
    if SetKey(key) in live && live[SetKey(key)].Counter? {
      return WrongType, live;
    }
    var kept := Trimmed(live, SetKey(key), now);
    var entries := if SetKey(key) in kept then kept[SetKey(key)].entries else map[];
    var count := |entries|;
    if count >= qps {
      return Refused, kept;
    }
    if SeqKey(key) in kept && kept[SeqKey(key)].ZSet? {
      return WrongType, kept;
    }
    var n := (if SeqKey(key) in kept then kept[SeqKey(key)].n else 0) + 1;
    entries := entries[Member(fmt, now, n) := now];
    outcome := Admitted;
    after := kept[SetKey(key) := ZSet(entries, now + 2.0)][SeqKey(key) := Counter(n, now + 2.0)];
  }

  class RedisRateLimiter {
    const qps: int
    const fmt: real -> string
    var db: Db

    constructor (qps: int, fmt: real -> string)
      ensures this.qps == qps && this.fmt == fmt && db == map[]
    {
      this.qps := qps;
      this.fmt := fmt;
      db := map[];
    }

    /** True lets the request through, as every failure does: one to reach Redis, one to hear from
        it after the script ran, and an error of the script. */
    method CheckRateLimit(key: string, now: real, fate: Fate) returns (allowed: bool)
      modifies this
      ensures db == if fate.NotRun? then old(db) else Eval(fmt, qps, old(db), key, now).db
      ensures allowed <==> fate != Answered || Eval(fmt, qps, old(db), key, now).outcome != Refused
    {
      if fate.NotRun? {
        return true;
      }
      var outcome, after := RunScript(fmt, qps, db, key, now);
      db := after;
      allowed := fate != Answered || outcome != Refused;
    }
  }

  // ---- which callers share a Redis key ----

  /** One caller key is the other with `:seq` behind it. */
  predicate Linked(a: string, b: string) { b == a + ":seq" || a == b + ":seq" }

  predicate Owns(key: string, k: string) { k == SetKey(key) || k == SeqKey(key) }

  lemma SetKeyInjective(a: string, b: string)
    requires SetKey(a) == SetKey(b)
    ensures a == b
  {
    var p := "rate_limit:";
    assert (p + a)[|p|..] == a && (p + b)[|p|..] == b;
  }

  lemma SeqKeyIsSet(a: string)
    ensures SeqKey(a) == SetKey(a + ":seq")
  {
    assert "rate_limit:" + a + ":seq" == "rate_limit:" + (a + ":seq");
  }

  lemma SuffixInjective(a: string, b: string)
    requires a + ":seq" == b + ":seq"
    ensures a == b
  {
    assert |a| == |b|;
    assert (a + ":seq")[..|a|] == a && (b + ":seq")[..|b|] == b;
  }

  /** Two different callers share a Redis key exactly when one is the other with `:seq` behind it. */
  lemma SharedKeyIff(a: string, b: string)
    requires a != b
    ensures (exists k :: Owns(a, k) && Owns(b, k)) <==> Linked(a, b)
  {
    SeqKeyIsSet(a);
    SeqKeyIsSet(b);
    if Linked(a, b) {
      var k := if b == a + ":seq" then SetKey(b) else SetKey(a);
      assert Owns(a, k) && Owns(b, k);
    }
    if k :| Owns(a, k) && Owns(b, k) {
      if k == SetKey(a) && k == SeqKey(b) { SetKeyInjective(a, b + ":seq"); }
      if k == SeqKey(a) && k == SetKey(b) { SetKeyInjective(a + ":seq", b); }
      if k == SetKey(a) && k == SetKey(b) { SetKeyInjective(a, b); }
      if k == SeqKey(a) && k == SeqKey(b) {
        SetKeyInjective(a + ":seq", b + ":seq");
        SuffixInjective(a, b);
      }
    }
  }

  /** Both hold the same under `k`. */
  ghost predicate SameAt(db: Db, db': Db, k: string) {
    (k in db <==> k in db') && (k in db ==> db[k] == db'[k])
  }

  lemma TouchedElsewhere(db: Db, j: string, now: real, k: string)
    requires j != k
    ensures SameAt(db, Touched(db, j, now), k)
  {
  }

  lemma TrimmedElsewhere(db: Db, j: string, now: real, k: string)
    requires j != k && (j in db ==> db[j].ZSet?)
    ensures SameAt(db, Trimmed(db, j, now), k)
  {
  }

  lemma PutElsewhere(db: Db, j: string, v: Value, j': string, v': Value, k: string)
    requires j != k && j' != k
    ensures SameAt(db, db[j := v][j' := v'], k)
  {
  }

  lemma ExpiredElsewhere(db: Db, key: string, now: real, k: string)
    requires !Owns(key, k)
    ensures SameAt(db, Touched(Touched(db, SetKey(key), now), SeqKey(key), now), k)
  {
    TouchedElsewhere(db, SetKey(key), now, k);
    TouchedElsewhere(Touched(db, SetKey(key), now), SeqKey(key), now, k);
  }

  /** A call changes nothing under the Redis keys of others. */
  lemma OthersUntouched(fmt: real -> string, qps: int, db: Db, key: string, now: real, k: string)
    requires !Owns(key, k)
    ensures SameAt(db, Eval(fmt, qps, db, key, now).db, k)
  {
    ExpiredElsewhere(db, key, now, k);
    var live := Touched(Touched(db, SetKey(key), now), SeqKey(key), now);
    if SetKey(key) in live ==> live[SetKey(key)].ZSet? {
      TrimmedElsewhere(live, SetKey(key), now, k);
      var kept, after := Trimmed(live, SetKey(key), now), Eval(fmt, qps, db, key, now);
      if after.outcome.Admitted? {
        PutElsewhere(kept, SetKey(key), after.db[SetKey(key)], SeqKey(key), after.db[SeqKey(key)], k);
      }
    }
  }

  // ---- a key whose Redis keys are its own ----

  /** What Redis holds for the key is its window. */
  ghost predicate Holds(db: Db, key: string, w: Window) {
    && (SeqKey(key) in db ==> db[SeqKey(key)] == Counter(w.seqNo, w.expireAt))
    && (SeqKey(key) !in db ==> w == EMPTY && SetKey(key) !in db)
    && (SetKey(key) in db ==> db[SetKey(key)] == ZSet(w.entries, w.expireAt))
    && (SetKey(key) !in db ==> w.entries == map[])
  }

  lemma TwoKeys(key: string)
    ensures SetKey(key) != SeqKey(key)
  {
    assert |SeqKey(key)| == |SetKey(key)| + 4;
  }

  lemma HoldsLive(db: Db, key: string, w: Window, now: real)
    requires Holds(db, key, w) && now >= 0.0
    ensures Holds(Touched(Touched(db, SetKey(key), now), SeqKey(key), now), key, Live(w, now))
  {
    TwoKeys(key);
  }

  lemma HoldsTrimmed(db: Db, key: string, w: Window, now: real)
    requires Holds(db, key, w)
    ensures Holds(Trimmed(db, SetKey(key), now), key, w.(entries := Trim(w.entries, now)))
  {
    TwoKeys(key);
    assert Trim(map[], now) == map[];
  }

  /** On such a key the script does what it does to a window of its own. */
  lemma EvalIsScript(fmt: real -> string, qps: int, db: Db, key: string, w: Window, now: real)
    requires Holds(db, key, w) && now >= 0.0
    ensures var r := Script(fmt, qps, w, now);
            && Eval(fmt, qps, db, key, now).outcome == (if r.admitted then Admitted else Refused)
            && Holds(Eval(fmt, qps, db, key, now).db, key, r.window)
  {
    TwoKeys(key);
    var live := Touched(Touched(db, SetKey(key), now), SeqKey(key), now);
    HoldsLive(db, key, w, now);
    HoldsTrimmed(live, key, Live(w, now), now);
  }

  // ---- runs of many callers ----

  datatype Call = Call(key: string, now: real, fate: Fate)

  /** The database after some calls, the last one applied last. */
  function After(fmt: real -> string, qps: int, calls: seq<Call>): Db {
    if calls == [] then map[]
    else
      var db, c := After(fmt, qps, calls[..|calls| - 1]), calls[|calls| - 1];
      if c.fate.NotRun? then db else Eval(fmt, qps, db, c.key, c.now).db
  }

  /** The times at which the script ran for the key. */
  function TimesOf(calls: seq<Call>, key: string): seq<real> {
    if calls == [] then []
    else
      var c := calls[|calls| - 1];
      TimesOf(calls[..|calls| - 1], key) + if c.key == key && !c.fate.NotRun? then [c.now] else []
  }

  /** No call has a key linked with this one. */
  predicate Apart(calls: seq<Call>, key: string) {
    forall i :: 0 <= i < |calls| ==> !Linked(calls[i].key, key)
  }

  ghost predicate Clocked(calls: seq<Call>) {
    && (forall i :: 0 <= i < |calls| ==> calls[i].now >= 0.0)
    && (forall i, j :: 0 <= i < j < |calls| ==> calls[i].now <= calls[j].now)
  }

  lemma OthersHold(fmt: real -> string, qps: int, db: Db, other: string, key: string, w: Window, now: real)
    requires Holds(db, key, w) && other != key && !Linked(other, key)
    ensures Holds(Eval(fmt, qps, db, other, now).db, key, w)
  {
    SharedKeyIff(other, key);
    assert Owns(key, SetKey(key)) && Owns(key, SeqKey(key));
    OthersUntouched(fmt, qps, db, other, now, SetKey(key));
    OthersUntouched(fmt, qps, db, other, now, SeqKey(key));
  }

  /** Whatever other keys are used, the key's part of the database is its own run's window. */
  lemma {:induction false} AfterHolds(fmt: real -> string, qps: int, calls: seq<Call>, key: string)
    requires Apart(calls, key) && forall i :: 0 <= i < |calls| ==> calls[i].now >= 0.0
    ensures Holds(After(fmt, qps, calls), key, Run(fmt, qps, TimesOf(calls, key)).window)
  {
    if calls != [] {
      var before, c := calls[..|calls| - 1], calls[|calls| - 1];
      AfterHolds(fmt, qps, before, key);
      var db, times := After(fmt, qps, before), TimesOf(before, key);
      assert times + [] == times;
      if !c.fate.NotRun? {
        if c.key == key {
          EvalIsScript(fmt, qps, db, key, Run(fmt, qps, times).window, c.now);
          WindowMore(fmt, qps, times, c.now);
        } else {
          OthersHold(fmt, qps, db, c.key, key, Run(fmt, qps, times).window, c.now);
        }
      }
    }
  }

  lemma WindowMore(fmt: real -> string, qps: int, nows: seq<real>, now: real)
    ensures Run(fmt, qps, nows + [now]).window == Script(fmt, qps, Run(fmt, qps, nows).window, now).window
  {
    assert (nows + [now])[..|nows|] == nows;
  }

  /** The outcomes of the script for the key. */
  function OutcomesOf(fmt: real -> string, qps: int, calls: seq<Call>, key: string): seq<Outcome> {
    if calls == [] then []
    else
      var before, c := calls[..|calls| - 1], calls[|calls| - 1];
      OutcomesOf(fmt, qps, before, key)
      + if c.key == key && !c.fate.NotRun? then [Eval(fmt, qps, After(fmt, qps, before), key, c.now).outcome] else []
  }

  /** The outcomes of a key's own run. */
  ghost function OwnOutcomes(fmt: real -> string, qps: int, nows: seq<real>): seq<Outcome> {
    if nows == [] then []
    else
      var before, now := nows[..|nows| - 1], nows[|nows| - 1];
      OwnOutcomes(fmt, qps, before)
      + [if Script(fmt, qps, Run(fmt, qps, before).window, now).admitted then Admitted else Refused]
  }

  lemma {:induction false} OutcomesAreOwn(fmt: real -> string, qps: int, calls: seq<Call>, key: string)
    requires Apart(calls, key) && forall i :: 0 <= i < |calls| ==> calls[i].now >= 0.0
    ensures OutcomesOf(fmt, qps, calls, key) == OwnOutcomes(fmt, qps, TimesOf(calls, key))
  {
    if calls != [] {
      var before, c := calls[..|calls| - 1], calls[|calls| - 1];
      var times := TimesOf(before, key);
      OutcomesAreOwn(fmt, qps, before, key);
      if c.key == key && !c.fate.NotRun? {
        AfterHolds(fmt, qps, before, key);
        EvalIsScript(fmt, qps, After(fmt, qps, before), key, Run(fmt, qps, times).window, c.now);
        assert (times + [c.now])[..|times|] == times;
      } else {
        assert times + [] == times;
      }
    }
  }

  function OnKey(calls: seq<Call>, key: string): seq<Call> {
    if calls == [] then []
    else OnKey(calls[..|calls| - 1], key) + if calls[|calls| - 1].key == key then [calls[|calls| - 1]] else []
  }

  lemma {:induction false} OnKeyTimes(calls: seq<Call>, key: string)
    ensures TimesOf(OnKey(calls, key), key) == TimesOf(calls, key)
    ensures forall c :: c in OnKey(calls, key) ==> c in calls && c.key == key
  {
    if calls != [] {
      var before, last := calls[..|calls| - 1], calls[|calls| - 1];
      OnKeyTimes(before, key);
      assert calls == before + [last];
      var own := OnKey(before, key);
      if last.key == key {
        assert (own + [last])[..|own|] == own;
      } else {
        assert own + [] == own && TimesOf(before, key) + [] == TimesOf(before, key);
      }
    }
  }

  lemma NotOwnLink(key: string)
    ensures !Linked(key, key)
  {
    assert |key + ":seq"| == |key| + 4;
  }

  /** The answers on a key are what they would be in the run of its own calls alone. */
  lemma AnswersAreItsOwn(fmt: real -> string, qps: int, calls: seq<Call>, key: string)
    requires Apart(calls, key) && forall i :: 0 <= i < |calls| ==> calls[i].now >= 0.0
    ensures OutcomesOf(fmt, qps, calls, key) == OutcomesOf(fmt, qps, OnKey(calls, key), key)
  {
    OnKeyTimes(calls, key);
    NotOwnLink(key);
    var own := OnKey(calls, key);
    forall i | 0 <= i < |own| ensures own[i].now >= 0.0 && own[i].key == key { assert own[i] in own; }
    OutcomesAreOwn(fmt, qps, calls, key);
    OutcomesAreOwn(fmt, qps, own, key);
  }

  lemma {:induction false} TimesClock(calls: seq<Call>, key: string)
    requires Clocked(calls)
    ensures Clock(TimesOf(calls, key))
    ensures forall i :: 0 <= i < |TimesOf(calls, key)| ==>
              calls != [] && TimesOf(calls, key)[i] <= calls[|calls| - 1].now
  {
    if calls != [] { TimesClock(calls[..|calls| - 1], key); }
  }

  /** After any run, a call on the key is admitted exactly when fewer than `qps` of its admissions
      lie less than a second back, and otherwise refused; and its set is those admissions. */
  lemma AdmittedIffRoomInRun(fmt: real -> string, qps: int, calls: seq<Call>, key: string, now: real)
    requires qps >= 1 && Clocked(calls + [Call(key, now, Answered)]) && Apart(calls, key)
    ensures var t := Run(fmt, qps, TimesOf(calls, key));
            var r := Eval(fmt, qps, After(fmt, qps, calls), key, now);
            && (r.outcome == Admitted <==> Recent(t.log, now) < qps)
            && (r.outcome == Refused <==> Recent(t.log, now) >= qps)
            && Trim(Live(t.window, now).entries, now) == EntriesOf(fmt, t.log[Cut(t.log, now)..])
  {
    var all := calls + [Call(key, now, Answered)];
    assert forall i :: 0 <= i < |calls| ==> calls[i] == all[i];
    assert all[|calls|].now == now;
    TimesClock(calls, key);
    AfterHolds(fmt, qps, calls, key);
    EvalIsScript(fmt, qps, After(fmt, qps, calls), key, Run(fmt, qps, TimesOf(calls, key)).window, now);
    assert Clock(TimesOf(calls, key) + [now]) by {
      if calls != [] { assert all[|calls| - 1].now <= all[|calls|].now; }
    }
    AdmittedIffRoom(fmt, qps, TimesOf(calls, key), now);
  }

  // ---- the bound ----

  predicate LetIn(fmt: real -> string, qps: int, db: Db, c: Call) {
    c.fate != Answered || Eval(fmt, qps, db, c.key, c.now).outcome != Refused
  }

  /** The calls on the key in `[a, a + 1)` that are let through. */
  ghost function LetThrough(fmt: real -> string, qps: int, calls: seq<Call>, key: string, a: real): nat {
    if calls == [] then 0
    else
      var before, c := calls[..|calls| - 1], calls[|calls| - 1];
      LetThrough(fmt, qps, before, key, a)
      + if c.key == key && LetIn(fmt, qps, After(fmt, qps, before), c) then InWindow(a, c.now) else 0
  }

  /** Those of them, or refused, that were not answered. */
  ghost function Unanswered(calls: seq<Call>, key: string, a: real): nat {
    if calls == [] then 0
    else
      var c := calls[|calls| - 1];
      Unanswered(calls[..|calls| - 1], key, a) + if c.key == key && c.fate != Answered then InWindow(a, c.now) else 0
  }

  lemma LogMore(fmt: real -> string, qps: int, nows: seq<real>, now: real, a: real)
    ensures InSecond(Run(fmt, qps, nows + [now]).log, a)
         == InSecond(Run(fmt, qps, nows).log, a)
            + if Script(fmt, qps, Run(fmt, qps, nows).window, now).admitted then InWindow(a, now) else 0
  {
    RunMore(fmt, qps, nows, now);
    var t := Run(fmt, qps, nows);
    LoggedInSecond(fmt, qps, t.window, t.log, now, a);
  }

  lemma {:induction false} LetThroughBound(fmt: real -> string, qps: int, calls: seq<Call>, key: string, a: real)
    requires Apart(calls, key) && forall i :: 0 <= i < |calls| ==> calls[i].now >= 0.0
    ensures LetThrough(fmt, qps, calls, key, a)
         <= InSecond(Run(fmt, qps, TimesOf(calls, key)).log, a) + Unanswered(calls, key, a)
  {
    if calls != [] {
      var before, c := calls[..|calls| - 1], calls[|calls| - 1];
      var times := TimesOf(before, key);
      LetThroughBound(fmt, qps, before, key, a);
      assert times + [] == times;
      if c.key == key && !c.fate.NotRun? {
        LogMore(fmt, qps, times, c.now, a);
        AfterHolds(fmt, qps, before, key);
        EvalIsScript(fmt, qps, After(fmt, qps, before), key, Run(fmt, qps, times).window, c.now);
      }
    }
  }

  /** Over any run of many callers, none of them linked with the key, a half-open one-second window
      lets through at most `qps` calls on the key and those that were not answered. */
  lemma WindowBoundInRun(fmt: real -> string, qps: int, calls: seq<Call>, key: string, a: real)
    requires qps >= 1 && Clocked(calls) && Apart(calls, key)
    ensures LetThrough(fmt, qps, calls, key, a) <= qps + Unanswered(calls, key, a)
  {
    TimesClock(calls, key);
    LetThroughBound(fmt, qps, calls, key, a);
    WindowBound(fmt, qps, TimesOf(calls, key), a);
  }

  // ---- and when it does not hold ----

  ghost predicate AllAnswered(calls: seq<Call>) { forall i :: 0 <= i < |calls| ==> calls[i].fate == Answered }

  /** One call on `other`, then `n` on `key`, all at one time. */
  function Crowd(other: string, key: string, n: nat): seq<Call> {
    if n == 0 then [Call(other, 0.0, Answered)] else Crowd(other, key, n - 1) + [Call(key, 0.0, Answered)]
  }

  lemma {:induction false} CrowdIs(other: string, key: string, n: nat)
    ensures Clocked(Crowd(other, key, n)) && AllAnswered(Crowd(other, key, n))
    ensures forall i :: 0 <= i < |Crowd(other, key, n)| ==> Crowd(other, key, n)[i].key in {other, key}
    ensures forall i :: 0 <= i < |Crowd(other, key, n)| ==> Crowd(other, key, n)[i].now == 0.0
  {
    if n > 0 { CrowdIs(other, key, n - 1); }
  }

  ghost function FirstDb(fmt: real -> string, other: string): Db {
    map[SetKey(other) := ZSet(map[Member(fmt, 0.0, 1) := 0.0], 2.0), SeqKey(other) := Counter(1, 2.0)]
  }

  lemma FirstCall(fmt: real -> string, qps: int, other: string)
    requires qps >= 1
    ensures Eval(fmt, qps, map[], other, 0.0) == Evaluated(Admitted, FirstDb(fmt, other))
  {
    TwoKeys(other);
  }

  /** A linked key meets a value of the wrong kind, and leaves everything as it is. */
  lemma LinkedIsWrong(fmt: real -> string, qps: int, other: string, key: string)
    requires qps >= 1 && Linked(other, key)
    ensures Eval(fmt, qps, FirstDb(fmt, other), key, 0.0) == Evaluated(WrongType, FirstDb(fmt, other))
  {
    TwoKeys(other);
    SeqKeyIsSet(other);
    SeqKeyIsSet(key);
    assert |SeqKey(key)| == |SetKey(key)| + 4 && |SeqKey(other)| == |SetKey(other)| + 4;
    var db := FirstDb(fmt, other);
    if key == other + ":seq" {
      assert SetKey(key) == SeqKey(other) && SeqKey(key) !in db;
    } else {
      assert SeqKey(key) == SetKey(other) && SetKey(key) !in db;
    }
  }

  lemma AfterMore(fmt: real -> string, qps: int, calls: seq<Call>, c: Call)
    requires c.fate == Answered
    ensures After(fmt, qps, calls + [c]) == Eval(fmt, qps, After(fmt, qps, calls), c.key, c.now).db
  {
    assert (calls + [c])[..|calls|] == calls;
  }

  lemma LetThroughMore(fmt: real -> string, qps: int, calls: seq<Call>, c: Call, key: string, a: real)
    ensures LetThrough(fmt, qps, calls + [c], key, a) == LetThrough(fmt, qps, calls, key, a)
              + if c.key == key && LetIn(fmt, qps, After(fmt, qps, calls), c) then InWindow(a, c.now) else 0
  {
    assert (calls + [c])[..|calls|] == calls;
  }

  /** The first call alone. */
  lemma FirstAlone(fmt: real -> string, qps: int, other: string, key: string)
    requires qps >= 1 && Linked(other, key)
    ensures After(fmt, qps, [Call(other, 0.0, Answered)]) == FirstDb(fmt, other)
    ensures LetThrough(fmt, qps, [Call(other, 0.0, Answered)], key, 0.0) == 0
  {
    var c := Call(other, 0.0, Answered);
    assert [] + [c] == [c];
    AfterMore(fmt, qps, [], c);
    LetThroughMore(fmt, qps, [], c, key, 0.0);
    FirstCall(fmt, qps, other);
    NotOwnLink(key);
  }

  /** One more call on the linked key: it is let through and nothing changes. */
  lemma OneMore(fmt: real -> string, qps: int, calls: seq<Call>, other: string, key: string)
    requires qps >= 1 && Linked(other, key) && After(fmt, qps, calls) == FirstDb(fmt, other)
    ensures var more := calls + [Call(key, 0.0, Answered)];
            && After(fmt, qps, more) == FirstDb(fmt, other)
            && LetThrough(fmt, qps, more, key, 0.0) == LetThrough(fmt, qps, calls, key, 0.0) + 1
  {
    var c := Call(key, 0.0, Answered);
    AfterMore(fmt, qps, calls, c);
    LetThroughMore(fmt, qps, calls, c, key, 0.0);
    LinkedIsWrong(fmt, qps, other, key);
  }

  /** After one call on a linked key, any number of calls on the key are let through at once. */
  lemma {:induction false} CrowdLetThrough(fmt: real -> string, qps: int, other: string, key: string, n: nat)
    requires qps >= 1 && Linked(other, key)
    ensures After(fmt, qps, Crowd(other, key, n)) == FirstDb(fmt, other)
    ensures LetThrough(fmt, qps, Crowd(other, key, n), key, 0.0) == n
  {
    if n == 0 {
      FirstAlone(fmt, qps, other, key);
    } else {
      CrowdLetThrough(fmt, qps, other, key, n - 1);
      OneMore(fmt, qps, Crowd(other, key, n - 1), other, key);
    }
  }

  /** All the script's answers arrive, callers use only some keys, and the clock does not go back. */
  ghost predicate RunOf(calls: seq<Call>, keys: set<string>) {
    Clocked(calls) && AllAnswered(calls) && forall i :: 0 <= i < |calls| ==> calls[i].key in keys
  }

  ghost predicate Bounded(fmt: real -> string, qps: int, keys: set<string>, key: string) {
    forall calls, a :: RunOf(calls, keys) ==> LetThrough(fmt, qps, calls, key, a) <= qps
  }

  /** With every script answered, a key in use is held to `qps` calls in every one-second window of
      every run exactly when no key in use is linked with it. */
  lemma BoundedIffApart(fmt: real -> string, qps: int, keys: set<string>, key: string)
    requires qps >= 1 && key in keys
    ensures Bounded(fmt, qps, keys, key) <==> forall k :: k in keys ==> !Linked(k, key)
  {
    if forall k :: k in keys ==> !Linked(k, key) {
      ApartIsBounded(fmt, qps, keys, key);
    } else {
      var other :| other in keys && Linked(other, key);
      LinkedIsNotBounded(fmt, qps, keys, key, other);
    }
  }

  lemma ApartIsBounded(fmt: real -> string, qps: int, keys: set<string>, key: string)
    requires qps >= 1 && forall k :: k in keys ==> !Linked(k, key)
    ensures Bounded(fmt, qps, keys, key)
  {
    forall calls, a | RunOf(calls, keys) ensures LetThrough(fmt, qps, calls, key, a) <= qps {
      assert Apart(calls, key);
      WindowBoundInRun(fmt, qps, calls, key, a);
      NoneUnanswered(calls, key, a);
    }
  }

  lemma LinkedIsNotBounded(fmt: real -> string, qps: int, keys: set<string>, key: string, other: string)
    requires qps >= 1 && key in keys && other in keys && Linked(other, key)
    ensures !Bounded(fmt, qps, keys, key)
  {
    var n: nat := qps + 1;
    var calls := Crowd(other, key, n);
    CrowdRuns(keys, other, key, n);
    CrowdLetThrough(fmt, qps, other, key, n);
    Exceeds(fmt, qps, keys, key, calls);
  }

  lemma CrowdRuns(keys: set<string>, other: string, key: string, n: nat)
    requires key in keys && other in keys
    ensures RunOf(Crowd(other, key, n), keys)
  {
    CrowdIs(other, key, n);
  }

  lemma Exceeds(fmt: real -> string, qps: int, keys: set<string>, key: string, calls: seq<Call>)
    requires RunOf(calls, keys) && LetThrough(fmt, qps, calls, key, 0.0) > qps
    ensures !Bounded(fmt, qps, keys, key)
  {
  }

  lemma {:induction false} NoneUnanswered(calls: seq<Call>, key: string, a: real)
    requires AllAnswered(calls)
    ensures Unanswered(calls, key, a) == 0
  {
    if calls != [] { NoneUnanswered(calls[..|calls| - 1], key, a); }
  }

  /** One call by `a:seq`, and `a` is not limited; one call by `a`, and `a:seq` is not. */
  lemma SeqSuffixIsNotLimited(fmt: real -> string, qps: int, n: nat)
    requires qps >= 1
    ensures LetThrough(fmt, qps, Crowd("a:seq", "a", n), "a", 0.0) == n
    ensures LetThrough(fmt, qps, Crowd("a", "a:seq", n), "a:seq", 0.0) == n
  {
    assert "a" + ":seq" == "a:seq";
    CrowdLetThrough(fmt, qps, "a:seq", "a", n);
    CrowdLetThrough(fmt, qps, "a", "a:seq", n);
  }
}

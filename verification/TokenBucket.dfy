/** `InMemoryRateLimiter`: one token bucket per key, refilled at `qps` tokens a second. */
module TokenBucket {

  datatype Bucket = Bucket(tokens: real, lastUpdate: real)

  /** One `check_rate_limit(key)`: the clock it reads, and the later clock reading a new
      bucket takes for its `last_update`. */
  datatype Call = Call(key: string, now: real, created: real)

  function Min(a: real, b: real): real { if a <= b then a else b }

  /** `elapsed * qps`, spelt as repeated addition: the laws below need no products. */
  function Gain(qps: int, elapsed: real): real
    decreases if qps < 0 then -qps else qps
  {
    if qps == 0 then 0.0
    else if qps > 0 then Gain(qps - 1, elapsed) + elapsed
    else Gain(qps + 1, elapsed) - elapsed
  }

  lemma {:induction false} GainIsProduct(qps: int, elapsed: real)
    ensures Gain(qps, elapsed) == elapsed * qps as real
    decreases if qps < 0 then -qps else qps
  {
    if qps > 0 {
      GainIsProduct(qps - 1, elapsed);
      assert elapsed * qps as real == elapsed * (qps - 1) as real + elapsed;
    } else if qps < 0 {
      GainIsProduct(qps + 1, elapsed);
      assert elapsed * qps as real == elapsed * (qps + 1) as real - elapsed;
    }
  }

  lemma {:induction false} GainAdds(qps: int, a: real, b: real)
    requires qps >= 0
    ensures Gain(qps, a + b) == Gain(qps, a) + Gain(qps, b)
    decreases qps
  {
    if qps > 0 { GainAdds(qps - 1, a, b); }
  }

  lemma {:induction false} GainNonNegative(qps: int, a: real)
    requires qps >= 0 && a >= 0.0
    ensures Gain(qps, a) >= 0.0
    decreases qps
  {
    if qps > 0 { GainNonNegative(qps - 1, a); }
  }

  /** Time passed from `a` to `c` through `b` earns in two parts. */
  lemma GainSplit(qps: int, a: real, b: real, c: real)
    requires qps >= 0 && b <= c
    ensures Gain(qps, c - a) == Gain(qps, b - a) + Gain(qps, c - b) && Gain(qps, c - b) >= 0.0
  {
    GainAdds(qps, b - a, c - b);
    assert (b - a) + (c - b) == c - a;
    GainNonNegative(qps, c - b);
  }

  function Refill(qps: int, b: Bucket, now: real): real {
    Min(qps as real, b.tokens + Gain(qps, now - b.lastUpdate))
  }

  datatype Checked = Checked(admitted: bool, bucket: Bucket)

  function CheckBucket(qps: int, b: Bucket, now: real): Checked {
    var tokens := Refill(qps, b, now);
    if tokens >= 1.0 then Checked(true, Bucket(tokens - 1.0, now)) else Checked(false, Bucket(tokens, now))
  }

  function BucketOf(qps: int, buckets: map<string, Bucket>, call: Call): Bucket {
    if call.key in buckets then buckets[call.key] else Bucket(qps as real, call.created)
  }

  function Check(qps: int, buckets: map<string, Bucket>, call: Call): Checked {
    CheckBucket(qps, BucketOf(qps, buckets, call), call.now)
  }

  function After(qps: int, buckets: map<string, Bucket>, call: Call): map<string, Bucket> {
    buckets[call.key := Check(qps, buckets, call).bucket]
  }

  class InMemoryRateLimiter {
    const qps: int
    var buckets: map<string, Bucket>

    constructor (qps: int)
      ensures this.qps == qps && buckets == map[]
    {
      this.qps := qps;
      buckets := map[];
    }

    /** The body of the lock: true is an admission, false an HTTP 429. */
    method CheckRateLimit(key: string, now: real, created: real) returns (admitted: bool)
      modifies this
      ensures admitted == Check(qps, old(buckets), Call(key, now, created)).admitted
      ensures buckets == After(qps, old(buckets), Call(key, now, created))
    {
      var bucket := if key in buckets then buckets[key] else Bucket(qps as real, created);
      var elapsed := now - bucket.lastUpdate;
      bucket := bucket.(tokens := Min(qps as real, bucket.tokens + elapsed * qps as real));
      GainIsProduct(qps, elapsed);
      assert bucket.tokens == Refill(qps, BucketOf(qps, old(buckets), Call(key, now, created)), now);
      bucket := bucket.(lastUpdate := now);
      if bucket.tokens >= 1.0 {
        bucket := bucket.(tokens := bucket.tokens - 1.0);
        admitted := true;
      } else {
        admitted := false;
      }
      buckets := buckets[key := bucket];
    }
  }

  // ---- runs ----

  /** Clock readings never go back, and a bucket is created after the call read the clock. */
  ghost predicate Ordered(calls: seq<Call>) {
    && (forall i, j :: 0 <= i < j < |calls| ==> calls[i].now <= calls[j].now)
    && (forall i :: 0 <= i < |calls| ==> calls[i].now <= calls[i].created)
  }

  /** How many calls on `key` in the closed window `[s, t]` are admitted. */
  function Admissions(qps: int, buckets: map<string, Bucket>, calls: seq<Call>, key: string, s: real, t: real): nat
    decreases |calls|
  {
    if calls == [] then 0
    else
      (if calls[0].key == key && s <= calls[0].now <= t && Check(qps, buckets, calls[0]).admitted then 1 else 0)
      + Admissions(qps, After(qps, buckets, calls[0]), calls[1..], key, s, t)
  }

  lemma {:induction false} NoneAfterWindow(qps: int, buckets: map<string, Bucket>, calls: seq<Call>, key: string,
      s: real, t: real)
    requires forall i :: 0 <= i < |calls| ==> calls[i].now > t
    ensures Admissions(qps, buckets, calls, key, s, t) == 0
    decreases |calls|
  {
    if calls != [] {
      assert calls[0].now > t;
      NoneAfterWindow(qps, After(qps, buckets, calls[0]), calls[1..], key, s, t);
    }
  }

  /** One check never gains more than the time allows. */
  lemma CheckSpends(qps: int, b: Bucket, now: real)
    requires qps >= 0
    ensures var c := CheckBucket(qps, b, now);
            && c.bucket.lastUpdate == now && c.bucket.tokens <= qps as real
            && c.bucket.tokens + (if c.admitted then 1.0 else 0.0) <= b.tokens + Gain(qps, now - b.lastUpdate)
            && c.bucket.tokens + (if c.admitted then 1.0 else 0.0) <= qps as real
            && (c.admitted ==> c.bucket.tokens >= 0.0)
  {
  }

  /** What the tokens at hand and the rest of the window allow. */
  ghost predicate Within(n: nat, qps: int, b: Bucket, t: real) {
    n == 0 || n as real <= b.tokens + Gain(qps, t - b.lastUpdate)
  }

  lemma SpendOne(n: nat, qps: int, b: Bucket, now: real, t: real)
    requires qps >= 0 && now <= t
    requires Within(n, qps, CheckBucket(qps, b, now).bucket, t)
    ensures var c := CheckBucket(qps, b, now);
            var m := n + (if c.admitted then 1 else 0);
            Within(m, qps, b, t) && (m == 0 || m as real <= qps as real + Gain(qps, t - now))
  {
    CheckSpends(qps, b, now);
    GainSplit(qps, b.lastUpdate, now, t);
  }

  /** Once the bucket has been touched, the rest of the window admits no more than its
      tokens plus the refill. */
  lemma {:induction false} AdmissionsFromBucket(qps: int, buckets: map<string, Bucket>, calls: seq<Call>,
      key: string, s: real, t: real)
    requires qps >= 0 && Ordered(calls) && key in buckets
    requires forall i :: 0 <= i < |calls| ==> buckets[key].lastUpdate <= calls[i].now
    ensures Within(Admissions(qps, buckets, calls, key, s, t), qps, buckets[key], t)
    decreases |calls|
  {
    if calls != [] {
      var c := calls[0];
      if c.now > t {
        NoneAfterWindow(qps, buckets, calls, key, s, t);
      } else {
        var next := After(qps, buckets, c);
        assert forall i :: 0 <= i < |calls[1..]| ==> calls[1..][i] == calls[i + 1];
        AdmissionsFromBucket(qps, next, calls[1..], key, s, t);
        if c.key == key {
          var rest := Admissions(qps, next, calls[1..], key, s, t);
          SpendOne(rest, qps, buckets[key], c.now, t);
        }
      }
    }
  }

  /** What follows a call on the key is bounded by the bucket that call leaves. */
  lemma RestAfterCall(qps: int, buckets: map<string, Bucket>, calls: seq<Call>, key: string, s: real, t: real)
    requires qps >= 0 && Ordered(calls) && calls != [] && calls[0].key == key
    ensures Within(Admissions(qps, After(qps, buckets, calls[0]), calls[1..], key, s, t), qps,
                   CheckBucket(qps, BucketOf(qps, buckets, calls[0]), calls[0].now).bucket, t)
  {
    var next := After(qps, buckets, calls[0]);
    assert next[key].lastUpdate == calls[0].now;
    assert forall i :: 0 <= i < |calls[1..]| ==> calls[1..][i] == calls[i + 1];
    AdmissionsFromBucket(qps, next, calls[1..], key, s, t);
  }

  lemma WidenWindow(qps: int, s: real, now: real, t: real)
    requires qps >= 0 && s <= now
    ensures Gain(qps, t - now) <= Gain(qps, t - s)
  {
    GainAdds(qps, now - s, t - now);
    assert (now - s) + (t - now) == t - s;
    GainNonNegative(qps, now - s);
  }

  lemma {:induction false} AdmissionsInWindow(qps: int, buckets: map<string, Bucket>, calls: seq<Call>, key: string,
      s: real, t: real)
    requires qps >= 0 && s <= t && Ordered(calls)
    ensures Admissions(qps, buckets, calls, key, s, t) as real <= qps as real + Gain(qps, t - s)
    decreases |calls|
  {
    GainNonNegative(qps, t - s);
    if calls != [] {
      var c := calls[0];
      if c.key == key && s <= c.now <= t {
        RestAfterCall(qps, buckets, calls, key, s, t);
        var later := Admissions(qps, After(qps, buckets, c), calls[1..], key, s, t);
        SpendOne(later, qps, BucketOf(qps, buckets, c), c.now, t);
        WidenWindow(qps, s, c.now, t);
      } else {
        AdmissionsInWindow(qps, After(qps, buckets, c), calls[1..], key, s, t);
      }
    }
  }

  /** In any closed window `[s, s + span]` of any run, a key is admitted at most
      `qps + qps * span` times, whatever its bucket held before. */
  lemma AdmissionsBounded(qps: int, buckets: map<string, Bucket>, calls: seq<Call>, key: string, s: real, span: real)
    requires qps >= 0 && span >= 0.0 && Ordered(calls)
    ensures Admissions(qps, buckets, calls, key, s, s + span) as real <= qps as real + span * qps as real
  {
    AdmissionsInWindow(qps, buckets, calls, key, s, s + span);
    assert (s + span) - s == span;
    InProducts(Admissions(qps, buckets, calls, key, s, s + span), qps, span);
  }

  lemma InProducts(n: nat, qps: int, span: real)
    requires n as real <= qps as real + Gain(qps, span)
    ensures n as real <= qps as real + span * qps as real
  {
    GainIsProduct(qps, span);
  }

  /** With no requests per second to give, nothing is ever admitted. */
  lemma {:induction false} NothingAdmittedBelowOne(qps: int, buckets: map<string, Bucket>, calls: seq<Call>,
      key: string, s: real, t: real)
    requires qps <= 0
    ensures Admissions(qps, buckets, calls, key, s, t) == 0
    decreases |calls|
  {
    if calls != [] {
      NothingAdmittedBelowOne(qps, After(qps, buckets, calls[0]), calls[1..], key, s, t);
    }
  }

  // ---- keys do not interfere ----

  function Outcomes(qps: int, buckets: map<string, Bucket>, calls: seq<Call>, key: string): seq<bool>
    decreases |calls|
  {
    if calls == [] then []
    else
      (if calls[0].key == key then [Check(qps, buckets, calls[0]).admitted] else [])
      + Outcomes(qps, After(qps, buckets, calls[0]), calls[1..], key)
  }

  function OnKey(calls: seq<Call>, key: string): seq<Call> {
    if calls == [] then []
    else (if calls[0].key == key then [calls[0]] else []) + OnKey(calls[1..], key)
  }

  /** The answers on a key are what they would be if no other key had ever been used. */
  lemma {:induction false} KeysIndependent(qps: int, a: map<string, Bucket>, b: map<string, Bucket>,
      calls: seq<Call>, key: string)
    requires key in a <==> key in b
    requires key in a ==> a[key] == b[key]
    ensures Outcomes(qps, a, calls, key) == Outcomes(qps, b, OnKey(calls, key), key)
    decreases |calls|
  {
    if calls != [] {
      var c := calls[0];
      if c.key == key {
        assert OnKey(calls, key)[1..] == OnKey(calls[1..], key);
        KeysIndependent(qps, After(qps, a, c), After(qps, b, c), calls[1..], key);
      } else {
        assert OnKey(calls, key) == OnKey(calls[1..], key);
        KeysIndependent(qps, After(qps, a, c), b, calls[1..], key);
      }
    }
  }

  // ---- requests spaced 1/qps apart ----

  /** Calls on one key, each at least `1/qps` after the one before. */
  ghost predicate Spaced(qps: int, calls: seq<Call>, key: string) {
    && (forall i :: 0 <= i < |calls| ==> calls[i].key == key)
    && (forall i, j :: 0 <= i && j == i + 1 && j < |calls| ==> Gain(qps, calls[j].now - calls[i].now) >= 1.0)
  }

  ghost predicate All(bs: seq<bool>) { forall i :: 0 <= i < |bs| ==> bs[i] }

  lemma {:induction false} SpacedFromBucket(qps: int, buckets: map<string, Bucket>, calls: seq<Call>, key: string)
    requires qps >= 1 && Spaced(qps, calls, key)
    requires key in buckets && buckets[key].tokens >= 0.0
    requires calls != [] ==> Gain(qps, calls[0].now - buckets[key].lastUpdate) >= 1.0
    ensures All(Outcomes(qps, buckets, calls, key))
    decreases |calls|
  {
    if calls != [] {
      var next := After(qps, buckets, calls[0]);
      assert Check(qps, buckets, calls[0]).admitted;
      assert |calls| > 1 ==> calls[1..][0] == calls[1];
      SpacedFromBucket(qps, next, calls[1..], key);
    }
  }

  /** From the first use of a key on: if the bucket was created no more than a second after
      the first call read the clock, every later call spaced `1/qps` apart is admitted; the
      first one is admitted unless the lag itself cost it its token. */
  lemma SpacedCallsAdmitted(qps: int, calls: seq<Call>, key: string)
    requires qps >= 1 && Spaced(qps, calls, key) && calls != []
    requires 0.0 <= calls[0].created - calls[0].now <= 1.0
    ensures var out := Outcomes(qps, map[], calls, key);
            && |out| >= 1
            && All(out[1..])
            && (out[0] <==> (1.0 - (calls[0].created - calls[0].now)) * qps as real >= 1.0)
  {
    var next := After(qps, map[], calls[0]);
    FirstUse(qps, calls[0]);
    SpacedTail(qps, calls, key);
    SpacedFromBucket(qps, next, calls[1..], key);
    var rest := Outcomes(qps, next, calls[1..], key);
    assert Outcomes(qps, map[], calls, key) == [Check(qps, map[], calls[0]).admitted] + rest;
    assert Outcomes(qps, map[], calls, key)[1..] == rest;
  }

  lemma SpacedTail(qps: int, calls: seq<Call>, key: string)
    requires Spaced(qps, calls, key) && calls != []
    ensures Spaced(qps, calls[1..], key) && calls[0].key == key
    ensures |calls| > 1 ==> Gain(qps, calls[1..][0].now - calls[0].now) >= 1.0
  {
    assert forall i :: 0 <= i < |calls[1..]| ==> calls[1..][i] == calls[i + 1];
  }

  /** The first call on a key pays for the creation lag. */
  lemma FirstUse(qps: int, c: Call)
    requires qps >= 1 && 0.0 <= c.created - c.now <= 1.0
    ensures var r := Check(qps, map[], c);
            && r.bucket.tokens >= 0.0 && r.bucket.lastUpdate == c.now
            && (r.admitted <==> (1.0 - (c.created - c.now)) * qps as real >= 1.0)
  {
    var lag := c.created - c.now;
    GainAdds(qps, 1.0, -lag);
    GainAdds(qps, lag, -lag);
    GainIsProduct(qps, 1.0);
    GainIsProduct(qps, 0.0);
    GainIsProduct(qps, 1.0 - lag);
    GainNonNegative(qps, 1.0 - lag);
    GainNonNegative(qps, lag);
    assert 1.0 + -lag == 1.0 - lag && lag + -lag == 0.0 && c.now - c.created == -lag;
  }

  // ---- exactly which calls are admitted ----

  /** The bucket that starts as `b`, before call `n` of calls that all use it. */
  function Held(qps: int, b: Bucket, calls: seq<Call>, n: nat): Bucket
    requires n <= |calls|
  {
    if n == 0 then b else CheckBucket(qps, Held(qps, b, calls, n - 1), calls[n - 1].now).bucket
  }

  lemma {:induction false} HeldNext(qps: int, b: Bucket, calls: seq<Call>, n: nat)
    requires 1 <= n <= |calls|
    ensures Held(qps, CheckBucket(qps, b, calls[0].now).bucket, calls[1..], n - 1) == Held(qps, b, calls, n)
  {
    if n > 1 { HeldNext(qps, b, calls, n - 1); }
  }

  /** `out` tells for every call whether it is admitted. */
  ghost predicate Answers(qps: int, b: Bucket, calls: seq<Call>, out: seq<bool>) {
    |out| == |calls| &&
    forall n {:trigger out[n]} :: 0 <= n < |calls| ==>
      out[n] == CheckBucket(qps, Held(qps, b, calls, n), calls[n].now).admitted
  }

  lemma {:induction false} OutcomesAreAnswers(qps: int, buckets: map<string, Bucket>, calls: seq<Call>, key: string,
      b: Bucket)
    requires forall i :: 0 <= i < |calls| ==> calls[i].key == key
    requires calls != [] ==> b == BucketOf(qps, buckets, calls[0])
    ensures Answers(qps, b, calls, Outcomes(qps, buckets, calls, key))
    decreases |calls|
  {
    if calls != [] {
      var next := After(qps, buckets, calls[0]);
      OutcomesAreAnswers(qps, next, calls[1..], key, next[key]);
      var out := Outcomes(qps, buckets, calls, key);
      assert out[1..] == Outcomes(qps, next, calls[1..], key);
      forall n | 0 <= n < |calls|
        ensures out[n] == CheckBucket(qps, Held(qps, b, calls, n), calls[n].now).admitted
      {
        if n > 0 {
          HeldNext(qps, b, calls, n);
          assert out[n] == out[1..][n - 1] && calls[n] == calls[1..][n - 1];
        }
      }
    }
  }

  /** How many of the calls from `i` up to `n` are admitted. */
  function Granted(out: seq<bool>, i: nat, n: nat): nat
    requires i <= n <= |out|
  {
    if i == n then 0 else Granted(out, i, n - 1) + if out[n - 1] then 1 else 0
  }

  ghost function Shift(xs: seq<real>, gain: real): (r: seq<real>)
    ensures |r| == |xs| && forall i :: 0 <= i < |xs| ==> r[i] == xs[i] + gain
  {
    seq(|xs|, i requires 0 <= i < |xs| => xs[i] + gain)
  }

  ghost predicate AllAtLeast(xs: seq<real>, x: real) { forall i :: 0 <= i < |xs| ==> xs[i] >= x }

  /** What passes from call `n` to the next: the time earns, an admission costs. */
  ghost function Change(qps: int, calls: seq<Call>, out: seq<bool>, n: nat): real
    requires n + 1 < |calls| && |out| == |calls|
  {
    Gain(qps, calls[n + 1].now - calls[n].now) - if out[n] then 1.0 else 0.0
  }

  /** What is left at call `n` of the bucket's first tokens, and of each window that starts with one
      of the calls up to it. */
  ghost function Lefts(qps: int, b: Bucket, calls: seq<Call>, out: seq<bool>, n: nat): (r: seq<real>)
    requires n < |calls| && |out| == |calls|
    ensures |r| == n + 2
  {
    if n == 0 then [b.tokens + Gain(qps, calls[0].now - b.lastUpdate), qps as real]
    else Shift(Lefts(qps, b, calls, out, n - 1), Change(qps, calls, out, n - 1)) + [qps as real]
  }

  lemma RefillNext(qps: int, b: Bucket, now: real, later: real, gain: real)
    requires gain == Gain(qps, later - now) - if CheckBucket(qps, b, now).admitted then 1.0 else 0.0
    ensures Refill(qps, CheckBucket(qps, b, now).bucket, later) == Min(qps as real, Refill(qps, b, now) + gain)
  {
  }

  lemma LeastNext(tokens: real, lefts: seq<real>, gain: real, cap: real, x: real)
    requires tokens >= x - gain <==> AllAtLeast(lefts, x - gain)
    ensures Min(cap, tokens + gain) >= x <==> AllAtLeast(Shift(lefts, gain) + [cap], x)
  {
    var all := Shift(lefts, gain) + [cap];
    assert all[|lefts|] == cap;
    assert forall i :: 0 <= i < |lefts| ==> all[i] == lefts[i] + gain;
  }

  lemma LeastFirst(tokens: real, cap: real, x: real)
    ensures Min(cap, tokens) >= x <==> AllAtLeast([tokens, cap], x)
  {
    assert [tokens, cap][0] == tokens && [tokens, cap][1] == cap;
  }

  /** The tokens a call finds. */
  function Found(qps: int, b: Bucket, calls: seq<Call>, n: nat): real
    requires n < |calls|
  {
    Refill(qps, Held(qps, b, calls, n), calls[n].now)
  }

  lemma FoundNext(qps: int, b: Bucket, calls: seq<Call>, out: seq<bool>, n: nat)
    requires n + 1 < |calls| && Answers(qps, b, calls, out)
    ensures Found(qps, b, calls, n + 1) == Min(qps as real, Found(qps, b, calls, n) + Change(qps, calls, out, n))
  {
    RefillNext(qps, Held(qps, b, calls, n), calls[n].now, calls[n + 1].now, Change(qps, calls, out, n));
  }

  lemma LeftsNext(qps: int, b: Bucket, calls: seq<Call>, out: seq<bool>, n: nat)
    requires n + 1 < |calls| && |out| == |calls|
    ensures var lefts, gain := Lefts(qps, b, calls, out, n), Change(qps, calls, out, n);
            Lefts(qps, b, calls, out, n + 1) == Shift(lefts, gain) + [qps as real]
  {
  }

  lemma FirstIsLeast(qps: int, b: Bucket, calls: seq<Call>, out: seq<bool>, x: real)
    requires calls != [] && |out| == |calls|
    ensures Found(qps, b, calls, 0) >= x <==> AllAtLeast(Lefts(qps, b, calls, out, 0), x)
  {
    LeastFirst(b.tokens + Gain(qps, calls[0].now - b.lastUpdate), qps as real, x);
  }

  lemma NextIsLeast(qps: int, b: Bucket, calls: seq<Call>, out: seq<bool>, n: nat, gain: real, x: real)
    requires n + 1 < |calls| && Answers(qps, b, calls, out) && gain == Change(qps, calls, out, n)
    requires Found(qps, b, calls, n) >= x - gain <==> AllAtLeast(Lefts(qps, b, calls, out, n), x - gain)
    ensures Found(qps, b, calls, n + 1) >= x <==> AllAtLeast(Lefts(qps, b, calls, out, n + 1), x)
  {
    FoundNext(qps, b, calls, out, n);
    LeftsNext(qps, b, calls, out, n);
    LeastNext(Found(qps, b, calls, n), Lefts(qps, b, calls, out, n), gain, qps as real, x);
  }

  /** It is the least of what is left. */
  lemma {:induction false} FoundIsLeast(qps: int, b: Bucket, calls: seq<Call>, out: seq<bool>, n: nat, x: real)
    requires n < |calls| && Answers(qps, b, calls, out)
    ensures Found(qps, b, calls, n) >= x <==> AllAtLeast(Lefts(qps, b, calls, out, n), x)
    decreases n
  {
    if n == 0 {
      FirstIsLeast(qps, b, calls, out, x);
    } else {
      var gain := Change(qps, calls, out, n - 1);
      FoundIsLeast(qps, b, calls, out, n - 1, x - gain);
      NextIsLeast(qps, b, calls, out, n - 1, gain, x);
    }
  }

  lemma GainThrough(qps: int, a: real, b: real, c: real)
    requires qps >= 0
    ensures Gain(qps, c - a) == Gain(qps, b - a) + Gain(qps, c - b)
  {
    GainAdds(qps, b - a, c - b);
    assert (b - a) + (c - b) == c - a;
  }

  /** What a window of some length has left after some admissions, starting from some tokens. */
  ghost predicate IsLeft(qps: int, left: real, tokens: real, span: real, granted: nat) {
    left == tokens + Gain(qps, span) - granted as real
  }

  lemma IsLeftNext(qps: int, left: real, tokens: real, start: real, last: real, now: real, granted: nat, more: bool)
    requires qps >= 0 && IsLeft(qps, left, tokens, last - start, granted)
    ensures IsLeft(qps, left + (Gain(qps, now - last) - if more then 1.0 else 0.0), tokens, now - start,
                   granted + if more then 1 else 0)
  {
    GainThrough(qps, start, last, now);
  }

  /** Entry `k` of what is left at one call and at the next, for a window that starts at `start`. */
  lemma LeftNext(qps: int, b: Bucket, calls: seq<Call>, out: seq<bool>, n: nat, k: nat, tokens: real, start: real,
      i: nat)
    requires qps >= 0 && n + 1 < |calls| && |out| == |calls| && k < n + 2 && i <= n
    requires IsLeft(qps, Lefts(qps, b, calls, out, n)[k], tokens, calls[n].now - start, Granted(out, i, n))
    ensures IsLeft(qps, Lefts(qps, b, calls, out, n + 1)[k], tokens, calls[n + 1].now - start, Granted(out, i, n + 1))
  {
    var lefts, gain := Lefts(qps, b, calls, out, n), Change(qps, calls, out, n);
    LeftsNext(qps, b, calls, out, n);
    assert (Shift(lefts, gain) + [qps as real])[k] == lefts[k] + gain;
    IsLeftNext(qps, lefts[k], tokens, start, calls[n].now, calls[n + 1].now, Granted(out, i, n), out[n]);
  }

  lemma {:induction false} LeftOfStart(qps: int, b: Bucket, calls: seq<Call>, out: seq<bool>, n: nat)
    requires qps >= 0 && n < |calls| && |out| == |calls|
    ensures IsLeft(qps, Lefts(qps, b, calls, out, n)[0], b.tokens, calls[n].now - b.lastUpdate, Granted(out, 0, n))
  {
    if n > 0 {
      LeftOfStart(qps, b, calls, out, n - 1);
      LeftNext(qps, b, calls, out, n - 1, 0, b.tokens, b.lastUpdate, 0);
    }
  }

  lemma LeftOfNewWindow(qps: int, b: Bucket, calls: seq<Call>, out: seq<bool>, n: nat)
    requires n < |calls| && |out| == |calls|
    ensures IsLeft(qps, Lefts(qps, b, calls, out, n)[n + 1], qps as real, calls[n].now - calls[n].now,
                   Granted(out, n, n))
  {
    GainIsProduct(qps, 0.0);
    assert calls[n].now - calls[n].now == 0.0;
    assert Lefts(qps, b, calls, out, n)[n + 1] == qps as real;
  }

  lemma {:induction false} LeftOfWindow(qps: int, b: Bucket, calls: seq<Call>, out: seq<bool>, i: nat, n: nat,
      start: real)
    requires qps >= 0 && i <= n < |calls| && |out| == |calls| && start == calls[i].now
    ensures IsLeft(qps, Lefts(qps, b, calls, out, n)[i + 1], qps as real, calls[n].now - start, Granted(out, i, n))
    decreases n
  {
    if i == n {
      LeftOfNewWindow(qps, b, calls, out, n);
    } else {
      LeftOfWindow(qps, b, calls, out, i, n - 1, start);
      LeftNext(qps, b, calls, out, n - 1, i + 1, qps as real, start, i);
    }
  }

  /** One admission more in a window of that length stays within the limit. */
  predicate Room(qps: int, granted: nat, span: real) { granted as real + 1.0 <= qps as real + span * qps as real }

  lemma {:induction false} OnKeyIsOnKey(calls: seq<Call>, key: string)
    ensures forall i :: 0 <= i < |OnKey(calls, key)| ==> OnKey(calls, key)[i].key == key
  {
    if calls != [] { OnKeyIsOnKey(calls[1..], key); }
  }

  /** So it is for every window that ends at call `n`: those that start with a call up to it, and the
      one that starts with the bucket. */
  ghost predicate RoomEverywhere(qps: int, own: seq<Call>, out: seq<bool>, n: nat)
    requires n < |own| && |out| == |own|
  {
    && Room(qps, Granted(out, 0, n), own[n].now - own[0].created)
    && forall i :: 0 <= i <= n ==> Room(qps, Granted(out, i, n), own[n].now - own[i].now)
  }

  lemma OwnAdmittedIffRoom(qps: int, own: seq<Call>, out: seq<bool>, n: nat)
    requires qps >= 0 && n < |own| && Answers(qps, Bucket(qps as real, own[0].created), own, out)
    ensures out[n] <==> RoomEverywhere(qps, own, out, n)
  {
    FoundIsLeast(qps, Bucket(qps as real, own[0].created), own, out, n, 1.0);
    LeftIsRoom(qps, own, out, n);
  }

  /** The limiter admits all that its bound allows: in any run from an empty table, a call is
      admitted exactly when one more admission keeps every window that ends with it in bounds. */
  lemma AdmittedIffRoom(qps: int, calls: seq<Call>, key: string, n: nat)
    requires qps >= 0 && n < |OnKey(calls, key)|
    ensures var own, out := OnKey(calls, key), Outcomes(qps, map[], calls, key);
            |out| == |own| && (out[n] <==> RoomEverywhere(qps, own, out, n))
  {
    var own := OnKey(calls, key);
    KeysIndependent(qps, map[], map[], calls, key);
    OnKeyIsOnKey(calls, key);
    OutcomesAreAnswers(qps, map[], own, key, Bucket(qps as real, own[0].created));
    OwnAdmittedIffRoom(qps, own, Outcomes(qps, map[], own, key), n);
  }

  lemma RoomIsLeft(qps: int, left: real, span: real, granted: nat)
    requires IsLeft(qps, left, qps as real, span, granted)
    ensures left >= 1.0 <==> Room(qps, granted, span)
  {
    GainIsProduct(qps, span);
  }

  lemma StartIsRoom(qps: int, own: seq<Call>, out: seq<bool>, n: nat)
    requires qps >= 0 && n < |own| && |out| == |own|
    ensures Lefts(qps, Bucket(qps as real, own[0].created), own, out, n)[0] >= 1.0
       <==> Room(qps, Granted(out, 0, n), own[n].now - own[0].created)
  {
    var b := Bucket(qps as real, own[0].created);
    LeftOfStart(qps, b, own, out, n);
    RoomIsLeft(qps, Lefts(qps, b, own, out, n)[0], own[n].now - own[0].created, Granted(out, 0, n));
  }

  lemma WindowIsRoom(qps: int, b: Bucket, own: seq<Call>, out: seq<bool>, i: nat, n: nat)
    requires qps >= 0 && i <= n < |own| && |out| == |own|
    ensures Lefts(qps, b, own, out, n)[i + 1] >= 1.0 <==> Room(qps, Granted(out, i, n), own[n].now - own[i].now)
  {
    LeftOfWindow(qps, b, own, out, i, n, own[i].now);
    RoomIsLeft(qps, Lefts(qps, b, own, out, n)[i + 1], own[n].now - own[i].now, Granted(out, i, n));
  }

  lemma LeftIsRoom(qps: int, own: seq<Call>, out: seq<bool>, n: nat)
    requires qps >= 0 && n < |own| && |out| == |own|
    ensures AllAtLeast(Lefts(qps, Bucket(qps as real, own[0].created), own, out, n), 1.0)
       <==> RoomEverywhere(qps, own, out, n)
  {
    var b := Bucket(qps as real, own[0].created);
    var lefts := Lefts(qps, b, own, out, n);
    StartIsRoom(qps, own, out, n);
    if AllAtLeast(lefts, 1.0) {
      forall i | 0 <= i <= n ensures Room(qps, Granted(out, i, n), own[n].now - own[i].now) {
        WindowIsRoom(qps, b, own, out, i, n);
      }
    }
    if RoomEverywhere(qps, own, out, n) {
      forall j | 0 <= j < |lefts| ensures lefts[j] >= 1.0 {
        if j > 0 { WindowIsRoom(qps, b, own, out, j - 1, n); }
      }
    }
  }

  // ---- bursts ----

  /** `n` calls on a key at one moment. */
  function Burst(key: string, now: real, n: nat): seq<Call> { seq(n, i => Call(key, now, now)) }

  lemma CheckAtOnce(qps: int, held: nat, now: real)
    requires qps >= held
    ensures CheckBucket(qps, Bucket(held as real, now), now)
         == Checked(held >= 1, Bucket((if held > 0 then held - 1 else 0) as real, now))
  {
    GainIsProduct(qps, 0.0);
  }

  lemma {:induction false} BurstFrom(qps: int, buckets: map<string, Bucket>, key: string, now: real, n: nat, held: nat)
    requires qps >= held && key in buckets && buckets[key] == Bucket(held as real, now)
    ensures var out := Outcomes(qps, buckets, Burst(key, now, n), key);
            |out| == n && forall i :: 0 <= i < n ==> (out[i] <==> i < held)
    decreases n
  {
    if n > 0 {
      var calls, left := Burst(key, now, n), if held > 0 then held - 1 else 0;
      CheckAtOnce(qps, held, now);
      assert calls[1..] == Burst(key, now, n - 1);
      var next := After(qps, buckets, calls[0]);
      BurstFrom(qps, next, key, now, n - 1, left);
      assert Outcomes(qps, buckets, calls, key) == [held >= 1] + Outcomes(qps, next, calls[1..], key);
    }
  }

  /** Full at its last moment, or not yet used. */
  ghost predicate FullAt(qps: int, buckets: map<string, Bucket>, key: string, now: real) {
    key !in buckets || (buckets[key].tokens >= 0.0 && now - buckets[key].lastUpdate >= 1.0)
  }

  lemma FullCheck(qps: int, buckets: map<string, Bucket>, key: string, now: real)
    requires qps >= 1 && FullAt(qps, buckets, key, now)
    ensures Check(qps, buckets, Call(key, now, now)) == Checked(true, Bucket((qps - 1) as real, now))
  {
    GainIsProduct(qps, 0.0);
    if key in buckets {
      var elapsed := now - buckets[key].lastUpdate;
      GainIsProduct(qps, 1.0);
      WidenWindow(qps, 0.0, elapsed - 1.0, elapsed);
    }
  }

  /** Of any number of calls at one moment on a key that is not yet used, or has not been for a
      second, exactly the first `qps` are admitted. */
  lemma BurstAdmitsQps(qps: int, buckets: map<string, Bucket>, key: string, now: real, n: nat)
    requires qps >= 0 && FullAt(qps, buckets, key, now)
    ensures var out := Outcomes(qps, buckets, Burst(key, now, n), key);
            |out| == n && forall i :: 0 <= i < n ==> (out[i] <==> i < qps)
  {
    var calls := Burst(key, now, n);
    if qps == 0 {
      NoneAdmitted(buckets, calls, key);
    } else if n > 0 {
      FullCheck(qps, buckets, key, now);
      assert calls[1..] == Burst(key, now, n - 1);
      var next := After(qps, buckets, calls[0]);
      BurstFrom(qps, next, key, now, n - 1, qps - 1);
      assert Outcomes(qps, buckets, calls, key) == [true] + Outcomes(qps, next, calls[1..], key);
    }
  }

  lemma {:induction false} NoneAdmitted(buckets: map<string, Bucket>, calls: seq<Call>, key: string)
    requires forall i :: 0 <= i < |calls| ==> calls[i].key == key
    ensures var out := Outcomes(0, buckets, calls, key); |out| == |calls| && forall i :: 0 <= i < |out| ==> !out[i]
    decreases |calls|
  {
    if calls != [] { NoneAdmitted(After(0, buckets, calls[0]), calls[1..], key); }
  }
}

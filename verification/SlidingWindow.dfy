/** The Lua script of `RedisRateLimiter` on the sorted set and the counter of one key, as long as
    they are that key's alone: admissions in the last second, trimmed at every call. */
module SlidingWindow {
  import opened PyText

  /** A key's sorted set (member to score) and its counter. The script sets both to expire at the
      same moment. */
  datatype Window = Window(entries: map<string, real>, seqNo: nat, expireAt: real)

  const EMPTY := Window(map[], 0, 0.0)

  /** `tostring(now) .. ':' .. tostring(seq)`; how Lua prints the time is a parameter. */
  function Member(fmt: real -> string, now: real, seqNo: nat): string {
    fmt(now) + [':'] + NatText(seqNo)
  }

  /** Redis drops keys whose time to live has passed. */
  function Live(w: Window, now: real): Window {
    if now >= w.expireAt then EMPTY else w
  }

  /** `zremrangebyscore key 0 (now - 1)`. */
  function Trim(entries: map<string, real>, now: real): map<string, real> {
    map m | m in entries && !(0.0 <= entries[m] <= now - 1.0) :: entries[m]
  }

  datatype Ran = Ran(admitted: bool, window: Window)

  /** The script on one key's own set and counter. */
  function Script(fmt: real -> string, qps: int, w: Window, now: real): Ran {
    var live := Live(w, now);
    var kept := Trim(live.entries, now);
    if |kept| >= qps then Ran(false, live.(entries := kept))
    else
      var n := live.seqNo + 1;
      Ran(true, Window(kept[Member(fmt, now, n) := now], n, now + 2.0))
  }

  // ---- members ----

  lemma NoColon(n: nat)
    ensures forall c :: c in NatText(n) ==> c != ':'
  {
    forall c | c in NatText(n) ensures c != ':' { assert IsDigit(c); }
  }

  lemma LastColon(f: string, n: nat)
    ensures var m := f + [':'] + NatText(n);
            && m[|f|] == ':' && m[|f| + 1..] == NatText(n)
            && forall k :: |f| < k < |m| ==> m[k] != ':'
  {
    NoColon(n);
    var m := f + [':'] + NatText(n);
    forall k | |f| < k < |m| ensures m[k] != ':' {
      assert m[k] == NatText(n)[k - |f| - 1];
    }
  }

  /** A member determines the counter value it was made with. */
  lemma MemberSeq(fmt: real -> string, s: real, m: nat, t: real, n: nat)
    requires Member(fmt, s, m) == Member(fmt, t, n)
    ensures m == n
  {
    LastColon(fmt(s), m);
    LastColon(fmt(t), n);
    assert |fmt(s)| <= |fmt(t)| && |fmt(t)| <= |fmt(s)|;
    NatTextInjective(m, n);
  }

  // ---- runs on one key ----

  datatype Admission = Admission(at: real, seqNo: nat)

  /** The entries that a list of admissions leaves in the sorted set. */
  ghost function EntriesOf(fmt: real -> string, xs: seq<Admission>): map<string, real> {
    if xs == [] then map[]
    else EntriesOf(fmt, xs[..|xs| - 1])[Member(fmt, xs[|xs| - 1].at, xs[|xs| - 1].seqNo) := xs[|xs| - 1].at]
  }

  /** In time order, with counters that only go up. */
  ghost predicate InOrder(xs: seq<Admission>) {
    forall i, j :: 0 <= i < j < |xs| ==> xs[i].at <= xs[j].at && xs[i].seqNo < xs[j].seqNo
  }

  /** Every entry comes from an admission. */
  ghost predicate FromAdmission(fmt: real -> string, xs: seq<Admission>, m: string, at: real) {
    exists i :: 0 <= i < |xs| && m == Member(fmt, xs[i].at, xs[i].seqNo) && at == xs[i].at
  }

  lemma {:induction false} EntriesFrom(fmt: real -> string, xs: seq<Admission>)
    ensures forall m :: m in EntriesOf(fmt, xs) ==> FromAdmission(fmt, xs, m, EntriesOf(fmt, xs)[m])
  {
    if xs != [] {
      var init, last := xs[..|xs| - 1], xs[|xs| - 1];
      EntriesFrom(fmt, init);
      var all := EntriesOf(fmt, xs);
      assert all == EntriesOf(fmt, init)[Member(fmt, last.at, last.seqNo) := last.at];
      forall m | m in all ensures FromAdmission(fmt, xs, m, all[m]) {
        if m != Member(fmt, last.at, last.seqNo) {
          assert FromAdmission(fmt, init, m, all[m]);
          var i :| 0 <= i < |init| && m == Member(fmt, init[i].at, init[i].seqNo) && all[m] == init[i].at;
          assert init[i] == xs[i];
        }
      }
    }
  }

  /** A new counter value makes a member the set does not have: nothing is overwritten. */
  lemma FreshMember(fmt: real -> string, xs: seq<Admission>, at: real, n: nat)
    requires forall i :: 0 <= i < |xs| ==> xs[i].seqNo != n
    ensures Member(fmt, at, n) !in EntriesOf(fmt, xs)
  {
    EntriesFrom(fmt, xs);
    var m := Member(fmt, at, n);
    if m in EntriesOf(fmt, xs) {
      assert FromAdmission(fmt, xs, m, EntriesOf(fmt, xs)[m]);
      var i :| 0 <= i < |xs| && m == Member(fmt, xs[i].at, xs[i].seqNo);
      MemberSeq(fmt, at, n, xs[i].at, xs[i].seqNo);
    }
  }

  lemma {:induction false} EntriesSize(fmt: real -> string, xs: seq<Admission>)
    requires InOrder(xs)
    ensures |EntriesOf(fmt, xs)| == |xs|
  {
    if xs != [] {
      var init, last := xs[..|xs| - 1], xs[|xs| - 1];
      EntriesSize(fmt, init);
      FreshMember(fmt, init, last.at, last.seqNo);
    }
  }

  lemma TrimAll(fmt: real -> string, xs: seq<Admission>, now: real)
    requires forall i :: 0 <= i < |xs| ==> 0.0 <= xs[i].at <= now - 1.0
    ensures Trim(EntriesOf(fmt, xs), now) == map[]
  {
    EntriesFrom(fmt, xs);
    var all := EntriesOf(fmt, xs);
    forall m | m in all ensures 0.0 <= all[m] <= now - 1.0 {
      assert FromAdmission(fmt, xs, m, all[m]);
    }
  }

  lemma TrimKeepsNew(entries: map<string, real>, m: string, at: real, now: real)
    requires at > now - 1.0
    ensures Trim(entries[m := at], now) == Trim(entries, now)[m := at]
  {
  }

  lemma EntriesMore(fmt: real -> string, xs: seq<Admission>, a: Admission)
    ensures EntriesOf(fmt, xs + [a]) == EntriesOf(fmt, xs)[Member(fmt, a.at, a.seqNo) := a.at]
  {
    assert (xs + [a])[..|xs|] == xs;
  }

  /** Trimming removes a prefix of the admissions: those a second old or more. */
  lemma {:induction false} SameTrim(fmt: real -> string, xs: seq<Admission>, cut: nat, now: real)
    requires cut <= |xs| && forall i :: 0 <= i < |xs| ==> xs[i].at >= 0.0
    requires forall i :: 0 <= i < |xs| ==> (i < cut <==> xs[i].at <= now - 1.0)
    ensures Trim(EntriesOf(fmt, xs), now) == EntriesOf(fmt, xs[cut..])
  {
    if cut == |xs| {
      TrimAll(fmt, xs, now);
    } else {
      var init, last := xs[..|xs| - 1], xs[|xs| - 1];
      SameTrim(fmt, init, cut, now);
      assert xs == init + [last] && xs[cut..] == init[cut..] + [last];
      EntriesMore(fmt, init, last);
      EntriesMore(fmt, init[cut..], last);
      TrimKeepsNew(EntriesOf(fmt, init), Member(fmt, last.at, last.seqNo), last.at, now);
    }
  }

  ghost predicate TimeOrdered(log: seq<Admission>) {
    forall i, j :: 0 <= i < j < |log| ==> log[i].at <= log[j].at
  }

  /** Everything before `cut` is at least a second old, and the admission there is not. */
  ghost predicate CutsAt(log: seq<Admission>, now: real, cut: nat) {
    && cut <= |log|
    && (forall i :: 0 <= i < cut ==> log[i].at <= now - 1.0)
    && (cut < |log| ==> log[cut].at > now - 1.0)
  }

  lemma {:induction false} CutExists(log: seq<Admission>, now: real) returns (cut: nat)
    ensures CutsAt(log, now, cut)
  {
    cut := 0;
    if log != [] && log[0].at <= now - 1.0 {
      var c := CutExists(log[1..], now);
      cut := c + 1;
      assert forall i :: 1 <= i < cut ==> log[i] == log[1..][i - 1];
    }
  }

  /** The first admission less than a second old. */
  ghost function Cut(log: seq<Admission>, now: real): (cut: nat)
    ensures CutsAt(log, now, cut)
  {
    assert exists c: nat :: CutsAt(log, now, c) by { var c := CutExists(log, now); }
    var c: nat :| CutsAt(log, now, c); c
  }

  lemma CutSplits(log: seq<Admission>, now: real)
    requires TimeOrdered(log)
    ensures forall i :: 0 <= i < |log| ==> (i < Cut(log, now) <==> log[i].at <= now - 1.0)
  {
    var c := Cut(log, now);
    forall i | c <= i < |log| ensures log[i].at > now - 1.0 {
      assert i > c ==> log[c].at <= log[i].at;
    }
  }

  /** How many of the admissions fall in `(now - 1, now]`. */
  ghost function Recent(log: seq<Admission>, now: real): int {
    |log| - Cut(log, now)
  }

  /** The sorted set holds the admissions `log[from..]`, and every earlier one is at least a
      second old; counters in the set only went up. */
  ghost predicate Tracks(fmt: real -> string, w: Window, log: seq<Admission>, from: nat, now: real) {
    && from <= |log|
    && TimeOrdered(log)
    && (forall i :: 0 <= i < |log| ==> 0.0 <= log[i].at <= now && log[i].at <= w.expireAt - 2.0)
    && (forall i :: 0 <= i < from ==> log[i].at <= now - 1.0)
    && InOrder(log[from..])
    && w.entries == EntriesOf(fmt, log[from..])
    && (forall i :: from <= i < |log| ==> log[i].seqNo <= w.seqNo)
  }

  lemma ExpiredIsOld(fmt: real -> string, w: Window, log: seq<Admission>, from: nat, prev: real, now: real)
    requires Tracks(fmt, w, log, from, prev) && now >= w.expireAt
    ensures Cut(log, now) == |log|
  {
    assert forall i :: 0 <= i < |log| ==> log[i].at <= now - 1.0;
  }

  lemma SuffixInOrder(log: seq<Admission>, from: nat, cut: nat)
    requires from <= cut <= |log| && InOrder(log[from..])
    ensures InOrder(log[cut..])
  {
    var xs, ys := log[from..], log[cut..];
    forall i, j | 0 <= i < j < |ys| ensures ys[i].at <= ys[j].at && ys[i].seqNo < ys[j].seqNo {
      assert ys[i] == xs[cut - from + i] && ys[j] == xs[cut - from + j];
    }
  }

  lemma SuffixCut(log: seq<Admission>, from: nat, cut: nat, now: real)
    requires from <= cut <= |log|
    requires forall i :: 0 <= i < |log| ==> (i < cut <==> log[i].at <= now - 1.0)
    ensures log[from..][cut - from..] == log[cut..]
    ensures forall i :: 0 <= i < |log[from..]| ==> (i < cut - from <==> log[from..][i].at <= now - 1.0)
  {
    assert forall i :: 0 <= i < |log[from..]| ==> log[from..][i] == log[from + i];
  }

  lemma TrimSuffix(fmt: real -> string, log: seq<Admission>, from: nat, cut: nat, now: real)
    requires from <= |log| && cut <= |log| && forall i :: 0 <= i < |log| ==> log[i].at >= 0.0
    requires forall i :: 0 <= i < |log| ==> (i < cut <==> log[i].at <= now - 1.0)
    requires forall i :: 0 <= i < from ==> log[i].at <= now - 1.0
    ensures from <= cut && Trim(EntriesOf(fmt, log[from..]), now) == EntriesOf(fmt, log[cut..])
  {
    assert cut < |log| ==> log[cut].at > now - 1.0;
    SuffixCut(log, from, cut, now);
    SameTrim(fmt, log[from..], cut - from, now);
  }

  lemma TrimUnexpired(fmt: real -> string, w: Window, log: seq<Admission>, from: nat, prev: real, now: real)
    requires Tracks(fmt, w, log, from, prev) && prev <= now
    ensures from <= Cut(log, now) && Trim(w.entries, now) == EntriesOf(fmt, log[Cut(log, now)..])
  {
    CutSplits(log, now);
    TrimSuffix(fmt, log, from, Cut(log, now), now);
  }

  /** After the expiry check and the trim, the sorted set is exactly the last second. */
  lemma TrimTracks(fmt: real -> string, w: Window, log: seq<Admission>, from: nat, prev: real, now: real)
    requires Tracks(fmt, w, log, from, prev) && prev <= now
    ensures Trim(Live(w, now).entries, now) == EntriesOf(fmt, log[Cut(log, now)..])
    ensures InOrder(log[Cut(log, now)..])
    ensures |Trim(Live(w, now).entries, now)| == Recent(log, now)
    ensures forall i :: Cut(log, now) <= i < |log| ==> log[i].seqNo <= Live(w, now).seqNo
  {
    var cut := Cut(log, now);
    if now >= w.expireAt {
      ExpiredIsOld(fmt, w, log, from, prev, now);
      assert log[cut..] == [];
    } else {
      TrimUnexpired(fmt, w, log, from, prev, now);
      SuffixInOrder(log, from, cut);
    }
    EntriesSize(fmt, log[cut..]);
  }

  /** The log of admissions after one more call. */
  ghost function Logged(fmt: real -> string, qps: int, w: Window, log: seq<Admission>, now: real): seq<Admission> {
    var r := Script(fmt, qps, w, now);
    if r.admitted then log + [Admission(now, r.window.seqNo)] else log
  }

  /** One call: it is admitted exactly when fewer than `qps` admissions are less than a
      second old, and the sorted set keeps tracking the log. */
  lemma CallTracks(fmt: real -> string, qps: int, w: Window, log: seq<Admission>, from: nat, prev: real, now: real)
    requires qps >= 1 && Tracks(fmt, w, log, from, prev) && 0.0 <= now && prev <= now
    ensures var r := Script(fmt, qps, w, now);
            && (r.admitted <==> Recent(log, now) < qps)
            && Tracks(fmt, r.window, Logged(fmt, qps, w, log, now), Cut(log, now), now)
  {
    if Recent(log, now) < qps {
      AdmitTracks(fmt, w, log, from, prev, now);
      CallAdmits(fmt, qps, w, log, from, prev, now);
    } else {
      RefuseTracks(fmt, qps, w, log, from, prev, now);
      CallRefuses(fmt, qps, w, log, from, prev, now);
    }
  }

  lemma CallAdmits(fmt: real -> string, qps: int, w: Window, log: seq<Admission>, from: nat, prev: real, now: real)
    requires Tracks(fmt, w, log, from, prev) && prev <= now && Recent(log, now) < qps
    ensures var n := Live(w, now).seqNo + 1;
            var kept := Trim(Live(w, now).entries, now);
            && Script(fmt, qps, w, now) == Ran(true, Window(kept[Member(fmt, now, n) := now], n, now + 2.0))
            && Logged(fmt, qps, w, log, now) == log + [Admission(now, n)]
  {
    TrimTracks(fmt, w, log, from, prev, now);
  }

  lemma CallRefuses(fmt: real -> string, qps: int, w: Window, log: seq<Admission>, from: nat, prev: real, now: real)
    requires Tracks(fmt, w, log, from, prev) && prev <= now && Recent(log, now) >= qps
    ensures Script(fmt, qps, w, now) == Ran(false, Live(w, now).(entries := Trim(Live(w, now).entries, now)))
    ensures Logged(fmt, qps, w, log, now) == log
  {
    TrimTracks(fmt, w, log, from, prev, now);
  }

  lemma RefuseTracks(fmt: real -> string, qps: int, w: Window, log: seq<Admission>, from: nat, prev: real, now: real)
    requires Tracks(fmt, w, log, from, prev) && prev <= now && Recent(log, now) >= qps >= 1
    ensures Live(w, now) == w
    ensures Tracks(fmt, w.(entries := Trim(w.entries, now)), log, Cut(log, now), now)
  {
    TrimTracks(fmt, w, log, from, prev, now);
  }

  lemma AppendInOrder(xs: seq<Admission>, a: Admission)
    requires InOrder(xs) && forall i :: 0 <= i < |xs| ==> xs[i].at <= a.at && xs[i].seqNo < a.seqNo
    ensures InOrder(xs + [a])
  {
  }

  /** What an admission is added to: the log so far, and the set and the counter after the trim. */
  ghost predicate Ready(fmt: real -> string, kept: map<string, real>, seqNo: nat, log: seq<Admission>, cut: nat,
      now: real) {
    && cut <= |log| && TimeOrdered(log) && 0.0 <= now
    && (forall i :: 0 <= i < |log| ==> 0.0 <= log[i].at <= now)
    && (forall i :: 0 <= i < cut ==> log[i].at <= now - 1.0)
    && InOrder(log[cut..]) && kept == EntriesOf(fmt, log[cut..])
    && (forall i :: cut <= i < |log| ==> log[i].seqNo <= seqNo)
  }

  lemma TracksReady(fmt: real -> string, w: Window, log: seq<Admission>, from: nat, prev: real, now: real)
    requires Tracks(fmt, w, log, from, prev) && 0.0 <= now && prev <= now
    ensures Ready(fmt, Trim(Live(w, now).entries, now), Live(w, now).seqNo, log, Cut(log, now), now)
  {
    TrimTracks(fmt, w, log, from, prev, now);
  }

  lemma AdmitTracks(fmt: real -> string, w: Window, log: seq<Admission>, from: nat, prev: real, now: real)
    requires Tracks(fmt, w, log, from, prev) && 0.0 <= now && prev <= now
    ensures var n := Live(w, now).seqNo + 1;
            Tracks(fmt, Window(Trim(Live(w, now).entries, now)[Member(fmt, now, n) := now], n, now + 2.0),
                   log + [Admission(now, n)], Cut(log, now), now)
  {
    TracksReady(fmt, w, log, from, prev, now);
    AdmitAt(fmt, Trim(Live(w, now).entries, now), Live(w, now).seqNo, log, Cut(log, now), now);
  }

  lemma AdmitAt(fmt: real -> string, kept: map<string, real>, seqNo: nat, log: seq<Admission>, cut: nat, now: real)
    requires Ready(fmt, kept, seqNo, log, cut, now)
    ensures Tracks(fmt, Window(kept[Member(fmt, now, seqNo + 1) := now], seqNo + 1, now + 2.0),
                   log + [Admission(now, seqNo + 1)], cut, now)
  {
    var a := Admission(now, seqNo + 1);
    AppendTimes(log, a, now);
    AppendOld(log, a, cut, seqNo, now);
    AppendSuffix(log, cut, a);
    AppendInOrder(log[cut..], a);
    EntriesMore(fmt, log[cut..], a);
    var w := Window(kept[Member(fmt, now, seqNo + 1) := now], seqNo + 1, now + 2.0);
    TracksOf(fmt, w, log + [a], log[cut..] + [a], cut, now);
  }

  /** The parts of `Tracks`, for a log that comes with its suffix. */
  lemma TracksOf(fmt: real -> string, w: Window, log: seq<Admission>, suffix: seq<Admission>, from: nat, now: real)
    requires from <= |log| && suffix == log[from..] && TimeOrdered(log) && w.expireAt == now + 2.0
    requires forall i :: 0 <= i < |log| ==> 0.0 <= log[i].at <= now
    requires forall i :: 0 <= i < from ==> log[i].at <= now - 1.0
    requires InOrder(suffix) && w.entries == EntriesOf(fmt, suffix)
    requires forall i :: from <= i < |log| ==> log[i].seqNo <= w.seqNo
    ensures Tracks(fmt, w, log, from, now)
  {
  }

  lemma AppendOld(log: seq<Admission>, a: Admission, cut: nat, seqNo: nat, now: real)
    requires cut <= |log| && a.seqNo == seqNo + 1
    requires forall i :: 0 <= i < cut ==> log[i].at <= now - 1.0
    requires forall i :: cut <= i < |log| ==> log[i].seqNo <= seqNo
    ensures forall i :: 0 <= i < cut ==> (log + [a])[i].at <= now - 1.0
    ensures forall i :: cut <= i < |log + [a]| ==> (log + [a])[i].seqNo <= seqNo + 1
  {
  }

  lemma AppendTimes(log: seq<Admission>, a: Admission, prev: real)
    requires TimeOrdered(log) && 0.0 <= a.at && prev <= a.at
    requires forall i :: 0 <= i < |log| ==> 0.0 <= log[i].at <= prev
    ensures TimeOrdered(log + [a])
    ensures forall i :: 0 <= i < |log + [a]| ==> 0.0 <= (log + [a])[i].at <= a.at
  {
  }

  lemma AppendSuffix(log: seq<Admission>, cut: nat, a: Admission)
    requires cut <= |log|
    ensures (log + [a])[cut..] == log[cut..] + [a]
    ensures forall i :: 0 <= i < |log| - cut ==> log[cut..][i] == log[cut + i]
  {
  }

  /** A run of calls on one key, starting with nothing stored. */
  datatype Trace = Trace(window: Window, log: seq<Admission>)

  ghost function Run(fmt: real -> string, qps: int, nows: seq<real>): Trace {
    if nows == [] then Trace(EMPTY, [])
    else
      var t := Run(fmt, qps, nows[..|nows| - 1]);
      var now := nows[|nows| - 1];
      Trace(Script(fmt, qps, t.window, now).window, Logged(fmt, qps, t.window, t.log, now))
  }

  ghost predicate Clock(nows: seq<real>) {
    && (forall i :: 0 <= i < |nows| ==> nows[i] >= 0.0)
    && (forall i, j :: 0 <= i < j < |nows| ==> nows[i] <= nows[j])
  }

  ghost function LastOf(nows: seq<real>): real { if nows == [] then 0.0 else nows[|nows| - 1] }

  /** Any `qps + 1` consecutive admissions span at least a second. */
  ghost predicate SpreadOut(qps: int, log: seq<Admission>) {
    forall i, j :: 0 <= i <= j < |log| && j == i + qps ==> log[j].at - log[i].at >= 1.0
  }

  lemma {:induction false} RunTracks(fmt: real -> string, qps: int, nows: seq<real>) returns (from: nat)
    requires qps >= 1 && Clock(nows)
    ensures Tracks(fmt, Run(fmt, qps, nows).window, Run(fmt, qps, nows).log, from, LastOf(nows))
    ensures SpreadOut(qps, Run(fmt, qps, nows).log)
  {
    if nows == [] {
      from := 0;
    } else {
      var init, now := nows[..|nows| - 1], nows[|nows| - 1];
      var f := RunTracks(fmt, qps, init);
      var t := Run(fmt, qps, init);
      CallTracks(fmt, qps, t.window, t.log, f, LastOf(init), now);
      from := Cut(t.log, now);
      StaysSpread(fmt, qps, t.window, t.log, now);
    }
  }

  lemma StaysSpread(fmt: real -> string, qps: int, w: Window, log: seq<Admission>, now: real)
    requires qps >= 1 && SpreadOut(qps, log)
    requires Script(fmt, qps, w, now).admitted ==> Recent(log, now) < qps
    ensures SpreadOut(qps, Logged(fmt, qps, w, log, now))
  {
  }

  /** The call at the end of any run is admitted exactly when fewer than `qps` admissions lie
      in the second before it, and the trimmed set is exactly those admissions. */
  lemma AdmittedIffRoom(fmt: real -> string, qps: int, nows: seq<real>, now: real)
    requires qps >= 1 && Clock(nows + [now])
    ensures var t := Run(fmt, qps, nows);
            && (Script(fmt, qps, t.window, now).admitted <==> Recent(t.log, now) < qps)
            && Trim(Live(t.window, now).entries, now) == EntriesOf(fmt, t.log[Cut(t.log, now)..])
            && |Trim(Live(t.window, now).entries, now)| == Recent(t.log, now)
            && forall i :: 0 <= i < |t.log| ==> (i >= Cut(t.log, now) <==> now - 1.0 < t.log[i].at <= now)
  {
    var all := nows + [now];
    assert forall i :: 0 <= i < |nows| ==> nows[i] == all[i];
    assert all[|nows|] == now;
    assert Clock(nows);
    assert LastOf(nows) <= now by {
      if nows != [] { assert all[|nows| - 1] == nows[|nows| - 1]; }
    }
    var from := RunTracks(fmt, qps, nows);
    var t := Run(fmt, qps, nows);
    TrimTracks(fmt, t.window, t.log, from, LastOf(nows), now);
    CallTracks(fmt, qps, t.window, t.log, from, LastOf(nows), now);
    CutSplits(t.log, now);
  }

  /** Admissions in the half-open window `[a, a + 1)`. */
  ghost function InSecond(log: seq<Admission>, a: real): nat {
    if log == [] then 0 else (if a <= log[0].at < a + 1.0 then 1 else 0) + InSecond(log[1..], a)
  }

  lemma {:induction false} InSecondAtMostLength(log: seq<Admission>, a: real)
    ensures InSecond(log, a) <= |log|
  {
    if log != [] { InSecondAtMostLength(log[1..], a); }
  }

  lemma {:induction false} InSecondConcat(x: seq<Admission>, y: seq<Admission>, a: real)
    ensures InSecond(x + y, a) == InSecond(x, a) + InSecond(y, a)
  {
    if x == [] {
      assert x + y == y;
    } else {
      assert (x + y)[1..] == x[1..] + y;
      InSecondConcat(x[1..], y, a);
    }
  }

  lemma {:induction false} NoneLate(log: seq<Admission>, a: real)
    requires forall i :: 0 <= i < |log| ==> log[i].at >= a + 1.0
    ensures InSecond(log, a) == 0
  {
    if log != [] { NoneLate(log[1..], a); }
  }

  lemma {:induction false} SpreadBounds(qps: int, log: seq<Admission>, a: real)
    requires qps >= 1 && TimeOrdered(log) && SpreadOut(qps, log)
    ensures InSecond(log, a) <= qps
  {
    if log == [] {
    } else if log[0].at < a {
      SpreadBounds(qps, log[1..], a);
    } else if |log| <= qps {
      InSecondAtMostLength(log, a);
    } else {
      var x, y := log[..qps], log[qps..];
      assert log == x + y;
      InSecondConcat(x, y, a);
      InSecondAtMostLength(x, a);
      forall i | 0 <= i < |y| ensures y[i].at >= a + 1.0 {
        assert y[i] == log[qps + i] && (i > 0 ==> log[qps].at <= log[qps + i].at);
        assert log[qps].at - log[0].at >= 1.0;
      }
      NoneLate(y, a);
    }
  }

  /** Over any run with a clock that does not go back, every half-open one-second window
      contains at most `qps` admissions. */
  lemma WindowBound(fmt: real -> string, qps: int, nows: seq<real>, a: real)
    requires qps >= 1 && Clock(nows)
    ensures InSecond(Run(fmt, qps, nows).log, a) <= qps
  {
    var from := RunTracks(fmt, qps, nows);
    SpreadBounds(qps, Run(fmt, qps, nows).log, a);
  }

  ghost function InWindow(a: real, t: real): nat { if a <= t < a + 1.0 then 1 else 0 }

  lemma RunMore(fmt: real -> string, qps: int, nows: seq<real>, now: real)
    ensures var t := Run(fmt, qps, nows);
            Run(fmt, qps, nows + [now]).log == Logged(fmt, qps, t.window, t.log, now)
  {
    assert (nows + [now])[..|nows|] == nows;
  }

  lemma LoggedInSecond(fmt: real -> string, qps: int, w: Window, log: seq<Admission>, now: real, a: real)
    ensures InSecond(Logged(fmt, qps, w, log, now), a)
         == InSecond(log, a) + if Script(fmt, qps, w, now).admitted then InWindow(a, now) else 0
  {
    var r := Script(fmt, qps, w, now);
    if r.admitted {
      var last := [Admission(now, r.window.seqNo)];
      InSecondConcat(log, last, a);
      assert last[1..] == [] && InSecond(last, a) == InWindow(a, now);
    }
  }

  lemma {:induction false} NothingBelowOne(fmt: real -> string, qps: int, nows: seq<real>)
    requires qps <= 0
    ensures Run(fmt, qps, nows).log == []
  {
    if nows != [] { NothingBelowOne(fmt, qps, nows[..|nows| - 1]); }
  }
}

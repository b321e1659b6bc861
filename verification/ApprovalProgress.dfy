/** What the approval protocol gets done: an approved call runs, a late or denied one stops, and a
    sweep expires what was due when it began. */
module ApprovalProgress {
  import opened Options
  import opened ApprovalSteps
  import opened ApprovalProtocol
  import opened ApprovalSafety
  import opened Sorting

  // ---- polls ----

  /** In time, and approved. */
  ghost predicate MayRun(s: System, id: string)
    requires id in s.born && Known(s.gate, id)
  {
    StatusOf(s.gate, id).Approved? && s.clock < s.born[id].expiresAt
  }

  /** Too late, or denied. */
  ghost predicate MustStop(s: System, id: string)
    requires id in s.born && Known(s.gate, id)
  {
    StatusOf(s.gate, id).Denied? || s.clock >= s.born[id].expiresAt
  }

  lemma OwnTicket(s: System, call: nat)
    requires Inv(s) && call in s.calls && s.calls[call].Waiting?
    ensures var id := s.calls[call].ticket;
            && id in s.born && Known(s.gate, id) && s.gate.heap[s.gate.tickets[id]].id == id
            && s.gate.heap[s.gate.tickets[id]].expiresAt == s.born[id].expiresAt
  {
    var id := s.calls[call].ticket;
    assert id in s.born && Known(s.gate, id);
  }

  /** A waiting call that polls runs its tool if and only if its ticket is approved and not yet at
      its expiry; it stops if and only if the ticket is denied or the expiry has come; otherwise it
      waits on. */
  lemma PollDecides(s: System, call: nat)
    requires Inv(s) && Enabled(s, Poll(call))
    ensures var id := s.calls[call].ticket;
            var s' := Next(s, Poll(call));
            && id in s.born && Known(s.gate, id)
            && (MayRun(s, id) <==> s'.calls[call].Ran?)
            && (MustStop(s, id) <==> s'.calls[call].Stopped?)
            && (!MayRun(s, id) && !MustStop(s, id) <==> s'.calls == s.calls)
            && s'.log == (if MayRun(s, id) then s.log + [ToolRan(call, Some(id), s.clock)] else s.log)
            && Known(s'.gate, id) && (s.clock >= s.born[id].expiresAt ==> StatusOf(s'.gate, id).Expired?)
  {
    OwnTicket(s, call);
    PollConcludes(s, call);
    LatePollExpires(s, call);
  }

  lemma PollConcludes(s: System, call: nat)
    requires Inv(s) && Enabled(s, Poll(call))
    ensures var id := s.calls[call].ticket;
            && id in s.born && Known(s.gate, id)
            && (MayRun(s, id) <==> PollOf(s, call).Go?)
            && (MustStop(s, id) <==> PollOf(s, call).TimedOut? || PollOf(s, call).Refuse?)
  {
    OwnTicket(s, call);
  }

  lemma LatePollExpires(s: System, call: nat)
    requires Inv(s) && Enabled(s, Poll(call))
    ensures var id, g := s.calls[call].ticket, NextGate(s, Poll(call));
            && id in s.born && Known(g, id) && (s.clock >= s.born[id].expiresAt ==> StatusOf(g, id).Expired?)
  {
    OwnTicket(s, call);
  }

  // ---- starts and decisions ----

  /** A call whose permission is `always` runs at once, one under `never` stops at once, and any
      other gets a pending ticket that expires after its timeout. */
  lemma StartDecides(s: System, call: nat, perm: Permission, id: string, ref: nat, timeout: real)
    requires Inv(s) && Enabled(s, Start(call, perm, id, ref, timeout))
    ensures var s' := Next(s, Start(call, perm, id, ref, timeout));
            && (perm.Always? <==> s'.calls[call].Ran?) && (perm.Never? <==> s'.calls[call].Stopped?)
            && s'.log == (if perm.Always? then s.log + [ToolRan(call, None, s.clock)] else s.log)
            && (perm.RequireApproval? ==>
                  && s'.calls[call] == Creating(id) && id in s'.born && Known(s'.gate, id)
                  && StatusOf(s'.gate, id).Pending? && s'.born[id].requestedAt == s.clock
                  && s'.born[id].expiresAt == s.clock + timeout)
  {
  }

  /** An approve or deny of a ticket created here succeeds if and only if the ticket is pending, at
      any time; then the ticket has that status and tells who decided and when, and otherwise nothing
      changes. */
  lemma DecisionIffPending(s: System, id: string, deny: bool, who: string)
    requires Inv(s) && id in s.born
    ensures var s' := Next(s, if deny then Deny(id, who) else Approve(id, who));
            var event := if deny then DenyOk(id) else ApproveOk(id);
            && Known(s.gate, id) && Known(s'.gate, id)
            && (StatusOf(s.gate, id).Pending? <==> s'.log == s.log + [event])
            && (StatusOf(s.gate, id).Pending? ==>
                  && StatusOf(s'.gate, id) == (if deny then Status.Denied else Status.Approved)
                  && s'.gate.heap[s'.gate.tickets[id]].resolvedBy == who
                  && s'.gate.heap[s'.gate.tickets[id]].resolvedAt == Some(s.clock))
            && (!StatusOf(s.gate, id).Pending? ==> s' == s)
  {
    assert Known(s.gate, id);
    assert s.gate.heap[s.gate.tickets[id]].id == id;
    assert |s.log + [ApproveOk(id)]| != |s.log|;
  }

  lemma ApprovedInTime(s: System, who: string) returns (s': System)
    requires OneWaits(s)
    ensures Follows(s, Approve("t", who), s') && Inv(s') && s'.clock == 0.0 && s'.born == s.born && s'.calls == s.calls
    ensures Known(s'.gate, "t") && StatusOf(s'.gate, "t").Approved? && s'.log == [ApproveOk("t")]
  {
    s' := Next(s, Approve("t", who));
    StepKeepsInv(s, Approve("t", who));
    DecisionIffPending(s, "t", false, who);
  }

  lemma RunsInTime(s: System) returns (s': System)
    requires Inv(s) && s.clock == 0.0 && s.born == map["t" := NewTicket("t", 0.0, 1.0)]
    requires s.calls == map[0 := Waiting("t")] && Known(s.gate, "t") && StatusOf(s.gate, "t").Approved?
    ensures Follows(s, Poll(0), s') && s'.calls == map[0 := Ran]
    ensures s'.log == s.log + [ToolRan(0, Some("t"), 0.0)]
  {
    PollDecides(s, 0);
    s' := Next(s, Poll(0));
    assert s'.calls == s.calls[0 := Ran];
  }

  lemma FourSteps(s0: System, s1: System, s2: System, s3: System, s4: System, t1: Step, t2: Step, t3: Step, t4: Step)
    returns (states: seq<System>)
    requires s0 == Init(s0.clock) && Follows(s0, t1, s1) && Follows(s1, t2, s2)
    requires Follows(s2, t3, s3) && Follows(s3, t4, s4)
    ensures IsRun(states, [t1, t2, t3, t4]) && states[4] == s4
  {
    states := [s0, s1, s2, s3, s4];
    var steps := [t1, t2, t3, t4];
    forall i | 0 <= i < 4 ensures Follows(states[i], steps[i], states[i + 1]) {
      assert i == 0 || i == 1 || i == 2 || i == 3;
    }
  }

  /** The run of a call that is approved in time: the tool runs. */
  lemma ApprovedCallRuns(who: string) returns (states: seq<System>)
    ensures IsRun(states, [ASK, Persisted(0), Approve("t", who), Poll(0)])
    ensures states[4].calls == map[0 := Ran] && states[4].log == [ApproveOk("t"), ToolRan(0, Some("t"), 0.0)]
  {
    var s1, s2 := Asked();
    var s3 := ApprovedInTime(s2, who);
    var s4 := RunsInTime(s3);
    states := FourSteps(Init(0.0), s1, s2, s3, s4, ASK, Persisted(0), Approve("t", who), Poll(0));
  }

  // ---- sweeps ----

  /** An expired object of a ticket created here shows in the table. */
  ghost predicate Shows(g: Gate<nat>, born: map<string, Ticket>) {
    forall r :: r in g.heap && g.heap[r].id in born && g.heap[r].status.Expired? ==>
      Known(g, g.heap[r].id) && StatusOf(g, g.heap[r].id).Expired?
  }

  /** The sweep has still to come to the object. */
  ghost predicate Ahead(sweep: Sweep, r: nat) {
    match sweep
    case Listing(_, found) => r in found
    case Expiring(_, due) => InDue(due, r)
  }

  ghost predicate InDue(due: seq<Item>, r: nat) { exists i :: 0 <= i < |due| && due[i].ref == r }

  /** A sweep that began at or after the ticket's expiry has come to its object, or will. */
  ghost predicate Pursues(s: System, e: nat, id: string, r: nat) {
    && id in s.born && Known(s.gate, id) && r in s.gate.heap && s.gate.heap[r].id == id
    && e in s.sweeps && s.sweeps[e].now >= s.born[id].expiresAt
    && (StatusOf(s.gate, id).Expired? || Ahead(s.sweeps[e], r))
  }

  lemma DueHas(s: System, e: nat, records: seq<Ticket>, refs: seq<nat>, r: nat)
    requires TableOk(s.gate) && RefsOk(s) && Enabled(s, SweepListed(e, records, refs)) && r in s.sweeps[e].found
    ensures InDue(DueItems(s, e, records, refs), r)
  {
    var found := s.sweeps[e].found;
    ItemsAreRefs(s.gate.heap, found);
    var items := ItemsOf(s.gate.heap, found) + NewItems(IdsOf(s.gate.heap, found), records, refs);
    var k :| 0 <= k < |found| && found[k] == r;
    assert items[k].ref == r;
    var due := DueItems(s, e, records, refs);
    SameElements(due, items, items[k]);
    var i :| 0 <= i < |due| && due[i] == items[k];
    assert due[i].ref == r;
  }

  /** The sweep's own object is next: then the ticket expires, unless it has. */
  lemma SweptNow(s: System, e: nat, id: string, r: nat)
    requires Inv(s) && Shows(s.gate, s.born) && Enabled(s, SweepNext(e)) && Pursues(s, e, id, r)
    requires s.sweeps[e].due[0].ref == r
    ensures Known(NextGate(s, SweepNext(e)), id) && StatusOf(NextGate(s, SweepNext(e)), id).Expired?
  {
    if !StatusOf(s.gate, id).Expired? {
      assert !s.gate.heap[r].status.Expired?;
      SweepExpiresIff(s, e, id);
    } else {
      StepMoves(s, SweepNext(e), id);
    }
  }

  lemma AheadStays(s: System, step: Step, e: nat, r: nat)
    requires Inv(s) && Enabled(s, step) && e in s.sweeps && Ahead(s.sweeps[e], r)
    requires !(step == SweepNext(e) && s.sweeps[e].due[0].ref == r)
    ensures var t := NextSweeps(s, step); e in t && t[e].now == s.sweeps[e].now && Ahead(t[e], r)
  {
    if step.SweepListed? && step.sweep == e {
      DueHas(s, e, step.records, step.refs, r);
    } else if step == SweepNext(e) {
      var due := s.sweeps[e].due;
      var i :| 0 <= i < |due| && due[i].ref == r;
      assert due[1..][i - 1].ref == r;
    }
  }

  lemma SweepStays(s: System, step: Step, e: nat)
    requires Inv(s) && Enabled(s, step) && e in s.sweeps
    ensures e in NextSweeps(s, step) && NextSweeps(s, step)[e].now == s.sweeps[e].now
  {
  }

  lemma StepKeepsPursuit(s: System, step: Step, e: nat, id: string, r: nat)
    requires Inv(s) && Shows(s.gate, s.born) && Enabled(s, step) && Pursues(s, e, id, r)
    ensures Pursues(Next(s, step), e, id, r)
  {
    StepEvolves(s, step);
    StepMoves(s, step, id);
    SweepStays(s, step, e);
    if !StatusOf(s.gate, id).Expired? {
      if step == SweepNext(e) && s.sweeps[e].due[0].ref == r {
        SweptNow(s, e, id, r);
      } else {
        AheadStays(s, step, e, r);
      }
    }
  }

  lemma ExpireShows(g: Gate<nat>, r: nat, born: map<string, Ticket>, clock: real)
    requires TableOk(g) && Shows(g, born) && r in g.heap
    ensures Shows(Expire(g, r, clock), born)
  {
  }

  lemma DecideShows(g: Gate<nat>, id: string, status: Status, who: string, born: map<string, Ticket>, clock: real)
    requires TableOk(g) && Shows(g, born) && !status.Expired?
    ensures Shows(Decide(g, id, status, who, clock), born)
  {
    if Verdict(g, id).Accepted? {
      var h := Decide(g, id, status, who, clock);
      forall r | r in h.heap && h.heap[r].id in born && h.heap[r].status.Expired?
        ensures Known(h, h.heap[r].id) && StatusOf(h, h.heap[r].id).Expired?
      {
        assert g.heap[r] == h.heap[r];
        assert StatusOf(g, h.heap[r].id).Expired?;
      }
    }
  }

  lemma ListedShows(s: System, e: nat, records: seq<Ticket>, refs: seq<nat>)
    requires Inv(s) && Shows(s.gate, s.born) && Enabled(s, SweepListed(e, records, refs))
    ensures Shows(NextGate(s, SweepListed(e, records, refs)), s.born)
  {
    MaterialiseKeeps(s.gate.heap, IdsOf(s.gate.heap, s.sweeps[e].found), records, refs);
  }

  lemma LoadShows(g: Gate<nat>, t: Ticket, r: nat, born: map<string, Ticket>)
    requires TableOk(g) && Shows(g, born) && t.id !in born && r !in g.heap
    ensures Shows(Gate(g.heap[r := t], if t.id in g.tickets then g.tickets else g.tickets[t.id := r]), born)
  {
  }

  lemma ResolveShows(g: Gate<nat>, r: nat, status: Status, born: map<string, Ticket>, clock: real)
    requires TableOk(g) && Shows(g, born) && r in g.heap && g.heap[r].id !in born
    ensures Shows(Resolve(g, r, status, "", clock), born)
  {
  }

  lemma ForeignShows(s: System, step: Step)
    requires Inv(s) && Shows(s.gate, s.born) && Enabled(s, step) && step.LoadForeign?
    ensures Shows(NextGate(s, step), s.born)
  {
    var g, t := s.gate, step.record;
    var loaded := Gate(g.heap[step.ref := t], if t.id in g.tickets then g.tickets else g.tickets[t.id := step.ref]);
    LoadShows(g, t, step.ref, s.born);
    if step.decision.Some? && t.status.Pending? {
      assert TableOk(loaded);
      ResolveShows(loaded, step.ref, step.decision.value, s.born, s.clock);
    }
  }

  lemma StartShows(s: System, step: Step)
    requires Inv(s) && Shows(s.gate, s.born) && Enabled(s, step) && step.Start?
    ensures Shows(NextGate(s, step), Next(s, step).born)
  {
  }

  lemma StepShows(s: System, step: Step)
    requires Inv(s) && Shows(s.gate, s.born) && Enabled(s, step)
    ensures Shows(Next(s, step).gate, Next(s, step).born)
  {
    match step
    case Start(_, _, _, _, _) => StartShows(s, step);
    case Poll(call) =>
      OwnTicket(s, call);
      ExpireShows(s.gate, s.gate.tickets[s.calls[call].ticket], s.born, s.clock);
    case Approve(id, who) => DecideShows(s.gate, id, Status.Approved, who, s.born, s.clock);
    case Deny(id, who) => DecideShows(s.gate, id, Status.Denied, who, s.born, s.clock);
    case LoadForeign(_, _, _) => ForeignShows(s, step);
    case SweepListed(e, records, refs) => ListedShows(s, e, records, refs);
    case SweepNext(e) => ExpireShows(s.gate, s.sweeps[e].due[0].ref, s.born, s.clock);
    case _ =>
  }

  lemma {:induction false} RunShows(states: seq<System>, steps: seq<Step>, n: nat)
    requires IsRun(states, steps) && n < |states|
    ensures Shows(states[n].gate, states[n].born)
  {
    if n > 0 {
      RunShows(states, steps, n - 1);
      RunInv(states, steps, n - 1);
      assert Follows(states[n - 1], steps[n - 1], states[n]);
      StepShows(states[n - 1], steps[n - 1]);
    }
  }

  /** What is known of each step of a run. */
  lemma RunStep(states: seq<System>, steps: seq<Step>, n: nat)
    requires IsRun(states, steps) && n < |steps|
    ensures Inv(states[n]) && Shows(states[n].gate, states[n].born) && Follows(states[n], steps[n], states[n + 1])
  {
    RunInv(states, steps, n);
    RunShows(states, steps, n);
  }

  lemma FollowsPursues(s: System, step: Step, s': System, e: nat, id: string, r: nat)
    requires Inv(s) && Shows(s.gate, s.born) && Follows(s, step, s') && Pursues(s, e, id, r)
    ensures Pursues(s', e, id, r)
  {
    StepKeepsPursuit(s, step, e, id, r);
  }

  lemma {:induction false} RunPursues(states: seq<System>, steps: seq<Step>, m: nat, n: nat, e: nat, id: string, r: nat)
    requires IsRun(states, steps) && m <= n < |states| && Pursues(states[m], e, id, r)
    ensures Pursues(states[n], e, id, r)
    decreases n
  {
    if m < n {
      RunPursues(states, steps, m, n - 1, e, id, r);
      RunStep(states, steps, n - 1);
      FollowsPursues(states[n - 1], steps[n - 1], states[n], e, id, r);
    }
  }

  lemma SweepPursues(s: System, e: nat, found: seq<nat>, id: string)
    requires Inv(s) && Enabled(s, SweepStart(e, found)) && id in s.born && Known(s.gate, id)
    requires StatusOf(s.gate, id).Pending? && s.clock >= s.born[id].expiresAt
    ensures Pursues(Next(s, SweepStart(e, found)), e, id, s.gate.tickets[id])
  {
    assert s.gate.heap[s.gate.tickets[id]].id == id;
    assert s.gate.tickets[id] in found;
  }

  /** When a sweep is done, every ticket that was pending and at or past its expiry when the sweep
      began is expired, whatever else happened in between. */
  lemma FinishedSweepExpires(states: seq<System>, steps: seq<Step>, m: nat, n: nat, e: nat, found: seq<nat>, id: string)
    requires IsRun(states, steps) && m < n < |states| && steps[m] == SweepStart(e, found)
    requires id in states[m].born && Known(states[m].gate, id) && StatusOf(states[m].gate, id).Pending?
    requires states[m].clock >= states[m].born[id].expiresAt
    requires e in states[n].sweeps && states[n].sweeps[e].Expiring? && states[n].sweeps[e].due == []
    ensures Known(states[n].gate, id) && StatusOf(states[n].gate, id).Expired?
  {
    RunInv(states, steps, m);
    assert Follows(states[m], steps[m], states[m + 1]);
    SweepPursues(states[m], e, found, id);
    RunPursues(states, steps, m + 1, n, e, id, states[m].gate.tickets[id]);
  }

  // ---- what a sweep takes on ----

  /** Some item is an object that carries the ticket id. */
  ghost predicate HasTicket(heap: map<nat, Ticket>, items: seq<Item>, id: string) {
    exists i :: 0 <= i < |items| && items[i].ref in heap && heap[items[i].ref].id == id
  }

  lemma HasTicketMore(heap: map<nat, Ticket>, item: Item, items: seq<Item>, id: string)
    requires HasTicket(heap, items, id)
    ensures HasTicket(heap, [item] + items, id)
  {
    var i :| 0 <= i < |items| && items[i].ref in heap && heap[items[i].ref].id == id;
    assert ([item] + items)[i + 1] == items[i];
  }

  lemma {:induction false} RowsAreNew(heap: map<nat, Ticket>, have: set<string>, records: seq<Ticket>, refs: seq<nat>,
      k: nat)
    requires |records| == |refs| && Distinct(refs) && k < |records| && records[k].id !in have
    requires forall i :: 0 <= i < |refs| ==> refs[i] !in heap
    ensures HasTicket(Materialise(heap, have, records, refs), NewItems(have, records, refs), records[k].id)
    decreases |records|
  {
    if records[0].id in have {
      RowsAreNew(heap, have, records[1..], refs[1..], k - 1);
    } else {
      var heap', more := heap[refs[0] := records[0]], have + {records[0].id};
      var item := Item(refs[0], records[0].requestedAt);
      MaterialiseKeeps(heap', more, records[1..], refs[1..]);
      if records[k].id == records[0].id {
        FirstRow(heap, have, records, refs);
      } else {
        RowsAreNew(heap', more, records[1..], refs[1..], k - 1);
        HasTicketMore(Materialise(heap, have, records, refs), item, NewItems(more, records[1..], refs[1..]),
                      records[k].id);
      }
    }
  }

  lemma FirstRow(heap: map<nat, Ticket>, have: set<string>, records: seq<Ticket>, refs: seq<nat>)
    requires |records| == |refs| && Distinct(refs) && records != [] && records[0].id !in have
    requires forall i :: 0 <= i < |refs| ==> refs[i] !in heap
    ensures HasTicket(Materialise(heap, have, records, refs), NewItems(have, records, refs), records[0].id)
  {
    MaterialiseKeeps(heap[refs[0] := records[0]], have + {records[0].id}, records[1..], refs[1..]);
    assert NewItems(have, records, refs)[0].ref == refs[0];
  }

  /** A sweep takes on every ticket that was pending in the table when it began and every row that
      storage lists as pending, oldest request first. */
  lemma SweepTakesOnAll(s: System, e: nat, records: seq<Ticket>, refs: seq<nat>)
    requires Inv(s) && Enabled(s, SweepListed(e, records, refs))
    ensures var due := DueItems(s, e, records, refs);
            var heap := NextGate(s, SweepListed(e, records, refs)).heap;
            && (forall r :: r in s.sweeps[e].found ==> InDue(due, r))
            && (forall k :: 0 <= k < |records| ==> HasTicket(heap, due, records[k].id))
            && forall i, j :: 0 <= i < j < |due| ==> due[i].requestedAt <= due[j].requestedAt
  {
    forall r | r in s.sweeps[e].found ensures InDue(DueItems(s, e, records, refs), r) {
      DueHas(s, e, records, refs, r);
    }
    var heap := NextGate(s, SweepListed(e, records, refs)).heap;
    forall k | 0 <= k < |records| ensures HasTicket(heap, DueItems(s, e, records, refs), records[k].id) {
      RowIsDue(s, e, records, refs, k);
    }
    var found := s.sweeps[e].found;
    SortByIsSorted(ItemsOf(s.gate.heap, found) + NewItems(IdsOf(s.gate.heap, found), records, refs), Earlier);
  }

  lemma RowIsDue(s: System, e: nat, records: seq<Ticket>, refs: seq<nat>, k: nat)
    requires Inv(s) && Enabled(s, SweepListed(e, records, refs)) && k < |records|
    ensures HasTicket(NextGate(s, SweepListed(e, records, refs)).heap, DueItems(s, e, records, refs), records[k].id)
  {
    var found := s.sweeps[e].found;
    var have := IdsOf(s.gate.heap, found);
    var heap := NextGate(s, SweepListed(e, records, refs)).heap;
    var due := DueItems(s, e, records, refs);
    MaterialiseKeeps(s.gate.heap, have, records, refs);
    if records[k].id in have {
      var r :| r in found && s.gate.heap[r].id == records[k].id;
      DueHas(s, e, records, refs, r);
      var i :| 0 <= i < |due| && due[i].ref == r;
      assert heap[due[i].ref].id == records[k].id;
    } else {
      RowsAreNew(s.gate.heap, have, records, refs, k);
      var news := NewItems(have, records, refs);
      var j :| 0 <= j < |news| && news[j].ref in heap && heap[news[j].ref].id == records[k].id;
      NewIsDue(ItemsOf(s.gate.heap, found), news, due, j);
    }
  }

  lemma NewIsDue(items: seq<Item>, news: seq<Item>, due: seq<Item>, j: nat)
    requires due == SortBy(items + news, Earlier) && j < |news|
    ensures exists i :: 0 <= i < |due| && due[i] == news[j]
  {
    assert (items + news)[|items| + j] == news[j];
    SameElements(due, items + news, news[j]);
  }
}

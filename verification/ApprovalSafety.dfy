/** Safety of the approval protocol over every interleaving. */
module ApprovalSafety {
  import opened Options
  import opened ApprovalSteps
  import opened ApprovalProtocol
  import opened Sorting

  // ---- the status of a ticket id, as the gate's table shows it ----

  ghost predicate Known(g: Gate<nat>, id: string) {
    id in g.tickets && g.tickets[id] in g.heap
  }

  ghost function StatusOf(g: Gate<nat>, id: string): Status
    requires Known(g, id)
  {
    g.heap[g.tickets[id]].status
  }

  /** The only status changes there are. */
  predicate Moves(before: Status, after: Status) {
    || before == after
    || (before.Pending? && !after.Pending?)
    || (before.Approved? && after.Expired?)
    || (before.Denied? && after.Expired?)
  }

  // ---- objects ----

  /** Every object of a ticket born here carries its times; the table points at objects of
      the right id. */
  ghost predicate ObjectsOk(s: System) {
    && TableOk(s.gate)
    && (forall id :: id in s.born ==> Known(s.gate, id))
    && (forall r :: r in s.gate.heap && s.gate.heap[r].id in s.born ==>
          s.gate.heap[r].expiresAt == s.born[s.gate.heap[r].id].expiresAt)
  }

  ghost predicate SweepsOk(s: System) {
    && RefsOk(s)
    && forall e :: e in s.sweeps ==> s.sweeps[e].now <= s.clock
  }

  // ---- what every step does to the tickets ----

  /** Objects keep their id and expiry, no known ticket is lost, statuses make legal moves
      only, and a ticket expires only once the clock has reached its expiry. */
  ghost predicate Evolves(g: Gate<nat>, h: Gate<nat>, born: map<string, Ticket>, clock: real) {
    && TableOk(h)
    && (forall r :: r in g.heap ==>
          r in h.heap && h.heap[r].id == g.heap[r].id && h.heap[r].expiresAt == g.heap[r].expiresAt)
    && (forall r :: r in h.heap && r !in g.heap && h.heap[r].id in born ==>
          h.heap[r].expiresAt == born[h.heap[r].id].expiresAt)
    && (forall id :: id in born && Known(g, id) ==>
          Known(h, id) && MovesBy(StatusOf(g, id), StatusOf(h, id), born[id], clock))
  }

  predicate MovesBy(before: Status, after: Status, t: Ticket, clock: real) {
    && Moves(before, after)
    && (after.Expired? && !before.Expired? ==> clock >= t.expiresAt)
  }

  lemma NothingEvolves(g: Gate<nat>, born: map<string, Ticket>, clock: real)
    requires TableOk(g)
    ensures Evolves(g, g, born, clock)
  {
  }

  lemma ExpireEvolves(g: Gate<nat>, r: nat, born: map<string, Ticket>, clock: real)
    requires TableOk(g) && r in g.heap
    requires g.heap[r].id in born ==> clock >= born[g.heap[r].id].expiresAt
    ensures Evolves(g, Expire(g, r, clock), born, clock)
  {
    var h := Expire(g, r, clock);
    forall id | id in born && Known(g, id)
      ensures Known(h, id) && MovesBy(StatusOf(g, id), StatusOf(h, id), born[id], clock)
    {
      assert g.heap[g.tickets[id]].id == id;
    }
  }

  lemma DecideEvolves(g: Gate<nat>, id: string, status: Status, who: string, born: map<string, Ticket>, clock: real)
    requires TableOk(g) && !status.Expired? && !status.Pending?
    ensures Evolves(g, Decide(g, id, status, who, clock), born, clock)
  {
    var h := Decide(g, id, status, who, clock);
    assert h.tickets == g.tickets;
    forall k | k in born && Known(g, k)
      ensures Known(h, k) && MovesBy(StatusOf(g, k), StatusOf(h, k), born[k], clock)
    {
      assert g.heap[g.tickets[k]].id == k;
    }
  }

  // ---- storage rows become objects ----

  lemma {:induction false} MaterialiseKeeps(heap: map<nat, Ticket>, have: set<string>, records: seq<Ticket>,
      refs: seq<nat>)
    requires |records| == |refs|
    requires Distinct(refs)
    requires forall i :: 0 <= i < |refs| ==> refs[i] !in heap
    ensures var h := Materialise(heap, have, records, refs);
            && (forall r :: r in heap ==> r in h && h[r] == heap[r])
            && (forall r :: r in h && r !in heap ==> h[r] in records)
            && (forall i :: 0 <= i < |NewItems(have, records, refs)| ==> NewItems(have, records, refs)[i].ref in h)
    decreases |records|
  {
    if records != [] {
      if records[0].id in have {
        MaterialiseKeeps(heap, have, records[1..], refs[1..]);
      } else {
        var heap' := heap[refs[0] := records[0]];
        MaterialiseKeeps(heap', have + {records[0].id}, records[1..], refs[1..]);
        var h := Materialise(heap, have, records, refs);
        var items := NewItems(have, records, refs);
        assert refs[0] in heap' && refs[0] in h && h[refs[0]] == records[0];
        forall i | 0 <= i < |items| ensures items[i].ref in h {
          assert i > 0 ==> items[i] == NewItems(have + {records[0].id}, records[1..], refs[1..])[i - 1];
        }
      }
    }
  }

  lemma {:induction false} ItemsAreRefs(heap: map<nat, Ticket>, found: seq<nat>)
    requires forall r :: r in found ==> r in heap
    ensures |ItemsOf(heap, found)| == |found|
    ensures forall i :: 0 <= i < |found| ==> ItemsOf(heap, found)[i].ref == found[i]
  {
    if found != [] {
      ItemsAreRefs(heap, found[1..]);
    }
  }

  lemma DueRefs(s: System, sweep: nat, records: seq<Ticket>, refs: seq<nat>)
    requires TableOk(s.gate) && RefsOk(s) && Enabled(s, SweepListed(sweep, records, refs))
    ensures forall i :: 0 <= i < |DueItems(s, sweep, records, refs)| ==>
              DueItems(s, sweep, records, refs)[i].ref in NextGate(s, SweepListed(sweep, records, refs)).heap
  {
    var found := s.sweeps[sweep].found;
    var have := IdsOf(s.gate.heap, found);
    MaterialiseKeeps(s.gate.heap, have, records, refs);
    ItemsAreRefs(s.gate.heap, found);
    var due := ItemsOf(s.gate.heap, found) + NewItems(have, records, refs);
    var sorted := SortBy(due, Earlier);
    var h := Materialise(s.gate.heap, have, records, refs);
    forall i | 0 <= i < |due| ensures due[i].ref in h {
      if i < |found| { assert due[i].ref == found[i]; }
    }
    forall i | 0 <= i < |sorted| ensures sorted[i].ref in h {
      SameElements(sorted, due, sorted[i]);
    }
  }

  lemma ListedEvolves(s: System, sweep: nat, records: seq<Ticket>, refs: seq<nat>)
    requires TableOk(s.gate) && RefsOk(s) && Enabled(s, SweepListed(sweep, records, refs))
    ensures Evolves(s.gate, NextGate(s, SweepListed(sweep, records, refs)), s.born, s.clock)
  {
    MaterialiseKeeps(s.gate.heap, IdsOf(s.gate.heap, s.sweeps[sweep].found), records, refs);
  }

  lemma ForeignEvolves(s: System, step: Step)
    requires TableOk(s.gate) && RefsOk(s) && Enabled(s, step) && step.LoadForeign?
    ensures Evolves(s.gate, NextGate(s, step), s.born, s.clock)
  {
    var g, t := s.gate, step.record;
    var loaded := Gate(g.heap[step.ref := t], if t.id in g.tickets then g.tickets else g.tickets[t.id := step.ref]);
    LoadEvolves(g, t, step.ref, s.born, s.clock);
    if step.decision.Some? && t.status.Pending? {
      ResolveEvolves(g, loaded, step.ref, step.decision.value, s.born, s.clock);
    }
  }

  lemma LoadEvolves(g: Gate<nat>, t: Ticket, r: nat, born: map<string, Ticket>, clock: real)
    requires TableOk(g) && t.id !in born && r !in g.heap
    ensures Evolves(g, Gate(g.heap[r := t], if t.id in g.tickets then g.tickets else g.tickets[t.id := r]), born, clock)
  {
  }

  /** Resolving an object of a ticket not born here, after a load. */
  lemma ResolveEvolves(g: Gate<nat>, h: Gate<nat>, r: nat, status: Status, born: map<string, Ticket>, clock: real)
    requires Evolves(g, h, born, clock) && r in h.heap && r !in g.heap && h.heap[r].id !in born
    ensures Evolves(g, Resolve(h, r, status, "", clock), born, clock)
  {
  }

  lemma StartEvolves(s: System, step: Step)
    requires ObjectsOk(s) && RefsOk(s) && Enabled(s, step) && step.Start?
    ensures Evolves(s.gate, NextGate(s, step), s.born, s.clock)
  {
  }

  lemma StepEvolves(s: System, step: Step)
    requires ObjectsOk(s) && SweepsOk(s) && Enabled(s, step)
    ensures Evolves(s.gate, NextGate(s, step), s.born, s.clock)
  {
    match step
    case Start(_, _, _, _, _) => StartEvolves(s, step);
    case Poll(call) =>
      NothingEvolves(s.gate, s.born, s.clock);
      var id := s.calls[call].ticket;
      if id in s.gate.tickets && PollOf(s, call).TimedOut? {
        ExpireEvolves(s.gate, s.gate.tickets[id], s.born, s.clock);
      }
    case Approve(id, who) => DecideEvolves(s.gate, id, Status.Approved, who, s.born, s.clock);
    case Deny(id, who) => DecideEvolves(s.gate, id, Status.Denied, who, s.born, s.clock);
    case LoadForeign(_, _, _) => ForeignEvolves(s, step);
    case SweepListed(sweep, records, refs) => ListedEvolves(s, sweep, records, refs);
    case SweepNext(sweep) =>
      NothingEvolves(s.gate, s.born, s.clock);
      var r := s.sweeps[sweep].due[0].ref;
      if s.sweeps[sweep].now >= s.gate.heap[r].expiresAt {
        ExpireEvolves(s.gate, r, s.born, s.clock);
      }
    case _ => NothingEvolves(s.gate, s.born, s.clock);
  }

  // ---- one step ----

  lemma StepKeepsObjects(s: System, step: Step)
    requires ObjectsOk(s) && SweepsOk(s) && Enabled(s, step)
    ensures ObjectsOk(Next(s, step))
  {
    StepEvolves(s, step);
  }

  lemma StepKeepsSweeps(s: System, step: Step)
    requires ObjectsOk(s) && SweepsOk(s) && Enabled(s, step)
    ensures SweepsOk(Next(s, step))
  {
    StepEvolves(s, step);
    if step.SweepListed? {
      DueRefs(s, step.sweep, step.records, step.refs);
    }
  }

  /** What one step does to the status of a ticket born here: a legal move, and a move to
      expired only once the clock has reached the ticket's expiry. */
  lemma StepMoves(s: System, step: Step, id: string)
    requires ObjectsOk(s) && SweepsOk(s) && Enabled(s, step) && id in s.born
    ensures var s' := Next(s, step);
            && id in s'.born && s'.born[id] == s.born[id] && Known(s'.gate, id)
            && Moves(StatusOf(s.gate, id), StatusOf(s'.gate, id))
            && (StatusOf(s'.gate, id).Expired? && !StatusOf(s.gate, id).Expired? ==>
                  s'.clock >= s.born[id].expiresAt)
  {
    StepEvolves(s, step);
  }

  // ---- what the log shows ----

  predicate Decides(e: Event, id: string) { e == ApproveOk(id) || e == DenyOk(id) }

  ghost predicate Undecided(log: seq<Event>, id: string) {
    forall i :: 0 <= i < |log| ==> !Decides(log[i], id)
  }

  ghost predicate DecidedAtMostOnce(log: seq<Event>, id: string) {
    forall i, j :: 0 <= i < j < |log| ==> !(Decides(log[i], id) && Decides(log[j], id))
  }

  /** Decisions in the log agree with the statuses in the table. */
  ghost predicate PendingUndecided(s: System) {
    forall id :: id in s.born && Known(s.gate, id) && StatusOf(s.gate, id).Pending? ==> Undecided(s.log, id)
  }

  ghost predicate ApprovedLogged(s: System) {
    forall id :: id in s.born && Known(s.gate, id) && StatusOf(s.gate, id).Approved? ==> ApproveOk(id) in s.log
  }

  ghost predicate DecidedOnce(s: System) {
    forall id :: id in s.born ==> DecidedAtMostOnce(s.log, id)
  }

  ghost predicate DecidedHaveObjects(s: System) {
    forall id :: !Undecided(s.log, id) ==> HasObject(s.gate, id)
  }

  ghost predicate DecisionsOk(s: System) {
    PendingUndecided(s) && ApprovedLogged(s) && DecidedOnce(s) && DecidedHaveObjects(s)
  }

  ghost predicate HasObject(g: Gate<nat>, id: string) {
    exists r :: r in g.heap && g.heap[r].id == id
  }

  /** A pending or waiting call is waiting for the ticket created for it. */
  ghost predicate CallsOk(s: System) {
    && s.calls.Keys == s.permission.Keys
    && (forall c :: c in s.calls && (s.calls[c].Creating? || s.calls[c].Waiting?) ==>
          s.permission[c].RequireApproval? && s.calls[c].ticket in s.born
          && s.calls[c].ticket in s.owner && s.owner[s.calls[c].ticket] == c)
    && s.owner.Keys == s.born.Keys
  }

  /** The tool ran for a reason: policy allowed it outright, or its own ticket had been
      approved before and had not reached its expiry. */
  ghost predicate Justified(s: System, i: nat)
    requires i < |s.log| && s.log[i].ToolRan?
  {
    var ToolRan(c, under, at) := s.log[i];
    && c in s.calls && s.calls[c].Ran? && c in s.permission
    && match under
       case None => s.permission[c].Always?
       case Some(id) =>
         && s.permission[c].RequireApproval?
         && id in s.born && id in s.owner && s.owner[id] == c
         && at < s.born[id].expiresAt
         && ApproveOk(id) in s.log[..i]
  }

  ghost predicate RunsOk(s: System) {
    && (forall i :: 0 <= i < |s.log| && s.log[i].ToolRan? ==> Justified(s, i))
    && (forall i, j :: 0 <= i < j < |s.log| && s.log[i].ToolRan? && s.log[j].ToolRan? ==>
          s.log[i].call != s.log[j].call)
  }

  ghost predicate Inv(s: System) {
    ObjectsOk(s) && SweepsOk(s) && DecisionsOk(s) && CallsOk(s) && RunsOk(s)
  }

  lemma InitInv(clock: real)
    ensures Inv(Init(clock))
  {
  }

  lemma ObjectsPersist(s: System, step: Step, id: string)
    requires ObjectsOk(s) && SweepsOk(s) && Enabled(s, step) && HasObject(s.gate, id)
    ensures HasObject(Next(s, step).gate, id)
  {
    StepEvolves(s, step);
    var r :| r in s.gate.heap && s.gate.heap[r].id == id;
    assert Next(s, step).gate.heap[r].id == id;
  }

  lemma AppendDecision(log: seq<Event>, e: Event, id: string)
    ensures Undecided(log + [e], id) <==> Undecided(log, id) && !Decides(e, id)
    ensures DecidedAtMostOnce(log, id) && (!Decides(e, id) || Undecided(log, id)) ==> DecidedAtMostOnce(log + [e], id)
  {
    var l := log + [e];
    assert l[|log|] == e;
    assert forall i :: 0 <= i < |log| ==> l[i] == log[i];
  }

  /** Known tickets either keep their status or expire. */
  ghost predicate OnlyExpires(g: Gate<nat>, h: Gate<nat>, born: map<string, Ticket>) {
    forall id :: id in born && Known(g, id) ==>
      Known(h, id) && (StatusOf(h, id) == StatusOf(g, id) || StatusOf(h, id).Expired?)
  }

  lemma ExpireOnlyExpires(g: Gate<nat>, r: nat, born: map<string, Ticket>, clock: real)
    requires TableOk(g) && r in g.heap
    ensures OnlyExpires(g, Expire(g, r, clock), born)
  {
    forall id | id in born && Known(g, id)
      ensures Known(Expire(g, r, clock), id)
      ensures StatusOf(Expire(g, r, clock), id) == StatusOf(g, id) || StatusOf(Expire(g, r, clock), id).Expired?
    {
      assert g.heap[g.tickets[id]].id == id;
    }
  }

  /** Everything but a new ticket and an accepted decision. */
  ghost predicate Quiet(s: System, step: Step)
    requires TableOk(s.gate)
  {
    && !(step.Start? && step.perm.RequireApproval?)
    && !(step.Approve? && Verdict(s.gate, step.id).Accepted?)
    && !(step.Deny? && Verdict(s.gate, step.id).Accepted?)
  }

  lemma QuietOnlyExpires(s: System, step: Step)
    requires ObjectsOk(s) && SweepsOk(s) && Enabled(s, step) && Quiet(s, step)
    ensures OnlyExpires(s.gate, NextGate(s, step), s.born)
  {
    match step
    case Poll(call) =>
      var id := s.calls[call].ticket;
      if id in s.gate.tickets { ExpireOnlyExpires(s.gate, s.gate.tickets[id], s.born, s.clock); }
    case SweepNext(sweep) => ExpireOnlyExpires(s.gate, s.sweeps[sweep].due[0].ref, s.born, s.clock);
    case SweepListed(sweep, records, refs) =>
      MaterialiseKeeps(s.gate.heap, IdsOf(s.gate.heap, s.sweeps[sweep].found), records, refs);
    case _ =>
  }

  lemma QuietLog(s: System, step: Step, id: string)
    requires ObjectsOk(s) && SweepsOk(s) && Enabled(s, step) && Quiet(s, step)
    ensures Undecided(NextLog(s, step), id) <==> Undecided(s.log, id)
    ensures DecidedAtMostOnce(s.log, id) ==> DecidedAtMostOnce(NextLog(s, step), id)
    ensures s.log <= NextLog(s, step)
  {
    if NextLog(s, step) != s.log {
      var e := NextLog(s, step)[|s.log|];
      AppendDecision(s.log, e, id);
    }
  }

  lemma QuietKeepsDecisions(s: System, step: Step)
    requires Inv(s) && Enabled(s, step) && Quiet(s, step)
    ensures DecisionsOk(Next(s, step))
  {
    var s' := Next(s, step);
    QuietOnlyExpires(s, step);
    forall id | id in s'.born && Known(s'.gate, id) && StatusOf(s'.gate, id).Pending? ensures Undecided(s'.log, id) {
      QuietLog(s, step, id);
    }
    forall id | id in s'.born && Known(s'.gate, id) && StatusOf(s'.gate, id).Approved? ensures ApproveOk(id) in s'.log {
      QuietLog(s, step, id);
      assert ApproveOk(id) in s.log;
    }
    forall id | id in s'.born ensures DecidedAtMostOnce(s'.log, id) {
      QuietLog(s, step, id);
    }
    QuietKeepsObjects(s, step);
  }

  lemma QuietKeepsObjects(s: System, step: Step)
    requires Inv(s) && Enabled(s, step) && Quiet(s, step)
    ensures forall id :: !Undecided(Next(s, step).log, id) ==> HasObject(Next(s, step).gate, id)
  {
    forall id | !Undecided(Next(s, step).log, id) ensures HasObject(Next(s, step).gate, id) {
      QuietLog(s, step, id);
      ObjectsPersist(s, step, id);
    }
  }

  lemma StartKeepsDecisions(s: System, step: Step)
    requires Inv(s) && Enabled(s, step) && step.Start? && step.perm.RequireApproval?
    ensures DecisionsOk(Next(s, step))
  {
    var s' := Next(s, step);
    assert s'.log == s.log;
    forall id | id in s'.born
      ensures Known(s'.gate, id) && StatusOf(s'.gate, id).Pending? ==> Undecided(s.log, id)
      ensures Known(s'.gate, id) && StatusOf(s'.gate, id).Approved? ==> ApproveOk(id) in s.log
      ensures DecidedAtMostOnce(s.log, id)
    {
      if id == step.id {
        assert !HasObject(s.gate, id);
        assert Undecided(s.log, id);
      }
    }
    forall id | !Undecided(s'.log, id) ensures HasObject(s'.gate, id) {
      ObjectsPersist(s, step, id);
    }
  }

  /** An accepted decision on `id`, logged as `e`. */
  lemma DecisionKeepsDecisions(s: System, step: Step, id: string, status: Status, who: string, e: Event)
    requires Inv(s) && Enabled(s, step) && Verdict(s.gate, id).Accepted?
    requires status.Approved? || status.Denied?
    requires step == if status.Approved? then Approve(id, who) else Deny(id, who)
    requires e == if status.Approved? then ApproveOk(id) else DenyOk(id)
    ensures DecisionsOk(Next(s, step))
  {
    var s' := Next(s, step);
    var h := s'.gate;
    assert s'.log == s.log + [e] && h == Decide(s.gate, id, status, who, s.clock);
    assert h.tickets == s.gate.tickets;
    forall k | k in s'.born
      ensures Known(h, k) && StatusOf(h, k).Pending? ==> Undecided(s'.log, k)
      ensures Known(h, k) && StatusOf(h, k).Approved? ==> ApproveOk(k) in s'.log
      ensures DecidedAtMostOnce(s'.log, k)
    {
      AppendDecision(s.log, e, k);
      assert s.gate.heap[s.gate.tickets[k]].id == k;
      if k == id {
        assert StatusOf(h, k) == status;
        assert s'.log[|s.log|] == e;
      } else {
        assert StatusOf(h, k) == StatusOf(s.gate, k);
        assert ApproveOk(k) in s.log ==> ApproveOk(k) in s'.log;
      }
    }
    forall k | !Undecided(s'.log, k) ensures HasObject(h, k) {
      AppendDecision(s.log, e, k);
      if k == id {
        assert s.gate.heap[s.gate.tickets[id]].id == id;
        assert HasObject(s.gate, id);
      }
      ObjectsPersist(s, step, k);
    }
  }

  lemma StepKeepsDecisions(s: System, step: Step)
    requires Inv(s) && Enabled(s, step)
    ensures DecisionsOk(Next(s, step))
  {
    if Quiet(s, step) {
      QuietKeepsDecisions(s, step);
    } else if step.Start? {
      StartKeepsDecisions(s, step);
    } else if step.Approve? {
      DecisionKeepsDecisions(s, step, step.id, Status.Approved, step.who, ApproveOk(step.id));
    } else {
      DecisionKeepsDecisions(s, step, step.id, Status.Denied, step.who, DenyOk(step.id));
    }
  }

  lemma StartedCall(s: System, step: Step)
    requires Inv(s) && Enabled(s, step) && step.Start? && Awaits(NextCalls(s, step)[step.call])
    ensures var s' := Next(s, step);
            s'.permission[step.call].RequireApproval? && s'.calls[step.call].ticket == step.id
            && step.id in s'.born && step.id in s'.owner && s'.owner[step.id] == step.call
  {
  }

  lemma StepKeepsCalls(s: System, step: Step)
    requires Inv(s) && Enabled(s, step)
    ensures CallsOk(Next(s, step))
  {
    var s' := Next(s, step);
    forall c | c in s'.calls && Awaits(s'.calls[c])
      ensures s'.permission[c].RequireApproval? && s'.calls[c].ticket in s'.born
      ensures s'.calls[c].ticket in s'.owner && s'.owner[s'.calls[c].ticket] == c
    {
      if step.Start? && step.call == c { StartedCall(s, step); } else { CallKept(s, step, c); }
    }
    CallKeys(s, step);
  }

  predicate Awaits(c: Call) { c.Creating? || c.Waiting? }

  /** A call that awaits its ticket after a step, other than its start, did so before. */
  lemma CallKept(s: System, step: Step, c: nat)
    requires TableOk(s.gate) && Enabled(s, step) && c in NextCalls(s, step) && Awaits(NextCalls(s, step)[c])
    requires !(step.Start? && step.call == c)
    ensures c in s.calls && Awaits(s.calls[c]) && s.calls[c].ticket == NextCalls(s, step)[c].ticket
  {
  }

  lemma CallKeys(s: System, step: Step)
    requires TableOk(s.gate) && Enabled(s, step)
    ensures NextCalls(s, step).Keys == if step.Start? then s.calls.Keys + {step.call} else s.calls.Keys
  {
  }

  // ---- tool executions ----

  lemma JustifiedPersists(s: System, step: Step, i: nat)
    requires Inv(s) && Enabled(s, step) && i < |s.log| && s.log[i].ToolRan?
    ensures i < |Next(s, step).log| && Next(s, step).log[i] == s.log[i]
    ensures Next(s, step).log[..i] == s.log[..i]
    ensures Justified(Next(s, step), i)
  {
    assert Justified(s, i);
    LogGrows(s, step);
    RanStays(s, step, s.log[i].call);
  }

  lemma RanCallStays(s: System, step: Step, c: nat)
    requires Inv(s) && Enabled(s, step) && c in s.calls && s.calls[c].Ran?
    ensures c in Next(s, step).calls && Next(s, step).calls[c].Ran?
  {
  }

  lemma BirthsStay(s: System, step: Step)
    requires Inv(s) && Enabled(s, step)
    ensures forall id :: id in s.born ==> id in Next(s, step).born && Next(s, step).born[id] == s.born[id]
    ensures forall id :: id in s.owner ==> id in Next(s, step).owner && Next(s, step).owner[id] == s.owner[id]
  {
  }

  /** A call that has run stays so, and no ticket or permission is forgotten. */
  lemma RanStays(s: System, step: Step, c: nat)
    requires Inv(s) && Enabled(s, step) && c in s.calls && s.calls[c].Ran?
    ensures c in Next(s, step).calls && Next(s, step).calls[c].Ran?
    ensures c in s.permission && c in Next(s, step).permission && Next(s, step).permission[c] == s.permission[c]
    ensures forall id :: id in s.born ==> id in Next(s, step).born && Next(s, step).born[id] == s.born[id]
    ensures forall id :: id in s.owner ==> id in Next(s, step).owner && Next(s, step).owner[id] == s.owner[id]
  {
    RanCallStays(s, step, c);
    BirthsStay(s, step);
  }

  lemma LogGrows(s: System, step: Step)
    requires Inv(s) && Enabled(s, step)
    ensures s.log <= NextLog(s, step) && |NextLog(s, step)| <= |s.log| + 1
  {
  }

  /** The new run, if the step is one. */
  lemma NewRunJustified(s: System, step: Step)
    requires Inv(s) && Enabled(s, step) && |NextLog(s, step)| > |s.log| && NextLog(s, step)[|s.log|].ToolRan?
    ensures Justified(Next(s, step), |s.log|)
    ensures var c := NextLog(s, step)[|s.log|].call;
            c !in s.calls || s.calls[c].Waiting?
  {
    var s' := Next(s, step);
    assert s'.log[..|s.log|] == s.log;
    if step.Poll? {
      var id := s.calls[step.call].ticket;
      assert Known(s.gate, id) && StatusOf(s.gate, id).Approved?;
      assert ApproveOk(id) in s.log;
      assert s.gate.heap[s.gate.tickets[id]].expiresAt == s.born[id].expiresAt;
    }
  }

  lemma StepKeepsRuns(s: System, step: Step)
    requires Inv(s) && Enabled(s, step)
    ensures RunsOk(Next(s, step))
  {
    var s' := Next(s, step);
    LogGrows(s, step);
    forall i | 0 <= i < |s'.log| && s'.log[i].ToolRan? ensures Justified(s', i) {
      if i < |s.log| { JustifiedPersists(s, step, i); } else { NewRunJustified(s, step); }
    }
    forall i, j | 0 <= i < j < |s'.log| && s'.log[i].ToolRan? && s'.log[j].ToolRan?
      ensures s'.log[i].call != s'.log[j].call
    {
      JustifiedPersists(s, step, i);
      if j < |s.log| {
        assert s'.log[j] == s.log[j];
      } else {
        NewRunJustified(s, step);
        assert Justified(s, i);
      }
    }
  }

  lemma StepKeepsInv(s: System, step: Step)
    requires Inv(s) && Enabled(s, step)
    ensures Inv(Next(s, step))
  {
    StepKeepsObjects(s, step);
    StepKeepsSweeps(s, step);
    StepKeepsDecisions(s, step);
    StepKeepsCalls(s, step);
    StepKeepsRuns(s, step);
  }

  // ---- every run ----

  /** A run: a start with no tickets, then any enabled steps in any order. */
  ghost predicate IsRun(states: seq<System>, steps: seq<Step>) {
    && |states| == |steps| + 1
    && states[0] == Init(states[0].clock)
    && forall i {:trigger steps[i]} :: 0 <= i < |steps| ==> Follows(states[i], steps[i], states[i + 1])
  }

  ghost predicate Follows(s: System, step: Step, s': System) {
    TableOk(s.gate) && RefsOk(s) && Enabled(s, step) && s' == Next(s, step)
  }

  lemma {:induction false} RunInv(states: seq<System>, steps: seq<Step>, n: nat)
    requires IsRun(states, steps) && n < |states|
    ensures Inv(states[n])
  {
    if n == 0 {
      InitInv(states[0].clock);
    } else {
      RunInv(states, steps, n - 1);
      assert Follows(states[n - 1], steps[n - 1], states[n]);
      StepKeepsInv(states[n - 1], steps[n - 1]);
    }
  }

  /** What may have become of a ticket between two states. */
  ghost predicate Became(s: System, t: System, id: string) {
    && id in s.born && id in t.born && t.born[id] == s.born[id]
    && Known(s.gate, id) && Known(t.gate, id)
    && Moves(StatusOf(s.gate, id), StatusOf(t.gate, id))
    && s.clock <= t.clock
    && (StatusOf(t.gate, id).Expired? && !StatusOf(s.gate, id).Expired? ==> t.clock >= s.born[id].expiresAt)
  }

  lemma BecameMore(s: System, t: System, u: System, id: string)
    requires Became(s, t, id) && Became(t, u, id)
    ensures Became(s, u, id)
  {
  }

  lemma StepBecomes(s: System, step: Step, t: System, id: string)
    requires Inv(s) && Follows(s, step, t) && id in s.born
    ensures Became(s, t, id)
  {
    StepMoves(s, step, id);
  }

  /** Over any stretch of any run, a ticket's status makes only the five legal moves, expired
      is final, and expiry comes only after the clock has reached `expires_at`. */
  lemma {:induction false} RunStatusMoves(states: seq<System>, steps: seq<Step>, m: nat, n: nat, id: string)
    requires IsRun(states, steps) && m <= n < |states| && id in states[m].born
    ensures Became(states[m], states[n], id)
    decreases n
  {
    if m == n {
      RunInv(states, steps, m);
    } else {
      RunStatusMoves(states, steps, m, n - 1, id);
      RunInv(states, steps, n - 1);
      StepBecomes(states[n - 1], steps[n - 1], states[n], id);
      BecameMore(states[m], states[n - 1], states[n], id);
    }
  }

  // ---- exactly when a ticket expires ----

  /** The call that waits for the ticket polls, at or after its expiry. */
  predicate PollExpires(s: System, step: Step, id: string)
    requires id in s.born
  {
    && step.Poll? && step.call in s.calls && !s.calls[step.call].Ran? && !s.calls[step.call].Stopped?
    && s.calls[step.call].ticket == id && s.clock >= s.born[id].expiresAt
  }

  /** A sweep that started at or after the expiry comes to an object of the ticket, be it the
      table's own or another, that is not expired, whatever else its status is. */
  predicate SweepExpires(s: System, step: Step, id: string)
    requires id in s.born && TableOk(s.gate) && RefsOk(s) && Enabled(s, step)
  {
    step.SweepNext? &&
    var sweep := s.sweeps[step.sweep];
    var t := s.gate.heap[sweep.due[0].ref];
    t.id == id && !t.status.Expired? && sweep.now >= s.born[id].expiresAt
  }

  /** A ticket that is not expired, approved and denied ones included, expires in a step exactly
      when the step is one of these two. */
  lemma StepExpiresIff(s: System, step: Step, id: string)
    requires Inv(s) && Enabled(s, step) && id in s.born && !StatusOf(s.gate, id).Expired?
    ensures Known(NextGate(s, step), id)
    ensures StatusOf(NextGate(s, step), id).Expired? <==> PollExpires(s, step, id) || SweepExpires(s, step, id)
    ensures PollExpires(s, step, id) ==> s.owner[id] == step.call
  {
    match step
    case Poll(call) => PollExpiresIff(s, call, id);
    case SweepNext(sweep) => SweepExpiresIff(s, sweep, id);
    case Approve(other, who) => DecideDoesNotExpire(s.gate, other, Status.Approved, who, s.clock, id);
    case Deny(other, who) => DecideDoesNotExpire(s.gate, other, Status.Denied, who, s.clock, id);
    case Start(_, _, _, _, _) => StartKeepsStatus(s, step, id);
    case LoadForeign(_, _, _) => ForeignKeepsStatus(s, step, id);
    case SweepListed(sweep, records, refs) =>
      MaterialiseKeeps(s.gate.heap, IdsOf(s.gate.heap, s.sweeps[sweep].found), records, refs);
    case _ =>
  }

  lemma StartKeepsStatus(s: System, step: Step, id: string)
    requires Inv(s) && Enabled(s, step) && step.Start? && id in s.born
    ensures Known(NextGate(s, step), id) && StatusOf(NextGate(s, step), id) == StatusOf(s.gate, id)
  {
  }

  lemma ForeignKeepsStatus(s: System, step: Step, id: string)
    requires Inv(s) && Enabled(s, step) && step.LoadForeign? && id in s.born
    ensures Known(NextGate(s, step), id) && StatusOf(NextGate(s, step), id) == StatusOf(s.gate, id)
  {
  }

  lemma PollExpiresIff(s: System, call: nat, id: string)
    requires Inv(s) && Enabled(s, Poll(call)) && id in s.born && !StatusOf(s.gate, id).Expired?
    ensures var g := NextGate(s, Poll(call));
            Known(g, id) && (StatusOf(g, id).Expired? <==> PollExpires(s, Poll(call), id))
  {
    var own := s.calls[call].ticket;
    assert own in s.born && Known(s.gate, own);
    assert s.gate.heap[s.gate.tickets[own]].id == own && s.gate.heap[s.gate.tickets[id]].id == id;
    assert s.gate.heap[s.gate.tickets[own]].expiresAt == s.born[own].expiresAt;
  }

  lemma SweepExpiresIff(s: System, sweep: nat, id: string)
    requires Inv(s) && Enabled(s, SweepNext(sweep)) && id in s.born && !StatusOf(s.gate, id).Expired?
    ensures var g := NextGate(s, SweepNext(sweep));
            Known(g, id) && (StatusOf(g, id).Expired? <==> SweepExpires(s, SweepNext(sweep), id))
  {
    var r := s.sweeps[sweep].due[0].ref;
    assert s.gate.heap[s.gate.tickets[id]].id == id;
    assert s.gate.heap[r].id == id ==> s.gate.heap[r].expiresAt == s.born[id].expiresAt;
  }

  lemma DecideDoesNotExpire(g: Gate<nat>, other: string, status: Status, who: string, now: real, id: string)
    requires TableOk(g) && Known(g, id) && !StatusOf(g, id).Expired? && !status.Expired?
    ensures Known(Decide(g, other, status, who, now), id) && !StatusOf(Decide(g, other, status, who, now), id).Expired?
  {
    assert g.heap[g.tickets[id]].id == id;
  }

  /** Whatever was decided, a call that still waits expires its ticket if it polls late. */
  lemma LatePoll(s: System, call: nat, id: string, now: real) returns (late: System, done: System)
    requires Inv(s) && id in s.born && call in s.calls && s.calls[call] == Waiting(id)
    requires !StatusOf(s.gate, id).Expired? && now >= s.clock && now >= s.born[id].expiresAt
    ensures Follows(s, Tick(now), late) && Follows(late, Poll(call), done)
    ensures Known(done.gate, id) && StatusOf(done.gate, id).Expired?
  {
    late := Next(s, Tick(now));
    StepKeepsInv(s, Tick(now));
    StepExpiresIff(late, Poll(call), id);
    done := Next(late, Poll(call));
  }

  const ASK := Start(0, RequireApproval, "t", 0, 1.0)

  /** One call waits for the ticket `t`, which expires at 1. */
  ghost predicate OneWaits(s: System) {
    && Inv(s) && s.gate == Gate(map[0 := NewTicket("t", 0.0, 1.0)], map["t" := 0]) && s.clock == 0.0
    && s.born == map["t" := NewTicket("t", 0.0, 1.0)] && s.calls == map[0 := Waiting("t")] && s.log == []
  }

  lemma Asked() returns (s1: System, s2: System)
    ensures Follows(Init(0.0), ASK, s1) && Follows(s1, Persisted(0), s2) && OneWaits(s2)
  {
    InitInv(0.0);
    StepKeepsInv(Init(0.0), ASK);
    s1 := Next(Init(0.0), ASK);
    StepKeepsInv(s1, Persisted(0));
    s2 := Next(s1, Persisted(0));
  }

  lemma Decided(s: System, deny: bool, who: string) returns (s': System)
    requires OneWaits(s)
    ensures Follows(s, if deny then Deny("t", who) else Approve("t", who), s')
    ensures Inv(s') && s'.clock == 0.0 && s'.born == s.born && s'.calls == s.calls
    ensures Known(s'.gate, "t") && StatusOf(s'.gate, "t") == if deny then Status.Denied else Status.Approved
  {
    var decide := if deny then Deny("t", who) else Approve("t", who);
    StepKeepsInv(s, decide);
    s' := Next(s, decide);
  }

  /** A decided ticket expires after all: the waiting call polls late. */
  lemma DecidedThenExpired(deny: bool, who: string) returns (states: seq<System>, steps: seq<Step>)
    ensures IsRun(states, steps) && |steps| == 5
    ensures Known(states[3].gate, "t")
    ensures StatusOf(states[3].gate, "t") == if deny then Status.Denied else Status.Approved
    ensures Known(states[5].gate, "t") && StatusOf(states[5].gate, "t").Expired?
  {
    var decide := if deny then Deny("t", who) else Approve("t", who);
    var s1, s2 := Asked();
    var s3 := Decided(s2, deny, who);
    var s4, s5 := LatePoll(s3, 0, "t", 2.0);
    states, steps := FiveSteps(Init(0.0), s1, s2, s3, s4, s5, ASK, Persisted(0), decide, Tick(2.0), Poll(0));
  }

  lemma FiveSteps(s0: System, s1: System, s2: System, s3: System, s4: System, s5: System,
                  t1: Step, t2: Step, t3: Step, t4: Step, t5: Step) returns (states: seq<System>, steps: seq<Step>)
    requires s0 == Init(s0.clock) && Follows(s0, t1, s1) && Follows(s1, t2, s2)
    requires Follows(s2, t3, s3) && Follows(s3, t4, s4) && Follows(s4, t5, s5)
    ensures IsRun(states, steps) && |steps| == 5 && states[3] == s3 && states[5] == s5
  {
    states, steps := [s0, s1, s2, s3, s4, s5], [t1, t2, t3, t4, t5];
    forall i | 0 <= i < 5 ensures Follows(states[i], steps[i], states[i + 1]) {
      assert i == 0 || i == 1 || i == 2 || i == 3 || i == 4;
    }
  }

  /** At most one approve or deny of a ticket ever succeeds. */
  lemma RunOneDecision(states: seq<System>, steps: seq<Step>, n: nat, id: string)
    requires IsRun(states, steps) && n < |states| && id in states[n].born
    ensures DecidedAtMostOnce(states[n].log, id)
    ensures !(ApproveOk(id) in states[n].log && DenyOk(id) in states[n].log)
  {
    RunInv(states, steps, n);
    if ApproveOk(id) in states[n].log && DenyOk(id) in states[n].log {
      BothIsTwice(states[n].log, id);
    }
  }

  lemma BothIsTwice(log: seq<Event>, id: string)
    requires ApproveOk(id) in log && DenyOk(id) in log
    ensures !DecidedAtMostOnce(log, id)
  {
    var i :| 0 <= i < |log| && log[i] == ApproveOk(id);
    var j :| 0 <= j < |log| && log[j] == DenyOk(id);
    assert Decides(log[i], id) && Decides(log[j], id);
    assert i < j || j < i;
  }

  /** Whenever a tool has run, either policy allowed it outright, or its own ticket was
      approved earlier, was never denied, and was strictly before its expiry at the deciding
      poll. Under `never` it does not run, and no call runs its tool twice. */
  lemma RunToolSafety(states: seq<System>, steps: seq<Step>, n: nat, i: nat)
    requires IsRun(states, steps) && n < |states| && i < |states[n].log| && states[n].log[i].ToolRan?
    ensures Justified(states[n], i)
    ensures !states[n].permission[states[n].log[i].call].Never?
    ensures states[n].log[i].under.Some? ==> DenyOk(states[n].log[i].under.value) !in states[n].log
    ensures var log := states[n].log;
            forall j :: 0 <= j < |log| && log[j].ToolRan? && log[j].call == log[i].call ==> i == j
  {
    RunInv(states, steps, n);
    assert Justified(states[n], i);
    if states[n].log[i].under.Some? {
      var id := states[n].log[i].under.value;
      RunOneDecision(states, steps, n, id);
      assert ApproveOk(id) in states[n].log;
    }
  }
}

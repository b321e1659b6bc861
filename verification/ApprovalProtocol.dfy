/** The approval gate as a protocol: callers waiting for approval, approvers, deniers and
    expiry sweeps, interleaved at awaits in any order, with a storage that may fail. */
module ApprovalProtocol {
  import opened Options
  import opened ApprovalSteps
  import opened Sorting

  datatype Permission = Always | RequireApproval | Never

  /** Where one `execute_with_approval` call is. */
  datatype Call = Creating(ticket: string) | Waiting(ticket: string) | Ran | Stopped

  datatype Item = Item(ref: nat, requestedAt: real)

  predicate Earlier(a: Item, b: Item) { a.requestedAt <= b.requestedAt }

  /** Where one `expire_old_tickets` sweep is; `now` is the clock it read at its start. */
  datatype Sweep = Listing(now: real, found: seq<nat>) | Expiring(now: real, due: seq<Item>)

  datatype Event =
    | ApproveOk(ticket: string)
    | DenyOk(ticket: string)
    | ToolRan(call: nat, under: Option<string>, at: real)

  /** `born` records the tickets this gate created, `owner` the call each was created for. */
  datatype System = System(
    gate: Gate<nat>,
    clock: real,
    born: map<string, Ticket>,
    owner: map<string, nat>,
    permission: map<nat, Permission>,
    calls: map<nat, Call>,
    sweeps: map<nat, Sweep>,
    log: seq<Event>)

  datatype Step =
    | Tick(now: real)
    | Start(call: nat, perm: Permission, id: string, ref: nat, timeout: real)
    | Persisted(call: nat)
    | Poll(call: nat)
    | Approve(id: string, who: string)
    | Deny(id: string, who: string)
    | LoadForeign(record: Ticket, ref: nat, decision: Option<Status>)
    | SweepStart(sweep: nat, found: seq<nat>)
    | SweepListed(sweep: nat, records: seq<Ticket>, refs: seq<nat>)
    | SweepNext(sweep: nat)

  function Init(clock: real): System {
    System(Gate(map[], map[]), clock, map[], map[], map[], map[], map[], [])
  }

  predicate TableOk(g: Gate<nat>) {
    forall id :: id in g.tickets ==> g.tickets[id] in g.heap && g.heap[g.tickets[id]].id == id
  }

  /** The references of the tickets in the table that are pending, each once. */
  ghost predicate ListsPending(g: Gate<nat>, found: seq<nat>)
    requires TableOk(g)
  {
    && Distinct(found)
    && (forall r :: r in found <==>
          exists id :: id in g.tickets && g.tickets[id] == r && g.heap[r].status.Pending?)
  }

  ghost predicate Enabled(s: System, step: Step)
    requires TableOk(s.gate)
  {
    match step
    case Tick(now) => now >= s.clock
    case Start(call, perm, id, ref, timeout) =>
      && call !in s.calls
      && (perm.RequireApproval? ==>
            // the id is a new UUID and the ticket a new object
            ref !in s.gate.heap && id !in s.born && forall r :: r in s.gate.heap ==> s.gate.heap[r].id != id)
    case Persisted(call) => call in s.calls && s.calls[call].Creating?
    case Poll(call) => call in s.calls && s.calls[call].Waiting?
    case Approve(id, who) => true
    case Deny(id, who) => true
    case LoadForeign(record, ref, decision) =>
      && record.id !in s.born && ref !in s.gate.heap
      && (decision.Some? ==> decision.value.Approved? || decision.value.Denied?)
    case SweepStart(sweep, found) => sweep !in s.sweeps && ListsPending(s.gate, found)
    case SweepListed(sweep, records, refs) =>
      && sweep in s.sweeps && s.sweeps[sweep].Listing?
      && |refs| == |records|
      && Distinct(refs)
      && (forall i :: 0 <= i < |refs| ==> refs[i] !in s.gate.heap)
      // storage returns pending rows; a row of a ticket born here carries that ticket's times
      && (forall i :: 0 <= i < |records| ==> records[i].status.Pending?)
      && (forall i :: 0 <= i < |records| && records[i].id in s.born ==>
            records[i].expiresAt == s.born[records[i].id].expiresAt)
    case SweepNext(sweep) => sweep in s.sweeps && s.sweeps[sweep].Expiring? && s.sweeps[sweep].due != []
  }

  /** New objects for the storage rows whose ticket the in-memory listing did not have. */
  function Materialise(heap: map<nat, Ticket>, have: set<string>, records: seq<Ticket>, refs: seq<nat>): map<nat,
      Ticket>
    requires |records| == |refs|
    decreases |records|
  {
    if records == [] then heap
    else if records[0].id in have then Materialise(heap, have, records[1..], refs[1..])
    else Materialise(heap[refs[0] := records[0]], have + {records[0].id}, records[1..], refs[1..])
  }

  function NewItems(have: set<string>, records: seq<Ticket>, refs: seq<nat>): seq<Item>
    requires |records| == |refs|
    decreases |records|
  {
    if records == [] then []
    else if records[0].id in have then NewItems(have, records[1..], refs[1..])
    else [Item(refs[0], records[0].requestedAt)] + NewItems(have + {records[0].id}, records[1..], refs[1..])
  }

  function ItemsOf(heap: map<nat, Ticket>, found: seq<nat>): seq<Item>
    requires forall r :: r in found ==> r in heap
  {
    if found == [] then [] else [Item(found[0], heap[found[0]].requestedAt)] + ItemsOf(heap, found[1..])
  }

  function IdsOf(heap: map<nat, Ticket>, found: seq<nat>): set<string>
    requires forall r :: r in found ==> r in heap
  {
    set r | r in found :: heap[r].id
  }

  ghost predicate RefsOk(s: System) {
    forall e :: e in s.sweeps ==>
      match s.sweeps[e]
      case Listing(now, found) => forall r :: r in found ==> r in s.gate.heap
      case Expiring(now, due) => forall i :: 0 <= i < |due| ==> due[i].ref in s.gate.heap
  }

  /** The tickets after the step. */
  function NextGate(s: System, step: Step): Gate<nat>
    requires TableOk(s.gate) && RefsOk(s) && Enabled(s, step)
  {
    match step
    case Start(call, perm, id, ref, timeout) =>
      if perm.RequireApproval? then Add(s.gate, ref, NewTicket(id, s.clock, timeout)) else s.gate
    case Poll(call) =>
      var id := s.calls[call].ticket;
      if id in s.gate.tickets && PollOutcome(s.gate.heap[s.gate.tickets[id]], s.clock).TimedOut?
      then Expire(s.gate, s.gate.tickets[id], s.clock)
      else s.gate
    case Approve(id, who) => Decide(s.gate, id, Status.Approved, who, s.clock)
    case Deny(id, who) => Decide(s.gate, id, Status.Denied, who, s.clock)
    case LoadForeign(record, ref, decision) =>
      var loaded := Gate(s.gate.heap[ref := record],
                         if record.id in s.gate.tickets then s.gate.tickets else s.gate.tickets[record.id := ref]);
      if decision.Some? && record.status.Pending?
      then Resolve(loaded, ref, decision.value, "", s.clock) else loaded
    case SweepListed(sweep, records, refs) =>
      s.gate.(heap := Materialise(s.gate.heap, IdsOf(s.gate.heap, s.sweeps[sweep].found), records, refs))
    case SweepNext(sweep) =>
      var r := s.sweeps[sweep].due[0].ref;
      if s.sweeps[sweep].now >= s.gate.heap[r].expiresAt then Expire(s.gate, r, s.clock) else s.gate
    case _ => s.gate
  }

  /** What a sweep works through after its listing: pending tickets, oldest request first. */
  function DueItems(s: System, sweep: nat, records: seq<Ticket>, refs: seq<nat>): seq<Item>
    requires RefsOk(s) && sweep in s.sweeps && s.sweeps[sweep].Listing? && |records| == |refs|
  {
    var found := s.sweeps[sweep].found;
    SortBy(ItemsOf(s.gate.heap, found) + NewItems(IdsOf(s.gate.heap, found), records, refs), Earlier)
  }

  function NextSweeps(s: System, step: Step): map<nat, Sweep>
    requires TableOk(s.gate) && RefsOk(s) && Enabled(s, step)
  {
    match step
    case SweepStart(sweep, found) => s.sweeps[sweep := Listing(s.clock, found)]
    case SweepListed(sweep, records, refs) =>
      s.sweeps[sweep := Expiring(s.sweeps[sweep].now, DueItems(s, sweep, records, refs))]
    case SweepNext(sweep) => s.sweeps[sweep := Expiring(s.sweeps[sweep].now, s.sweeps[sweep].due[1..])]
    case _ => s.sweeps
  }

  /** What the poll of a waiting call concludes, if its ticket is in the table. */
  function PollOf(s: System, call: nat): PollResult
    requires TableOk(s.gate) && call in s.calls && s.calls[call].Waiting? && s.calls[call].ticket in s.gate.tickets
  {
    PollOutcome(s.gate.heap[s.gate.tickets[s.calls[call].ticket]], s.clock)
  }

  function NextCalls(s: System, step: Step): map<nat, Call>
    requires TableOk(s.gate) && Enabled(s, step)
  {
    match step
    case Start(call, perm, id, ref, timeout) =>
      s.calls[call := match perm
                      case Never => Stopped
                      case Always => Ran
                      case RequireApproval => Creating(id)]
    case Persisted(call) => s.calls[call := Waiting(s.calls[call].ticket)]
    case Poll(call) =>
      if s.calls[call].ticket !in s.gate.tickets then s.calls[call := Stopped]
      else (match PollOf(s, call)
            case TimedOut => s.calls[call := Stopped]
            case Go => s.calls[call := Ran]
            case Refuse => s.calls[call := Stopped]
            case KeepWaiting => s.calls)
    case _ => s.calls
  }

  /** Tool executions and accepted decisions, in the order they happen. */
  function NextLog(s: System, step: Step): seq<Event>
    requires TableOk(s.gate) && Enabled(s, step)
  {
    match step
    case Start(call, perm, id, ref, timeout) =>
      if perm.Always? then s.log + [ToolRan(call, None, s.clock)] else s.log
    case Poll(call) =>
      if s.calls[call].ticket in s.gate.tickets && PollOf(s, call).Go?
      then s.log + [ToolRan(call, Some(s.calls[call].ticket), s.clock)] else s.log
    case Approve(id, who) => if Verdict(s.gate, id).Accepted? then s.log + [ApproveOk(id)] else s.log
    case Deny(id, who) => if Verdict(s.gate, id).Accepted? then s.log + [DenyOk(id)] else s.log
    case _ => s.log
  }

  function Next(s: System, step: Step): System
    requires TableOk(s.gate) && RefsOk(s) && Enabled(s, step)
  {
    System(
      NextGate(s, step),
      if step.Tick? then step.now else s.clock,
      if step.Start? && step.perm.RequireApproval?
      then s.born[step.id := NewTicket(step.id, s.clock, step.timeout)] else s.born,
      if step.Start? && step.perm.RequireApproval? then s.owner[step.id := step.call] else s.owner,
      if step.Start? then s.permission[step.call := step.perm] else s.permission,
      NextCalls(s, step),
      NextSweeps(s, step),
      NextLog(s, step))
  }
}

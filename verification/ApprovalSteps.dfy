/** Approval tickets and the atomic updates the gate makes to them between awaits.
    Tickets are objects: `heap` holds them by reference, `tickets` is the gate's own table,
    and one ticket id may be carried by several objects once storage is read back. */
module ApprovalSteps {
  import opened Options

  datatype Status = Pending | Approved | Denied | Expired

  datatype Ticket = Ticket(
    id: string,
    requestedAt: real,
    expiresAt: real,
    status: Status,
    resolvedAt: Option<real>,
    resolvedBy: string)

  datatype Gate<R> = Gate(heap: map<R, Ticket>, tickets: map<string, R>)

  datatype Decision = Accepted | NotFound | AlreadyResolved(status: Status)

  function NewTicket(id: string, now: real, timeout: real): Ticket {
    Ticket(id, now, now + timeout, Pending, None, "")
  }

  function Add<R>(g: Gate<R>, r: R, t: Ticket): Gate<R> {
    Gate(g.heap[r := t], g.tickets[t.id := r])
  }

  /** `_resolve_ticket`: set the object's outcome and make it the table's entry. */
  function Resolve<R>(g: Gate<R>, r: R, status: Status, who: string, now: real): Gate<R>
    requires r in g.heap
  {
    var t := g.heap[r].(status := status, resolvedAt := Some(now), resolvedBy := who);
    Gate(g.heap[r := t], g.tickets[t.id := r])
  }

  const SYSTEM := "system:auto-expire"

  /** `_expire_ticket`: whatever the status was, unless it is already expired. */
  function Expire<R>(g: Gate<R>, r: R, now: real): Gate<R>
    requires r in g.heap
  {
    if g.heap[r].status.Expired? then g else Resolve(g, r, Expired, SYSTEM, now)
  }

  /** The verdict of `approve_ticket` and `deny_ticket` for a ticket in the table. */
  function Verdict<R>(g: Gate<R>, id: string): Decision
    requires id in g.tickets ==> g.tickets[id] in g.heap
  {
    if id !in g.tickets then NotFound
    else if !g.heap[g.tickets[id]].status.Pending? then AlreadyResolved(g.heap[g.tickets[id]].status)
    else Accepted
  }

  function Decide<R>(g: Gate<R>, id: string, status: Status, who: string, now: real): Gate<R>
    requires id in g.tickets ==> g.tickets[id] in g.heap
  {
    if Verdict(g, id).Accepted? then Resolve(g, g.tickets[id], status, who, now) else g
  }

  /** What one poll of `wait_for_decision` concludes from the ticket it reads. */
  datatype PollResult = TimedOut | Go | Refuse | KeepWaiting

  function PollOutcome(t: Ticket, now: real): PollResult {
    if now >= t.expiresAt then TimedOut
    else if t.status.Approved? then Go
    else if t.status.Denied? then Refuse
    else KeepWaiting
  }
}

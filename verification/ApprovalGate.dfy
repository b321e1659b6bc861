/** `ApprovalGate`: the ticket objects and the methods that update them. Each method is the
    code between two awaits; together they are the atomic steps of the protocol. */
module ApprovalGate {
  import opened Options
  import opened ApprovalSteps

  class TicketObject {
    const id: string
    const requestedAt: real
    const expiresAt: real
    var status: Status
    var resolvedAt: Option<real>
    var resolvedBy: string

    ghost function Value(): Ticket
      reads this
    {
      Ticket(id, requestedAt, expiresAt, status, resolvedAt, resolvedBy)
    }

    constructor (id: string, requestedAt: real, expiresAt: real)
      ensures Value() == Ticket(id, requestedAt, expiresAt, Pending, None, "")
    {
      this.id := id;
      this.requestedAt := requestedAt;
      this.expiresAt := expiresAt;
      status := Pending;
      resolvedAt := None;
      resolvedBy := "";
    }
  }

  class ApprovalGate {
    var tickets: map<string, TicketObject>
    /** Every ticket object handed out so far, whether or not the table still points at it. */
    ghost var objects: set<TicketObject>

    /** The gate as a value: what the protocol's steps are defined on. */
    ghost function View(): Gate<TicketObject>
      reads this, objects
    {
      Gate(map o | o in objects :: o.Value(), tickets)
    }

    ghost predicate Valid()
      reads this, objects
    {
      forall id :: id in tickets ==> tickets[id] in objects && tickets[id].id == id
    }

    constructor ()
      ensures Valid() && View() == Gate(map[], map[])
    {
      tickets := map[];
      objects := {};
    }

    /** The part of `create_ticket` that runs before storage is awaited. */
    method CreateTicket(id: string, now: real, timeout: real) returns (o: TicketObject)
      requires Valid()
      modifies this
      ensures Valid() && fresh(o)
      ensures View() == Add(old(View()), o, NewTicket(id, now, timeout))
    {
      o := new TicketObject(id, now, now + timeout);
      tickets := tickets[id := o];
      objects := objects + {o};
    }

    /** `_resolve_ticket` up to its storage await. */
    method ResolveTicket(o: TicketObject, status: Status, who: string, now: real)
      requires Valid() && o in objects
      modifies this, o
      ensures Valid() && objects == old(objects)
      ensures View() == Resolve(old(View()), o, status, who, now)
    {
      o.status := status;
      o.resolvedAt := Some(now);
      o.resolvedBy := who;
      tickets := tickets[o.id := o];
    }

    /** `_expire_ticket`. */
    method ExpireTicket(o: TicketObject, now: real)
      requires Valid() && o in objects
      modifies this, o
      ensures Valid() && objects == old(objects)
      ensures View() == Expire(old(View()), o, now)
    {
      if o.status.Expired? {
        return;
      }
      ResolveTicket(o, Expired, SYSTEM, now);
    }

    /** `approve_ticket` and `deny_ticket` for a ticket in the table: check and set with no
        await in between. */
    method DecideTicket(id: string, status: Status, who: string, now: real) returns (d: Decision)
      requires Valid()
      modifies this, objects
      ensures Valid() && objects == old(objects)
      ensures d == Verdict(old(View()), id)
      ensures View() == Decide(old(View()), id, status, who, now)
    {
      if id !in tickets {
        return NotFound;
      }
      var ticket := tickets[id];
      if !ticket.status.Pending? {
        return AlreadyResolved(ticket.status);
      }
      ResolveTicket(ticket, status, who, now);
      d := Accepted;
    }

    method ApproveTicket(id: string, who: string, now: real) returns (d: Decision)
      requires Valid()
      modifies this, objects
      ensures Valid() && objects == old(objects)
      ensures d == Verdict(old(View()), id)
      ensures View() == Decide(old(View()), id, Approved, who, now)
    {
      d := DecideTicket(id, Approved, who, now);
    }

    method DenyTicket(id: string, who: string, now: real) returns (d: Decision)
      requires Valid()
      modifies this, objects
      ensures Valid() && objects == old(objects)
      ensures d == Verdict(old(View()), id)
      ensures View() == Decide(old(View()), id, Denied, who, now)
    {
      d := DecideTicket(id, Denied, who, now);
    }

    /** One poll of `wait_for_decision` for a ticket in the table. */
    method PollTicket(id: string, now: real) returns (r: PollResult)
      requires Valid() && id in tickets
      modifies this, objects
      ensures Valid() && objects == old(objects)
      ensures r == PollOutcome(old(View()).heap[old(tickets)[id]], now)
      ensures r.TimedOut? <==> now >= old(tickets[id].expiresAt)
      ensures r.Go? <==> now < old(tickets[id].expiresAt) && old(tickets[id].status).Approved?
      ensures r.Refuse? <==> now < old(tickets[id].expiresAt) && old(tickets[id].status).Denied?
      ensures View() == if r.TimedOut? then Expire(old(View()), old(tickets)[id], now) else old(View())
    {
      var current := tickets[id];
      if now >= current.expiresAt {
        ExpireTicket(current, now);
        return TimedOut;
      }
      if current.status.Approved? {
        return Go;
      }
      if current.status.Denied? {
        return Refuse;
      }
      return KeepWaiting;
    }
  }

  // ---- the polling loop ----

  /** How the wait of one call ends, and after how many polls. */
  datatype Waited = Waited(outcome: PollResult, polls: nat)

  /** `wait_for_decision` against any environment: `status(i)` and `clock(i)` are what poll `i`
      reads. The loop ends at the first poll that is not pending, and it does end: each sleep
      moves the clock by at least the polling interval. */
  method WaitForDecision(ticket: Ticket, interval: real, status: nat -> Status, clock: nat -> real) returns (w: Waited)
    requires interval > 0.0
    requires clock(0) >= ticket.requestedAt
    requires forall i: nat, j: nat :: j == i + 1 ==> clock(j) >= clock(i) + interval
    ensures WaitEnds(ticket, interval, status, clock, w)
  {
    var ttl := ticket.expiresAt - ticket.requestedAt;
    ghost var limit := SleepsUntil(ttl, interval);
    var n: nat := 0;
    while true
      invariant forall i: nat :: i < n ==> PollOutcome(ticket.(status := status(i)), clock(i)).KeepWaiting?
      invariant clock(n) >= ticket.requestedAt + Slept(n, interval)
      invariant n > 0 ==> Slept(n - 1, interval) < ttl
      decreases limit - n
    {
      var current := ticket.(status := status(n));
      if clock(n) >= current.expiresAt {
        return Waited(TimedOut, n + 1);
      }
      if current.status.Approved? {
        return Waited(Go, n + 1);
      }
      if current.status.Denied? {
        return Waited(Refuse, n + 1);
      }
      if limit <= n { SleptMonotone(limit, n, interval); }
      n := n + 1;
    }
  }

  /** The least time `n` sleeps take. */
  ghost function Slept(n: nat, interval: real): real {
    if n == 0 then 0.0 else Slept(n - 1, interval) + interval
  }

  lemma {:induction false} SleptIs(n: nat, interval: real)
    ensures Slept(n, interval) == n as real * interval
  {
    if n > 0 {
      SleptIs(n - 1, interval);
    }
  }

  lemma {:induction false} SleptMonotone(m: nat, n: nat, interval: real)
    requires interval > 0.0 && m <= n
    ensures Slept(m, interval) <= Slept(n, interval)
  {
    if m < n {
      SleptMonotone(m, n - 1, interval);
    }
  }

  /** A number of sleeps after which the clock has certainly passed the time to live. */
  ghost function SleepsUntil(ttl: real, interval: real): (n: nat)
    requires interval > 0.0
    ensures Slept(n, interval) >= ttl
  {
    if ttl <= 0.0 then 0
    else
      var q := (ttl / interval).Floor + 1;
      MulMonotone(q as real, ttl / interval, interval);
      SleptIs(q, interval);
      q
  }

  lemma MulMonotone(a: real, b: real, c: real)
    requires a >= b && c > 0.0
    ensures a * c >= b * c
  {
  }

  /** In whole numbers: at most one poll more than the time to live over the interval,
      rounded up, and so `floor(ttl / interval) + 1` when the interval divides it. */
  lemma PollBound(polls: nat, ttl: real, interval: real)
    requires interval > 0.0 && ttl > 0.0
    requires polls >= 2 ==> Slept(polls - 2, interval) < ttl
    ensures polls <= (ttl / interval).Floor + 2
    ensures (ttl / interval).Floor as real == ttl / interval ==> polls <= (ttl / interval).Floor + 1
  {
    if polls >= 2 {
      SleptIs(polls - 2, interval);
      var q := ttl / interval;
      assert q * interval == ttl;
      if (polls - 2) as real >= q {
        MulMonotone((polls - 2) as real, q, interval);
        assert false;
      }
    }
  }

  /** A wait that is never decided and whose clock moves by exactly the interval per sleep ends at
      the first poll at or after the expiry: after one poll more than the time to live over the
      interval, rounded up. So it takes `floor(ttl / interval) + 1` polls exactly when the
      interval divides the time to live, and one more exactly when it does not. */
  lemma ExactPolls(polls: nat, ttl: real, interval: real)
    requires interval > 0.0 && ttl > 0.0 && polls >= 1
    requires Slept(polls - 1, interval) >= ttl && (polls >= 2 ==> Slept(polls - 2, interval) < ttl)
    ensures var q := ttl / interval;
            && (polls == q.Floor + 1 <==> q.Floor as real == q)
            && (polls == q.Floor + 2 <==> q.Floor as real != q)
  {
    PollBound(polls, ttl, interval);
    SleepsCover(polls - 1, ttl, interval);
  }

  /** `n` sleeps that cover the time to live are at least as many as it holds intervals. */
  lemma SleepsCover(n: nat, ttl: real, interval: real)
    requires interval > 0.0 && Slept(n, interval) >= ttl
    ensures n as real >= ttl / interval
  {
    SleptIs(n, interval);
    var q := ttl / interval;
    assert q * interval == ttl;
    if (n as real) < q {
      MulStrict(n as real, q, interval);
      assert false;
    }
  }

  lemma MulStrict(a: real, b: real, c: real)
    requires a < b && c > 0.0
    ensures a * c < b * c
  {
  }

  /** What `WaitForDecision` promises of its result. */
  ghost predicate WaitEnds(ticket: Ticket, interval: real, status: nat -> Status, clock: nat -> real, w: Waited) {
    && w.polls >= 1 && !w.outcome.KeepWaiting?
    && w.outcome == PollOutcome(ticket.(status := status(w.polls - 1)), clock(w.polls - 1))
    && (forall i: nat :: i < w.polls - 1 ==> PollOutcome(ticket.(status := status(i)), clock(i)).KeepWaiting?)
    && (w.polls >= 2 ==> Slept(w.polls - 2, interval) < ticket.expiresAt - ticket.requestedAt)
  }

  /** The first poll that comes too late or finds a decision settles the wait: too late is a
      timeout, else approved is a go, and denied a refusal. */
  lemma FirstDecisivePoll(ticket: Ticket, interval: real, status: nat -> Status, clock: nat -> real, w: Waited, n: nat)
    requires WaitEnds(ticket, interval, status, clock, w)
    requires forall i: nat :: i < n ==> clock(i) < ticket.expiresAt && !status(i).Approved? && !status(i).Denied?
    requires clock(n) >= ticket.expiresAt || status(n).Approved? || status(n).Denied?
    ensures w.polls == n + 1
    ensures w.outcome.TimedOut? <==> clock(n) >= ticket.expiresAt
    ensures w.outcome.Go? <==> clock(n) < ticket.expiresAt && status(n).Approved?
    ensures w.outcome.Refuse? <==> clock(n) < ticket.expiresAt && status(n).Denied?
  {
    assert PollOutcome(ticket.(status := status(n)), clock(n)) != KeepWaiting;
    if w.polls - 1 < n { assert false; }
  }

  /** One more than the time to live over the interval, rounded up. */
  ghost function PollsNeeded(ttl: real, interval: real): int
    requires interval > 0.0
  {
    var q := ttl / interval;
    if q.Floor as real == q then q.Floor + 1 else q.Floor + 2
  }

  /** How long an undecided ticket is waited for, to the poll. */
  lemma UndecidedWait(ticket: Ticket, interval: real, status: nat -> Status, clock: nat -> real, w: Waited)
    requires interval > 0.0 && ticket.expiresAt > ticket.requestedAt
    requires forall i: nat :: status(i).Pending? && clock(i) == ticket.requestedAt + Slept(i, interval)
    requires WaitEnds(ticket, interval, status, clock, w)
    ensures w.outcome.TimedOut? && w.polls == PollsNeeded(ticket.expiresAt - ticket.requestedAt, interval)
  {
    assert status(w.polls - 1).Pending?;
    ExactPolls(w.polls, ticket.expiresAt - ticket.requestedAt, interval);
  }

  /** Two and a half intervals take four polls, not three. */
  lemma FourPolls()
    ensures var ticket := NewTicket("t", 0.0, 2.5);
            WaitEnds(ticket, 1.0, (i: nat) => Pending, (i: nat) => Slept(i, 1.0), Waited(TimedOut, 4))
    ensures PollsNeeded(2.5, 1.0) == 4 && (2.5 / 1.0).Floor + 1 == 3
  {
    assert 2.5 / 1.0 == 2.5;
    assert Slept(1, 1.0) == 1.0 && Slept(2, 1.0) == 2.0 && Slept(3, 1.0) == 3.0;
  }
}

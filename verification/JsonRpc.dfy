/** Matching requests with replies on the one stream an MCP server process writes. */
module JsonRpc {
  import opened Options
  import opened Sorting

  /** The `id` of a decoded message; Python compares `1`, `1.0` and `True` as equal. */
  datatype Id = NoId | Int(n: int) | Real(x: real) | Bool(b: bool) | Other(text: string)

  datatype Message = Message(id: Id, method': Option<string>, body: string)

  /** What one `readline` under a timeout meets; the stream is closed when they run out. A line over
      the reader's limit comes as `TooLong`, and if it was not complete, its rest as another arrival. */
  datatype Arrival = Line(m: Message) | NotUtf8 | NotJson | NotAnObject | TimedOut | TooLong

  /** All are an `MCPServerError` but two that escape as they are: `Unicode`, a `UnicodeDecodeError`,
      and `Overrun`, the `ValueError` for a line over the limit. */
  datatype Error = NotRunning | Encoding | Timeout | Closed | BadJson | BadPayload | Unicode | Overrun

  datatype Result = Ok(value: Message) | Err(error: Error)

  datatype Request = Request(id: int, method': string, params: string)

  predicate Carries(m: Message, id: int) {
    match m.id
    case Int(n) => n == id
    case Real(x) => x == id as real
    case Bool(b) => (if b then 1 else 0) == id
    case _ => false
  }

  /** A notification, a server's own request or a reply to another request. */
  predicate Stray(a: Arrival, id: int) { a.Line? && !Carries(a.m, id) }

  function ErrorOf(a: Arrival): Error
    requires !a.Line?
  {
    match a
    case TimedOut => Timeout
    case NotUtf8 => Unicode
    case NotJson => BadJson
    case NotAnObject => BadPayload
    case TooLong => Overrun
  }

  /** The outcome of waiting for `id`, and what is left to read. */
  function Await(rest: seq<Arrival>, id: int): (Result, seq<Arrival>) {
    if rest == [] then (Err(Closed), [])
    else if Stray(rest[0], id) then Await(rest[1..], id)
    else (if rest[0].Line? then Ok(rest[0].m) else Err(ErrorOf(rest[0])), rest[1..])
  }

  class MCPServer {
    var rpcCounter: int
    var running: bool
    /** Messages not read yet. */
    var stdout: seq<Arrival>
    /** Requests written. */
    var stdin: seq<Request>

    constructor ()
      ensures rpcCounter == 0 && !running && stdin == [] && stdout == []
    {
      rpcCounter, running, stdin, stdout := 0, false, [], [];
    }

    /** The part of `start` before the handshake: a new process and ids from 1 again. */
    method Start(arrivals: seq<Arrival>)
      modifies this
      ensures rpcCounter == 0 && running && stdin == [] && stdout == arrivals
    {
      rpcCounter, running, stdin, stdout := 0, true, [], arrivals;
    }

    method NextMessageId() returns (id: int)
      modifies this`rpcCounter
      ensures id == rpcCounter == old(rpcCounter) + 1
    {
      rpcCounter := rpcCounter + 1;
      id := rpcCounter;
    }

    method ReadMessage() returns (r: Result)
      modifies this`stdout
      ensures old(stdout) == [] ==> r == Err(Closed) && stdout == []
      ensures old(stdout) != [] ==> stdout == old(stdout)[1..]
      ensures old(stdout) != [] ==>
                r == if old(stdout)[0].Line? then Ok(old(stdout)[0].m) else Err(ErrorOf(old(stdout)[0]))
    {
      if stdout == [] {
        return Err(Closed);
      }
      var a := stdout[0];
      stdout := stdout[1..];
      match a
      case Line(m) => r := Ok(m);
      case TimedOut => r := Err(Timeout);
      case NotUtf8 => r := Err(Unicode);
      case NotJson => r := Err(BadJson);
      case NotAnObject => r := Err(BadPayload);
      case TooLong => r := Err(Overrun);
    }

    /** The reply is what awaiting the request's own id gives, and the ids keep counting. */
    method SendRequest(name: string, params: string, encodable: bool) returns (r: Result)
      modifies this
      ensures running == old(running)
      ensures !running ==> r == Err(NotRunning) && rpcCounter == old(rpcCounter)
      ensures !running ==> stdout == old(stdout) && stdin == old(stdin)
      ensures running ==> rpcCounter == old(rpcCounter) + 1
      ensures running && !encodable ==> r == Err(Encoding) && stdout == old(stdout) && stdin == old(stdin)
      ensures running && encodable ==> stdin == old(stdin) + [Request(rpcCounter, name, params)]
      ensures running && encodable ==> (r, stdout) == Await(old(stdout), rpcCounter)
    {
      if !running {
        return Err(NotRunning);
      }
      var requestId := NextMessageId();
      if !encodable {
        return Err(Encoding);
      }
      stdin := stdin + [Request(requestId, name, params)];
      while true
        invariant requestId == rpcCounter == old(rpcCounter) + 1 && running
        invariant stdin == old(stdin) + [Request(requestId, name, params)]
        invariant Await(stdout, requestId) == Await(old(stdout), requestId)
        decreases |stdout|
      {
        ghost var before := stdout;
        r := ReadMessage();
        if r.Err? || Carries(r.value, requestId) {
          return;
        }
        assert Stray(before[0], requestId);
      }
    }
  }

  // ---- one request ----

  /** The request ends at the `k`-th arrival: all before it are strays, and it is not one. */
  predicate EndsAt(rest: seq<Arrival>, id: int, k: nat) {
    && k <= |rest|
    && (forall j :: 0 <= j < k ==> Stray(rest[j], id))
    && (k < |rest| ==> !Stray(rest[k], id))
  }

  lemma {:induction false} AwaitEndsAt(rest: seq<Arrival>, id: int) returns (k: nat)
    ensures EndsAt(rest, id, k)
    ensures k == |rest| ==> Await(rest, id) == (Err(Closed), [])
    ensures k < |rest| ==>
              Await(rest, id) == (if rest[k].Line? then Ok(rest[k].m) else Err(ErrorOf(rest[k])), rest[k + 1..])
  {
    k := 0;
    if rest != [] && Stray(rest[0], id) {
      var n := AwaitEndsAt(rest[1..], id);
      k := n + 1;
      assert rest[1..][n..] == rest[k..];
      assert forall j :: 0 <= j < k ==> Stray(rest[j], id) by {
        forall j | 0 < j < k ensures Stray(rest[j], id) { assert rest[j] == rest[1..][j - 1]; }
      }
    }
  }

  lemma EndsOnce(rest: seq<Arrival>, id: int, k: nat, n: nat)
    requires EndsAt(rest, id, k) && EndsAt(rest, id, n)
    ensures k == n
  {
  }

  /** A request gets `m` exactly when `m` is the first message carrying its id and nothing
      went wrong before; then the stream up to and including `m` is consumed. */
  lemma {:induction false} GetsFirstOwn(rest: seq<Arrival>, id: int, m: Message, left: seq<Arrival>)
    ensures Await(rest, id) == (Ok(m), left)
       <==> exists k: nat :: k < |rest| && EndsAt(rest, id, k)
                             && rest[k] == Line(m) && Carries(m, id) && left == rest[k + 1..]
  {
    var n := AwaitEndsAt(rest, id);
    forall k: nat | EndsAt(rest, id, k) ensures k == n { EndsOnce(rest, id, k, n); }
  }

  /** The other id is not the awaited one, in a message that anyone may send. */
  predicate OtherId(i: Id, id: int) { i.NoId? || i.Other? || (i.Int? && i.n != id) }

  /** After lines with other ids or none: the line with the awaited id is returned, a fault ends the
      request with its own error, and so does the end of the stream. */
  lemma AwaitMeets(rest: seq<Arrival>, id: int, k: nat)
    requires k <= |rest| && forall j :: 0 <= j < k ==> rest[j].Line? && OtherId(rest[j].m.id, id)
    ensures k < |rest| && rest[k].Line? && rest[k].m.id == Int(id) ==> Await(rest, id) == (Ok(rest[k].m), rest[k + 1..])
    ensures k < |rest| && rest[k].TimedOut? ==> Await(rest, id) == (Err(Timeout), rest[k + 1..])
    ensures k < |rest| && rest[k].NotJson? ==> Await(rest, id) == (Err(BadJson), rest[k + 1..])
    ensures k < |rest| && rest[k].NotAnObject? ==> Await(rest, id) == (Err(BadPayload), rest[k + 1..])
    ensures k == |rest| ==> Await(rest, id) == (Err(Closed), [])
  {
    var n := AwaitEndsAt(rest, id);
    if k == |rest| || !Stray(rest[k], id) { EndsOnce(rest, id, k, n); }
  }

  /** A server's request is never told from a reply: it is returned exactly when it carries
      the id awaited and comes before the reply. */
  lemma {:induction false} RequestTakenForReply(rest: seq<Arrival>, id: int)
    ensures (Await(rest, id).0.Ok? && Await(rest, id).0.value.method'.Some?)
       <==> exists k: nat :: k < |rest| && EndsAt(rest, id, k)
                             && rest[k].Line? && rest[k].m.method'.Some? && Carries(rest[k].m, id)
  {
    var n := AwaitEndsAt(rest, id);
    forall k: nat | EndsAt(rest, id, k) ensures k == n { EndsOnce(rest, id, k, n); }
  }

  lemma PingForInitialize()
    ensures var ping := Message(Int(1), Some("ping"), "");
            Await([Line(ping), Line(Message(Int(1), None, "result"))], 1).0 == Ok(ping)
  {
  }

  // ---- a session ----

  /** The outcomes of requests with the given ids, one after another on one stream. */
  function Session(rest: seq<Arrival>, ids: seq<int>): (r: seq<Result>)
    ensures |r| == |ids|
    decreases |ids|
  {
    if ids == [] then []
    else
      var a := Await(rest, ids[0]);
      [a.0] + Session(a.1, ids[1..])
  }

  lemma {:induction false} SessionCarriesOwn(rest: seq<Arrival>, ids: seq<int>, i: nat)
    requires i < |ids| && Session(rest, ids)[i].Ok?
    ensures Carries(Session(rest, ids)[i].value, ids[i])
    decreases i
  {
    if i == 0 {
      var k := AwaitEndsAt(rest, ids[0]);
    } else {
      SessionCarriesOwn(Await(rest, ids[0]).1, ids[1..], i - 1);
    }
  }

  /** No request is given a message that carries the id of another. */
  lemma NoSharedReply(rest: seq<Arrival>, ids: seq<int>, i: nat, j: nat)
    requires Distinct(ids) && i < |ids| && j < |ids| && i != j && Session(rest, ids)[i].Ok?
    ensures Carries(Session(rest, ids)[i].value, ids[i])
    ensures !Carries(Session(rest, ids)[i].value, ids[j])
  {
    SessionCarriesOwn(rest, ids, i);
    assert ids[i] != ids[j];
    assert ids[i] as real != ids[j] as real;
  }

  /** The stream without the lines that `drop` picks. */
  function Dropped(rest: seq<Arrival>, drop: Arrival -> bool): seq<Arrival> {
    if rest == [] then [] else (if drop(rest[0]) then [] else [rest[0]]) + Dropped(rest[1..], drop)
  }

  ghost predicate DropsOnlyStrays(drop: Arrival -> bool, ids: seq<int>) {
    forall a, i :: drop(a) && 0 <= i < |ids| ==> Stray(a, ids[i])
  }

  lemma {:induction false} AwaitDropped(rest: seq<Arrival>, id: int, drop: Arrival -> bool)
    requires forall a :: drop(a) ==> Stray(a, id)
    ensures Await(Dropped(rest, drop), id) == (Await(rest, id).0, Dropped(Await(rest, id).1, drop))
  {
    if rest != [] {
      AwaitDropped(rest[1..], id, drop);
      if !drop(rest[0]) {
        assert Dropped(rest, drop)[1..] == Dropped(rest[1..], drop);
      } else {
        assert Dropped(rest, drop) == Dropped(rest[1..], drop);
      }
    }
  }

  /** Notifications, and replies to requests that are not part of the session any more (because they
      timed out, say), change no outcome however many there are and wherever they stand. */
  lemma {:induction false} StraysAreUnobservable(rest: seq<Arrival>, ids: seq<int>, drop: Arrival -> bool)
    requires DropsOnlyStrays(drop, ids)
    ensures Session(Dropped(rest, drop), ids) == Session(rest, ids)
    decreases |ids|
  {
    if ids != [] {
      AwaitDropped(rest, ids[0], drop);
      forall a, i | drop(a) && 0 <= i < |ids[1..]| ensures Stray(a, ids[1..][i]) {
        assert Stray(a, ids[i + 1]);
      }
      StraysAreUnobservable(Await(rest, ids[0]).1, ids[1..], drop);
    }
  }

  /** The stream on which every request is answered: for each id some strays, then its reply. */
  function Answers(noise: seq<seq<Arrival>>, replies: seq<Message>): seq<Arrival>
    requires |noise| == |replies|
    decreases |replies|
  {
    if replies == [] then [] else noise[0] + [Line(replies[0])] + Answers(noise[1..], replies[1..])
  }

  lemma {:induction false} AwaitPast(noise: seq<Arrival>, id: int, m: Message, more: seq<Arrival>)
    requires Carries(m, id) && forall j :: 0 <= j < |noise| ==> Stray(noise[j], id)
    ensures Await(noise + [Line(m)] + more, id) == (Ok(m), more)
  {
    var s := noise + [Line(m)] + more;
    if noise == [] {
      assert s[0] == Line(m) && s[1..] == more;
    } else {
      assert s[0] == noise[0] && s[1..] == noise[1..] + [Line(m)] + more;
      AwaitPast(noise[1..], id, m, more);
    }
  }

  /** A server that answers the requests in turn, with anything else in between, is understood. */
  lemma {:induction false} EveryReplyDelivered(noise: seq<seq<Arrival>>, replies: seq<Message>, ids: seq<int>)
    requires |noise| == |replies| == |ids|
    requires forall i :: 0 <= i < |ids| ==> Carries(replies[i], ids[i])
    requires forall i, j :: 0 <= i < |ids| && 0 <= j < |noise[i]| ==> Stray(noise[i][j], ids[i])
    ensures forall i :: 0 <= i < |ids| ==> Session(Answers(noise, replies), ids)[i] == Ok(replies[i])
    decreases |ids|
  {
    if ids != [] {
      AwaitPast(noise[0], ids[0], replies[0], Answers(noise[1..], replies[1..]));
      EveryReplyDelivered(noise[1..], replies[1..], ids[1..]);
    }
  }

  /** The messages handed out, in order. */
  function Delivered(rs: seq<Result>): seq<Arrival> {
    if rs == [] then [] else (if rs[0].Ok? then [Line(rs[0].value)] else []) + Delivered(rs[1..])
  }

  /** `a` is `b` with some elements left out. */
  predicate Subsequence<T(==)>(a: seq<T>, b: seq<T>)
    decreases |b|
  {
    a == [] || (b != [] && ((a[0] == b[0] && Subsequence(a[1..], b[1..])) || Subsequence(a, b[1..])))
  }

  lemma {:induction false} SubsequenceLater<T>(a: seq<T>, pre: seq<T>, b: seq<T>)
    requires Subsequence(a, b)
    ensures Subsequence(a, pre + b)
    decreases |pre|
  {
    if pre == [] {
      assert pre + b == b;
    } else {
      assert (pre + b)[1..] == pre[1..] + b;
      SubsequenceLater(a, pre[1..], b);
    }
  }

  /** Each line is handed out at most once and in the order it arrived. */
  lemma {:induction false} DeliveredOnceInOrder(rest: seq<Arrival>, ids: seq<int>)
    ensures Subsequence(Delivered(Session(rest, ids)), rest)
    decreases |ids|
  {
    if ids != [] {
      var a := Await(rest, ids[0]);
      var later := Delivered(Session(a.1, ids[1..]));
      DeliveredOnceInOrder(a.1, ids[1..]);
      assert Session(rest, ids)[1..] == Session(a.1, ids[1..]);
      var k := AwaitEndsAt(rest, ids[0]);
      if k < |rest| {
        HandedOut(rest, k, a.1, later);
        assert [] + later == later;
      }
    }
  }

  /** What is handed out later, and the line at `k` or nothing before it. */
  lemma HandedOut(rest: seq<Arrival>, k: nat, left: seq<Arrival>, later: seq<Arrival>)
    requires k < |rest| && left == rest[k + 1..] && Subsequence(later, left)
    ensures Subsequence([rest[k]] + later, rest) && Subsequence(later, rest)
  {
    var tail := [rest[k]] + left;
    assert rest == rest[..k] + tail && tail[1..] == left;
    assert ([rest[k]] + later)[1..] == later;
    SubsequenceLater([rest[k]] + later, rest[..k], tail);
    assert Subsequence(later, tail);
    SubsequenceLater(later, rest[..k], tail);
  }

  /** The ids that successive requests get while one process runs. */
  function IdsFrom(counter: int, n: nat): (r: seq<int>)
    ensures |r| == n
  {
    seq(n, i => counter + 1 + i)
  }

  /** Requests sent by one process never receive each other's replies. */
  lemma OneProcessNeverConfuses(rest: seq<Arrival>, counter: int, n: nat, i: nat, j: nat)
    requires i < n && j < n && i != j && Session(rest, IdsFrom(counter, n))[i].Ok?
    ensures !Carries(Session(rest, IdsFrom(counter, n))[i].value, counter + 1 + j)
  {
    NoSharedReply(rest, IdsFrom(counter, n), i, j);
  }
}

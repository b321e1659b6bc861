/** The cost summary: one pass over the recorded lines against the grouped queries. */
module CostTracker {
  import opened Options
  import opened PyText
  import opened Sorting

  datatype Record = Record(timestamp: string, model: string, input: int, output: int, total: int, cost: real,
                           run: Option<string>, agent: Option<string>)

  /** A line of the JSONL file. One that does not parse, or lacks a field, is skipped; JSON that
      is no object raises. */
  datatype Line = Good(record: Record) | Bad | NotObject

  datatype Filter = Filter(start: Option<string>, end: Option<string>, agent: Option<string>, run: Option<string>)

  datatype Figures = Figures(cost: real, tokens: int, input: int, output: int, calls: int)

  const ZERO := Figures(0.0, 0, 0, 0, 0)

  datatype Summary = Summary(totals: Figures, byModel: map<string, Figures>, byAgent: map<string, Figures>)

  function Plus(a: Figures, b: Figures): Figures {
    Figures(a.cost + b.cost, a.tokens + b.tokens, a.input + b.input, a.output + b.output, a.calls + b.calls)
  }

  function FiguresOf(r: Record): Figures { Figures(r.cost, r.total, r.input, r.output, 1) }

  // ---- the queries ----

  predicate Given(o: Option<string>) { o.Some? && o.value != "" }

  /** The WHERE clause: a filter that is empty does not restrict. */
  predicate Passes(r: Record, f: Filter) {
    && (Given(f.start) ==> Le(f.start.value, r.timestamp))
    && (Given(f.end) ==> Le(r.timestamp, f.end.value))
    && (Given(f.agent) ==> r.agent == f.agent)
    && (Given(f.run) ==> r.run == f.run)
  }

  function Where<T>(rs: seq<T>, p: T -> bool): seq<T> {
    if rs == [] then [] else Where(rs[..|rs| - 1], p) + if p(rs[|rs| - 1]) then [rs[|rs| - 1]] else []
  }

  /** SELECT SUM(...), COUNT(*). */
  function Sum(rs: seq<Record>): Figures {
    if rs == [] then ZERO else Plus(Sum(rs[..|rs| - 1]), FiguresOf(rs[|rs| - 1]))
  }

  type Column = Record -> Option<string>

  const MODEL: Column := (r: Record) => Some(r.model)
  /** Records without an agent, or with an empty one, are in no group. */
  const AGENT: Column := (r: Record) => if Given(r.agent) then r.agent else None

  function In(column: Column, k: string): Record -> bool { r => column(r) == Some(k) }

  function Group(rs: seq<Record>, column: Column, k: string): seq<Record> { Where(rs, In(column, k)) }

  /** GROUP BY: a row for every value that occurs, with the sums over its group. */
  ghost predicate GroupedBy(rows: map<string, Figures>, rs: seq<Record>, column: Column) {
    && (forall k :: k in rows <==> Group(rs, column, k) != [])
    && forall k :: k in rows ==> rows[k] == Sum(Group(rs, column, k))
  }

  function Records(lines: seq<Line>): seq<Record> {
    if lines == [] then []
    else Records(lines[..|lines| - 1]) + if lines[|lines| - 1].Good? then [lines[|lines| - 1].record] else []
  }

  /** The records the queries range over. */
  function Chosen(lines: seq<Line>, f: Filter): seq<Record> {
    Where(Records(lines), (r: Record) => Passes(r, f))
  }

  // ---- the one pass ----

  function Bumped(rows: map<string, Figures>, key: Option<string>, r: Record): map<string, Figures> {
    if key.None? then rows
    else rows[key.value := Plus(if key.value in rows then rows[key.value] else ZERO, FiguresOf(r))]
  }

  lemma WhereMore<T>(rs: seq<T>, r: T, p: T -> bool)
    ensures Where(rs + [r], p) == Where(rs, p) + if p(r) then [r] else []
  {
    assert (rs + [r])[..|rs|] == rs;
  }

  lemma SumMore(rs: seq<Record>, r: Record)
    ensures Sum(rs + [r]) == Plus(Sum(rs), FiguresOf(r))
  {
    assert (rs + [r])[..|rs|] == rs;
  }

  lemma GroupMore(rs: seq<Record>, column: Column, r: Record, k: string)
    ensures var group := Group(rs, column, k);
            if column(r) == Some(k)
            then
              && Group(rs + [r], column, k) == group + [r]
              && Sum(Group(rs + [r], column, k)) == Plus(Sum(group), FiguresOf(r))
            else Group(rs + [r], column, k) == group
  {
    WhereMore(rs, r, In(column, k));
    SumMore(Group(rs, column, k), r);
    assert Group(rs, column, k) + [] == Group(rs, column, k);
  }

  /** A group that has no row is empty. */
  lemma RowAt(rows: map<string, Figures>, rs: seq<Record>, column: Column, k: string)
    requires GroupedBy(rows, rs, column)
    ensures k in rows <==> Group(rs, column, k) != []
    ensures Sum(Group(rs, column, k)) == if k in rows then rows[k] else ZERO
  {
  }

  lemma GroupedMore(rows: map<string, Figures>, rs: seq<Record>, column: Column, r: Record)
    requires GroupedBy(rows, rs, column)
    ensures GroupedBy(Bumped(rows, column(r), r), rs + [r], column)
  {
    var more := Bumped(rows, column(r), r);
    forall k
      ensures k in more <==> Group(rs + [r], column, k) != []
      ensures k in more ==> more[k] == Sum(Group(rs + [r], column, k))
    {
      RowAt(rows, rs, column, k);
      GroupMore(rs, column, r, k);
    }
  }

  lemma ChosenMore(lines: seq<Line>, n: nat, f: Filter)
    requires n < |lines|
    ensures var before := Chosen(lines[..n], f);
            Chosen(lines[..n + 1], f)
            == if lines[n].Good? && Passes(lines[n].record, f) then before + [lines[n].record] else before
  {
    assert lines[..n + 1][..n] == lines[..n];
    var before, pass := Records(lines[..n]), (r: Record) => Passes(r, f);
    assert before + [] == before && Where(before, pass) + [] == Where(before, pass);
    if lines[n].Good? { WhereMore(before, lines[n].record, pass); }
  }

  lemma NotObjectMore(lines: seq<Line>, n: nat)
    requires n < |lines|
    ensures NotObject in lines[..n + 1] <==> NotObject in lines[..n] || lines[n].NotObject?
    ensures NotObject in lines[..n + 1] ==> NotObject in lines
  {
    assert lines[..n + 1] == lines[..n] + [lines[n]];
  }

  /** What the summary promises about the records it ranges over. */
  ghost predicate Summarizes(s: Summary, rs: seq<Record>) {
    s.totals == Sum(rs) && GroupedBy(s.byModel, rs, MODEL) && GroupedBy(s.byAgent, rs, AGENT)
  }

  /** One record more. */
  method Aggregate(s: Summary, r: Record, ghost rs: seq<Record>) returns (s': Summary)
    requires Summarizes(s, rs)
    ensures Summarizes(s', rs + [r])
  {
    SumMore(rs, r);
    GroupedMore(s.byModel, rs, MODEL, r);
    GroupedMore(s.byAgent, rs, AGENT, r);
    s' := Summary(Plus(s.totals, FiguresOf(r)), Bumped(s.byModel, Some(r.model), r),
                  Bumped(s.byAgent, if Given(r.agent) then r.agent else None, r));
  }

  /** `_get_summary_from_jsonl`: the one pass raises exactly when some line is JSON but no object,
      and otherwise computes what the three queries specify. */
  method SummaryFromJsonl(lines: seq<Line>, f: Filter) returns (r: Option<Summary>)
    ensures r.None? <==> NotObject in lines
    ensures r.Some? ==> Summarizes(r.value, Chosen(lines, f))
  {
    var s := Summary(ZERO, map[], map[]);
    ghost var rs: seq<Record> := [];
    for n := 0 to |lines|
      invariant rs == Chosen(lines[..n], f) && Summarizes(s, rs)
      invariant NotObject !in lines[..n]
    {
      ChosenMore(lines, n, f);
      NotObjectMore(lines, n);
      if lines[n].NotObject? {
        return None;
      }
      if lines[n].Good? && Passes(lines[n].record, f) {
        s := Aggregate(s, lines[n].record, rs);
        rs := rs + [lines[n].record];
      }
    }
    assert lines[..|lines|] == lines;
    r := Some(s);
  }

  // ---- the figures add up ----

  /** The sum of a dictionary's values over some listing of its keys. */
  function SumRows(rows: map<string, Figures>, keys: seq<string>): Figures
    requires forall k :: k in keys ==> k in rows
  {
    if keys == [] then ZERO else Plus(rows[keys[0]], SumRows(rows, keys[1..]))
  }

  /** The sum over the records that satisfy `p`. */
  function SumIf(rs: seq<Record>, p: Record -> bool): Figures {
    if rs == [] then ZERO
    else
      var before, last := SumIf(rs[..|rs| - 1], p), rs[|rs| - 1];
      if p(last) then Plus(before, FiguresOf(last)) else before
  }

  lemma {:induction false} SumOfWhere(rs: seq<Record>, p: Record -> bool)
    ensures Sum(Where(rs, p)) == SumIf(rs, p)
  {
    if rs != [] {
      var front := Where(rs[..|rs| - 1], p);
      SumOfWhere(rs[..|rs| - 1], p);
      SumMore(front, rs[|rs| - 1]);
      assert front + [] == front;
    }
  }

  lemma PlusShuffles(a: Figures, b: Figures, c: Figures)
    ensures Plus(Plus(a, b), c) == Plus(a, Plus(b, c)) == Plus(Plus(a, c), b)
  {
  }

  lemma {:induction false} SumIfSplits(rs: seq<Record>, p: Record -> bool, a: Record -> bool, b: Record -> bool)
    requires forall r :: r in rs ==> (p(r) <==> a(r) || b(r)) && !(a(r) && b(r))
    ensures SumIf(rs, p) == Plus(SumIf(rs, a), SumIf(rs, b))
  {
    if rs != [] {
      var front, last := rs[..|rs| - 1], rs[|rs| - 1];
      assert last in rs;
      SumIfSplits(front, p, a, b);
      PlusShuffles(SumIf(front, a), SumIf(front, b), FiguresOf(last));
    }
  }

  lemma {:induction false} SumIfNone(rs: seq<Record>, p: Record -> bool)
    requires forall r :: r in rs ==> !p(r)
    ensures SumIf(rs, p) == ZERO
  {
    if rs != [] {
      assert rs[|rs| - 1] in rs;
      SumIfNone(rs[..|rs| - 1], p);
    }
  }

  lemma {:induction false} SumIfSame(rs: seq<Record>, p: Record -> bool, q: Record -> bool)
    requires forall r :: r in rs ==> p(r) == q(r)
    ensures SumIf(rs, p) == SumIf(rs, q)
  {
    if rs != [] {
      assert rs[|rs| - 1] in rs;
      SumIfSame(rs[..|rs| - 1], p, q);
    }
  }

  function InAny(column: Column, keys: seq<string>): Record -> bool {
    r => column(r).Some? && column(r).value in keys
  }

  lemma AnySplits(rs: seq<Record>, column: Column, keys: seq<string>, k: string, more: seq<string>)
    requires Distinct(keys) && keys == [k] + more
    ensures SumIf(rs, InAny(column, keys)) == Plus(SumIf(rs, In(column, k)), SumIf(rs, InAny(column, more)))
  {
    assert keys[0] == k;
    forall i | 0 <= i < |more| ensures more[i] != k { assert more[i] == keys[i + 1]; }
    SumIfSplits(rs, InAny(column, keys), In(column, k), InAny(column, more));
  }

  /** However some keys are listed, their rows add up to the sum over their groups together. */
  lemma {:induction false} RowsAddUp(rows: map<string, Figures>, rs: seq<Record>, column: Column, keys: seq<string>)
    requires Distinct(keys) && forall k :: k in keys ==> k in rows && rows[k] == Sum(Group(rs, column, k))
    ensures SumRows(rows, keys) == SumIf(rs, InAny(column, keys))
  {
    if keys == [] {
      SumIfNone(rs, InAny(column, keys));
    } else {
      var k, more := keys[0], keys[1..];
      RowsAddUp(rows, rs, column, more);
      SumOfWhere(rs, In(column, k));
      AnySplits(rs, column, keys, k, more);
      assert SumRows(rows, keys) == Plus(rows[k], SumRows(rows, more));
    }
  }

  ghost predicate Lists(keys: seq<string>, rows: map<string, Figures>) {
    Distinct(keys) && forall k :: k in keys <==> k in rows
  }

  lemma {:induction false} OccursInGroup(rs: seq<Record>, column: Column, r: Record)
    requires r in rs && column(r).Some?
    ensures Group(rs, column, column(r).value) != []
  {
    if r != rs[|rs| - 1] {
      assert rs == rs[..|rs| - 1] + [rs[|rs| - 1]];
      OccursInGroup(rs[..|rs| - 1], column, r);
    }
  }

  lemma {:induction false} SumIfAll(rs: seq<Record>, p: Record -> bool)
    requires forall r :: r in rs ==> p(r)
    ensures SumIf(rs, p) == Sum(rs)
  {
    if rs != [] {
      assert rs[|rs| - 1] in rs;
      SumIfAll(rs[..|rs| - 1], p);
    }
  }

  /** The per-model figures sum to the totals, the per-agent ones to the totals over the
      records that name an agent. */
  lemma FiguresAddUp(s: Summary, rs: seq<Record>, models: seq<string>, agents: seq<string>)
    requires Summarizes(s, rs)
    requires Lists(models, s.byModel) && Lists(agents, s.byAgent)
    ensures SumRows(s.byModel, models) == s.totals
    ensures SumRows(s.byAgent, agents) == Sum(Where(rs, (r: Record) => Given(r.agent)))
  {
    forall r | r in rs ensures r.model in models { OccursInGroup(rs, MODEL, r); }
    forall r | r in rs && AGENT(r).Some? ensures AGENT(r).value in agents { OccursInGroup(rs, AGENT, r); }
    RowsAddUp(s.byModel, rs, MODEL, models);
    RowsAddUp(s.byAgent, rs, AGENT, agents);
    SumIfAll(rs, InAny(MODEL, models));
    var named := (r: Record) => Given(r.agent);
    SumIfSame(rs, InAny(AGENT, agents), named);
    SumOfWhere(rs, named);
  }

  // ---- which records, and which figures ----

  lemma {:induction false} WhereIff<T>(rs: seq<T>, p: T -> bool, r: T)
    ensures r in Where(rs, p) <==> r in rs && p(r)
  {
    if rs != [] {
      WhereIff(rs[..|rs| - 1], p, r);
      assert rs == rs[..|rs| - 1] + [rs[|rs| - 1]];
    }
  }

  lemma {:induction false} RecordsIff(lines: seq<Line>, r: Record)
    ensures r in Records(lines) <==> Good(r) in lines
  {
    if lines != [] {
      RecordsIff(lines[..|lines| - 1], r);
      assert lines == lines[..|lines| - 1] + [lines[|lines| - 1]];
    }
  }

  predicate Unset(o: Option<string>) { o == None || o == Some("") }

  /** A record is summed if it is in the file and meets every filter that is set: the period, with both
      its ends, the agent and the run. */
  lemma ChosenIff(lines: seq<Line>, f: Filter, r: Record)
    ensures r in Chosen(lines, f) <==>
              && Good(r) in lines
              && (Unset(f.start) || Le(f.start.value, r.timestamp))
              && (Unset(f.end) || Le(r.timestamp, f.end.value))
              && (Unset(f.agent) || r.agent == f.agent)
              && (Unset(f.run) || r.run == f.run)
  {
    RecordsIff(lines, r);
    WhereIff(Records(lines), (q: Record) => Passes(q, f), r);
  }

  /** The sum of one column. */
  function Total(rs: seq<Record>, column: Record -> real): real {
    if rs == [] then 0.0 else Total(rs[..|rs| - 1], column) + column(rs[|rs| - 1])
  }

  /** Each figure is the sum of its own column, and the calls are the records. */
  lemma {:induction false} SumIsByColumn(rs: seq<Record>)
    ensures Sum(rs).cost == Total(rs, (r: Record) => r.cost) && Sum(rs).calls == |rs|
    ensures Sum(rs).tokens as real == Total(rs, (r: Record) => r.total as real)
    ensures Sum(rs).input as real == Total(rs, (r: Record) => r.input as real)
    ensures Sum(rs).output as real == Total(rs, (r: Record) => r.output as real)
  {
    if rs != [] { SumIsByColumn(rs[..|rs| - 1]); }
  }
}

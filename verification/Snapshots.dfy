/** Durable run snapshots: an in-memory cache keyed by text in front of a stored table. */
module Snapshots {
  import opened Options
  import opened Sorting

  datatype Snapshot = Snapshot(id: string, run: string, step: string, createdAt: int, state: string, metadata: string)

  type Cache = map<string, Snapshot>

  /** The backend's rows; `(run, step)` is unique. */
  type Table = map<(string, string), Snapshot>

  datatype Store = Store(cache: Cache, table: Table)

  function Key(run: string, step: string): string { run + [':'] + step }

  /** One run id goes on from the other with a colon. */
  predicate CanCollide(r: string, r': string) { r + [':'] <= r' || r' + [':'] <= r }

  lemma SameRunKeys(run: string, s: string, t: string)
    requires Key(run, s) == Key(run, t)
    ensures s == t
  {
    assert Key(run, s)[|run| + 1..] == s && Key(run, t)[|run| + 1..] == t;
  }

  /** The `run:step` text names one pair as long as neither run id goes on from the other. */
  lemma KeyInjective(run: string, step: string, run': string, step': string)
    requires !CanCollide(run, run') && Key(run, step) == Key(run', step')
    ensures run == run' && step == step'
  {
    SharedKey(run, step, run', step');
    SameRunKeys(run, step, step');
  }

  lemma SharedKey(run: string, step: string, run': string, step': string)
    requires Key(run, step) == Key(run', step')
    ensures run == run' || CanCollide(run, run')
  {
    var k := Key(run, step);
    assert k[..|run|] == run && k[..|run'|] == run';
    if |run| < |run'| {
      assert k[..|run| + 1] == run + [':'] == run'[..|run| + 1];
    } else if |run'| < |run| {
      assert k[..|run'| + 1] == run' + [':'] == run[..|run'| + 1];
    }
  }

  /** Two different run ids have a key in common exactly when one goes on from the other. */
  lemma KeysCollideIff(r: string, r': string)
    requires r != r'
    ensures (exists s, s' :: Key(r, s) == Key(r', s')) <==> CanCollide(r, r')
  {
    if !CanCollide(r, r') {
      forall s, s' ensures Key(r, s) != Key(r', s') {
        if Key(r, s) == Key(r', s') { KeyInjective(r, s, r', s'); }
      }
    } else if r + [':'] <= r' {
      assert Key(r, r'[|r| + 1..] + [':']) == Key(r', "");
    } else {
      assert Key(r, "") == Key(r', r[|r'| + 1..] + [':']);
    }
  }

  lemma ColonFreeNeverCollide(r: string, r': string)
    requires ':' !in r && ':' !in r'
    ensures !CanCollide(r, r')
  {
    assert (r + [':'])[|r|] == ':' && (r' + [':'])[|r'|] == ':';
  }

  /** When they do, saving one pair overwrites the other's state. */
  lemma ColonsCollide(state: string, metadata: string, id: string, now: int, id': string, later: int)
    ensures var st := Save(Store(map[], map[]), "a", "b:c", "first", metadata, id, now);
            var st' := Save(st, "a:b", "c", state, metadata, id', later);
            st'.table == map[("a", "b:c") := Snapshot(id, "a", "b:c", now, state, metadata)]
  {
    assert Key("a", "b:c") == Key("a:b", "c");
  }

  // ---- what each operation does ----

  /** The snapshot that `save_snapshot` keeps: the cached one with a new state, or a new one. */
  function Saved(st: Store, run: string, step: string, state: string, metadata: string, id: string,
      now: int): Snapshot {
    if Key(run, step) in st.cache then st.cache[Key(run, step)].(state := state, metadata := metadata)
    else Snapshot(id, run, step, now, state, metadata)
  }

  function Save(st: Store, run: string, step: string, state: string, metadata: string, id: string, now: int): Store {
    var s := Saved(st, run, step, state, metadata, id, now);
    Store(st.cache[Key(run, step) := s], st.table[(s.run, s.step) := s])
  }

  /** The keys of a run's cached snapshots. */
  function CachedOf(cache: Cache, run: string): set<string> {
    set k | k in cache && cache[k].run == run
  }

  function StoredOf(table: Table, run: string): set<(string, string)> {
    set k | k in table && k.0 == run
  }

  function Load(st: Store, s: Snapshot): Store { st.(cache := st.cache[Key(s.run, s.step) := s]) }

  /** A row the backend may return as the run's latest: it compares creation times by `rank`. */
  predicate BackendLatest(table: Table, run: string, answer: Option<Snapshot>, rank: int -> int) {
    match answer
    case None => StoredOf(table, run) == {}
    case Some(s) =>
      && s.run == run && (run, s.step) in table && table[(run, s.step)] == s
      && forall k :: k in table && k.0 == run ==> rank(table[k].createdAt) <= rank(s.createdAt)
  }

  function AfterLatest(st: Store, run: string, answer: Option<Snapshot>): Store {
    if CachedOf(st.cache, run) != {} || answer.None? then st else Load(st, answer.value)
  }

  /** A cached snapshot of the run with the greatest creation time. */
  predicate CachedLatest(cache: Cache, run: string, s: Snapshot) {
    && (exists k :: k in cache && cache[k].run == run && cache[k] == s)
    && forall k :: k in cache && cache[k].run == run ==> cache[k].createdAt <= s.createdAt
  }

  /** What `get_latest_snapshot` may return. */
  predicate LatestResult(st: Store, run: string, answer: Option<Snapshot>, r: Option<Snapshot>) {
    if CachedOf(st.cache, run) != {} then r.Some? && CachedLatest(st.cache, run, r.value) else r == answer
  }

  function ByStep(st: Store, run: string, step: string): Option<Snapshot> {
    if Key(run, step) in st.cache then Some(st.cache[Key(run, step)])
    else if (run, step) in st.table then Some(st.table[(run, step)])
    else None
  }

  function AfterByStep(st: Store, run: string, step: string): Store {
    if Key(run, step) !in st.cache && (run, step) in st.table then Load(st, st.table[(run, step)]) else st
  }

  function StepsOf(table: Table, run: string): set<string> {
    set k | k in table && k.0 == run :: k.1
  }

  /** The stored snapshots of a run under their cache keys. */
  function ByKey(table: Table, run: string): Cache {
    forall s, t: string | Key(run, s) == Key(run, t) ensures s == t { SameRunKeys(run, s, t); }
    map s | s in StepsOf(table, run) :: Key(run, s) := table[(run, s)]
  }

  /** Listing caches every stored snapshot of the run that is not cached. */
  function AfterList(st: Store, run: string): Store {
    st.(cache := ByKey(st.table, run) + st.cache)
  }

  function AfterDelete(st: Store, run: string): Store {
    Store(map k | k in st.cache && st.cache[k].run != run :: st.cache[k],
          map k | k in st.table && k.0 != run :: st.table[k])
  }

  // ---- what always holds ----

  /** Every row is filed under its run and step. */
  ghost predicate TableNames(table: Table) {
    forall k :: k in table ==> table[k].run == k.0 && table[k].step == k.1
  }

  /** Every cached snapshot is under its own key and is the stored row. */
  ghost predicate Coherent(st: Store) {
    && TableNames(st.table)
    && (forall k :: k in st.cache ==>
          && k == Key(st.cache[k].run, st.cache[k].step)
          && (st.cache[k].run, st.cache[k].step) in st.table
          && st.table[(st.cache[k].run, st.cache[k].step)] == st.cache[k])
  }

  lemma InByKey(table: Table, run: string, s: Snapshot)
    requires s.run == run && (run, s.step) in table && table[(run, s.step)] == s
    ensures Key(run, s.step) in ByKey(table, run) && ByKey(table, run)[Key(run, s.step)] == s
  {
    ByKeyAt(table, run, s.step);
  }

  lemma ByKeyAt(table: Table, run: string, step: string)
    requires (run, step) in table
    ensures Key(run, step) in ByKey(table, run) && ByKey(table, run)[Key(run, step)] == table[(run, step)]
  {
    forall s | Key(run, s) == Key(run, step) ensures s == step { SameRunKeys(run, s, step); }
    assert step in StepsOf(table, run);
  }

  /** The cache while a listing adds stored snapshots to it. */
  ghost predicate Filling(cache: Cache, st: Store, run: string) {
    && st.cache.Keys <= cache.Keys
    && forall k :: k in cache ==>
         if k in st.cache then cache[k] == st.cache[k]
         else k in ByKey(st.table, run) && cache[k] == ByKey(st.table, run)[k]
  }

  lemma FillOne(cache: Cache, st: Store, run: string, s: Snapshot)
    requires Filling(cache, st, run)
    requires s.run == run && (run, s.step) in st.table && st.table[(run, s.step)] == s
    ensures Filling(if Key(run, s.step) in cache then cache else cache[Key(run, s.step) := s], st, run)
  {
    InByKey(st.table, run, s);
  }

  lemma AllListed(st: Store, run: string, records: seq<Snapshot>, cache: Cache)
    requires Coherent(st) && Filling(cache, st, run)
    requires forall s :: s in records <==> s.run == run && (run, s.step) in st.table && st.table[(run, s.step)] == s
    requires forall j :: 0 <= j < |records| ==> Key(run, records[j].step) in cache
    ensures cache == ByKey(st.table, run) + st.cache
  {
    forall k | k in ByKey(st.table, run) ensures k in cache {
      var step :| step in StepsOf(st.table, run) && k == Key(run, step);
      assert st.table[(run, step)] in records;
    }
  }

  /** A run has no more snapshots cached than stored. */
  lemma CachedAreStored(st: Store, run: string)
    requires Coherent(st)
    ensures |CachedOf(st.cache, run)| <= |StoredOf(st.table, run)|
  {
    var rows := set k | k in CachedOf(st.cache, run) :: (run, st.cache[k].step);
    Counted(st.cache, run, CachedOf(st.cache, run));
    assert rows <= StoredOf(st.table, run);
    SubsetSize(rows, StoredOf(st.table, run));
  }

  lemma {:induction false} Counted(cache: Cache, run: string, keys: set<string>)
    requires forall k :: k in keys ==> k in cache && k == Key(run, cache[k].step)
    ensures |set k | k in keys :: (run, cache[k].step)| == |keys|
  {
    if keys != {} {
      var x :| x in keys;
      Counted(cache, run, keys - {x});
      var fewer := set k | k in keys - {x} :: (run, cache[k].step);
      assert (set k | k in keys :: (run, cache[k].step)) == fewer + {(run, cache[x].step)};
    }
  }

  class SnapshotStore {
    var cache: Cache
    var table: Table

    function Contents(): Store reads this { Store(cache, table) }

    constructor (table: Table)
      ensures Contents() == Store(map[], table)
    {
      this.cache, this.table := map[], table;
    }

    method SaveSnapshot(run: string, step: string, state: string, metadata: string, id: string, now: int)
      returns (s: Snapshot)
      modifies this
      ensures s == Saved(old(Contents()), run, step, state, metadata, id, now)
      ensures Contents() == Save(old(Contents()), run, step, state, metadata, id, now)
    {
      var key := Key(run, step);
      if key in cache {
        s := cache[key].(state := state, metadata := metadata);
      } else {
        s := Snapshot(id, run, step, now, state, metadata);
      }
      cache := cache[key := s];
      table := table[(s.run, s.step) := s];
    }

    /** `answer` is what the backend gives when it is asked. */
    method GetLatestSnapshot(run: string, answer: Option<Snapshot>) returns (r: Option<Snapshot>)
      modifies this
      ensures LatestResult(old(Contents()), run, answer, r)
      ensures Contents() == AfterLatest(old(Contents()), run, answer)
    {
      var mine := CachedOf(cache, run);
      if mine == {} {
        r := answer;
        if answer.Some? {
          cache := cache[Key(answer.value.run, answer.value.step) := answer.value];
        }
      } else {
        var key := Newest(mine);
        r := Some(cache[key]);
      }
    }

    method Newest(keys: set<string>) returns (best: string)
      requires keys != {} && keys <= cache.Keys
      ensures best in keys && forall k :: k in keys ==> cache[k].createdAt <= cache[best].createdAt
    {
      best :| best in keys;
      var left := keys - {best};
      while left != {}
        invariant best in keys && left <= keys
        invariant forall k :: k in keys && k !in left ==> cache[k].createdAt <= cache[best].createdAt
        decreases |left|
      {
        var k :| k in left;
        if cache[k].createdAt > cache[best].createdAt {
          best := k;
        }
        left := left - {k};
      }
    }

    method GetSnapshotByStep(run: string, step: string) returns (r: Option<Snapshot>)
      requires Coherent(Contents())
      modifies this
      ensures r == ByStep(old(Contents()), run, step)
      ensures Contents() == AfterByStep(old(Contents()), run, step)
    {
      var key := Key(run, step);
      if key in cache {
        return Some(cache[key]);
      }
      if (run, step) !in table {
        return None;
      }
      var s := table[(run, step)];
      cache := cache[Key(s.run, s.step) := s];
      r := Some(s);
    }

    /** `records` is what the backend lists: every row of the run, in some order. */
    method ListSnapshots(run: string, records: seq<Snapshot>) returns (list: seq<Snapshot>)
      requires Coherent(Contents())
      requires forall s :: s in records <==> s.run == run && (run, s.step) in table && table[(run, s.step)] == s
      modifies this
      ensures Contents() == AfterList(old(Contents()), run)
      ensures forall s :: s in list <==> exists k :: k in cache && cache[k] == s && s.run == run
      ensures |list| == |CachedOf(cache, run)|
      ensures forall i, j :: 0 <= i < j < |list| ==> list[i].createdAt <= list[j].createdAt
    {
      CacheRecords(run, records);
      list := OldestFirst(CachedOf(cache, run));
    }

    /** The loop of `list_snapshots` over the stored records. */
    method CacheRecords(run: string, records: seq<Snapshot>)
      requires Coherent(Contents())
      requires forall s :: s in records <==> s.run == run && (run, s.step) in table && table[(run, s.step)] == s
      modifies this`cache
      ensures Contents() == AfterList(old(Contents()), run)
    {
      ghost var st := Contents();
      for i := 0 to |records|
        invariant table == st.table && Filling(cache, st, run)
        invariant forall j :: 0 <= j < i ==> Key(run, records[j].step) in cache
      {
        FillOne(cache, st, run, records[i]);
        var key := Key(records[i].run, records[i].step);
        if key !in cache {
          cache := cache[key := records[i]];
        }
      }
      AllListed(st, run, records, cache);
    }

    method OldestFirst(keys: set<string>) returns (list: seq<Snapshot>)
      requires keys <= cache.Keys
      ensures |list| == |keys|
      ensures forall s :: s in list <==> exists k :: k in keys && cache[k] == s
      ensures forall i, j :: 0 <= i < j < |list| ==> list[i].createdAt <= list[j].createdAt
    {
      list := [];
      var left := keys;
      while left != {}
        invariant left <= keys && |list| + |left| == |keys|
        invariant forall s :: s in list <==> exists k :: k in keys && k !in left && cache[k] == s
        invariant forall i, j :: 0 <= i < j < |list| ==> list[i].createdAt <= list[j].createdAt
        invariant forall i, k :: 0 <= i < |list| && k in left ==> cache[k].createdAt <= list[i].createdAt
        decreases |left|
      {
        var k := Newest(left);
        list := [cache[k]] + list;
        left := left - {k};
      }
    }

    method DeleteSnapshots(run: string) returns (n: int)
      requires Coherent(Contents())
      modifies this
      ensures Contents() == AfterDelete(old(Contents()), run)
      ensures n == |StoredOf(old(table), run)|
    {
      CachedAreStored(Contents(), run);
      var memory := |CachedOf(cache, run)|;
      var storage := |StoredOf(table, run)|;
      cache := map k | k in cache && cache[k].run != run :: cache[k];
      table := map k | k in table && k.0 != run :: table[k];
      n := if storage < memory then memory else storage;
    }
  }

  function StateOf(s: Option<Snapshot>): Option<string> { if s.Some? then Some(s.value.state) else None }

  class DurableRunner {
    const store: SnapshotStore

    constructor (store: SnapshotStore)
      ensures this.store == store
    {
      this.store := store;
    }

    /** The state of the named step, or of the latest one when no step, or an empty one, is named. */
    method Resume(run: string, fromStep: Option<string>, answer: Option<Snapshot>) returns (state: Option<string>)
      requires Coherent(store.Contents())
      modifies store
      ensures fromStep.Some? && fromStep.value != "" ==>
                state == StateOf(ByStep(old(store.Contents()), run, fromStep.value))
                && store.Contents() == AfterByStep(old(store.Contents()), run, fromStep.value)
      ensures fromStep.None? || fromStep.value == "" ==>
                (exists s :: LatestResult(old(store.Contents()), run, answer, s) && state == StateOf(s))
                && store.Contents() == AfterLatest(old(store.Contents()), run, answer)
    {
      var s: Option<Snapshot>;
      if fromStep.Some? && fromStep.value != "" {
        s := store.GetSnapshotByStep(run, fromStep.value);
      } else {
        s := store.GetLatestSnapshot(run, answer);
      }
      state := StateOf(s);
    }
  }

  // ---- histories ----

  datatype Op =
    | Saving(run: string, step: string, state: string, metadata: string, id: string, now: int)
    | GettingLatest(run: string, answer: Option<Snapshot>)
    | GettingStep(run: string, step: string)
    | Listing(run: string)
    | Deleting(run: string)

  function Apply(st: Store, op: Op): Store {
    match op
    case Saving(run, step, state, metadata, id, now) => Save(st, run, step, state, metadata, id, now)
    case GettingLatest(run, answer) => AfterLatest(st, run, answer)
    case GettingStep(run, step) => AfterByStep(st, run, step)
    case Listing(run) => AfterList(st, run)
    case Deleting(run) => AfterDelete(st, run)
  }

  /** The run id can collide with no other stored one. */
  predicate Fits(st: Store, run: string) {
    forall k :: k in st.table && k.0 != run ==> !CanCollide(k.0, run)
  }

  /** The run id cannot collide with a stored one, and the backend's answer is one it may give. */
  predicate Allowed(st: Store, op: Op, rank: int -> int) {
    Fits(st, op.run) && (op.GettingLatest? ==> BackendLatest(st.table, op.run, op.answer, rank))
  }

  /** The store after some operations, the last one applied last. */
  function After(st: Store, ops: seq<Op>): Store
    decreases |ops|
  {
    if ops == [] then st else Apply(After(st, ops[..|ops| - 1]), ops[|ops| - 1])
  }

  predicate AllAllowed(st: Store, ops: seq<Op>, rank: int -> int)
    decreases |ops|
  {
    ops == [] || (AllAllowed(st, ops[..|ops| - 1], rank) && Allowed(After(st, ops[..|ops| - 1]), ops[|ops| - 1], rank))
  }

  /** No two stored runs can collide. */
  ghost predicate PlainRuns(st: Store) {
    forall k, k' :: k in st.table && k' in st.table && k.0 != k'.0 ==> !CanCollide(k.0, k'.0)
  }

  /** Nothing is stored that is not cached: so it is while one process is the only one to save. */
  ghost predicate Covers(st: Store) { forall k :: k in st.table ==> Key(k.0, k.1) in st.cache }

  lemma SaveTouchesOwnRow(st: Store, run: string, step: string, state: string, metadata: string, id: string, now: int)
    requires Coherent(st) && PlainRuns(st) && Fits(st, run)
    ensures var s := Saved(st, run, step, state, metadata, id, now);
            s.run == run && s.step == step && s.state == state && s.metadata == metadata
    ensures Key(run, step) in st.cache ==> (run, step) in st.table && st.table[(run, step)] == st.cache[Key(run, step)]
  {
    if Key(run, step) in st.cache {
      var c := st.cache[Key(run, step)];
      assert (c.run, c.step) in st.table;
      KeyInjective(run, step, c.run, c.step);
    }
  }

  lemma SaveKeepsCoherent(st: Store, run: string, step: string, state: string, metadata: string, id: string, now: int)
    requires Coherent(st) && PlainRuns(st) && Fits(st, run)
    ensures var st' := Save(st, run, step, state, metadata, id, now); Coherent(st') && PlainRuns(st')
  {
    SaveTouchesOwnRow(st, run, step, state, metadata, id, now);
    var st' := Save(st, run, step, state, metadata, id, now);
    forall k | k in st'.cache && k != Key(run, step)
      ensures k == Key(st'.cache[k].run, st'.cache[k].step) && (st'.cache[k].run, st'.cache[k].step) in st'.table
      ensures st'.table[(st'.cache[k].run, st'.cache[k].step)] == st'.cache[k]
    {
      assert (st.cache[k].run, st.cache[k].step) in st.table;
    }
  }

  lemma ListKeepsCoherent(st: Store, run: string)
    requires Coherent(st)
    ensures Coherent(AfterList(st, run))
  {
    var st' := AfterList(st, run);
    forall k | k in st'.cache
      ensures k == Key(st'.cache[k].run, st'.cache[k].step) && (st'.cache[k].run, st'.cache[k].step) in st'.table
      ensures st'.table[(st'.cache[k].run, st'.cache[k].step)] == st'.cache[k]
    {
      if k !in st.cache {
        var step :| step in StepsOf(st.table, run) && k == Key(run, step);
        ByKeyAt(st.table, run, step);
      }
    }
  }

  lemma LoadKeepsCoherent(st: Store, s: Snapshot)
    requires Coherent(st) && (s.run, s.step) in st.table && st.table[(s.run, s.step)] == s
    ensures Coherent(Load(st, s))
  {
  }

  lemma DeleteKeepsCoherent(st: Store, run: string)
    requires Coherent(st) && PlainRuns(st)
    ensures Coherent(AfterDelete(st, run)) && PlainRuns(AfterDelete(st, run))
  {
  }

  /** Whatever happens, the cache and the table stay coherent. */
  lemma KeepsCoherent(st: Store, op: Op, rank: int -> int)
    requires Coherent(st) && PlainRuns(st) && Allowed(st, op, rank)
    ensures Coherent(Apply(st, op)) && PlainRuns(Apply(st, op))
  {
    match op
    case Saving(run, step, state, metadata, id, now) => SaveKeepsCoherent(st, run, step, state, metadata, id, now);
    case GettingLatest(_, answer) => if answer.Some? { LoadKeepsCoherent(st, answer.value); }
    case GettingStep(run, step) => if (run, step) in st.table { LoadKeepsCoherent(st, st.table[(run, step)]); }
    case Listing(run) => ListKeepsCoherent(st, run);
    case Deleting(run) => DeleteKeepsCoherent(st, run);
  }

  lemma KeepsCover(st: Store, op: Op, rank: int -> int)
    requires Coherent(st) && PlainRuns(st) && Covers(st) && Allowed(st, op, rank)
    ensures Covers(Apply(st, op))
  {
    if op.Saving? {
      SaveTouchesOwnRow(st, op.run, op.step, op.state, op.metadata, op.id, op.now);
    } else if op.Deleting? {
      forall k | k in Apply(st, op).table ensures Key(k.0, k.1) in Apply(st, op).cache {
        var c := st.cache[Key(k.0, k.1)];
        assert (c.run, c.step) in st.table;
        KeyInjective(k.0, k.1, c.run, c.step);
      }
    }
  }

  /** The reference: per run and step, the first save's id and time and the last save's state,
      since the run was last deleted. */
  function Expected(ops: seq<Op>, run: string, step: string): Option<Snapshot>
    decreases |ops|
  {
    if ops == [] then None
    else
      var before, op := Expected(ops[..|ops| - 1], run, step), ops[|ops| - 1];
      if op.Saving? && op.run == run && op.step == step then
        if before.None? then Some(Snapshot(op.id, run, step, op.now, op.state, op.metadata))
        else Some(before.value.(state := op.state, metadata := op.metadata))
      else if op.Deleting? && op.run == run then None
      else before
  }

  const EMPTY := Store(map[], map[])

  ghost predicate Sound(st: Store) { Coherent(st) && PlainRuns(st) && Covers(st) }

  lemma {:induction false} HistoryIsSound(ops: seq<Op>, rank: int -> int)
    requires AllAllowed(EMPTY, ops, rank)
    ensures Sound(After(EMPTY, ops))
    decreases |ops|
  {
    if ops != [] {
      var st := After(EMPTY, ops[..|ops| - 1]);
      HistoryIsSound(ops[..|ops| - 1], rank);
      KeepsCoherent(st, ops[|ops| - 1], rank);
      KeepsCover(st, ops[|ops| - 1], rank);
    }
  }

  function Row(table: Table, run: string, step: string): Option<Snapshot> {
    if (run, step) in table then Some(table[(run, step)]) else None
  }

  /** One process, starting with nothing stored: there is one row per run and step, with the
      last saved state and the first creation time, and nothing else is stored. */
  lemma {:induction false} StoredIsExpected(ops: seq<Op>, rank: int -> int, run: string, step: string)
    requires AllAllowed(EMPTY, ops, rank)
    ensures Row(After(EMPTY, ops).table, run, step) == Expected(ops, run, step)
    decreases |ops|
  {
    if ops != [] {
      var st, op := After(EMPTY, ops[..|ops| - 1]), ops[|ops| - 1];
      HistoryIsSound(ops[..|ops| - 1], rank);
      StoredIsExpected(ops[..|ops| - 1], rank, run, step);
      if op.Saving? {
        SaveTouchesOwnRow(st, op.run, op.step, op.state, op.metadata, op.id, op.now);
      }
    }
  }

  /** Resuming from a step gives what was last saved for it. */
  lemma ResumeStep(ops: seq<Op>, rank: int -> int, run: string, step: string)
    requires AllAllowed(EMPTY, ops, rank) && Fits(After(EMPTY, ops), run)
    ensures ByStep(After(EMPTY, ops), run, step) == Expected(ops, run, step)
  {
    var st := After(EMPTY, ops);
    HistoryIsSound(ops, rank);
    StoredIsExpected(ops, rank, run, step);
    SaveTouchesOwnRow(st, run, step, "", "", "", 0);
  }

  /** In a store that caches all it stores, the latest lookup gives a row of the run with the
      greatest creation time, if the run has any row. */
  lemma LatestOfCovered(st: Store, run: string, answer: Option<Snapshot>, r: Option<Snapshot>, rank: int -> int)
    requires Sound(st) && Fits(st, run)
    requires BackendLatest(st.table, run, answer, rank) && LatestResult(st, run, answer, r)
    ensures r.None? ==> forall step :: (run, step) !in st.table
    ensures r.Some? ==> Row(st.table, run, r.value.step) == r
    ensures r.Some? ==> forall step :: (run, step) in st.table ==> st.table[(run, step)].createdAt <= r.value.createdAt
  {
    CachedIsStored(st, run);
    if CachedOf(st.cache, run) != {} {
      var k :| k in st.cache && st.cache[k].run == run && st.cache[k] == r.value;
      assert (run, r.value.step) in st.table && st.table[(run, r.value.step)] == r.value;
      forall step | (run, step) in st.table ensures st.table[(run, step)].createdAt <= r.value.createdAt {
        assert Key(run, step) in CachedOf(st.cache, run);
      }
    } else {
      forall step ensures (run, step) !in st.table {
        assert (run, step) in st.table ==> Key(run, step) in CachedOf(st.cache, run);
      }
    }
  }

  /** Resuming a run gives its latest-created step's last state, whatever the backend would say. */
  lemma ResumeLatest(ops: seq<Op>, rank: int -> int, run: string, answer: Option<Snapshot>, r: Option<Snapshot>)
    requires AllAllowed(EMPTY, ops, rank) && Fits(After(EMPTY, ops), run)
    requires BackendLatest(After(EMPTY, ops).table, run, answer, rank)
    requires LatestResult(After(EMPTY, ops), run, answer, r)
    ensures r.None? <==> forall step :: Expected(ops, run, step).None?
    ensures r.Some? ==> r == Expected(ops, run, r.value.step)
    ensures r.Some? ==>
              forall step :: Expected(ops, run, step).Some? ==>
                Expected(ops, run, step).value.createdAt <= r.value.createdAt
  {
    HistoryIsSound(ops, rank);
    LatestOfCovered(After(EMPTY, ops), run, answer, r, rank);
    forall step ensures Expected(ops, run, step) == Row(After(EMPTY, ops).table, run, step) {
      StoredIsExpected(ops, rank, run, step);
    }
    if r.Some? { assert Expected(ops, run, r.value.step) == r; }
  }

  /** What a resume of the run gives: the state last saved for the named step, or for a latest-created
      one when none is named; nothing when there is nothing. */
  lemma ResumeGivesState(ops: seq<Op>, rank: int -> int, run: string, step: string, answer: Option<Snapshot>,
      r: Option<Snapshot>)
    requires AllAllowed(EMPTY, ops, rank) && Fits(After(EMPTY, ops), run)
    requires BackendLatest(After(EMPTY, ops).table, run, answer, rank)
    requires LatestResult(After(EMPTY, ops), run, answer, r)
    ensures var expected, named := Expected(ops, run, step), StateOf(ByStep(After(EMPTY, ops), run, step));
            named == if expected.Some? then Some(expected.value.state) else None
    ensures StateOf(r).None? <==> forall s :: Expected(ops, run, s).None?
    ensures StateOf(r).Some? ==>
              exists s :: IsLatest(ops, run, s) && StateOf(r) == Some(Expected(ops, run, s).value.state)
  {
    ResumeStep(ops, rank, run, step);
    ResumeLatest(ops, rank, run, answer, r);
    if r.Some? { assert IsLatest(ops, run, r.value.step); }
  }

  /** The step is one of the run's latest created. */
  ghost predicate IsLatest(ops: seq<Op>, run: string, step: string) {
    Expected(ops, run, step).Some? &&
    forall s :: Expected(ops, run, s).Some? ==>
      Expected(ops, run, s).value.createdAt <= Expected(ops, run, step).value.createdAt
  }

  /** With everything stored cached, a run's rows and its cached snapshots are the same. */
  lemma CachedIsStored(st: Store, run: string)
    requires Sound(st) && Fits(st, run)
    ensures forall step :: (run, step) in st.table ==>
              Key(run, step) in CachedOf(st.cache, run) && st.cache[Key(run, step)] == st.table[(run, step)]
  {
    forall step | (run, step) in st.table
      ensures Key(run, step) in CachedOf(st.cache, run) && st.cache[Key(run, step)] == st.table[(run, step)]
    {
      SaveTouchesOwnRow(st, run, step, "", "", "", 0);
    }
  }

  /** Saving a stored step keeps its id and creation time exactly when it is cached: in a new
      process it is not, until it is loaded. */
  lemma SaveKeepsCreationIffCached(st: Store, run: string, step: string, state: string, metadata: string, id: string,
      now: int)
    requires Coherent(st) && PlainRuns(st) && Fits(st, run) && (run, step) in st.table
    requires st.table[(run, step)].id != id
    ensures var row := Save(st, run, step, state, metadata, id, now).table[(run, step)];
            row.state == state
            && (Key(run, step) in st.cache <==> row.id == st.table[(run, step)].id)
            && (Key(run, step) in st.cache ==> row.createdAt == st.table[(run, step)].createdAt)
            && (Key(run, step) !in st.cache ==> row.createdAt == now)
  {
    SaveTouchesOwnRow(st, run, step, state, metadata, id, now);
  }

  /** A step saved again: by the same process the row keeps its id and time, by a new one neither. */
  lemma SavedByNewProcess()
    ensures var row := Snapshot("1", "run", "plan", 0, "old", "");
            var table := map[("run", "plan") := row];
            && Save(Store(map[Key("run", "plan") := row], table), "run", "plan", "new", "", "2", 9).table
               == map[("run", "plan") := Snapshot("1", "run", "plan", 0, "new", "")]
            && Save(Store(map[], table), "run", "plan", "new", "", "2", 9).table
               == map[("run", "plan") := Snapshot("2", "run", "plan", 9, "new", "")]
  {
    var row := Snapshot("1", "run", "plan", 0, "old", "");
    assert Saved(Store(map[], map[("run", "plan") := row]), "run", "plan", "new", "", "2", 9).id == "2";
  }

  /** What a listing returns of the cache it has filled is what is stored of the run. */
  lemma ListedAreStored(st: Store, run: string)
    requires Coherent(st) && PlainRuns(st) && Fits(st, run)
    ensures var cache := AfterList(st, run).cache;
            forall s: Snapshot :: (exists k :: k in cache && cache[k] == s && s.run == run)
                             <==> s.run == run && (run, s.step) in st.table && st.table[(run, s.step)] == s
  {
    var cache := AfterList(st, run).cache;
    ListKeepsCoherent(st, run);
    forall s: Snapshot | s.run == run && (run, s.step) in st.table && st.table[(run, s.step)] == s
      ensures Key(run, s.step) in cache && cache[Key(run, s.step)] == s
    {
      ByKeyAt(st.table, run, s.step);
      SaveTouchesOwnRow(st, run, s.step, "", "", "", 0);
    }
  }

  /** A step that was loaded before, by itself or in a listing, or that the latest lookup gave, keeps
      its id and creation time when it is saved again. */
  lemma LoadedKeepsCreation(st: Store, op: Op, step: string, state: string, metadata: string, id: string, now: int)
    requires Coherent(st) && PlainRuns(st) && Fits(st, op.run) && (op.run, step) in st.table
    requires || op == GettingStep(op.run, step) || op == Listing(op.run)
             || (CachedOf(st.cache, op.run) == {} && op == GettingLatest(op.run, Some(st.table[(op.run, step)])))
    ensures var run, old' := op.run, st.table[(op.run, step)];
            Save(Apply(st, op), run, step, state, metadata, id, now).table[(run, step)]
            == old'.(state := state, metadata := metadata)
  {
    SaveTouchesOwnRow(st, op.run, step, state, metadata, id, now);
    var s := st.table[(op.run, step)];
    assert s.run == op.run && s.step == step;
    if op.Listing? { ByKeyAt(st.table, op.run, step); }
    Resaved(Apply(st, op), s, state, metadata, id, now);
  }

  lemma Resaved(st: Store, s: Snapshot, state: string, metadata: string, id: string, now: int)
    requires Key(s.run, s.step) in st.cache && st.cache[Key(s.run, s.step)] == s
    ensures Save(st, s.run, s.step, state, metadata, id, now).table[(s.run, s.step)]
         == s.(state := state, metadata := metadata)
  {
  }

  // ---- the latest snapshot, when the cache holds only part of a run ----

  ghost predicate Monotone(rank: int -> int) { forall a, b :: a <= b ==> rank(a) <= rank(b) }

  /** No stored snapshot of the run is later than this one. */
  ghost predicate Newest(table: Table, run: string, s: Snapshot, rank: int -> int) {
    forall k :: k in table && k.0 == run ==> rank(table[k].createdAt) <= rank(s.createdAt)
  }

  /** The cached part of the run is empty or has one of its latest snapshots. */
  ghost predicate Agrees(st: Store, run: string, rank: int -> int) {
    || CachedOf(st.cache, run) == {}
    || exists k :: k in CachedOf(st.cache, run) && Newest(st.table, run, st.cache[k], rank)
  }

  /** The latest lookup gives a latest stored snapshot exactly when the cache agrees. */
  lemma LatestIsRightIffAgrees(st: Store, run: string, answer: Option<Snapshot>, r: Option<Snapshot>, rank: int -> int)
    requires Coherent(st) && Monotone(rank) && BackendLatest(st.table, run, answer, rank)
    requires LatestResult(st, run, answer, r)
    ensures BackendLatest(st.table, run, r, rank) <==> Agrees(st, run, rank)
  {
    if CachedOf(st.cache, run) != {} {
      var k :| k in st.cache && st.cache[k].run == run && st.cache[k] == r.value;
      assert k in CachedOf(st.cache, run);
      if Agrees(st, run, rank) {
        var m :| m in CachedOf(st.cache, run) && Newest(st.table, run, st.cache[m], rank);
        assert rank(st.cache[m].createdAt) <= rank(st.cache[k].createdAt);
      }
    }
  }

  /** Saves come with a clock that does not run behind the run's stored snapshots. */
  ghost predicate InTime(st: Store, op: Op) {
    op.Saving? ==> forall k :: k in st.table && k.0 == op.run ==> st.table[k].createdAt <= op.now
  }

  lemma SaveKeepsAgreement(st: Store, op: Op, run: string, rank: int -> int)
    requires Coherent(st) && PlainRuns(st) && Monotone(rank) && Agrees(st, run, rank)
    requires op.Saving? && Fits(st, op.run) && InTime(st, op)
    ensures Agrees(Apply(st, op), run, rank)
  {
    SaveTouchesOwnRow(st, op.run, op.step, op.state, op.metadata, op.id, op.now);
    var key := Key(op.run, op.step);
    if op.run == run && key !in st.cache {
      NewIsNewest(st, op, rank);
    } else if CachedOf(st.cache, run) != {} {
      var m :| m in CachedOf(st.cache, run) && Newest(st.table, run, st.cache[m], rank);
      NewestStays(st, op, run, rank, m);
    } else {
      assert CachedOf(Apply(st, op).cache, run) == {};
    }
  }

  lemma NewIsNewest(st: Store, op: Op, rank: int -> int)
    requires Monotone(rank) && op.Saving? && InTime(st, op) && Key(op.run, op.step) !in st.cache
    ensures Agrees(Apply(st, op), op.run, rank)
  {
    var st', key := Apply(st, op), Key(op.run, op.step);
    assert key in CachedOf(st'.cache, op.run) && Newest(st'.table, op.run, st'.cache[key], rank);
  }

  lemma NewestStays(st: Store, op: Op, run: string, rank: int -> int, m: string)
    requires Coherent(st) && PlainRuns(st) && op.Saving? && Fits(st, op.run)
    requires m in CachedOf(st.cache, run) && Newest(st.table, run, st.cache[m], rank)
    requires op.run != run || Key(op.run, op.step) in st.cache
    ensures Agrees(Apply(st, op), run, rank)
  {
    SaveTouchesOwnRow(st, op.run, op.step, op.state, op.metadata, op.id, op.now);
    var st' := Apply(st, op);
    assert st'.cache[m].createdAt == st.cache[m].createdAt && st'.cache[m].run == run;
    assert m in CachedOf(st'.cache, run) && Newest(st'.table, run, st'.cache[m], rank);
  }

  lemma LoadKeepsAgreement(st: Store, s: Snapshot, run: string, rank: int -> int)
    requires Coherent(st) && PlainRuns(st) && Agrees(st, run, rank)
    requires (s.run, s.step) in st.table && st.table[(s.run, s.step)] == s
    requires s.run == run ==> CachedOf(st.cache, run) != {} || Newest(st.table, run, s, rank)
    ensures Agrees(Load(st, s), run, rank)
  {
    var st', key := Load(st, s), Key(s.run, s.step);
    SaveTouchesOwnRow(st, s.run, s.step, "", "", "", 0);
    if CachedOf(st.cache, run) != {} {
      var m :| m in CachedOf(st.cache, run) && Newest(st.table, run, st.cache[m], rank);
      assert st'.cache[m] == st.cache[m];
      assert m in CachedOf(st'.cache, run);
    } else if s.run == run {
      assert key in CachedOf(st'.cache, run);
    } else {
      assert CachedOf(st'.cache, run) == {};
    }
  }

  /** Every finite table has a latest row for the backend to give. */
  lemma {:induction false} LatestExists(table: Table, run: string, rank: int -> int, keys: set<(string, string)>)
    returns (best: (string, string))
    requires keys != {} && keys <= StoredOf(table, run)
    ensures best in keys && forall k :: k in keys ==> rank(table[k].createdAt) <= rank(table[best].createdAt)
  {
    best :| best in keys;
    if keys != {best} {
      var rest := keys - {best};
      assert keys == {best} + rest;
      var other := LatestExists(table, run, rank, rest);
      if rank(table[best].createdAt) <= rank(table[other].createdAt) { best := other; }
    }
  }

  lemma ListKeepsAgreement(st: Store, other: string, run: string, rank: int -> int)
    requires Coherent(st) && PlainRuns(st) && Agrees(st, run, rank) && Fits(st, other)
    ensures Agrees(AfterList(st, other), run, rank)
  {
    var st' := AfterList(st, other);
    if CachedOf(st.cache, run) != {} {
      var m :| m in CachedOf(st.cache, run) && Newest(st.table, run, st.cache[m], rank);
      assert st'.cache[m] == st.cache[m];
      assert m in CachedOf(st'.cache, run);
    } else {
      ListFills(st, other, run, rank);
    }
  }

  lemma ListFills(st: Store, other: string, run: string, rank: int -> int)
    requires Coherent(st) && PlainRuns(st) && Fits(st, other) && CachedOf(st.cache, run) == {}
    ensures Agrees(AfterList(st, other), run, rank)
  {
    var st' := AfterList(st, other);
    if other == run && StoredOf(st.table, run) != {} {
      var best := LatestExists(st.table, run, rank, StoredOf(st.table, run));
      var key := Key(run, best.1);
      ByKeyAt(st.table, run, best.1);
      SaveTouchesOwnRow(st, run, best.1, "", "", "", 0);
      assert key in CachedOf(st'.cache, run) && Newest(st'.table, run, st'.cache[key], rank);
    } else {
      forall k | k in st'.cache ensures st'.cache[k].run != run {
        if k in st.cache {
          assert st.cache[k].run == run ==> k in CachedOf(st.cache, run);
        } else {
          var step :| step in StepsOf(st.table, other) && k == Key(other, step);
          ByKeyAt(st.table, other, step);
          assert (other, step) in StoredOf(st.table, other);
        }
      }
    }
  }

  lemma DeleteKeepsAgreement(st: Store, other: string, run: string, rank: int -> int)
    requires Agrees(st, run, rank)
    ensures Agrees(AfterDelete(st, other), run, rank)
  {
    var st' := AfterDelete(st, other);
    if other == run {
      assert CachedOf(st'.cache, run) == {};
    } else if CachedOf(st.cache, run) == {} {
      assert CachedOf(st'.cache, run) == {};
    } else {
      var m :| m in CachedOf(st.cache, run) && Newest(st.table, run, st.cache[m], rank);
      assert m in CachedOf(st'.cache, run);
    }
  }

  /** A lone load by step may cache an older snapshot of a run of which nothing is cached: it
      keeps the agreement exactly when it does not. */
  lemma StepKeepsAgreementIff(st: Store, run: string, step: string, rank: int -> int)
    requires Coherent(st) && PlainRuns(st) && Fits(st, run) && Agrees(st, run, rank)
    ensures Agrees(AfterByStep(st, run, step), run, rank)
       <==> || CachedOf(st.cache, run) != {}
            || (run, step) !in st.table || Newest(st.table, run, st.table[(run, step)], rank)
  {
    SaveTouchesOwnRow(st, run, step, "", "", "", 0);
    var st' := AfterByStep(st, run, step);
    if CachedOf(st.cache, run) != {} {
      if (run, step) in st.table { LoadKeepsAgreement(st, st.table[(run, step)], run, rank); }
    } else if (run, step) in st.table {
      assert Key(run, step) in st.cache ==> Key(run, step) in CachedOf(st.cache, run);
      assert CachedOf(st'.cache, run) == {Key(run, step)};
    }
  }

  /** A new process that loads the older of two steps then takes it for the latest, whatever the
      backend would answer. */
  lemma OlderStepTakenForLatest(older: Snapshot, newer: Snapshot, answer: Option<Snapshot>, r: Option<Snapshot>)
    requires older.run == newer.run && older.step != newer.step && older.createdAt < newer.createdAt
    requires var table := map[(older.run, older.step) := older, (newer.run, newer.step) := newer];
             LatestResult(AfterByStep(Store(map[], table), older.run, older.step), older.run, answer, r)
    ensures r == Some(older)
  {
    var table := map[(older.run, older.step) := older, (newer.run, newer.step) := newer];
    var st := AfterByStep(Store(map[], table), older.run, older.step);
    assert (older.run, older.step) != (newer.run, newer.step);
    assert Key(older.run, older.step) in CachedOf(st.cache, older.run);
  }

  /** Save, latest, list and delete keep the agreement of every run, and so does a load by step of
      another run, or of this one when some of it is cached or the snapshot is a latest one. */
  lemma KeepsAgreement(st: Store, op: Op, run: string, rank: int -> int)
    requires Coherent(st) && PlainRuns(st) && Monotone(rank) && Agrees(st, run, rank)
    requires Allowed(st, op, rank) && InTime(st, op)
    requires op.GettingStep? && op.run == run ==>
               || CachedOf(st.cache, run) != {}
               || (run, op.step) !in st.table || Newest(st.table, run, st.table[(run, op.step)], rank)
    ensures Agrees(Apply(st, op), run, rank)
  {
    match op
    case Saving(_, _, _, _, _, _) => SaveKeepsAgreement(st, op, run, rank);
    case GettingLatest(other, answer) =>
      if CachedOf(st.cache, other) == {} && answer.Some? { LoadKeepsAgreement(st, answer.value, run, rank); }
    case GettingStep(other, step) =>
      if Key(other, step) !in st.cache && (other, step) in st.table {
        LoadKeepsAgreement(st, st.table[(other, step)], run, rank);
      }
    case Listing(other) => ListKeepsAgreement(st, other, run, rank);
    case Deleting(other) => DeleteKeepsAgreement(st, other, run, rank);
  }

  ghost predicate TimelyAndLatestFirst(st: Store, ops: seq<Op>)
    decreases |ops|
  {
    ops == [] ||
    var before, op := ops[..|ops| - 1], ops[|ops| - 1];
    && TimelyAndLatestFirst(st, before)
    && InTime(After(st, before), op)
    && (op.GettingStep? ==> CachedOf(After(st, before).cache, op.run) != {})
  }

  /** A new process in front of an old table: as long as a run is first looked up by its latest
      snapshot, listed or saved to, every latest lookup is right. */
  lemma {:induction false} RunAgrees(table: Table, ops: seq<Op>, run: string, rank: int -> int)
    requires Coherent(Store(map[], table)) && PlainRuns(Store(map[], table)) && Monotone(rank)
    requires AllAllowed(Store(map[], table), ops, rank) && TimelyAndLatestFirst(Store(map[], table), ops)
    ensures Coherent(After(Store(map[], table), ops)) && PlainRuns(After(Store(map[], table), ops))
    ensures Agrees(After(Store(map[], table), ops), run, rank)
    decreases |ops|
  {
    var start := Store(map[], table);
    if ops == [] {
      assert CachedOf(start.cache, run) == {};
    } else {
      var before, op := ops[..|ops| - 1], ops[|ops| - 1];
      RunAgrees(table, before, run, rank);
      KeepsCoherent(After(start, before), op, rank);
      KeepsAgreement(After(start, before), op, run, rank);
    }
  }

  // ---- the SQLite backend ----

  /** SQLite orders by `datetime(created_at)`, which drops fractions of a second. */
  const SECONDS := (t: int) => t / 1_000_000

  /** The time itself. */
  const MICROSECONDS := (t: int) => t

  lemma SecondsMonotone()
    ensures Monotone(SECONDS)
  {
  }

  /** With SQLite behind it, a latest lookup gives a snapshot of the run's latest second. */
  lemma RunAgreesOnSqlite(table: Table, ops: seq<Op>, run: string, answer: Option<Snapshot>, r: Option<Snapshot>)
    requires Coherent(Store(map[], table)) && PlainRuns(Store(map[], table))
    requires AllAllowed(Store(map[], table), ops, SECONDS) && TimelyAndLatestFirst(Store(map[], table), ops)
    requires BackendLatest(After(Store(map[], table), ops).table, run, answer, SECONDS)
    requires LatestResult(After(Store(map[], table), ops), run, answer, r)
    ensures BackendLatest(After(Store(map[], table), ops).table, run, r, SECONDS)
  {
    SecondsMonotone();
    RunAgrees(table, ops, run, SECONDS);
    LatestIsRightIffAgrees(After(Store(map[], table), ops), run, answer, r, SECONDS);
  }

  /** Two rows of the run's latest second were created at the same moment. */
  ghost predicate OneLatestMoment(table: Table, run: string) {
    forall k, k' :: k in table && k' in table && k.0 == run && k'.0 == run
                    && Newest(table, run, table[k], SECONDS) && Newest(table, run, table[k'], SECONDS)
                    ==> table[k].createdAt == table[k'].createdAt
  }

  /** Whatever SQLite answers is an exact latest snapshot exactly when all rows of the run's latest
      second were created at one moment. */
  lemma SqliteIsExactIff(table: Table, run: string)
    requires TableNames(table)
    ensures (forall a :: BackendLatest(table, run, a, SECONDS) ==> BackendLatest(table, run, a, MICROSECONDS))
       <==> OneLatestMoment(table, run)
  {
    if OneLatestMoment(table, run) {
      forall a | BackendLatest(table, run, a, SECONDS) ensures BackendLatest(table, run, a, MICROSECONDS) {
        if a.Some? { LatestMomentIsExact(table, run, a.value); }
      }
    } else {
      var k, k' :| k in table && k' in table && k.0 == run && k'.0 == run
                   && Newest(table, run, table[k], SECONDS) && Newest(table, run, table[k'], SECONDS)
                   && table[k].createdAt != table[k'].createdAt;
      var older := if table[k].createdAt < table[k'].createdAt then table[k] else table[k'];
      assert BackendLatest(table, run, Some(older), SECONDS);
      assert !BackendLatest(table, run, Some(older), MICROSECONDS);
    }
  }

  lemma LatestMomentIsExact(table: Table, run: string, s: Snapshot)
    requires OneLatestMoment(table, run) && BackendLatest(table, run, Some(s), SECONDS)
    ensures BackendLatest(table, run, Some(s), MICROSECONDS)
  {
    assert Newest(table, run, table[(run, s.step)], SECONDS);
    forall k | k in table && k.0 == run ensures table[k].createdAt <= s.createdAt {
      if s.createdAt < table[k].createdAt {
        SecondsMonotone();
        assert SECONDS(s.createdAt) <= SECONDS(table[k].createdAt);
        assert Newest(table, run, table[k], SECONDS);
      }
    }
  }

  /** Two snapshots of one second: SQLite may give the older one. */
  lemma OneSecondIsATie(a: Snapshot, b: Snapshot)
    requires a.run == b.run && a.step != b.step && a.createdAt < b.createdAt
    requires SECONDS(a.createdAt) == SECONDS(b.createdAt)
    ensures var table := map[(a.run, a.step) := a, (b.run, b.step) := b];
            BackendLatest(table, a.run, Some(a), SECONDS) && !BackendLatest(table, a.run, Some(a), MICROSECONDS)
  {
    var table := map[(a.run, a.step) := a, (b.run, b.step) := b];
    assert (b.run, b.step) in table && table[(b.run, b.step)] == b;
  }
}

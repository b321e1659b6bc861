/** `SQLiteMemoryStore`: memories with a time to live compared as text, and a full-text index
    kept by triggers. */
module MemoryStore {
  import opened Options
  import opened PyText
  import opened IsoTime
  import opened Sorting

  /** The fields that are stored as they are; the lists and the dictionary are kept as JSON. */
  datatype Labels = Labels(piiTags: seq<string>, retentionPolicy: Option<string>, tags: seq<string>, metadata: string)

  datatype Entry = Entry(
    memoryId: string, scope: string, agentSlug: string, runId: Option<string>,
    key: string, value: string, createdAt: Instant, updatedAt: Instant, expiresAt: Option<Instant>,
    labels: Labels, embedding: Option<seq<real>>)

  /** A row of the `memories` table: instants are stored as text. */
  datatype Row = Row(
    memoryId: string, scope: string, agentSlug: string, runId: Option<string>,
    key: string, value: string, createdAt: string, updatedAt: string, expiresAt: Option<string>,
    labels: Labels, embedding: Option<seq<real>>)

  /** `memories_fts`: (memory_id, key, value) by rowid. */
  type Index = map<nat, (string, string, string)>

  type Rows = map<nat, Row>

  predicate ValidEntry(e: Entry) {
    Valid(e.createdAt) && Valid(e.updatedAt) && (e.expiresAt.Some? ==> Valid(e.expiresAt.value))
  }

  function EntryToRow(e: Entry): Row {
    Row(e.memoryId, e.scope, e.agentSlug, e.runId, e.key, e.value, IsoFormat(e.createdAt), IsoFormat(e.updatedAt),
        if e.expiresAt.Some? then Some(IsoFormat(e.expiresAt.value)) else None,
        e.labels, StoredEmbedding(e.embedding))
  }

  /** A falsy embedding is stored as NULL. */
  function StoredEmbedding(embedding: Option<seq<real>>): Option<seq<real>> {
    if embedding == Some([]) then None else embedding
  }

  predicate LongEnough(r: Row) {
    |r.createdAt| >= 25 && |r.updatedAt| >= 25 && (r.expiresAt.Some? ==> |r.expiresAt.value| >= 25)
  }

  function RowToEntry(r: Row): Entry
    requires LongEnough(r)
  {
    Entry(r.memoryId, r.scope, r.agentSlug, r.runId, r.key, r.value, FromIso(r.createdAt), FromIso(r.updatedAt),
          if r.expiresAt.Some? then Some(FromIso(r.expiresAt.value)) else None, r.labels, r.embedding)
  }

  /** Reading a stored row gives back the entry if and only if its embedding is not the empty list;
      everything but the embedding comes back in any case. */
  lemma RowRoundTrip(e: Entry)
    requires ValidEntry(e)
    ensures LongEnough(EntryToRow(e))
    ensures RowToEntry(EntryToRow(e)) == e.(embedding := StoredEmbedding(e.embedding))
    ensures RowToEntry(EntryToRow(e)) == e <==> e.embedding != Some([])
  {
    IsoRoundTrip(e.createdAt);
    IsoRoundTrip(e.updatedAt);
    if e.expiresAt.Some? { IsoRoundTrip(e.expiresAt.value); }
  }

  /** An entry with an empty embedding is read back without one. */
  lemma EmptyEmbeddingIsLost(e: Entry)
    requires ValidEntry(e) && e.embedding == Some([])
    ensures LongEnough(EntryToRow(e)) && RowToEntry(EntryToRow(e)).embedding == None
    ensures RowToEntry(EntryToRow(e)) != e
  {
    RowRoundTrip(e);
  }

  /** `is_expired`: by instants. */
  predicate IsExpired(e: Entry, now: Instant) {
    e.expiresAt.Some? && NotAfter(e.expiresAt.value, now)
  }

  /** The SQL test: by text, against the text of the current time. */
  predicate TextExpired(r: Row, now: string) {
    r.expiresAt.Some? && Le(r.expiresAt.value, now)
  }

  /** The two notions of expiry are the same. */
  lemma ExpiryAgrees(e: Entry, now: Instant)
    requires ValidEntry(e) && Valid(now)
    ensures TextExpired(EntryToRow(e), IsoFormat(now)) <==> IsExpired(e, now)
  {
    if e.expiresAt.Some? { TextOrderIsTimeOrder(e.expiresAt.value, now); }
  }

  /** The text of some instant. */
  ghost predicate IsIso(s: string) {
    exists t :: Valid(t) && s == IsoFormat(t)
  }

  /** A row whose times are texts of instants, and whose embedding is not empty, as in every row
      written from an entry. */
  ghost predicate Written(r: Row) {
    && IsIso(r.createdAt) && IsIso(r.updatedAt) && (r.expiresAt.Some? ==> IsIso(r.expiresAt.value))
    && r.embedding != Some([])
  }

  /** Such a row is the row of an entry. */
  lemma EntryOf(r: Row) returns (e: Entry)
    requires Written(r)
    ensures ValidEntry(e) && r == EntryToRow(e) && e.embedding != Some([])
  {
    var created: Instant :| Valid(created) && r.createdAt == IsoFormat(created);
    var updated: Instant :| Valid(updated) && r.updatedAt == IsoFormat(updated);
    var expires := None;
    if r.expiresAt.Some? {
      var t: Instant :| Valid(t) && r.expiresAt.value == IsoFormat(t);
      expires := Some(t);
    }
    e := Entry(r.memoryId, r.scope, r.agentSlug, r.runId, r.key, r.value, created, updated, expires,
               r.labels, r.embedding);
  }

  lemma ExpiryIsForever(r: Row, a: Instant, b: Instant)
    requires Valid(a) && Valid(b) && NotAfter(a, b) && TextExpired(r, IsoFormat(a))
    ensures TextExpired(r, IsoFormat(b))
  {
    TextOrderIsTimeOrder(a, b);
    LeTransitive(r.expiresAt.value, IsoFormat(a), IsoFormat(b));
  }

  datatype Outcome = Done | AlreadyExists | DoesNotExist

  /** A filter on everything but the expiry: scope, agent, run and key. */
  type Filter = Row -> bool

  /** `ORDER BY created_at DESC`. */
  predicate NewerFirst(a: Row, b: Row) { Le(b.createdAt, a.createdAt) }

  /** The rows a listing sees, in the table's scan order. */
  function Selected(rows: Rows, scan: seq<nat>, keep: Filter, includeExpired: bool, now: string): seq<Row> {
    if scan == [] then []
    else
      (if scan[0] in rows && keep(rows[scan[0]]) && (includeExpired || !TextExpired(rows[scan[0]], now))
       then [rows[scan[0]]] else [])
      + Selected(rows, scan[1..], keep, includeExpired, now)
  }

  function Page(xs: seq<Row>, limit: nat, offset: nat): seq<Row> {
    if |xs| <= offset then [] else if |xs| <= offset + limit then xs[offset..] else xs[offset..offset + limit]
  }

  function Listing(rows: Rows, scan: seq<nat>, keep: Filter, includeExpired: bool, now: string, limit: nat,
      offset: nat): seq<Row> {
    Page(SortBy(Selected(rows, scan, keep, includeExpired, now), NewerFirst), limit, offset)
  }

  /** The full-text matches: rows joined to their index entries, whatever their rank. */
  function Found(rows: Rows, fts: Index, hit: (string, string) -> bool, keep: Filter, now: string): set<nat> {
    set id | id in fts && hit(fts[id].1, fts[id].2) && id in rows && keep(rows[id]) && !TextExpired(rows[id], now)
  }

  function ExpiredIds(rows: Rows, now: string): set<nat> {
    set i | i in rows && TextExpired(rows[i], now)
  }

  ghost function WithoutExpired(rows: Rows, now: string): Rows {
    map id | id in rows && !TextExpired(rows[id], now) :: rows[id]
  }

  ghost function Projection(rows: Rows): Index {
    map id | id in rows :: (rows[id].memoryId, rows[id].key, rows[id].value)
  }

  ghost predicate UniqueIds(rows: Rows) {
    forall i, j :: i in rows && j in rows && rows[i].memoryId == rows[j].memoryId ==> i == j
  }

  ghost predicate WrittenAt(rows: Rows, i: nat) { i in rows ==> Written(rows[i]) }

  ghost predicate AllWritten(rows: Rows) {
    forall i {:trigger WrittenAt(rows, i)} :: WrittenAt(rows, i)
  }

  /** The index mirrors the table and the primary key holds. */
  ghost predicate InSync(rows: Rows, fts: Index) {
    fts == Projection(rows) && UniqueIds(rows)
  }

  /** The table's scan order: every row id, and nothing else. */
  ghost predicate Scans(scan: seq<nat>, rows: Rows) {
    && (forall k :: 0 <= k < |scan| ==> scan[k] in rows)
    && (forall i :: i in rows ==> exists k :: 0 <= k < |scan| && scan[k] == i)
  }

  ghost predicate HasId(rows: Rows, memoryId: string) {
    exists i :: i in rows && rows[i].memoryId == memoryId
  }

  /** Writing a row together with its index entry. */
  lemma PutKeepsSync(rows: Rows, fts: Index, id: nat, row: Row)
    requires InSync(rows, fts)
    requires forall i :: i in rows && rows[i].memoryId == row.memoryId ==> i == id
    ensures InSync(rows[id := row], fts[id := (row.memoryId, row.key, row.value)])
  {
  }

  /** Deleting a row together with its index entry. */
  lemma DropKeepsSync(rows: Rows, fts: Index, id: nat)
    requires InSync(rows, fts)
    ensures InSync(rows - {id}, fts - {id})
  {
  }

  /** The table after an `UPDATE ... WHERE memory_id = ?`. */
  ghost predicate Updated(before: Rows, after: Rows, entry: Entry, now: Instant) {
    && after.Keys == before.Keys
    && forall i :: i in before ==>
         after[i] == if before[i].memoryId == entry.memoryId
                     then Rewritten(before[i], entry, now)
                     else before[i]
  }

  ghost function WithoutId(rows: Rows, memoryId: string): Rows {
    map i | i in rows && rows[i].memoryId != memoryId :: rows[i]
  }

  /** Some row has the id and has not expired. */
  ghost predicate HasLive(rows: Rows, memoryId: string, now: string) {
    exists i :: i in rows && rows[i].memoryId == memoryId && !TextExpired(rows[i], now)
  }

  lemma OnlyRow(rows: Rows, id: nat, now: string)
    requires UniqueIds(rows) && id in rows
    ensures HasLive(rows, rows[id].memoryId, now) <==> !TextExpired(rows[id], now)
  {
  }

  lemma DropById(rows: Rows, id: nat)
    requires UniqueIds(rows) && id in rows
    ensures rows - {id} == WithoutId(rows, rows[id].memoryId)
  {
  }

  // ---- the table by memory id, and what the operations do to it ----

  type View = map<string, Row>

  /** `v` holds the rows of the table under their memory ids. */
  ghost predicate Shows(rows: Rows, v: View) {
    && (forall i :: i in rows ==> rows[i].memoryId in v && v[rows[i].memoryId] == rows[i])
    && (forall k :: k in v ==> HasId(rows, k))
  }

  datatype Op =
    | Creating(entry: Entry)
    | Updating(entry: Entry, at: Instant)
    | DeletingId(memoryId: string)
    | Expiring(at: Instant)

  function Rewritten(row: Row, entry: Entry, at: Instant): Row {
    EntryToRow(entry.(updatedAt := at)).(createdAt := row.createdAt)
  }

  ghost function Live(v: View, now: string): View {
    map id | id in v && !TextExpired(v[id], now) :: v[id]
  }

  ghost function Stepped(v: View, op: Op): View {
    match op
    case Creating(e) => if e.memoryId in v then v else v[e.memoryId := EntryToRow(e)]
    case Updating(e, at) => if e.memoryId in v then v[e.memoryId := Rewritten(v[e.memoryId], e, at)] else v
    case DeletingId(id) => v - {id}
    case Expiring(at) => Live(v, IsoFormat(at))
  }

  /** What the caller is told; the number of rows that an expiry deletes is not looked at. */
  function OutcomeOf(v: View, op: Op): Outcome {
    match op
    case Creating(e) => if e.memoryId in v then AlreadyExists else Done
    case Updating(e, _) => if e.memoryId in v then Done else DoesNotExist
    case DeletingId(id) => if id in v then Done else DoesNotExist
    case Expiring(_) => Done
  }

  lemma ShownId(rows: Rows, v: View, memoryId: string)
    requires Shows(rows, v)
    ensures HasId(rows, memoryId) <==> memoryId in v
  {
  }

  lemma ShowsPut(rows: Rows, v: View, id: nat, row: Row)
    requires Shows(rows, v)
    requires forall i :: i in rows && rows[i].memoryId == row.memoryId ==> i == id
    requires id in rows ==> rows[id].memoryId == row.memoryId
    ensures Shows(rows[id := row], v[row.memoryId := row])
  {
    var more, w := rows[id := row], v[row.memoryId := row];
    forall k | k in w ensures HasId(more, k) {
      if k == row.memoryId {
        assert more[id].memoryId == k;
      } else {
        var i :| i in rows && rows[i].memoryId == k;
        assert more[i].memoryId == k;
      }
    }
  }

  lemma ShowsSome(rows: Rows, v: View, fewer: Rows, w: View)
    requires Shows(rows, v) && UniqueIds(rows)
    requires forall i :: i in fewer ==> i in rows && fewer[i] == rows[i]
    requires forall k :: k in w ==> k in v && w[k] == v[k]
    requires forall i :: i in rows ==> (i in fewer <==> rows[i].memoryId in w)
    ensures Shows(fewer, w)
  {
    forall k | k in w ensures HasId(fewer, k) {
      assert HasId(rows, k);
      var i :| i in rows && rows[i].memoryId == k;
      assert fewer[i].memoryId == k;
    }
  }

  lemma ShowsWithout(rows: Rows, v: View, memoryId: string)
    requires Shows(rows, v) && UniqueIds(rows)
    ensures Shows(WithoutId(rows, memoryId), v - {memoryId})
  {
    ShowsSome(rows, v, WithoutId(rows, memoryId), v - {memoryId});
  }

  lemma ShowsLive(rows: Rows, v: View, now: string)
    requires Shows(rows, v) && UniqueIds(rows)
    ensures Shows(WithoutExpired(rows, now), Live(v, now))
  {
    ShowsSome(rows, v, WithoutExpired(rows, now), Live(v, now));
  }

  /** The index mirrors the table, ids are unique, every row was written from an entry, and the
      view shows the rows. */
  ghost predicate InStep(rows: Rows, fts: Index, v: View) {
    InSync(rows, fts) && AllWritten(rows) && Shows(rows, v)
  }

  lemma PutKeepsStep(rows: Rows, fts: Index, v: View, id: nat, row: Row)
    requires InStep(rows, fts, v) && Written(row)
    requires forall i :: i in rows && rows[i].memoryId == row.memoryId ==> i == id
    requires id in rows ==> rows[id].memoryId == row.memoryId
    ensures InStep(rows[id := row], fts[id := (row.memoryId, row.key, row.value)], v[row.memoryId := row])
  {
    PutKeepsSync(rows, fts, id, row);
    ShowsPut(rows, v, id, row);
    var more := rows[id := row];
    forall i ensures WrittenAt(more, i) { assert WrittenAt(rows, i); }
  }

  lemma CreateKeepsStep(rows: Rows, fts: Index, v: View, rowid: nat, entry: Entry)
    requires InStep(rows, fts, v) && ValidEntry(entry) && rowid !in rows
    ensures HasId(rows, entry.memoryId) <==> entry.memoryId in v
    ensures var row := EntryToRow(entry);
            !HasId(rows, entry.memoryId) ==>
              InStep(rows[rowid := row], fts[rowid := (row.memoryId, row.key, row.value)], v[row.memoryId := row])
  {
    ShownId(rows, v, entry.memoryId);
    EntryWritten(entry);
    if !HasId(rows, entry.memoryId) { PutKeepsStep(rows, fts, v, rowid, EntryToRow(entry)); }
  }

  lemma UpdateKeepsStep(rows: Rows, fts: Index, v: View, id: nat, entry: Entry, now: Instant)
    requires InStep(rows, fts, v) && ValidEntry(entry) && Valid(now)
    requires id in rows && rows[id].memoryId == entry.memoryId
    ensures var row := Rewritten(rows[id], entry, now);
            && InStep(rows[id := row], fts[id := (row.memoryId, row.key, row.value)], v[row.memoryId := row])
            && Updated(rows, rows[id := row], entry, now)
            && entry.memoryId in v && v[row.memoryId := row] == Stepped(v, Updating(entry, now))
  {
    assert WrittenAt(rows, id);
    RewrittenIsWritten(rows[id], entry, now);
    PutKeepsStep(rows, fts, v, id, Rewritten(rows[id], entry, now));
    UpdateIs(rows, v, id, entry, now, Rewritten(rows[id], entry, now));
  }

  lemma UpdateIs(rows: Rows, v: View, id: nat, entry: Entry, now: Instant, row: Row)
    requires UniqueIds(rows) && Shows(rows, v) && id in rows && rows[id].memoryId == entry.memoryId
    requires row == Rewritten(rows[id], entry, now) && row.memoryId == entry.memoryId
    ensures Updated(rows, rows[id := row], entry, now)
    ensures entry.memoryId in v && v[row.memoryId := row] == Stepped(v, Updating(entry, now))
  {
  }

  lemma DeleteKeepsStep(rows: Rows, fts: Index, v: View, id: nat)
    requires InStep(rows, fts, v) && id in rows
    ensures InStep(rows - {id}, fts - {id}, v - {rows[id].memoryId})
    ensures rows - {id} == WithoutId(rows, rows[id].memoryId)
  {
    DropKeepsSync(rows, fts, id);
    DropById(rows, id);
    forall i ensures WrittenAt(rows - {id}, i) { assert WrittenAt(rows, i); }
    ShowsWithout(rows, v, rows[id].memoryId);
  }

  lemma ExpiryKeepsStep(rows: Rows, fts: Index, v: View, now: string)
    requires InStep(rows, fts, v)
    ensures var expired := ExpiredIds(rows, now);
            InStep(rows - expired, fts - expired, Live(v, now)) && rows - expired == WithoutExpired(rows, now)
  {
    ExpiryKeepsSync(rows, fts, now);
    ShowsLive(rows, v, now);
    forall i ensures WrittenAt(rows - ExpiredIds(rows, now), i) { assert WrittenAt(rows, i); }
  }

  class SQLiteMemoryStore {
    var rows: Rows
    var fts: Index

    /** The table by memory id. */
    ghost var contents: View

    /** The index mirrors the table, ids are unique, and every row was written from an entry. */
    ghost predicate Consistent()
      reads this
    {
      InStep(rows, fts, contents)
    }

    constructor ()
      ensures Consistent() && rows == map[] && contents == map[]
    {
      contents := map[];
      rows := map[];
      fts := map[];
    }

    /** The rowid of a memory id, if there is a row; `scan` is the table's scan order. */
    method RowOf(memoryId: string, scan: seq<nat>) returns (id: Option<nat>)
      requires Scans(scan, rows)
      ensures id.Some? ==> id.value in rows && rows[id.value].memoryId == memoryId
      ensures id.None? <==> !HasId(rows, memoryId)
    {
      for k := 0 to |scan|
        invariant forall l :: 0 <= l < k ==> rows[scan[l]].memoryId != memoryId
      {
        if rows[scan[k]].memoryId == memoryId {
          return Some(scan[k]);
        }
      }
      id := None;
    }

    /** `INSERT`, with the insert trigger. `rowid` is the id SQLite picks for the new row. */
    method CreateMemory(entry: Entry, rowid: nat, scan: seq<nat>) returns (r: Outcome)
      requires Consistent() && ValidEntry(entry) && rowid !in rows && Scans(scan, rows)
      modifies this
      ensures Consistent()
      ensures r == if HasId(old(rows), entry.memoryId) then AlreadyExists else Done
      ensures rows == if r.Done? then old(rows)[rowid := EntryToRow(entry)] else old(rows)
      ensures r == OutcomeOf(old(contents), Creating(entry)) && contents == Stepped(old(contents), Creating(entry))
    {
      CreateKeepsStep(rows, fts, contents, rowid, entry);
      var existing := RowOf(entry.memoryId, scan);
      if existing.Some? {
        return AlreadyExists;
      }
      PutRow(rowid, EntryToRow(entry));
      r := Done;
    }

    /** `UPDATE`, with the update trigger; the creation time is kept. */
    method UpdateMemory(entry: Entry, now: Instant, scan: seq<nat>) returns (r: Outcome)
      requires Consistent() && ValidEntry(entry) && Valid(now) && Scans(scan, rows)
      modifies this
      ensures Consistent()
      ensures r == if HasId(old(rows), entry.memoryId) then Done else DoesNotExist
      ensures r.DoesNotExist? ==> rows == old(rows)
      ensures r.Done? ==> Updated(old(rows), rows, entry, now)
      ensures r == OutcomeOf(old(contents), Updating(entry, now))
      ensures contents == Stepped(old(contents), Updating(entry, now))
    {
      ShownId(rows, contents, entry.memoryId);
      var existing := RowOf(entry.memoryId, scan);
      if existing.None? {
        return DoesNotExist;
      }
      var id := existing.value;
      UpdateKeepsStep(rows, fts, contents, id, entry, now);
      PutRow(id, Rewritten(rows[id], entry, now));
      r := Done;
    }

    /** The row, and its trigger: an old index entry goes, the new one comes. */
    method PutRow(id: nat, row: Row)
      modifies this
      ensures rows == old(rows)[id := row] && fts == old(fts)[id := (row.memoryId, row.key, row.value)]
      ensures contents == old(contents)[row.memoryId := row]
    {
      rows := rows[id := row];
      fts := fts - {id};
      fts := fts[id := (row.memoryId, row.key, row.value)];
      contents := contents[row.memoryId := row];
      assert fts == old(fts)[id := (row.memoryId, row.key, row.value)];
    }

    /** `DELETE` by id, with the delete trigger. */
    method DeleteMemory(memoryId: string, scan: seq<nat>) returns (deleted: bool)
      requires Consistent() && Scans(scan, rows)
      modifies this
      ensures Consistent()
      ensures rows == WithoutId(old(rows), memoryId)
      ensures deleted <==> HasId(old(rows), memoryId)
      ensures deleted <==> OutcomeOf(old(contents), DeletingId(memoryId)).Done?
      ensures contents == Stepped(old(contents), DeletingId(memoryId))
    {
      ShownId(rows, contents, memoryId);
      var existing := RowOf(memoryId, scan);
      if existing.None? {
        assert rows == WithoutId(rows, memoryId) && contents == contents - {memoryId};
        return false;
      }
      DeleteKeepsStep(rows, fts, contents, existing.value);
      rows := rows - {existing.value};
      fts := fts - {existing.value};
      contents := contents - {memoryId};
      deleted := true;
    }

    /** `expire_old_memories`: one `DELETE`, with the delete trigger run for every row it removes. */
    method ExpireOldMemories(now: Instant) returns (count: nat)
      requires Consistent() && Valid(now)
      modifies this
      ensures Consistent() && rows == WithoutExpired(old(rows), IsoFormat(now))
      ensures count == |ExpiredIds(old(rows), IsoFormat(now))|
      ensures contents == Stepped(old(contents), Expiring(now))
    {
      var text := IsoFormat(now);
      var expired := ExpiredIds(rows, text);
      ExpiryKeepsStep(rows, fts, contents, text);
      rows := rows - expired;
      fts := fts - expired;
      contents := Live(contents, text);
      count := |expired|;
    }

    /** `get_memory`: the expiry is checked on the entry read back. */
    method GetMemory(memoryId: string, now: Instant, scan: seq<nat>) returns (r: Option<Entry>)
      requires Consistent() && Valid(now) && Scans(scan, rows)
      ensures r.Some? <==> HasLive(rows, memoryId, IsoFormat(now))
      ensures r.Some? ==> r.value.memoryId == memoryId && exists i :: i in rows && EntryToRow(r.value) == rows[i]
    {
      var existing := RowOf(memoryId, scan);
      if existing.None? {
        return None;
      }
      var row := rows[existing.value];
      assert WrittenAt(rows, existing.value);
      ghost var e := EntryOf(row);
      RowRoundTrip(e);
      ExpiryAgrees(e, now);
      OnlyRow(rows, existing.value, IsoFormat(now));
      var entry := RowToEntry(row);
      if IsExpired(entry, now) {
        return None;
      }
      r := Some(entry);
    }
  }

  lemma ExpiryKeepsSync(rows: Rows, fts: Index, now: string)
    requires InSync(rows, fts)
    ensures var expired := ExpiredIds(rows, now);
            InSync(rows - expired, fts - expired) && rows - expired == WithoutExpired(rows, now)
  {
  }

  lemma EntryWritten(e: Entry)
    requires ValidEntry(e)
    ensures Written(EntryToRow(e))
  {
  }

  lemma RewrittenIsWritten(row: Row, entry: Entry, now: Instant)
    requires Written(row) && ValidEntry(entry) && Valid(now)
    ensures Written(Rewritten(row, entry, now)) && Rewritten(row, entry, now).memoryId == entry.memoryId
  {
    EntryWritten(entry.(updatedAt := now));
  }

  /** An updated row is read back as the new entry, with the update's time and the old creation time. */
  lemma UpdateRoundTrip(row: Row, entry: Entry, now: Instant)
    requires Written(row) && ValidEntry(entry) && Valid(now)
    ensures LongEnough(row) && LongEnough(Rewritten(row, entry, now))
    ensures RowToEntry(Rewritten(row, entry, now))
         == entry.(createdAt := RowToEntry(row).createdAt, updatedAt := now,
                   embedding := StoredEmbedding(entry.embedding))
  {
    var e := EntryOf(row);
    RowRoundTrip(e);
    RowRoundTrip(entry.(createdAt := e.createdAt, updatedAt := now));
  }

  // ---- deleting expired rows cannot be observed ----

  lemma {:induction false} SelectedAfterExpiry(rows: Rows, scan: seq<nat>, keep: Filter, then': Instant, now: Instant)
    requires Valid(then') && Valid(now) && NotAfter(then', now)
    ensures Selected(WithoutExpired(rows, IsoFormat(then')), scan, keep, false, IsoFormat(now))
         == Selected(rows, scan, keep, false, IsoFormat(now))
  {
    if scan != [] {
      SelectedAfterExpiry(rows, scan[1..], keep, then', now);
      if scan[0] in rows && TextExpired(rows[scan[0]], IsoFormat(then')) {
        ExpiryIsForever(rows[scan[0]], then', now);
      }
    }
  }

  /** Whether or not expired rows have been deleted, every later listing that leaves expired
      rows out returns the same page. */
  lemma ExpiryUnobservableInListing(rows: Rows, scan: seq<nat>, keep: Filter, then': Instant, now: Instant,
      limit: nat, offset: nat)
    requires Valid(then') && Valid(now) && NotAfter(then', now)
    ensures Listing(WithoutExpired(rows, IsoFormat(then')), scan, keep, false, IsoFormat(now), limit, offset)
         == Listing(rows, scan, keep, false, IsoFormat(now), limit, offset)
  {
    SelectedAfterExpiry(rows, scan, keep, then', now);
  }

  /** The same for full-text search, on the set of rows found. */
  lemma ExpiryUnobservableInSearch(rows: Rows, hit: (string, string) -> bool, keep: Filter, then': Instant,
      now: Instant)
    requires Valid(then') && Valid(now) && NotAfter(then', now)
    ensures var kept := WithoutExpired(rows, IsoFormat(then'));
            Found(kept, Projection(kept), hit, keep, IsoFormat(now))
            == Found(rows, Projection(rows), hit, keep, IsoFormat(now))
  {
    forall id | id in rows && TextExpired(rows[id], IsoFormat(then')) ensures TextExpired(rows[id], IsoFormat(now)) {
      ExpiryIsForever(rows[id], then', now);
    }
  }

  /** And for a lookup by id: a row that is deleted would have been reported as expired. */
  lemma ExpiryUnobservableInGet(rows: Rows, memoryId: string, then': Instant, now: Instant)
    requires Valid(then') && Valid(now) && NotAfter(then', now)
    ensures HasLive(WithoutExpired(rows, IsoFormat(then')), memoryId, IsoFormat(now))
       <==> HasLive(rows, memoryId, IsoFormat(now))
  {
    forall id | id in rows && TextExpired(rows[id], IsoFormat(then')) ensures TextExpired(rows[id], IsoFormat(now)) {
      ExpiryIsForever(rows[id], then', now);
    }
    var kept := WithoutExpired(rows, IsoFormat(then'));
    if HasLive(rows, memoryId, IsoFormat(now)) {
      var i :| i in rows && rows[i].memoryId == memoryId && !TextExpired(rows[i], IsoFormat(now));
      assert i in kept && kept[i] == rows[i];
    }
  }

  /** A listing is in time order, newest first. */
  lemma ListingNewestFirst(rows: Rows, scan: seq<nat>, keep: Filter, includeExpired: bool, now: string, limit: nat,
      offset: nat, i: nat, j: nat)
    requires AllWritten(rows)
    requires i < j < |Listing(rows, scan, keep, includeExpired, now, limit, offset)|
    ensures var page := Listing(rows, scan, keep, includeExpired, now, limit, offset);
            && Written(page[i]) && Written(page[j])
            && LongEnough(page[i]) && LongEnough(page[j])
            && NotAfter(RowToEntry(page[j]).createdAt, RowToEntry(page[i]).createdAt)
  {
    var sel := Selected(rows, scan, keep, includeExpired, now);
    var sorted := SortBy(sel, NewerFirst);
    NewerFirstOrder();
    SortByIsSorted(sel, NewerFirst);
    var page := Listing(rows, scan, keep, includeExpired, now, limit, offset);
    assert page[i] == sorted[offset + i] && page[j] == sorted[offset + j];
    SelectedFrom(rows, scan, keep, includeExpired, now);
    SameElements(sorted, sel, page[i]);
    SameElements(sorted, sel, page[j]);
    var k :| k in rows && rows[k] == page[i];
    var l :| l in rows && rows[l] == page[j];
    assert WrittenAt(rows, k) && WrittenAt(rows, l);
    var a := EntryOf(page[i]);
    var b := EntryOf(page[j]);
    assert NewerFirst(sorted[offset + i], sorted[offset + j]);
    TextOrderIsTimeOrder(b.createdAt, a.createdAt);
    RowRoundTrip(a);
    RowRoundTrip(b);
  }

  lemma NewerFirstOrder()
    ensures TotalPreorder(NewerFirst)
  {
    forall a, b ensures NewerFirst(a, b) || NewerFirst(b, a) { LeTotal(a.createdAt, b.createdAt); }
    forall a, b, c | NewerFirst(a, b) && NewerFirst(b, c) ensures NewerFirst(a, c) {
      LeTransitive(c.createdAt, b.createdAt, a.createdAt);
    }
  }

  lemma {:induction false} SelectedFrom(rows: Rows, scan: seq<nat>, keep: Filter, includeExpired: bool, now: string)
    ensures forall r :: r in Selected(rows, scan, keep, includeExpired, now) ==> exists i :: i in rows && rows[i] == r
  {
    if scan != [] { SelectedFrom(rows, scan[1..], keep, includeExpired, now); }
  }

  // ---- ... over whatever happens later ----

  ghost function After(v: View, ops: seq<Op>): View {
    if ops == [] then v else Stepped(After(v, ops[..|ops| - 1]), ops[|ops| - 1])
  }

  predicate SomeExpiring(ops: seq<Op>) { exists i :: 0 <= i < |ops| && ops[i].Expiring? }

  predicate Names(op: Op, ids: set<string>) {
    match op
    case Creating(e) => e.memoryId in ids
    case Updating(e, _) => e.memoryId in ids
    case DeletingId(id) => id in ids
    case Expiring(_) => false
  }

  /** Expiries read a clock that has not gone back. */
  predicate Timely(ops: seq<Op>, then': Instant) {
    forall i :: 0 <= i < |ops| && ops[i].Expiring? ==> Valid(ops[i].at) && NotAfter(then', ops[i].at)
  }

  /** The callers of all operations are told the same, starting from either table. */
  ghost predicate ToldTheSame(a: View, b: View, ops: seq<Op>)
    decreases |ops|
  {
    ops == [] ||
    var before, op := ops[..|ops| - 1], ops[|ops| - 1];
    ToldTheSame(a, b, before) && OutcomeOf(After(a, before), op) == OutcomeOf(After(b, before), op)
  }

  /** No create, update or delete names one of the ids before the next expiry. */
  predicate LeavesAlone(ops: seq<Op>, ids: set<string>)
    decreases |ops|
  {
    ops == [] ||
    var before, op := ops[..|ops| - 1], ops[|ops| - 1];
    LeavesAlone(before, ids) && (Names(op, ids) ==> SomeExpiring(before))
  }

  /** `b` is `a` without some rows that had expired by `then'`. */
  ghost predicate Purged(a: View, b: View, ids: set<string>, then': Instant) {
    ids <= a.Keys && b == a - ids && forall id :: id in ids ==> TextExpired(a[id], IsoFormat(then'))
  }

  lemma PurgedStep(a: View, b: View, ids: set<string>, then': Instant, op: Op)
    requires Purged(a, b, ids, then') && !Names(op, ids) && !op.Expiring?
    ensures Purged(Stepped(a, op), Stepped(b, op), ids, then')
  {
    match op
    case Creating(e) => PurgedPut(a, b, ids, then', e.memoryId, EntryToRow(e));
    case Updating(e, at) =>
      if e.memoryId in a { PurgedPut(a, b, ids, then', e.memoryId, Rewritten(a[e.memoryId], e, at)); }
    case DeletingId(id) => PurgedDrop(a, b, ids, then', id);
    case Expiring(_) =>
  }

  lemma PurgedPut(a: View, b: View, ids: set<string>, then': Instant, key: string, row: Row)
    requires Purged(a, b, ids, then') && key !in ids
    ensures Purged(a[key := row], b[key := row], ids, then') && (key in a <==> key in b)
  {
  }

  lemma PurgedDrop(a: View, b: View, ids: set<string>, then': Instant, key: string)
    requires Purged(a, b, ids, then') && key !in ids
    ensures Purged(a - {key}, b - {key}, ids, then')
  {
  }

  lemma PurgedLive(a: View, b: View, ids: set<string>, then': Instant, now: Instant)
    requires Purged(a, b, ids, then') && Valid(then') && Valid(now) && NotAfter(then', now)
    ensures Live(a, IsoFormat(now)) == Live(b, IsoFormat(now))
  {
    forall id | id in ids ensures TextExpired(a[id], IsoFormat(now)) { ExpiryIsForever(a[id], then', now); }
  }

  lemma PurgedOutcome(a: View, b: View, ids: set<string>, then': Instant, op: Op)
    requires Purged(a, b, ids, then')
    ensures OutcomeOf(a, op) == OutcomeOf(b, op) <==> !Names(op, ids)
  {
  }

  lemma {:induction false} PurgedRun(a: View, b: View, ids: set<string>, then': Instant, ops: seq<Op>)
    requires Purged(a, b, ids, then') && Valid(then') && Timely(ops, then')
    ensures ToldTheSame(a, b, ops) <==> LeavesAlone(ops, ids)
    ensures LeavesAlone(ops, ids) && SomeExpiring(ops) ==> After(a, ops) == After(b, ops)
    ensures LeavesAlone(ops, ids) && !SomeExpiring(ops) ==> Purged(After(a, ops), After(b, ops), ids, then')
    decreases |ops|
  {
    if ops != [] {
      var before, op := ops[..|ops| - 1], ops[|ops| - 1];
      PurgedRun(a, b, ids, then', before);
      assert SomeExpiring(ops) <==> SomeExpiring(before) || op.Expiring? by { ExpiringMore(before, op, ops); }
      if LeavesAlone(before, ids) && !SomeExpiring(before) {
        var v, w := After(a, before), After(b, before);
        PurgedOutcome(v, w, ids, then', op);
        if op.Expiring? {
          PurgedLive(v, w, ids, then', op.at);
        } else if !Names(op, ids) {
          PurgedStep(v, w, ids, then', op);
        }
      }
    }
  }

  lemma ExpiringMore(before: seq<Op>, op: Op, ops: seq<Op>)
    requires ops == before + [op]
    ensures SomeExpiring(ops) <==> SomeExpiring(before) || op.Expiring?
  {
    assert ops[|before|] == op;
    if SomeExpiring(before) {
      var i :| 0 <= i < |before| && before[i].Expiring?;
      assert ops[i].Expiring?;
    }
  }

  ghost function ExpiredKeys(v: View, now: string): set<string> {
    set id | id in v && TextExpired(v[id], now)
  }

  /** Deleting the expired rows early, whatever is created, updated, deleted or expired later, is
      noticed by the callers of these operations exactly when one of them names a deleted id
      before the next expiry: creating it again then succeeds instead of failing, and updating or
      deleting it finds nothing. */
  lemma EarlyExpiryUnnoticedIff(v: View, then': Instant, ops: seq<Op>)
    requires Valid(then') && Timely(ops, then')
    ensures ToldTheSame(v, Live(v, IsoFormat(then')), ops) <==> LeavesAlone(ops, ExpiredKeys(v, IsoFormat(then')))
  {
    PurgedRun(v, Live(v, IsoFormat(then')), ExpiredKeys(v, IsoFormat(then')), then', ops);
  }

  /** An entry put twice under one id, the first one expired: the second is refused, and accepted
      if the first was deleted. */
  lemma CreatedAgain(e: Entry, again: Entry, then': Instant)
    requires Valid(then') && TextExpired(EntryToRow(e), IsoFormat(then')) && again.memoryId == e.memoryId
    ensures var v := map[e.memoryId := EntryToRow(e)];
            !ToldTheSame(v, Live(v, IsoFormat(then')), [Creating(again)])
  {
    var v := map[e.memoryId := EntryToRow(e)];
    assert [Creating(again)][..0] == [];
    assert e.memoryId in ExpiredKeys(v, IsoFormat(then'));
    EarlyExpiryUnnoticedIff(v, then', [Creating(again)]);
  }

  /** Unless that happens, what is live afterwards, and so all that lookups, listings and searches
      can return, is the same. */
  lemma EarlyExpiryUnobservable(v: View, then': Instant, ops: seq<Op>, now: Instant)
    requires Valid(then') && Timely(ops, then') && Valid(now) && NotAfter(then', now)
    requires LeavesAlone(ops, ExpiredKeys(v, IsoFormat(then')))
    ensures Live(After(v, ops), IsoFormat(now)) == Live(After(Live(v, IsoFormat(then')), ops), IsoFormat(now))
  {
    var b, ids := Live(v, IsoFormat(then')), ExpiredKeys(v, IsoFormat(then'));
    PurgedRun(v, b, ids, then', ops);
    if !SomeExpiring(ops) { PurgedLive(After(v, ops), After(b, ops), ids, then', now); }
  }

  // ---- a page of search results ----

  function FoundInOrder(rows: Rows, scan: seq<nat>, hit: (string, string) -> bool, keep: Filter,
      now: string): seq<nat> {
    if scan == [] then []
    else
      var r := scan[0];
      (if r in rows && hit(rows[r].key, rows[r].value) && keep(rows[r]) && !TextExpired(rows[r], now) then [r] else [])
      + FoundInOrder(rows, scan[1..], hit, keep, now)
  }

  function ByRank(rank: nat -> real): (nat, nat) -> bool { (i: nat, j: nat) => rank(i) <= rank(j) }

  /** `ORDER BY rank LIMIT ?`. */
  function SearchPage(rows: Rows, scan: seq<nat>, hit: (string, string) -> bool, keep: Filter, now: string,
                      rank: nat -> real, limit: nat): seq<nat> {
    var sorted := SortBy(FoundInOrder(rows, scan, hit, keep, now), ByRank(rank));
    if |sorted| <= limit then sorted else sorted[..limit]
  }

  lemma {:induction false} FoundAfterExpiry(rows: Rows, scan: seq<nat>, hit: (string, string) -> bool, keep: Filter,
                                            then': Instant, now: Instant)
    requires Valid(then') && Valid(now) && NotAfter(then', now)
    ensures FoundInOrder(WithoutExpired(rows, IsoFormat(then')), scan, hit, keep, IsoFormat(now))
         == FoundInOrder(rows, scan, hit, keep, IsoFormat(now))
  {
    if scan != [] {
      FoundAfterExpiry(rows, scan[1..], hit, keep, then', now);
      if scan[0] in rows && TextExpired(rows[scan[0]], IsoFormat(then')) {
        ExpiryIsForever(rows[scan[0]], then', now);
      }
    }
  }

  /** A page of a search is the same too, as long as the index ranks the rows found alike with and
      without the expired ones. */
  lemma ExpiryUnobservableInSearchPage(rows: Rows, scan: seq<nat>, hit: (string, string) -> bool, keep: Filter,
                                       then': Instant, now: Instant, rank: nat -> real, rank': nat -> real, limit: nat)
    requires Valid(then') && Valid(now) && NotAfter(then', now)
    requires var found := FoundInOrder(rows, scan, hit, keep, IsoFormat(now));
             forall i, j :: i in found && j in found ==> ByRank(rank)(i, j) == ByRank(rank')(i, j)
    ensures SearchPage(WithoutExpired(rows, IsoFormat(then')), scan, hit, keep, IsoFormat(now), rank', limit)
         == SearchPage(rows, scan, hit, keep, IsoFormat(now), rank, limit)
  {
    FoundAfterExpiry(rows, scan, hit, keep, then', now);
    SortAlike(FoundInOrder(rows, scan, hit, keep, IsoFormat(now)), ByRank(rank), ByRank(rank'));
  }

  // ---- what listings and searches return ----

  /** The row passes the filter and, unless expired ones are asked for, has not expired. */
  predicate Visible(row: Row, keep: Filter, includeExpired: bool, now: string) {
    keep(row) && (includeExpired || !TextExpired(row, now))
  }

  function RowsAt(rows: Rows, ids: seq<nat>): seq<Row>
    requires forall i :: i in ids ==> i in rows
  {
    seq(|ids|, k requires 0 <= k < |ids| => assert ids[k] in ids; rows[ids[k]])
  }

  /** Each visible row once. */
  ghost predicate ListsVisible(rows: Rows, ids: seq<nat>, keep: Filter, includeExpired: bool, now: string) {
    Distinct(ids) && forall i :: i in ids <==> i in rows && Visible(rows[i], keep, includeExpired, now)
  }

  lemma {:induction false} SelectedRows(rows: Rows, scan: seq<nat>, keep: Filter, includeExpired: bool, now: string)
    returns (ids: seq<nat>)
    requires Distinct(scan)
    ensures Distinct(ids)
    ensures forall i :: i in ids <==> i in scan && i in rows && Visible(rows[i], keep, includeExpired, now)
    ensures Selected(rows, scan, keep, includeExpired, now) == RowsAt(rows, ids)
  {
    ids := [];
    if scan != [] {
      var rest := SelectedRows(rows, scan[1..], keep, includeExpired, now);
      var first := scan[0];
      assert first !in scan[1..] && scan == [first] + scan[1..];
      if first in rows && Visible(rows[first], keep, includeExpired, now) {
        ids := [first] + rest;
        assert RowsAt(rows, ids) == [rows[first]] + RowsAt(rows, rest);
      } else {
        ids := rest;
      }
    }
  }

  lemma PermutedIds(rows: Rows, ids: seq<nat>, sorted: seq<Row>) returns (order: seq<nat>)
    requires Distinct(ids) && (forall i :: i in ids ==> i in rows) && multiset(sorted) == multiset(RowsAt(rows, ids))
    ensures Distinct(order) && (forall i :: i in order <==> i in ids) && sorted == RowsAt(rows, order)
  {
    var p := MultisetPermutation(sorted, RowsAt(rows, ids));
    order := seq(|p|, k requires 0 <= k < |p| => ids[p[k]]);
    PermutedMultiset(order, ids, p);
    DistinctPermuted(ids, order);
    forall i ensures i in order <==> i in ids { SameElements(order, ids, i); }
  }

  /** A listing with a limit that is large enough returns every visible row of the table exactly
      once, whatever the order they are scanned in. */
  lemma FullListing(rows: Rows, scan: seq<nat>, keep: Filter, includeExpired: bool, now: string, limit: nat)
    returns (ids: seq<nat>)
    requires Scans(scan, rows) && Distinct(scan) && limit >= |scan|
    ensures ListsVisible(rows, ids, keep, includeExpired, now)
    ensures Listing(rows, scan, keep, includeExpired, now, limit, 0) == RowsAt(rows, ids)
  {
    var selected := SelectedRows(rows, scan, keep, includeExpired, now);
    var sorted := SortBy(Selected(rows, scan, keep, includeExpired, now), NewerFirst);
    SelectedFew(rows, scan, keep, includeExpired, now);
    ids := PermutedIds(rows, selected, sorted);
  }

  lemma {:induction false} SelectedFew(rows: Rows, scan: seq<nat>, keep: Filter, includeExpired: bool, now: string)
    ensures |Selected(rows, scan, keep, includeExpired, now)| <= |scan|
  {
    if scan != [] { SelectedFew(rows, scan[1..], keep, includeExpired, now); }
  }

  /** A page and the one after it make up the page of both lengths together. */
  lemma PagesJoin(rows: Rows, scan: seq<nat>, keep: Filter, includeExpired: bool, now: string, m: nat, n: nat,
      offset: nat)
    ensures Listing(rows, scan, keep, includeExpired, now, m, offset)
            + Listing(rows, scan, keep, includeExpired, now, n, offset + m)
         == Listing(rows, scan, keep, includeExpired, now, m + n, offset)
  {
  }

  lemma {:induction false} FoundOnce(rows: Rows, scan: seq<nat>, hit: (string, string) -> bool, keep: Filter,
      now: string)
    requires Distinct(scan)
    ensures var found := FoundInOrder(rows, scan, hit, keep, now);
            && Distinct(found) && |found| <= |scan|
            && forall i :: i in found <==>
                 i in scan && i in rows && hit(rows[i].key, rows[i].value) && Visible(rows[i], keep, false, now)
  {
    if scan != [] {
      FoundOnce(rows, scan[1..], hit, keep, now);
      assert scan[0] !in scan[1..] && scan == [scan[0]] + scan[1..];
    }
  }

  /** A search with a limit that is large enough returns every visible row that matches exactly
      once, best rank first. */
  lemma FullSearch(rows: Rows, scan: seq<nat>, hit: (string, string) -> bool, keep: Filter, now: string,
      rank: nat -> real, limit: nat)
    requires Scans(scan, rows) && Distinct(scan) && limit >= |scan|
    ensures var page := SearchPage(rows, scan, hit, keep, now, rank, limit);
            && Distinct(page) && SortedBy(page, ByRank(rank))
            && forall i :: i in page <==>
                 i in rows && hit(rows[i].key, rows[i].value) && Visible(rows[i], keep, false, now)
  {
    var found := FoundInOrder(rows, scan, hit, keep, now);
    FoundOnce(rows, scan, hit, keep, now);
    SortByIsSorted(found, ByRank(rank));
    DistinctPermuted(found, SortBy(found, ByRank(rank)));
    forall i ensures i in SortBy(found, ByRank(rank)) <==> i in found {
      SameElements(SortBy(found, ByRank(rank)), found, i);
    }
  }
}

/** `FAISSCache`: tombstoned metadata, key map, training buffer, trained flag and vector
    index, kept in step so that together they are one map from keys to entries. */
module SemanticCache {
  import opened Options
  import opened Sorting
  import opened TopK

  datatype IndexType = Flat | IVFFlat

  /** The metadata tuple kept under an id. */
  datatype Stored<Vec, Value> = Stored(key: string, value: Value, embedding: Vec)

  /** One row of an index search: an id (-1 pads a short answer) and an inner product. */
  datatype Hit = Hit(id: int, similarity: real)

  datatype Outcome<T> = Done(value: T) | DimensionMismatch | IndexRejects

  /** What is stored under each id handed out; `None` marks a deleted entry. */
  type Metadata<Vec, Value> = map<int, Option<Stored<Vec, Value>>>

  /** What a FAISS index promises about `search` for a query `q`, over the vectors it holds. */
  ghost predicate SoundAnswer<Vec(!new)>(index: map<int, Vec>, dot: (Vec, Vec) -> real, q: Vec, n: nat,
      hits: seq<Hit>) {
    && |hits| == n
    && (forall i :: 0 <= i < n && hits[i].id != -1 ==>
          hits[i].id in index && hits[i].similarity == dot(q, index[hits[i].id]))
    && (forall i, j :: 0 <= i < j < n && hits[i].id != -1 ==> hits[i].id != hits[j].id)
  }

  /** An exact index returns the `n` most similar vectors. */
  ghost predicate ExactAnswer<Vec(!new)>(index: map<int, Vec>, dot: (Vec, Vec) -> real, q: Vec, n: nat,
      hits: seq<Hit>) {
    && SoundAnswer(index, dot, q, n, hits)
    && (forall i :: 0 <= i < n ==> hits[i].id != -1)
    && forall id, i :: id in index && 0 <= i < n && (forall j :: 0 <= j < n ==> hits[j].id != id) ==>
         dot(q, index[id]) <= hits[i].similarity
  }

  /** The entries a linear scan of `contents` finds at or above `threshold`. */
  ghost function Matches<Vec, Value>(contents: map<string, (Vec, Value)>, dot: (Vec, Vec) -> real, q: Vec,
      threshold: real): Matching<Vec, Value> {
    map key | key in contents && dot(q, contents[key].0) >= threshold ::
      CacheEntry(key, contents[key].0, contents[key].1, 1.0 - dot(q, contents[key].0))
  }

  ghost predicate IsHit(hits: seq<Hit>, id: int) { exists i :: 0 <= i < |hits| && hits[i].id == id }

  /** Those of them whose id an index has answered with. */
  ghost function Answered<Vec, Value>(contents: map<string, (Vec, Value)>, keyToId: map<string, int>,
      dot: (Vec, Vec) -> real, q: Vec, threshold: real, hits: seq<Hit>): Matching<Vec, Value> {
    map key | key in contents && key in keyToId && IsHit(hits, keyToId[key]) && dot(q, contents[key].0) >= threshold ::
      CacheEntry(key, contents[key].0, contents[key].1, 1.0 - dot(q, contents[key].0))
  }

  function Min(a: nat, b: nat): nat { if a <= b then a else b }

  lemma {:induction false} InjectiveSize<K, V>(m: map<K, V>)
    requires forall x, y :: x in m && y in m && m[x] == m[y] ==> x == y
    ensures |m.Values| == |m|
  {
    if m.Keys == {} {
      assert m.Values == {};
    } else {
      var k :| k in m.Keys;
      var rest := m - {k};
      InjectiveSize(rest);
      assert m.Values == rest.Values + {m[k]};
      assert m[k] !in rest.Values;
    }
  }

  // ---- the linked state, as values ----

  ghost predicate LiveIn<Vec, Value>(metadata: Metadata<Vec, Value>, id: int) {
    id in metadata && metadata[id].Some?
  }

  /** Ids are handed out in order; live ids and keys correspond one to one. */
  ghost predicate LinkedMaps<Vec, Value>(metadata: Metadata<Vec, Value>, keyToId: map<string, int>, nextId: int) {
    && nextId >= 0
    && (forall id :: id in metadata <==> 0 <= id < nextId)
    && (forall key :: key in keyToId ==>
          LiveIn(metadata, keyToId[key]) && metadata[keyToId[key]].value.key == key)
    && (forall id :: LiveIn(metadata, id) ==>
          metadata[id].value.key in keyToId && keyToId[metadata[id].value.key] == id)
  }

  /** The buffer holds every id handed out, in order. */
  ghost predicate BufferHolds<Vec, Value>(metadata: Metadata<Vec, Value>, nextId: int, buffer: seq<(int, Vec)>) {
    && |buffer| == nextId
    && (forall i :: 0 <= i < |buffer| ==> buffer[i].0 == i)
    && (forall i :: 0 <= i < |buffer| && LiveIn(metadata, i) ==> buffer[i].1 == metadata[i].value.embedding)
  }

  /** The index holds exactly the live embeddings. */
  ghost predicate IndexHolds<Vec, Value>(metadata: Metadata<Vec, Value>, index: map<int, Vec>) {
    && (forall id :: id in index <==> LiveIn(metadata, id))
    && (forall id :: id in index ==> index[id] == metadata[id].value.embedding)
  }

  ghost function ContentsOf<Vec, Value>(metadata: Metadata<Vec, Value>, keyToId: map<string, int>): map<string,
      (Vec, Value)>
  {
    map key | key in keyToId && LiveIn(metadata, keyToId[key]) ::
      var stored := metadata[keyToId[key]].value; (stored.embedding, stored.value)
  }

  ghost function LiveIds<Vec, Value>(metadata: Metadata<Vec, Value>): set<int> {
    set id | id in metadata && LiveIn(metadata, id)
  }

  lemma LiveCount<Vec, Value>(metadata: Metadata<Vec, Value>, keyToId: map<string, int>, nextId: int)
    requires LinkedMaps(metadata, keyToId, nextId)
    ensures |LiveIds(metadata)| == |keyToId| && |keyToId| <= nextId
  {
    InjectiveSize(keyToId);
    forall id ensures id in LiveIds(metadata) <==> id in keyToId.Values {
      if id in LiveIds(metadata) {
        assert metadata[id].value.key in keyToId.Keys;
      }
    }
    assert LiveIds(metadata) == keyToId.Values;
    SubsetSize(LiveIds(metadata), Range(nextId));
  }

  ghost function Range(n: nat): (s: set<int>)
    ensures |s| == n && forall i :: i in s <==> 0 <= i < n
  {
    if n == 0 then {} else Range(n - 1) + {n - 1}
  }

  /** The metadata after the entry of `key`, if any, is logically deleted. */
  function Tombstoned<Vec, Value>(metadata: Metadata<Vec, Value>, keyToId: map<string, int>,
      key: string): Metadata<Vec, Value> {
    if key in keyToId then metadata[keyToId[key] := None] else metadata
  }

  lemma TombstonedLive<Vec, Value>(metadata: Metadata<Vec, Value>, keyToId: map<string, int>, nextId: int, key: string)
    requires LinkedMaps(metadata, keyToId, nextId)
    ensures var m := Tombstoned(metadata, keyToId, key);
            && m.Keys == metadata.Keys
            && forall id :: LiveIn(m, id) <==> LiveIn(metadata, id) && metadata[id].value.key != key
  {
  }

  lemma PutLinked<Vec, Value>(metadata: Metadata<Vec, Value>, keyToId: map<string, int>, nextId: int, key: string,
      value: Value, e: Vec)
    requires LinkedMaps(metadata, keyToId, nextId)
    ensures var m := Tombstoned(metadata, keyToId, key)[nextId := Some(Stored(key, value, e))];
            && LinkedMaps(m, keyToId[key := nextId], nextId + 1)
            && ContentsOf(m, keyToId[key := nextId]) == ContentsOf(metadata, keyToId)[key := (e, value)]
  {
    TombstonedLive(metadata, keyToId, nextId, key);
    var t := Tombstoned(metadata, keyToId, key);
    var m := t[nextId := Some(Stored(key, value, e))];
    var k2i := keyToId[key := nextId];
    assert forall id :: id != nextId ==> (LiveIn(m, id) <==> LiveIn(t, id));
    forall k | k in k2i ensures LiveIn(m, k2i[k]) && m[k2i[k]].value.key == k {
      if k != key {
        assert k in keyToId && LiveIn(metadata, keyToId[k]) && LiveIn(t, keyToId[k]);
      }
    }
    PutContents(metadata, keyToId, nextId, key, value, e);
  }

  /** The contents of linked maps are what each key points at. */
  lemma ContentsAre<Vec, Value>(metadata: Metadata<Vec, Value>, keyToId: map<string, int>, nextId: int)
    requires LinkedMaps(metadata, keyToId, nextId)
    ensures ContentsOf(metadata, keyToId).Keys == keyToId.Keys
    ensures forall k :: k in keyToId ==> LiveIn(metadata, keyToId[k])
    ensures forall k :: k in keyToId ==>
              var stored := metadata[keyToId[k]].value;
              ContentsOf(metadata, keyToId)[k] == (stored.embedding, stored.value)
  {
    forall k | k in keyToId ensures k in ContentsOf(metadata, keyToId) { assert LiveIn(metadata, keyToId[k]); }
  }

  lemma PutContents<Vec, Value>(metadata: Metadata<Vec, Value>, keyToId: map<string, int>, nextId: int, key: string,
      value: Value, e: Vec)
    requires LinkedMaps(metadata, keyToId, nextId)
    requires var m := Tombstoned(metadata, keyToId, key)[nextId := Some(Stored(key, value, e))];
             LinkedMaps(m, keyToId[key := nextId], nextId + 1)
    ensures var m := Tombstoned(metadata, keyToId, key)[nextId := Some(Stored(key, value, e))];
            ContentsOf(m, keyToId[key := nextId]) == ContentsOf(metadata, keyToId)[key := (e, value)]
  {
    var m, k2i := Tombstoned(metadata, keyToId, key)[nextId := Some(Stored(key, value, e))], keyToId[key := nextId];
    ContentsAre(m, k2i, nextId + 1);
    ContentsAre(metadata, keyToId, nextId);
    SameMap(ContentsOf(m, k2i), ContentsOf(metadata, keyToId)[key := (e, value)]);
  }

  lemma PutBuffer<Vec, Value>(metadata: Metadata<Vec, Value>, keyToId: map<string, int>, nextId: int, key: string,
      value: Value, e: Vec, buffer: seq<(int, Vec)>)
    requires LinkedMaps(metadata, keyToId, nextId) && BufferHolds(metadata, nextId, buffer)
    ensures var m := Tombstoned(metadata, keyToId, key)[nextId := Some(Stored(key, value, e))];
            BufferHolds(m, nextId + 1, buffer + [(nextId, e)])
  {
    var m := Tombstoned(metadata, keyToId, key)[nextId := Some(Stored(key, value, e))];
    var b := buffer + [(nextId, e)];
    forall i | 0 <= i < |b| && LiveIn(m, i) ensures b[i].1 == m[i].value.embedding {
      if i < nextId {
        assert LiveIn(metadata, i);
      }
    }
  }

  lemma MoreKeys(keyToId: map<string, int>, key: string, id: int)
    ensures |keyToId[key := id]| >= |keyToId|
  {
    SubsetSize(keyToId.Keys, keyToId.Keys + {key});
    assert keyToId[key := id].Keys == keyToId.Keys + {key};
  }

  lemma PutIndex<Vec, Value>(metadata: Metadata<Vec, Value>, keyToId: map<string, int>, nextId: int, key: string,
      value: Value, e: Vec, index: map<int, Vec>)
    requires LinkedMaps(metadata, keyToId, nextId) && IndexHolds(metadata, index)
    ensures var m := Tombstoned(metadata, keyToId, key)[nextId := Some(Stored(key, value, e))];
            var kept := if key in keyToId then index - {keyToId[key]} else index;
            IndexHolds(m, kept[nextId := e])
  {
    TombstonedLive(metadata, keyToId, nextId, key);
    var t := Tombstoned(metadata, keyToId, key);
    var m := t[nextId := Some(Stored(key, value, e))];
    assert forall id :: id != nextId ==> (LiveIn(m, id) <==> LiveIn(t, id));
  }

  /** The index holds exactly the live embeddings with ids below `n`. */
  ghost predicate IndexUpTo<Vec, Value>(metadata: Metadata<Vec, Value>, index: map<int, Vec>, n: int) {
    && (forall id :: id in index <==> LiveIn(metadata, id) && id < n)
    && (forall id :: id in index ==> index[id] == metadata[id].value.embedding)
  }

  lemma AddRow<Vec>(rows: seq<(int, Vec)>, row: (int, Vec))
    ensures AddWithIds(map[], rows + [row]) == AddWithIds(map[], rows)[row.0 := row.1]
  {
    assert (rows + [row])[..|rows|] == rows;
  }

  lemma GrowIndex<Vec, Value>(metadata: Metadata<Vec, Value>, index: map<int, Vec>, n: int, e: Vec)
    requires IndexUpTo(metadata, index, n)
    ensures !LiveIn(metadata, n) ==> IndexUpTo(metadata, index, n + 1)
    ensures LiveIn(metadata, n) && e == metadata[n].value.embedding ==>
              IndexUpTo(metadata, index[n := e], n + 1) && |index[n := e]| == |index| + 1
  {
  }

  /** The entry reported for a stored id. */
  function EntryOf<Vec, Value>(s: Stored<Vec, Value>, similarity: real): CacheEntry<Vec, Value> {
    CacheEntry(s.key, s.embedding, s.value, 1.0 - similarity)
  }

  /** The matches with ids below `i` are listed, and nothing else. */
  ghost predicate Scanned<Vec, Value>(m: Matching<Vec, Value>, keyToId: map<string, int>,
      results: Entries<Vec, Value>, i: int) {
    && m.Keys <= keyToId.Keys && Drawn(m, results)
    && (forall t :: 0 <= t < |results| ==> keyToId[results[t].key] < i)
    && forall key :: key in m && keyToId[key] < i ==> Lists(results, key)
  }

  lemma ScanTake<Vec(!new), Value>(metadata: Metadata<Vec, Value>, keyToId: map<string, int>, nextId: int,
      dot: (Vec, Vec) -> real, q: Vec, threshold: real, results: Entries<Vec, Value>, i: nat)
    requires LinkedMaps(metadata, keyToId, nextId)
    requires LiveIn(metadata, i) && dot(q, metadata[i].value.embedding) >= threshold
    requires Scanned(Matches(ContentsOf(metadata, keyToId), dot, q, threshold), keyToId, results, i)
    ensures Scanned(Matches(ContentsOf(metadata, keyToId), dot, q, threshold), keyToId,
                    results + [EntryOf(metadata[i].value, dot(q, metadata[i].value.embedding))], i + 1)
  {
    var m := Matches(ContentsOf(metadata, keyToId), dot, q, threshold);
    var more := results + [EntryOf(metadata[i].value, dot(q, metadata[i].value.embedding))];
    var last := metadata[i].value.key;
    assert last in keyToId && keyToId[last] == i && last in m && m[last] == more[|results|];
    forall key | key in m && keyToId[key] < i + 1 ensures Lists(more, key) {
      if keyToId[key] < i {
        var t :| 0 <= t < |results| && results[t].key == key;
        assert more[t].key == key;
      } else {
        assert more[|results|].key == key;
      }
    }
  }

  lemma ScanSkip<Vec(!new), Value>(metadata: Metadata<Vec, Value>, keyToId: map<string, int>, nextId: int,
      dot: (Vec, Vec) -> real, q: Vec, threshold: real, results: Entries<Vec, Value>, i: nat)
    requires LinkedMaps(metadata, keyToId, nextId)
    requires !(LiveIn(metadata, i) && dot(q, metadata[i].value.embedding) >= threshold)
    requires Scanned(Matches(ContentsOf(metadata, keyToId), dot, q, threshold), keyToId, results, i)
    ensures Scanned(Matches(ContentsOf(metadata, keyToId), dot, q, threshold), keyToId, results, i + 1)
  {
  }

  /** The hit is live and similar enough. */
  ghost predicate Passing<Vec, Value>(metadata: Metadata<Vec, Value>, threshold: real, h: Hit) {
    LiveIn(metadata, h.id) && h.similarity >= threshold
  }

  ghost predicate AllPass<Vec, Value>(metadata: Metadata<Vec, Value>, threshold: real, hits: seq<Hit>) {
    forall i :: 0 <= i < |hits| ==> Passing(metadata, threshold, hits[i])
  }

  ghost predicate FromHit<Vec, Value>(metadata: Metadata<Vec, Value>, hits: seq<Hit>, e: CacheEntry<Vec, Value>) {
    exists i :: 0 <= i < |hits| && LiveIn(metadata, hits[i].id) && e.key == metadata[hits[i].id].value.key
                && e.distance == 1.0 - hits[i].similarity
  }

  /** `results` reports the live hits at or above the threshold. */
  ghost predicate Reported<Vec, Value>(metadata: Metadata<Vec, Value>, threshold: real, hits: seq<Hit>,
      results: Entries<Vec, Value>) {
    && (forall i :: 0 <= i < |hits| && Passing(metadata, threshold, hits[i]) ==>
          Lists(results, metadata[hits[i].id].value.key))
    && (AllPass(metadata, threshold, hits) ==> |results| == |hits|)
    && (forall t :: 0 <= t < |results| ==> FromHit(metadata, hits, results[t]))
  }

  /** `results[t]` is the entry of the hit at `src[t]`, in the order of the hits. */
  ghost predicate Sourced<Vec, Value>(metadata: Metadata<Vec, Value>, index: map<int, Vec>, threshold: real,
      hits: seq<Hit>, src: seq<nat>, results: Entries<Vec, Value>) {
    && |src| == |results|
    && (forall t, u :: 0 <= t < u < |src| ==> src[t] < src[u])
    && (forall t :: 0 <= t < |src| ==> src[t] < |hits|)
    && (forall t :: 0 <= t < |src| ==> Passing(metadata, threshold, hits[src[t]]))
    && (forall t :: 0 <= t < |src| ==> results[t] == EntryOf(metadata[hits[src[t]].id].value, hits[src[t]].similarity))
  }

  lemma SourcedDrawn<Vec(!new), Value>(metadata: Metadata<Vec, Value>, keyToId: map<string, int>, nextId: int,
      index: map<int, Vec>, dot: (Vec, Vec) -> real, q: Vec, threshold: real, n: nat, hits: seq<Hit>, src: seq<nat>,
      results: Entries<Vec, Value>)
    requires LinkedMaps(metadata, keyToId, nextId) && IndexHolds(metadata, index)
    requires SoundAnswer(index, dot, q, n, hits) && Sourced(metadata, index, threshold, hits, src, results)
    ensures Drawn(Matches(ContentsOf(metadata, keyToId), dot, q, threshold), results)
  {
    var m := Matches(ContentsOf(metadata, keyToId), dot, q, threshold);
    forall t | 0 <= t < |results| ensures results[t].key in m && m[results[t].key] == results[t] {
      var id := hits[src[t]].id;
      assert LiveIn(metadata, id) && id != -1;
    }
    forall t, u | 0 <= t < u < |results| ensures results[t].key != results[u].key {
      var a, b := hits[src[t]].id, hits[src[u]].id;
      assert LiveIn(metadata, a) && LiveIn(metadata, b) && a != -1 && a != b;
    }
  }

  lemma SourcedReported<Vec, Value>(metadata: Metadata<Vec, Value>, index: map<int, Vec>, threshold: real,
      hits: seq<Hit>, src: seq<nat>, results: Entries<Vec, Value>)
    requires Sourced(metadata, index, threshold, hits, src, results)
    requires forall j: nat :: j < |hits| && Passing(metadata, threshold, hits[j]) ==> j in src
    requires AllPass(metadata, threshold, hits) ==> |src| == |hits|
    ensures Reported(metadata, threshold, hits, results)
  {
    forall i | 0 <= i < |hits| && Passing(metadata, threshold, hits[i])
      ensures Lists(results, metadata[hits[i].id].value.key)
    {
      assert i in src;
      var t :| 0 <= t < |src| && src[t] == i;
      assert results[t].key == metadata[hits[i].id].value.key;
    }
    forall t | 0 <= t < |results| ensures FromHit(metadata, hits, results[t]) {
      assert results[t].distance == 1.0 - hits[src[t]].similarity;
    }
  }

  /** What is reported of an index's hits is all that it has answered with. */
  lemma HitsComplete<Vec(!new), Value>(metadata: Metadata<Vec, Value>, keyToId: map<string, int>, nextId: int,
      index: map<int, Vec>, dot: (Vec, Vec) -> real, q: Vec, threshold: real, n: nat, hits: seq<Hit>,
      results: Entries<Vec, Value>)
    requires LinkedMaps(metadata, keyToId, nextId) && IndexHolds(metadata, index)
    requires SoundAnswer(index, dot, q, n, hits) && Reported(metadata, threshold, hits, results)
    requires Drawn(Matches(ContentsOf(metadata, keyToId), dot, q, threshold), results)
    ensures var m := Answered(ContentsOf(metadata, keyToId), keyToId, dot, q, threshold, hits);
            Drawn(m, results) && forall key :: key in m ==> Lists(results, key)
  {
    var contents := ContentsOf(metadata, keyToId);
    var m := Answered(contents, keyToId, dot, q, threshold, hits);
    forall t | 0 <= t < |results| ensures results[t].key in m && m[results[t].key] == results[t] {
      assert FromHit(metadata, hits, results[t]);
      var i :| 0 <= i < |hits| && LiveIn(metadata, hits[i].id) && results[t].key == metadata[hits[i].id].value.key;
      assert IsHit(hits, keyToId[results[t].key]);
    }
    forall key | key in m ensures Lists(results, key) {
      var i :| 0 <= i < |hits| && hits[i].id == keyToId[key];
      HitPasses(metadata, index, dot, q, threshold, n, hits, i);
    }
  }

  lemma HitPasses<Vec(!new), Value>(metadata: Metadata<Vec, Value>, index: map<int, Vec>, dot: (Vec, Vec) -> real,
      q: Vec, threshold: real, n: nat, hits: seq<Hit>, i: nat)
    requires IndexHolds(metadata, index) && SoundAnswer(index, dot, q, n, hits)
    requires i < |hits| && hits[i].id != -1 && LiveIn(metadata, hits[i].id)
    requires dot(q, metadata[hits[i].id].value.embedding) >= threshold
    ensures Passing(metadata, threshold, hits[i])
  {
  }

  lemma EmptyIndexNoMatch<Vec(!new), Value>(metadata: Metadata<Vec, Value>, keyToId: map<string, int>, nextId: int,
      index: map<int, Vec>, dot: (Vec, Vec) -> real, q: Vec, threshold: real)
    requires LinkedMaps(metadata, keyToId, nextId) && IndexHolds(metadata, index) && |index| == 0
    ensures Matches(ContentsOf(metadata, keyToId), dot, q, threshold) == map[]
  {
    assert forall key :: key in keyToId ==> keyToId[key] in index.Keys;
  }

  lemma MissedIsFar<Vec(!new), Value>(metadata: Metadata<Vec, Value>, index: map<int, Vec>, dot: (Vec, Vec) -> real,
      q: Vec, threshold: real, k: nat, hits: seq<Hit>, results: Entries<Vec, Value>, id: int)
    requires LiveIn(metadata, id) && id in index && !Lists(results, metadata[id].value.key)
    requires dot(q, index[id]) >= threshold && IndexHolds(metadata, index)
    requires ExactAnswer(index, dot, q, Min(k, |index|), hits) && Reported(metadata, threshold, hits, results)
    ensures |results| >= k && forall t :: 0 <= t < |results| ==> results[t].distance <= 1.0 - dot(q, index[id])
  {
    assert forall j :: 0 <= j < |hits| ==> hits[j].id != id;
    assert forall j :: 0 <= j < |hits| ==> LiveIn(metadata, hits[j].id) && hits[j].similarity >= dot(q, index[id]);
    MissedMeansFull(index, hits, id);
  }

  lemma HitsCover<Vec(!new), Value>(metadata: Metadata<Vec, Value>, keyToId: map<string, int>, nextId: int,
      index: map<int, Vec>, dot: (Vec, Vec) -> real, q: Vec, threshold: real, k: nat, hits: seq<Hit>,
      results: Entries<Vec, Value>)
    requires LinkedMaps(metadata, keyToId, nextId) && IndexHolds(metadata, index)
    requires ExactAnswer(index, dot, q, Min(k, |index|), hits)
    requires Reported(metadata, threshold, hits, results)
    ensures Covers(Matches(ContentsOf(metadata, keyToId), dot, q, threshold), k, results)
  {
    var m := Matches(ContentsOf(metadata, keyToId), dot, q, threshold);
    forall key | key in m && !Lists(results, key)
      ensures |results| >= k && forall t :: 0 <= t < |results| ==> results[t].distance <= m[key].distance
    {
      MissedIsFar(metadata, index, dot, q, threshold, k, hits, results, keyToId[key]);
    }
  }

  lemma MissedMeansFull<Vec>(index: map<int, Vec>, hits: seq<Hit>, id: int)
    requires forall i :: 0 <= i < |hits| ==> hits[i].id in index && hits[i].id != id
    requires forall i, j :: 0 <= i < j < |hits| ==> hits[i].id != hits[j].id
    requires id in index
    ensures |hits| < |index|
  {
    HitIds(hits);
    var s := set i | 0 <= i < |hits| :: hits[i].id;
    SubsetSize(s + {id}, index.Keys);
  }

  function AddWithIds<Vec>(index: map<int, Vec>, rows: seq<(int, Vec)>): map<int, Vec> {
    if rows == [] then index else AddWithIds(index, rows[..|rows| - 1])[rows[|rows| - 1].0 := rows[|rows| - 1].1]
  }

  lemma {:induction false} HitIds(hits: seq<Hit>)
    requires forall i, j :: 0 <= i < j < |hits| ==> hits[i].id != hits[j].id
    ensures |(set i | 0 <= i < |hits| :: hits[i].id)| == |hits|
  {
    var s := set i | 0 <= i < |hits| :: hits[i].id;
    if hits == [] {
      assert s == {};
    } else {
      var init := hits[..|hits| - 1];
      var s' := set i | 0 <= i < |init| :: init[i].id;
      HitIds(init);
      assert s == s' + {hits[|hits| - 1].id};
      assert hits[|hits| - 1].id !in s';
    }
  }

  /** What an index promises for its `min(k, ntotal)` best: all exactly when it is Flat. */
  ghost predicate Answers<Vec(!new)>(index: map<int, Vec>, dot: (Vec, Vec) -> real, q: Vec, k: nat, flat: bool,
      hits: seq<Hit>) {
    var n := Min(k, |index|);
    if flat then ExactAnswer(index, dot, q, n, hits) else SoundAnswer(index, dot, q, n, hits)
  }

  /** With no id handed out there is nothing to find. */
  lemma NothingLive<Vec, Value>(metadata: Metadata<Vec, Value>, keyToId: map<string, int>, nextId: int,
      index: map<int, Vec>)
    requires LinkedMaps(metadata, keyToId, nextId) && nextId == 0
    ensures ContentsOf(metadata, keyToId) == map[]
    ensures IndexHolds(metadata, index) ==> index == map[]
  {
    if IndexHolds(metadata, index) {
      forall id ensures id !in index { assert id in index ==> id in metadata; }
    }
  }

  class FaissCache<Vec(!new, ==), Value(!new)> {
    const indexType: IndexType
    const nlist: nat
    const dimension: nat
    const dim: Vec -> nat
    const unit: Vec -> Vec        // division by the norm; the zero vector is left alone
    const dot: (Vec, Vec) -> real

    var metadata: Metadata<Vec, Value>
    var keyToId: map<string, int>
    var nextId: int
    var trainingBuffer: seq<(int, Vec)>
    var trained: bool
    var index: map<int, Vec>

    ghost predicate Linked()
      reads this
    {
      LinkedMaps(metadata, keyToId, nextId)
    }

    ghost predicate Valid()
      reads this
    {
      && nlist > 0
      && Linked()
      && (if trained then trainingBuffer == [] && IndexHolds(metadata, index)
          else index == map[] && BufferHolds(metadata, nextId, trainingBuffer))
      && trained == (indexType.Flat? || |keyToId| >= nlist)
    }

    /** The key map a linear scan would consult: the last embedding and value set per key. */
    ghost function Contents(): map<string, (Vec, Value)>
      reads this
    {
      ContentsOf(metadata, keyToId)
    }

    /** An IVF index is trained exactly when the cache holds at least `nlist` keys; a trained
        index holds the live embeddings, one per key, and nothing waits in the buffer. */
    lemma TrainedExactlyAtNlist()
      requires Valid()
      ensures trained <==> indexType.Flat? || |Contents()| >= nlist
      ensures trained ==> trainingBuffer == [] && |index| == |Contents()|
      ensures trained ==> forall key :: key in Contents() ==>
                keyToId[key] in index && index[keyToId[key]] == Contents()[key].0
      ensures !trained ==> index == map[]
    {
      assert Contents().Keys == keyToId.Keys;
      LiveCount(metadata, keyToId, nextId);
      if trained {
        assert forall id :: id in index.Keys <==> id in LiveIds(metadata);
        assert index.Keys == LiveIds(metadata);
      }
    }

    constructor (indexType: IndexType, nlist: nat, dimension: nat, dim: Vec -> nat, unit: Vec -> Vec,
        dot: (Vec, Vec) -> real)
      requires nlist > 0
      ensures Valid() && Contents() == map[]
      ensures this.indexType == indexType && this.nlist == nlist && this.dimension == dimension
      ensures this.dim == dim && this.unit == unit && this.dot == dot
    {
      this.indexType := indexType;
      this.nlist := nlist;
      this.dimension := dimension;
      this.dim := dim;
      this.unit := unit;
      this.dot := dot;
      metadata := map[];
      keyToId := map[];
      nextId := 0;
      trainingBuffer := [];
      trained := indexType.Flat?;
      index := map[];
    }

    /** The buffered rows whose ids are still live: the active training set. */
    method ActiveRows() returns (rows: seq<(int, Vec)>)
      requires Linked() && BufferHolds(metadata, nextId, trainingBuffer)
      ensures |rows| == |keyToId|
      ensures IndexHolds(metadata, AddWithIds(map[], rows))
    {
      rows := [];
      ghost var added: map<int, Vec> := map[];
      for i := 0 to |trainingBuffer|
        invariant added == AddWithIds(map[], rows) && |added| == |rows|
        invariant IndexUpTo(metadata, added, i)
      {
        var row := trainingBuffer[i];
        GrowIndex(metadata, added, i, row.1);
        if row.0 in metadata && metadata[row.0].Some? {
          AddRow(rows, row);
          rows := rows + [row];
          added := added[i := row.1];
        }
      }
      LiveCount(metadata, keyToId, nextId);
      assert forall id :: id in added <==> id in LiveIds(metadata);
      assert added.Keys == LiveIds(metadata);
    }

    /** Moves the active rows into the index once there are enough of them to train on. */
    method EnsureTrained()
      requires nlist > 0 && Linked() && indexType.IVFFlat? && !trained
      requires index == map[] && BufferHolds(metadata, nextId, trainingBuffer)
      modifies this
      ensures metadata == old(metadata) && keyToId == old(keyToId) && nextId == old(nextId)
      ensures Valid()
    {
      LiveCount(metadata, keyToId, nextId);
      if |trainingBuffer| >= nlist {
        var rows := ActiveRows();
        if |rows| >= nlist {
          index := AddWithIds(map[], rows);
          trained := true;
          trainingBuffer := [];
        }
      }
    }

    /** Records the new entry under a fresh id, after dropping the entry it replaces. */
    method Record(key: string, e: Vec, value: Value)
      modifies `metadata, `keyToId, `nextId, `index
      ensures metadata == Tombstoned(old(metadata), old(keyToId), key)[old(nextId) := Some(Stored(key, value, e))]
      ensures keyToId == old(keyToId)[key := old(nextId)] && nextId == old(nextId) + 1
      ensures index == if trained && key in old(keyToId) then old(index) - {old(keyToId)[key]} else old(index)
    {
      if key in keyToId {
        var oldId := keyToId[key];
        metadata := metadata[oldId := None];
        if trained {
          index := index - {oldId};
        }
      }
      metadata := metadata[nextId := Some(Stored(key, value, e))];
      keyToId := keyToId[key := nextId];
      nextId := nextId + 1;
    }

    method Set(key: string, embedding: Vec, value: Value) returns (r: Outcome<()>)
      requires Valid()
      modifies this
      ensures Valid()
      ensures r.DimensionMismatch? <==> dim(embedding) != dimension
      ensures !r.IndexRejects? && (r.DimensionMismatch? ==> unchanged(this))
      ensures r.Done? ==> Contents() == old(Contents())[key := (unit(embedding), value)]
    {
      if dim(embedding) != dimension {
        return DimensionMismatch;
      }
      if indexType.IVFFlat? && !trained {
        AddForTraining(key, unit(embedding), value);
      } else {
        AddTrained(key, unit(embedding), value);
      }
      r := Done(());
    }

    /** The new entry waits in the training buffer, unless it is the one that completes it. */
    method AddForTraining(key: string, e: Vec, value: Value)
      requires Valid() && indexType.IVFFlat? && !trained
      modifies this
      ensures Valid() && Contents() == old(Contents())[key := (e, value)]
    {
      PutLinked(metadata, keyToId, nextId, key, value, e);
      PutBuffer(metadata, keyToId, nextId, key, value, e, trainingBuffer);
      Record(key, e, value);
      trainingBuffer := trainingBuffer + [(nextId - 1, e)];
      EnsureTrained();
    }

    method AddTrained(key: string, e: Vec, value: Value)
      requires Valid() && trained
      modifies this
      ensures Valid() && Contents() == old(Contents())[key := (e, value)]
    {
      PutLinked(metadata, keyToId, nextId, key, value, e);
      PutIndex(metadata, keyToId, nextId, key, value, e, index);
      MoreKeys(keyToId, key, nextId);
      Record(key, e, value);
      assert Linked() && |keyToId| >= |old(keyToId)|;
      AddToIndex(nextId - 1, e);
    }

    /** `add_with_ids` of one vector to a trained index. */
    method AddToIndex(id: int, e: Vec)
      requires nlist > 0 && Linked() && trained && trainingBuffer == [] && IndexHolds(metadata, index[id := e])
      requires indexType.Flat? || |keyToId| >= nlist
      modifies `index
      ensures Valid() && Contents() == old(Contents())
    {
      index := index[id := e];
    }

    /** Answers a query; `hits` is what the index returns for it, under the index's contract. An
        index does not answer for a `k` below one; without an index to ask, Python's slice does. */
    method Search(query: Vec, k: int, threshold: real, hits: seq<Hit>)
      returns (r: Outcome<Entries<Vec, Value>>)
      requires Valid()
      requires trained && k >= 1 ==> Answers(index, dot, unit(query), k, indexType.Flat?, hits)
      ensures r.DimensionMismatch? <==> dim(query) != dimension
      ensures r.IndexRejects? <==> dim(query) == dimension && trained && |index| > 0 && k < 1
      ensures r.Done? ==> var m := Matches(Contents(), dot, unit(query), threshold);
                          Drawn(m, r.value) && SortedBy(r.value, Nearer) && (k >= 1 ==> |r.value| <= k)
      ensures r.Done? && k >= 1 && (indexType.Flat? || !trained) ==>
                IsTopK(Matches(Contents(), dot, unit(query), threshold), k, r.value)
      ensures r.Done? && k < 1 ==>
                exists all :: RanksAll(Matches(Contents(), dot, unit(query), threshold), all) && r.value == UpTo(all, k)
      ensures r.Done? && k >= 1 && trained ==>
                IsTopK(Answered(Contents(), keyToId, dot, unit(query), threshold, hits), k, r.value)
    {
      if dim(query) != dimension {
        return DimensionMismatch;
      }
      ghost var m := Matches(Contents(), dot, unit(query), threshold);
      if nextId == 0 {
        NothingLive(metadata, keyToId, nextId, index);
        assert RanksAll(m, []) && UpTo<CacheEntry<Vec, Value>>([], k) == [];
        return Done([]);
      }
      if trained && |index| > 0 && k < 1 {
        return IndexRejects;
      }
      var results := Candidates(unit(query), k, threshold, hits);
      if k >= 1 {
        RankedDrawn(m, k, results);
        if trained {
          SortedTakeIsTopK(Answered(Contents(), keyToId, dot, unit(query), threshold, hits), k, results);
        }
        if indexType.Flat? || !trained {
          SortedTakeIsTopK(m, k, results);
        }
      } else {
        RankedAll(m, results, k);
      }
      r := Done(UpTo(SortBy(results, Nearer), k));
    }

    /** The matches in the training buffer and among the index's hits, not sorted yet. */
    method Candidates(q: Vec, k: int, threshold: real, hits: seq<Hit>) returns (results: Entries<Vec, Value>)
      requires Valid() && (trained && |index| > 0 ==> k >= 1)
      requires trained && k >= 1 ==> Answers(index, dot, q, k, indexType.Flat?, hits)
      ensures Drawn(Matches(Contents(), dot, q, threshold), results)
      ensures k >= 1 && (indexType.Flat? || !trained) ==> Covers(Matches(Contents(), dot, q, threshold), k, results)
      ensures !trained || |index| == 0 ==>
                forall key :: key in Matches(Contents(), dot, q, threshold) ==> Lists(results, key)
      ensures k >= 1 && trained ==>
                var m := Answered(Contents(), keyToId, dot, q, threshold, hits);
                Drawn(m, results) && forall key :: key in m ==> Lists(results, key)
    {
      results := ScanBuffer(q, threshold);
      if trained && |index| > 0 {
        assert results == [];
        var found := ScanHits(q, threshold, Min(k, |index|), hits);
        results := results + found;
        assert results == found;
        HitsComplete(metadata, keyToId, nextId, index, dot, q, threshold, Min(k, |index|), hits, results);
        if indexType.Flat? {
          HitsCover(metadata, keyToId, nextId, index, dot, q, threshold, k, hits, results);
        }
      } else if trained {
        EmptyIndexNoMatch(metadata, keyToId, nextId, index, dot, q, threshold);
      }
    }

    method ScanBuffer(q: Vec, threshold: real) returns (results: Entries<Vec, Value>)
      requires Valid()
      ensures Drawn(Matches(Contents(), dot, q, threshold), results)
      ensures !trained ==> forall key :: key in Matches(Contents(), dot, q, threshold) ==> Lists(results, key)
      ensures trained ==> results == []
    {
      results := [];
      ghost var m := Matches(Contents(), dot, q, threshold);
      for i := 0 to |trainingBuffer|
        invariant Scanned(m, keyToId, results, i)
        invariant trainingBuffer == [] ==> results == []
      {
        var row := trainingBuffer[i];
        var similarity := dot(q, row.1);
        if similarity >= threshold && row.0 in metadata && metadata[row.0].Some? {
          ScanTake(metadata, keyToId, nextId, dot, q, threshold, results, i);
          results := results + [EntryOf(metadata[row.0].value, similarity)];
        } else {
          ScanSkip(metadata, keyToId, nextId, dot, q, threshold, results, i);
        }
      }
    }

    method ScanHits(q: Vec, threshold: real, n: nat, hits: seq<Hit>) returns (results: Entries<Vec, Value>)
      requires Valid() && trained && SoundAnswer(index, dot, q, n, hits)
      ensures Drawn(Matches(Contents(), dot, q, threshold), results)
      ensures Reported(metadata, threshold, hits, results)
    {
      results := [];
      ghost var src: seq<nat> := [];
      for i := 0 to |hits|
        invariant |src| <= i && (forall t :: 0 <= t < |src| ==> src[t] < i)
        invariant Sourced(metadata, index, threshold, hits, src, results)
        invariant forall j: nat :: j < i && Passing(metadata, threshold, hits[j]) ==> j in src
        invariant |src| < i ==> !AllPass(metadata, threshold, hits)
      {
        var hit := hits[i];
        assert Passing(metadata, threshold, hits[i]) <==>
                 hit.similarity >= threshold && hit.id in metadata && metadata[hit.id].Some?;
        if hit.similarity >= threshold && hit.id in metadata && metadata[hit.id].Some? {
          results := results + [EntryOf(metadata[hit.id].value, hit.similarity)];
          src := src + [i];
        }
      }
      SourcedDrawn(metadata, keyToId, nextId, index, dot, q, threshold, n, hits, src, results);
      SourcedReported(metadata, index, threshold, hits, src, results);
    }

    method Clear()
      requires Valid()
      modifies this
      ensures Valid() && Contents() == map[]
    {
      metadata := map[];
      keyToId := map[];
      nextId := 0;
      trainingBuffer := [];
      index := map[];
      if indexType.IVFFlat? {
        trained := false;
      }
    }

    method Size() returns (n: nat)
      requires Valid()
      ensures n == |Contents()|
    {
      assert Contents().Keys == keyToId.Keys;
      n := |keyToId|;
    }
  }
}

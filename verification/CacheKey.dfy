/** Canonical cache keys: `normalize_input`, `hash_stable` and `compute_key`. */
module CacheKey {
  import opened PyText
  import opened Sorting
  import opened JsonText

  /** List items are compared by the text `json.dumps` prints for them. */
  predicate TextLe(a: Json, b: Json) { Le(Dumps(a), Dumps(b)) }

  function Normalize(j: Json): Json {
    match j
    case Arr(items) => Arr(SortBy(NormalizeItems(items), TextLe))
    case Obj(fields) => Obj(SortBy(NormalizeFields(fields), NameLe))
    case _ => j
  }

  function NormalizeItems(items: seq<Json>): (r: seq<Json>)
    ensures |r| == |items|
    ensures forall i :: 0 <= i < |items| ==> r[i] == Normalize(items[i])
  {
    if items == [] then [] else [Normalize(items[0])] + NormalizeItems(items[1..])
  }

  function NormalizeFields(fields: seq<Field>): (r: seq<Field>)
    ensures |r| == |fields|
    ensures forall i :: 0 <= i < |fields| ==>
              r[i] == Field(fields[i].name, Normalize(fields[i].value))
  {
    if fields == [] then []
    else [Field(fields[0].name, Normalize(fields[0].value))] + NormalizeFields(fields[1..])
  }

  /** The hash is SHA-256 of the ASCII text; the digest is a parameter. */
  function HashStable<Digest>(sha: string -> Digest, data: Json): Digest { sha(Dumps(data)) }

  datatype Components = Components(template: string, tools: Json, schema: Json, caps: Json)

  function Composite(c: Components): Json {
    Obj([Field("template", Str(c.template)),
         Field("tools", Normalize(c.tools)),
         Field("schema", Normalize(c.schema)),
         Field("capabilities", Normalize(c.caps))])
  }

  function ComputeKey<Digest>(sha: string -> Digest, c: Components): Digest {
    HashStable(sha, Composite(c))
  }

  // ---- the equivalence the keys are meant to capture ----

  /** Equal up to reordering lists and dictionary entries at every depth. */
  ghost predicate Equivalent(x: Json, y: Json)
    decreases x
  {
    match (x, y)
    case (Arr(xs), Arr(ys)) =>
      && |xs| == |ys|
      && exists p: seq<nat> :: IsPermutation(p, |xs|)
           && forall i :: 0 <= i < |xs| ==> Equivalent(xs[i], ys[p[i]])
    case (Obj(fs), Obj(gs)) =>
      && |fs| == |gs|
      && exists p: seq<nat> :: IsPermutation(p, |fs|)
           && forall i :: 0 <= i < |fs| ==>
                fs[i].name == gs[p[i]].name && Equivalent(fs[i].value, gs[p[i]].value)
    case _ => x == y
  }

  // ---- normal forms ----

  lemma TextOrder()
    ensures TotalPreorder(TextLe)
  {
    forall a, b ensures TextLe(a, b) || TextLe(b, a) { LeTotal(Dumps(a), Dumps(b)); }
    forall a, b, c | TextLe(a, b) && TextLe(b, c) ensures TextLe(a, c) {
      LeTransitive(Dumps(a), Dumps(b), Dumps(c));
    }
  }

  lemma NameOrder()
    ensures TotalPreorder(NameLe)
  {
    forall a, b ensures NameLe(a, b) || NameLe(b, a) { LeTotal(a.name, b.name); }
    forall a, b, c | NameLe(a, b) && NameLe(b, c) ensures NameLe(a, c) {
      LeTransitive(a.name, b.name, c.name);
    }
  }

  /** Lists ordered by text and dictionaries by key, at every depth. */
  ghost predicate IsNormal(j: Json) {
    match j
    case Arr(items) =>
      && SortedBy(items, TextLe)
      && forall i :: 0 <= i < |items| ==> IsNormal(items[i])
    case Obj(fields) =>
      && SortedBy(fields, NameLe)
      && forall i :: 0 <= i < |fields| ==> IsNormal(fields[i].value)
    case _ => true
  }

  lemma SortedItemsNormal(ns: seq<Json>)
    requires forall x :: x in ns ==> IsNormal(x)
    ensures IsNormal(Arr(SortBy(ns, TextLe)))
  {
    TextOrder();
    SortByIsSorted(ns, TextLe);
    forall x ensures x in SortBy(ns, TextLe) <==> x in ns { SameElements(SortBy(ns, TextLe), ns, x); }
  }

  lemma SortedFieldsNormal(ns: seq<Field>)
    requires forall f :: f in ns ==> IsNormal(f.value)
    ensures IsNormal(Obj(SortBy(ns, NameLe)))
  {
    NameOrder();
    SortByIsSorted(ns, NameLe);
    forall f ensures f in SortBy(ns, NameLe) <==> f in ns { SameElements(SortBy(ns, NameLe), ns, f); }
  }

  lemma {:induction false} NormalizeIsNormal(j: Json)
    ensures IsNormal(Normalize(j))
    decreases j
  {
    match j
    case Arr(items) =>
      forall x | x in NormalizeItems(items) ensures IsNormal(x) {
        var k :| 0 <= k < |items| && NormalizeItems(items)[k] == x;
        NormalizeIsNormal(items[k]);
      }
      SortedItemsNormal(NormalizeItems(items));
    case Obj(fields) =>
      forall f | f in NormalizeFields(fields) ensures IsNormal(f.value) {
        var k :| 0 <= k < |fields| && NormalizeFields(fields)[k] == f;
        NormalizeIsNormal(fields[k].value);
      }
      SortedFieldsNormal(NormalizeFields(fields));
    case _ =>
  }

  /** In normal form, the JSON texts of a list's items ascend, and so do the keys of a dictionary. */
  lemma NormalAscends(j: Json, i: nat, k: nat)
    requires IsNormal(j) && i < k
    ensures j.Arr? && k < |j.items| ==> Le(Dumps(j.items[i]), Dumps(j.items[k]))
    ensures j.Obj? && k < |j.fields| ==> Le(j.fields[i].name, j.fields[k].name)
  {
  }

  lemma {:induction false} NormalizeOfNormal(j: Json)
    requires IsNormal(j)
    ensures Normalize(j) == j
    decreases j
  {
    match j
    case Arr(items) =>
      forall i | 0 <= i < |items| ensures Normalize(items[i]) == items[i] {
        NormalizeOfNormal(items[i]);
      }
      assert NormalizeItems(items) == items;
      SortOfSorted(items, TextLe);
    case Obj(fields) =>
      forall i | 0 <= i < |fields| ensures Normalize(fields[i].value) == fields[i].value {
        NormalizeOfNormal(fields[i].value);
      }
      assert NormalizeFields(fields) == fields;
      SortOfSorted(fields, NameLe);
    case _ =>
  }

  /** Normalising twice is normalising once. */
  lemma NormalizeIdempotent(j: Json)
    ensures Normalize(Normalize(j)) == Normalize(j)
  {
    NormalizeIsNormal(j);
    NormalizeOfNormal(Normalize(j));
  }

  lemma {:induction false} NormalIsKeySorted(j: Json)
    requires IsNormal(j)
    ensures KeySorted(j)
    decreases j
  {
    match j
    case Arr(items) =>
      forall i | 0 <= i < |items| ensures KeySorted(items[i]) { NormalIsKeySorted(items[i]); }
    case Obj(fields) =>
      forall i | 0 <= i < |fields| ensures KeySorted(fields[i].value) {
        NormalIsKeySorted(fields[i].value);
      }
    case _ =>
  }

  /** Among normal forms the sort key decides: no ties, so the order is unique. */
  lemma NormalTextInjective(x: Json, y: Json)
    requires IsNormal(x) && IsNormal(y)
    requires TextLe(x, y) && TextLe(y, x)
    ensures x == y
  {
    LeAntisymmetric(Dumps(x), Dumps(y));
    NormalIsKeySorted(x);
    NormalIsKeySorted(y);
    DumpsInjective(x, y);
  }

  lemma NormalItemsNoTies(items: seq<Json>)
    ensures NoTies(NormalizeItems(items), TextLe)
  {
    var ns := NormalizeItems(items);
    forall x, y | x in ns && y in ns && TextLe(x, y) && TextLe(y, x) ensures x == y {
      var i :| 0 <= i < |ns| && ns[i] == x;
      var k :| 0 <= k < |ns| && ns[k] == y;
      NormalizeIsNormal(items[i]);
      NormalizeIsNormal(items[k]);
      NormalTextInjective(x, y);
    }
  }

  lemma SameNameSameIndex(fields: seq<Field>, i: nat, k: nat)
    requires DistinctNames(fields) && i < |fields| && k < |fields|
    requires fields[i].name == fields[k].name
    ensures i == k
  {
  }

  /** Entries with the names of a dictionary are told apart by name. */
  lemma NamedNoTies(ns: seq<Field>, fields: seq<Field>)
    requires DistinctNames(fields) && |ns| == |fields|
    requires forall i :: 0 <= i < |ns| ==> ns[i].name == fields[i].name
    ensures NoTies(ns, NameLe)
  {
    forall x, y | x in ns && y in ns && NameLe(x, y) && NameLe(y, x) ensures x == y {
      LeAntisymmetric(x.name, y.name);
      var i :| 0 <= i < |ns| && ns[i] == x;
      var k :| 0 <= k < |ns| && ns[k] == y;
      SameNameSameIndex(fields, i, k);
    }
  }

  // ---- canonical form theorem ----

  lemma SameItems(xs: seq<Json>, ys: seq<Json>, p: seq<nat>)
    requires |xs| == |ys| && IsPermutation(p, |xs|)
    requires forall i :: 0 <= i < |xs| ==> Normalize(xs[i]) == Normalize(ys[p[i]])
    ensures SortBy(NormalizeItems(xs), TextLe) == SortBy(NormalizeItems(ys), TextLe)
  {
    PermutedMultiset(NormalizeItems(xs), NormalizeItems(ys), p);
    TextOrder();
    NormalItemsNoTies(xs);
    SortAgrees(NormalizeItems(xs), NormalizeItems(ys), TextLe);
  }

  /** Permuted entries with the names of a dictionary sort alike. */
  lemma SameSorted(ns: seq<Field>, ms: seq<Field>, p: seq<nat>, fs: seq<Field>)
    requires |ns| == |ms| == |fs| && IsPermutation(p, |ns|) && DistinctNames(fs)
    requires forall i :: 0 <= i < |ns| ==> ns[i].name == fs[i].name && ns[i] == ms[p[i]]
    ensures SortBy(ns, NameLe) == SortBy(ms, NameLe)
  {
    PermutedMultiset(ns, ms, p);
    NameOrder();
    NamedNoTies(ns, fs);
    SortAgrees(ns, ms, NameLe);
  }

  lemma SameFields(fs: seq<Field>, gs: seq<Field>, p: seq<nat>)
    requires |fs| == |gs| && IsPermutation(p, |fs|) && DistinctNames(fs)
    requires forall i :: 0 <= i < |fs| ==>
               fs[i].name == gs[p[i]].name && Normalize(fs[i].value) == Normalize(gs[p[i]].value)
    ensures SortBy(NormalizeFields(fs), NameLe) == SortBy(NormalizeFields(gs), NameLe)
  {
    SameSorted(NormalizeFields(fs), NormalizeFields(gs), p, fs);
  }

  lemma {:induction false} EquivalentSameNormal(x: Json, y: Json)
    requires WellFormed(x) && Equivalent(x, y)
    ensures Normalize(x) == Normalize(y)
    decreases x
  {
    match (x, y)
    case (Arr(xs), Arr(ys)) =>
      var p: seq<nat> :| IsPermutation(p, |xs|)
                         && forall i :: 0 <= i < |xs| ==> Equivalent(xs[i], ys[p[i]]);
      forall i | 0 <= i < |xs| ensures Normalize(xs[i]) == Normalize(ys[p[i]]) {
        EquivalentSameNormal(xs[i], ys[p[i]]);
      }
      SameItems(xs, ys, p);
    case (Obj(fs), Obj(gs)) =>
      var p: seq<nat> :| IsPermutation(p, |fs|)
                         && forall i :: 0 <= i < |fs| ==>
                              fs[i].name == gs[p[i]].name && Equivalent(fs[i].value, gs[p[i]].value);
      forall i | 0 <= i < |fs| ensures Normalize(fs[i].value) == Normalize(gs[p[i]].value) {
        EquivalentSameNormal(fs[i].value, gs[p[i]].value);
      }
      SameFields(fs, gs, p);
    case _ =>
  }

  lemma SortedAlike<T(!new)>(xs: seq<T>, ys: seq<T>, le: (T, T) -> bool) returns (p: seq<nat>)
    requires SortBy(xs, le) == SortBy(ys, le)
    ensures |xs| == |ys| && IsPermutation(p, |xs|) && forall i :: 0 <= i < |xs| ==> xs[i] == ys[p[i]]
  {
    p := MultisetPermutation(xs, ys);
  }

  lemma {:induction false} SameNormalEquivalent(x: Json, y: Json)
    requires Normalize(x) == Normalize(y)
    ensures Equivalent(x, y)
    decreases x
  {
    match (x, y)
    case (Arr(xs), Arr(ys)) =>
      var ns, ms := NormalizeItems(xs), NormalizeItems(ys);
      var p := SortedAlike(ns, ms, TextLe);
      forall i | 0 <= i < |xs| ensures Equivalent(xs[i], ys[p[i]]) {
        SameNormalEquivalent(xs[i], ys[p[i]]);
      }
    case (Obj(fs), Obj(gs)) =>
      var ns, ms := NormalizeFields(fs), NormalizeFields(gs);
      var p := SortedAlike(ns, ms, NameLe);
      forall i | 0 <= i < |fs|
        ensures fs[i].name == gs[p[i]].name && Equivalent(fs[i].value, gs[p[i]].value)
      {
        SameNormalEquivalent(fs[i].value, gs[p[i]].value);
      }
    case _ =>
  }

  /** Normal forms coincide exactly for inputs that differ only in ordering. */
  lemma CanonicalForm(x: Json, y: Json)
    requires WellFormed(x)
    ensures Normalize(x) == Normalize(y) <==> Equivalent(x, y)
  {
    if Equivalent(x, y) {
      EquivalentSameNormal(x, y);
    }
    if Normalize(x) == Normalize(y) {
      SameNormalEquivalent(x, y);
    }
  }

  /** The normal form is a reordering of the input, and the only one in normal form. */
  lemma NormalFormIsTheReordering(j: Json, k: Json)
    requires WellFormed(j) && IsNormal(k)
    ensures Equivalent(j, Normalize(j))
    ensures Equivalent(j, k) <==> k == Normalize(j)
  {
    NormalizeIdempotent(j);
    SameNormalEquivalent(j, Normalize(j));
    NormalizeOfNormal(k);
    CanonicalForm(j, k);
  }

  // ---- hash_stable: dictionaries unordered, lists ordered ----

  /** The value with dictionary entries in key order and lists untouched. */
  ghost function SortKeys(j: Json): Json {
    match j
    case Arr(items) => Arr(seq(|items|, i requires 0 <= i < |items| => SortKeys(items[i])))
    case Obj(fields) => Obj(SortBy(SortFieldKeys(fields), NameLe))
    case _ => j
  }

  ghost function SortFieldKeys(fields: seq<Field>): (r: seq<Field>)
    ensures |r| == |fields|
    ensures forall i :: 0 <= i < |fields| ==> r[i] == Field(fields[i].name, SortKeys(fields[i].value))
  {
    if fields == [] then []
    else [Field(fields[0].name, SortKeys(fields[0].value))] + SortFieldKeys(fields[1..])
  }

  lemma {:induction false} SortKeysIsSorted(j: Json)
    ensures KeySorted(SortKeys(j))
    decreases j
  {
    match j
    case Arr(items) =>
      forall i | 0 <= i < |items| ensures KeySorted(SortKeys(items[i])) { SortKeysIsSorted(items[i]); }
    case Obj(fields) =>
      NameOrder();
      var ns := SortFieldKeys(fields);
      SortByIsSorted(ns, NameLe);
      var r := SortBy(ns, NameLe);
      forall i | 0 <= i < |r| ensures KeySorted(r[i].value) {
        SameElements(r, ns, r[i]);
        var k :| 0 <= k < |ns| && ns[k] == r[i];
        SortKeysIsSorted(fields[k].value);
      }
    case _ =>
  }

  lemma MembersCons(f: Field, fs: seq<Field>)
    ensures Members([f] + fs) == [Member(f.name, Dumps(f.value))] + Members(fs)
  {
    MembersHead([f] + fs);
    assert ([f] + fs)[1..] == fs;
    var all := Members([f] + fs);
    assert all == [all[0]] + all[1..];
  }

  lemma {:induction false} MembersOfInsert(f: Field, fs: seq<Field>)
    ensures Members(Insert(f, fs, NameLe))
         == Insert(Member(f.name, Dumps(f.value)), Members(fs), MemberLe)
  {
    var m := Member(f.name, Dumps(f.value));
    if fs == [] {
      MembersCons(f, fs);
    } else if NameLe(f, fs[0]) {
      MembersHead(fs);
      MembersCons(f, fs);
      assert Insert(m, Members(fs), MemberLe) == [m] + Members(fs);
    } else {
      MembersHead(fs);
      MembersOfInsert(f, fs[1..]);
      MembersCons(fs[0], Insert(f, fs[1..], NameLe));
      assert Insert(m, Members(fs), MemberLe) == [Members(fs)[0]] + Insert(m, Members(fs[1..]), MemberLe);
    }
  }

  lemma {:induction false} MembersOfSort(fs: seq<Field>)
    ensures Members(SortBy(fs, NameLe)) == SortBy(Members(fs), MemberLe)
  {
    if fs != [] {
      MembersOfSort(fs[1..]);
      MembersHead(fs);
      MembersOfInsert(fs[0], SortBy(fs[1..], NameLe));
    }
  }

  lemma DumpsArrayPointwise(r: seq<Json>, items: seq<Json>)
    requires |r| == |items| && forall i :: 0 <= i < |items| ==> Dumps(r[i]) == Dumps(items[i])
    ensures Dumps(Arr(r)) == Dumps(Arr(items))
  {
    if items != [] { DumpsRestPointwise(r[1..], items[1..]); }
  }

  lemma DumpsSortedFields(ns: seq<Field>, fields: seq<Field>)
    requires Members(ns) == Members(fields)
    ensures Dumps(Obj(SortBy(ns, NameLe))) == Dumps(Obj(fields))
  {
    MembersOfSort(ns);
    NameOrder();
    SortByIsSorted(ns, NameLe);
    MembersSorted(SortBy(ns, NameLe));
  }

  lemma {:induction false} DumpsSortsKeys(j: Json)
    ensures Dumps(SortKeys(j)) == Dumps(j)
    decreases j
  {
    match j
    case Arr(items) =>
      var r := seq(|items|, i requires 0 <= i < |items| => SortKeys(items[i]));
      forall i | 0 <= i < |items| ensures Dumps(r[i]) == Dumps(items[i]) { DumpsSortsKeys(items[i]); }
      DumpsArrayPointwise(r, items);
    case Obj(fields) =>
      var ns := SortFieldKeys(fields);
      forall i | 0 <= i < |fields| ensures Dumps(ns[i].value) == Dumps(fields[i].value) {
        DumpsSortsKeys(fields[i].value);
      }
      assert Members(ns) == Members(fields);
      DumpsSortedFields(ns, fields);
    case _ =>
  }

  lemma {:induction false} DumpsRestPointwise(xs: seq<Json>, ys: seq<Json>)
    requires |xs| == |ys| && forall i :: 0 <= i < |xs| ==> Dumps(xs[i]) == Dumps(ys[i])
    ensures DumpsRest(xs) == DumpsRest(ys)
  {
    if xs != [] {
      DumpsRestPointwise(xs[1..], ys[1..]);
    }
  }

  /** Equal up to the order of dictionary entries at every depth; lists count in order. */
  ghost predicate SameUpToKeyOrder(x: Json, y: Json)
    decreases x
  {
    match (x, y)
    case (Arr(xs), Arr(ys)) =>
      |xs| == |ys| && forall i :: 0 <= i < |xs| ==> SameUpToKeyOrder(xs[i], ys[i])
    case (Obj(fs), Obj(gs)) =>
      && |fs| == |gs|
      && exists p: seq<nat> :: IsPermutation(p, |fs|)
           && forall i :: 0 <= i < |fs| ==>
                fs[i].name == gs[p[i]].name && SameUpToKeyOrder(fs[i].value, gs[p[i]].value)
    case _ => x == y
  }

  lemma {:induction false} SameSortKeys(x: Json, y: Json)
    requires WellFormed(x) && SameUpToKeyOrder(x, y)
    ensures SortKeys(x) == SortKeys(y)
    decreases x
  {
    match (x, y)
    case (Arr(xs), Arr(ys)) =>
      forall i | 0 <= i < |xs| ensures SortKeys(xs[i]) == SortKeys(ys[i]) { SameSortKeys(xs[i], ys[i]); }
    case (Obj(fs), Obj(gs)) =>
      var p: seq<nat> :| IsPermutation(p, |fs|)
                         && forall i :: 0 <= i < |fs| ==>
                              fs[i].name == gs[p[i]].name && SameUpToKeyOrder(fs[i].value, gs[p[i]].value);
      var ns, ms := SortFieldKeys(fs), SortFieldKeys(gs);
      forall i | 0 <= i < |fs| ensures ns[i].name == fs[i].name && ns[i] == ms[p[i]] {
        SameSortKeys(fs[i].value, gs[p[i]].value);
      }
      SameSorted(ns, ms, p, fs);
    case _ =>
  }

  lemma {:induction false} SortKeysSame(x: Json, y: Json)
    requires SortKeys(x) == SortKeys(y)
    ensures SameUpToKeyOrder(x, y)
    decreases x
  {
    match (x, y)
    case (Arr(xs), Arr(ys)) =>
      assert |SortKeys(x).items| == |xs| && |SortKeys(y).items| == |ys|;
      forall i | 0 <= i < |xs| ensures SameUpToKeyOrder(xs[i], ys[i]) {
        assert SortKeys(x).items[i] == SortKeys(xs[i]) && SortKeys(y).items[i] == SortKeys(ys[i]);
        SortKeysSame(xs[i], ys[i]);
      }
    case (Obj(fs), Obj(gs)) =>
      var ns, ms := SortFieldKeys(fs), SortFieldKeys(gs);
      var p := SortedAlike(ns, ms, NameLe);
      forall i | 0 <= i < |fs|
        ensures fs[i].name == gs[p[i]].name && SameUpToKeyOrder(fs[i].value, gs[p[i]].value)
      {
        SortKeysSame(fs[i].value, gs[p[i]].value);
      }
    case _ =>
  }

  /** Sorting the keys decides equality up to the order of dictionary entries. */
  lemma SortKeysCanonical(x: Json, y: Json)
    requires WellFormed(x)
    ensures SortKeys(x) == SortKeys(y) <==> SameUpToKeyOrder(x, y)
  {
    if SameUpToKeyOrder(x, y) { SameSortKeys(x, y); }
    if SortKeys(x) == SortKeys(y) { SortKeysSame(x, y); }
  }

  /** No two of the texts at hand share a digest. */
  ghost predicate NoCollision<Digest(!new)>(sha: string -> Digest, a: string, b: string) {
    sha(a) == sha(b) ==> a == b
  }

  /** Stable hashes agree exactly when the values are the same up to dictionary order. */
  lemma HashStableAgrees<Digest(!new)>(sha: string -> Digest, x: Json, y: Json)
    requires NoCollision(sha, Dumps(x), Dumps(y))
    ensures HashStable(sha, x) == HashStable(sha, y) <==> SortKeys(x) == SortKeys(y)
    ensures WellFormed(x) ==> (HashStable(sha, x) == HashStable(sha, y) <==> SameUpToKeyOrder(x, y))
  {
    if WellFormed(x) { SortKeysCanonical(x, y); }
    DumpsSortsKeys(x);
    DumpsSortsKeys(y);
    if HashStable(sha, x) == HashStable(sha, y) {
      SortKeysIsSorted(x);
      SortKeysIsSorted(y);
      DumpsInjective(SortKeys(x), SortKeys(y));
    }
  }

  lemma {:induction false} SortKeysOfSorted(j: Json)
    requires KeySorted(j)
    ensures SortKeys(j) == j
    decreases j
  {
    match j
    case Arr(items) =>
      forall i | 0 <= i < |items| ensures SortKeys(items[i]) == items[i] { SortKeysOfSorted(items[i]); }
    case Obj(fields) =>
      forall i | 0 <= i < |fields| ensures SortKeys(fields[i].value) == fields[i].value {
        SortKeysOfSorted(fields[i].value);
      }
      assert SortFieldKeys(fields) == fields;
      SortOfSorted(fields, NameLe);
    case _ =>
  }

  lemma NormalizedKeySorted(j: Json)
    ensures KeySorted(Normalize(j))
  {
    NormalizeIsNormal(j);
    NormalIsKeySorted(Normalize(j));
  }

  lemma SortFieldKeysOfSorted(fields: seq<Field>)
    requires forall i :: 0 <= i < |fields| ==> KeySorted(fields[i].value)
    ensures SortKeys(Obj(fields)) == Obj(SortBy(fields, NameLe))
  {
    forall i | 0 <= i < |fields| ensures SortKeys(fields[i].value) == fields[i].value {
      SortKeysOfSorted(fields[i].value);
    }
    assert SortFieldKeys(fields) == fields;
  }

  const NAMES := ["template", "tools", "schema", "capabilities"]

  lemma NamesDiffer(i: nat, k: nat)
    requires i < 4 && k < 4 && NAMES[i] == NAMES[k]
    ensures i == k
  {
    assert |NAMES[0]| == 8 && |NAMES[1]| == 5 && |NAMES[2]| == 6 && |NAMES[3]| == 12;
  }

  ghost predicate Named(fs: seq<Field>) {
    |fs| == 4 && forall i :: 0 <= i < 4 ==> fs[i].name == NAMES[i]
  }

  lemma NamedUnique(fs: seq<Field>, gs: seq<Field>)
    requires Named(fs) && Named(gs) && multiset(fs) == multiset(gs)
    ensures fs == gs
  {
    forall i | 0 <= i < 4 ensures fs[i] == gs[i] {
      SameElements(fs, gs, fs[i]);
      var k :| 0 <= k < 4 && gs[k] == fs[i];
      NamesDiffer(k, i);
    }
  }

  lemma CompositeNamed(c: Components)
    ensures Named(Composite(c).fields)
  {
  }

  lemma CompositeFields(c: Components)
    ensures SortKeys(Composite(c)) == Obj(SortBy(Composite(c).fields, NameLe))
  {
    NormalizedKeySorted(c.tools);
    NormalizedKeySorted(c.schema);
    NormalizedKeySorted(c.caps);
    var fs := Composite(c).fields;
    forall i | 0 <= i < |fs| ensures KeySorted(fs[i].value) {
      if i == 0 {
        assert fs[i].value == Str(c.template);
      }
    }
    SortFieldKeysOfSorted(fs);
  }

  lemma SameSortSameElements(fs: seq<Field>, gs: seq<Field>)
    requires SortBy(fs, NameLe) == SortBy(gs, NameLe)
    ensures multiset(fs) == multiset(gs)
  {
    assert multiset(fs) == multiset(SortBy(fs, NameLe));
    assert multiset(gs) == multiset(SortBy(gs, NameLe));
  }

  lemma CompositeUnpack(c: Components, d: Components)
    requires Composite(c).fields == Composite(d).fields
    ensures c.template == d.template && Normalize(c.tools) == Normalize(d.tools)
    ensures Normalize(c.schema) == Normalize(d.schema) && Normalize(c.caps) == Normalize(d.caps)
  {
    var fs, gs := Composite(c).fields, Composite(d).fields;
    assert fs[0] == gs[0] && fs[1] == gs[1] && fs[2] == gs[2] && fs[3] == gs[3];
  }

  lemma CompositeDetermines(c: Components, d: Components)
    requires SortKeys(Composite(c)) == SortKeys(Composite(d))
    ensures c.template == d.template && Normalize(c.tools) == Normalize(d.tools)
    ensures Normalize(c.schema) == Normalize(d.schema) && Normalize(c.caps) == Normalize(d.caps)
  {
    CompositeFields(c);
    CompositeFields(d);
    CompositeNamed(c);
    CompositeNamed(d);
    var fs, gs := Composite(c).fields, Composite(d).fields;
    SameSortSameElements(fs, gs);
    NamedUnique(fs, gs);
    CompositeUnpack(c, d);
  }

  /** Two cache keys agree exactly when the template ids are equal and the tools,
      schemas and capabilities are equal up to ordering. */
  lemma ComputeKeyAgrees<Digest(!new)>(sha: string -> Digest, c: Components, d: Components)
    requires WellFormed(c.tools) && WellFormed(c.schema) && WellFormed(c.caps)
    requires NoCollision(sha, Dumps(Composite(c)), Dumps(Composite(d)))
    ensures ComputeKey(sha, c) == ComputeKey(sha, d) <==>
            && c.template == d.template
            && Equivalent(c.tools, d.tools)
            && Equivalent(c.schema, d.schema)
            && Equivalent(c.caps, d.caps)
  {
    CanonicalForm(c.tools, d.tools);
    CanonicalForm(c.schema, d.schema);
    CanonicalForm(c.caps, d.caps);
    HashStableAgrees(sha, Composite(c), Composite(d));
    if ComputeKey(sha, c) == ComputeKey(sha, d) {
      CompositeDetermines(c, d);
    }
  }
}

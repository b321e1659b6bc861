/** `Registry.load_agent`: depth-first loading of agent descriptors with a cache that is
    written before the sub-agents are visited. */
module Registry {
  import opened Options
  import opened PyText
  import opened Sorting

  /** A parsed `agent.yaml`; `subAgents` lists the references under `depends_on`. */
  datatype Descriptor = Descriptor(slug: string, role: string, subAgents: seq<string>)

  /** What the YAML file at a path turns out to hold. */
  datatype AgentFile = NotMapping | Mapping(descriptor: Descriptor)

  /** The files under `catalog/agents/main` and `catalog/agents/sub`, by directory name. */
  datatype Catalog = Catalog(main: map<string, AgentFile>, sub: map<string, AgentFile>)

  datatype LoadError = NotFound(slug: string) | BadDescriptor(slug: string) | Circular(cycle: seq<string>)

  const SCHEME := "magsag://"

  function NormalizeRef(reference: string): Option<string> {
    var ref := Strip(reference, IsSpace);
    var name :=
      if StartsWith(ref, SCHEME) then
        var versioned := Before(ref[|SCHEME|..], '@');
        if Has(versioned, '.') then After(versioned, '.') else versioned
      else ref;
    if name == "" then None else Some(name)
  }

  lemma VersionedRef(role: string, slug: string, version: string)
    requires '.' !in role && '@' !in role && '@' !in slug && slug != ""
    requires !IsSpace((['@'] + version)[|version|])
    ensures NormalizeRef(SCHEME + (role + ['.'] + slug) + ['@'] + version) == Some(slug)
  {
    var name := role + ['.'] + slug;
    var ref := SCHEME + name + ['@'] + version;
    assert ref[0] == 'm' && ref[|ref| - 1] == (['@'] + version)[|version|];
    StripNothing(ref, IsSpace);
    assert SCHEME <= ref && ref[|SCHEME|..] == name + ['@'] + version;
    BeforeOf(name, '@', version);
    BeforeOf(role, '.', slug);
  }

  lemma UnversionedRef(role: string, slug: string)
    requires '.' !in role && '@' !in role && '@' !in slug && slug != "" && !IsSpace(slug[|slug| - 1])
    ensures NormalizeRef(SCHEME + (role + ['.'] + slug)) == Some(slug)
  {
    var name := role + ['.'] + slug;
    var ref := SCHEME + name;
    assert ref[0] == 'm' && ref[|ref| - 1] == slug[|slug| - 1];
    StripNothing(ref, IsSpace);
    assert SCHEME <= ref && ref[|SCHEME|..] == name;
    BeforeOf(name, '@', "");
    BeforeOf(role, '.', slug);
  }

  /** A reference `magsag://role.slug`, with or without `@version` behind it, names its slug, even
      when the slug has dots. */
  lemma RefNamesSlug(role: string, slug: string, version: Option<string>)
    requires '.' !in role && '@' !in role && '@' !in slug && slug != ""
    requires var last := if version.Some? then ['@'] + version.value else slug; !IsSpace(last[|last| - 1])
    ensures var name := SCHEME + (role + ['.'] + slug);
            NormalizeRef(if version.Some? then name + ['@'] + version.value else name) == Some(slug)
  {
    if version.Some? { VersionedRef(role, slug, version.value); } else { UnversionedRef(role, slug); }
  }

  /** A bare slug names itself. */
  lemma BareRef(slug: string)
    requires slug != "" && !StartsWith(slug, SCHEME) && !IsSpace(slug[0]) && !IsSpace(slug[|slug| - 1])
    ensures NormalizeRef(slug) == Some(slug)
  {
    StripNothing(slug, IsSpace);
  }

  /** `main` is searched before `sub`. */
  function Find(c: Catalog, slug: string): Option<AgentFile> {
    if slug in c.main then Some(c.main[slug])
    else if slug in c.sub then Some(c.sub[slug])
    else None
  }

  predicate Exists(c: Catalog, slug: string) {
    Find(c, slug).Some? && Find(c, slug).value.Mapping?
  }

  function RefsOf(c: Catalog, slug: string): seq<string>
    requires Exists(c, slug)
  {
    Find(c, slug).value.descriptor.subAgents
  }

  /** A slug can be read if its file in `main`, or without one its file in `sub`, is a mapping. */
  lemma ExistsInMainOrSub(c: Catalog, slug: string)
    ensures Exists(c, slug) <==>
              || (slug in c.main && c.main[slug].Mapping?)
              || (slug !in c.main && slug in c.sub && c.sub[slug].Mapping?)
    ensures slug in c.main && c.main[slug].Mapping? ==> RefsOf(c, slug) == c.main[slug].descriptor.subAgents
    ensures slug !in c.main && slug in c.sub && c.sub[slug].Mapping? ==>
              RefsOf(c, slug) == c.sub[slug].descriptor.subAgents
  {
  }

  /** The descriptor is that of the file in `main`, or without one of the file in `sub`. */
  ghost predicate IsOwnDescriptor(c: Catalog, slug: string, d: Descriptor) {
    if slug in c.main then c.main[slug] == Mapping(d) else slug in c.sub && c.sub[slug] == Mapping(d)
  }

  datatype Loaded = Loaded(cache: map<string, Descriptor>, error: Option<LoadError>)

  ghost function Unread(c: Catalog, cache: map<string, Descriptor>): nat {
    |c.main.Keys + c.sub.Keys - cache.Keys|
  }

  lemma UnreadShrinks(c: Catalog, a: map<string, Descriptor>, b: map<string, Descriptor>)
    requires a.Keys <= b.Keys
    ensures Unread(c, b) <= Unread(c, a)
  {
    SubsetSize(c.main.Keys + c.sub.Keys - b.Keys, c.main.Keys + c.sub.Keys - a.Keys);
  }

  lemma UnreadDrops(c: Catalog, cache: map<string, Descriptor>, slug: string, d: Descriptor)
    requires slug !in cache && Find(c, slug).Some?
    ensures Unread(c, cache[slug := d]) < Unread(c, cache)
  {
    var all := c.main.Keys + c.sub.Keys;
    assert all - cache.Keys == (all - cache[slug := d].Keys) + {slug};
  }

  /** The load as a function of the cache: the specification of the methods below. */
  ghost function Load(c: Catalog, cache: map<string, Descriptor>, slug: string, ancestry: seq<string>): (r: Loaded)
    ensures cache.Keys <= r.cache.Keys
    ensures r.error.None? ==> slug in r.cache
    decreases Unread(c, cache), 0
  {
    if slug in ancestry then Loaded(cache, Some(Circular(ancestry + [slug])))
    else if slug in cache then Loaded(cache, None)
    else match Find(c, slug)
         case None => Loaded(cache, Some(NotFound(slug)))
         case Some(NotMapping) => Loaded(cache, Some(BadDescriptor(slug)))
         case Some(Mapping(d)) =>
           UnreadDrops(c, cache, slug, d);
           LoadAll(c, cache[slug := d], d.subAgents, ancestry + [slug])
  }

  ghost function LoadAll(c: Catalog, cache: map<string, Descriptor>, refs: seq<string>,
      ancestry: seq<string>): (r: Loaded)
    ensures cache.Keys <= r.cache.Keys
    decreases Unread(c, cache), 1 + |refs|
  {
    if refs == [] then Loaded(cache, None)
    else match NormalizeRef(refs[0])
         case None => LoadAll(c, cache, refs[1..], ancestry)
         case Some(slug) =>
           var first := Load(c, cache, slug, ancestry);
           if first.error.Some? then first
           else
             UnreadShrinks(c, cache, first.cache);
             LoadAll(c, first.cache, refs[1..], ancestry)
  }

  // ---- what a load leaves in the cache, and what it reports, file by file ----

  /** Old entries are as they were, and new ones are read from their slugs' own files. */
  ghost predicate ReadFrom(c: Catalog, before: map<string, Descriptor>, after: map<string, Descriptor>) {
    && (forall s :: s in before ==> s in after && after[s] == before[s])
    && (forall s :: s in after && s !in before ==> IsOwnDescriptor(c, s, after[s]))
  }

  /** The error is one the files bear out: a slug in neither directory, or one whose first file is
      no mapping. */
  ghost predicate BornOut(c: Catalog, e: LoadError) {
    match e
    case NotFound(s) => s !in c.main && s !in c.sub
    case BadDescriptor(s) => if s in c.main then c.main[s].NotMapping? else s in c.sub && c.sub[s].NotMapping?
    case Circular(cycle) => |cycle| >= 2 && cycle[|cycle| - 1] in cycle[..|cycle| - 1]
  }

  lemma ReadOnFrom(c: Catalog, a: map<string, Descriptor>, b: map<string, Descriptor>, d: map<string, Descriptor>)
    requires ReadFrom(c, a, b) && ReadFrom(c, b, d)
    ensures ReadFrom(c, a, d)
  {
  }

  lemma ReadThrough(c: Catalog, cache: map<string, Descriptor>, slug: string, d: Descriptor,
      after: map<string, Descriptor>)
    requires slug !in cache && IsOwnDescriptor(c, slug, d) && ReadFrom(c, cache[slug := d], after)
    ensures ReadFrom(c, cache, after)
  {
  }

  /** A load that reads a file goes on with what the file refers to. */
  lemma LoadGoesOn(c: Catalog, cache: map<string, Descriptor>, slug: string, ancestry: seq<string>)
    returns (d: Descriptor)
    requires slug !in ancestry && slug !in cache && Exists(c, slug)
    ensures IsOwnDescriptor(c, slug, d) && d.subAgents == RefsOf(c, slug)
    ensures Unread(c, cache[slug := d]) < Unread(c, cache)
    ensures Load(c, cache, slug, ancestry) == LoadAll(c, cache[slug := d], d.subAgents, ancestry + [slug])
  {
    d := Find(c, slug).value.descriptor;
    UnreadDrops(c, cache, slug, d);
  }

  /** A load that does not leaves the cache alone. */
  lemma LoadStops(c: Catalog, cache: map<string, Descriptor>, slug: string, ancestry: seq<string>)
    requires slug in ancestry || slug in cache || !Exists(c, slug)
    ensures var r := Load(c, cache, slug, ancestry);
            r.cache == cache && (r.error.Some? ==> BornOut(c, r.error.value))
  {
    if slug in ancestry { assert (ancestry + [slug])[..|ancestry|] == ancestry; }
  }

  lemma {:induction false} LoadReads(c: Catalog, cache: map<string, Descriptor>, slug: string, ancestry: seq<string>)
    ensures var r := Load(c, cache, slug, ancestry);
            ReadFrom(c, cache, r.cache) && (r.error.Some? ==> BornOut(c, r.error.value))
    decreases Unread(c, cache), 0
  {
    if slug in ancestry || slug in cache || !Exists(c, slug) {
      LoadStops(c, cache, slug, ancestry);
    } else {
      var d := LoadGoesOn(c, cache, slug, ancestry);
      LoadAllReads(c, cache[slug := d], d.subAgents, ancestry + [slug]);
      ReadThrough(c, cache, slug, d, Load(c, cache, slug, ancestry).cache);
    }
  }

  lemma {:induction false} LoadAllReads(c: Catalog, cache: map<string, Descriptor>, refs: seq<string>,
      ancestry: seq<string>)
    ensures var r := LoadAll(c, cache, refs, ancestry);
            ReadFrom(c, cache, r.cache) && (r.error.Some? ==> BornOut(c, r.error.value))
    decreases Unread(c, cache), 1 + |refs|
  {
    if refs != [] {
      var cache' := cache;
      if NormalizeRef(refs[0]).Some? {
        var slug := NormalizeRef(refs[0]).value;
        LoadReads(c, cache, slug, ancestry);
        cache' := Load(c, cache, slug, ancestry).cache;
        UnreadShrinks(c, cache, cache');
      }
      LoadAllReads(c, cache', refs[1..], ancestry);
      ReadOnFrom(c, cache, cache', LoadAll(c, cache', refs[1..], ancestry).cache);
    }
  }

  // ---- the dependency graph ----

  /** `v` is a dependency of `u`. Slugs in `leaves` are taken as they are, not expanded. */
  ghost predicate DependsOn(c: Catalog, leaves: set<string>, u: string, v: string) {
    u !in leaves && Exists(c, u) && exists i :: 0 <= i < |RefsOf(c, u)| && NormalizeRef(RefsOf(c, u)[i]) == Some(v)
  }

  ghost predicate IsPath(c: Catalog, leaves: set<string>, p: seq<string>) {
    p != [] && forall i :: 0 <= i < |p| - 1 ==> DependsOn(c, leaves, p[i], p[i + 1])
  }

  /** The path neither revisits a slug nor ends at one that cannot be read. */
  ghost predicate Sound(c: Catalog, leaves: set<string>, p: seq<string>)
    requires p != []
  {
    Distinct(p) && (p[|p| - 1] in leaves || Exists(c, p[|p| - 1]))
  }

  /** Everything reachable from `slug` exists and nothing reachable lies on a cycle. */
  ghost predicate Loadable(c: Catalog, leaves: set<string>, slug: string) {
    forall p :: IsPath(c, leaves, p) && p[0] == slug ==> Sound(c, leaves, p)
  }

  lemma SuffixPath(c: Catalog, leaves: set<string>, p: seq<string>, i: nat)
    requires IsPath(c, leaves, p) && i < |p|
    ensures IsPath(c, leaves, p[i..]) && p[i..][0] == p[i]
  {
  }

  lemma PrefixPath(c: Catalog, leaves: set<string>, p: seq<string>, i: nat)
    requires IsPath(c, leaves, p) && 0 < i <= |p|
    ensures IsPath(c, leaves, p[..i]) && p[..i][0] == p[0] && p[..i][i - 1] == p[i - 1]
  {
  }

  lemma ExtendPath(c: Catalog, leaves: set<string>, p: seq<string>, v: string)
    requires IsPath(c, leaves, p) && DependsOn(c, leaves, p[|p| - 1], v)
    ensures IsPath(c, leaves, p + [v])
  {
    var q := p + [v];
    forall i | 0 <= i < |q| - 1 ensures DependsOn(c, leaves, q[i], q[i + 1]) {
      assert i < |p| - 1 ==> DependsOn(c, leaves, p[i], p[i + 1]);
    }
  }

  lemma UnsoundPathRefutes(c: Catalog, leaves: set<string>, p: seq<string>)
    requires IsPath(c, leaves, p) && !Sound(c, leaves, p)
    ensures !Loadable(c, leaves, p[0])
  {
  }

  /** A slug some path returns to is not loadable. */
  lemma ReturnRefutes(c: Catalog, leaves: set<string>, p: seq<string>, i: nat)
    requires IsPath(c, leaves, p) && i < |p| && DependsOn(c, leaves, p[i], p[0])
    ensures !Loadable(c, leaves, p[0])
  {
    PrefixPath(c, leaves, p, i + 1);
    var q := p[..i + 1] + [p[0]];
    ExtendPath(c, leaves, p[..i + 1], p[0]);
    assert q[0] == q[i + 1];
    UnsoundPathRefutes(c, leaves, q);
  }

  /** A slug all of whose dependencies are loadable is loadable. */
  lemma LoadableFromDependencies(c: Catalog, leaves: set<string>, slug: string)
    requires slug in leaves || Exists(c, slug)
    requires forall v :: DependsOn(c, leaves, slug, v) ==> Loadable(c, leaves, v)
    ensures Loadable(c, leaves, slug)
  {
    forall p | IsPath(c, leaves, p) && p[0] == slug ensures Sound(c, leaves, p) {
      if |p| > 1 {
        assert DependsOn(c, leaves, p[0], p[1]);
        SuffixPath(c, leaves, p, 1);
        assert Sound(c, leaves, p[1..]);
        forall j | 1 <= j < |p| ensures p[j] != slug {
          if p[j] == slug {
            ReturnRefutes(c, leaves, p[1..], j - 1);
          }
        }
        forall i, j | 0 <= i < j < |p| ensures p[i] != p[j] {
          assert i > 0 ==> p[i] == p[1..][i - 1] && p[j] == p[1..][j - 1];
        }
      }
    }
  }

  // ---- success means loadable ----

  /** Every cached slug is a leaf, an ancestor still being loaded, or done and loadable. */
  ghost predicate Explained(c: Catalog, leaves: set<string>, cache: map<string, Descriptor>, ancestry: seq<string>) {
    forall s :: s in cache ==> s in leaves || s in ancestry || Loadable(c, leaves, s)
  }

  lemma LeafLoadable(c: Catalog, leaves: set<string>, slug: string)
    requires slug in leaves
    ensures Loadable(c, leaves, slug)
  {
    LoadableFromDependencies(c, leaves, slug);
  }

  lemma {:induction false} LoadSound(c: Catalog, leaves: set<string>, cache: map<string, Descriptor>, slug: string,
      ancestry: seq<string>)
    requires leaves <= cache.Keys && Explained(c, leaves, cache, ancestry)
    requires Load(c, cache, slug, ancestry).error.None?
    ensures Loadable(c, leaves, slug)
    ensures Explained(c, leaves, Load(c, cache, slug, ancestry).cache, ancestry)
    decreases Unread(c, cache), 0
  {
    if slug in cache {
      if slug in leaves { LeafLoadable(c, leaves, slug); }
    } else {
      var d := LoadGoesOn(c, cache, slug, ancestry);
      var cache' := cache[slug := d];
      LoadAllSound(c, leaves, cache', d.subAgents, ancestry + [slug]);
      LoadableFromDependencies(c, leaves, slug);
    }
  }

  lemma {:induction false} LoadAllSound(c: Catalog, leaves: set<string>, cache: map<string, Descriptor>,
      refs: seq<string>, ancestry: seq<string>)
    requires leaves <= cache.Keys && Explained(c, leaves, cache, ancestry)
    requires LoadAll(c, cache, refs, ancestry).error.None?
    ensures AllLoadable(c, leaves, refs)
    ensures Explained(c, leaves, LoadAll(c, cache, refs, ancestry).cache, ancestry)
    decreases Unread(c, cache), 1 + |refs|
  {
    if refs != [] {
      var cache' := cache;
      if NormalizeRef(refs[0]).Some? {
        var slug := NormalizeRef(refs[0]).value;
        LoadSound(c, leaves, cache, slug, ancestry);
        cache' := Load(c, cache, slug, ancestry).cache;
        UnreadShrinks(c, cache, cache');
      }
      LoadAllSound(c, leaves, cache', refs[1..], ancestry);
      AllLoadableMore(c, leaves, refs);
    }
  }

  ghost predicate AllLoadable(c: Catalog, leaves: set<string>, refs: seq<string>) {
    forall i :: 0 <= i < |refs| && NormalizeRef(refs[i]).Some? ==> Loadable(c, leaves, NormalizeRef(refs[i]).value)
  }

  lemma AllLoadableMore(c: Catalog, leaves: set<string>, refs: seq<string>)
    requires refs != [] && AllLoadable(c, leaves, refs[1..])
    requires NormalizeRef(refs[0]).Some? ==> Loadable(c, leaves, NormalizeRef(refs[0]).value)
    ensures AllLoadable(c, leaves, refs)
  {
    assert forall i :: 1 <= i < |refs| ==> refs[i] == refs[1..][i - 1];
  }

  // ---- failure means not loadable ----

  /** `p` is a dependency path that shows what the error says. */
  ghost predicate Witnesses(c: Catalog, leaves: set<string>, p: seq<string>, e: LoadError) {
    && IsPath(c, leaves, p)
    && match e
       case NotFound(s) => p[|p| - 1] == s && s !in leaves && Find(c, s).None?
       case BadDescriptor(s) => p[|p| - 1] == s && s !in leaves && Find(c, s) == Some(NotMapping)
       case Circular(cycle) => p == cycle && |p| > 1 && p[|p| - 1] in p[..|p| - 1]
  }

  lemma StopWitness(c: Catalog, leaves: set<string>, cache: map<string, Descriptor>, slug: string,
      ancestry: seq<string>)
    requires leaves <= cache.Keys && IsPath(c, leaves, ancestry + [slug]) && (slug in ancestry || !Exists(c, slug))
    requires Load(c, cache, slug, ancestry).error.Some?
    ensures Witnesses(c, leaves, ancestry + [slug], Load(c, cache, slug, ancestry).error.value)
  {
    var p := ancestry + [slug];
    assert p[..|p| - 1] == ancestry && p[|p| - 1] == slug;
  }

  lemma DependsOnRefs(c: Catalog, leaves: set<string>, slug: string, refs: seq<string>)
    requires slug !in leaves && Exists(c, slug) && refs == RefsOf(c, slug)
    ensures forall i :: 0 <= i < |refs| && NormalizeRef(refs[i]).Some? ==>
              DependsOn(c, leaves, slug, NormalizeRef(refs[i]).value)
  {
  }

  lemma {:induction false} LoadWitness(c: Catalog, leaves: set<string>, cache: map<string, Descriptor>, slug: string,
      ancestry: seq<string>) returns (p: seq<string>)
    requires leaves <= cache.Keys && IsPath(c, leaves, ancestry + [slug])
    requires Load(c, cache, slug, ancestry).error.Some?
    ensures Witnesses(c, leaves, p, Load(c, cache, slug, ancestry).error.value)
    ensures ancestry + [slug] <= p
    decreases Unread(c, cache), 0
  {
    p := ancestry + [slug];
    if slug in ancestry || !Exists(c, slug) {
      StopWitness(c, leaves, cache, slug, ancestry);
    } else {
      var d := LoadGoesOn(c, cache, slug, ancestry);
      DependsOnRefs(c, leaves, slug, d.subAgents);
      p := LoadAllWitness(c, leaves, cache[slug := d], d.subAgents, ancestry + [slug]);
    }
  }

  lemma {:induction false} LoadAllWitness(c: Catalog, leaves: set<string>, cache: map<string, Descriptor>,
      refs: seq<string>, ancestry: seq<string>) returns (p: seq<string>)
    requires leaves <= cache.Keys && IsPath(c, leaves, ancestry)
    requires forall i :: 0 <= i < |refs| && NormalizeRef(refs[i]).Some? ==>
               DependsOn(c, leaves, ancestry[|ancestry| - 1], NormalizeRef(refs[i]).value)
    requires LoadAll(c, cache, refs, ancestry).error.Some?
    ensures Witnesses(c, leaves, p, LoadAll(c, cache, refs, ancestry).error.value)
    ensures ancestry <= p
    decreases Unread(c, cache), 1 + |refs|
  {
    if NormalizeRef(refs[0]).Some? {
      var slug := NormalizeRef(refs[0]).value;
      ExtendPath(c, leaves, ancestry, slug);
      var first := Load(c, cache, slug, ancestry);
      if first.error.Some? {
        p := LoadWitness(c, leaves, cache, slug, ancestry);
      } else {
        UnreadShrinks(c, cache, first.cache);
        p := LoadAllWitness(c, leaves, first.cache, refs[1..], ancestry);
      }
    } else {
      p := LoadAllWitness(c, leaves, cache, refs[1..], ancestry);
    }
  }

  lemma WitnessUnsound(c: Catalog, leaves: set<string>, p: seq<string>, e: LoadError)
    requires Witnesses(c, leaves, p, e)
    ensures !Sound(c, leaves, p)
  {
    if e.Circular? {
      var i :| 0 <= i < |p| - 1 && p[..|p| - 1][i] == p[|p| - 1];
      assert p[i] == p[|p| - 1];
    }
  }

  /** From any cache, a load succeeds exactly when everything reachable without passing
      through an already cached slug exists and is free of cycles. */
  lemma LoadSucceedsIff(c: Catalog, cache: map<string, Descriptor>, slug: string)
    ensures Load(c, cache, slug, []).error.None? <==> Loadable(c, cache.Keys, slug)
    ensures Load(c, cache, slug, []).error.None? ==>
              Explained(c, cache.Keys, Load(c, cache, slug, []).cache, [])
  {
    var r := Load(c, cache, slug, []);
    if r.error.None? {
      LoadSound(c, cache.Keys, cache, slug, []);
    } else {
      var p := RequestWitness(c, cache, slug);
      WitnessUnsound(c, cache.Keys, p, r.error.value);
      UnsoundPathRefutes(c, cache.Keys, p);
    }
  }

  lemma WitnessedCycle(c: Catalog, leaves: set<string>, p: seq<string>, e: LoadError)
    requires Witnesses(c, leaves, p, e) && e.Circular?
    ensures IsPath(c, {}, e.cycle) && e.cycle == p
    ensures exists i :: 0 <= i < |p| - 1 && p[i] == p[|p| - 1]
  {
    FewerLeavesPath(c, leaves, {}, p);
    var i :| 0 <= i < |p| - 1 && p[..|p| - 1][i] == p[|p| - 1];
    assert p[i] == p[|p| - 1];
  }

  /** A reported cycle is a dependency path from the requested slug that revisits a slug. */
  lemma ReportedCycleIsReal(c: Catalog, cache: map<string, Descriptor>, slug: string)
    requires Load(c, cache, slug, []).error.Some? && Load(c, cache, slug, []).error.value.Circular?
    ensures var cycle := Load(c, cache, slug, []).error.value.cycle;
            && IsPath(c, {}, cycle) && cycle[0] == slug
            && exists i :: 0 <= i < |cycle| - 1 && cycle[i] == cycle[|cycle| - 1]
  {
    var p := RequestWitness(c, cache, slug);
    WitnessedCycle(c, cache.Keys, p, Load(c, cache, slug, []).error.value);
  }

  lemma RequestWitness(c: Catalog, cache: map<string, Descriptor>, slug: string) returns (p: seq<string>)
    requires Load(c, cache, slug, []).error.Some?
    ensures Witnesses(c, cache.Keys, p, Load(c, cache, slug, []).error.value) && p[0] == slug
  {
    assert [] + [slug] == [slug];
    p := LoadWitness(c, cache.Keys, cache, slug, []);
  }

  // ---- closed caches ----

  /** Every cached slug is loadable in the full dependency graph. */
  ghost predicate Closed(c: Catalog, slugs: set<string>) {
    forall s :: s in slugs ==> Loadable(c, {}, s)
  }

  lemma FewerLeavesPath(c: Catalog, more: set<string>, fewer: set<string>, p: seq<string>)
    requires fewer <= more && IsPath(c, more, p)
    ensures IsPath(c, fewer, p)
  {
    forall i | 0 <= i < |p| - 1 ensures DependsOn(c, fewer, p[i], p[i + 1]) {
      assert DependsOn(c, more, p[i], p[i + 1]);
    }
  }

  /** Some position is a leaf, or the end, and nothing before it is a leaf. */
  lemma FirstLeaf(leaves: set<string>, p: seq<string>) returns (k: nat)
    requires p != []
    ensures k < |p| && (forall i :: 0 <= i < k ==> p[i] !in leaves)
    ensures k == |p| - 1 || p[k] in leaves
  {
    k := 0;
    while k < |p| - 1 && p[k] !in leaves
      invariant k < |p| && forall i :: 0 <= i < k ==> p[i] !in leaves
    {
      k := k + 1;
    }
  }

  lemma PathToLeaf(c: Catalog, leaves: set<string>, p: seq<string>, k: nat)
    requires IsPath(c, {}, p) && k < |p| && forall i :: 0 <= i < k ==> p[i] !in leaves
    ensures IsPath(c, leaves, p[..k + 1])
  {
    var q := p[..k + 1];
    forall i | 0 <= i < |q| - 1 ensures DependsOn(c, leaves, q[i], q[i + 1]) {
      assert DependsOn(c, {}, p[i], p[i + 1]);
    }
  }

  /** For a closed cache, stopping at cached slugs misses nothing. */
  lemma ClosedLeaves(c: Catalog, leaves: set<string>, slug: string)
    requires Closed(c, leaves)
    ensures Loadable(c, leaves, slug) <==> Loadable(c, {}, slug)
  {
    if Loadable(c, {}, slug) {
      forall p | IsPath(c, leaves, p) && p[0] == slug ensures Sound(c, leaves, p) {
        FewerLeavesPath(c, leaves, {}, p);
        assert Sound(c, {}, p);
      }
    }
    if Loadable(c, leaves, slug) {
      forall p | IsPath(c, {}, p) && p[0] == slug ensures Sound(c, {}, p) {
        SoundThroughLeaf(c, leaves, p);
      }
    }
  }

  lemma SoundThroughLeaf(c: Catalog, leaves: set<string>, p: seq<string>)
    requires Closed(c, leaves) && IsPath(c, {}, p) && Loadable(c, leaves, p[0])
    ensures Sound(c, {}, p)
  {
    var k := FirstLeaf(leaves, p);
    SoundToLeaf(c, leaves, p, k);
    if p[k] in leaves {
      SoundFromLeaf(c, p, k);
    } else {
      assert p[..k + 1] == p;
    }
  }

  lemma SoundToLeaf(c: Catalog, leaves: set<string>, p: seq<string>, k: nat)
    requires IsPath(c, {}, p) && Loadable(c, leaves, p[0]) && k < |p| && forall i :: 0 <= i < k ==> p[i] !in leaves
    ensures Sound(c, leaves, p[..k + 1])
  {
    PathToLeaf(c, leaves, p, k);
    assert p[..k + 1][0] == p[0];
  }

  lemma SoundFromLeaf(c: Catalog, p: seq<string>, k: nat)
    requires IsPath(c, {}, p) && k < |p| && Distinct(p[..k + 1]) && Loadable(c, {}, p[k])
    ensures Sound(c, {}, p)
  {
    SuffixPath(c, {}, p, k);
    assert Sound(c, {}, p[k..]);
    JoinedNoRepeats(c, p, k);
    assert p[k..][|p| - 1 - k] == p[|p| - 1];
  }

  lemma JoinedNoRepeats(c: Catalog, p: seq<string>, k: nat)
    requires IsPath(c, {}, p) && k < |p| && Loadable(c, {}, p[k])
    requires Distinct(p[..k + 1]) && Distinct(p[k..])
    ensures Distinct(p)
  {
    forall i, j | 0 <= i < j < |p| ensures p[i] != p[j] {
      if j <= k {
        assert p[..k + 1][i] == p[i] && p[..k + 1][j] == p[j];
      } else if i >= k {
        assert p[k..][i - k] == p[i] && p[k..][j - k] == p[j];
      } else if p[i] == p[j] {
        CycleRefutes(c, p, i, k, j);
      }
    }
  }

  /** If a path leaves `p[k]` and comes back to a slug from which `p[k]` was reached, then
      `p[k]` lies on a cycle. */
  lemma CycleRefutes(c: Catalog, p: seq<string>, i: nat, k: nat, j: nat)
    requires IsPath(c, {}, p) && i < k < j < |p| && p[i] == p[j]
    ensures !Loadable(c, {}, p[k])
  {
    SlicePath(c, p, k, j + 1);
    SlicePath(c, p, i, k + 1);
    var back := p[i..k + 1];
    JoinPath(c, p[k..j + 1], back);
    var q := p[k..j + 1] + back[1..];
    assert q[0] == p[k] && q[|q| - 1] == back[|back| - 1] == p[k];
    UnsoundPathRefutes(c, {}, q);
  }

  lemma SlicePath(c: Catalog, p: seq<string>, i: nat, j: nat)
    requires IsPath(c, {}, p) && i < j <= |p|
    ensures IsPath(c, {}, p[i..j])
  {
    PrefixPath(c, {}, p, j);
    SuffixPath(c, {}, p[..j], i);
    assert p[..j][i..] == p[i..j];
  }

  lemma JoinPath(c: Catalog, a: seq<string>, b: seq<string>)
    requires IsPath(c, {}, a) && IsPath(c, {}, b) && a[|a| - 1] == b[0]
    ensures IsPath(c, {}, a + b[1..])
  {
    var q := a + b[1..];
    forall m | 0 <= m < |q| - 1 ensures DependsOn(c, {}, q[m], q[m + 1]) {
      if m >= |a| - 1 {
        var n := m - (|a| - 1);
        assert q[m] == b[n] && q[m + 1] == b[n + 1];
      }
    }
  }

  /** From a closed cache `load_agent` succeeds exactly when every slug reachable through
      sub-agents exists and the reachable graph has no cycle, and it keeps the cache closed. */
  lemma ClosedLoadSucceedsIff(c: Catalog, cache: map<string, Descriptor>, slug: string)
    requires Closed(c, cache.Keys)
    ensures Load(c, cache, slug, []).error.None? <==> Loadable(c, {}, slug)
    ensures Load(c, cache, slug, []).error.None? ==> Closed(c, Load(c, cache, slug, []).cache.Keys)
  {
    LoadSucceedsIff(c, cache, slug);
    ClosedLeaves(c, cache.Keys, slug);
    var r := Load(c, cache, slug, []);
    if r.error.None? {
      forall s | s in r.cache ensures Loadable(c, {}, s) {
        if s !in cache.Keys { ClosedLeaves(c, cache.Keys, s); }
      }
    }
  }

  /** A failed load leaves its slug behind: repeating it succeeds, although the slug is
      not loadable and the cache is no longer closed. */
  lemma RepeatedLoadSucceeds(c: Catalog, cache: map<string, Descriptor>, slug: string)
    requires Closed(c, cache.Keys) && Exists(c, slug)
    requires Load(c, cache, slug, []).error.Some?
    ensures var left := Load(c, cache, slug, []).cache;
            && Load(c, left, slug, []).error.None?
            && !Loadable(c, {}, slug) && !Closed(c, left.Keys)
  {
    ClosedLoadSucceedsIff(c, cache, slug);
    assert slug !in cache;
    UnreadDrops(c, cache, slug, Find(c, slug).value.descriptor);
  }

  /** After a failed load from a closed cache, repeating it succeeds exactly when the slug can
      be read: then the first attempt has cached it. */
  lemma RepeatSucceedsIff(c: Catalog, cache: map<string, Descriptor>, slug: string)
    requires Closed(c, cache.Keys) && Load(c, cache, slug, []).error.Some?
    ensures Load(c, Load(c, cache, slug, []).cache, slug, []).error.None? <==> Exists(c, slug)
  {
    if Exists(c, slug) {
      RepeatedLoadSucceeds(c, cache, slug);
    } else {
      assert Load(c, cache, slug, []).cache == cache;
    }
  }

  /** Closed caches are exactly those from which every load tells whether the slug is loadable. */
  lemma LoadsAreRightIffClosed(c: Catalog, cache: map<string, Descriptor>)
    ensures (forall slug :: Load(c, cache, slug, []).error.None? <==> Loadable(c, {}, slug))
       <==> Closed(c, cache.Keys)
  {
    if Closed(c, cache.Keys) {
      forall slug ensures Load(c, cache, slug, []).error.None? <==> Loadable(c, {}, slug) {
        ClosedLoadSucceedsIff(c, cache, slug);
      }
    } else {
      var slug :| slug in cache.Keys && !Loadable(c, {}, slug);
      assert Load(c, cache, slug, []).error.None?;
    }
  }

  /** An agent that depends on itself: the first load reports the cycle, the second succeeds. */
  lemma SelfDependencyLoadsTwice(role: string)
    ensures var c := Catalog(map["a" := Mapping(Descriptor("a", role, ["a"]))], map[]);
            var first := Load(c, map[], "a", []);
            && first.error == Some(Circular(["a", "a"]))
            && Load(c, first.cache, "a", []).error.None?
            && !Loadable(c, {}, "a")
  {
    var d := Descriptor("a", role, ["a"]);
    var c := Catalog(map["a" := Mapping(d)], map[]);
    BareRef("a");
    UnreadDrops(c, map[], "a", d);
    assert Load(c, map["a" := d], "a", ["a"]).error == Some(Circular(["a", "a"])) by {
      assert ["a"] + ["a"] == ["a", "a"];
    }
    assert LoadAll(c, map["a" := d], ["a"], ["a"]) == Load(c, map["a" := d], "a", ["a"]);
    assert map[]["a" := d] == map["a" := d] && [] + ["a"] == ["a"];
    ClosedLoadSucceedsIff(c, map[], "a");
  }

  const ORCHESTRATOR := "offer-orchestrator-mag"
  const ADVISOR := "compensation-advisor-sag"
  const ADVISOR_REF := SCHEME + ("sub" + ['.'] + ADVISOR) + ['@'] + ">=0.1.0"

  /** An agent in `main` with one reference, to an agent in `sub` that has none. */
  function TwoAgents(a: string, b: string, ref: string): Catalog {
    Catalog(map[a := Mapping(Descriptor(a, "main", [ref]))], map[b := Mapping(Descriptor(b, "sub", []))])
  }

  lemma SubIsRead(a: string, b: string, ref: string)
    requires a != b
    ensures var main, sub := Descriptor(a, "main", [ref]), Descriptor(b, "sub", []);
            Load(TwoAgents(a, b, ref), map[a := main], b, [a]) == Loaded(map[a := main, b := sub], None)
  {
    UnreadDrops(TwoAgents(a, b, ref), map[a := Descriptor(a, "main", [ref])], b, Descriptor(b, "sub", []));
  }

  lemma MainAndSubAreRead(a: string, b: string, ref: string)
    requires a != b && NormalizeRef(ref) == Some(b)
    ensures var main, sub := Descriptor(a, "main", [ref]), Descriptor(b, "sub", []);
            Load(TwoAgents(a, b, ref), map[], a, []) == Loaded(map[a := main, b := sub], None)
  {
    var c, main, sub := TwoAgents(a, b, ref), Descriptor(a, "main", [ref]), Descriptor(b, "sub", []);
    SubIsRead(a, b, ref);
    UnreadDrops(c, map[], a, main);
    assert LoadAll(c, map[a := main], [ref], [a]) == Loaded(map[a := main, b := sub], None);
    assert map[][a := main] == map[a := main] && [] + [a] == [a];
  }

  /** Loading the orchestrator finds the advisor in the other directory and caches both. */
  lemma AdvisorIsFoundInSub()
    ensures Load(TwoAgents(ORCHESTRATOR, ADVISOR, ADVISOR_REF), map[], ORCHESTRATOR, [])
         == Loaded(map[ORCHESTRATOR := Descriptor(ORCHESTRATOR, "main", [ADVISOR_REF]),
                       ADVISOR := Descriptor(ADVISOR, "sub", [])], None)
  {
    RefNamesSlug("sub", ADVISOR, Some(">=0.1.0"));
    assert |ORCHESTRATOR| != |ADVISOR|;
    MainAndSubAreRead(ORCHESTRATOR, ADVISOR, ADVISOR_REF);
  }

  // ---- the loader itself ----

  class Registry {
    const catalog: Catalog
    var agentCache: map<string, Descriptor>

    constructor (catalog: Catalog)
      ensures this.catalog == catalog && agentCache == map[]
      ensures Closed(catalog, agentCache.Keys)
    {
      this.catalog := catalog;
      agentCache := map[];
    }

    /** `load_agent`: success exactly when loadable, from a closed cache, which stays closed. */
    method LoadAgent(slug: string) returns (error: Option<LoadError>)
      modifies this
      ensures Loaded(agentCache, error) == Load(catalog, old(agentCache), slug, [])
      ensures Closed(catalog, old(agentCache.Keys)) ==>
                (error.None? <==> Loadable(catalog, {}, slug))
                && (error.None? ==> slug in agentCache && Closed(catalog, agentCache.Keys))
      ensures ReadFrom(catalog, old(agentCache), agentCache) && (error.Some? ==> BornOut(catalog, error.value))
    {
      LoadReads(catalog, agentCache, slug, []);
      if Closed(catalog, agentCache.Keys) {
        ClosedLoadSucceedsIff(catalog, agentCache, slug);
      }
      error := LoadWithAncestry(slug, []);
    }

    method LoadWithAncestry(slug: string, ancestry: seq<string>) returns (error: Option<LoadError>)
      modifies this
      ensures Loaded(agentCache, error) == Load(catalog, old(agentCache), slug, ancestry)
      decreases Unread(catalog, agentCache)
    {
      if slug in ancestry {
        return Some(Circular(ancestry + [slug]));
      }
      if slug in agentCache {
        return None;
      }
      match Find(catalog, slug) {
        case None => return Some(NotFound(slug));
        case Some(NotMapping) => return Some(BadDescriptor(slug));
        case Some(Mapping(descriptor)) =>
          UnreadDrops(catalog, agentCache, slug, descriptor);
          agentCache := agentCache[slug := descriptor];
          ghost var written := agentCache;
          var refs := descriptor.subAgents;
          for i := 0 to |refs|
            invariant written.Keys <= agentCache.Keys
            invariant LoadAll(catalog, written, refs, ancestry + [slug])
                   == LoadAll(catalog, agentCache, refs[i..], ancestry + [slug])
          {
            UnreadShrinks(catalog, written, agentCache);
            assert refs[i..][0] == refs[i] && refs[i..][1..] == refs[i + 1..];
            var normalized := NormalizeRef(refs[i]);
            if normalized.Some? {
              var failed := LoadWithAncestry(normalized.value, ancestry + [slug]);
              if failed.Some? {
                return failed;
              }
            }
          }
          assert refs[|refs|..] == [];
          return None;
      }
    }
  }
}

/** The bounded reference loader (internal/formats/protobuf/engine.go). */
module ReferenceLoading {
  import opened Domain

  type RefKey = (string, Int64)

  function KeyOf(r: Reference): RefKey { (r.subject, r.version) }

  /** The resolver looks a reference up by subject and version; it may be missing altogether. */
  datatype World = World(resolver: Option<RefKey -> Option<Schema>>, maxBytes: nat)

  datatype LoadError =
    | EmptySchema | MissingReference | ReferenceDepth | TooManyReferences | ReferenceCycle
    | ReferenceType | SchemaTooLarge

  // ---- the unfolded reference tree ----

  /** The reference resolves to a schema of the right type and size. */
  predicate Usable(w: World, r: Reference) {
    && w.resolver.Some? && w.resolver.value(KeyOf(r)).Some?
    && w.resolver.value(KeyOf(r)).value.kind.Protobuf?
    && |w.resolver.value(KeyOf(r)).value.definition| <= w.maxBytes
  }

  function SchemaOf(w: World, r: Reference): Schema
    requires Usable(w, r)
  {
    w.resolver.value(KeyOf(r)).value
  }

  /** The tree below the reference has at most `h` levels, and every node of it is usable. */
  ghost predicate Fits(w: World, r: Reference, h: nat)
    decreases h, 0
  {
    h > 0 && Usable(w, r) && FitsAll(w, SchemaOf(w, r).references, h - 1)
  }

  ghost predicate FitsAll(w: World, refs: seq<Reference>, h: nat)
    decreases h, 1, |refs|
  {
    refs != [] ==> FitsAll(w, refs[..|refs| - 1], h) && Fits(w, refs[|refs| - 1], h)
  }

  /** The nodes of the trees in post-order, one entry for every occurrence. */
  ghost function Nodes(w: World, refs: seq<Reference>, h: nat): (nodes: seq<Reference>)
    requires FitsAll(w, refs, h)
    decreases h, 1, |refs|
  {
    if refs == [] then [] else Nodes(w, refs[..|refs| - 1], h) + TreeNodes(w, refs[|refs| - 1], h)
  }

  ghost function TreeNodes(w: World, r: Reference, h: nat): (nodes: seq<Reference>)
    requires Fits(w, r, h)
    decreases h, 0
  {
    Nodes(w, SchemaOf(w, r).references, h - 1) + [r]
  }

  /** The source map after writing each node's definition under its name, in order. */
  ghost function Written(w: World, sources: map<string, string>, nodes: seq<Reference>): map<string, string>
    requires forall i :: 0 <= i < |nodes| ==> Usable(w, nodes[i])
  {
    if nodes == [] then sources
    else
      var last := nodes[|nodes| - 1];
      Written(w, sources, nodes[..|nodes| - 1])[last.name := SchemaOf(w, last).definition]
  }

  lemma {:induction false} NodesUsable(w: World, refs: seq<Reference>, h: nat)
    requires FitsAll(w, refs, h)
    ensures forall i :: 0 <= i < |Nodes(w, refs, h)| ==> Usable(w, Nodes(w, refs, h)[i])
    ensures |refs| <= |Nodes(w, refs, h)|
    decreases h, |refs|
  {
    if refs != [] {
      var n := |refs| - 1;
      NodesUsable(w, refs[..n], h);
      assert Fits(w, refs[n], h);
      NodesUsable(w, SchemaOf(w, refs[n]).references, h - 1);
    }
  }

  lemma {:induction false} FitsPrefix(w: World, refs: seq<Reference>, h: nat, k: nat)
    requires FitsAll(w, refs, h) && k <= |refs|
    ensures FitsAll(w, refs[..k], h) && |Nodes(w, refs[..k], h)| <= |Nodes(w, refs, h)|
    ensures forall i :: 0 <= i < k ==> Fits(w, refs[i], h)
    decreases |refs|
  {
    if k == |refs| {
      assert refs[..k] == refs;
      if k > 0 {
        FitsPrefix(w, refs[..k - 1], h, k - 1);
        assert forall i :: 0 <= i < k - 1 ==> refs[i] == refs[..k - 1][i];
      }
    } else {
      var n := |refs| - 1;
      FitsPrefix(w, refs[..n], h, k);
      assert refs[..n][..k] == refs[..k];
      assert forall i :: 0 <= i < k ==> refs[i] == refs[..n][i];
    }
  }

  lemma {:induction false} WrittenAppend(w: World, sources: map<string, string>, a: seq<Reference>, b: seq<Reference>)
    requires forall i :: 0 <= i < |a| ==> Usable(w, a[i])
    requires forall i :: 0 <= i < |b| ==> Usable(w, b[i])
    ensures Written(w, sources, a + b) == Written(w, Written(w, sources, a), b)
    decreases |b|
  {
    if b == [] {
      assert a + b == a;
    } else {
      var n := |b| - 1;
      assert (a + b)[..|a| + n] == a + b[..n];
      WrittenAppend(w, sources, a, b[..n]);
    }
  }

  // ---- paths and cycles ----

  ghost predicate Edge(w: World, from: Reference, to: Reference) {
    Usable(w, from) && to in SchemaOf(w, from).references
  }

  /** The path leads, reference by reference, to `r`. */
  ghost predicate IsPath(w: World, path: seq<Reference>, r: Reference) {
    path != [] ==> Edge(w, path[|path| - 1], r) && IsPath(w, path[..|path| - 1], path[|path| - 1])
  }

  lemma PathStep(w: World, path: seq<Reference>, r: Reference, child: Reference)
    requires IsPath(w, path, r) && Edge(w, r, child)
    ensures IsPath(w, path + [r], child)
  {
    assert (path + [r])[..|path|] == path;
  }

  ghost function Keys(path: seq<Reference>): set<RefKey> {
    set i | 0 <= i < |path| :: KeyOf(path[i])
  }

  lemma KeysOfLonger(path: seq<Reference>, r: Reference)
    ensures Keys(path + [r]) == Keys(path) + {KeyOf(r)}
  {
    var longer := path + [r];
    assert longer[|path|] == r;
    forall i | 0 <= i < |path| ensures KeyOf(path[i]) in Keys(longer) { assert longer[i] == path[i]; }
    assert KeyOf(longer[|path|]) in Keys(longer);
  }

  lemma ChildFits(w: World, from: Reference, to: Reference, h: nat)
    requires Edge(w, from, to) && Fits(w, from, h)
    ensures Fits(w, to, h - 1)
  {
    var refs := SchemaOf(w, from).references;
    FitsPrefix(w, refs, h - 1, |refs|);
  }

  lemma {:induction false} DescendantFits(w: World, path: seq<Reference>, r: Reference, i: nat, h: nat)
    requires IsPath(w, path, r) && i < |path| && Fits(w, path[i], h)
    ensures h > |path| - i && Fits(w, r, h - (|path| - i))
    decreases |path|
  {
    var n := |path| - 1;
    if i < n {
      DescendantFits(w, path[..n], path[n], i, h);
      ChildFits(w, path[n], r, h - (n - i));
    } else {
      ChildFits(w, path[n], r, h);
    }
  }

  /** A reference that comes back to itself has no finite unfolding. */
  lemma {:induction false} CycleNeverFits(w: World, path: seq<Reference>, r: Reference, i: nat, h: nat)
    requires IsPath(w, path, r) && i < |path| && KeyOf(path[i]) == KeyOf(r)
    ensures !Fits(w, r, h)
    decreases h
  {
    if Fits(w, r, h) {
      assert Fits(w, path[i], h);
      DescendantFits(w, path, r, i, h);
      CycleNeverFits(w, path, r, i, h - (|path| - i));
    }
  }

  // ---- the loader ----

  datatype Limits = Limits(maxBytes: int, maxReferences: int, maxDepth: int)

  const ROOT_FILENAME := "schema.proto"

  const DEFAULTS := Limits(0x10_0000, 100, 20)

  function NormalizeLimits(l: Limits): (r: Limits)
    ensures r.maxBytes > 0 && r.maxReferences > 0 && r.maxDepth > 0
    ensures l.maxBytes > 0 && l.maxReferences > 0 && l.maxDepth > 0 ==> r == l
  {
    Limits(if l.maxBytes <= 0 then DEFAULTS.maxBytes else l.maxBytes,
           if l.maxReferences <= 0 then DEFAULTS.maxReferences else l.maxReferences,
           if l.maxDepth <= 0 then DEFAULTS.maxDepth else l.maxDepth)
  }

  /** Loading succeeds on the tree when `count` references were counted before. */
  ghost predicate Loads(w: World, r: Reference, h: nat, count: nat, maxReferences: int) {
    Fits(w, r, h) && count + |TreeNodes(w, r, h)| <= maxReferences
  }

  ghost predicate LoadsAll(w: World, refs: seq<Reference>, h: nat, count: nat, maxReferences: int) {
    FitsAll(w, refs, h) && count + |Nodes(w, refs, h)| <= maxReferences
  }

  lemma PrefixStep(w: World, refs: seq<Reference>, i: nat, h: nat)
    requires i < |refs| && FitsAll(w, refs[..i], h)
    ensures FitsAll(w, refs[..i + 1], h) <==> Fits(w, refs[i], h)
    ensures Fits(w, refs[i], h) ==> Nodes(w, refs[..i + 1], h) == Nodes(w, refs[..i], h) + TreeNodes(w, refs[i], h)
  {
    assert refs[..i + 1][..i] == refs[..i];
  }

  lemma FailedPrefix(w: World, refs: seq<Reference>, i: nat, h: nat, count: nat, maxReferences: int)
    requires i < |refs| && FitsAll(w, refs[..i], h)
    requires !Loads(w, refs[i], h, count + |Nodes(w, refs[..i], h)|, maxReferences)
    ensures !LoadsAll(w, refs, h, count, maxReferences)
  {
    hide Nodes;
    PrefixStep(w, refs, i, h);
    if FitsAll(w, refs, h) { FitsPrefix(w, refs, h, i + 1); }
  }

  ghost predicate Endless(w: World, r: Reference) {
    forall h: nat :: !Fits(w, r, h)
  }

  lemma EndlessChildren(w: World, r: Reference)
    requires Usable(w, r)
    requires exists i :: 0 <= i < |SchemaOf(w, r).references| && Endless(w, SchemaOf(w, r).references[i])
    ensures Endless(w, r)
  {
    var i :| 0 <= i < |SchemaOf(w, r).references| && Endless(w, SchemaOf(w, r).references[i]);
    forall h: nat ensures !Fits(w, r, h) {
      if Fits(w, r, h) { ChildFits(w, r, SchemaOf(w, r).references[i], h); }
    }
  }

  lemma TreeOf(w: World, r: Reference, h: nat)
    ensures Fits(w, r, h + 1) <==> Usable(w, r) && FitsAll(w, SchemaOf(w, r).references, h)
    ensures Fits(w, r, h + 1) ==> |TreeNodes(w, r, h + 1)| == |Nodes(w, SchemaOf(w, r).references, h)| + 1
  {
  }

  lemma Completed(w: World, r: Reference, h: nat, sources: map<string, string>)
    requires Usable(w, r) && FitsAll(w, SchemaOf(w, r).references, h)
    requires NodesAreUsable(w, Nodes(w, SchemaOf(w, r).references, h))
    ensures Fits(w, r, h + 1) && NodesAreUsable(w, TreeNodes(w, r, h + 1))
    ensures |TreeNodes(w, r, h + 1)| == |Nodes(w, SchemaOf(w, r).references, h)| + 1
    ensures Written(w, sources, TreeNodes(w, r, h + 1))
         == Written(w, sources, Nodes(w, SchemaOf(w, r).references, h))[r.name := SchemaOf(w, r).definition]
  {
    var nodes := Nodes(w, SchemaOf(w, r).references, h);
    assert (nodes + [r])[..|nodes|] == nodes;
  }

  class ReferenceLoader {
    const w: World
    const maxReferences: int
    const maxDepth: int
    var sources: map<string, string>
    var active: set<RefKey>
    var count: nat
    ghost var resolved: nat  // resolver calls so far

    constructor (resolver: Option<RefKey -> Option<Schema>>, limits: Limits, root: string)
      requires limits.maxBytes > 0
      ensures w == World(resolver, limits.maxBytes) && maxReferences == limits.maxReferences
      ensures maxDepth == limits.maxDepth
      ensures sources == map[ROOT_FILENAME := root] && active == {} && count == 0 && resolved == 0
    {
      w, maxReferences, maxDepth := World(resolver, limits.maxBytes), limits.maxReferences, limits.maxDepth;
      sources, active, count, resolved := map[ROOT_FILENAME := root], {}, 0, 0;
    }

    ghost predicate Frugal()
      reads this
    {
      resolved <= count && (resolved > 0 ==> resolved <= maxReferences)
    }

    ghost function Left(depth: int): nat {
      if depth > maxDepth then 0 else maxDepth + 1 - depth
    }

    /** Loads one reference and everything below it. The active set is the set of references on the
        way here, and it is the same again on every exit. */
    method Load(r: Reference, depth: int, ghost path: seq<Reference>) returns (error: Option<LoadError>)
      requires Frugal() && active == Keys(path) && IsPath(w, path, r)
      modifies this`sources, this`active, this`count, this`resolved
      ensures Frugal() && active == old(active)
      ensures error.None? <==> Loads(w, r, Left(depth), old(count), maxReferences)
      ensures error.None? ==> count == old(count) + |TreeNodes(w, r, Left(depth))|
      ensures error.None? ==> NodesAreUsable(w, TreeNodes(w, r, Left(depth)))
      ensures error.None? ==> sources == Written(w, old(sources), TreeNodes(w, r, Left(depth)))
      ensures error == Some(ReferenceCycle) ==> Endless(w, r)
      decreases Left(depth), 1
    {
      if w.resolver.None? { return Some(MissingReference); }
      if depth > maxDepth { return Some(ReferenceDepth); }
      count := count + 1;
      if count > maxReferences { return Some(TooManyReferences); }
      var key := KeyOf(r);
      if key in active {
        ghost var i :| 0 <= i < |path| && KeyOf(path[i]) == key;
        forall h: nat ensures !Fits(w, r, h) { CycleNeverFits(w, path, r, i, h); }
        return Some(ReferenceCycle);
      }
      active := active + {key};
      KeysOfLonger(path, r);
      error := LoadBelow(r, depth, path);
      active := active - {key};
    }

    method LoadBelow(r: Reference, depth: int, ghost path: seq<Reference>) returns (error: Option<LoadError>)
      requires resolved < count <= maxReferences && depth <= maxDepth
      requires active == Keys(path + [r]) && IsPath(w, path, r) && w.resolver.Some?
      modifies this`sources, this`active, this`count, this`resolved
      ensures Frugal() && active == old(active)
      ensures error.None? <==> Loads(w, r, Left(depth), old(count) - 1, maxReferences)
      ensures error.None? ==> count == old(count) - 1 + |TreeNodes(w, r, Left(depth))|
      ensures error.None? ==> NodesAreUsable(w, TreeNodes(w, r, Left(depth)))
      ensures error.None? ==> sources == Written(w, old(sources), TreeNodes(w, r, Left(depth)))
      ensures error == Some(ReferenceCycle) ==> Endless(w, r)
      decreases Left(depth), 0
    {
      hide Fits, FitsAll, Nodes, TreeNodes, Written, Keys, IsPath;
      TreeOf(w, r, Left(depth + 1));
      resolved := resolved + 1;
      var found := w.resolver.value(KeyOf(r));
      if found.None? { return Some(MissingReference); }
      if !found.value.kind.Protobuf? { return Some(ReferenceType); }
      if |found.value.definition| > w.maxBytes { return Some(SchemaTooLarge); }
      var refs := found.value.references;
      forall i | 0 <= i < |refs| ensures IsPath(w, path + [r], refs[i]) { PathStep(w, path, r, refs[i]); }
      error := LoadEach(refs, depth + 1, path + [r]);
      if error.None? {
        Completed(w, r, Left(depth + 1), old(sources));
        sources := sources[r.name := found.value.definition];
      } else if error == Some(ReferenceCycle) {
        EndlessChildren(w, r);
      }
    }

    method LoadEach(refs: seq<Reference>, depth: int, ghost path: seq<Reference>) returns (error: Option<LoadError>)
      requires Frugal() && count <= maxReferences && active == Keys(path)
      requires forall i :: 0 <= i < |refs| ==> IsPath(w, path, refs[i])
      modifies this`sources, this`active, this`count, this`resolved
      ensures Frugal() && active == old(active)
      ensures error.None? <==> LoadsAll(w, refs, Left(depth), old(count), maxReferences)
      ensures error.None? ==> count == old(count) + |Nodes(w, refs, Left(depth))|
      ensures error.None? ==> NodesAreUsable(w, Nodes(w, refs, Left(depth)))
      ensures error.None? ==> sources == Written(w, old(sources), Nodes(w, refs, Left(depth)))
      ensures error == Some(ReferenceCycle) ==> exists i :: 0 <= i < |refs| && Endless(w, refs[i])
      decreases Left(depth), 2
    {
      hide Fits, FitsAll, Nodes, TreeNodes, Written, Keys, IsPath;
      ghost var h := Left(depth);
      NoNodes(w, h, sources);
      error := None;
      for i := 0 to |refs|
        invariant Frugal() && active == old(active) && error.None?
        invariant FitsAll(w, refs[..i], h) && count == old(count) + |Nodes(w, refs[..i], h)| <= maxReferences
        invariant NodesAreUsable(w, Nodes(w, refs[..i], h))
        invariant sources == Written(w, old(sources), Nodes(w, refs[..i], h))
      {
        PrefixStep(w, refs, i, h);
        error := Load(refs[i], depth, path);
        if error.Some? {
          FailedPrefix(w, refs, i, h, old(count), maxReferences);
          return;
        }
        WrittenAppend(w, old(sources), Nodes(w, refs[..i], h), TreeNodes(w, refs[i], h));
      }
      assert refs[..|refs|] == refs;
    }
  }

  ghost function WorldOf(resolver: Option<RefKey -> Option<Schema>>, requested: Limits): World {
    World(resolver, NormalizeLimits(requested).maxBytes)
  }

  /** The root has a definition of allowed size, and the trees of its references fit the limits. */
  ghost predicate RootLoads(w: World, l: Limits, definition: string, refs: seq<Reference>)
    requires l.maxDepth > 0
  {
    && definition != "" && |definition| <= w.maxBytes
    && LoadsAll(w, refs, l.maxDepth, 0, l.maxReferences)
  }

  ghost function RootNodes(
    resolver: Option<RefKey -> Option<Schema>>, requested: Limits, refs: seq<Reference>): seq<Reference>
    requires FitsAll(WorldOf(resolver, requested), refs, NormalizeLimits(requested).maxDepth)
  {
    Nodes(WorldOf(resolver, requested), refs, NormalizeLimits(requested).maxDepth)
  }

  /** The first half of Parse: the root definition, then each of its references at depth one. It
      succeeds exactly when the whole unfolded tree fits the limits, cycles or not, and it asks the
      resolver at most `maxReferences` times. */
  method LoadReferences(
    resolver: Option<RefKey -> Option<Schema>>, requested: Limits, definition: string, refs: seq<Reference>)
    returns (error: Option<LoadError>, sources: map<string, string>, ghost calls: nat)
    ensures error.None? <==> RootLoads(WorldOf(resolver, requested), NormalizeLimits(requested), definition, refs)
    ensures error.None? ==> NodesAreUsable(WorldOf(resolver, requested), RootNodes(resolver, requested, refs))
    ensures error.None? ==>
      sources == Written(WorldOf(resolver, requested), map[ROOT_FILENAME := definition],
          RootNodes(resolver, requested, refs))
    ensures error.None? ==> forall r :: r in RootNodes(resolver, requested, refs) ==>
      && resolver.Some? && resolver.value((r.subject, r.version)).Some?
      && resolver.value((r.subject, r.version)).value.kind == Protobuf
      && |resolver.value((r.subject, r.version)).value.definition| <= NormalizeLimits(requested).maxBytes
    ensures calls <= NormalizeLimits(requested).maxReferences
  {
    hide Written, Keys;
    var limits := NormalizeLimits(requested);
    ghost var w, h := World(resolver, limits.maxBytes), limits.maxDepth;
    if definition == "" { return Some(EmptySchema), map[], 0; }
    if |definition| > limits.maxBytes { return Some(SchemaTooLarge), map[], 0; }
    if |refs| > limits.maxReferences {
      if FitsAll(w, refs, h) { NodesUsable(w, refs, h); }
      return Some(TooManyReferences), map[], 0;
    }
    var loader := new ReferenceLoader(resolver, limits, definition);
    assert Keys([]) == {} by { KeysOfNothing(); }
    error := loader.LoadEach(refs, 1, []);
    sources, calls := loader.sources, loader.resolved;
  }

  lemma KeysOfNothing()
    ensures Keys([]) == {}
  {
  }

  lemma NoNodes(w: World, h: nat, sources: map<string, string>)
    ensures FitsAll(w, [], h) && Nodes(w, [], h) == [] && Written(w, sources, []) == sources
  {
  }

  /** What the source map means: a name read from it is the root file, or gives the definition of
      the last node, in post-order, that carries this name. */
  lemma {:induction false} WrittenMeaning(w: World, sources: map<string, string>, nodes: seq<Reference>, name: string)
    requires NodesAreUsable(w, nodes)
    ensures name in Written(w, sources, nodes) <==>
      name in sources || exists i :: 0 <= i < |nodes| && nodes[i].name == name
    ensures forall i :: 0 <= i < |nodes| && nodes[i].name == name && (forall j :: i < j < |nodes| ==>
      nodes[j].name != name) ==>
      Written(w, sources, nodes)[name] == SchemaOf(w, nodes[i]).definition
    ensures (forall j :: 0 <= j < |nodes| ==> nodes[j].name != name) && name in sources ==>
      Written(w, sources, nodes)[name] == sources[name]
    decreases |nodes|
  {
    if nodes != [] {
      var n := |nodes| - 1;
      WrittenMeaning(w, sources, nodes[..n], name);
      assert forall i :: 0 <= i < n ==> nodes[..n][i] == nodes[i];
    }
  }

  ghost predicate NodesAreUsable(w: World, nodes: seq<Reference>) {
    forall i :: 0 <= i < |nodes| ==> Usable(w, nodes[i])
  }
}

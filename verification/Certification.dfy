/**
 The certified-data registry: assets (v1) and pass-through paths (v2) under one root
 hash, pushed to the system when the call is replicated and deferred when it is not.
 */
module Certification {
  import opened ByteStrings
  import opened SortedEntries
  import opened HashTrees
  import opened ForkTrees
  import opened AssetTrees
  import opened ExprTrees

  /** `certified` is the system's certified-data cell; None until it is first set. */
  datatype State = State(assets: Entries<Bytes>, paths: Entries<()>, pending: bool, certified: Option<Bytes>)

  predicate Sorted(s: State) {
    StrictlySorted(s.assets) && StrictlySorted(s.paths)
  }

  // ─── The combined tree ───────────────────────────────────────────────

  function V1Subtree(h: Hash, layout: Layout, s: State): HashTree
    requires IsLayout(layout)
  {
    Labeled(AssetLabel(), AssetTree(h, layout, s.assets))
  }

  function PathArrays(paths: Entries<()>): (r: seq<Path>)
    ensures |r| == |paths|
    ensures forall i | 0 <= i < |r| :: r[i] == SplitPath(paths[i].0)
  {
    seq(|paths|, i requires 0 <= i < |paths| => SplitPath(paths[i].0))
  }

  function V2Subtree(h: Hash, layout: Layout, s: State): Option<HashTree>
    requires IsLayout(layout)
  {
    if s.paths == [] then None else Some(Labeled(ExprLabel(), ExprTree(h, layout, PathArrays(s.paths), 0)))
  }

  function CombinedRoot(h: Hash, layout: Layout, s: State): HashTree
    requires IsLayout(layout)
  {
    match V2Subtree(h, layout, s)
    case None => V1Subtree(h, layout, s)
    case Some(v2) => Fork(V1Subtree(h, layout, s), v2)
  }

  // ─── Operations on the state ─────────────────────────────────────────

  datatype Op =
    | Insert(path: Bytes, body: Bytes)
    | RegisterPassThroughPath(path: Bytes)
    | NotifyChanged
    | FlushPendingIfUpdate

  /** An operation and whether the call it runs in is replicated (an update). */
  datatype Call = Call(op: Op, replicated: bool)

  function Update(h: Hash, layout: Layout, s: State, replicated: bool): State
    requires IsLayout(layout)
  {
    if !replicated then s.(pending := true)
    else s.(certified := Some(Digest(h, CombinedRoot(h, layout, s))), pending := false)
  }

  function Step(h: Hash, layout: Layout, s: State, c: Call): State
    requires IsLayout(layout)
  {
    match c.op
    case Insert(path, body) => Update(h, layout, s.(assets := Put(s.assets, path, h(body))), c.replicated)
    case RegisterPassThroughPath(path) =>
      Update(h, layout, if Get(s.paths, path).Some? then s else s.(paths := Put(s.paths, path, ())), c.replicated)
    case NotifyChanged => Update(h, layout, s, c.replicated)
    case FlushPendingIfUpdate => if s.pending then Update(h, layout, s, c.replicated) else s
  }

  function Run(h: Hash, layout: Layout, calls: seq<Call>): State
    requires IsLayout(layout)
  {
    if calls == [] then State([], [], false, None)
    else Step(h, layout, Run(h, layout, calls[..|calls| - 1]), calls[|calls| - 1])
  }

  // ─── Witnesses ───────────────────────────────────────────────────────

  function V1Witness(h: Hash, layout: Layout, s: State, path: Bytes): Option<HashTree>
    requires IsLayout(layout)
  {
    if s.assets == [] then None
    else
      var tree := Labeled(AssetLabel(), PrunedAssetTree(h, layout, s.assets, path));
      match V2Subtree(h, layout, s)
      case None => Some(tree)
      case Some(v2) => Some(Fork(tree, Pruned(Digest(h, v2))))
  }

  function V2Witness(h: Hash, layout: Layout, s: State, path: Bytes): Option<HashTree>
    requires IsLayout(layout)
  {
    if Get(s.paths, path) == None then None
    else
      Some(Fork(Pruned(Digest(h, V1Subtree(h, layout, s))),
                Labeled(ExprLabel(), Witness(h, layout, PathArrays(s.paths), SplitPath(path), 0))))
  }

  /** The label list sent as expr_path: the labels from the root to the terminal marker. */
  function ExprPathHeader(path: Bytes): Path {
    [ExprLabel()] + SplitPath(path) + [TerminalMarker()]
  }

  // ─── The registry ────────────────────────────────────────────────────

  class Registry {
    const h: Hash
    const layout: Layout
    var entries: Entries<Bytes>
    var exprEntries: Entries<()>
    var pendingFlush: bool
    var certifiedData: Option<Bytes>

    ghost predicate Valid()
      reads this
    {
      IsLayout(layout) && Sorted(Value())
    }

    function Value(): State
      reads this
    {
      State(entries, exprEntries, pendingFlush, certifiedData)
    }

    constructor (h: Hash, layout: Layout)
      requires IsLayout(layout)
      ensures Valid() && this.h == h && this.layout == layout
      ensures Value() == Run(h, layout, [])
    {
      this.h, this.layout := h, layout;
      entries, exprEntries, pendingFlush, certifiedData := [], [], false, None;
    }

    method Insert(path: Bytes, body: Bytes, replicated: bool)
      requires Valid()
      modifies this
      ensures Valid() && Value() == Step(h, layout, old(Value()), Call(Op.Insert(path, body), replicated))
    {
      PutKeepsOrder(entries, path, h(body));
      entries := Put(entries, path, h(body));
      UpdateCertifiedData(replicated);
    }

    method RegisterPassThroughPath(path: Bytes, replicated: bool)
      requires Valid()
      modifies this
      ensures Valid() && Value() == Step(h, layout, old(Value()), Call(Op.RegisterPassThroughPath(path), replicated))
    {
      if Get(exprEntries, path) == None {
        PutKeepsOrder(exprEntries, path, ());
        exprEntries := Put(exprEntries, path, ());
      }
      NotifyChanged(replicated);
    }

    method NotifyChanged(replicated: bool)
      requires Valid()
      modifies this
      ensures Valid() && Value() == Step(h, layout, old(Value()), Call(Op.NotifyChanged, replicated))
    {
      UpdateCertifiedData(replicated);
    }

    method UpdateCertifiedData(replicated: bool)
      requires Valid()
      modifies `pendingFlush, `certifiedData
      ensures Valid() && Value() == Update(h, layout, old(Value()), replicated)
    {
      if !replicated {
        pendingFlush := true;
        return;
      }
      var root := BuildCombinedRoot();
      certifiedData := Some(Digest(h, root));
      pendingFlush := false;
    }

    method FlushPendingIfUpdate(replicated: bool)
      requires Valid()
      modifies `pendingFlush, `certifiedData
      ensures Valid() && Value() == Step(h, layout, old(Value()), Call(Op.FlushPendingIfUpdate, replicated))
    {
      if !pendingFlush { return; }
      UpdateCertifiedData(replicated);
    }

    method CollectPathArrays() returns (paths: seq<Path>)
      ensures paths == PathArrays(exprEntries)
    {
      paths := [];
      for i := 0 to |exprEntries|
        invariant paths == PathArrays(exprEntries)[..i]
      {
        paths := paths + [SplitPath(exprEntries[i].0)];
      }
    }

    method BuildV2Subtree() returns (v2: Option<HashTree>)
      requires Valid()
      ensures v2 == V2Subtree(h, layout, Value())
    {
      if exprEntries == [] { return None; }
      var paths := CollectPathArrays();
      var inner := BuildSubtree(h, layout, paths, 0);
      v2 := Some(Labeled(ExprLabel(), inner));
    }

    method BuildCombinedRoot() returns (root: HashTree)
      requires Valid()
      ensures root == CombinedRoot(h, layout, Value())
    {
      var assets := BuildAssetTreeImpl(h, layout, entries, None);
      var v1 := Labeled(AssetLabel(), assets);
      var v2 := BuildV2Subtree();
      root := match v2 case None => v1 case Some(t) => Fork(v1, t);
    }

    /** The v1 header's tree; None also when the system certificate is not there. */
    method BuildAssetHeader(path: Bytes, certificatePresent: bool) returns (tree: Option<HashTree>)
      requires Valid()
      ensures tree == if certificatePresent then V1Witness(h, layout, Value(), path) else None
    {
      if entries == [] || !certificatePresent { return None; }
      var inner := BuildAssetTreeImpl(h, layout, entries, Some(path));
      var v1 := Labeled(AssetLabel(), inner);
      var v2 := BuildV2Subtree();
      tree := Some(match v2 case None => v1 case Some(t) => Fork(v1, Pruned(Digest(h, t))));
    }

    /** The v2 header's tree and label list. */
    method BuildExprHeader(path: Bytes, certificatePresent: bool) returns (header: Option<(HashTree, Path)>)
      requires Valid()
      ensures header == match (if certificatePresent then V2Witness(h, layout, Value(), path) else None)
                        case None => None
                        case Some(t) => Some((t, ExprPathHeader(path)))
    {
      if Get(exprEntries, path) == None || !certificatePresent { return None; }
      var segments := SplitPath(path);
      var assets := BuildAssetTreeImpl(h, layout, entries, None);
      var v1 := Labeled(AssetLabel(), assets);
      var paths := CollectPathArrays();
      var full := BuildSubtree(h, layout, paths, 0);
      var tree := Fork(Pruned(Digest(h, v1)), Labeled(ExprLabel(), PruneToPath(h, full, segments, 0)));
      header := Some((tree, [ExprLabel()] + segments + [TerminalMarker()]));
    }
  }

  // ─── What every run keeps ────────────────────────────────────────────

  /** The body last inserted for each path. */
  function LastBodies(calls: seq<Call>): map<Bytes, Bytes> {
    if calls == [] then map[]
    else
      var before := LastBodies(calls[..|calls| - 1]);
      match calls[|calls| - 1].op
      case Insert(path, body) => before[path := body]
      case _ => before
  }

  function RegisteredPaths(calls: seq<Call>): set<Bytes> {
    if calls == [] then {}
    else
      var before := RegisteredPaths(calls[..|calls| - 1]);
      match calls[|calls| - 1].op
      case RegisterPassThroughPath(path) => before + {path}
      case _ => before
  }

  /** The registry's tables hold exactly what the calls so far put there. */
  lemma {:induction false} RunContents(h: Hash, layout: Layout, calls: seq<Call>, q: Bytes)
    requires IsLayout(layout)
    ensures var s := Run(h, layout, calls);
            && Sorted(s)
            && Get(s.assets, q) == (if q in LastBodies(calls) then Some(h(LastBodies(calls)[q])) else None)
            && (Get(s.paths, q).Some? <==> q in RegisteredPaths(calls))
  {
    if calls != [] {
      var before := calls[..|calls| - 1];
      var s := Run(h, layout, before);
      RunContents(h, layout, before, q);
      match calls[|calls| - 1].op
      case Insert(path, body) => PutKeepsOrder(s.assets, path, h(body)); GetAfterPut(s.assets, path, h(body), q);
      case RegisterPassThroughPath(path) =>
        RunContents(h, layout, before, path);
        PutKeepsOrder(s.paths, path, ());
        GetAfterPut(s.paths, path, (), q);
      case _ =>
    }
  }

  /** Once anything is registered, a push is pending or the certified data is the combined root hash. */
  ghost predicate Current(h: Hash, layout: Layout, s: State)
    requires IsLayout(layout)
  {
    s.assets != [] || s.paths != [] || s.certified.Some? ==>
      s.pending || s.certified == Some(Digest(h, CombinedRoot(h, layout, s)))
  }

  lemma {:induction false} EveryRunIsCurrent(h: Hash, layout: Layout, calls: seq<Call>)
    requires IsLayout(layout)
    ensures Current(h, layout, Run(h, layout, calls))
  {
    if calls != [] { EveryRunIsCurrent(h, layout, calls[..|calls| - 1]); }
  }

  /** Any replicated call of the registry leaves the combined root certified, whatever was deferred before it. */
  lemma {:induction false} UpdateSettles(h: Hash, layout: Layout, calls: seq<Call>)
    requires IsLayout(layout) && calls != [] && calls[|calls| - 1].replicated
    ensures var s := Run(h, layout, calls);
            && !s.pending
            && (s.assets != [] || s.paths != [] ==> s.certified == Some(Digest(h, CombinedRoot(h, layout, s))))
  {
    EveryRunIsCurrent(h, layout, calls);
  }

  lemma {:induction false} V1WitnessPrunes(h: Hash, layout: Layout, s: State, path: Bytes)
    requires IsLayout(layout) && V1Witness(h, layout, s, path).Some?
    ensures Prunes(h, CombinedRoot(h, layout, s), V1Witness(h, layout, s, path).value)
  {
    AssetWitnessPrunes(h, layout, s.assets, path);
    assert Prunes(h, V1Subtree(h, layout, s), Labeled(AssetLabel(), PrunedAssetTree(h, layout, s.assets, path)));
    if V2Subtree(h, layout, s).Some? {
      var v2 := V2Subtree(h, layout, s).value;
      assert Prunes(h, v2, Pruned(Digest(h, v2)));
    }
  }

  lemma {:induction false} V2WitnessPrunes(h: Hash, layout: Layout, s: State, path: Bytes)
    requires IsLayout(layout) && V2Witness(h, layout, s, path).Some?
    ensures Prunes(h, CombinedRoot(h, layout, s), V2Witness(h, layout, s, path).value)
  {
    var v1, v2 := V1Subtree(h, layout, s), V2Subtree(h, layout, s).value;
    PruneToPathPrunes(h, v2.subtree, SplitPath(path), 0);
    assert Prunes(h, v2, Labeled(ExprLabel(), Witness(h, layout, PathArrays(s.paths), SplitPath(path), 0)));
    assert Prunes(h, v1, Pruned(Digest(h, v1)));
  }

  /** Whenever nothing is pending, every witness of either version rehashes to the certified data. */
  lemma {:induction false} EveryWitnessVerifies(h: Hash, layout: Layout, calls: seq<Call>, path: Bytes)
    requires IsLayout(layout) && !Run(h, layout, calls).pending
    ensures var s := Run(h, layout, calls);
            && (match V1Witness(h, layout, s, path)
                case None => true
                case Some(w) => s.certified == Some(Digest(h, w)))
            && (match V2Witness(h, layout, s, path)
                case None => true
                case Some(w) => s.certified == Some(Digest(h, w)))
  {
    var s := Run(h, layout, calls);
    var root := CombinedRoot(h, layout, s);
    EveryRunIsCurrent(h, layout, calls);
    if V1Witness(h, layout, s, path).Some? {
      V1WitnessPrunes(h, layout, s, path);
      PruningKeepsDigest(h, root, V1Witness(h, layout, s, path).value);
    }
    if V2Witness(h, layout, s, path).Some? {
      V2WitnessPrunes(h, layout, s, path);
      PruningKeepsDigest(h, root, V2Witness(h, layout, s, path).value);
    }
  }

  // ─── What a verifier finds ───────────────────────────────────────────

  lemma {:induction false} RootLabelsDiffer()
    ensures Less(AssetLabel(), ExprLabel())
  {
    var a, b := AssetLabel(), ExprLabel();
    assert a[..5] == b[..5] == [0x68, 0x74, 0x74, 0x70, 0x5F];
    assert a[5] == 0x61 && b[5] == 0x65;
    LessAt(a, b, 5);
  }

  lemma {:induction false} LessAt(a: Bytes, b: Bytes, k: nat)
    requires k < |a| && k < |b| && a[..k] == b[..k] && a[k] < b[k]
    ensures Less(a, b)
  {
    if k > 0 {
      assert a[0] == a[..k][0] == b[..k][0] == b[0];
      assert a[1..][..k - 1] == a[..k][1..] && b[1..][..k - 1] == b[..k][1..];
      LessAt(a[1..], b[1..], k - 1);
    }
  }

  /** Below the root, a labelled subtree is reached past at most one other node. */
  lemma {:induction false} RootStep(l: Bytes, sub: HashTree, other: HashTree, rest: Path)
    requires other.Pruned? || (other.Labeled? && other.lbl != l)
    ensures Lookup([l] + rest, Labeled(l, sub)) == Lookup(rest, sub)
    ensures Lookup([l] + rest, Fork(Labeled(l, sub), other)) == Lookup(rest, sub)
    ensures Lookup([l] + rest, Fork(other, Labeled(l, sub))) == Lookup(rest, sub)
  {
    var t := Labeled(l, sub);
    assert ([l] + rest)[1..] == rest;
    assert Flatten(t) == [t] && Flatten(other) == [other];
    assert Flatten(Fork(t, other)) == [t, other];
    assert Flatten(Fork(other, t)) == [other, t] && [other, t][1..] == [t];
    assert FirstLabeled(l, [t]) == Some(sub);
    assert FirstLabeled(l, [t, other]) == Some(sub);
    assert FirstLabeled(l, [other, t]) == FirstLabeled(l, [t]);
  }

  /**
   For every run, the v1 witness for a path finds the hash of the body last inserted
   there; for any other path it answers Unknown, never that the path is absent.
   */
  lemma {:induction false} V1WitnessAnswers(h: Hash, layout: Layout, calls: seq<Call>, path: Bytes)
    requires IsLayout(layout) && V1Witness(h, layout, Run(h, layout, calls), path).Some?
    ensures Lookup([AssetLabel(), path], V1Witness(h, layout, Run(h, layout, calls), path).value)
         == if path in LastBodies(calls) then Found(h(LastBodies(calls)[path])) else Unknown
  {
    var s := Run(h, layout, calls);
    RunContents(h, layout, calls, path);
    AssetWitnessShape(h, layout, s.assets, path);
    RootStep(AssetLabel(), PrunedAssetTree(h, layout, s.assets, path),
             Pruned(match V2Subtree(h, layout, s) case None => [] case Some(v2) => Digest(h, v2)), [path]);
    assert [AssetLabel()] + [path] == [AssetLabel(), path];
  }

  ghost predicate PathsDoNotClash(s: State) {
    NoClash(PathArrays(s.paths), 0)
  }

  /** A verifier can follow the path's expr_path and the expression hash to the empty leaf. */
  predicate V2Finds(h: Hash, layout: Layout, s: State, path: Bytes)
    requires IsLayout(layout)
  {
    match V2Witness(h, layout, s, path)
    case None => false
    case Some(w) => Lookup(ExprPathHeader(path) + [PassThroughExprHash(h)], w) == Found([])
  }

  /**
   In every reachable state, each registered path's v2 witness lets a verifier follow
   expr_path and the expression hash to the empty leaf, exactly when no registered path
   continues another with the terminal marker as its next segment.
   */
  lemma {:induction false} V2WitnessesCompleteIff(h: Hash, layout: Layout, calls: seq<Call>)
    requires IsLayout(layout)
    ensures PathsDoNotClash(Run(h, layout, calls))
       <==> forall path | path in RegisteredPaths(calls) :: V2Finds(h, layout, Run(h, layout, calls), path)
  {
    var s := Run(h, layout, calls);
    var arrays := PathArrays(s.paths);
    WitnessCompleteIff(h, layout, arrays);
    forall path | path in RegisteredPaths(calls)
      ensures SplitPath(path) in arrays && V2Finds(h, layout, s, path) == PathFound(h, layout, arrays, SplitPath(path))
    {
      V2FindsItsPath(h, layout, calls, path);
    }
    forall p | p in arrays ensures exists path :: path in RegisteredPaths(calls) && SplitPath(path) == p {
      var path := ListedIsRegistered(h, layout, calls, p);
    }
  }

  lemma {:induction false} V2FindsItsPath(h: Hash, layout: Layout, calls: seq<Call>, path: Bytes)
    requires IsLayout(layout) && path in RegisteredPaths(calls)
    ensures var s := Run(h, layout, calls);
            && SplitPath(path) in PathArrays(s.paths)
            && V2Finds(h, layout, s, path) == PathFound(h, layout, PathArrays(s.paths), SplitPath(path))
  {
    var s := Run(h, layout, calls);
    RunContents(h, layout, calls, path);
    RegisteredIsListed(s, path);
    V2LookupBelowRoot(h, layout, s, path);
  }

  lemma {:induction false} ListedIsRegistered(h: Hash, layout: Layout, calls: seq<Call>, p: Path) returns (path: Bytes)
    requires IsLayout(layout) && p in PathArrays(Run(h, layout, calls).paths)
    ensures path in RegisteredPaths(calls) && SplitPath(path) == p
  {
    var paths := Run(h, layout, calls).paths;
    var i :| 0 <= i < |paths| && PathArrays(paths)[i] == p;
    path := paths[i].0;
    RunContents(h, layout, calls, path);
    assert paths[i] in paths;
    GetIsMembership(paths, path, paths[i].1);
  }

  lemma {:induction false} RegisteredIsListed(s: State, path: Bytes)
    requires Sorted(s) && Get(s.paths, path).Some?
    ensures SplitPath(path) in PathArrays(s.paths)
  {
    var unit := Get(s.paths, path).value;
    GetIsMembership(s.paths, path, unit);
    var i :| 0 <= i < |s.paths| && s.paths[i] == (path, unit);
    assert PathArrays(s.paths)[i] == SplitPath(path);
  }

  lemma {:induction false} V2LookupBelowRoot(h: Hash, layout: Layout, s: State, path: Bytes)
    requires IsLayout(layout) && V2Witness(h, layout, s, path).Some?
    ensures Lookup(ExprPathHeader(path) + [PassThroughExprHash(h)], V2Witness(h, layout, s, path).value)
         == Lookup(ExprPath(h, SplitPath(path)), Witness(h, layout, PathArrays(s.paths), SplitPath(path), 0))
  {
    var segments := SplitPath(path);
    var sub := Witness(h, layout, PathArrays(s.paths), segments, 0);
    RootStep(ExprLabel(), sub, Pruned(Digest(h, V1Subtree(h, layout, s))), ExprPath(h, segments));
    assert ExprPathHeader(path) + [PassThroughExprHash(h)] == [ExprLabel()] + ExprPath(h, segments);
  }

  /**
   The combined tree is sorted at every level, under the same condition, so pruned lookups in it
   only lose information.
   */
  lemma {:induction false} EveryLookupIsSound(h: Hash, layout: Layout, calls: seq<Call>, path: Bytes, query: Path)
    requires IsLayout(layout) && PathsDoNotClash(Run(h, layout, calls))
    ensures var s := Run(h, layout, calls);
            var answer := Lookup(query, CombinedRoot(h, layout, s));
            && (match V1Witness(h, layout, s, path)
                case None => true
                case Some(w) => Lookup(query, w) == answer || Lookup(query, w) == Unknown)
            && (match V2Witness(h, layout, s, path)
                case None => true
                case Some(w) => Lookup(query, w) == answer || Lookup(query, w) == Unknown)
  {
    var s := Run(h, layout, calls);
    var root := CombinedRoot(h, layout, s);
    RunContents(h, layout, calls, path);
    CombinedRootSorted(h, layout, s);
    if V1Witness(h, layout, s, path).Some? {
      V1WitnessPrunes(h, layout, s, path);
      PruningOnlyLosesInformation(h, root, V1Witness(h, layout, s, path).value, query);
    }
    if V2Witness(h, layout, s, path).Some? {
      V2WitnessPrunes(h, layout, s, path);
      PruningOnlyLosesInformation(h, root, V2Witness(h, layout, s, path).value, query);
    }
  }

  lemma {:induction false} CombinedRootSorted(h: Hash, layout: Layout, s: State)
    requires IsLayout(layout) && Sorted(s)
    ensures SortedTree(CombinedRoot(h, layout, s)) <==> PathsDoNotClash(s) || s.paths == []
  {
    var v1 := V1Subtree(h, layout, s);
    AssetTreeSorted(h, layout, s.assets);
    LabeledSorted(AssetLabel(), v1.subtree);
    if V2Subtree(h, layout, s).Some? {
      var v2 := V2Subtree(h, layout, s).value;
      ExprTreeSortedIff(h, layout, PathArrays(s.paths), 0);
      LabeledSorted(ExprLabel(), v2.subtree);
      RootLabelsDiffer();
      assert Flatten(Fork(v1, v2)) == [v1, v2];
    }
  }

  lemma {:induction false} LabeledSorted(l: Bytes, sub: HashTree)
    ensures SortedTree(Labeled(l, sub)) <==> SortedTree(sub)
  {
    assert Flatten(Labeled(l, sub)) == [Labeled(l, sub)];
  }

  // ─── What the certified data binds ───────────────────────────────────

  lemma {:induction false} RootIsWhole(h: Hash, layout: Layout, s: State)
    requires IsLayout(layout)
    ensures Whole(CombinedRoot(h, layout, s))
  {
    AssetTreeIsWhole(h, layout, s.assets);
    if s.paths != [] { ExprTreeIsWhole(h, layout, PathArrays(s.paths), 0); }
  }

  /** Something is registered, and it is certified. */
  predicate Settled(s: State) { !s.pending && (s.assets != [] || s.paths != []) }

  lemma {:induction false} SettledIsCertified(h: Hash, layout: Layout, calls: seq<Call>)
    requires IsLayout(layout) && Settled(Run(h, layout, calls))
    ensures var s := Run(h, layout, calls); s.certified == Some(Digest(h, CombinedRoot(h, layout, s)))
  {
    EveryRunIsCurrent(h, layout, calls);
  }

  /**
   Any tree at all, whoever made it, that rehashes to the certified data answers every query as
   the combined tree does, or Unknown; or it and the combined tree exhibit a collision.
   */
  lemma {:induction false} AnyVerifyingTreeIsSound(h: Hash, layout: Layout, calls: seq<Call>, u: HashTree, query: Path)
      returns (x: Bytes, y: Bytes)
    requires IsLayout(layout) && IsDigestFunction(h) && Settled(Run(h, layout, calls))
    requires PathsDoNotClash(Run(h, layout, calls))
    requires WellFormed(u) && Run(h, layout, calls).certified == Some(Digest(h, u))
    ensures var root := CombinedRoot(h, layout, Run(h, layout, calls));
            || Lookup(query, u) == Lookup(query, root) || Lookup(query, u) == Unknown
            || Collides(h, root, u, x, y)
  {
    var s := Run(h, layout, calls);
    var root := CombinedRoot(h, layout, s);
    SettledIsCertified(h, layout, calls);
    RootIsWhole(h, layout, s);
    x, y := RootHashBinds(h, root, u);
    RunContents(h, layout, calls, []);
    CombinedRootSorted(h, layout, s);
    if Prunes(h, root, u) { PruningOnlyLosesInformation(h, root, u, query); }
  }

  /** The combined tree itself finds exactly the registered bodies' hashes. */
  lemma {:induction false} RootAnswers(h: Hash, layout: Layout, calls: seq<Call>, path: Bytes)
    requires IsLayout(layout)
    ensures var answer := Lookup([AssetLabel(), path], CombinedRoot(h, layout, Run(h, layout, calls)));
            if path in LastBodies(calls) then answer == Found(h(LastBodies(calls)[path])) else !answer.Found?
  {
    var s := Run(h, layout, calls);
    RunContents(h, layout, calls, path);
    RootLabelsDiffer();
    LessIsStrict(AssetLabel(), AssetLabel());
    var assets := AssetTree(h, layout, s.assets);
    RootStep(AssetLabel(), assets, match V2Subtree(h, layout, s) case None => Pruned([]) case Some(v2) => v2, [path]);
    assert [AssetLabel()] + [path] == [AssetLabel(), path];
    AssetAnswers(h, layout, s.assets, path);
  }

  lemma {:induction false} AssetAnswers(h: Hash, layout: Layout, entries: Entries<Bytes>, path: Bytes)
    requires IsLayout(layout) && StrictlySorted(entries)
    ensures match Get(entries, path)
            case None => !Lookup([path], AssetTree(h, layout, entries)).Found?
            case Some(v) => Lookup([path], AssetTree(h, layout, entries)) == Found(v)
  {
    assert [path][1..] == [];
    if entries != [] {
      var leaves := AssetLeaves(h, entries, None);
      FlattenArrange(layout.shape(|entries|), leaves);
      FirstLabeledOfEntries(path, leaves);
      LeavesGet(h, entries, path);
    }
  }

  /**
   The certified data binds what is registered: two histories that end with the same certified
   data have the same body under every path, or exhibit a collision of strings hashed for them.
   */
  lemma {:induction false} SameDataSameBodies(h: Hash, layout: Layout, calls: seq<Call>, others: seq<Call>, path: Bytes)
      returns (x: Bytes, y: Bytes)
    requires IsLayout(layout) && IsDigestFunction(h)
    requires Settled(Run(h, layout, calls)) && Settled(Run(h, layout, others))
    requires Run(h, layout, calls).certified == Run(h, layout, others).certified
    ensures var b, c := LastBodies(calls), LastBodies(others);
            var t, u := CombinedRoot(h, layout, Run(h, layout, calls)), CombinedRoot(h, layout, Run(h, layout, others));
            || ((path in b <==> path in c) && (path in b ==> b[path] == c[path]))
            || Collides(h, t, u, x, y)
            || (path in b && path in c && x == b[path] && y == c[path] && x != y && h(x) == h(y))
  {
    var t, u := CombinedRoot(h, layout, Run(h, layout, calls)), CombinedRoot(h, layout, Run(h, layout, others));
    SettledIsCertified(h, layout, calls);
    SettledIsCertified(h, layout, others);
    RootIsWhole(h, layout, Run(h, layout, calls));
    RootIsWhole(h, layout, Run(h, layout, others));
    WholeIsWellFormed(u);
    x, y := RootHashBinds(h, t, u);
    if Prunes(h, t, u) {
      WholePruningIsEqual(h, t, u);
      RootAnswers(h, layout, calls, path);
      RootAnswers(h, layout, others, path);
      if path in LastBodies(calls) && path in LastBodies(others) {
        x, y := LastBodies(calls)[path], LastBodies(others)[path];
      }
    }
  }
}

/** The v1 "http_assets" tree and its pruned witness. */
module AssetTrees {
  import opened ByteStrings
  import opened SortedEntries
  import opened HashTrees
  import opened ForkTrees

  function AssetLabel(): Bytes { Ascii("http_assets") }

  /** One labelled leaf per asset; with a path to reveal, every other leaf is cut to its hash. */
  function AssetLeaf(h: Hash, entry: (Bytes, Bytes), shown: Option<Bytes>): (Bytes, HashTree) {
    var leaf := Leaf(entry.1);
    (entry.0, if shown.Some? && entry.0 != shown.value then Pruned(Digest(h, leaf)) else leaf)
  }

  function AssetLeaves(h: Hash, entries: Entries<Bytes>, shown: Option<Bytes>): (r: Entries<HashTree>)
    ensures |r| == |entries|
    ensures forall i | 0 <= i < |r| :: r[i] == AssetLeaf(h, entries[i], shown)
  {
    if entries == [] then []
    else AssetLeaves(h, entries[..|entries| - 1], shown) + [AssetLeaf(h, entries[|entries| - 1], shown)]
  }

  function Collapse(h: Hash, t: HashTree): HashTree {
    match t
    case Fork(left, right) =>
      var l, r := Collapse(h, left), Collapse(h, right);
      if l.Pruned? && r.Pruned? then Pruned(Digest(h, Fork(l, r))) else Fork(l, r)
    case Labeled(lbl, subtree) =>
      var s := Collapse(h, subtree);
      if s.Pruned? then Pruned(Digest(h, Labeled(lbl, s))) else Labeled(lbl, s)
    case _ => t
  }

  function AssetTree(h: Hash, layout: Layout, entries: Entries<Bytes>): HashTree
    requires Leaves(layout.shape(|entries|)) == |entries|
  {
    if entries == [] then Empty else BuildBalancedLabeled(layout, AssetLeaves(h, entries, None))
  }

  function PrunedAssetTree(h: Hash, layout: Layout, entries: Entries<Bytes>, path: Bytes): HashTree
    requires Leaves(layout.shape(|entries|)) == |entries|
  {
    if entries == [] then Empty
    else Collapse(h, BuildBalancedLabeled(layout, AssetLeaves(h, entries, Some(path))))
  }

  method BuildAssetTreeImpl(h: Hash, layout: Layout, entries: Entries<Bytes>, shown: Option<Bytes>)
    returns (tree: HashTree)
    requires IsLayout(layout)
    ensures shown == None ==> tree == AssetTree(h, layout, entries)
    ensures shown.Some? ==> tree == PrunedAssetTree(h, layout, entries, shown.value)
  {
    if entries == [] { return Empty; }
    var pairs: Entries<HashTree> := [];
    for i := 0 to |entries|
      invariant pairs == AssetLeaves(h, entries[..i], shown)
    {
      pairs := pairs + [AssetLeaf(h, entries[i], shown)];
      assert entries[..i + 1][..i] == entries[..i];
    }
    assert entries[..|entries|] == entries;
    tree := BuildBalancedLabeled(layout, pairs);
    if shown.Some? { tree := Collapse(h, tree); }
  }

  // ─── What the witness keeps ──────────────────────────────────────────

  lemma {:induction false} CollapsePrunes(h: Hash, t: HashTree)
    ensures Prunes(h, t, Collapse(h, t))
  {
    match t
    case Fork(l, r) =>
      CollapsePrunes(h, l);
      CollapsePrunes(h, r);
      PruningKeepsDigest(h, l, Collapse(h, l));
      PruningKeepsDigest(h, r, Collapse(h, r));
    case Labeled(_, s) =>
      CollapsePrunes(h, s);
      PruningKeepsDigest(h, s, Collapse(h, s));
    case _ =>
  }

  /** The collapsed witness is the full tree with subtrees replaced by their hashes. */
  lemma {:induction false} AssetWitnessPrunes(h: Hash, layout: Layout, entries: Entries<Bytes>, path: Bytes)
    requires IsLayout(layout)
    ensures Prunes(h, AssetTree(h, layout, entries), PrunedAssetTree(h, layout, entries, path))
  {
    if entries != [] {
      var s := layout.shape(|entries|);
      var full, cut := AssetLeaves(h, entries, None), AssetLeaves(h, entries, Some(path));
      PruneArrange(h, s, full, cut);
      CollapsePrunes(h, Arrange(s, cut));
      PruningComposes(h, Arrange(s, full), Arrange(s, cut), Collapse(h, Arrange(s, cut)));
    }
  }

  /** The full tree prunes nothing. */
  lemma {:induction false} AssetTreeIsWhole(h: Hash, layout: Layout, entries: Entries<Bytes>)
    requires IsLayout(layout)
    ensures Whole(AssetTree(h, layout, entries))
  {
    if entries != [] { ArrangeIsWhole(layout.shape(|entries|), AssetLeaves(h, entries, None)); }
  }

  /** The full tree as a table from path to body hash. */
  lemma {:induction false} LeavesGet(h: Hash, entries: Entries<Bytes>, path: Bytes)
    requires StrictlySorted(entries)
    ensures Get(AssetLeaves(h, entries, None), path)
         == match Get(entries, path) case None => None case Some(v) => Some(Leaf(v))
  {
    var leaves := AssetLeaves(h, entries, None);
    SameKeys(entries, leaves);
    match Get(entries, path)
    case None =>
      GetIsMembership(entries, path, []);
      GetIsMembership(leaves, path, Empty);
    case Some(v) =>
      GetIsMembership(entries, path, v);
      var i :| 0 <= i < |entries| && entries[i] == (path, v);
      assert leaves[i] in leaves;
      GetIsMembership(leaves, path, Leaf(v));
  }

  lemma {:induction false} AssetTreeSorted(h: Hash, layout: Layout, entries: Entries<Bytes>)
    requires IsLayout(layout) && StrictlySorted(entries)
    ensures SortedTree(AssetTree(h, layout, entries))
  {
    if entries != [] {
      var pairs := AssetLeaves(h, entries, None);
      forall e | e in pairs ensures SortedTree(e.1) {
        var i :| 0 <= i < |pairs| && pairs[i] == e;
      }
      SortedBuild(layout, pairs);
    }
  }

  // ─── Shape of the witness ────────────────────────────────────────────

  function NodeCount(t: HashTree): nat {
    match t
    case Fork(l, r) => 1 + NodeCount(l) + NodeCount(r)
    case Labeled(_, s) => 1 + NodeCount(s)
    case _ => 1
  }

  function ForkHeight(t: HashTree): nat {
    match t
    case Fork(l, r) => 1 + if ForkHeight(l) > ForkHeight(r) then ForkHeight(l) else ForkHeight(r)
    case _ => 0
  }

  /** Nothing in the tree could be cut further: no fork of two pruned nodes, no label over one. */
  predicate Compact(t: HashTree) {
    match t
    case Fork(l, r) => !(l.Pruned? && r.Pruned?) && Compact(l) && Compact(r)
    case Labeled(_, s) => !s.Pruned? && Compact(s)
    case _ => true
  }

  /** One revealed leaf; every other branch is a single pruned node. */
  predicate Spine(t: HashTree, path: Bytes, value: Bytes) {
    match t
    case Fork(l, r) => (l.Pruned? && Spine(r, path, value)) || (Spine(l, path, value) && r.Pruned?)
    case Labeled(lbl, s) => lbl == path && s == Leaf(value)
    case _ => false
  }

  lemma {:induction false} SpineFacts(t: HashTree, path: Bytes, value: Bytes)
    requires Spine(t, path, value)
    ensures Compact(t) && NodeCount(t) == 2 * Depth(t) + 2
    ensures FirstLabeled(path, Flatten(t)) == Some(Leaf(value))
  {
    if t.Fork? {
      if t.left.Pruned? {
        SpineFacts(t.right, path, value);
        assert Flatten(t)[1..] == Flatten(t.right);
      } else {
        SpineFacts(t.left, path, value);
        FirstLabeledAppend(path, Flatten(t.left), Flatten(t.right));
      }
    }
  }

  /** Forks above the revealed leaf. */
  function Depth(t: HashTree): nat {
    match t
    case Fork(l, r) => 1 + if l.Pruned? then Depth(r) else Depth(l)
    case _ => 0
  }

  /** What collapsing leaves of a tree in which only `path`, if it is there, is revealed. */
  predicate Cut(h: Hash, full: HashTree, path: Bytes, body: Option<Bytes>) {
    var t := Collapse(h, full);
    match body
    case None => t.Pruned?
    case Some(v) => Spine(t, path, v) && Depth(t) <= ForkHeight(full)
  }

  lemma {:induction false} CutFork(h: Hash, l: HashTree, r: HashTree, path: Bytes, bl: Option<Bytes>, br: Option<Bytes>)
    requires Cut(h, l, path, bl) && Cut(h, r, path, br) && (bl == None || br == None)
    ensures Cut(h, Fork(l, r), path, if bl.Some? then bl else br)
  {
  }

  lemma {:induction false} CollapseArranged(h: Hash, s: Shape, entries: Entries<Bytes>, path: Bytes)
    requires Dense(s) && Leaves(s) == |entries| && StrictlySorted(entries)
    ensures Cut(h, Arrange(s, AssetLeaves(h, entries, Some(path))), path, Get(entries, path))
  {
    var pairs := AssetLeaves(h, entries, Some(path));
    match s
    case Single =>
      assert entries[1..] == [];
    case Pair(l, r) =>
      var k := Leaves(l);
      assert AssetLeaves(h, entries[..k], Some(path)) == pairs[..k];
      assert AssetLeaves(h, entries[k..], Some(path)) == pairs[k..];
      CollapseArranged(h, l, entries[..k], path);
      CollapseArranged(h, r, entries[k..], path);
      GetSplit(entries, k, path);
      CutFork(h, Arrange(l, pairs[..k]), Arrange(r, pairs[k..]), path, Get(entries[..k], path),
              Get(entries[k..], path));
  }

  lemma {:induction false} GetSplit<V>(es: Entries<V>, k: nat, q: Bytes)
    requires k <= |es| && StrictlySorted(es)
    ensures Get(es, q) == if Get(es[..k], q).Some? then Get(es[..k], q) else Get(es[k..], q)
    ensures !(Get(es[..k], q).Some? && Get(es[k..], q).Some?)
  {
    if k > 0 {
      GetSplit(es[1..], k - 1, q);
      assert es[1..][..k - 1] == es[..k][1..];
      assert es[1..][k - 1..] == es[k..];
      if es[0].0 == q && Get(es[k..], q).Some? {
        GetIsMembership(es[k..], q, Get(es[k..], q).value);
        LessIsStrict(q, q);
      }
    }
  }

  /**
   The witness for a path finds its body hash if and only if the path is registered;
   otherwise the whole tree is one pruned node. Nothing in it can be cut further and
   its size is bounded by the height of the full fork tree.
   */
  lemma {:induction false} AssetWitnessShape(h: Hash, layout: Layout, entries: Entries<Bytes>, path: Bytes)
    requires IsLayout(layout) && StrictlySorted(entries) && entries != []
    ensures var t := PrunedAssetTree(h, layout, entries, path);
            && Compact(t)
            && NodeCount(t) <= 2 * ForkHeight(AssetTree(h, layout, entries)) + 2
            && match Get(entries, path)
               case None => t.Pruned? && Lookup([path], t) == Unknown
               case Some(v) => Lookup([path], t) == Found(v)
  {
    var s := layout.shape(|entries|);
    var t := PrunedAssetTree(h, layout, entries, path);
    CollapseArranged(h, s, entries, path);
    ArrangedHeight(s, AssetLeaves(h, entries, None));
    ArrangedHeight(s, AssetLeaves(h, entries, Some(path)));
    match Get(entries, path)
    case None =>
      PrunedAnswersUnknown([path], t.digest);
    case Some(v) =>
      SpineFacts(t, path, v);
      assert [path][1..] == [];
  }

  lemma {:induction false} ArrangedHeight(s: Shape, pairs: Entries<HashTree>)
    requires |pairs| == Leaves(s)
    ensures ForkHeight(Arrange(s, pairs)) == Height(s)
  {
    match s
    case Nothing =>
    case Single =>
    case Pair(l, r) =>
      ArrangedHeight(l, pairs[..Leaves(l)]);
      ArrangedHeight(r, pairs[Leaves(l)..]);
  }

  /** With the list halved at every fork, the witness is logarithmic in the number of assets. */
  lemma {:induction false} WitnessIsLogarithmic(h: Hash, layout: Layout, entries: Entries<Bytes>, path: Bytes, k: nat)
    requires Halves(layout.shape) && Sorts(layout.sort) && StrictlySorted(entries) && 0 < |entries| <= Pow2(k)
    ensures IsLayout(layout) && NodeCount(PrunedAssetTree(h, layout, entries, path)) <= 2 * k + 2
  {
    HalvingIsLayout(layout);
    AssetWitnessShape(h, layout, entries, path);
    ArrangedHeight(layout.shape(|entries|), AssetLeaves(h, entries, None));
    HalvedHeight(layout.shape(|entries|), |entries|, k);
  }
}

/**
 Fork trees over a list of labelled children. A layout chooses the fork shape from the
 number of children alone, and sorts children by label, in any order where labels are equal;
 the results hold for every layout. Halving the list, as `BuildBalancedLabeled` does, is one shape.
 */
module ForkTrees {
  import opened ByteStrings
  import opened SortedEntries
  import opened HashTrees

  datatype Shape = Nothing | Single | Pair(left: Shape, right: Shape)

  function Leaves(s: Shape): nat {
    match s
    case Nothing => 0
    case Single => 1
    case Pair(l, r) => Leaves(l) + Leaves(r)
  }

  predicate Dense(s: Shape) {
    match s
    case Nothing => false
    case Single => true
    case Pair(l, r) => Dense(l) && Dense(r)
  }

  datatype Layout = Layout(shape: nat -> Shape, sort: Entries<HashTree> -> Entries<HashTree>)

  ghost predicate IsLayout(layout: Layout) {
    && (forall n: nat :: Leaves(layout.shape(n)) == n && (n == 0 || Dense(layout.shape(n))))
    && Sorts(layout.sort)
  }

  /** Some ordering by label of whatever list it is given. */
  ghost predicate Sorts(sort: Entries<HashTree> -> Entries<HashTree>) {
    forall cs :: Ordered(sort(cs)) && multiset(sort(cs)) == multiset(cs)
  }

  function Arrange(s: Shape, pairs: Entries<HashTree>): HashTree
    requires |pairs| == Leaves(s)
  {
    match s
    case Nothing => Empty
    case Single => Labeled(pairs[0].0, pairs[0].1)
    case Pair(l, r) => Fork(Arrange(l, pairs[..Leaves(l)]), Arrange(r, pairs[Leaves(l)..]))
  }

  function BuildBalancedLabeled(layout: Layout, pairs: Entries<HashTree>): HashTree
    requires Leaves(layout.shape(|pairs|)) == |pairs|
  {
    Arrange(layout.shape(|pairs|), pairs)
  }

  function AsLabeled(pairs: Entries<HashTree>): (r: seq<HashTree>)
    ensures |r| == |pairs|
  {
    seq(|pairs|, i requires 0 <= i < |pairs| => Labeled(pairs[i].0, pairs[i].1))
  }

  /** The in-order labels of a built tree are the input list. */
  lemma {:induction false} FlattenArrange(s: Shape, pairs: Entries<HashTree>)
    requires |pairs| == Leaves(s)
    ensures Flatten(Arrange(s, pairs)) == AsLabeled(pairs)
  {
    match s
    case Nothing =>
    case Single =>
    case Pair(l, r) =>
      FlattenArrange(l, pairs[..Leaves(l)]);
      FlattenArrange(r, pairs[Leaves(l)..]);
  }

  lemma {:induction false} SortedArrange(s: Shape, pairs: Entries<HashTree>)
    requires |pairs| == Leaves(s)
    ensures SortedBelow(Arrange(s, pairs)) <==> forall e | e in pairs :: SortedTree(e.1)
  {
    match s
    case Nothing =>
    case Single =>
      assert pairs == [pairs[0]];
    case Pair(l, r) =>
      SortedArrange(l, pairs[..Leaves(l)]);
      SortedArrange(r, pairs[Leaves(l)..]);
      assert pairs == pairs[..Leaves(l)] + pairs[Leaves(l)..];
  }

  /** A built tree is sorted exactly when its labels are and its children are. */
  lemma {:induction false} SortedBuild(layout: Layout, pairs: Entries<HashTree>)
    requires IsLayout(layout)
    ensures SortedTree(BuildBalancedLabeled(layout, pairs))
       <==> StrictlySorted(pairs) && forall e | e in pairs :: SortedTree(e.1)
  {
    var s := layout.shape(|pairs|);
    FlattenArrange(s, pairs);
    SortedArrange(s, pairs);
    if LabelsSorted(AsLabeled(pairs)) {
      forall i, j | 0 <= i < j < |pairs| ensures Less(pairs[i].0, pairs[j].0) {
        assert AsLabeled(pairs)[i].Labeled? && AsLabeled(pairs)[j].Labeled?;
      }
    }
  }

  lemma {:induction false} ArrangeIsWhole(s: Shape, pairs: Entries<HashTree>)
    requires |pairs| == Leaves(s) && forall e | e in pairs :: Whole(e.1)
    ensures Whole(Arrange(s, pairs))
  {
    match s
    case Nothing =>
    case Single =>
    case Pair(l, r) =>
      ArrangeIsWhole(l, pairs[..Leaves(l)]);
      ArrangeIsWhole(r, pairs[Leaves(l)..]);
  }

  lemma {:induction false} PruneArrange(h: Hash, s: Shape, pairs: Entries<HashTree>, cut: Entries<HashTree>)
    requires |pairs| == |cut| == Leaves(s)
    requires forall i | 0 <= i < |pairs| :: pairs[i].0 == cut[i].0 && Prunes(h, pairs[i].1, cut[i].1)
    ensures Prunes(h, Arrange(s, pairs), Arrange(s, cut))
  {
    match s
    case Nothing =>
    case Single =>
    case Pair(l, r) =>
      PruneArrange(h, l, pairs[..Leaves(l)], cut[..Leaves(l)]);
      PruneArrange(h, r, pairs[Leaves(l)..], cut[Leaves(l)..]);
  }

  // ─── Halving ─────────────────────────────────────────────────────────

  /** The shape of `n` children halved at every fork. */
  predicate IsHalved(s: Shape, n: nat) {
    match s
    case Nothing => n == 0
    case Single => n == 1
    case Pair(l, r) => n > 1 && IsHalved(l, n / 2) && IsHalved(r, n - n / 2)
  }

  ghost predicate Halves(shape: nat -> Shape) {
    forall n: nat :: IsHalved(shape(n), n)
  }

  lemma {:induction false} HalvedFits(s: Shape, n: nat)
    requires IsHalved(s, n)
    ensures Leaves(s) == n && (n == 0 || Dense(s))
    decreases s
  {
    match s
    case Pair(l, r) => HalvedFits(l, n / 2); HalvedFits(r, n - n / 2);
    case _ =>
  }

  lemma {:induction false} HalvingIsLayout(layout: Layout)
    requires Halves(layout.shape) && Sorts(layout.sort)
    ensures IsLayout(layout)
  {
    forall n: nat ensures Leaves(layout.shape(n)) == n && (n == 0 || Dense(layout.shape(n))) {
      assert IsHalved(layout.shape(n), n);
      HalvedFits(layout.shape(n), n);
    }
  }

  function Halved(n: nat): (s: Shape)
    ensures IsHalved(s, n)
  {
    if n == 0 then Nothing else if n == 1 then Single else Pair(Halved(n / 2), Halved(n - n / 2))
  }

  lemma {:induction false} HalvedHalves()
    ensures Halves(Halved)
  {
    assert forall n: nat :: IsHalved(Halved(n), n);
  }

  /** Halving after an insertion sort is a layout. */
  lemma {:induction false} HalvedInsertion()
    ensures IsLayout(Layout(Halved, cs => InsertionSorted(cs)))
  {
    HalvedHalves();
    var layout := Layout(Halved, cs => InsertionSorted(cs));
    forall cs: Entries<HashTree> ensures Ordered(layout.sort(cs)) && multiset(layout.sort(cs)) == multiset(cs) {
      InsertionSortSorts(cs);
    }
    HalvingIsLayout(layout);
  }

  function BuildRange(pairs: Entries<HashTree>, lo: nat, hi: nat): HashTree
    requires lo < hi <= |pairs|
    decreases hi - lo
  {
    if hi - lo == 1 then Labeled(pairs[lo].0, pairs[lo].1)
    else
      var mid := lo + (hi - lo) / 2;
      Fork(BuildRange(pairs, lo, mid), BuildRange(pairs, mid, hi))
  }

  lemma {:induction false} PairArranged(l: Shape, r: Shape, pairs: Entries<HashTree>, lo: nat, mid: nat, hi: nat)
    requires lo <= mid <= hi <= |pairs| && Leaves(l) == mid - lo && Leaves(r) == hi - mid
    ensures Arrange(Pair(l, r), pairs[lo..hi]) == Fork(Arrange(l, pairs[lo..mid]), Arrange(r, pairs[mid..hi]))
  {
    assert pairs[lo..hi][..mid - lo] == pairs[lo..mid] && pairs[lo..hi][mid - lo..] == pairs[mid..hi];
  }

  /** Building by index ranges is arranging in the halved shape. */
  lemma {:induction false} RangeIsHalved(s: Shape, pairs: Entries<HashTree>, lo: nat, hi: nat)
    requires lo < hi <= |pairs| && IsHalved(s, hi - lo)
    ensures Leaves(s) == hi - lo && BuildRange(pairs, lo, hi) == Arrange(s, pairs[lo..hi])
    decreases s
  {
    HalvedFits(s, hi - lo);
    match s
    case Single =>
    case Pair(l, r) =>
      var mid := lo + (hi - lo) / 2;
      RangeIsHalved(l, pairs, lo, mid);
      RangeIsHalved(r, pairs, mid, hi);
      PairArranged(l, r, pairs, lo, mid, hi);
  }

  function Pow2(k: nat): nat { if k == 0 then 1 else 2 * Pow2(k - 1) }

  function Height(s: Shape): nat {
    match s
    case Pair(l, r) => 1 + if Height(l) > Height(r) then Height(l) else Height(r)
    case _ => 0
  }

  /** Up to 2^k children lie under at most k forks. */
  lemma {:induction false} HalvedHeight(s: Shape, n: nat, k: nat)
    requires IsHalved(s, n) && n <= Pow2(k)
    ensures Height(s) <= k
    decreases s
  {
    match s
    case Pair(l, r) =>
      HalvedHeight(l, n / 2, k - 1);
      HalvedHeight(r, n - n / 2, k - 1);
    case _ =>
  }
}

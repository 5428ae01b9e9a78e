/**
 The labelled hash tree of the Internet Computer Interface Specification, section
 "Certification": reconstruction of the root hash, path lookup, and pruning.

 The hash is a parameter `h`; nothing is assumed of it.
 */
module HashTrees {
  import opened ByteStrings

  type Hash = Bytes -> Bytes

  datatype HashTree =
    | Empty
    | Fork(left: HashTree, right: HashTree)
    | Labeled(lbl: Bytes, subtree: HashTree)
    | Leaf(value: Bytes)
    | Pruned(digest: Bytes)

  function DomainSep(s: string): Bytes
    requires |s| < 128
  {
    [|s|] + Ascii(s)
  }

  /** The reconstructed root hash. */
  function Digest(h: Hash, t: HashTree): Bytes {
    match t
    case Empty => h(DomainSep("ic-hashtree-empty"))
    case Fork(l, r) => h(DomainSep("ic-hashtree-fork") + Digest(h, l) + Digest(h, r))
    case Labeled(l, s) => h(DomainSep("ic-hashtree-labeled") + l + Digest(h, s))
    case Leaf(v) => h(DomainSep("ic-hashtree-leaf") + v)
    case Pruned(d) => d
  }

  // ─── Lookup ──────────────────────────────────────────────────────────

  datatype LookupResult = Found(value: Bytes) | Absent | Unknown | Malformed

  datatype LabelResult = LabelFound(subtree: HashTree) | LabelAbsent | LabelUnknown

  function Flatten(t: HashTree): seq<HashTree> {
    match t
    case Empty => []
    case Fork(l, r) => Flatten(l) + Flatten(r)
    case _ => [t]
  }

  function FirstLabeled(l: Bytes, ts: seq<HashTree>): Option<HashTree> {
    if ts == [] then None
    else if ts[0].Labeled? && ts[0].lbl == l then Some(ts[0].subtree)
    else FirstLabeled(l, ts[1..])
  }

  lemma {:induction false} FirstLabeledAppend(l: Bytes, a: seq<HashTree>, b: seq<HashTree>)
    ensures FirstLabeled(l, a + b) == if FirstLabeled(l, a).Some? then FirstLabeled(l, a) else FirstLabeled(l, b)
  {
    if a == [] {
      assert a + b == b;
    } else {
      assert (a + b)[1..] == a[1..] + b;
      FirstLabeledAppend(l, a[1..], b);
    }
  }

  /** Two neighbouring labels, or one end of the list, exclude `l`. */
  predicate GapExcludes(l: Bytes, ts: seq<HashTree>) {
    || ts == []
    || (|ts| == 1 && ts[0].Leaf?)
    || (ts[0].Labeled? && Less(l, ts[0].lbl))
    || (ts[|ts| - 1].Labeled? && Less(ts[|ts| - 1].lbl, l))
    || exists i :: 0 <= i < |ts| - 1 && Straddles(l, ts[i], ts[i + 1])
  }

  predicate Straddles(l: Bytes, a: HashTree, b: HashTree) {
    a.Labeled? && b.Labeled? && Less(a.lbl, l) && Less(l, b.lbl)
  }

  function FindLabel(l: Bytes, ts: seq<HashTree>): LabelResult {
    match FirstLabeled(l, ts)
    case Some(s) => LabelFound(s)
    case None => if GapExcludes(l, ts) then LabelAbsent else LabelUnknown
  }

  function Lookup(path: seq<Bytes>, t: HashTree): LookupResult
    decreases |path|
  {
    if path == [] then
      match t
      case Empty => Absent
      case Leaf(v) => Found(v)
      case Pruned(_) => Unknown
      case _ => Malformed
    else
      match FindLabel(path[0], Flatten(t))
      case LabelFound(s) => Lookup(path[1..], s)
      case LabelAbsent => Absent
      case LabelUnknown => Unknown
  }

  lemma {:induction false} PrunedAnswersUnknown(path: seq<Bytes>, d: Bytes)
    ensures Lookup(path, Pruned(d)) == Unknown
  {
    var ts := Flatten(Pruned(d));
    assert ts[1..] == [];
    if path != [] {
      assert FirstLabeled(path[0], ts) == FirstLabeled(path[0], ts[1..]) == None;
      assert FindLabel(path[0], ts) == LabelUnknown;
    }
  }

  predicate LabelsSorted(ts: seq<HashTree>) {
    forall i, j | 0 <= i < j < |ts| && ts[i].Labeled? && ts[j].Labeled? :: Less(ts[i].lbl, ts[j].lbl)
  }

  /** Labels are strictly increasing, byte by byte, at every level. */
  predicate SortedTree(t: HashTree)
    decreases t, 1
  {
    LabelsSorted(Flatten(t)) && SortedBelow(t)
  }

  predicate SortedBelow(t: HashTree)
    decreases t, 0
  {
    match t
    case Fork(l, r) => SortedBelow(l) && SortedBelow(r)
    case Labeled(_, s) => SortedTree(s)
    case _ => true
  }

  // ─── Pruning ─────────────────────────────────────────────────────────

  /** `u` is `t` with some subtrees replaced by their hashes. */
  predicate Prunes(h: Hash, t: HashTree, u: HashTree) {
    || u == Pruned(Digest(h, t))
    || u == t
    || (t.Fork? && u.Fork? && Prunes(h, t.left, u.left) && Prunes(h, t.right, u.right))
    || (t.Labeled? && u.Labeled? && t.lbl == u.lbl && Prunes(h, t.subtree, u.subtree))
  }

  /** A pruned tree has the root hash of the tree it was cut from. */
  lemma {:induction false} PruningKeepsDigest(h: Hash, t: HashTree, u: HashTree)
    requires Prunes(h, t, u)
    ensures Digest(h, u) == Digest(h, t)
  {
    if u != t && u != Pruned(Digest(h, t)) {
      match t
      case Fork(l, r) => PruningKeepsDigest(h, l, u.left); PruningKeepsDigest(h, r, u.right);
      case Labeled(_, s) => PruningKeepsDigest(h, s, u.subtree);
      case _ =>
    }
  }

  /** Pruning cut in two steps is still pruning. */
  lemma {:induction false} PruningComposes(h: Hash, t: HashTree, u: HashTree, v: HashTree)
    requires Prunes(h, t, u) && Prunes(h, u, v)
    ensures Prunes(h, t, v)
  {
    PruningKeepsDigest(h, t, u);
    if u != t && v != u && !u.Pruned? && !v.Pruned? {
      match t
      case Fork(l, r) => PruningComposes(h, l, u.left, v.left); PruningComposes(h, r, u.right, v.right);
      case Labeled(_, s) => PruningComposes(h, s, u.subtree, v.subtree);
      case _ =>
    }
  }

  /**
   How the flattened pruned tree sits over the flattened original: every node of
   the original is either kept in place (with a possibly pruned subtree) or falls
   under a `Pruned` node, and the kept ones stay next to each other.
   */
  ghost predicate Covers(h: Hash, ts: seq<HashTree>, us: seq<HashTree>)
    decreases |us|
  {
    if us == [] then ts == []
    else if us[0].Pruned? then exists k :: 0 <= k <= |ts| && Covers(h, ts[k..], us[1..])
    else ts != [] && !ts[0].Fork? && Prunes(h, ts[0], us[0]) && Covers(h, ts[1..], us[1..])
  }

  lemma {:induction false} CoversSelf(h: Hash, ts: seq<HashTree>)
    requires forall t | t in ts :: !t.Fork?
    ensures Covers(h, ts, ts)
  {
    if ts != [] {
      CoversSelf(h, ts[1..]);
      if ts[0].Pruned? { assert Covers(h, ts[1..], ts[1..]); }
    }
  }

  lemma {:induction false} CoversAppend(h: Hash, t1: seq<HashTree>, u1: seq<HashTree>, t2: seq<HashTree>,
      u2: seq<HashTree>)
    requires Covers(h, t1, u1) && Covers(h, t2, u2)
    ensures Covers(h, t1 + t2, u1 + u2)
    decreases |u1|
  {
    if u1 == [] {
      assert u1 + u2 == u2 && t1 + t2 == t2;
    } else {
      assert (u1 + u2)[1..] == u1[1..] + u2;
      if u1[0].Pruned? {
        var k :| 0 <= k <= |t1| && Covers(h, t1[k..], u1[1..]);
        CoversAppend(h, t1[k..], u1[1..], t2, u2);
        assert (t1 + t2)[k..] == t1[k..] + t2;
      } else {
        CoversAppend(h, t1[1..], u1[1..], t2, u2);
        assert (t1 + t2)[1..] == t1[1..] + t2;
      }
    }
  }

  lemma {:induction false} FlattenHasNoForks(t: HashTree)
    ensures forall x | x in Flatten(t) :: !x.Fork? && !x.Empty?
  {
    match t
    case Fork(l, r) => FlattenHasNoForks(l); FlattenHasNoForks(r);
    case _ =>
  }

  lemma {:induction false} PruningCovers(h: Hash, t: HashTree, u: HashTree)
    requires Prunes(h, t, u)
    ensures Covers(h, Flatten(t), Flatten(u))
  {
    if u == t {
      FlattenHasNoForks(t);
      CoversSelf(h, Flatten(t));
    } else if u == Pruned(Digest(h, t)) {
      var ts, us := Flatten(t), Flatten(u);
      assert ts[|ts|..] == [] && us[1..] == [];
      assert Covers(h, ts[|ts|..], us[1..]);
    } else if t.Fork? {
      PruningCovers(h, t.left, u.left);
      PruningCovers(h, t.right, u.right);
      CoversAppend(h, Flatten(t.left), Flatten(u.left), Flatten(t.right), Flatten(u.right));
    }
  }

  /** Index of a kept node's counterpart, with its neighbours. */
  lemma {:induction false} CoveredIndex(h: Hash, ts: seq<HashTree>, us: seq<HashTree>, j: nat) returns (i: nat)
    requires Covers(h, ts, us) && j < |us| && !us[j].Pruned?
    ensures i < |ts| && Prunes(h, ts[i], us[j]) && !ts[i].Fork?
    ensures j == 0 ==> i == 0
    ensures j + 1 == |us| ==> i + 1 == |ts|
    ensures j + 1 < |us| && !us[j + 1].Pruned? ==> i + 1 < |ts| && Prunes(h, ts[i + 1], us[j + 1])
    decreases |us|
  {
    if j == 0 {
      CoveredFirst(h, ts, us);
      i := 0;
    } else {
      var k := 1;
      if us[0].Pruned? { k :| 0 <= k <= |ts| && Covers(h, ts[k..], us[1..]); }
      i := CoveredIndex(h, ts[k..], us[1..], j - 1);
      Behind(ts, k, i);
      Behind(us, 1, j - 1);
      i := i + k;
    }
  }

  lemma {:induction false} CoveredFirst(h: Hash, ts: seq<HashTree>, us: seq<HashTree>)
    requires Covers(h, ts, us) && us != [] && !us[0].Pruned?
    ensures ts != [] && Prunes(h, ts[0], us[0]) && !ts[0].Fork?
    ensures |us| == 1 ==> |ts| == 1
    ensures 1 < |us| && !us[1].Pruned? ==> 1 < |ts| && Prunes(h, ts[1], us[1])
  {
    if |us| == 1 {
      assert us[1..] == [];
    } else {
      assert us[1..][0] == us[1];
    }
  }

  lemma {:induction false} Behind<T>(s: seq<T>, k: nat, i: nat)
    requires k <= |s|
    ensures i < |s[k..]| ==> s[k..][i] == s[k + i]
    ensures i + 1 < |s[k..]| ==> s[k..][i + 1] == s[k + i + 1]
  {
  }

  lemma {:induction false} FirstLabeledAt(l: Bytes, ts: seq<HashTree>) returns (i: nat)
    requires FirstLabeled(l, ts).Some?
    ensures i < |ts| && ts[i] == Labeled(l, FirstLabeled(l, ts).value)
  {
    if ts[0].Labeled? && ts[0].lbl == l {
      i := 0;
    } else {
      i := FirstLabeledAt(l, ts[1..]);
      i := i + 1;
    }
  }

  lemma {:induction false} SortedLabelIsUnique(l: Bytes, ts: seq<HashTree>, i: nat)
    requires LabelsSorted(ts) && i < |ts| && ts[i].Labeled? && ts[i].lbl == l
    ensures FirstLabeled(l, ts) == Some(ts[i].subtree)
  {
    LessIsStrict(l, l);
    if i > 0 {
      assert ts[0].Labeled? ==> Less(ts[0].lbl, l);
      SortedLabelIsUnique(l, ts[1..], i - 1);
    }
  }

  /** A gap between neighbours of a sorted level shows the label is not there. */
  lemma {:induction false} GapMeansAbsent(l: Bytes, ts: seq<HashTree>, i: nat)
    requires LabelsSorted(ts) && i < |ts| && ts[i].Labeled?
    requires Less(l, ts[i].lbl) && (i == 0 || (ts[i - 1].Labeled? && Less(ts[i - 1].lbl, l)))
    ensures FirstLabeled(l, ts) == None
  {
    if FirstLabeled(l, ts).Some? {
      var j := FirstLabeledAt(l, ts);
      LessIsStrict(l, l);
      LessIsStrict(l, ts[i].lbl);
      if i > 0 {
        LessIsStrict(l, ts[i - 1].lbl);
      }
    }
  }

  lemma {:induction false} LastMeansAbsent(l: Bytes, ts: seq<HashTree>)
    requires LabelsSorted(ts) && ts != [] && ts[|ts| - 1].Labeled? && Less(ts[|ts| - 1].lbl, l)
    ensures FirstLabeled(l, ts) == None
  {
    if FirstLabeled(l, ts).Some? {
      var j := FirstLabeledAt(l, ts);
      LessIsStrict(l, ts[|ts| - 1].lbl);
    }
  }

  lemma {:induction false} GapSurvives(h: Hash, l: Bytes, ts: seq<HashTree>, us: seq<HashTree>)
    requires Covers(h, ts, us) && GapExcludes(l, us) && LabelsSorted(ts)
    ensures FirstLabeled(l, ts) == None && GapExcludes(l, ts)
  {
    if us == [] {
    } else if |us| == 1 && us[0].Leaf? {
      var i := CoveredIndex(h, ts, us, 0);
    } else if us[0].Labeled? && Less(l, us[0].lbl) {
      var i := CoveredIndex(h, ts, us, 0);
      GapMeansAbsent(l, ts, 0);
    } else if us[|us| - 1].Labeled? && Less(us[|us| - 1].lbl, l) {
      var i := CoveredIndex(h, ts, us, |us| - 1);
      LastMeansAbsent(l, ts);
    } else {
      var j :| 0 <= j < |us| - 1 && Straddles(l, us[j], us[j + 1]);
      var i := CoveredIndex(h, ts, us, j);
      assert Straddles(l, ts[i], ts[i + 1]);
      GapMeansAbsent(l, ts, i + 1);
    }
  }

  lemma {:induction false} SortedBelowFlatten(t: HashTree, i: nat)
    requires SortedBelow(t) && i < |Flatten(t)| && Flatten(t)[i].Labeled?
    ensures SortedTree(Flatten(t)[i].subtree)
  {
    match t
    case Fork(l, r) =>
      if i < |Flatten(l)| { SortedBelowFlatten(l, i); } else { SortedBelowFlatten(r, i - |Flatten(l)|); }
    case _ =>
  }

  /** One step of a lookup in a pruned tree: stop as the full tree does, give up, or descend in both. */
  lemma {:induction false} PruningOneStep(h: Hash, t: HashTree, u: HashTree, l: Bytes)
      returns (below: Option<(HashTree, HashTree)>)
    requires SortedTree(t) && Prunes(h, t, u)
    ensures match below
            case None => FindLabel(l, Flatten(u)) == LabelUnknown
                      || (FindLabel(l, Flatten(u)) == LabelAbsent == FindLabel(l, Flatten(t)))
            case Some((s, v)) =>
              && FindLabel(l, Flatten(t)) == LabelFound(s) && FindLabel(l, Flatten(u)) == LabelFound(v)
              && SortedTree(s) && Prunes(h, s, v)
  {
    var ts, us := Flatten(t), Flatten(u);
    PruningCovers(h, t, u);
    below := None;
    if FirstLabeled(l, us).Some? {
      var j := FirstLabeledAt(l, us);
      var i := CoveredIndex(h, ts, us, j);
      SortedLabelIsUnique(l, ts, i);
      SortedBelowFlatten(t, i);
      below := Some((ts[i].subtree, us[j].subtree));
    } else if GapExcludes(l, us) {
      GapSurvives(h, l, ts, us);
    }
  }

  /**
   Pruning only loses information: a lookup in a pruned tree answers what the full
   tree answers, or Unknown. It never shows another value and never a false Absent.
   */
  lemma {:induction false} PruningOnlyLosesInformation(h: Hash, t: HashTree, u: HashTree, path: seq<Bytes>)
    requires SortedTree(t) && Prunes(h, t, u)
    ensures Lookup(path, u) == Lookup(path, t) || Lookup(path, u) == Unknown
    decreases |path|
  {
    if path != [] {
      var below := PruningOneStep(h, t, u, path[0]);
      if below.Some? {
        PruningOnlyLosesInformation(h, below.value.0, below.value.1, path[1..]);
      }
    }
  }

  // ─── Binding ─────────────────────────────────────────────────────────

  // The domain separators are these bytes.

  lemma {:induction false} EmptySeparator()
    ensures DomainSep("ic-hashtree-empty")
         == [17, 105, 99, 45, 104, 97, 115, 104, 116, 114, 101, 101, 45, 101, 109, 112, 116, 121]
  {
  }

  lemma {:induction false} ForkSeparator()
    ensures DomainSep("ic-hashtree-fork")
         == [16, 105, 99, 45, 104, 97, 115, 104, 116, 114, 101, 101, 45, 102, 111, 114, 107]
  {
  }

  lemma {:induction false} LabeledSeparator()
    ensures DomainSep("ic-hashtree-labeled")
         == [19, 105, 99, 45, 104, 97, 115, 104, 116, 114, 101, 101, 45, 108, 97, 98, 101, 108, 101, 100]
  {
  }

  lemma {:induction false} LeafSeparator()
    ensures DomainSep("ic-hashtree-leaf")
         == [16, 105, 99, 45, 104, 97, 115, 104, 116, 114, 101, 101, 45, 108, 101, 97, 102]
  {
  }

  const DIGEST_SIZE := 32

  ghost predicate IsDigestFunction(h: Hash) {
    forall s :: |h(s)| == DIGEST_SIZE
  }

  /** The hashes that stand in for pruned subtrees have the size of hashes. */
  predicate WellFormed(t: HashTree) {
    match t
    case Fork(l, r) => WellFormed(l) && WellFormed(r)
    case Labeled(_, s) => WellFormed(s)
    case Pruned(d) => |d| == DIGEST_SIZE
    case _ => true
  }

  /** Nothing is pruned. */
  predicate Whole(t: HashTree) {
    match t
    case Fork(l, r) => Whole(l) && Whole(r)
    case Labeled(_, s) => Whole(s)
    case Pruned(_) => false
    case _ => true
  }

  /** The byte string hashed at a node. */
  function Preimage(h: Hash, t: HashTree): Bytes {
    match t
    case Empty => DomainSep("ic-hashtree-empty")
    case Fork(l, r) => DomainSep("ic-hashtree-fork") + Digest(h, l) + Digest(h, r)
    case Labeled(l, s) => DomainSep("ic-hashtree-labeled") + l + Digest(h, s)
    case Leaf(v) => DomainSep("ic-hashtree-leaf") + v
    case Pruned(d) => d
  }

  /** All byte strings hashed in a tree. */
  function Hashed(h: Hash, t: HashTree): set<Bytes> {
    match t
    case Fork(l, r) => {Preimage(h, t)} + Hashed(h, l) + Hashed(h, r)
    case Labeled(_, s) => {Preimage(h, t)} + Hashed(h, s)
    case Pruned(_) => {}
    case _ => {Preimage(h, t)}
  }

  /** Two different byte strings, hashed in the one tree and in the other, with one hash. */
  predicate Collides(h: Hash, t: HashTree, u: HashTree, x: Bytes, y: Bytes) {
    x != y && h(x) == h(y) && x in Hashed(h, t) && y in Hashed(h, u)
  }

  lemma {:induction false} DigestIsHash(h: Hash, t: HashTree)
    requires IsDigestFunction(h) && WellFormed(t)
    ensures |Digest(h, t)| == DIGEST_SIZE
    ensures !t.Pruned? ==> Digest(h, t) == h(Preimage(h, t)) && Preimage(h, t) in Hashed(h, t)
  {
  }

  lemma {:induction false} WholeIsWellFormed(t: HashTree)
    requires Whole(t)
    ensures WellFormed(t)
  {
    match t
    case Fork(l, r) => WholeIsWellFormed(l); WholeIsWellFormed(r);
    case Labeled(_, s) => WholeIsWellFormed(s);
    case _ =>
  }

  /** A separator's first byte, and the byte that tells those of one length apart. */
  lemma {:induction false} SeparatorsDiffer(h: Hash, t: HashTree)
    requires !t.Pruned?
    ensures var s := Preimage(h, t);
            |s| >= 17 && match t
                         case Empty => s[0] == 17
                         case Fork(_, _) => s[0] == 16 && s[13] == 102
                         case Labeled(_, _) => s[0] == 19
                         case _ => s[0] == 16 && s[13] == 108
  {
    match t
    case Empty => EmptySeparator();
    case Fork(_, _) => ForkSeparator();
    case Labeled(_, _) => LabeledSeparator();
    case _ => LeafSeparator();
  }

  lemma {:induction false} SameSplit(a: Bytes, b: Bytes, c: Bytes, x: Bytes, y: Bytes)
    requires a + b + c == a + x + y && |c| == |y|
    ensures b == x && c == y
  {
    assert |b| == |x|;
    assert b == (a + b + c)[|a|..|a| + |b|] && x == (a + x + y)[|a|..|a| + |x|];
    assert c == (a + b + c)[|a| + |b|..] && y == (a + x + y)[|a| + |x|..];
  }

  /** One byte string hashed at two nodes: the same kind of node, the same label or value, the same hashes below. */
  lemma {:induction false} SamePreimage(h: Hash, t: HashTree, u: HashTree)
    requires IsDigestFunction(h) && WellFormed(t) && WellFormed(u) && !t.Pruned? && !u.Pruned?
    requires Preimage(h, t) == Preimage(h, u)
    ensures match t
            case Empty => u == t
            case Leaf(_) => u == t
            case Labeled(l, s) => u.Labeled? && u.lbl == l && Digest(h, u.subtree) == Digest(h, s)
            case Fork(l, r) => u.Fork? && Digest(h, u.left) == Digest(h, l) && Digest(h, u.right) == Digest(h, r)
            case _ => true
  {
    SeparatorsDiffer(h, t);
    SeparatorsDiffer(h, u);
    match t
    case Labeled(l, s) =>
      DigestIsHash(h, s);
      DigestIsHash(h, u.subtree);
      SameSplit(DomainSep("ic-hashtree-labeled"), l, Digest(h, s), u.lbl, Digest(h, u.subtree));
    case Fork(l, r) =>
      DigestIsHash(h, r);
      DigestIsHash(h, u.right);
      SameSplit(DomainSep("ic-hashtree-fork"), Digest(h, l), Digest(h, r), Digest(h, u.left), Digest(h, u.right));
    case Leaf(v) =>
      SameSplit(DomainSep("ic-hashtree-leaf"), v, [], u.value, []);
    case _ =>
  }

  /**
   The root hash binds the tree: whatever tree rehashes to the root hash of a whole one is cut
   from it, or the two exhibit a collision, two different strings they hash to one value.
   */
  lemma {:induction false} RootHashBinds(h: Hash, t: HashTree, u: HashTree) returns (x: Bytes, y: Bytes)
    requires IsDigestFunction(h) && Whole(t) && WellFormed(u) && Digest(h, u) == Digest(h, t)
    ensures Prunes(h, t, u) || Collides(h, t, u, x, y)
    decreases t
  {
    x, y := Preimage(h, t), Preimage(h, u);
    WholeIsWellFormed(t);
    DigestIsHash(h, t);
    DigestIsHash(h, u);
    if !u.Pruned? && x == y {
      SamePreimage(h, t, u);
      match t
      case Labeled(_, s) => x, y := RootHashBinds(h, s, u.subtree);
      case Fork(l, r) =>
        x, y := RootHashBinds(h, l, u.left);
        if !Collides(h, l, u.left, x, y) { x, y := RootHashBinds(h, r, u.right); }
      case _ =>
    }
  }

  lemma {:induction false} WholePruningIsEqual(h: Hash, t: HashTree, u: HashTree)
    requires Prunes(h, t, u) && Whole(u)
    ensures u == t
  {
    if u != t {
      match t
      case Fork(l, r) => WholePruningIsEqual(h, l, u.left); WholePruningIsEqual(h, r, u.right);
      case Labeled(_, s) => WholePruningIsEqual(h, s, u.subtree);
      case _ =>
    }
  }
}

/** The v2 "http_expr" tree: registered paths grouped by segment, and the witness for one path. */
module ExprTrees {
  import opened ByteStrings
  import opened SortedEntries
  import opened HashTrees
  import opened ForkTrees

  type Path = seq<Bytes>

  function ExprLabel(): Bytes { Ascii("http_expr") }

  function TerminalMarker(): Bytes { Ascii("<$>") }

  function PassThroughExprHash(h: Hash): Bytes {
    h(Ascii("default_certification(ValidationArgs{no_certification:Empty{}})"))
  }

  /** Segments between slashes, empty ones dropped. */
  function SplitPath(path: Bytes): Path {
    SplitFrom(path, [])
  }

  function SplitFrom(rest: Bytes, segment: Bytes): Path {
    if rest == [] then (if segment == [] then [] else [segment])
    else if rest[0] == 0x2F then (if segment == [] then [] else [segment]) + SplitFrom(rest[1..], [])
    else SplitFrom(rest[1..], segment + [rest[0]])
  }

  /** No segment is empty or holds a slash. */
  lemma {:induction false} SplitSegments(rest: Bytes, segment: Bytes)
    requires 0x2F !in segment
    ensures forall s | s in SplitFrom(rest, segment) :: s != [] && 0x2F !in s
  {
    if rest != [] {
      if rest[0] == 0x2F { SplitSegments(rest[1..], []); } else { SplitSegments(rest[1..], segment + [rest[0]]); }
    }
  }

  function Join(segments: Path): Bytes {
    if segments == [] then [] else [0x2F] + segments[0] + Join(segments[1..])
  }

  lemma {:induction false} SplitRun(run: Bytes, rest: Bytes, segment: Bytes)
    requires 0x2F !in run
    ensures SplitFrom(run + rest, segment) == SplitFrom(rest, segment + run)
  {
    if run == [] {
      assert run + rest == rest && segment + run == segment;
    } else {
      assert (run + rest)[1..] == run[1..] + rest;
      assert segment + [run[0]] + run[1..] == segment + run;
      SplitRun(run[1..], rest, segment + [run[0]]);
    }
  }

  lemma {:induction false} SplitSlash(rest: Bytes, segment: Bytes)
    ensures SplitFrom([0x2F] + rest, segment) == (if segment == [] then [] else [segment]) + SplitFrom(rest, [])
  {
    assert ([0x2F] + rest)[1..] == rest;
  }

  /** Splitting undoes joining, for every list of non-empty segments without slashes. */
  lemma {:induction false} SplitJoin(segments: Path, segment: Bytes)
    requires forall i | 0 <= i < |segments| :: segments[i] != [] && 0x2F !in segments[i]
    ensures SplitFrom(Join(segments), segment) == (if segment == [] then [] else [segment]) + segments
  {
    if segments != [] {
      var first, rest := segments[0], Join(segments[1..]);
      SplitJoin(segments[1..], first);
      SplitRun(first, rest, []);
      SplitSlash(first + rest, segment);
      assert [] + first == first && segments == [first] + segments[1..];
      assert Join(segments) == [0x2F] + (first + rest);
    }
  }

  // ─── Building ────────────────────────────────────────────────────────

  predicate AllAtLeast(paths: seq<Path>, depth: nat) {
    forall p | p in paths :: depth <= |p|
  }

  function Longest(paths: seq<Path>): (n: nat)
    ensures forall p | p in paths :: |p| <= n
    ensures n > 0 ==> exists p | p in paths :: |p| == n
  {
    if paths == [] then 0
    else
      var m := Longest(paths[1..]);
      assert forall p | p in paths :: p == paths[0] || p in paths[1..];
      if |paths[0]| > m then |paths[0]| else m
  }

  function Bucket(groups: Entries<seq<Path>>, segment: Bytes): seq<Path> {
    match Get(groups, segment)
    case Some(b) => b
    case None => []
  }

  /** Paths that go on past `depth`, grouped by the segment there, in list order. */
  function Grouped(paths: seq<Path>, depth: nat): Entries<seq<Path>>
    requires AllAtLeast(paths, depth)
  {
    if paths == [] then []
    else
      var groups := Grouped(paths[..|paths| - 1], depth);
      var p := paths[|paths| - 1];
      if |p| == depth then groups else Put(groups, p[depth], Bucket(groups, p[depth]) + [p])
  }

  predicate TerminalHere(paths: seq<Path>, depth: nat) {
    exists p | p in paths :: |p| == depth
  }

  /** A group is not empty and holds listed paths that run on with its segment. */
  predicate SoundGroup(paths: seq<Path>, depth: nat, e: (Bytes, seq<Path>)) {
    e.1 != [] && forall p | p in e.1 :: p in paths && |p| > depth && p[depth] == e.0
  }

  lemma {:induction false} GroupedSound(paths: seq<Path>, depth: nat)
    requires AllAtLeast(paths, depth)
    ensures StrictlySorted(Grouped(paths, depth))
    ensures forall e | e in Grouped(paths, depth) :: SoundGroup(paths, depth, e)
  {
    if paths != [] {
      var front, last := paths[..|paths| - 1], paths[|paths| - 1];
      GroupedSound(front, depth);
      assert forall e | SoundGroup(front, depth, e) :: SoundGroup(paths, depth, e);
      if |last| > depth {
        var groups, seg := Grouped(front, depth), last[depth];
        var b := Bucket(groups, seg);
        if b != [] {
          GetIsMembership(groups, seg, b);
          assert SoundGroup(front, depth, (seg, b));
        }
        assert SoundGroup(paths, depth, (seg, b + [last]));
        PutKeepsOrder(groups, seg, b + [last]);
      }
    }
  }

  /** Every path that runs on is in the group of its segment. */
  lemma {:induction false} GroupedComplete(paths: seq<Path>, depth: nat, p: Path)
    requires AllAtLeast(paths, depth) && p in paths && |p| > depth
    ensures p in Bucket(Grouped(paths, depth), p[depth])
  {
    var front, last := paths[..|paths| - 1], paths[|paths| - 1];
    assert p in front || p == last;
    if p in front { GroupedComplete(front, depth, p); }
    if |last| > depth {
      var groups := Grouped(front, depth);
      GroupedSound(front, depth);
      GetAfterPut(groups, last[depth], Bucket(groups, last[depth]) + [last], p[depth]);
    }
  }

  lemma {:induction false} GroupedSorted(paths: seq<Path>, depth: nat)
    requires AllAtLeast(paths, depth)
    ensures StrictlySorted(Grouped(paths, depth))
  {
    GroupedSound(paths, depth);
  }

  /** A path of a group runs past `depth`, with the group's segment there. */
  lemma {:induction false} GroupMember(paths: seq<Path>, depth: nat, e: (Bytes, seq<Path>), p: Path)
    requires AllAtLeast(paths, depth) && e in Grouped(paths, depth) && p in e.1
    ensures p in paths && |p| > depth && p[depth] == e.0
  {
    GroupedSound(paths, depth);
  }

  /** Every path that runs past `depth` is in the one group of its segment. */
  lemma {:induction false} GroupOf(paths: seq<Path>, depth: nat, p: Path)
    requires AllAtLeast(paths, depth) && p in paths && |p| > depth
    ensures (p[depth], Bucket(Grouped(paths, depth), p[depth])) in Grouped(paths, depth)
    ensures p in Bucket(Grouped(paths, depth), p[depth])
  {
    GroupedComplete(paths, depth, p);
    GroupedSorted(paths, depth);
    GetIsMembership(Grouped(paths, depth), p[depth], Bucket(Grouped(paths, depth), p[depth]));
  }

  /** A group deeper in the tree, with no path longer than `limit`. */
  predicate Within(group: seq<Path>, depth: nat, limit: nat) {
    AllAtLeast(group, depth) && depth <= Longest(group) <= limit
  }

  predicate AllWithin(groups: Entries<seq<Path>>, depth: nat, limit: nat) {
    forall i | 0 <= i < |groups| :: Within(groups[i].1, depth, limit)
  }

  /** The group of each segment is smaller: deeper, and no longer than the whole. */
  lemma {:induction false} GroupsShrink(paths: seq<Path>, depth: nat)
    requires AllAtLeast(paths, depth)
    ensures AllWithin(Grouped(paths, depth), depth + 1, Longest(paths))
  {
    var groups := Grouped(paths, depth);
    forall i | 0 <= i < |groups| ensures Within(groups[i].1, depth + 1, Longest(paths)) {
      var e := groups[i];
      GroupedSound(paths, depth);
      assert e in groups && e.1[0] in e.1;
      var p :| p in e.1 && |p| == Longest(e.1);
    }
  }

  function TerminalChild(h: Hash): (Bytes, HashTree) {
    (TerminalMarker(), Labeled(PassThroughExprHash(h), Leaf([])))
  }

  /** The subtree of each group, under its segment. */
  function SegmentChildren(h: Hash, layout: Layout, groups: Entries<seq<Path>>, depth: nat, ghost limit: nat)
    : (cs: Entries<HashTree>)
    requires IsLayout(layout) && AllWithin(groups, depth, limit)
    ensures |cs| == |groups|
    decreases limit - depth, 3, |groups|
  {
    if groups == [] then []
    else
      var last := groups[|groups| - 1];
      assert Within(last.1, depth, limit);
      SegmentChildren(h, layout, groups[..|groups| - 1], depth, limit) + [(last.0, ExprTree(h, layout, last.1, depth))]
  }

  function GroupChildren(h: Hash, layout: Layout, paths: seq<Path>, depth: nat): (cs: Entries<HashTree>)
    requires IsLayout(layout) && AllAtLeast(paths, depth)
    ensures |cs| == |Grouped(paths, depth)|
    decreases Longest(paths) - depth, 0
  {
    GroupsShrink(paths, depth);
    var groups := Grouped(paths, depth);
    if groups == [] then [] else SegmentChildren(h, layout, groups, depth + 1, Longest(paths))
  }

  function ExprChildren(h: Hash, layout: Layout, paths: seq<Path>, depth: nat): Entries<HashTree>
    requires IsLayout(layout) && AllAtLeast(paths, depth)
    decreases Longest(paths) - depth, 1
  {
    layout.sort((if TerminalHere(paths, depth) then [TerminalChild(h)] else [])
                + GroupChildren(h, layout, paths, depth))
  }

  function ExprTree(h: Hash, layout: Layout, paths: seq<Path>, depth: nat): HashTree
    requires IsLayout(layout) && AllAtLeast(paths, depth)
    decreases Longest(paths) - depth, 2
  {
    BuildBalancedLabeled(layout, ExprChildren(h, layout, paths, depth))
  }

  lemma {:induction false} SegmentChildAt(h: Hash, layout: Layout, groups: Entries<seq<Path>>, depth: nat,
      limit: nat, i: nat)
    requires IsLayout(layout) && AllWithin(groups, depth, limit) && i < |groups|
    ensures SegmentChildren(h, layout, groups, depth, limit)[i]
             == (groups[i].0, ExprTree(h, layout, groups[i].1, depth))
    decreases |groups|
  {
    if i < |groups| - 1 { SegmentChildAt(h, layout, groups[..|groups| - 1], depth, limit, i); }
  }

  lemma {:induction false} SegmentChildrenSnoc(h: Hash, layout: Layout, groups: Entries<seq<Path>>, depth: nat,
      limit: nat, i: nat)
    requires IsLayout(layout) && AllWithin(groups, depth, limit) && i < |groups|
    ensures SegmentChildren(h, layout, groups[..i + 1], depth, limit)
         == SegmentChildren(h, layout, groups[..i], depth, limit)
           + [(groups[i].0, ExprTree(h, layout, groups[i].1, depth))]
  {
    assert groups[..i + 1][..i] == groups[..i];
  }

  /** The child of a group, by its place in the list of groups. */
  lemma {:induction false} GroupChildAt(h: Hash, layout: Layout, paths: seq<Path>, depth: nat, i: nat)
    requires IsLayout(layout) && AllAtLeast(paths, depth) && i < |Grouped(paths, depth)|
    ensures |GroupChildren(h, layout, paths, depth)| == |Grouped(paths, depth)|
    ensures var e := Grouped(paths, depth)[i];
            && Within(e.1, depth + 1, Longest(paths))
            && GroupChildren(h, layout, paths, depth)[i] == (e.0, ExprTree(h, layout, e.1, depth + 1))
  {
    GroupsShrink(paths, depth);
    SegmentChildAt(h, layout, Grouped(paths, depth), depth + 1, Longest(paths), i);
  }

  method GroupBySegment(paths: seq<Path>, depth: nat) returns (groups: Entries<seq<Path>>, terminalHere: bool)
    requires AllAtLeast(paths, depth)
    ensures groups == Grouped(paths, depth)
    ensures terminalHere == TerminalHere(paths, depth)
  {
    groups, terminalHere := [], false;
    for i := 0 to |paths|
      invariant groups == Grouped(paths[..i], depth)
      invariant terminalHere == TerminalHere(paths[..i], depth)
    {
      var p := paths[i];
      assert paths[..i + 1][..i] == paths[..i] && paths[..i + 1] == paths[..i] + [p];
      if depth == |p| {
        terminalHere := true;
      } else {
        groups := Put(groups, p[depth], Bucket(groups, p[depth]) + [p]);
      }
    }
    assert paths[..|paths|] == paths;
  }

  lemma {:induction false} LevelUnfolds(h: Hash, layout: Layout, groups: Entries<seq<Path>>, paths: seq<Path>,
      depth: nat)
    requires IsLayout(layout) && AllAtLeast(paths, depth) && groups == Grouped(paths, depth)
    ensures AllWithin(groups, depth + 1, Longest(paths)) && (groups != [] ==> depth + 1 <= Longest(paths))
    ensures GroupChildren(h, layout, paths, depth)
         == if groups == [] then [] else SegmentChildren(h, layout, groups, depth + 1, Longest(paths))
  {
    GroupsShrink(paths, depth);
    if groups != [] { assert Within(groups[0].1, depth + 1, Longest(paths)); }
  }

  lemma {:induction false} LevelIsBuilt(h: Hash, layout: Layout, paths: seq<Path>, depth: nat, terminalHere: bool,
      segments: Entries<HashTree>)
    requires IsLayout(layout) && AllAtLeast(paths, depth)
    requires terminalHere == TerminalHere(paths, depth) && segments == GroupChildren(h, layout, paths, depth)
    ensures ExprTree(h, layout, paths, depth)
         == BuildBalancedLabeled(layout, layout.sort((if terminalHere then [TerminalChild(h)] else []) + segments))
  {
  }

  method BuildSubtree(h: Hash, layout: Layout, paths: seq<Path>, depth: nat) returns (tree: HashTree)
    requires IsLayout(layout) && AllAtLeast(paths, depth)
    ensures tree == ExprTree(h, layout, paths, depth)
    decreases Longest(paths) - depth, 3
  {
    var groups, terminalHere := GroupBySegment(paths, depth);
    var children: Entries<HashTree> := if terminalHere then [TerminalChild(h)] else [];
    var segments := BuildSegments(h, layout, groups, paths, depth);
    LevelIsBuilt(h, layout, paths, depth, terminalHere, segments);
    tree := BuildBalancedLabeled(layout, layout.sort(children + segments));
  }

  method BuildSegments(h: Hash, layout: Layout, groups: Entries<seq<Path>>, ghost paths: seq<Path>, depth: nat)
    returns (segments: Entries<HashTree>)
    requires IsLayout(layout) && AllAtLeast(paths, depth) && groups == Grouped(paths, depth)
    ensures segments == GroupChildren(h, layout, paths, depth)
    decreases Longest(paths) - depth, 2
  {
    segments := [];
    LevelUnfolds(h, layout, groups, paths, depth);
    if groups == [] { return; }
    segments := BuildGroups(h, layout, groups, depth + 1, Longest(paths));
  }

  method BuildGroups(h: Hash, layout: Layout, groups: Entries<seq<Path>>, depth: nat, ghost limit: nat)
    returns (children: Entries<HashTree>)
    requires IsLayout(layout) && AllWithin(groups, depth, limit)
    ensures children == SegmentChildren(h, layout, groups, depth, limit)
    decreases limit - depth, 4
  {
    children := [];
    for i := 0 to |groups|
      invariant children == SegmentChildren(h, layout, groups[..i], depth, limit)
    {
      var sub := BuildSubtree(h, layout, groups[i].1, depth);
      SegmentChildrenSnoc(h, layout, groups, depth, limit, i);
      children := children + [(groups[i].0, sub)];
    }
    assert groups[..|groups|] == groups;
  }

  // ─── Sortedness ──────────────────────────────────────────────────────

  /** `q` continues `p` with a segment that is the terminal marker itself. */
  predicate Clash(p: Path, q: Path, depth: nat) {
    depth <= |p| < |q| && (forall k | depth <= k < |p| :: p[k] == q[k]) && q[|p|] == TerminalMarker()
  }

  ghost predicate NoClash(paths: seq<Path>, depth: nat) {
    forall p, q | p in paths && q in paths :: !Clash(p, q, depth)
  }

  /**
   A level's children in the order of some sort: `cs` holds the segments' children and, at the
   end of a path, the terminal child `c`. Where both have one label, either may come first.
   */
  ghost predicate IsLevel(cs: Entries<HashTree>, terminal: bool, c: (Bytes, HashTree), segs: Entries<HashTree>) {
    && (forall e :: e in cs <==> (terminal && e == c) || e in segs)
    && (StrictlySorted(cs) <==> !(terminal && c.0 in Keys(segs)))
    && (forall k | !(terminal && k == c.0) :: Get(cs, k) == Get(segs, k))
    && (terminal && c.0 !in Keys(segs) ==> Get(cs, c.0) == Some(c.1))
    && (terminal && c.0 in Keys(segs) ==> Get(cs, c.0) == Some(c.1) || Get(cs, c.0) == Get(segs, c.0))
  }

  lemma {:induction false} LevelGets(cs: Entries<HashTree>, terminal: bool, c: (Bytes, HashTree),
      segs: Entries<HashTree>, k: Bytes)
    requires StrictlySorted(segs) && forall e :: e in cs <==> (terminal && e == c) || e in segs
    ensures !(terminal && k == c.0) ==> Get(cs, k) == Get(segs, k)
    ensures terminal && k == c.0 ==> Get(cs, k) == Some(c.1) || (k in Keys(segs) && Get(cs, k) == Get(segs, k))
  {
    GetIsEntry(cs, k);
    match Get(cs, k)
    case Some(v) => GetIsMembership(segs, k, v);
    case None => GetIsEntry(segs, k);
  }

  lemma {:induction false} LevelMembers(cs: Entries<HashTree>, terminal: bool, c: (Bytes, HashTree),
      segs: Entries<HashTree>)
    requires multiset(cs) == multiset((if terminal then [c] else []) + segs)
    ensures forall e :: e in cs <==> (terminal && e == c) || e in segs
    ensures forall e :: multiset(cs)[e] == (if terminal && e == c then 1 else 0) + multiset(segs)[e]
  {
    forall e ensures e in cs <==> (terminal && e == c) || e in segs {
      assert e in cs <==> e in multiset(cs);
    }
  }

  lemma {:induction false} LevelIsStrict(cs: Entries<HashTree>, terminal: bool, c: (Bytes, HashTree),
      segs: Entries<HashTree>)
    requires StrictlySorted(segs) && Ordered(cs) && !(terminal && c.0 in Keys(segs))
    requires forall e :: e in cs <==> (terminal && e == c) || e in segs
    requires forall e :: multiset(cs)[e] == (if terminal && e == c then 1 else 0) + multiset(segs)[e]
    ensures StrictlySorted(cs)
  {
    assert terminal ==> c !in segs;
    forall e | e in cs ensures multiset(cs)[e] <= 1 { StandsOnce(segs, e); }
    forall a, b | a in cs && b in cs && a.0 == b.0 ensures a == b {
      if a in segs && b in segs {
        GetIsMembership(segs, a.0, a.1);
        GetIsMembership(segs, b.0, b.1);
      }
    }
    OrderedIsStrict(cs);
  }

  lemma {:induction false} TiedIsNotStrict(cs: Entries<HashTree>, c: (Bytes, HashTree), segs: Entries<HashTree>)
    requires c.0 in Keys(segs)
    requires forall e :: e in cs <==> e == c || e in segs
    requires forall e :: multiset(cs)[e] == (if e == c then 1 else 0) + multiset(segs)[e]
    ensures !StrictlySorted(cs)
  {
    var e :| e in segs && e.0 == c.0;
    assert c in cs && e in cs;
    var i :| 0 <= i < |cs| && cs[i] == c;
    var j :| 0 <= j < |cs| && cs[j] == e;
    LessIsStrict(c.0, c.0);
    if StrictlySorted(cs) { StandsOnce(cs, c); }
  }

  lemma {:induction false} SortedLevel(layout: Layout, terminal: bool, c: (Bytes, HashTree), segs: Entries<HashTree>)
    requires IsLayout(layout) && StrictlySorted(segs)
    ensures IsLevel(layout.sort((if terminal then [c] else []) + segs), terminal, c, segs)
  {
    var cs := layout.sort((if terminal then [c] else []) + segs);
    LevelMembers(cs, terminal, c, segs);
    forall k
      ensures !(terminal && k == c.0) ==> Get(cs, k) == Get(segs, k)
      ensures terminal && k == c.0 ==> Get(cs, k) == Some(c.1) || (k in Keys(segs) && Get(cs, k) == Get(segs, k))
    {
      LevelGets(cs, terminal, c, segs, k);
    }
    if terminal && c.0 in Keys(segs) {
      TiedIsNotStrict(cs, c, segs);
    } else {
      LevelIsStrict(cs, terminal, c, segs);
    }
  }

  /** One level of the tree as a table from label to child. */
  lemma {:induction false} ExprLevel(h: Hash, layout: Layout, paths: seq<Path>, depth: nat)
    requires IsLayout(layout) && AllAtLeast(paths, depth)
    ensures var segs := GroupChildren(h, layout, paths, depth);
            && StrictlySorted(segs) && Keys(segs) == Keys(Grouped(paths, depth))
            && IsLevel(ExprChildren(h, layout, paths, depth), TerminalHere(paths, depth), TerminalChild(h), segs)
  {
    var groups, segs := Grouped(paths, depth), GroupChildren(h, layout, paths, depth);
    GroupedSorted(paths, depth);
    forall i | 0 <= i < |groups| ensures groups[i].0 == segs[i].0 { GroupChildAt(h, layout, paths, depth, i); }
    SameKeys(groups, segs);
    SortedLevel(layout, TerminalHere(paths, depth), TerminalChild(h), segs);
  }

  ghost predicate GroupsClear(groups: Entries<seq<Path>>, depth: nat) {
    forall i | 0 <= i < |groups| :: NoClash(groups[i].1, depth)
  }

  predicate ChildrenSorted(cs: Entries<HashTree>) {
    forall i | 0 <= i < |cs| :: SortedTree(cs[i].1)
  }

  predicate ClashHere(paths: seq<Path>, depth: nat)
    requires AllAtLeast(paths, depth)
  {
    TerminalHere(paths, depth) && TerminalMarker() in (set e | e in Grouped(paths, depth) :: e.0)
  }

  lemma {:induction false} ClashAtLevel(paths: seq<Path>, depth: nat)
    requires AllAtLeast(paths, depth) && ClashHere(paths, depth)
    ensures !NoClash(paths, depth)
  {
    var p :| p in paths && |p| == depth;
    var e :| e in Grouped(paths, depth) && e.0 == TerminalMarker();
    GroupsShrink(paths, depth);
    var q :| q in e.1;
    GroupMember(paths, depth, e, q);
    assert Clash(p, q, depth);
  }

  lemma {:induction false} ClashInGroup(paths: seq<Path>, depth: nat, e: (Bytes, seq<Path>))
    requires AllAtLeast(paths, depth) && e in Grouped(paths, depth) && !NoClash(e.1, depth + 1)
    ensures !NoClash(paths, depth)
  {
    var p, q :| p in e.1 && q in e.1 && Clash(p, q, depth + 1);
    GroupMember(paths, depth, e, p);
    GroupMember(paths, depth, e, q);
    assert Clash(p, q, depth);
  }

  /** Clashing paths share their next segment until the shorter one ends. */
  lemma {:induction false} ClashDescends(p: Path, q: Path, depth: nat)
    requires Clash(p, q, depth) && depth < |p|
    ensures p[depth] == q[depth] && Clash(p, q, depth + 1)
  {
  }

  lemma {:induction false} ClashSplits(paths: seq<Path>, depth: nat, p: Path, q: Path) returns (e: (Bytes, seq<Path>))
    requires AllAtLeast(paths, depth) && p in paths && q in paths && Clash(p, q, depth)
    ensures ClashHere(paths, depth) || (e in Grouped(paths, depth) && !NoClash(e.1, depth + 1))
  {
    GroupOf(paths, depth, q);
    e := (q[depth], Bucket(Grouped(paths, depth), q[depth]));
    if |p| > depth {
      ClashDescends(p, q, depth);
      GroupOf(paths, depth, p);
    }
  }

  /** A clash shows at this level, or inside the group of a segment. */
  lemma {:induction false} ClashByLevel(paths: seq<Path>, depth: nat)
    requires AllAtLeast(paths, depth)
    ensures NoClash(paths, depth)
       <==> !ClashHere(paths, depth)
            && GroupsClear(Grouped(paths, depth), depth + 1)
  {
    if ClashHere(paths, depth) { ClashAtLevel(paths, depth); }
    if !GroupsClear(Grouped(paths, depth), depth + 1) {
      var i :| 0 <= i < |Grouped(paths, depth)| && !NoClash(Grouped(paths, depth)[i].1, depth + 1);
      ClashInGroup(paths, depth, Grouped(paths, depth)[i]);
    }
    if p, q :| p in paths && q in paths && Clash(p, q, depth) { var e := ClashSplits(paths, depth, p, q); }
  }

  lemma {:induction false} LevelSorted(layout: Layout, cs: Entries<HashTree>, terminal: bool, c: (Bytes, HashTree),
      segs: Entries<HashTree>)
    requires IsLayout(layout) && IsLevel(cs, terminal, c, segs) && SortedTree(c.1)
    ensures SortedTree(BuildBalancedLabeled(layout, cs)) <==> !(terminal && c.0 in Keys(segs)) && ChildrenSorted(segs)
  {
    SortedBuild(layout, cs);
    assert forall i | 0 <= i < |segs| :: segs[i] in segs;
  }

  /** Sortedness of the tree, level by level. */
  lemma {:induction false} LevelSortedIff(h: Hash, layout: Layout, paths: seq<Path>, depth: nat)
    requires IsLayout(layout) && AllAtLeast(paths, depth)
    ensures var segs := GroupChildren(h, layout, paths, depth);
            SortedTree(ExprTree(h, layout, paths, depth))
            <==> !ClashHere(paths, depth) && ChildrenSorted(segs)
  {
    ExprLevel(h, layout, paths, depth);
    assert SortedTree(TerminalChild(h).1);
    LevelSorted(layout, ExprChildren(h, layout, paths, depth), TerminalHere(paths, depth), TerminalChild(h),
                GroupChildren(h, layout, paths, depth));
  }

  /**
   The built tree has strictly increasing labels at every level exactly when no
   registered path continues another with the terminal marker as its next segment.
   */
  lemma {:induction false} ExprTreeSortedIff(h: Hash, layout: Layout, paths: seq<Path>, depth: nat)
    requires IsLayout(layout) && AllAtLeast(paths, depth)
    ensures SortedTree(ExprTree(h, layout, paths, depth)) <==> NoClash(paths, depth)
    decreases Longest(paths) - depth, 1
  {
    ClashByLevel(paths, depth);
    LevelSortedIff(h, layout, paths, depth);
    forall i | 0 <= i < |Grouped(paths, depth)|
      ensures SortedTree(GroupChildren(h, layout, paths, depth)[i].1)
         <==> NoClash(Grouped(paths, depth)[i].1, depth + 1)
    {
      ChildSortedIff(h, layout, paths, depth, i);
    }
    assert ChildrenSorted(GroupChildren(h, layout, paths, depth)) <==> GroupsClear(Grouped(paths, depth), depth + 1);
  }

  lemma {:induction false} ChildSortedIff(h: Hash, layout: Layout, paths: seq<Path>, depth: nat, i: nat)
    requires IsLayout(layout) && AllAtLeast(paths, depth) && i < |Grouped(paths, depth)|
    ensures SortedTree(GroupChildren(h, layout, paths, depth)[i].1) <==> NoClash(Grouped(paths, depth)[i].1, depth + 1)
    decreases Longest(paths) - depth, 0
  {
    GroupChildAt(h, layout, paths, depth, i);
    ExprTreeSortedIff(h, layout, Grouped(paths, depth)[i].1, depth + 1);
  }

  /** The full tree prunes nothing. */
  lemma {:induction false} ExprTreeIsWhole(h: Hash, layout: Layout, paths: seq<Path>, depth: nat)
    requires IsLayout(layout) && AllAtLeast(paths, depth)
    ensures Whole(ExprTree(h, layout, paths, depth))
    decreases Longest(paths) - depth, 1
  {
    var cs, segs := ExprChildren(h, layout, paths, depth), GroupChildren(h, layout, paths, depth);
    ExprLevel(h, layout, paths, depth);
    forall i | 0 <= i < |segs| ensures Whole(segs[i].1) { ChildIsWhole(h, layout, paths, depth, i); }
    LevelIsWhole(cs, TerminalHere(paths, depth), TerminalChild(h), segs);
    ArrangeIsWhole(layout.shape(|cs|), cs);
  }

  lemma {:induction false} LevelIsWhole(cs: Entries<HashTree>, terminal: bool, c: (Bytes, HashTree),
      segs: Entries<HashTree>)
    requires IsLevel(cs, terminal, c, segs) && Whole(c.1)
    requires forall i | 0 <= i < |segs| :: Whole(segs[i].1)
    ensures forall e | e in cs :: Whole(e.1)
  {
  }

  lemma {:induction false} ChildIsWhole(h: Hash, layout: Layout, paths: seq<Path>, depth: nat, i: nat)
    requires IsLayout(layout) && AllAtLeast(paths, depth) && i < |Grouped(paths, depth)|
    ensures Whole(GroupChildren(h, layout, paths, depth)[i].1)
    decreases Longest(paths) - depth, 0
  {
    GroupChildAt(h, layout, paths, depth, i);
    ExprTreeIsWhole(h, layout, Grouped(paths, depth)[i].1, depth + 1);
  }

  // ─── The witness ─────────────────────────────────────────────────────

  /** The label the witness keeps at a depth; below the expression hash it keeps none. */
  function Wanted(h: Hash, segments: Path, depth: nat): Option<Bytes> {
    if depth < |segments| then Some(segments[depth])
    else if depth == |segments| then Some(TerminalMarker())
    else if depth == |segments| + 1 then Some(PassThroughExprHash(h))
    else None
  }

  function PruneToPath(h: Hash, node: HashTree, segments: Path, depth: nat): HashTree {
    match node
    case Fork(l, r) => Fork(PruneToPath(h, l, segments, depth), PruneToPath(h, r, segments, depth))
    case Labeled(lbl, sub) =>
      if Wanted(h, segments, depth) == Some(lbl) then Labeled(lbl, PruneToPath(h, sub, segments, depth + 1))
      else Pruned(Digest(h, node))
    case _ => node
  }

  lemma {:induction false} PruneToPathPrunes(h: Hash, node: HashTree, segments: Path, depth: nat)
    ensures Prunes(h, node, PruneToPath(h, node, segments, depth))
    decreases node
  {
    match node
    case Fork(l, r) => PruneToPathPrunes(h, l, segments, depth); PruneToPathPrunes(h, r, segments, depth);
    case Labeled(_, sub) => PruneToPathPrunes(h, sub, segments, depth + 1);
    case _ =>
  }

  /** The wanted label keeps its first child, pruned one level deeper. */
  lemma {:induction false} PruneKeepsWanted(h: Hash, node: HashTree, segments: Path, depth: nat)
    requires depth <= |segments| + 1
    ensures var l := Wanted(h, segments, depth).value;
            FirstLabeled(l, Flatten(PruneToPath(h, node, segments, depth)))
            == match FirstLabeled(l, Flatten(node))
               case None => None
               case Some(s) => Some(PruneToPath(h, s, segments, depth + 1))
    decreases node
  {
    var l := Wanted(h, segments, depth).value;
    match node
    case Fork(a, b) =>
      PruneKeepsWanted(h, a, segments, depth);
      PruneKeepsWanted(h, b, segments, depth);
      FirstInFork(l, a, b);
      FirstInFork(l, PruneToPath(h, a, segments, depth), PruneToPath(h, b, segments, depth));
    case Empty =>
    case _ =>
      var ts, us := Flatten(node), Flatten(PruneToPath(h, node, segments, depth));
      assert ts == [node] && ts[1..] == [] && |us| == 1 && us[1..] == [];
  }

  lemma {:induction false} FirstInFork(l: Bytes, a: HashTree, b: HashTree)
    ensures FirstLabeled(l, Flatten(Fork(a, b)))
         == var first := FirstLabeled(l, Flatten(a)); if first.Some? then first else FirstLabeled(l, Flatten(b))
  {
    FirstLabeledAppend(l, Flatten(a), Flatten(b));
  }

  lemma {:induction false} FirstLabeledOfEntries(l: Bytes, cs: Entries<HashTree>)
    ensures FirstLabeled(l, AsLabeled(cs)) == Get(cs, l)
  {
    if cs != [] {
      assert AsLabeled(cs)[1..] == AsLabeled(cs[1..]);
      FirstLabeledOfEntries(l, cs[1..]);
    }
  }

  /** The labels a verifier follows below "http_expr" for a path. */
  function ExprPath(h: Hash, segments: Path): Path {
    segments + [TerminalMarker(), PassThroughExprHash(h)]
  }

  function Witness(h: Hash, layout: Layout, paths: seq<Path>, segments: Path, depth: nat): HashTree
    requires IsLayout(layout) && AllAtLeast(paths, depth)
  {
    PruneToPath(h, ExprTree(h, layout, paths, depth), segments, depth)
  }

  /** One lookup step in the witness follows the table of the level. */
  lemma {:induction false} WitnessStep(h: Hash, layout: Layout, paths: seq<Path>, segments: Path, depth: nat,
      rest: Path)
    requires IsLayout(layout) && AllAtLeast(paths, depth) && depth <= |segments| + 1
    ensures var l := Wanted(h, segments, depth).value;
            match Get(ExprChildren(h, layout, paths, depth), l)
            case None => true
            case Some(s) => Lookup([l] + rest, Witness(h, layout, paths, segments, depth))
                            == Lookup(rest, PruneToPath(h, s, segments, depth + 1))
  {
    var l := Wanted(h, segments, depth).value;
    var cs := ExprChildren(h, layout, paths, depth);
    FlattenArrange(layout.shape(|cs|), cs);
    FirstLabeledOfEntries(l, cs);
    PruneKeepsWanted(h, ExprTree(h, layout, paths, depth), segments, depth);
    assert ([l] + rest)[1..] == rest;
  }

  /** Below the terminal marker: the expression hash, then the empty leaf. */
  lemma {:induction false} TerminalLookup(h: Hash, segments: Path)
    ensures Lookup([PassThroughExprHash(h)], PruneToPath(h, TerminalChild(h).1, segments, |segments| + 1)) == Found([])
  {
    var path := [PassThroughExprHash(h)];
    var t := PruneToPath(h, TerminalChild(h).1, segments, |segments| + 1);
    assert PruneToPath(h, Leaf([]), segments, |segments| + 2) == Leaf([]);
    assert t == Labeled(path[0], Leaf([]));
    assert Flatten(t) == [t] && path[1..] == [];
    assert FirstLabeled(path[0], [t]) == Some(Leaf([]));
  }

  /** The group a path falls in, as the child found under its segment. */
  lemma {:induction false} SegmentStep(h: Hash, layout: Layout, paths: seq<Path>, depth: nat, p: Path)
      returns (b: seq<Path>)
    requires IsLayout(layout) && AllAtLeast(paths, depth) && p in paths && |p| > depth
    ensures p in b && (p[depth], b) in Grouped(paths, depth)
    ensures AllAtLeast(b, depth + 1) && depth + 1 <= Longest(b) <= Longest(paths)
    ensures var child := Get(ExprChildren(h, layout, paths, depth), p[depth]);
            || child == Some(ExprTree(h, layout, b, depth + 1))
            || (ClashHere(paths, depth) && p[depth] == TerminalMarker() && child == Some(TerminalChild(h).1))
  {
    var groups, segs := Grouped(paths, depth), GroupChildren(h, layout, paths, depth);
    GroupOf(paths, depth, p);
    b := Bucket(groups, p[depth]);
    var i :| 0 <= i < |groups| && groups[i] == (p[depth], b);
    GroupChildAt(h, layout, paths, depth, i);
    ExprLevel(h, layout, paths, depth);
    GetIsMembership(segs, p[depth], segs[i].1);
  }

  /** A terminal child met too early leads nowhere. */
  lemma {:induction false} TerminalBelow(h: Hash, segments: Path, depth: nat, rest: Path)
    requires |rest| >= 2
    ensures !Lookup(rest, PruneToPath(h, TerminalChild(h).1, segments, depth)).Found?
  {
    var x := PassThroughExprHash(h);
    var t := PruneToPath(h, TerminalChild(h).1, segments, depth);
    if t.Pruned? {
      PrunedAnswersUnknown(rest, t.digest);
    } else {
      assert PruneToPath(h, Leaf([]), segments, depth + 1) == Leaf([]);
      assert t == Labeled(x, Leaf([]));
      assert Flatten(t) == [t] && [t][1..] == [];
      if rest[0] != x {
        assert FirstLabeled(rest[0], [t]) == FirstLabeled(rest[0], [t][1..]) == None;
      } else {
        assert Flatten(Leaf([])) == [Leaf([])] && [Leaf([])][1..] == [];
        assert FirstLabeled(rest[1], [Leaf([])]) == FirstLabeled(rest[1], []) == None;
        assert Lookup(rest, t) == Lookup(rest[1..], Leaf([]));
      }
    }
  }

  /** At the end of a registered path the terminal child is the one found. */
  lemma {:induction false} TerminalStep(h: Hash, layout: Layout, paths: seq<Path>, segments: Path, depth: nat,
      rest: Path)
    requires IsLayout(layout) && AllAtLeast(paths, depth) && depth <= |segments| + 1
    requires Wanted(h, segments, depth) == Some(TerminalMarker())
    requires Get(ExprChildren(h, layout, paths, depth), TerminalMarker()) == Some(TerminalChild(h).1)
    ensures Lookup([TerminalMarker()] + rest, Witness(h, layout, paths, segments, depth))
         == Lookup(rest, PruneToPath(h, TerminalChild(h).1, segments, depth + 1))
  {
    WitnessStep(h, layout, paths, segments, depth, rest);
  }

  /** What a path's witness gives from some depth on. */
  function FoundFrom(h: Hash, layout: Layout, paths: seq<Path>, p: Path, depth: nat): LookupResult
    requires IsLayout(layout) && AllAtLeast(paths, depth) && depth <= |p|
  {
    Lookup(ExprPath(h, p)[depth..], Witness(h, layout, paths, p, depth))
  }

  lemma {:induction false} PathTail(h: Hash, p: Path, depth: nat)
    requires depth < |p|
    ensures ExprPath(h, p)[depth..] == [p[depth]] + ExprPath(h, p)[depth + 1..]
  {
  }

  /** One step along a path, into the child found under its segment. */
  lemma {:induction false} StepDown(h: Hash, layout: Layout, paths: seq<Path>, p: Path, depth: nat, b: seq<Path>)
    requires IsLayout(layout) && AllAtLeast(paths, depth) && AllAtLeast(b, depth + 1) && depth < |p|
    requires Get(ExprChildren(h, layout, paths, depth), p[depth]) == Some(ExprTree(h, layout, b, depth + 1))
    ensures FoundFrom(h, layout, paths, p, depth) == FoundFrom(h, layout, b, p, depth + 1)
  {
    PathTail(h, p, depth);
    WitnessStep(h, layout, paths, p, depth, ExprPath(h, p)[depth + 1..]);
  }

  lemma {:induction false} PathEnd(h: Hash, p: Path)
    ensures ExprPath(h, p)[|p|..] == [TerminalMarker()] + [PassThroughExprHash(h)]
  {
  }

  /** The last two labels lead to the empty leaf where the terminal child is found. */
  lemma {:induction false} TerminalFound(h: Hash, layout: Layout, paths: seq<Path>, p: Path)
    requires IsLayout(layout) && AllAtLeast(paths, |p|)
    requires Get(ExprChildren(h, layout, paths, |p|), TerminalMarker()) == Some(TerminalChild(h).1)
    ensures FoundFrom(h, layout, paths, p, |p|) == Found([])
  {
    PathEnd(h, p);
    TerminalStep(h, layout, paths, p, |p|, [PassThroughExprHash(h)]);
    TerminalLookup(h, p);
  }

  /** Every registered path is found in its witness, with the empty leaf, when no paths clash. */
  lemma {:induction false} WitnessFinds(h: Hash, layout: Layout, paths: seq<Path>, p: Path, depth: nat)
    requires IsLayout(layout) && AllAtLeast(paths, depth) && p in paths && NoClash(paths, depth)
    ensures FoundFrom(h, layout, paths, p, depth) == Found([])
    decreases |p| - depth
  {
    ClashByLevel(paths, depth);
    if |p| == depth {
      ExprLevel(h, layout, paths, depth);
      TerminalFound(h, layout, paths, p);
    } else {
      var b := SegmentStep(h, layout, paths, depth, p);
      StepDown(h, layout, paths, p, depth, b);
      WitnessFinds(h, layout, b, p, depth + 1);
    }
  }

  /** No child is a leaf itself. */
  lemma {:induction false} ChildIsNoLeaf(h: Hash, layout: Layout, paths: seq<Path>, depth: nat, l: Bytes)
    requires IsLayout(layout) && AllAtLeast(paths, depth)
    ensures match Get(ExprChildren(h, layout, paths, depth), l) case None => true case Some(s) => !s.Leaf?
  {
    var segs := GroupChildren(h, layout, paths, depth);
    ExprLevel(h, layout, paths, depth);
    match Get(ExprChildren(h, layout, paths, depth), l)
    case None =>
    case Some(s) =>
      GetIsEntry(ExprChildren(h, layout, paths, depth), l);
      if (l, s) in segs {
        var i :| 0 <= i < |segs| && segs[i] == (l, s);
        GroupChildAt(h, layout, paths, depth, i);
      }
  }

  lemma {:induction false} NoLeafFound(h: Hash, node: HashTree, segments: Path, depth: nat)
    requires depth == |segments| + 1
    requires match FirstLabeled(PassThroughExprHash(h), Flatten(node)) case None => true case Some(s) => !s.Leaf?
    ensures !Lookup([PassThroughExprHash(h)], PruneToPath(h, node, segments, depth)).Found?
  {
    PruneKeepsWanted(h, node, segments, depth);
    assert [PassThroughExprHash(h)][1..] == [];
  }

  /** One label below a group there is no value yet. */
  lemma {:induction false} NoLeafBelow(h: Hash, layout: Layout, paths: seq<Path>, segments: Path, depth: nat)
    requires IsLayout(layout) && AllAtLeast(paths, depth) && depth == |segments| + 1
    ensures !Lookup([PassThroughExprHash(h)], Witness(h, layout, paths, segments, depth)).Found?
  {
    var cs := ExprChildren(h, layout, paths, depth);
    ChildIsNoLeaf(h, layout, paths, depth, PassThroughExprHash(h));
    FlattenArrange(layout.shape(|cs|), cs);
    FirstLabeledOfEntries(PassThroughExprHash(h), cs);
    NoLeafFound(h, ExprTree(h, layout, paths, depth), segments, depth);
  }

  /** When the terminal child comes first, the path that goes on is lost. */
  lemma {:induction false} LongerLost(h: Hash, layout: Layout, paths: seq<Path>, q: Path, depth: nat)
    requires IsLayout(layout) && AllAtLeast(paths, depth) && depth < |q| && q[depth] == TerminalMarker()
    requires Get(ExprChildren(h, layout, paths, depth), TerminalMarker()) == Some(TerminalChild(h).1)
    ensures !FoundFrom(h, layout, paths, q, depth).Found?
  {
    var rest := ExprPath(h, q)[depth + 1..];
    PathTail(h, q, depth);
    TerminalStep(h, layout, paths, q, depth, rest);
    TerminalBelow(h, q, depth + 1, rest);
  }

  /** When the segment's child comes first, the path that ends here is lost. */
  lemma {:induction false} ShorterLost(h: Hash, layout: Layout, paths: seq<Path>, p: Path, b: seq<Path>)
    requires IsLayout(layout) && AllAtLeast(paths, |p|) && AllAtLeast(b, |p| + 1)
    requires Get(ExprChildren(h, layout, paths, |p|), TerminalMarker()) == Some(ExprTree(h, layout, b, |p| + 1))
    ensures !FoundFrom(h, layout, paths, p, |p|).Found?
  {
    PathEnd(h, p);
    WitnessStep(h, layout, paths, p, |p|, [PassThroughExprHash(h)]);
    NoLeafBelow(h, layout, b, p, |p| + 1);
  }

  /**
   Of a path and one that continues it with the terminal marker, at least one is not found
   in its own witness, whichever of their children a sort puts first.
   */
  lemma {:induction false} ClashLosesOne(h: Hash, layout: Layout, paths: seq<Path>, p: Path, q: Path, depth: nat)
    requires IsLayout(layout) && AllAtLeast(paths, depth) && p in paths && q in paths && Clash(p, q, depth)
    ensures !FoundFrom(h, layout, paths, p, depth).Found? || !FoundFrom(h, layout, paths, q, depth).Found?
    decreases |p| - depth
  {
    var b := SegmentStep(h, layout, paths, depth, q);
    if Get(ExprChildren(h, layout, paths, depth), q[depth]) != Some(ExprTree(h, layout, b, depth + 1)) {
      LongerLost(h, layout, paths, q, depth);
    } else if |p| == depth {
      ShorterLost(h, layout, paths, p, b);
    } else {
      ClashDescends(p, q, depth);
      SameGroup(paths, depth, p, q, b);
      StepDown(h, layout, paths, p, depth, b);
      StepDown(h, layout, paths, q, depth, b);
      ClashLosesOne(h, layout, b, p, q, depth + 1);
    }
  }

  lemma {:induction false} SameGroup(paths: seq<Path>, depth: nat, p: Path, q: Path, b: seq<Path>)
    requires AllAtLeast(paths, depth) && p in paths && |p| > depth && |q| > depth && p[depth] == q[depth]
    requires (q[depth], b) in Grouped(paths, depth)
    ensures p in b
  {
    GroupOf(paths, depth, p);
    GroupedSorted(paths, depth);
    GetIsMembership(Grouped(paths, depth), q[depth], b);
  }

  predicate PathFound(h: Hash, layout: Layout, paths: seq<Path>, p: Path)
    requires IsLayout(layout)
  {
    Lookup(ExprPath(h, p), Witness(h, layout, paths, p, 0)) == Found([])
  }

  /**
   Witness completeness, exactly: every registered path, prefixes of others included,
   is found with the empty leaf in its own pruned witness if and only if no registered
   path continues another with the terminal marker as its next segment.
   */
  lemma {:induction false} WitnessCompleteIff(h: Hash, layout: Layout, paths: seq<Path>)
    requires IsLayout(layout)
    ensures NoClash(paths, 0) <==> forall p | p in paths :: PathFound(h, layout, paths, p)
  {
    if NoClash(paths, 0) {
      forall p | p in paths ensures PathFound(h, layout, paths, p) {
        WitnessFinds(h, layout, paths, p, 0);
        assert ExprPath(h, p)[0..] == ExprPath(h, p);
      }
    } else {
      var p, q :| p in paths && q in paths && Clash(p, q, 0);
      ClashLosesOne(h, layout, paths, p, q, 0);
      assert ExprPath(h, p)[0..] == ExprPath(h, p) && ExprPath(h, q)[0..] == ExprPath(h, q);
    }
  }
}

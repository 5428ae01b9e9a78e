/**
 Circuit snapshots by principal: an index into append-only stable memory, itself written
 there after every change, so that a fresh store after an upgrade finds everything again.
 */
module CircuitStores {
  import opened ByteStrings
  import opened StableRegions

  datatype Ref = Ref(offset: nat, length: nat)

  type Index = map<Bytes, Ref>

  const INDEX_MAGIC := 0x43495243

  // ─── The index image ─────────────────────────────────────────────────

  function EntryImage(p: Bytes, ref: Ref): Bytes
    requires |p| <= 255
  {
    [|p|] + p + LE(ref.offset, 8) + LE(ref.length, 8)
  }

  predicate ShortKeys(order: seq<Bytes>) {
    forall i | 0 <= i < |order| :: |order[i]| <= 255
  }

  predicate AllIn(order: seq<Bytes>, index: Index) {
    forall i | 0 <= i < |order| :: order[i] in index
  }

  function EntriesImage(order: seq<Bytes>, index: Index): Bytes
    requires ShortKeys(order) && AllIn(order, index)
  {
    if order == [] then [] else EntryImage(order[0], index[order[0]]) + EntriesImage(order[1..], index)
  }

  function IndexImage(order: seq<Bytes>, index: Index): Bytes
    requires ShortKeys(order) && AllIn(order, index)
  {
    LE(INDEX_MAGIC, 4) + LE(|order|, 4) + EntriesImage(order, index)
  }

  /** The dictionary's keys, each once, in some order. */
  predicate Enumerates(order: seq<Bytes>, index: Index) {
    && AllIn(order, index)
    && (forall p | p in index :: p in order)
    && forall i, j | 0 <= i < j < |order| :: order[i] != order[j]
  }

  // ─── Reading an index image ──────────────────────────────────────────

  datatype Entry = Entry(principal: Bytes, ref: Ref)

  /** One entry and the position behind it. */
  function EntryAt(raw: Bytes, pos: nat): Option<(Entry, nat)> {
    if pos + 1 > |raw| then None
    else
      var at := pos + 1 + raw[pos];
      if at + 16 > |raw| then None
      else Some((Entry(raw[pos + 1..at], Ref(U64At(raw, at), U64At(raw, at + 8))), at + 16))
  }

  function ParseEntries(raw: Bytes, pos: nat, count: nat): Option<seq<Entry>>
    decreases count
  {
    if count == 0 then Some([])
    else
      match EntryAt(raw, pos)
      case None => None
      case Some((entry, next)) =>
        match ParseEntries(raw, next, count - 1)
        case None => None
        case Some(rest) => Some([entry] + rest)
  }

  function ParseIndex(raw: Bytes): Option<seq<Entry>> {
    if |raw| < 8 || FromLE(raw[..4]) != INDEX_MAGIC then None else ParseEntries(raw, 8, FromLE(raw[4..8]))
  }

  /** Later entries replace earlier ones. */
  function ToIndex(entries: seq<Entry>): Index {
    if entries == [] then map[]
    else ToIndex(entries[..|entries| - 1])[entries[|entries| - 1].principal := entries[|entries| - 1].ref]
  }

  function EntriesOf(order: seq<Bytes>, index: Index): seq<Entry>
    requires AllIn(order, index)
  {
    if order == [] then [] else [Entry(order[0], index[order[0]])] + EntriesOf(order[1..], index)
  }

  /** References fit the fields they are written to. */
  predicate Sized(index: Index) {
    forall p | p in index :: |p| <= 255 && index[p].offset < U64_LIMIT && index[p].length < U64_LIMIT
  }

  lemma {:induction false} EntryPieces(raw: Bytes, pos: nat, p: Bytes, o: Bytes, l: Bytes)
    requires |p| <= 255 && |o| == |l| == 8 && At(raw, pos, [|p|] + p + o + l)
    ensures raw[pos] == |p| && At(raw, pos + 1, p) && At(raw, pos + 1 + |p|, o) && At(raw, pos + 1 + |p| + 8, l)
  {
    AtSplit(raw, pos, [|p|] + p + o, l);
    AtSplit(raw, pos, [|p|] + p, o);
    AtSplit(raw, pos, [|p|], p);
    AtIndex(raw, pos, [|p|], 0);
  }

  lemma {:induction false} EntryIsRead(raw: Bytes, pos: nat, p: Bytes, ref: Ref)
    requires |p| <= 255 && ref.offset < U64_LIMIT && ref.length < U64_LIMIT && At(raw, pos, EntryImage(p, ref))
    ensures EntryAt(raw, pos) == Some((Entry(p, ref), pos + |EntryImage(p, ref)|))
  {
    EntryPieces(raw, pos, p, LE(ref.offset, 8), LE(ref.length, 8));
    WrittenIsRead(raw, pos + 1 + |p|, ref.offset);
    WrittenIsRead(raw, pos + 1 + |p| + 8, ref.length);
  }

  lemma {:induction false} ParseStep(raw: Bytes, pos: nat, entry: Entry, next: nat, count: nat, rest: seq<Entry>)
    requires EntryAt(raw, pos) == Some((entry, next)) && ParseEntries(raw, next, count) == Some(rest)
    ensures ParseEntries(raw, pos, count + 1) == Some([entry] + rest)
  {
  }

  lemma {:induction false} FirstEntryIsRead(raw: Bytes, pos: nat, order: seq<Bytes>, index: Index) returns (next: nat)
    requires Sized(index) && AllIn(order, index) && ShortKeys(order) && At(raw, pos, EntriesImage(order, index))
    requires order != []
    ensures EntryAt(raw, pos) == Some((Entry(order[0], index[order[0]]), next))
    ensures At(raw, next, EntriesImage(order[1..], index))
  {
    var first := EntryImage(order[0], index[order[0]]);
    AtSplit(raw, pos, first, EntriesImage(order[1..], index));
    EntryIsRead(raw, pos, order[0], index[order[0]]);
    next := pos + |first|;
  }

  lemma {:induction false} EntriesAreRead(raw: Bytes, pos: nat, order: seq<Bytes>, index: Index)
    requires Sized(index) && AllIn(order, index) && ShortKeys(order) && At(raw, pos, EntriesImage(order, index))
    ensures ParseEntries(raw, pos, |order|) == Some(EntriesOf(order, index))
    decreases |order|
  {
    if order != [] {
      var next := FirstEntryIsRead(raw, pos, order, index);
      EntriesAreRead(raw, next, order[1..], index);
      ParseStep(raw, pos, Entry(order[0], index[order[0]]), next, |order[1..]|, EntriesOf(order[1..], index));
    }
  }

  /** Reading inverts writing, in whatever order the entries were written and whatever follows them. */
  lemma {:induction false} ImageIsRead(order: seq<Bytes>, index: Index, rest: Bytes)
    requires Sized(index) && AllIn(order, index) && ShortKeys(order) && |order| < 0x1_0000_0000
    ensures ParseIndex(IndexImage(order, index) + rest) == Some(EntriesOf(order, index))
  {
    var magic, count, entries := LE(INDEX_MAGIC, 4), LE(|order|, 4), EntriesImage(order, index);
    var raw := IndexImage(order, index) + rest;
    Pow256Values();
    LERoundTrip(INDEX_MAGIC, 4);
    LERoundTrip(|order|, 4);
    assert raw[..4] == magic && raw[4..8] == count;
    assert raw[8..8 + |entries|] == entries;
    EntriesAreRead(raw, 8, order, index);
  }

  lemma {:induction false} EntriesInOrder(order: seq<Bytes>, index: Index, k: nat)
    requires AllIn(order, index) && k < |order|
    ensures |EntriesOf(order, index)| == |order| && EntriesOf(order, index)[k] == Entry(order[k], index[order[k]])
  {
    if |order| > 1 {
      EntriesInOrder(order[1..], index, if k == 0 then 0 else k - 1);
    }
  }

  lemma {:induction false} ToIndexOf(entries: seq<Entry>, index: Index)
    requires forall i | 0 <= i < |entries| ::
               entries[i].principal in index && entries[i].ref == index[entries[i].principal]
    ensures forall p | p in ToIndex(entries) :: p in index && ToIndex(entries)[p] == index[p]
    ensures forall i | 0 <= i < |entries| :: entries[i].principal in ToIndex(entries)
  {
    if entries != [] { ToIndexOf(entries[..|entries| - 1], index); }
  }

  lemma {:induction false} EntriesAreIndex(order: seq<Bytes>, index: Index)
    requires Enumerates(order, index)
    ensures ToIndex(EntriesOf(order, index)) == index
  {
    var entries := EntriesOf(order, index);
    if order != [] { EntriesInOrder(order, index, 0); }
    forall k | 0 <= k < |order| ensures entries[k] == Entry(order[k], index[order[k]]) {
      EntriesInOrder(order, index, k);
    }
    ToIndexOf(entries, index);
    forall p | p in index ensures p in ToIndex(entries) {
      var k :| 0 <= k < |order| && order[k] == p;
      assert entries[k].principal == p;
    }
  }

  /** The map read back is the map that was written. */
  lemma {:induction false} IndexIsRead(order: seq<Bytes>, index: Index, rest: Bytes)
    requires Sized(index) && Enumerates(order, index) && ShortKeys(order) && |order| < 0x1_0000_0000
    ensures var parsed := ParseIndex(IndexImage(order, index) + rest);
            parsed.Some? && ToIndex(parsed.value) == index
  {
    ImageIsRead(order, index, rest);
    EntriesAreIndex(order, index);
  }

  /** Cut inside its first entry, or behind it. */
  lemma {:induction false} CutEntry(pre: Bytes, p: Bytes, tail: Bytes, cut: Bytes)
    requires |p| <= 255 && |tail| == 16 && (cut <= [|p|] + p + tail || [|p|] + p + tail <= cut)
    ensures var e := EntryAt(pre + cut, |pre|);
            if |cut| < |p| + 17 then e == None else e.Some? && e.value.1 == |pre| + |p| + 17
  {
    var raw := pre + cut;
    if cut != [] { assert raw[|pre|] == cut[0] == ([|p|] + p + tail)[0] == |p|; }
  }

  /** Entries cut after `k` bytes: the first is rejected, or read, and the cut goes on behind it. */
  lemma {:induction false} CutFirst(p: Bytes, tail: Bytes, first: Bytes, rest: Bytes, pre: Bytes, k: nat)
    requires |p| <= 255 && |tail| == 16 && first == [|p|] + p + tail && k <= |first + rest|
    ensures var raw := pre + (first + rest)[..k];
            if k < |first| then EntryAt(raw, |pre|) == None
            else EntryAt(raw, |pre|).Some? && EntryAt(raw, |pre|).value.1 == |pre + first|
                 && raw == (pre + first) + rest[..k - |first|]
  {
    CutEntry(pre, p, tail, (first + rest)[..k]);
    if k >= |first| { assert (first + rest)[..k] == first + rest[..k - |first|]; }
  }

  lemma {:induction false} CutEntriesRejected(order: seq<Bytes>, index: Index, pre: Bytes, k: nat)
    requires AllIn(order, index) && ShortKeys(order) && k < |EntriesImage(order, index)|
    ensures ParseEntries(pre + EntriesImage(order, index)[..k], |pre|, |order|) == None
    decreases |order|
  {
    var p, rest := order[0], EntriesImage(order[1..], index);
    var tail := LE(index[p].offset, 8) + LE(index[p].length, 8);
    var first := [|p|] + p + tail;
    assert EntryImage(p, index[p]) == first;
    CutFirst(p, tail, first, rest, pre, k);
    if |first| <= k { CutEntriesRejected(order[1..], index, pre + first, k - |first|); }
  }

  /** Every proper prefix of an index image is rejected. */
  lemma {:induction false} TruncationIsDetected(order: seq<Bytes>, index: Index, k: nat)
    requires AllIn(order, index) && ShortKeys(order) && |order| < 0x1_0000_0000 && k < |IndexImage(order, index)|
    ensures ParseIndex(IndexImage(order, index)[..k]) == None
  {
    if k >= 8 {
      var head := LE(INDEX_MAGIC, 4) + LE(|order|, 4);
      var raw := IndexImage(order, index)[..k];
      assert raw == head + EntriesImage(order, index)[..k - 8];
      assert raw[4..8] == LE(|order|, 4);
      Pow256Values();
      LERoundTrip(|order|, 4);
      CutEntriesRejected(order, index, head, k - 8);
    }
  }

  // ─── Which bytes are an image ────────────────────────────────────────

  predicate Storable(e: Entry) {
    |e.principal| <= 255 && e.ref.offset < U64_LIMIT && e.ref.length < U64_LIMIT
  }

  predicate AllStorable(entries: seq<Entry>) {
    forall i | 0 <= i < |entries| :: Storable(entries[i])
  }

  /** The bytes at `pos` are the entries, one behind the other. */
  predicate EntriesStand(raw: Bytes, pos: nat, entries: seq<Entry>)
    requires AllStorable(entries)
    decreases |entries|
  {
    if entries == [] then true
    else
      var image := EntryImage(entries[0].principal, entries[0].ref);
      At(raw, pos, image) && EntriesStand(raw, pos + |image|, entries[1..])
  }

  lemma {:induction false} EntryWasThere(raw: Bytes, pos: nat)
    requires EntryAt(raw, pos).Some?
    ensures var (e, next) := EntryAt(raw, pos).value;
            Storable(e) && At(raw, pos, EntryImage(e.principal, e.ref)) && next == pos + |e.principal| + 17
  {
    var (e, next) := EntryAt(raw, pos).value;
    var at := pos + 1 + raw[pos];
    Pow256Values();
    FromLEBound(raw[at..at + 8]);
    FromLEBound(raw[at + 8..at + 16]);
    LEInverts(raw[at..at + 8]);
    LEInverts(raw[at + 8..at + 16]);
    AtSplit(raw, pos, [|e.principal|], e.principal);
    AtSplit(raw, pos, [|e.principal|] + e.principal, LE(e.ref.offset, 8));
    AtSplit(raw, pos, [|e.principal|] + e.principal + LE(e.ref.offset, 8), LE(e.ref.length, 8));
  }

  lemma {:induction false} FirstStands(raw: Bytes, pos: nat, e: Entry, next: nat, rest: seq<Entry>)
    requires Storable(e) && At(raw, pos, EntryImage(e.principal, e.ref)) && next == pos + |e.principal| + 17
    requires AllStorable(rest) && EntriesStand(raw, next, rest)
    ensures AllStorable([e] + rest) && EntriesStand(raw, pos, [e] + rest)
  {
    assert ([e] + rest)[1..] == rest;
  }

  lemma {:induction false} EntriesWereThere(raw: Bytes, pos: nat, count: nat)
    requires ParseEntries(raw, pos, count).Some?
    ensures var es := ParseEntries(raw, pos, count).value;
            |es| == count && AllStorable(es) && EntriesStand(raw, pos, es)
    decreases count
  {
    if count > 0 {
      EntryWasThere(raw, pos);
      var (first, next) := EntryAt(raw, pos).value;
      EntriesWereThere(raw, next, count - 1);
      FirstStands(raw, pos, first, next, ParseEntries(raw, next, count - 1).value);
    }
  }

  lemma {:induction false} StandingIsRead(raw: Bytes, pos: nat, es: seq<Entry>)
    requires AllStorable(es) && EntriesStand(raw, pos, es)
    ensures ParseEntries(raw, pos, |es|) == Some(es)
    decreases |es|
  {
    if es != [] {
      EntryIsRead(raw, pos, es[0].principal, es[0].ref);
      var next := pos + |EntryImage(es[0].principal, es[0].ref)|;
      StandingIsRead(raw, next, es[1..]);
      ParseStep(raw, pos, es[0], next, |es[1..]|, es[1..]);
      assert [es[0]] + es[1..] == es;
    }
  }

  /** Entries are read if and only if mark, count and entries stand at the front, their fields in range. */
  lemma {:induction false} ImageIsReadIff(raw: Bytes, es: seq<Entry>)
    ensures ParseIndex(raw) == Some(es) <==>
              |es| < 0x1_0000_0000 && AllStorable(es) && At(raw, 0, LE(INDEX_MAGIC, 4)) && At(raw, 4, LE(|es|, 4))
              && EntriesStand(raw, 8, es)
  {
    Pow256Values();
    LERoundTrip(INDEX_MAGIC, 4);
    if ParseIndex(raw) == Some(es) {
      LEInverts(raw[..4]);
      LEInverts(raw[4..8]);
      FromLEBound(raw[4..8]);
      assert raw[0..4] == raw[..4];
      EntriesWereThere(raw, 8, FromLE(raw[4..8]));
    }
    if |es| < 0x1_0000_0000 && AllStorable(es) && At(raw, 0, LE(INDEX_MAGIC, 4)) && At(raw, 4, LE(|es|, 4))
       && EntriesStand(raw, 8, es) {
      LERoundTrip(|es|, 4);
      assert raw[0..4] == raw[..4];
      StandingIsRead(raw, 8, es);
    }
  }

  // ─── Saving and loading ──────────────────────────────────────────────

  /** Stable memory, the index in the heap, and the offset of the last index image. */
  datatype World = World(mem: Bytes, index: Index, latest: nat)

  datatype Loading = NotLoaded | Unreadable | Loaded(index: Index)

  function Load(mem: Bytes, offset: nat): Loading {
    if offset < PAYLOAD_BASE then NotLoaded
    else
      match ReadAt(mem, offset)
      case None => Unreadable
      case Some(raw) =>
        match ParseIndex(raw)
        case None => NotLoaded
        case Some(entries) => Loaded(ToIndex(entries))
  }

  datatype SaveError = PrincipalTooLong | IndexTooLarge

  /** The state allocated and indexed. */
  predicate Snapshots(w: World, p: Bytes, state: Bytes, t: World) {
    && t.latest == w.latest
    && p in t.index && t.index == w.index[p := Ref(t.index[p].offset, |state|)]
    && Allocates(w.mem, state, t.mem, t.index[p].offset)
  }

  /** The index written out, or too large to be. */
  ghost predicate Persists(w: World, t: World, error: Option<SaveError>) {
    exists order ::
      && ShortKeys(order) && Enumerates(order, w.index)
      && t.index == w.index
      && if |IndexImage(order, w.index)| < 0x8000_0000 then
           error == None && Allocates(w.mem, IndexImage(order, w.index), t.mem, t.latest)
         else error == Some(IndexTooLarge) && t == w
  }

  ghost predicate Saves(w: World, p: Bytes, state: Bytes, t: World, error: Option<SaveError>) {
    if |p| > 255 then t == w && error == Some(PrincipalTooLong)
    else exists base, mid ::
      Primed(w.mem, base) && Snapshots(w.(mem := base), p, state, mid) && Persists(mid, t, error)
  }

  predicate ShortPrincipals(index: Index) {
    forall p | p in index :: |p| <= 255
  }

  /** None is an unknown principal, Some(None) a read that fails. */
  function RestoreFrom(w: World, p: Bytes): Option<Option<Bytes>> {
    if p in w.index then Some(ReadAt(w.mem, w.index[p].offset)) else None
  }

  lemma {:induction false} ParsedIsShort(raw: Bytes, pos: nat, count: nat)
    requires ParseEntries(raw, pos, count).Some?
    ensures forall i | 0 <= i < |ParseEntries(raw, pos, count).value| ::
              |ParseEntries(raw, pos, count).value[i].principal| <= 255
    decreases count
  {
    if count > 0 { ParsedIsShort(raw, EntryAt(raw, pos).value.1, count - 1); }
  }

  lemma {:induction false} ToIndexIsShort(entries: seq<Entry>)
    requires forall i | 0 <= i < |entries| :: |entries[i].principal| <= 255
    ensures ShortPrincipals(ToIndex(entries))
  {
    if entries != [] { ToIndexIsShort(entries[..|entries| - 1]); }
  }

  lemma {:induction false} EntriesSnoc(order: seq<Bytes>, index: Index, p: Bytes)
    requires ShortKeys(order) && AllIn(order, index) && p in index && |p| <= 255
    ensures EntriesImage(order + [p], index) == EntriesImage(order, index) + EntryImage(p, index[p])
    decreases |order|
  {
    if order == [] {
      assert [p][1..] == [];
    } else {
      assert (order + [p])[1..] == order[1..] + [p];
      EntriesSnoc(order[1..], index, p);
    }
  }

  method Put(buf: array<byte>, pos: nat, s: Bytes)
    requires pos + |s| <= buf.Length
    modifies buf
    ensures buf[..pos + |s|] == old(buf[..pos]) + s
  {
    for i := 0 to |s|
      invariant buf[..pos + i] == old(buf[..pos]) + s[..i]
    {
      buf[pos + i] := s[i];
    }
    assert s[..|s|] == s;
  }

  /** The dictionary's own order, which nothing depends on. */
  method Enumerate(index: Index) returns (order: seq<Bytes>)
    ensures Enumerates(order, index)
  {
    order := [];
    var rest := index.Keys;
    while rest != {}
      invariant rest <= index.Keys && AllIn(order, index)
      invariant forall p | p in index :: p in rest <==> p !in order
      invariant forall i, j | 0 <= i < j < |order| :: order[i] != order[j]
    {
      var p :| p in rest;
      order := order + [p];
      rest := rest - {p};
    }
  }

  class CircuitStore {
    const region: StableRegion
    var index: Index
    var latestIndexOffset: nat

    ghost predicate Valid()
      reads this, region, region.backend
    {
      region.Valid() && ShortPrincipals(index)
    }

    function Value(): World
      reads this, region, region.backend
    {
      World(region.backend.memory, index, latestIndexOffset)
    }

    constructor (region: StableRegion)
      requires region.Valid()
      ensures this.region == region && Valid() && Value() == World(region.backend.memory, map[], 0)
    {
      this.region := region;
      index := map[];
      latestIndexOffset := 0;
    }

    method Save(clientPrincipal: Bytes, state: Bytes) returns (error: Option<SaveError>)
      requires Valid() && |state| < 0x8000_0000 && HasRoom(region.backend.memory, 0x1_0000_0010)
      modifies this, region, region.backend
      ensures Valid() && Saves(old(Value()), clientPrincipal, state, Value(), error)
    {
      if |clientPrincipal| > 255 { return Some(PrincipalTooLong); }
      var stateOffset := region.Alloc(state);
      ghost var base :| Primed(old(region.backend.memory), base)
        && Allocates(base, state, region.backend.memory, stateOffset);
      index := index[clientPrincipal := Ref(stateOffset, |state|)];
      ghost var mid := Value();
      assert Snapshots(old(Value()).(mem := base), clientPrincipal, state, mid);
      error := PersistIndex();
    }

    method PersistIndex() returns (error: Option<SaveError>)
      requires Valid() && Formatted(region.backend.memory) && HasRoom(region.backend.memory, 0x8000_0008)
      modifies this, region, region.backend
      ensures Valid() && Persists(old(Value()), Value(), error)
    {
      var order := Enumerate(index);
      assert ShortKeys(order);
      var sizeBytes := SizeOf(order);
      if sizeBytes >= 0x8000_0000 { return Some(IndexTooLarge); }
      var buf := Fill(order, sizeBytes);
      latestIndexOffset := region.Alloc(buf);
      error := None;
    }

    /** None is an unknown principal, Some(None) a read that fails. */
    method Restore(clientPrincipal: Bytes) returns (r: Option<Option<Bytes>>)
      requires Valid()
      modifies region, region.backend
      ensures Valid() && (Primed(old(region.backend.memory), region.backend.memory) || Value() == old(Value()))
      ensures r == RestoreFrom(Value(), clientPrincipal)
    {
      if clientPrincipal !in index { return None; }
      var bytes := region.Read(index[clientPrincipal].offset);
      r := Some(bytes);
    }

    /** The number of entries; None when the image cannot be read. */
    method LoadFromStable(indexOffset: nat) returns (count: Option<nat>)
      requires Valid()
      modifies this, region, region.backend
      ensures Valid()
      ensures var mem := region.backend.memory;
              && (Primed(old(region.backend.memory), mem) || mem == old(region.backend.memory))
              && match Load(mem, indexOffset)
                 case NotLoaded => count == Some(0) && Value() == old(Value()).(mem := mem)
                 case Unreadable => count == None && Value() == old(Value()).(mem := mem)
                 case Loaded(rebuilt) => count == Some(|rebuilt|) && Value() == World(mem, rebuilt, indexOffset)
    {
      if indexOffset < PAYLOAD_BASE { return Some(0); }
      var raw := region.Read(indexOffset);
      if raw == None { return None; }
      var rebuilt := TryDeserializeIndex(raw.value);
      if rebuilt == None { return Some(0); }
      var entries := rebuilt.value;
      ParsedIsShort(raw.value, 8, FromLE(raw.value[4..8]));
      ToIndexIsShort(entries);
      Rebuild(entries);
      latestIndexOffset := indexOffset;
      count := Some(|index|);
    }

    method Rebuild(entries: seq<Entry>)
      modifies `index
      ensures index == ToIndex(entries)
    {
      index := map[];
      for i := 0 to |entries|
        invariant index == ToIndex(entries[..i])
      {
        assert entries[..i + 1][..i] == entries[..i];
        index := index[entries[i].principal := entries[i].ref];
      }
      assert entries[..|entries|] == entries;
    }

    method SizeOf(order: seq<Bytes>) returns (sizeBytes: nat)
      requires ShortKeys(order) && AllIn(order, index)
      ensures sizeBytes == |IndexImage(order, index)|
    {
      sizeBytes := 4 + 4;
      for i := 0 to |order|
        invariant sizeBytes == 8 + |EntriesImage(order[..i], index)|
      {
        EntriesSnoc(order[..i], index, order[i]);
        assert order[..i + 1] == order[..i] + [order[i]];
        sizeBytes := sizeBytes + 1 + |order[i]| + 8 + 8;
      }
      assert order[..|order|] == order;
    }

    method Fill(order: seq<Bytes>, sizeBytes: nat) returns (image: Bytes)
      requires ShortKeys(order) && AllIn(order, index) && sizeBytes == |IndexImage(order, index)|
      ensures image == IndexImage(order, index)
    {
      var buf := new byte[sizeBytes];
      Put(buf, 0, LE(INDEX_MAGIC, 4));
      Put(buf, 4, LE(|order|, 4));
      var pos := 8;
      for i := 0 to |order|
        invariant pos == |IndexHead(order, index, i)| <= buf.Length
        invariant buf[..pos] == IndexHead(order, index, i)
      {
        HeadGrows(order, index, i);
        pos := PutEntry(buf, pos, order[i], index[order[i]]);
      }
      assert order[..|order|] == order;
      image := buf[..];
    }
  }

  /** None when there is no index image, or not a whole one. */
  method TryDeserializeIndex(raw: Bytes) returns (rebuilt: Option<seq<Entry>>)
    ensures rebuilt == ParseIndex(raw)
  {
    if |raw| < 8 { return None; }
    if FromLE(raw[..4]) != INDEX_MAGIC { return None; }
    var count := FromLE(raw[4..8]);
    var pos: nat, entries := 8, [];
    NothingPrepended(ParseEntries(raw, pos, count));
    for i := 0 to count
      invariant ParseIndex(raw) == Prepended(entries, ParseEntries(raw, pos, count - i))
    {
      PrependAll(entries, raw, pos, count - i);
      ghost var step := EntryAt(raw, pos);
      if pos + 1 > |raw| { return None; }
      var len := raw[pos];
      if pos + 1 + len + 16 > |raw| { return None; }
      var principal := raw[pos + 1..pos + 1 + len];
      pos := pos + 1 + len;
      var offset := U64At(raw, pos);
      pos := pos + 8;
      var size := U64At(raw, pos);
      pos := pos + 8;
      var entry := Entry(principal, Ref(offset, size));
      assert step == Some((entry, pos));
      entries := entries + [entry];
    }
    assert entries + [] == entries;
    rebuilt := Some(entries);
  }

  function Prepended(entries: seq<Entry>, rest: Option<seq<Entry>>): Option<seq<Entry>> {
    match rest
    case None => None
    case Some(more) => Some(entries + more)
  }

  lemma {:induction false} NothingPrepended(rest: Option<seq<Entry>>)
    ensures Prepended([], rest) == rest
  {
    if rest.Some? { assert [] + rest.value == rest.value; }
  }

  lemma {:induction false} PrependAll(entries: seq<Entry>, raw: Bytes, pos: nat, count: nat)
    requires count > 0
    ensures Prepended(entries, ParseEntries(raw, pos, count)) ==
      match EntryAt(raw, pos)
      case None => None
      case Some((entry, next)) => Prepended(entries + [entry], ParseEntries(raw, next, count - 1))
  {
    match EntryAt(raw, pos)
    case None =>
    case Some((entry, next)) =>
      match ParseEntries(raw, next, count - 1)
      case None =>
      case Some(rest) => assert entries + ([entry] + rest) == entries + [entry] + rest;
  }

  method PutEntry(buf: array<byte>, start: nat, p: Bytes, snap: Ref) returns (pos: nat)
    requires |p| <= 255 && start + |EntryImage(p, snap)| <= buf.Length
    modifies buf
    ensures pos == start + |EntryImage(p, snap)| && buf[..pos] == old(buf[..start]) + EntryImage(p, snap)
  {
    pos := start;
    Put(buf, pos, [|p|]);
    pos := pos + 1;
    Put(buf, pos, p);
    pos := pos + |p|;
    var offset, length := LE(snap.offset, 8), LE(snap.length, 8);
    Put(buf, pos, offset);
    pos := pos + 8;
    Put(buf, pos, length);
    pos := pos + 8;
    ghost var before := old(buf[..start]);
    assert before + [|p|] + p + offset + length == before + ([|p|] + p + offset + length);
  }

  /** The image up to and without entry `i`. */
  function IndexHead(order: seq<Bytes>, index: Index, i: nat): Bytes
    requires ShortKeys(order) && AllIn(order, index) && i <= |order|
  {
    LE(INDEX_MAGIC, 4) + LE(|order|, 4) + EntriesImage(order[..i], index)
  }

  lemma {:induction false} HeadGrows(order: seq<Bytes>, index: Index, i: nat)
    requires ShortKeys(order) && AllIn(order, index) && i < |order|
    ensures IndexHead(order, index, i + 1) == IndexHead(order, index, i) + EntryImage(order[i], index[order[i]])
    ensures |IndexHead(order, index, i + 1)| <= |IndexImage(order, index)|
  {
    EntriesSnoc(order[..i], index, order[i]);
    assert order[..i + 1] == order[..i] + [order[i]];
    ImageGrows(order, index, i + 1);
  }

  lemma {:induction false} ImageGrows(order: seq<Bytes>, index: Index, k: nat)
    requires ShortKeys(order) && AllIn(order, index) && k <= |order|
    ensures |EntriesImage(order[..k], index)| <= |EntriesImage(order, index)|
    decreases |order| - k
  {
    if k < |order| {
      EntriesSnoc(order[..k], index, order[k]);
      assert order[..k + 1] == order[..k] + [order[k]];
      ImageGrows(order, index, k + 1);
    } else {
      assert order[..k] == order;
    }
  }

  // ─── Runs of saves and upgrades ──────────────────────────────────────

  /** A fresh store over the same memory loads the index image last published. */
  function Upgraded(w: World): World {
    match Load(w.mem, w.latest)
    case Loaded(index) => World(w.mem, index, w.latest)
    case _ => World(w.mem, map[], 0)
  }

  datatype Op = Save(p: Bytes, state: Bytes, error: Option<SaveError>) | Upgrade

  ghost predicate Step(w: World, op: Op, t: World) {
    match op
    case Save(p, state, error) => |state| < 0x8000_0000 && Saves(w, p, state, t, error)
    case Upgrade => t == Upgraded(w)
  }

  ghost predicate IsRun(worlds: seq<World>, ops: seq<Op>) {
    && |worlds| == |ops| + 1
    && Formattable(worlds[0].mem) && worlds[0].index == map[] && worlds[0].latest == 0
    && forall i | 0 <= i < |ops| :: Step(worlds[i], ops[i], worlds[i + 1])
  }

  /** What the store is for: the states by principal, and those of the last index written out. */
  datatype Model = Model(live: map<Bytes, Bytes>, durable: map<Bytes, Bytes>)

  function After(ops: seq<Op>): Model {
    if ops == [] then Model(map[], map[])
    else
      var m := After(ops[..|ops| - 1]);
      match ops[|ops| - 1]
      case Upgrade => Model(m.durable, m.durable)
      case Save(p, state, error) =>
        if error == Some(PrincipalTooLong) then m
        else
          var live := m.live[p := state];
          Model(live, if error == None then live else m.durable)
  }

  /** The index refers to the model's states, and its cached lengths are theirs. */
  ghost predicate Mirrors(mem: Bytes, index: Index, model: map<Bytes, Bytes>) {
    && index.Keys == model.Keys && ShortPrincipals(index)
    && forall p | p in index :: index[p].length == |model[p]| && Holds(mem, index[p].offset, model[p])
  }

  /** An image of an index mirroring the model is published. */
  ghost predicate Published(mem: Bytes, latest: nat, model: map<Bytes, Bytes>) {
    if latest == 0 then model == map[]
    else exists order, index ::
      && ShortKeys(order) && Enumerates(order, index) && Mirrors(mem, index, model)
      && Holds(mem, latest, IndexImage(order, index))
  }

  ghost predicate Inv(w: World, m: Model) {
    && Formattable(w.mem) && Mirrors(w.mem, w.index, m.live) && Published(w.mem, w.latest, m.durable)
  }

  /** Everything held before is held after. */
  ghost predicate Keeps(mem: Bytes, after: Bytes) {
    forall o: nat, payload: Bytes | Holds(mem, o, payload) :: Holds(after, o, payload)
  }

  lemma {:induction false} MirrorsKept(mem: Bytes, after: Bytes, index: Index, model: map<Bytes, Bytes>)
    requires Mirrors(mem, index, model) && Keeps(mem, after)
    ensures Mirrors(after, index, model)
  {
  }

  lemma {:induction false} PublishedKept(mem: Bytes, after: Bytes, latest: nat, model: map<Bytes, Bytes>)
    requires Published(mem, latest, model) && Keeps(mem, after)
    ensures Published(after, latest, model)
  {
    if latest != 0 {
      var order, index :| ShortKeys(order) && Enumerates(order, index) && Mirrors(mem, index, model)
                       && Holds(mem, latest, IndexImage(order, index));
      MirrorsKept(mem, after, index, model);
    }
  }

  lemma {:induction false} ImageLength(order: seq<Bytes>, index: Index)
    requires ShortKeys(order) && AllIn(order, index)
    ensures |order| <= |EntriesImage(order, index)|
  {
    if order != [] { ImageLength(order[1..], index); }
  }

  lemma {:induction false} MirrorsAreSized(mem: Bytes, index: Index, model: map<Bytes, Bytes>)
    requires Mirrors(mem, index, model)
    ensures Sized(index)
  {
    forall p | p in index ensures index[p].offset < U64_LIMIT && index[p].length < U64_LIMIT {
      assert Holds(mem, index[p].offset, model[p]);
      FromLEBound(mem[HEADER_OFFSET..HEADER_OFFSET + 8]);
      Pow256Values();
    }
  }

  /** A published image loads as an index that mirrors its model. */
  lemma {:induction false} PublishedLoads(mem: Bytes, latest: nat, model: map<Bytes, Bytes>)
    requires Published(mem, latest, model) && latest != 0
    ensures Load(mem, latest).Loaded? && Mirrors(mem, Load(mem, latest).index, model)
  {
    var order, index :| ShortKeys(order) && Enumerates(order, index) && Mirrors(mem, index, model)
                     && Holds(mem, latest, IndexImage(order, index));
    MirrorsAreSized(mem, index, model);
    ImageLength(order, index);
    IndexIsRead(order, index, []);
    assert IndexImage(order, index) + [] == IndexImage(order, index);
    HeldIsRead(mem, latest, IndexImage(order, index));
  }

  lemma {:induction false} UpgradeKeeps(w: World, m: Model)
    requires Inv(w, m)
    ensures Inv(Upgraded(w), Model(m.durable, m.durable))
  {
    if w.latest != 0 { PublishedLoads(w.mem, w.latest, m.durable); }
  }

  lemma {:induction false} SnapshotKeeps(w: World, p: Bytes, state: Bytes, t: World, m: Model)
    requires Inv(w, m) && |p| <= 255 && Snapshots(w, p, state, t)
    ensures Inv(t, Model(m.live[p := state], m.durable)) && Keeps(w.mem, t.mem)
  {
    AllocatedStays(w.mem, state, t.mem, t.index[p].offset);
    MirrorsKept(w.mem, t.mem, w.index, m.live);
    MirrorsGrows(t.mem, w.index, m.live, p, t.index[p].offset, state);
    PublishedKept(w.mem, t.mem, w.latest, m.durable);
  }

  lemma {:induction false} MirrorsGrows(mem: Bytes, index: Index, model: map<Bytes, Bytes>, p: Bytes, offset: nat,
      state: Bytes)
    requires Mirrors(mem, index, model) && |p| <= 255 && Holds(mem, offset, state)
    ensures Mirrors(mem, index[p := Ref(offset, |state|)], model[p := state])
  {
  }

  lemma {:induction false} PersistKeeps(w: World, t: World, error: Option<SaveError>, m: Model)
    requires Inv(w, m) && Persists(w, t, error) && Formatted(w.mem)
    ensures Inv(t, Model(m.live, if error == None then m.live else m.durable)) && Keeps(w.mem, t.mem)
  {
    var order :| ShortKeys(order) && Enumerates(order, w.index)
              && t.index == w.index
              && if |IndexImage(order, w.index)| < 0x8000_0000 then
                   error == None && Allocates(w.mem, IndexImage(order, w.index), t.mem, t.latest)
                 else error == Some(IndexTooLarge) && t == w;
    if error == None {
      AllocatedStays(w.mem, IndexImage(order, w.index), t.mem, t.latest);
      MirrorsKept(w.mem, t.mem, w.index, m.live);
    }
  }

  lemma {:induction false} PrimedKeeps(w: World, base: Bytes, m: Model)
    requires Inv(w, m) && Primed(w.mem, base)
    ensures Inv(w.(mem := base), m) && Keeps(w.mem, base)
  {
    MirrorsKept(w.mem, base, w.index, m.live);
    PublishedKept(w.mem, base, w.latest, m.durable);
  }

  lemma {:induction false} SaveKeeps(w: World, p: Bytes, state: Bytes, t: World, error: Option<SaveError>, m: Model)
    requires Inv(w, m) && |p| <= 255 && Saves(w, p, state, t, error)
    ensures var live := m.live[p := state];
            Inv(t, Model(live, if error == None then live else m.durable)) && Keeps(w.mem, t.mem)
    ensures error != Some(PrincipalTooLong)
  {
    var base, mid :| Primed(w.mem, base) && Snapshots(w.(mem := base), p, state, mid) && Persists(mid, t, error);
    PrimedKeeps(w, base, m);
    SnapshotKeeps(w.(mem := base), p, state, mid, m);
    PersistKeeps(mid, t, error, Model(m.live[p := state], m.durable));
  }

  lemma {:induction false} EveryRunKeeps(worlds: seq<World>, ops: seq<Op>, n: nat)
    requires IsRun(worlds, ops) && n <= |ops|
    ensures Inv(worlds[n], After(ops[..n]))
    ensures n > 0 ==> Keeps(worlds[n - 1].mem, worlds[n].mem)
  {
    if n > 0 {
      EveryRunKeeps(worlds, ops, n - 1);
      assert ops[..n][..n - 1] == ops[..n - 1];
      var w, t, m := worlds[n - 1], worlds[n], After(ops[..n - 1]);
      assert Step(w, ops[n - 1], t);
      match ops[n - 1]
      case Upgrade => UpgradeKeeps(w, m);
      case Save(p, state, error) => if |p| <= 255 { SaveKeeps(w, p, state, t, error, m); }
    }
  }

  /**
   After any run of saves and upgrades, a principal's state is the one last saved for it, or
   nothing if there is none. Only a save whose index image would not fit a byte array is not
   carried over the next upgrade.
   */
  lemma {:induction false} StoreRefinesMap(worlds: seq<World>, ops: seq<Op>, n: nat, p: Bytes)
    requires IsRun(worlds, ops) && n <= |ops|
    ensures var live := After(ops[..n]).live;
            RestoreFrom(worlds[n], p) == if p in live then Some(Some(live[p])) else None
  {
    EveryRunKeeps(worlds, ops, n);
    var live := After(ops[..n]).live;
    if p in live { HeldIsRead(worlds[n].mem, worlds[n].index[p].offset, live[p]); }
  }

  /** The length cached beside a reference is the length of what is stored there. */
  lemma {:induction false} CachedLengthsMatch(worlds: seq<World>, ops: seq<Op>, n: nat, p: Bytes)
    requires IsRun(worlds, ops) && n <= |ops| && p in worlds[n].index
    ensures var ref := worlds[n].index[p];
            ReadAt(worlds[n].mem, ref.offset).Some? && |ReadAt(worlds[n].mem, ref.offset).value| == ref.length
  {
    EveryRunKeeps(worlds, ops, n);
    HeldIsRead(worlds[n].mem, worlds[n].index[p].offset, After(ops[..n]).live[p]);
  }

  predicate NoneTooLarge(ops: seq<Op>) {
    forall i | 0 <= i < |ops| :: ops[i].Save? ==> ops[i].error != Some(IndexTooLarge)
  }

  /** The saves that count, as if there had been no upgrades. */
  function LastSaved(ops: seq<Op>): map<Bytes, Bytes> {
    if ops == [] then map[]
    else
      var op := ops[|ops| - 1];
      var before := LastSaved(ops[..|ops| - 1]);
      if op.Save? && op.error == None then before[op.p := op.state] else before
  }

  /** Upgrades make no difference as long as no index image was too large. */
  lemma {:induction false} UpgradesAreInvisible(ops: seq<Op>)
    requires NoneTooLarge(ops)
    ensures After(ops) == Model(LastSaved(ops), LastSaved(ops))
  {
    if ops != [] {
      var op := ops[|ops| - 1];
      UpgradesAreInvisible(ops[..|ops| - 1]);
      assert op.Save? && op.error.Some? ==> op.error.value.PrincipalTooLong?;
    }
  }

  /** Across any number of upgrades, Restore gives the state last saved. */
  lemma {:induction false} RestoreGivesLastSaved(worlds: seq<World>, ops: seq<Op>, p: Bytes)
    requires IsRun(worlds, ops) && NoneTooLarge(ops)
    ensures var saved := LastSaved(ops);
            RestoreFrom(worlds[|ops|], p) == if p in saved then Some(Some(saved[p])) else None
  {
    StoreRefinesMap(worlds, ops, |ops|, p);
    UpgradesAreInvisible(ops);
    assert ops[..|ops|] == ops;
  }

  /** Nothing ever allocated is changed later. */
  lemma {:induction false} AllocationsStay(worlds: seq<World>, ops: seq<Op>, i: nat, j: nat)
    requires IsRun(worlds, ops) && i <= j <= |ops|
    ensures Keeps(worlds[i].mem, worlds[j].mem)
    decreases j
  {
    if i < j {
      AllocationsStay(worlds, ops, i, j - 1);
      EveryRunKeeps(worlds, ops, j);
    }
  }

  /** Any index offset ever published still brings back the states of its time. */
  lemma {:induction false} EarlierIndexRestoresItsTime(worlds: seq<World>, ops: seq<Op>, i: nat, j: nat, p: Bytes)
    requires IsRun(worlds, ops) && i <= j <= |ops| && worlds[i].latest != 0
    ensures var model, loaded := After(ops[..i]).durable, Load(worlds[j].mem, worlds[i].latest);
            && loaded.Loaded?
            && RestoreFrom(World(worlds[j].mem, loaded.index, worlds[i].latest), p)
               == if p in model then Some(Some(model[p])) else None
  {
    EveryRunKeeps(worlds, ops, i);
    AllocationsStay(worlds, ops, i, j);
    var model := After(ops[..i]).durable;
    PublishedKept(worlds[i].mem, worlds[j].mem, worlds[i].latest, model);
    PublishedLoads(worlds[j].mem, worlds[i].latest, model);
    if p in model { HeldIsRead(worlds[j].mem, Load(worlds[j].mem, worlds[i].latest).index[p].offset, model[p]); }
  }
}

/**
 The bump allocator in stable memory: an 8-byte high-water mark, then allocations of an
 8-byte length and a payload. Nothing allocated is ever overwritten.
 */
module StableRegions {
  import opened ByteStrings

  const HEADER_OFFSET := 8192

  const PAYLOAD_BASE := 8200

  const PAGE := 65536

  const U64_LIMIT := 0x1_0000_0000_0000_0000

  function U64At(mem: Bytes, p: nat): nat
    requires p + 8 <= |mem|
  {
    FromLE(mem[p..p + 8])
  }

  /** The high-water mark is in place and inside the memory. */
  predicate Formatted(mem: Bytes) {
    |mem| >= PAYLOAD_BASE && PAYLOAD_BASE <= U64At(mem, HEADER_OFFSET) <= |mem|
  }

  function Mark(mem: Bytes): nat
    requires Formatted(mem)
  {
    U64At(mem, HEADER_OFFSET)
  }

  /** `payload` is allocated at `o`, below the high-water mark. */
  predicate Holds(mem: Bytes, o: nat, payload: Bytes) {
    && Formatted(mem) && PAYLOAD_BASE + 8 <= o && o + |payload| <= Mark(mem)
    && |payload| < 0x8000_0000 && U64At(mem, o - 8) == |payload| && At(mem, o, payload)
  }

  /** None stands for the exceptions and traps of a read. */
  function ReadAt(mem: Bytes, o: nat): Option<Bytes> {
    if o < PAYLOAD_BASE || o > |mem| then None
    else
      var size := U64At(mem, o - 8);
      if size >= 0x8000_0000 || o + size > |mem| then None else Some(mem[o..o + size])
  }

  /** What was allocated is read back. */
  lemma {:induction false} HeldIsRead(mem: Bytes, o: nat, payload: Bytes)
    requires Holds(mem, o, payload)
    ensures ReadAt(mem, o) == Some(payload)
  {
  }

  /** Below the 64-bit limit there is room for this much. */
  predicate HasRoom(mem: Bytes, bytes: nat) {
    (if Formatted(mem) then Mark(mem) else PAYLOAD_BASE) + bytes < U64_LIMIT
  }

  /** `after` is `mem` with `payload` allocated at `o`. */
  predicate Allocates(mem: Bytes, payload: Bytes, after: Bytes, o: nat) {
    && Formatted(mem) && Formatted(after)
    && o == Mark(mem) + 8 && Mark(after) == o + |payload|
    && |payload| < 0x8000_0000 && U64At(after, o - 8) == |payload| && At(after, o, payload)
    && after[..HEADER_OFFSET] == mem[..HEADER_OFFSET]
    && after[PAYLOAD_BASE..Mark(mem)] == mem[PAYLOAD_BASE..Mark(mem)]
  }

  lemma {:induction false} AtWithin(a: Bytes, b: Bytes, lo: nat, hi: nat, p: nat, s: Bytes)
    requires lo <= p && p + |s| <= hi <= |a| && hi <= |b| && a[lo..hi] == b[lo..hi]
    ensures At(a, p, s) <==> At(b, p, s)
  {
    SubSlice(a, b, lo, hi, p, p + |s|);
  }

  /** An allocation is there afterwards, past every earlier one, and all earlier ones stay. */
  lemma {:induction false} AllocatedStays(mem: Bytes, payload: Bytes, after: Bytes, o: nat)
    requires Allocates(mem, payload, after, o)
    ensures Holds(after, o, payload)
    ensures forall p: nat, earlier: Bytes | Holds(mem, p, earlier) :: Holds(after, p, earlier) && p + |earlier| < o
  {
    forall p: nat, earlier: Bytes | Holds(mem, p, earlier) ensures Holds(after, p, earlier) && p + |earlier| < o {
      SubSlice(mem, after, PAYLOAD_BASE, Mark(mem), p - 8, p);
      AtWithin(mem, after, PAYLOAD_BASE, Mark(mem), p, earlier);
    }
  }

  // ─── The memory ──────────────────────────────────────────────────────

  class StableMemory {
    var memory: Bytes

    constructor ()
      ensures memory == []
    {
      memory := [];
    }

    /** Grows by whole pages of zeros when needed. */
    method EnsureCapacity(required: nat)
      modifies this
      ensures old(memory) <= memory && required <= |memory|
      ensures required <= |old(memory)| ==> memory == old(memory)
      ensures forall i | |old(memory)| <= i < |memory| :: memory[i] == 0
    {
      if |memory| >= required { return; }
      var missingPages := (required - |memory| + PAGE - 1) / PAGE;
      memory := memory + seq<byte>(missingPages * PAGE, _ => 0);
    }

    method Write(offset: nat, source: Bytes)
      requires offset + |source| <= |memory|
      modifies this
      ensures memory == old(memory)[..offset] + source + old(memory)[offset + |source|..]
    {
      memory := memory[..offset] + source + memory[offset + |source|..];
    }

    method ReadU64(offset: nat) returns (n: nat)
      requires offset + 8 <= |memory|
      ensures n == U64At(memory, offset)
    {
      n := FromLE(memory[offset..offset + 8]);
    }
  }

  // ─── The region ──────────────────────────────────────────────────────

  /** Never written past the cells below the header, or formatted already. */
  predicate Formattable(mem: Bytes) {
    || |mem| <= HEADER_OFFSET
    || (|mem| >= PAYLOAD_BASE && U64At(mem, HEADER_OFFSET) <= |mem|)
  }

  lemma {:induction false} ZerosAreZero(s: Bytes)
    requires forall i | 0 <= i < |s| :: s[i] == 0
    ensures FromLE(s) == 0
  {
    if s != [] { ZerosAreZero(s[1..]); }
  }

  /** What the first use makes of the memory. */
  predicate Primed(mem: Bytes, after: Bytes) {
    Formatted(after) && if Formatted(mem) then after == mem else Mark(after) == PAYLOAD_BASE
  }

  lemma {:induction false} WrittenIsRead(mem: Bytes, p: nat, n: nat)
    requires n < U64_LIMIT && At(mem, p, LE(n, 8))
    ensures U64At(mem, p) == n
  {
    Pow256Values();
    LERoundTrip(n, 8);
  }

  class StableRegion {
    const backend: StableMemory
    var initialized: bool

    ghost predicate Valid()
      reads this, backend
    {
      if initialized then Formatted(backend.memory) else Formattable(backend.memory)
    }

    constructor (backend: StableMemory)
      requires Formattable(backend.memory)
      ensures this.backend == backend && !initialized && Valid()
    {
      this.backend := backend;
      initialized := false;
    }

    method EnsureInitialized()
      requires Valid()
      modifies this, backend
      ensures initialized && Primed(old(backend.memory), backend.memory)
    {
      if initialized { return; }
      backend.EnsureCapacity(PAYLOAD_BASE);
      var next := backend.ReadU64(HEADER_OFFSET);
      if |old(backend.memory)| <= HEADER_OFFSET {
        ZerosAreZero(backend.memory[HEADER_OFFSET..PAYLOAD_BASE]);
      }
      if next < PAYLOAD_BASE {
        var mark := LE(PAYLOAD_BASE, 8);
        backend.Write(HEADER_OFFSET, mark);
        assert At(backend.memory, HEADER_OFFSET, mark);
        WrittenIsRead(backend.memory, HEADER_OFFSET, PAYLOAD_BASE);
      }
      initialized := true;
    }

    method Alloc(payload: Bytes) returns (offset: nat)
      requires Valid() && HasRoom(backend.memory, 8 + |payload|) && |payload| < 0x8000_0000
      modifies this, backend
      ensures Valid() && initialized
      ensures exists base :: Primed(old(backend.memory), base) && Allocates(base, payload, backend.memory, offset)
    {
      EnsureInitialized();
      ghost var base := backend.memory;
      offset := Bump(payload);
      assert Allocates(base, payload, backend.memory, offset);
    }

    /** Allocation proper, on formatted memory. */
    method Bump(payload: Bytes) returns (offset: nat)
      requires Formatted(backend.memory) && HasRoom(backend.memory, 8 + |payload|) && |payload| < 0x8000_0000
      modifies backend
      ensures Allocates(old(backend.memory), payload, backend.memory, offset)
    {
      var nextOffset := backend.ReadU64(HEADER_OFFSET);
      var needed := 8 + |payload|;
      backend.EnsureCapacity(nextOffset + needed);
      ghost var grown := backend.memory;
      var size := LE(|payload|, 8);
      backend.Write(nextOffset, size);
      offset := nextOffset + 8;
      ghost var sized := backend.memory;
      if payload != [] { backend.Write(offset, payload); }
      ghost var filled := backend.memory;
      Filled(grown, nextOffset, size, payload, sized, filled);
      var bump := LE(nextOffset + needed, 8);
      backend.Write(HEADER_OFFSET, bump);
      Bumped(old(backend.memory), nextOffset, grown, size, payload, filled, bump, backend.memory);
      WrittenIsRead(backend.memory, nextOffset, |payload|);
      WrittenIsRead(backend.memory, HEADER_OFFSET, nextOffset + needed);
    }

    /** None stands for an exception or trap. */
    method Read(payloadOffset: nat) returns (r: Option<Bytes>)
      requires Valid()
      modifies this, backend
      ensures Valid() && initialized && Primed(old(backend.memory), backend.memory)
      ensures r == ReadAt(backend.memory, payloadOffset)
    {
      EnsureInitialized();
      if payloadOffset < PAYLOAD_BASE || payloadOffset > |backend.memory| { return None; }
      var size := backend.ReadU64(payloadOffset - 8);
      if size >= 0x8000_0000 || payloadOffset + size > |backend.memory| { return None; }
      r := Some(backend.memory[payloadOffset..payloadOffset + size]);
    }
  }

  lemma {:induction false} Spliced(mem: Bytes, at: nat, s: Bytes, after: Bytes)
    requires at + |s| <= |mem| && after == mem[..at] + s + mem[at + |s|..]
    ensures |after| == |mem| && At(after, at, s)
    ensures after[0..at] == mem[0..at] && after[at + |s|..|mem|] == mem[at + |s|..|mem|]
  {
  }

  lemma {:induction false} Filled(grown: Bytes, n: nat, size: Bytes, payload: Bytes, sized: Bytes, filled: Bytes)
    requires |size| == 8 && n + 8 + |payload| <= |grown|
    requires sized == grown[..n] + size + grown[n + 8..]
    requires filled == sized[..n + 8] + payload + sized[n + 8 + |payload|..] || (payload == [] && filled == sized)
    ensures filled == grown[..n] + (size + payload) + grown[n + 8 + |payload|..]
  {
  }

  /** Growing, filling past the mark and bumping it changes nothing else. */
  lemma {:induction false} Bumped(mem: Bytes, n: nat, grown: Bytes, size: Bytes, payload: Bytes, filled: Bytes,
      bump: Bytes, after: Bytes)
    requires PAYLOAD_BASE <= n <= |mem| && |size| == |bump| == 8 && mem <= grown && n + 8 + |payload| <= |grown|
    requires filled == grown[..n] + (size + payload) + grown[n + 8 + |payload|..]
    requires after == filled[..HEADER_OFFSET] + bump + filled[PAYLOAD_BASE..]
    ensures |after| == |grown| && At(after, n, size) && At(after, n + 8, payload) && At(after, HEADER_OFFSET, bump)
    ensures after[..HEADER_OFFSET] == mem[..HEADER_OFFSET] && after[PAYLOAD_BASE..n] == mem[PAYLOAD_BASE..n]
  {
    Spliced(grown, n, size + payload, filled);
    AtSplit(filled, n, size, payload);
    Spliced(filled, HEADER_OFFSET, bump, after);
    AtWithin(filled, after, PAYLOAD_BASE, |filled|, n, size);
    AtWithin(filled, after, PAYLOAD_BASE, |filled|, n + 8, payload);
    SubSlice(filled, after, PAYLOAD_BASE, |filled|, PAYLOAD_BASE, n);
    SubSlice(filled, grown, 0, n, PAYLOAD_BASE, n);
    SubSlice(filled, grown, 0, n, 0, HEADER_OFFSET);
    assert mem[0..|mem|] == grown[0..|mem|];
    SubSlice(mem, grown, 0, |mem|, PAYLOAD_BASE, n);
    SubSlice(mem, grown, 0, |mem|, 0, HEADER_OFFSET);
  }
}

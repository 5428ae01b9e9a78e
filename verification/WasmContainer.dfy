/**
 Finding the webcil payload in the WebAssembly module that wraps it: sections as in
 sections 5.5.2 and 5.5.14 of the WebAssembly Core Specification, sizes in unsigned LEB128.
 */
module WasmContainers {
  import opened ByteStrings

  datatype Error = ValueError | IndexError | StructError

  datatype Result<+T> = Ok(value: T) | Err(error: Error) {
    predicate IsFailure() { Err? }
    function PropagateFailure<U>(): Result<U>
      requires Err?
    {
      Err(error)
    }
    function Extract(): T
      requires Ok?
    {
      value
    }
  }

  const WASM_MAGIC: Bytes := [0x00, 0x61, 0x73, 0x6D]

  const SECTION_DATA := 11

  function U32At(buf: Bytes, p: nat): Result<nat> {
    if p + 4 > |buf| then Err(StructError) else Ok(FromLE(buf[p..p + 4]))
  }

  // ─── LEB128 ──────────────────────────────────────────────────────────

  /** The value of at most `k` bytes from `pos`, and the position behind them. */
  function Uleb(buf: Bytes, pos: nat, k: nat): (r: Result<(nat, nat)>)
    ensures r.Ok? ==> pos < r.value.1 <= |buf|
  {
    match ReadVarint(buf, pos, k)
    case Number(v, next) => Ok((v, next))
    case CutOff => Err(IndexError)
    case TooLong => Err(ValueError)
  }

  const ULEB_MAX := 10

  function Pow128(k: nat): nat { if k == 0 then 1 else 0x80 * Pow128(k - 1) }

  method ReadUleb128(buf: Bytes, start: nat) returns (r: Result<(nat, nat)>)
    ensures r == Uleb(buf, start, ULEB_MAX)
  {
    var result: nat, scale: nat, shift: nat, pos: nat := 0, 1, 0, start;
    ghost var k: nat := ULEB_MAX;
    while true
      invariant scale == Pow128(ULEB_MAX - k) && shift == 7 * (ULEB_MAX - k) && 1 <= k <= ULEB_MAX
      invariant ReadVarint(buf, start, ULEB_MAX) == Scaled(result, scale, ReadVarint(buf, pos, k))
      decreases k
    {
      if pos >= |buf| { return Err(IndexError); }
      var b := buf[pos] as nat;
      VarintStep(buf, pos, k, result, scale);
      pos := pos + 1;
      result := result + b % 0x80 * scale;
      if b < 0x80 { break; }
      shift := shift + 7;
      scale := scale * 0x80;
      if shift > 63 { return Err(ValueError); }
      k := k - 1;
    }
    r := Ok((result, pos));
  }

  // ─── The payload ─────────────────────────────────────────────────────

  /** The second of at least two passive data segments; the first begins with a size that is not relied on. */
  function SecondSegment(wasm: Bytes, pos: nat): Result<Bytes> {
    var (segments, p1) :- Uleb(wasm, pos, ULEB_MAX);
    if segments < 2 then Err(ValueError) else
    var (flags0, p2) :- Uleb(wasm, p1, ULEB_MAX);
    if flags0 != 1 then Err(ValueError) else
    var (size0, p3) :- Uleb(wasm, p2, ULEB_MAX);
    if p3 + 4 > |wasm| then Err(StructError) else
    var (flags1, p4) :- Uleb(wasm, p3 + size0, ULEB_MAX);
    if flags1 != 1 then Err(ValueError) else
    var (size1, p5) :- Uleb(wasm, p4, ULEB_MAX);
    if p5 + size1 > |wasm| then Err(ValueError) else Ok(wasm[p5..p5 + size1])
  }

  function PayloadFrom(wasm: Bytes, pos: nat): Result<Bytes>
    decreases if pos < |wasm| then |wasm| - pos else 0
  {
    if pos >= |wasm| then Err(ValueError)
    else
      var (size, at) :- Uleb(wasm, pos + 1, ULEB_MAX);
      if wasm[pos] == SECTION_DATA then SecondSegment(wasm, at) else PayloadFrom(wasm, at + size)
  }

  function Extracted(wasm: Bytes): Result<Bytes> {
    if |wasm| < 4 || wasm[..4] != WASM_MAGIC then Err(ValueError) else
    var version :- U32At(wasm, 4);
    if version != 1 then Err(ValueError) else PayloadFrom(wasm, 8)
  }

  method ExtractWebcilPayload(wasm: Bytes) returns (r: Result<Bytes>)
    ensures r == Extracted(wasm)
  {
    if |wasm| < 4 || wasm[..4] != WASM_MAGIC { return Err(ValueError); }
    var version :- U32At(wasm, 4);
    if version != 1 { return Err(ValueError); }
    var pos: nat := 8;
    while pos < |wasm|
      invariant Extracted(wasm) == PayloadFrom(wasm, pos)
      decreases if pos < |wasm| then |wasm| - pos else 0
    {
      var sectionId := wasm[pos];
      var size := ReadUleb128(wasm, pos + 1);
      if size.Err? { return Err(size.error); }
      pos := size.value.1;
      var sectionEnd := pos + size.value.0;
      if sectionId != SECTION_DATA {
        pos := sectionEnd;
        continue;
      }
      r := ReadSegments(wasm, pos);
      return;
    }
    r := Err(ValueError);
  }

  method ReadSegments(wasm: Bytes, start: nat) returns (r: Result<Bytes>)
    ensures r == SecondSegment(wasm, start)
  {
    var segments := ReadUleb128(wasm, start);
    if segments.Err? { return Err(segments.error); }
    if segments.value.0 < 2 { return Err(ValueError); }
    var flags0 := ReadUleb128(wasm, segments.value.1);
    if flags0.Err? { return Err(flags0.error); }
    if flags0.value.0 != 1 { return Err(ValueError); }
    var size0 := ReadUleb128(wasm, flags0.value.1);
    if size0.Err? { return Err(size0.error); }
    var declared :- U32At(wasm, size0.value.1);
    var pos := size0.value.1 + size0.value.0;
    var flags1 := ReadUleb128(wasm, pos);
    if flags1.Err? { return Err(flags1.error); }
    if flags1.value.0 != 1 { return Err(ValueError); }
    var size1 := ReadUleb128(wasm, flags1.value.1);
    if size1.Err? { return Err(size1.error); }
    pos := size1.value.1;
    if pos + size1.value.0 > |wasm| { return Err(ValueError); }
    r := Ok(wasm[pos..pos + size1.value.0]);
  }

  // ─── Wrapping ────────────────────────────────────────────────────────

  /** `code` is some encoding of `n`, padded or not. */
  predicate Encodes(code: Bytes, n: nat) {
    Uleb(code, 0, ULEB_MAX) == Ok((n, |code|))
  }

  lemma {:induction false} UlebAt(buf: Bytes, p: nat, code: Bytes, n: nat)
    requires At(buf, p, code) && Encodes(code, n)
    ensures Uleb(buf, p, ULEB_MAX) == Ok((n, p + |code|))
  {
    var head, rest := buf[..p], buf[p + |code|..];
    assert buf == head + (code + rest);
    VarintExtends(code, rest, 0, ULEB_MAX);
    VarintShift(head, code + rest, 0, ULEB_MAX);
  }

  /** The canonical encoding of a number of up to 70 bits is one of them. */
  lemma {:induction false} CanonicalEncodes(n: nat)
    requires n < Pow128(ULEB_MAX)
    ensures Encodes(EncVarint(n), n)
  {
    VarintLength(n, ULEB_MAX);
    assert At(EncVarint(n), 0, EncVarint(n));
    VarintReads(EncVarint(n), 0, n, ULEB_MAX);
  }

  lemma {:induction false} VarintLength(n: nat, k: nat)
    requires k > 0 && n < Pow128(k)
    ensures |EncVarint(n)| <= k
  {
    if n >= 0x80 { VarintLength(n / 0x80, k - 1); }
  }

  /** A section other than the data section, its size in any encoding. */
  datatype Section = Section(id: byte, sizeCode: Bytes, content: Bytes)

  /** A passive data segment. */
  datatype Segment = Segment(flagCode: Bytes, sizeCode: Bytes, content: Bytes)

  predicate IsOther(s: Section) { s.id != SECTION_DATA && Encodes(s.sizeCode, |s.content|) }

  predicate IsPassive(s: Segment) { Encodes(s.flagCode, 1) && Encodes(s.sizeCode, |s.content|) }

  function SectionBytes(s: Section): Bytes { [s.id] + s.sizeCode + s.content }

  function SegmentBytes(s: Segment): Bytes { s.flagCode + s.sizeCode + s.content }

  function Sections(ss: seq<Section>): Bytes {
    if ss == [] then [] else SectionBytes(ss[0]) + Sections(ss[1..])
  }

  /** Where a segment's size and content start. */
  lemma {:induction false} SegmentRead(wasm: Bytes, p: nat, s: Segment, rest: Bytes) returns (q: nat, r: nat)
    requires IsPassive(s) && At(wasm, p, SegmentBytes(s) + rest)
    ensures Uleb(wasm, p, ULEB_MAX) == Ok((1, q))
    ensures Uleb(wasm, q, ULEB_MAX) == Ok((|s.content|, r))
    ensures At(wasm, r, s.content) && At(wasm, r + |s.content|, rest)
  {
    AtSplit(wasm, p, SegmentBytes(s), rest);
    AtSplit(wasm, p, s.flagCode + s.sizeCode, s.content);
    AtSplit(wasm, p, s.flagCode, s.sizeCode);
    UlebAt(wasm, p, s.flagCode, 1);
    q := p + |s.flagCode|;
    UlebAt(wasm, q, s.sizeCode, |s.content|);
    r := q + |s.sizeCode|;
  }

  /** The five sizes and flags read, and the payload. */
  lemma {:induction false} SecondSegmentIs(wasm: Bytes, p: nat, count: nat, p1: nat, p2: nat, size0: nat, p3: nat,
      p4: nat, content: Bytes, p5: nat)
    requires Uleb(wasm, p, ULEB_MAX) == Ok((count, p1)) && count >= 2
    requires Uleb(wasm, p1, ULEB_MAX) == Ok((1, p2)) && Uleb(wasm, p2, ULEB_MAX) == Ok((size0, p3)) && p3 + 4 <= |wasm|
    requires Uleb(wasm, p3 + size0, ULEB_MAX) == Ok((1, p4)) && Uleb(wasm, p4, ULEB_MAX) == Ok((|content|, p5))
    requires At(wasm, p5, content)
    ensures SecondSegment(wasm, p) == Ok(content)
  {
  }

  lemma {:induction false} SegmentsRead(wasm: Bytes, p1: nat, first: Segment, second: Segment, rest: Bytes)
      returns (p2: nat, p3: nat, p4: nat, p5: nat)
    requires IsPassive(first) && IsPassive(second)
    requires |first.content + (SegmentBytes(second) + rest)| >= 4
    requires At(wasm, p1, SegmentBytes(first) + (SegmentBytes(second) + rest))
    ensures Uleb(wasm, p1, ULEB_MAX) == Ok((1, p2)) && Uleb(wasm, p2, ULEB_MAX) == Ok((|first.content|, p3))
    ensures p3 + 4 <= |wasm| && Uleb(wasm, p3 + |first.content|, ULEB_MAX) == Ok((1, p4))
    ensures Uleb(wasm, p4, ULEB_MAX) == Ok((|second.content|, p5)) && At(wasm, p5, second.content)
  {
    p2, p3 := SegmentRead(wasm, p1, first, SegmentBytes(second) + rest);
    AtSplit(wasm, p3, first.content, SegmentBytes(second) + rest);
    p4, p5 := SegmentRead(wasm, p3 + |first.content|, second, rest);
  }

  lemma {:induction false} SecondSegmentRead(wasm: Bytes, p: nat, countCode: Bytes, count: nat, first: Segment,
      second: Segment, rest: Bytes)
    requires Encodes(countCode, count) && count >= 2 && IsPassive(first) && IsPassive(second)
    requires |first.content + (SegmentBytes(second) + rest)| >= 4
    requires At(wasm, p, countCode + (SegmentBytes(first) + (SegmentBytes(second) + rest)))
    ensures SecondSegment(wasm, p) == Ok(second.content)
  {
    var p1 := p + |countCode|;
    AtSplit(wasm, p, countCode, SegmentBytes(first) + (SegmentBytes(second) + rest));
    UlebAt(wasm, p, countCode, count);
    var p2, p3, p4, p5 := SegmentsRead(wasm, p1, first, second, rest);
    SecondSegmentIs(wasm, p, count, p1, p2, |first.content|, p3, p4, second.content, p5);
  }

  lemma {:induction false} SectionRead(wasm: Bytes, p: nat, id: byte, sizeCode: Bytes, size: nat, rest: Bytes)
      returns (q: nat)
    requires Encodes(sizeCode, size) && At(wasm, p, [id] + sizeCode + rest)
    ensures p < |wasm| && wasm[p] == id && Uleb(wasm, p + 1, ULEB_MAX) == Ok((size, q)) && At(wasm, q, rest)
    ensures q == p + 1 + |sizeCode|
  {
    AtSplit(wasm, p, [id] + sizeCode, rest);
    AtSplit(wasm, p, [id], sizeCode);
    AtIndex(wasm, p, [id], 0);
    UlebAt(wasm, p + 1, sizeCode, size);
    q := p + 1 + |sizeCode|;
  }

  lemma {:induction false} StepOver(wasm: Bytes, p: nat, size: nat, q: nat)
    requires p < |wasm| && wasm[p] != SECTION_DATA && Uleb(wasm, p + 1, ULEB_MAX) == Ok((size, q))
    ensures PayloadFrom(wasm, p) == PayloadFrom(wasm, q + size)
  {
  }

  lemma {:induction false} SectionSkipped(wasm: Bytes, p: nat, s: Section)
    requires IsOther(s) && At(wasm, p, SectionBytes(s))
    ensures PayloadFrom(wasm, p) == PayloadFrom(wasm, p + |SectionBytes(s)|)
  {
    var q := SectionRead(wasm, p, s.id, s.sizeCode, |s.content|, s.content);
    StepOver(wasm, p, |s.content|, q);
  }

  lemma {:induction false} SectionsSkipped(wasm: Bytes, p: nat, ss: seq<Section>)
    requires At(wasm, p, Sections(ss)) && forall i | 0 <= i < |ss| :: IsOther(ss[i])
    ensures PayloadFrom(wasm, p) == PayloadFrom(wasm, p + |Sections(ss)|)
    decreases |ss|
  {
    if ss != [] {
      var first, more := SectionBytes(ss[0]), Sections(ss[1..]);
      AtSplit(wasm, p, first, more);
      SectionSkipped(wasm, p, ss[0]);
      SectionsSkipped(wasm, p + |first|, ss[1..]);
      assert p + |first| + |more| == p + |Sections(ss)|;
    }
  }

  lemma {:induction false} StepInto(wasm: Bytes, p: nat, size: nat, q: nat)
    requires p < |wasm| && wasm[p] == SECTION_DATA && Uleb(wasm, p + 1, ULEB_MAX) == Ok((size, q))
    ensures PayloadFrom(wasm, p) == SecondSegment(wasm, q)
  {
  }

  lemma {:induction false} DataFound(wasm: Bytes, p: nat, sizeCode: Bytes, size: nat, rest: Bytes) returns (q: nat)
    requires Encodes(sizeCode, size) && At(wasm, p, [SECTION_DATA] + sizeCode + rest)
    ensures PayloadFrom(wasm, p) == SecondSegment(wasm, q) && At(wasm, q, rest)
  {
    q := SectionRead(wasm, p, SECTION_DATA, sizeCode, size, rest);
    StepInto(wasm, p, size, q);
  }

  lemma {:induction false} HeaderRead(rest: Bytes)
    ensures var wasm := WASM_MAGIC + LE(1, 4) + rest;
            Extracted(wasm) == PayloadFrom(wasm, 8) && At(wasm, 8, rest)
  {
    Pow256Values();
    LERoundTrip(1, 4);
    var wasm := WASM_MAGIC + LE(1, 4) + rest;
    assert wasm[..4] == WASM_MAGIC && wasm[4..8] == LE(1, 4);
  }

  /** A module: earlier sections, then the data section with these segments and anything after. */
  function Module(ss: seq<Section>, sizeCode: Bytes, segments: Bytes): Bytes {
    WASM_MAGIC + LE(1, 4) + (Sections(ss) + ([SECTION_DATA] + sizeCode + segments))
  }

  lemma {:induction false} SegmentsReached(wasm: Bytes, p: nat, ss: seq<Section>, sizeCode: Bytes, size: nat,
      segments: Bytes) returns (q: nat)
    requires Encodes(sizeCode, size) && forall i | 0 <= i < |ss| :: IsOther(ss[i])
    requires At(wasm, p, Sections(ss) + ([SECTION_DATA] + sizeCode + segments))
    ensures At(wasm, q, segments) && PayloadFrom(wasm, p) == SecondSegment(wasm, q)
  {
    var data := [SECTION_DATA] + sizeCode + segments;
    AtSplit(wasm, p, Sections(ss), data);
    SectionsSkipped(wasm, p, ss);
    q := DataFound(wasm, p + |Sections(ss)|, sizeCode, size, segments);
  }

  /** Extraction inverts wrapping, past any earlier sections and whatever follows. */
  lemma {:induction false} ExtractionInvertsWrapping(ss: seq<Section>, sizeCode: Bytes, size: nat, countCode: Bytes,
      count: nat, first: Segment, second: Segment, rest: Bytes)
    requires forall i | 0 <= i < |ss| :: IsOther(ss[i])
    requires Encodes(sizeCode, size) && Encodes(countCode, count) && count >= 2
    requires IsPassive(first) && IsPassive(second) && |first.content + (SegmentBytes(second) + rest)| >= 4
    ensures Extracted(Module(ss, sizeCode, countCode + (SegmentBytes(first) + (SegmentBytes(second) + rest))))
             == Ok(second.content)
  {
    var segments := countCode + (SegmentBytes(first) + (SegmentBytes(second) + rest));
    var wasm := Module(ss, sizeCode, segments);
    HeaderRead(Sections(ss) + ([SECTION_DATA] + sizeCode + segments));
    var q := SegmentsReached(wasm, 8, ss, sizeCode, size, segments);
    SecondSegmentRead(wasm, q, countCode, count, first, second, rest);
  }

  // ─── What is extracted was wrapped ───────────────────────────────────

  /** The bytes of a number read. */
  lemma {:induction false} CodeAt(buf: Bytes, p: nat) returns (code: Bytes, n: nat, q: nat)
    requires Uleb(buf, p, ULEB_MAX).Ok?
    ensures Uleb(buf, p, ULEB_MAX) == Ok((n, q)) && Encodes(code, n) && At(buf, p, code) && q == p + |code|
  {
    n, q := Uleb(buf, p, ULEB_MAX).value.0, Uleb(buf, p, ULEB_MAX).value.1;
    code := buf[p..q];
    VarintCut(buf, p, p, ULEB_MAX);
  }

  /** A passive segment and what stands behind it. */
  lemma {:induction false} SegmentAt(wasm: Bytes, p: nat) returns (s: Segment, q: nat, next: nat)
    requires Uleb(wasm, p, ULEB_MAX).Ok? && Uleb(wasm, p, ULEB_MAX).value.0 == 1
    requires var p2 := Uleb(wasm, p, ULEB_MAX).value.1;
             Uleb(wasm, p2, ULEB_MAX).Ok?
             && Uleb(wasm, p2, ULEB_MAX).value.1 + Uleb(wasm, p2, ULEB_MAX).value.0 <= |wasm|
    ensures IsPassive(s) && At(wasm, p, SegmentBytes(s)) && next == p + |SegmentBytes(s)| && At(wasm, q, s.content)
    ensures var p2 := Uleb(wasm, p, ULEB_MAX).value.1;
            Uleb(wasm, p2, ULEB_MAX) == Ok((|s.content|, q)) && next == q + |s.content|
  {
    var flagCode, one, p2 := CodeAt(wasm, p);
    var sizeCode, size, p3 := CodeAt(wasm, p2);
    q, next := p3, p3 + size;
    s := Segment(flagCode, sizeCode, wasm[q..next]);
    AtSplit(wasm, p, flagCode, sizeCode);
    AtSplit(wasm, p, flagCode + sizeCode, s.content);
  }

  lemma {:induction false} RestFrom(wasm: Bytes, p: nat, a: Bytes, q: nat, b: Bytes)
    requires At(wasm, p, a) && q == p + |a| && q <= |wasm| && b == wasm[q..]
    ensures wasm[p..] == a + b
  {
  }

  /** The two segments, and where they start. */
  lemma {:induction false} SegmentsAt(wasm: Bytes, p: nat)
      returns (countCode: Bytes, count: nat, first: Segment, second: Segment, p1: nat, q0: nat, p3: nat)
    requires SecondSegment(wasm, p).Ok?
    ensures Encodes(countCode, count) && count >= 2 && IsPassive(first) && IsPassive(second)
    ensures At(wasm, p, countCode) && p1 == p + |countCode| && At(wasm, p1, SegmentBytes(first))
    ensures At(wasm, q0, first.content) && p3 == q0 + |first.content| == p1 + |SegmentBytes(first)|
    ensures At(wasm, p3, SegmentBytes(second)) && q0 + 4 <= |wasm|
    ensures SecondSegment(wasm, p) == Ok(second.content)
  {
    var q1: nat, p5: nat;
    countCode, count, p1 := CodeAt(wasm, p);
    first, q0, p3 := SegmentAt(wasm, p1);
    second, q1, p5 := SegmentAt(wasm, p3);
  }

  lemma {:induction false} SegmentsWereThere(wasm: Bytes, p: nat)
      returns (countCode: Bytes, count: nat, first: Segment, second: Segment, rest: Bytes)
    requires SecondSegment(wasm, p).Ok?
    ensures Encodes(countCode, count) && count >= 2 && IsPassive(first) && IsPassive(second)
    ensures |first.content + (SegmentBytes(second) + rest)| >= 4
    ensures p <= |wasm| && wasm[p..] == countCode + (SegmentBytes(first) + (SegmentBytes(second) + rest))
    ensures SecondSegment(wasm, p) == Ok(second.content)
  {
    var p1: nat, q0: nat, p3: nat;
    countCode, count, first, second, p1, q0, p3 := SegmentsAt(wasm, p);
    rest := RestsFrom(wasm, p, countCode, p1, SegmentBytes(first), p3, SegmentBytes(second));
    var behind := SegmentBytes(second) + rest;
    RestFrom(wasm, q0, first.content, p3, behind);
  }

  lemma {:induction false} RestsFrom(wasm: Bytes, p: nat, a: Bytes, q: nat, b: Bytes, r: nat, c: Bytes)
      returns (rest: Bytes)
    requires At(wasm, p, a) && q == p + |a| && At(wasm, q, b) && r == q + |b| && At(wasm, r, c)
    ensures wasm[r..] == c + rest && wasm[p..] == a + (b + (c + rest))
  {
    rest := wasm[r + |c|..];
    RestFrom(wasm, r, c, r + |c|, rest);
    RestFrom(wasm, q, b, r, c + rest);
    RestFrom(wasm, p, a, q, b + (c + rest));
  }

  /** A section that is skipped. */
  lemma {:induction false} SectionWasThere(wasm: Bytes, p: nat, size: nat, at: nat)
      returns (s: Section, bytes: Bytes)
    requires p < |wasm| && wasm[p] != SECTION_DATA && Uleb(wasm, p + 1, ULEB_MAX) == Ok((size, at))
    requires at + size <= |wasm|
    ensures IsOther(s) && bytes == SectionBytes(s) && At(wasm, p, bytes) && at + size == p + |bytes|
  {
    var sizeCode, n, q := CodeAt(wasm, p + 1);
    s := Section(wasm[p], sizeCode, wasm[at..at + size]);
    AtSplit(wasm, p, [s.id], sizeCode);
    AtSplit(wasm, p, [s.id] + sizeCode, s.content);
    bytes := SectionBytes(s);
  }

  lemma {:induction false} PayloadStarts(wasm: Bytes, p: nat) returns (size: nat, at: nat)
    requires PayloadFrom(wasm, p).Ok?
    ensures p < |wasm| && Uleb(wasm, p + 1, ULEB_MAX) == Ok((size, at))
    ensures PayloadFrom(wasm, p)
         == if wasm[p] == SECTION_DATA then SecondSegment(wasm, at) else PayloadFrom(wasm, at + size)
  {
    size, at := Uleb(wasm, p + 1, ULEB_MAX).value.0, Uleb(wasm, p + 1, ULEB_MAX).value.1;
  }

  lemma {:induction false} DataWasThere(wasm: Bytes, p: nat) returns (sizeCode: Bytes, size: nat, q: nat)
    requires p < |wasm| && wasm[p] == SECTION_DATA && Uleb(wasm, p + 1, ULEB_MAX).Ok?
    ensures Encodes(sizeCode, size) && Uleb(wasm, p + 1, ULEB_MAX) == Ok((size, q))
    ensures p <= q <= |wasm| && wasm[p..] == [SECTION_DATA] + sizeCode + wasm[q..]
  {
    sizeCode, size, q := CodeAt(wasm, p + 1);
    AtSplit(wasm, p, [SECTION_DATA], sizeCode);
    RestFrom(wasm, p, [SECTION_DATA] + sizeCode, q, wasm[q..]);
  }

  lemma {:induction false} FirstSection(s: Section, more: seq<Section>, rest: Bytes)
    ensures Sections([s] + more) + rest == SectionBytes(s) + (Sections(more) + rest)
  {
    assert ([s] + more)[1..] == more;
  }

  lemma {:induction false} NextStarts(wasm: Bytes, p: nat) returns (size: nat, at: nat)
    requires PayloadFrom(wasm, p).Ok? && p < |wasm| && wasm[p] != SECTION_DATA
    ensures p < |wasm| && Uleb(wasm, p + 1, ULEB_MAX) == Ok((size, at)) && at + size < |wasm|
    ensures PayloadFrom(wasm, p) == PayloadFrom(wasm, at + size)
  {
    size, at := PayloadStarts(wasm, p);
    var size1, at1 := PayloadStarts(wasm, at + size);
  }

  lemma {:induction false} SkippedWasThere(wasm: Bytes, p: nat) returns (s: Section, next: nat)
    requires PayloadFrom(wasm, p).Ok? && p < |wasm| && wasm[p] != SECTION_DATA
    ensures IsOther(s) && p < next <= |wasm| && wasm[p..] == SectionBytes(s) + wasm[next..]
    ensures PayloadFrom(wasm, p) == PayloadFrom(wasm, next)
  {
    var size, at := NextStarts(wasm, p);
    next := at + size;
    var bytes: Bytes;
    s, bytes := SectionWasThere(wasm, p, size, at);
    RestFrom(wasm, p, bytes, next, wasm[next..]);
  }

  predicate AllOther(ss: seq<Section>) { forall i | 0 <= i < |ss| :: IsOther(ss[i]) }

  /** Sections, then a data section whose segments start at `q`. */
  lemma {:induction false} SectionsWereThere(wasm: Bytes, p: nat)
      returns (ss: seq<Section>, sizeCode: Bytes, size: nat, q: nat, data: Bytes)
    requires PayloadFrom(wasm, p).Ok?
    ensures AllOther(ss) && Encodes(sizeCode, size) && p <= q <= |wasm|
    ensures data == [SECTION_DATA] + sizeCode + wasm[q..] && wasm[p..] == Sections(ss) + data
    ensures PayloadFrom(wasm, p) == SecondSegment(wasm, q)
    decreases if p < |wasm| then |wasm| - p else 0
  {
    if wasm[p] == SECTION_DATA {
      var size0, at0 := PayloadStarts(wasm, p);
      ss := [];
      sizeCode, size, q := DataWasThere(wasm, p);
      data := wasm[p..];
      assert [] + data == data;
    } else {
      var s, next := SkippedWasThere(wasm, p);
      ss, sizeCode, size, q, data := SectionsWereThere(wasm, next);
      FirstSection(s, ss, data);
      ss := [s] + ss;
    }
  }

  lemma {:induction false} HeaderWasThere(wasm: Bytes)
    requires Extracted(wasm).Ok?
    ensures |wasm| >= 8 && wasm == WASM_MAGIC + LE(1, 4) + wasm[8..] && Extracted(wasm) == PayloadFrom(wasm, 8)
  {
    LEInverts(wasm[4..8]);
    assert wasm == wasm[..4] + wasm[4..8] + wasm[8..];
  }

  /** Whatever is extracted is the second segment of a module of this shape. */
  lemma {:induction false} ExtractedWasWrapped(wasm: Bytes)
      returns (ss: seq<Section>, sizeCode: Bytes, size: nat, countCode: Bytes, count: nat, first: Segment,
               second: Segment, rest: Bytes)
    requires Extracted(wasm).Ok?
    ensures forall i | 0 <= i < |ss| :: IsOther(ss[i])
    ensures Encodes(sizeCode, size) && Encodes(countCode, count) && count >= 2
    ensures IsPassive(first) && IsPassive(second) && |first.content + (SegmentBytes(second) + rest)| >= 4
    ensures wasm == Module(ss, sizeCode, countCode + (SegmentBytes(first) + (SegmentBytes(second) + rest)))
    ensures Extracted(wasm) == Ok(second.content)
  {
    var q: nat, data: Bytes;
    HeaderWasThere(wasm);
    ss, sizeCode, size, q, data := SectionsWereThere(wasm, 8);
    countCode, count, first, second, rest := SegmentsWereThere(wasm, q);
  }
}

/**
 Rebuilding a managed assembly's PE file from its webcil image: every section moves to a
 new file offset and keeps its virtual addresses and bytes.
 */
module PortableExecutables {
  import opened ByteStrings
  import opened WasmContainers
  import opened Webcils

  const FILE_ALIGNMENT := 0x200

  const SECTION_ALIGNMENT := 0x2000

  function AlignUp(value: nat, alignment: nat): int
    requires alignment > 0
  {
    var top := value + alignment - 1;
    top - top % alignment
  }

  /** The size of a section's bytes in the file: whole alignment units. */
  function FileSize(n: nat): (r: nat)
    ensures n <= r < n + FILE_ALIGNMENT
  {
    if n == 0 then 0 else if n <= FILE_ALIGNMENT then FILE_ALIGNMENT else FILE_ALIGNMENT + FileSize(n - FILE_ALIGNMENT)
  }

  lemma {:induction false} FileSizeIsAligned(n: nat)
    ensures FileSize(n) == AlignUp(n, FILE_ALIGNMENT) && FileSize(n) % FILE_ALIGNMENT == 0
  {
    if n > FILE_ALIGNMENT { FileSizeIsAligned(n - FILE_ALIGNMENT); }
  }

  function Max(a: nat, b: nat): nat { if a >= b then a else b }

  function VirtualSize(s: WebcilSection): nat { Max(s.virtualSize, s.rawSize) }

  function Zeros(n: nat): Bytes { seq<byte>(n, _ => 0) }

  // ─── Where sections go ───────────────────────────────────────────────

  /** Where a section's bytes are in the file, and how many with padding. */
  datatype Place = Place(pointer: nat, size: nat)

  function Layout(ss: seq<WebcilSection>, pos: nat): (r: seq<Place>)
    ensures |r| == |ss|
  {
    if ss == [] then []
    else
      var size := FileSize(ss[0].rawSize);
      [Place(pos, size)] + Layout(ss[1..], pos + size)
  }

  /** An empty slice is whole wherever it starts. */
  predicate InPayload(s: WebcilSection, payload: Bytes) {
    s.rawSize == 0 || s.rawPointer + s.rawSize <= |payload|
  }

  function Chunk(s: WebcilSection, payload: Bytes): (chunk: Bytes)
    requires InPayload(s, payload)
    ensures |chunk| == s.rawSize
  {
    if s.rawSize == 0 then [] else payload[s.rawPointer..s.rawPointer + s.rawSize]
  }

  /** Zero-padded section bytes. */
  function Body(s: WebcilSection, payload: Bytes): Bytes
    requires InPayload(s, payload)
  {
    Chunk(s, payload) + Zeros(FileSize(s.rawSize) - s.rawSize)
  }

  predicate Whole(ss: seq<WebcilSection>, payload: Bytes) {
    forall i | 0 <= i < |ss| :: InPayload(ss[i], payload)
  }

  function Bodies(ss: seq<WebcilSection>, payload: Bytes): Bytes
    requires Whole(ss, payload)
  {
    if ss == [] then [] else Body(ss[0], payload) + Bodies(ss[1..], payload)
  }

  /** One behind the other, from one offset to another. */
  predicate Contiguous(places: seq<Place>, from: nat, to: nat) {
    if places == [] then from == to
    else places[0].pointer == from && Contiguous(places[1..], from + places[0].size, to)
  }

  lemma {:induction false} ContiguousIndexed(places: seq<Place>, from: nat, to: nat, i: nat, j: nat)
    requires Contiguous(places, from, to) && i < |places|
    ensures from <= places[i].pointer && places[i].pointer + places[i].size <= to
    ensures i + 1 < |places| ==> places[i].pointer + places[i].size == places[i + 1].pointer
    ensures i < j < |places| ==> places[i].pointer + places[i].size <= places[j].pointer
  {
    if i > 0 {
      ContiguousIndexed(places[1..], from + places[0].size, to, i - 1, if j > 0 then j - 1 else 0);
    } else if 0 < j < |places| {
      ContiguousIndexed(places[1..], from + places[0].size, to, j - 1, 0);
      ContiguousEnds(places[1..], from + places[0].size, to);
    } else {
      ContiguousEnds(places[1..], from + places[0].size, to);
    }
  }

  lemma {:induction false} ContiguousEnds(places: seq<Place>, from: nat, to: nat)
    requires Contiguous(places, from, to)
    ensures from <= to
  {
    if places != [] { ContiguousEnds(places[1..], from + places[0].size, to); }
  }

  /** Sections lie one directly behind the other, from the headers to the end of the file. */
  lemma {:induction false} LayoutIsContiguous(ss: seq<WebcilSection>, pos: nat, payload: Bytes)
    requires Whole(ss, payload)
    ensures Contiguous(Layout(ss, pos), pos, pos + |Bodies(ss, payload)|)
    decreases |ss|
  {
    if ss != [] {
      var first, more, next := FirstBody(ss, pos, payload);
      LayoutIsContiguous(ss[1..], next, payload);
      FirstContiguous(Place(pos, |first|), Layout(ss[1..], next), next + |more|);
    }
  }

  /** The first section's bytes, the others', and where those start. */
  lemma {:induction false} FirstBody(ss: seq<WebcilSection>, pos: nat, payload: Bytes)
      returns (first: Bytes, more: Bytes, next: nat)
    requires ss != [] && Whole(ss, payload)
    ensures first == Body(ss[0], payload) && more == Bodies(ss[1..], payload) && next == pos + |first|
    ensures Bodies(ss, payload) == first + more
    ensures Layout(ss, pos) == [Place(pos, |first|)] + Layout(ss[1..], next)
  {
    first, more := BodiesSplit(ss, payload);
    next := pos + |first|;
    FirstPlace(ss, pos, |first|);
  }

  lemma {:induction false} BodiesSplit(ss: seq<WebcilSection>, payload: Bytes) returns (first: Bytes, more: Bytes)
    requires ss != [] && Whole(ss, payload)
    ensures first == Body(ss[0], payload) && more == Bodies(ss[1..], payload) && Bodies(ss, payload) == first + more
    ensures |first| == FileSize(ss[0].rawSize)
  {
    first, more := Body(ss[0], payload), Bodies(ss[1..], payload);
    BodyLength(ss[0], payload);
  }

  lemma {:induction false} FirstPlace(ss: seq<WebcilSection>, pos: nat, size: nat)
    requires ss != [] && size == FileSize(ss[0].rawSize)
    ensures Layout(ss, pos) == [Place(pos, size)] + Layout(ss[1..], pos + size)
  {
  }

  lemma {:induction false} BodyLength(s: WebcilSection, payload: Bytes)
    requires InPayload(s, payload)
    ensures |Body(s, payload)| == FileSize(s.rawSize)
  {
  }

  lemma {:induction false} FirstContiguous(first: Place, rest: seq<Place>, to: nat)
    requires Contiguous(rest, first.pointer + first.size, to)
    ensures Contiguous([first] + rest, first.pointer, to)
  {
    assert ([first] + rest)[1..] == rest;
  }

  lemma {:induction false} SumIsAligned(a: nat, b: nat)
    requires a % FILE_ALIGNMENT == 0 && b % FILE_ALIGNMENT == 0
    ensures (a + b) % FILE_ALIGNMENT == 0
  {
  }

  lemma {:induction false} LayoutIsAligned(ss: seq<WebcilSection>, pos: nat, i: nat)
    requires pos % FILE_ALIGNMENT == 0 && i < |ss|
    ensures Layout(ss, pos)[i].pointer % FILE_ALIGNMENT == 0 && Layout(ss, pos)[i].size == FileSize(ss[i].rawSize)
    decreases |ss|
  {
    if i > 0 {
      var size := FileSize(ss[0].rawSize);
      FileSizeIsAligned(ss[0].rawSize);
      SumIsAligned(pos, size);
      LayoutIsAligned(ss[1..], pos + size, i - 1);
      assert Layout(ss, pos)[i] == Layout(ss[1..], pos + size)[i - 1];
    }
  }

  /** Each section's place in the file holds its bytes and zeros. */
  lemma {:induction false} BodiesInPlace(file: Bytes, ss: seq<WebcilSection>, pos: nat, payload: Bytes, i: nat)
    requires Whole(ss, payload) && At(file, pos, Bodies(ss, payload)) && i < |ss|
    ensures At(file, Layout(ss, pos)[i].pointer, Body(ss[i], payload))
    decreases |ss|
  {
    var first, more, next := FirstBody(ss, pos, payload);
    AtSplit(file, pos, first, more);
    if i > 0 { BodiesInPlace(file, ss[1..], next, payload, i - 1); }
  }

  // ─── Headers ─────────────────────────────────────────────────────────

  const DOS_STUB: Bytes := [
    0x0E, 0x1F, 0xBA, 0x0E, 0x00, 0xB4, 0x09, 0xCD, 0x21, 0xB8, 0x01, 0x4C, 0xCD, 0x21]
    + Ascii("This program cannot be run in DOS mode.") + [0x0D, 0x0D, 0x0A, 0x24, 0, 0, 0, 0, 0, 0, 0]

  /** What stands between "MZ" and the offset of the PE signature. */
  const DOS_FIELDS := [
    Field(0x90, 2), Field(3, 2), Field(0, 2), Field(4, 2), Field(0, 2), Field(0xFFFF, 2), Field(0, 2),
    Field(0xB8, 2), Field(0, 2), Field(0, 2), Field(0, 2), Field(0x40, 2), Field(0, 2),
    Field(0, 8), Field(0, 2), Field(0, 2), Field(0, 20)]

  const PE_OFFSET := 0x80

  function DosHeader(): Bytes { LE(0x5A4D, 2) + Packed(DOS_FIELDS) + LE(PE_OFFSET, 4) }

  /** Signature and COFF header. */
  function CoffFields(sections: nat): seq<Field> {
    [Field(0x4550, 4), Field(0x014C, 2), Field(sections, 2), Field(0, 4), Field(0, 4), Field(0, 4),
     Field(OPTIONAL_HEADER_SIZE, 2), Field(0x202E, 2)]
  }

  const OPTIONAL_HEADER_SIZE := 224

  const PREFIX_SIZE := 376

  const SECTION_HEADER_SIZE := 40

  predicate IsText(index: nat, total: nat) { total <= 3 && index == 0 }

  function CodeSize(ss: seq<WebcilSection>): nat {
    if 1 <= |ss| <= 3 then ss[0].rawSize else 0
  }

  function RawSizes(ss: seq<WebcilSection>): nat {
    if ss == [] then 0 else ss[0].rawSize + RawSizes(ss[1..])
  }

  function FirstAddress(ss: seq<WebcilSection>): nat {
    if ss == [] then 0 else if ss[0].virtualAddress != 0 then ss[0].virtualAddress else FirstAddress(ss[1..])
  }

  function DataSections(ss: seq<WebcilSection>): seq<WebcilSection> {
    if 1 <= |ss| <= 3 then ss[1..] else ss
  }

  function TopAddress(ss: seq<WebcilSection>): nat {
    if ss == [] then 0 else Max(ss[0].virtualAddress + VirtualSize(ss[0]), TopAddress(ss[1..]))
  }

  function ImageSize(ss: seq<WebcilSection>): (r: nat)
    ensures r % SECTION_ALIGNMENT == 0 && r >= TopAddress(ss)
  {
    AlignUp(TopAddress(ss), SECTION_ALIGNMENT)
  }

  lemma {:induction false} AlignedUp(n: nat)
    ensures AlignUp(n, FILE_ALIGNMENT) >= n && AlignUp(n, FILE_ALIGNMENT) % FILE_ALIGNMENT == 0
  {
  }

  function HeadersSize(sections: nat): (r: nat)
    ensures r % FILE_ALIGNMENT == 0 && PREFIX_SIZE + SECTION_HEADER_SIZE * sections <= r
  {
    AlignedUp(PREFIX_SIZE + SECTION_HEADER_SIZE * sections);
    AlignUp(PREFIX_SIZE + SECTION_HEADER_SIZE * sections, FILE_ALIGNMENT)
  }

  /** What the converter sums up over the sections. */
  datatype Totals = Totals(codeSize: nat, dataSize: nat, baseOfCode: nat, baseOfData: nat, imageSize: nat)

  function TotalsOf(ss: seq<WebcilSection>): Totals {
    Totals(CodeSize(ss), RawSizes(DataSections(ss)), if 1 <= |ss| <= 3 then ss[0].virtualAddress else 0,
           FirstAddress(DataSections(ss)), ImageSize(ss))
  }

  function OptionalFields(t: Totals, headersSize: nat): seq<Field> {
    [Field(0x010B, 2), Field(8, 1), Field(0, 1), Field(t.codeSize, 4), Field(t.dataSize, 4), Field(0, 4), Field(0, 4),
     Field(t.baseOfCode, 4), Field(t.baseOfData, 4), Field(0x10000000, 4), Field(SECTION_ALIGNMENT, 4),
     Field(FILE_ALIGNMENT, 4), Field(4, 2), Field(0, 2), Field(0, 2), Field(0, 2), Field(4, 2), Field(0, 2),
     Field(0, 4), Field(t.imageSize, 4), Field(headersSize, 4), Field(0, 4), Field(3, 2), Field(0x8540, 2),
     Field(0x00100000, 4), Field(0x00001000, 4), Field(0x00100000, 4), Field(0x00001000, 4), Field(0, 4), Field(16, 4)]
  }

  const DIR_DEBUG := 6

  const DIR_CLI := 14

  /** Sixteen data directories, of which at most two are filled in. */
  function DirectoryFields(h: Header): seq<Field> {
    seq<Field>(32, i requires 0 <= i < 32 =>
      if h.cliRva != 0 && h.cliSize != 0 && i / 2 == DIR_CLI then
        Field(if i % 2 == 0 then h.cliRva else h.cliSize, 4)
      else if h.debugRva != 0 && h.debugSize != 0 && i / 2 == DIR_DEBUG then
        Field(if i % 2 == 0 then h.debugRva else h.debugSize, 4)
      else Field(0, 4))
  }

  function Prefix(h: Header, sections: nat, t: Totals): Bytes {
    DosHeader() + DOS_STUB + Packed(CoffFields(sections))
    + Packed(OptionalFields(t, HeadersSize(sections))) + Packed(DirectoryFields(h))
  }

  // ─── The section table ───────────────────────────────────────────────

  function SectionName(index: nat, total: nat): (name: Bytes)
    ensures |name| == 8
  {
    var text :=
      if total <= 3 && index == 0 then ".text"
      else if total == 3 && index == 1 then ".rsrc"
      else if total <= 3 then ".reloc"
      else ".sec" + Digits(index);
    (Ascii(text) + Zeros(8))[..8]
  }

  function Characteristics(index: nat, total: nat): nat {
    if total <= 3 && index == 0 then 0x60000020
    else if total <= 3 && index == total - 1 then 0x42000040
    else 0x40000040
  }

  function EntryFields(s: WebcilSection, place: Place, index: nat, total: nat): seq<Field> {
    [Field(VirtualSize(s), 4), Field(s.virtualAddress, 4), Field(place.size, 4), Field(place.pointer, 4),
     Field(0, 4), Field(0, 4), Field(0, 2), Field(0, 2), Field(Characteristics(index, total), 4)]
  }

  function Entry(s: WebcilSection, place: Place, index: nat, total: nat): Bytes {
    SectionName(index, total) + Packed(EntryFields(s, place, index, total))
  }

  /** The entries from section `i` on. */
  function Entries(ss: seq<WebcilSection>, places: seq<Place>, i: nat): Bytes
    requires |places| == |ss| && i <= |ss|
    decreases |ss| - i
  {
    if i == |ss| then [] else Entry(ss[i], places[i], i, |ss|) + Entries(ss, places, i + 1)
  }

  function PadTo(s: Bytes, n: nat): Bytes { s + Zeros(if |s| < n then n - |s| else 0) }

  function File(prefix: Bytes, ss: seq<WebcilSection>, payload: Bytes): Bytes
    requires Whole(ss, payload)
  {
    PadTo(prefix + Entries(ss, Layout(ss, HeadersSize(|ss|)), 0), HeadersSize(|ss|)) + Bodies(ss, payload)
  }

  // ─── Conversion ──────────────────────────────────────────────────────

  predicate PlacesPack(places: seq<Place>) {
    forall i | 0 <= i < |places| :: U32(places[i].size) && U32(places[i].pointer)
  }

  /** Every 32-bit field can be packed; the other fields are copied or small. */
  predicate Packable(ss: seq<WebcilSection>) {
    && U32(RawSizes(DataSections(ss))) && U32(ImageSize(ss))
    && PlacesPack(Layout(ss, HeadersSize(|ss|)))
  }

  function Converted(image: Image): Result<Bytes> {
    var ss := image.sections;
    if ss == [] then Err(ValueError)
    else if !Packable(ss) then Err(StructError)
    else if !Whole(ss, image.payload) then Err(ValueError)
    else Ok(File(Prefix(image.header, |ss|, TotalsOf(ss)), ss, image.payload))
  }

  function ToDll(wasm: Bytes): Result<Bytes> {
    var payload :- Extracted(wasm);
    var image :- Parsed(payload);
    Converted(image)
  }

  // ─── Reading a PE file ───────────────────────────────────────────────

  datatype PeSection = PeSection(name: Bytes, virtualSize: nat, virtualAddress: nat, rawSize: nat, rawPointer: nat,
                                 characteristics: nat)

  function PeEntry(dll: Bytes, p: nat): PeSection
    requires p + SECTION_HEADER_SIZE <= |dll|
  {
    PeSection(dll[p..p + 8], Num(dll, p + 8, 4), Num(dll, p + 12, 4), Num(dll, p + 16, 4), Num(dll, p + 20, 4),
              Num(dll, p + 36, 4))
  }

  function PeEntries(dll: Bytes, p: nat, n: nat): Option<seq<PeSection>>
    decreases n
  {
    if n == 0 then Some([])
    else if p + SECTION_HEADER_SIZE > |dll| then None
    else
      match PeEntries(dll, p + SECTION_HEADER_SIZE, n - 1)
      case None => None
      case Some(rest) => Some([PeEntry(dll, p)] + rest)
  }

  /** The section table, found through the DOS and COFF headers. */
  function PeTable(dll: Bytes): Option<seq<PeSection>> {
    if |dll| < 64 || Num(dll, 0, 2) != 0x5A4D then None
    else
      var coff := Num(dll, 60, 4);
      if coff + 24 > |dll| || Num(dll, coff, 4) != 0x4550 then None
      else PeEntries(dll, coff + 24 + Num(dll, coff + 20, 2), Num(dll, coff + 6, 2))
  }

  /** The entry of one section in a converted file. */
  function MovedSection(s: WebcilSection, place: Place, index: nat, total: nat): PeSection {
    PeSection(SectionName(index, total), VirtualSize(s), s.virtualAddress, place.size, place.pointer,
              Characteristics(index, total))
  }

  /** The table a converted file should have. */
  function Moved(ss: seq<WebcilSection>, places: seq<Place>): (r: seq<PeSection>)
    requires |places| == |ss|
    ensures |r| == |ss|
  {
    seq<PeSection>(|ss|, i requires 0 <= i < |ss| => MovedSection(ss[i], places[i], i, |ss|))
  }

  lemma {:induction false} EntryRead(dll: Bytes, p: nat, s: WebcilSection, place: Place, index: nat, total: nat)
    requires SectionFits(s) && U32(place.size) && U32(place.pointer) && At(dll, p, Entry(s, place, index, total))
    ensures p + SECTION_HEADER_SIZE <= |dll| && |Entry(s, place, index, total)| == SECTION_HEADER_SIZE
    ensures PeEntry(dll, p) == MovedSection(s, place, index, total)
  {
    var fs := EntryFields(s, place, index, total);
    AtSplit(dll, p, SectionName(index, total), Packed(fs));
    Pow256Values();
    PackedLength(fs);
    EntryOffsets(fs);
    FieldRead(dll, p + 8, fs, 0);
    FieldRead(dll, p + 8, fs, 1);
    FieldRead(dll, p + 8, fs, 2);
    FieldRead(dll, p + 8, fs, 3);
    FieldRead(dll, p + 8, fs, 8);
  }

  lemma {:induction false} EntryOffsets(fs: seq<Field>)
    requires |fs| == 9 && fs[0].width == fs[1].width == fs[2].width == fs[3].width == fs[4].width == fs[5].width == 4
    requires fs[6].width == fs[7].width == 2 && fs[8].width == 4
    ensures Offset(fs, 0) == 0 && Offset(fs, 1) == 4 && Offset(fs, 2) == 8 && Offset(fs, 3) == 12
    ensures Offset(fs, 8) == 28 && Offset(fs, 9) == 32
  {
    assert Offset(fs, 4) == 16 && Offset(fs, 5) == 20 && Offset(fs, 6) == 24;
  }

  lemma {:induction false} OneMoreEntry(dll: Bytes, p: nat, n: nat, e: PeSection, rest: seq<PeSection>)
    requires p + SECTION_HEADER_SIZE <= |dll| && PeEntry(dll, p) == e
    requires PeEntries(dll, p + SECTION_HEADER_SIZE, n) == Some(rest)
    ensures PeEntries(dll, p, n + 1) == Some([e] + rest)
  {
  }

  predicate AllPack(ss: seq<WebcilSection>, places: seq<Place>)
    requires |places| == |ss|
  {
    forall j | 0 <= j < |ss| :: SectionFits(ss[j]) && U32(places[j].size) && U32(places[j].pointer)
  }

  lemma {:induction false} Peel<T>(s: seq<T>, i: nat)
    requires i < |s|
    ensures s[i..] == [s[i]] + s[i + 1..] && s[i..][1..] == s[i + 1..]
  {
  }

  lemma {:induction false} EntriesLength(ss: seq<WebcilSection>, places: seq<Place>, i: nat)
    requires |places| == |ss| && i <= |ss|
    ensures |Entries(ss, places, i)| == SECTION_HEADER_SIZE * (|ss| - i)
    decreases |ss| - i
  {
    if i < |ss| {
      EntriesLength(ss, places, i + 1);
      var first, more := FirstEntry(ss, places, i);
      Lengths(first, more, |ss| - i);
    }
  }

  lemma {:induction false} FirstEntry(ss: seq<WebcilSection>, places: seq<Place>, i: nat)
      returns (first: Bytes, more: Bytes)
    requires |places| == |ss| && i < |ss|
    ensures more == Entries(ss, places, i + 1) && Entries(ss, places, i) == first + more
    ensures |first| == SECTION_HEADER_SIZE
  {
    first, more := Entry(ss[i], places[i], i, |ss|), Entries(ss, places, i + 1);
    EntryLength(ss[i], places[i], i, |ss|);
  }

  lemma {:induction false} Lengths(first: Bytes, more: Bytes, n: nat)
    requires n > 0 && |first| == SECTION_HEADER_SIZE && |more| == SECTION_HEADER_SIZE * (n - 1)
    ensures |first + more| == SECTION_HEADER_SIZE * n
  {
  }

  lemma {:induction false} EntryLength(s: WebcilSection, place: Place, index: nat, total: nat)
    ensures |Entry(s, place, index, total)| == SECTION_HEADER_SIZE
  {
    var fs := EntryFields(s, place, index, total);
    PackedLength(fs);
    EntryOffsets(fs);
  }

  lemma {:induction false} EntriesRead(dll: Bytes, p: nat, ss: seq<WebcilSection>, places: seq<Place>, i: nat)
    requires |places| == |ss| && i <= |ss| && At(dll, p, Entries(ss, places, i)) && AllPack(ss, places)
    ensures PeEntries(dll, p, |ss| - i) == Some(Moved(ss, places)[i..])
    decreases |ss| - i
  {
    if i == |ss| {
      assert Moved(ss, places)[i..] == [];
    } else {
      AtSplit(dll, p, Entry(ss[i], places[i], i, |ss|), Entries(ss, places, i + 1));
      EntryRead(dll, p, ss[i], places[i], i, |ss|);
      EntriesRead(dll, p + SECTION_HEADER_SIZE, ss, places, i + 1);
      OneMoreEntry(dll, p, |ss| - i - 1, PeEntry(dll, p), Moved(ss, places)[i + 1..]);
      Peel(Moved(ss, places), i);
    }
  }

  lemma {:induction false} DosOffsets(fs: seq<Field>)
    requires fs == DOS_FIELDS
    ensures Offset(fs, 17) == 58
  {
    assert Offset(fs, 1) == 2 && Offset(fs, 2) == 4 && Offset(fs, 3) == 6 && Offset(fs, 4) == 8 && Offset(fs, 5) == 10;
    assert Offset(fs, 6) == 12 && Offset(fs, 7) == 14 && Offset(fs, 8) == 16 && Offset(fs, 9) == 18
      && Offset(fs, 10) == 20;
    assert Offset(fs, 11) == 22 && Offset(fs, 12) == 24 && Offset(fs, 13) == 26 && Offset(fs, 14) == 34
      && Offset(fs, 15) == 36;
    assert Offset(fs, 16) == 38;
  }

  lemma {:induction false} DosRead(dll: Bytes)
    requires At(dll, 0, DosHeader())
    ensures |DosHeader()| == 64 && |dll| >= 64 && Num(dll, 0, 2) == 0x5A4D && Num(dll, 60, 4) == PE_OFFSET
  {
    var middle := Packed(DOS_FIELDS);
    PackedLength(DOS_FIELDS);
    DosOffsets(DOS_FIELDS);
    AtSplit(dll, 0, LE(0x5A4D, 2) + middle, LE(PE_OFFSET, 4));
    AtSplit(dll, 0, LE(0x5A4D, 2), middle);
    Pow256Values();
    LERoundTrip(0x5A4D, 2);
    LERoundTrip(PE_OFFSET, 4);
  }

  lemma {:induction false} CoffRead(dll: Bytes, n: nat)
    requires At(dll, 0x80, Packed(CoffFields(n))) && U16(n)
    ensures |Packed(CoffFields(n))| == 24 && 0x80 + 24 <= |dll| && Num(dll, 0x80, 4) == 0x4550
    ensures Num(dll, 0x86, 2) == n && Num(dll, 0x94, 2) == OPTIONAL_HEADER_SIZE
  {
    var fs := CoffFields(n);
    PackedLength(fs);
    Pow256Values();
    assert Offset(fs, 0) == 0 && Offset(fs, 2) == 6 && Offset(fs, 6) == 20 && Offset(fs, 8) == 24;
    FieldRead(dll, 0x80, fs, 0);
    FieldRead(dll, 0x80, fs, 2);
    FieldRead(dll, 0x80, fs, 6);
  }

  lemma {:induction false} OptionalOffsets(fs: seq<Field>, t: Totals, headersSize: nat)
    requires fs == OptionalFields(t, headersSize)
    ensures Offset(fs, 0) == 0 && Offset(fs, 3) == 4 && Offset(fs, 4) == 8 && Offset(fs, 6) == 16
    ensures Offset(fs, 7) == 20 && Offset(fs, 8) == 24 && Offset(fs, 9) == 28 && Offset(fs, 10) == 32
    ensures Offset(fs, 11) == 36 && Offset(fs, 19) == 56 && Offset(fs, 20) == 60 && Offset(fs, 22) == 68
    ensures Offset(fs, 23) == 70 && Offset(fs, 29) == 92 && Offset(fs, 30) == 96
  {
    assert Offset(fs, 1) == 2 && Offset(fs, 2) == 3 && Offset(fs, 3) == 4 && Offset(fs, 4) == 8 && Offset(fs, 5) == 12;
    assert Offset(fs, 6) == 16 && Offset(fs, 7) == 20 && Offset(fs, 8) == 24 && Offset(fs, 9) == 28
      && Offset(fs, 10) == 32;
    assert Offset(fs, 11) == 36 && Offset(fs, 12) == 40 && Offset(fs, 13) == 42 && Offset(fs, 14) == 44
      && Offset(fs, 15) == 46;
    assert Offset(fs, 16) == 48 && Offset(fs, 17) == 50 && Offset(fs, 18) == 52 && Offset(fs, 19) == 56
      && Offset(fs, 20) == 60;
    assert Offset(fs, 21) == 64 && Offset(fs, 22) == 68 && Offset(fs, 23) == 70 && Offset(fs, 24) == 72
      && Offset(fs, 25) == 76;
    assert Offset(fs, 26) == 80 && Offset(fs, 27) == 84 && Offset(fs, 28) == 88 && Offset(fs, 29) == 92;
  }

  lemma {:induction false} EvenOffsets(fs: seq<Field>, width: nat, i: nat)
    requires i <= |fs| && forall j | 0 <= j < |fs| :: fs[j].width == width
    ensures Offset(fs, i) == width * i
    decreases i
  {
    if i > 0 { EvenOffsets(fs, width, i - 1); }
  }

  lemma {:induction false} OptionalHeaderLength(h: Header, t: Totals, headersSize: nat)
    ensures |Packed(OptionalFields(t, headersSize))| + |Packed(DirectoryFields(h))| == OPTIONAL_HEADER_SIZE
  {
    PackedLength(OptionalFields(t, headersSize));
    OptionalOffsets(OptionalFields(t, headersSize), t, headersSize);
    PackedLength(DirectoryFields(h));
    EvenOffsets(DirectoryFields(h), 4, 32);
  }

  /** Headers of this size behind which the table of `n` sections is looked for. */
  ghost predicate LeadsTo(prefix: Bytes, n: nat) {
    && |prefix| == PREFIX_SIZE
    && forall dll: Bytes | At(dll, 0, prefix) :: PeTable(dll) == PeEntries(dll, PREFIX_SIZE, n)
  }

  lemma {:induction false} PrefixRead(dll: Bytes, h: Header, n: nat, t: Totals)
    requires At(dll, 0, Prefix(h, n, t)) && U16(n)
    ensures |Prefix(h, n, t)| == PREFIX_SIZE && PeTable(dll) == PeEntries(dll, PREFIX_SIZE, n)
  {
    var dos, coff := DosHeader(), Packed(CoffFields(n));
    var optional, directories := Packed(OptionalFields(t, HeadersSize(n))), Packed(DirectoryFields(h));
    AtSplit(dll, 0, dos + DOS_STUB + coff + optional, directories);
    AtSplit(dll, 0, dos + DOS_STUB + coff, optional);
    AtSplit(dll, 0, dos + DOS_STUB, coff);
    AtSplit(dll, 0, dos, DOS_STUB);
    DosRead(dll);
    CoffRead(dll, n);
    OptionalHeaderLength(h, t, HeadersSize(n));
  }

  /** The DOS and COFF headers lead to the section table. */
  lemma {:induction false} PrefixLeads(h: Header, n: nat, t: Totals)
    requires U16(n)
    ensures LeadsTo(Prefix(h, n, t), n)
  {
    var prefix := Prefix(h, n, t);
    assert At(prefix, 0, prefix);
    PrefixRead(prefix, h, n, t);
    forall dll: Bytes | At(dll, 0, prefix) ensures PeTable(dll) == PeEntries(dll, PREFIX_SIZE, n) {
      PrefixRead(dll, h, n, t);
    }
  }

  lemma {:induction false} PadAt(file: Bytes, s: Bytes, n: nat, rest: Bytes)
    requires file == PadTo(s, n) + rest && |s| <= n
    ensures At(file, 0, s) && At(file, n, rest)
  {
  }

  lemma {:induction false} TableRead(file: Bytes, prefix: Bytes, ss: seq<WebcilSection>, places: seq<Place>,
      rest: Bytes)
    requires |places| == |ss| && AllPack(ss, places) && LeadsTo(prefix, |ss|)
    requires file == PadTo(prefix + Entries(ss, places, 0), HeadersSize(|ss|)) + rest
    ensures PeTable(file) == Some(Moved(ss, places)) && At(file, HeadersSize(|ss|), rest)
  {
    var table := Entries(ss, places, 0);
    EntriesLength(ss, places, 0);
    PadAt(file, prefix + table, HeadersSize(|ss|), rest);
    AtSplit(file, 0, prefix, table);
    EntriesRead(file, PREFIX_SIZE, ss, places, 0);
  }

  // ─── Nothing is lost ─────────────────────────────────────────────────

  lemma {:induction false} ParsedSectionsFit(payload: Bytes, p: nat, n: nat)
    requires SectionTable(payload, p, n).Ok?
    ensures var ss := SectionTable(payload, p, n).value;
            |ss| == n && forall i | 0 <= i < n :: SectionFits(ss[i])
    decreases n
  {
    if n > 0 {
      ParsedSectionsFit(payload, p + ENTRY_SIZE, n - 1);
      NumFits(payload, p, 4);
      NumFits(payload, p + 4, 4);
      NumFits(payload, p + 8, 4);
      NumFits(payload, p + 12, 4);
      Pow256Values();
    }
  }

  lemma {:induction false} NumFits(buf: Bytes, p: nat, k: nat)
    requires p + k <= |buf|
    ensures Num(buf, p, k) < Pow256(k)
  {
    FromLEBound(buf[p..p + k]);
  }

  lemma {:induction false} ParsedImageFits(payload: Bytes)
    requires Parsed(payload).Ok?
    ensures var image := Parsed(payload).value;
            && image.payload == payload && U16(|image.sections|) && HeaderFits(image.header)
            && forall i | 0 <= i < |image.sections| :: SectionFits(image.sections[i])
  {
    var h := HeaderAt(payload).value;
    ParsedSectionsFit(payload, HeaderSize(h), h.sections);
    ParsedHeaderFits(payload);
  }

  lemma {:induction false} ParsedHeaderFits(payload: Bytes)
    requires HeaderAt(payload).Ok?
    ensures HeaderFits(HeaderAt(payload).value)
  {
    Pow256Values();
    NumFits(payload, 6, 2);
    NumFits(payload, 8, 2);
    NumFits(payload, 10, 2);
    NumFits(payload, 12, 4);
    NumFits(payload, 16, 4);
    NumFits(payload, 20, 4);
    NumFits(payload, 24, 4);
    if HeaderAt(payload).value.major == 1 { NumFits(payload, V0_HEADER_SIZE, 4); }
  }

  predicate Fitting(image: Image) {
    U16(|image.sections|) && forall i | 0 <= i < |image.sections| :: SectionFits(image.sections[i])
  }

  // ─── What can be converted ───────────────────────────────────────────

  function PaddedSizes(ss: seq<WebcilSection>): nat {
    if ss == [] then 0 else FileSize(ss[0].rawSize) + PaddedSizes(ss[1..])
  }

  /** The sizes and addresses of the image are small enough for a PE file. */
  predicate Small(ss: seq<WebcilSection>) {
    && RawSizes(DataSections(ss)) < 0x1_0000_0000
    && (forall i | 0 <= i < |ss| :: ss[i].virtualAddress + VirtualSize(ss[i]) <= 0x1_0000_0000 - SECTION_ALIGNMENT)
    && (forall i | 0 <= i < |ss| :: ss[i].rawSize <= 0x1_0000_0000 - FILE_ALIGNMENT)
    && (ss != [] ==> HeadersSize(|ss|) + PaddedSizes(ss[..|ss| - 1]) < 0x1_0000_0000)
  }

  /** There is a section, all of them lie inside the payload, and they are small enough. */
  predicate Convertible(image: Image) {
    image.sections != [] && Whole(image.sections, image.payload) && Small(image.sections)
  }

  lemma {:induction false} TopAddressSmall(ss: seq<WebcilSection>, bound: nat)
    ensures TopAddress(ss) <= bound <==> forall i | 0 <= i < |ss| :: ss[i].virtualAddress + VirtualSize(ss[i]) <= bound
  {
    if ss != [] {
      TopAddressSmall(ss[1..], bound);
      forall i | 0 < i < |ss| ensures ss[i] == ss[1..][i - 1] {}
      if forall i | 0 <= i < |ss| :: ss[i].virtualAddress + VirtualSize(ss[i]) <= bound {
        forall i | 0 <= i < |ss[1..]| ensures ss[1..][i].virtualAddress + VirtualSize(ss[1..][i]) <= bound {
          assert ss[1..][i] == ss[i + 1];
        }
      }
    }
  }

  lemma {:induction false} ImageSizeSmall(ss: seq<WebcilSection>)
    ensures U32(ImageSize(ss)) <==> TopAddress(ss) <= 0x1_0000_0000 - SECTION_ALIGNMENT
  {
  }

  lemma {:induction false} FileSizeSmall(n: nat)
    ensures U32(FileSize(n)) <==> n <= 0x1_0000_0000 - FILE_ALIGNMENT
  {
    FileSizeIsAligned(n);
  }

  /** A section's offset is what the ones before take up. */
  lemma {:induction false} PointerSums(ss: seq<WebcilSection>, pos: nat, i: nat)
    requires i < |ss|
    ensures Layout(ss, pos)[i] == Place(pos + PaddedSizes(ss[..i]), FileSize(ss[i].rawSize))
    decreases |ss|
  {
    if i > 0 {
      PointerSums(ss[1..], pos + FileSize(ss[0].rawSize), i - 1);
      assert ss[..i][1..] == ss[1..][..i - 1];
    }
  }

  lemma {:induction false} PaddedGrows(ss: seq<WebcilSection>, i: nat, j: nat)
    requires i <= j <= |ss|
    ensures PaddedSizes(ss[..i]) <= PaddedSizes(ss[..j])
    decreases |ss|
  {
    if i > 0 {
      PaddedGrows(ss[1..], i - 1, j - 1);
      assert ss[..i][1..] == ss[1..][..i - 1] && ss[..j][1..] == ss[1..][..j - 1];
    }
  }

  lemma {:induction false} PlacesSmall(ss: seq<WebcilSection>, pos: nat)
    requires ss != []
    ensures PlacesPack(Layout(ss, pos)) <==>
      && (forall i | 0 <= i < |ss| :: ss[i].rawSize <= 0x1_0000_0000 - FILE_ALIGNMENT)
      && pos + PaddedSizes(ss[..|ss| - 1]) < 0x1_0000_0000
  {
    var places := Layout(ss, pos);
    forall i | 0 <= i < |ss|
      ensures U32(places[i].size) <==> ss[i].rawSize <= 0x1_0000_0000 - FILE_ALIGNMENT
      ensures places[i].pointer == pos + PaddedSizes(ss[..i]) <= pos + PaddedSizes(ss[..|ss| - 1])
    {
      PointerSums(ss, pos, i);
      FileSizeSmall(ss[i].rawSize);
      PaddedGrows(ss, i, |ss| - 1);
    }
    assert places[|ss| - 1].pointer == pos + PaddedSizes(ss[..|ss| - 1]);
  }

  lemma {:induction false} PackableIff(ss: seq<WebcilSection>)
    requires ss != []
    ensures Packable(ss) <==> Small(ss)
  {
    TopAddressSmall(ss, 0x1_0000_0000 - SECTION_ALIGNMENT);
    ImageSizeSmall(ss);
    PlacesSmall(ss, HeadersSize(|ss|));
  }

  /**
   Conversion succeeds exactly on images with a section, all sections inside the payload, and
   sizes and addresses whose sums stay clear of 2^32; a field that does not fit is reported first.
   */
  lemma {:induction false} ConvertsIff(image: Image)
    ensures Converted(image).Ok? <==> Convertible(image)
    ensures Converted(image) == Err(StructError) <==> image.sections != [] && !Small(image.sections)
  {
    if image.sections != [] { PackableIff(image.sections); }
  }

  lemma {:induction false} TableInFile(prefix: Bytes, ss: seq<WebcilSection>, payload: Bytes, places: seq<Place>)
    requires LeadsTo(prefix, |ss|) && Whole(ss, payload) && places == Layout(ss, HeadersSize(|ss|))
             && AllPack(ss, places)
    ensures PeTable(File(prefix, ss, payload)) == Some(Moved(ss, places))
    ensures At(File(prefix, ss, payload), HeadersSize(|ss|), Bodies(ss, payload))
    ensures |File(prefix, ss, payload)| == HeadersSize(|ss|) + |Bodies(ss, payload)|
  {
    EntriesLength(ss, places, 0);
    PadFills(prefix + Entries(ss, places, 0), HeadersSize(|ss|));
    TableRead(File(prefix, ss, payload), prefix, ss, places, Bodies(ss, payload));
  }

  lemma {:induction false} PackableEntries(ss: seq<WebcilSection>, places: seq<Place>)
    requires Packable(ss) && places == Layout(ss, HeadersSize(|ss|))
    requires forall j | 0 <= j < |ss| :: SectionFits(ss[j])
    ensures AllPack(ss, places)
  {
  }

  lemma {:induction false} PlacesFilled(file: Bytes, n: nat, ss: seq<WebcilSection>, payload: Bytes, i: nat)
    requires Whole(ss, payload) && i < |ss| && At(file, n, Bodies(ss, payload)) && |file| == n + |Bodies(ss, payload)|
    ensures Contiguous(Layout(ss, n), n, |file|) && At(file, Layout(ss, n)[i].pointer, Body(ss[i], payload))
  {
    LayoutIsContiguous(ss, n, payload);
    BodiesInPlace(file, ss, n, payload, i);
  }

  lemma {:induction false} FileFacts(prefix: Bytes, ss: seq<WebcilSection>, payload: Bytes, i: nat)
    requires LeadsTo(prefix, |ss|) && Whole(ss, payload) && Packable(ss) && i < |ss|
    requires forall j | 0 <= j < |ss| :: SectionFits(ss[j])
    ensures Relocated(File(prefix, ss, payload), ss, payload, i)
  {
    var places := Layout(ss, HeadersSize(|ss|));
    PackableEntries(ss, places);
    TableInFile(prefix, ss, payload, places);
    PlacesFilled(File(prefix, ss, payload), HeadersSize(|ss|), ss, payload, i);
    LayoutIsAligned(ss, HeadersSize(|ss|), i);
  }

  /**
   The file's own table lists all sections where they were moved: file-aligned, one behind
   the other up to the end of the file; and section `i` has its bytes there, then zeros.
   */
  predicate Relocated(dll: Bytes, ss: seq<WebcilSection>, payload: Bytes, i: nat)
    requires Whole(ss, payload) && i < |ss|
  {
    var places := Layout(ss, HeadersSize(|ss|));
    && PeTable(dll) == Some(Moved(ss, places))
    && Contiguous(places, HeadersSize(|ss|), |dll|)
    && places[i].pointer % FILE_ALIGNMENT == 0 && places[i].size == FileSize(ss[i].rawSize)
    && At(dll, places[i].pointer, Body(ss[i], payload))
  }

  /** Conversion relocates every section. */
  lemma {:induction false} SectionsMoved(image: Image, i: nat)
    requires Fitting(image) && Convertible(image) && i < |image.sections|
    ensures Converted(image).Ok? && Relocated(Converted(image).value, image.sections, image.payload, i)
  {
    var ss := image.sections;
    PackableIff(ss);
    PrefixLeads(image.header, |ss|, TotalsOf(ss));
    FileFacts(Prefix(image.header, |ss|, TotalsOf(ss)), ss, image.payload, i);
  }

  // ─── The headers, read back ──────────────────────────────────────────

  datatype Directory = Directory(rva: nat, size: nat)

  /** What a loader reads in the optional header. */
  datatype PeHeader = PeHeader(
    magic: nat, codeSize: nat, dataSize: nat, entryPoint: nat, baseOfCode: nat, baseOfData: nat, imageBase: nat,
    sectionAlignment: nat, fileAlignment: nat, imageSize: nat, headersSize: nat, subsystem: nat,
    dllCharacteristics: nat, directories: seq<Directory>)

  function PeDirectories(dll: Bytes, p: nat, n: nat): seq<Directory>
    requires p + 8 * n <= |dll|
  {
    seq<Directory>(n, i requires 0 <= i < n => Directory(Num(dll, p + 8 * i, 4), Num(dll, p + 8 * i + 4, 4)))
  }

  /** The optional header, found through the DOS and COFF headers, with as many directories as it announces. */
  function PeOptional(dll: Bytes): Option<PeHeader> {
    if |dll| < 64 || Num(dll, 0, 2) != 0x5A4D then None
    else
      var coff := Num(dll, 60, 4);
      if coff + 24 > |dll| || Num(dll, coff, 4) != 0x4550 then None
      else
        var p, size := coff + 24, Num(dll, coff + 20, 2);
        if size < 96 || p + size > |dll| then None
        else
          var n := Num(dll, p + 92, 4);
          if size != 96 + 8 * n then None
          else
            Some(PeHeader(Num(dll, p, 2), Num(dll, p + 4, 4), Num(dll, p + 8, 4), Num(dll, p + 16, 4),
                          Num(dll, p + 20, 4), Num(dll, p + 24, 4), Num(dll, p + 28, 4), Num(dll, p + 32, 4),
                          Num(dll, p + 36, 4), Num(dll, p + 56, 4), Num(dll, p + 60, 4), Num(dll, p + 68, 2),
                          Num(dll, p + 70, 2), PeDirectories(dll, p + 96, n)))
  }

  predicate TotalsFit(t: Totals, headersSize: nat) {
    && U32(t.codeSize) && U32(t.dataSize) && U32(t.baseOfCode) && U32(t.baseOfData) && U32(t.imageSize)
    && U32(headersSize)
  }

  lemma {:induction false} WordRead(dll: Bytes, p: nat, fs: seq<Field>, i: nat, offset: nat, v: nat)
    requires At(dll, p, Packed(fs)) && i < |fs| && fs[i] == Field(v, 4) && Offset(fs, i) == offset && U32(v)
    ensures p + offset + 4 <= |dll| && Num(dll, p + offset, 4) == v
  {
    Pow256Values();
    FieldRead(dll, p, fs, i);
  }

  lemma {:induction false} HalfRead(dll: Bytes, p: nat, fs: seq<Field>, i: nat, offset: nat, v: nat)
    requires At(dll, p, Packed(fs)) && i < |fs| && fs[i] == Field(v, 2) && Offset(fs, i) == offset && U16(v)
    ensures p + offset + 2 <= |dll| && Num(dll, p + offset, 2) == v
  {
    Pow256Values();
    FieldRead(dll, p, fs, i);
  }

  /** The numbers that depend on the sections. */
  predicate SizesAt(dll: Bytes, p: nat, t: Totals, headersSize: nat)
    requires p + 96 <= |dll|
  {
    && Num(dll, p + 4, 4) == t.codeSize && Num(dll, p + 8, 4) == t.dataSize
    && Num(dll, p + 20, 4) == t.baseOfCode && Num(dll, p + 24, 4) == t.baseOfData
    && Num(dll, p + 56, 4) == t.imageSize && Num(dll, p + 60, 4) == headersSize
  }

  /** The numbers that do not. */
  predicate ConstantsAt(dll: Bytes, p: nat)
    requires p + 96 <= |dll|
  {
    && Num(dll, p, 2) == 0x10B && Num(dll, p + 16, 4) == 0 && Num(dll, p + 28, 4) == 0x1000_0000
    && Num(dll, p + 32, 4) == 0x2000 && Num(dll, p + 36, 4) == 0x200
    && Num(dll, p + 68, 2) == 3 && Num(dll, p + 70, 2) == 0x8540 && Num(dll, p + 92, 4) == 16
  }

  lemma {:induction false} SizesRead(dll: Bytes, p: nat, fs: seq<Field>, t: Totals, headersSize: nat)
    requires fs == OptionalFields(t, headersSize) && At(dll, p, Packed(fs)) && TotalsFit(t, headersSize)
    ensures p + 96 <= |dll| && SizesAt(dll, p, t, headersSize)
  {
    PackedLength(fs);
    OptionalOffsets(fs, t, headersSize);
    WordRead(dll, p, fs, 3, 4, t.codeSize);
    WordRead(dll, p, fs, 4, 8, t.dataSize);
    WordRead(dll, p, fs, 7, 20, t.baseOfCode);
    WordRead(dll, p, fs, 8, 24, t.baseOfData);
    WordRead(dll, p, fs, 19, 56, t.imageSize);
    WordRead(dll, p, fs, 20, 60, headersSize);
  }

  lemma {:induction false} ConstantsRead(dll: Bytes, p: nat, fs: seq<Field>, t: Totals, headersSize: nat)
    requires fs == OptionalFields(t, headersSize) && At(dll, p, Packed(fs)) && p + 96 <= |dll|
    ensures ConstantsAt(dll, p)
  {
    OptionalOffsets(fs, t, headersSize);
    assert fs[11] == Field(FILE_ALIGNMENT, 4) && FILE_ALIGNMENT == 0x200;
    HalfRead(dll, p, fs, 0, 0, 0x10B);
    WordRead(dll, p, fs, 6, 16, 0);
    WordRead(dll, p, fs, 9, 28, 0x1000_0000);
    WordRead(dll, p, fs, 10, 32, 0x2000);
    WordRead(dll, p, fs, 11, 36, 0x200);
    HalfRead(dll, p, fs, 22, 68, 3);
    HalfRead(dll, p, fs, 23, 70, 0x8540);
    WordRead(dll, p, fs, 29, 92, 16);
  }

  /** The CLI header's and the debug directory's place, where there is one; no other directory. */
  function DirectoryOf(h: Header, i: nat): Directory {
    if i == DIR_CLI && h.cliRva != 0 && h.cliSize != 0 then Directory(h.cliRva, h.cliSize)
    else if i == DIR_DEBUG && h.debugRva != 0 && h.debugSize != 0 then Directory(h.debugRva, h.debugSize)
    else Directory(0, 0)
  }

  lemma {:induction false} DirectoryRead(dll: Bytes, p: nat, fs: seq<Field>, h: Header, i: nat)
    requires HeaderFits(h) && fs == DirectoryFields(h) && At(dll, p, Packed(fs)) && i < 16
    ensures p + 8 * i + 8 <= |dll|
    ensures Directory(Num(dll, p + 8 * i, 4), Num(dll, p + 8 * i + 4, 4)) == DirectoryOf(h, i)
  {
    EvenOffsets(fs, 4, 2 * i);
    EvenOffsets(fs, 4, 2 * i + 1);
    WordRead(dll, p, fs, 2 * i, 8 * i, DirectoryOf(h, i).rva);
    WordRead(dll, p, fs, 2 * i + 1, 8 * i + 4, DirectoryOf(h, i).size);
  }

  lemma {:induction false} DirectoriesRead(dll: Bytes, p: nat, h: Header)
    requires HeaderFits(h) && At(dll, p, Packed(DirectoryFields(h)))
    ensures p + 128 <= |dll| && forall i | 0 <= i < 16 :: PeDirectories(dll, p, 16)[i] == DirectoryOf(h, i)
  {
    DirectoryRead(dll, p, DirectoryFields(h), h, 15);
    forall i | 0 <= i < 16 ensures PeDirectories(dll, p, 16)[i] == DirectoryOf(h, i) {
      DirectoryRead(dll, p, DirectoryFields(h), h, i);
    }
  }

  /** Where the parts of the headers stand. */
  lemma {:induction false} PrefixPlaces(dll: Bytes, h: Header, n: nat, t: Totals)
    requires At(dll, 0, Prefix(h, n, t)) && U16(n)
    ensures |dll| >= PREFIX_SIZE && Num(dll, 0, 2) == 0x5A4D && Num(dll, 60, 4) == 0x80 && Num(dll, 0x80, 4) == 0x4550
    ensures Num(dll, 0x94, 2) == OPTIONAL_HEADER_SIZE
    ensures At(dll, 152, Packed(OptionalFields(t, HeadersSize(n)))) && At(dll, 248, Packed(DirectoryFields(h)))
  {
    var dos, coff := DosHeader(), Packed(CoffFields(n));
    var optional, directories := Packed(OptionalFields(t, HeadersSize(n))), Packed(DirectoryFields(h));
    AtSplit(dll, 0, dos + DOS_STUB + coff + optional, directories);
    AtSplit(dll, 0, dos + DOS_STUB + coff, optional);
    AtSplit(dll, 0, dos + DOS_STUB, coff);
    AtSplit(dll, 0, dos, DOS_STUB);
    DosRead(dll);
    CoffRead(dll, n);
    OptionalLengths(h, t, HeadersSize(n));
  }

  lemma {:induction false} OptionalLengths(h: Header, t: Totals, headersSize: nat)
    ensures |Packed(OptionalFields(t, headersSize))| == 96 && |Packed(DirectoryFields(h))| == 128
  {
    PackedLength(OptionalFields(t, headersSize));
    OptionalOffsets(OptionalFields(t, headersSize), t, headersSize);
    PackedLength(DirectoryFields(h));
    EvenOffsets(DirectoryFields(h), 4, 32);
  }

  /** What the optional header of a converted image should read as. */
  predicate HeaderOf(h: Header, t: Totals, headersSize: nat, pe: PeHeader) {
    && pe == PeHeader(0x10B, t.codeSize, t.dataSize, 0, t.baseOfCode, t.baseOfData, 0x1000_0000,
                      0x2000, 0x200, t.imageSize, headersSize, 3, 0x8540, pe.directories)
    && |pe.directories| == 16 && forall i | 0 <= i < 16 :: pe.directories[i] == DirectoryOf(h, i)
  }

  /** The reader's way to an optional header of the usual size. */
  lemma {:induction false} OptionalFound(dll: Bytes, t: Totals, headersSize: nat)
    requires |dll| >= PREFIX_SIZE && Num(dll, 0, 2) == 0x5A4D && Num(dll, 60, 4) == 0x80 && Num(dll, 0x80, 4) == 0x4550
    requires Num(dll, 0x94, 2) == OPTIONAL_HEADER_SIZE && SizesAt(dll, 152, t, headersSize) && ConstantsAt(dll, 152)
    ensures PeOptional(dll) == Some(
              PeHeader(0x10B, t.codeSize, t.dataSize, 0, t.baseOfCode, t.baseOfData, 0x1000_0000, 0x2000, 0x200,
                       t.imageSize, headersSize, 3, 0x8540, PeDirectories(dll, 248, 16)))
  {
  }

  lemma {:induction false} OptionalRead(dll: Bytes, h: Header, n: nat, t: Totals)
    requires At(dll, 0, Prefix(h, n, t)) && U16(n) && HeaderFits(h) && TotalsFit(t, HeadersSize(n))
    ensures PeOptional(dll).Some? && HeaderOf(h, t, HeadersSize(n), PeOptional(dll).value)
  {
    PrefixPlaces(dll, h, n, t);
    SizesRead(dll, 152, OptionalFields(t, HeadersSize(n)), t, HeadersSize(n));
    ConstantsRead(dll, 152, OptionalFields(t, HeadersSize(n)), t, HeadersSize(n));
    DirectoriesRead(dll, 248, h);
    OptionalFound(dll, t, HeadersSize(n));
  }

  lemma {:induction false} RawSizesOf(ss: seq<WebcilSection>)
    ensures CodeSize(ss) + RawSizes(DataSections(ss)) == RawSizes(ss)
  {
  }

  lemma {:induction false} FirstAddressFits(ss: seq<WebcilSection>)
    requires forall i | 0 <= i < |ss| :: SectionFits(ss[i])
    ensures U32(FirstAddress(ss))
    decreases |ss|
  {
    if ss != [] { FirstAddressFits(ss[1..]); }
  }

  lemma {:induction false} ConvertedTotalsFit(ss: seq<WebcilSection>)
    requires ss != [] && Packable(ss) && forall i | 0 <= i < |ss| :: SectionFits(ss[i])
    ensures TotalsFit(TotalsOf(ss), HeadersSize(|ss|))
  {
    FirstAddressFits(DataSections(ss));
    assert Layout(ss, HeadersSize(|ss|))[0].pointer == HeadersSize(|ss|);
  }

  lemma {:induction false} FilePrefix(prefix: Bytes, ss: seq<WebcilSection>, payload: Bytes)
    requires Whole(ss, payload)
    ensures At(File(prefix, ss, payload), 0, prefix)
  {
    var table := Entries(ss, Layout(ss, HeadersSize(|ss|)), 0);
    var file := File(prefix, ss, payload);
    assert file[0..|prefix|] == (prefix + table)[..|prefix|] == prefix;
  }

  /** A section that may be executed. */
  predicate Executable(s: PeSection) { s.characteristics / 0x2000_0000 % 2 == 1 }

  /** A section the loader may drop after relocation. */
  predicate Discardable(s: PeSection) { s.characteristics / 0x200_0000 % 2 == 1 }

  lemma {:induction false} KindsOf(index: nat, total: nat)
    requires index < total
    ensures var c := Characteristics(index, total);
            && (c / 0x2000_0000 % 2 == 1 <==> IsText(index, total))
            && (c / 0x200_0000 % 2 == 1 <==> 1 < total <= 3 && index == total - 1)
            && c / 0x4000_0000 == 1
  {
  }

  /** A name filled up to eight bytes. */
  function Name8(text: string): Bytes
    requires |text| <= 8
  {
    Ascii(text) + Zeros(8 - |text|)
  }

  lemma {:induction false} NamesOf(index: nat, total: nat)
    requires index < total <= 3
    ensures SectionName(index, total)
         == Name8(if index == 0 then ".text" else if index == 1 && total == 3 then ".rsrc" else ".reloc")
  {
    var text := if index == 0 then ".text" else if index == 1 && total == 3 then ".rsrc" else ".reloc";
    assert (Ascii(text) + Zeros(8))[..8] == Ascii(text) + Zeros(8 - |text|);
  }

  /**
   Every section ends within the image; of up to three the first alone is executable, and is the
   code the header speaks of; the last of several is alone discardable.
   */
  predicate SectionsAgree(ss: seq<WebcilSection>, table: seq<PeSection>, imageSize: nat, baseOfCode: nat,
      codeSize: nat)
  {
    |table| == |ss| && forall i | 0 <= i < |table| ::
      && table[i].virtualAddress + table[i].virtualSize <= imageSize
      && (Executable(table[i]) <==> |ss| <= 3 && i == 0)
      && (Executable(table[i]) ==> baseOfCode == table[i].virtualAddress && codeSize == ss[i].rawSize)
      && (Discardable(table[i]) <==> 1 < |ss| <= 3 && i == |ss| - 1)
  }

  lemma {:induction false} TableAgrees(ss: seq<WebcilSection>, places: seq<Place>)
    requires |places| == |ss| && ss != []
    ensures SectionsAgree(ss, Moved(ss, places), ImageSize(ss), TotalsOf(ss).baseOfCode, CodeSize(ss))
  {
    var table := Moved(ss, places);
    forall i | 0 <= i < |ss|
      ensures table[i].virtualAddress + table[i].virtualSize <= ImageSize(ss)
      ensures Executable(table[i]) <==> |ss| <= 3 && i == 0
      ensures Discardable(table[i]) <==> 1 < |ss| <= 3 && i == |ss| - 1
    {
      KindsOf(i, |ss|);
      ImageCovers(ss, i);
    }
  }

  lemma {:induction false} FileHeader(h: Header, ss: seq<WebcilSection>, payload: Bytes)
    requires ss != [] && U16(|ss|) && HeaderFits(h) && Whole(ss, payload) && Packable(ss)
    requires forall i | 0 <= i < |ss| :: SectionFits(ss[i])
    ensures var dll := File(Prefix(h, |ss|, TotalsOf(ss)), ss, payload);
            PeOptional(dll).Some? && HeaderOf(h, TotalsOf(ss), HeadersSize(|ss|), PeOptional(dll).value)
  {
    var prefix := Prefix(h, |ss|, TotalsOf(ss));
    ConvertedTotalsFit(ss);
    FilePrefix(prefix, ss, payload);
    OptionalRead(File(prefix, ss, payload), h, |ss|, TotalsOf(ss));
  }

  /**
   The converted file's headers, read through its own DOS and COFF headers: the constants of a
   managed assembly, the CLI and debug directories of the webcil header and no others, headers that
   end where the first section starts, sizes that add up, and a section table that agrees with them.
   */
  lemma {:induction false} HeadersReadBack(image: Image)
    requires Fitting(image) && HeaderFits(image.header) && Convertible(image)
    ensures Converted(image).Ok?
    ensures var dll, ss := Converted(image).value, image.sections;
            && PeOptional(dll).Some? && PeTable(dll).Some?
            && var pe, table := PeOptional(dll).value, PeTable(dll).value;
               && HeaderOf(image.header, TotalsOf(ss), HeadersSize(|ss|), pe)
               && SectionsAgree(ss, table, pe.imageSize, pe.baseOfCode, pe.codeSize)
               && pe.headersSize == table[0].rawPointer && pe.codeSize + pe.dataSize == RawSizes(ss)
  {
    var ss := image.sections;
    SectionsMoved(image, 0);
    PackableIff(ss);
    FileHeader(image.header, ss, image.payload);
    RawSizesOf(ss);
    TableAgrees(ss, Layout(ss, HeadersSize(|ss|)));
  }

  // ─── The loaded image ────────────────────────────────────────────────

  /** A section's bytes, and zeros behind them. */
  function RawByte(s: WebcilSection, payload: Bytes, k: nat): byte
    requires InPayload(s, payload)
  {
    if k < s.rawSize then Chunk(s, payload)[k] else 0
  }

  function FileByte(dll: Bytes, pointer: nat, size: nat, k: nat): byte {
    if k < size && pointer + k < |dll| then dll[pointer + k] else 0
  }

  /** The byte at an address, up to the virtual size of the section there. */
  function WebcilByte(ss: seq<WebcilSection>, payload: Bytes, rva: nat): Option<byte>
    requires Whole(ss, payload)
  {
    if ss == [] then None
    else if ss[0].virtualAddress <= rva < ss[0].virtualAddress + VirtualSize(ss[0]) then
      Some(RawByte(ss[0], payload, rva - ss[0].virtualAddress))
    else WebcilByte(ss[1..], payload, rva)
  }

  function PeByte(table: seq<PeSection>, dll: Bytes, rva: nat): Option<byte> {
    if table == [] then None
    else if table[0].virtualAddress <= rva < table[0].virtualAddress + table[0].virtualSize then
      Some(FileByte(dll, table[0].rawPointer, table[0].rawSize, rva - table[0].virtualAddress))
    else PeByte(table[1..], dll, rva)
  }

  lemma {:induction false} BodyByte(dll: Bytes, p: nat, s: WebcilSection, payload: Bytes, k: nat)
    requires InPayload(s, payload) && At(dll, p, Body(s, payload)) && k < FileSize(s.rawSize)
    ensures p + k < |dll| && dll[p + k] == if k < s.rawSize then Chunk(s, payload)[k] else 0
  {
    AtIndex(dll, p, Body(s, payload), k);
  }

  lemma {:induction false} PlacedByte(dll: Bytes, s: WebcilSection, place: Place, payload: Bytes, k: nat)
    requires InPayload(s, payload) && place.size == FileSize(s.rawSize) && At(dll, place.pointer, Body(s, payload))
    ensures FileByte(dll, place.pointer, place.size, k) == RawByte(s, payload, k)
  {
    if k < place.size { BodyByte(dll, place.pointer, s, payload, k); }
  }

  /** Whatever is read in the file at a section's place is read in the section. */
  ghost predicate Copied(dll: Bytes, ss: seq<WebcilSection>, places: seq<Place>, payload: Bytes)
    requires |places| == |ss| && Whole(ss, payload)
  {
    forall i: nat, k: nat | i < |ss| ::
      FileByte(dll, places[i].pointer, places[i].size, k) == RawByte(ss[i], payload, k)
  }

  lemma {:induction false} SameBytes(dll: Bytes, ss: seq<WebcilSection>, places: seq<Place>, payload: Bytes, rva: nat,
      i: nat)
    requires |places| == |ss| && Whole(ss, payload) && Copied(dll, ss, places, payload) && i <= |ss|
    ensures PeByte(Moved(ss, places)[i..], dll, rva) == WebcilByte(ss[i..], payload, rva)
    decreases |ss| - i
  {
    if i < |ss| {
      Peel(ss, i);
      Peel(Moved(ss, places), i);
      SameBytes(dll, ss, places, payload, rva, i + 1);
    }
  }

  /**
   Loaded through the converted file's own headers and section table, every virtual address
   holds the byte it has in the webcil image.
   */
  lemma {:induction false} EveryAddressKeepsItsByte(image: Image, rva: nat)
    requires Fitting(image) && Convertible(image)
    ensures Converted(image).Ok?
    ensures var dll := Converted(image).value;
            && PeTable(dll).Some?
            && PeByte(PeTable(dll).value, dll, rva) == WebcilByte(image.sections, image.payload, rva)
  {
    SectionsMoved(image, 0);
    var dll, ss := Converted(image).value, image.sections;
    var places := Layout(ss, HeadersSize(|ss|));
    forall i: nat, k: nat | i < |ss|
      ensures FileByte(dll, places[i].pointer, places[i].size, k) == RawByte(ss[i], image.payload, k)
    {
      SectionsMoved(image, i);
      PlacedByte(dll, ss[i], places[i], image.payload, k);
    }
    SameBytes(dll, ss, places, image.payload, rva, 0);
    assert ss[0..] == ss && Moved(ss, places)[0..] == Moved(ss, places);
  }

  /** The file ranges of two sections never overlap, and none overlaps the headers. */
  lemma {:induction false} FileRangesDisjoint(image: Image, i: nat, j: nat)
    requires Fitting(image) && Convertible(image) && i < j < |image.sections|
    ensures Converted(image).Ok?
    ensures var places := Layout(image.sections, HeadersSize(|image.sections|));
            && HeadersSize(|image.sections|) <= places[i].pointer
            && places[i].pointer + places[i].size <= places[j].pointer
            && places[j].pointer + places[j].size <= |Converted(image).value|
  {
    SectionsMoved(image, i);
    var places := Layout(image.sections, HeadersSize(|image.sections|));
    ContiguousIndexed(places, HeadersSize(|image.sections|), |Converted(image).value|, i, j);
    ContiguousIndexed(places, HeadersSize(|image.sections|), |Converted(image).value|, j, j);
  }

  lemma {:induction false} ImageCovers(ss: seq<WebcilSection>, i: nat)
    requires i < |ss|
    ensures ss[i].virtualAddress + VirtualSize(ss[i]) <= ImageSize(ss)
    decreases |ss|
  {
    TopCovers(ss, i);
  }

  lemma {:induction false} TopCovers(ss: seq<WebcilSection>, i: nat)
    requires i < |ss|
    ensures ss[i].virtualAddress + VirtualSize(ss[i]) <= TopAddress(ss)
    decreases |ss|
  {
    if i > 0 { TopCovers(ss[1..], i - 1); }
  }

  /** The whole conversion: of a module wrapping an image, whatever the encodings and the sections around it. */
  lemma {:induction false} ConversionOfWrapped(other: seq<Section>, sizeCode: Bytes, size: nat, countCode: Bytes,
      count: nat, first: Segment, flagCode: Bytes, lengthCode: Bytes, after: Bytes,
      h: Header, ss: seq<WebcilSection>, rest: Bytes)
    requires forall i | 0 <= i < |other| :: IsOther(other[i])
    requires Encodes(sizeCode, size) && Encodes(countCode, count) && count >= 2
    requires HeaderFits(h) && h.sections == |ss| && forall i | 0 <= i < |ss| :: SectionFits(ss[i])
    requires var payload := HeaderBytes(h) + TableBytes(ss) + rest;
             IsPassive(first) && |first.content| >= 4 && IsPassive(Segment(flagCode, lengthCode, payload))
    ensures var payload := HeaderBytes(h) + TableBytes(ss) + rest;
            var segments := countCode
              + (SegmentBytes(first) + (SegmentBytes(Segment(flagCode, lengthCode, payload)) + after));
            ToDll(Module(other, sizeCode, segments)) == Converted(Image(h, ss, payload))
  {
    var payload := HeaderBytes(h) + TableBytes(ss) + rest;
    var second := Segment(flagCode, lengthCode, payload);
    ExtractionInvertsWrapping(other, sizeCode, size, countCode, count, first, second, after);
    ParsingInvertsWriting(h, ss, rest);
  }

  // ─── The converter ───────────────────────────────────────────────────

  method PlaceSections(ss: seq<WebcilSection>) returns (places: seq<Place>)
    ensures places == Layout(ss, HeadersSize(|ss|))
  {
    places := [];
    var pos: nat := HeadersSize(|ss|);
    for i := 0 to |ss|
      invariant Layout(ss, HeadersSize(|ss|)) == places + Layout(ss[i..], pos)
    {
      var rawSize := AlignUp(ss[i].rawSize, FILE_ALIGNMENT);
      FileSizeIsAligned(ss[i].rawSize);
      assert ss[i..][1..] == ss[i + 1..];
      assert places + ([Place(pos, rawSize)] + Layout(ss[i + 1..], pos + rawSize))
          == places + [Place(pos, rawSize)] + Layout(ss[i + 1..], pos + rawSize);
      places := places + [Place(pos, rawSize)];
      pos := pos + rawSize;
    }
    assert ss[|ss|..] == [];
  }

  /** The entries from section `i` on; None when an offset or size does not fit its field. */
  function Table(ss: seq<WebcilSection>, places: seq<Place>, i: nat): Option<Bytes>
    requires |places| == |ss| && i <= |ss|
    decreases |ss| - i
  {
    if i == |ss| then Some([])
    else if !U32(places[i].size) || !U32(places[i].pointer) then None
    else After(Entry(ss[i], places[i], i, |ss|), Table(ss, places, i + 1))
  }

  function After(first: Bytes, rest: Option<Bytes>): Option<Bytes> {
    match rest case None => None case Some(more) => Some(first + more)
  }

  lemma {:induction false} AfterBoth(a: Bytes, b: Bytes, rest: Option<Bytes>)
    ensures After(a, After(b, rest)) == After(a + b, rest) && After([], rest) == rest
  {
    match rest
    case None =>
    case Some(more) => assert a + (b + more) == a + b + more && [] + more == more;
  }

  lemma {:induction false} PackedFromFirst(places: seq<Place>, i: nat)
    requires i < |places|
    ensures PlacesPack(places[i..]) <==> U32(places[i].size) && U32(places[i].pointer) && PlacesPack(places[i + 1..])
  {
    assert places[i..] == [places[i]] + places[i + 1..];
  }

  lemma {:induction false} TableIs(ss: seq<WebcilSection>, places: seq<Place>, i: nat)
    requires |places| == |ss| && i <= |ss|
    ensures Table(ss, places, i) == if PlacesPack(places[i..]) then Some(Entries(ss, places, i)) else None
    decreases |ss| - i
  {
    if i < |ss| {
      TableIs(ss, places, i + 1);
      PackedFromFirst(places, i);
    }
  }

  method BuildTable(ss: seq<WebcilSection>, places: seq<Place>) returns (table: Option<Bytes>)
    requires |places| == |ss|
    ensures table == if PlacesPack(places) then Some(Entries(ss, places, 0)) else None
  {
    TableIs(ss, places, 0);
    assert places[0..] == places;
    var entries: Bytes := [];
    AfterBoth([], [], Table(ss, places, 0));
    for i := 0 to |ss|
      invariant Table(ss, places, 0) == After(entries, Table(ss, places, i))
    {
      if !U32(places[i].size) || !U32(places[i].pointer) { return None; }
      var entry := Entry(ss[i], places[i], i, |ss|);
      AfterBoth(entries, entry, Table(ss, places, i + 1));
      entries := entries + entry;
    }
    assert entries + [] == entries;
    table := Some(entries);
  }

  /** The code and data base addresses, as the loop over the sections finds them. */
  method FindBases(ss: seq<WebcilSection>) returns (baseOfCode: nat, baseOfData: nat)
    ensures baseOfCode == TotalsOf(ss).baseOfCode && baseOfData == TotalsOf(ss).baseOfData
  {
    baseOfCode, baseOfData := 0, 0;
    for i := 0 to |ss|
      invariant baseOfCode == if i > 0 && |ss| <= 3 then ss[0].virtualAddress else 0
      invariant FirstAddress(DataSections(ss)) == if baseOfData != 0 then baseOfData
                else FirstAddress(if i == 0 then DataSections(ss) else ss[i..])
    {
      assert ss[i..][1..] == ss[i + 1..];
      if IsText(i, |ss|) {
        if baseOfCode == 0 { baseOfCode := ss[i].virtualAddress; }
      } else if baseOfData == 0 {
        baseOfData := ss[i].virtualAddress;
      }
    }
  }

  /** The sums of code and data, as the two comprehensions over the sections give them. */
  method SumSizes(ss: seq<WebcilSection>) returns (codeSize: nat, dataSize: nat)
    ensures codeSize == TotalsOf(ss).codeSize && dataSize == TotalsOf(ss).dataSize
  {
    codeSize, dataSize := 0, 0;
    for i := 0 to |ss|
      invariant codeSize == if i > 0 && |ss| <= 3 then ss[0].rawSize else 0
      invariant RawSizes(DataSections(ss)) == dataSize + RawSizes(if i == 0 then DataSections(ss) else ss[i..])
    {
      assert ss[i..][1..] == ss[i + 1..];
      if IsText(i, |ss|) { codeSize := codeSize + ss[i].rawSize; } else { dataSize := dataSize + ss[i].rawSize; }
    }
  }

  method FindImageSize(ss: seq<WebcilSection>) returns (size: nat)
    ensures size == ImageSize(ss)
  {
    var top: nat := 0;
    for i := 0 to |ss|
      invariant TopAddress(ss) == Max(top, TopAddress(ss[i..]))
    {
      assert ss[i..][1..] == ss[i + 1..];
      top := Max(top, ss[i].virtualAddress + VirtualSize(ss[i]));
    }
    size := AlignUp(top, SECTION_ALIGNMENT);
  }

  /** None when a section reaches past the payload. */
  function Appended(output: Bytes, ss: seq<WebcilSection>, payload: Bytes): Option<Bytes> {
    if Whole(ss, payload) then Some(output + Bodies(ss, payload)) else None
  }

  lemma {:induction false} AppendOne(output: Bytes, ss: seq<WebcilSection>, payload: Bytes)
    requires ss != []
    ensures Appended(output, ss, payload) ==
      if !InPayload(ss[0], payload) then None
      else Appended(output + Body(ss[0], payload), ss[1..], payload)
  {
    if Whole(ss, payload) {
      var first, rest := Body(ss[0], payload), Bodies(ss[1..], payload);
      assert output + (first + rest) == output + first + rest;
    } else if InPayload(ss[0], payload) {
      var i :| 0 <= i < |ss| && !InPayload(ss[i], payload);
      assert ss[1..][i - 1] == ss[i];
    }
  }

  /** Each place starts where the one before ends. */
  predicate Chained(places: seq<Place>, ss: seq<WebcilSection>, from: nat)
    requires |places| == |ss|
  {
    && (places != [] ==> places[0].pointer == from)
    && (forall k | 0 <= k < |places| :: places[k].size == FileSize(ss[k].rawSize))
    && forall k | 0 < k < |places| :: places[k].pointer == places[k - 1].pointer + places[k - 1].size
  }

  lemma {:induction false} LayoutIsChained(ss: seq<WebcilSection>, pos: nat)
    ensures Chained(Layout(ss, pos), ss, pos)
    decreases |ss|
  {
    if ss != [] {
      var size := FileSize(ss[0].rawSize);
      var rest := Layout(ss[1..], pos + size);
      LayoutIsChained(ss[1..], pos + size);
      assert Layout(ss, pos) == [Place(pos, size)] + rest;
    }
  }

  /** A slice ends with the bytes there are. */
  function Slice(payload: Bytes, from: nat, length: nat): Bytes {
    if from >= |payload| then []
    else if from + length > |payload| then payload[from..]
    else payload[from..from + length]
  }

  /** None when the slice is short. */
  method AppendBody(output: Bytes, s: WebcilSection, size: nat, payload: Bytes) returns (longer: Option<Bytes>)
    requires size == FileSize(s.rawSize)
    ensures longer == if InPayload(s, payload) then Some(output + Body(s, payload)) else None
  {
    var chunk := Slice(payload, s.rawPointer, s.rawSize);
    if |chunk| != s.rawSize { return None; }
    assert chunk == Chunk(s, payload);
    var grown := output + chunk;
    var pad := size - s.rawSize;
    assert output + (chunk + Zeros(pad)) == output + chunk + Zeros(pad);
    if pad > 0 { grown := grown + Zeros(pad); } else { assert grown + Zeros(pad) == grown; }
    longer := Some(grown);
  }

  method AppendSections(headers: Bytes, ss: seq<WebcilSection>, places: seq<Place>, payload: Bytes)
      returns (dll: Option<Bytes>)
    requires |places| == |ss| && Chained(places, ss, |headers|)
    ensures dll == Appended(headers, ss, payload)
  {
    var output := headers;
    for i := 0 to |ss|
      invariant |output| == if i == 0 then |headers| else places[i - 1].pointer + places[i - 1].size
      invariant Appended(headers, ss, payload) == Appended(output, ss[i..], payload)
    {
      var s, place := ss[i], places[i];
      assert |output| == place.pointer;
      AppendNext(output, ss, i, payload);
      var longer := AppendBody(output, s, place.size, payload);
      if longer == None { return None; }
      output := longer.value;
    }
    assert ss[|ss|..] == [] && output + [] == output;
    dll := Some(output);
  }

  lemma {:induction false} AppendNext(output: Bytes, ss: seq<WebcilSection>, i: nat, payload: Bytes)
    requires i < |ss|
    ensures Appended(output, ss[i..], payload) ==
      if !InPayload(ss[i], payload) then None
      else Appended(output + Body(ss[i], payload), ss[i + 1..], payload)
  {
    AppendOne(output, ss[i..], payload);
    assert ss[i..][1..] == ss[i + 1..];
  }

  method WebcilToDll(wasm: Bytes) returns (r: Result<Bytes>)
    ensures r == ToDll(wasm)
  {
    var payload := ExtractWebcilPayload(wasm);
    if payload.Err? { return Err(payload.error); }
    var parsed := ParseWebcil(payload.value);
    if parsed.Err? { return Err(parsed.error); }
    var image := parsed.value;
    var ss := image.sections;
    var places := PlaceSections(ss);
    if ss == [] { return Err(ValueError); }
    var imageSize := FindImageSize(ss);
    var codeSize, dataSize := SumSizes(ss);
    var baseOfCode, baseOfData := FindBases(ss);
    if !U32(dataSize) || !U32(imageSize) { return Err(StructError); }
    var table := BuildTable(ss, places);
    if table == None { return Err(StructError); }
    var prefix := Prefix(image.header, |ss|, Totals(codeSize, dataSize, baseOfCode, baseOfData, imageSize));
    var headers := PadTo(prefix + table.value, HeadersSize(|ss|));
    ParsedImageFits(payload.value);
    HeadersFilled(image);
    LayoutIsChained(ss, HeadersSize(|ss|));
    var dll := AppendSections(headers, ss, places, payload.value);
    r := if dll.Some? then Ok(dll.value) else Err(ValueError);
  }

  lemma {:induction false} HeadersFilled(image: Image)
    requires Fitting(image) && Packable(image.sections)
    ensures var ss := image.sections;
            var entries := Entries(ss, Layout(ss, HeadersSize(|ss|)), 0);
            |PadTo(Prefix(image.header, |ss|, TotalsOf(ss)) + entries, HeadersSize(|ss|))| == HeadersSize(|ss|)
  {
    var ss := image.sections;
    var places := Layout(ss, HeadersSize(|ss|));
    PrefixLeads(image.header, |ss|, TotalsOf(ss));
    EntriesLength(ss, places, 0);
    PadFills(Prefix(image.header, |ss|, TotalsOf(ss)) + Entries(ss, places, 0), HeadersSize(|ss|));
  }

  lemma {:induction false} PadFills(s: Bytes, n: nat)
    requires |s| <= n
    ensures |PadTo(s, n)| == n
  {
  }
}

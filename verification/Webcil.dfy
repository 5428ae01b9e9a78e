/**
 Webcil images: the header and section table that stand for a managed assembly's PE file.
 */
module Webcils {
  import opened ByteStrings
  import opened WasmContainers

  const WEBCIL_MAGIC := 0x4C496257

  const V0_HEADER_SIZE := 28

  const V1_HEADER_SIZE := 32

  const ENTRY_SIZE := 16

  datatype Header = Header(major: nat, minor: nat, sections: nat, reserved0: nat,
                           cliRva: nat, cliSize: nat, debugRva: nat, debugSize: nat, tableBase: nat)

  datatype WebcilSection = WebcilSection(virtualSize: nat, virtualAddress: nat, rawSize: nat, rawPointer: nat)

  function Num(buf: Bytes, p: nat, k: nat): nat
    requires p + k <= |buf|
  {
    FromLE(buf[p..p + k])
  }

  function SectionAt(payload: Bytes, p: nat): WebcilSection
    requires p + ENTRY_SIZE <= |payload|
  {
    WebcilSection(Num(payload, p, 4), Num(payload, p + 4, 4), Num(payload, p + 8, 4), Num(payload, p + 12, 4))
  }

  function SectionTable(payload: Bytes, p: nat, n: nat): Result<seq<WebcilSection>>
    decreases n
  {
    if n == 0 then Ok([])
    else if p + ENTRY_SIZE > |payload| then Err(StructError)
    else
      var rest :- SectionTable(payload, p + ENTRY_SIZE, n - 1);
      Ok([SectionAt(payload, p)] + rest)
  }

  function HeaderSize(h: Header): nat { if h.major >= 1 then V1_HEADER_SIZE else V0_HEADER_SIZE }

  function HeaderAt(payload: Bytes): Result<Header> {
    if |payload| < V0_HEADER_SIZE then Err(ValueError)
    else if Num(payload, 0, 4) != WEBCIL_MAGIC then Err(ValueError)
    else
      var h := Header(Num(payload, 4, 2), Num(payload, 6, 2), Num(payload, 8, 2), Num(payload, 10, 2),
                      Num(payload, 12, 4), Num(payload, 16, 4), Num(payload, 20, 4), Num(payload, 24, 4), 0xFFFF_FFFF);
      if h.major > 1 then Err(ValueError)
      else if h.major == 0 then Ok(h)
      else if |payload| < V1_HEADER_SIZE then Err(ValueError)
      else Ok(h.(tableBase := Num(payload, V0_HEADER_SIZE, 4)))
  }

  datatype Image = Image(header: Header, sections: seq<WebcilSection>, payload: Bytes)

  function Parsed(payload: Bytes): Result<Image> {
    var h :- HeaderAt(payload);
    var sections :- SectionTable(payload, HeaderSize(h), h.sections);
    Ok(Image(h, sections, payload))
  }

  method ParseWebcil(payload: Bytes) returns (r: Result<Image>)
    ensures r == Parsed(payload)
  {
    var header :- HeaderAt(payload);
    var sections: seq<WebcilSection>, pos: nat := [], HeaderSize(header);
    Nothing(SectionTable(payload, pos, header.sections));
    for i := 0 to header.sections
      invariant Then(sections, SectionTable(payload, pos, header.sections - i))
               == SectionTable(payload, HeaderSize(header), header.sections)
    {
      if pos + ENTRY_SIZE > |payload| { return Err(StructError); }
      OneMore(sections, payload, pos, header.sections - i);
      sections := sections + [SectionAt(payload, pos)];
      pos := pos + ENTRY_SIZE;
    }
    assert sections + [] == sections;
    r := Ok(Image(header, sections, payload));
  }

  function Then(sections: seq<WebcilSection>, rest: Result<seq<WebcilSection>>): Result<seq<WebcilSection>> {
    match rest
    case Err(e) => Err(e)
    case Ok(more) => Ok(sections + more)
  }

  lemma {:induction false} Nothing(rest: Result<seq<WebcilSection>>)
    ensures Then([], rest) == rest
  {
    if rest.Ok? { assert [] + rest.value == rest.value; }
  }

  lemma {:induction false} OneMore(sections: seq<WebcilSection>, payload: Bytes, p: nat, n: nat)
    requires n > 0 && p + ENTRY_SIZE <= |payload|
    ensures Then(sections, SectionTable(payload, p, n))
         == Then(sections + [SectionAt(payload, p)], SectionTable(payload, p + ENTRY_SIZE, n - 1))
  {
    match SectionTable(payload, p + ENTRY_SIZE, n - 1)
    case Err(_) =>
    case Ok(rest) =>
      assert sections + ([SectionAt(payload, p)] + rest) == sections + [SectionAt(payload, p)] + rest;
  }

  // ─── Packed fields ───────────────────────────────────────────────────

  /** A little-endian field of a record. */
  datatype Field = Field(value: nat, width: nat)

  function Packed(fs: seq<Field>): Bytes {
    if fs == [] then [] else LE(fs[0].value, fs[0].width) + Packed(fs[1..])
  }

  function Offset(fs: seq<Field>, i: nat): nat
    requires i <= |fs|
    decreases i
  {
    if i == 0 then 0 else Offset(fs, i - 1) + fs[i - 1].width
  }

  lemma {:induction false} OffsetInTail(fs: seq<Field>, i: nat)
    requires 0 < i <= |fs|
    ensures Offset(fs, i) == fs[0].width + Offset(fs[1..], i - 1)
    decreases i
  {
    if i > 1 { OffsetInTail(fs, i - 1); }
  }

  lemma {:induction false} PackedLength(fs: seq<Field>)
    ensures |Packed(fs)| == Offset(fs, |fs|)
  {
    if fs != [] {
      PackedLength(fs[1..]);
      OffsetInTail(fs, |fs|);
    }
  }

  /** Each field is read back at its offset. */
  lemma {:induction false} FieldRead(buf: Bytes, p: nat, fs: seq<Field>, i: nat)
    requires At(buf, p, Packed(fs)) && i < |fs| && fs[i].value < Pow256(fs[i].width)
    ensures p + Offset(fs, i) + fs[i].width <= |buf|
    ensures Num(buf, p + Offset(fs, i), fs[i].width) == fs[i].value
    decreases |fs|
  {
    var first := LE(fs[0].value, fs[0].width);
    AtSplit(buf, p, first, Packed(fs[1..]));
    if i == 0 {
      LERoundTrip(fs[0].value, fs[0].width);
    } else {
      FieldRead(buf, p + |first|, fs[1..], i - 1);
      OffsetInTail(fs, i);
    }
  }

  // ─── Writing ─────────────────────────────────────────────────────────

  predicate U16(n: nat) { n < 0x1_0000 }

  predicate U32(n: nat) { n < 0x1_0000_0000 }

  predicate SectionFits(s: WebcilSection) {
    U32(s.virtualSize) && U32(s.virtualAddress) && U32(s.rawSize) && U32(s.rawPointer)
  }

  predicate HeaderFits(h: Header) {
    && h.major <= 1 && U16(h.minor) && U16(h.sections) && U16(h.reserved0)
    && U32(h.cliRva) && U32(h.cliSize) && U32(h.debugRva) && U32(h.debugSize)
    && (if h.major == 0 then h.tableBase == 0xFFFF_FFFF else U32(h.tableBase))
  }

  function SectionBytes(s: WebcilSection): Bytes {
    Packed([Field(s.virtualSize, 4), Field(s.virtualAddress, 4), Field(s.rawSize, 4), Field(s.rawPointer, 4)])
  }

  function TableBytes(ss: seq<WebcilSection>): Bytes {
    if ss == [] then [] else SectionBytes(ss[0]) + TableBytes(ss[1..])
  }

  function HeaderFields(h: Header): seq<Field> {
    [Field(WEBCIL_MAGIC, 4), Field(h.major, 2), Field(h.minor, 2), Field(h.sections, 2), Field(h.reserved0, 2),
     Field(h.cliRva, 4), Field(h.cliSize, 4), Field(h.debugRva, 4), Field(h.debugSize, 4)]
  }

  function HeaderBytes(h: Header): Bytes {
    Packed(HeaderFields(h)) + if h.major == 0 then [] else LE(h.tableBase, 4)
  }

  lemma {:induction false} SectionRead(buf: Bytes, p: nat, s: WebcilSection)
    requires SectionFits(s) && At(buf, p, SectionBytes(s))
    ensures p + ENTRY_SIZE <= |buf| && SectionAt(buf, p) == s && |SectionBytes(s)| == ENTRY_SIZE
  {
    var fs := [Field(s.virtualSize, 4), Field(s.virtualAddress, 4), Field(s.rawSize, 4), Field(s.rawPointer, 4)];
    Pow256Values();
    FieldRead(buf, p, fs, 0);
    FieldRead(buf, p, fs, 1);
    FieldRead(buf, p, fs, 2);
    FieldRead(buf, p, fs, 3);
    PackedLength(fs);
  }

  lemma {:induction false} TableRead(buf: Bytes, p: nat, ss: seq<WebcilSection>)
    requires At(buf, p, TableBytes(ss)) && forall i | 0 <= i < |ss| :: SectionFits(ss[i])
    ensures SectionTable(buf, p, |ss|) == Ok(ss)
    decreases |ss|
  {
    if ss != [] {
      AtSplit(buf, p, SectionBytes(ss[0]), TableBytes(ss[1..]));
      SectionRead(buf, p, ss[0]);
      TableRead(buf, p + ENTRY_SIZE, ss[1..]);
      assert ss == [ss[0]] + ss[1..];
    }
  }

  lemma {:induction false} HeaderNumbers(buf: Bytes, h: Header)
    requires HeaderFits(h) && At(buf, 0, Packed(HeaderFields(h)))
    ensures V0_HEADER_SIZE <= |buf| && |Packed(HeaderFields(h))| == V0_HEADER_SIZE
    ensures Num(buf, 0, 4) == WEBCIL_MAGIC && Num(buf, 4, 2) == h.major && Num(buf, 6, 2) == h.minor
    ensures Num(buf, 8, 2) == h.sections && Num(buf, 10, 2) == h.reserved0 && Num(buf, 12, 4) == h.cliRva
    ensures Num(buf, 16, 4) == h.cliSize && Num(buf, 20, 4) == h.debugRva && Num(buf, 24, 4) == h.debugSize
  {
    var fs := HeaderFields(h);
    Pow256Values();
    PackedLength(fs);
    HeaderOffsets(fs);
    FieldRead(buf, 0, fs, 0);
    FieldRead(buf, 0, fs, 1);
    FieldRead(buf, 0, fs, 2);
    FieldRead(buf, 0, fs, 3);
    FieldRead(buf, 0, fs, 4);
    FieldRead(buf, 0, fs, 5);
    FieldRead(buf, 0, fs, 6);
    FieldRead(buf, 0, fs, 7);
    FieldRead(buf, 0, fs, 8);
  }

  lemma {:induction false} HeaderRead(buf: Bytes, h: Header)
    requires HeaderFits(h) && At(buf, 0, HeaderBytes(h))
    ensures HeaderAt(buf) == Ok(h) && |HeaderBytes(h)| == HeaderSize(h)
  {
    AtSplit(buf, 0, Packed(HeaderFields(h)), if h.major == 0 then [] else LE(h.tableBase, 4));
    HeaderNumbers(buf, h);
    Pow256Values();
    if h.major == 1 { LERoundTrip(h.tableBase, 4); }
  }

  lemma {:induction false} HeaderOffsets(fs: seq<Field>)
    requires |fs| == 9 && fs[0].width == 4 && fs[1].width == fs[2].width == fs[3].width == fs[4].width == 2
    requires fs[5].width == fs[6].width == fs[7].width == fs[8].width == 4
    ensures Offset(fs, 0) == 0 && Offset(fs, 1) == 4 && Offset(fs, 2) == 6 && Offset(fs, 3) == 8 && Offset(fs, 4) == 10
    ensures Offset(fs, 5) == 12 && Offset(fs, 6) == 16 && Offset(fs, 7) == 20 && Offset(fs, 8) == 24
             && Offset(fs, 9) == 28
  {
  }

  /** Parsing gives back the header and section table that were written, whatever follows. */
  lemma {:induction false} ParsingInvertsWriting(h: Header, ss: seq<WebcilSection>, rest: Bytes)
    requires HeaderFits(h) && h.sections == |ss| && forall i | 0 <= i < |ss| :: SectionFits(ss[i])
    ensures var payload := HeaderBytes(h) + TableBytes(ss) + rest;
            Parsed(payload) == Ok(Image(h, ss, payload))
  {
    var header, table := HeaderBytes(h), TableBytes(ss);
    var payload := header + table + rest;
    assert payload[0..|header|] == header && payload[|header|..|header| + |table|] == table;
    HeaderRead(payload, h);
    TableRead(payload, |header|, ss);
  }

  // ─── What is parsed was there ────────────────────────────────────────

  /** The fields hold what is read from `p` on, one behind the other. */
  predicate ReadFrom(buf: Bytes, p: nat, fs: seq<Field>)
    decreases |fs|
  {
    if fs == [] then p <= |buf|
    else
      && p + fs[0].width <= |buf| && fs[0].value == Num(buf, p, fs[0].width)
      && ReadFrom(buf, p + fs[0].width, fs[1..])
  }

  /** Such fields are the bytes that were read. */
  lemma {:induction false} FieldsAreBytes(buf: Bytes, p: nat, fs: seq<Field>)
    requires ReadFrom(buf, p, fs)
    ensures At(buf, p, Packed(fs))
    decreases |fs|
  {
    if fs != [] {
      var w := fs[0].width;
      FieldsAreBytes(buf, p + w, fs[1..]);
      FieldIsBytes(buf, p, fs[0]);
      AtSplit(buf, p, LE(fs[0].value, w), Packed(fs[1..]));
    }
  }

  lemma {:induction false} OneMoreField(buf: Bytes, p: nat, fs: seq<Field>, i: nat)
    requires i < |fs| && p + fs[i].width <= |buf| && fs[i].value == Num(buf, p, fs[i].width)
    requires ReadFrom(buf, p + fs[i].width, fs[i + 1..])
    ensures ReadFrom(buf, p, fs[i..])
  {
    assert fs[i..][1..] == fs[i + 1..];
  }

  lemma {:induction false} FieldIsBytes(buf: Bytes, p: nat, f: Field)
    requires p + f.width <= |buf| && f.value == Num(buf, p, f.width)
    ensures At(buf, p, LE(f.value, f.width))
  {
    LEInverts(buf[p..p + f.width]);
  }

  lemma {:induction false} SectionIsBytes(payload: Bytes, p: nat)
    requires p + ENTRY_SIZE <= |payload|
    ensures At(payload, p, SectionBytes(SectionAt(payload, p)))
  {
    var s := SectionAt(payload, p);
    var fs := [Field(s.virtualSize, 4), Field(s.virtualAddress, 4), Field(s.rawSize, 4), Field(s.rawPointer, 4)];
    assert ReadFrom(payload, p + 16, fs[4..]);
    OneMoreField(payload, p + 12, fs, 3);
    OneMoreField(payload, p + 8, fs, 2);
    OneMoreField(payload, p + 4, fs, 1);
    OneMoreField(payload, p, fs, 0);
    FieldsAreBytes(payload, p, fs[0..]);
    assert fs[0..] == fs;
  }

  lemma {:induction false} TableIsBytes(payload: Bytes, p: nat, n: nat)
    requires p <= |payload| && SectionTable(payload, p, n).Ok?
    ensures |SectionTable(payload, p, n).value| == n && At(payload, p, TableBytes(SectionTable(payload, p, n).value))
    decreases n
  {
    if n > 0 {
      var rest := SectionTable(payload, p + ENTRY_SIZE, n - 1).value;
      TableIsBytes(payload, p + ENTRY_SIZE, n - 1);
      SectionIsBytes(payload, p);
      SectionLength(SectionAt(payload, p));
      AtSplit(payload, p, SectionBytes(SectionAt(payload, p)), TableBytes(rest));
      assert ([SectionAt(payload, p)] + rest)[1..] == rest;
    }
  }

  lemma {:induction false} SectionLength(s: WebcilSection)
    ensures |SectionBytes(s)| == ENTRY_SIZE
  {
    PackedLength([Field(s.virtualSize, 4), Field(s.virtualAddress, 4), Field(s.rawSize, 4), Field(s.rawPointer, 4)]);
  }

  lemma {:induction false} HeaderIsBytes(payload: Bytes)
    requires HeaderAt(payload).Ok?
    ensures var h := HeaderAt(payload).value; At(payload, 0, Packed(HeaderFields(h))) && h.major <= 1
  {
    var fs := HeaderFields(HeaderAt(payload).value);
    assert ReadFrom(payload, 28, fs[9..]);
    OneMoreField(payload, 24, fs, 8);
    OneMoreField(payload, 20, fs, 7);
    OneMoreField(payload, 16, fs, 6);
    OneMoreField(payload, 12, fs, 5);
    OneMoreField(payload, 10, fs, 4);
    OneMoreField(payload, 8, fs, 3);
    OneMoreField(payload, 6, fs, 2);
    OneMoreField(payload, 4, fs, 1);
    OneMoreField(payload, 0, fs, 0);
    FieldsAreBytes(payload, 0, fs[0..]);
    assert fs[0..] == fs;
  }

  lemma {:induction false} WholeHeaderIsBytes(payload: Bytes)
    requires HeaderAt(payload).Ok?
    ensures var h := HeaderAt(payload).value;
            At(payload, 0, HeaderBytes(h)) && |HeaderBytes(h)| == HeaderSize(h) <= |payload|
  {
    var h := HeaderAt(payload).value;
    HeaderIsBytes(payload);
    PackedLength(HeaderFields(h));
    HeaderOffsets(HeaderFields(h));
    if h.major == 1 {
      FieldIsBytes(payload, V0_HEADER_SIZE, Field(h.tableBase, 4));
      AtSplit(payload, 0, Packed(HeaderFields(h)), LE(h.tableBase, 4));
    } else {
      assert Packed(HeaderFields(h)) + [] == Packed(HeaderFields(h));
    }
  }

  /**
   Whatever parses opens with exactly the header and table that were found in it, in one of
   the two versions; nothing else parses.
   */
  lemma {:induction false} WritingInvertsParsing(payload: Bytes)
    requires Parsed(payload).Ok?
    ensures var image := Parsed(payload).value;
            && image.payload == payload && image.header.sections == |image.sections| && image.header.major <= 1
            && At(payload, 0, HeaderBytes(image.header) + TableBytes(image.sections))
  {
    var h := HeaderAt(payload).value;
    WholeHeaderIsBytes(payload);
    HeaderIsBytes(payload);
    TableIsBytes(payload, HeaderSize(h), h.sections);
    AtSplit(payload, 0, HeaderBytes(h), TableBytes(Parsed(payload).value.sections));
  }
}

/**
 Skipping over values agrees with the structure of the format (MessagePack specification,
 section "Formats"): every tag, in every width it allows, nested to any depth.
 */
module WireSkipping {
  import opened ByteStrings
  import opened BlazorPack

  /** Where a count is written: in the tag, or in so many bytes after it. */
  datatype Width = InTag | One | Two | Four

  datatype Wire =
    | Atom(tag: byte)
    | Number(tag: byte, payload: Bytes)
    | Text(width: Width, data: Bytes)
    | Blob(width: Width, data: Bytes)
    | Items(width: Width, elems: seq<Wire>)
    | Table(width: Width, entries: seq<Wire>)
    | Foreign(tag: byte, payload: Bytes)

  predicate Fits(n: nat, width: Width, inTag: nat, one: bool) {
    match width
    case InTag => n < inTag
    case One => one && n < 0x100
    case Two => n < 0x1_0000
    case Four => n < 0x8000_0000
  }

  /** Floats, extensions and the reserved tag: values of the format the codec does not know. */
  predicate IsForeignTag(t: byte) {
    t == 0xC1 || 0xC7 <= t <= 0xCB || 0xD4 <= t <= 0xD8
  }

  predicate WellFormed(w: Wire) {
    match w
    case Atom(t) => t == 0xC0 || t == 0xC2 || t == 0xC3 || IntWidth(t) == Some(0)
    case Number(t, payload) => IntWidth(t).Some? && IntWidth(t).value == |payload| > 0
    case Text(width, data) => Fits(|data|, width, 32, true)
    case Blob(width, data) => Fits(|data|, width, 0, true)
    case Items(width, elems) => Fits(|elems|, width, 16, false) && AllWellFormed(elems)
    case Table(width, entries) =>
      |entries| % 2 == 0 && Fits(|entries| / 2, width, 16, false) && AllWellFormed(entries)
    case Foreign(t, _) => IsForeignTag(t)
  }

  predicate AllWellFormed(ws: seq<Wire>) {
    forall i | 0 <= i < |ws| :: WellFormed(ws[i])
  }

  /** A tag, then a count of `n` in the given width; `base` holds small counts, `first` is the narrowest wide tag. */
  function Header(n: nat, width: Width, base: byte, t1: byte, t2: byte, t4: byte): Bytes
    requires Fits(n, width, 256 - base, true)
  {
    match width
    case InTag => [base + n]
    case One => [t1, n]
    case Two => [t2] + BE2(n)
    case Four => [t4] + BE4(n)
  }

  function Encode(w: Wire): Bytes
    requires WellFormed(w)
    decreases w, 0
  {
    match w
    case Atom(t) => [t]
    case Number(t, payload) => [t] + payload
    case Text(width, data) => Header(|data|, width, 0xA0, 0xD9, 0xDA, 0xDB) + data
    case Blob(width, data) => Header(|data|, width, 0, 0xC4, 0xC5, 0xC6) + data
    case Items(width, elems) => Header(|elems|, width, 0x90, 0, 0xDC, 0xDD) + EncodeAll(elems)
    case Table(width, entries) => Header(|entries| / 2, width, 0x80, 0, 0xDE, 0xDF) + EncodeAll(entries)
    case Foreign(t, payload) => [t] + payload
  }

  function EncodeAll(ws: seq<Wire>): Bytes
    requires AllWellFormed(ws)
    decreases ws
  {
    if ws == [] then [] else EncodeAll(ws[..|ws| - 1]) + Encode(ws[|ws| - 1])
  }

  /** No foreign value and no unsigned integer above the largest signed one anywhere inside. */
  predicate Skippable(w: Wire)
    requires WellFormed(w)
    decreases w, 0
  {
    match w
    case Number(t, payload) => t == 0xCF ==> payload[0] < 0x80
    case Items(_, elems) => AllSkippable(elems)
    case Table(_, entries) => AllSkippable(entries)
    case Foreign(_, _) => false
    case _ => true
  }

  predicate AllSkippable(ws: seq<Wire>)
    requires AllWellFormed(ws)
    decreases ws
  {
    ws == [] || (AllSkippable(ws[..|ws| - 1]) && Skippable(ws[|ws| - 1]))
  }

  lemma {:induction false} HeaderCount(buf: Bytes, p: nat, n: nat, width: Width, base: byte, t1: byte, t2: byte,
      t4: byte)
    requires Fits(n, width, 256 - base, true) && At(buf, p, Header(n, width, base, t1, t2, t4))
    ensures var h := Header(n, width, base, t1, t2, t4);
            && buf[p] == h[0] && p + |h| <= |buf|
            && (width == One ==> DecCount(buf, p + 1, 1) == Ok(n, p + |h|))
            && (width == Two ==> DecCount(buf, p + 1, 2) == Ok(n, p + |h|))
            && (width == Four ==> DecCount(buf, p + 1, 4) == Ok(n, p + |h|))
  {
    AtIndex(buf, p, Header(n, width, base, t1, t2, t4), 0);
    match width
    case InTag =>
    case One => AtIndex(buf, p, [t1, n], 1);
    case Two => TagThenRest(buf, p, t2, BE2(n)); ReadBE2(buf, p + 1, n);
    case Four => TagThenRest(buf, p, t4, BE4(n)); ReadBE4(buf, p + 1, n);
  }

  lemma {:induction false} TextLength(buf: Bytes, p: nat, width: Width, n: nat)
    requires Fits(n, width, 32, true) && At(buf, p, Header(n, width, 0xA0, 0xD9, 0xDA, 0xDB))
    ensures IsStrTag(buf[p]) && StrLength(buf, p) == Ok(n, p + |Header(n, width, 0xA0, 0xD9, 0xDA, 0xDB)|)
  {
    HeaderCount(buf, p, n, width, 0xA0, 0xD9, 0xDA, 0xDB);
  }

  lemma {:induction false} BlobLength(buf: Bytes, p: nat, width: Width, n: nat)
    requires Fits(n, width, 0, true) && At(buf, p, Header(n, width, 0, 0xC4, 0xC5, 0xC6))
    ensures IsBinTag(buf[p]) && BinLength(buf, p) == Ok(n, p + |Header(n, width, 0, 0xC4, 0xC5, 0xC6)|)
  {
    HeaderCount(buf, p, n, width, 0, 0xC4, 0xC5, 0xC6);
  }

  lemma {:induction false} SkipText(buf: Bytes, p: nat, width: Width, data: Bytes)
    requires Fits(|data|, width, 32, true)
    requires At(buf, p, Header(|data|, width, 0xA0, 0xD9, 0xDA, 0xDB) + data)
    ensures Skip(buf, p) == Ok((), p + |Header(|data|, width, 0xA0, 0xD9, 0xDA, 0xDB) + data|)
  {
    AtSplit(buf, p, Header(|data|, width, 0xA0, 0xD9, 0xDA, 0xDB), data);
    TextLength(buf, p, width, |data|);
  }

  lemma {:induction false} SkipBlob(buf: Bytes, p: nat, width: Width, data: Bytes)
    requires Fits(|data|, width, 0, true)
    requires At(buf, p, Header(|data|, width, 0, 0xC4, 0xC5, 0xC6) + data)
    ensures Skip(buf, p) == Ok((), p + |Header(|data|, width, 0, 0xC4, 0xC5, 0xC6) + data|)
  {
    AtSplit(buf, p, Header(|data|, width, 0, 0xC4, 0xC5, 0xC6), data);
    BlobLength(buf, p, width, |data|);
  }

  lemma {:induction false} SkipNumber(buf: Bytes, p: nat, t: byte, payload: Bytes)
    requires IntWidth(t) == Some(|payload|) && At(buf, p, [t] + payload)
    ensures (t == 0xCF ==> payload[0] < 0x80) ==> Skip(buf, p) == Ok((), p + 1 + |payload|)
    ensures t == 0xCF && payload[0] >= 0x80 ==> Skip(buf, p).Fail?
  {
    TagThenRest(buf, p, t, payload);
    if t == 0xCF {
      AtIndex(buf, p + 1, payload, 0);
      assert U8(buf, p + 1) < 0x8000_0000_0000_0000 <==> payload[0] < 0x80;
    }
  }

  /** An array or a map is skipped as its elements are. */
  lemma {:induction false} SkipItems(buf: Bytes, p: nat, width: Width, n: nat)
    requires Fits(n, width, 16, false) && At(buf, p, Header(n, width, 0x90, 0, 0xDC, 0xDD))
    ensures Skip(buf, p) == SkipMany(buf, p + |Header(n, width, 0x90, 0, 0xDC, 0xDD)|, n)
  {
    HeaderCount(buf, p, n, width, 0x90, 0, 0xDC, 0xDD);
  }

  lemma {:induction false} SkipTable(buf: Bytes, p: nat, width: Width, n: nat)
    requires Fits(n, width, 16, false) && At(buf, p, Header(n, width, 0x80, 0, 0xDE, 0xDF))
    ensures Skip(buf, p) == SkipMany(buf, p + |Header(n, width, 0x80, 0, 0xDE, 0xDF)|, 2 * n)
  {
    HeaderCount(buf, p, n, width, 0x80, 0, 0xDE, 0xDF);
  }

  lemma {:induction false} ItemsSplit(buf: Bytes, p: nat, width: Width, elems: seq<Wire>) returns (q: nat)
    requires WellFormed(Items(width, elems)) && At(buf, p, Encode(Items(width, elems)))
    ensures At(buf, q, EncodeAll(elems)) && q + |EncodeAll(elems)| == p + |Encode(Items(width, elems))|
    ensures Skip(buf, p) == SkipMany(buf, q, |elems|)
  {
    var h := Header(|elems|, width, 0x90, 0, 0xDC, 0xDD);
    AtSplit(buf, p, h, EncodeAll(elems));
    SkipItems(buf, p, width, |elems|);
    q := p + |h|;
  }

  lemma {:induction false} TableSplit(buf: Bytes, p: nat, width: Width, entries: seq<Wire>) returns (q: nat)
    requires WellFormed(Table(width, entries)) && At(buf, p, Encode(Table(width, entries)))
    ensures At(buf, q, EncodeAll(entries)) && q + |EncodeAll(entries)| == p + |Encode(Table(width, entries))|
    ensures Skip(buf, p) == SkipMany(buf, q, |entries|)
  {
    var h := Header(|entries| / 2, width, 0x80, 0, 0xDE, 0xDF);
    AtSplit(buf, p, h, EncodeAll(entries));
    SkipTable(buf, p, width, |entries| / 2);
    q := p + |h|;
  }

  /** A run of skips as its all but last and its last. */
  lemma {:induction false} SkipSnoc(buf: Bytes, p: nat, n: nat, length: nat, last: nat, frontOk: bool, lastOk: bool)
    requires if frontOk then SkipMany(buf, p, n) == Ok((), p + length) else SkipMany(buf, p, n).Fail?
    requires if lastOk then Skip(buf, p + length) == Ok((), p + length + last) else Skip(buf, p + length).Fail?
    ensures if frontOk && lastOk then SkipMany(buf, p, n + 1) == Ok((), p + length + last)
            else SkipMany(buf, p, n + 1).Fail?
  {
  }

  /** The outcome of a skip: the end of a skippable value, or failure. */
  predicate SkipsTo(r: Read<()>, ok: bool, end: nat) {
    if ok then r == Ok((), end) else r.Fail?
  }

  lemma {:induction false} SkipLeaf(buf: Bytes, p: nat, w: Wire)
    requires WellFormed(w) && !w.Items? && !w.Table? && At(buf, p, Encode(w))
    ensures SkipsTo(Skip(buf, p), Skippable(w), p + |Encode(w)|)
  {
    match w
    case Atom(t) => AtIndex(buf, p, [t], 0);
    case Number(t, payload) => SkipNumber(buf, p, t, payload);
    case Text(width, data) => SkipText(buf, p, width, data);
    case Blob(width, data) => SkipBlob(buf, p, width, data);
    case Foreign(t, payload) => TagThenRest(buf, p, t, payload);
  }

  /**
   SkipValue stops exactly at the end of a well-formed value, whatever follows it, when
   nothing inside is foreign or an unsigned integer above the largest signed one; when
   something is, it fails.
   */
  lemma {:induction false} SkipAgreesWithStructure(buf: Bytes, p: nat, w: Wire)
    requires WellFormed(w) && At(buf, p, Encode(w))
    ensures SkipsTo(Skip(buf, p), Skippable(w), p + |Encode(w)|)
    decreases w, 0
  {
    match w
    case Items(width, elems) =>
      var q := ItemsSplit(buf, p, width, elems);
      SkipManyAgrees(buf, q, elems);
    case Table(width, entries) =>
      var q := TableSplit(buf, p, width, entries);
      SkipManyAgrees(buf, q, entries);
    case _ => SkipLeaf(buf, p, w);
  }

  lemma {:induction false} SkipManyAgrees(buf: Bytes, p: nat, ws: seq<Wire>)
    requires AllWellFormed(ws) && At(buf, p, EncodeAll(ws))
    ensures SkipsTo(SkipMany(buf, p, |ws|), AllSkippable(ws), p + |EncodeAll(ws)|)
    decreases ws
  {
    if ws != [] {
      var front, last := ws[..|ws| - 1], ws[|ws| - 1];
      var a, e := EncodeAll(front), Encode(last);
      AtSplit(buf, p, a, e);
      SkipManyAgrees(buf, p, front);
      SkipAgreesWithStructure(buf, p + |a|, last);
      SkipSnoc(buf, p, |front|, |a|, |e|, AllSkippable(front), Skippable(last));
    }
  }

  /** On any bytes at all: where ReadValue succeeds, SkipValue stops at the same place. */
  lemma {:induction false} SkipStopsWhereReadDoes(buf: Bytes, p: nat)
    requires DecValue(buf, p).Ok?
    ensures Skip(buf, p) == Ok((), DecValue(buf, p).next)
  {
  }

  lemma {:induction false} SkipStopsAfterWritten(buf: Bytes, p: nat, v: Value)
    requires Encodable(v) && At(buf, p, EncValue(v))
    ensures Skip(buf, p) == Ok((), p + |EncValue(v)|)
  {
    ValueRoundTrip(buf, p, v);
    SkipStopsWhereReadDoes(buf, p);
  }
}
